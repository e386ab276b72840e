/** What a restore that went through leaves in the tables, and what an export says, told entry by entry and
    column by column without the functions that write them. */
module ConfigMeaning {
  import opened ConfigBackup
  import opened ConfigRoundTrip
  import opened ConfigStore
  import opened FolderAccess
  import opened NamedTable
  import opened Wrappers

  // ----- One name, ignoring case -------------------------------------------------------------------

  /** The same letter, or the capital and the small form of one in ASCII. */
  predicate SameLetter(a: char, b: char) {
    a == b || ('A' <= a <= 'Z' && b as int == a as int + 32) || ('A' <= b <= 'Z' && a as int == b as int + 32)
  }

  predicate SameName(a: string, b: string) {
    |a| == |b| && forall i :: 0 <= i < |a| ==> SameLetter(a[i], b[i])
  }

  lemma FoldIsAscii(a: string, b: string)
    ensures Lower(a) == Lower(b) <==> SameName(a, b)
  {
    if Lower(a) == Lower(b) {
      forall i | 0 <= i < |a| ensures SameLetter(a[i], b[i]) {
        assert Lower(a)[i] == LowerChar(a[i]) && Lower(b)[i] == LowerChar(b[i]);
      }
    }
    if SameName(a, b) {
      assert forall i :: 0 <= i < |a| ==> LowerChar(a[i]) == LowerChar(b[i]);
    }
  }

  /** The first account, group or share of a name. */
  ghost predicate FirstUser(users: seq<UserRow>, i: nat, name: string) {
    i < |users| && SameName(users[i].username, name) && forall j :: 0 <= j < i ==> !SameName(users[j].username, name)
  }

  ghost predicate FirstGroup(groups: seq<GroupRow>, i: nat, name: string) {
    i < |groups| && SameName(groups[i].name, name) && forall j :: 0 <= j < i ==> !SameName(groups[j].name, name)
  }

  ghost predicate FirstShare(shares: seq<ShareRow>, i: nat, name: string) {
    i < |shares| && SameName(shares[i].name, name) && forall j :: 0 <= j < i ==> !SameName(shares[j].name, name)
  }

  lemma UserIsFound(users: seq<UserRow>, i: nat, name: string)
    ensures Find(UserTable(), users, Lower(name)) == Some(i) <==> FirstUser(users, i, name)
  {
    forall j | 0 <= j < |users| ensures Lower(users[j].username) == Lower(name) <==> SameName(users[j].username, name) {
      FoldIsAscii(users[j].username, name);
    }
    hide Find, Lower, SameName;
    if FirstUser(users, i, name) {
      FindIs(UserTable(), users, Lower(name), i);
    }
  }

  lemma GroupIsFound(lookup: string -> Option<string>, groups: seq<GroupRow>, i: nat, name: string)
    ensures Find(GroupTable(lookup), groups, Lower(name)) == Some(i) <==> FirstGroup(groups, i, name)
  {
    forall j | 0 <= j < |groups| ensures Lower(groups[j].name) == Lower(name) <==> SameName(groups[j].name, name) {
      FoldIsAscii(groups[j].name, name);
    }
    hide Find, Lower, SameName, Members;
    if FirstGroup(groups, i, name) {
      FindIs(GroupTable(lookup), groups, Lower(name), i);
    }
  }

  lemma ShareIsFound(at: Lookups, shares: seq<ShareRow>, i: nat, name: string)
    ensures Find(ShareTable(at), shares, Lower(name)) == Some(i) <==> FirstShare(shares, i, name)
  {
    forall j | 0 <= j < |shares| ensures Lower(shares[j].name) == Lower(name) <==> SameName(shares[j].name, name) {
      FoldIsAscii(shares[j].name, name);
    }
    hide Find, Lower, SameName, UpdateShare, MakeShare;
    if FirstShare(shares, i, name) {
      FindIs(ShareTable(at), shares, Lower(name), i);
    }
  }

  /** Names in lists are looked up to the id of the first account or group of that name. */
  lemma NamesAreLookedUp(users: seq<UserRow>, groups: seq<GroupRow>, name: string, id: string)
    ensures var at := LookupsIn(users, groups);
      && (at.user(name) == Some(id) <==> exists i: nat :: FirstUser(users, i, name) && users[i].id == id)
      && (at.group(name) == Some(id) <==> exists i: nat :: FirstGroup(groups, i, name) && groups[i].id == id)
  {
    var i, j := Find(UserTable(), users, Lower(name)), Find(GroupTable(_ => None), groups, Lower(name));
    forall k: nat ensures i == Some(k) <==> FirstUser(users, k, name) {
      UserIsFound(users, k, name);
    }
    forall k: nat ensures j == Some(k) <==> FirstGroup(groups, k, name) {
      GroupIsFound(_ => None, groups, k, name);
    }
    hide Find, Lower, FirstUser, FirstGroup;
  }

  // ----- Accounts ----------------------------------------------------------------------------------------

  /** The account a named entry finds afterwards says what the last entry of that name says; without a
      password it is disabled, whatever the entry says. */
  lemma RestoredAccount(d: Db, b: Backup, ids: Ids, n: nat) returns (i: nat)
    requires Restore(d, b, ids).Committed? && n < |b.users| && b.users[n].username != ""
    requires forall m :: n < m < |b.users| ==> !SameName(b.users[m].username, b.users[n].username)
    ensures var after, e := Restore(d, b, ids).after.users, b.users[n];
      && FirstUser(after, i, e.username)
      && after[i].displayName == (if e.displayName.Some? then e.displayName.value else e.username)
      && after[i].email == e.email
      && (after[i].admin <==> e.role == "admin")
      && (after[i].passwordHash.Some? ==> (after[i].disabled <==> e.disabled))
      && (after[i].passwordHash.None? ==> after[i].disabled)
  {
    var t, e := UserTable(), b.users[n];
    CommittedIsRestored(d, b, ids);
    TablesAreLawful(LookupsIn([], []));
    LowerIsEmpty(e.username);
    forall m | n < m < |b.users| ensures Lower(b.users[m].username) != Lower(e.username) {
      FoldIsAscii(b.users[m].username, e.username);
    }
    hide Restore, Lower, SameName, Find, Pass, LastOf, Lawful;
    LastIs(t, b.users, n);
    Settled(t, d.users, b.users, ids.user, Lower(e.username));
    i := Find(t, Restored(d, b, ids).users, Lower(e.username)).value;
    UserIsFound(Restored(d, b, ids).users, i, e.username);
  }

  /** An account that was not there before is made by the first entry of its name: under that name, with a fresh
      id, in the entry's colour or grey, without a password and disabled. */
  lemma AddedAccount(d: Db, b: Backup, ids: Ids, i: nat) returns (n: nat)
    requires Restore(d, b, ids).Committed? && |d.users| <= i < |Restore(d, b, ids).after.users|
    ensures var r := Restore(d, b, ids).after.users[i];
      && n < |b.users| && r.username == b.users[n].username && r.id == ids.user(n)
      && (forall m :: 0 <= m < n ==> !SameName(b.users[m].username, r.username))
      && r.avatarColor == (if b.users[n].avatarColor.Some? then b.users[n].avatarColor.value else "#64748b")
      && r.passwordHash.None? && r.disabled
  {
    CommittedIsRestored(d, b, ids);
    TablesAreLawful(LookupsIn([], []));
    hide Restore, Lower, SameName, Find, Pass, LastOf, Lawful;
    n := AppendedRow(UserTable(), d.users, b.users, ids.user, i);
    forall m | 0 <= m < n ensures !SameName(b.users[m].username, b.users[n].username) {
      FoldIsAscii(b.users[m].username, b.users[n].username);
    }
  }

  // ----- Groups ------------------------------------------------------------------------------------------

  /** The group a named entry finds has the description of the last entry of that name, or none, and exactly
      the accounts its names find as members. */
  lemma RestoredGroup(d: Db, b: Backup, ids: Ids, n: nat) returns (i: nat)
    requires Restore(d, b, ids).Committed? && n < |b.groups| && b.groups[n].name != ""
    requires forall m :: n < m < |b.groups| ==> !SameName(b.groups[m].name, b.groups[n].name)
    ensures var after, e := Restore(d, b, ids).after, b.groups[n];
      && FirstGroup(after.groups, i, e.name)
      && after.groups[i].description == (if e.description.Some? then e.description.value else "")
      && forall id :: id in after.groups[i].members <==>
           exists name, j: nat :: name in e.members && FirstUser(after.users, j, name) && after.users[j].id == id
  {
    var after, e := Restored(d, b, ids), b.groups[n];
    var lookup := LookupsIn(after.users, []).user;
    CommittedIsRestored(d, b, ids);
    forall m | n < m < |b.groups| ensures Lower(b.groups[m].name) != Lower(e.name) {
      FoldIsAscii(b.groups[m].name, e.name);
    }
    hide Restore, Restored, Lower, SameName, Find, FirstUser, Members;
    i := GroupSays(d, b, ids, n);
    GroupIsFound(lookup, after.groups, i, e.name);
    hide FirstGroup, LookupsIn;
    forall id ensures id in after.groups[i].members <==>
      exists name, j: nat :: name in e.members && FirstUser(after.users, j, name) && after.users[j].id == id
    {
      MembersAreFound(after.users, e.members, id);
    }
  }

  lemma GroupSays(d: Db, b: Backup, ids: Ids, n: nat) returns (i: nat)
    requires n < |b.groups| && b.groups[n].name != ""
    requires forall m :: n < m < |b.groups| ==> Lower(b.groups[m].name) != Lower(b.groups[n].name)
    ensures var after, e := Restored(d, b, ids), b.groups[n];
      var lookup := LookupsIn(after.users, []).user;
      && Find(GroupTable(lookup), after.groups, Lower(e.name)) == Some(i)
      && after.groups[i].description == (if e.description.Some? then e.description.value else "")
      && after.groups[i].members == Members(lookup, e.members)
  {
    var after, e := Restored(d, b, ids), b.groups[n];
    var lookup := LookupsIn(after.users, []).user;
    var t := GroupTable(lookup);
    TablesAreLawful(LookupsIn(after.users, []));
    LowerIsEmpty(e.name);
    hide Lower, Find, Pass, LastOf, Lawful, Members, LookupsIn;
    LastIs(t, b.groups, n);
    Settled(t, d.groups, b.groups, ids.group, Lower(e.name));
    i := Find(t, after.groups, Lower(e.name)).value;
  }

  lemma MembersAreFound(users: seq<UserRow>, names: seq<string>, id: string)
    ensures id in Members(LookupsIn(users, []).user, names) <==>
      exists name, j: nat :: name in names && FirstUser(users, j, name) && users[j].id == id
  {
    var lookup := LookupsIn(users, []).user;
    forall name ensures lookup(name) == Some(id) <==> exists j: nat :: FirstUser(users, j, name) && users[j].id == id {
      NamesAreLookedUp(users, [], name, id);
    }
    hide LookupsIn, FirstUser;
    assert id in Members(lookup, names) <==> exists name :: name in names && lookup(name) == Some(id);
  }

  /** A group that was not there before has the name of the first entry of that name, and a fresh id. */
  lemma AddedGroup(d: Db, b: Backup, ids: Ids, i: nat) returns (n: nat)
    requires Restore(d, b, ids).Committed? && |d.groups| <= i < |Restore(d, b, ids).after.groups|
    ensures var r := Restore(d, b, ids).after.groups[i];
      && n < |b.groups| && r.name == b.groups[n].name && r.id == ids.group(n)
      && (forall m :: 0 <= m < n ==> !SameName(b.groups[m].name, r.name))
  {
    var at := LookupsIn(Restored(d, b, ids).users, []);
    CommittedIsRestored(d, b, ids);
    TablesAreLawful(at);
    hide Restore, Lower, SameName, Find, Pass, LastOf, Lawful, Members, LookupsIn;
    n := AppendedRow(GroupTable(at.user), d.groups, b.groups, ids.group, i);
    forall m | 0 <= m < n ensures !SameName(b.groups[m].name, b.groups[n].name) {
      FoldIsAscii(b.groups[m].name, b.groups[n].name);
    }
  }

  // ----- Shares ------------------------------------------------------------------------------------------

  /** The share a named entry finds says what the last entry of that name says: text it leaves out is empty,
      guest access that is no level is none, and only a plain no switches file sharing or browsing off.  Its
      grants and rules are the entry's and no others. */
  lemma RestoredShare(d: Db, b: Backup, ids: Ids, n: nat) returns (i: nat)
    requires Restore(d, b, ids).Committed? && n < |b.shares| && b.shares[n].name != ""
    requires forall m :: n < m < |b.shares| ==> !SameName(b.shares[m].name, b.shares[n].name)
    ensures var after, e := Restore(d, b, ids).after, b.shares[n];
      var at := LookupsIn(after.users, after.groups);
      && FirstShare(after.shares, i, e.name)
      && var r := after.shares[i];
         && r.comment == (if e.comment.Some? then e.comment.value else "")
         && (r.guestAccess == ReadWrite <==> e.guestAccess == "rw")
         && (r.guestAccess == ReadOnly <==> e.guestAccess == "ro")
         && (r.smb <==> e.smbEnabled.None? || e.smbEnabled.value)
         && (r.nfs <==> e.nfsEnabled)
         && (r.browseable <==> e.browseable.None? || e.browseable.value)
         && e.volume == Some(r.volume)
         && (r.recycle <==> e.recycleEnabled)
         && r.perms == Grants(at.user, e.permissions)
         && r.groupPerms == Grants(at.group, e.groupPermissions)
         && r.rules == Rules(at, e.folderRules)
  {
    var after, e := Restored(d, b, ids), b.shares[n];
    var at := LookupsIn(after.users, after.groups);
    CommittedIsRestored(d, b, ids);
    MissingVolume(d, b, ids, n);
    forall m | n < m < |b.shares| ensures Lower(b.shares[m].name) != Lower(e.name) {
      FoldIsAscii(b.shares[m].name, e.name);
    }
    hide Restore, Restored, Lower, SameName, Find, Grants, Rules, LookupsIn;
    i := ShareSays(d, b, ids, n);
    ShareIsFound(at, after.shares, i, e.name);
    hide FirstShare, UpdateShare;
    ShareColumns(at, after.shares[i], e);
  }

  lemma ShareColumns(at: Lookups, r: ShareRow, e: ShareEntry)
    requires UpdateShare(at, r, e) == r && e.volume.Some?
    ensures r.comment == if e.comment.Some? then e.comment.value else ""
    ensures r.guestAccess == ReadWrite <==> e.guestAccess == "rw"
    ensures r.guestAccess == ReadOnly <==> e.guestAccess == "ro"
    ensures r.smb <==> e.smbEnabled.None? || e.smbEnabled.value
    ensures r.nfs <==> e.nfsEnabled
    ensures r.browseable <==> e.browseable.None? || e.browseable.value
    ensures e.volume == Some(r.volume)
    ensures r.recycle <==> e.recycleEnabled
    ensures r.perms == Grants(at.user, e.permissions) && r.groupPerms == Grants(at.group, e.groupPermissions)
    ensures r.rules == Rules(at, e.folderRules)
  {
    hide Grants, Rules;
    assert "rw"[1] == 'w' && "ro"[1] == 'o';
    OffIsSaid(e.smbEnabled);
    OffIsSaid(e.browseable);
  }

  lemma OffIsSaid(o: Option<bool>)
    ensures o != Some(false) <==> o.None? || o.value
  {}

  lemma ShareSays(d: Db, b: Backup, ids: Ids, n: nat) returns (i: nat)
    requires n < |b.shares| && b.shares[n].name != ""
    requires forall m :: n < m < |b.shares| ==> Lower(b.shares[m].name) != Lower(b.shares[n].name)
    ensures var after, e := Restored(d, b, ids), b.shares[n];
      var at := LookupsIn(after.users, after.groups);
      && Find(ShareTable(at), after.shares, Lower(e.name)) == Some(i)
      && UpdateShare(at, after.shares[i], e) == after.shares[i]
  {
    var after, e := Restored(d, b, ids), b.shares[n];
    var at := LookupsIn(after.users, after.groups);
    var t := ShareTable(at);
    TablesAreLawful(at);
    LowerIsEmpty(e.name);
    hide Lower, Find, Pass, LastOf, Lawful, UpdateShare, MakeShare, LookupsIn;
    LastIs(t, b.shares, n);
    Settled(t, d.shares, b.shares, ids.share, Lower(e.name));
    i := Find(t, after.shares, Lower(e.name)).value;
  }

  lemma MissingVolume(d: Db, b: Backup, ids: Ids, n: nat)
    requires Restore(d, b, ids).Committed? && n < |b.shares| && b.shares[n].name != ""
    ensures b.shares[n].volume.Some?
  {
    hide Restore;
    if b.shares[n].volume.None? {
      MissingVolumeAborts(d, b, ids, n);
    }
  }

  /** A share that was not there before has the name of the first entry of that name, and a fresh id. */
  lemma AddedShare(d: Db, b: Backup, ids: Ids, i: nat) returns (n: nat)
    requires Restore(d, b, ids).Committed? && |d.shares| <= i < |Restore(d, b, ids).after.shares|
    ensures var r := Restore(d, b, ids).after.shares[i];
      && n < |b.shares| && r.name == b.shares[n].name && r.id == ids.share(n)
      && (forall m :: 0 <= m < n ==> !SameName(b.shares[m].name, r.name))
  {
    var after := Restored(d, b, ids);
    var at := LookupsIn(after.users, after.groups);
    CommittedIsRestored(d, b, ids);
    TablesAreLawful(at);
    hide Restore, Lower, SameName, Find, Pass, LastOf, Lawful, Grants, Rules, LookupsIn;
    n := AppendedRow(ShareTable(at), d.shares, b.shares, ids.share, i);
    forall m | 0 <= m < n ensures !SameName(b.shares[m].name, b.shares[n].name) {
      FoldIsAscii(b.shares[m].name, b.shares[n].name);
    }
  }

  /** A folder rule is stored for the account or group its subject names, on its path in the one form the
      table keeps; rules on no one, on a climbing path or on the share root are not stored. */
  lemma RuleIsStoredFor(at: Lookups, q: RuleEntry, path: string, subject: Subject)
    ensures RuleKey(at, q) == Some((path, subject)) <==>
      q.path != "" && NormalizeAclPath(q.path) == Ok(path) && path != ""
      && (subject.Group? ==> q.subjectType == "group" && at.group(q.subject) == Some(subject.id))
      && (subject.User? ==> q.subjectType != "group" && at.user(q.subject) == Some(subject.id))
  {
    hide NormalizeAclPath;
  }

  // ----- Settings ----------------------------------------------------------------------------------------

  /** Settings of the backup replace those of the same key; mail and dynamic DNS credentials and the state of
      disk alerts stay as they are. */
  lemma SettingsAfter(d: Db, b: Backup, ids: Ids, key: string)
    requires Restore(d, b, ids).Committed?
    ensures var after, kept := Restore(d, b, ids).after.settings, key in {"smtp", "ddns", "disk_alert_state"};
      && (key in b.settings && !kept ==> key in after && after[key] == b.settings[key])
      && (key !in b.settings || kept ==> (key in after <==> key in d.settings))
      && (key in d.settings && (key !in b.settings || kept) ==> after[key] == d.settings[key])
  {
    CommittedIsRestored(d, b, ids);
    hide Restore, Pass;
  }

  // ----- Counters ----------------------------------------------------------------------------------------

  /** The account of that name has no password. */
  ghost predicate IsBare(users: seq<UserRow>, name: string) {
    exists i: nat :: FirstUser(users, i, name) && users[i].passwordHash.None?
  }

  /** Created is by how many rows a table has grown, updated counts the other named entries, and a name is
      flagged exactly when it is a named entry's whose account stands without a password afterwards. */
  lemma CountersTell(d: Db, b: Backup, ids: Ids, name: string)
    requires Restore(d, b, ids).Committed?
    ensures var after, result := Restore(d, b, ids).after, ResultOf(d, b, ids);
      && result.usersCreated == |after.users| - |d.users|
      && result.groupsCreated == |after.groups| - |d.groups|
      && result.sharesCreated == |after.shares| - |d.shares|
      && result.usersCreated + result.usersUpdated == NamedEntries(UserTable(), b.users)
      && (name in result.usersNeedingPassword <==>
            name != "" && IsBare(after.users, name) && exists n: nat :: n < |b.users| && b.users[n].username == name)
  {
    var after := Restored(d, b, ids);
    var at := LookupsIn(after.users, after.groups);
    CommittedIsRestored(d, b, ids);
    RowsAreCounted(UserTable(), d.users, b.users, ids.user);
    RowsAreCounted(GroupTable(LookupsIn(after.users, []).user), d.groups, b.groups, ids.group);
    RowsAreCounted(ShareTable(at), d.shares, b.shares, ids.share);
    FlaggedNames(d.users, b.users, name);
    hide Restore, Pass, Find, Lower, Inserted, Updated, NeedsPassword, Needing, IsBare, UserTable, GroupTable,
      ShareTable, LookupsIn, NamedEntries;
    forall n: nat | n < |b.users| && b.users[n].username != ""
      ensures NeedsPassword(d.users, b.users[n]) <==> IsBare(after.users, b.users[n].username)
    {
      FlaggedAreBare(d, b, ids, n);
    }
    NamelessIsNotFlagged(d.users, b.users);
  }

  lemma FlaggedAreBare(d: Db, b: Backup, ids: Ids, n: nat)
    requires n < |b.users| && b.users[n].username != "" && Restore(d, b, ids).Committed?
    ensures NeedsPassword(d.users, b.users[n]) <==> IsBare(Restore(d, b, ids).after.users, b.users[n].username)
  {
    hide Restore, Find, Lower, NeedsPassword, FirstUser, UserTable;
    var after, name := Restore(d, b, ids).after.users, b.users[n].username;
    FlaggedHaveNoPassword(d, b, ids, n);
    var i := Find(UserTable(), after, Lower(name)).value;
    forall j: nat ensures FirstUser(after, j, name) <==> i == j {
      UserIsFound(after, j, name);
    }
    assert NeedsPassword(d.users, b.users[n]) ==> FirstUser(after, i, name);
  }

  lemma {:induction false} FlaggedNames(users: seq<UserRow>, es: seq<UserEntry>, name: string)
    ensures name in Needing(users, es)
      <==> exists n: nat :: n < |es| && es[n].username == name && NeedsPassword(users, es[n])
  {
    hide NeedsPassword;
    if |es| > 0 {
      var front := es[..|es| - 1];
      FlaggedNames(users, front, name);
      assert forall n :: 0 <= n < |front| ==> front[n] == es[n];
    }
  }

  lemma NamelessIsNotFlagged(users: seq<UserRow>, es: seq<UserEntry>)
    ensures forall n :: 0 <= n < |es| && NeedsPassword(users, es[n]) ==> es[n].username != ""
  {
    hide Find;
  }

  // ----- Exports -----------------------------------------------------------------------------------------

  /** An export says of each account all but its id and password, with the flag as it is, and no key that a
      restore would leave alone. */
  lemma ExportedAccount(d: Db, b: Backup, i: nat)
    requires IsExport(d, b) && i < |d.users|
    ensures var r := d.users[i];
      UserEntry(r.username, Some(r.displayName), r.email, if r.admin then "admin" else "user", r.disabled,
                Some(r.avatarColor)) in b.users
    ensures |b.users| == |d.users|
    ensures forall key :: key in b.settings <==> key in d.settings && key !in {"smtp", "ddns", "disk_alert_state"}
    ensures forall key :: key in b.settings ==> b.settings[key] == d.settings[key]
  {
    var order :| ListsUsers(d, b.users, order);
    var n := OrderCovers(order, |d.users|, i);
    assert b.users[n] == UserEntryOf(d.users[i]);
  }

  /** And of each share its columns, levels by their names in the file, with each grant to an account there is. */
  lemma ExportedShare(d: Db, b: Backup, i: nat) returns (n: nat)
    requires IsExport(d, b) && i < |d.shares|
    ensures var r := d.shares[i];
      && n < |b.shares|
      && var e := b.shares[n];
         && e.name == r.name && e.comment == Some(r.comment) && e.volume == Some(r.volume)
         && e.smbEnabled == Some(r.smb) && e.nfsEnabled == r.nfs && e.browseable == Some(r.browseable)
         && e.recycleEnabled == r.recycle
         && e.guestAccess == (if r.guestAccess == ReadOnly then "ro"
                              else if r.guestAccess == ReadWrite then "rw" else "none")
         && (forall u :: u in d.users && u.id in r.perms ==>
              && (r.perms[u.id] == ReadOnly ==> Grant(u.username, "ro") in e.permissions)
              && (r.perms[u.id] == ReadWrite ==> Grant(u.username, "rw") in e.permissions))
  {
    var order :| ListsShares(d, b.shares, order);
    n := OrderCovers(order, |d.shares|, i);
    var r, e := d.shares[i], b.shares[n];
    assert IsShareEntry(UserNames(d.users), GroupNames(d.groups), r, e);
    forall u | u in d.users && u.id in r.perms
      ensures Grant(u.username, LevelText(r.perms[u.id])) in e.permissions
    {
      hide LevelText;
      var k :| 0 <= k < |d.users| && d.users[k] == u;
      assert UserNames(d.users)[k] == Named(u.id, u.username);
      assert IsGrant(UserNames(d.users), r.perms, Grant(u.username, LevelText(r.perms[u.id])));
    }
    hide IsGrant, IsRule, UserNames, GroupNames;
  }
}
