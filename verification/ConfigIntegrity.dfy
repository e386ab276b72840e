/** A restore never breaks what the tables require of their rows: names and ids stay unique, and every
    reference written points at a row that exists.  So the transaction it runs in is taken back for one
    reason only, a named share without a volume. */
module ConfigIntegrity {
  import opened ConfigBackup
  import opened FolderAccess
  import opened NamedTable
  import opened VirtualPaths
  import opened Wrappers

  /** Fresh ids: none repeats, and none is in use. */
  ghost predicate Unused(d: Db, ids: Ids) {
    && (forall m: nat, n: nat :: ids.user(m) == ids.user(n) ==> m == n)
    && (forall m: nat, n: nat :: ids.group(m) == ids.group(n) ==> m == n)
    && (forall m: nat, n: nat :: ids.share(m) == ids.share(n) ==> m == n)
    && (forall i, n: nat :: 0 <= i < |d.users| ==> d.users[i].id != ids.user(n))
    && (forall i, n: nat :: 0 <= i < |d.groups| ==> d.groups[i].id != ids.group(n))
    && (forall i, n: nat :: 0 <= i < |d.shares| ==> d.shares[i].id != ids.share(n))
  }

  lemma UsersHold(d: Db, b: Backup, ids: Ids)
    requires Distinct(UserNames(d.users)) && Unused(d, ids)
    ensures var after := Restored(d, b, ids).users;
      && Distinct(UserNames(after))
      && forall id :: HasId(UserNames(d.users), id) ==> HasId(UserNames(after), id)
  {
    var t, after := UserTable(), Restored(d, b, ids).users;
    var names, now := UserNames(d.users), UserNames(after);
    TablesAreLawful(LookupsIn([], []));
    hide Lower, Pass, Find, Lawful;
    forall i | 0 <= i < |d.users| ensures Lower(d.users[i].username) != "" {
      assert names[i] in names;
      LowerIsEmpty(d.users[i].username);
    }
    forall i, j | 0 <= i < j < |d.users|
      ensures Lower(d.users[i].username) != Lower(d.users[j].username) && d.users[i].id != d.users[j].id
    {
      assert names[i].id != names[j].id && Lower(names[i].name) != Lower(names[j].name);
    }
    NamesStay(t, d.users, b.users, ids.user);
    NamesStayDistinct(t, d.users, b.users, ids.user);
    IdsStayUnique(t, d.users, b.users, ids.user, (r: UserRow) => r.id);
    forall n | n in now ensures n.name != "" {
      LowerIsEmpty(n.name);
    }
    forall id | HasId(names, id) ensures HasId(now, id) {
      var i :| 0 <= i < |names| && names[i].id == id;
      assert now[i] in now;
    }
  }

  /** Whatever is looked up is there. */
  lemma UserIdExists(users: seq<UserRow>, groups: seq<GroupRow>, name: string)
    ensures var id := LookupsIn(users, groups).user(name); id.Some? ==> HasId(UserNames(users), id.value)
  {
    hide Find;
    var i := Find(UserTable(), users, Lower(name));
    if i.Some? {
      assert UserNames(users)[i.value] in UserNames(users);
    }
  }

  lemma GroupIdExists(users: seq<UserRow>, groups: seq<GroupRow>, name: string)
    ensures var id := LookupsIn(users, groups).group(name); id.Some? ==> HasId(GroupNames(groups), id.value)
  {
    hide Find;
    var i := Find(GroupTable(_ => None), groups, Lower(name));
    if i.Some? {
      assert GroupNames(groups)[i.value] in GroupNames(groups);
    }
  }

  ghost predicate MembersExist(users: seq<Named>, g: GroupRow) {
    forall id :: id in g.members ==> HasId(users, id)
  }

  lemma LookedUpMembersExist(users: seq<UserRow>, names: seq<string>)
    ensures forall id :: id in Members(LookupsIn(users, []).user, names) ==> HasId(UserNames(users), id)
  {
    var lookup := LookupsIn(users, []).user;
    hide LookupsIn, HasId;
    forall id | id in Members(lookup, names) ensures HasId(UserNames(users), id) {
      var n :| n in names && lookup(n).Some? && lookup(n).value == id;
      UserIdExists(users, [], n);
    }
  }

  lemma GroupsHold(d: Db, b: Backup, ids: Ids)
    requires WellFormed(d) && Unused(d, ids)
    ensures var after := Restored(d, b, ids);
      && UniqueGroups(after.groups)
      && (forall g :: g in after.groups ==> g.name != "" && MembersExist(UserNames(after.users), g))
      && (forall id :: HasId(GroupNames(d.groups), id) ==> HasId(GroupNames(after.groups), id))
  {
    var after := Restored(d, b, ids);
    var names := UserNames(after.users);
    var t := GroupTable(LookupsIn(after.users, []).user);
    TablesAreLawful(LookupsIn(after.users, []));
    UsersHold(d, b, ids);
    hide Lower, Pass, Find, Lawful, HasId, UserNames, UserTable, ShareTable, LookupsIn, WellFormedShare, Distinct,
      Members;
    forall i | 0 <= i < |d.groups| ensures Lower(d.groups[i].name) != "" {
      assert d.groups[i] in d.groups;
      LowerIsEmpty(d.groups[i].name);
    }
    NamesStay(t, d.groups, b.groups, ids.group);
    IdsStayUnique(t, d.groups, b.groups, ids.group, (r: GroupRow) => r.id);
    ExactNamesStayUnique(t, d.groups, b.groups, ids.group, (r: GroupRow) => r.name);
    MembersHold(t, d, b, ids, after.users);
    forall g | g in after.groups ensures g.name != "" {
      LowerIsEmpty(g.name);
    }
    GroupIdsStay(d.groups, after.groups);
  }

  lemma MembersHold(t: Table<GroupRow, GroupEntry>, d: Db, b: Backup, ids: Ids, users: seq<UserRow>)
    requires t == GroupTable(LookupsIn(users, []).user)
    requires forall g :: g in d.groups ==> MembersExist(UserNames(users), g)
    ensures forall g :: g in Pass(t, d.groups, b.groups, ids.group) ==> MembersExist(UserNames(users), g)
  {
    TablesAreLawful(LookupsIn(users, []));
    forall e: GroupEntry, id ensures MembersExist(UserNames(users), t.make(e, id)) {
      LookedUpMembersExist(users, e.members);
      hide Members, HasId, LookupsIn;
    }
    forall r: GroupRow, e: GroupEntry ensures MembersExist(UserNames(users), t.update(r, e)) {
      LookedUpMembersExist(users, e.members);
      hide Members, HasId, LookupsIn;
    }
    hide Pass, Lawful, MembersExist;
    AllRows(t, d.groups, b.groups, ids.group, g => MembersExist(UserNames(users), g));
  }

  lemma GroupIdsStay(was: seq<GroupRow>, now: seq<GroupRow>)
    requires |was| <= |now| && forall i :: 0 <= i < |was| ==> now[i].id == was[i].id
    ensures forall id :: HasId(GroupNames(was), id) ==> HasId(GroupNames(now), id)
  {
    forall id | HasId(GroupNames(was), id) ensures HasId(GroupNames(now), id) {
      var i :| 0 <= i < |was| && GroupNames(was)[i].id == id;
      assert GroupNames(now)[i] in GroupNames(now);
    }
  }

  // ----- Grants and rules ---------------------------------------------------------------------------------

  lemma {:induction false} GrantsExist(lookup: string -> Option<string>, ps: seq<Grant>, names: seq<Named>)
    requires forall name :: lookup(name).Some? ==> HasId(names, lookup(name).value)
    ensures forall id :: id in Grants(lookup, ps) ==> HasId(names, id) && Grants(lookup, ps)[id] != NoAccess
  {
    if |ps| > 0 {
      GrantsExist(lookup, ps[..|ps| - 1], names);
      hide HasId;
    }
  }

  /** A path normalised once stays as it is. */
  lemma NormalizeTwice(path: string)
    requires NormalizeAclPath(path).Ok?
    ensures NormalizeAclPath(NormalizeAclPath(path).value) == NormalizeAclPath(path)
  {
    CanonicalPath(path);
    DropDotsIsWalk(Split(path));
    NormalizeNames(DropDots(Split(path)));
    hide Split, Join, DropDots;
  }

  lemma {:induction false} RulesHold(at: Lookups, qs: seq<RuleEntry>)
    ensures forall key :: key in Rules(at, qs) ==> key.0 != "" && NormalizeAclPath(key.0) == Ok(key.0)
  {
    if |qs| > 0 {
      RulesHold(at, qs[..|qs| - 1]);
      var key := RuleKey(at, qs[|qs| - 1]);
      if key.Some? {
        NormalizeTwice(qs[|qs| - 1].path);
      }
      hide NormalizeAclPath, SubjectOf, LevelOr;
    }
  }

  lemma WrittenShareHolds(d: Db, at: Lookups, r: ShareRow, e: ShareEntry)
    requires at == LookupsIn(d.users, d.groups)
    ensures WellFormedShare(d, UpdateShare(at, r, e))
  {
    hide HasId, Grants, Rules, NormalizeAclPath, LookupsIn;
    forall name ensures at.user(name).Some? ==> HasId(UserNames(d.users), at.user(name).value) {
      UserIdExists(d.users, d.groups, name);
    }
    forall name ensures at.group(name).Some? ==> HasId(GroupNames(d.groups), at.group(name).value) {
      GroupIdExists(d.users, d.groups, name);
    }
    GrantsExist(at.user, e.permissions, UserNames(d.users));
    GrantsExist(at.group, e.groupPermissions, GroupNames(d.groups));
    RulesHold(at, e.folderRules);
  }

  lemma SharesHold(was: seq<ShareRow>, d: Db, es: seq<ShareEntry>, ids: nat -> string)
    requires forall s :: s in was ==> s.name != "" && WellFormedShare(d, s)
    ensures forall s :: s in Pass(ShareTable(LookupsIn(d.users, d.groups)), was, es, ids) ==>
        s.name != "" && WellFormedShare(d, s)
  {
    var at := LookupsIn(d.users, d.groups);
    var t := ShareTable(at);
    TablesAreLawful(at);
    hide Pass, Lawful, WellFormedShare, LookupsIn, UpdateShare, Lower;
    forall r: ShareRow, e: ShareEntry ensures WellFormedShare(d, t.update(r, e)) {
      WrittenShareHolds(d, at, r, e);
    }
    forall e: ShareEntry, id ensures WellFormedShare(d, t.make(e, id)) {
      WrittenShareHolds(d, at, PlainShare(id, e.name), e);
    }
    AllRows(t, was, es, ids, s => WellFormedShare(d, s));
    forall i | 0 <= i < |was| ensures Lower(was[i].name) != "" {
      assert was[i] in was;
      LowerIsEmpty(was[i].name);
    }
    NamesStay(t, was, es, ids);
    forall s | s in Pass(t, was, es, ids) ensures s.name != "" {
      LowerIsEmpty(s.name);
    }
  }

  lemma ShareStillHolds(d: Db, after: Db, s: ShareRow)
    requires WellFormedShare(d, s)
    requires forall id :: HasId(UserNames(d.users), id) ==> HasId(UserNames(after.users), id)
    requires forall id :: HasId(GroupNames(d.groups), id) ==> HasId(GroupNames(after.groups), id)
    ensures WellFormedShare(after, s)
  {
    hide HasId, NormalizeAclPath;
  }

  lemma SharesStayUnique(at: Lookups, was: seq<ShareRow>, es: seq<ShareEntry>, ids: nat -> string)
    requires UniqueShares(was)
    requires (forall m: nat, n: nat :: ids(m) == ids(n) ==> m == n)
      && forall i, n: nat :: 0 <= i < |was| ==> was[i].id != ids(n)
    ensures UniqueShares(Pass(ShareTable(at), was, es, ids))
  {
    var t := ShareTable(at);
    TablesAreLawful(at);
    hide Pass, Lawful, Lower, Grants, Rules;
    IdsStayUnique(t, was, es, ids, (r: ShareRow) => r.id);
    ExactNamesStayUnique(t, was, es, ids, (r: ShareRow) => r.name);
  }

  lemma RestoredIsWellFormed(d: Db, b: Backup, ids: Ids)
    requires WellFormed(d) && Unused(d, ids)
    ensures WellFormed(Restored(d, b, ids))
  {
    var after := Restored(d, b, ids);
    UsersHold(d, b, ids);
    GroupsHold(d, b, ids);
    forall s | s in d.shares ensures s.name != "" && WellFormedShare(after, s) {
      ShareStillHolds(d, after, s);
    }
    SharesHold(d.shares, after, b.shares, ids.share);
    SharesStayUnique(LookupsIn(after.users, after.groups), d.shares, b.shares, ids.share);
    hide Pass, Distinct, HasId, UserNames, GroupNames, WellFormedShare, UserTable, GroupTable, ShareTable, LookupsIn,
      UniqueShares, UniqueGroups;
  }

  /** Whatever the backup says, a restore leaves the database well-formed. */
  lemma RestoreKeepsWellFormed(d: Db, b: Backup, ids: Ids)
    requires WellFormed(d) && Unused(d, ids)
    ensures WellFormed(Left(d, b, ids))
  {
    CommittedIsRestored(d, b, ids);
    RestoredIsWellFormed(d, b, ids);
    hide Restore, Restored, WellFormed;
  }

  // ----- When a restore goes through -------------------------------------------------------------------------

  lemma UsersFit(d: Db, es: seq<UserEntry>, ids: Ids)
    requires WellFormed(d) && Unused(d, ids)
    ensures AllFit(UserTable(), d.users, es, ids.user)
  {
    var t, names := UserTable(), UserNames(d.users);
    hide Lower, Pass, Find, WellFormedShare, HasId, UniqueGroups, UniqueShares;
    forall i, j | 0 <= i < j < |d.users| ensures d.users[i].id != d.users[j].id {
      assert names[i].id != names[j].id;
    }
    forall n: nat | n < |es| ensures FitsAt(t, d.users, es, ids.user, n) {
      FreshAtItsTurn(t, d.users, es, ids.user, (r: UserRow) => r.id, n);
      OtherKeys(t, Pass(t, d.users, es[..n], ids.user), t.entryKey(es[n]));
    }
  }

  lemma GroupsFit(lookup: string -> Option<string>, d: Db, es: seq<GroupEntry>, ids: Ids)
    requires WellFormed(d) && Unused(d, ids)
    ensures AllFit(GroupTable(lookup), d.groups, es, ids.group)
  {
    var t := GroupTable(lookup);
    hide Lower, Pass, Find, WellFormedShare, HasId, Distinct, UniqueShares, Members;
    forall n: nat | n < |es| ensures FitsAt(t, d.groups, es, ids.group, n) {
      FreshAtItsTurn(t, d.groups, es, ids.group, (r: GroupRow) => r.id, n);
      OtherKeys(t, Pass(t, d.groups, es[..n], ids.group), t.entryKey(es[n]));
    }
  }

  lemma SharesFit(at: Lookups, d: Db, es: seq<ShareEntry>, ids: Ids)
    requires WellFormed(d) && Unused(d, ids)
    ensures AllFit(ShareTable(at), d.shares, es, ids.share)
  {
    var t := ShareTable(at);
    hide Lower, Pass, Find, WellFormedShare, HasId, Distinct, UniqueGroups, Grants, Rules;
    forall n: nat | n < |es| ensures FitsAt(t, d.shares, es, ids.share, n) {
      FreshAtItsTurn(t, d.shares, es, ids.share, (r: ShareRow) => r.id, n);
      OtherKeys(t, Pass(t, d.shares, es[..n], ids.share), t.entryKey(es[n]));
    }
  }

  lemma OtherKeys<R, E>(t: Table<R, E>, rows: seq<R>, key: string)
    ensures Find(t, rows, key).None? ==> forall r :: r in rows ==> t.rowKey(r) != key
  {
    hide Find;
  }

  ghost predicate VolumesGiven(b: Backup) {
    forall n :: 0 <= n < |b.shares| && b.shares[n].name != "" ==> b.shares[n].volume.Some?
  }

  /** A restore goes through exactly when every named share gives a volume; otherwise nothing of it stays. */
  lemma CommitsIff(d: Db, b: Backup, ids: Ids)
    requires WellFormed(d) && Unused(d, ids)
    ensures Restore(d, b, ids) == if VolumesGiven(b) then Committed(Restored(d, b, ids)) else Aborted
  {
    var users := Pass(UserTable(), d.users, b.users, ids.user);
    var lookup := LookupsIn(users, []).user;
    var groups := Pass(GroupTable(lookup), d.groups, b.groups, ids.group);
    var t := ShareTable(LookupsIn(users, groups));
    UsersFit(d, b.users, ids);
    GroupsFit(lookup, d, b.groups, ids);
    SharesFit(LookupsIn(users, groups), d, b.shares, ids);
    assert AllWritable(t, b.shares) <==> VolumesGiven(b) by {
      hide Lower;
      forall n | 0 <= n < |b.shares| ensures Lower(b.shares[n].name) == "" <==> b.shares[n].name == "" {
        LowerIsEmpty(b.shares[n].name);
      }
    }
    CommittedIsRestored(d, b, ids);
    hide Try, Pass, AllFit, LookupsIn, WellFormed, Unused, VolumesGiven;
    TryGoesThrough(UserTable(), d.users, b.users, ids.user);
    TryIsPass(UserTable(), d.users, b.users, ids.user);
    TryGoesThrough(GroupTable(lookup), d.groups, b.groups, ids.group);
    TryIsPass(GroupTable(lookup), d.groups, b.groups, ids.group);
    TryGoesThrough(t, d.shares, b.shares, ids.share);
  }

  /** Applying a backup twice leaves what applying it once leaves, gone through or not. */
  lemma SecondRestoreChangesNothing(d: Db, b: Backup, ids: Ids, again: Ids)
    requires WellFormed(d) && Unused(d, ids) && Unused(Left(d, b, ids), again)
    ensures Left(Left(d, b, ids), b, again) == Left(d, b, ids)
  {
    CommitsIff(d, b, ids);
    hide WellFormed, Unused, Restored;
    if Restore(d, b, ids).Committed? {
      hide Restore;
      RestoreTwice(d, b, ids, again);
    } else {
      CommitsIff(d, b, again);
    }
  }
}
