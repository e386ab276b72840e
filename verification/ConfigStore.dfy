/** The export, the preview and the restore as they run over the tables. */
module ConfigStore {
  import opened ConfigBackup
  import opened FolderAccess
  import opened NamedTable
  import opened Wrappers

  datatype Plan = Plan(settings: nat, usersNew: nat, usersUpdated: nat, groupsNew: nat, groupsUpdated: nat,
                       sharesNew: nat, sharesUpdated: nat)

  datatype Result = Result(settings: nat, usersCreated: nat, usersUpdated: nat, groupsCreated: nat, groupsUpdated: nat,
                           sharesCreated: nat, sharesUpdated: nat, usersNeedingPassword: seq<string>)

  // ----- The preview --------------------------------------------------------------------------------------

  /** Counts which names are new and which are known, lower-casing them the preview's own way. */
  method CountNames(known: set<string>, names: seq<string>, jsLower: string -> string) returns (new_: nat, updated: nat)
    ensures (new_, updated) == NameCounts(known, names, jsLower)
  {
    new_, updated := 0, 0;
    for i := 0 to |names|
      invariant (new_, updated) == NameCounts(known, names[..i], jsLower)
    {
      assert names[..i + 1][..i] == names[..i];
      if names[i] != "" {
        if jsLower(names[i]) in known {
          updated := updated + 1;
        } else {
          new_ := new_ + 1;
        }
      }
    }
    assert names[..|names|] == names;
  }

  function NameCounts(known: set<string>, names: seq<string>, jsLower: string -> string): (nat, nat) {
    if |names| == 0 then (0, 0)
    else
      var (n, u) := NameCounts(known, names[..|names| - 1], jsLower);
      var last := names[|names| - 1];
      if last == "" then (n, u) else if jsLower(last) in known then (n, u + 1) else (n + 1, u)
  }

  function EntryNames<E>(es: seq<E>, name: E -> string): seq<string> {
    seq(|es|, i requires 0 <= i < |es| => name(es[i]))
  }

  lemma KnownIsFound<R, E>(t: Table<R, E>, rows: seq<R>, key: string, known: set<string>)
    requires forall k :: k in known <==> exists r :: r in rows && t.rowKey(r) == k
    ensures key in known <==> Find(t, rows, key).Some?
  {
    var i := Find(t, rows, key);
    if i.Some? {
      assert rows[i.value] in rows;
    }
    hide Find;
  }

  // ----- The export -----------------------------------------------------------------------------------------

  method ExportMembers(users: seq<Named>, members: set<string>) returns (names: seq<string>)
    ensures forall n :: n in names <==> IsMember(users, members, n)
  {
    names := [];
    for i := 0 to |users|
      invariant forall n :: n in names <==> IsMember(users[..i], members, n)
    {
      MemberStep(users, members, i);
      if users[i].id in members {
        names := names + [users[i].name];
      }
    }
    assert users[..|users|] == users;
  }

  lemma MemberStep(users: seq<Named>, members: set<string>, i: nat)
    requires i < |users|
    ensures forall n ::
      (IsMember(users[..i + 1], members, n)
       <==> (IsMember(users[..i], members, n) || (users[i].id in members && users[i].name == n)))
  {
    assert users[..i + 1] == users[..i] + [users[i]];
    assert forall u :: u in users[..i + 1] <==> u in users[..i] || u == users[i];
    forall n ensures IsMember(users[..i + 1], members, n)
      <==> (IsMember(users[..i], members, n) || (users[i].id in members && users[i].name == n))
    {
      if IsMember(users[..i], members, n) {
        var u :| u in users[..i] && u.id in members && u.name == n;
        assert u in users[..i + 1];
      }
      if users[i].id in members && users[i].name == n {
        assert users[i] in users[..i + 1];
      }
    }
  }

  method ExportGrants(names: seq<Named>, grants: map<string, Level>) returns (ps: seq<Grant>)
    ensures forall p :: p in ps <==> IsGrant(names, grants, p)
  {
    ps := [];
    for i := 0 to |names|
      invariant forall p :: p in ps <==> IsGrant(names[..i], grants, p)
    {
      GrantStep(names, grants, i);
      if names[i].id in grants {
        ps := ps + [Grant(names[i].name, LevelText(grants[names[i].id]))];
      }
    }
    assert names[..|names|] == names;
  }

  lemma GrantStep(names: seq<Named>, grants: map<string, Level>, i: nat)
    requires i < |names|
    ensures forall p ::
      (IsGrant(names[..i + 1], grants, p)
       <==> (IsGrant(names[..i], grants, p)
             || (names[i].id in grants && p == Grant(names[i].name, LevelText(grants[names[i].id])))))
  {
    assert names[..i + 1] == names[..i] + [names[i]];
    assert forall u :: u in names[..i + 1] <==> u in names[..i] || u == names[i];
    hide LevelText;
    forall p ensures IsGrant(names[..i + 1], grants, p)
      <==> (IsGrant(names[..i], grants, p)
            || (names[i].id in grants && p == Grant(names[i].name, LevelText(grants[names[i].id]))))
    {
      if IsGrant(names[..i], grants, p) {
        var u :| u in names[..i] && u.id in grants && p == Grant(u.name, LevelText(grants[u.id]));
        assert u in names[..i + 1];
      }
      if names[i].id in grants && p == Grant(names[i].name, LevelText(grants[names[i].id])) {
        assert names[i] in names[..i + 1];
      }
    }
  }

  /** Ids are unique, so the name that goes with one is too. */
  ghost predicate UniqueIds(names: seq<Named>) {
    forall u, v :: u in names && v in names && u.id == v.id ==> u == v
  }

  method NameOf(names: seq<Named>, id: string) returns (name: Option<string>)
    ensures name.Some? ==> Named(id, name.value) in names
    ensures name.None? ==> forall u :: u in names ==> u.id != id
  {
    for i := 0 to |names|
      invariant forall u :: u in names[..i] ==> u.id != id
    {
      if names[i].id == id {
        assert names[i] == Named(id, names[i].name);
        return Some(names[i].name);
      }
      assert names[..i + 1] == names[..i] + [names[i]];
    }
    assert names[..|names|] == names;
    name := None;
  }

  /** One rule after another; those on subjects that have gone are not listed. */
  method ExportRules(users: seq<Named>, groups: seq<Named>, rules: map<(string, Subject), Level>)
      returns (qs: seq<RuleEntry>)
    requires UniqueIds(users) && UniqueIds(groups)
    ensures forall q :: q in qs <==> IsRule(users, groups, rules, q)
  {
    qs := [];
    var left := rules.Keys;
    ghost var done: map<(string, Subject), Level> := map[];
    assert forall q :: !IsRule(users, groups, done, q);
    while left != {}
      invariant left <= rules.Keys && done == map k | k in rules && k !in left :: rules[k]
      invariant forall q :: q in qs <==> IsRule(users, groups, done, q)
      decreases |left|
    {
      hide IsRule, LevelText, UniqueIds;
      var key :| key in left;
      left := left - {key};
      var name;
      if key.1.Group? {
        name := NameOf(groups, key.1.id);
      } else {
        name := NameOf(users, key.1.id);
      }
      RuleStep(users, groups, done, key, rules[key], name);
      done := done[key := rules[key]];
      if name.Some? {
        qs := qs + [RuleEntry(key.0, if key.1.Group? then "group" else "user", name.value, LevelText(rules[key]))];
      }
    }
    assert done == rules;
  }

  lemma RuleStep(users: seq<Named>, groups: seq<Named>, rules: map<(string, Subject), Level>, key: (string, Subject),
                 level: Level, name: Option<string>)
    requires UniqueIds(users) && UniqueIds(groups) && key !in rules
    requires var names := if key.1.Group? then groups else users;
      && (name.Some? ==> Named(key.1.id, name.value) in names)
      && (name.None? ==> forall u :: u in names ==> u.id != key.1.id)
    ensures forall q ::
      (IsRule(users, groups, rules[key := level], q)
       <==> (IsRule(users, groups, rules, q)
             || (name.Some?
                 && q == RuleEntry(key.0, if key.1.Group? then "group" else "user", name.value, LevelText(level)))))
  {
    hide LevelText;
    var after := rules[key := level];
    forall q
      ensures IsRule(users, groups, after, q)
        <==> (IsRule(users, groups, rules, q)
              || (name.Some?
                  && q == RuleEntry(key.0, if key.1.Group? then "group" else "user", name.value, LevelText(level))))
    {
      UserRuleStep(users, rules, key, level, name, q);
      GroupRuleStep(groups, rules, key, level, name, q);
      hide IsUserRule, IsGroupRule, UniqueIds;
    }
  }

  lemma UserRuleStep(users: seq<Named>, rules: map<(string, Subject), Level>, key: (string, Subject), level: Level,
                     name: Option<string>, q: RuleEntry)
    requires UniqueIds(users) && key !in rules
    requires key.1.User? ==>
      (name.Some? ==> Named(key.1.id, name.value) in users)
        && (name.None? ==> forall u :: u in users ==> u.id != key.1.id)
    ensures IsUserRule(users, rules[key := level], q)
      <==> (IsUserRule(users, rules, q)
            || (key.1.User? && name.Some? && q == RuleEntry(key.0, "user", name.value, LevelText(level))))
  {
    hide LevelText;
    var after := rules[key := level];
    if IsUserRule(users, rules, q) {
      var u :| u in users && (q.path, User(u.id)) in rules
        && q == RuleEntry(q.path, "user", u.name, LevelText(rules[(q.path, User(u.id))]));
      assert (q.path, User(u.id)) in after;
    }
    if IsUserRule(users, after, q) {
      var u :| u in users && (q.path, User(u.id)) in after
        && q == RuleEntry(q.path, "user", u.name, LevelText(after[(q.path, User(u.id))]));
      if (q.path, User(u.id)) == key {
        assert u == Named(key.1.id, name.value);
      }
    }
    if key.1.User? && name.Some? && q == RuleEntry(key.0, "user", name.value, LevelText(level)) {
      var u := Named(key.1.id, name.value);
      assert (q.path, User(u.id)) == key;
    }
  }

  lemma GroupRuleStep(groups: seq<Named>, rules: map<(string, Subject), Level>, key: (string, Subject), level: Level,
                      name: Option<string>, q: RuleEntry)
    requires UniqueIds(groups) && key !in rules
    requires key.1.Group? ==>
      (name.Some? ==> Named(key.1.id, name.value) in groups)
        && (name.None? ==> forall u :: u in groups ==> u.id != key.1.id)
    ensures IsGroupRule(groups, rules[key := level], q)
      <==> (IsGroupRule(groups, rules, q)
            || (key.1.Group? && name.Some? && q == RuleEntry(key.0, "group", name.value, LevelText(level))))
  {
    hide LevelText;
    var after := rules[key := level];
    if IsGroupRule(groups, rules, q) {
      var u :| u in groups && (q.path, Group(u.id)) in rules
        && q == RuleEntry(q.path, "group", u.name, LevelText(rules[(q.path, Group(u.id))]));
      assert (q.path, Group(u.id)) in after;
    }
    if IsGroupRule(groups, after, q) {
      var u :| u in groups && (q.path, Group(u.id)) in after
        && q == RuleEntry(q.path, "group", u.name, LevelText(after[(q.path, Group(u.id))]));
      if (q.path, Group(u.id)) == key {
        assert u == Named(key.1.id, name.value);
      }
    }
    if key.1.Group? && name.Some? && q == RuleEntry(key.0, "group", name.value, LevelText(level)) {
      var u := Named(key.1.id, name.value);
      assert (q.path, Group(u.id)) == key;
    }
  }

  // ----- Passwords still to be set ---------------------------------------------------------------------------------

  predicate NeedsPassword(users: seq<UserRow>, e: UserEntry) {
    var i := Find(UserTable(), users, Lower(e.username));
    e.username != "" && (i.None? || users[i.value].passwordHash.None?)
  }

  /** The accounts the restore flags, in the order of the backup. */
  function Needing(users: seq<UserRow>, es: seq<UserEntry>): seq<string> {
    if |es| == 0 then []
    else
      Needing(users, es[..|es| - 1]) + (if NeedsPassword(users, es[|es| - 1]) then [es[|es| - 1].username] else [])
  }

  /** Nothing that happens on the way changes which accounts have a password. */
  lemma PasswordsHold(was: seq<UserRow>, es: seq<UserEntry>, ids: nat -> string, e: UserEntry)
    requires e.username != ""
    ensures var now := Pass(UserTable(), was, es, ids);
      var i := Find(UserTable(), now, Lower(e.username));
      NeedsPassword(was, e) <==> i.None? || now[i.value].passwordHash.None?
  {
    var t, key := UserTable(), Lower(e.username);
    var now := Pass(t, was, es, ids);
    var before, after := Find(t, was, key), Find(t, now, key);
    TablesAreLawful(LookupsIn([], []));
    NewRows(t, was, es, ids, (r: UserRow) => r.passwordHash.None?);
    hide Pass, Find, Lawful, Lower, LastOf;
    if before.Some? {
      RowAfter(t, was, es, ids, before.value);
    } else if after.Some? && after.value < |was| {
      RowAfter(t, was, es, ids, after.value);
    }
  }

  lemma NeedingStep(users: seq<UserRow>, es: seq<UserEntry>, n: nat)
    requires n < |es|
    ensures Needing(users, es[..n + 1])
      == Needing(users, es[..n]) + (if NeedsPassword(users, es[n]) then [es[n].username] else [])
  {
    assert es[..n + 1][..n] == es[..n];
    hide NeedsPassword;
  }

  // ----- Child rows, cleared and written again ---------------------------------------------------------------------

  method RestoreMembers(lookup: string -> Option<string>, names: seq<string>) returns (members: set<string>)
    ensures members == Members(lookup, names)
  {
    members := {};
    for i := 0 to |names|
      invariant members == Members(lookup, names[..i])
    {
      assert names[..i + 1] == names[..i] + [names[i]];
      var id := lookup(names[i]);
      if id.Some? {
        members := members + {id.value};
      }
    }
    assert names[..|names|] == names;
  }

  method RestoreGrants(lookup: string -> Option<string>, ps: seq<Grant>) returns (grants: map<string, Level>)
    ensures grants == Grants(lookup, ps)
  {
    grants := map[];
    for i := 0 to |ps|
      invariant grants == Grants(lookup, ps[..i])
    {
      assert ps[..i + 1][..i] == ps[..i];
      var id := lookup(ps[i].name);
      if id.Some? && id.value !in grants {
        grants := grants[id.value := GrantLevel(ps[i].level)];
      }
    }
    assert ps[..|ps|] == ps;
  }

  /** The level kept for a subject is that of the first grant whose name is looked up to it, and there is
      a level only for a subject some name is looked up to. */
  lemma {:induction false} FirstGrantStays(lookup: string -> Option<string>, ps: seq<Grant>, n: nat)
    requires n < |ps| && lookup(ps[n].name).Some?
    requires forall m :: 0 <= m < n ==> lookup(ps[m].name) != lookup(ps[n].name)
    ensures var id := lookup(ps[n].name).value;
      id in Grants(lookup, ps) && Grants(lookup, ps)[id] == if ps[n].level == "ro" then ReadOnly else ReadWrite
  {
    var front := ps[..|ps| - 1];
    if n < |front| {
      FirstGrantStays(lookup, front, n);
    } else {
      NoGrantYet(lookup, front, lookup(ps[n].name).value);
    }
  }

  lemma {:induction false} NoGrantYet(lookup: string -> Option<string>, ps: seq<Grant>, id: string)
    ensures id in Grants(lookup, ps) <==> exists m :: 0 <= m < |ps| && lookup(ps[m].name) == Some(id)
  {
    hide GrantLevel;
    if |ps| > 0 {
      var front := ps[..|ps| - 1];
      NoGrantYet(lookup, front, id);
      assert forall m :: 0 <= m < |front| ==> front[m] == ps[m];
    }
  }

  /** The level kept for a subject on a folder is that of the last rule stored under it, and there is a
      level only where some rule is. */
  lemma {:induction false} LastRuleStays(at: Lookups, qs: seq<RuleEntry>, n: nat)
    requires n < |qs| && RuleKey(at, qs[n]).Some?
    requires forall m :: n < m < |qs| ==> RuleKey(at, qs[m]) != RuleKey(at, qs[n])
    ensures var key := RuleKey(at, qs[n]).value;
      key in Rules(at, qs)
      && Rules(at, qs)[key] == match qs[n].level case "rw" => ReadWrite case "ro" => ReadOnly case _ => NoAccess
  {
    hide RuleKey;
    if n < |qs| - 1 {
      LastRuleStays(at, qs[..|qs| - 1], n);
    }
  }

  lemma {:induction false} RuleOnlyWhereNamed(at: Lookups, qs: seq<RuleEntry>, key: (string, Subject))
    ensures key in Rules(at, qs) <==> exists m :: 0 <= m < |qs| && RuleKey(at, qs[m]) == Some(key)
  {
    hide RuleKey, LevelOr;
    if |qs| > 0 {
      var front := qs[..|qs| - 1];
      RuleOnlyWhereNamed(at, front, key);
      assert forall m :: 0 <= m < |front| ==> front[m] == qs[m];
    }
  }

  method RestoreRules(at: Lookups, qs: seq<RuleEntry>) returns (rules: map<(string, Subject), Level>)
    ensures rules == Rules(at, qs)
  {
    hide *;
    rules := map[];
    NoRules(at, qs);
    for i := 0 to |qs|
      invariant rules == Rules(at, qs[..i])
    {
      var q := qs[i];
      RulesStep(at, qs, i);
      if q.path != "" {
        var subject := SubjectOf(at, q);
        var path := NormalizeAclPath(q.path);
        if subject.Some? && path.Ok? && path.value != "" {
          rules := rules[(path.value, subject.value) := LevelOr(q.level, NoAccess)];
        }
      }
    }
  }

  lemma NoRules(at: Lookups, qs: seq<RuleEntry>)
    ensures Rules(at, qs[..0]) == map[] && qs[..|qs|] == qs
  {}

  lemma RulesStep(at: Lookups, qs: seq<RuleEntry>, i: nat)
    requires i < |qs|
    ensures var q, before := qs[i], Rules(at, qs[..i]);
      var subject, path := SubjectOf(at, q), NormalizeAclPath(q.path);
      Rules(at, qs[..i + 1]) ==
        if q.path != "" && subject.Some? && path.Ok? && path.value != ""
        then before[(path.value, subject.value) := LevelOr(q.level, NoAccess)] else before
  {
    hide SubjectOf, NormalizeAclPath, LevelOr;
    assert qs[..i + 1][..i] == qs[..i];
  }

  // ----- Settings, one after another -------------------------------------------------------------------------------

  /** The settings when only those in `left` are still to come. */
  function SettingsDone(was: map<string, string>, from: map<string, string>, left: set<string>): map<string, string> {
    was + (map k | k in from && k !in left && k !in EXCLUDED_SETTINGS :: from[k])
  }

  lemma NoSettings(was: map<string, string>, from: map<string, string>)
    ensures SettingsDone(was, from, from.Keys) == was && |from.Keys - from.Keys - EXCLUDED_SETTINGS| == 0
  {
    assert from.Keys - from.Keys - EXCLUDED_SETTINGS == {};
    hide EXCLUDED_SETTINGS;
  }

  lemma SettingsStep(was: map<string, string>, from: map<string, string>, left: set<string>, key: string)
    requires key in left && left <= from.Keys
    ensures SettingsDone(was, from, left - {key})
         == if key in EXCLUDED_SETTINGS then SettingsDone(was, from, left)
            else SettingsDone(was, from, left)[key := from[key]]
    ensures |from.Keys - (left - {key}) - EXCLUDED_SETTINGS|
         == |from.Keys - left - EXCLUDED_SETTINGS| + (if key in EXCLUDED_SETTINGS then 0 else 1)
  {
    OneFewer(from.Keys, left, EXCLUDED_SETTINGS, key);
    OneMore(was, from, left, EXCLUDED_SETTINGS, key);
    hide EXCLUDED_SETTINGS;
  }

  lemma OneMore(was: map<string, string>, from: map<string, string>, left: set<string>, excluded: set<string>,
                key: string)
    requires key in left && left <= from.Keys
    ensures var before := was + (map k | k in from && k !in left && k !in excluded :: from[k]);
      was + (map k | k in from && k !in left - {key} && k !in excluded :: from[k])
        == if key in excluded then before else before[key := from[key]]
  {
    var some := map k | k in from && k !in left && k !in excluded :: from[k];
    var more := map k | k in from && k !in left - {key} && k !in excluded :: from[k];
    if key in excluded {
      assert more == some;
    } else {
      assert more == some[key := from[key]];
    }
  }

  lemma OneFewer(keys: set<string>, left: set<string>, excluded: set<string>, key: string)
    requires key in left && left <= keys
    ensures |keys - (left - {key}) - excluded| == |keys - left - excluded| + (if key in excluded then 0 else 1)
  {
    var before, after := keys - left - excluded, keys - (left - {key}) - excluded;
    if key in excluded {
      assert after == before;
    } else {
      assert after == before + {key};
    }
  }

  lemma AllSettings(was: map<string, string>, from: map<string, string>)
    ensures SettingsDone(was, from, {}) == RestoredSettings(was, from) && from.Keys - {} == from.Keys
  {
    hide EXCLUDED_SETTINGS;
  }

  // ----- The tables --------------------------------------------------------------------------------------------------

  class Tables {
    var settings: map<string, string>
    var users: seq<UserRow>
    var groups: seq<GroupRow>
    var shares: seq<ShareRow>

    ghost function Contents(): Db
      reads this
    {
      Db(settings, users, groups, shares)
    }

    method ExportConfig() returns (b: Backup)
      requires WellFormed(Contents())
      ensures IsExport(Contents(), b)
    {
      var userNames, groupNames := UserNames(users), GroupNames(groups);
      NamesAreUnique(Contents());
      hide WellFormed;
      var us: seq<UserEntry> := [];
      for i := 0 to |users|
        invariant |us| == i && forall n :: 0 <= n < i ==> us[n] == UserEntryOf(users[n])
      {
        us := us + [UserEntryOf(users[i])];
      }
      var gs := ExportGroups(userNames);
      var ss := ExportShares(userNames, groupNames);
      b := Backup(ExportedSettings(settings), us, gs, ss);
      InRowOrder(Contents(), b);
    }

    method ExportGroups(userNames: seq<Named>) returns (gs: seq<GroupEntry>)
      ensures |gs| == |groups| && forall n :: 0 <= n < |gs| ==> IsGroupEntry(userNames, groups[n], gs[n])
    {
      gs := [];
      for i := 0 to |groups|
        invariant |gs| == i && forall n :: 0 <= n < i ==> IsGroupEntry(userNames, groups[n], gs[n])
      {
        hide IsMember;
        var members := ExportMembers(userNames, groups[i].members);
        gs := gs + [GroupEntry(groups[i].name, Some(groups[i].description), members)];
      }
    }

    method ExportShares(userNames: seq<Named>, groupNames: seq<Named>) returns (ss: seq<ShareEntry>)
      requires UniqueIds(userNames) && UniqueIds(groupNames)
      ensures |ss| == |shares| && forall n :: 0 <= n < |ss| ==> IsShareEntry(userNames, groupNames, shares[n], ss[n])
    {
      hide IsGrant, IsRule, UniqueIds;
      ss := [];
      for i := 0 to |shares|
        invariant |ss| == i && forall n :: 0 <= n < i ==> IsShareEntry(userNames, groupNames, shares[n], ss[n])
      {
        var s := shares[i];
        var permissions := ExportGrants(userNames, s.perms);
        var groupPermissions := ExportGrants(groupNames, s.groupPerms);
        var folderRules := ExportRules(userNames, groupNames, s.rules);
        ss := ss + [ShareEntry(s.name, Some(s.comment), LevelText(s.guestAccess), Some(s.smb), s.nfs,
                               Some(s.browseable),
                               Some(s.volume), s.recycle, permissions, groupPermissions, folderRules)];
      }
    }

    /** Counts only; nothing changes. */
    method PlanRestore(b: Backup, jsLower: string -> string) returns (plan: Plan)
      ensures plan == PlanOf(Contents(), b, jsLower)
    {
      var usersNew, usersUpdated := CountNames(KnownUsers(users), EntryNames(b.users, (e: UserEntry) => e.username),
                                               jsLower);
      var groupsNew, groupsUpdated := CountNames(KnownGroups(groups), EntryNames(b.groups, (e: GroupEntry) => e.name),
                                                 jsLower);
      var sharesNew, sharesUpdated := CountNames(KnownShares(shares), EntryNames(b.shares, (e: ShareEntry) => e.name),
                                                 jsLower);
      plan := Plan(|b.settings|, usersNew, usersUpdated, groupsNew, groupsUpdated, sharesNew, sharesUpdated);
    }

    method RestoreSettings(from: map<string, string>) returns (count: nat)
      modifies this`settings
      ensures settings == RestoredSettings(old(settings), from)
      ensures count == |from.Keys - EXCLUDED_SETTINGS|
    {
      hide *;
      ghost var was := settings;
      var left := from.Keys;
      count := 0;
      NoSettings(was, from);
      while left != {}
        invariant left <= from.Keys
        invariant settings == SettingsDone(was, from, left) && count == |from.Keys - left - EXCLUDED_SETTINGS|
        decreases |left|
      {
        var key :| key in left;
        SettingsStep(was, from, left, key);
        left := left - {key};
        if key !in EXCLUDED_SETTINGS {
          settings := settings[key := from[key]];
          count := count + 1;
        }
      }
      AllSettings(was, from);
    }

    /** False when the database refuses a write; the caller takes everything back then. */
    method RestoreUsers(es: seq<UserEntry>, ids: nat -> string)
        returns (ok: bool, created: nat, updated: nat, needing: seq<string>)
      modifies this`users
      ensures ok <==> Try(UserTable(), old(users), es, ids).Some?
      ensures ok ==> Some(users) == Try(UserTable(), old(users), es, ids)
      ensures ok ==>
        created == Inserted(UserTable(), old(users), es, ids) && updated == Updated(UserTable(), old(users), es, ids)
      ensures ok ==> needing == Needing(old(users), es)
    {
      hide Pass, Try, Find, Inserted, Updated, Needing, NeedsPassword, Lower, UserFits;
      ghost var t, was := UserTable(), users;
      ok, created, updated, needing := true, 0, 0, [];
      NoEntries(t, was, es, ids);
      NoneNeeding(was, es);
      for n := 0 to |es|
        invariant users == Pass(t, was, es[..n], ids) && Try(t, was, es[..n], ids) == Some(users)
        invariant created == Inserted(t, was, es[..n], ids) && updated == Updated(t, was, es[..n], ids)
        invariant needing == Needing(was, es[..n])
      {
        var e := es[n];
        PrefixStep(t, was, es, ids, n);
        TryStep(t, was, es, ids, n);
        NeedingStep(was, es, n);
        LowerIsEmpty(e.username);
        if e.username == "" {
          Unnamed(was, e);
          continue;
        }
        PasswordsHold(was, es[..n], ids, e);
        var existing := Find(UserTable(), users, Lower(e.username));
        if existing.Some? {
          var r := users[existing.value];
          users := users[existing.value := r.(displayName := Or(e.displayName, e.username), email := e.email,
                                              admin := e.role == "admin",
                                              disabled := r.passwordHash.None? || e.disabled)];
          updated := updated + 1;
          if r.passwordHash.None? {
            needing := needing + [e.username];
          }
        } else {
          var r := UserRow(ids(n), e.username, Or(e.displayName, e.username), e.email, e.role == "admin", None,
                           Or(e.avatarColor, "#64748b"), true);
          if !UserFits(users, r) {
            StaysRefused(t, was, es, ids, n + 1);
            ok := false;
            return;
          }
          users := users + [r];
          created := created + 1;
          needing := needing + [e.username];
        }
      }
    }

    /** Groups come before shares, whose grants and rules name them. */
    method RestoreGroups(es: seq<GroupEntry>, ids: nat -> string) returns (ok: bool, created: nat, updated: nat)
      modifies this`groups
      ensures var t := GroupTable(LookupsIn(users, []).user);
        && (ok <==> Try(t, old(groups), es, ids).Some?)
        && (ok ==> Some(groups) == Try(t, old(groups), es, ids))
        && (ok ==> created == Inserted(t, old(groups), es, ids) && updated == Updated(t, old(groups), es, ids))
    {
      hide Pass, Try, Find, Inserted, Updated, Lower, Members, LookupsIn, GroupFits;
      var lookup := LookupsIn(users, []).user;
      ghost var t, was := GroupTable(lookup), groups;
      ok, created, updated := true, 0, 0;
      NoEntries(t, was, es, ids);
      for n := 0 to |es|
        invariant groups == Pass(t, was, es[..n], ids) && Try(t, was, es[..n], ids) == Some(groups)
        invariant created == Inserted(t, was, es[..n], ids) && updated == Updated(t, was, es[..n], ids)
      {
        var e := es[n];
        PrefixStep(t, was, es, ids, n);
        TryStep(t, was, es, ids, n);
        LowerIsEmpty(e.name);
        if e.name == "" {
          continue;
        }
        var existing := Find(GroupTable(lookup), groups, Lower(e.name));
        var members := RestoreMembers(lookup, e.members);
        if existing.Some? {
          var r := groups[existing.value];
          groups := groups[existing.value := r.(description := Or(e.description, ""), members := members)];
          updated := updated + 1;
        } else {
          var r := GroupRow(ids(n), e.name, Or(e.description, ""), members);
          if !GroupFits(groups, r) {
            StaysRefused(t, was, es, ids, n + 1);
            ok := false;
            return;
          }
          groups := groups + [r];
          created := created + 1;
        }
      }
    }

    /** A share without a volume is refused, as an insert and as an update. */
    method RestoreShares(es: seq<ShareEntry>, ids: nat -> string) returns (ok: bool, created: nat, updated: nat)
      modifies this`shares
      ensures var t := ShareTable(LookupsIn(users, groups));
        && (ok <==> Try(t, old(shares), es, ids).Some?)
        && (ok ==> Some(shares) == Try(t, old(shares), es, ids))
        && (ok ==> created == Inserted(t, old(shares), es, ids) && updated == Updated(t, old(shares), es, ids))
    {
      hide Pass, Try, Find, Inserted, Updated, Lower, Grants, Rules, LookupsIn, ShareFits;
      var at := LookupsIn(users, groups);
      ghost var t, was := ShareTable(at), shares;
      ok, created, updated := true, 0, 0;
      NoEntries(t, was, es, ids);
      for n := 0 to |es|
        invariant shares == Pass(t, was, es[..n], ids) && Try(t, was, es[..n], ids) == Some(shares)
        invariant created == Inserted(t, was, es[..n], ids) && updated == Updated(t, was, es[..n], ids)
      {
        var e := es[n];
        PrefixStep(t, was, es, ids, n);
        TryStep(t, was, es, ids, n);
        LowerIsEmpty(e.name);
        if e.name == "" {
          continue;
        }
        var existing := Find(ShareTable(at), shares, Lower(e.name));
        if e.volume.None? {
          StaysRefused(t, was, es, ids, n + 1);
          ok := false;
          return;
        }
        var perms := RestoreGrants(at.user, e.permissions);
        var groupPerms := RestoreGrants(at.group, e.groupPermissions);
        var rules := RestoreRules(at, e.folderRules);
        var guest := LevelOr(e.guestAccess, NoAccess);
        var smb, browseable := e.smbEnabled != Some(false), e.browseable != Some(false);
        if existing.Some? {
          var r := shares[existing.value];
          shares := shares[existing.value := ShareRow(r.id, r.name, Or(e.comment, ""), guest, smb, e.nfsEnabled,
                                                      browseable, e.volume.value, e.recycleEnabled,
                                                      perms, groupPerms, rules)];
          updated := updated + 1;
        } else {
          var r := ShareRow(ids(n), e.name, Or(e.comment, ""), guest, smb, e.nfsEnabled, browseable,
                            e.volume.value, e.recycleEnabled, perms, groupPerms, rules);
          if !ShareFits(shares, r) {
            StaysRefused(t, was, es, ids, n + 1);
            ok := false;
            return;
          }
          shares := shares + [r];
          created := created + 1;
        }
      }
    }

    /** One transaction: when a write is refused, everything is taken back. */
    method ApplyRestore(b: Backup, ids: Ids) returns (result: Option<Result>)
      modifies this
      ensures Contents() == Left(old(Contents()), b, ids)
      ensures result ==
        if Restore(old(Contents()), b, ids).Committed? then Some(ResultOf(old(Contents()), b, ids)) else None
    {
      hide Pass, Try, Inserted, Updated, Needing, UserTable, GroupTable, ShareTable, LookupsIn, RestoredSettings;
      var wasSettings, wasUsers, wasGroups, wasShares := settings, users, groups, shares;
      CommittedIsRestored(Contents(), b, ids);
      var settingsCount := RestoreSettings(b.settings);
      var ok, usersCreated, usersUpdated, needing := RestoreUsers(b.users, ids.user);
      var groupsCreated, groupsUpdated, sharesCreated, sharesUpdated := 0, 0, 0, 0;
      if ok {
        ok, groupsCreated, groupsUpdated := RestoreGroups(b.groups, ids.group);
      }
      if ok {
        ok, sharesCreated, sharesUpdated := RestoreShares(b.shares, ids.share);
      }
      if !ok {
        settings, users, groups, shares := wasSettings, wasUsers, wasGroups, wasShares;
        return None;
      }
      result := Some(Result(settingsCount, usersCreated, usersUpdated, groupsCreated, groupsUpdated, sharesCreated,
                            sharesUpdated,
                            needing));
    }
  }

  lemma NoneNeeding(users: seq<UserRow>, es: seq<UserEntry>)
    ensures Needing(users, es[..0]) == []
  {}

  lemma Unnamed(users: seq<UserRow>, e: UserEntry)
    ensures e.username == "" ==> !NeedsPassword(users, e)
  {}

  // ----- What the counters say -------------------------------------------------------------------

  function KnownUsers(users: seq<UserRow>): set<string> { set r | r in users :: Lower(r.username) }

  function KnownGroups(groups: seq<GroupRow>): set<string> { set r | r in groups :: Lower(r.name) }

  function KnownShares(shares: seq<ShareRow>): set<string> { set r | r in shares :: Lower(r.name) }

  function PlanOf(d: Db, b: Backup, jsLower: string -> string): Plan {
    var users := NameCounts(KnownUsers(d.users), EntryNames(b.users, (e: UserEntry) => e.username), jsLower);
    var groups := NameCounts(KnownGroups(d.groups), EntryNames(b.groups, (e: GroupEntry) => e.name), jsLower);
    var shares := NameCounts(KnownShares(d.shares), EntryNames(b.shares, (e: ShareEntry) => e.name), jsLower);
    Plan(|b.settings|, users.0, users.1, groups.0, groups.1, shares.0, shares.1)
  }

  function ResultOf(d: Db, b: Backup, ids: Ids): Result {
    var r := Restored(d, b, ids);
    var groups, shares := GroupTable(LookupsIn(r.users, []).user), ShareTable(LookupsIn(r.users, r.groups));
    Result(|b.settings.Keys - EXCLUDED_SETTINGS|,
           Inserted(UserTable(), d.users, b.users, ids.user), Updated(UserTable(), d.users, b.users, ids.user),
           Inserted(groups, d.groups, b.groups, ids.group), Updated(groups, d.groups, b.groups, ids.group),
           Inserted(shares, d.shares, b.shares, ids.share), Updated(shares, d.shares, b.shares, ids.share),
           Needing(d.users, b.users))
  }

  /** No two entries of the backup share a new name ignoring case. */
  ghost predicate NoneRepeated<R, E>(t: Table<R, E>, rows: seq<R>, es: seq<E>) {
    forall n: nat :: n < |es| ==> !Repeats(t, rows, es, n)
  }

  /** The preview finds a named entry known exactly when the database does before the restore. */
  ghost predicate LowersAlike<E>(es: seq<E>, name: E -> string, known: set<string>, jsLower: string -> string) {
    forall n: nat :: n < |es| && name(es[n]) != "" ==> (jsLower(name(es[n])) in known <==> Lower(name(es[n])) in known)
  }

  /** The preview takes every named entry for an update exactly when the restore updates, and for new
      exactly when the restore inserts. */
  ghost predicate Classifies<R, E>(t: Table<R, E>, rows: seq<R>, es: seq<E>, ids: nat -> string, name: E -> string,
                                   known: set<string>, jsLower: string -> string) {
    forall n: nat :: n < |es| && name(es[n]) != "" ==> ClassifiesAt(t, rows, es, ids, name, known, jsLower, n)
  }

  ghost predicate ClassifiesAt<R, E>(t: Table<R, E>, rows: seq<R>, es: seq<E>, ids: nat -> string, name: E -> string,
                                     known: set<string>, jsLower: string -> string, n: nat)
    requires n < |es|
  {
    jsLower(name(es[n])) in known <==> Find(t, Pass(t, rows, es[..n], ids), t.entryKey(es[n])).Some?
  }

  /** The case of letters in ASCII makes no difference to the preview. */
  ghost predicate FoldsAscii(jsLower: string -> string) {
    forall a, b :: Lower(a) == Lower(b) ==> jsLower(a) == jsLower(b)
  }

  /** What a table, its entries' names and the preview's set of known names have to do with each other. */
  ghost predicate Previews<R, E(!new)>(t: Table<R, E>, rows: seq<R>, es: seq<E>, name: E -> string,
                                       known: set<string>) {
    && (forall k :: k in known <==> exists r :: r in rows && t.rowKey(r) == k)
    && (forall e :: t.entryKey(e) == Lower(name(e)))
  }

  /** What decides about one entry: whether its name was known, or an earlier entry made it so. */
  lemma EntryIsFound<R(!new), E(!new)>(t: Table<R, E>, rows: seq<R>, es: seq<E>, ids: nat -> string, name: E -> string,
                                       known: set<string>, n: nat)
    requires Lawful(t) && Previews(t, rows, es, name, known) && n < |es| && name(es[n]) != ""
    ensures Find(t, Pass(t, rows, es[..n], ids), t.entryKey(es[n])).Some?
       <==> (Lower(name(es[n])) in known || Repeats(t, rows, es, n))
  {
    var key := t.entryKey(es[n]);
    LowerIsEmpty(name(es[n]));
    hide Pass, Find, Lower;
    KnownIsFound(t, rows, key, known);
    FoundAfter(t, rows, es[..n], ids, key);
    assert (exists m :: 0 <= m < |es[..n]| && t.entryKey(es[..n][m]) == key)
      <==> (exists m :: 0 <= m < n && t.entryKey(es[m]) == key) by {
      assert forall m :: 0 <= m < n ==> es[..n][m] == es[m];
    }
  }

  /** The first entry that carries a new name. */
  lemma {:induction false} FirstOfName<R, E>(t: Table<R, E>, rows: seq<R>, es: seq<E>, n: nat) returns (m: nat)
    requires n < |es| && t.entryKey(es[n]) != "" && Find(t, rows, t.entryKey(es[n])).None?
    ensures m <= n && t.entryKey(es[m]) == t.entryKey(es[n]) && !Repeats(t, rows, es, m)
  {
    hide Find;
    if Repeats(t, rows, es, n) {
      var k: nat :| k < n && t.entryKey(es[k]) == t.entryKey(es[n]);
      m := FirstOfName(t, rows, es, k);
    } else {
      m := n;
    }
  }

  /** The preview tells every entry as the restore does exactly when no entry repeats a new name and the two
      ways of lower-casing find the same names known. */
  lemma PreviewIsRight<R(!new), E(!new)>(t: Table<R, E>, rows: seq<R>, es: seq<E>, ids: nat -> string,
                                         name: E -> string, known: set<string>, jsLower: string -> string)
    requires Lawful(t) && Previews(t, rows, es, name, known) && FoldsAscii(jsLower)
    ensures Classifies(t, rows, es, ids, name, known, jsLower)
      <==> NoneRepeated(t, rows, es) && LowersAlike(es, name, known, jsLower)
  {
    hide Lawful, Pass, Find, Lower, Repeats;
    forall n: nat | n < |es| && name(es[n]) != ""
      ensures ClassifiesAt(t, rows, es, ids, name, known, jsLower, n)
         <==> (jsLower(name(es[n])) in known <==> Lower(name(es[n])) in known || Repeats(t, rows, es, n))
    {
      EntryIsFound(t, rows, es, ids, name, known, n);
    }
    hide ClassifiesAt;
    forall n: nat | n < |es| && Repeats(t, rows, es, n) ensures !Classifies(t, rows, es, ids, name, known, jsLower) {
      RepeatIsMisjudged(t, rows, es, ids, name, known, jsLower, n);
    }
    if Classifies(t, rows, es, ids, name, known, jsLower) {
      assert NoneRepeated(t, rows, es);
      assert LowersAlike(es, name, known, jsLower);
    }
  }

  /** Of the entries that carry one new name, the first or a later one is told wrongly. */
  lemma RepeatIsMisjudged<R(!new), E(!new)>(t: Table<R, E>, rows: seq<R>, es: seq<E>, ids: nat -> string,
                                            name: E -> string, known: set<string>, jsLower: string -> string, n: nat)
    requires Lawful(t) && Previews(t, rows, es, name, known) && FoldsAscii(jsLower)
    requires n < |es| && Repeats(t, rows, es, n)
    ensures !Classifies(t, rows, es, ids, name, known, jsLower)
  {
    hide Lawful, Pass, Find, Lower;
    var m := FirstOfName(t, rows, es, n);
    LowerIsEmpty(name(es[n]));
    LowerIsEmpty(name(es[m]));
    KnownIsFound(t, rows, t.entryKey(es[n]), known);
    EntryIsFound(t, rows, es, ids, name, known, n);
    EntryIsFound(t, rows, es, ids, name, known, m);
    hide Repeats;
    assert jsLower(name(es[m])) == jsLower(name(es[n]));
    assert !(ClassifiesAt(t, rows, es, ids, name, known, jsLower, m)
             && ClassifiesAt(t, rows, es, ids, name, known, jsLower, n));
  }

  /** Then its counts are those of the restore. */
  lemma {:induction false} CountsFollow<R, E(!new)>(t: Table<R, E>, rows: seq<R>, es: seq<E>, ids: nat -> string,
                                                    name: E -> string, known: set<string>, jsLower: string -> string)
    requires Previews(t, rows, es, name, known) && Classifies(t, rows, es, ids, name, known, jsLower)
    ensures NameCounts(known, EntryNames(es, name), jsLower) == (Inserted(t, rows, es, ids), Updated(t, rows, es, ids))
  {
    if |es| > 0 {
      hide Pass, Find, Lower, Inserted, Updated, Classifies, NameCounts, EntryNames;
      var front, last := es[..|es| - 1], es[|es| - 1];
      FrontClassifies(t, rows, es, ids, name, known, jsLower);
      CountsFollow(t, rows, front, ids, name, known, jsLower);
      CountStep(t, rows, es, ids);
      LowerIsEmpty(name(last));
      NameCountsStep(known, es, name, jsLower);
    } else {
      hide Find;
    }
  }

  lemma NameCountsStep<E>(known: set<string>, es: seq<E>, name: E -> string, jsLower: string -> string)
    requires |es| > 0
    ensures var (n, u) := NameCounts(known, EntryNames(es[..|es| - 1], name), jsLower);
      var last := name(es[|es| - 1]);
      NameCounts(known, EntryNames(es, name), jsLower)
        == if last == "" then (n, u) else if jsLower(last) in known then (n, u + 1) else (n + 1, u)
  {
    assert EntryNames(es, name)[..|es| - 1] == EntryNames(es[..|es| - 1], name);
  }

  lemma FrontClassifies<R, E>(t: Table<R, E>, rows: seq<R>, es: seq<E>, ids: nat -> string, name: E -> string,
                              known: set<string>, jsLower: string -> string)
    requires |es| > 0 && Classifies(t, rows, es, ids, name, known, jsLower)
    ensures Classifies(t, rows, es[..|es| - 1], ids, name, known, jsLower)
    ensures name(es[|es| - 1]) != "" ==> ClassifiesAt(t, rows, es, ids, name, known, jsLower, |es| - 1)
  {
    var front := es[..|es| - 1];
    hide Pass, Find;
    forall n: nat | n < |front| && name(front[n]) != ""
      ensures ClassifiesAt(t, rows, front, ids, name, known, jsLower, n)
    {
      assert ClassifiesAt(t, rows, es, ids, name, known, jsLower, n);
      assert front[..n] == es[..n];
    }
  }

  /** When the two ways of lower-casing find the same names known, the preview counts every entry the restore
      does, takes no new entry for an update, and counts right exactly when no new name is repeated. */
  lemma CountsWithRepeats<R(!new), E(!new)>(t: Table<R, E>, rows: seq<R>, es: seq<E>, ids: nat -> string,
                                            name: E -> string, known: set<string>, jsLower: string -> string)
    requires Lawful(t) && Previews(t, rows, es, name, known) && LowersAlike(es, name, known, jsLower)
    ensures var (n, u) := NameCounts(known, EntryNames(es, name), jsLower);
      && n + u == Inserted(t, rows, es, ids) + Updated(t, rows, es, ids)
      && Inserted(t, rows, es, ids) <= n
      && (n == Inserted(t, rows, es, ids) <==> NoneRepeated(t, rows, es))
  {
    CountsAreTheTable(t, rows, es, name, known, jsLower);
    PlanIsRight(t, rows, es, ids);
    hide Inserted, Updated, PlannedNew, PlannedUpdates, NameCounts, EntryNames, Repeats;
  }

  lemma {:induction false} CountsAreTheTable<R, E(!new)>(t: Table<R, E>, rows: seq<R>, es: seq<E>, name: E -> string,
                                                         known: set<string>, jsLower: string -> string)
    requires Previews(t, rows, es, name, known) && LowersAlike(es, name, known, jsLower)
    ensures NameCounts(known, EntryNames(es, name), jsLower) == (PlannedNew(t, rows, es), PlannedUpdates(t, rows, es))
  {
    if |es| > 0 {
      hide Find, Lower, NameCounts, EntryNames;
      var front, last := es[..|es| - 1], es[|es| - 1];
      CountsAreTheTable(t, rows, front, name, known, jsLower);
      KnownIsFound(t, rows, t.entryKey(last), known);
      LowerIsEmpty(name(last));
      NameCountsStep(known, es, name, jsLower);
      assert t.entryKey(last) == Lower(name(last));
      assert name(last) != "" ==> (jsLower(name(es[|es| - 1])) in known <==> Lower(name(es[|es| - 1])) in known);
    } else {
      hide Find;
    }
  }

  // ----- Two previews that count wrongly ---------------------------------------------------------

  lemma OneOrTwoEntries<R, E>(t: Table<R, E>, rows: seq<R>, a: E, b: E, ids: nat -> string)
    requires t.entryKey(a) != "" && t.entryKey(b) != ""
    ensures var found := Find(t, rows, t.entryKey(a)).Some?;
      && Inserted(t, rows, [a], ids) == (if found then 0 else 1)
      && Updated(t, rows, [a], ids) == (if found then 1 else 0)
      && var again := Find(t, Put(t, rows, a, ids(0)), t.entryKey(b)).Some?;
         && Inserted(t, rows, [a, b], ids) == Inserted(t, rows, [a], ids) + (if again then 0 else 1)
         && Updated(t, rows, [a, b], ids) == Updated(t, rows, [a], ids) + (if again then 1 else 0)
  {
    assert [a][..0] == [] && [a, b][..1] == [a];
    assert Pass(t, rows, [], ids) == rows;
    assert Pass(t, rows, [a], ids) == Put(t, rows, a, ids(0));
    hide Find, Put;
    CountStep(t, rows, [a], ids);
    CountStep(t, rows, [a, b], ids);
  }

  const UMLAUT := "\U{00C4}mter"

  /** A share whose name begins with an umlaut, previewed on the box it was exported from: SQLite keeps its
      first letter when it lower-cases, the preview does not, and counts a new share where the restore
      updates one. */
  lemma UmlautIsMiscounted(ids: Ids, jsLower: string -> string)
    requires jsLower(UMLAUT) == "\U{00E4}mter"
    ensures var d := Db(map[], [], [], [PlainShare("1", UMLAUT)]);
      var b := Backup(map[], [], [], [PlainEntry(UMLAUT)]);
      var plan, result := PlanOf(d, b, jsLower), ResultOf(d, b, ids);
      && plan.sharesNew == 1 && plan.sharesUpdated == 0 && result.sharesCreated == 0 && result.sharesUpdated == 1
  {
    var share, e := PlainShare("1", UMLAUT), PlainEntry(UMLAUT);
    var d, b := Db(map[], [], [], [share]), Backup(map[], [], [], [e]);
    var r := Restored(d, b, ids);
    var t := ShareTable(LookupsIn(r.users, r.groups));
    assert Lower(UMLAUT) == UMLAUT;
    assert KnownShares(d.shares) == {UMLAUT} by {
      assert share in d.shares;
    }
    hide Lower;
    FindIs(t, d.shares, t.entryKey(e), 0);
    OneOrTwoEntries(t, d.shares, e, e, ids.share);
    assert EntryNames(b.shares, (e: ShareEntry) => e.name) == [UMLAUT];
    assert [UMLAUT][..0] == [];
    assert "\U{00E4}mter"[0] != UMLAUT[0];
    assert NameCounts({UMLAUT}, [], jsLower) == (0, 0);
    hide KnownShares, EntryNames, ShareTable, LookupsIn, Inserted, Updated, Pass, Find, Needing, PlainShare;
  }

  /** A backup that names one new share twice: the preview counts two new ones, the restore makes one and
      updates it. */
  lemma RepeatIsMiscounted(ids: Ids, jsLower: string -> string)
    ensures var b := Backup(map[], [], [], [PlainEntry("Media"), PlainEntry("Media")]);
      var plan, result := PlanOf(EMPTY, b, jsLower), ResultOf(EMPTY, b, ids);
      && plan.sharesNew == 2 && plan.sharesUpdated == 0 && result.sharesCreated == 1 && result.sharesUpdated == 1
  {
    var e := PlainEntry("Media");
    var b := Backup(map[], [], [], [e, e]);
    var r := Restored(EMPTY, b, ids);
    var t := ShareTable(LookupsIn(r.users, r.groups));
    TablesAreLawful(LookupsIn(r.users, r.groups));
    assert KnownShares(EMPTY.shares) == {};
    LowerIsEmpty("Media");
    hide Lower;
    assert Find(t, EMPTY.shares, t.entryKey(e)).None?;
    PutSettles(t, EMPTY.shares, e, ids.share(0));
    OneOrTwoEntries(t, EMPTY.shares, e, e, ids.share);
    assert EntryNames(b.shares, (e: ShareEntry) => e.name) == ["Media", "Media"];
    assert ["Media", "Media"][..1] == ["Media"] && ["Media"][..0] == [];
    assert NameCounts({}, [], jsLower) == (0, 0);
    assert NameCounts({}, ["Media"], jsLower) == (1, 0);
    hide KnownShares, EntryNames, ShareTable, LookupsIn, Inserted, Updated, Pass, Find, Needing, Lawful, PlainEntry;
  }

  lemma PlanMatchesUsers(d: Db, b: Backup, ids: Ids, jsLower: string -> string)
    requires FoldsAscii(jsLower)
    ensures var plan, result, t, name := PlanOf(d, b, jsLower), ResultOf(d, b, ids), UserTable(),
      (e: UserEntry) => e.username;
      var right := Classifies(t, d.users, b.users, ids.user, name, KnownUsers(d.users), jsLower);
      && (right <==> NoneRepeated(t, d.users, b.users) && LowersAlike(b.users, name, KnownUsers(d.users), jsLower))
      && (right ==> plan.usersNew == result.usersCreated && plan.usersUpdated == result.usersUpdated)
  {
    var t, name := UserTable(), (e: UserEntry) => e.username;
    TablesAreLawful(LookupsIn([], []));
    hide Find, Pass, Lawful, Lower, Inserted, Updated, NameCounts, EntryNames, Needing, Repeats, Classifies, FoldsAscii;
    PreviewIsRight(t, d.users, b.users, ids.user, name, KnownUsers(d.users), jsLower);
    if Classifies(t, d.users, b.users, ids.user, name, KnownUsers(d.users), jsLower) {
      CountsFollow(t, d.users, b.users, ids.user, name, KnownUsers(d.users), jsLower);
    }
  }

  lemma PlanMatchesGroups(d: Db, b: Backup, ids: Ids, jsLower: string -> string)
    requires FoldsAscii(jsLower)
    ensures var plan, result, name := PlanOf(d, b, jsLower), ResultOf(d, b, ids), (e: GroupEntry) => e.name;
      var t := GroupTable(LookupsIn(Restored(d, b, ids).users, []).user);
      var right := Classifies(t, d.groups, b.groups, ids.group, name, KnownGroups(d.groups), jsLower);
      && (right <==> NoneRepeated(t, d.groups, b.groups) && LowersAlike(b.groups, name, KnownGroups(d.groups), jsLower))
      && (right ==> plan.groupsNew == result.groupsCreated && plan.groupsUpdated == result.groupsUpdated)
  {
    var at, name := LookupsIn(Restored(d, b, ids).users, []), (e: GroupEntry) => e.name;
    var t := GroupTable(at.user);
    TablesAreLawful(at);
    hide Find, Pass, Lawful, Lower, Inserted, Updated, NameCounts, EntryNames, Needing, Repeats, Classifies, FoldsAscii,
      Members;
    PreviewIsRight(t, d.groups, b.groups, ids.group, name, KnownGroups(d.groups), jsLower);
    if Classifies(t, d.groups, b.groups, ids.group, name, KnownGroups(d.groups), jsLower) {
      CountsFollow(t, d.groups, b.groups, ids.group, name, KnownGroups(d.groups), jsLower);
    }
  }

  lemma PlanMatchesShares(d: Db, b: Backup, ids: Ids, jsLower: string -> string)
    requires FoldsAscii(jsLower)
    ensures var plan, result, name := PlanOf(d, b, jsLower), ResultOf(d, b, ids), (e: ShareEntry) => e.name;
      var t := ShareTable(LookupsIn(Restored(d, b, ids).users, Restored(d, b, ids).groups));
      var right := Classifies(t, d.shares, b.shares, ids.share, name, KnownShares(d.shares), jsLower);
      && (right <==> NoneRepeated(t, d.shares, b.shares) && LowersAlike(b.shares, name, KnownShares(d.shares), jsLower))
      && (right ==> plan.sharesNew == result.sharesCreated && plan.sharesUpdated == result.sharesUpdated)
  {
    var r, name := Restored(d, b, ids), (e: ShareEntry) => e.name;
    var at := LookupsIn(r.users, r.groups);
    var t := ShareTable(at);
    TablesAreLawful(at);
    hide Find, Pass, Lawful, Lower, Inserted, Updated, NameCounts, EntryNames, Needing, Repeats, Classifies, FoldsAscii,
      UpdateShare, MakeShare;
    PreviewIsRight(t, d.shares, b.shares, ids.share, name, KnownShares(d.shares), jsLower);
    if Classifies(t, d.shares, b.shares, ids.share, name, KnownShares(d.shares), jsLower) {
      CountsFollow(t, d.shares, b.shares, ids.share, name, KnownShares(d.shares), jsLower);
    }
  }

  /** The preview counts secret settings, which the restore skips. */
  lemma PlanMatchesSettings(d: Db, b: Backup, ids: Ids, jsLower: string -> string)
    ensures PlanOf(d, b, jsLower).settings == ResultOf(d, b, ids).settings <==> b.settings.Keys !! EXCLUDED_SETTINGS
  {
    hide NameCounts, EntryNames, Pass, Inserted, Updated, Needing;
    var keys := b.settings.Keys;
    assert keys == (keys - EXCLUDED_SETTINGS) + (keys * EXCLUDED_SETTINGS);
    assert |b.settings| == |keys|;
  }

  /** A backup that holds one excluded key: the preview counts a setting, the restore writes none. */
  lemma ExcludedIsMiscounted(d: Db, key: string, value: string, ids: Ids, jsLower: string -> string)
    requires key in EXCLUDED_SETTINGS
    ensures var b := Backup(map[key := value], [], [], []);
      PlanOf(d, b, jsLower).settings == 1 && ResultOf(d, b, ids).settings == 0
  {
    var b := Backup(map[key := value], [], [], []);
    assert b.settings.Keys - EXCLUDED_SETTINGS == {};
    hide NameCounts, EntryNames, Pass, Inserted, Updated, Needing, EXCLUDED_SETTINGS;
  }

  /** The accounts flagged are exactly the named ones that stand without a password afterwards. */
  lemma FlaggedHaveNoPassword(d: Db, b: Backup, ids: Ids, n: nat)
    requires n < |b.users| && b.users[n].username != "" && Restore(d, b, ids).Committed?
    ensures var after := Restore(d, b, ids).after.users;
      var i := Find(UserTable(), after, Lower(b.users[n].username));
      && i.Some? && (NeedsPassword(d.users, b.users[n]) <==> after[i.value].passwordHash.None?)
  {
    NoWayIn(d, b, ids);
    CommittedIsRestored(d, b, ids);
    PasswordsHold(d.users, b.users, ids.user, b.users[n]);
    hide Pass, Try, Find, NeedsPassword, Lower;
  }

  lemma NamesAreUnique(d: Db)
    requires WellFormed(d)
    ensures UniqueIds(UserNames(d.users)) && UniqueIds(GroupNames(d.groups))
  {
    hide Lower, WellFormedShare, HasId;
  }

  lemma InRowOrder(d: Db, b: Backup)
    requires b.settings == ExportedSettings(d.settings)
    requires |b.users| == |d.users| && forall n :: 0 <= n < |b.users| ==> b.users[n] == UserEntryOf(d.users[n])
    requires |b.groups| == |d.groups|
      && forall n :: 0 <= n < |b.groups| ==> IsGroupEntry(UserNames(d.users), d.groups[n], b.groups[n])
    requires |b.shares| == |d.shares|
      && forall n :: 0 <= n < |b.shares| ==>
          IsShareEntry(UserNames(d.users), GroupNames(d.groups), d.shares[n], b.shares[n])
    ensures IsExport(d, b)
  {
    hide IsGroupEntry, IsShareEntry, UserNames, GroupNames;
    var users := seq(|d.users|, i requires 0 <= i < |d.users| => i);
    var groups := seq(|d.groups|, i requires 0 <= i < |d.groups| => i);
    var shares := seq(|d.shares|, i requires 0 <= i < |d.shares| => i);
    assert ListsUsers(d, b.users, users);
    assert ListsGroups(d, b.groups, groups);
    assert ListsShares(d, b.shares, shares);
  }
}
