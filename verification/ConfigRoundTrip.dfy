/** Restoring an export onto an empty database and exporting again. */
module ConfigRoundTrip {
  import opened ConfigBackup
  import opened ConfigIntegrity
  import opened FolderAccess
  import opened NamedTable
  import opened Wrappers

  // ----- References by name ---------------------------------------------------------------------------

  /** The old rows have distinct names, every one of them stands again under a new id, and the new ids
      are what the names are looked up to. */
  ghost predicate Carried(was: seq<Named>, now: seq<Named>, lookup: string -> Option<string>) {
    && (forall u, v :: u in was && v in was && u.name == v.name ==> u == v)
    && (forall u :: u in was ==> exists v :: v in now && v.name == u.name)
    && (forall v :: v in now ==> lookup(v.name) == Some(v.id))
    && (forall v, w :: v in now && w in now && v.id == w.id ==> v == w)
  }

  lemma CarriedName(was: seq<Named>, now: seq<Named>, lookup: string -> Option<string>, u: Named) returns (v: Named)
    requires Carried(was, now, lookup) && u in was
    ensures v in now && v.name == u.name && lookup(u.name) == Some(v.id)
  {
    v :| v in now && v.name == u.name;
  }

  lemma LevelsRead()
    ensures forall level :: level != NoAccess ==> GrantLevel(LevelText(level)) == level
    ensures forall level, otherwise :: LevelOr(LevelText(level), otherwise) == level
  {}

  lemma MembersTrip(was: seq<Named>, now: seq<Named>, lookup: string -> Option<string>, members: set<string>,
                    names: seq<string>)
    requires Carried(was, now, lookup)
    requires forall n :: n in names <==> IsMember(was, members, n)
    ensures forall n :: n in names <==> IsMember(now, Members(lookup, names), n)
  {
    var again := Members(lookup, names);
    forall n ensures n in names <==> IsMember(now, again, n) {
      if n in names {
        assert IsMember(was, members, n);
        var u :| u in was && u.id in members && u.name == n;
        var v := CarriedName(was, now, lookup, u);
      }
      if IsMember(now, again, n) {
        var v :| v in now && v.id in again && v.name == n;
        var m :| m in names && lookup(m).Some? && lookup(m).value == v.id;
        assert IsMember(was, members, m);
        var u :| u in was && u.id in members && u.name == m;
        var w := CarriedName(was, now, lookup, u);
        assert w == v;
      }
    }
  }

  /** When grants to one subject agree, all of them can be read off the result. */
  lemma {:induction false} GrantsAre(lookup: string -> Option<string>, ps: seq<Grant>)
    requires forall p, q :: p in ps && q in ps && lookup(p.name) == lookup(q.name) ==> p.level == q.level
    ensures forall id :: id in Grants(lookup, ps) ==> exists p :: p in ps && lookup(p.name) == Some(id)
    ensures forall p :: p in ps && lookup(p.name).Some? ==>
      lookup(p.name).value in Grants(lookup, ps) && Grants(lookup, ps)[lookup(p.name).value] == GrantLevel(p.level)
  {
    hide GrantLevel;
    if |ps| > 0 {
      var front, last := ps[..|ps| - 1], ps[|ps| - 1];
      assert ps == front + [last];
      GrantsAre(lookup, front);
    }
  }

  lemma GrantsTrip(was: seq<Named>, now: seq<Named>, lookup: string -> Option<string>, grants: map<string, Level>,
                   ps: seq<Grant>)
    requires Carried(was, now, lookup)
    requires forall p :: p in ps <==> IsGrant(was, grants, p)
    requires forall id :: id in grants ==> grants[id] != NoAccess
    ensures forall p :: p in ps <==> IsGrant(now, Grants(lookup, ps), p)
  {
    var again := Grants(lookup, ps);
    forall p, q | p in ps && q in ps && lookup(p.name) == lookup(q.name) ensures p.level == q.level {
      hide LevelText, GrantLevel;
      var u, v := GrantHolder(was, now, lookup, grants, ps, p);
      var x, y := GrantHolder(was, now, lookup, grants, ps, q);
      assert v == y && u == x;
    }
    GrantsAre(lookup, ps);
    forall p ensures p in ps <==> IsGrant(now, again, p) {
      hide LevelText, GrantLevel, Grants, Carried;
      if p in ps {
        var u, v := GrantHolder(was, now, lookup, grants, ps, p);
        assert v.id in again;
      }
      if IsGrant(now, again, p) {
        GrantReads(was, now, lookup, grants, ps, again, p);
      }
    }
  }

  lemma GrantReads(was: seq<Named>, now: seq<Named>, lookup: string -> Option<string>, grants: map<string, Level>,
                   ps: seq<Grant>, again: map<string, Level>, p: Grant)
    requires Carried(was, now, lookup)
    requires forall q :: q in ps <==> IsGrant(was, grants, q)
    requires forall id :: id in grants ==> grants[id] != NoAccess
    requires forall id :: id in again ==> exists q :: q in ps && lookup(q.name) == Some(id)
    requires forall q :: q in ps && lookup(q.name).Some? ==>
        lookup(q.name).value in again && again[lookup(q.name).value] == GrantLevel(q.level)
    requires IsGrant(now, again, p)
    ensures p in ps
  {
    hide LevelText, GrantLevel;
    var v :| v in now && v.id in again && p == Grant(v.name, LevelText(again[v.id]));
    var q :| q in ps && lookup(q.name) == Some(v.id);
    var u, w := GrantHolder(was, now, lookup, grants, ps, q);
    assert w == v;
    assert q == p;
  }

  /** Who a listed grant was for, and who it is for now. */
  lemma GrantHolder(was: seq<Named>, now: seq<Named>, lookup: string -> Option<string>, grants: map<string, Level>,
                    ps: seq<Grant>, p: Grant)
    returns (u: Named, v: Named)
    requires Carried(was, now, lookup)
    requires forall q :: q in ps <==> IsGrant(was, grants, q)
    requires forall id :: id in grants ==> grants[id] != NoAccess
    requires p in ps
    ensures u in was && u.id in grants && p == Grant(u.name, LevelText(grants[u.id]))
    ensures v in now && v.name == u.name && lookup(p.name) == Some(v.id)
    ensures p.level == LevelText(GrantLevel(p.level))
  {
    assert IsGrant(was, grants, p);
    LevelsRead();
    hide LevelText, GrantLevel;
    u :| u in was && u.id in grants && p == Grant(u.name, LevelText(grants[u.id]));
    v := CarriedName(was, now, lookup, u);
  }

  lemma {:induction false} RulesAre(at: Lookups, qs: seq<RuleEntry>)
    requires forall p, q :: p in qs && q in qs && RuleKey(at, p) == RuleKey(at, q) && RuleKey(at, p).Some? ==>
        p.level == q.level
    ensures forall key :: key in Rules(at, qs) ==> exists q :: q in qs && RuleKey(at, q) == Some(key)
    ensures forall q :: q in qs && RuleKey(at, q).Some? ==>
      RuleKey(at, q).value in Rules(at, qs) && Rules(at, qs)[RuleKey(at, q).value] == LevelOr(q.level, NoAccess)
  {
    hide RuleKey, LevelOr;
    if |qs| > 0 {
      var front, last := qs[..|qs| - 1], qs[|qs| - 1];
      assert qs == front + [last];
      RulesAre(at, front);
    }
  }

  /** A backup's rules as they were and as they are looked up now. */
  ghost predicate RulesListed(users: seq<Named>, groups: seq<Named>, rules: map<(string, Subject), Level>,
                              qs: seq<RuleEntry>) {
    && (forall q :: q in qs <==> IsRule(users, groups, rules, q))
    && (forall key :: key in rules ==> key.0 != "" && NormalizeAclPath(key.0) == Ok(key.0))
  }

  ghost predicate BothCarried(users: seq<Named>, groups: seq<Named>, nowUsers: seq<Named>, nowGroups: seq<Named>,
                              at: Lookups) {
    Carried(users, nowUsers, at.user) && Carried(groups, nowGroups, at.group)
  }

  lemma RuleHolder(users: seq<Named>, groups: seq<Named>, nowUsers: seq<Named>, nowGroups: seq<Named>, at: Lookups,
                   rules: map<(string, Subject), Level>, qs: seq<RuleEntry>, q: RuleEntry)
    returns (u: Named, v: Named)
    requires BothCarried(users, groups, nowUsers, nowGroups, at) && RulesListed(users, groups, rules, qs) && q in qs
    ensures q.subjectType == "user" || q.subjectType == "group"
    ensures u in (if q.subjectType == "user" then users else groups)
      && v in (if q.subjectType == "user" then nowUsers else nowGroups)
    ensures v.name == u.name == q.subject
    ensures var before := if q.subjectType == "user" then User(u.id) else Group(u.id);
      (q.path, before) in rules && q.level == LevelText(rules[(q.path, before)])
    ensures RuleKey(at, q) == Some((q.path, if q.subjectType == "user" then User(v.id) else Group(v.id)))
  {
    hide NormalizeAclPath, LevelText;
    assert IsRule(users, groups, rules, q);
    if IsUserRule(users, rules, q) {
      u :| u in users && (q.path, User(u.id)) in rules
        && q == RuleEntry(q.path, "user", u.name, LevelText(rules[(q.path, User(u.id))]));
      v := CarriedName(users, nowUsers, at.user, u);
    } else {
      u :| u in groups && (q.path, Group(u.id)) in rules
        && q == RuleEntry(q.path, "group", u.name, LevelText(rules[(q.path, Group(u.id))]));
      v := CarriedName(groups, nowGroups, at.group, u);
    }
  }

  lemma SameKeySameLevel(users: seq<Named>, groups: seq<Named>, nowUsers: seq<Named>, nowGroups: seq<Named>,
                         at: Lookups, rules: map<(string, Subject), Level>, qs: seq<RuleEntry>, p: RuleEntry,
                         q: RuleEntry)
    requires BothCarried(users, groups, nowUsers, nowGroups, at) && RulesListed(users, groups, rules, qs) && p in qs
      && q in qs
    requires RuleKey(at, p) == RuleKey(at, q)
    ensures p == q
  {
    var u, v := RuleHolder(users, groups, nowUsers, nowGroups, at, rules, qs, p);
    var x, y := RuleHolder(users, groups, nowUsers, nowGroups, at, rules, qs, q);
    hide RuleKey, RulesListed, LevelText;
    assert v == y;
    assert u == x;
  }

  lemma RulesTrip(users: seq<Named>, groups: seq<Named>, nowUsers: seq<Named>, nowGroups: seq<Named>, at: Lookups,
                  rules: map<(string, Subject), Level>, qs: seq<RuleEntry>)
    requires BothCarried(users, groups, nowUsers, nowGroups, at) && RulesListed(users, groups, rules, qs)
    ensures forall q :: q in qs <==> IsRule(nowUsers, nowGroups, Rules(at, qs), q)
  {
    var again := Rules(at, qs);
    forall p, q | p in qs && q in qs && RuleKey(at, p) == RuleKey(at, q) && RuleKey(at, p).Some?
      ensures p.level == q.level
    {
      SameKeySameLevel(users, groups, nowUsers, nowGroups, at, rules, qs, p, q);
    }
    RulesAre(at, qs);
    hide RulesListed, RuleKey, Rules;
    forall q ensures q in qs <==> IsRule(nowUsers, nowGroups, again, q) {
      if q in qs {
        RuleStands(users, groups, nowUsers, nowGroups, at, rules, qs, again, q);
      }
      if IsRule(nowUsers, nowGroups, again, q) {
        var key := RuleStood(nowUsers, nowGroups, again, q);
        var p :| p in qs && RuleKey(at, p) == Some(key);
        RuleStands(users, groups, nowUsers, nowGroups, at, rules, qs, again, p);
        RuleReads(users, groups, nowUsers, nowGroups, at, rules, qs, again, p, q, key);
      }
    }
  }

  lemma RuleStands(users: seq<Named>, groups: seq<Named>, nowUsers: seq<Named>, nowGroups: seq<Named>, at: Lookups,
                   rules: map<(string, Subject), Level>, qs: seq<RuleEntry>, again: map<(string, Subject), Level>,
                   q: RuleEntry)
    requires BothCarried(users, groups, nowUsers, nowGroups, at) && RulesListed(users, groups, rules, qs) && q in qs
    requires RuleKey(at, q).Some? ==>
      RuleKey(at, q).value in again && again[RuleKey(at, q).value] == LevelOr(q.level, NoAccess)
    ensures IsRule(nowUsers, nowGroups, again, q)
  {
    var u, v := RuleHolder(users, groups, nowUsers, nowGroups, at, rules, qs, q);
    LevelsRead();
    hide RuleKey, RulesListed, LevelText, LevelOr;
  }

  /** The key under which a listed rule is stored. */
  lemma RuleStood(users: seq<Named>, groups: seq<Named>, rules: map<(string, Subject), Level>, q: RuleEntry)
      returns (key: (string, Subject))
    requires IsRule(users, groups, rules, q)
    ensures key in rules && key.0 == q.path && q.level == LevelText(rules[key])
    ensures q.subjectType == if key.1.User? then "user" else "group"
    ensures Named(key.1.id, q.subject) in (if key.1.User? then users else groups)
  {
    hide LevelText;
    if IsUserRule(users, rules, q) {
      var u :| u in users && (q.path, User(u.id)) in rules
        && q == RuleEntry(q.path, "user", u.name, LevelText(rules[(q.path, User(u.id))]));
      key := (q.path, User(u.id));
      assert u == Named(u.id, q.subject);
    } else {
      var u :| u in groups && (q.path, Group(u.id)) in rules
        && q == RuleEntry(q.path, "group", u.name, LevelText(rules[(q.path, Group(u.id))]));
      key := (q.path, Group(u.id));
      assert u == Named(u.id, q.subject);
    }
  }

  lemma RuleReads(users: seq<Named>, groups: seq<Named>, nowUsers: seq<Named>, nowGroups: seq<Named>, at: Lookups,
                  rules: map<(string, Subject), Level>, qs: seq<RuleEntry>, again: map<(string, Subject), Level>,
                  p: RuleEntry, q: RuleEntry, key: (string, Subject))
    requires BothCarried(users, groups, nowUsers, nowGroups, at) && RulesListed(users, groups, rules, qs) && p in qs
    requires RuleKey(at, p) == Some(key) && key in again && again[key] == LevelOr(p.level, NoAccess)
    requires key.0 == q.path && q.level == LevelText(again[key]) && q.subjectType ==
      if key.1.User? then "user" else "group"
    requires Named(key.1.id, q.subject) in (if key.1.User? then nowUsers else nowGroups)
    ensures p == q
  {
    var u, v := RuleHolder(users, groups, nowUsers, nowGroups, at, rules, qs, p);
    LevelsRead();
    hide RuleKey, RulesListed, LevelText, LevelOr;
    assert v == Named(key.1.id, q.subject);
  }

  // ----- From an order to its rows -----------------------------------------------------------------------

  /** An order of n rows leaves none out. */
  lemma OrderCovers(order: seq<nat>, n: nat, i: nat) returns (k: nat)
    requires IsOrder(order, n) && i < n
    ensures k < n && order[k] == i
  {
    var hit := Hits(order, n);
    SameSize(hit, Below(n));
    assert i in hit;
    k :| 0 <= k < |order| && order[k] == i;
  }

  function Below(n: nat): (all: set<nat>)
    ensures |all| == n && forall x: nat :: x in all <==> x < n
  {
    if n == 0 then {} else Below(n - 1) + {n - 1}
  }

  lemma {:induction false} Hits(order: seq<nat>, n: nat) returns (hit: set<nat>)
    requires forall i :: 0 <= i < |order| ==> order[i] < n
    requires forall i, j :: 0 <= i < j < |order| ==> order[i] != order[j]
    ensures forall x :: x in hit <==> x in order
    ensures |hit| == |order|
  {
    if |order| == 0 {
      hit := {};
    } else {
      var front, last := order[..|order| - 1], order[|order| - 1];
      assert order == front + [last];
      var rest := Hits(front, n);
      assert last !in front;
      hit := rest + {last};
    }
  }

  lemma {:induction false} SameSize(small: set<nat>, big: set<nat>)
    requires small <= big && |small| == |big|
    ensures small == big
  {
    if big != small {
      var x :| x in big && x !in small;
      Subset(small, big - {x});
    }
  }

  lemma {:induction false} Subset(small: set<nat>, big: set<nat>)
    requires small <= big
    ensures |small| <= |big|
  {
    if small != {} {
      var x :| x in small;
      Subset(small - {x}, big - {x});
    }
  }

  /** The rows of `was`, listed in some order under their names and given new ids. */
  ghost predicate Relisted(was: seq<Named>, now: seq<Named>, order: seq<nat>, ids: nat -> string) {
    && IsOrder(order, |was|) && |now| == |was|
    && (forall n :: 0 <= n < |now| ==> now[n] == Named(ids(n), was[order[n]].name))
    && (forall m: nat, n: nat :: ids(m) == ids(n) ==> m == n)
  }

  lemma RelistedIsCarried(was: seq<Named>, now: seq<Named>, order: seq<nat>, ids: nat -> string,
                          lookup: string -> Option<string>)
    requires Distinct(was) && Relisted(was, now, order, ids)
    requires forall v :: v in now ==> lookup(v.name) == Some(v.id)
    ensures Carried(was, now, lookup)
  {
    hide Lower;
    forall u | u in was ensures exists v :: v in now && v.name == u.name {
      var i: nat :| i < |was| && was[i] == u;
      var k := OrderCovers(order, |was|, i);
      assert now[k] in now;
    }
  }

  // ----- What a restore onto an empty database makes -----------------------------------------------------------

  /** Restored users, entry by entry. */
  lemma UsersMade(d: Db, es: seq<UserEntry>, order: seq<nat>, ids: nat -> string)
    requires Distinct(UserNames(d.users)) && ListsUsers(d, es, order)
    ensures DistinctNames(UserTable(), es)
    ensures var users := Pass(UserTable(), [], es, ids);
      |users| == |es| && forall n :: 0 <= n < |es| ==> users[n] == MakeUser(es[n], ids(n))
  {
    hide Lower, Pass;
    var names := UserNames(d.users);
    forall n | 0 <= n < |es| ensures Lower(es[n].username) != "" {
      assert names[order[n]] in names;
      LowerIsEmpty(es[n].username);
    }
    forall m, n | 0 <= m < n < |es| ensures Lower(es[m].username) != Lower(es[n].username) {
      assert order[m] != order[n];
      assert es[m].username == names[order[m]].name && es[n].username == names[order[n]].name;
    }
    TablesAreLawful(LookupsIn([], []));
    hide Lawful;
    PassFromEmpty(UserTable(), es, ids);
  }

  lemma UsersCarried(d: Db, es: seq<UserEntry>, order: seq<nat>, ids: nat -> string, groups: seq<GroupRow>)
    requires Distinct(UserNames(d.users)) && ListsUsers(d, es, order)
    requires forall m: nat, n: nat :: ids(m) == ids(n) ==> m == n
    ensures var users := Pass(UserTable(), [], es, ids);
      Carried(UserNames(d.users), UserNames(users), LookupsIn(users, groups).user)
  {
    hide Lower, Pass, Find, Distinct, Carried;
    var users := Pass(UserTable(), [], es, ids);
    var now := UserNames(users);
    UsersMade(d, es, order, ids);
    forall v | v in now ensures LookupsIn(users, groups).user(v.name) == Some(v.id) {
      var n: nat :| n < |now| && now[n] == v;
      FindIs(UserTable(), users, Lower(v.name), n);
    }
    RelistedIsCarried(UserNames(d.users), now, order, ids, LookupsIn(users, groups).user);
  }

  lemma GroupsMade(d: Db, es: seq<GroupEntry>, order: seq<nat>, ids: nat -> string, lookup: string -> Option<string>)
    requires Distinct(GroupNames(d.groups)) && ListsGroups(d, es, order)
    ensures DistinctNames(GroupTable(lookup), es)
    ensures var groups := Pass(GroupTable(lookup), [], es, ids);
      && |groups| == |es|
      && forall n :: 0 <= n < |es| ==>
          groups[n] == GroupRow(ids(n), es[n].name, Or(es[n].description, ""), Members(lookup, es[n].members))
  {
    hide Lower, Pass, IsMember, Members;
    var names := GroupNames(d.groups);
    forall n | 0 <= n < |es| ensures Lower(es[n].name) != "" {
      assert names[order[n]] in names;
      LowerIsEmpty(es[n].name);
    }
    forall m, n | 0 <= m < n < |es| ensures Lower(es[m].name) != Lower(es[n].name) {
      assert order[m] != order[n];
      assert es[m].name == names[order[m]].name && es[n].name == names[order[n]].name;
    }
    TablesAreLawful(Lookups(lookup, lookup));
    hide Lawful;
    PassFromEmpty(GroupTable(lookup), es, ids);
  }

  lemma GroupsCarried(d: Db, es: seq<GroupEntry>, order: seq<nat>, ids: nat -> string, lookup: string -> Option<string>,
                      users: seq<UserRow>)
    requires Distinct(GroupNames(d.groups)) && ListsGroups(d, es, order)
    requires forall m: nat, n: nat :: ids(m) == ids(n) ==> m == n
    ensures var groups := Pass(GroupTable(lookup), [], es, ids);
      Carried(GroupNames(d.groups), GroupNames(groups), LookupsIn(users, groups).group)
  {
    hide Lower, Pass, Find, Distinct, Carried, IsMember, Members;
    var groups := Pass(GroupTable(lookup), [], es, ids);
    var now := GroupNames(groups);
    GroupsMade(d, es, order, ids, lookup);
    forall v | v in now ensures LookupsIn(users, groups).group(v.name) == Some(v.id) {
      var n: nat :| n < |now| && now[n] == v;
      FindIs(GroupTable(_ => None), groups, Lower(v.name), n);
    }
    RelistedIsCarried(GroupNames(d.groups), now, order, ids, LookupsIn(users, groups).group);
  }

  ghost predicate DistinctGroups(groups: seq<GroupRow>) {
    forall i, j :: 0 <= i < j < |groups| ==> Lower(groups[i].name) != Lower(groups[j].name)
  }

  ghost predicate DistinctShares(shares: seq<ShareRow>) {
    forall i, j :: 0 <= i < j < |shares| ==> Lower(shares[i].name) != Lower(shares[j].name)
  }

  lemma SharesMade(d: Db, es: seq<ShareEntry>, order: seq<nat>, ids: nat -> string, at: Lookups)
    requires DistinctShares(d.shares) && (forall s :: s in d.shares ==> s.name != "") && ListsShares(d, es, order)
    ensures var shares := Pass(ShareTable(at), [], es, ids);
      |shares| == |es| && forall n :: 0 <= n < |es| ==> shares[n] == MakeShare(at, es[n], ids(n))
  {
    hide Lower, Pass, IsGrant, IsRule, MakeShare, UpdateShare;
    forall n | 0 <= n < |es| ensures Lower(es[n].name) != "" {
      assert d.shares[order[n]] in d.shares;
      LowerIsEmpty(es[n].name);
    }
    forall m, n | 0 <= m < n < |es| ensures Lower(es[m].name) != Lower(es[n].name) {
      assert order[m] != order[n];
    }
    TablesAreLawful(at);
    hide Lawful;
    PassFromEmpty(ShareTable(at), es, ids);
  }

  // ----- The round trip -----------------------------------------------------------------------------------------

  /** The same backup with every account switched off. */
  function Disabled(b: Backup): Backup {
    b.(users := seq(|b.users|, n requires 0 <= n < |b.users| => b.users[n].(disabled := true)))
  }

  function Identity(n: nat): (order: seq<nat>)
    ensures IsOrder(order, n) && forall i :: 0 <= i < n ==> order[i] == i
  {
    seq(n, i requires 0 <= i < n => i)
  }

  lemma UsersTrip(d: Db, b: Backup, order: seq<nat>, ids: Ids)
    requires Distinct(UserNames(d.users)) && ListsUsers(d, b.users, order)
    ensures ListsUsers(Restored(EMPTY, b, ids), Disabled(b).users, Identity(|b.users|))
  {
    UsersMade(d, b.users, order, ids.user);
    hide Pass, Distinct, UserTable, GroupTable, ShareTable;
  }

  lemma GroupsTrip(d: Db, b: Backup, users: seq<nat>, groups: seq<nat>, ids: Ids)
    requires Distinct(UserNames(d.users)) && Distinct(GroupNames(d.groups)) && Unused(EMPTY, ids)
    requires ListsUsers(d, b.users, users) && ListsGroups(d, b.groups, groups)
    ensures ListsGroups(Restored(EMPTY, b, ids), b.groups, Identity(|b.groups|))
  {
    var r := Restored(EMPTY, b, ids);
    var lookup := LookupsIn(r.users, []).user;
    var es := b.groups;
    UsersCarried(d, b.users, users, ids.user, []);
    GroupsMade(d, es, groups, ids.group, lookup);
    hide Pass, Distinct, UserTable, GroupTable, ShareTable, Carried, Members, IsMember, LookupsIn;
    forall n | 0 <= n < |es| ensures IsGroupEntry(UserNames(r.users), r.groups[n], es[n]) {
      MembersTrip(UserNames(d.users), UserNames(r.users), lookup, d.groups[groups[n]].members, es[n].members);
    }
  }

  lemma ShareTrip(d: Db, was: ShareRow, e: ShareEntry, at: Lookups, users: seq<Named>, groups: seq<Named>, id: string)
    requires Carried(UserNames(d.users), users, at.user) && Carried(GroupNames(d.groups), groups, at.group)
    requires WellFormedShare(d, was) && IsShareEntry(UserNames(d.users), GroupNames(d.groups), was, e)
    ensures IsShareEntry(users, groups, MakeShare(at, e, id), e)
  {
    hide Carried, IsGrant, IsRule, HasId, Grants, Rules, UserNames, GroupNames, NormalizeAclPath;
    LevelsRead();
    GrantsTrip(UserNames(d.users), users, at.user, was.perms, e.permissions);
    GrantsTrip(GroupNames(d.groups), groups, at.group, was.groupPerms, e.groupPermissions);
    RulesTrip(UserNames(d.users), GroupNames(d.groups), users, groups, at, was.rules, e.folderRules);
  }

  lemma SharesTrip(d: Db, b: Backup, users: seq<nat>, groups: seq<nat>, shares: seq<nat>, ids: Ids)
    requires WellFormed(d) && Distinct(GroupNames(d.groups)) && DistinctShares(d.shares) && Unused(EMPTY, ids)
    requires ListsUsers(d, b.users, users) && ListsGroups(d, b.groups, groups) && ListsShares(d, b.shares, shares)
    ensures ListsShares(Restored(EMPTY, b, ids), b.shares, Identity(|b.shares|))
  {
    var r := Restored(EMPTY, b, ids);
    var at, es := LookupsIn(r.users, r.groups), b.shares;
    hide Pass, Distinct, UserTable, GroupTable, ShareTable, Carried, LookupsIn, MakeShare, IsShareEntry,
      WellFormedShare, IsGroupEntry, UserNames, GroupNames;
    UsersCarried(d, b.users, users, ids.user, r.groups);
    GroupsCarried(d, b.groups, groups, ids.group, LookupsIn(r.users, []).user, r.users);
    SharesMade(d, es, shares, ids.share, at);
    forall n | 0 <= n < |es| ensures IsShareEntry(UserNames(r.users), GroupNames(r.groups), r.shares[n], es[n]) {
      assert d.shares[shares[n]] in d.shares;
      ShareTrip(d, d.shares[shares[n]], es[n], at, UserNames(r.users), GroupNames(r.groups), ids.share(n));
    }
  }

  lemma ExportTrip(d: Db, b: Backup, ids: Ids)
    requires WellFormed(d) && Distinct(GroupNames(d.groups)) && DistinctShares(d.shares) && Unused(EMPTY, ids)
    requires IsExport(d, b)
    ensures IsExport(Restored(EMPTY, b, ids), Disabled(b))
  {
    var users :| ListsUsers(d, b.users, users);
    var groups :| ListsGroups(d, b.groups, groups);
    var shares :| ListsShares(d, b.shares, shares);
    assert ExportedSettings(RestoredSettings(map[], b.settings)) == b.settings;
    UsersTrip(d, b, users, ids);
    GroupsTrip(d, b, users, groups, ids);
    SharesTrip(d, b, users, groups, shares, ids);
    hide Pass, ListsUsers, ListsGroups, ListsShares, UserTable, GroupTable, ShareTable, Distinct, DistinctShares;
  }

  lemma GroupsMustDiffer(d: Db, b: Backup, groups: seq<nat>, again: seq<nat>, ids: Ids)
    requires (forall g :: g in d.groups ==> g.name != "") && ListsGroups(d, b.groups, groups)
    requires ListsGroups(Restored(EMPTY, b, ids), b.groups, again)
    ensures DistinctGroups(d.groups)
  {
    var t, es := GroupTable(LookupsIn(Restored(EMPTY, b, ids).users, []).user), b.groups;
    TablesAreLawful(LookupsIn(Restored(EMPTY, b, ids).users, []));
    hide Pass, Lawful, Lower, IsMember;
    forall n | 0 <= n < |es| ensures t.entryKey(es[n]) != "" {
      assert d.groups[groups[n]] in d.groups;
      LowerIsEmpty(es[n].name);
    }
    AllNewIsDistinct(t, es, ids.group);
    forall i, j | 0 <= i < j < |d.groups| ensures Lower(d.groups[i].name) != Lower(d.groups[j].name) {
      var m := OrderCovers(groups, |d.groups|, i);
      var n := OrderCovers(groups, |d.groups|, j);
      DifferAt(t, es, m, n);
    }
  }

  lemma SharesMustDiffer(d: Db, b: Backup, shares: seq<nat>, again: seq<nat>, ids: Ids)
    requires (forall s :: s in d.shares ==> s.name != "") && ListsShares(d, b.shares, shares)
    requires ListsShares(Restored(EMPTY, b, ids), b.shares, again)
    ensures DistinctShares(d.shares)
  {
    var r := Restored(EMPTY, b, ids);
    var t, es := ShareTable(LookupsIn(r.users, r.groups)), b.shares;
    TablesAreLawful(LookupsIn(r.users, r.groups));
    hide Pass, Lawful, Lower, IsGrant, IsRule;
    forall n | 0 <= n < |es| ensures t.entryKey(es[n]) != "" {
      assert d.shares[shares[n]] in d.shares;
      LowerIsEmpty(es[n].name);
    }
    AllNewIsDistinct(t, es, ids.share);
    forall i, j | 0 <= i < j < |d.shares| ensures Lower(d.shares[i].name) != Lower(d.shares[j].name) {
      var m := OrderCovers(shares, |d.shares|, i);
      var n := OrderCovers(shares, |d.shares|, j);
      DifferAt(t, es, m, n);
    }
  }

  lemma DifferAt<R, E>(t: Table<R, E>, es: seq<E>, m: nat, n: nat)
    requires DistinctNames(t, es) && m < |es| && n < |es| && m != n
    ensures t.entryKey(es[m]) != t.entryKey(es[n])
  {}

  lemma ExportsGiveVolumes(d: Db, b: Backup)
    requires IsExport(d, b)
    ensures VolumesGiven(b)
  {
    hide IsGrant, IsRule, ListsUsers, ListsGroups;
    var shares :| ListsShares(d, b.shares, shares);
  }

  lemma NothingIsWellFormed()
    ensures WellFormed(EMPTY)
  {}

  lemma RestoredTrip(d: Db, b: Backup, ids: Ids)
    requires WellFormed(d) && Unused(EMPTY, ids) && IsExport(d, b)
    ensures IsExport(Restored(EMPTY, b, ids), Disabled(b)) <==> DistinctGroups(d.groups) && DistinctShares(d.shares)
  {
    hide Pass, ListsUsers, ListsGroups, ListsShares, UserTable, GroupTable, ShareTable, DistinctShares, Restored,
      WellFormedShare, Lower, Unused;
    if DistinctGroups(d.groups) && DistinctShares(d.shares) {
      assert Distinct(GroupNames(d.groups));
      ExportTrip(d, b, ids);
    }
    if IsExport(Restored(EMPTY, b, ids), Disabled(b)) {
      var groups :| ListsGroups(d, b.groups, groups);
      var again :| ListsGroups(Restored(EMPTY, b, ids), b.groups, again);
      GroupsMustDiffer(d, b, groups, again, ids);
      var shares :| ListsShares(d, b.shares, shares);
      var once :| ListsShares(Restored(EMPTY, b, ids), b.shares, once);
      SharesMustDiffer(d, b, shares, once, ids);
    }
  }

  /** Restoring an export onto an empty database always goes through, and exporting again says the same, up
      to order and with every account switched off, exactly when no two groups and no two shares have the
      same name ignoring case. */
  lemma RoundTrip(d: Db, b: Backup, ids: Ids)
    requires WellFormed(d) && Unused(EMPTY, ids) && IsExport(d, b)
    ensures Restore(EMPTY, b, ids).Committed?
    ensures IsExport(Restore(EMPTY, b, ids).after, Disabled(b))
      <==> DistinctGroups(d.groups) && DistinctShares(d.shares)
  {
    NothingIsWellFormed();
    ExportsGiveVolumes(d, b);
    RestoredTrip(d, b, ids);
    hide IsExport, WellFormed, Unused, VolumesGiven, Restored, Restore, DistinctGroups, DistinctShares;
    CommitsIff(EMPTY, b, ids);
  }

  // ----- Names that differ in case only --------------------------------------------------------------------------

  /** Shares "Media" and "media", which may both be created. */
  const CASE_TWINS: Db := Db(map[], [], [], [PlainShare("1", "Media"), PlainShare("2", "media")])

  const CASE_TWINS_BACKUP: Backup := Backup(map[], [], [], [PlainEntry("Media"), PlainEntry("media")])

  lemma LowerOfMedia()
    ensures Lower("Media") == "media" && Lower("media") == "media"
  {
    assert LowerChar('M') == 'm' && LowerChar('e') == 'e' && LowerChar('d') == 'd' && LowerChar('i') == 'i'
      && LowerChar('a') == 'a';
  }

  lemma CaseTwinsAreExported()
    ensures WellFormed(CASE_TWINS) && IsExport(CASE_TWINS, CASE_TWINS_BACKUP)
  {
    hide Lower, NormalizeAclPath;
    assert "Media"[0] == 'M' && "media"[0] == 'm';
    var d, b := CASE_TWINS, CASE_TWINS_BACKUP;
    assert ListsUsers(d, b.users, []);
    assert ListsGroups(d, b.groups, []);
    assert IsShareEntry([], [], d.shares[0], b.shares[0]) && IsShareEntry([], [], d.shares[1], b.shares[1]);
    assert UserNames(d.users) == [] && GroupNames(d.groups) == [];
    assert ListsShares(d, b.shares, [0, 1]);
    assert ExportedSettings(d.settings) == map[];
  }

  /** Such twins do not survive the round trip: the restore finds the first when it looks for the second. */
  lemma CaseTwinsMerge(ids: Ids)
    requires Unused(EMPTY, ids)
    ensures WellFormed(CASE_TWINS) && IsExport(CASE_TWINS, CASE_TWINS_BACKUP)
    ensures var r := Restore(EMPTY, CASE_TWINS_BACKUP, ids);
      r.Committed? && !IsExport(r.after, Disabled(CASE_TWINS_BACKUP))
  {
    CaseTwinsAreExported();
    LowerOfMedia();
    assert CASE_TWINS.shares[0].name == "Media" && CASE_TWINS.shares[1].name == "media";
    hide IsExport, WellFormed, Unused, Restore, Lower;
    RoundTrip(CASE_TWINS, CASE_TWINS_BACKUP, ids);
  }
}
