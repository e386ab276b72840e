/** Who may read or write a path: the most permissive share grant, overridden by the folder rule
    closest to the file. */
module FolderAccess {
  import opened VirtualPaths
  import opened Wrappers

  datatype Level = NoAccess | ReadOnly | ReadWrite

  function Rank(level: Level): nat {
    match level
    case NoAccess => 0
    case ReadOnly => 1
    case ReadWrite => 2
  }

  function MaxLevel(a: Level, b: Level): Level { if Rank(a) >= Rank(b) then a else b }

  function MinLevel(a: Level, b: Level): Level { if Rank(a) <= Rank(b) then a else b }

  // ----- Folder rules ------------------------------------------------------------------------

  datatype Subject = User(id: string) | Group(id: string)

  /** One rule: a level for a subject on a folder below a share root. */
  datatype AclRow = AclRow(id: string, share: string, path: string, subject: Subject, level: Level)

  function DropDots(parts: seq<Segment>): seq<Segment> {
    if |parts| == 0 then []
    else
      DropDots(parts[..|parts| - 1])
      + (if parts[|parts| - 1] == "" || parts[|parts| - 1] == "." then [] else [parts[|parts| - 1]])
  }

  /** A rule path in the one form the table keeps, or an error when it climbs. */
  function NormalizeAclPath(input: string): Result<string, string> {
    var parts := DropDots(Split(input));
    if ".." in parts then Err("path escapes the share") else Ok(Join(parts))
  }

  lemma {:induction false} DropDotsIsWalk(parts: seq<Segment>)
    requires forall i :: 0 <= i < |parts| ==> SlashFree(parts[i])
    requires ".." !in DropDots(parts)
    ensures DropDots(parts) == Walk([], parts) && AreNames(DropDots(parts))
  {
    if |parts| > 0 {
      DropDotsIsWalk(parts[..|parts| - 1]);
    }
  }

  /** A path that climbs anywhere on its way, even if it comes back, is refused; no other is. */
  lemma ClimbingIsRefused(input: string)
    ensures NormalizeAclPath(input).Err? <==> ".." in Split(input)
  {
    ClimbsIff(Split(input));
  }

  lemma {:induction false} ClimbsIff(parts: seq<Segment>)
    ensures ".." in DropDots(parts) <==> ".." in parts
  {
    if |parts| > 0 {
      ClimbsIff(parts[..|parts| - 1]);
      assert parts == parts[..|parts| - 1] + [parts[|parts| - 1]];
    }
  }

  /** A canonical rule path is the relative text of the segments the input denotes. */
  lemma CanonicalPath(input: string)
    requires NormalizeAclPath(input).Ok?
    ensures NormalizeAclPath(input).value == Join(Segments(input))
    ensures Segments(input) != [] ==> Parts(Join(Segments(input))) == Segments(input)
  {
    DropDotsIsWalk(Split(input));
    PartsOfJoin(Segments(input));
  }

  lemma PartsOfJoin(segs: seq<Segment>)
    requires AreNames(segs)
    ensures Parts(Join(segs)) == segs
  {
    NonEmptyNames([], segs);
    assert [] + segs == segs;
    if segs != [] {
      SplitJoin(segs);
    } else {
      assert [""][..0] == [];
    }
  }

  lemma {:induction false} DropDotsNames(segs: seq<Segment>)
    requires AreNames(segs)
    ensures DropDots(segs) == segs
  {
    if |segs| > 0 {
      DropDotsNames(segs[..|segs| - 1]);
      assert segs == segs[..|segs| - 1] + [segs[|segs| - 1]];
    }
  }

  /** A path of names normalises to itself. */
  lemma NormalizeNames(segs: seq<Segment>)
    requires AreNames(segs)
    ensures NormalizeAclPath(Join(segs)) == Ok(Join(segs))
  {
    if segs == [] {
      assert [""][..0] == [];
    } else {
      SplitJoin(segs);
      DropDotsNames(segs);
    }
  }

  // ----- The rule at one folder -----------------------------------------------------------------

  /** here.find(...): the first rule naming the user at a folder. */
  function UserRule(rows: seq<AclRow>, share: string, path: string, user: string): Option<Level> {
    if |rows| == 0 then None
    else if rows[0].share == share && rows[0].path == path && rows[0].subject == User(user) then Some(rows[0].level)
    else UserRule(rows[1..], share, path, user)
  }

  predicate NamesGroup(row: AclRow, share: string, path: string, groups: set<string>) {
    row.share == share && row.path == path && row.subject.Group? && row.subject.id in groups
  }

  /** The most restrictive rule naming one of the groups at a folder. */
  function GroupRule(rows: seq<AclRow>, share: string, path: string, groups: set<string>): Option<Level> {
    if |rows| == 0 then None
    else
      var front := GroupRule(rows[..|rows| - 1], share, path, groups);
      var last := rows[|rows| - 1];
      if !NamesGroup(last, share, path, groups) then front
      else if front.None? then Some(last.level)
      else Some(MinLevel(front.value, last.level))
  }

  function RuleAt(rows: seq<AclRow>, share: string, path: string, user: string, groups: set<string>): Option<Level> {
    var own := UserRule(rows, share, path, user);
    if own.Some? then own else GroupRule(rows, share, path, groups)
  }

  /** One rule for one subject on one folder. */
  ghost predicate UniqueRules(rows: seq<AclRow>) {
    forall i, j :: 0 <= i < j < |rows| ==>
      !(rows[i].share == rows[j].share && rows[i].path == rows[j].path && rows[i].subject == rows[j].subject)
  }

  lemma {:induction false} UserRuleMeaning(rows: seq<AclRow>, share: string, path: string, user: string)
    requires UniqueRules(rows)
    ensures forall row :: row in rows && row.share == share && row.path == path && row.subject == User(user) ==>
      UserRule(rows, share, path, user) == Some(row.level)
    ensures UserRule(rows, share, path, user).Some? ==>
      exists row :: row in rows && row.share == share && row.path == path && row.subject == User(user)
  {
    if |rows| > 0 {
      var first, rest := rows[0], rows[1..];
      UserRuleMeaning(rest, share, path, user);
      assert forall row :: row in rows ==> row == first || row in rest;
      assert first in rows && forall row :: row in rest ==> row in rows;
    }
  }

  lemma {:induction false} GroupRuleMeaning(rows: seq<AclRow>, share: string, path: string, groups: set<string>)
    ensures var r := GroupRule(rows, share, path, groups);
      && (r.None? <==> forall row :: row in rows ==> !NamesGroup(row, share, path, groups))
      && (r.Some? ==>
          forall row :: row in rows && NamesGroup(row, share, path, groups) ==> Rank(r.value) <= Rank(row.level))
      && (r.Some? ==> exists row :: row in rows && NamesGroup(row, share, path, groups) && row.level == r.value)
  {
    if |rows| > 0 {
      var front, last := rows[..|rows| - 1], rows[|rows| - 1];
      GroupRuleMeaning(front, share, path, groups);
      assert forall row :: row in rows <==> row == last || row in front;
    }
  }

  /** Some rule of the folder names the user, and says `level`. */
  ghost predicate SaysOfUser(rows: seq<AclRow>, share: string, path: string, user: string, level: Level) {
    exists row :: row in rows && row.share == share && row.path == path && row.subject == User(user)
      && row.level == level
  }

  /** Some rule of the folder names a group of theirs, and says `level`. */
  ghost predicate SaysOfGroup(rows: seq<AclRow>, share: string, path: string, groups: set<string>, level: Level) {
    exists row, g :: row in rows && row.share == share && row.path == path && g in groups && row.subject == Group(g)
      && row.level == level
  }

  lemma NamingIsSaying(rows: seq<AclRow>, share: string, path: string, groups: set<string>, level: Level)
    ensures SaysOfGroup(rows, share, path, groups, level)
      <==> exists row :: row in rows && NamesGroup(row, share, path, groups) && row.level == level
  {
    if row :| row in rows && NamesGroup(row, share, path, groups) && row.level == level {
      assert row.subject == Group(row.subject.id);
    }
  }

  /** At one folder the rule naming the user decides; without one, the most restrictive of those naming a group of
      theirs; and without any, none does. */
  lemma RuleMeaning(rows: seq<AclRow>, share: string, path: string, user: string, groups: set<string>)
    requires UniqueRules(rows)
    ensures var r := RuleAt(rows, share, path, user, groups);
      if exists level :: SaysOfUser(rows, share, path, user, level)
      then r.Some? && SaysOfUser(rows, share, path, user, r.value)
      else r == if SaysOfGroup(rows, share, path, groups, NoAccess) then Some(NoAccess)
                else if SaysOfGroup(rows, share, path, groups, ReadOnly) then Some(ReadOnly)
                else if SaysOfGroup(rows, share, path, groups, ReadWrite) then Some(ReadWrite)
                else None
  {
    UserRuleMeaning(rows, share, path, user);
    GroupRuleMeaning(rows, share, path, groups);
    forall level
      ensures SaysOfGroup(rows, share, path, groups, level)
        <==> exists row :: row in rows && NamesGroup(row, share, path, groups) && row.level == level
    {
      NamingIsSaying(rows, share, path, groups, level);
    }
    hide UserRule, GroupRule, NamesGroup, SaysOfGroup;
  }

  // ----- The deepest rule decides ------------------------------------------------------------------

  /** The level the rules give a folder: that of the deepest folder on the way down that has a rule
      for the user, or the share's level. */
  function Decide(rows: seq<AclRow>, share: string, segs: seq<Segment>, user: string, groups: set<string>,
                  shareLevel: Level): Level {
    if |segs| == 0 then shareLevel
    else
      var here := RuleAt(rows, share, Join(segs), user, groups);
      if here.Some? then here.value
      else Decide(rows, share, segs[..|segs| - 1], user, groups, shareLevel)
  }

  /** Decide, said without recursion. */
  lemma {:induction false} DeepestRuleDecides(rows: seq<AclRow>, share: string, segs: seq<Segment>, user: string,
                                              groups: set<string>, shareLevel: Level, depth: nat)
    requires depth <= |segs|
    requires forall d :: depth < d <= |segs| ==> RuleAt(rows, share, Join(segs[..d]), user, groups).None?
    requires depth > 0 ==> RuleAt(rows, share, Join(segs[..depth]), user, groups).Some?
    ensures Decide(rows, share, segs, user, groups, shareLevel)
         == if depth == 0 then shareLevel else RuleAt(rows, share, Join(segs[..depth]), user, groups).value
    decreases |segs|
  {
    assert segs[..|segs|] == segs;
    if depth < |segs| {
      var up := segs[..|segs| - 1];
      assert RuleAt(rows, share, Join(segs[..|segs|]), user, groups).None?;
      assert forall d :: 0 <= d <= |up| ==> up[..d] == segs[..d];
      DeepestRuleDecides(rows, share, up, user, groups, shareLevel, depth);
    }
  }

  lemma JoinInjective(a: seq<Segment>, b: seq<Segment>)
    requires AreNames(a) && AreNames(b) && Join(a) == Join(b)
    ensures a == b
  {
    PartsOfJoin(a);
    PartsOfJoin(b);
  }

  /** Two tables that agree on every folder but one give the same level everywhere outside that
      folder's subtree. */
  lemma {:induction false} RuleIsLocal(a: seq<AclRow>, b: seq<AclRow>, share: string, folder: seq<Segment>,
                                       segs: seq<Segment>, user: string, groups: set<string>, shareLevel: Level)
    requires AreNames(folder) && AreNames(segs) && !(folder <= segs)
    requires forall path :: path != Join(folder) ==>
      RuleAt(a, share, path, user, groups) == RuleAt(b, share, path, user, groups)
    ensures Decide(a, share, segs, user, groups, shareLevel) == Decide(b, share, segs, user, groups, shareLevel)
  {
    if |segs| > 0 {
      if Join(folder) == Join(segs) {
        JoinInjective(folder, segs);
      }
      hide RuleAt, Join;
      RuleIsLocal(a, b, share, folder, segs[..|segs| - 1], user, groups, shareLevel);
    }
  }

  // ----- The shortcuts of the source ------------------------------------------------------------------

  /** WHERE share_id = ? AND path IN (...) */
  function Query(rows: seq<AclRow>, share: string, chain: seq<string>): seq<AclRow> {
    if |rows| == 0 then []
    else
      Query(rows[..|rows| - 1], share, chain)
      + (if rows[|rows| - 1].share == share && rows[|rows| - 1].path in chain then [rows[|rows| - 1]] else [])
  }

  lemma {:induction false} UserRuleLast(rows: seq<AclRow>, row: AclRow, share: string, path: string, user: string)
    ensures UserRule(rows + [row], share, path, user)
         == if UserRule(rows, share, path, user).Some? then UserRule(rows, share, path, user)
            else if row.share == share && row.path == path && row.subject == User(user) then Some(row.level)
            else None
  {
    if |rows| == 0 {
      assert (rows + [row])[1..] == [];
    } else {
      assert (rows + [row])[1..] == rows[1..] + [row];
      UserRuleLast(rows[1..], row, share, path, user);
    }
  }

  lemma GroupRuleLast(rows: seq<AclRow>, row: AclRow, share: string, path: string, groups: set<string>)
    ensures GroupRule(rows + [row], share, path, groups)
         == if !NamesGroup(row, share, path, groups) then GroupRule(rows, share, path, groups)
            else if GroupRule(rows, share, path, groups).None? then Some(row.level)
            else Some(MinLevel(GroupRule(rows, share, path, groups).value, row.level))
  {
    assert (rows + [row])[..|rows|] == rows;
  }

  /** The rows fetched for the ancestors decide every ancestor as the whole table does. */
  lemma {:induction false} QueryKeepsRules(rows: seq<AclRow>, share: string, chain: seq<string>, path: string,
                                           user: string, groups: set<string>)
    requires path in chain
    ensures UserRule(Query(rows, share, chain), share, path, user) == UserRule(rows, share, path, user)
    ensures GroupRule(Query(rows, share, chain), share, path, groups) == GroupRule(rows, share, path, groups)
  {
    if |rows| > 0 {
      var front, last := rows[..|rows| - 1], rows[|rows| - 1];
      QueryKeepsRules(front, share, chain, path, user, groups);
      assert rows == front + [last];
      UserRuleLast(front, last, share, path, user);
      UserRuleLast(Query(front, share, chain), last, share, path, user);
      GroupRuleLast(front, last, share, path, groups);
      GroupRuleLast(Query(front, share, chain), last, share, path, groups);
      hide UserRule, GroupRule, NamesGroup;
      assert Query(front, share, chain) + [] == Query(front, share, chain);
    }
  }

  /** All paths that lead to this one, shortest first, and it last. */
  method AncestorsOf(path: string) returns (chain: seq<string>)
    ensures |chain| == |Parts(path)|
    ensures forall d :: 0 <= d < |chain| ==> chain[d] == Join(Parts(path)[..d + 1])
  {
    hide Parts, Join;
    var parts := Parts(path);
    chain := [];
    for i := 0 to |parts|
      invariant |chain| == i
      invariant forall d :: 0 <= d < i ==> chain[d] == Join(parts[..d + 1])
    {
      chain := chain + [Join(parts[..i + 1])];
    }
  }

  /** What applyFolderAcls answers: an error for a climbing path below an open share. */
  function AppliedAcls(rows: seq<AclRow>, share: string, relPath: string, user: string, groups: set<string>,
                       shareLevel: Level): Result<Level, string> {
    if shareLevel == NoAccess then Ok(NoAccess)
    else
      var path := NormalizeAclPath(relPath);
      if path.Err? then Err(path.error)
      else Ok(Decide(rows, share, Segments(relPath), user, groups, shareLevel))
  }

  lemma {:induction false} NoRowsNoRules(rows: seq<AclRow>, share: string, segs: seq<Segment>, user: string,
                                         groups: set<string>, shareLevel: Level)
    requires forall d :: 0 < d <= |segs| ==> RuleAt(rows, share, Join(segs[..d]), user, groups).None?
    ensures Decide(rows, share, segs, user, groups, shareLevel) == shareLevel
  {
    DeepestRuleDecides(rows, share, segs, user, groups, shareLevel, 0);
  }

  lemma DecideNext(rows: seq<AclRow>, share: string, segs: seq<Segment>, i: nat, user: string, groups: set<string>,
                   shareLevel: Level)
    requires i < |segs|
    ensures var rule := RuleAt(rows, share, Join(segs[..i + 1]), user, groups);
      Decide(rows, share, segs[..i + 1], user, groups, shareLevel)
      == if rule.Some? then rule.value else Decide(rows, share, segs[..i], user, groups, shareLevel)
  {
    assert segs[..i + 1][..i] == segs[..i];
  }

  /** The top-down walk: the fetched rows, then folder after folder, the last rule found stands. */
  method ApplyFolderAcls(rows: seq<AclRow>, share: string, relPath: string, user: string, groupIds: seq<string>,
                         shareLevel: Level)
      returns (r: Result<Level, string>)
    ensures r == AppliedAcls(rows, share, relPath, user, (set g | g in groupIds), shareLevel)
  {
    if shareLevel == NoAccess {
      return Ok(NoAccess);
    }
    var path := NormalizeAclPath(relPath);
    if path.Err? {
      return Err(path.error);
    }
    CanonicalPath(relPath);
    ghost var segs := Segments(relPath);
    if path.value == "" {
      EmptyPath(segs);
      return Ok(shareLevel);
    }
    PartsOfJoin(segs);
    var chain := AncestorsOf(path.value);
    var found := Query(rows, share, chain);
    var groups := set g | g in groupIds;
    hide UserRule, GroupRule, Query, Join, Parts, Segments, NormalizeAclPath, Decide;
    forall d | 0 < d <= |segs|
      ensures UserRule(found, share, Join(segs[..d]), user) == UserRule(rows, share, Join(segs[..d]), user)
      ensures GroupRule(found, share, Join(segs[..d]), groups) == GroupRule(rows, share, Join(segs[..d]), groups)
    {
      assert chain[d - 1] == Join(segs[..d]);
      QueryKeepsRules(rows, share, chain, Join(segs[..d]), user, groups);
    }
    if |found| == 0 {
      NoRules(share, segs, user, groups);
      NoRowsNoRules(rows, share, segs, user, groups, shareLevel);
      return Ok(shareLevel);
    }
    var level := Walked(rows, share, chain, found, user, groups, shareLevel, segs);
    return Ok(level);
  }

  lemma EmptyPath(segs: seq<Segment>)
    requires AreNames(segs) && Join(segs) == ""
    ensures segs == []
  {
    if segs != [] {
      SplitJoin(segs);
    }
  }

  lemma NoRules(share: string, segs: seq<Segment>, user: string, groups: set<string>)
    ensures forall path :: UserRule([], share, path, user) == None && GroupRule([], share, path, groups) == None
  {}

  /** The loop over the chain. */
  method Walked(ghost rows: seq<AclRow>, share: string, chain: seq<string>, found: seq<AclRow>, user: string,
                groups: set<string>, shareLevel: Level, ghost segs: seq<Segment>)
      returns (level: Level)
    requires |chain| == |segs| && forall d :: 0 <= d < |chain| ==> chain[d] == Join(segs[..d + 1])
    requires forall d :: 0 < d <= |segs| ==>
      && UserRule(found, share, Join(segs[..d]), user) == UserRule(rows, share, Join(segs[..d]), user)
      && GroupRule(found, share, Join(segs[..d]), groups) == GroupRule(rows, share, Join(segs[..d]), groups)
    ensures level == Decide(rows, share, segs, user, groups, shareLevel)
  {
    hide UserRule, GroupRule, Join;
    level := shareLevel;
    for i := 0 to |chain|
      invariant level == Decide(rows, share, segs[..i], user, groups, shareLevel)
    {
      DecideNext(rows, share, segs, i, user, groups, shareLevel);
      hide Decide;
      var userRule := UserRule(found, share, chain[i], user);
      if userRule.Some? {
        level := userRule.value;
      } else {
        var groupRule := GroupRule(found, share, chain[i], groups);
        if groupRule.Some? {
          level := groupRule.value;
        }
      }
    }
    assert segs[..|segs|] == segs;
  }

  // ----- Share grants -----------------------------------------------------------------------------

  datatype Share = Share(id: string, name: Segment, guest: Level)

  datatype Account = Account(id: string, admin: bool)

  /** The tables behind an access decision; grants are keyed by (share, user) and (share, group). */
  datatype Tables = Tables(
    shares: seq<Share>,
    userGrants: map<(string, string), Level>,
    groupGrants: map<(string, string), Level>,
    groupsOf: map<string, seq<string>>,
    rules: seq<AclRow>)

  function GroupIds(t: Tables, user: string): seq<string> {
    if user in t.groupsOf then t.groupsOf[user] else []
  }

  function ShareByName(shares: seq<Share>, name: Segment): (r: Option<Share>)
    ensures r.Some? ==> r.value in shares && r.value.name == name
    ensures r.None? ==> forall s :: s in shares ==> s.name != name
  {
    if |shares| == 0 then None
    else if shares[0].name == name then Some(shares[0])
    else ShareByName(shares[1..], name)
  }

  function FoldGroups(t: Tables, share: string, groups: seq<string>, level: Level): Level {
    if |groups| == 0 then level
    else
      var front, g := FoldGroups(t, share, groups[..|groups| - 1], level), groups[|groups| - 1];
      if (share, g) in t.groupGrants then MaxLevel(front, t.groupGrants[(share, g)]) else front
  }

  function OwnGrant(t: Tables, share: Share, user: string): Level {
    MaxLevel(if (share.id, user) in t.userGrants then t.userGrants[(share.id, user)] else NoAccess, share.guest)
  }

  function EffectiveLevel(t: Tables, share: Share, user: string): Level {
    FoldGroups(t, share.id, GroupIds(t, user), OwnGrant(t, share, user))
  }

  /** Some grant of this level reaches the user: their own, one of their groups', or the guest level. */
  ghost predicate Granted(t: Tables, share: Share, user: string, level: Level) {
    || level == share.guest
    || ((share.id, user) in t.userGrants && level == t.userGrants[(share.id, user)])
    || exists g :: user in t.groupsOf && g in t.groupsOf[user]
         && (share.id, g) in t.groupGrants && level == t.groupGrants[(share.id, g)]
  }

  lemma {:induction false} FoldGroupsMeaning(t: Tables, share: string, groups: seq<string>, level: Level)
    ensures var r := FoldGroups(t, share, groups, level);
      && Rank(level) <= Rank(r)
      && (forall g :: g in groups && (share, g) in t.groupGrants ==> Rank(t.groupGrants[(share, g)]) <= Rank(r))
      && (r == level || exists g :: g in groups && (share, g) in t.groupGrants && r == t.groupGrants[(share, g)])
  {
    if |groups| > 0 {
      var front, last := groups[..|groups| - 1], groups[|groups| - 1];
      FoldGroupsMeaning(t, share, front, level);
      assert forall g :: g in groups <==> g == last || g in front;
    }
  }

  /** The effective level is the greatest grant that reaches the user. */
  lemma EffectiveIsGreatest(t: Tables, share: Share, user: string)
    ensures EffectiveLevel(t, share, user) ==
      if Granted(t, share, user, ReadWrite) then ReadWrite
      else if Granted(t, share, user, ReadOnly) then ReadOnly else NoAccess
  {
    FoldGroupsMeaning(t, share.id, GroupIds(t, user), OwnGrant(t, share, user));
  }

  method EffectiveAccessForShare(t: Tables, share: Share, user: string) returns (level: Level)
    ensures level == EffectiveLevel(t, share, user)
  {
    level := OwnGrant(t, share, user);
    var groups := GroupIds(t, user);
    for i := 0 to |groups|
      invariant level == FoldGroups(t, share.id, groups[..i], OwnGrant(t, share, user))
    {
      assert groups[..i + 1][..i] == groups[..i];
      if (share.id, groups[i]) in t.groupGrants {
        level := MaxLevel(level, t.groupGrants[(share.id, groups[i])]);
      }
    }
    assert groups[..|groups|] == groups;
  }

  // ----- May they? ----------------------------------------------------------------------------------

  datatype Access = Access(read: bool, write: bool)

  function AccessOf(level: Level): Access { Access(level != NoAccess, level == ReadWrite) }

  predicate ShareHasAcls(rows: seq<AclRow>, share: string) { exists row :: row in rows && row.share == share }

  /** The chain of conditions of the source, shortcuts included. */
  function PathAccess(t: Tables, user: Account, virtualPath: string): Access {
    var p := NormalizeVirtual(virtualPath);
    if p == "/" then Access(true, false)
    else if user.admin then Access(true, true)
    else
      var segments := Parts(p);
      if |segments| == 0 then Access(true, false)
      else
        var row := ShareByName(t.shares, segments[0]);
        var level := if row.None? then NoAccess else EffectiveLevel(t, row.value, user.id);
        if level == NoAccess then Access(false, false)
        else if row.None? || |segments| == 1 || !ShareHasAcls(t.rules, row.value.id) then
          Access(true, level == ReadWrite)
        else
          var groups := set g | g in GroupIds(t, user.id);
          var effective := AppliedAcls(t.rules, row.value.id, Join(segments[1..]), user.id, groups, level);
          if effective.Err? || effective.value == NoAccess then Access(false, false)
          else Access(true, effective.value == ReadWrite)
  }

  /** The same decision without shortcuts: the root is read-only, an administrator may do anything,
      an unknown or closed share gives nothing, and below an open share the deepest rule decides. */
  function Decision(t: Tables, user: Account, segs: seq<Segment>): Access {
    if |segs| == 0 then Access(true, false)
    else if user.admin then Access(true, true)
    else
      match ShareByName(t.shares, segs[0])
      case None => Access(false, false)
      case Some(share) =>
        var level := EffectiveLevel(t, share, user.id);
        if level == NoAccess then Access(false, false)
        else
          AccessOf(Decide(t.rules, share.id, segs[1..], user.id, (set g | g in GroupIds(t, user.id)), level))
  }

  lemma {:induction false} NoAclsNoRule(rows: seq<AclRow>, share: string, path: string, user: string,
                                        groups: set<string>)
    requires !ShareHasAcls(rows, share)
    ensures RuleAt(rows, share, path, user, groups) == None
  {
    GroupRuleMeaning(rows, share, path, groups);
    NoUserRule(rows, share, path, user);
  }

  lemma {:induction false} NoUserRule(rows: seq<AclRow>, share: string, path: string, user: string)
    requires !ShareHasAcls(rows, share)
    ensures UserRule(rows, share, path, user) == None
  {
    if |rows| > 0 {
      assert rows[0] in rows && forall row :: row in rows[1..] ==> row in rows;
      NoUserRule(rows[1..], share, path, user);
    }
  }

  /** The shortcuts never change an answer, and no path makes the rule lookup fail. */
  lemma ShortcutsAreSafe(t: Tables, user: Account, path: string)
    ensures PathAccess(t, user, path) == Decision(t, user, Segments(path))
  {
    hide Segments, NormalizeVirtual, Parts, Join, AppliedAcls, Decide, EffectiveLevel, ShareHasAcls, ShareByName;
    var segs := Segments(path);
    NormalParts(path);
    if segs != [] && ShareByName(t.shares, segs[0]).Some? {
      BelowShare(t, user, segs);
    }
  }

  lemma NormalParts(path: string)
    ensures Parts(NormalizeVirtual(path)) == Segments(path)
    ensures NormalizeVirtual(path) == "/" <==> Segments(path) == []
  {
    NormalForm(path);
    PartsOfFull(Segments(path));
    PartsOfFull([]);
  }

  lemma BelowShare(t: Tables, user: Account, segs: seq<Segment>)
    requires AreNames(segs) && segs != [] && ShareByName(t.shares, segs[0]).Some?
    ensures var share := ShareByName(t.shares, segs[0]).value;
      var level, groups := EffectiveLevel(t, share, user.id), set g | g in GroupIds(t, user.id);
      && (level != NoAccess ==> AppliedAcls(t.rules, share.id, Join(segs[1..]), user.id, groups, level)
                                == Ok(Decide(t.rules, share.id, segs[1..], user.id, groups, level)))
      && (!ShareHasAcls(t.rules, share.id) || |segs| == 1 ==>
            Decide(t.rules, share.id, segs[1..], user.id, groups, level) == level)
  {
    var share := ShareByName(t.shares, segs[0]).value;
    var level, groups := EffectiveLevel(t, share, user.id), set g | g in GroupIds(t, user.id);
    var below := segs[1..];
    NormalizeNames(below);
    SegmentsOfJoin(below);
    if !ShareHasAcls(t.rules, share.id) {
      forall d | 0 < d <= |below| ensures RuleAt(t.rules, share.id, Join(below[..d]), user.id, groups).None? {
        NoAclsNoRule(t.rules, share.id, Join(below[..d]), user.id, groups);
      }
      NoRowsNoRules(t.rules, share.id, below, user.id, groups, level);
    }
  }

  lemma SegmentsOfJoin(segs: seq<Segment>)
    requires AreNames(segs)
    ensures Segments(Join(segs)) == segs
  {
    if segs == [] {
      assert [""][..0] == [];
    } else {
      SplitJoin(segs);
      WalkNames([], segs);
    }
  }

  // ----- The answer, told outright ---------------------------------------------------------------------

  function GroupsOf(t: Tables, user: string): set<string> {
    if user in t.groupsOf then set g | g in t.groupsOf[user] else {}
  }

  /** The root may be read by all and written by none; an administrator may do anything below it; where there is no
      share of the first name, others may do nothing. */
  lemma NoShareNoAccess(t: Tables, user: Account, path: string)
    ensures var segs, access := Segments(path), PathAccess(t, user, path);
      && (segs == [] ==> access.read && !access.write)
      && (segs != [] && user.admin ==> access.read && access.write)
      && (segs != [] && !user.admin && (forall share :: share in t.shares ==> share.name != segs[0]) ==>
            !access.read && !access.write)
  {
    ShortcutsAreSafe(t, user, path);
    hide Segments, PathAccess;
  }

  /** In the first share of that name a user may do what the grants of the share allow if no folder on the way
      has a rule for them, and what the deepest such folder says otherwise, provided that anything at all is
      granted: to read at any level but none, and to write at the highest. */
  lemma AccessIs(t: Tables, user: Account, path: string, i: nat, depth: nat)
    requires !user.admin && i < |t.shares| && Segments(path) != [] && t.shares[i].name == Segments(path)[0]
    requires forall j :: 0 <= j < i ==> t.shares[j].name != t.shares[i].name
    requires depth < |Segments(path)|
    requires forall d :: depth < d < |Segments(path)| ==>
      RuleAt(t.rules, t.shares[i].id, Join(Segments(path)[1..][..d]), user.id, GroupsOf(t, user.id)).None?
    requires depth > 0 ==>
      RuleAt(t.rules, t.shares[i].id, Join(Segments(path)[1..][..depth]), user.id, GroupsOf(t, user.id)).Some?
    ensures var access, share := PathAccess(t, user, path), t.shares[i];
      var here := RuleAt(t.rules, share.id, Join(Segments(path)[1..][..depth]), user.id, GroupsOf(t, user.id));
      var mayWrite, mayRead := Granted(t, share, user.id, ReadWrite), Granted(t, share, user.id, ReadOnly);
      && (access.write <==> if depth == 0 then mayWrite else here == Some(ReadWrite) && (mayWrite || mayRead))
      && (access.read <==> (mayWrite || mayRead) && (depth > 0 ==> here != Some(NoAccess)))
  {
    var share, below := t.shares[i], Segments(path)[1..];
    ShortcutsAreSafe(t, user, path);
    FirstOfName(t.shares, i);
    EffectiveIsGreatest(t, share, user.id);
    hide Segments, PathAccess, Granted, EffectiveLevel, RuleAt, Decide;
    assert GroupsOf(t, user.id) == set g | g in GroupIds(t, user.id);
    var level := EffectiveLevel(t, share, user.id);
    DeepestRuleDecides(t.rules, share.id, below, user.id, GroupsOf(t, user.id), level, depth);
  }

  lemma {:induction false} FirstOfName(shares: seq<Share>, i: nat)
    requires i < |shares| && forall j :: 0 <= j < i ==> shares[j].name != shares[i].name
    ensures ShareByName(shares, shares[i].name) == Some(shares[i])
  {
    if i > 0 {
      FirstOfName(shares[1..], i - 1);
    }
  }

  /** A closed share stays closed whatever its rules say. */
  lemma RulesCannotOpenAShare(t: Tables, user: Account, path: string, share: Share)
    requires !user.admin && Segments(path) != [] && ShareByName(t.shares, Segments(path)[0]) == Some(share)
    requires forall level :: Granted(t, share, user.id, level) ==> level == NoAccess
    ensures PathAccess(t, user, path) == Access(false, false)
  {
    ShortcutsAreSafe(t, user, path);
    EffectiveIsGreatest(t, share, user.id);
  }

  // ----- The rule table ------------------------------------------------------------------------------

  predicate SameKey(row: AclRow, share: string, path: string, subject: Subject) {
    row.share == share && row.path == path && row.subject == subject
  }

  /** INSERT ... ON CONFLICT DO UPDATE: replace the level of the one rule with the key, or add a rule. */
  function Upserted(rows: seq<AclRow>, row: AclRow): seq<AclRow> {
    if |rows| == 0 then [row]
    else if SameKey(rows[0], row.share, row.path, row.subject) then [rows[0].(level := row.level)] + rows[1..]
    else [rows[0]] + Upserted(rows[1..], row)
  }

  lemma {:induction false} UpsertedRows(rows: seq<AclRow>, row: AclRow)
    requires UniqueRules(rows)
    ensures UniqueRules(Upserted(rows, row))
    ensures exists r :: (r in Upserted(rows, row)
                         && r.share == row.share && r.path == row.path && r.subject == row.subject
                         && r.level == row.level)
    ensures forall r: AclRow :: !(r.share == row.share && r.path == row.path && r.subject == row.subject) ==>
      (r in Upserted(rows, row) <==> r in rows)
  {
    if |rows| == 0 {
      assert row in [row];
    } else if SameKey(rows[0], row.share, row.path, row.subject) {
      var r := rows[0].(level := row.level);
      assert Upserted(rows, row) == [r] + rows[1..];
      assert r in Upserted(rows, row);
      assert forall q :: q in rows <==> q == rows[0] || q in rows[1..];
      assert forall q :: q in Upserted(rows, row) <==> q == r || q in rows[1..];
    } else {
      var first, rest := rows[0], rows[1..];
      UpsertedRows(rest, row);
      var up := Upserted(rest, row);
      var r :| r in up && SameKey(r, row.share, row.path, row.subject) && r.level == row.level;
      assert r in Upserted(rows, row);
      assert forall q :: q in rows <==> q == first || q in rest;
      assert forall q :: q in Upserted(rows, row) <==> q == first || q in up;
      UniqueFirst(first, rest, up, row);
    }
  }

  lemma FirstDiffers(first: AclRow, rest: seq<AclRow>, q: AclRow)
    requires UniqueRules([first] + rest) && q in rest
    ensures !SameKey(q, first.share, first.path, first.subject)
  {
    var k :| 0 <= k < |rest| && rest[k] == q;
    assert ([first] + rest)[0] == first && ([first] + rest)[k + 1] == q;
  }

  lemma UniqueFirst(first: AclRow, rest: seq<AclRow>, up: seq<AclRow>, row: AclRow)
    requires UniqueRules([first] + rest) && UniqueRules(up)
    requires !SameKey(first, row.share, row.path, row.subject)
    requires forall r :: !SameKey(r, row.share, row.path, row.subject) ==> (r in up <==> r in rest)
    ensures UniqueRules([first] + up)
  {
    forall j | 0 <= j < |up| ensures !SameKey(up[j], first.share, first.path, first.subject) {
      assert up[j] in up;
      if up[j] in rest {
        FirstDiffers(first, rest, up[j]);
      }
    }
  }

  /** A change at one folder leaves every other folder's rule as it was. */
  lemma {:induction false} UpsertIsLocal(rows: seq<AclRow>, row: AclRow, share: string, path: string, user: string,
                                         groups: set<string>)
    requires share != row.share || path != row.path
    ensures RuleAt(Upserted(rows, row), share, path, user, groups) == RuleAt(rows, share, path, user, groups)
  {
    UpsertKeepsUser(rows, row, share, path, user);
    UpsertKeepsGroups(rows, row, share, path, groups);
  }

  lemma {:induction false} UpsertKeepsUser(rows: seq<AclRow>, row: AclRow, share: string, path: string, user: string)
    requires share != row.share || path != row.path
    ensures UserRule(Upserted(rows, row), share, path, user) == UserRule(rows, share, path, user)
  {
    if |rows| > 0 {
      UpsertKeepsUser(rows[1..], row, share, path, user);
    }
  }

  lemma {:induction false} UpsertKeepsGroups(rows: seq<AclRow>, row: AclRow, share: string, path: string,
                                             groups: set<string>)
    requires share != row.share || path != row.path
    ensures GroupRule(Upserted(rows, row), share, path, groups) == GroupRule(rows, share, path, groups)
  {
    if |rows| == 0 {
      assert [row][..0] == [];
    } else if SameKey(rows[0], row.share, row.path, row.subject) {
      GroupRuleSkip([rows[0]], rows[1..], share, path, groups);
      GroupRuleSkip([rows[0].(level := row.level)], rows[1..], share, path, groups);
      assert [rows[0]] + rows[1..] == rows;
      assert [rows[0]][..0] == [] && [rows[0].(level := row.level)][..0] == [];
    } else {
      UpsertKeepsGroups(rows[1..], row, share, path, groups);
      GroupRuleJoin([rows[0]], rows[1..], share, path, groups);
      GroupRuleJoin([rows[0]], Upserted(rows[1..], row), share, path, groups);
      assert [rows[0]] + rows[1..] == rows;
    }
  }

  function MinOption(a: Option<Level>, b: Option<Level>): Option<Level> {
    if a.None? then b else if b.None? then a else Some(MinLevel(a.value, b.value))
  }

  lemma {:induction false} GroupRuleJoin(a: seq<AclRow>, b: seq<AclRow>, share: string, path: string,
                                         groups: set<string>)
    ensures GroupRule(a + b, share, path, groups)
         == MinOption(GroupRule(a, share, path, groups), GroupRule(b, share, path, groups))
  {
    if |b| == 0 {
      assert a + b == a;
    } else {
      GroupRuleJoin(a, b[..|b| - 1], share, path, groups);
      assert (a + b)[..|a + b| - 1] == a + b[..|b| - 1];
    }
  }

  lemma GroupRuleSkip(a: seq<AclRow>, b: seq<AclRow>, share: string, path: string, groups: set<string>)
    requires GroupRule(a, share, path, groups).None?
    ensures GroupRule(a + b, share, path, groups) == GroupRule(b, share, path, groups)
  {
    GroupRuleJoin(a, b, share, path, groups);
  }

  /** A rule set for a user is the level of that user at its folder from then on. */
  lemma SetRuleActs(rows: seq<AclRow>, row: AclRow, groups: set<string>)
    requires UniqueRules(rows) && row.subject.User?
    ensures RuleAt(Upserted(rows, row), row.share, row.path, row.subject.id, groups) == Some(row.level)
  {
    UpsertedRows(rows, row);
    hide Upserted;
    UserRuleMeaning(Upserted(rows, row), row.share, row.path, row.subject.id);
  }

  /** A rule on a folder changes access only to that folder and what is below it, in that share. */
  lemma SetRuleIsLocal(t: Tables, row: AclRow, folder: seq<Segment>, user: Account, path: string)
    requires AreNames(folder) && folder != [] && row.path == Join(folder)
    requires var segs := Segments(path);
      segs == [] || !(folder <= segs[1..])
      || (forall share :: ShareByName(t.shares, segs[0]) == Some(share) ==> share.id != row.share)
    ensures PathAccess(t.(rules := Upserted(t.rules, row)), user, path) == PathAccess(t, user, path)
  {
    var t2, segs := t.(rules := Upserted(t.rules, row)), Segments(path);
    ShortcutsAreSafe(t, user, path);
    ShortcutsAreSafe(t2, user, path);
    if segs != [] && ShareByName(t.shares, segs[0]).Some? {
      var share, groups := ShareByName(t.shares, segs[0]).value, set g | g in GroupIds(t, user.id);
      var level := EffectiveLevel(t, share, user.id);
      assert EffectiveLevel(t2, share, user.id) == level by {
        SameGrants(t, t2, share.id, GroupIds(t, user.id), OwnGrant(t, share, user.id));
      }
      RowIsLocal(t.rules, row, folder, share.id, segs[1..], user.id, groups, level);
    }
  }

  lemma {:induction false} SameGrants(a: Tables, b: Tables, share: string, groups: seq<string>, level: Level)
    requires a.groupGrants == b.groupGrants
    ensures FoldGroups(a, share, groups, level) == FoldGroups(b, share, groups, level)
  {
    if |groups| > 0 {
      SameGrants(a, b, share, groups[..|groups| - 1], level);
    }
  }

  lemma RowIsLocal(rows: seq<AclRow>, row: AclRow, folder: seq<Segment>, share: string, segs: seq<Segment>,
                   user: string, groups: set<string>, level: Level)
    requires AreNames(folder) && folder != [] && row.path == Join(folder) && AreNames(segs)
    requires !(folder <= segs) || share != row.share
    ensures Decide(Upserted(rows, row), share, segs, user, groups, level)
      == Decide(rows, share, segs, user, groups, level)
  {
    if share != row.share {
      OtherShare(rows, row, share, segs, user, groups, level);
    } else {
      forall path | path != Join(folder)
        ensures RuleAt(Upserted(rows, row), share, path, user, groups) == RuleAt(rows, share, path, user, groups)
      {
        UpsertIsLocal(rows, row, share, path, user, groups);
      }
      RuleIsLocal(Upserted(rows, row), rows, share, folder, segs, user, groups, level);
    }
  }

  lemma {:induction false} OtherShare(rows: seq<AclRow>, row: AclRow, share: string, segs: seq<Segment>,
                                      user: string, groups: set<string>, level: Level)
    requires share != row.share
    ensures Decide(Upserted(rows, row), share, segs, user, groups, level)
      == Decide(rows, share, segs, user, groups, level)
  {
    if |segs| > 0 {
      UpsertIsLocal(rows, row, share, Join(segs), user, groups);
      OtherShare(rows, row, share, segs[..|segs| - 1], user, groups, level);
    }
  }

  /** The table of folder rules. */
  class AclTable {
    var rows: seq<AclRow>

    constructor ()
      ensures rows == []
    {
      rows := [];
    }

    /** An upsert: the subject's rule on the folder becomes `level`; a new row takes `id`, which is fresh. */
    method SetAcl(id: string, share: string, path: string, subject: Subject, level: Level)
        returns (r: Result<(), string>)
      requires UniqueRules(rows)
      modifies this
      ensures UniqueRules(rows)
      ensures r.Ok? <==> NormalizeAclPath(path).Ok? && Segments(path) != []
      ensures r.Err? ==> rows == old(rows)
      ensures r.Ok? ==> rows == Upserted(old(rows), AclRow(id, share, Join(Segments(path)), subject, level))
    {
      var p := NormalizeAclPath(path);
      if p.Err? {
        return Err(p.error);
      }
      CanonicalPath(path);
      if p.value == "" {
        EmptyPath(Segments(path));
        return Err("a folder rule needs a folder");
      }
      UpsertedRows(rows, AclRow(id, share, p.value, subject, level));
      rows := Upserted(rows, AclRow(id, share, p.value, subject, level));
      return Ok(());
    }

    /** Rules on subjects that have gone are deleted. */
    method PruneOrphans(users: set<string>, groups: set<string>) returns (dropped: nat)
      modifies this
      ensures rows == Kept(old(rows), users, groups)
      ensures forall row :: row in rows <==>
        row in old(rows) && match row.subject case User(id) => id in users case Group(id) => id in groups
      ensures dropped == |old(rows)| - |rows|
    {
      var kept: seq<AclRow> := [];
      for i := 0 to |rows|
        invariant rows == old(rows)
        invariant kept == Kept(rows[..i], users, groups) && |kept| <= i
      {
        assert rows[..i + 1][..i] == rows[..i];
        if SubjectExists(rows[i], users, groups) {
          kept := kept + [rows[i]];
        }
      }
      assert rows[..|rows|] == rows;
      KeptRows(rows, users, groups);
      dropped := |rows| - |kept|;
      rows := kept;
    }
  }

  predicate SubjectExists(row: AclRow, users: set<string>, groups: set<string>) {
    match row.subject
    case User(id) => id in users
    case Group(id) => id in groups
  }

  function Kept(rows: seq<AclRow>, users: set<string>, groups: set<string>): seq<AclRow> {
    if |rows| == 0 then []
    else
      Kept(rows[..|rows| - 1], users, groups)
      + (if SubjectExists(rows[|rows| - 1], users, groups) then [rows[|rows| - 1]] else [])
  }

  lemma {:induction false} KeptRows(rows: seq<AclRow>, users: set<string>, groups: set<string>)
    ensures forall row :: row in Kept(rows, users, groups) <==> row in rows && SubjectExists(row, users, groups)
  {
    hide SubjectExists;
    if |rows| > 0 {
      KeptRows(rows[..|rows| - 1], users, groups);
      assert rows == rows[..|rows| - 1] + [rows[|rows| - 1]];
    }
  }

  /** Pruning never changes what an existing user in existing groups may do. */
  lemma {:induction false} PruneKeepsRules(rows: seq<AclRow>, users: set<string>, groups: set<string>,
                                           share: string, path: string, user: string, mine: set<string>)
    requires user in users && mine <= groups
    ensures RuleAt(Kept(rows, users, groups), share, path, user, mine) == RuleAt(rows, share, path, user, mine)
    ensures UserRule(Kept(rows, users, groups), share, path, user) == UserRule(rows, share, path, user)
    ensures GroupRule(Kept(rows, users, groups), share, path, mine) == GroupRule(rows, share, path, mine)
  {
    if |rows| > 0 {
      var front, last := rows[..|rows| - 1], rows[|rows| - 1];
      PruneKeepsRules(front, users, groups, share, path, user, mine);
      assert rows == front + [last];
      UserRuleLast(front, last, share, path, user);
      UserRuleLast(Kept(front, users, groups), last, share, path, user);
      GroupRuleLast(front, last, share, path, mine);
      GroupRuleLast(Kept(front, users, groups), last, share, path, mine);
      hide UserRule, GroupRule;
      assert Kept(front, users, groups) + [] == Kept(front, users, groups);
    }
  }
}
