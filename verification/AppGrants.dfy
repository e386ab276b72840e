/** Grants by which users let apps into single folders: the table, and how far an app gets with one. */
module AppGrants {
  import opened VirtualPaths
  import opened FolderAccess
  import opened Wrappers

  datatype Kind = File | Dir

  datatype Mode = Read | ReadAndWrite

  datatype Grant = Grant(id: string, app: string, user: string, path: string, kind: Kind, mode: Mode,
                         created: int, lastUsed: Option<int>)

  const MAX_GRANTS_PER_APP := 32

  predicate Holds(g: Grant, app: string, user: string) { g.app == app && g.user == user }

  function Count(rows: seq<Grant>, app: string, user: string): nat {
    if |rows| == 0 then 0 else (if Holds(rows[0], app, user) then 1 else 0) + Count(rows[1..], app, user)
  }

  predicate IsNormal(path: string) { NormalizeVirtual(path) == path }

  /** Two rows the table must not both contain: ids are a primary key, (app, user, path) is unique. */
  predicate Clash(a: Grant, b: Grant) {
    a.id == b.id || (a.app == b.app && a.user == b.user && a.path == b.path)
  }

  ghost predicate NoClash(rows: seq<Grant>) {
    forall i, j :: 0 <= i < j < |rows| ==> !Clash(rows[i], rows[j])
  }

  ghost predicate AllNormal(rows: seq<Grant>) { forall g :: g in rows ==> IsNormal(g.path) }

  /** No app holds more than 32 grants of one user. */
  ghost predicate WithinLimit(rows: seq<Grant>) {
    forall app, user :: Count(rows, app, user) <= MAX_GRANTS_PER_APP
  }

  ghost predicate Valid(rows: seq<Grant>) { NoClash(rows) && AllNormal(rows) && WithinLimit(rows) }

  // ----- Changes to the table ---------------------------------------------------------------

  /** The row of a path, if the app already has it for the user. */
  function IndexOf(rows: seq<Grant>, app: string, user: string, path: string): (r: Option<nat>)
    ensures r.Some? ==> r.value < |rows| && Holds(rows[r.value], app, user) && rows[r.value].path == path
    ensures r.None? ==> forall i :: 0 <= i < |rows| ==> !(Holds(rows[i], app, user) && rows[i].path == path)
  {
    if |rows| == 0 then None
    else if Holds(rows[|rows| - 1], app, user) && rows[|rows| - 1].path == path then Some(|rows| - 1)
    else IndexOf(rows[..|rows| - 1], app, user, path)
  }

  /** When the grant was last used or, if never, made. */
  function Age(g: Grant): int { if g.lastUsed.Some? then g.lastUsed.value else g.created }

  /** The least recently used row of the app and user. */
  function Oldest(rows: seq<Grant>, app: string, user: string): (r: Option<nat>)
    ensures r.Some? ==> r.value < |rows| && Holds(rows[r.value], app, user)
    ensures r.Some? ==> forall i :: 0 <= i < |rows| && Holds(rows[i], app, user) ==> Age(rows[r.value]) <= Age(rows[i])
    ensures r.None? ==> forall i :: 0 <= i < |rows| ==> !Holds(rows[i], app, user)
  {
    if |rows| == 0 then None
    else
      var last, front := |rows| - 1, Oldest(rows[..|rows| - 1], app, user);
      if !Holds(rows[last], app, user) then front
      else if front.None? || Age(rows[last]) < Age(rows[front.value]) then Some(last)
      else front
  }

  function Without(rows: seq<Grant>, i: nat): seq<Grant>
    requires i < |rows|
  {
    rows[..i] + rows[i + 1..]
  }

  /** Room for one more: at the limit, the least recently used row goes. */
  function Evicted(rows: seq<Grant>, app: string, user: string): seq<Grant> {
    if Count(rows, app, user) < MAX_GRANTS_PER_APP then rows
    else
      var i := Oldest(rows, app, user);
      if i.None? then rows else Without(rows, i.value)
  }

  function Widened(old_: Mode, asked: Mode): Mode {
    if old_ == ReadAndWrite || asked == ReadAndWrite then ReadAndWrite else Read
  }

  datatype Op =
    | Pick(id: string, app: string, user: string, path: string, kind: Kind, mode: Mode, now: int)
    | Revoke(app: string, user: string, handle: string)
    | RevokeForUser(user: string, handle: string)
    | RevokeApp(app: string)
    | Touch(handle: string, now: int)

  /** The rows a revocation leaves. */
  predicate Survives(g: Grant, op: Op) {
    match op
    case Revoke(app, user, handle) => !(g.id == handle && g.app == app && g.user == user)
    case RevokeForUser(user, handle) => !(g.id == handle && g.user == user)
    case RevokeApp(app) => g.app != app
    case _ => true
  }

  function Filtered(rows: seq<Grant>, op: Op): seq<Grant> {
    if |rows| == 0 then []
    else (if Survives(rows[0], op) then [rows[0]] else []) + Filtered(rows[1..], op)
  }

  function Touched(rows: seq<Grant>, handle: string, now: int): (r: seq<Grant>)
    ensures |r| == |rows|
    ensures forall i :: 0 <= i < |rows| ==>
      r[i] == if rows[i].id == handle then rows[i].(lastUsed := Some(now)) else rows[i]
  {
    seq(|rows|, i requires 0 <= i < |rows| =>
      if rows[i].id == handle then rows[i].(lastUsed := Some(now)) else rows[i])
  }

  function Step(rows: seq<Grant>, op: Op): seq<Grant> {
    match op
    case Pick(id, app, user, path, kind, mode, now) =>
      var p := NormalizeVirtual(path);
      var i := IndexOf(rows, app, user, p);
      if i.Some? then
        var g := rows[i.value];
        rows[i.value := g.(mode := Widened(g.mode, mode), kind := kind)]
      else Evicted(rows, app, user) + [Grant(id, app, user, p, kind, mode, now, None)]
    case Touch(handle, now) => Touched(rows, handle, now)
    case _ => Filtered(rows, op)
  }

  /** A new row's id is fresh. */
  predicate Fresh(rows: seq<Grant>, op: Op) {
    op.Pick? ==> forall i :: 0 <= i < |rows| ==> rows[i].id != op.id
  }

  // ----- What every step keeps -----------------------------------------------------------------

  lemma {:induction false} CountConcat(a: seq<Grant>, b: seq<Grant>, app: string, user: string)
    ensures Count(a + b, app, user) == Count(a, app, user) + Count(b, app, user)
  {
    if |a| == 0 {
      assert a + b == b;
    } else {
      assert (a + b)[1..] == a[1..] + b;
      CountConcat(a[1..], b, app, user);
    }
  }

  lemma CountWithout(rows: seq<Grant>, i: nat, app: string, user: string)
    requires i < |rows|
    ensures Count(rows, app, user) == Count(Without(rows, i), app, user) + (if Holds(rows[i], app, user) then 1 else 0)
  {
    assert rows == rows[..i] + ([rows[i]] + rows[i + 1..]);
    CountConcat(rows[..i], [rows[i]] + rows[i + 1..], app, user);
    CountConcat(rows[..i], rows[i + 1..], app, user);
    assert ([rows[i]] + rows[i + 1..])[1..] == rows[i + 1..];
  }

  lemma {:induction false} CountZero(rows: seq<Grant>, app: string, user: string)
    requires forall i :: 0 <= i < |rows| ==> !Holds(rows[i], app, user)
    ensures Count(rows, app, user) == 0
  {
    if |rows| > 0 {
      CountZero(rows[1..], app, user);
    }
  }

  lemma EvictedCount(rows: seq<Grant>, app: string, user: string, a: string, u: string)
    ensures Count(Evicted(rows, app, user), a, u) <= Count(rows, a, u)
  {
    var i := Oldest(rows, app, user);
    if i.Some? {
      CountWithout(rows, i.value, a, u);
    }
  }

  lemma EvictedMakesRoom(rows: seq<Grant>, app: string, user: string)
    requires Count(rows, app, user) <= MAX_GRANTS_PER_APP
    ensures Count(Evicted(rows, app, user), app, user) < MAX_GRANTS_PER_APP
  {
    var i := Oldest(rows, app, user);
    if i.None? {
      CountZero(rows, app, user);
    } else {
      CountWithout(rows, i.value, app, user);
    }
  }

  lemma EvictedRows(rows: seq<Grant>, app: string, user: string)
    requires NoClash(rows)
    ensures NoClash(Evicted(rows, app, user))
    ensures forall g :: g in Evicted(rows, app, user) ==> g in rows
  {
    hide Count, Clash, Oldest;
  }

  lemma NoClashAppend(rows: seq<Grant>, g: Grant)
    requires NoClash(rows) && forall r :: r in rows ==> !Clash(r, g)
    ensures NoClash(rows + [g])
  {
    hide Clash;
  }

  lemma NoClashUpdate(rows: seq<Grant>, i: nat, h: Grant)
    requires NoClash(rows) && i < |rows|
    requires h.id == rows[i].id && h.app == rows[i].app && h.user == rows[i].user && h.path == rows[i].path
    ensures NoClash(rows[i := h])
  {}

  /** Picking a folder that the app does not have yet. */
  lemma NewPickKeepsValid(rows: seq<Grant>, g: Grant)
    requires Valid(rows) && IsNormal(g.path) && forall r :: r in rows ==> !Clash(r, g)
    ensures Valid(Evicted(rows, g.app, g.user) + [g])
  {
    var kept := Evicted(rows, g.app, g.user);
    EvictedRows(rows, g.app, g.user);
    NoClashAppend(kept, g);
    EvictedMakesRoom(rows, g.app, g.user);
    hide Evicted, IsNormal, Clash, NoClash;
    forall app, user ensures Count(kept + [g], app, user) <= MAX_GRANTS_PER_APP {
      EvictedCount(rows, g.app, g.user, app, user);
      CountConcat(kept, [g], app, user);
      CountOne(g, app, user);
    }
  }

  lemma CountOne(g: Grant, app: string, user: string)
    ensures Count([g], app, user) == if Holds(g, app, user) then 1 else 0
  {
    assert [g][1..] == [];
  }

  lemma RepickCount(rows: seq<Grant>, i: nat, h: Grant, app: string, user: string)
    requires i < |rows| && h.app == rows[i].app && h.user == rows[i].user
    ensures Count(rows[i := h], app, user) == Count(rows, app, user)
  {
    CountWithout(rows, i, app, user);
    CountWithout(rows[i := h], i, app, user);
    assert Without(rows[i := h], i) == Without(rows, i);
  }

  lemma RepickNormal(rows: seq<Grant>, i: nat, h: Grant)
    requires AllNormal(rows) && i < |rows| && h.path == rows[i].path
    ensures AllNormal(rows[i := h])
  {
    hide IsNormal;
    forall g | g in rows[i := h] ensures IsNormal(g.path) {
      assert rows[i] in rows;
      assert g == h || g in rows;
    }
  }

  /** Picking one again. */
  lemma RepickKeepsValid(rows: seq<Grant>, i: nat, h: Grant)
    requires Valid(rows) && i < |rows|
    requires h.id == rows[i].id && h.app == rows[i].app && h.user == rows[i].user && h.path == rows[i].path
    ensures Valid(rows[i := h])
  {
    NoClashUpdate(rows, i, h);
    RepickNormal(rows, i, h);
    hide NoClash, AllNormal;
    var after := rows[i := h];
    forall app, user ensures Count(after, app, user) <= MAX_GRANTS_PER_APP {
      RepickCount(rows, i, h, app, user);
    }
  }

  lemma PickKeepsValid(rows: seq<Grant>, op: Op)
    requires Valid(rows) && op.Pick? && Fresh(rows, op)
    ensures Valid(Step(rows, op))
  {
    var p := NormalizeVirtual(op.path);
    NormalizeIdempotent(op.path);
    var i := IndexOf(rows, op.app, op.user, p);
    hide NormalizeVirtual, Evicted, Valid;
    if i.Some? {
      var g := rows[i.value];
      RepickKeepsValid(rows, i.value, g.(mode := Widened(g.mode, op.mode), kind := op.kind));
    } else {
      NewPickKeepsValid(rows, Grant(op.id, op.app, op.user, p, op.kind, op.mode, op.now, None));
    }
  }

  lemma {:induction false} FilteredShape(rows: seq<Grant>, op: Op)
    ensures forall g :: g in Filtered(rows, op) <==> g in rows && Survives(g, op)
    ensures forall app, user :: Count(Filtered(rows, op), app, user) <= Count(rows, app, user)
  {
    if |rows| > 0 {
      FilteredShape(rows[1..], op);
      assert forall g :: g in rows <==> g == rows[0] || g in rows[1..];
      var rest := Filtered(rows[1..], op);
      if Survives(rows[0], op) {
        assert ([rows[0]] + rest)[1..] == rest;
        assert forall g :: g in [rows[0]] + rest <==> g == rows[0] || g in rest;
      } else {
        assert [] + rest == rest;
      }
    }
  }

  lemma {:induction false} FilteredShorter(rows: seq<Grant>, op: Op)
    ensures |Filtered(rows, op)| <= |rows|
    ensures |Filtered(rows, op)| < |rows| <==> exists g :: g in rows && !Survives(g, op)
  {
    hide Survives;
    if |rows| > 0 {
      FilteredShorter(rows[1..], op);
      assert forall g :: g in rows <==> g == rows[0] || g in rows[1..];
    }
  }

  lemma ClashWithFirst(rows: seq<Grant>, g: Grant)
    requires NoClash(rows) && |rows| > 0 && g in rows[1..]
    ensures !Clash(rows[0], g)
  {
    var k :| 0 <= k < |rows[1..]| && rows[1..][k] == g;
    assert rows[k + 1] == g;
  }

  lemma NoClashPrepend(first: Grant, rows: seq<Grant>)
    requires NoClash(rows) && forall r :: r in rows ==> !Clash(first, r)
    ensures NoClash([first] + rows)
  {
    hide Clash;
  }

  lemma {:induction false} FilteredNoClash(rows: seq<Grant>, op: Op)
    requires NoClash(rows)
    ensures NoClash(Filtered(rows, op))
  {
    if |rows| > 0 {
      FilteredNoClash(rows[1..], op);
      FilteredShape(rows[1..], op);
      var kept := Filtered(rows[1..], op);
      hide Clash, Survives;
      forall g | g in kept ensures !Clash(rows[0], g) {
        ClashWithFirst(rows, g);
      }
      NoClashPrepend(rows[0], kept);
      assert [] + kept == kept;
    }
  }

  lemma TouchKeepsValid(rows: seq<Grant>, handle: string, now: int)
    requires Valid(rows)
    ensures Valid(Touched(rows, handle, now))
  {
    hide IsNormal;
    forall app, user ensures Count(Touched(rows, handle, now), app, user) == Count(rows, app, user) {
      CountTouched(rows, handle, now, app, user);
    }
    forall g | g in Touched(rows, handle, now) ensures IsNormal(g.path) {
      var k :| 0 <= k < |rows| && Touched(rows, handle, now)[k] == g;
      assert rows[k] in rows;
    }
  }

  lemma FilterKeepsValid(rows: seq<Grant>, op: Op)
    requires Valid(rows)
    ensures Valid(Filtered(rows, op))
  {
    FilteredNoClash(rows, op);
    FilteredShape(rows, op);
    hide IsNormal, NoClash, Filtered, Survives;
    forall app, user ensures Count(Filtered(rows, op), app, user) <= MAX_GRANTS_PER_APP {
      assert Count(Filtered(rows, op), app, user) <= Count(rows, app, user);
    }
  }

  /** Every step keeps the table valid. */
  lemma StepKeepsValid(rows: seq<Grant>, op: Op)
    requires Valid(rows) && Fresh(rows, op)
    ensures Valid(Step(rows, op))
  {
    hide Valid, Fresh;
    match op
    case Pick(_, _, _, _, _, _, _) => PickKeepsValid(rows, op);
    case Touch(handle, now) => TouchKeepsValid(rows, handle, now);
    case _ => FilterKeepsValid(rows, op);
  }

  lemma {:induction false} CountTouched(rows: seq<Grant>, handle: string, now: int, app: string, user: string)
    ensures Count(Touched(rows, handle, now), app, user) == Count(rows, app, user)
  {
    if |rows| > 0 {
      assert Touched(rows, handle, now)[1..] == Touched(rows[1..], handle, now);
      CountTouched(rows[1..], handle, now, app, user);
    }
  }

  function Run(rows: seq<Grant>, ops: seq<Op>): seq<Grant> {
    if |ops| == 0 then rows else Step(Run(rows, ops[..|ops| - 1]), ops[|ops| - 1])
  }

  ghost predicate FreshThroughout(ops: seq<Op>) {
    forall n :: 0 <= n < |ops| ==> Fresh(Run([], ops[..n]), ops[n])
  }

  /** Every reachable table is valid. */
  lemma {:induction false} ReachableIsValid(ops: seq<Op>)
    requires FreshThroughout(ops)
    ensures Valid(Run([], ops))
  {
    if |ops| > 0 {
      var front := ops[..|ops| - 1];
      forall n | 0 <= n < |front| ensures Fresh(Run([], front[..n]), front[n]) {
        assert front[..n] == ops[..n];
      }
      ReachableIsValid(front);
      StepKeepsValid(Run([], front), ops[|ops| - 1]);
    }
  }

  /** The rows of an app and user, told apart by nothing but their fields. */
  ghost function RowsOf(rows: seq<Grant>, app: string, user: string): set<Grant> {
    set g | g in rows && g.app == app && g.user == user
  }

  lemma {:induction false} CountIsSize(rows: seq<Grant>, app: string, user: string)
    requires NoClash(rows)
    ensures Count(rows, app, user) == |RowsOf(rows, app, user)|
  {
    if |rows| > 0 {
      var g, rest := rows[0], rows[1..];
      CountIsSize(rest, app, user);
      assert g !in rest;
      assert RowsOf(rows, app, user) ==
        if g.app == app && g.user == user then RowsOf(rest, app, user) + {g} else RowsOf(rest, app, user);
    }
  }

  /** However often users pick, no app ever holds more than 32 grants of one user. */
  lemma AtMostThirtyTwo(ops: seq<Op>, app: string, user: string)
    requires FreshThroughout(ops)
    ensures |RowsOf(Run([], ops), app, user)| <= 32
  {
    ReachableIsValid(ops);
    CountIsSize(Run([], ops), app, user);
    hide Run, RowsOf;
  }

  /** A pick of a folder the app has already changes the kind of its row, and its mode only to let it write. */
  lemma PickAgain(rows: seq<Grant>, op: Op, i: nat)
    requires NoClash(rows) && op.Pick? && i < |rows|
    requires rows[i].app == op.app && rows[i].user == op.user && rows[i].path == NormalizeVirtual(op.path)
    ensures var g := rows[i];
      var mode := if op.mode == ReadAndWrite then ReadAndWrite else g.mode;
      Step(rows, op) == rows[i := Grant(g.id, g.app, g.user, g.path, op.kind, mode, g.created, g.lastUsed)]
  {
    hide NormalizeVirtual;
    var r := IndexOf(rows, op.app, op.user, NormalizeVirtual(op.path));
    hide IndexOf;
    assert Clash(rows[i], rows[r.value]);
  }

  /** The least recently used of an app's rows for a user: none was used, or else made, earlier. */
  ghost predicate LeastRecent(rows: seq<Grant>, i: nat, app: string, user: string) {
    && i < |rows| && rows[i].app == app && rows[i].user == user
    && forall g :: g in rows && g.app == app && g.user == user ==>
         (match rows[i].lastUsed case Some(t) => t case None => rows[i].created)
         <= match g.lastUsed case Some(t) => t case None => g.created
  }

  /** A pick of any other folder adds a row; at 32 rows, the least recently used one of the app and user makes
      room for it, and no other row goes. */
  lemma PickAnew(rows: seq<Grant>, op: Op)
    requires Valid(rows) && op.Pick?
    requires forall g :: g in rows ==> !(g.app == op.app && g.user == op.user && g.path == NormalizeVirtual(op.path))
    ensures var g := Grant(op.id, op.app, op.user, NormalizeVirtual(op.path), op.kind, op.mode, op.now, None);
      && (|RowsOf(rows, op.app, op.user)| < 32 ==> Step(rows, op) == rows + [g])
      && (|RowsOf(rows, op.app, op.user)| == 32 ==>
            exists i: nat :: LeastRecent(rows, i, op.app, op.user) && Step(rows, op) == rows[..i] + rows[i + 1..] + [g])
  {
    CountIsSize(rows, op.app, op.user);
    hide NormalizeVirtual, RowsOf, NoClash, AllNormal, IndexOf, Count, LeastRecent, Oldest, Without;
    if |RowsOf(rows, op.app, op.user)| == 32 {
      hide Evicted;
      var _ := EvictedIs(rows, op.app, op.user);
    }
  }

  /** At the limit the least recently used row goes, below it none. */
  lemma EvictedIs(rows: seq<Grant>, app: string, user: string) returns (i: nat)
    requires Count(rows, app, user) == 32
    ensures LeastRecent(rows, i, app, user) && Evicted(rows, app, user) == rows[..i] + rows[i + 1..]
  {
    var r := Oldest(rows, app, user);
    if r.None? {
      CountZero(rows, app, user);
    }
    hide Oldest, Count;
    i := r.value;
  }

  ghost predicate Asked(op: Op, g: Grant) {
    op.Pick? && op.app == g.app && op.user == g.user && NormalizeVirtual(op.path) == g.path
  }

  /** After any run every row goes back to a pick of its app, user and path, and one that may be written to a pick
      that asked to write. */
  lemma {:induction false} GrantsArePicked(ops: seq<Op>, g: Grant) returns (n: nat)
    requires g in Run([], ops)
    ensures n < |ops| && Asked(ops[n], g) && (g.mode == ReadAndWrite ==> ops[n].mode == ReadAndWrite)
  {
    n := |ops| - 1;
    hide Step, Asked;
    var f := StepRows(Run([], ops[..n]), ops[n], g);
    if f.Some? {
      var last := n;
      n := GrantsArePicked(ops[..last], f.value);
      hide Run;
      SameAsked(ops[n], f.value, g);
    }
  }

  lemma SameAsked(op: Op, f: Grant, g: Grant)
    requires Asked(op, f) && f.app == g.app && f.user == g.user && f.path == g.path
    ensures Asked(op, g)
  {}

  /** Where a row comes from: this pick, or a row that was there before. */
  lemma StepRows(rows: seq<Grant>, op: Op, g: Grant) returns (f: Option<Grant>)
    requires g in Step(rows, op)
    ensures f.None? ==> Asked(op, g) && (g.mode == ReadAndWrite ==> op.mode == ReadAndWrite)
    ensures f.Some? ==> f.value in rows && f.value.mode == g.mode
    ensures f.Some? ==> f.value.app == g.app && f.value.user == g.user && f.value.path == g.path
  {
    hide NormalizeVirtual;
    match op
    case Pick(_, app, user, path, kind, mode, _) =>
      var i := IndexOf(rows, app, user, NormalizeVirtual(path));
      hide IndexOf, Evicted;
      EvictedComesFrom(rows, app, user);
      if g in rows {
        f := Some(g);
      } else if i.Some? && rows[i.value].mode == g.mode {
        assert g == rows[i.value].(mode := Widened(g.mode, mode), kind := kind);
        f := Some(rows[i.value]);
      } else {
        f := None;
      }
    case Touch(handle, now) =>
      var m :| 0 <= m < |rows| && Touched(rows, handle, now)[m] == g;
      f := Some(rows[m]);
    case _ =>
      FilteredShape(rows, op);
      f := Some(g);
  }

  lemma EvictedComesFrom(rows: seq<Grant>, app: string, user: string)
    ensures forall g :: g in Evicted(rows, app, user) ==> g in rows
  {
    hide Count, Oldest;
  }

  /** The later state of a row: same owner and path, and a mode that has not narrowed. */
  predicate Continues(g: Grant, h: Grant) {
    h.app == g.app && h.user == g.user && h.path == g.path && h.created == g.created
    && (g.mode == ReadAndWrite ==> h.mode == ReadAndWrite)
  }

  lemma OneRowPerId(rows: seq<Grant>, g: Grant, h: Grant)
    requires NoClash(rows) && g in rows && h in rows && g.id == h.id
    ensures g == h
  {}

  lemma RepickContinues(rows: seq<Grant>, i: nat, kind: Kind, mode: Mode, g: Grant, h: Grant)
    requires NoClash(rows) && i < |rows|
    requires var r := rows[i]; h in rows[i := r.(mode := Widened(r.mode, mode), kind := kind)]
    requires g in rows && g.id == h.id
    ensures Continues(g, h)
  {
    var r := rows[i];
    var w := r.(mode := Widened(r.mode, mode), kind := kind);
    assert h == w || h in rows;
    OneRowPerId(rows, g, if h == w then r else h);
  }

  lemma StepOnlyWidens(rows: seq<Grant>, op: Op, g: Grant, h: Grant)
    requires Valid(rows) && Fresh(rows, op)
    requires g in rows && h in Step(rows, op) && g.id == h.id
    ensures Continues(g, h)
  {
    hide NormalizeVirtual, Clash, Continues;
    match op
    case Pick(id, app, user, path, kind, mode, _) =>
      var i := IndexOf(rows, app, user, NormalizeVirtual(path));
      if i.Some? {
        RepickContinues(rows, i.value, kind, mode, g, h);
      } else {
        EvictedRows(rows, app, user);
        assert h.id != id;
        SameRowContinues(rows, g, h);
      }
    case Touch(handle, now) =>
      var m :| 0 <= m < |rows| && Touched(rows, handle, now)[m] == h;
      OneRowPerId(rows, g, rows[m]);
      TouchContinues(g, h);
    case _ =>
      FilteredShape(rows, op);
      SameRowContinues(rows, g, h);
  }

  lemma SameRowContinues(rows: seq<Grant>, g: Grant, h: Grant)
    requires NoClash(rows) && g in rows && h in rows && g.id == h.id
    ensures Continues(g, h)
  {
    OneRowPerId(rows, g, h);
  }

  lemma TouchContinues(g: Grant, h: Grant)
    requires h == g.(lastUsed := h.lastUsed)
    ensures Continues(g, h)
  {}

  ghost predicate HasRow(rows: seq<Grant>, id: string) { exists g :: g in rows && g.id == id }

  /** A row of this id is there after each of the operations from the m-th to the n-th. */
  ghost predicate Lives(ops: seq<Op>, id: string, m: nat, n: nat) {
    forall k :: m <= k <= n && k <= |ops| ==> HasRow(Run([], ops[..k]), id)
  }

  /** As long as a row lives, whatever is picked, used and revoked meanwhile, it keeps its app, user, path and
      age, and its mode never narrows. */
  lemma {:induction false} RowOnlyWidens(ops: seq<Op>, m: nat, n: nat, g: Grant, h: Grant)
    requires FreshThroughout(ops) && m <= n <= |ops| && Lives(ops, g.id, m, n)
    requires g in Run([], ops[..m]) && h in Run([], ops[..n]) && g.id == h.id
    ensures Continues(g, h)
    decreases n
  {
    hide Run, Step, Continues, Valid;
    FreshUpTo(ops, n);
    ReachableIsValid(ops[..n]);
    if m < n {
      FreshUpTo(ops, n - 1);
      ReachableIsValid(ops[..n - 1]);
      var before := Run([], ops[..n - 1]);
      assert HasRow(before, g.id);
      var f :| f in before && f.id == g.id;
      RowOnlyWidens(ops, m, n - 1, g, f);
      RunStep(ops, n);
      StepOnlyWidens(before, ops[n - 1], f, h);
      ContinuesOn(g, f, h);
    } else {
      ValidHasNoClash(Run([], ops[..n]));
      SameRowContinues(Run([], ops[..n]), g, h);
    }
  }

  lemma ContinuesOn(g: Grant, f: Grant, h: Grant)
    requires Continues(g, f) && Continues(f, h)
    ensures Continues(g, h)
  {}

  lemma ValidHasNoClash(rows: seq<Grant>)
    requires Valid(rows)
    ensures NoClash(rows)
  {}

  lemma FreshUpTo(ops: seq<Op>, n: nat)
    requires FreshThroughout(ops) && n <= |ops|
    ensures FreshThroughout(ops[..n])
    ensures n < |ops| ==> Fresh(Run([], ops[..n]), ops[n])
  {
    hide Run, Fresh;
    forall k | 0 <= k < n ensures Fresh(Run([], ops[..n][..k]), ops[..n][k]) {
      assert ops[..n][..k] == ops[..k];
    }
  }

  lemma RunStep(ops: seq<Op>, n: nat)
    requires 0 < n <= |ops|
    ensures Run([], ops[..n]) == Step(Run([], ops[..n - 1]), ops[n - 1])
  {
    assert ops[..n][..n - 1] == ops[..n - 1];
  }

  // ----- What an app may reach --------------------------------------------------------------------

  datatype Reach = Reach(path: string, write: bool)

  function ById(rows: seq<Grant>, handle: string, app: string, user: string): (r: Option<Grant>)
    ensures r.Some? ==> r.value in rows && r.value.id == handle && Holds(r.value, app, user)
    ensures r.None? ==> forall g :: g in rows ==> !(g.id == handle && Holds(g, app, user))
  {
    if |rows| == 0 then None
    else if rows[0].id == handle && Holds(rows[0], app, user) then Some(rows[0])
    else ById(rows[1..], handle, app, user)
  }

  /** A request through a granted folder: the relative path is joined on, normalised, and must not
      have left the folder. */
  function ThroughGrant(g: Grant, t: Tables, user: Account, rel: string): Option<Reach> {
    var joined := NormalizeVirtual(g.path + "/" + rel);
    var root := if g.path == "/" then "/" else g.path + "/";
    if joined != g.path && !(root <= joined) then None
    else
      var access := PathAccess(t, user, joined);
      if !access.read then None else Some(Reach(joined, access.write && g.mode == ReadAndWrite))
  }

  function WithHandle(rows: seq<Grant>, t: Tables, user: Account, app: string, handle: string,
                      rel: string): Option<Reach> {
    var row := ById(rows, handle, app, user.id);
    if row.None? then None else ThroughGrant(row.value, t, user, rel)
  }

  /** What an app asks for: a path inside the folder of a handle or, when the handle is empty, a path
      from the root, allowed by the permissions in its manifest. */
  datatype Request = Request(handle: string, path: string, mayRead: bool, mayWrite: bool)

  function WithoutHandle(t: Tables, user: Account, q: Request): Option<Reach> {
    if !q.mayRead then None
    else
      var p := NormalizeVirtual(if q.path == "" then "/" else q.path);
      var access := PathAccess(t, user, p);
      if !access.read then None else Some(Reach(p, access.write && q.mayWrite))
  }

  function Resolved(rows: seq<Grant>, t: Tables, user: Account, app: string, q: Request): Option<Reach> {
    if q.handle != "" then WithHandle(rows, t, user, app, q.handle, q.path) else WithoutHandle(t, user, q)
  }

  lemma JoinedSegments(path: string, rel: string)
    requires IsNormal(path)
    ensures Segments(path + "/" + rel) == Walk(Segments(path), Split(rel))
    ensures Show(Segments(path)) == path
  {
    NormalForm(path);
    SegmentsBelow(Segments(path), rel);
  }

  lemma ShowLength(segs: seq<Segment>)
    requires AreNames(segs)
    ensures "/" <= Show(segs) && (segs != [] ==> |Show(segs)| >= 2)
  {
    if segs != [] {
      FirstSegment(segs);
      assert IsName(segs[0]);
    }
  }

  lemma InsideTest(granted: seq<Segment>, joined: seq<Segment>)
    requires AreNames(granted) && AreNames(joined)
    ensures var root := if Show(granted) == "/" then "/" else Show(granted) + "/";
      (Show(joined) == Show(granted) || root <= Show(joined)) <==> granted <= joined
  {
    ShowLength(granted);
    ShowLength(joined);
    if granted != [] && joined != [] {
      StartsWithIsBelow(granted, joined);
      if Show(joined) == Show(granted) {
        ShowInjective(joined, granted);
      }
      hide Full, AreNames;
      assert (granted <= joined) == (granted == joined || granted < joined);
    } else {
      hide Full, AreNames;
    }
  }

  /** Through a handle an app reaches exactly the paths at or below the granted folder that the user may read,
      and writes only where both the user and the grant allow it; a handle of another app or user, or of no
      one, reaches nothing. */
  lemma GrantConfines(rows: seq<Grant>, t: Tables, user: Account, app: string, handle: string, rel: string)
    requires NoClash(rows) && AllNormal(rows)
    ensures var r := WithHandle(rows, t, user, app, handle, rel);
      && (r.Some? ==> exists g :: g in rows && g.id == handle && g.app == app && g.user == user.id)
      && forall g :: g in rows && g.id == handle && g.app == app && g.user == user.id ==>
           var granted, there := Segments(g.path), Walk(Segments(g.path), Split(rel));
           && (r.Some? <==> granted <= there && Decision(t, user, there).read)
           && (r.Some? ==> Segments(r.value.path) == there && IsNormal(r.value.path))
           && (r.Some? ==> (r.value.write <==> Decision(t, user, there).write && g.mode == ReadAndWrite))
  {
    var row := ById(rows, handle, app, user.id);
    hide ById, ThroughGrant, Walk, Split, Segments, Decision, IsNormal, Clash;
    if row.Some? {
      forall g | g in rows && g.id == handle && g.app == app && g.user == user.id ensures g == row.value {
        OneRowPerId(rows, g, row.value);
      }
      ThroughGrantConfines(row.value, t, user, rel);
    }
  }

  lemma ThroughGrantConfines(g: Grant, t: Tables, user: Account, rel: string)
    requires IsNormal(g.path)
    ensures var r, granted := ThroughGrant(g, t, user, rel), Segments(g.path);
      var there := Walk(granted, Split(rel));
      && (r.Some? <==> granted <= there && Decision(t, user, there).read)
      && (r.Some? ==> Segments(r.value.path) == there && IsNormal(r.value.path))
      && (r.Some? ==> (r.value.write <==> Decision(t, user, there).write && g.mode == ReadAndWrite))
  {
    var joined := g.path + "/" + rel;
    JoinedSegments(g.path, rel);
    NormalForm(joined);
    NormalizeIdempotent(joined);
    InsideTest(Segments(g.path), Segments(joined));
    ShortcutsAreSafe(t, user, NormalizeVirtual(joined));
    hide NormalizeVirtual, Segments, Walk, Split, PathAccess, Decision, Show, AreNames;
  }

  /** Without a handle an app reaches exactly what the user may read, if its manifest lets it read, and
      writes only where both the user and the manifest allow it. */
  lemma ManifestConfines(t: Tables, user: Account, q: Request)
    ensures var r, there := WithoutHandle(t, user, q), Segments(q.path);
      && (r.Some? <==> q.mayRead && Decision(t, user, there).read)
      && (r.Some? ==> Segments(r.value.path) == there && IsNormal(r.value.path))
      && (r.Some? ==> (r.value.write <==> Decision(t, user, there).write && q.mayWrite))
  {
    var path := if q.path == "" then "/" else q.path;
    assert Segments("") == Segments("/");
    NormalForm(path);
    NormalizeIdempotent(path);
    ShortcutsAreSafe(t, user, NormalizeVirtual(path));
    hide NormalizeVirtual, Segments, PathAccess, Decision;
  }

  /** By neither route does an app reach more than the user it acts for. */
  lemma NeverMoreThanTheUser(rows: seq<Grant>, t: Tables, user: Account, app: string, q: Request)
    requires AllNormal(rows)
    ensures var r := Resolved(rows, t, user, app, q);
      r.Some? ==>
        var access := Decision(t, user, Segments(r.value.path));
        IsNormal(r.value.path) && access.read && (r.value.write ==> access.write)
  {
    var row := ById(rows, q.handle, app, user.id);
    if row.Some? {
      ThroughGrantConfines(row.value, t, user, q.path);
    }
    ManifestConfines(t, user, q);
    hide IsNormal, Decision, Segments, ThroughGrant, WithoutHandle, Walk;
  }

  // ----- The table as the source keeps it ------------------------------------------------------------

  class GrantTable {
    var rows: seq<Grant>

    constructor ()
      ensures Valid(rows) && rows == []
    {
      rows := [];
    }

    /** What the picker stores; a new row takes `id`, which is fresh. */
    method GrantPath(id: string, app: string, user: string, path: string, kind: Kind, mode: Mode, now: int)
        returns (g: Grant)
      requires Valid(rows) && Fresh(rows, Pick(id, app, user, path, kind, mode, now))
      modifies this
      ensures Valid(rows) && rows == Step(old(rows), Pick(id, app, user, path, kind, mode, now))
      ensures g in rows && (g.app, g.user, g.path, g.kind) == (app, user, NormalizeVirtual(path), kind)
      ensures mode == ReadAndWrite ==> g.mode == ReadAndWrite
    {
      StepKeepsValid(rows, Pick(id, app, user, path, kind, mode, now));
      var p := NormalizeVirtual(path);
      hide Valid, Fresh, NormalizeVirtual;
      var existing := IndexOf(rows, app, user, p);
      if existing.Some? {
        g := rows[existing.value];
        g := g.(mode := Widened(g.mode, mode), kind := kind);
        rows := rows[existing.value := g];
        assert rows[existing.value] == g;
        return;
      }
      if Count(rows, app, user) >= MAX_GRANTS_PER_APP {
        var victim := Oldest(rows, app, user);
        if victim.Some? {
          rows := Without(rows, victim.value);
        }
      }
      g := Grant(id, app, user, p, kind, mode, now, None);
      rows := rows + [g];
    }

    method RevokeGrant(app: string, user: string, handle: string) returns (gone: bool)
      requires Valid(rows)
      modifies this
      ensures Valid(rows) && rows == Step(old(rows), Revoke(app, user, handle))
      ensures forall g :: g in rows <==> g in old(rows) && !(g.id == handle && g.app == app && g.user == user)
      ensures gone <==> exists g :: g in old(rows) && g.id == handle && g.app == app && g.user == user
    {
      StepKeepsValid(rows, Revoke(app, user, handle));
      FilteredShape(rows, Revoke(app, user, handle));
      FilteredShorter(rows, Revoke(app, user, handle));
      var kept := Filtered(rows, Revoke(app, user, handle));
      gone := |kept| < |rows|;
      rows := kept;
    }

    /** The same for the user's own list of what apps can see. */
    method RevokeGrantForUser(user: string, handle: string) returns (gone: bool)
      requires Valid(rows)
      modifies this
      ensures Valid(rows) && rows == Step(old(rows), RevokeForUser(user, handle))
      ensures forall g :: g in rows <==> g in old(rows) && !(g.id == handle && g.user == user)
      ensures gone <==> exists g :: g in old(rows) && g.id == handle && g.user == user
    {
      StepKeepsValid(rows, RevokeForUser(user, handle));
      FilteredShape(rows, RevokeForUser(user, handle));
      FilteredShorter(rows, RevokeForUser(user, handle));
      var kept := Filtered(rows, RevokeForUser(user, handle));
      gone := |kept| < |rows|;
      rows := kept;
    }

    method RevokeAllForApp(app: string) returns (n: int)
      requires Valid(rows)
      modifies this
      ensures Valid(rows) && rows == Step(old(rows), RevokeApp(app))
      ensures forall g :: g in rows <==> g in old(rows) && g.app != app
      ensures n == |old(rows)| - |rows|
    {
      StepKeepsValid(rows, RevokeApp(app));
      FilteredShape(rows, RevokeApp(app));
      var kept := Filtered(rows, RevokeApp(app));
      n := |rows| - |kept|;
      rows := kept;
    }

    /** Answer an app's request: the path meant and whether it may be written. */
    method ResolveGrant(t: Tables, user: Account, app: string, q: Request, now: int) returns (r: Option<Reach>)
      requires Valid(rows)
      modifies this
      ensures Valid(rows)
      ensures r == Resolved(old(rows), t, user, app, q)
      ensures r == if q.handle != "" then WithHandle(old(rows), t, user, app, q.handle, q.path)
                   else WithoutHandle(t, user, q)
      ensures rows == if r.Some? && q.handle != "" then Step(old(rows), Touch(q.handle, now)) else old(rows)
      ensures |rows| == |old(rows)| && forall i :: 0 <= i < |rows| ==>
        rows[i] == if r.Some? && q.handle != "" && q.handle == old(rows)[i].id then old(rows)[i].(lastUsed := Some(now))
                   else old(rows)[i]
    {
      StepKeepsValid(rows, Touch(q.handle, now));
      if q.handle != "" {
        var row := ById(rows, q.handle, app, user.id);
        if row.None? {
          return None;
        }
        r := ThroughGrant(row.value, t, user, q.path);
        if r.Some? {
          rows := Touched(rows, q.handle, now);
        }
        return;
      }
      r := WithoutHandle(t, user, q);
    }
  }
}
