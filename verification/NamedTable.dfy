/** Tables whose rows are found by name ignoring case, and the pass that merges a list of entries into
    one: the first row of that name is updated in place, a name not found is appended, and an entry
    without a name is skipped.  The database may refuse what a pass writes. */
module NamedTable {
  import opened Wrappers

  /** `writable` says whether an entry gives every column that must not be empty, and `fits` whether a new
      row keeps the unique keys. */
  datatype Table<!R, !E> = Table(rowKey: R -> string, entryKey: E -> string, update: (R, E) -> R,
                                 make: (E, string) -> R, writable: E -> bool, fits: (seq<R>, R) -> bool)

  /** Updating keeps the name and overwrites what an earlier update wrote; a row just made is up to date. */
  ghost predicate Lawful<R(!new), E(!new)>(t: Table<R, E>) {
    && (forall r, e :: t.rowKey(t.update(r, e)) == t.rowKey(r))
    && (forall e, id :: t.rowKey(t.make(e, id)) == t.entryKey(e))
    && (forall r, a, b :: t.update(t.update(r, a), b) == t.update(r, b))
    && (forall e, id :: t.update(t.make(e, id), e) == t.make(e, id))
  }

  /** The first row of a name. */
  function Find<R, E>(t: Table<R, E>, rows: seq<R>, key: string): (i: Option<nat>)
    ensures i.Some? ==>
      i.value < |rows| && t.rowKey(rows[i.value]) == key && forall j :: 0 <= j < i.value ==> t.rowKey(rows[j]) != key
    ensures i.None? ==> forall j :: 0 <= j < |rows| ==> t.rowKey(rows[j]) != key
  {
    if |rows| == 0 then None
    else if t.rowKey(rows[0]) == key then Some(0)
    else
      var i := Find(t, rows[1..], key);
      if i.Some? then Some(i.value + 1) else None
  }

  function Put<R, E>(t: Table<R, E>, rows: seq<R>, e: E, id: string): seq<R> {
    if t.entryKey(e) == "" then rows
    else
      var i := Find(t, rows, t.entryKey(e));
      if i.Some? then rows[i.value := t.update(rows[i.value], e)] else rows + [t.make(e, id)]
  }

  /** `ids(n)` is the fresh id entry `n` would get. */
  function Pass<R, E>(t: Table<R, E>, rows: seq<R>, es: seq<E>, ids: nat -> string): seq<R> {
    if |es| == 0 then rows
    else Put(t, Pass(t, rows, es[..|es| - 1], ids), es[|es| - 1], ids(|es| - 1))
  }

  /** The same as the database answers it: nothing when one of the writes is refused. */
  function Try<R, E>(t: Table<R, E>, rows: seq<R>, es: seq<E>, ids: nat -> string): Option<seq<R>> {
    if |es| == 0 then Some(rows)
    else
      var before := Try(t, rows, es[..|es| - 1], ids);
      if before.None? then None else TryPut(t, before.value, es[|es| - 1], ids(|es| - 1))
  }

  function TryPut<R, E>(t: Table<R, E>, rows: seq<R>, e: E, id: string): Option<seq<R>> {
    if t.entryKey(e) == "" then Some(rows)
    else if !t.writable(e) then None
    else
      var i := Find(t, rows, t.entryKey(e));
      if i.Some? then Some(rows[i.value := t.update(rows[i.value], e)])
      else if t.fits(rows, t.make(e, id)) then Some(rows + [t.make(e, id)])
      else None
  }

  /** The last entry of a name. */
  function LastOf<R, E>(t: Table<R, E>, es: seq<E>, key: string): (n: Option<nat>)
    ensures n.Some? ==> n.value < |es| && t.entryKey(es[n.value]) == key
    ensures n.None? ==> forall m :: 0 <= m < |es| ==> t.entryKey(es[m]) != key
  {
    if |es| == 0 then None
    else if t.entryKey(es[|es| - 1]) == key then Some(|es| - 1)
    else LastOf(t, es[..|es| - 1], key)
  }

  lemma {:induction false} LastIs<R, E>(t: Table<R, E>, es: seq<E>, n: nat)
    requires n < |es| && forall m :: n < m < |es| ==> t.entryKey(es[m]) != t.entryKey(es[n])
    ensures LastOf(t, es, t.entryKey(es[n])) == Some(n)
  {
    if n < |es| - 1 {
      LastIs(t, es[..|es| - 1], n);
    }
  }

  lemma FindIs<R, E>(t: Table<R, E>, rows: seq<R>, key: string, i: nat)
    requires i < |rows| && t.rowKey(rows[i]) == key && forall j :: 0 <= j < i ==> t.rowKey(rows[j]) != key
    ensures Find(t, rows, key) == Some(i)
  {
    hide Find;
  }

  /** One step leaves every row in its place under its name, and touches only the first row of the
      entry's name. */
  lemma PutKeeps<R(!new), E(!new)>(t: Table<R, E>, rows: seq<R>, e: E, id: string, i: nat)
    requires Lawful(t) && i < |rows|
    ensures var after := Put(t, rows, e, id);
      && |rows| <= |after| && t.rowKey(after[i]) == t.rowKey(rows[i])
      && (t.rowKey(rows[i]) != t.entryKey(e) || Find(t, rows, t.rowKey(rows[i])) != Some(i) ==> after[i] == rows[i])
  {
    hide Find;
  }

  lemma PutFinds<R(!new), E(!new)>(t: Table<R, E>, rows: seq<R>, e: E, id: string, key: string)
    requires Lawful(t) && Find(t, rows, key).Some?
    ensures Find(t, Put(t, rows, e, id), key) == Find(t, rows, key)
  {
    var i := Find(t, rows, key).value;
    var after := Put(t, rows, e, id);
    hide Put, Find;
    PutKeeps(t, rows, e, id, i);
    forall j | 0 <= j < i ensures t.rowKey(after[j]) != key {
      PutKeeps(t, rows, e, id, j);
    }
    hide Lawful;
    FindIs(t, after, key, i);
  }

  /** A row that was there stays where it was; only the first row of a name can change, and only by the
      last entry of that name. */
  lemma {:induction false} RowAfter<R(!new), E(!new)>(t: Table<R, E>, rows: seq<R>, es: seq<E>, ids: nat -> string,
                                                      i: nat)
    requires Lawful(t) && i < |rows|
    ensures var after, key := Pass(t, rows, es, ids), t.rowKey(rows[i]);
      && i < |after| && t.rowKey(after[i]) == key && (Find(t, rows, key) == Some(i) <==> Find(t, after, key) == Some(i))
      && Find(t, after, key) == Find(t, rows, key)
      && after[i] == if key != "" && Find(t, rows, key) == Some(i) && LastOf(t, es, key).Some?
                     then t.update(rows[i], es[LastOf(t, es, key).value]) else rows[i]
  {
    if |es| > 0 {
      var front, last := es[..|es| - 1], es[|es| - 1];
      var key, before := t.rowKey(rows[i]), Pass(t, rows, front, ids);
      RowAfter(t, rows, front, ids, i);
      StepRow(t, before, last, ids(|es| - 1), key, i);
      PassStep(t, rows, es, ids);
      LastStep(t, es, key);
      hide Pass, Put, LastOf, Find, Lawful;
      assert LastOf(t, front, key).Some? ==> front[LastOf(t, front, key).value] == es[LastOf(t, front, key).value];
      Overwrites(t, rows[i], es, key);
    }
  }

  lemma PassStep<R, E>(t: Table<R, E>, rows: seq<R>, es: seq<E>, ids: nat -> string)
    requires |es| > 0
    ensures Pass(t, rows, es, ids) == Put(t, Pass(t, rows, es[..|es| - 1], ids), es[|es| - 1], ids(|es| - 1))
  {}

  lemma LastStep<R, E>(t: Table<R, E>, es: seq<E>, key: string)
    requires |es| > 0
    ensures LastOf(t, es, key) ==
      if t.entryKey(es[|es| - 1]) == key then Some(|es| - 1) else LastOf(t, es[..|es| - 1], key)
  {}

  lemma Overwrites<R(!new), E(!new)>(t: Table<R, E>, r: R, es: seq<E>, key: string)
    requires Lawful(t)
    ensures forall a, b :: 0 <= a < |es| && 0 <= b < |es| ==> t.update(t.update(r, es[a]), es[b]) == t.update(r, es[b])
  {}

  /** One step, seen from one row. */
  lemma StepRow<R(!new), E(!new)>(t: Table<R, E>, rows: seq<R>, e: E, id: string, key: string, i: nat)
    requires Lawful(t) && i < |rows| && t.rowKey(rows[i]) == key
    ensures var after := Put(t, rows, e, id);
      && i < |after| && t.rowKey(after[i]) == key && Find(t, after, key) == Find(t, rows, key)
      && after[i] ==
        if key != "" && t.entryKey(e) == key && Find(t, rows, key) == Some(i) then t.update(rows[i], e) else rows[i]
  {
    PutKeeps(t, rows, e, id, i);
    PutFinds(t, rows, e, id, key);
    hide Find, Lawful;
  }

  /** After the pass every named entry has its row, and the last entry of each name is what it says. */
  lemma {:induction false} Settled<R(!new), E(!new)>(t: Table<R, E>, rows: seq<R>, es: seq<E>, ids: nat -> string,
                                                     key: string)
    requires Lawful(t) && key != "" && LastOf(t, es, key).Some?
    ensures var after := Pass(t, rows, es, ids);
      && Find(t, after, key).Some?
      && t.update(after[Find(t, after, key).value], es[LastOf(t, es, key).value]) == after[Find(t, after, key).value]
  {
    var front, last := es[..|es| - 1], es[|es| - 1];
    var before := Pass(t, rows, front, ids);
    LastStep(t, es, key);
    PassStep(t, rows, es, ids);
    if t.entryKey(last) == key {
      PutSettles(t, before, last, ids(|es| - 1));
    } else {
      Settled(t, rows, front, ids, key);
      var i := Find(t, before, key).value;
      hide Pass, Find, LastOf, Lawful, Put;
      StepRow(t, before, last, ids(|es| - 1), key, i);
    }
  }

  lemma PutSettles<R(!new), E(!new)>(t: Table<R, E>, rows: seq<R>, e: E, id: string)
    requires Lawful(t) && t.entryKey(e) != ""
    ensures var after, key := Put(t, rows, e, id), t.entryKey(e);
      Find(t, after, key).Some? && t.update(after[Find(t, after, key).value], e) == after[Find(t, after, key).value]
  {
    var after, key := Put(t, rows, e, id), t.entryKey(e);
    var f := Find(t, rows, key);
    hide Find;
    if f.Some? {
      PutFinds(t, rows, e, id, key);
    } else {
      FindIs(t, after, key, |rows|);
    }
  }

  lemma {:induction false} NothingNew<R(!new), E(!new)>(t: Table<R, E>, rows: seq<R>, es: seq<E>, ids: nat -> string)
    requires Lawful(t)
    requires forall n :: 0 <= n < |es| && t.entryKey(es[n]) != "" ==> Find(t, rows, t.entryKey(es[n])).Some?
    ensures |Pass(t, rows, es, ids)| == |rows|
  {
    if |es| > 0 {
      var front, last := es[..|es| - 1], es[|es| - 1];
      NothingNew(t, rows, front, ids);
      if t.entryKey(last) != "" {
        var i := Find(t, rows, t.entryKey(last)).value;
        RowAfter(t, rows, front, ids, i);
        hide Find, Lawful;
      }
    }
  }

  /** Passing the same entries again changes nothing, whatever fresh ids are at hand. */
  lemma PassTwice<R(!new), E(!new)>(t: Table<R, E>, rows: seq<R>, es: seq<E>, ids: nat -> string, again: nat -> string)
    requires Lawful(t)
    ensures var once := Pass(t, rows, es, ids); Pass(t, once, es, again) == once
  {
    var once := Pass(t, rows, es, ids);
    var twice := Pass(t, once, es, again);
    hide Pass, Find, LastOf, Lawful;
    forall n | 0 <= n < |es| && t.entryKey(es[n]) != "" ensures Find(t, once, t.entryKey(es[n])).Some? {
      Settled(t, rows, es, ids, t.entryKey(es[n]));
    }
    NothingNew(t, once, es, again);
    forall i | 0 <= i < |once| ensures twice[i] == once[i] {
      RowAfter(t, once, es, again, i);
      var key := t.rowKey(once[i]);
      if key != "" && LastOf(t, es, key).Some? {
        Settled(t, rows, es, ids, key);
      }
    }
    assert twice == once;
  }

  /** What holds of every row as it is made, and survives updates, holds of every appended row. */
  lemma {:induction false} NewRows<R(!new), E(!new)>(t: Table<R, E>, rows: seq<R>, es: seq<E>, ids: nat -> string,
                                                     p: R -> bool)
    requires Lawful(t)
    requires forall e, id :: p(t.make(e, id))
    requires forall r, e :: p(r) ==> p(t.update(r, e))
    ensures |rows| <= |Pass(t, rows, es, ids)|
    ensures forall i :: |rows| <= i < |Pass(t, rows, es, ids)| ==> p(Pass(t, rows, es, ids)[i])
  {
    if |es| > 0 {
      NewRows(t, rows, es[..|es| - 1], ids, p);
      hide Find, Lawful;
    }
  }

  /** The n-th entry is the first of its name, and that name is the row's. */
  ghost predicate MadeFrom<R, E>(t: Table<R, E>, es: seq<E>, ids: nat -> string, r: R, n: nat)
    requires n < |es|
  {
    var key := t.entryKey(es[n]);
    && key != "" && key == t.rowKey(r) && (forall m :: 0 <= m < n ==> t.entryKey(es[m]) != key)
    && LastOf(t, es, key).Some? && r == t.update(t.make(es[n], ids(n)), es[LastOf(t, es, key).value])
  }

  /** An appended row is the first of its name; it was made by the first entry of that name, and says what
      the last one says. */
  lemma {:induction false} AppendedRow<R(!new), E(!new)>(t: Table<R, E>, rows: seq<R>, es: seq<E>, ids: nat -> string,
                                                         i: nat)
      returns (n: nat)
    requires Lawful(t) && |rows| <= i < |Pass(t, rows, es, ids)|
    ensures var after := Pass(t, rows, es, ids);
      n < |es| && MadeFrom(t, es, ids, after[i], n) && Find(t, after, t.entryKey(es[n])) == Some(i)
  {
    var front, last := es[..|es| - 1], es[|es| - 1];
    var before := Pass(t, rows, front, ids);
    PassStep(t, rows, es, ids);
    hide Pass, LastOf, MadeFrom, Find;
    if i < |before| {
      n := AppendedRow(t, rows, front, ids, i);
      StillMadeFrom(t, before, front, last, ids, i, n);
    } else {
      n := |es| - 1;
      JustMadeFrom(t, rows, before, front, last, ids);
    }
    assert es == front + [last];
  }

  lemma StillMadeFrom<R(!new), E(!new)>(t: Table<R, E>, before: seq<R>, front: seq<E>, last: E, ids: nat -> string,
                                        i: nat, n: nat)
    requires Lawful(t) && n < |front| && i < |before|
    requires MadeFrom(t, front, ids, before[i], n) && Find(t, before, t.entryKey(front[n])) == Some(i)
    ensures var after, es := Put(t, before, last, ids(|front|)), front + [last];
      i < |after| && MadeFrom(t, es, ids, after[i], n) && Find(t, after, t.entryKey(es[n])) == Some(i)
  {
    var es, key := front + [last], t.entryKey(front[n]);
    assert es[..|front|] == front;
    StepRow(t, before, last, ids(|front|), key, i);
    LastStep(t, es, key);
    hide LastOf, Find, Put, Lawful;
    OverwritesMade(t, es, ids, n);
  }

  lemma JustMadeFrom<R(!new), E(!new)>(t: Table<R, E>, rows: seq<R>, before: seq<R>, front: seq<E>, last: E,
                                       ids: nat -> string)
    requires Lawful(t) && before == Pass(t, rows, front, ids)
    requires |Put(t, before, last, ids(|front|))| > |before|
    ensures var after, es := Put(t, before, last, ids(|front|)), front + [last];
      && |after| == |before| + 1 && MadeFrom(t, es, ids, after[|before|], |front|)
      && Find(t, after, t.entryKey(last)) == Some(|before|)
  {
    var es, key, after := front + [last], t.entryKey(last), Put(t, before, last, ids(|front|));
    assert es[..|front|] == front;
    LastStep(t, es, key);
    hide Pass, LastOf;
    FoundAfter(t, rows, front, ids, key);
    assert after == before + [t.make(last, ids(|front|))];
    hide Find;
    FindIs(t, after, key, |before|);
  }

  lemma OverwritesMade<R(!new), E(!new)>(t: Table<R, E>, es: seq<E>, ids: nat -> string, n: nat)
    requires Lawful(t) && n < |es|
    ensures forall a, b :: 0 <= a < |es| && 0 <= b < |es| ==>
      t.update(t.update(t.make(es[n], ids(n)), es[a]), es[b]) == t.update(t.make(es[n], ids(n)), es[b])
  {}

  /** What holds of every row, and of every row made, and survives updates, holds afterwards. */
  lemma AllRows<R(!new), E(!new)>(t: Table<R, E>, rows: seq<R>, es: seq<E>, ids: nat -> string, p: R -> bool)
    requires Lawful(t) && (forall r :: r in rows ==> p(r))
    requires forall e, id :: p(t.make(e, id))
    requires forall r, e :: p(r) ==> p(t.update(r, e))
    ensures forall r :: r in Pass(t, rows, es, ids) ==> p(r)
  {
    var after := Pass(t, rows, es, ids);
    NewRows(t, rows, es, ids, p);
    forall r | r in after ensures p(r) {
      var i :| 0 <= i < |after| && after[i] == r;
      if i < |rows| {
        RowAfter(t, rows, es, ids, i);
        assert rows[i] in rows;
      }
      hide Pass, Find, LastOf, Lawful;
    }
  }

  /** One step changes no name, and adds at most the entry's own when no row had it. */
  lemma PutNames<R(!new), E(!new)>(t: Table<R, E>, rows: seq<R>, e: E, id: string)
    requires Lawful(t)
    ensures var after, key := Put(t, rows, e, id), t.entryKey(e);
      && |rows| <= |after| <= |rows| + 1
      && (forall i :: 0 <= i < |rows| ==> t.rowKey(after[i]) == t.rowKey(rows[i]))
      && (|after| > |rows| ==>
          key != "" && t.rowKey(after[|rows|]) == key && forall i :: 0 <= i < |rows| ==> t.rowKey(rows[i]) != key)
  {
    var after := Put(t, rows, e, id);
    forall i | 0 <= i < |rows| ensures t.rowKey(after[i]) == t.rowKey(rows[i]) {
      PutKeeps(t, rows, e, id, i);
    }
    hide Find;
  }

  /** Names stay there and stay distinct. */
  lemma {:induction false} NamesStayDistinct<R(!new), E(!new)>(t: Table<R, E>, rows: seq<R>, es: seq<E>,
                                                               ids: nat -> string)
    requires Lawful(t) && forall i, j :: 0 <= i < j < |rows| ==> t.rowKey(rows[i]) != t.rowKey(rows[j])
    ensures var after := Pass(t, rows, es, ids);
      forall i, j :: 0 <= i < j < |after| ==> t.rowKey(after[i]) != t.rowKey(after[j])
  {
    if |es| > 0 {
      NamesStayDistinct(t, rows, es[..|es| - 1], ids);
      PutNames(t, Pass(t, rows, es[..|es| - 1], ids), es[|es| - 1], ids(|es| - 1));
      PassStep(t, rows, es, ids);
      hide Find, Pass, Put, Lawful;
    }
  }

  lemma {:induction false} NamesStay<R(!new), E(!new)>(t: Table<R, E>, rows: seq<R>, es: seq<E>, ids: nat -> string)
    requires Lawful(t) && forall i :: 0 <= i < |rows| ==> t.rowKey(rows[i]) != ""
    ensures forall i :: 0 <= i < |Pass(t, rows, es, ids)| ==> t.rowKey(Pass(t, rows, es, ids)[i]) != ""
  {
    if |es| > 0 {
      NamesStay(t, rows, es[..|es| - 1], ids);
      PutNames(t, Pass(t, rows, es[..|es| - 1], ids), es[|es| - 1], ids(|es| - 1));
      PassStep(t, rows, es, ids);
      hide Find, Pass, Put, Lawful;
    }
  }

  /** Ids that updates keep and new rows take from a fresh supply stay unique. */
  lemma {:induction false} IdsStayUnique<R(!new), E(!new)>(t: Table<R, E>, rows: seq<R>, es: seq<E>, ids: nat -> string,
                                                           idOf: R -> string)
    requires forall r, e :: idOf(t.update(r, e)) == idOf(r)
    requires forall e, id :: idOf(t.make(e, id)) == id
    requires forall i, j :: 0 <= i < j < |rows| ==> idOf(rows[i]) != idOf(rows[j])
    requires forall m: nat, n: nat :: ids(m) == ids(n) ==> m == n
    requires forall i, n: nat :: 0 <= i < |rows| ==> idOf(rows[i]) != ids(n)
    ensures var after := Pass(t, rows, es, ids);
      && |rows| <= |after|
      && (forall i :: 0 <= i < |rows| ==> idOf(after[i]) == idOf(rows[i]))
      && (forall i :: |rows| <= i < |after| ==> exists n: nat :: n < |es| && idOf(after[i]) == ids(n))
      && (forall i, j :: 0 <= i < j < |after| ==> idOf(after[i]) != idOf(after[j]))
  {
    if |es| > 0 {
      IdsStayUnique(t, rows, es[..|es| - 1], ids, idOf);
      hide Find;
    }
  }

  // ----- Starting from nothing ------------------------------------------------------------------------

  ghost predicate DistinctNames<R, E>(t: Table<R, E>, es: seq<E>) {
    && (forall n :: 0 <= n < |es| ==> t.entryKey(es[n]) != "")
    && (forall m, n :: 0 <= m < n < |es| ==> t.entryKey(es[m]) != t.entryKey(es[n]))
  }

  /** Entries of distinct names each make a row of their own, in order. */
  lemma {:induction false} PassFromEmpty<R(!new), E(!new)>(t: Table<R, E>, es: seq<E>, ids: nat -> string)
    requires Lawful(t) && DistinctNames(t, es)
    ensures |Pass(t, [], es, ids)| == |es|
    ensures forall n :: 0 <= n < |es| ==> Pass(t, [], es, ids)[n] == t.make(es[n], ids(n))
  {
    if |es| > 0 {
      var front, last := es[..|es| - 1], es[|es| - 1];
      assert DistinctNames(t, front);
      PassFromEmpty(t, front, ids);
      var rows := Pass(t, [], front, ids);
      assert forall n :: 0 <= n < |rows| ==> t.rowKey(rows[n]) == t.entryKey(es[n]);
      assert Find(t, rows, t.entryKey(last)).None?;
      hide Find, Lawful, DistinctNames;
    }
  }

  lemma {:induction false} NoMoreThanEntries<R(!new), E(!new)>(t: Table<R, E>, es: seq<E>, ids: nat -> string)
    ensures |Pass(t, [], es, ids)| <= |es|
  {
    if |es| > 0 {
      NoMoreThanEntries(t, es[..|es| - 1], ids);
      hide Find;
    }
  }

  /** Named entries that make as many rows as there are entries have distinct names. */
  lemma {:induction false} AllNewIsDistinct<R(!new), E(!new)>(t: Table<R, E>, es: seq<E>, ids: nat -> string)
    requires Lawful(t) && (forall n :: 0 <= n < |es| ==> t.entryKey(es[n]) != "")
    requires |Pass(t, [], es, ids)| == |es|
    ensures DistinctNames(t, es)
  {
    if |es| > 0 {
      var front, last := es[..|es| - 1], es[|es| - 1];
      NoMoreThanEntries(t, front, ids);
      PassStep(t, [], es, ids);
      FoundAfter(t, [], front, ids, t.entryKey(last));
      hide Pass, Find, Lawful;
      AllNewIsDistinct(t, front, ids);
      forall m, n | 0 <= m < n < |es| ensures t.entryKey(es[m]) != t.entryKey(es[n]) {
        assert front[m] == es[m];
        if n < |front| {
          assert front[n] == es[n];
        }
      }
    }
  }

  // ----- Counting --------------------------------------------------------------------------------------

  /** How many entries the pass has inserted and updated. */
  function Inserted<R, E>(t: Table<R, E>, rows: seq<R>, es: seq<E>, ids: nat -> string): nat {
    if |es| == 0 then 0
    else
      var e, before := es[|es| - 1], Pass(t, rows, es[..|es| - 1], ids);
      Inserted(t, rows, es[..|es| - 1], ids)
        + (if t.entryKey(e) != "" && Find(t, before, t.entryKey(e)).None? then 1 else 0)
  }

  function Updated<R, E>(t: Table<R, E>, rows: seq<R>, es: seq<E>, ids: nat -> string): nat {
    if |es| == 0 then 0
    else
      var e, before := es[|es| - 1], Pass(t, rows, es[..|es| - 1], ids);
      Updated(t, rows, es[..|es| - 1], ids)
        + (if t.entryKey(e) != "" && Find(t, before, t.entryKey(e)).Some? then 1 else 0)
  }

  /** The entries that carry a name. */
  function NamedEntries<R, E>(t: Table<R, E>, es: seq<E>): nat {
    if |es| == 0 then 0 else NamedEntries(t, es[..|es| - 1]) + (if t.entryKey(es[|es| - 1]) != "" then 1 else 0)
  }

  /** Inserted is by how many rows the table has grown, and every other named entry is an update. */
  lemma {:induction false} RowsAreCounted<R, E>(t: Table<R, E>, rows: seq<R>, es: seq<E>, ids: nat -> string)
    ensures |Pass(t, rows, es, ids)| == |rows| + Inserted(t, rows, es, ids)
    ensures Inserted(t, rows, es, ids) + Updated(t, rows, es, ids) == NamedEntries(t, es)
  {
    if |es| > 0 {
      RowsAreCounted(t, rows, es[..|es| - 1], ids);
      hide Find;
    }
  }

  /** What a preview against the rows as they stand counts as new, and as an update. */
  function PlannedNew<R, E>(t: Table<R, E>, rows: seq<R>, es: seq<E>): nat {
    if |es| == 0 then 0
    else
      PlannedNew(t, rows, es[..|es| - 1])
      + (if t.entryKey(es[|es| - 1]) != "" && Find(t, rows, t.entryKey(es[|es| - 1])).None? then 1 else 0)
  }

  function PlannedUpdates<R, E>(t: Table<R, E>, rows: seq<R>, es: seq<E>): nat {
    if |es| == 0 then 0
    else
      PlannedUpdates(t, rows, es[..|es| - 1])
      + (if t.entryKey(es[|es| - 1]) != "" && Find(t, rows, t.entryKey(es[|es| - 1])).Some? then 1 else 0)
  }

  /** Entry `n` names something new that an earlier entry already named. */
  ghost predicate Repeats<R, E>(t: Table<R, E>, rows: seq<R>, es: seq<E>, n: nat) {
    && n < |es| && t.entryKey(es[n]) != "" && Find(t, rows, t.entryKey(es[n])).None?
    && exists m :: 0 <= m < n && t.entryKey(es[m]) == t.entryKey(es[n])
  }

  /** After the pass a name is found exactly when it was there before or some entry carries it. */
  lemma {:induction false} FoundAfter<R(!new), E(!new)>(t: Table<R, E>, rows: seq<R>, es: seq<E>, ids: nat -> string,
                                                        key: string)
    requires Lawful(t) && key != ""
    ensures Find(t, Pass(t, rows, es, ids), key).Some?
       <==> (Find(t, rows, key).Some? || exists m :: 0 <= m < |es| && t.entryKey(es[m]) == key)
  {
    if |es| > 0 {
      var front, last := es[..|es| - 1], es[|es| - 1];
      var before := Pass(t, rows, front, ids);
      FoundAfter(t, rows, front, ids, key);
      PutFound(t, before, last, ids(|es| - 1), key);
      PassStep(t, rows, es, ids);
      hide Pass, Put, Find, Lawful;
      assert (exists m :: 0 <= m < |es| && t.entryKey(es[m]) == key)
        <==> (t.entryKey(last) == key || exists m :: 0 <= m < |front| && t.entryKey(front[m]) == key) by {
        assert forall m :: 0 <= m < |front| ==> front[m] == es[m];
      }
    }
  }

  lemma PutFound<R(!new), E(!new)>(t: Table<R, E>, rows: seq<R>, e: E, id: string, key: string)
    requires Lawful(t) && key != ""
    ensures Find(t, Put(t, rows, e, id), key).Some? <==> Find(t, rows, key).Some? || t.entryKey(e) == key
  {
    if Find(t, rows, key).Some? {
      PutFinds(t, rows, e, id, key);
    } else if t.entryKey(e) == key {
      PutSettles(t, rows, e, id);
    } else {
      var after := Put(t, rows, e, id);
      var i := Find(t, after, key);
      hide Find;
      if i.Some? {
        PutOthers(t, rows, e, id, i.value);
      }
    }
  }

  lemma PutOthers<R(!new), E(!new)>(t: Table<R, E>, rows: seq<R>, e: E, id: string, i: nat)
    requires Lawful(t) && i < |Put(t, rows, e, id)|
    ensures t.rowKey(Put(t, rows, e, id)[i]) == t.entryKey(e)
      || (i < |rows| && t.rowKey(Put(t, rows, e, id)[i]) == t.rowKey(rows[i]))
  {
    hide Find;
  }

  /** The preview counts every named entry, and so does the pass; they agree on how many are new exactly
      when no entry repeats a new name. */
  lemma {:induction false} PlanIsRight<R(!new), E(!new)>(t: Table<R, E>, rows: seq<R>, es: seq<E>, ids: nat -> string)
    requires Lawful(t)
    ensures Inserted(t, rows, es, ids) + Updated(t, rows, es, ids)
      == PlannedNew(t, rows, es) + PlannedUpdates(t, rows, es)
    ensures Inserted(t, rows, es, ids) <= PlannedNew(t, rows, es)
    ensures Inserted(t, rows, es, ids) == PlannedNew(t, rows, es)
      <==> (forall n :: 0 <= n < |es| ==> !Repeats(t, rows, es, n))
  {
    if |es| > 0 {
      var front, last := es[..|es| - 1], es[|es| - 1];
      PlanIsRight(t, rows, front, ids);
      if t.entryKey(last) != "" {
        FoundAfter(t, rows, front, ids, t.entryKey(last));
      }
      CountStep(t, rows, es, ids);
      RepeatsStep(t, rows, es);
      hide Inserted, Updated, PlannedNew, PlannedUpdates, Find, Pass, Lawful, Repeats;
    }
  }

  lemma RepeatsStep<R, E>(t: Table<R, E>, rows: seq<R>, es: seq<E>)
    requires |es| > 0
    ensures var front, last := es[..|es| - 1], es[|es| - 1];
      && (forall n :: 0 <= n < |front| ==> Repeats(t, rows, front, n) == Repeats(t, rows, es, n))
      && (Repeats(t, rows, es, |es| - 1) <==>
            t.entryKey(last) != "" && Find(t, rows, t.entryKey(last)).None?
              && exists m :: 0 <= m < |front| && t.entryKey(front[m]) == t.entryKey(last))
  {
    hide Find;
    var front := es[..|es| - 1];
    assert forall n :: 0 <= n < |front| ==> front[n] == es[n];
  }

  lemma CountStep<R, E>(t: Table<R, E>, rows: seq<R>, es: seq<E>, ids: nat -> string)
    requires |es| > 0
    ensures var front, e := es[..|es| - 1], es[|es| - 1];
      var before, named := Pass(t, rows, front, ids), t.entryKey(e) != "";
      && Inserted(t, rows, es, ids)
        == Inserted(t, rows, front, ids) + (if named && Find(t, before, t.entryKey(e)).None? then 1 else 0)
      && Updated(t, rows, es, ids)
        == Updated(t, rows, front, ids) + (if named && Find(t, before, t.entryKey(e)).Some? then 1 else 0)
      && PlannedNew(t, rows, es)
        == PlannedNew(t, rows, front) + (if named && Find(t, rows, t.entryKey(e)).None? then 1 else 0)
      && PlannedUpdates(t, rows, es)
        == PlannedUpdates(t, rows, front) + (if named && Find(t, rows, t.entryKey(e)).Some? then 1 else 0)
  {
    hide Find;
  }

  /** The next entry of a list, for a loop that takes one after the other. */
  lemma PrefixStep<R, E>(t: Table<R, E>, rows: seq<R>, es: seq<E>, ids: nat -> string, n: nat)
    requires n < |es|
    ensures var before, named := Pass(t, rows, es[..n], ids), t.entryKey(es[n]) != "";
      && Pass(t, rows, es[..n + 1], ids) == Put(t, before, es[n], ids(n))
      && Inserted(t, rows, es[..n + 1], ids)
           == Inserted(t, rows, es[..n], ids) + (if named && Find(t, before, t.entryKey(es[n])).None? then 1 else 0)
      && Updated(t, rows, es[..n + 1], ids)
           == Updated(t, rows, es[..n], ids) + (if named && Find(t, before, t.entryKey(es[n])).Some? then 1 else 0)
  {
    assert es[..n + 1][..n] == es[..n];
    PassStep(t, rows, es[..n + 1], ids);
    CountStep(t, rows, es[..n + 1], ids);
    hide Pass, Put, Find, Inserted, Updated;
  }

  lemma NoEntries<R, E>(t: Table<R, E>, rows: seq<R>, es: seq<E>, ids: nat -> string)
    ensures Pass(t, rows, es[..0], ids) == rows && Inserted(t, rows, es[..0], ids) == 0
      && Updated(t, rows, es[..0], ids) == 0
    ensures Try(t, rows, es[..0], ids) == Some(rows) && es[..|es|] == es
  {}

  // ----- What the database refuses -----------------------------------------------------------------------

  /** A pass that is not refused is the pass. */
  lemma {:induction false} TryIsPass<R, E>(t: Table<R, E>, rows: seq<R>, es: seq<E>, ids: nat -> string)
    ensures Try(t, rows, es, ids).Some? ==> Try(t, rows, es, ids).value == Pass(t, rows, es, ids)
  {
    if |es| > 0 {
      TryIsPass(t, rows, es[..|es| - 1], ids);
      hide Find;
    }
  }

  ghost predicate AllWritable<R, E>(t: Table<R, E>, es: seq<E>) {
    forall n :: 0 <= n < |es| && t.entryKey(es[n]) != "" ==> t.writable(es[n])
  }

  /** Each new row keeps the unique keys when its turn comes. */
  ghost predicate AllFit<R, E>(t: Table<R, E>, rows: seq<R>, es: seq<E>, ids: nat -> string) {
    forall n: nat :: n < |es| ==> FitsAt(t, rows, es, ids, n)
  }

  ghost predicate FitsAt<R, E>(t: Table<R, E>, rows: seq<R>, es: seq<E>, ids: nat -> string, n: nat)
    requires n < |es|
  {
    var before := Pass(t, rows, es[..n], ids);
    t.entryKey(es[n]) != "" && Find(t, before, t.entryKey(es[n])).None? ==> t.fits(before, t.make(es[n], ids(n)))
  }

  lemma FrontFits<R, E>(t: Table<R, E>, rows: seq<R>, es: seq<E>, ids: nat -> string)
    requires |es| > 0 && AllFit(t, rows, es, ids)
    ensures AllFit(t, rows, es[..|es| - 1], ids) && FitsAt(t, rows, es, ids, |es| - 1)
  {
    var front := es[..|es| - 1];
    hide Pass, Find;
    forall n: nat | n < |front| ensures FitsAt(t, rows, front, ids, n) {
      assert FitsAt(t, rows, es, ids, n);
      assert front[..n] == es[..n];
    }
  }

  /** As long as the new rows keep the unique keys, a pass is refused exactly for a named entry that leaves
      a column empty. */
  lemma {:induction false} TryGoesThrough<R, E>(t: Table<R, E>, rows: seq<R>, es: seq<E>, ids: nat -> string)
    requires AllFit(t, rows, es, ids)
    ensures Try(t, rows, es, ids).Some? <==> AllWritable(t, es)
  {
    if |es| > 0 {
      var front, last := es[..|es| - 1], es[|es| - 1];
      assert es == front + [last];
      FrontFits(t, rows, es, ids);
      TryGoesThrough(t, rows, front, ids);
      TryIsPass(t, rows, front, ids);
      hide Find, Pass, AllFit;
    }
  }

  /** An entry that leaves a column empty always stops the pass. */
  lemma {:induction false} EmptyColumnRefuses<R, E>(t: Table<R, E>, rows: seq<R>, es: seq<E>, ids: nat -> string,
                                                    n: nat)
    requires n < |es| && t.entryKey(es[n]) != "" && !t.writable(es[n])
    ensures Try(t, rows, es, ids).None?
  {
    if n < |es| - 1 {
      EmptyColumnRefuses(t, rows, es[..|es| - 1], ids, n);
    }
    hide Find;
  }

  lemma CommittedIsWritable<R, E>(t: Table<R, E>, rows: seq<R>, es: seq<E>, ids: nat -> string)
    requires Try(t, rows, es, ids).Some?
    ensures AllWritable(t, es)
  {
    forall n | 0 <= n < |es| && t.entryKey(es[n]) != "" ensures t.writable(es[n]) {
      if !t.writable(es[n]) {
        EmptyColumnRefuses(t, rows, es, ids, n);
      }
    }
  }

  /** What went through goes through again and changes nothing. */
  lemma TryTwice<R(!new), E(!new)>(t: Table<R, E>, rows: seq<R>, es: seq<E>, ids: nat -> string, again: nat -> string)
    requires Lawful(t) && Try(t, rows, es, ids).Some?
    ensures var once := Try(t, rows, es, ids).value; Try(t, once, es, again) == Some(once)
  {
    var once := Try(t, rows, es, ids).value;
    TryIsPass(t, rows, es, ids);
    CommittedIsWritable(t, rows, es, ids);
    hide Try, Pass, Find, Lawful, LastOf, AllWritable;
    forall n: nat | n < |es| ensures FitsAt(t, once, es, again, n) {
      var key := t.entryKey(es[n]);
      if key != "" {
        Settled(t, rows, es, ids, key);
        RowAfter(t, once, es[..n], again, Find(t, once, key).value);
      }
    }
    hide FitsAt;
    TryGoesThrough(t, once, es, again);
    TryIsPass(t, once, es, again);
    PassTwice(t, rows, es, ids, again);
  }

  lemma TryStep<R, E>(t: Table<R, E>, rows: seq<R>, es: seq<E>, ids: nat -> string, n: nat)
    requires n < |es|
    ensures var before := Try(t, rows, es[..n], ids);
      Try(t, rows, es[..n + 1], ids) == if before.None? then None else TryPut(t, before.value, es[n], ids(n))
  {
    assert es[..n + 1][..n] == es[..n];
    hide TryPut;
  }

  /** Once refused, refused for good. */
  lemma {:induction false} StaysRefused<R, E>(t: Table<R, E>, rows: seq<R>, es: seq<E>, ids: nat -> string, n: nat)
    requires n <= |es| && Try(t, rows, es[..n], ids).None?
    ensures Try(t, rows, es, ids).None?
    decreases |es| - n
  {
    if n == |es| {
      assert es[..n] == es;
    } else {
      TryStep(t, rows, es, ids, n);
      hide Try;
      StaysRefused(t, rows, es, ids, n + 1);
    }
  }

  // ----- Unique keys -------------------------------------------------------------------------------------------

  /** Names are told by their key: rows of one exact name have one key. */
  lemma {:induction false} ExactNamesStayUnique<R(!new), E(!new)>(t: Table<R, E>, rows: seq<R>, es: seq<E>,
                                                                  ids: nat -> string, nameOf: R -> string)
    requires Lawful(t)
    requires forall r, e :: nameOf(t.update(r, e)) == nameOf(r)
    requires forall q, r :: nameOf(q) == nameOf(r) ==> t.rowKey(q) == t.rowKey(r)
    requires forall i, j :: 0 <= i < j < |rows| ==> nameOf(rows[i]) != nameOf(rows[j])
    ensures var after := Pass(t, rows, es, ids);
      forall i, j :: 0 <= i < j < |after| ==> nameOf(after[i]) != nameOf(after[j])
  {
    if |es| > 0 {
      var before, last := Pass(t, rows, es[..|es| - 1], ids), es[|es| - 1];
      ExactNamesStayUnique(t, rows, es[..|es| - 1], ids, nameOf);
      PassStep(t, rows, es, ids);
      hide Pass, Find;
    }
  }

  /** A fresh id is not in use when its turn comes. */
  lemma FreshAtItsTurn<R(!new), E(!new)>(t: Table<R, E>, rows: seq<R>, es: seq<E>, ids: nat -> string,
                                         idOf: R -> string, n: nat)
    requires n < |es|
    requires forall r, e :: idOf(t.update(r, e)) == idOf(r)
    requires forall e, id :: idOf(t.make(e, id)) == id
    requires forall i, j :: 0 <= i < j < |rows| ==> idOf(rows[i]) != idOf(rows[j])
    requires forall m: nat, k: nat :: ids(m) == ids(k) ==> m == k
    requires forall i, k: nat :: 0 <= i < |rows| ==> idOf(rows[i]) != ids(k)
    ensures forall r :: r in Pass(t, rows, es[..n], ids) ==> idOf(r) != ids(n)
  {
    IdsStayUnique(t, rows, es[..n], ids, idOf);
    hide Pass;
  }
}
