/** The table of scheduled maintenance: every task stores its next run, which moves forward when the
    task starts and is computed again when its schedule changes or it is switched back on. */
module SystemTasks {
  import opened Wrappers
  import opened Schedule

  const MAX_OUTPUT_CHARS := 4000

  datatype Status = Ok | Error | Running

  datatype Row = Row(name: string, target: string, schedule: Schedule, enabled: bool, nextRun: int,
                     lastRun: Option<int>, status: Option<Status>, output: Option<string>)

  /** The fields a change may leave out. */
  datatype Change = Change(name: Option<string>, target: Option<string>, frequency: Option<Frequency>,
                           hour: Option<int>, minute: Option<int>, weekday: Option<int>, dayOfMonth: Option<int>,
                           enabled: Option<bool>)

  function Or<T>(o: Option<T>, otherwise: T): T { if o.Some? then o.value else otherwise }

  function Changed(s: Schedule, f: Change): Schedule {
    Schedule(Or(f.frequency, s.frequency), Or(f.hour, s.hour), Or(f.minute, s.minute), Or(f.weekday, s.weekday),
             Or(f.dayOfMonth, s.dayOfMonth))
  }

  function Created(name: string, target: string, s: Schedule, enabled: bool, now: int): Row
    requires ValidSchedule(s)
  {
    Row(name, target, s, enabled, NextTime(s, now), None, None, None)
  }

  /** Armed again only when the schedule moved or a disabled task is switched back on. */
  predicate ReArms(r: Row, f: Change) {
    Changed(r.schedule, f) != r.schedule || (f.enabled == Some(true) && !r.enabled)
  }

  function Updated(r: Row, f: Change, now: int): Row
    requires ValidSchedule(Changed(r.schedule, f))
  {
    var s := Changed(r.schedule, f);
    r.(name := Or(f.name, r.name), target := Or(f.target, r.target), schedule := s, enabled := Or(f.enabled, r.enabled),
       nextRun := if ReArms(r, f) then NextTime(s, now) else r.nextRun)
  }

  predicate Due(r: Row, now: int) { r.enabled && r.nextRun <= now }

  function Started(r: Row, now: int): Row
    requires ValidSchedule(r.schedule)
  {
    r.(lastRun := Some(now), status := Some(Running), output := None, nextRun := NextTime(r.schedule, now))
  }

  function Finished(r: Row, status: Status, output: string): Row {
    r.(status := Some(status),
       output := Some(if |output| <= MAX_OUTPUT_CHARS then output else output[..MAX_OUTPUT_CHARS]))
  }

  const INTERRUPTED := "Interrupted - OpenNAS restarted while this was running."

  function Cleared(r: Row): Row {
    if r.status == Some(Running) then r.(status := Some(Error), output := Some(INTERRUPTED)) else r
  }

  // ----- What an operation writes, column by column ---------------------------------------------------

  predicate Takes<T(==)>(asked: Option<T>, was: T, now: T) {
    match asked
    case Some(value) => now == value
    case None => now == was
  }

  /** What is left out of a change stays; the next run moves only when the schedule did or the task was off and is
      switched on, and then to the first occurrence from now on. */
  ghost predicate Changes(r: Row, f: Change, now: int, q: Row) {
    && Takes(f.name, r.name, q.name) && Takes(f.target, r.target, q.target) && Takes(f.enabled, r.enabled, q.enabled)
    && Takes(f.frequency, r.schedule.frequency, q.schedule.frequency)
    && Takes(f.hour, r.schedule.hour, q.schedule.hour) && Takes(f.minute, r.schedule.minute, q.schedule.minute)
    && Takes(f.weekday, r.schedule.weekday, q.schedule.weekday)
    && Takes(f.dayOfMonth, r.schedule.dayOfMonth, q.schedule.dayOfMonth)
    && (q.lastRun, q.status, q.output) == (r.lastRun, r.status, r.output)
    && (if q.schedule == r.schedule && (r.enabled || f.enabled != Some(true)) then q.nextRun == r.nextRun
        else ValidSchedule(q.schedule) && IsNext(q.schedule, now, q.nextRun))
  }

  lemma UpdatedIs(r: Row, f: Change, now: int)
    requires ValidSchedule(Changed(r.schedule, f))
    ensures Changes(r, f, now, Updated(r, f, now))
  {
    NextTimeIsNext(Changed(r.schedule, f), now);
    hide NextTime, IsNext;
  }

  /** Starting notes the moment, forgets the last output and arms the task for the next occurrence. */
  lemma StartedIs(r: Row, now: int)
    requires ValidSchedule(r.schedule)
    ensures var q := Started(r, now);
      && (q.name, q.target, q.schedule, q.enabled) == (r.name, r.target, r.schedule, r.enabled)
      && (q.lastRun, q.status, q.output) == (Some(now), Some(Running), None)
      && IsNext(r.schedule, now, q.nextRun)
  {
    NextTimeIsNext(r.schedule, now);
    hide NextTime, IsNext;
  }

  // ----- The table -------------------------------------------------------------------------------

  /** Every stored next run is an occurrence of the task's present schedule. */
  ghost predicate ValidRow(r: Row) {
    ValidSchedule(r.schedule) && Occurs(r.schedule, r.nextRun)
  }

  ghost predicate ValidRows(rows: map<string, Row>) {
    forall id :: id in rows ==> ValidRow(rows[id])
  }

  /** What POST /tasks/:id/run answers. */
  datatype Reply = NotFound | Busy | Accepted

  class TaskTable {
    var rows: map<string, Row>

    ghost predicate Valid()
      reads this
    {
      ValidRows(rows)
    }

    constructor ()
      ensures Valid() && rows == map[]
    {
      rows := map[];
    }

    method CreateSystemTask(id: string, name: string, target: string, s: Schedule, enabled: bool, now: int)
      requires Valid() && ValidSchedule(s) && id !in rows
      modifies this
      ensures Valid() && rows == old(rows)[id := Created(name, target, s, enabled, now)]
      ensures IsNext(s, now, rows[id].nextRun)
      ensures rows[id] == Row(name, target, s, enabled, rows[id].nextRun, None, None, None)
    {
      NextTimeIsNext(s, now);
      hide NextTime, Occurs;
      var next := NextRun(s, now);
      rows := rows[id := Row(name, target, s, enabled, next, None, None, None)];
    }

    method UpdateSystemTask(id: string, f: Change, now: int) returns (found: bool)
      requires Valid() && (id in rows ==> ValidSchedule(Changed(rows[id].schedule, f)))
      modifies this
      ensures Valid() && found == (id in old(rows))
      ensures rows == if found then old(rows)[id := Updated(old(rows)[id], f, now)] else old(rows)
      ensures found ==> Changes(old(rows)[id], f, now, rows[id])
    {
      hide NextTime, Occurs;
      if id !in rows {
        return false;
      }
      var current := rows[id];
      var s := Changed(current.schedule, f);
      UpdatedIs(current, f, now);
      hide Changes;
      var next := current.nextRun;
      if s != current.schedule || (f.enabled == Some(true) && !current.enabled) {
        next := NextRun(s, now);
      }
      rows := rows[id := current.(name := Or(f.name, current.name), target := Or(f.target, current.target),
                                  schedule := s,
                                  enabled := Or(f.enabled, current.enabled), nextRun := next)];
      found := true;
    }

    method DeleteSystemTask(id: string) returns (found: bool)
      requires Valid()
      modifies this
      ensures Valid() && rows == old(rows) - {id} && found == (id in old(rows))
    {
      found := id in rows;
      rows := rows - {id};
    }

    method MarkTaskStarted(id: string, now: int)
      requires Valid()
      modifies this
      ensures Valid()
      ensures rows == if id in old(rows) then old(rows)[id := Started(old(rows)[id], now)] else old(rows)
    {
      hide NextTime, Occurs;
      if id in rows {
        var next := NextRun(rows[id].schedule, now);
        rows := rows[id := rows[id].(lastRun := Some(now), status := Some(Running), output := None, nextRun := next)];
      }
    }

    /** Run a task now: nothing is started while it is running already. */
    method RunTaskNow(id: string, now: int) returns (r: Reply)
      requires Valid()
      modifies this
      ensures Valid()
      ensures r == NotFound <==> id !in old(rows)
      ensures r == Busy <==> id in old(rows) && old(rows)[id].status == Some(Running)
      ensures rows == if r == Accepted then old(rows)[id := Started(old(rows)[id], now)] else old(rows)
    {
      if id !in rows {
        return NotFound;
      }
      if rows[id].status == Some(Running) {
        return Busy;
      }
      MarkTaskStarted(id, now);
      r := Accepted;
    }

    method MarkTaskFinished(id: string, status: Status, output: string)
      requires Valid()
      modifies this
      ensures Valid()
      ensures rows == if id in old(rows) then old(rows)[id := Finished(old(rows)[id], status, output)] else old(rows)
      ensures id in rows ==>
        rows[id] == old(rows)[id].(status := Some(status),
                                   output := Some(if |output| > 4000 then output[..4000] else output))
    {
      hide NextTime, Occurs;
      if id in rows {
        rows := rows[id := Finished(rows[id], status, output)];
      }
    }

    method ClearInterruptedTasks()
      requires Valid()
      modifies this
      ensures Valid()
      ensures rows == map id | id in old(rows) :: Cleared(old(rows)[id])
      ensures forall id :: id in rows ==>
        var r := old(rows)[id];
        if r.status != Some(Running) then rows[id] == r
        else rows[id] == r.(status := Some(Error),
                            output := Some("Interrupted - OpenNAS restarted while this was running."))
    {
      hide NextTime, Occurs;
      rows := map id | id in rows :: Cleared(rows[id]);
    }
  }

  // ----- What being due means ------------------------------------------------------------------------

  /** A task armed at some moment is due exactly when its schedule has come round since. */
  lemma DueMeansComeRound(r: Row, armed: int, now: int)
    requires ValidSchedule(r.schedule) && r.nextRun == NextTime(r.schedule, armed) && r.enabled
    ensures Due(r, now) <==> exists u :: armed < u <= now && Occurs(r.schedule, u)
  {
    NextTimeIsNext(r.schedule, armed);
    hide NextTime, Occurs;
  }

  /** A task just started is not due again until its schedule comes round once more. */
  lemma StartedIsNotDue(r: Row, started: int, now: int)
    requires ValidSchedule(r.schedule)
    ensures Due(Started(r, started), now) <==> r.enabled && exists u :: started < u <= now && Occurs(r.schedule, u)
    ensures Due(Started(r, started), now) ==> started < now
  {
    if r.enabled {
      DueMeansComeRound(Started(r, started), started, now);
    }
    hide NextTime, Occurs;
  }

  /** Renaming or re-targeting a task, or sending the schedule it already has, never moves its run. */
  lemma SameScheduleKeepsRun(r: Row, f: Change, now: int)
    requires Changed(r.schedule, f) == r.schedule && ValidSchedule(r.schedule)
      && (f.enabled.None? || f.enabled.value == r.enabled)
    ensures Updated(r, f, now).nextRun == r.nextRun
    ensures forall t :: Due(Updated(r, f, now), t) <==> Due(r, t)
  {}

  /** A task switched off while its time came round does not run late when it is switched on again. */
  lemma NoCatchingUp(r: Row, f: Change, now: int)
    requires ValidSchedule(Changed(r.schedule, f)) && !r.enabled && f.enabled == Some(true)
    ensures !Due(Updated(r, f, now), now)
  {
    NextTimeIsNext(Changed(r.schedule, f), now);
    hide NextTime, Occurs;
  }

  /** Running a task by hand leaves its schedule alone exactly while the stored run is still to come;
      a run that was due and not yet started is skipped. */
  lemma RunNowKeepsSchedule(r: Row, now: int)
    requires ValidRow(r) && r.nextRun <= NextTime(r.schedule, now)
    ensures Started(r, now).nextRun == r.nextRun <==> now < r.nextRun
  {
    NextTimeIsNext(r.schedule, now);
    hide NextTime, Occurs;
  }

  /** A task of three o'clock every night, due since the last of them and started by hand at half past: its
      run is put off to the next night. */
  lemma DueRunIsSkipped(r: Row)
    requires r.schedule == Schedule(Daily, 3, 0, 0, 1) && r.nextRun == 10_800_000 && r.enabled
    ensures ValidRow(r) && Due(r, 12_600_000)
    ensures Started(r, 12_600_000).nextRun == r.nextRun + 86_400_000
  {
    var s, next := r.schedule, NextTime(r.schedule, 12_600_000);
    assert ValidSchedule(s) && TimeOf(s) == 10_800_000;
    assert Occurs(s, 10_800_000) && Occurs(s, 97_200_000);
    assert forall u :: 12_600_000 < u < 97_200_000 ==> !Occurs(s, u);
    NextTimeIsNext(s, 12_600_000);
    hide NextTime, Occurs;
    assert next == 97_200_000;
  }

  // ----- Runs over time --------------------------------------------------------------------------------

  datatype Input =
    | Create(id: string, name: string, target: string, schedule: Schedule, enabled: bool)
    | Update(id: string, change: Change)
    | Delete(id: string)
    | Start(id: string)
    | RunNow(id: string)
    | Finish(id: string, status: Status, output: string)
    | Restart

  /** A task started, with the schedule it had, by the timer or by hand. */
  datatype Ran = Ran(id: string, schedule: Schedule, at: int, timed: bool)

  datatype Run = Run(rows: map<string, Row>, log: seq<Ran>)

  predicate Allowed(rows: map<string, Row>, log: seq<Ran>, input: Input) {
    match input
    case Create(id, _, _, s, _) => ValidSchedule(s) && id !in rows && forall n :: 0 <= n < |log| ==> log[n].id != id
    case Update(id, f) => id in rows ==> ValidSchedule(Changed(rows[id].schedule, f))
    case _ => true
  }

  predicate ValidSchedules(rows: map<string, Row>) {
    forall id :: id in rows ==> ValidSchedule(rows[id].schedule)
  }

  function Launch(r: Run, id: string, now: int, timed: bool): Run
    requires id in r.rows && ValidSchedule(r.rows[id].schedule)
  {
    Run(r.rows[id := Started(r.rows[id], now)], r.log + [Ran(id, r.rows[id].schedule, now, timed)])
  }

  /** The timer starts a task only when it finds it due; by hand any task may be started, due or not and
      enabled or not, unless it is running. */
  function Step(r: Run, input: Input, now: int): Run
    requires ValidSchedules(r.rows) && Allowed(r.rows, r.log, input)
  {
    match input
    case Create(id, name, target, s, enabled) => r.(rows := r.rows[id := Created(name, target, s, enabled, now)])
    case Update(id, f) => if id in r.rows then r.(rows := r.rows[id := Updated(r.rows[id], f, now)]) else r
    case Delete(id) => r.(rows := r.rows - {id})
    case Start(id) => if id in r.rows && Due(r.rows[id], now) then Launch(r, id, now, true) else r
    case RunNow(id) => if id in r.rows && r.rows[id].status != Some(Running) then Launch(r, id, now, false) else r
    case Finish(id, status, output) =>
      if id in r.rows then r.(rows := r.rows[id := Finished(r.rows[id], status, output)]) else r
    case Restart => r.(rows := map id | id in r.rows :: Cleared(r.rows[id]))
  }

  ghost predicate ComesRound(s: Schedule, after: int, upTo: int)
    requires ValidSchedule(s)
  {
    exists u :: after < u <= upTo && Occurs(s, u)
  }

  /** Between a start and a later one by the timer, the schedule of the later start came round. */
  ghost predicate Spaced(log: seq<Ran>) {
    forall i, j :: 0 <= i < j < |log| && log[i].id == log[j].id && log[j].timed ==>
      ValidSchedule(log[j].schedule) && ComesRound(log[j].schedule, log[i].at, log[j].at)
  }

  /** The next run lies after every start so far. */
  ghost predicate Ahead(rows: map<string, Row>, log: seq<Ran>) {
    forall id, n :: id in rows && 0 <= n < |log| && log[n].id == id ==> log[n].at < rows[id].nextRun
  }

  ghost predicate Past(log: seq<Ran>, now: int) {
    forall n :: 0 <= n < |log| ==> log[n].at <= now
  }

  /** No row was armed further ahead than it would be now. */
  ghost predicate Near(rows: map<string, Row>, now: int)
    requires ValidSchedules(rows)
  {
    forall id :: id in rows ==> rows[id].nextRun <= NextTime(rows[id].schedule, now)
  }

  /** The time of the last run is that of the last start. */
  ghost predicate LastKnown(rows: map<string, Row>, log: seq<Ran>) {
    forall id :: id in rows ==> IsLastStart(rows[id].lastRun, log, id)
  }

  ghost predicate IsLastStart(last: Option<int>, log: seq<Ran>, id: string) {
    && (forall n :: 0 <= n < |log| && log[n].id == id ==> last.Some? && log[n].at <= last.value)
    && (last.Some? ==> exists n :: 0 <= n < |log| && log[n].id == id && log[n].at == last.value)
  }

  ghost predicate Inv(r: Run, now: int) {
    && ValidRows(r.rows) && Spaced(r.log) && Ahead(r.rows, r.log) && Past(r.log, now)
    && Near(r.rows, now) && LastKnown(r.rows, r.log)
  }

  lemma RowKeeps(r: Run, id: string, row: Row, now: int)
    requires Inv(r, now) && ValidRow(row)
    requires now < row.nextRun || (id in r.rows && row.nextRun == r.rows[id].nextRun)
    requires row.nextRun <= NextTime(row.schedule, now)
    requires IsLastStart(row.lastRun, r.log, id)
    ensures Inv(r.(rows := r.rows[id := row]), now)
  {
    hide Spaced, ValidRow, IsLastStart, NextTime;
  }

  lemma LogKeeps(r: Run, id: string, now: int, timed: bool)
    requires Inv(r, now) && id in r.rows && (timed ==> Due(r.rows[id], now))
    ensures ValidSchedule(r.rows[id].schedule) && Spaced(Launch(r, id, now, timed).log)
  {
    var row := r.rows[id];
    var log := Launch(r, id, now, timed).log;
    hide NextTime, Occurs, Near, LastKnown;
    forall i, j | 0 <= i < j < |log| && log[i].id == log[j].id && log[j].timed
      ensures ValidSchedule(log[j].schedule) && ComesRound(log[j].schedule, log[i].at, log[j].at)
    {
      if j == |r.log| {
        assert r.log[i].at < row.nextRun <= now;
      }
    }
  }

  lemma LastStartStays(last: Option<int>, log: seq<Ran>, id: string, e: Ran)
    requires IsLastStart(last, log, id) && e.id != id
    ensures IsLastStart(last, log + [e], id)
  {
    if last.Some? {
      var n :| 0 <= n < |log| && log[n].id == id && log[n].at == last.value;
      assert (log + [e])[n] == log[n];
    }
  }

  lemma LastStartMoves(log: seq<Ran>, e: Ran)
    requires Past(log, e.at)
    ensures IsLastStart(Some(e.at), log + [e], e.id)
  {
    assert (log + [e])[|log|] == e;
  }

  lemma LaunchKeeps(r: Run, id: string, now: int, timed: bool)
    requires Inv(r, now) && id in r.rows && (timed ==> Due(r.rows[id], now))
    ensures ValidSchedule(r.rows[id].schedule) && Inv(Launch(r, id, now, timed), now)
  {
    var after, e := Launch(r, id, now, timed), Ran(id, r.rows[id].schedule, now, timed);
    LogKeeps(r, id, now, timed);
    ArmedAhead(r.rows[id].schedule, now);
    LastStartMoves(r.log, e);
    hide NextTime, Occurs, Spaced, IsLastStart;
    forall other | other in after.rows ensures IsLastStart(after.rows[other].lastRun, after.log, other) {
      if other != id {
        LastStartStays(r.rows[other].lastRun, r.log, other, e);
      }
    }
  }

  lemma ArmedAhead(s: Schedule, now: int)
    requires ValidSchedule(s)
    ensures now < NextTime(s, now) && Occurs(s, NextTime(s, now))
  {
    NextTimeIsNext(s, now);
  }

  lemma NeverStarted(log: seq<Ran>, id: string)
    requires forall n :: 0 <= n < |log| ==> log[n].id != id
    ensures IsLastStart(None, log, id)
  {}

  lemma FewerRows(r: Run, id: string, now: int)
    requires Inv(r, now)
    ensures Inv(r.(rows := r.rows - {id}), now)
  {
    hide Spaced, ValidRow, IsLastStart, NextTime;
  }

  lemma ClearKeeps(r: Run, now: int)
    requires Inv(r, now)
    ensures Inv(r.(rows := map id | id in r.rows :: Cleared(r.rows[id])), now)
  {
    hide Spaced, IsLastStart, NextTime, Occurs;
  }

  lemma StepKeeps(r: Run, input: Input, now: int)
    requires Inv(r, now) && Allowed(r.rows, r.log, input)
    ensures ValidSchedules(r.rows) && Inv(Step(r, input, now), now)
  {
    hide NextTime, Occurs, Spaced, Past, Ahead, IsLastStart;
    match input {
      case Create(id, name, target, s, enabled) =>
        ArmedAhead(s, now);
        NeverStarted(r.log, id);
        RowKeeps(r, id, Created(name, target, s, enabled, now), now);
      case Update(id, f) =>
        if id in r.rows {
          ArmedAhead(Changed(r.rows[id].schedule, f), now);
          RowKeeps(r, id, Updated(r.rows[id], f, now), now);
        }
      case Delete(id) => FewerRows(r, id, now);
      case Start(id) =>
        if id in r.rows && Due(r.rows[id], now) {
          LaunchKeeps(r, id, now, true);
        }
      case RunNow(id) =>
        if id in r.rows && r.rows[id].status != Some(Running) {
          LaunchKeeps(r, id, now, false);
        }
      case Finish(id, status, output) =>
        if id in r.rows {
          RowKeeps(r, id, Finished(r.rows[id], status, output), now);
        }
      case Restart => ClearKeeps(r, now);
    }
  }

  lemma TimePasses(r: Run, now: int, later: int)
    requires Inv(r, now) && now <= later
    ensures Inv(r, later)
  {
    forall id | id in r.rows ensures r.rows[id].nextRun <= NextTime(r.rows[id].schedule, later) {
      NextIsMonotone(r.rows[id].schedule, now, later);
    }
    hide NextTime, Occurs, Spaced, Ahead, LastKnown;
  }

  /** A run: what happened, at which moment. */
  ghost predicate Reaches(trace: seq<(Input, int)>, r: Run)
    decreases |trace|
  {
    if |trace| == 0 then r == Run(map[], [])
    else
      var n := |trace| - 1;
      exists before :: Reaches(trace[..n], before) && Steps(before, trace[n].0, trace[n].1, r)
  }

  ghost predicate Steps(before: Run, input: Input, now: int, after: Run) {
    ValidSchedules(before.rows) && Allowed(before.rows, before.log, input) && after == Step(before, input, now)
  }

  /** The clock never goes back, and has not gone past `now`. */
  predicate Ordered(trace: seq<(Input, int)>, now: int) {
    && (forall i, j :: 0 <= i < j < |trace| ==> trace[i].1 <= trace[j].1)
    && (forall i :: 0 <= i < |trace| ==> trace[i].1 <= now)
  }

  lemma {:induction false} EveryRun(trace: seq<(Input, int)>, r: Run, now: int)
    requires Reaches(trace, r) && Ordered(trace, now)
    ensures Inv(r, now)
    decreases |trace|
  {
    if |trace| > 0 {
      var n := |trace| - 1;
      hide Inv, Steps;
      var before :| Reaches(trace[..n], before) && Steps(before, trace[n].0, trace[n].1, r);
      EveryRun(trace[..n], before, trace[n].1);
      StepsKeep(before, trace[n].0, trace[n].1, r);
      TimePasses(r, trace[n].1, now);
    } else {
      EmptyRun(now);
    }
  }

  lemma EmptyRun(now: int)
    ensures Inv(Run(map[], []), now)
  {}

  lemma StepsKeep(before: Run, input: Input, now: int, after: Run)
    requires Inv(before, now) && Steps(before, input, now, after)
    ensures Inv(after, now)
  {
    hide Inv, Step, Allowed;
    StepKeeps(before, input, now);
  }

  /** However a task is started, by the timer or by hand, finished, edited, switched off and on, and whenever
      the box restarts: between any start of it and a later one by the timer its schedule came round. */
  lemma RunsAreSpaced(trace: seq<(Input, int)>, r: Run, now: int, i: nat, j: nat)
    requires Reaches(trace, r) && Ordered(trace, now)
    requires i < j < |r.log| && r.log[i].id == r.log[j].id && r.log[j].timed
    ensures ValidSchedule(r.log[j].schedule)
    ensures exists u :: r.log[i].at < u <= r.log[j].at && Occurs(r.log[j].schedule, u)
  {
    EveryRun(trace, r, now);
    hide Reaches, Occurs;
    assert ComesRound(r.log[j].schedule, r.log[i].at, r.log[j].at);
  }

  // ----- When a start keeps its distance ----------------------------------------------------------------

  /** A start of the task at this moment comes after an occurrence since every start so far. */
  ghost predicate KeepsDistance(log: seq<Ran>, id: string, s: Schedule, now: int)
    requires ValidSchedule(s)
  {
    forall n :: 0 <= n < |log| && log[n].id == id ==> ComesRound(s, log[n].at, now)
  }

  /** In every run a start, by the timer or by hand, keeps its distance exactly when the task was never
      started or its schedule came round since the stored last run. */
  lemma DistanceIsSinceLastRun(trace: seq<(Input, int)>, r: Run, id: string, now: int)
    requires Reaches(trace, r) && Ordered(trace, now) && id in r.rows
    ensures ValidSchedule(r.rows[id].schedule)
    ensures KeepsDistance(r.log, id, r.rows[id].schedule, now)
       <==> (r.rows[id].lastRun.None? || ComesRound(r.rows[id].schedule, r.rows[id].lastRun.value, now))
  {
    EveryRun(trace, r, now);
    hide Reaches, Occurs, NextTime, Spaced, Ahead, Near;
    var row := r.rows[id];
    assert ValidRow(row) && IsLastStart(row.lastRun, r.log, id);
    if row.lastRun.Some? && ComesRound(row.schedule, row.lastRun.value, now) {
      var u :| row.lastRun.value < u <= now && Occurs(row.schedule, u);
      assert forall n :: 0 <= n < |r.log| && r.log[n].id == id ==> r.log[n].at < u;
    }
  }

  /** Whatever led to a task that is enabled with this schedule and stored next run, and whatever its last
      run was, a start keeps its distance. */
  ghost predicate SurelyKeepsDistance(id: string, s: Schedule, next: int, now: int)
    requires ValidSchedule(s)
  {
    forall trace, r :: Reaches(trace, r) && Ordered(trace, now) && Shows(r, id, s, next) ==>
        KeepsDistance(r.log, id, s, now)
  }

  ghost predicate Shows(r: Run, id: string, s: Schedule, next: int) {
    id in r.rows && r.rows[id].enabled && r.rows[id].schedule == s && r.rows[id].nextRun == next
  }

  /** From schedule and next run alone, which is all the timer looks at, it is certain that a start of an
      enabled task keeps its distance exactly when the task is due.  The last run in the row says more:
      with it the exact test is that of DistanceIsSinceLastRun. */
  lemma DueIsTheTest(trace: seq<(Input, int)>, r: Run, id: string, now: int)
    requires Reaches(trace, r) && Ordered(trace, now) && id in r.rows && r.rows[id].enabled
    ensures ValidSchedule(r.rows[id].schedule)
    ensures SurelyKeepsDistance(id, r.rows[id].schedule, r.rows[id].nextRun, now) <==> Due(r.rows[id], now)
  {
    EveryRun(trace, r, now);
    var s, next := r.rows[id].schedule, r.rows[id].nextRun;
    assert ValidRow(r.rows[id]);
    if next <= now {
      forall t, q | Reaches(t, q) && Ordered(t, now) && Shows(q, id, s, next) ensures KeepsDistance(q.log, id, s, now) {
        EveryRun(t, q, now);
        hide Reaches, Occurs, NextTime, Spaced, LastKnown, Near;
        assert ValidRow(q.rows[id]);
      }
    } else {
      OnlyNext(s, next, now);
      hide Inv, Due, KeepsDistance, Occurs, NextTime;
      var t, q := StartedJustNow(id, s, now);
      assert Shows(q, id, s, next);
    }
  }

  lemma OnlyNext(s: Schedule, next: int, now: int)
    requires ValidSchedule(s) && Occurs(s, next) && now < next <= NextTime(s, now)
    ensures next == NextTime(s, now)
  {
    NextTimeIsNext(s, now);
    hide NextTime, Occurs;
  }

  lemma ReachesMore(trace: seq<(Input, int)>, r: Run, input: Input, now: int, after: Run)
    requires Reaches(trace, r) && Steps(r, input, now, after)
    ensures Reaches(trace + [(input, now)], after)
  {
    assert (trace + [(input, now)])[..|trace|] == trace;
    hide Steps;
  }

  lemma ReachesEmpty()
    ensures Reaches([], Run(map[], []))
  {}

  /** A task created and started by hand at one moment. */
  lemma StartedJustNow(id: string, s: Schedule, now: int) returns (trace: seq<(Input, int)>, r: Run)
    requires ValidSchedule(s)
    ensures Reaches(trace, r) && Ordered(trace, now) && Shows(r, id, s, NextTime(s, now))
    ensures r.log == [Ran(id, s, now, false)] && !KeepsDistance(r.log, id, s, now)
    ensures r.rows == map[id := Started(Created("", "", s, true, now), now)]
    ensures trace == [(Create(id, "", "", s, true), now), (RunNow(id), now)]
  {
    hide Reaches, NextTime, Occurs;
    var none, create := Run(map[], []), Create(id, "", "", s, true);
    ReachesEmpty();
    var one := Step(none, create, now);
    assert Steps(none, create, now, one);
    ReachesMore([], none, create, now, one);
    r := Step(one, RunNow(id), now);
    assert Steps(one, RunNow(id), now, r);
    ReachesMore([] + [(create, now)], one, RunNow(id), now, r);
    trace := [] + [(create, now)] + [(RunNow(id), now)];
    assert r.log[0] == Ran(id, s, now, false);
  }

  /** Two starts by hand: create, run now, finish, run now. */
  lemma TwiceByHand(id: string, s: Schedule, first: int, second: int) returns (trace: seq<(Input, int)>, r: Run)
    requires ValidSchedule(s) && first <= second
    ensures Reaches(trace, r) && Ordered(trace, second)
    ensures r.log == [Ran(id, s, first, false), Ran(id, s, second, false)]
  {
    hide Reaches, NextTime, Occurs;
    var before, one := StartedJustNow(id, s, first);
    var finish := Finish(id, Status.Ok, "");
    var two := Step(one, finish, second);
    assert Steps(one, finish, second, two);
    ReachesMore(before, one, finish, second, two);
    r := Step(two, RunNow(id), second);
    assert Steps(two, RunNow(id), second, r);
    ReachesMore(before + [(finish, second)], two, RunNow(id), second, r);
    trace := before + [(finish, second)] + [(RunNow(id), second)];
  }

  /** They need not be spaced: five seconds apart, with a schedule of three o'clock every night. */
  lemma ManualStartsMayCrowd() returns (trace: seq<(Input, int)>, r: Run)
    ensures Reaches(trace, r) && Ordered(trace, 5000)
    ensures |r.log| == 2 && r.log[0].id == r.log[1].id && !r.log[1].timed && ValidSchedule(r.log[1].schedule)
    ensures !exists u :: r.log[0].at < u <= r.log[1].at && Occurs(r.log[1].schedule, u)
  {
    var s := Schedule(Daily, 3, 0, 0, 1);
    assert ValidSchedule(s) && TimeOf(s) == 10800000;
    assert forall u :: 0 < u <= 5000 ==> !Occurs(s, u);
    hide Reaches, Occurs;
    trace, r := TwiceByHand("scrub", s, 0, 5000);
  }
}
