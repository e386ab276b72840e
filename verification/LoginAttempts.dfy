/** How wrong passwords are held against an account: a failure counter that forgets after a quiet quarter of an
    hour, and a lockout that doubles from a minute up to a quarter of an hour.  Times are in
    milliseconds. */
module LoginAttempts {
  import opened Wrappers

  const THRESHOLD := 8
  const WINDOW_MS := 15 * 60 * 1000
  const BASE_LOCK_MS := 60 * 1000
  const MAX_LOCK_MS := 15 * 60 * 1000

  datatype Row = Row(failures: nat, firstFail: int, lastFail: int, lockedUntil: Option<int>)

  function Doubled(n: nat): (r: nat)
    ensures r >= 1
  {
    if n == 0 then 1 else 2 * Doubled(n - 1)
  }

  /** The lockout the n-th consecutive failure brings, if any. */
  function LockMs(failures: nat): Option<nat> {
    if failures < THRESHOLD then None
    else
      var wait := BASE_LOCK_MS * Doubled(failures - THRESHOLD);
      Some(if wait < MAX_LOCK_MS then wait else MAX_LOCK_MS)
  }

  predicate IsStale(row: Option<Row>, now: int) {
    row.None? || now - row.value.lastFail > WINDOW_MS
  }

  /** The row after one more failure. */
  function Failed(row: Option<Row>, now: int): Row {
    var failures := if IsStale(row, now) then 1 else row.value.failures + 1;
    var lock := LockMs(failures);
    Row(failures, if row.None? || failures == 1 then now else row.value.firstFail, now,
        if lock.Some? then Some(now + lock.value) else None)
  }

  predicate IsLocked(row: Option<Row>, now: int) {
    row.Some? && row.value.lockedUntil.Some? && row.value.lockedUntil.value > now
  }

  /** Math.ceil(ms / 1000) */
  function CeilSeconds(ms: nat): nat { (ms + 999) / 1000 }

  /** What POST /login/password answers. */
  datatype Reply = LockedOut | BadCredentials | AccountDisabled | PasswordAccepted

  /** What POST /login/password does once the password has been checked. */
  function Answered(row: Option<Row>, ok: bool, disabled: bool, now: int): (Option<Row>, Reply) {
    if !ok then (Some(Failed(row, now)), BadCredentials)
    else if disabled then (row, AccountDisabled)
    else (None, PasswordAccepted)
  }

  /** The whole request when nothing else touches the account while the password is checked: a failure is
      recorded, for unknown names too, only when not locked. */
  function PasswordStep(row: Option<Row>, ok: bool, disabled: bool, now: int, later: int): (Option<Row>, Reply) {
    if IsLocked(row, now) then (row, LockedOut) else Answered(row, ok, disabled, later)
  }

  /** A code of the second factor, which does not ask for the lockout. */
  function CodeCounted(row: Option<Row>, ok: bool, now: int): Option<Row> {
    if ok then None else Some(Failed(row, now))
  }

  class AttemptStore {
    var rows: map<string, Row>

    constructor ()
      ensures rows == map[]
    {
      rows := map[];
    }

    function Find(name: string): Option<Row>
      reads this
    {
      if name in rows then Some(rows[name]) else None
    }

    /** The account's lock ends after this moment. */
    predicate LockedAt(name: string, now: int)
      reads this
    {
      name in rows && rows[name].lockedUntil.Some? && now < rows[name].lockedUntil.value
    }

    /** The seconds left of the account's lock, rounded up; 0 without a lock. */
    method LockoutRemainingSeconds(name: string, now: int) returns (seconds: nat)
      ensures seconds > 0 <==> LockedAt(name, now)
      ensures LockedAt(name, now) ==> 1000 * (seconds - 1) < rows[name].lockedUntil.value - now <= 1000 * seconds
    {
      if name !in rows || rows[name].lockedUntil.None? {
        return 0;
      }
      var remaining := rows[name].lockedUntil.value - now;
      seconds := if remaining > 0 then CeilSeconds(remaining) else 0;
    }

    /** One more failure on the row, which goes on from the one before unless that is more than a quarter of
        an hour ago; the answer is how many seconds it locks the account for. */
    method RecordFailure(name: string, now: int) returns (seconds: nat)
      modifies this
      ensures rows == old(rows)[name := Failed(old(Find(name)), now)]
      ensures var goesOn := name in old(rows) && now - old(rows[name].lastFail) <= 900_000;
        && rows[name].failures == (if goesOn then old(rows[name].failures) + 1 else 1)
        && (goesOn && old(rows[name].failures) > 0 ==> rows[name].firstFail == old(rows[name].firstFail))
        && (!goesOn ==> rows[name].firstFail == now)
      ensures rows[name].lastFail == now
      ensures seconds == SecondsLocked(rows[name].failures)
      ensures rows[name].lockedUntil == if seconds == 0 then None else Some(now + 1000 * seconds)
    {
      var row := Find(name);
      FailureCounts(row, now);
      hide Failed, SecondsLocked;
      var stale := if row.Some? then now - row.value.lastFail > WINDOW_MS else true;
      var failures := if stale then 1 else row.value.failures + 1;
      var lockedUntil: Option<int> := None;
      LocksTable(failures);
      if failures >= THRESHOLD {
        var wait := BASE_LOCK_MS * Doubled(failures - THRESHOLD);
        lockedUntil := Some(now + if wait < MAX_LOCK_MS then wait else MAX_LOCK_MS);
      }
      rows := rows[name := Row(failures,
                               if row.None? || failures == 1 then now else row.value.firstFail, now, lockedUntil)];
      seconds := if lockedUntil.Some? then CeilSeconds(lockedUntil.value - now) else 0;
    }

    /** A success wipes the account's row. */
    method RecordSuccess(name: string)
      modifies this
      ensures rows == old(rows) - {name}
    {
      rows := rows - {name};
    }

    /** POST /login/password with nobody else at the door. */
    method LoginPassword(name: string, passwordOk: bool, disabled: bool, now: int, later: int) returns (r: Reply)
      requires now <= later
      modifies this
      ensures (Find(name), r) == PasswordStep(old(Find(name)), passwordOk, disabled, now, later)
      ensures r == LockedOut <==> old(LockedAt(name, now))
      ensures r == BadCredentials <==> !old(LockedAt(name, now)) && !passwordOk
      ensures r == AccountDisabled <==> !old(LockedAt(name, now)) && passwordOk && disabled
      ensures r == PasswordAccepted <==> !old(LockedAt(name, now)) && passwordOk && !disabled
      ensures r == LockedOut || r == AccountDisabled ==> rows == old(rows)
      ensures r == PasswordAccepted ==> rows == old(rows) - {name}
      ensures r == BadCredentials ==>
        !old(LockedAt(name, later)) && rows == old(rows)[name := Failed(old(Find(name)), later)]
    {
      var locked := LockoutRemainingSeconds(name, now);
      if locked > 0 {
        return LockedOut;
      }
      r := AnswerPassword(name, passwordOk, disabled, later);
    }

    /** The part of the request after the check of the password. */
    method AnswerPassword(name: string, passwordOk: bool, disabled: bool, now: int) returns (r: Reply)
      modifies this
      ensures (Find(name), r) == Answered(old(Find(name)), passwordOk, disabled, now)
      ensures r == if !passwordOk then BadCredentials else if disabled then AccountDisabled else PasswordAccepted
      ensures rows == match r
        case BadCredentials => old(rows)[name := Failed(old(Find(name)), now)]
        case PasswordAccepted => old(rows) - {name}
        case _ => old(rows)
    {
      if !passwordOk {
        var seconds := RecordFailure(name, now);
        return BadCredentials;
      }
      if disabled {
        return AccountDisabled;
      }
      RecordSuccess(name);
      r := PasswordAccepted;
    }
  }

  // ----- How many failures fit ----------------------------------------------------------------

  /** The seconds a lockout lasts: a minute from the eighth failure, doubling up to a quarter of an hour. */
  function SecondsLocked(failures: nat): nat {
    match failures
    case 8 => 60
    case 9 => 120
    case 10 => 240
    case 11 => 480
    case _ => if failures < 8 then 0 else 900
  }

  lemma {:induction false} LocksTable(failures: nat)
    ensures LockMs(failures) == if SecondsLocked(failures) == 0 then None else Some(1000 * SecondsLocked(failures))
  {
    assert Doubled(0) == 1 && Doubled(1) == 2 && Doubled(2) == 4 && Doubled(3) == 8 && Doubled(4) == 16;
    if failures > 12 {
      hide Doubled;
      DoubledGrows(4, failures - 8);
    }
  }

  /** A failure counts on from the one before, or from one again when that is more than fifteen minutes ago. */
  lemma FailureCounts(row: Option<Row>, now: int)
    ensures var r, goesOn := Failed(row, now), row.Some? && now - row.value.lastFail <= 900_000;
      && r.failures == (if goesOn then row.value.failures + 1 else 1)
      && r.firstFail == (if goesOn && row.value.failures > 0 then row.value.firstFail else now)
      && r.lastFail == now
      && r.lockedUntil == if SecondsLocked(r.failures) == 0 then None else Some(now + 1000 * SecondsLocked(r.failures))
  {
    LocksTable(Failed(row, now).failures);
    hide LockMs;
  }

  /** Every lockout lies between one and fifteen minutes, and more failures never mean a shorter one. */
  lemma LockBounds(failures: nat)
    ensures LockMs(failures).Some? <==> failures >= THRESHOLD
    ensures LockMs(failures).Some? ==> BASE_LOCK_MS <= LockMs(failures).value <= MAX_LOCK_MS
    ensures LockMs(failures).Some? ==>
      LockMs(failures + 1).Some? && LockMs(failures).value <= LockMs(failures + 1).value
  {}

  /** A counted failure; only those of a password come after a look at the lock. */
  datatype Failure = Failure(at: int, ofPassword: bool)

  /** The account's row after the given failures, with no success or clearing between. */
  function After(fs: seq<Failure>): Option<Row> {
    if |fs| == 0 then None else Some(Failed(After(fs[..|fs| - 1]), fs[|fs| - 1].at))
  }

  /** The clock does not run backwards. */
  ghost predicate InOrder(fs: seq<Failure>) {
    forall i :: 0 < i < |fs| ==> fs[i - 1].at <= fs[i].at
  }

  /** The lock that the i-th failure brought, if any, has run out. */
  ghost predicate RunOut(fs: seq<Failure>, i: nat, now: int)
    requires i < |fs|
  {
    LockMs(FailuresAt(fs, i)).Some? ==> fs[i].at + LockMs(FailuresAt(fs, i)).value <= now
  }

  /** The locks of all passwords so far have run out. */
  ghost predicate WaitedOut(fs: seq<Failure>, now: int) {
    forall i :: 0 <= i < |fs| && fs[i].ofPassword ==> RunOut(fs, i, now)
  }

  /** Each password failed after the locks of those before it had run out. */
  ghost predicate Permitted(fs: seq<Failure>) {
    InOrder(fs) && forall i, j :: 0 <= i < j < |fs| && fs[i].ofPassword && fs[j].ofPassword ==> RunOut(fs, i, fs[j].at)
  }

  function FailuresAt(fs: seq<Failure>, i: nat): nat
    requires i < |fs|
  {
    After(fs[..i + 1]).value.failures
  }

  /** From one failure to the next the count goes on, unless the gap was longer than a quarter of an hour. */
  lemma NextFailure(fs: seq<Failure>, i: nat)
    requires InOrder(fs) && i + 1 < |fs|
    ensures FailuresAt(fs, i) >= 1
    ensures FailuresAt(fs, i + 1) == if fs[i + 1].at - fs[i].at <= 900_000 then FailuresAt(fs, i) + 1 else 1
  {
    assert fs[..i + 1][..i] == fs[..i];
    assert fs[..i + 2][..i + 1] == fs[..i + 1];
  }

  /** While the failures stay close together the count climbs by one each time. */
  lemma {:induction false} CountClimbs(fs: seq<Failure>, i: nat, n: nat)
    requires InOrder(fs) && i + n < |fs| && fs[i + n].at - fs[i].at <= WINDOW_MS
    ensures FailuresAt(fs, i + n) == FailuresAt(fs, i) + n && FailuresAt(fs, i) >= 1
  {
    hide InOrder, LockMs;
    if n > 0 {
      hide FailuresAt, After;
      Ordered(fs, i, i + n - 1);
      Ordered(fs, i + n - 1, i + n);
      CountClimbs(fs, i, n - 1);
      NextFailure(fs, i + n - 1);
    } else {
      hide IsStale;
    }
  }

  lemma {:induction false} Ordered(fs: seq<Failure>, i: nat, j: nat)
    requires InOrder(fs) && i <= j < |fs|
    ensures fs[i].at <= fs[j].at
  {
    if i < j {
      Ordered(fs, i, j - 1);
    }
  }

  /** When the account is not locked, the locks of all its failures have run out. */
  lemma UnlockedIsWaitedOut(fs: seq<Failure>, i: nat, now: int)
    requires InOrder(fs) && i < |fs| && fs[|fs| - 1].at <= now && !IsLocked(After(fs), now)
    ensures RunOut(fs, i, now)
  {
    var last := |fs| - 1;
    assert fs[..last + 1] == fs;
    assert RunOut(fs, last, now);
    LockBounds(FailuresAt(fs, i));
    hide After, IsLocked, LockMs, FailuresAt, InOrder;
    Ordered(fs, i, last);
    if fs[last].at - fs[i].at <= WINDOW_MS && FailuresAt(fs, i) >= THRESHOLD {
      CountClimbs(fs, i, last - i);
      LongerLock(FailuresAt(fs, i), FailuresAt(fs, last));
    }
  }

  /** The failures of passwords. */
  function Guesses(fs: seq<Failure>): nat {
    if |fs| == 0 then 0 else Guesses(fs[..|fs| - 1]) + (if fs[|fs| - 1].ofPassword then 1 else 0)
  }

  /** The locks of `n` failures in a row but the last, together. */
  function Waits(n: nat): nat {
    if n <= THRESHOLD then 0 else Waits(n - 1) + LockMs(n - 1).value
  }

  lemma {:induction false} WaitsGrow(m: nat, n: nat)
    requires m <= n
    ensures Waits(m) <= Waits(n)
  {
    if m < n {
      WaitsGrow(m, n - 1);
    }
  }

  /** Twelve failures wait a whole window. */
  lemma TwelveWaitAWindow()
    ensures Waits(12) == WINDOW_MS
  {
    assert Doubled(0) == 1 && Doubled(1) == 2 && Doubled(2) == 4 && Doubled(3) == 8;
    assert LockMs(8).value == 60000 && LockMs(9).value == 120000;
    assert LockMs(10).value == 240000 && LockMs(11).value == 480000;
    hide LockMs, Doubled;
    assert Waits(8) == 0 && Waits(9) == 60000 && Waits(10) == 180000 && Waits(11) == 420000;
  }

  lemma LongerLock(m: nat, n: nat)
    requires THRESHOLD <= m <= n
    ensures LockMs(m).Some? && LockMs(n).Some? && LockMs(m).value <= LockMs(n).value
  {
    DoubledGrows(m - THRESHOLD, n - THRESHOLD);
  }

  lemma {:induction false} DoubledGrows(m: nat, n: nat)
    requires m <= n
    ensures Doubled(m) <= Doubled(n)
  {
    if m < n {
      DoubledGrows(m, n - 1);
    }
  }

  lemma GuessesStep(fs: seq<Failure>, i: nat, j: nat)
    requires i <= j < |fs|
    ensures Guesses(fs[i..j + 1]) == Guesses(fs[i..j]) + (if fs[j].ofPassword then 1 else 0)
    ensures i == j ==> Guesses(fs[i..j]) == 0
  {
    assert fs[i..j + 1][..j - i] == fs[i..j];
  }

  lemma {:induction false} GuessesAtMost(fs: seq<Failure>)
    ensures Guesses(fs) <= |fs|
  {
    if |fs| > 0 {
      GuessesAtMost(fs[..|fs| - 1]);
    }
  }

  /** The last password among the failures from the i-th up to the j-th. */
  lemma {:induction false} LastGuess(fs: seq<Failure>, i: nat, j: nat) returns (p: nat)
    requires i <= j <= |fs| && Guesses(fs[i..j]) > 0
    ensures i <= p < j && fs[p].ofPassword && Guesses(fs[i..p + 1]) == Guesses(fs[i..j])
    decreases j
  {
    hide Guesses;
    if i == j {
      assert fs[i..j] == [];
      NoGuesses();
    } else {
      GuessesStep(fs, i, j - 1);
      if fs[j - 1].ofPassword {
        p := j - 1;
      } else {
        p := LastGuess(fs, i, j - 1);
      }
    }
  }

  lemma NoGuesses()
    ensures Guesses([]) == 0
  {}

  /** Within a window the failures of passwords take at least the time of their locks, whatever failed
      between them. */
  lemma {:induction false} GuessesTakeTime(fs: seq<Failure>, i: nat, j: nat)
    requires Permitted(fs) && i <= j < |fs| && fs[j].at - fs[i].at <= WINDOW_MS
    ensures fs[j].at - fs[i].at >= Waits(Guesses(fs[i..j + 1]))
    decreases j
  {
    hide FailuresAt, After, LockMs, Guesses, InOrder;
    var n := Guesses(fs[i..j]);
    GuessesStep(fs, i, j);
    Ordered(fs, i, j);
    if n > 0 {
      var p := LastGuess(fs, i, j);
      Ordered(fs, p, j);
      GuessesTakeTime(fs, i, p);
      CountClimbs(fs, i, p - i);
      GuessesAtMost(fs[i..p + 1]);
      if fs[j].ofPassword && n >= THRESHOLD {
        assert RunOut(fs, p, fs[j].at);
        LongerLock(n, FailuresAt(fs, p));
      }
    }
  }

  /** Any half-open window of fifteen minutes holds at most eleven failures of passwords. */
  lemma AtMostElevenPerWindow(fs: seq<Failure>, i: nat, j: nat)
    requires Permitted(fs) && i <= j < |fs| && fs[j].at < fs[i].at + WINDOW_MS
    ensures Guesses(fs[i..j + 1]) <= 11
  {
    hide Permitted, Waits, Guesses;
    var n := Guesses(fs[i..j + 1]);
    GuessesTakeTime(fs, i, j);
    TwelveWaitAWindow();
    if n >= 12 {
      WaitsGrow(12, n);
    }
  }

  // ----- Runs of requests -----------------------------------------------------------------------

  /** One account: its row, and how many passwords are being checked that were found not locked. */
  datatype State = State(row: Option<Row>, asking: nat)

  /** What can happen to it: a request with a password asks for the lockout and, unless locked, is answered
      when the password has been checked; anything else may come in between. */
  datatype Input =
    | Ask(now: int)
    | Answer(ok: bool, disabled: bool, now: int)
    | SecondFactor(ok: bool, now: int)
    | Override(now: int)

  function Step(s: State, input: Input): State {
    match input
    case Ask(now) => if IsLocked(s.row, now) then s else s.(asking := s.asking + 1)
    case Answer(ok, disabled, now) =>
      if s.asking == 0 then s else State(Answered(s.row, ok, disabled, now).0, s.asking - 1)
    case SecondFactor(ok, now) => s.(row := CodeCounted(s.row, ok, now))
    case Override(_) => s.(row := None)
  }

  /** With nothing in between, the two inputs of a password are the request as a whole. */
  lemma AskThenAnswer(row: Option<Row>, ok: bool, disabled: bool, now: int, later: int)
    ensures Step(Step(State(row, 0), Ask(now)), Answer(ok, disabled, later))
         == State(PasswordStep(row, ok, disabled, now, later).0, 0)
  {}

  function StateOf(inputs: seq<Input>): State {
    if |inputs| == 0 then State(None, 0) else Step(StateOf(inputs[..|inputs| - 1]), inputs[|inputs| - 1])
  }

  /** The clock does not run backwards. */
  ghost predicate InTime(inputs: seq<Input>) {
    forall i :: 0 < i < |inputs| ==> inputs[i - 1].now <= inputs[i].now
  }

  /** No password is asked for while another is being checked. */
  ghost predicate OneAtATime(inputs: seq<Input>) {
    forall n :: 0 <= n < |inputs| && inputs[n].Ask? ==> StateOf(inputs[..n]).asking == 0
  }

  /** The failures on the counter after one more input. */
  function Counted(s: State, fs: seq<Failure>, input: Input): seq<Failure> {
    match input
    case Ask(_) => fs
    case Answer(ok, disabled, now) =>
      if s.asking == 0 then fs
      else
        var r := Answered(s.row, ok, disabled, now).1;
        if r == PasswordAccepted then [] else if r == BadCredentials then fs + [Failure(now, true)] else fs
    case SecondFactor(ok, now) => if ok then [] else fs + [Failure(now, false)]
    case Override(_) => []
  }

  /** The failures counted since the counter was last cleared. */
  function FailuresOf(inputs: seq<Input>): seq<Failure> {
    if |inputs| == 0 then []
    else
      var front := inputs[..|inputs| - 1];
      Counted(StateOf(front), FailuresOf(front), inputs[|inputs| - 1])
  }

  /** The row tells of the failures, they came as the lock permits, and a password that is being checked
      has waited out the locks of the passwords before it. */
  ghost predicate Told(s: State, fs: seq<Failure>, now: int) {
    && s.row == After(fs) && Permitted(fs) && (fs != [] ==> fs[|fs| - 1].at <= now)
    && s.asking <= 1 && (s.asking == 1 ==> WaitedOut(fs, now))
  }

  lemma InputKeeps(s: State, fs: seq<Failure>, input: Input)
    requires Told(s, fs, input.now) && (input.Ask? ==> s.asking == 0)
    ensures Told(Step(s, input), Counted(s, fs, input), input.now)
  {
    NoFailures(input.now);
    hide After, Permitted, Failed, WaitedOut, IsLocked;
    match input
    case Ask(now) =>
      if !IsLocked(s.row, now) {
        AllWaitedOut(fs, now);
      }
    case Answer(ok, _, now) =>
      if s.asking == 1 && !ok {
        OneMore(fs, Failure(now, true));
      }
    case SecondFactor(ok, now) =>
      if !ok {
        OneMore(fs, Failure(now, false));
        if s.asking == 1 {
          StaysWaitedOut(fs, Failure(now, false), now);
        }
      }
    case Override(_) =>
  }

  lemma NoFailures(now: int)
    ensures After([]) == None && Permitted([]) && WaitedOut([], now)
  {}

  lemma AllWaitedOut(fs: seq<Failure>, now: int)
    requires Permitted(fs) && (fs != [] ==> fs[|fs| - 1].at <= now) && !IsLocked(After(fs), now)
    ensures WaitedOut(fs, now)
  {
    hide RunOut, IsLocked, InOrder;
    forall i | 0 <= i < |fs| && fs[i].ofPassword ensures RunOut(fs, i, now) {
      UnlockedIsWaitedOut(fs, i, now);
    }
  }

  lemma SameRunOut(fs: seq<Failure>, f: Failure, i: nat, now: int)
    requires i < |fs| && RunOut(fs, i, now)
    ensures RunOut(fs + [f], i, now)
  {
    assert (fs + [f])[..i + 1] == fs[..i + 1];
    hide LockMs;
  }

  lemma StaysWaitedOut(fs: seq<Failure>, f: Failure, now: int)
    requires WaitedOut(fs, now) && !f.ofPassword
    ensures WaitedOut(fs + [f], now)
  {
    hide RunOut;
    forall i | 0 <= i < |fs + [f]| && (fs + [f])[i].ofPassword ensures RunOut(fs + [f], i, now) {
      SameRunOut(fs, f, i, now);
    }
  }

  lemma OneMore(fs: seq<Failure>, f: Failure)
    requires Permitted(fs) && (fs != [] ==> fs[|fs| - 1].at <= f.at) && (f.ofPassword ==> WaitedOut(fs, f.at))
    ensures Permitted(fs + [f]) && After(fs + [f]) == Some(Failed(After(fs), f.at))
  {
    var more := fs + [f];
    AfterMore(fs, f);
    hide RunOut, After, Failed;
    forall i, j | 0 <= i < j < |more| && more[i].ofPassword && more[j].ofPassword ensures RunOut(more, i, more[j].at) {
      assert RunOut(fs, i, more[j].at);
      SameRunOut(fs, f, i, more[j].at);
    }
  }

  lemma AfterMore(fs: seq<Failure>, f: Failure)
    ensures After(fs + [f]) == Some(Failed(After(fs), f.at))
  {
    assert (fs + [f])[..|fs|] == fs;
    hide Failed;
  }

  lemma TimePasses(s: State, fs: seq<Failure>, now: int, later: int)
    requires Told(s, fs, now) && now <= later
    ensures Told(s, fs, later)
  {
    hide After, Permitted, LockMs, FailuresAt;
  }

  /** After every run with one password at a time the row tells of the failures since it was last cleared. */
  lemma {:induction false} EveryRun(inputs: seq<Input>, now: int)
    requires InTime(inputs) && OneAtATime(inputs) && (inputs != [] ==> inputs[|inputs| - 1].now <= now)
    ensures Told(StateOf(inputs), FailuresOf(inputs), now)
  {
    NoFailures(now);
    if |inputs| > 0 {
      var front, last := inputs[..|inputs| - 1], inputs[|inputs| - 1];
      hide After, Permitted, WaitedOut, Counted, Step, Told;
      assert forall n :: 0 <= n < |front| ==> front[..n] == inputs[..n];
      EveryRun(front, last.now);
      InputKeeps(StateOf(front), FailuresOf(front), last);
      TimePasses(StateOf(inputs), FailuresOf(inputs), last.now, now);
    }
  }

  /** In every run with one password at a time, whatever else comes while a password is checked, any half-open
      window of fifteen minutes holds at most eleven wrong passwords since the counter was last cleared. */
  lemma AtMostElevenGuesses(inputs: seq<Input>, i: nat, j: nat)
    requires InTime(inputs) && OneAtATime(inputs)
    requires var fs := FailuresOf(inputs); i <= j < |fs| && fs[j].at < fs[i].at + WINDOW_MS
    ensures Guesses(FailuresOf(inputs)[i..j + 1]) <= 11
  {
    EveryRun(inputs, inputs[|inputs| - 1].now);
    hide InTime, OneAtATime, Permitted, FailuresOf, Guesses;
    AtMostElevenPerWindow(FailuresOf(inputs), i, j);
  }

  // ----- Runs that reach the bound, and go beyond it --------------------------------------------------

  lemma StateMore(inputs: seq<Input>, input: Input)
    ensures StateOf(inputs + [input]) == Step(StateOf(inputs), input)
    ensures FailuresOf(inputs + [input]) == Counted(StateOf(inputs), FailuresOf(inputs), input)
  {
    assert (inputs + [input])[..|inputs|] == inputs;
    hide Step, Counted;
  }

  lemma MoreInTime(inputs: seq<Input>, input: Input)
    requires InTime(inputs) && (inputs != [] ==> inputs[|inputs| - 1].now <= input.now)
    ensures InTime(inputs + [input])
  {}

  lemma MoreAtATime(inputs: seq<Input>, input: Input)
    requires OneAtATime(inputs) && (input.Ask? ==> StateOf(inputs).asking == 0)
    ensures OneAtATime(inputs + [input])
  {
    var more := inputs + [input];
    assert more[..|inputs|] == inputs;
    assert forall n :: 0 <= n < |inputs| ==> more[..n] == inputs[..n];
    hide StateOf;
  }

  lemma GuessesMore(fs: seq<Failure>, t: int)
    ensures Guesses(fs + [Failure(t, true)]) == Guesses(fs) + 1
  {
    assert (fs + [Failure(t, true)])[..|fs|] == fs;
  }

  /** A run that goes on, whose passwords all failed, the first at time 0. */
  ghost predicate Guessed(inputs: seq<Input>, s: State, n: nat, now: int) {
    && InTime(inputs) && OneAtATime(inputs) && StateOf(inputs) == s
    && (inputs != [] ==> inputs[|inputs| - 1].now == now)
    && |FailuresOf(inputs)| == n == Guesses(FailuresOf(inputs))
    && (n > 0 ==> FailuresOf(inputs)[0].at == 0 && FailuresOf(inputs)[n - 1].at == now)
  }

  /** One more wrong password, asked and answered at one moment. */
  lemma OneMoreGuess(inputs: seq<Input>, row: Option<Row>, n: nat, now: int, t: int) returns (more: seq<Input>)
    requires Guessed(inputs, State(row, 0), n, now) && now <= t && !IsLocked(row, t) && (n == 0 ==> t == 0)
    ensures Guessed(more, State(Some(Failed(row, t)), 0), n + 1, t)
  {
    hide Failed, IsLocked, StateOf, FailuresOf, Guesses, InTime, OneAtATime;
    var ask, answer := Ask(t), Answer(false, false, t);
    StateMore(inputs, ask);
    MoreInTime(inputs, ask);
    MoreAtATime(inputs, ask);
    var asked := inputs + [ask];
    StateMore(asked, answer);
    MoreInTime(asked, answer);
    MoreAtATime(asked, answer);
    GuessesMore(FailuresOf(inputs), t);
    more := asked + [answer];
  }

  lemma {:induction false} FewAtOnce(n: nat) returns (t: seq<Input>)
    requires n <= THRESHOLD
    ensures Guessed(t, State(if n == 0 then None else Some(Row(n, 0, 0, if n < 8 then None else Some(60000))), 0), n, 0)
  {
    t := [];
    if n == 0 {
      assert Guessed(t, State(None, 0), 0, 0);
    } else {
      hide Guessed;
      var row := if n == 1 then None else Some(Row(n - 1, 0, 0, None));
      t := FewAtOnce(n - 1);
      t := OneMoreGuess(t, row, n - 1, 0, 0);
    }
  }

  /** The bound is reached: eight wrong passwords at once, then one after each lockout. */
  lemma ElevenIsReached() returns (t: seq<Input>)
    ensures InTime(t) && OneAtATime(t)
    ensures var fs := FailuresOf(t); |fs| == 11 && Guesses(fs) == 11 && fs[10].at < fs[0].at + WINDOW_MS
  {
    assert Doubled(1) == 2 && Doubled(2) == 4;
    t := FewAtOnce(8);
    var row := Row(8, 0, 0, Some(60000));
    {
      hide Guessed, Doubled;
      t := OneMoreGuess(t, Some(row), 8, 0, 60000);
      t := OneMoreGuess(t, Some(Row(9, 0, 60000, Some(180000))), 9, 60000, 180000);
      t := OneMoreGuess(t, Some(Row(10, 0, 180000, Some(420000))), 10, 180000, 420000);
    }
  }

  /** Passwords asked for at one moment, all found not locked, while none is answered yet. */
  lemma {:induction false} ManyAsked(n: nat) returns (t: seq<Input>)
    ensures InTime(t) && StateOf(t) == State(None, n) && FailuresOf(t) == []
    ensures forall k :: 0 <= k < |t| ==> t[k].now == 0
  {
    t := [];
    if n > 0 {
      t := ManyAsked(n - 1);
      StateMore(t, Ask(0));
      MoreInTime(t, Ask(0));
      hide StateOf, FailuresOf, InTime;
      t := t + [Ask(0)];
    }
  }

  lemma {:induction false} ManyAnswered(n: nat, m: nat) returns (t: seq<Input>)
    requires m <= n
    ensures InTime(t) && StateOf(t).asking == n - m && |FailuresOf(t)| == m == Guesses(FailuresOf(t))
    ensures forall k :: 0 <= k < |t| ==> t[k].now == 0
    ensures forall k :: 0 <= k < m ==> FailuresOf(t)[k].at == 0
  {
    if m == 0 {
      t := ManyAsked(n);
      NoGuesses();
    } else {
      t := ManyAnswered(n, m - 1);
      var wrong := Answer(false, false, 0);
      StateMore(t, wrong);
      MoreInTime(t, wrong);
      GuessesMore(FailuresOf(t), 0);
      hide StateOf, FailuresOf, InTime, Guesses;
      t := t + [wrong];
    }
  }

  /** With several at a time there is no bound: any number of wrong passwords can be counted at one moment,
      because all ask for the lockout before the first is answered. */
  lemma ManyAtOnce(n: nat) returns (t: seq<Input>)
    ensures InTime(t)
    ensures var fs := FailuresOf(t); |fs| == n == Guesses(fs) && forall k :: 0 <= k < n ==> fs[k].at == 0
  {
    t := ManyAnswered(n, n);
  }
}
