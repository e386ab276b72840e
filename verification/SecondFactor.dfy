/** The second sign-in factor: tickets minted by a correct password, time-step codes with a replay
    guard, and single-use recovery codes.  Hashing and code verification are parameters. */
module SecondFactor {
  import LoginAttempts
  import opened Wrappers

  const TICKET_TTL_MS := 5 * 60 * 1000
  const TICKET_MAX_ATTEMPTS := 5
  const PRUNE_AGE_MS := 10 * 60 * 1000

  /** Foreign functions: the time step a code matches for a secret at a time, and the hash a typed
      recovery code is looked up by (None when nothing is left after normalising it). */
  datatype Crypto = Crypto(verify: (string, string, int) -> Option<int>, recoveryHash: string -> Option<string>)

  datatype Enrolment = Enrolment(secret: string, confirmed: bool, lastStep: Option<int>)

  datatype Ticket = Ticket(user: string, created: int, attempts: nat)

  /** Rows of user_totp, totp_recovery_codes (with their used flag) and mfa_tickets; accounts. */
  datatype State = State(
    accounts: set<string>,
    disabled: set<string>,
    totp: map<string, Enrolment>,
    recovery: map<(string, string), bool>,
    tickets: map<string, Ticket>)

  /** What happened, in order. */
  datatype Event =
    | Minted(ticket: string, user: string, at: int)
    | WrongCode(ticket: string)
    | Enrolling(user: string)
    | StepAccepted(user: string, step: int)
    | CodesReplaced(user: string)
    | SignedIn(ticket: string, user: string, at: int)
    | RecoverySpent(user: string, hash: string)

  datatype Input =
    | PasswordOk(user: string, ticket: string, now: int)
    | Code(ticket: string, code: string, now: int)
    | Setup(user: string, secret: string)
    | Enable(user: string, code: string, now: int, hashes: set<string>)
    | NewRecoveryCodes(user: string, hashes: set<string>)
    | DisableTotp(user: string)
    | SetDisabled(user: string, off: bool)
    | CreateAccount(user: string)
    | DeleteAccount(user: string)
    | PruneTickets(now: int)

  // ----- Table operations --------------------------------------------------------------------

  predicate TotpEnabled(s: State, user: string) { user in s.totp && s.totp[user].confirmed }

  function Peek(s: State, ticket: string, now: int): (State, Option<string>) {
    if ticket !in s.tickets then (s, None)
    else if now - s.tickets[ticket].created > TICKET_TTL_MS || s.tickets[ticket].attempts >= TICKET_MAX_ATTEMPTS
    then (s.(tickets := s.tickets - {ticket}), None)
    else (s, Some(s.tickets[ticket].user))
  }

  function Fail(s: State, ticket: string): State {
    if ticket !in s.tickets then s
    else
      var t := s.tickets[ticket].(attempts := s.tickets[ticket].attempts + 1);
      if t.attempts >= TICKET_MAX_ATTEMPTS then s.(tickets := s.tickets - {ticket})
      else s.(tickets := s.tickets[ticket := t])
  }

  function Consume(s: State, ticket: string): State { s.(tickets := s.tickets - {ticket}) }

  /** Enrolment, recovery codes and tickets of the user go. */
  function Forgotten(s: State, user: string): State {
    s.(totp := s.totp - {user},
       recovery := map k | k in s.recovery && k.0 != user :: s.recovery[k],
       tickets := map t | t in s.tickets && s.tickets[t].user != user :: s.tickets[t])
  }

  /** Tickets older than ten minutes go. */
  function Pruned(s: State, now: int): State {
    s.(tickets := map t | t in s.tickets && s.tickets[t].created >= now - PRUNE_AGE_MS :: s.tickets[t])
  }

  function ReplaceCodes(s: State, user: string, hashes: set<string>): State {
    s.(recovery := (map k | k in s.recovery && k.0 != user :: s.recovery[k])
       + (map h | h in hashes :: (user, h) := false))
  }

  /** UPDATE ... WHERE used_at IS NULL, and whether a row changed. */
  predicate CanSpend(s: State, user: string, hash: Option<string>) {
    hash.Some? && (user, hash.value) in s.recovery && !s.recovery[(user, hash.value)]
  }

  // ----- The handlers -------------------------------------------------------------------------

  /** POST /login/totp once the ticket is known to be good. */
  function CodeStep(c: Crypto, s: State, user: string, ticket: string, code: string, now: int): (State, seq<Event>) {
    if user !in s.accounts || !TotpEnabled(s, user) then (Consume(s, ticket), [])
    else if user in s.disabled then (Consume(s, ticket), [])
    else
      var row := s.totp[user];
      var step := c.verify(row.secret, code, now);
      if step.Some? && row.lastStep.Some? && step.value <= row.lastStep.value then
        (Fail(s, ticket), [WrongCode(ticket)])
      else if step.Some? then
        (Consume(s.(totp := s.totp[user := row.(lastStep := step)]), ticket),
         [StepAccepted(user, step.value), SignedIn(ticket, user, now)])
      else if CanSpend(s, user, c.recoveryHash(code)) then
        var hash := c.recoveryHash(code).value;
        (Consume(s.(recovery := s.recovery[(user, hash) := true]), ticket),
         [RecoverySpent(user, hash), SignedIn(ticket, user, now)])
      else (Fail(s, ticket), [WrongCode(ticket)])
  }

  function Step(c: Crypto, s: State, input: Input): (State, seq<Event>) {
    match input
    case PasswordOk(user, ticket, now) =>
      // Whether the account is disabled was asked before the password check was awaited.
      if user in s.accounts && TotpEnabled(s, user) then
        (s.(tickets := s.tickets[ticket := Ticket(user, now, 0)]), [Minted(ticket, user, now)])
      else (s, [])
    case Code(ticket, code, now) =>
      var (peeked, user) := Peek(s, ticket, now);
      if user.None? then (peeked, []) else CodeStep(c, peeked, user.value, ticket, code, now)
    case Setup(user, secret) =>
      if TotpEnabled(s, user) then (s, [])
      else (s.(totp := s.totp[user := Enrolment(secret, false, None)]), [Enrolling(user)])
    case Enable(user, code, now, hashes) =>
      if user !in s.totp || s.totp[user].confirmed then (s, [])
      else
        var step := c.verify(s.totp[user].secret, code, now);
        if step.None? then (s, [])
        else
          var on := s.(totp := s.totp[user := s.totp[user].(confirmed := true, lastStep := step)]);
          (ReplaceCodes(on, user, hashes), [StepAccepted(user, step.value), CodesReplaced(user)])
    case NewRecoveryCodes(user, hashes) =>
      // Whether the second factor is on was asked before the password check was awaited.
      (ReplaceCodes(s, user, hashes), [CodesReplaced(user)])
    case DisableTotp(user) => (Forgotten(s, user), [])
    case SetDisabled(user, off) =>
      (s.(disabled := if off then s.disabled + {user} else s.disabled - {user}), [])
    case CreateAccount(user) =>
      if user in s.accounts then (s, [])
      else (s.(accounts := s.accounts + {user}, disabled := s.disabled - {user}), [])
    case DeleteAccount(user) =>
      // The flag is a column of the account's row; the other tables refer to it and cascade.
      (Forgotten(s, user).(accounts := s.accounts - {user}, disabled := s.disabled - {user}), [])
    case PruneTickets(now) => (Pruned(s, now), [])
  }

  // ----- What a request is worth, told from the tables before it -----------------------------------------

  /** The ticket is at most five minutes old and has seen fewer than five wrong codes. */
  predicate Live(s: State, ticket: string, now: int) {
    ticket in s.tickets && now - s.tickets[ticket].created <= 300_000 && s.tickets[ticket].attempts < 5
  }

  /** The account exists and its second factor is on. */
  predicate Guarded(s: State, user: string) {
    user in s.accounts && user in s.totp && s.totp[user].confirmed
  }

  /** The ticket is good, and so is the account it stands for. */
  predicate Admitted(s: State, ticket: string, now: int) {
    Live(s, ticket, now) && Guarded(s, s.tickets[ticket].user) && s.tickets[ticket].user !in s.disabled
  }

  /** The step the code belongs to, if any. */
  function StepOf(c: Crypto, s: State, user: string, code: string, now: int): Option<int>
    requires user in s.totp
  {
    c.verify(s.totp[user].secret, code, now)
  }

  /** The code belongs to a later step than any used before. */
  predicate IsNewStep(c: Crypto, s: State, user: string, code: string, now: int)
    requires user in s.totp
  {
    var step := StepOf(c, s, user, code, now);
    step.Some? && (s.totp[user].lastStep.None? || s.totp[user].lastStep.value < step.value)
  }

  /** The code belongs to no step, and is a recovery code of the user that has not been used. */
  predicate IsUnused(c: Crypto, s: State, user: string, code: string, now: int)
    requires user in s.totp
  {
    var hash := c.recoveryHash(code);
    && StepOf(c, s, user, code, now) == None
    && hash.Some? && (user, hash.value) in s.recovery && s.recovery[(user, hash.value)] == false
  }

  predicate EarnsSession(c: Crypto, s: State, ticket: string, code: string, now: int) {
    && Admitted(s, ticket, now)
    && var user := s.tickets[ticket].user;
       IsNewStep(c, s, user, code, now) || IsUnused(c, s, user, code, now)
  }

  /** The tickets after one that is used up or refused for good, and after a wrong code on it. */
  function TicketsAfter(s: State, ticket: string, wrong: bool): map<string, Ticket> {
    if wrong && ticket in s.tickets && s.tickets[ticket].attempts < 4 then
      s.tickets[ticket := Ticket(s.tickets[ticket].user, s.tickets[ticket].created, s.tickets[ticket].attempts + 1)]
    else s.tickets - {ticket}
  }

  /** A session is earned exactly by a live ticket of an account that exists, is not disabled and has its second
      factor on, with a code of a new step or an unused recovery code; what was used stays used. */
  lemma SessionIsEarned(c: Crypto, s: State, ticket: string, code: string, now: int)
    ensures var (after, events) := Step(c, s, Code(ticket, code, now));
      && after.accounts == s.accounts && after.disabled == s.disabled
      && (forall e :: e in events && e.SignedIn? ==> EarnsSession(c, s, ticket, code, now))
      && (EarnsSession(c, s, ticket, code, now) ==>
            var user := s.tickets[ticket].user;
            var step, hash := StepOf(c, s, user, code, now), c.recoveryHash(code);
            && after.tickets == s.tickets - {ticket}
            && |events| == 2 && events[1] == SignedIn(ticket, user, now)
            && events[0] == (if step.Some? then StepAccepted(user, step.value) else RecoverySpent(user, hash.value))
            && after.totp == (if step.Some? then s.totp[user := Enrolment(s.totp[user].secret, true, step)] else s.totp)
            && after.recovery == if step.Some? then s.recovery else s.recovery[(user, hash.value) := true])
  {}

  /** Without one nothing changes but the tickets: a wrong code on a good ticket is counted, and any other
      ticket goes. */
  lemma NoSessionElse(c: Crypto, s: State, ticket: string, code: string, now: int)
    requires !EarnsSession(c, s, ticket, code, now)
    ensures var (after, events) := Step(c, s, Code(ticket, code, now));
      && after == s.(tickets := TicketsAfter(s, ticket, Admitted(s, ticket, now)))
      && events == if Admitted(s, ticket, now) then [WrongCode(ticket)] else []
  {
    assert ticket !in s.tickets ==> s.tickets - {ticket} == s.tickets;
  }

  // ----- Histories ---------------------------------------------------------------------------------

  /** The last time step accepted for the user since they last started enrolling. */
  function LastAccepted(log: seq<Event>, user: string): Option<int> {
    if |log| == 0 then None
    else
      match log[|log| - 1]
      case Enrolling(u) => if u == user then None else LastAccepted(log[..|log| - 1], user)
      case StepAccepted(u, step) => if u == user then Some(step) else LastAccepted(log[..|log| - 1], user)
      case _ => LastAccepted(log[..|log| - 1], user)
  }

  /** The recovery codes the user has spent since their set was last replaced. */
  function Spent(log: seq<Event>, user: string): set<string> {
    if |log| == 0 then {}
    else
      match log[|log| - 1]
      case CodesReplaced(u) => if u == user then {} else Spent(log[..|log| - 1], user)
      case RecoverySpent(u, h) => Spent(log[..|log| - 1], user) + (if u == user then {h} else {})
      case _ => Spent(log[..|log| - 1], user)
  }

  function WrongCodes(log: seq<Event>, ticket: string): nat {
    if |log| == 0 then 0
    else WrongCodes(log[..|log| - 1], ticket) + (if log[|log| - 1] == WrongCode(ticket) then 1 else 0)
  }

  /** Tickets that have bought a session. */
  function Cashed(log: seq<Event>): set<string> {
    if |log| == 0 then {}
    else Cashed(log[..|log| - 1]) + (if log[|log| - 1].SignedIn? then {log[|log| - 1].ticket} else {})
  }

  /** Every ticket minted, with its user and time. */
  function Mints(log: seq<Event>): set<(string, string, int)> {
    if |log| == 0 then {}
    else
      Mints(log[..|log| - 1])
      + (if log[|log| - 1].Minted? then {(log[|log| - 1].ticket, log[|log| - 1].user, log[|log| - 1].at)} else {})
  }

  /** What may follow a history. */
  ghost predicate Lawful(log: seq<Event>, e: Event) {
    match e
    case SignedIn(ticket, user, at) =>
      && ticket !in Cashed(log)
      && WrongCodes(log, ticket) < TICKET_MAX_ATTEMPTS
      && exists since :: (ticket, user, since) in Mints(log) && at - since <= TICKET_TTL_MS
    case WrongCode(ticket) => ticket !in Cashed(log) && WrongCodes(log, ticket) < TICKET_MAX_ATTEMPTS
    case StepAccepted(user, step) => LastAccepted(log, user).Some? ==> LastAccepted(log, user).value < step
    case RecoverySpent(user, hash) => hash !in Spent(log, user)
    case _ => true
  }

  ghost predicate AllLawful(log: seq<Event>) {
    forall n :: 0 <= n < |log| ==> Lawful(log[..n], log[n])
  }

  /** A live ticket was minted for its user at its time, bought nothing yet, and counts its wrong codes. */
  ghost predicate TicketMatches(row: Ticket, t: string, log: seq<Event>) {
    && (t, row.user, row.created) in Mints(log)
    && t !in Cashed(log)
    && row.attempts == WrongCodes(log, t) < TICKET_MAX_ATTEMPTS
  }

  // ----- The invariant of every run --------------------------------------------------------------------

  ghost predicate TicketsMatch(s: State, log: seq<Event>) {
    forall t :: t in s.tickets ==> TicketMatches(s.tickets[t], t, log)
  }

  /** The replay guard is the last accepted step, and an unconfirmed enrolment has none. */
  ghost predicate EnrolmentMatches(row: Enrolment, user: string, log: seq<Event>) {
    row.lastStep == LastAccepted(log, user) && (!row.confirmed ==> row.lastStep == None)
  }

  ghost predicate EnrolmentsMatch(s: State, log: seq<Event>) {
    forall u :: u in s.totp ==> EnrolmentMatches(s.totp[u], u, log)
  }

  ghost predicate RecoveryMatches(s: State, log: seq<Event>) {
    forall k :: k in s.recovery && k.1 in Spent(log, k.0) ==> s.recovery[k]
  }

  ghost predicate Inv(s: State, log: seq<Event>) {
    TicketsMatch(s, log) && EnrolmentsMatch(s, log) && RecoveryMatches(s, log) && AllLawful(log)
  }

  /** Ticket ids are random: a new one was never minted, cashed or failed before. */
  ghost predicate FreshTicket(log: seq<Event>, input: Input) {
    input.PasswordOk? ==>
      input.ticket !in Cashed(log) && WrongCodes(log, input.ticket) == 0
      && forall m :: m in Mints(log) ==> m.0 != input.ticket
  }

  lemma LawfulAppend(log: seq<Event>, e: Event)
    requires AllLawful(log) && Lawful(log, e)
    ensures AllLawful(log + [e])
  {
    var more := log + [e];
    forall n | 0 <= n < |more| ensures Lawful(more[..n], more[n]) {
      if n < |log| {
        assert more[..n] == log[..n];
      } else {
        assert more[..n] == log;
      }
    }
  }

  /** One more event, for each history function. */
  lemma OneMore(log: seq<Event>, e: Event)
    ensures forall u :: (LastAccepted(log + [e], u) ==
      if e == Enrolling(u) then None
      else if e.StepAccepted? && e.user == u then Some(e.step) else LastAccepted(log, u))
    ensures forall u :: (Spent(log + [e], u) ==
      if e == CodesReplaced(u) then {}
      else if e.RecoverySpent? && e.user == u then Spent(log, u) + {e.hash} else Spent(log, u))
    ensures forall t :: WrongCodes(log + [e], t) == WrongCodes(log, t) + (if e == WrongCode(t) then 1 else 0)
    ensures Cashed(log + [e]) == Cashed(log) + (if e.SignedIn? then {e.ticket} else {})
    ensures Mints(log + [e]) == Mints(log) + (if e.Minted? then {(e.ticket, e.user, e.at)} else {})
  {
    assert (log + [e])[..|log|] == log;
  }

  // ----- One event at a time ---------------------------------------------------------------------------

  lemma MintKeeps(s: State, log: seq<Event>, ticket: string, user: string, now: int)
    requires Inv(s, log)
    requires ticket !in Cashed(log) && WrongCodes(log, ticket) == 0
    ensures Inv(s.(tickets := s.tickets[ticket := Ticket(user, now, 0)]), log + [Minted(ticket, user, now)])
  {
    OneMore(log, Minted(ticket, user, now));
    LawfulAppend(log, Minted(ticket, user, now));
    hide AllLawful, LastAccepted, Spent, WrongCodes, Cashed, Mints;
  }

  lemma FewerTickets(s: State, log: seq<Event>, tickets: map<string, Ticket>)
    requires Inv(s, log) && forall t :: t in tickets ==> t in s.tickets && tickets[t] == s.tickets[t]
    ensures Inv(s.(tickets := tickets), log)
  {
    hide AllLawful, LastAccepted, Spent, WrongCodes, Cashed, Mints, TicketMatches;
  }

  lemma SignInKeeps(s: State, log: seq<Event>, ticket: string, now: int)
    requires Inv(s, log) && ticket in s.tickets && now - s.tickets[ticket].created <= TICKET_TTL_MS
    ensures Inv(Consume(s, ticket), log + [SignedIn(ticket, s.tickets[ticket].user, now)])
  {
    var e := SignedIn(ticket, s.tickets[ticket].user, now);
    assert TicketMatches(s.tickets[ticket], ticket, log);
    OneMore(log, e);
    LawfulAppend(log, e);
    hide AllLawful, LastAccepted, Spent, WrongCodes, Cashed, Mints;
  }

  lemma FailKeeps(s: State, log: seq<Event>, ticket: string)
    requires Inv(s, log) && ticket in s.tickets
    ensures Inv(Fail(s, ticket), log + [WrongCode(ticket)])
  {
    assert TicketMatches(s.tickets[ticket], ticket, log);
    OneMore(log, WrongCode(ticket));
    LawfulAppend(log, WrongCode(ticket));
    hide AllLawful, LastAccepted, Spent, WrongCodes, Cashed, Mints;
  }

  lemma AcceptKeeps(s: State, log: seq<Event>, user: string, step: int, secret: string)
    requires Inv(s, log) && user in s.totp
    requires s.totp[user].lastStep.Some? ==> s.totp[user].lastStep.value < step
    ensures Inv(s.(totp := s.totp[user := Enrolment(secret, true, Some(step))]), log + [StepAccepted(user, step)])
  {
    OneMore(log, StepAccepted(user, step));
    LawfulAppend(log, StepAccepted(user, step));
    hide AllLawful, LastAccepted, Spent, WrongCodes, Cashed, Mints;
  }

  lemma SpendKeeps(s: State, log: seq<Event>, user: string, hash: string)
    requires Inv(s, log) && CanSpend(s, user, Some(hash))
    ensures Inv(s.(recovery := s.recovery[(user, hash) := true]), log + [RecoverySpent(user, hash)])
  {
    OneMore(log, RecoverySpent(user, hash));
    assert hash !in Spent(log, user) by {
      assert (user, hash) in s.recovery && (user, hash).1 == hash && (user, hash).0 == user;
    }
    LawfulAppend(log, RecoverySpent(user, hash));
    hide AllLawful, LastAccepted, Spent, WrongCodes, Cashed, Mints;
  }

  lemma EnrolKeeps(s: State, log: seq<Event>, user: string, secret: string)
    requires Inv(s, log)
    ensures Inv(s.(totp := s.totp[user := Enrolment(secret, false, None)]), log + [Enrolling(user)])
  {
    OneMore(log, Enrolling(user));
    LawfulAppend(log, Enrolling(user));
    hide AllLawful, LastAccepted, Spent, WrongCodes, Cashed, Mints;
    var on := s.(totp := s.totp[user := Enrolment(secret, false, None)]);
    assert TicketsMatch(on, log + [Enrolling(user)]);
    assert RecoveryMatches(on, log + [Enrolling(user)]);
  }

  lemma ReplaceKeeps(s: State, log: seq<Event>, user: string, hashes: set<string>)
    requires Inv(s, log)
    ensures Inv(ReplaceCodes(s, user, hashes), log + [CodesReplaced(user)])
  {
    OneMore(log, CodesReplaced(user));
    LawfulAppend(log, CodesReplaced(user));
    hide AllLawful, LastAccepted, Spent, WrongCodes, Cashed, Mints;
  }

  lemma CodeStepKeeps(c: Crypto, s: State, log: seq<Event>, ticket: string, code: string, now: int)
    requires Inv(s, log) && ticket in s.tickets && now - s.tickets[ticket].created <= TICKET_TTL_MS
    ensures var r := CodeStep(c, s, s.tickets[ticket].user, ticket, code, now); Inv(r.0, log + r.1)
  {
    var user := s.tickets[ticket].user;
    assert log + [] == log;
    if user !in s.accounts || !TotpEnabled(s, user) || user in s.disabled {
      FewerTickets(s, log, s.tickets - {ticket});
    } else {
      var row := s.totp[user];
      var step := c.verify(row.secret, code, now);
      if step.Some? && row.lastStep.Some? && step.value <= row.lastStep.value {
        FailKeeps(s, log, ticket);
      } else if step.Some? {
        AcceptKeeps(s, log, user, step.value, row.secret);
        var on := s.(totp := s.totp[user := row.(lastStep := step)]);
        SignInKeeps(on, log + [StepAccepted(user, step.value)], ticket, now);
        TwoEvents(log, StepAccepted(user, step.value), SignedIn(ticket, user, now));
      } else if CanSpend(s, user, c.recoveryHash(code)) {
        var hash := c.recoveryHash(code).value;
        SpendKeeps(s, log, user, hash);
        var on := s.(recovery := s.recovery[(user, hash) := true]);
        SignInKeeps(on, log + [RecoverySpent(user, hash)], ticket, now);
        TwoEvents(log, RecoverySpent(user, hash), SignedIn(ticket, user, now));
      } else {
        FailKeeps(s, log, ticket);
      }
    }
    hide Inv;
  }

  lemma TwoEvents(log: seq<Event>, a: Event, b: Event)
    ensures (log + [a]) + [b] == log + [a, b]
  {}

  lemma ForgetKeeps(s: State, log: seq<Event>, user: string)
    requires Inv(s, log)
    ensures Inv(Forgotten(s, user), log)
  {
    hide LastAccepted, Spent, WrongCodes, Cashed, Mints, AllLawful, TicketMatches, EnrolmentMatches;
  }

  /** Nothing in the history speaks of which accounts there are, or are disabled. */
  lemma AccountsKeep(s: State, log: seq<Event>, accounts: set<string>, disabled: set<string>)
    requires Inv(s, log)
    ensures Inv(s.(accounts := accounts, disabled := disabled), log)
  {
    hide LastAccepted, Spent, WrongCodes, Cashed, Mints, AllLawful, TicketMatches, EnrolmentMatches;
  }

  /** Every request keeps the invariant. */
  lemma StepKeeps(c: Crypto, s: State, log: seq<Event>, input: Input)
    requires Inv(s, log) && FreshTicket(log, input)
    ensures var r := Step(c, s, input); Inv(r.0, log + r.1)
  {
    assert log + [] == log;
    match input
    case PasswordOk(user, ticket, now) => MintKeeps(s, log, ticket, user, now);
    case Code(ticket, code, now) =>
      FewerTickets(s, log, s.tickets - {ticket});
      if ticket in s.tickets && now - s.tickets[ticket].created <= TICKET_TTL_MS {
        CodeStepKeeps(c, s, log, ticket, code, now);
      }
    case Setup(user, secret) => EnrolKeeps(s, log, user, secret);
    case Enable(user, code, now, hashes) =>
      if user in s.totp && !s.totp[user].confirmed && c.verify(s.totp[user].secret, code, now).Some? {
        var step := c.verify(s.totp[user].secret, code, now);
        AcceptKeeps(s, log, user, step.value, s.totp[user].secret);
        var on := s.(totp := s.totp[user := s.totp[user].(confirmed := true, lastStep := step)]);
        ReplaceKeeps(on, log + [StepAccepted(user, step.value)], user, hashes);
        TwoEvents(log, StepAccepted(user, step.value), CodesReplaced(user));
      }
    case NewRecoveryCodes(user, hashes) => ReplaceKeeps(s, log, user, hashes);
    case DisableTotp(user) => ForgetKeeps(s, log, user);
    case SetDisabled(user, off) => AccountsKeep(s, log, s.accounts, Step(c, s, input).0.disabled);
    case CreateAccount(user) => AccountsKeep(s, log, s.accounts + {user}, s.disabled - {user});
    case DeleteAccount(user) =>
      ForgetKeeps(s, log, user);
      AccountsKeep(Forgotten(s, user), log, s.accounts - {user}, s.disabled - {user});
    case PruneTickets(now) => FewerTickets(s, log, Pruned(s, now).tickets);
  }

  // ----- Every run ------------------------------------------------------------------------------------------

  datatype Run = Run(state: State, log: seq<Event>)

  function Initial(accounts: set<string>): Run { Run(State(accounts, {}, map[], map[], map[]), []) }

  function After(c: Crypto, accounts: set<string>, inputs: seq<Input>): Run {
    if |inputs| == 0 then Initial(accounts)
    else
      var front := After(c, accounts, inputs[..|inputs| - 1]);
      var r := Step(c, front.state, inputs[|inputs| - 1]);
      Run(r.0, front.log + r.1)
  }

  ghost predicate TicketsFresh(c: Crypto, accounts: set<string>, inputs: seq<Input>) {
    forall n :: 0 <= n < |inputs| ==> FreshTicket(After(c, accounts, inputs[..n]).log, inputs[n])
  }

  lemma {:induction false} EveryRun(c: Crypto, accounts: set<string>, inputs: seq<Input>)
    requires TicketsFresh(c, accounts, inputs)
    ensures var r := After(c, accounts, inputs); Inv(r.state, r.log)
  {
    if |inputs| > 0 {
      var front := inputs[..|inputs| - 1];
      assert forall n :: 0 <= n < |front| ==> front[..n] == inputs[..n];
      EveryRun(c, accounts, front);
      var r := After(c, accounts, front);
      hide Inv, Step;
      StepKeeps(c, r.state, r.log, inputs[|inputs| - 1]);
    }
  }

  /** In every run a second-factor session spends a ticket minted for the same user at most five
      minutes before, no ticket buys two sessions, and none buys one after five wrong codes. */
  lemma SessionsAreEarned(c: Crypto, accounts: set<string>, inputs: seq<Input>, j: nat)
    requires TicketsFresh(c, accounts, inputs)
    requires var log := After(c, accounts, inputs).log; j < |log| && log[j].SignedIn?
    ensures var log := After(c, accounts, inputs).log;
      && (exists i :: 0 <= i < j && log[i].Minted? && log[i].ticket == log[j].ticket && log[i].user == log[j].user
                      && log[j].at - log[i].at <= 300_000)
      && (forall i :: 0 <= i < j && log[i].SignedIn? ==> log[i].ticket != log[j].ticket)
      && WrongCodes(log[..j], log[j].ticket) < 5
  {
    EveryRun(c, accounts, inputs);
    var log := After(c, accounts, inputs).log;
    hide After;
    assert Lawful(log[..j], log[j]);
    var since :| (log[j].ticket, log[j].user, since) in Mints(log[..j]) && log[j].at - since <= TICKET_TTL_MS;
    MintIsAnEvent(log[..j], log[j].ticket, log[j].user, since);
    forall i | 0 <= i < j && log[i].SignedIn? ensures log[i].ticket != log[j].ticket {
      SignInIsCashed(log[..j], i);
    }
  }

  lemma {:induction false} MintIsAnEvent(log: seq<Event>, ticket: string, user: string, at: int)
    requires (ticket, user, at) in Mints(log)
    ensures exists i :: 0 <= i < |log| && log[i] == Minted(ticket, user, at)
  {
    if log[|log| - 1] != Minted(ticket, user, at) {
      MintIsAnEvent(log[..|log| - 1], ticket, user, at);
    }
  }

  lemma {:induction false} SignInIsCashed(log: seq<Event>, i: nat)
    requires i < |log| && log[i].SignedIn?
    ensures log[i].ticket in Cashed(log)
  {
    if i < |log| - 1 {
      SignInIsCashed(log[..|log| - 1], i);
    }
  }

  /** Accepted time steps strictly increase within one enrolment: between two acceptances without a
      new enrolment the later step is the greater (RFC 6238, section 5.2). */
  lemma StepsIncrease(c: Crypto, accounts: set<string>, inputs: seq<Input>, i: nat, j: nat)
    requires TicketsFresh(c, accounts, inputs)
    requires var log := After(c, accounts, inputs).log;
      i < j < |log| && log[i].StepAccepted? && log[j].StepAccepted? && log[i].user == log[j].user
      && forall k :: i < k < j ==> log[k] != Enrolling(log[i].user)
    ensures After(c, accounts, inputs).log[i].step < After(c, accounts, inputs).log[j].step
  {
    EveryRun(c, accounts, inputs);
    var log := After(c, accounts, inputs).log;
    hide After;
    AcceptedAfter(log, i, j);
    assert Lawful(log[..j], log[j]);
  }

  lemma {:induction false} AcceptedAfter(log: seq<Event>, i: nat, j: nat)
    requires AllLawful(log) && i < j <= |log| && log[i].StepAccepted?
    requires forall k :: i < k < j ==> log[k] != Enrolling(log[i].user)
    ensures LastAccepted(log[..j], log[i].user).Some? && log[i].step <= LastAccepted(log[..j], log[i].user).value
    decreases j
  {
    assert log[..j][..j - 1] == log[..j - 1];
    if j > i + 1 {
      AcceptedAfter(log, i, j - 1);
      assert Lawful(log[..j - 1], log[j - 1]);
    }
  }

  /** Each recovery code works at most once between two replacements of the set. */
  lemma RecoveryCodesWorkOnce(c: Crypto, accounts: set<string>, inputs: seq<Input>, i: nat, j: nat)
    requires TicketsFresh(c, accounts, inputs)
    requires var log := After(c, accounts, inputs).log;
      i < j < |log| && log[i].RecoverySpent? && log[j] == log[i]
    ensures var log := After(c, accounts, inputs).log; exists k :: i < k < j && log[k] == CodesReplaced(log[i].user)
  {
    EveryRun(c, accounts, inputs);
    var log := After(c, accounts, inputs).log;
    hide After;
    assert Lawful(log[..j], log[j]);
    SpentSince(log, i, j);
  }

  lemma {:induction false} SpentSince(log: seq<Event>, i: nat, j: nat)
    requires i < j <= |log| && log[i].RecoverySpent? && log[i].hash !in Spent(log[..j], log[i].user)
    ensures exists k :: i < k < j && log[k] == CodesReplaced(log[i].user)
    decreases j
  {
    assert log[..j][..j - 1] == log[..j - 1];
    if log[j - 1] != CodesReplaced(log[i].user) {
      SpentSince(log, i, j - 1);
    } else {
      assert i != j - 1;
    }
  }

  /** What the n-th request of a run logs. */
  function Logged(c: Crypto, accounts: set<string>, inputs: seq<Input>, n: nat): seq<Event>
    requires n < |inputs|
  {
    Step(c, After(c, accounts, inputs[..n]).state, inputs[n]).1
  }

  /** Whoever signs in with a second factor has, at that moment, an account that exists, is not disabled and has
      its second factor on. */
  lemma NobodyElseSignsIn(c: Crypto, accounts: set<string>, inputs: seq<Input>, n: nat, e: Event)
    requires n < |inputs| && e in Logged(c, accounts, inputs, n) && e.SignedIn?
    ensures var s := After(c, accounts, inputs[..n]).state;
      && inputs[n].Code? && e.ticket == inputs[n].ticket && e.at == inputs[n].now
      && e.user in s.accounts && e.user !in s.disabled && Guarded(s, e.user)
      && EarnsSession(c, s, e.ticket, inputs[n].code, e.at) && e.user == s.tickets[e.ticket].user
  {
    var s := After(c, accounts, inputs[..n]).state;
    if inputs[n].Code? {
      SessionIsEarned(c, s, inputs[n].ticket, inputs[n].code, inputs[n].now);
      hide Step, After;
    } else {
      hide After, Guarded, EarnsSession;
    }
  }

  /** An account that was switched off signs nobody in until it is switched on again or made anew. */
  lemma DisabledStaysOut(c: Crypto, accounts: set<string>, inputs: seq<Input>, i: nat, n: nat, user: string)
    requires i < n < |inputs| && inputs[i] == SetDisabled(user, true)
    requires forall k :: i < k < n ==> inputs[k] != SetDisabled(user, false) && inputs[k] != CreateAccount(user)
    ensures forall e :: e in Logged(c, accounts, inputs, n) && e.SignedIn? ==> e.user != user
  {
    IsShutSince(c, accounts, inputs, i, n, user);
    forall e | e in Logged(c, accounts, inputs, n) && e.SignedIn? ensures e.user != user {
      NobodyElseSignsIn(c, accounts, inputs, n, e);
    }
  }

  lemma {:induction false} IsShutSince(c: Crypto, accounts: set<string>, inputs: seq<Input>, i: nat, n: nat,
                                       user: string)
    requires i < n <= |inputs| && inputs[i] == SetDisabled(user, true)
    requires forall k :: i < k < n ==> inputs[k] != SetDisabled(user, false) && inputs[k] != CreateAccount(user)
    ensures var s := After(c, accounts, inputs[..n]).state; user !in s.accounts || user in s.disabled
    decreases n
  {
    assert inputs[..n][..n - 1] == inputs[..n - 1];
    hide Step;
    if n > i + 1 {
      IsShutSince(c, accounts, inputs, i, n - 1, user);
    }
    ShutStays(c, After(c, accounts, inputs[..n - 1]).state, inputs[n - 1], user);
  }

  lemma ShutStays(c: Crypto, s: State, input: Input, user: string)
    requires input != SetDisabled(user, false) && input != CreateAccount(user)
    requires input == SetDisabled(user, true) || user !in s.accounts || user in s.disabled
    ensures var after := Step(c, s, input).0; user !in after.accounts || user in after.disabled
  {}

  /** Once the second factor was switched off, or the account deleted, nobody signs in with one until a code of
      a new secret has confirmed it. */
  lemma NoFactorNoSession(c: Crypto, accounts: set<string>, inputs: seq<Input>, i: nat, n: nat, user: string)
    requires i < n < |inputs| && (inputs[i] == DisableTotp(user) || inputs[i] == DeleteAccount(user))
    requires forall k :: i < k < n ==> !(inputs[k].Enable? && inputs[k].user == user)
    ensures forall e :: e in Logged(c, accounts, inputs, n) && e.SignedIn? ==> e.user != user
  {
    IsBareSince(c, accounts, inputs, i, n, user);
    forall e | e in Logged(c, accounts, inputs, n) && e.SignedIn? ensures e.user != user {
      NobodyElseSignsIn(c, accounts, inputs, n, e);
    }
  }

  lemma {:induction false} IsBareSince(c: Crypto, accounts: set<string>, inputs: seq<Input>, i: nat, n: nat,
                                       user: string)
    requires i < n <= |inputs| && (inputs[i] == DisableTotp(user) || inputs[i] == DeleteAccount(user))
    requires forall k :: i < k < n ==> !(inputs[k].Enable? && inputs[k].user == user)
    ensures var totp := After(c, accounts, inputs[..n]).state.totp; !(user in totp && totp[user].confirmed)
    decreases n
  {
    assert inputs[..n][..n - 1] == inputs[..n - 1];
    hide Step;
    if n > i + 1 {
      IsBareSince(c, accounts, inputs, i, n - 1, user);
    }
    BareStays(c, After(c, accounts, inputs[..n - 1]).state, inputs[n - 1], user);
  }

  lemma BareStays(c: Crypto, s: State, input: Input, user: string)
    requires !(input.Enable? && input.user == user)
    requires input == DisableTotp(user) || input == DeleteAccount(user) || !(user in s.totp && s.totp[user].confirmed)
    ensures var totp := Step(c, s, input).0.totp; !(user in totp && totp[user].confirmed)
  {}

  /** An account made under the name of a deleted one has nothing of it: it is enabled, without a second factor,
      and no ticket or recovery code is its own. */
  lemma NewAccountIsBare(c: Crypto, s: State, user: string)
    ensures var after := Step(c, Step(c, s, DeleteAccount(user)).0, CreateAccount(user)).0;
      && user in after.accounts && user !in after.disabled && user !in after.totp
      && (forall t :: t in after.tickets ==> after.tickets[t].user != user)
      && (forall h :: (user, h) !in after.recovery)
  {}

  /** Pruning at any earlier moment never changes what a ticket is worth. */
  lemma PruneChangesNothing(s: State, ticket: string, pruned: int, now: int)
    requires pruned <= now
    ensures Peek(Pruned(s, pruned), ticket, now).1 == Peek(s, ticket, now).1
  {}

  // ----- The tables as the source keeps them --------------------------------------------------------------

  datatype Reply =
    | TicketExpired
    | NoTotp
    | AccountDisabled
    | Replayed
    | BadCode
    | Session(user: string)
    | PasswordRefused(why: LoginAttempts.Reply)
    | MfaRequired

  datatype SetupReply = AlreadyEnabled | NoSetup | WrongSetupCode | SetUp

  /** Accounts go by their folded user names, which are also the keys of their attempts. */
  class SignIn {
    var accounts: set<string>
    var disabled: set<string>
    var totp: map<string, Enrolment>
    var recovery: map<(string, string), bool>
    var tickets: map<string, Ticket>

    function Tables(): State
      reads this
    {
      State(accounts, disabled, totp, recovery, tickets)
    }

    constructor (accounts: set<string>)
      ensures Tables() == Initial(accounts).state
    {
      this.accounts := accounts;
      disabled := {};
      totp, recovery, tickets := map[], map[], map[];
    }

    /** Who a live ticket stands for; a dead one is thrown away. */
    method PeekMfaTicket(ticket: string, now: int) returns (user: Option<string>)
      modifies this`tickets
      ensures (Tables(), user) == Peek(old(Tables()), ticket, now)
      ensures user == if Live(old(Tables()), ticket, now) then Some(old(tickets[ticket].user)) else None
      ensures tickets == if Live(old(Tables()), ticket, now) then old(tickets) else old(tickets) - {ticket}
    {
      if ticket !in tickets {
        return None;
      }
      var row := tickets[ticket];
      if now - row.created > TICKET_TTL_MS || row.attempts >= TICKET_MAX_ATTEMPTS {
        tickets := tickets - {ticket};
        return None;
      }
      return Some(row.user);
    }

    /** One more wrong code on the ticket; the fifth throws it away. */
    method FailMfaTicket(ticket: string)
      modifies this`tickets
      ensures Tables() == Fail(old(Tables()), ticket)
      ensures tickets == TicketsAfter(old(Tables()), ticket, true)
    {
      assert ticket !in tickets ==> tickets - {ticket} == tickets;
      if ticket in tickets {
        var row := tickets[ticket];
        tickets := tickets[ticket := row.(attempts := row.attempts + 1)];
        if tickets[ticket].attempts >= TICKET_MAX_ATTEMPTS {
          tickets := tickets - {ticket};
          assert tickets == old(tickets) - {ticket};
        }
      }
    }

    method ConsumeMfaTicket(ticket: string)
      modifies this`tickets
      ensures Tables() == Consume(old(Tables()), ticket)
      ensures tickets == old(tickets) - {ticket}
    {
      tickets := tickets - {ticket};
    }

    /** Spend a recovery code, and say whether there was one to spend. */
    method ConsumeRecoveryCode(user: string, hash: Option<string>) returns (spent: bool)
      modifies this`recovery
      ensures spent == CanSpend(old(Tables()), user, hash)
      ensures spent <==> hash.Some? && (user, hash.value) in old(recovery) && !old(recovery)[(user, hash.value)]
      ensures recovery == if spent then old(recovery)[(user, hash.value) := true] else old(recovery)
    {
      if hash.None? || (user, hash.value) !in recovery || recovery[(user, hash.value)] {
        return false;
      }
      recovery := recovery[(user, hash.value) := true];
      return true;
    }

    /** POST /login/password with nobody else at the door: the right password of an account with a
        second factor buys a ticket, not a session. */
    method LoginPassword(attempts: LoginAttempts.AttemptStore, c: Crypto, user: string, passwordOk: bool,
                         ticket: string, now: int, later: int)
        returns (r: Reply, events: seq<Event>)
      requires now <= later
      modifies attempts, this`tickets
      ensures var ok, off := passwordOk && user in accounts, user in disabled;
        var (row, why) := LoginAttempts.PasswordStep(old(attempts.Find(user)), ok, off, now, later);
        && attempts.Find(user) == row && attempts.rows - {user} == old(attempts.rows) - {user}
        && (why.PasswordAccepted? ==> (Tables(), events) == Step(c, old(Tables()), PasswordOk(user, ticket, later)))
        && (!why.PasswordAccepted? ==> r == PasswordRefused(why) && (Tables(), events) == (old(Tables()), []))
      ensures var right := !old(attempts.LockedAt(user, now)) && passwordOk && user in accounts;
        && (r == PasswordRefused(LoginAttempts.LockedOut) <==> old(attempts.LockedAt(user, now)))
        && (r == PasswordRefused(LoginAttempts.BadCredentials) <==> !old(attempts.LockedAt(user, now)) && !right)
        && (r == PasswordRefused(LoginAttempts.AccountDisabled) <==> right && user in disabled)
        && (r == MfaRequired <==> right && user !in disabled && Guarded(old(Tables()), user))
        && (r == Session(user) <==> right && user !in disabled && !Guarded(old(Tables()), user))
      ensures tickets == if r == MfaRequired then old(tickets)[ticket := Ticket(user, later, 0)] else old(tickets)
      ensures events == if r == MfaRequired then [Minted(ticket, user, later)] else []
    {
      hide LoginAttempts.Failed;
      var why := attempts.LoginPassword(user, passwordOk && user in accounts, user in disabled, now, later);
      if why != LoginAttempts.PasswordAccepted {
        return PasswordRefused(why), [];
      }
      if TotpEnabled(Tables(), user) {
        tickets := tickets[ticket := Ticket(user, later, 0)];
        return MfaRequired, [Minted(ticket, user, later)];
      }
      return Session(user), [];
    }

    /** The account the counters of a code go to, and how they change. */
    twostate predicate CountsCode(attempts: LoginAttempts.AttemptStore, user: string, ok: bool, now: int)
      reads attempts
    {
      && attempts.Find(user) == LoginAttempts.CodeCounted(old(attempts.Find(user)), ok, now)
      && attempts.rows ==
           if ok then old(attempts.rows) - {user}
           else old(attempts.rows)[user := LoginAttempts.Failed(old(attempts.Find(user)), now)]
    }

    /** POST /login/totp, one atomic step: nothing is awaited between the checks and the updates.  Wrong
        codes count against the account, and a session clears its count. */
    method LoginTotp(attempts: LoginAttempts.AttemptStore, c: Crypto, ticket: string, code: string, now: int)
        returns (r: Reply, events: seq<Event>)
      modifies attempts, this`tickets, this`totp, this`recovery
      ensures (Tables(), events) == Step(c, old(Tables()), Code(ticket, code, now))
      ensures var was := old(Tables());
        && (r == TicketExpired <==> !Live(was, ticket, now))
        && (r.Session? <==> EarnsSession(c, was, ticket, code, now))
        && (Live(was, ticket, now) ==>
              var user := was.tickets[ticket].user;
              && (r == NoTotp <==> !Guarded(was, user))
              && (r == AccountDisabled <==> Guarded(was, user) && user in disabled)
              && (r == Replayed <==> Admitted(was, ticket, now) && StepOf(c, was, user, code, now).Some?
                                     && !IsNewStep(c, was, user, code, now))
              && (r == BadCode <==> Admitted(was, ticket, now) && StepOf(c, was, user, code, now).None?
                                    && !IsUnused(c, was, user, code, now))
              && (r.Session? ==> r.user == user)
              && (r.Session? || r in {Replayed, BadCode} ==> CountsCode(attempts, user, r.Session?, now)))
      ensures r in {TicketExpired, NoTotp, AccountDisabled} ==> attempts.rows == old(attempts.rows)
    {
      hide CodeStep, LoginAttempts.CodeCounted;
      var userId := PeekMfaTicket(ticket, now);
      if userId.None? {
        return TicketExpired, [];
      }
      r, events := CheckCode(attempts, c, userId.value, ticket, code, now);
    }

    /** The same once the ticket is known to be good. */
    method CheckCode(attempts: LoginAttempts.AttemptStore, c: Crypto, user: string, ticket: string, code: string,
                     now: int)
        returns (r: Reply, events: seq<Event>)
      modifies attempts, this`tickets, this`totp, this`recovery
      ensures (Tables(), events) == CodeStep(c, old(Tables()), user, ticket, code, now)
      ensures var was := old(Tables());
        && (r == NoTotp <==> !Guarded(was, user))
        && (r == AccountDisabled <==> Guarded(was, user) && user in disabled)
        && (r !in {NoTotp, AccountDisabled} ==>
              && (r == Replayed <==> StepOf(c, was, user, code, now).Some? && !IsNewStep(c, was, user, code, now))
              && (r == BadCode <==> StepOf(c, was, user, code, now).None? && !IsUnused(c, was, user, code, now))
              && (r == Session(user) <==> IsNewStep(c, was, user, code, now) || IsUnused(c, was, user, code, now))
              && CountsCode(attempts, user, r == Session(user), now))
      ensures r in {NoTotp, AccountDisabled} ==> attempts.rows == old(attempts.rows)
    {
      hide LoginAttempts.Failed;
      if user !in accounts || user !in totp || !totp[user].confirmed {
        ConsumeMfaTicket(ticket);
        return NoTotp, [];
      }
      if user in disabled {
        ConsumeMfaTicket(ticket);
        return AccountDisabled, [];
      }
      var row := totp[user];
      var step := c.verify(row.secret, code, now);
      if step.Some? {
        if row.lastStep.Some? && step.value <= row.lastStep.value {
          FailMfaTicket(ticket);
          var _ := attempts.RecordFailure(user, now);
          return Replayed, [WrongCode(ticket)];
        }
        totp := totp[user := row.(lastStep := step)];
        ConsumeMfaTicket(ticket);
        attempts.RecordSuccess(user);
        return Session(user), [StepAccepted(user, step.value), SignedIn(ticket, user, now)];
      }
      var hash := c.recoveryHash(code);
      var spent := ConsumeRecoveryCode(user, hash);
      if !spent {
        FailMfaTicket(ticket);
        var _ := attempts.RecordFailure(user, now);
        return BadCode, [WrongCode(ticket)];
      }
      ConsumeMfaTicket(ticket);
      attempts.RecordSuccess(user);
      return Session(user), [RecoverySpent(user, hash.value), SignedIn(ticket, user, now)];
    }

    /** POST /totp/setup: a new secret each time, unless the second factor is on. */
    method SetupTotp(c: Crypto, user: string, secret: string) returns (r: SetupReply, events: seq<Event>)
      modifies this`totp
      ensures (Tables(), events) == Step(c, old(Tables()), Setup(user, secret))
      ensures r == if user in old(totp) && old(totp)[user].confirmed then AlreadyEnabled else SetUp
      ensures totp == if r == SetUp then old(totp)[user := Enrolment(secret, false, None)] else old(totp)
      ensures events == if r == SetUp then [Enrolling(user)] else []
    {
      if TotpEnabled(Tables(), user) {
        return AlreadyEnabled, [];
      }
      totp := totp[user := Enrolment(secret, false, None)];
      return SetUp, [Enrolling(user)];
    }

    /** POST /totp/enable: a code of the new secret confirms it, and is thereby used. */
    method EnableTotp(c: Crypto, user: string, code: string, now: int, hashes: set<string>)
        returns (r: SetupReply, events: seq<Event>)
      modifies this`totp, this`recovery
      ensures (Tables(), events) == Step(c, old(Tables()), Enable(user, code, now, hashes))
      ensures r == NoSetup <==> user !in old(totp)
      ensures r == AlreadyEnabled <==> user in old(totp) && old(totp)[user].confirmed
      ensures r == WrongSetupCode <==>
        user in old(totp) && !old(totp)[user].confirmed && StepOf(c, old(Tables()), user, code, now).None?
      ensures r == SetUp ==>
        && StepOf(c, old(Tables()), user, code, now).Some?
        && var step := StepOf(c, old(Tables()), user, code, now);
           && totp == old(totp)[user := Enrolment(old(totp)[user].secret, true, step)]
           && events == [StepAccepted(user, step.value), CodesReplaced(user)]
           && forall h :: CanSpend(Tables(), user, Some(h)) <==> h in hashes
      ensures r != SetUp ==> (Tables(), events) == (old(Tables()), [])
    {
      if user !in totp {
        return NoSetup, [];
      }
      if totp[user].confirmed {
        return AlreadyEnabled, [];
      }
      var step := c.verify(totp[user].secret, code, now);
      if step.None? {
        return WrongSetupCode, [];
      }
      totp := totp[user := totp[user].(confirmed := true, lastStep := step)];
      ReplaceRecoveryCodes(user, hashes);
      return SetUp, [StepAccepted(user, step.value), CodesReplaced(user)];
    }

    /** The old set of the user goes, used or not, and the new one is unused. */
    method ReplaceRecoveryCodes(user: string, hashes: set<string>)
      modifies this`recovery
      ensures Tables() == ReplaceCodes(old(Tables()), user, hashes)
      ensures forall h :: CanSpend(Tables(), user, Some(h)) <==> h in hashes
      ensures forall u, h :: u != user ==> CanSpend(Tables(), u, Some(h)) == CanSpend(old(Tables()), u, Some(h))
    {
      recovery := map k | k in recovery && k.0 != user :: recovery[k];
      recovery := recovery + (map h | h in hashes :: (user, h) := false);
    }

    /** POST /totp/recovery-codes, for a user whose second factor is on and who gives the password. */
    method NewCodes(c: Crypto, user: string, passwordOk: bool, hashes: set<string>)
        returns (done: bool, events: seq<Event>)
      modifies this`recovery
      ensures done <==> user in totp && totp[user].confirmed && passwordOk
      ensures done ==> events == [CodesReplaced(user)] && forall h :: CanSpend(Tables(), user, Some(h)) <==> h in hashes
      ensures done ==> (Tables(), events) == Step(c, old(Tables()), NewRecoveryCodes(user, hashes))
      ensures !done ==> (Tables(), events) == (old(Tables()), [])
    {
      if !TotpEnabled(Tables(), user) || !passwordOk {
        return false, [];
      }
      ReplaceRecoveryCodes(user, hashes);
      return true, [CodesReplaced(user)];
    }

    /** The tickets and recovery codes of the user have gone, and all others are as they were. */
    twostate predicate GoneWith(user: string)
      reads this
    {
      && (forall t :: t in tickets <==> t in old(tickets) && old(tickets)[t].user != user)
      && (forall t :: t in tickets ==> tickets[t] == old(tickets)[t])
      && (forall k :: k in recovery <==> k in old(recovery) && k.0 != user)
      && (forall k :: k in recovery ==> recovery[k] == old(recovery)[k])
    }

    /** POST /totp/disable, for a user who gives the password: secret, recovery codes and tickets go. */
    method TurnOff(c: Crypto, user: string, passwordOk: bool) returns (done: bool)
      modifies this`totp, this`recovery, this`tickets
      ensures done == passwordOk
      ensures Tables() == if done then Step(c, old(Tables()), DisableTotp(user)).0 else old(Tables())
      ensures done ==> totp == old(totp) - {user} && GoneWith(user)
    {
      if !passwordOk {
        return false;
      }
      totp := totp - {user};
      recovery := map k | k in recovery && k.0 != user :: recovery[k];
      tickets := map t | t in tickets && tickets[t].user != user :: tickets[t];
      return true;
    }

    /** An account goes, and with it all rows that refer to it; a new one of the same name starts bare. */
    method DeleteUser(c: Crypto, user: string)
      modifies this
      ensures Tables() == Step(c, old(Tables()), DeleteAccount(user)).0
      ensures (accounts, disabled, totp) == (old(accounts) - {user}, old(disabled) - {user}, old(totp) - {user})
      ensures GoneWith(user)
    {
      accounts, disabled, totp := accounts - {user}, disabled - {user}, totp - {user};
      recovery := map k | k in recovery && k.0 != user :: recovery[k];
      tickets := map t | t in tickets && tickets[t].user != user :: tickets[t];
    }

    /** Every so often old tickets are cleared away. */
    method PruneEphemeral(c: Crypto, now: int)
      modifies this`tickets
      ensures Tables() == Step(c, old(Tables()), PruneTickets(now)).0
      ensures forall t :: t in tickets <==> t in old(tickets) && now - old(tickets)[t].created <= 600_000
      ensures forall t :: t in tickets ==> tickets[t] == old(tickets)[t]
    {
      tickets := map t | t in tickets && tickets[t].created >= now - PRUNE_AGE_MS :: tickets[t];
    }

    /** An admin switches the account off or on. */
    method SetUserDisabled(c: Crypto, user: string, off: bool)
      modifies this`disabled
      ensures Tables() == Step(c, old(Tables()), SetDisabled(user, off)).0
      ensures (user in disabled <==> off) && disabled - {user} == old(disabled) - {user}
    {
      disabled := if off then disabled + {user} else disabled - {user};
    }
  }
}
