/** The OpenID provider's short-lived artefacts: one-time authorization codes and access tokens,
    and the authorize and token endpoints that trade one for the other.  Times are in milliseconds. */
module OidcProvider {
  import opened Wrappers

  const CODE_TTL_MS := 60000
  const TOKEN_TTL_MS := 3600 * 1000

  datatype AuthCode = AuthCode(user: string, client: string, redirect: string, scope: string,
                               nonce: Option<string>, challenge: Option<string>, authTime: int, exp: int)

  datatype AccessToken = AccessToken(user: string, client: string, scope: string, exp: int)

  /** The claims of an ID token that go back to the flow; times are in seconds. */
  datatype IdToken = IdToken(sub: string, aud: string, nonce: Option<string>, authTime: int, iat: int, exp: int)

  /** What the endpoints ask of the rest of the system: registered redirect URIs by client, the
      check of a client secret, SHA-256 in base64url, and whether a user still exists. */
  datatype World = World(
    clients: map<string, set<string>>,
    secretOk: (string, string) -> bool,
    sha256: string -> string,
    userExists: string -> bool)

  datatype Event =
    | Allowed(code: string, user: string, client: string, redirect: string, scope: string,
              nonce: Option<string>, challenge: Option<string>, w: World, at: int)
    | TokenIssued(token: string, id: IdToken, code: string, user: string, client: string, redirect: string,
                  scope: string, verifier: Option<string>, secret: Option<string>, w: World, at: int)
    | Answered(token: string, user: string, client: string, scope: string, w: World, at: int)

  datatype AuthorizeRequest = AuthorizeRequest(session: Option<string>, client: Option<string>,
                                               redirect: Option<string>, scope: Option<string>, nonce: Option<string>,
                                               challenge: Option<string>, allow: bool)

  datatype TokenRequest = TokenRequest(grantOk: bool, client: Option<string>, secret: Option<string>, code: string,
                                       redirect: Option<string>, verifier: Option<string>)

  datatype State = State(codes: map<string, AuthCode>, tokens: map<string, AccessToken>)

  // ----- The store -------------------------------------------------------------------------

  /** One-time: the code is gone afterwards, and returned only if it has not expired. */
  function Consume(s: State, code: string, now: int): (State, Option<AuthCode>) {
    if code !in s.codes then (s, None)
    else (s.(codes := s.codes - {code}), if s.codes[code].exp > now then Some(s.codes[code]) else None)
  }

  /** An access token is good until it expires; an expired one is dropped when it is looked up. */
  function GetToken(s: State, token: string, now: int): (State, Option<AccessToken>) {
    if token !in s.tokens then (s, None)
    else if s.tokens[token].exp <= now then (s.(tokens := s.tokens - {token}), None)
    else (s, Some(s.tokens[token]))
  }

  function Pruned(s: State, now: int): State {
    State(map k | k in s.codes && s.codes[k].exp > now :: s.codes[k],
          map k | k in s.tokens && s.tokens[k].exp > now :: s.tokens[k])
  }

  // ----- The endpoints -----------------------------------------------------------------------

  /** The client and redirect URI must both be registered; an empty string counts as missing. */
  function ValidClientRedirect(w: World, client: Option<string>, redirect: Option<string>): Option<(string, string)> {
    if client.None? || client.value == "" || client.value !in w.clients then None
    else if redirect.None? || redirect.value == "" || redirect.value !in w.clients[client.value] then None
    else Some((client.value, redirect.value))
  }

  function NewCode(user: string, client: string, redirect: string, scope: string, nonce: Option<string>,
                   challenge: Option<string>, now: int): AuthCode {
    AuthCode(user, client, redirect, scope, nonce, challenge, now / 1000, now + CODE_TTL_MS)
  }

  function Authorize(w: World, s: State, r: AuthorizeRequest, newId: string, now: int): (State, seq<Event>) {
    var valid := ValidClientRedirect(w, r.client, r.redirect);
    if valid.None? || r.session.None? || !r.allow then (s, [])
    else
      var scope := if r.scope.Some? then r.scope.value else "openid";
      var c := NewCode(r.session.value, valid.value.0, valid.value.1, scope, r.nonce, r.challenge, now);
      (s.(codes := s.codes[newId := c]),
       [Allowed(newId, c.user, c.client, c.redirect, c.scope, c.nonce, c.challenge, w, now)])
  }

  /** An empty string counts as missing. */
  predicate Given(text: Option<string>) { text.Some? && text.value != "" }

  /** A recorded challenge asks for its verifier, otherwise the client's secret is asked for. */
  predicate Authenticated(w: World, challenge: Option<string>, client: string, verifier: Option<string>,
                          secret: Option<string>) {
    if Given(challenge) then verifier.Some? && verifier.value != "" && w.sha256(verifier.value) == challenge.value
    else secret.Some? && secret.value != "" && w.secretOk(client, secret.value)
  }

  function Signed(user: string, client: string, nonce: Option<string>, authTime: int, now: int): IdToken {
    IdToken(user, client, if Given(nonce) then nonce else None, authTime, now / 1000, now / 1000 + 3600)
  }

  function Token(w: World, s: State, r: TokenRequest, newId: string, now: int): (State, seq<Event>) {
    if !r.grantOk || r.client.None? || r.client.value == "" || r.client.value !in w.clients then (s, [])
    else
      var (rest, c) := Consume(s, r.code, now);
      if c.None? || c.value.client != r.client.value then (rest, [])
      else if r.redirect.None? || c.value.redirect != r.redirect.value then (rest, [])
      else if !Authenticated(w, c.value.challenge, r.client.value, r.verifier, r.secret) then (rest, [])
      else if !w.userExists(c.value.user) then (rest, [])
      else
        var id := Signed(c.value.user, r.client.value, c.value.nonce, c.value.authTime, now);
        var t := AccessToken(c.value.user, r.client.value, c.value.scope, now + TOKEN_TTL_MS);
        (rest.(tokens := rest.tokens[newId := t]),
         [TokenIssued(newId, id, r.code, c.value.user, r.client.value, c.value.redirect, c.value.scope,
                      r.verifier, r.secret, w, now)])
  }

  datatype Input =
    | AuthorizePost(w: World, request: AuthorizeRequest, newId: string, now: int)
    | TokenPost(w: World, trade: TokenRequest, newId: string, now: int)
    | UserInfo(w: World, token: string, now: int)
    | Prune(now: int)

  function Step(s: State, input: Input): (State, seq<Event>) {
    match input
    case AuthorizePost(w, r, newId, now) => Authorize(w, s, r, newId, now)
    case TokenPost(w, r, newId, now) => Token(w, s, r, newId, now)
    case UserInfo(w, token, now) =>
      var (rest, t) := GetToken(s, token, now);
      (rest, if t.Some? && w.userExists(t.value.user)
             then [Answered(token, t.value.user, t.value.client, t.value.scope, w, now)] else [])
    case Prune(now) => (Pruned(s, now), [])
  }

  // ----- What a request must show, told without the endpoints -----------------------------------------

  /** The client is registered, with this redirect URI among its own. */
  predicate Registered(w: World, client: string, redirect: string) {
    client != "" && redirect != "" && client in w.clients && redirect in w.clients[client]
  }

  /** The verifier whose digest was sent with the consent, or else the secret of the client. */
  ghost predicate Proves(w: World, challenge: Option<string>, client: string, verifier: Option<string>,
                         secret: Option<string>) {
    if challenge.Some? && challenge.value != "" then
      exists text :: verifier == Some(text) && text != "" && w.sha256(text) == challenge.value
    else exists text :: secret == Some(text) && text != "" && w.secretOk(client, text)
  }

  /** A registered client trades a code of its own that is still good, names the redirect URI it was sent to,
      proves that it is the one, and the user has not gone. */
  ghost predicate Tradable(w: World, s: State, r: TokenRequest, now: int) {
    && r.grantOk && r.client.Some? && r.client.value != "" && r.client.value in w.clients
    && r.code in s.codes
    && var c := s.codes[r.code];
       && now < c.exp && r.client == Some(c.client) && r.redirect == Some(c.redirect)
       && Proves(w, c.challenge, c.client, r.verifier, r.secret) && w.userExists(c.user)
  }

  // ----- The provider object -------------------------------------------------------------------

  /** The two maps, updated in place. */
  class Provider {
    var codes: map<string, AuthCode>
    var tokens: map<string, AccessToken>

    ghost function Contents(): State
      reads this
    {
      State(codes, tokens)
    }

    constructor ()
      ensures Contents() == State(map[], map[])
    {
      codes := map[];
      tokens := map[];
    }

    method IssueCode(newId: string, user: string, client: string, redirect: string, scope: string,
                     nonce: Option<string>, challenge: Option<string>, authTime: int, now: int)
      modifies this
      ensures var c := AuthCode(user, client, redirect, scope, nonce, challenge, authTime, now + 60_000);
        Contents() == old(Contents()).(codes := old(codes)[newId := c])
    {
      codes := codes[newId :=
        AuthCode(user, client, redirect, scope, nonce, challenge, authTime, now + CODE_TTL_MS)];
    }

    method ConsumeCode(code: string, now: int) returns (c: Option<AuthCode>)
      modifies this
      ensures (Contents(), c) == Consume(old(Contents()), code, now)
      ensures c == if code in old(codes) && now < old(codes)[code].exp then Some(old(codes)[code]) else None
      ensures codes == old(codes) - {code} && tokens == old(tokens)
    {
      if code !in codes {
        return None;
      }
      var found := codes[code];
      codes := codes - {code};
      c := if found.exp > now then Some(found) else None;
    }

    method IssueAccessToken(newId: string, user: string, client: string, scope: string, now: int)
      modifies this
      ensures Contents() == old(Contents()).(tokens :=
                old(tokens)[newId := AccessToken(user, client, scope, now + 3_600_000)])
    {
      tokens := tokens[newId := AccessToken(user, client, scope, now + TOKEN_TTL_MS)];
    }

    method GetAccessToken(token: string, now: int) returns (t: Option<AccessToken>)
      modifies this
      ensures (Contents(), t) == GetToken(old(Contents()), token, now)
      ensures t == if token in old(tokens) && now < old(tokens)[token].exp then Some(old(tokens)[token]) else None
      ensures tokens == if t.Some? then old(tokens) else old(tokens) - {token}
      ensures codes == old(codes)
    {
      assert token !in tokens ==> tokens - {token} == tokens;
      if token !in tokens {
        return None;
      }
      if tokens[token].exp <= now {
        tokens := tokens - {token};
        return None;
      }
      t := Some(tokens[token]);
    }

    /** The expired codes go one by one. */
    method PruneCodes(now: int)
      modifies this`codes
      ensures codes == Pruned(old(Contents()), now).codes
    {
      ghost var was := codes;
      var left := codes.Keys;
      while left != {}
        invariant left <= codes.Keys <= was.Keys
        invariant forall k :: k in codes ==> codes[k] == was[k] && (k in left || codes[k].exp > now)
        invariant forall k :: k in was && was[k].exp > now ==> k in codes
        decreases |left|
      {
        var k :| k in left;
        left := left - {k};
        if codes[k].exp <= now {
          codes := codes - {k};
        }
      }
    }

    method PruneTokens(now: int)
      modifies this`tokens
      ensures tokens == Pruned(old(Contents()), now).tokens
    {
      ghost var was := tokens;
      var left := tokens.Keys;
      while left != {}
        invariant left <= tokens.Keys <= was.Keys
        invariant forall k :: k in tokens ==> tokens[k] == was[k] && (k in left || tokens[k].exp > now)
        invariant forall k :: k in was && was[k].exp > now ==> k in tokens
        decreases |left|
      {
        var k :| k in left;
        left := left - {k};
        if tokens[k].exp <= now {
          tokens := tokens - {k};
        }
      }
    }

    method PruneOidc(now: int)
      modifies this
      ensures Contents() == Pruned(old(Contents()), now)
      ensures forall k :: k in codes <==> k in old(codes) && now < old(codes)[k].exp
      ensures forall k :: k in codes ==> codes[k] == old(codes)[k]
      ensures forall k :: k in tokens <==> k in old(tokens) && now < old(tokens)[k].exp
      ensures forall k :: k in tokens ==> tokens[k] == old(tokens)[k]
    {
      PruneCodes(now);
      PruneTokens(now);
    }

    /** The consent form: true when the user is sent back with a code. */
    method PostAuthorize(w: World, r: AuthorizeRequest, newId: string, now: int) returns (allowed: bool)
      modifies this
      ensures Contents() == Authorize(w, old(Contents()), r, newId, now).0
      ensures allowed <==>
        && r.client.Some? && r.redirect.Some? && Registered(w, r.client.value, r.redirect.value)
        && r.session.Some? && r.allow
      ensures allowed ==>
        var scope := if r.scope.Some? then r.scope.value else "openid";
        codes == old(codes)[newId := AuthCode(r.session.value, r.client.value, r.redirect.value, scope, r.nonce,
                                              r.challenge, now / 1000, now + 60_000)]
      ensures tokens == old(tokens) && (!allowed ==> codes == old(codes))
    {
      var valid := ValidClientRedirect(w, r.client, r.redirect);
      if valid.None? || r.session.None? || !r.allow {
        return false;
      }
      var scope := if r.scope.Some? then r.scope.value else "openid";
      IssueCode(newId, r.session.value, valid.value.0, valid.value.1, scope, r.nonce, r.challenge, now / 1000, now);
      allowed := true;
    }

    /** The token request: the ID token and the scope granted, or nothing when it is refused. */
    method PostToken(w: World, r: TokenRequest, newId: string, now: int) returns (granted: Option<(IdToken, string)>)
      modifies this
      ensures Contents() == Token(w, old(Contents()), r, newId, now).0
      ensures var events := Token(w, old(Contents()), r, newId, now).1;
        granted == if events == [] then None else Some((events[0].id, events[0].scope))
      ensures granted.Some? <==> Tradable(w, old(Contents()), r, now)
      ensures granted.Some? ==>
        var c := old(codes)[r.code];
        && granted.value.0 == IdToken(c.user, c.client, if c.nonce == Some("") then None else c.nonce, c.authTime,
                                      now / 1000, now / 1000 + 3600)
        && granted.value.1 == c.scope
        && tokens == old(tokens)[newId := AccessToken(c.user, c.client, c.scope, now + 3_600_000)]
      ensures granted.None? ==> tokens == old(tokens)
      ensures codes ==
        if r.grantOk && r.client.Some? && r.client.value != "" && r.client.value in w.clients
        then old(codes) - {r.code} else old(codes)
    {
      if !r.grantOk || r.client.None? || r.client.value == "" || r.client.value !in w.clients {
        return None;
      }
      var c := ConsumeCode(r.code, now);
      if c.None? || c.value.client != r.client.value || r.redirect.None? || c.value.redirect != r.redirect.value {
        return None;
      }
      if !Authenticated(w, c.value.challenge, r.client.value, r.verifier, r.secret) || !w.userExists(c.value.user) {
        return None;
      }
      var id := Signed(c.value.user, r.client.value, c.value.nonce, c.value.authTime, now);
      IssueAccessToken(newId, c.value.user, r.client.value, c.value.scope, now);
      granted := Some((id, c.value.scope));
    }

    /** The userinfo request: the user and the scope of the claims told, or nothing. */
    method UserInfo(w: World, token: string, now: int) returns (told: Option<(string, string)>)
      modifies this
      ensures Contents() == Step(old(Contents()), Input.UserInfo(w, token, now)).0
      ensures told.Some? <==>
        token in old(tokens) && now < old(tokens)[token].exp && w.userExists(old(tokens)[token].user)
      ensures told.Some? ==> told.value == (old(tokens)[token].user, old(tokens)[token].scope)
    {
      var t := GetAccessToken(token, now);
      if t.None? || !w.userExists(t.value.user) {
        return None;
      }
      told := Some((t.value.user, t.value.scope));
    }
  }

  // ----- Histories --------------------------------------------------------------------------------

  /** The codes handed out, and the codes traded in. */
  function Issued(log: seq<Event>): set<string> {
    if |log| == 0 then {}
    else Issued(log[..|log| - 1]) + (if log[|log| - 1].Allowed? then {log[|log| - 1].code} else {})
  }

  function Traded(log: seq<Event>): set<string> {
    if |log| == 0 then {}
    else Traded(log[..|log| - 1]) + (if log[|log| - 1].TokenIssued? then {log[|log| - 1].code} else {})
  }

  /** The decision a stored code stands for. */
  ghost predicate StandsFor(d: Event, code: string, c: AuthCode) {
    d.Allowed? && d == Allowed(code, c.user, c.client, c.redirect, c.scope, c.nonce, c.challenge, d.w,
                               c.exp - CODE_TTL_MS)
  }

  ghost predicate Decided(log: seq<Event>, code: string, c: AuthCode) {
    exists i :: 0 <= i < |log| && StandsFor(log[i], code, c)
  }

  ghost predicate CodeMatches(c: AuthCode, code: string, log: seq<Event>) {
    && Decided(log, code, c) && code in Issued(log) && code !in Traded(log)
    && c.authTime == (c.exp - CODE_TTL_MS) / 1000
  }

  /** A trade in the history that handed out this token. */
  ghost predicate TokenMatches(t: AccessToken, token: string, log: seq<Event>) {
    exists i :: 0 <= i < |log| && log[i].TokenIssued? && log[i].token == token
      && log[i].user == t.user && log[i].client == t.client && log[i].scope == t.scope
      && log[i].at == t.exp - TOKEN_TTL_MS
  }

  /** The decision `d` carries the trade `e`: the same code, user, client, redirect URI and scope, less than a
      minute old, answered with the right proof while client and user are there, and an ID token with its nonce
      and its time. */
  ghost predicate Carries(d: Event, e: Event)
    requires e.TokenIssued?
  {
    && d.Allowed? && d.code == e.code && d.user == e.user && d.client == e.client
    && d.redirect == e.redirect && d.scope == e.scope
    && e.at < d.at + 60_000
    && e.client in e.w.clients && e.w.userExists(e.user)
    && Proves(e.w, d.challenge, e.client, e.verifier, e.secret)
    && e.id == IdToken(d.user, d.client, if d.nonce == Some("") then None else d.nonce, d.at / 1000,
                       e.at / 1000, e.at / 1000 + 3600)
  }

  /** A decision names a client and a redirect URI registered for it at that moment.  A trade needs a decision
      whose code was not traded before; an answer needs a token handed out less than an hour ago to the same
      user, who is still there. */
  ghost predicate Justified(log: seq<Event>, e: Event) {
    match e
    case Allowed(_, _, client, redirect, _, _, _, w, _) => Registered(w, client, redirect)
    case TokenIssued(_, _, _, _, _, _, _, _, _, _, _) =>
      e.code !in Traded(log) && exists i :: 0 <= i < |log| && Carries(log[i], e)
    case Answered(_, _, _, _, _, _) =>
      && e.w.userExists(e.user)
      && exists i :: 0 <= i < |log| && log[i].TokenIssued? && log[i].token == e.token && log[i].user == e.user
           && log[i].client == e.client && log[i].scope == e.scope && e.at < log[i].at + 3_600_000
  }

  datatype Run = Run(state: State, log: seq<Event>)

  ghost predicate Lawful(log: seq<Event>) {
    forall n :: 0 <= n < |log| ==> Justified(log[..n], log[n])
  }

  ghost predicate CodesMatch(r: Run) {
    forall code :: code in r.state.codes ==> CodeMatches(r.state.codes[code], code, r.log)
  }

  ghost predicate TokensMatch(r: Run) {
    forall token :: token in r.state.tokens ==> TokenMatches(r.state.tokens[token], token, r.log)
  }

  ghost predicate Inv(r: Run) { Lawful(r.log) && CodesMatch(r) && TokensMatch(r) }

  function Advance(r: Run, input: Input): Run {
    var (s, events) := Step(r.state, input);
    Run(s, r.log + events)
  }

  /** Codes are random: a new one was never handed out. */
  ghost predicate FreshCode(r: Run, input: Input) {
    input.AuthorizePost? ==> input.newId !in Issued(r.log) && input.newId !in Traded(r.log)
  }

  lemma OneMore(log: seq<Event>, e: Event)
    ensures Issued(log + [e]) == Issued(log) + (if e.Allowed? then {e.code} else {})
    ensures Traded(log + [e]) == Traded(log) + (if e.TokenIssued? then {e.code} else {})
  {
    assert (log + [e])[..|log|] == log;
  }

  lemma DecidedLater(log: seq<Event>, e: Event, code: string, c: AuthCode)
    requires Decided(log, code, c)
    ensures Decided(log + [e], code, c)
  {
    var i :| 0 <= i < |log| && StandsFor(log[i], code, c);
    assert (log + [e])[i] == log[i];
  }

  lemma TokenLater(log: seq<Event>, e: Event, token: string, t: AccessToken)
    requires TokenMatches(t, token, log)
    ensures TokenMatches(t, token, log + [e])
  {
    var i :| 0 <= i < |log| && log[i].TokenIssued? && log[i].token == token
      && log[i].user == t.user && log[i].client == t.client && log[i].scope == t.scope
      && log[i].at == t.exp - TOKEN_TTL_MS;
    assert (log + [e])[i] == log[i];
  }

  lemma TokensLater(r: Run, e: Event)
    requires TokensMatch(r)
    ensures TokensMatch(r.(log := r.log + [e]))
  {
    forall token | token in r.state.tokens ensures TokenMatches(r.state.tokens[token], token, r.log + [e]) {
      TokenLater(r.log, e, token, r.state.tokens[token]);
    }
  }

  lemma LawfulAppend(log: seq<Event>, e: Event)
    requires Lawful(log) && Justified(log, e)
    ensures Lawful(log + [e])
  {
    var more := log + [e];
    hide Justified;
    forall n | 0 <= n < |more| ensures Justified(more[..n], more[n]) {
      if n < |log| {
        assert more[..n] == log[..n];
      } else {
        assert more[..n] == log;
      }
    }
  }

  lemma AuthorizeKeeps(r: Run, newId: string, c: AuthCode, e: Event)
    requires Inv(r) && newId !in Issued(r.log) && newId !in Traded(r.log)
    requires c.authTime == (c.exp - CODE_TTL_MS) / 1000 && StandsFor(e, newId, c) && Justified(r.log, e)
    ensures Inv(Run(r.state.(codes := r.state.codes[newId := c]), r.log + [e]))
  {
    var next := Run(r.state.(codes := r.state.codes[newId := c]), r.log + [e]);
    OneMore(r.log, e);
    LawfulAppend(r.log, e);
    TokensLater(r, e);
    hide Lawful, Issued, Traded, TokenMatches;
    forall code | code in next.state.codes ensures CodeMatches(next.state.codes[code], code, next.log) {
      if code == newId {
        assert next.log[|r.log|] == e;
      } else {
        DecidedLater(r.log, e, code, r.state.codes[code]);
      }
    }
  }

  /** Entries may go at any time. */
  lemma FewerKeeps(r: Run, s: State)
    requires Inv(r)
    requires forall code :: code in s.codes ==> code in r.state.codes && s.codes[code] == r.state.codes[code]
    requires forall token :: token in s.tokens ==> token in r.state.tokens && s.tokens[token] == r.state.tokens[token]
    ensures Inv(r.(state := s))
  {
    hide CodeMatches, TokenMatches, Justified;
  }

  lemma TradeKeeps(r: Run, s: State, e: Event)
    requires Inv(r) && e.TokenIssued? && Justified(r.log, e)
    requires forall code :: code in s.codes ==>
        code in r.state.codes && s.codes[code] == r.state.codes[code] && code != e.code
    requires s.tokens == r.state.tokens[e.token := AccessToken(e.user, e.client, e.scope, e.at + TOKEN_TTL_MS)]
    ensures Inv(Run(s, r.log + [e]))
  {
    OneMore(r.log, e);
    LawfulAppend(r.log, e);
    TradeTokens(r, s, e);
    hide Lawful, Issued, Traded, Justified, TokenMatches;
    forall code | code in s.codes ensures CodeMatches(s.codes[code], code, r.log + [e]) {
      DecidedLater(r.log, e, code, s.codes[code]);
    }
  }

  lemma TradeTokens(r: Run, s: State, e: Event)
    requires TokensMatch(r) && e.TokenIssued?
    requires s.tokens == r.state.tokens[e.token := AccessToken(e.user, e.client, e.scope, e.at + TOKEN_TTL_MS)]
    ensures TokensMatch(Run(s, r.log + [e]))
  {
    TokensLater(r, e);
    forall token | token in s.tokens ensures TokenMatches(s.tokens[token], token, r.log + [e]) {
      if token == e.token {
        assert (r.log + [e])[|r.log|] == e;
      }
    }
  }

  /** A trade goes through exactly when it is tradable, and hands out a token and an ID token of the code. */
  lemma TradeIs(w: World, s: State, r: TokenRequest, newId: string, now: int)
    ensures var (after, events) := Token(w, s, r, newId, now);
      && (events != [] <==> Tradable(w, s, r, now))
      && (events == [] ==> after.tokens == s.tokens && (after.codes == s.codes || after.codes == s.codes - {r.code}))
      && (events != [] ==>
            var c := s.codes[r.code];
            var id := IdToken(c.user, c.client, if c.nonce == Some("") then None else c.nonce, c.authTime,
                              now / 1000, now / 1000 + 3600);
            && events == [TokenIssued(newId, id, r.code, c.user, c.client, c.redirect, c.scope, r.verifier, r.secret,
                                      w, now)]
            && after.codes == s.codes - {r.code}
            && after.tokens == s.tokens[newId := AccessToken(c.user, c.client, c.scope, now + 3_600_000)])
  {
    if Tradable(w, s, r, now) {
      assert Authenticated(w, s.codes[r.code].challenge, r.client.value, r.verifier, r.secret);
    }
  }

  lemma TokenKeeps(r: Run, w: World, request: TokenRequest, newId: string, now: int)
    requires Inv(r)
    ensures var (s, events) := Token(w, r.state, request, newId, now);
      Inv(Run(s, r.log + events))
  {
    var (s, events) := Token(w, r.state, request, newId, now);
    TradeIs(w, r.state, request, newId, now);
    hide Token, Inv, Justified, Tradable;
    if events == [] {
      FewerKeeps(r, s);
      assert r.log + events == r.log;
    } else {
      TradeIsJustified(r, w, request, newId, now);
      TradeKeeps(r, s, events[0]);
    }
  }

  lemma TradeIsJustified(r: Run, w: World, request: TokenRequest, newId: string, now: int)
    requires Inv(r) && Tradable(w, r.state, request, now)
    ensures var events := Token(w, r.state, request, newId, now).1; |events| == 1 && Justified(r.log, events[0])
  {
    hide Token, TokensMatch, Lawful, Issued, Carries, StandsFor;
    var c := r.state.codes[request.code];
    assert request.code in r.state.codes && CodeMatches(c, request.code, r.log);
    var i :| 0 <= i < |r.log| && StandsFor(r.log[i], request.code, c);
    TradeIsCarried(w, r.state, request, newId, now, r.log[i]);
    hide Tradable, Traded;
  }

  lemma TradeIsCarried(w: World, s: State, r: TokenRequest, newId: string, now: int, d: Event)
    requires Tradable(w, s, r, now) && StandsFor(d, r.code, s.codes[r.code])
    requires s.codes[r.code].authTime == (s.codes[r.code].exp - CODE_TTL_MS) / 1000
    ensures var events := Token(w, s, r, newId, now).1;
      && |events| == 1 && events[0].TokenIssued? && events[0].code == r.code
      && Carries(d, events[0])
  {
    TradeIs(w, s, r, newId, now);
    hide Token, Proves;
  }

  lemma UserInfoKeeps(r: Run, w: World, token: string, now: int)
    requires Inv(r)
    ensures Inv(Advance(r, UserInfo(w, token, now)))
  {
    hide Inv;
    var (s, t) := GetToken(r.state, token, now);
    if t.None? || !w.userExists(t.value.user) {
      FewerKeeps(r, s);
      assert r.log + [] == r.log;
    } else {
      AnswerKeeps(r, w, token, now);
    }
  }

  lemma AnswerKeeps(r: Run, w: World, token: string, now: int)
    requires Inv(r) && token in r.state.tokens && now < r.state.tokens[token].exp
    requires w.userExists(r.state.tokens[token].user)
    ensures var t := r.state.tokens[token];
      Inv(r.(log := r.log + [Answered(token, t.user, t.client, t.scope, w, now)]))
  {
    var t := r.state.tokens[token];
    var e := Answered(token, t.user, t.client, t.scope, w, now);
    assert TokenMatches(t, token, r.log);
    hide Lawful, CodesMatch, TokensMatch, Justified, TokenMatches;
    AnswerIsJustified(r.log, t, w, token, now);
    LawfulAppend(r.log, e);
    TokensLater(r, e);
    CodesLater(r, e);
  }

  lemma AnswerIsJustified(log: seq<Event>, t: AccessToken, w: World, token: string, now: int)
    requires TokenMatches(t, token, log) && now < t.exp && w.userExists(t.user)
    ensures Justified(log, Answered(token, t.user, t.client, t.scope, w, now))
  {}

  lemma CodesLater(r: Run, e: Event)
    requires CodesMatch(r) && e.Answered?
    ensures CodesMatch(r.(log := r.log + [e]))
  {
    OneMore(r.log, e);
    hide Issued, Traded;
    forall code | code in r.state.codes ensures CodeMatches(r.state.codes[code], code, r.log + [e]) {
      DecidedLater(r.log, e, code, r.state.codes[code]);
    }
  }

  lemma PruneKeeps(r: Run, now: int)
    requires Inv(r)
    ensures Inv(Advance(r, Prune(now)))
  {
    FewerKeeps(r, Pruned(r.state, now));
    assert r.log + [] == r.log;
  }

  lemma ConsentKeeps(r: Run, w: World, request: AuthorizeRequest, newId: string, now: int)
    requires Inv(r) && newId !in Issued(r.log) && newId !in Traded(r.log)
    ensures Inv(Advance(r, AuthorizePost(w, request, newId, now)))
  {
    hide Inv, Issued, Traded;
    var (s, events) := Authorize(w, r.state, request, newId, now);
    if events == [] {
      assert r.log + [] == r.log;
    } else {
      AuthorizeKeeps(r, newId, s.codes[newId], events[0]);
    }
  }

  lemma StepKeeps(r: Run, input: Input)
    requires Inv(r) && FreshCode(r, input)
    ensures Inv(Advance(r, input))
  {
    hide Inv, Issued, Traded, Token, GetToken, Authorize, Pruned;
    match input
    case AuthorizePost(w, request, newId, now) => ConsentKeeps(r, w, request, newId, now);
    case TokenPost(w, request, newId, now) => TokenKeeps(r, w, request, newId, now);
    case UserInfo(w, token, now) => UserInfoKeeps(r, w, token, now);
    case Prune(now) => PruneKeeps(r, now);
  }

  function After(inputs: seq<Input>): Run {
    if |inputs| == 0 then Run(State(map[], map[]), [])
    else Advance(After(inputs[..|inputs| - 1]), inputs[|inputs| - 1])
  }

  ghost predicate CodesFresh(inputs: seq<Input>) {
    forall n :: 0 <= n < |inputs| ==> FreshCode(After(inputs[..n]), inputs[n])
  }

  lemma {:induction false} EveryRun(inputs: seq<Input>)
    requires CodesFresh(inputs)
    ensures Inv(After(inputs))
  {
    if |inputs| > 0 {
      var front := inputs[..|inputs| - 1];
      assert forall n :: 0 <= n < |front| ==> front[..n] == inputs[..n];
      EveryRun(front);
      hide Inv, Advance;
      StepKeeps(After(front), inputs[|inputs| - 1]);
    }
  }

  /** In every run each token answers an earlier allow decision by the same user for the same client,
      redirect URI and scope, less than a minute old and proved with the matching verifier whenever a
      challenge was recorded, the ID token carries that decision's nonce and time, and no decision
      answers two tokens. */
  lemma TokensAreJustified(inputs: seq<Input>, j: nat)
    requires CodesFresh(inputs)
    requires j < |After(inputs).log| && After(inputs).log[j].TokenIssued?
    ensures var log := After(inputs).log;
      && (exists i :: 0 <= i < j && Carries(log[i], log[j]))
      && (forall k :: 0 <= k < j && log[k].TokenIssued? ==> log[k].code != log[j].code)
  {
    EveryRun(inputs);
    var log := After(inputs).log;
    hide After;
    assert Justified(log[..j], log[j]);
    var i :| 0 <= i < |log[..j]| && Carries(log[..j][i], log[j]);
    assert log[..j][i] == log[i];
    forall k | 0 <= k < j && log[k].TokenIssued? ensures log[k].code != log[j].code {
      TradeIsTraded(log[..j], k);
    }
  }

  /** In every run a code is only ever sent to a redirect URI registered for its client at that moment. */
  lemma RedirectsAreRegistered(inputs: seq<Input>, j: nat)
    requires CodesFresh(inputs)
    requires j < |After(inputs).log| && After(inputs).log[j].Allowed?
    ensures var d := After(inputs).log[j]; d.client in d.w.clients && d.redirect in d.w.clients[d.client]
  {
    EveryRun(inputs);
    var log := After(inputs).log;
    hide After;
    assert Justified(log[..j], log[j]);
  }

  /** Whatever a token ever tells about a user goes back to that user's own decision to allow that
      client and scope, at most an hour and a minute earlier. */
  lemma AnswersAreAllowed(inputs: seq<Input>, j: nat)
    requires CodesFresh(inputs)
    requires j < |After(inputs).log| && After(inputs).log[j].Answered?
    ensures var log := After(inputs).log;
      exists i :: 0 <= i < j && log[i].Allowed? && log[i].user == log[j].user && log[i].client == log[j].client
        && log[i].scope == log[j].scope && log[j].at < log[i].at + 3_660_000
  {
    EveryRun(inputs);
    var log := After(inputs).log;
    assert Justified(log[..j], log[j]);
    var k :| 0 <= k < |log[..j]| && log[..j][k].TokenIssued? && log[..j][k].token == log[j].token
      && log[..j][k].user == log[j].user
        && log[..j][k].client == log[j].client && log[..j][k].scope == log[j].scope
        && log[j].at < log[..j][k].at + 3_600_000;
    assert log[..j][k] == log[k];
    TokensAreJustified(inputs, k);
  }

  lemma {:induction false} TradeIsTraded(log: seq<Event>, k: nat)
    requires k < |log| && log[k].TokenIssued?
    ensures log[k].code in Traded(log)
  {
    if k < |log| - 1 {
      TradeIsTraded(log[..|log| - 1], k);
    }
  }

  /** Pruning at any earlier moment never changes what a code or a token is worth. */
  lemma PruneChangesNothing(s: State, key: string, pruned: int, now: int)
    requires pruned <= now
    ensures Consume(Pruned(s, pruned), key, now).1 == Consume(s, key, now).1
    ensures GetToken(Pruned(s, pruned), key, now).1 == GetToken(s, key, now).1
  {}
}
