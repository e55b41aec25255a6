/**
 Refresh-token rotation: one valid refresh token per session, replaced on every use, and
 the session revoked when any other token of it shows up.

 A token stands for its claims; signatures cannot be forged, so only issued tokens decode,
 and digests are injective, so a stored digest stands for the token it was made from.
 */
module RefreshRotation {
  import opened Outcomes

  type SessionId = nat
  type AdminId = nat
  type FamilyId = nat
  type Jti = nat
  type Secret = nat

  datatype Token = Token(session: SessionId, admin: AdminId, family: FamilyId, jti: Jti, expires: int)

  datatype Reason = Logout | RefreshReuse | AdminAction | PasswordChanged

  datatype Session = Session(
    admin: AdminId, family: FamilyId, jti: Jti, digest: Token, csrf: Secret, expires: int,
    revoked: Option<int>, reason: Option<Reason>)

  datatype Account = Account(id: AdminId, enabled: bool)

  datatype System = System(sessions: map<SessionId, Session>, issued: set<Token>)

  /** The tokens a browser sends along when the refresh token travels in a cookie. */
  datatype Csrf = NoCookie | Pair(cookie: Option<Secret>, header: Option<Secret>)

  datatype Command =
    | Login(now: int, admin: AdminId, session: SessionId, family: FamilyId, jti: Jti, csrf: Secret, lifetime: int)
    | Refresh(now: int, token: Token, timely: bool, account: Option<Account>, proof: Csrf, jti: Jti, csrf: Secret)
    | LogOut(now: int, session: SessionId)
    | RevokeAll(now: int, admin: AdminId, reason: Reason)

  datatype Reply = Undecodable | Revoked | AccountDisabled | CsrfRejected | Issued(token: Token) | Done

  predicate Active(s: Session, now: int) {
    s.revoked.None? && s.expires > now
  }

  function RevokedAt(s: Session, now: int, reason: Reason): Session {
    if s.revoked.None? then s.(revoked := Some(now), reason := Some(reason)) else s
  }

  function Rotated(s: Session, token: Token, csrf: Secret): Session {
    s.(jti := token.jti, digest := token, csrf := csrf)
  }

  predicate CsrfOk(proof: Csrf, expected: Secret) {
    proof.NoCookie? || (proof.cookie == Some(expected) && proof.header == Some(expected))
  }

  /** What the account and CSRF checks let through. */
  predicate Admitted(s: Session, now: int, token: Token, account: Option<Account>, proof: Csrf) {
    Active(s, now) && account.Some? && account.value.id == token.admin && account.value.enabled && CsrfOk(proof, s.csrf)
  }

  predicate IsCurrent(s: Session, token: Token) {
    token.jti == s.jti && token.family == s.family && token == s.digest
  }

  function NextToken(s: Session, id: SessionId, admin: AdminId, jti: Jti): Token {
    Token(id, admin, s.family, jti, s.expires)
  }

  /** The session row a refresh leaves and its answer. */
  function Refreshed(s: Session, now: int, token: Token, account: Option<Account>, proof: Csrf, jti: Jti, csrf: Secret)
    : (Session, Reply)
  {
    if !Active(s, now) || account.None? || account.value.id != token.admin then (s, Revoked)
    else if !account.value.enabled then (s, AccountDisabled)
    else if !CsrfOk(proof, s.csrf) then (s, CsrfRejected)
    else if !IsCurrent(s, token) then (RevokedAt(s, now, RefreshReuse), Revoked)
    else
      var next := NextToken(s, token.session, account.value.id, jti);
      (Rotated(s, next, csrf), Issued(next))
  }

  function Apply(y: System, c: Command): (System, Reply) {
    match c
    case Login(now, admin, id, family, jti, csrf, lifetime) =>
      var token := Token(id, admin, family, jti, now + lifetime);
      (System(y.sessions[id := Session(admin, family, jti, token, csrf, now + lifetime, None, None)],
              y.issued + {token}),
       Issued(token))
    case Refresh(now, token, timely, account, proof, jti, csrf) =>
      if token !in y.issued || !timely then (y, Undecodable)
      else if token.session !in y.sessions then (y, Revoked)
      else
        var (s', reply) := Refreshed(y.sessions[token.session], now, token, account, proof, jti, csrf);
        (System(y.sessions[token.session := s'], if reply.Issued? then y.issued + {reply.token} else y.issued), reply)
    case LogOut(now, id) =>
      if id in y.sessions then (y.(sessions := y.sessions[id := RevokedAt(y.sessions[id], now, Logout)]), Done)
      else (y, Done)
    case RevokeAll(now, admin, reason) =>
      (y.(sessions := map id | id in y.sessions ::
            if y.sessions[id].admin == admin then RevokedAt(y.sessions[id], now, reason) else y.sessions[id]),
       Done)
  }

  // ---------------------------------------------------------------------------------
  // The use cases
  // ---------------------------------------------------------------------------------

  /** The entity a use case loads, changes and saves. */
  class AuthSession {
    const admin: AdminId
    const family: FamilyId
    const expires: int
    var jti: Jti
    var digest: Token
    var csrf: Secret
    var revoked: Option<int>
    var reason: Option<Reason>

    function Row(): Session
      reads this
    {
      Session(admin, family, jti, digest, csrf, expires, revoked, reason)
    }

    constructor (row: Session)
      ensures Row() == row
    {
      admin, family, expires := row.admin, row.family, row.expires;
      jti, digest, csrf, revoked, reason := row.jti, row.digest, row.csrf, row.revoked, row.reason;
    }

    method Rotate(token: Token, csrf: Secret)
      modifies this
      ensures Row() == Rotated(old(Row()), token, csrf)
    {
      jti, digest, this.csrf := token.jti, token, csrf;
    }

    /** Idempotent: the first reason and instant stay. */
    method Revoke(now: int, reason: Reason)
      modifies this
      ensures Row() == RevokedAt(old(Row()), now, reason)
    {
      if revoked.None? {
        revoked, this.reason := Some(now), Some(reason);
      }
    }
  }

  class Sessions {
    var rows: map<SessionId, Session>
    var issued: set<Token>

    ghost function State(): System
      reads this
    {
      System(rows, issued)
    }

    constructor ()
      ensures State() == System(map[], {})
    {
      rows, issued := map[], {};
    }

    method CreateSession(now: int, admin: AdminId, id: SessionId, family: FamilyId, jti: Jti, csrf: Secret,
                         lifetime: int)
      returns (token: Token)
      modifies this
      ensures (State(), Issued(token)) == Apply(old(State()), Login(now, admin, id, family, jti, csrf, lifetime))
    {
      var expires := now + lifetime;
      token := Token(id, admin, family, jti, expires);
      rows := rows[id := Session(admin, family, jti, token, csrf, expires, None, None)];
      issued := issued + {token};
    }

    method RefreshSession(now: int, token: Token, timely: bool, account: Option<Account>, proof: Csrf, jti: Jti,
                          csrf: Secret)
      returns (reply: Reply)
      modifies this
      ensures (State(), reply) == Apply(old(State()), Refresh(now, token, timely, account, proof, jti, csrf))
    {
      if token !in issued || !timely {
        return Undecodable;
      }
      if token.session !in rows {
        return Revoked;
      }
      var session := new AuthSession(rows[token.session]);
      assert rows == rows[token.session := rows[token.session]];
      if session.revoked.Some? || session.expires <= now {
        return Revoked;
      }
      if account.None? || account.value.id != token.admin {
        return Revoked;
      }
      if !account.value.enabled {
        return AccountDisabled;
      }
      if proof.Pair? && (proof.cookie != Some(session.csrf) || proof.header != Some(session.csrf)) {
        return CsrfRejected;
      }
      var current := token.jti == session.jti && token.family == session.family && token == session.digest;
      if !current {
        session.Revoke(now, RefreshReuse);
        rows := rows[token.session := session.Row()];
        return Revoked;
      }
      var next := Token(token.session, account.value.id, session.family, jti, session.expires);
      session.Rotate(next, csrf);
      rows := rows[token.session := session.Row()];
      issued := issued + {next};
      reply := Issued(next);
    }

    method LogOutSession(now: int, id: SessionId)
      modifies this
      ensures State() == Apply(old(State()), LogOut(now, id)).0
    {
      if id in rows {
        var session := new AuthSession(rows[id]);
        session.Revoke(now, Logout);
        rows := rows[id := session.Row()];
      }
    }

    method RevokeAllActive(now: int, admin: AdminId, reason: Reason) returns (count: nat)
      modifies this
      ensures State() == Apply(old(State()), RevokeAll(now, admin, reason)).0
      ensures count == |set id | id in old(rows) && old(rows)[id].admin == admin && old(rows)[id].revoked.None?|
    {
      var hit := set id | id in rows && rows[id].admin == admin && rows[id].revoked.None?;
      rows := map id | id in rows ::
        if id in hit then rows[id].(revoked := Some(now), reason := Some(reason)) else rows[id];
      count := |hit|;
    }

    /** Access with a token of the session: the same row decides. */
    method Authenticate(id: SessionId, admin: AdminId, account: Option<Account>, now: int) returns (ok: bool)
      ensures ok <==> AccessOk(State(), id, admin, account, now)
    {
      if id !in rows {
        return false;
      }
      var session := new AuthSession(rows[id]);
      if session.revoked.Some? || session.expires <= now {
        return false;
      }
      ok := account.Some? && account.value.id == admin && account.value.enabled;
    }
  }

  predicate AccessOk(y: System, id: SessionId, admin: AdminId, account: Option<Account>, now: int) {
    id in y.sessions && Active(y.sessions[id], now) && account.Some? && account.value.id == admin
      && account.value.enabled
  }

  // ---------------------------------------------------------------------------------
  // Runs
  // ---------------------------------------------------------------------------------

  function Run(y: System, commands: seq<Command>): System
    decreases |commands|
  {
    if commands == [] then y else Run(Apply(y, commands[0]).0, commands[1..])
  }

  /** The new session and token identifiers of a command are ones the system has never seen. */
  predicate FreshIds(y: System, c: Command) {
    && (c.Login? ==> c.session !in y.sessions && forall t | t in y.issued :: t.jti != c.jti)
    && (c.Refresh? ==> forall t | t in y.issued :: t.jti != c.jti)
  }

  predicate FreshRun(y: System, commands: seq<Command>)
    decreases |commands|
  {
    commands == [] || (FreshIds(y, commands[0]) && FreshRun(Apply(y, commands[0]).0, commands[1..]))
  }

  /**
   A stored row describes its current token, which was issued, and all tokens of a session share
   family and expiry.
   */
  predicate RowOk(y: System, id: SessionId)
    requires id in y.sessions
  {
    var s := y.sessions[id];
    s.digest in y.issued && s.digest == Token(id, s.digest.admin, s.family, s.jti, s.expires)
  }

  predicate IssueOk(y: System, t: Token) {
    t.session in y.sessions && t.family == y.sessions[t.session].family && t.expires == y.sessions[t.session].expires
  }

  ghost predicate SystemOk(y: System) {
    && (forall id {:trigger RowOk(y, id)} | id in y.sessions :: RowOk(y, id))
    && (forall t {:trigger IssueOk(y, t)} | t in y.issued :: IssueOk(y, t))
  }

  lemma StepKeeps(y: System, c: Command)
    requires SystemOk(y) && FreshIds(y, c)
    ensures SystemOk(Apply(y, c).0)
  {
    var y' := Apply(y, c).0;
    forall id | id in y'.sessions ensures RowOk(y', id) {
      if id in y.sessions { assert RowOk(y, id); }
    }
    forall t | t in y'.issued ensures IssueOk(y', t) {
      if t in y.issued { assert IssueOk(y, t); }
    }
  }

  lemma {:induction false} EveryRunKeeps(y: System, commands: seq<Command>)
    requires SystemOk(y) && FreshRun(y, commands)
    ensures SystemOk(Run(y, commands))
    decreases |commands|
  {
    if commands != [] {
      StepKeeps(y, commands[0]);
      EveryRunKeeps(Apply(y, commands[0]).0, commands[1..]);
    }
  }

  /** One accepted refresh: the token that was shown and the one that was given back. */
  datatype Link = Link(shown: Token, given: Token)

  /** The accepted refreshes of one session, in order. */
  function Links(y: System, commands: seq<Command>, id: SessionId): seq<Link>
    decreases |commands|
  {
    if commands == [] then []
    else
      var (y', reply) := Apply(y, commands[0]);
      var rest := Links(y', commands[1..], id);
      if commands[0].Refresh? && commands[0].token.session == id && reply.Issued?
      then [Link(commands[0].token, reply.token)] + rest else rest
  }

  predicate Chained(first: Token, links: seq<Link>)
    decreases |links|
  {
    links == [] || (links[0].shown == first && Chained(links[0].given, links[1..]))
  }

  /** A step that accepts no refresh of the session leaves its current token alone. */
  lemma OthersLeaveCurrent(y: System, c: Command, id: SessionId)
    requires id in y.sessions && (c.Login? ==> c.session != id)
    requires !(c.Refresh? && c.token.session == id && Apply(y, c).1.Issued?)
    ensures var y' := Apply(y, c).0;
            id in y'.sessions && y'.sessions[id].digest == y.sessions[id].digest
              && y'.sessions[id].expires == y.sessions[id].expires
  {
  }

  /** The accepted tokens of a session form one chain from its current token. */
  lemma {:induction false} RefreshesFormChain(y: System, commands: seq<Command>, id: SessionId)
    requires FreshRun(y, commands) && id in y.sessions
    ensures Chained(y.sessions[id].digest, Links(y, commands, id))
    decreases |commands|
  {
    if commands != [] {
      var (y', reply) := Apply(y, commands[0]);
      if !(commands[0].Refresh? && commands[0].token.session == id && reply.Issued?) {
        OthersLeaveCurrent(y, commands[0], id);
      }
      RefreshesFormChain(y', commands[1..], id);
    }
  }

  /** Every token given in a run is new to the system it started from, and keeps the session's expiry. */
  lemma {:induction false} GivenTokensAreNew(y: System, commands: seq<Command>, id: SessionId, i: nat)
    requires FreshRun(y, commands) && SystemOk(y) && id in y.sessions && i < |Links(y, commands, id)|
    ensures Links(y, commands, id)[i].given.expires == y.sessions[id].expires
    ensures forall t | t in y.issued :: t.jti != Links(y, commands, id)[i].given.jti
    decreases |commands|
  {
    var (y', reply) := Apply(y, commands[0]);
    StepKeeps(y, commands[0]);
    if commands[0].Refresh? && commands[0].token.session == id && reply.Issued? {
      if i > 0 { GivenTokensAreNew(y', commands[1..], id, i - 1); }
    } else {
      OthersLeaveCurrent(y, commands[0], id);
      GivenTokensAreNew(y', commands[1..], id, i);
    }
  }

  lemma {:induction false} ChainShows(first: Token, links: seq<Link>, i: nat)
    requires Chained(first, links) && i < |links|
    ensures links[i].shown == if i == 0 then first else links[i - 1].given
    decreases |links|
  {
    if i > 0 { ChainShows(links[0].given, links[1..], i - 1); }
  }

  lemma {:induction false} LinksAreFresh(y: System, commands: seq<Command>, id: SessionId, i: nat, j: nat)
    requires FreshRun(y, commands) && SystemOk(y) && id in y.sessions && i < j < |Links(y, commands, id)|
    ensures Links(y, commands, id)[i].given != Links(y, commands, id)[j].given
    decreases |commands|
  {
    var (y', reply) := Apply(y, commands[0]);
    StepKeeps(y, commands[0]);
    if commands[0].Refresh? && commands[0].token.session == id && reply.Issued? {
      if i == 0 {
        GivenTokensAreNew(y', commands[1..], id, j - 1);
      } else {
        LinksAreFresh(y', commands[1..], id, i - 1, j - 1);
      }
    } else {
      OthersLeaveCurrent(y, commands[0], id);
      LinksAreFresh(y', commands[1..], id, i, j);
    }
  }

  /**
   Over any run: each accepted refresh token is the one returned by the acceptance before it
   (the first one is the session's current token), none is accepted twice, and the expiry
   never moves.
   */
  lemma AcceptedOnce(y: System, commands: seq<Command>, id: SessionId, i: nat, j: nat)
    requires FreshRun(y, commands) && SystemOk(y) && id in y.sessions && i < j < |Links(y, commands, id)|
    ensures Links(y, commands, id)[0].shown == y.sessions[id].digest
    ensures Links(y, commands, id)[j].shown == Links(y, commands, id)[j - 1].given
    ensures Links(y, commands, id)[i].shown != Links(y, commands, id)[j].shown
    ensures Links(y, commands, id)[j].given.expires == y.sessions[id].expires
  {
    var links := Links(y, commands, id);
    RefreshesFormChain(y, commands, id);
    ChainShows(y.sessions[id].digest, links, 0);
    ChainShows(y.sessions[id].digest, links, i);
    ChainShows(y.sessions[id].digest, links, j);
    GivenTokensAreNew(y, commands, id, j);
    GivenTokensAreNew(y, commands, id, j - 1);
    assert RowOk(y, id);
    if i > 0 {
      LinksAreFresh(y, commands, id, i - 1, j - 1);
    }
  }

  // ---------------------------------------------------------------------------------
  // Revocation
  // ---------------------------------------------------------------------------------

  /** Once revoked, a session stays revoked with its first instant and reason, whatever follows. */
  lemma {:induction false} RevokedForever(y: System, commands: seq<Command>, id: SessionId)
    requires FreshRun(y, commands) && id in y.sessions && y.sessions[id].revoked.Some?
    ensures var y' := Run(y, commands);
            id in y'.sessions && y'.sessions[id].revoked == y.sessions[id].revoked
              && y'.sessions[id].reason == y.sessions[id].reason
    ensures Links(y, commands, id) == []
    ensures forall admin, account, now :: !AccessOk(Run(y, commands), id, admin, account, now)
    decreases |commands|
  {
    if commands != [] {
      RevokedForever(Apply(y, commands[0]).0, commands[1..], id);
    }
  }

  /**
   Reuse detection: any issued token of the session other than its current one, once it
   passes the account and CSRF checks while the session is active, revokes the session, and
   from then on no refresh and no access of that session succeeds.
   */
  lemma ReuseEndsSession(y: System, c: Command, commands: seq<Command>)
    requires c.Refresh? && c.timely && c.token in y.issued && c.token.session in y.sessions && FreshIds(y, c)
    requires c.token != y.sessions[c.token.session].digest
    requires Admitted(y.sessions[c.token.session], c.now, c.token, c.account, c.proof)
    requires FreshRun(Apply(y, c).0, commands)
    ensures Apply(y, c).1 == Revoked
    ensures var y' := Apply(y, c).0;
            && y'.sessions[c.token.session].reason == Some(RefreshReuse)
            && Links(y', commands, c.token.session) == []
            && forall admin, account, now :: !AccessOk(Run(y', commands), c.token.session, admin, account, now)
  {
    RevokedForever(Apply(y, c).0, commands, c.token.session);
  }

  /** A token is accepted exactly when it is the current one and passes the checks. */
  lemma AcceptedIff(y: System, c: Command)
    requires SystemOk(y) && c.Refresh?
    ensures Apply(y, c).1.Issued? <==>
            c.timely && c.token.session in y.sessions && c.token == y.sessions[c.token.session].digest
            && Admitted(y.sessions[c.token.session], c.now, c.token, c.account, c.proof)
  {
    if c.token.session in y.sessions { assert RowOk(y, c.token.session); }
  }

  /** The current token of a session is the last one given, and everything given has been issued. */
  lemma {:induction false} CurrentIsLastGiven(y: System, commands: seq<Command>, id: SessionId)
    requires FreshRun(y, commands) && id in y.sessions
    ensures var y', links := Run(y, commands), Links(y, commands, id);
            && id in y'.sessions && y.issued <= y'.issued
            && y'.sessions[id].digest == (if links == [] then y.sessions[id].digest else links[|links| - 1].given)
            && forall i | 0 <= i < |links| :: links[i].given in y'.issued
    decreases |commands|
  {
    if commands != [] {
      var (y', reply) := Apply(y, commands[0]);
      if !(commands[0].Refresh? && commands[0].token.session == id && reply.Issued?) {
        OthersLeaveCurrent(y, commands[0], id);
      }
      CurrentIsLastGiven(y', commands[1..], id);
    }
  }

  /** A token that was accepted once is superseded: issued, of this session, and no longer current. */
  lemma AcceptedIsSuperseded(y: System, commands: seq<Command>, id: SessionId, i: nat)
    requires FreshRun(y, commands) && SystemOk(y) && id in y.sessions && i < |Links(y, commands, id)|
    ensures var y', token := Run(y, commands), Links(y, commands, id)[i].shown;
            id in y'.sessions && token in y'.issued && token != y'.sessions[id].digest
  {
    var links := Links(y, commands, id);
    RefreshesFormChain(y, commands, id);
    ChainShows(y.sessions[id].digest, links, i);
    CurrentIsLastGiven(y, commands, id);
    GivenTokensAreNew(y, commands, id, |links| - 1);
    assert RowOk(y, id);
    if i > 0 {
      LinksAreFresh(y, commands, id, i - 1, |links| - 1);
    }
  }

  /**
   Whatever happened in between, showing an accepted token a second time revokes a session
   still unrevoked exactly when it gets past the account and CSRF checks, and it is never
   accepted.
   */
  lemma ReuseDetectedIff(y: System, commands: seq<Command>, id: SessionId, i: nat, c: Command)
    requires FreshRun(y, commands) && SystemOk(y) && id in y.sessions && i < |Links(y, commands, id)|
    requires c.Refresh? && c.token == Links(y, commands, id)[i].shown && c.token.session == id
    requires id in Run(y, commands).sessions && Run(y, commands).sessions[id].revoked.None?
    ensures var y', s := Run(y, commands), Run(y, commands).sessions[id];
            && !Apply(y', c).1.Issued?
            && (Apply(y', c).0.sessions[id].revoked.Some? <==>
                 c.timely && Admitted(s, c.now, c.token, c.account, c.proof))
  {
    AcceptedIsSuperseded(y, commands, id, i);
  }

  // ---------------------------------------------------------------------------------
  // What each command answers and changes
  // ---------------------------------------------------------------------------------

  /** Apart from one session, nothing differs between the two tables. */
  predicate OnlySession(y: System, y': System, id: SessionId) {
    && y'.sessions.Keys == y.sessions.Keys + {id}
    && forall other | other in y.sessions && other != id :: y'.sessions[other] == y.sessions[other]
  }

  lemma LoginOpens(y: System, c: Command)
    requires c.Login?
    ensures var (y', reply) := Apply(y, c);
            && reply == Issued(Token(c.session, c.admin, c.family, c.jti, c.now + c.lifetime))
            && OnlySession(y, y', c.session) && y'.issued == y.issued + {reply.token}
            && y'.sessions[c.session].csrf == c.csrf && y'.sessions[c.session].digest == reply.token
            && (forall admin, account, now :: AccessOk(y', c.session, admin, account, now) <==>
                  now < c.now + c.lifetime && account == Some(Account(admin, true)))
  {
  }

  /** The first check that fails decides the answer to a refresh. */
  lemma RefreshAnswers(y: System, c: Command)
    requires SystemOk(y) && c.Refresh?
    ensures var reply := Apply(y, c).1;
            if c.token !in y.issued || !c.timely then reply == Undecodable
            else
              && c.token.session in y.sessions
              && var s := y.sessions[c.token.session];
              if s.revoked.Some? || s.expires <= c.now then reply == Revoked
              else if c.account.None? || c.account.value.id != c.token.admin then reply == Revoked
              else if !c.account.value.enabled then reply == AccountDisabled
              else if c.proof.Pair? && (c.proof.cookie != Some(s.csrf) || c.proof.header != Some(s.csrf)) then
                reply == CsrfRejected
              else if c.token != s.digest then reply == Revoked
              else reply == Issued(Token(c.token.session, c.token.admin, s.family, c.jti, s.expires))
  {
    if c.token in y.issued {
      assert IssueOk(y, c.token);
      assert RowOk(y, c.token.session);
    }
  }

  /** An accepted refresh replaces token, identifier and CSRF secret of its session, and nothing else. */
  lemma RefreshReplaces(y: System, c: Command)
    requires c.Refresh? && Apply(y, c).1.Issued?
    ensures var (y', reply) := Apply(y, c);
            && c.token.session in y.sessions && OnlySession(y, y', c.token.session)
            && y'.issued == y.issued + {reply.token}
            && var s, s' := y.sessions[c.token.session], y'.sessions[c.token.session];
               && s'.digest == reply.token && s'.jti == c.jti && s'.csrf == c.csrf
               && s'.admin == s.admin && s'.family == s.family && s'.expires == s.expires
               && s'.revoked == s.revoked && s'.reason == s.reason
  {
  }

  /** A refused refresh issues nothing; it revokes the session of a reused token, and else changes nothing. */
  lemma RefusedRefresh(y: System, c: Command)
    requires SystemOk(y) && c.Refresh? && !Apply(y, c).1.Issued?
    ensures var y' := Apply(y, c).0;
            y'.issued == y.issued
            && if c.token in y.issued && c.timely && c.token.session in y.sessions
                  && Admitted(y.sessions[c.token.session], c.now, c.token, c.account, c.proof) then
                 OnlySession(y, y', c.token.session)
                 && y'.sessions[c.token.session] == y.sessions[c.token.session].(revoked := Some(c.now),
                                                                                 reason := Some(RefreshReuse))
               else y' == y
  {
    if c.token in y.issued {
      assert IssueOk(y, c.token);
      assert RowOk(y, c.token.session);
      assert y.sessions[c.token.session := y.sessions[c.token.session]] == y.sessions;
    }
  }

  /** Once a refresh has been accepted, the CSRF secret before it no longer gets past the check. */
  lemma OldSecretRejected(y: System, c: Command, c': Command)
    requires SystemOk(y) && FreshIds(y, c) && c.Refresh? && Apply(y, c).1.Issued?
    requires c'.Refresh? && c'.token.session == c.token.session && c'.proof.Pair?
    requires c'.proof.cookie == Some(y.sessions[c.token.session].csrf) && c.csrf != y.sessions[c.token.session].csrf
    ensures !Apply(Apply(y, c).0, c').1.Issued? && Apply(Apply(y, c).0, c').0 == Apply(y, c).0
  {
    StepKeeps(y, c);
    RefusedRefresh(Apply(y, c).0, c');
  }

  /** Logging out revokes the session for good, and no other. */
  lemma LogOutEnds(y: System, c: Command, commands: seq<Command>)
    requires c.LogOut? && c.session in y.sessions && FreshRun(Apply(y, c).0, commands)
    ensures var y' := Apply(y, c).0;
            && OnlySession(y, y', c.session) && y'.issued == y.issued
            && y'.sessions[c.session] == (if y.sessions[c.session].revoked.Some? then y.sessions[c.session]
                 else y.sessions[c.session].(revoked := Some(c.now), reason := Some(Logout)))
            && Links(y', commands, c.session) == []
            && forall admin, account, now :: !AccessOk(Run(y', commands), c.session, admin, account, now)
  {
    RevokedForever(Apply(y, c).0, commands, c.session);
  }

  /** Revoking all sessions of an administrator ends each of them for good, and leaves those of others alone. */
  lemma RevokeAllEnds(y: System, c: Command, commands: seq<Command>, id: SessionId)
    requires c.RevokeAll? && id in y.sessions && FreshRun(Apply(y, c).0, commands)
    ensures var y' := Apply(y, c).0;
            && y'.issued == y.issued && y'.sessions.Keys == y.sessions.Keys
            && (y.sessions[id].admin != c.admin || y.sessions[id].revoked.Some? ==>
                  y'.sessions[id] == y.sessions[id])
            && (y.sessions[id].admin == c.admin && y.sessions[id].revoked.None? ==>
                  y'.sessions[id] == y.sessions[id].(revoked := Some(c.now), reason := Some(c.reason)))
            && (y.sessions[id].admin == c.admin ==>
                  && Links(y', commands, id) == []
                  && forall admin, account, now :: !AccessOk(Run(y', commands), id, admin, account, now))
  {
    if y.sessions[id].admin == c.admin {
      RevokedForever(Apply(y, c).0, commands, id);
    }
  }
}
