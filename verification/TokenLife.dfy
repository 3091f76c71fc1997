/**
 * Token lifetimes and revocation. Redis is a map with expiry times and an explicit clock; the
 * digest that turns a jti into a key is an arbitrary function, so collisions are spelled out.
 */
module TokenLife {

  datatype Option<+T> = None | Some(value: T)

  datatype Kind = Access | Refresh | Mfa

  /** A signed token; iat and exp are whole seconds. */
  datatype Token = Token(kind: Kind, sub: int, jti: string, iat: int, exp: int)

  datatype Key = JtiKey(digest: string) | UserKey(uid: int)

  datatype Entry = Entry(value: int, expires: real)

  type Redis = map<Key, Entry>

  /** Lifetimes in seconds, and how long a per-user revocation is kept. */
  datatype Config = Config(access: int, refresh: int, mfa: int, digest: string -> string)

  function Lifetime(c: Config, kind: Kind): int {
    match kind
    case Access => c.access
    case Refresh => c.refresh
    case Mfa => c.mfa
  }

  predicate WellConfigured(c: Config) {
    c.access <= c.refresh && c.mfa <= c.refresh
  }

  // ----- Redis -----

  function SetEx(r: Redis, k: Key, ttl: int, value: int, now: real): Redis {
    r[k := Entry(value, now + ttl as real)]
  }

  predicate Live(r: Redis, k: Key, now: real) {
    k in r && now < r[k].expires
  }

  // ----- Tokens and the blacklist -----

  function MakeToken(c: Config, kind: Kind, sub: int, jti: string, now: real): Token {
    Token(kind, sub, jti, now.Floor, now.Floor + Lifetime(c, kind))
  }

  function Max(a: int, b: int): int {
    if a > b then a else b
  }

  /** Revoke one jti for the rest of the token's life, at least a second. */
  function RevokeJti(c: Config, r: Redis, t: Token, now: real): Redis {
    SetEx(r, JtiKey(c.digest(t.jti)), Max(t.exp - now.Floor, 1), 1, now)
  }

  function RevokeUser(c: Config, r: Redis, uid: int, now: real): Redis {
    SetEx(r, UserKey(uid), c.refresh, now.Floor, now)
  }

  /** Signature and expiry. */
  predicate Verifies(issued: set<Token>, t: Token, now: real) {
    t in issued && t.exp as real > now
  }

  /** _decode: signature, expiry, type, then the two revocation look-ups. */
  predicate Decodes(c: Config, issued: set<Token>, r: Redis, t: Token, kind: Kind, now: real) {
    && Verifies(issued, t, now)
    && t.kind == kind
    && !Live(r, JtiKey(c.digest(t.jti)), now)
    && !(Live(r, UserKey(t.sub), now) && t.iat <= r[UserKey(t.sub)].value)
  }

  // ----- Handlers -----

  datatype Event =
    | Login(uid: int, accessJti: string, refreshJti: string)
    | MfaChallenge(uid: int, jti: string)
    | MfaVerify(token: Token, codeOk: bool, accessJti: string, refreshJti: string)
    | RefreshAccess(token: Token, jti: string)
    | Logout(access: Token, refresh: Option<Token>)
    | RevokeSessions(uid: int)

  /** Server state, with the permanent record of what was ever revoked beside the expiring store. */
  datatype State = State(store: Redis, issued: set<Token>, clock: real,
                         killed: set<string>, revokedAt: map<int, int>)

  const Start := State(map[], {}, 0.0, {}, map[])

  function Session(c: Config, uid: int, accessJti: string, refreshJti: string, now: real): set<Token> {
    {MakeToken(c, Access, uid, accessJti, now), MakeToken(c, Refresh, uid, refreshJti, now)}
  }

  function Kill(c: Config, s: State, t: Token): State {
    s.(store := RevokeJti(c, s.store, t, s.clock), killed := s.killed + {t.jti})
  }

  /** The logout loop's body: undecodable tokens and other people's tokens are skipped. */
  function KillOwn(c: Config, s: State, t: Token, uid: int): State {
    if Verifies(s.issued, t, s.clock) && t.sub == uid then Kill(c, s, t) else s
  }

  function Handle(c: Config, s: State, e: Event): State {
    var now := s.clock;
    match e
    case Login(uid, a, r) =>
      s.(issued := s.issued + Session(c, uid, a, r, now))
    case MfaChallenge(uid, j) =>
      s.(issued := s.issued + {MakeToken(c, Mfa, uid, j, now)})
    case MfaVerify(t, codeOk, a, r) =>
      if Decodes(c, s.issued, s.store, t, Mfa, now) && codeOk then
        var s' := Kill(c, s, t);
        s'.(issued := s'.issued + Session(c, t.sub, a, r, now))
      else s
    case RefreshAccess(t, j) =>
      if Decodes(c, s.issued, s.store, t, Refresh, now) then
        s.(issued := s.issued + {MakeToken(c, Access, t.sub, j, now)})
      else s
    case Logout(a, r) =>
      if Decodes(c, s.issued, s.store, a, Access, now) then
        var s' := KillOwn(c, s, a, a.sub);
        if r.Some? then KillOwn(c, s', r.value, a.sub) else s'
      else s
    case RevokeSessions(uid) =>
      s.(store := RevokeUser(c, s.store, uid, now), revokedAt := s.revokedAt[uid := now.Floor])
  }

  function NewJtis(e: Event): set<string> {
    match e
    case Login(_, a, r) => {a, r}
    case MfaChallenge(_, j) => {j}
    case MfaVerify(_, _, a, r) => {a, r}
    case RefreshAccess(_, j) => {j}
    case _ => {}
  }

  function DistinctJtis(e: Event): bool {
    match e
    case Login(_, a, r) => a != r
    case MfaVerify(_, _, a, r) => a != r
    case _ => true
  }

  /** Time does not run backwards, and every new jti is new. */
  predicate Legal(s: State, now: real, e: Event) {
    && now >= s.clock
    && DistinctJtis(e)
    && (forall t :: t in s.issued ==> t.jti !in NewJtis(e))
  }

  function Step(c: Config, s: State, now: real, e: Event): State {
    Handle(c, s.(clock := now), e)
  }

  type Run = seq<(real, Event)>

  ghost predicate LegalRun(c: Config, s: State, run: Run)
    decreases |run|
  {
    run == [] || (Legal(s, run[0].0, run[0].1) && LegalRun(c, Step(c, s, run[0].0, run[0].1), run[1..]))
  }

  ghost function After(c: Config, s: State, run: Run): State
    decreases |run|
  {
    if run == [] then s else After(c, Step(c, s, run[0].0, run[0].1), run[1..])
  }

  // ----- The permanent record -----

  /** What _decode would answer if no revocation were ever forgotten. */
  predicate DecodesForever(s: State, t: Token, kind: Kind, now: real) {
    && Verifies(s.issued, t, now)
    && t.kind == kind
    && t.jti !in s.killed
    && (t.sub in s.revokedAt ==> t.iat > s.revokedAt[t.sub])
  }

  /** Two issued tokens whose different jtis share a digest. */
  ghost predicate Collision(c: Config, s: State) {
    exists x, y :: x in s.issued && y in s.issued && x.jti != y.jti && c.digest(x.jti) == c.digest(y.jti)
  }

  ghost predicate TokensOk(c: Config, s: State) {
    && s.clock >= 0.0
    && (forall t :: t in s.issued ==> t.exp == t.iat + Lifetime(c, t.kind) && t.iat as real <= s.clock)
    && (forall t, u :: t in s.issued && u in s.issued && t.jti == u.jti ==> t == u)
    && (forall j :: j in s.killed ==> exists t :: t in s.issued && t.jti == j)
  }

  /** Entries outlive the tokens they block. */
  ghost predicate JtisOk(c: Config, s: State) {
    && (forall t :: t in s.issued && t.jti in s.killed ==>
          JtiKey(c.digest(t.jti)) in s.store && s.store[JtiKey(c.digest(t.jti))].expires >= t.exp as real)
    && (forall d :: JtiKey(d) in s.store ==> exists j :: j in s.killed && c.digest(j) == d)
  }

  ghost predicate UsersOk(c: Config, s: State) {
    && (forall u :: UserKey(u) in s.store <==> u in s.revokedAt)
    && (forall u :: u in s.revokedAt ==>
          && s.store[UserKey(u)].value == s.revokedAt[u]
          && s.store[UserKey(u)].expires >= (s.revokedAt[u] + c.refresh) as real
          && s.revokedAt[u] as real <= s.clock)
  }

  ghost predicate Inv(c: Config, s: State) {
    TokensOk(c, s) && (Collision(c, s) || JtisOk(c, s)) && UsersOk(c, s)
  }

  lemma CollisionGrows(c: Config, s: State, s': State)
    requires s.issued <= s'.issued && Collision(c, s)
    ensures Collision(c, s')
  {
    var x, y :| x in s.issued && y in s.issued && x.jti != y.jti && c.digest(x.jti) == c.digest(y.jti);
    assert x in s'.issued && y in s'.issued;
  }

  /** Killing an issued token keeps the invariant: its entry lives until the token is dead. */
  lemma KillKeeps(c: Config, s: State, t: Token)
    requires Inv(c, s) && t in s.issued
    ensures Inv(c, Kill(c, s, t))
  {
    var s' := Kill(c, s, t);
    var k := JtiKey(c.digest(t.jti));
    assert s'.store[k].expires >= t.exp as real by {
      FloorBelow(s.clock);
    }
    if Collision(c, s) {
      CollisionGrows(c, s, s');
    } else {
      forall u | u in s'.issued && u.jti in s'.killed
        ensures JtiKey(c.digest(u.jti)) in s'.store && s'.store[JtiKey(c.digest(u.jti))].expires >= u.exp as real
      {
        if c.digest(u.jti) == c.digest(t.jti) {
          assert u == t;
        }
      }
      assert JtisOk(c, s');
    }
  }

  lemma FloorBelow(x: real)
    ensures x.Floor as real <= x < x.Floor as real + 1.0
  {
  }

  /** Issuing tokens with new jtis at the current time. */
  lemma IssueKeeps(c: Config, s: State, ts: set<Token>)
    requires Inv(c, s)
    requires forall t :: t in ts ==> t.exp == t.iat + Lifetime(c, t.kind) && t.iat == s.clock.Floor
    requires forall t, u :: t in ts && u in s.issued ==> t.jti != u.jti
    requires forall t, u :: t in ts && u in ts && t.jti == u.jti ==> t == u
    ensures Inv(c, s.(issued := s.issued + ts))
  {
    var s' := s.(issued := s.issued + ts);
    FloorBelow(s.clock);
    if Collision(c, s) {
      CollisionGrows(c, s, s');
    }
    forall j | j in s'.killed
      ensures exists t :: t in s'.issued && t.jti == j
    {
      var t :| t in s.issued && t.jti == j;
      assert t in s'.issued;
    }
  }

  lemma RevokeUserKeeps(c: Config, s: State, uid: int)
    requires Inv(c, s)
    ensures Inv(c, s.(store := RevokeUser(c, s.store, uid, s.clock), revokedAt := s.revokedAt[uid := s.clock.Floor]))
  {
    var s' := s.(store := RevokeUser(c, s.store, uid, s.clock), revokedAt := s.revokedAt[uid := s.clock.Floor]);
    FloorBelow(s.clock);
    if Collision(c, s) {
      CollisionGrows(c, s, s');
    } else {
      assert JtisOk(c, s');
    }
  }

  lemma StepKeeps(c: Config, s: State, now: real, e: Event)
    requires Inv(c, s) && Legal(s, now, e)
    ensures Inv(c, Step(c, s, now, e))
  {
    hide Inv;
    var s1 := s.(clock := now);
    ClockKeeps(c, s, now);
    match e
    case Login(uid, a, r) =>
      IssueKeeps(c, s1, Session(c, uid, a, r, now));
    case MfaChallenge(uid, j) =>
      IssueKeeps(c, s1, {MakeToken(c, Mfa, uid, j, now)});
    case MfaVerify(t, codeOk, a, r) =>
      if Decodes(c, s1.issued, s1.store, t, Mfa, now) && codeOk {
        KillKeeps(c, s1, t);
        IssueKeeps(c, Kill(c, s1, t), Session(c, t.sub, a, r, now));
      }
    case RefreshAccess(t, j) =>
      if Decodes(c, s1.issued, s1.store, t, Refresh, now) {
        IssueKeeps(c, s1, {MakeToken(c, Access, t.sub, j, now)});
      }
    case Logout(a, r) =>
      if Decodes(c, s1.issued, s1.store, a, Access, now) {
        KillKeeps(c, s1, a);
        if r.Some? && Verifies(s1.issued, r.value, now) && r.value.sub == a.sub {
          KillKeeps(c, Kill(c, s1, a), r.value);
        }
      }
    case RevokeSessions(uid) =>
      RevokeUserKeeps(c, s1, uid);
  }

  lemma ClockKeeps(c: Config, s: State, now: real)
    requires Inv(c, s) && now >= s.clock
    ensures Inv(c, s.(clock := now))
  {
    var s' := s.(clock := now);
    if Collision(c, s) {
      CollisionGrows(c, s, s');
    } else {
      assert JtisOk(c, s');
    }
  }

  lemma {:induction false} RunKeeps(c: Config, s: State, run: Run)
    requires Inv(c, s) && LegalRun(c, s, run)
    ensures Inv(c, After(c, s, run))
    decreases |run|
  {
    if run != [] {
      StepKeeps(c, s, run[0].0, run[0].1);
      hide Inv;
      RunKeeps(c, Step(c, s, run[0].0, run[0].1), run[1..]);
    }
  }

  /**
   * At every moment of every run the expiring store answers as if nothing were ever forgotten,
   * or two issued jtis collide.
   */
  lemma StoreForgetsNothing(c: Config, s: State, t: Token, kind: Kind, now: real)
    requires WellConfigured(c) && Inv(c, s) && now >= s.clock
    ensures Collision(c, s) || (Decodes(c, s.issued, s.store, t, kind, now) <==> DecodesForever(s, t, kind, now))
  {
    if !Collision(c, s) && Verifies(s.issued, t, now) && JtiKey(c.digest(t.jti)) in s.store {
      OnlyKilledJtis(c, s, t);
    }
  }

  /** Without collisions an entry under a token's key was put there for that token. */
  lemma OnlyKilledJtis(c: Config, s: State, t: Token)
    requires Inv(c, s) && !Collision(c, s) && t in s.issued && JtiKey(c.digest(t.jti)) in s.store
    ensures t.jti in s.killed
  {
    var j :| j in s.killed && c.digest(j) == c.digest(t.jti);
    var u :| u in s.issued && u.jti == j;
  }

  lemma StartOk(c: Config)
    ensures Inv(c, Start)
  {
  }

  /** From an empty server, whatever requests arrive in whatever order. */
  lemma EveryRunForgetsNothing(c: Config, run: Run, t: Token, kind: Kind, later: real)
    requires WellConfigured(c) && LegalRun(c, Start, run) && later >= After(c, Start, run).clock
    ensures var end := After(c, Start, run);
            Collision(c, end) || (Decodes(c, end.issued, end.store, t, kind, later) <==> DecodesForever(end, t, kind, later))
  {
    hide Inv, After, LegalRun, Decodes, DecodesForever;
    StartOk(c);
    RunKeeps(c, Start, run);
    StoreForgetsNothing(c, After(c, Start, run), t, kind, later);
  }

  // ----- What that means for callers -----

  ghost predicate Extends(s: State, s': State) {
    && s.killed <= s'.killed && s.clock <= s'.clock
    && forall u :: u in s.revokedAt ==> u in s'.revokedAt && s.revokedAt[u] <= s'.revokedAt[u]
  }

  lemma StepExtends(c: Config, s: State, now: real, e: Event)
    requires Inv(c, s) && Legal(s, now, e)
    ensures Extends(s, Step(c, s, now, e))
  {
    FloorMonotone(s, now);
  }

  lemma FloorMonotone(s: State, now: real)
    requires now >= s.clock && forall u :: u in s.revokedAt ==> s.revokedAt[u] as real <= s.clock
    ensures forall u :: u in s.revokedAt ==> s.revokedAt[u] <= now.Floor
  {
  }

  lemma {:induction false} RunExtends(c: Config, s: State, run: Run)
    requires Inv(c, s) && LegalRun(c, s, run)
    ensures Extends(s, After(c, s, run))
    decreases |run|
  {
    if run != [] {
      var s' := Step(c, s, run[0].0, run[0].1);
      StepExtends(c, s, run[0].0, run[0].1);
      StepKeeps(c, s, run[0].0, run[0].1);
      hide Inv;
      RunExtends(c, s', run[1..]);
    }
  }

  /**
   * A user's sessions revoked at `now` stay revoked: whatever happens afterwards, no token of
   * theirs issued up to that second is accepted again.
   */
  lemma RevokedSessionsStayRevoked(c: Config, s: State, now: real, uid: int, run: Run, t: Token, kind: Kind, later: real)
    requires WellConfigured(c) && Inv(c, s) && Legal(s, now, RevokeSessions(uid))
    requires LegalRun(c, Step(c, s, now, RevokeSessions(uid)), run)
    requires t.sub == uid && t.iat <= now.Floor
    requires later >= After(c, Step(c, s, now, RevokeSessions(uid)), run).clock
    ensures var end := After(c, Step(c, s, now, RevokeSessions(uid)), run);
            !Decodes(c, end.issued, end.store, t, kind, later)
  {
    var s' := Step(c, s, now, RevokeSessions(uid));
    StepKeeps(c, s, now, RevokeSessions(uid));
    assert s'.revokedAt[uid] == now.Floor;
    hide Inv;
    RunKeeps(c, s', run);
    RunExtends(c, s', run);
    UserEntryHolds(c, After(c, s', run), t, kind, later);
  }

  /** A per-user entry has a key of its own, so no collision can weaken it. */
  lemma UserEntryHolds(c: Config, s: State, t: Token, kind: Kind, now: real)
    requires WellConfigured(c) && Inv(c, s) && t.sub in s.revokedAt && t.iat <= s.revokedAt[t.sub]
    ensures !Decodes(c, s.issued, s.store, t, kind, now)
  {
    hide JtisOk, Collision;
    if Verifies(s.issued, t, now) {
      assert t.exp <= s.revokedAt[t.sub] + c.refresh;
      assert Live(s.store, UserKey(t.sub), now);
    }
  }

  /** An MFA token that was exchanged is never exchanged again. */
  lemma MfaTokenOnce(c: Config, s: State, now: real, e: Event, run: Run, later: real)
    requires WellConfigured(c) && Inv(c, s) && Legal(s, now, e) && e.MfaVerify?
    requires Decodes(c, s.issued, s.store, e.token, Mfa, now) && e.codeOk
    requires LegalRun(c, Step(c, s, now, e), run)
    requires later >= After(c, Step(c, s, now, e), run).clock
    ensures var end := After(c, Step(c, s, now, e), run);
            Collision(c, end) || !Decodes(c, end.issued, end.store, e.token, Mfa, later)
  {
    var s' := Step(c, s, now, e);
    StepKeeps(c, s, now, e);
    assert e.token.jti in s'.killed;
    hide Inv;
    RunKeeps(c, s', run);
    RunExtends(c, s', run);
    StoreForgetsNothing(c, After(c, s', run), e.token, Mfa, later);
  }

  /** Logging out ends both presented tokens for good. */
  lemma LogoutEndsTokens(c: Config, s: State, now: real, e: Event, run: Run, t: Token, kind: Kind, later: real)
    requires WellConfigured(c) && Inv(c, s) && Legal(s, now, e) && e.Logout?
    requires Decodes(c, s.issued, s.store, e.access, Access, now)
    requires t == e.access || (e.refresh == Some(t) && t.sub == e.access.sub && Verifies(s.issued, t, now))
    requires LegalRun(c, Step(c, s, now, e), run)
    requires later >= After(c, Step(c, s, now, e), run).clock
    ensures var end := After(c, Step(c, s, now, e), run);
            Collision(c, end) || !Decodes(c, end.issued, end.store, t, kind, later)
  {
    var s' := Step(c, s, now, e);
    StepKeeps(c, s, now, e);
    assert t.jti in s'.killed;
    hide Inv;
    RunKeeps(c, s', run);
    RunExtends(c, s', run);
    StoreForgetsNothing(c, After(c, s', run), t, kind, later);
  }

  /**
   * The lifetimes matter: a token kind that lives longer than a revocation is kept escapes it.
   * With StoreForgetsNothing this makes WellConfigured the exact condition.
   */
  lemma LongLivedTokenEscapes(c: Config, uid: int, jti: string, other: string) returns (run: Run, t: Token, later: real)
    requires !WellConfigured(c) && c.refresh >= 0
    requires jti != other && c.digest(jti) != c.digest(other)
    ensures LegalRun(c, Start, run) && later >= After(c, Start, run).clock
    ensures var end := After(c, Start, run);
            && Decodes(c, end.issued, end.store, t, t.kind, later)
            && !DecodesForever(end, t, t.kind, later) && !Collision(c, end)
  {
    var kind := if c.access > c.refresh then Access else Mfa;
    var issue := if kind == Access then Login(uid, jti, other) else MfaChallenge(uid, jti);
    var revoke := RevokeSessions(uid);
    run := [(0.0, issue), (0.0, revoke)];
    t := MakeToken(c, kind, uid, jti, 0.0);
    later := c.refresh as real;
    var s1 := Step(c, Start, 0.0, issue);
    var s2 := Step(c, s1, 0.0, revoke);
    assert run[1..] == [(0.0, revoke)] && run[1..][1..] == [];
    assert LegalRun(c, s2, run[1..][1..]) && After(c, s2, run[1..][1..]) == s2;
    assert LegalRun(c, s1, run[1..]) && After(c, s1, run[1..]) == s2;
    assert After(c, Start, run) == s2;
    assert t in s2.issued;
    assert forall x :: x in s2.issued ==> x.jti == jti || x.jti == other;
  }

  // ----- Who is given which token -----

  /** t is a token of this kind for this user, issued at `now` to live `life` seconds. */
  predicate IsNew(t: Token, kind: Kind, sub: int, jti: string, now: real, life: int) {
    t.kind == kind && t.sub == sub && t.jti == jti && t.iat == now.Floor && t.exp == now.Floor + life
  }

  predicate InSession(c: Config, t: Token, sub: int, accessJti: string, refreshJti: string, now: real) {
    IsNew(t, Access, sub, accessJti, now, c.access) || IsNew(t, Refresh, sub, refreshJti, now, c.refresh)
  }

  /** The tokens a request is answered with: the one logging in, or the one whose token is exchanged. */
  ghost predicate Grants(c: Config, s: State, now: real, e: Event, t: Token) {
    match e
    case Login(uid, a, r) => InSession(c, t, uid, a, r, now)
    case MfaChallenge(uid, j) => IsNew(t, Mfa, uid, j, now, c.mfa)
    case MfaVerify(token, codeOk, a, r) =>
      codeOk && Decodes(c, s.issued, s.store, token, Mfa, now) && InSession(c, t, token.sub, a, r, now)
    case RefreshAccess(token, j) =>
      Decodes(c, s.issued, s.store, token, Refresh, now) && IsNew(t, Access, token.sub, j, now, c.access)
    case Logout(_, _) => false
    case RevokeSessions(_) => false
  }

  /** Each request issues exactly the tokens it grants. */
  lemma StepIssuesIff(c: Config, s: State, now: real, e: Event, t: Token)
    ensures t in Step(c, s, now, e).issued <==> t in s.issued || Grants(c, s, now, e, t)
  {
    hide Decodes, Verifies, RevokeJti, RevokeUser;
  }

  /** The user logged in, or passed the first of two steps. */
  ghost predicate FirstStep(run: Run, uid: int) {
    exists k :: 0 <= k < |run| && ((run[k].1.Login? || run[k].1.MfaChallenge?) && run[k].1.uid == uid)
  }

  /** The user logged in without a second factor, or gave the right code for a token of theirs. */
  ghost predicate Authenticated(run: Run, uid: int) {
    exists k :: 0 <= k < |run| &&
      (|| (run[k].1.Login? && run[k].1.uid == uid)
       || (run[k].1.MfaVerify? && run[k].1.codeOk && run[k].1.token.sub == uid))
  }

  ghost predicate Holds(s: State, uid: int, session: bool) {
    exists t :: t in s.issued && t.sub == uid && (session ==> t.kind != Mfa)
  }

  lemma LaterInRun(run: Run, uid: int)
    requires run != []
    ensures FirstStep(run[1..], uid) ==> FirstStep(run, uid)
    ensures Authenticated(run[1..], uid) ==> Authenticated(run, uid)
  {
    assert forall k :: 0 <= k < |run[1..]| ==> run[1..][k] == run[k + 1];
  }

  lemma StepHolds(c: Config, s: State, now: real, e: Event, uid: int)
    ensures Holds(Step(c, s, now, e), uid, false) ==> Holds(s, uid, false) || FirstStep([(now, e)], uid)
    ensures Holds(Step(c, s, now, e), uid, true) ==> Holds(s, uid, true) || Authenticated([(now, e)], uid)
  {
    var s' := Step(c, s, now, e);
    hide Step;
    forall t | t in s'.issued && t.sub == uid
      ensures Holds(s, uid, false) || FirstStep([(now, e)], uid)
      ensures t.kind != Mfa ==> Holds(s, uid, true) || Authenticated([(now, e)], uid)
    {
      StepIssuesIff(c, s, now, e, t);
      assert [(now, e)][0].1 == e;
      if t !in s.issued && (e.MfaVerify? || e.RefreshAccess?) {
        assert e.token in s.issued && e.token.sub == uid;
      }
    }
  }

  lemma FirstEvent(run: Run, uid: int)
    requires run != []
    ensures FirstStep([run[0]], uid) ==> FirstStep(run, uid)
    ensures Authenticated([run[0]], uid) ==> Authenticated(run, uid)
  {
    assert [run[0]][0] == run[0];
  }

  lemma {:induction false} RunHolds(c: Config, s: State, run: Run, uid: int)
    ensures Holds(After(c, s, run), uid, false) ==> Holds(s, uid, false) || FirstStep(run, uid)
    ensures Holds(After(c, s, run), uid, true) ==> Holds(s, uid, true) || Authenticated(run, uid)
    decreases |run|
  {
    if run != [] {
      hide Holds, FirstStep, Authenticated, Step;
      StepHolds(c, s, run[0].0, run[0].1, uid);
      FirstEvent(run, uid);
      LaterInRun(run, uid);
      RunHolds(c, Step(c, s, run[0].0, run[0].1), run[1..], uid);
    }
  }

  /**
   * From an empty server every token belongs to a user who took the first step in the run, and
   * every access or refresh token to one who logged in or gave the right code.
   */
  lemma TokensAreEarned(c: Config, run: Run, t: Token)
    requires t in After(c, Start, run).issued
    ensures FirstStep(run, t.sub) && (t.kind != Mfa ==> Authenticated(run, t.sub))
  {
    RunHolds(c, Start, run, t.sub);
    assert Holds(After(c, Start, run), t.sub, false);
    assert t.kind != Mfa ==> Holds(After(c, Start, run), t.sub, true);
  }

  // ----- Tokens nobody revokes -----

  /** Requests that may end t: it is exchanged, its own user logs it out, or that user's sessions are revoked. */
  predicate Touches(e: Event, t: Token) {
    match e
    case MfaVerify(token, codeOk, _, _) => codeOk && token == t
    case Logout(access, refresh) => access == t || (refresh == Some(t) && access.sub == t.sub)
    case RevokeSessions(uid) => uid == t.sub
    case _ => false
  }

  ghost predicate Unrevoked(s: State, t: Token) {
    t in s.issued && t.jti !in s.killed && (t.sub in s.revokedAt ==> t.iat > s.revokedAt[t.sub])
  }

  lemma StepLeavesAlone(c: Config, s: State, now: real, e: Event, t: Token)
    requires Inv(c, s) && Unrevoked(s, t) && !Touches(e, t)
    ensures Unrevoked(Step(c, s, now, e), t)
  {
    hide JtisOk, UsersOk, Collision, Live, RevokeJti, RevokeUser;
  }

  lemma {:induction false} RunLeavesAlone(c: Config, s: State, run: Run, t: Token)
    requires Inv(c, s) && LegalRun(c, s, run) && Unrevoked(s, t)
    requires forall k :: 0 <= k < |run| ==> !Touches(run[k].1, t)
    ensures Unrevoked(After(c, s, run), t)
    decreases |run|
  {
    if run != [] {
      hide Inv, Unrevoked, Touches, Step;
      StepKeeps(c, s, run[0].0, run[0].1);
      StepLeavesAlone(c, s, run[0].0, run[0].1, t);
      assert forall k :: 0 <= k < |run[1..]| ==> run[1..][k] == run[k + 1];
      RunLeavesAlone(c, Step(c, s, run[0].0, run[0].1), run[1..], t);
    }
  }

  lemma UnrevokedDecodes(c: Config, s: State, t: Token, kind: Kind, now: real)
    requires Inv(c, s) && Unrevoked(s, t)
    ensures Collision(c, s) || (Decodes(c, s.issued, s.store, t, kind, now) <==> kind == t.kind && now < t.exp as real)
  {
    if !Collision(c, s) && JtiKey(c.digest(t.jti)) in s.store {
      OnlyKilledJtis(c, s, t);
    }
  }

  /** A granted token is not revoked, unless its user's sessions were revoked in that very second. */
  lemma GrantedUnrevoked(c: Config, s: State, now: real, e: Event, t: Token)
    requires Inv(c, s) && Legal(s, now, e) && Grants(c, s, now, e, t)
    ensures Unrevoked(Step(c, s, now, e), t) <==> !(t.sub in s.revokedAt && s.revokedAt[t.sub] == now.Floor)
  {
    StepIssuesIff(c, s, now, e, t);
    FloorMonotone(s, now);
    assert t.iat == now.Floor && t.jti in NewJtis(e);
    hide JtisOk, Collision, Live, RevokeJti, RevokeUser;
    assert t.jti !in Step(c, s, now, e).killed;
    assert Step(c, s, now, e).revokedAt == s.revokedAt;
  }

  /** A token that is still accepted shows that its user's sessions were not revoked this second. */
  lemma ExchangedUnrevoked(c: Config, s: State, t: Token, kind: Kind, now: real)
    requires WellConfigured(c) && Inv(c, s) && now >= s.clock && Decodes(c, s.issued, s.store, t, kind, now)
    ensures !(t.sub in s.revokedAt && s.revokedAt[t.sub] == now.Floor)
  {
    FloorBelow(now);
    assert t.iat <= now.Floor && t.exp <= t.iat + c.refresh;
    assert t.sub in s.revokedAt && s.revokedAt[t.sub] == now.Floor ==> Live(s.store, UserKey(t.sub), now);
  }

  /** A token granted in exchange for another is accepted at once. */
  lemma UsableAtOnce(c: Config, s: State, now: real, e: Event, t: Token)
    requires WellConfigured(c) && Inv(c, s) && Legal(s, now, e) && Grants(c, s, now, e, t)
    requires (e.MfaVerify? || e.RefreshAccess?) && Lifetime(c, t.kind) >= 1
    ensures var s' := Step(c, s, now, e);
            Collision(c, s') || Decodes(c, s'.issued, s'.store, t, t.kind, now)
  {
    FloorBelow(now);
    assert now < t.exp as real;
    GrantedTokenLives(c, s, now, e, t, [], t.kind, now);
  }

  /**
   * An exchange hands out tokens that are accepted at once and, unless someone presents them for
   * logout or revokes their user's sessions, until they expire.
   */
  lemma GrantedTokenLives(c: Config, s: State, now: real, e: Event, t: Token, run: Run, kind: Kind, later: real)
    requires WellConfigured(c) && Inv(c, s) && Legal(s, now, e) && Grants(c, s, now, e, t)
    requires e.Login? || e.MfaChallenge? ==> !(t.sub in s.revokedAt && s.revokedAt[t.sub] == now.Floor)
    requires LegalRun(c, Step(c, s, now, e), run) && forall k :: 0 <= k < |run| ==> !Touches(run[k].1, t)
    ensures var end := After(c, Step(c, s, now, e), run);
            Collision(c, end) || (Decodes(c, end.issued, end.store, t, kind, later) <==> kind == t.kind && later < t.exp as real)
  {
    if e.MfaVerify? || e.RefreshAccess? {
      ExchangedUnrevoked(c, s.(clock := now), e.token, if e.MfaVerify? then Mfa else Refresh, now);
    }
    GrantedUnrevoked(c, s, now, e, t);
    StepKeeps(c, s, now, e);
    hide Inv, Unrevoked, Touches, Step, Decodes, Collision, LegalRun, After;
    RunLeavesAlone(c, Step(c, s, now, e), run, t);
    RunKeeps(c, Step(c, s, now, e), run);
    UnrevokedDecodes(c, After(c, Step(c, s, now, e), run), t, kind, later);
  }

  // ----- The service -----

  class TokenService {
    const config: Config
    var store: Redis
    ghost var issued: set<Token>
    ghost var clock: real
    ghost var killed: set<string>
    ghost var revokedAt: map<int, int>

    ghost function View(): State
      reads this
    {
      State(store, issued, clock, killed, revokedAt)
    }

    ghost predicate Valid()
      reads this
    {
      Inv(config, View())
    }

    constructor (config: Config)
      ensures Valid() && View() == Start && this.config == config
    {
      this.config := config;
      store := map[];
      issued, clock, killed, revokedAt := {}, 0.0, {}, map[];
    }

    /** revoke_user_sessions: one expiring entry per user, overwritten by later revocations. */
    method RevokeUserSessions(uid: int, now: real)
      requires Valid() && now >= clock
      modifies this
      ensures Valid() && View() == Step(config, old(View()), now, RevokeSessions(uid))
    {
      StepKeeps(config, View(), now, RevokeSessions(uid));
      store := RevokeUser(config, store, uid, now);
      clock, revokedAt := now, revokedAt[uid := now.Floor];
    }

    /** _decode; `signed` stands for the signature check. */
    method Decode(t: Token, signed: bool, kind: Kind, now: real) returns (ok: bool)
      requires Valid() && now >= clock && signed == (t in issued)
      ensures ok == Decodes(config, issued, store, t, kind, now)
    {
      if !signed || t.exp as real <= now || t.kind != kind {
        return false;
      }
      if Live(store, JtiKey(config.digest(t.jti)), now) {
        return false;
      }
      var k := UserKey(t.sub);
      if Live(store, k, now) && t.iat <= store[k].value {
        return false;
      }
      return true;
    }

    method Login(uid: int, accessJti: string, refreshJti: string, now: real) returns (access: Token, refresh: Token)
      requires Valid() && Legal(View(), now, Event.Login(uid, accessJti, refreshJti))
      modifies this
      ensures Valid() && View() == Step(config, old(View()), now, Event.Login(uid, accessJti, refreshJti))
      ensures access in issued && IsNew(access, Access, uid, accessJti, now, config.access)
      ensures refresh in issued && IsNew(refresh, Refresh, uid, refreshJti, now, config.refresh)
    {
      StepKeeps(config, View(), now, Event.Login(uid, accessJti, refreshJti));
      access := MakeToken(config, Access, uid, accessJti, now);
      refresh := MakeToken(config, Refresh, uid, refreshJti, now);
      clock, issued := now, issued + {access, refresh};
    }

    /** First login step of a user with a second factor. */
    method Challenge(uid: int, jti: string, now: real) returns (t: Token)
      requires Valid() && Legal(View(), now, Event.MfaChallenge(uid, jti))
      modifies this
      ensures Valid() && View() == Step(config, old(View()), now, Event.MfaChallenge(uid, jti))
      ensures t in issued && IsNew(t, Mfa, uid, jti, now, config.mfa)
    {
      StepKeeps(config, View(), now, Event.MfaChallenge(uid, jti));
      t := MakeToken(config, Mfa, uid, jti, now);
      clock, issued := now, issued + {t};
    }

    method RefreshAccess(t: Token, signed: bool, jti: string, now: real) returns (access: Option<Token>)
      requires Valid() && signed == (t in issued)
      requires Legal(View(), now, Event.RefreshAccess(t, jti))
      modifies this
      ensures Valid() && View() == Step(config, old(View()), now, Event.RefreshAccess(t, jti))
      ensures access.Some? <==> old(Decodes(config, issued, store, t, Refresh, now))
      ensures access.Some? ==> access.value in issued && IsNew(access.value, Access, t.sub, jti, now, config.access)
      ensures access.Some? && config.access >= 1 && WellConfigured(config) ==>
                Collision(config, View()) || Decodes(config, issued, store, access.value, Access, now)
    {
      StepKeeps(config, View(), now, Event.RefreshAccess(t, jti));
      var ok := Decode(t, signed, Refresh, now);
      clock := now;
      if !ok {
        return None;
      }
      var renewed := MakeToken(config, Access, t.sub, jti, now);
      issued := issued + {renewed};
      access := Some(renewed);
      if config.access >= 1 && WellConfigured(config) {
        UsableAtOnce(config, old(View()), now, Event.RefreshAccess(t, jti), renewed);
      }
    }

    /** Second login step: the MFA token is used up before the session is issued. */
    method MfaVerify(t: Token, signed: bool, codeOk: bool, accessJti: string, refreshJti: string, now: real)
      returns (session: Option<(Token, Token)>)
      requires Valid() && signed == (t in issued)
      requires Legal(View(), now, Event.MfaVerify(t, codeOk, accessJti, refreshJti))
      modifies this
      ensures Valid() && View() == Step(config, old(View()), now, Event.MfaVerify(t, codeOk, accessJti, refreshJti))
      ensures session.Some? <==> old(Decodes(config, issued, store, t, Mfa, now)) && codeOk
      ensures session.Some? ==>
                && session.value.0 in issued && IsNew(session.value.0, Access, t.sub, accessJti, now, config.access)
                && session.value.1 in issued && IsNew(session.value.1, Refresh, t.sub, refreshJti, now, config.refresh)
    {
      StepKeeps(config, View(), now, Event.MfaVerify(t, codeOk, accessJti, refreshJti));
      var ok := Decode(t, signed, Mfa, now);
      clock := now;
      if !ok || !codeOk {
        return None;
      }
      store := RevokeJti(config, store, t, now);
      killed := killed + {t.jti};
      var access := MakeToken(config, Access, t.sub, accessJti, now);
      var refresh := MakeToken(config, Refresh, t.sub, refreshJti, now);
      issued := issued + {access, refresh};
      session := Some((access, refresh));
    }

    /** Logout revokes the access token and, when it is the same user's, the refresh token. */
    method Logout(access: Token, signed: bool, refresh: Option<Token>, refreshSigned: bool, now: real)
      returns (ok: bool)
      requires Valid() && now >= clock && signed == (access in issued)
      requires refresh.Some? ==> refreshSigned == (refresh.value in issued)
      modifies this
      ensures Valid() && View() == Step(config, old(View()), now, Event.Logout(access, refresh))
      ensures ok == old(Decodes(config, issued, store, access, Access, now))
    {
      StepKeeps(config, View(), now, Event.Logout(access, refresh));
      ok := Decode(access, signed, Access, now);
      clock := now;
      if !ok {
        return;
      }
      store := RevokeJti(config, store, access, now);
      killed := killed + {access.jti};
      if refresh.Some? && refreshSigned && refresh.value.exp as real > now && refresh.value.sub == access.sub {
        store := RevokeJti(config, store, refresh.value, now);
        killed := killed + {refresh.value.jti};
      }
    }
  }
}
