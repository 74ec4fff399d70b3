/** Dashboard authentication (auth.go) as a timed state machine: login lockout, sessions, and the
    background cleaner, with the proof that the cleaner is invisible. AuthHistory says more about runs. */
module AuthModel {
  import opened Clock
  import opened Text
  import opened Wrappers

  const SESSION_DURATION: nat := 24 * HOUR
  const MAX_LOGIN_FAILURES: nat := 5
  const LOCKOUT_DURATION: nat := 5 * MINUTE

  datatype Session = Session(token: string, createdAt: Time, expiresAt: Time, clientIP: string)

  datatype Attempt = Attempt(failures: nat, blockedUntil: Time)

  datatype AuthState = AuthState(
    password: string, sessions: map<string, Session>, attempts: map<string, Attempt>)

  /** The credentials of a request: what follows "Bearer ", the password of basic auth, the cookie. */
  datatype Credentials = Credentials(bearer: Option<string>, basic: Option<string>, cookie: Option<string>)

  /** `payload` is None for a malformed body; `random` is the new session token, None when the random
      source fails. */
  datatype Action =
    | Login(ip: string, payload: Option<string>, random: Option<string>)
    | Logout(sessionCookie: Option<string>)
    | IsAuthenticated(creds: Credentials)
    | CheckRateLimit(ip: string)
    | RecordFailed(ip: string)
    | RecordSuccess(ip: string)
    | CreateSession(ip: string, random: Option<string>)
    | SetPassword(password: string)
    | Cleanup

  datatype Event = Event(now: Time, act: Action)

  datatype Reply =
    | TooManyRequests(wait: nat)
    | BadRequest
    | WrongPassword(remaining: int)
    | Locked
    | LoggedIn(session: Session)
    | ServerError
    | Answer(yes: bool)
    | RateLimit(blocked: bool, wait: nat)
    | Recorded(remaining: int, blocked: bool)
    | Done

  // ------------------------------------------------------------- operations

  function Init(adminPassword: string): AuthState {
    AuthState(TrimSpace(adminPassword), map[], map[])
  }

  predicate ValidPassword(password: string, candidate: string) {
    var cand := TrimSpace(candidate);
    var expected := if password == "" then "admin" else password;
    || cand == expected
    || (expected == "alpine" && cand == "admin")
    || (expected == "admin" && cand == "alpine")
  }

  predicate ValidSession(s: AuthState, token: string, now: Time) {
    token in s.sessions && now < s.sessions[token].expiresAt
  }

  predicate Authenticated(s: AuthState, creds: Credentials, now: Time) {
    || (creds.bearer.Some? &&
          (ValidPassword(s.password, creds.bearer.value) || ValidSession(s, creds.bearer.value, now)))
    || (creds.basic.Some? && ValidPassword(s.password, creds.basic.value))
    || (creds.cookie.Some? && creds.cookie.value != "" && ValidSession(s, creds.cookie.value, now))
  }

  /** How long `ip` is still locked out; 0 when it is not. */
  function Wait(s: AuthState, ip: string, now: Time): nat {
    if ip in s.attempts && s.attempts[ip].blockedUntil > now then s.attempts[ip].blockedUntil - now else 0
  }

  function FailedOnce(s: AuthState, ip: string, now: Time): (AuthState, Reply) {
    var att := if ip in s.attempts then s.attempts[ip] else Attempt(0, 0);
    var failures := att.failures + 1;
    if failures >= MAX_LOGIN_FAILURES then
      (s.(attempts := s.attempts[ip := Attempt(0, now + LOCKOUT_DURATION)]), Recorded(0, true))
    else
      (s.(attempts := s.attempts[ip := Attempt(failures, att.blockedUntil)]),
       Recorded(MAX_LOGIN_FAILURES - failures, false))
  }

  function Forgive(s: AuthState, ip: string): AuthState {
    s.(attempts := s.attempts - {ip})
  }

  function OpenSession(s: AuthState, ip: string, random: Option<string>, now: Time): (AuthState, Reply) {
    if random.None? then (s, ServerError)
    else
      var session := Session(random.value, now, now + SESSION_DURATION, ip);
      (s.(sessions := s.sessions[random.value := session]), LoggedIn(session))
  }

  function LoginStep(s: AuthState, ip: string, payload: Option<string>, random: Option<string>, now: Time)
    : (AuthState, Reply)
  {
    if Wait(s, ip, now) > 0 then (s, TooManyRequests(Wait(s, ip, now)))
    else if payload.None? then (s, BadRequest)
    else if !ValidPassword(s.password, payload.value) then
      var (s', r) := FailedOnce(s, ip, now);
      (s', if r.Recorded? && r.blocked then Locked else if r.Recorded? then WrongPassword(r.remaining) else r)
    else OpenSession(Forgive(s, ip), ip, random, now)
  }

  predicate Stale(att: Attempt, now: Time) {
    att.blockedUntil < now && att.failures == 0
  }

  function Unexpired(sessions: map<string, Session>, now: Time): map<string, Session> {
    map t | t in sessions && sessions[t].expiresAt >= now :: sessions[t]
  }

  function Unspent(attempts: map<string, Attempt>, now: Time): map<string, Attempt> {
    map ip | ip in attempts && !Stale(attempts[ip], now) :: attempts[ip]
  }

  function CleanupStep(s: AuthState, now: Time): AuthState {
    s.(sessions := Unexpired(s.sessions, now), attempts := Unspent(s.attempts, now))
  }

  function LogoutStep(s: AuthState, cookie: Option<string>): AuthState {
    if cookie.Some? && cookie.value != "" then s.(sessions := s.sessions - {cookie.value}) else s
  }

  function Step(s: AuthState, e: Event): (AuthState, Reply) {
    match e.act
    case Login(ip, payload, random) => LoginStep(s, ip, payload, random, e.now)
    case Logout(cookie) => (LogoutStep(s, cookie), Done)
    case IsAuthenticated(creds) => (s, Answer(Authenticated(s, creds, e.now)))
    case CheckRateLimit(ip) => (s, RateLimit(Wait(s, ip, e.now) > 0, Wait(s, ip, e.now)))
    case RecordFailed(ip) => FailedOnce(s, ip, e.now)
    case RecordSuccess(ip) => (Forgive(s, ip), Done)
    case CreateSession(ip, random) => OpenSession(s, ip, random, e.now)
    case SetPassword(password) => (s.(password := TrimSpace(password), sessions := map[]), Done)
    case Cleanup => (CleanupStep(s, e.now), Done)
  }

  // ------------------------------------------------------------------- runs

  function Run(s0: AuthState, es: seq<Event>): AuthState {
    if es == [] then s0 else Step(Run(s0, es[..|es| - 1]), es[|es| - 1]).0
  }

  /** The replies of a run, in order, those of the background cleaner left out. */
  function Replies(s0: AuthState, es: seq<Event>): seq<Reply> {
    if es == [] then []
    else
      var before := es[..|es| - 1];
      var last := es[|es| - 1];
      Replies(s0, before) + if last.act.Cleanup? then [] else [Step(Run(s0, before), last).1]
  }

  ghost predicate Monotone(es: seq<Event>) {
    forall i, j :: 0 <= i < j < |es| ==> es[i].now <= es[j].now
  }

  /** The same run without the cleaner. */
  function Strip(es: seq<Event>): seq<Event> {
    if es == [] then []
    else Strip(es[..|es| - 1]) + if es[|es| - 1].act.Cleanup? then [] else [es[|es| - 1]]
  }

  // ----------------------------------------------------- cleanup is invisible

  function Failures(s: AuthState, ip: string): nat {
    if ip in s.attempts then s.attempts[ip].failures else 0
  }

  /** Two states no call made at or after `now` can tell apart: an attempt entry with no failures
      whose block has passed counts as absent, and so does an expired session. */
  ghost predicate Alike(s: AuthState, t: AuthState, now: Time) {
    && s.password == t.password
    && (forall ip :: Failures(s, ip) == Failures(t, ip) && Wait(s, ip, now) == Wait(t, ip, now))
    && (forall k :: ValidSession(s, k, now) == ValidSession(t, k, now))
    && (forall k :: ValidSession(s, k, now) ==> s.sessions[k] == t.sessions[k])
  }

  lemma AlikeLater(s: AuthState, t: AuthState, now: Time, later: Time)
    requires Alike(s, t, now) && now <= later
    ensures Alike(s, t, later)
  {
    forall ip
      ensures Wait(s, ip, later) == Wait(t, ip, later)
    {
      assert Wait(s, ip, now) == Wait(t, ip, now);
    }
    forall k
      ensures ValidSession(s, k, later) == ValidSession(t, k, later)
      ensures ValidSession(s, k, later) ==> s.sessions[k] == t.sessions[k]
    {
      assert ValidSession(s, k, now) == ValidSession(t, k, now);
    }
  }

  lemma AlikeCleanup(s: AuthState, t: AuthState, now: Time)
    requires Alike(s, t, now)
    ensures Alike(CleanupStep(s, now), t, now)
  {
    var s' := CleanupStep(s, now);
    forall ip
      ensures Failures(s', ip) == Failures(s, ip) && Wait(s', ip, now) == Wait(s, ip, now)
    {}
    forall k
      ensures ValidSession(s', k, now) == ValidSession(s, k, now)
      ensures ValidSession(s, k, now) ==> s'.sessions[k] == s.sessions[k]
    {}
  }

  /** Cleaning forgets exactly what can no longer matter: sessions past their expiry, and attempts without
      failures whose block has passed. */
  lemma CleanupForgetsTheDead(s: AuthState, now: Time, token: string, ip: string)
    ensures var s' := CleanupStep(s, now);
            && s'.password == s.password
            && (token in s'.sessions <==> token in s.sessions && now <= s.sessions[token].expiresAt)
            && (token in s'.sessions ==> s'.sessions[token] == s.sessions[token])
            && (ip in s'.attempts <==>
                  ip in s.attempts && (s.attempts[ip].failures > 0 || now <= s.attempts[ip].blockedUntil))
            && (ip in s'.attempts ==> s'.attempts[ip] == s.attempts[ip])
  {
  }

  /** What a failed attempt does to the limits of any address. */
  lemma FailedOnceLimits(s: AuthState, ip: string, now: Time, x: string)
    ensures var (s', r) := FailedOnce(s, ip, now);
            var locks := Failures(s, ip) + 1 >= MAX_LOGIN_FAILURES;
            && r == (if locks then Recorded(0, true) else Recorded(MAX_LOGIN_FAILURES - Failures(s, ip) - 1, false))
            && Failures(s', x) == (if x != ip then Failures(s, x) else if locks then 0 else Failures(s, ip) + 1)
            && Wait(s', x, now) == (if x == ip && locks then LOCKOUT_DURATION else Wait(s, x, now))
  {}

  lemma ForgiveLimits(s: AuthState, ip: string, now: Time, x: string)
    ensures Failures(Forgive(s, ip), x) == if x == ip then 0 else Failures(s, x)
    ensures Wait(Forgive(s, ip), x, now) == if x == ip then 0 else Wait(s, x, now)
  {}

  lemma AlikeFailed(s: AuthState, t: AuthState, ip: string, now: Time)
    requires Alike(s, t, now)
    ensures FailedOnce(s, ip, now).1 == FailedOnce(t, ip, now).1
    ensures Alike(FailedOnce(s, ip, now).0, FailedOnce(t, ip, now).0, now)
  {
    var s', t' := FailedOnce(s, ip, now).0, FailedOnce(t, ip, now).0;
    forall x
      ensures Failures(s', x) == Failures(t', x) && Wait(s', x, now) == Wait(t', x, now)
    {
      FailedOnceLimits(s, ip, now, x);
      FailedOnceLimits(t, ip, now, x);
    }
    FailedOnceLimits(s, ip, now, ip);
    FailedOnceLimits(t, ip, now, ip);
    assert forall k :: ValidSession(s', k, now) == ValidSession(s, k, now);
    assert forall k :: ValidSession(t', k, now) == ValidSession(t, k, now);
  }

  lemma AlikeForgive(s: AuthState, t: AuthState, ip: string, now: Time)
    requires Alike(s, t, now)
    ensures Alike(Forgive(s, ip), Forgive(t, ip), now)
  {
    var s', t' := Forgive(s, ip), Forgive(t, ip);
    forall x
      ensures Failures(s', x) == Failures(t', x) && Wait(s', x, now) == Wait(t', x, now)
    {
      ForgiveLimits(s, ip, now, x);
      ForgiveLimits(t, ip, now, x);
    }
    assert forall k :: ValidSession(s', k, now) == ValidSession(s, k, now);
    assert forall k :: ValidSession(t', k, now) == ValidSession(t, k, now);
  }

  /** Sessions may change in any way that treats both states the same. */
  lemma AlikeSessions(s: AuthState, t: AuthState, s': AuthState, t': AuthState, now: Time)
    requires Alike(s, t, now)
    requires s'.attempts == s.attempts && t'.attempts == t.attempts && s'.password == t'.password
    requires forall k :: ValidSession(s', k, now) == ValidSession(t', k, now) &&
                         (ValidSession(s', k, now) ==> s'.sessions[k] == t'.sessions[k])
    ensures Alike(s', t', now)
  {
    forall x
      ensures Failures(s', x) == Failures(t', x) && Wait(s', x, now) == Wait(t', x, now)
    {
      assert Failures(s, x) == Failures(t, x) && Wait(s, x, now) == Wait(t, x, now);
    }
  }

  lemma AlikeOpen(s: AuthState, t: AuthState, ip: string, random: Option<string>, now: Time)
    requires Alike(s, t, now)
    ensures OpenSession(s, ip, random, now).1 == OpenSession(t, ip, random, now).1
    ensures Alike(OpenSession(s, ip, random, now).0, OpenSession(t, ip, random, now).0, now)
  {
    var s', t' := OpenSession(s, ip, random, now).0, OpenSession(t, ip, random, now).0;
    forall k
      ensures ValidSession(s', k, now) == ValidSession(t', k, now)
      ensures ValidSession(s', k, now) ==> s'.sessions[k] == t'.sessions[k]
    {
      assert ValidSession(s, k, now) == ValidSession(t, k, now);
    }
    AlikeSessions(s, t, s', t', now);
  }

  lemma AlikeLogout(s: AuthState, t: AuthState, cookie: string, now: Time)
    requires Alike(s, t, now)
    ensures Alike(s.(sessions := s.sessions - {cookie}), t.(sessions := t.sessions - {cookie}), now)
  {
    var s', t' := s.(sessions := s.sessions - {cookie}), t.(sessions := t.sessions - {cookie});
    forall k
      ensures ValidSession(s', k, now) == ValidSession(t', k, now)
      ensures ValidSession(s', k, now) ==> s'.sessions[k] == t'.sessions[k]
    {
      assert ValidSession(s, k, now) == ValidSession(t, k, now);
    }
    AlikeSessions(s, t, s', t', now);
  }

  lemma AlikeLogin(s: AuthState, t: AuthState, ip: string, payload: Option<string>, random: Option<string>, now: Time)
    requires Alike(s, t, now)
    ensures LoginStep(s, ip, payload, random, now).1 == LoginStep(t, ip, payload, random, now).1
    ensures Alike(LoginStep(s, ip, payload, random, now).0, LoginStep(t, ip, payload, random, now).0, now)
  {
    assert Wait(s, ip, now) == Wait(t, ip, now);
    AlikeFailed(s, t, ip, now);
    AlikeForgive(s, t, ip, now);
    AlikeOpen(Forgive(s, ip), Forgive(t, ip), ip, random, now);
  }

  /** Alike states give the same reply to every call and stay alike. */
  lemma AlikeStep(s: AuthState, t: AuthState, e: Event)
    requires Alike(s, t, e.now) && !e.act.Cleanup?
    ensures Step(s, e).1 == Step(t, e).1
    ensures Alike(Step(s, e).0, Step(t, e).0, e.now)
  {
    match e.act {
      case Login(ip, payload, random) => AlikeLogin(s, t, ip, payload, random, e.now);
      case Logout(cookie) =>
        if cookie.Some? {
          AlikeLogout(s, t, cookie.value, e.now);
        }
      case IsAuthenticated(creds) =>
      case CheckRateLimit(ip) => assert Wait(s, ip, e.now) == Wait(t, ip, e.now);
      case RecordFailed(ip) => AlikeFailed(s, t, ip, e.now);
      case RecordSuccess(ip) => AlikeForgive(s, t, ip, e.now);
      case CreateSession(ip, random) => AlikeOpen(s, t, ip, random, e.now);
      case SetPassword(password) => AlikeSessions(s, t, Step(s, e).0, Step(t, e).0, e.now);
    }
  }

  lemma {:induction false} CleanupSimulation(s0: AuthState, es: seq<Event>, now: Time)
    requires Monotone(es) && (es != [] ==> es[|es| - 1].now <= now)
    ensures Alike(Run(s0, es), Run(s0, Strip(es)), now)
    ensures Replies(s0, es) == Replies(s0, Strip(es))
  {
    if es != [] {
      var before, last := es[..|es| - 1], es[|es| - 1];
      CleanupSimulation(s0, before, last.now);
      var s, t := Run(s0, before), Run(s0, Strip(before));
      if last.act.Cleanup? {
        AlikeCleanup(s, t, last.now);
        assert Strip(es) == Strip(before);
      } else {
        AlikeStep(s, t, last);
        assert Strip(es)[..|Strip(es)| - 1] == Strip(before);
      }
      AlikeLater(Run(s0, es), Run(s0, Strip(es)), last.now, now);
    }
  }

  /** Background cleanup is invisible: two runs that differ only in when, and how often, the cleaner
      ran give the same replies. */
  lemma CleanupIsInvisible(s0: AuthState, es: seq<Event>, es': seq<Event>)
    requires Monotone(es) && Monotone(es') && Strip(es) == Strip(es')
    ensures Replies(s0, es) == Replies(s0, es')
  {
    CleanupSimulation(s0, es, if es == [] then 0 else es[|es| - 1].now);
    CleanupSimulation(s0, es', if es' == [] then 0 else es'[|es'| - 1].now);
  }
}
