/** What the login machine of AuthModel does over whole runs, told from the calls and the replies they got:
    which sessions are good, what every call is answered, how many failed checks fit into five minutes. */
module AuthHistory {
  import opened AuthModel
  import opened Clock
  import opened Text
  import opened Wrappers

  // ---------------------------------------------------------------- sessions

  /** All replies of a run, those of the cleaner included. */
  function Log(s0: AuthState, es: seq<Event>): (rs: seq<Reply>)
    ensures |rs| == |es|
  {
    if es == [] then []
    else
      var before := es[..|es| - 1];
      Log(s0, before) + [Step(Run(s0, before), es[|es| - 1]).1]
  }

  predicate Opens(r: Reply, token: string) {
    r.LoggedIn? && r.session.token == token
  }

  /** A logout with that token, or a new password. */
  predicate Ends(a: Action, token: string) {
    a.SetPassword? || (token != "" && a == Logout(Some(token)))
  }

  /** Event `i` opened the session `token`, and nothing has replaced or ended it since. */
  ghost predicate OpenedAt(rs: seq<Reply>, es: seq<Event>, i: nat, token: string)
    requires |rs| == |es|
  {
    && i < |es| && Opens(rs[i], token)
    && forall j :: i < j < |es| ==> !Opens(rs[j], token) && !Ends(es[j].act, token)
  }

  ghost predicate OpenedLately(rs: seq<Reply>, es: seq<Event>, token: string, now: Time)
    requires |rs| == |es|
  {
    exists i: nat :: OpenedAt(rs, es, i, token) && now < es[i].now + SESSION_DURATION
  }

  lemma SessionStep(s: AuthState, e: Event, token: string, now: Time)
    requires e.now <= now
    ensures ValidSession(Step(s, e).0, token, now) ==
              if Opens(Step(s, e).1, token) then now < e.now + SESSION_DURATION
              else !Ends(e.act, token) && ValidSession(s, token, now)
  {
    match e.act {
      case Login(_, _, _) =>
      case Logout(_) =>
      case CreateSession(_, _) =>
      case Cleanup =>
      case _ =>
    }
  }

  lemma OpenedStep(rs: seq<Reply>, es: seq<Event>, r: Reply, e: Event, token: string, now: Time)
    requires |rs| == |es|
    ensures OpenedLately(rs + [r], es + [e], token, now) ==
              if Opens(r, token) then now < e.now + SESSION_DURATION
              else !Ends(e.act, token) && OpenedLately(rs, es, token, now)
  {
    var n := |es|;
    if OpenedLately(rs + [r], es + [e], token, now) {
      var i: nat :| OpenedAt(rs + [r], es + [e], i, token) && now < (es + [e])[i].now + SESSION_DURATION;
      if i < n {
        assert (rs + [r])[n] == r && (es + [e])[n] == e;
        assert forall j :: 0 <= j < n ==> (rs + [r])[j] == rs[j] && (es + [e])[j] == es[j];
        assert OpenedAt(rs, es, i, token);
      }
    }
    if Opens(r, token) {
      assert OpenedAt(rs + [r], es + [e], n, token);
    } else if !Ends(e.act, token) && OpenedLately(rs, es, token, now) {
      var i: nat :| OpenedAt(rs, es, i, token) && now < es[i].now + SESSION_DURATION;
      assert OpenedAt(rs + [r], es + [e], i, token);
    }
  }

  /** A session token is good exactly when it was handed out less than a day ago and neither a logout
      with it nor a new password came since; the cleaner has no say in it. */
  lemma {:induction false} SessionsAreHistory(password: string, es: seq<Event>, token: string, now: Time)
    requires Monotone(es) && (es != [] ==> es[|es| - 1].now <= now)
    ensures ValidSession(Run(Init(password), es), token, now)
              == OpenedLately(Log(Init(password), es), es, token, now)
  {
    if es != [] {
      var before, e := es[..|es| - 1], es[|es| - 1];
      var s := Run(Init(password), before);
      SessionsAreHistory(password, before, token, now);
      SessionStep(s, e, token, now);
      OpenedStep(Log(Init(password), before), before, Step(s, e).1, e, token, now);
      assert before + [e] == es;
    }
  }

  // -------------------------------------- every reply follows from the replies before

  /** The password in force: the last one set, or the initial one, trimmed. */
  function CurrentPassword(initial: string, es: seq<Event>): string {
    if es == [] then TrimSpace(initial)
    else if es[|es| - 1].act.SetPassword? then TrimSpace(es[|es| - 1].act.password)
    else CurrentPassword(initial, es[..|es| - 1])
  }

  /** What opens a dashboard with a stored password; no password, and the two factory ones, are alike. */
  function AcceptedPasswords(stored: string): set<string> {
    if stored in {"", "admin", "alpine"} then {"admin", "alpine"} else {stored}
  }

  lemma PasswordsAccepted(stored: string, candidate: string)
    ensures ValidPassword(stored, candidate) == (TrimSpace(candidate) in AcceptedPasswords(stored))
  {
  }

  lemma {:induction false} PasswordIsHistory(initial: string, es: seq<Event>)
    ensures Run(Init(initial), es).password == CurrentPassword(initial, es)
  {
    if es != [] {
      PasswordIsHistory(initial, es[..|es| - 1]);
    }
  }

  /** The reply locked `ip` out. */
  predicate Locks(e: Event, r: Reply, ip: string) {
    (e.act.Login? && e.act.ip == ip && r == Locked) || (e.act == RecordFailed(ip) && r.Recorded? && r.blocked)
  }

  /** The reply counted a failure of `ip` without locking it out. */
  predicate Fails(e: Event, r: Reply, ip: string) {
    || (e.act.Login? && e.act.ip == ip && r.WrongPassword?)
    || (e.act == RecordFailed(ip) && r.Recorded? && !r.blocked)
  }

  /** `ip` logged in, or its counter was reset. */
  predicate Cleared(e: Event, r: Reply, ip: string) {
    (e.act.Login? && e.act.ip == ip && (r.LoggedIn? || r.ServerError?)) || e.act == RecordSuccess(ip)
  }

  /** Failures of `ip` since it was last locked out or cleared. */
  function FailuresSince(rs: seq<Reply>, es: seq<Event>, ip: string): nat
    requires |rs| == |es|
  {
    if es == [] then 0
    else
      var n := |es| - 1;
      if Locks(es[n], rs[n], ip) || Cleared(es[n], rs[n], ip) then 0
      else FailuresSince(rs[..n], es[..n], ip) + if Fails(es[n], rs[n], ip) then 1 else 0
  }

  /** When `ip` was last locked out, unless it was cleared since. */
  function LastLock(rs: seq<Reply>, es: seq<Event>, ip: string): Option<Time>
    requires |rs| == |es|
  {
    if es == [] then None
    else
      var n := |es| - 1;
      if Locks(es[n], rs[n], ip) then Some(es[n].now)
      else if Cleared(es[n], rs[n], ip) then None
      else LastLock(rs[..n], es[..n], ip)
  }

  /** How much of five minutes is left after a lockout. */
  function Remaining(lock: Option<Time>, now: Time): nat {
    if lock.Some? && now < lock.value + 5 * MINUTE then lock.value + 5 * MINUTE - now else 0
  }

  lemma CountStep(s: AuthState, e: Event, ip: string)
    ensures var (s', r) := Step(s, e);
            Failures(s', ip) ==
              if Locks(e, r, ip) || Cleared(e, r, ip) then 0
              else Failures(s, ip) + if Fails(e, r, ip) then 1 else 0
  {
    match e.act {
      case Login(x, _, _) =>
        FailedOnceLimits(s, x, e.now, ip);
        ForgiveLimits(s, x, e.now, ip);
      case RecordFailed(x) => FailedOnceLimits(s, x, e.now, ip);
      case RecordSuccess(x) => ForgiveLimits(s, x, e.now, ip);
      case _ =>
    }
  }

  lemma WaitStep(s: AuthState, e: Event, ip: string, now: Time)
    requires e.now <= now
    ensures var (s', r) := Step(s, e);
            Wait(s', ip, now) ==
              if Locks(e, r, ip) then Remaining(Some(e.now), now)
              else if Cleared(e, r, ip) then 0
              else Wait(s, ip, now)
  {
    match e.act {
      case Login(_, _, _) =>
      case RecordFailed(_) =>
      case RecordSuccess(_) =>
      case Cleanup =>
      case _ =>
    }
  }

  /** The counter and the block of every address are what the replies so far say. */
  lemma {:induction false} LimitsAreHistory(initial: string, es: seq<Event>, ip: string, now: Time)
    requires Monotone(es) && (es != [] ==> es[|es| - 1].now <= now)
    ensures Failures(Run(Init(initial), es), ip) == FailuresSince(Log(Init(initial), es), es, ip)
    ensures Wait(Run(Init(initial), es), ip, now) == Remaining(LastLock(Log(Init(initial), es), es, ip), now)
  {
    if es != [] {
      var n := |es| - 1;
      LimitsAreHistory(initial, es[..n], ip, now);
      CountStep(Run(Init(initial), es[..n]), es[n], ip);
      WaitStep(Run(Init(initial), es[..n]), es[n], ip, now);
      assert Log(Init(initial), es)[..n] == Log(Init(initial), es[..n]);
    }
  }

  /** The session a good login or a direct request gets. */
  function Granted(ip: string, random: Option<string>, now: Time): Reply {
    if random.None? then ServerError else LoggedIn(Session(random.value, now, now + 24 * HOUR, ip))
  }

  /** The reply to a login, given what opens the door, the wait and the failures so far. */
  function LoginReply(accepted: set<string>, wait: nat, failures: nat, payload: Option<string>, granted: Reply): Reply {
    if wait > 0 then TooManyRequests(wait)
    else if payload.None? then BadRequest
    else if TrimSpace(payload.value) in accepted then granted
    else if failures + 1 >= 5 then Locked
    else WrongPassword(5 - (failures + 1))
  }

  /** The reply to one more call, from the earlier calls and the replies they got. */
  ghost function NextReply(initial: string, rs: seq<Reply>, es: seq<Event>, e: Event): Reply
    requires |rs| == |es|
  {
    var accepted := AcceptedPasswords(CurrentPassword(initial, es));
    match e.act
    case Login(ip, payload, random) =>
      LoginReply(accepted, Remaining(LastLock(rs, es, ip), e.now), FailuresSince(rs, es, ip), payload,
                 Granted(ip, random, e.now))
    case IsAuthenticated(creds) =>
      Answer(|| (creds.bearer.Some? && TrimSpace(creds.bearer.value) in accepted)
             || (creds.bearer.Some? && OpenedLately(rs, es, creds.bearer.value, e.now))
             || (creds.basic.Some? && TrimSpace(creds.basic.value) in accepted)
             || (creds.cookie.Some? && creds.cookie.value != "" && OpenedLately(rs, es, creds.cookie.value, e.now)))
    case CheckRateLimit(ip) =>
      RateLimit(Remaining(LastLock(rs, es, ip), e.now) > 0, Remaining(LastLock(rs, es, ip), e.now))
    case RecordFailed(ip) =>
      if FailuresSince(rs, es, ip) + 1 >= 5 then Recorded(0, true)
      else Recorded(5 - (FailuresSince(rs, es, ip) + 1), false)
    case CreateSession(ip, random) => Granted(ip, random, e.now)
    case _ => Done
  }

  lemma LoginReplies(s: AuthState, ip: string, payload: Option<string>, random: Option<string>, now: Time)
    ensures LoginStep(s, ip, payload, random, now).1
              == LoginReply(AcceptedPasswords(s.password), Wait(s, ip, now), Failures(s, ip), payload,
                            Granted(ip, random, now))
  {
    if payload.Some? {
      PasswordsAccepted(s.password, payload.value);
    }
    FailedOnceLimits(s, ip, now, ip);
  }

  /** A state is what the calls so far and their replies say, as far as calls at `now` can tell. */
  ghost predicate Remembers(s: AuthState, initial: string, rs: seq<Reply>, es: seq<Event>, now: Time)
    requires |rs| == |es|
  {
    && s.password == CurrentPassword(initial, es)
    && (forall ip :: Failures(s, ip) == FailuresSince(rs, es, ip))
    && (forall ip :: Wait(s, ip, now) == Remaining(LastLock(rs, es, ip), now))
    && (forall t :: ValidSession(s, t, now) == OpenedLately(rs, es, t, now))
  }

  lemma RunRemembers(initial: string, es: seq<Event>, now: Time)
    requires Monotone(es) && (es != [] ==> es[|es| - 1].now <= now)
    ensures Remembers(Run(Init(initial), es), initial, Log(Init(initial), es), es, now)
  {
    PasswordIsHistory(initial, es);
    forall ip
      ensures Failures(Run(Init(initial), es), ip) == FailuresSince(Log(Init(initial), es), es, ip)
      ensures Wait(Run(Init(initial), es), ip, now) == Remaining(LastLock(Log(Init(initial), es), es, ip), now)
    {
      LimitsAreHistory(initial, es, ip, now);
    }
    forall t
      ensures ValidSession(Run(Init(initial), es), t, now) == OpenedLately(Log(Init(initial), es), es, t, now)
    {
      SessionsAreHistory(initial, es, t, now);
    }
  }

  lemma ReplyFromMemory(s: AuthState, initial: string, rs: seq<Reply>, es: seq<Event>, e: Event)
    requires |rs| == |es| && Remembers(s, initial, rs, es, e.now)
    ensures Step(s, e).1 == NextReply(initial, rs, es, e)
  {
    match e.act {
      case Login(ip, payload, random) => LoginReplies(s, ip, payload, random, e.now);
      case IsAuthenticated(creds) => AuthenticatedFromMemory(s, initial, rs, es, creds, e.now);
      case RecordFailed(ip) => FailedOnceLimits(s, ip, e.now, ip);
      case CheckRateLimit(ip) =>
      case CreateSession(_, _) =>
      case _ =>
    }
  }

  lemma AuthenticatedFromMemory(
    s: AuthState, initial: string, rs: seq<Reply>, es: seq<Event>, creds: Credentials, now: Time)
    requires |rs| == |es| && Remembers(s, initial, rs, es, now)
    ensures NextReply(initial, rs, es, Event(now, IsAuthenticated(creds))) == Answer(Authenticated(s, creds, now))
  {
    if creds.bearer.Some? {
      PasswordsAccepted(s.password, creds.bearer.value);
      assert ValidSession(s, creds.bearer.value, now) == OpenedLately(rs, es, creds.bearer.value, now);
    }
    if creds.basic.Some? {
      PasswordsAccepted(s.password, creds.basic.value);
    }
    if creds.cookie.Some? {
      assert ValidSession(s, creds.cookie.value, now) == OpenedLately(rs, es, creds.cookie.value, now);
    }
  }

  /** Every reply follows from the replies before it: who is locked out and for how long, which password
      logs in, which attempt locks, which credentials are good. */
  lemma RepliesAreHistory(initial: string, es: seq<Event>, e: Event)
    requires Monotone(es) && (es != [] ==> es[|es| - 1].now <= e.now)
    ensures Step(Run(Init(initial), es), e).1 == NextReply(initial, Log(Init(initial), es), es, e)
  {
    RunRemembers(initial, es, e.now);
    ReplyFromMemory(Run(Init(initial), es), initial, Log(Init(initial), es), es, e);
  }

  // --------------------------------------------------------- login rate bound

  /** The stored counter of every address stays in 0..4. */
  ghost predicate CountersBounded(s: AuthState) {
    forall ip :: Failures(s, ip) < MAX_LOGIN_FAILURES
  }

  lemma CountersStep(s: AuthState, e: Event)
    requires CountersBounded(s)
    ensures CountersBounded(Step(s, e).0)
  {
    forall x
      ensures Failures(Step(s, e).0, x) < MAX_LOGIN_FAILURES
    {
      assert Failures(s, x) < MAX_LOGIN_FAILURES;
      match e.act {
        case Login(ip, payload, random) =>
          FailedOnceLimits(s, ip, e.now, x);
          ForgiveLimits(s, ip, e.now, x);
        case RecordFailed(ip) => FailedOnceLimits(s, ip, e.now, x);
        case RecordSuccess(ip) => ForgiveLimits(s, ip, e.now, x);
        case _ =>
      }
    }
  }

  lemma {:induction false} CountersAlwaysBounded(password: string, es: seq<Event>)
    ensures CountersBounded(Run(Init(password), es))
  {
    if es != [] {
      CountersAlwaysBounded(password, es[..|es| - 1]);
      CountersStep(Run(Init(password), es[..|es| - 1]), es[|es| - 1]);
    }
  }

  /** The reply to event number `i` of a run. */
  function ReplyAt(s0: AuthState, es: seq<Event>, i: nat): Reply
    requires i < |es|
  {
    Step(Run(s0, es[..i]), es[i]).1
  }

  predicate InWindow(now: Time, start: Time) {
    start <= now < start + LOCKOUT_DURATION
  }

  /** A password check of `ip` that failed. */
  predicate FailedCheck(e: Event, r: Reply, ip: string) {
    e.act.Login? && e.act.ip == ip && (r.WrongPassword? || r.Locked?)
  }

  function FailedChecks(s0: AuthState, es: seq<Event>, ip: string, start: Time): nat {
    if es == [] then 0
    else
      var n := |es| - 1;
      FailedChecks(s0, es[..n], ip, start)
        + if InWindow(es[n].now, start) && FailedCheck(es[n], ReplyAt(s0, es, n), ip) then 1 else 0
  }

  /** Failures counted in the window are still in the counter, until the address is locked out past
      the end of the window. */
  ghost predicate Paid(s: AuthState, ip: string, start: Time, checks: nat) {
    || checks <= Failures(s, ip)
    || (checks <= MAX_LOGIN_FAILURES && ip in s.attempts && s.attempts[ip].blockedUntil >= start + LOCKOUT_DURATION)
  }

  lemma PaidStep(s: AuthState, e: Event, ip: string, start: Time, checks: nat)
    requires CountersBounded(s) && Paid(s, ip, start, checks)
    requires e.now < start ==> checks == 0
    requires InWindow(e.now, start) ==> !Cleared(e, Step(s, e).1, ip)
    requires e.now < start + LOCKOUT_DURATION
    ensures var counts := InWindow(e.now, start) && FailedCheck(e, Step(s, e).1, ip);
            Paid(Step(s, e).0, ip, start, checks + if counts then 1 else 0)
  {
    assert Failures(s, ip) < MAX_LOGIN_FAILURES;
    FailedOnceLimits(s, ip, e.now, ip);
    match e.act {
      case Login(x, payload, random) =>
        FailedOnceLimits(s, x, e.now, ip);
        ForgiveLimits(s, x, e.now, ip);
      case RecordFailed(x) => FailedOnceLimits(s, x, e.now, ip);
      case _ =>
    }
  }

  /** No password of `ip` was accepted, and nothing reset its counter, during the window. */
  ghost predicate NotCleared(s0: AuthState, es: seq<Event>, ip: string, start: Time) {
    forall i :: 0 <= i < |es| && InWindow(es[i].now, start) ==> !Cleared(es[i], ReplyAt(s0, es, i), ip)
  }

  lemma {:induction false} FailedChecksArePaid(password: string, es: seq<Event>, ip: string, start: Time)
    requires Monotone(es) && NotCleared(Init(password), es, ip, start)
    requires es != [] ==> es[|es| - 1].now < start + LOCKOUT_DURATION
    ensures Paid(Run(Init(password), es), ip, start, FailedChecks(Init(password), es, ip, start))
    ensures es != [] && es[|es| - 1].now < start ==> FailedChecks(Init(password), es, ip, start) == 0
  {
    if es != [] {
      var s0, n := Init(password), |es| - 1;
      var before := es[..n];
      forall i | 0 <= i < n && InWindow(before[i].now, start)
        ensures !Cleared(before[i], ReplyAt(s0, before, i), ip)
      {
        assert before[..i] == es[..i];
      }
      FailedChecksArePaid(password, before, ip, start);
      CountersAlwaysBounded(password, before);
      if es[n].now < start && n > 0 {
        assert before[n - 1].now <= es[n].now;
      }
      PaidStep(Run(s0, before), es[n], ip, start, FailedChecks(s0, before, ip, start));
    }
  }

  /** In any five-minute window in which `ip` does not log in, at most five of its password checks
      fail, whatever lockouts and cleanups happen. */
  lemma {:induction false} LoginRateBound(password: string, es: seq<Event>, ip: string, start: Time)
    requires Monotone(es) && NotCleared(Init(password), es, ip, start)
    ensures FailedChecks(Init(password), es, ip, start) <= MAX_LOGIN_FAILURES
  {
    if es != [] {
      var s0, n := Init(password), |es| - 1;
      var before := es[..n];
      if es[n].now < start + LOCKOUT_DURATION {
        FailedChecksArePaid(password, es, ip, start);
        CountersAlwaysBounded(password, es);
        assert Failures(Run(s0, es), ip) < MAX_LOGIN_FAILURES;
      } else {
        forall i | 0 <= i < n && InWindow(before[i].now, start)
          ensures !Cleared(before[i], ReplyAt(s0, before, i), ip)
        {
          assert before[..i] == es[..i];
        }
        LoginRateBound(password, before, ip, start);
      }
    }
  }
}
