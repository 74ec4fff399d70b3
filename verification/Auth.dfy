/** The authentication manager (auth.go). Every method is proved to be the corresponding step of
    AuthModel, so the theorems about runs hold of any sequence of calls. */
module Auth {
  import opened Clock
  import opened Text
  import opened Wrappers
  import M = AuthModel

  class LoginAttempt {
    var failures: nat
    var blockedUntil: Time

    constructor ()
      ensures failures == 0 && blockedUntil == 0
    {
      failures, blockedUntil := 0, 0;
    }
  }

  class AuthManager {
    var adminPassword: string
    var sessions: map<string, M.Session>
    var attempts: map<string, LoginAttempt>

    /** No two addresses share an attempt record. */
    ghost predicate Valid()
      reads this
    {
      forall a, b :: a in attempts && b in attempts && a != b ==> attempts[a] != attempts[b]
    }

    ghost function Attempts(): map<string, M.Attempt>
      reads this, attempts.Values
    {
      map ip | ip in attempts :: M.Attempt(attempts[ip].failures, attempts[ip].blockedUntil)
    }

    ghost function Model(): M.AuthState
      reads this, attempts.Values
    {
      M.AuthState(adminPassword, sessions, Attempts())
    }

    constructor (adminPassword: string)
      ensures Valid() && Model() == M.Init(adminPassword)
    {
      this.adminPassword := TrimSpace(adminPassword);
      sessions, attempts := map[], map[];
    }

    predicate ValidatePassword(candidate: string)
      reads this
    {
      M.ValidPassword(adminPassword, candidate)
    }

    method SetAdminPassword(password: string)
      requires Valid()
      modifies this`adminPassword, this`sessions
      ensures Valid() && Model() == old(Model()).(password := TrimSpace(password), sessions := map[])
    {
      adminPassword := TrimSpace(password);
      sessions := map[];
    }

    method CheckRateLimit(ip: string, now: Time) returns (blocked: bool, wait: nat)
      requires Valid()
      ensures wait == M.Wait(Model(), ip, now) && blocked == (wait > 0)
    {
      if ip !in attempts {
        return false, 0;
      }
      var att := attempts[ip];
      if att.blockedUntil > now {
        return true, att.blockedUntil - now;
      }
      return false, 0;
    }

    method RecordFailedAttempt(ip: string, now: Time) returns (remaining: int, blocked: bool)
      requires Valid()
      modifies this`attempts, attempts.Values
      ensures Valid() && fresh(attempts.Values - old(attempts.Values))
      ensures (Model(), M.Recorded(remaining, blocked)) == M.FailedOnce(old(Model()), ip, now)
    {
      if ip !in attempts {
        var created := new LoginAttempt();
        attempts := attempts[ip := created];
      }
      var att := attempts[ip];
      att.failures := att.failures + 1;
      if att.failures >= M.MAX_LOGIN_FAILURES {
        att.blockedUntil := now + M.LOCKOUT_DURATION;
        att.failures := 0;
        assert Model().attempts == M.FailedOnce(old(Model()), ip, now).0.attempts;
        return 0, true;
      }
      assert Model().attempts == M.FailedOnce(old(Model()), ip, now).0.attempts;
      return M.MAX_LOGIN_FAILURES - att.failures, false;
    }

    method RecordSuccessfulAttempt(ip: string)
      requires Valid()
      modifies this`attempts
      ensures Valid() && attempts.Values <= old(attempts.Values)
      ensures Model() == M.Forgive(old(Model()), ip)
    {
      attempts := attempts - {ip};
    }

    /** `random` is the token drawn, None when the random source fails. */
    method CreateSession(clientIP: string, random: Option<string>, now: Time) returns (r: Option<M.Session>)
      requires Valid()
      modifies this`sessions
      ensures Valid()
      ensures (Model(), if r.Some? then M.LoggedIn(r.value) else M.ServerError)
              == M.OpenSession(old(Model()), clientIP, random, now)
    {
      if random.None? {
        return None;
      }
      var session := M.Session(random.value, now, now + M.SESSION_DURATION, clientIP);
      sessions := sessions[random.value := session];
      assert Model().attempts == old(Model()).attempts;
      return Some(session);
    }

    method IsAuthenticated(creds: M.Credentials, now: Time) returns (ok: bool)
      requires Valid()
      ensures ok == M.Authenticated(Model(), creds, now)
    {
      if creds.bearer.Some? {
        if ValidatePassword(creds.bearer.value) {
          return true;
        }
        if creds.bearer.value in sessions && now < sessions[creds.bearer.value].expiresAt {
          return true;
        }
      }
      if creds.basic.Some? && ValidatePassword(creds.basic.value) {
        return true;
      }
      if creds.cookie.None? || creds.cookie.value == "" {
        return false;
      }
      return creds.cookie.value in sessions && now < sessions[creds.cookie.value].expiresAt;
    }

    method HandleLogin(ip: string, payload: Option<string>, random: Option<string>, now: Time) returns (r: M.Reply)
      requires Valid()
      modifies this`attempts, this`sessions, attempts.Values
      ensures Valid() && fresh(attempts.Values - old(attempts.Values))
      ensures (Model(), r) == M.LoginStep(old(Model()), ip, payload, random, now)
    {
      var blocked, wait := CheckRateLimit(ip, now);
      if blocked {
        return M.TooManyRequests(wait);
      }
      if payload.None? {
        return M.BadRequest;
      }
      if !ValidatePassword(payload.value) {
        var remaining, locked := RecordFailedAttempt(ip, now);
        return if locked then M.Locked else M.WrongPassword(remaining);
      }
      RecordSuccessfulAttempt(ip);
      var session := CreateSession(ip, random, now);
      return if session.Some? then M.LoggedIn(session.value) else M.ServerError;
    }

    method HandleLogout(cookie: Option<string>)
      requires Valid()
      modifies this`sessions
      ensures Valid() && Model() == M.LogoutStep(old(Model()), cookie)
    {
      if cookie.Some? && cookie.value != "" {
        sessions := sessions - {cookie.value};
      }
    }

    method CleanupExpired(now: Time)
      requires Valid()
      modifies this`sessions, this`attempts
      ensures Valid() && attempts.Values <= old(attempts.Values)
      ensures Model() == M.CleanupStep(old(Model()), now)
    {
      DropExpiredSessions(now);
      assert Attempts() == old(Attempts());
      DropStaleAttempts(now);
    }

    /** The first loop of `cleanupExpired`. */
    method DropExpiredSessions(now: Time)
      modifies this`sessions
      ensures sessions == M.Unexpired(old(sessions), now)
    {
      var tokens := sessions.Keys;
      while tokens != {}
        invariant tokens <= sessions.Keys <= old(sessions).Keys
        invariant forall t :: t in sessions ==> sessions[t] == old(sessions)[t]
        invariant forall t :: t in old(sessions) && t !in sessions ==> now > old(sessions)[t].expiresAt
        invariant forall t :: t in sessions && t !in tokens ==> now <= sessions[t].expiresAt
      {
        var t :| t in tokens;
        tokens := tokens - {t};
        if now > sessions[t].expiresAt {
          sessions := sessions - {t};
        }
      }
    }

    /** The second loop of `cleanupExpired`. */
    method DropStaleAttempts(now: Time)
      requires Valid()
      modifies this`attempts
      ensures Valid() && attempts.Values <= old(attempts.Values)
      ensures Attempts() == M.Unspent(old(Attempts()), now)
    {
      var ips := attempts.Keys;
      while ips != {}
        invariant ips <= attempts.Keys <= old(attempts).Keys
        invariant forall ip :: ip in attempts ==> attempts[ip] == old(attempts)[ip]
        invariant forall ip :: ip in old(attempts) && ip !in attempts ==> M.Stale(old(Attempts())[ip], now)
        invariant forall ip :: ip in attempts && ip !in ips ==> !M.Stale(old(Attempts())[ip], now)
      {
        var ip :| ip in ips;
        ips := ips - {ip};
        var att := attempts[ip];
        assert old(Attempts())[ip] == M.Attempt(att.failures, att.blockedUntil);
        if att.blockedUntil < now && att.failures == 0 {
          attempts := attempts - {ip};
        }
      }
    }
  }
}
