/** Blocking and banning in the TURN monitor over whole runs. */
module TurnBlocks {
  import opened Clock
  import opened Text
  import opened TurnModel
  import opened Wrappers

  // -------------------------------------------------- what the handler answers

  /** The address is blocked or the user banned at the time. */
  predicate Refused(m: Monitor, user: string, src: Option<string>, now: Time) {
    || (src.Some? && src.value in m.reputations && now < m.reputations[src.value].blockedUntil)
    || (user in m.revokedTokens && now < m.revokedTokens[user])
  }

  /** The default user always has a key; everybody has one when there is a shared secret. */
  predicate Grants(cfg: Settings, user: string) {
    user == cfg.username || cfg.authSecret != ""
  }

  /** The handler's answer, and all it does. */
  lemma HandlerAnswered(cfg: Settings, m: Monitor, user: string, src: Option<string>, now: Time)
    ensures var (m', ok) := HandlerStep(cfg, m, user, src, now);
            && ok == (!Refused(m, user, src, now) && Grants(cfg, user))
            && m'.revokedTokens == m.revokedTokens
            && m'.sessions == (if ok && src.Some?
                               then m.sessions[user + "@" + src.value := NewSession(user, src.value, now)]
                               else m.sessions)
            && (Refused(m, user, src, now) || src.None? ==> m' == m)
  {
  }

  /** A success recorded for a banned user only makes sure that the address has a reputation. */
  lemma BannedSuccess(m: Monitor, user: string, ip: string, now: Time)
    requires user in m.revokedTokens && now < m.revokedTokens[user]
    ensures RecordAuthAttempt(m, user, Some(ip), true, now)
              == if ip in m.reputations then m
                 else m.(reputations := m.reputations[ip := Reputation(0, 0, 0, 0)])
  {
    if ip in m.reputations {
      assert m.reputations[ip := m.reputations[ip]] == m.reputations;
    }
  }

  // --------------------------------------------------------------- blocking

  /** What an event means for the reputation of one address. */
  datatype Mark = Failed | Granted | Unblocked | Blocked(until: Time) | Nothing

  predicate From(a: Action, ip: string) {
    a.Handler? && a.src == Some(ip)
  }

  /** A failed attempt of `ip`, a counted success, or an administrator's decision. Refusals are nothing. */
  function MarkOf(cfg: Settings, m: Monitor, e: Event, ip: string): Mark {
    if e.act == UnblockIP(ip) then Unblocked
    else if e.act.BlockIP? && e.act.ip == ip && ip != "" then
      Blocked(e.now + if e.act.duration <= 0 then 24 * HOUR else e.act.duration)
    else if !From(e.act, ip) || Refused(m, e.act.user, e.act.src, e.now) then Nothing
    else if Grants(cfg, e.act.user) then Granted
    else Failed
  }

  /** What a mark makes of a reputation. */
  function Marked(r: Reputation, mark: Mark, now: Time): Reputation {
    match mark
    case Failed =>
      Reputation(r.failures + 1, now, if r.failures + 1 >= 20 then now + 10 * MINUTE else r.blockedUntil,
                 r.successCount)
    case Granted => Reputation(0, r.lastFailure, r.blockedUntil, r.successCount + 1)
    case Unblocked => Reputation(0, r.lastFailure, 0, r.successCount)
    case Blocked(until) => Reputation(r.failures, r.lastFailure, until, r.successCount)
    case Nothing => r
  }

  /** One event changes the reputation of an address as its mark says, and not otherwise. */
  lemma ReputationStep(cfg: Settings, m: Monitor, e: Event, ip: string)
    ensures Rep(Step(cfg, m, e), ip) == Marked(Rep(m, ip), MarkOf(cfg, m, e, ip), e.now)
  {
    match e.act {
      case Handler(user, src) =>
      case BlockIP(_, _) =>
      case UnblockIP(_) =>
      case AllocationCreated(_, _, _) =>
      case AllocationDeleted(_, _) =>
      case PacketSeen(_, _, _) =>
      case RelayTraffic(_, _, _, _) =>
      case RawTraffic(_, _, _) =>
      case RevokeSession(_) =>
      case Cleanup =>
    }
  }

  /** The marks of the events of a run for one address. */
  function Marks(cfg: Settings, ms: seq<Monitor>, es: seq<Event>, ip: string): (marks: seq<Mark>)
    requires |es| < |ms|
    ensures |marks| == |es| && forall i :: 0 <= i < |es| ==> marks[i] == MarkOf(cfg, ms[i], es[i], ip)
  {
    seq(|es|, i requires 0 <= i < |es| => MarkOf(cfg, ms[i], es[i], ip))
  }

  /** Failed attempts since the last counted success or unblock. */
  function FailuresSince(marks: seq<Mark>): nat {
    if marks == [] then 0
    else
      var before, last := marks[..|marks| - 1], marks[|marks| - 1];
      if last == Granted || last == Unblocked then 0
      else FailuresSince(before) + if last == Failed then 1 else 0
  }

  function Successes(marks: seq<Mark>): nat {
    if marks == [] then 0
    else Successes(marks[..|marks| - 1]) + if marks[|marks| - 1] == Granted then 1 else 0
  }

  /** When the last attempt failed. */
  function LastFailed(marks: seq<Mark>, es: seq<Event>): Time
    requires |marks| <= |es|
  {
    if marks == [] then 0
    else if marks[|marks| - 1] == Failed then es[|marks| - 1].now
    else LastFailed(marks[..|marks| - 1], es)
  }

  /** The end of the block last set: by an administrator, or for ten minutes by a failure that is at least
      the twentieth; an unblock ends it. */
  function BlockedUntil(marks: seq<Mark>, es: seq<Event>): Time
    requires |marks| <= |es|
  {
    if marks == [] then 0
    else
      var n := |marks| - 1;
      match marks[n]
      case Blocked(until) => until
      case Unblocked => 0
      case Failed =>
        if FailuresSince(marks[..n]) + 1 >= 20 then es[n].now + 10 * MINUTE else BlockedUntil(marks[..n], es)
      case _ => BlockedUntil(marks[..n], es)
  }

  lemma {:induction false} ReputationsFollow(marks: seq<Mark>, es: seq<Event>, rs: seq<Reputation>, n: nat)
    requires n <= |marks| == |es| && |rs| == |es| + 1 && rs[0] == Reputation(0, 0, 0, 0)
    requires forall i :: 0 <= i < |es| ==> rs[i + 1] == Marked(rs[i], marks[i], es[i].now)
    ensures rs[n] == Reputation(FailuresSince(marks[..n]), LastFailed(marks[..n], es), BlockedUntil(marks[..n], es),
                                Successes(marks[..n]))
  {
    if n > 0 {
      var i := n - 1;
      ReputationsFollow(marks, es, rs, i);
      assert rs[i + 1] == Marked(rs[i], marks[i], es[i].now);
      assert marks[..n][..i] == marks[..i];
    }
  }

  /** In every run, the four fields of a reputation are what the events so far mean for the address: its
      failures since the last success or unblock, the last failure, the end of the block last set, and its
      successes. */
  lemma ReputationIsHistory(cfg: Settings, ms: seq<Monitor>, es: seq<Event>, n: nat, ip: string)
    requires n <= |es| && LegalRun(cfg, ms, es)
    ensures var marks := Marks(cfg, ms, es, ip)[..n];
            Rep(ms[n], ip)
              == Reputation(FailuresSince(marks), LastFailed(marks, es), BlockedUntil(marks, es), Successes(marks))
  {
    var marks := Marks(cfg, ms, es, ip);
    var rs := seq(|ms|, i requires 0 <= i < |ms| => Rep(ms[i], ip));
    forall i | 0 <= i < |es|
      ensures rs[i + 1] == Marked(rs[i], marks[i], es[i].now)
    {
      assert LegalStep(cfg, ms, es, i);
      ReputationStep(cfg, ms[i], es[i], ip);
    }
    ReputationsFollow(marks, es, rs, n);
  }

  /** The handler itself blocks an address at exactly its failed attempts number twenty and later, each
      time for ten minutes from then. */
  lemma AbuseBlocks(cfg: Settings, ms: seq<Monitor>, es: seq<Event>, i: nat, ip: string)
    requires i < |es| && LegalRun(cfg, ms, es) && es[i].act.Handler?
    ensures var marks := Marks(cfg, ms, es, ip);
            Rep(ms[i + 1], ip).blockedUntil ==
              if marks[i] == Failed && FailuresSince(marks[..i]) + 1 >= 20 then es[i].now + 10 * MINUTE
              else Rep(ms[i], ip).blockedUntil
  {
    assert LegalStep(cfg, ms, es, i);
    ReputationStep(cfg, ms[i], es[i], ip);
    ReputationIsHistory(cfg, ms, es, i, ip);
  }

  /** An administrator acts on `ip`. */
  predicate Overrides(a: Action, ip: string) {
    a == UnblockIP(ip) || (a.BlockIP? && a.ip == ip)
  }

  /** Blocks hold: from a moment at which `ip` is blocked until some time, nothing but an administrator
      changes its reputation before that time, every request of `ip` is refused, and a refused request
      leaves the whole monitor as it was. */
  lemma {:induction false} BlocksHold(cfg: Settings, es: seq<Event>, i: nat, n: nat, ip: string)
    requires i <= n <= |es|
    requires forall j :: i <= j < n ==>
      es[j].now < Rep(State(cfg, es, i), ip).blockedUntil && !Overrides(es[j].act, ip)
    ensures Rep(State(cfg, es, n), ip) == Rep(State(cfg, es, i), ip)
    ensures forall j :: i <= j < n && From(es[j].act, ip) ==>
      HandlerStep(cfg, State(cfg, es, j), es[j].act.user, es[j].act.src, es[j].now) == (State(cfg, es, j), false)
  {
    if i < n {
      BlocksHold(cfg, es, i, n - 1, ip);
      BlockedStep(cfg, State(cfg, es, n - 1), es[n - 1], ip);
    }
  }

  lemma BlockedStep(cfg: Settings, m: Monitor, e: Event, ip: string)
    requires e.now < Rep(m, ip).blockedUntil && !Overrides(e.act, ip)
    ensures Rep(Step(cfg, m, e), ip) == Rep(m, ip)
    ensures From(e.act, ip) ==> HandlerStep(cfg, m, e.act.user, e.act.src, e.now) == (m, false)
  {
    match e.act {
      case Handler(user, src) =>
      case BlockIP(_, _) =>
      case UnblockIP(_) =>
      case _ =>
    }
  }

  // ---------------------------------------------------------------- banning

  lemma SplitInTwo(a: string, b: string, sep: char)
    ensures Split(a + [sep] + b, sep) == [a, b] <==> sep !in a && sep !in b
    ensures |Split(a + [sep] + b, sep)| == 2 ==> Split(a + [sep] + b, sep) == [a, b]
  {
    var s := a + [sep] + b;
    var parts := Split(s, sep);
    JoinSplit(s, sep);
    if |parts| == 2 {
      assert parts[1..] == [parts[1]];
      assert s == parts[0] + [sep] + parts[1];
      assert s[|a|] == sep && s[|parts[0]|] == sep;
      assert |a| == |parts[0]| by {
        assert forall k :: 0 <= k < |parts[0]| ==> s[k] == parts[0][k];
        assert forall k :: 0 <= k < |parts[1]| ==> s[|parts[0]| + 1 + k] == parts[1][k];
      }
      assert parts[0] == s[..|a|] == a;
      assert parts[1] == s[|a| + 1..] == b;
    }
    if sep !in a && sep !in b {
      SplitPrefix(a, b, sep);
      assert Split(b, sep) == [b];
    }
  }

  /** Whom revoking a session bans: its user, unless the key cannot be taken apart. */
  lemma RevokeTargetOfSession(user: string, ip: string)
    ensures RevokeTarget(SessionKey(user, ip))
              == if '@' !in user && '@' !in ip then user else SessionKey(user, ip)
  {
    SplitInTwo(user, ip, '@');
    assert SessionKey(user, ip) == user + ['@'] + ip;
  }

  /** Revoking the session of a user who is not banned at the time bans that user exactly when neither the user nor
      the address contains '@' and the user is not the shared default. */
  lemma RevokeBansUser(m: Monitor, user: string, ip: string, now: Time)
    requires !IsSessionRevoked(m, user, now)
    ensures IsSessionRevoked(RevokeStep(m, SessionKey(user, ip), now), user, now)
            <==> '@' !in user && '@' !in ip && user != "pingo" && user != ""
  {
    RevokeTargetOfSession(user, ip);
    assert |SessionKey(user, ip)| > |user|;
  }

  ghost predicate Clocked(es: seq<Event>) {
    forall i, j :: 0 <= i <= j < |es| ==> es[i].now <= es[j].now
  }

  /** The names a revocation puts on the list. */
  predicate Bans(a: Action, user: string) {
    a.RevokeSession? && (user == a.key || (user == RevokeTarget(a.key) && user != "pingo" && user != ""))
  }

  lemma BanStep(cfg: Settings, m: Monitor, e: Event, user: string, until: Time)
    requires user in m.revokedTokens && m.revokedTokens[user] >= until && e.now + BAN >= until
    ensures user in Step(cfg, m, e).revokedTokens && Step(cfg, m, e).revokedTokens[user] >= until
  {
    match e.act {
      case RevokeSession(_) =>
      case Handler(_, _) =>
      case _ =>
    }
  }

  /** Bans hold: for twelve hours after a revocation, whatever happens meanwhile, every request under a
      name it listed is refused and leaves the whole monitor as it was. */
  lemma {:induction false} BansHold(cfg: Settings, es: seq<Event>, i: nat, n: nat, user: string)
    requires i < n <= |es| && Clocked(es) && Bans(es[i].act, user)
    ensures user in State(cfg, es, n).revokedTokens
    ensures State(cfg, es, n).revokedTokens[user] >= es[i].now + BAN
    ensures forall j :: i < j < n && es[j].act.Handler? && es[j].act.user == user && es[j].now < es[i].now + BAN ==>
      HandlerStep(cfg, State(cfg, es, j), user, es[j].act.src, es[j].now) == (State(cfg, es, j), false)
  {
    if i < n - 1 {
      BansHold(cfg, es, i, n - 1, user);
      BanStep(cfg, State(cfg, es, n - 1), es[n - 1], user, es[i].now + BAN);
    }
  }

  /** At any time a user is banned exactly when a revocation of less than twelve hours ago listed the name. */
  lemma {:induction false} BansAreHistory(
    cfg: Settings, ms: seq<Monitor>, es: seq<Event>, n: nat, user: string, now: Time)
    requires n <= |es| && LegalRun(cfg, ms, es) && Clocked(es) && (n > 0 ==> es[n - 1].now <= now)
    ensures IsSessionRevoked(ms[n], user, now)
            <==> exists i :: 0 <= i < n && Bans(es[i].act, user) && now < es[i].now + 12 * HOUR
  {
    if n > 0 {
      BansAreHistory(cfg, ms, es, n - 1, user, now);
      assert LegalStep(cfg, ms, es, n - 1);
      BanEffect(cfg, ms[n - 1], es[n - 1], user, now);
      if Bans(es[n - 1].act, user) {
        forall i | 0 <= i < n && Bans(es[i].act, user) && now < es[i].now + 12 * HOUR
          ensures now < es[n - 1].now + 12 * HOUR
        {
          assert es[i].now <= es[n - 1].now;
        }
      }
    }
  }

  lemma BanEffect(cfg: Settings, m: Monitor, e: Event, user: string, now: Time)
    ensures IsSessionRevoked(Step(cfg, m, e), user, now)
            <==> if Bans(e.act, user) then now < e.now + 12 * HOUR else IsSessionRevoked(m, user, now)
  {
    match e.act {
      case RevokeSession(_) =>
      case Handler(_, _) =>
      case _ =>
    }
  }

  /** A key without '@' bans itself. */
  lemma RevokeTargetOfName(name: string)
    requires '@' !in name
    ensures RevokeTarget(name) == name
  {
    assert IndexOf(name, '@') == |name|;
  }
}
