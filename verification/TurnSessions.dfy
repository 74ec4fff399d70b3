/** The life of a session in the TURN monitor: what opens it, what every event does to it, what ends it. */
module TurnSessions {
  import opened Clock
  import opened Text
  import opened TurnBlocks
  import opened TurnModel
  import opened TurnTraffic
  import opened Wrappers

  // ---------------------------------------------------------- how it starts

  /** A user name "unixtime:peer" yields a session of that peer that ends at that time. */
  lemma TokenUserSession(ts: int, peer: string, ip: string, now: Time)
    requires ts > 0 && IsInt64(ts)
    ensures var user := FormatInt(ts) + ":" + peer;
            NewSession(user, ip, now)
              == Session(user, peer, ip, "", now, UNIX_EPOCH + ts * SECOND, 0, 0, now, true, Active)
  {
    var user := FormatInt(ts) + [':'] + peer;
    SplitPrefix(FormatInt(ts), peer, ':');
    JoinSplit(peer, ':');
    ParseFormat(ts);
    assert Split(user, ':')[1..] == Split(peer, ':');
  }

  /** The session of a user without a time limit. */
  function Plain(user: string, ip: string, now: Time): Session {
    Session(user, user, ip, "", now, now + 60 * SECOND, 0, 0, now, false, Active)
  }

  /** A user name with a colon is time-limited exactly when a positive number stands before the first one. */
  lemma UserWithColon(head: string, peer: string, ip: string, now: Time)
    requires ':' !in head
    ensures var user, ts := head + ":" + peer, ParseInt(head);
            NewSession(user, ip, now) ==
              if ts.Some? && ts.value > 0
              then Session(user, peer, ip, "", now, UNIX_EPOCH + ts.value * SECOND, 0, 0, now, true, Active)
              else Plain(user, ip, now)
  {
    var user := head + [':'] + peer;
    SplitPrefix(head, peer, ':');
    JoinSplit(peer, ':');
    assert Split(user, ':')[1..] == Split(peer, ':');
  }

  lemma UserWithoutColon(user: string, ip: string, now: Time)
    requires ':' !in user
    ensures NewSession(user, ip, now) == Plain(user, ip, now)
  {
    assert IndexOf(user, ':') == |user|;
  }

  // ------------------------------------------------- every session has its key

  /** Sessions are filed under their own user and address. */
  ghost predicate Filed(sessions: map<string, Session>) {
    forall k :: k in sessions ==> sessions[k].username + "@" + sessions[k].clientIP == k
  }

  lemma NewSessionNames(user: string, ip: string, now: Time)
    ensures NewSession(user, ip, now).username == user && NewSession(user, ip, now).clientIP == ip
  {
  }

  lemma FiledStep(cfg: Settings, m: Monitor, e: Event)
    requires Filed(m.sessions)
    ensures Filed(Step(cfg, m, e).sessions)
  {
    match e.act {
      case Handler(user, src) =>
        if src.Some? {
          NewSessionNames(user, src.value, e.now);
        }
      case AllocationCreated(_, _, _) =>
      case AllocationDeleted(_, _) =>
      case PacketSeen(_, _, _) =>
      case RelayTraffic(_, _, _, _) =>
      case RawTraffic(_, _, _) =>
      case BlockIP(_, _) =>
      case UnblockIP(_) =>
      case RevokeSession(_) =>
      case Cleanup =>
    }
  }

  lemma {:induction false} SessionsAreFiled(cfg: Settings, ms: seq<Monitor>, es: seq<Event>, n: nat)
    requires n <= |es| && LegalRun(cfg, ms, es)
    ensures Filed(ms[n].sessions)
  {
    if n > 0 {
      SessionsAreFiled(cfg, ms, es, n - 1);
      assert LegalStep(cfg, ms, es, n - 1);
      FiledStep(cfg, ms[n - 1], es[n - 1]);
    }
  }

  // -------------------------------------------------- what events do to it

  function Lookup(m: Monitor, k: string): Option<Session> {
    if k in m.sessions then Some(m.sessions[k]) else None
  }

  /** A session whose allocation has just been made or renewed. */
  function Renewed(s: Session, lease: Option<string>, now: Time): Session {
    Session(s.username, s.peerID, s.clientIP, if lease.Some? then lease.value else s.relayAddr, s.createdAt,
            now + 60 * SECOND, s.bytesRelayed, s.packetsCount, now, s.isTokenAuth, Active)
  }

  function ClosedAt(s: Session, now: Time): Session {
    Session(s.username, s.peerID, s.clientIP, s.relayAddr, s.createdAt, now, s.bytesRelayed, s.packetsCount,
            s.lastActivity, s.isTokenAuth, Closed)
  }

  /** Closed and unused for over thirty seconds, or expired and unused for over two minutes. */
  predicate Dead(s: Session, now: Time) {
    || (s.status == Closed && s.lastActivity + 30 * SECOND < now)
    || (s.expiresAt < now && s.lastActivity + 2 * MINUTE < now)
  }

  /** What one event makes of the session under `k`. */
  ghost function After(cfg: Settings, m: Monitor, e: Event, k: string): Option<Session> {
    var held := Lookup(m, k);
    match e.act
    case Handler(user, src) =>
      if src.Some? && k == user + "@" + src.value && !Refused(m, user, src, e.now) && Grants(cfg, user)
      then Some(NewSession(user, src.value, e.now)) else held
    case AllocationCreated(user, src, lease) =>
      if src.None? || k != user + "@" + src.value then held
      else if held.Some? then Some(Renewed(held.value, lease, e.now))
      else Some(Renewed(Session(user, user, src.value, "", e.now, 0, 0, 0, 0, false, Active), lease, e.now))
    case AllocationDeleted(user, src) =>
      if src.Some? && k == user + "@" + src.value && held.Some? then Some(ClosedAt(held.value, e.now)) else held
    case PacketSeen(user, ip, bytes) =>
      if k == user + "@" + ip && held.Some?
      then Some(TurnTraffic.Recorded(held.value, bytes, e.now, held.value.relayAddr)) else held
    case RelayTraffic(relay, remote, bytes, pick) =>
      if bytes > 0 && k == pick && held.Some?
      then Some(TurnTraffic.Recorded(held.value, bytes, e.now, Learned(m.sessions, relay, remote, held.value)))
      else held
    case RawTraffic(src, bytes, pick) =>
      if bytes > 0 && src.Some? && k == pick && held.Some?
      then Some(TurnTraffic.Recorded(held.value, bytes, e.now, held.value.relayAddr)) else held
    case BlockIP(ip, _) => if ip != "" && held.Some? && held.value.clientIP == ip then None else held
    case UnblockIP(_) => held
    case RevokeSession(key) => if k == key then None else held
    case Cleanup => if held.Some? && Dead(held.value, e.now) then None else held
  }

  lemma AfterTraffic(cfg: Settings, m: Monitor, e: Event, k: string)
    requires e.act.RelayTraffic? && LegalPick(m, e.act)
    ensures Lookup(Step(cfg, m, e), k) == After(cfg, m, e, k)
  {
    if e.act.bytes > 0 && m.sessions != map[] {
      CandidatesMatchBest(m.sessions, e.act.relay, e.act.remote, e.act.pick);
    }
  }

  lemma AfterRemoval(cfg: Settings, m: Monitor, e: Event, k: string)
    requires Filed(m.sessions) && (e.act.BlockIP? || e.act.RevokeSession? || e.act.Cleanup?)
    ensures Lookup(Step(cfg, m, e), k) == After(cfg, m, e, k)
  {
  }

  lemma AfterOther(cfg: Settings, m: Monitor, e: Event, k: string)
    requires !e.act.RelayTraffic? && !e.act.BlockIP? && !e.act.RevokeSession? && !e.act.Cleanup?
    ensures Lookup(Step(cfg, m, e), k) == After(cfg, m, e, k)
  {
    match e.act {
      case Handler(user, src) => HandlerAnswered(cfg, m, user, src, e.now);
      case AllocationCreated(_, _, _) =>
      case AllocationDeleted(_, _) =>
      case PacketSeen(user, ip, bytes) => PacketCreditsItsSession(cfg, m, user, ip, bytes, e.now);
      case RawTraffic(_, _, _) =>
      case UnblockIP(_) =>
    }
  }

  /** In every run, every event does to every session exactly this: opens it, renews it, closes it, counts
      in it, removes it, or leaves it alone. */
  lemma SessionsFollowEvents(cfg: Settings, ms: seq<Monitor>, es: seq<Event>, i: nat, k: string)
    requires i < |es| && LegalRun(cfg, ms, es)
    ensures Lookup(ms[i + 1], k) == After(cfg, ms[i], es[i], k)
  {
    assert LegalStep(cfg, ms, es, i);
    SessionsAreFiled(cfg, ms, es, i);
    if es[i].act.RelayTraffic? {
      AfterTraffic(cfg, ms[i], es[i], k);
    } else if es[i].act.BlockIP? || es[i].act.RevokeSession? || es[i].act.Cleanup? {
      AfterRemoval(cfg, ms[i], es[i], k);
    } else {
      AfterOther(cfg, ms[i], es[i], k);
    }
  }
}
