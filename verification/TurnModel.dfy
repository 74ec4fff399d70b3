/** The TURN monitor (turn_monitor.go) and the authentication handler that drives it (main.go):
    traffic accounting and IP blocking as a state machine. Go iterates over maps in an arbitrary
    order; an event that depends on it carries the key the iteration happened to stop at. */
module TurnModel {
  import opened Clock
  import opened Text
  import opened Wrappers

  /** Unix time 0, counted from Go's zero time. */
  const UNIX_EPOCH: nat := 62135596800 * SECOND

  const ALLOCATION_TTL: nat := 60 * SECOND
  const MAX_FAILURES: nat := 20
  const ABUSE_BLOCK: nat := 10 * MINUTE
  const DEFAULT_BLOCK: nat := 24 * HOUR
  const BAN: nat := 12 * HOUR
  const CLOSED_LINGER: nat := 30 * SECOND
  const IDLE_LINGER: nat := 2 * MINUTE

  datatype Status = Active | Closed

  datatype Session = Session(
    username: string, peerID: string, clientIP: string, relayAddr: string, createdAt: Time, expiresAt: Time,
    bytesRelayed: int, packetsCount: int, lastActivity: Time, isTokenAuth: bool, status: Status)

  datatype Reputation = Reputation(failures: nat, lastFailure: Time, blockedUntil: Time, successCount: nat)

  datatype Monitor = Monitor(
    sessions: map<string, Session>, reputations: map<string, Reputation>, revokedTokens: map<string, Time>)

  /** The settings the handler reads. */
  datatype Settings = Settings(username: string, authSecret: string)

  /** Addresses arrive as the IP that `extractIP` finds, None for a nil address. */
  datatype Action =
    | Handler(user: string, src: Option<string>)
    | AllocationCreated(user: string, src: Option<string>, lease: Option<string>)
    | AllocationDeleted(user: string, src: Option<string>)
    | PacketSeen(user: string, clientIP: string, bytes: int)
    | RelayTraffic(relay: string, remote: Option<string>, bytes: int, pick: string)
    | RawTraffic(src: Option<string>, bytes: int, pick: string)
    | BlockIP(ip: string, duration: int)
    | UnblockIP(ip: string)
    | RevokeSession(key: string)
    | Cleanup

  datatype Event = Event(now: Time, act: Action)

  function Init(): Monitor {
    Monitor(map[], map[], map[])
  }

  function SessionKey(user: string, ip: string): string {
    user + "@" + ip
  }

  // --------------------------------------------------------- authentication

  function ReputationOf(reputations: map<string, Reputation>, ip: string): Reputation {
    if ip in reputations then reputations[ip] else Reputation(0, 0, 0, 0)
  }

  function Rep(m: Monitor, ip: string): Reputation {
    ReputationOf(m.reputations, ip)
  }

  predicate CheckIPBlocked(m: Monitor, src: Option<string>, now: Time) {
    src.Some? && now < Rep(m, src.value).blockedUntil
  }

  predicate IsSessionRevoked(m: Monitor, user: string, now: Time) {
    user in m.revokedTokens && now < m.revokedTokens[user]
  }

  /** A time-limited user name "unixtime:peer" carries its own expiry. */
  function NewSession(user: string, ip: string, now: Time): Session {
    var parts := Split(user, ':');
    var ts := if |parts| >= 2 then ParseInt(parts[0]) else None;
    if ts.Some? && ts.value > 0 then
      Session(user, Join(parts[1..], ':'), ip, "", now, UNIX_EPOCH + ts.value * SECOND, 0, 0, now, true, Active)
    else
      Session(user, user, ip, "", now, now + ALLOCATION_TTL, 0, 0, now, false, Active)
  }

  function Succeeding(rep: Reputation): Reputation {
    rep.(successCount := rep.successCount + 1, failures := 0)
  }

  function RecordSuccess(m: Monitor, user: string, ip: string, now: Time): Monitor {
    var rep := Rep(m, ip);
    if IsSessionRevoked(m, user, now) then m.(reputations := m.reputations[ip := rep])
    else
      m.(reputations := m.reputations[ip := Succeeding(rep)],
         sessions := m.sessions[SessionKey(user, ip) := NewSession(user, ip, now)])
  }

  function Failing(rep: Reputation, now: Time): Reputation {
    var failures := rep.failures + 1;
    rep.(failures := failures, lastFailure := now,
         blockedUntil := if failures >= MAX_FAILURES then now + ABUSE_BLOCK else rep.blockedUntil)
  }

  function RecordFailure(m: Monitor, ip: string, now: Time): Monitor {
    m.(reputations := m.reputations[ip := Failing(Rep(m, ip), now)])
  }

  function RecordAuthAttempt(m: Monitor, user: string, src: Option<string>, success: bool, now: Time): Monitor {
    if src.None? then m
    else if success then RecordSuccess(m, user, src.value, now)
    else RecordFailure(m, src.value, now)
  }

  /** The AuthHandler closure: the new state and whether a key is handed out. */
  function HandlerStep(cfg: Settings, m: Monitor, user: string, src: Option<string>, now: Time): (Monitor, bool) {
    if CheckIPBlocked(m, src, now) || IsSessionRevoked(m, user, now) then (m, false)
    else
      var success := user == cfg.username || cfg.authSecret != "";
      (RecordAuthAttempt(m, user, src, success, now), success)
  }

  // ---------------------------------------------------------------- traffic

  function Credit(s: Session, bytes: int, now: Time): Session {
    s.(bytesRelayed := s.bytesRelayed + bytes, packetsCount := s.packetsCount + 1, lastActivity := now)
  }

  function CreditAt(m: Monitor, key: string, bytes: int, now: Time): Monitor
    requires key in m.sessions
  {
    m.(sessions := m.sessions[key := Credit(m.sessions[key], bytes, now)])
  }

  function ByRelay(sessions: map<string, Session>, relay: string): set<string> {
    set k | k in sessions && relay != "" && sessions[k].relayAddr == relay
  }

  function ByClient(sessions: map<string, Session>, ip: Option<string>): set<string> {
    set k | k in sessions && ip.Some? && sessions[k].clientIP == ip.value
  }

  /** The sessions one relay report may be credited to. */
  function RelayCandidates(sessions: map<string, Session>, relay: string, remote: Option<string>): set<string> {
    if ByRelay(sessions, relay) != {} then ByRelay(sessions, relay)
    else if ByClient(sessions, remote) != {} then ByClient(sessions, remote)
    else sessions.Keys
  }

  /** The session was found through the client address, so it may learn its relay address. */
  predicate Adopts(sessions: map<string, Session>, relay: string, remote: Option<string>) {
    ByRelay(sessions, relay) == {} && ByClient(sessions, remote) != {}
  }

  function Relayed(s: Session, relay: string, adopts: bool, bytes: int, now: Time): Session {
    var s' := Credit(s, bytes, now);
    if adopts && s'.relayAddr == "" then s'.(relayAddr := relay) else s'
  }

  function RelayStep(m: Monitor, relay: string, remote: Option<string>, bytes: int, pick: string, now: Time): Monitor {
    if bytes <= 0 || pick !in m.sessions then m
    else
      var adopts := Adopts(m.sessions, relay, remote);
      m.(sessions := m.sessions[pick := Relayed(m.sessions[pick], relay, adopts, bytes, now)])
  }

  function RawStep(m: Monitor, src: Option<string>, bytes: int, pick: string, now: Time): Monitor {
    if bytes <= 0 || src.None? || pick !in m.sessions then m else CreditAt(m, pick, bytes, now)
  }

  function PacketStep(m: Monitor, user: string, ip: string, bytes: int, now: Time): Monitor {
    var key := SessionKey(user, ip);
    if key in m.sessions then CreditAt(m, key, bytes, now) else m
  }

  // ---------------------------------------------------- allocations, cleaning

  function Allocated(s: Session, lease: Option<string>, now: Time): Session {
    s.(status := Active, lastActivity := now, expiresAt := now + ALLOCATION_TTL,
       relayAddr := if lease.Some? then lease.value else s.relayAddr)
  }

  function SessionOf(sessions: map<string, Session>, user: string, ip: string, now: Time): Session {
    if SessionKey(user, ip) in sessions then sessions[SessionKey(user, ip)]
    else Session(user, user, ip, "", now, 0, 0, 0, 0, false, Active)
  }

  function AllocationCreatedStep(m: Monitor, user: string, ip: string, lease: Option<string>, now: Time): Monitor {
    var s := SessionOf(m.sessions, user, ip, now);
    m.(sessions := m.sessions[SessionKey(user, ip) := Allocated(s, lease, now)])
  }

  function Released(s: Session, now: Time): Session {
    s.(status := Closed, expiresAt := now)
  }

  function AllocationDeletedStep(m: Monitor, user: string, ip: string, now: Time): Monitor {
    var key := SessionKey(user, ip);
    if key in m.sessions then m.(sessions := m.sessions[key := Released(m.sessions[key], now)]) else m
  }

  predicate Purgeable(s: Session, now: Time) {
    || (s.status == Closed && now > s.lastActivity + CLOSED_LINGER)
    || (now > s.expiresAt && now > s.lastActivity + IDLE_LINGER)
  }

  function Without(sessions: map<string, Session>, gone: set<string>): map<string, Session> {
    map k | k in sessions && k !in gone :: sessions[k]
  }

  lemma WithoutOneMore(sessions: map<string, Session>, gone: set<string>, keys: set<string>, k: string)
    requires k in keys
    ensures Without(sessions, gone - (keys - {k}))
              == if k in gone then Without(sessions, gone - keys) - {k} else Without(sessions, gone - keys)
  {
    if k in gone {
      assert gone - (keys - {k}) == gone - keys + {k};
    } else {
      assert gone - (keys - {k}) == gone - keys;
    }
  }

  function Blocking(rep: Reputation, until: Time): Reputation {
    rep.(blockedUntil := until)
  }

  function Unblocking(rep: Reputation): Reputation {
    rep.(blockedUntil := 0, failures := 0)
  }

  function BlockEnd(duration: int, now: Time): Time {
    now + if duration <= 0 then DEFAULT_BLOCK else duration
  }

  function BlockStep(m: Monitor, ip: string, duration: int, now: Time): Monitor {
    if ip == "" then m
    else
      m.(reputations := m.reputations[ip := Blocking(ReputationOf(m.reputations, ip), BlockEnd(duration, now))],
         sessions := Without(m.sessions, ByClient(m.sessions, Some(ip))))
  }

  function UnblockStep(m: Monitor, ip: string): Monitor {
    if ip in m.reputations
    then m.(reputations := m.reputations[ip := Unblocking(m.reputations[ip])])
    else m
  }

  function RevokeTarget(key: string): string {
    var parts := Split(key, '@');
    if |parts| == 2 then parts[0] else key
  }

  /** The sessions a revocation removes: the one under the key, and any whose user and address spell it. */
  function RevokedSessions(sessions: map<string, Session>, key: string): set<string> {
    set k | k in sessions && (k == key || SessionKey(sessions[k].username, sessions[k].clientIP) == key)
  }

  function RevokeStep(m: Monitor, key: string, now: Time): Monitor {
    var tokens := m.revokedTokens[key := now + BAN];
    var user := RevokeTarget(key);
    m.(revokedTokens := if user != "pingo" && user != "" then tokens[user := now + BAN] else tokens,
       sessions := Without(m.sessions, RevokedSessions(m.sessions, key)))
  }

  function Expired(sessions: map<string, Session>, now: Time): set<string> {
    set k | k in sessions && Purgeable(sessions[k], now)
  }

  function Step(cfg: Settings, m: Monitor, e: Event): Monitor {
    match e.act
    case Handler(user, src) => HandlerStep(cfg, m, user, src, e.now).0
    case AllocationCreated(user, src, lease) =>
      if src.None? then m else AllocationCreatedStep(m, user, src.value, lease, e.now)
    case AllocationDeleted(user, src) =>
      if src.None? then m else AllocationDeletedStep(m, user, src.value, e.now)
    case PacketSeen(user, ip, bytes) => PacketStep(m, user, ip, bytes, e.now)
    case RelayTraffic(relay, remote, bytes, pick) => RelayStep(m, relay, remote, bytes, pick, e.now)
    case RawTraffic(src, bytes, pick) => RawStep(m, src, bytes, pick, e.now)
    case BlockIP(ip, duration) => BlockStep(m, ip, duration, e.now)
    case UnblockIP(ip) => UnblockStep(m, ip)
    case RevokeSession(key) => RevokeStep(m, key, e.now)
    case Cleanup => m.(sessions := Without(m.sessions, Expired(m.sessions, e.now)))
  }

  /** The key an event names is one the map iteration can stop at. */
  predicate LegalPick(m: Monitor, a: Action) {
    match a
    case RelayTraffic(relay, remote, bytes, pick) =>
      bytes > 0 && m.sessions != map[] ==> pick in RelayCandidates(m.sessions, relay, remote)
    case RawTraffic(src, bytes, pick) =>
      if ByClient(m.sessions, src) != {} then pick in ByClient(m.sessions, src) else pick !in m.sessions
    case _ => true
  }

  function State(cfg: Settings, es: seq<Event>, n: nat): Monitor
    requires n <= |es|
  {
    if n == 0 then Init() else Step(cfg, State(cfg, es, n - 1), es[n - 1])
  }

  /** Event number `i` leads from state `ms[i]` to state `ms[i + 1]`, by way of a key its map iteration can
      stop at. */
  ghost predicate LegalStep(cfg: Settings, ms: seq<Monitor>, es: seq<Event>, i: nat)
    requires i < |es| < |ms|
  {
    LegalPick(ms[i], es[i].act) && ms[i + 1] == Step(cfg, ms[i], es[i])
  }

  /** A run, with the states before, between and after its events; any iteration order will do. */
  ghost predicate LegalRun(cfg: Settings, ms: seq<Monitor>, es: seq<Event>) {
    |ms| == |es| + 1 && ms[0] == Init() && forall i :: 0 <= i < |es| ==> LegalStep(cfg, ms, es, i)
  }

  lemma {:induction false} RunsFollowState(cfg: Settings, ms: seq<Monitor>, es: seq<Event>, n: nat)
    requires n <= |es| && LegalRun(cfg, ms, es)
    ensures ms[n] == State(cfg, es, n)
  {
    if n > 0 {
      RunsFollowState(cfg, ms, es, n - 1);
      assert LegalStep(cfg, ms, es, n - 1);
    }
  }
}
