/** Traffic accounting of the TURN monitor over whole runs: conservation of bytes and packets, and which
    session a report is credited to. */
module TurnTraffic {
  import opened Clock
  import opened Text
  import opened TurnModel
  import opened Wrappers

  // ---------------------------------------------------- traffic conservation

  /** The two counters of a session. */
  datatype Counter = Bytes | Packets

  function Reading(c: Counter, s: Session): int {
    if c.Bytes? then s.bytesRelayed else s.packetsCount
  }

  ghost function Total(c: Counter, sessions: map<string, Session>): int {
    if sessions == map[] then 0
    else
      var k :| k in sessions;
      Reading(c, sessions[k]) + Total(c, sessions - {k})
  }

  lemma {:induction false} TotalPicks(c: Counter, sessions: map<string, Session>, k: string)
    requires k in sessions
    ensures Total(c, sessions) == Reading(c, sessions[k]) + Total(c, sessions - {k})
    decreases |sessions|
  {
    var j :| j in sessions && Total(c, sessions) == Reading(c, sessions[j]) + Total(c, sessions - {j});
    if j != k {
      TotalPicks(c, sessions - {j}, k);
      TotalPicks(c, sessions - {k}, j);
      assert sessions - {j} - {k} == sessions - {k} - {j};
    }
  }

  lemma TotalPut(c: Counter, sessions: map<string, Session>, k: string, s: Session)
    ensures Total(c, sessions[k := s])
              == Total(c, sessions) + Reading(c, s) - if k in sessions then Reading(c, sessions[k]) else 0
  {
    TotalPicks(c, sessions[k := s], k);
    assert sessions[k := s] - {k} == sessions - {k};
    if k in sessions {
      TotalPicks(c, sessions, k);
    } else {
      assert sessions - {k} == sessions;
    }
  }

  function Only(sessions: map<string, Session>, keys: set<string>): map<string, Session> {
    map k | k in sessions && k in keys :: sessions[k]
  }

  lemma {:induction false} TotalSplits(c: Counter, sessions: map<string, Session>, keys: set<string>)
    ensures Total(c, sessions) == Total(c, Without(sessions, keys)) + Total(c, Only(sessions, keys))
    decreases |sessions|
  {
    if sessions != map[] {
      var k :| k in sessions;
      var rest := sessions - {k};
      TotalSplits(c, rest, keys);
      TotalPicks(c, sessions, k);
      if k in keys {
        TotalPicks(c, Only(sessions, keys), k);
        assert Only(sessions, keys) - {k} == Only(rest, keys);
        assert Without(sessions, keys) == Without(rest, keys);
      } else {
        TotalPicks(c, Without(sessions, keys), k);
        assert Without(sessions, keys) - {k} == Without(rest, keys);
        assert Only(sessions, keys) == Only(rest, keys);
      }
    }
  }

  /** What one event reports: its bytes, or one packet. */
  function Reported(c: Counter, a: Action): int {
    match a
    case PacketSeen(_, _, bytes) => if c.Bytes? then bytes else 1
    case RelayTraffic(_, _, bytes, _) => if bytes <= 0 then 0 else if c.Bytes? then bytes else 1
    case RawTraffic(src, bytes, _) => if bytes <= 0 || src.None? then 0 else if c.Bytes? then bytes else 1
    case _ => 0
  }

  /** No session matches the report. */
  predicate Unmatched(m: Monitor, a: Action) {
    match a
    case PacketSeen(user, ip, _) => SessionKey(user, ip) !in m.sessions
    case RelayTraffic(_, _, _, _) => m.sessions == map[]
    case RawTraffic(src, _, _) => ByClient(m.sessions, src) == {}
    case _ => false
  }

  /** The sessions an event removes or overwrites. */
  function Retired(cfg: Settings, m: Monitor, e: Event): set<string> {
    match e.act
    case Handler(user, src) =>
      if src.Some? && HandlerStep(cfg, m, user, src, e.now).1 then {SessionKey(user, src.value)} else {}
    case BlockIP(ip, _) => if ip == "" then {} else ByClient(m.sessions, Some(ip))
    case RevokeSession(key) => RevokedSessions(m.sessions, key)
    case Cleanup => Expired(m.sessions, e.now)
    case _ => {}
  }

  /** What the sessions retired by an event had counted. */
  ghost function RetiredBy(c: Counter, cfg: Settings, m: Monitor, e: Event): int {
    Total(c, Only(m.sessions, Retired(cfg, m, e)))
  }

  /** What an event reports without finding a session for it. */
  function UnmatchedBy(c: Counter, m: Monitor, e: Event): int {
    if Unmatched(m, e.act) then Reported(c, e.act) else 0
  }

  ghost function RetiredTotal(c: Counter, cfg: Settings, ms: seq<Monitor>, es: seq<Event>, n: nat): int
    requires n <= |es| < |ms|
  {
    if n == 0 then 0 else RetiredTotal(c, cfg, ms, es, n - 1) + RetiredBy(c, cfg, ms[n - 1], es[n - 1])
  }

  function UnmatchedTotal(c: Counter, ms: seq<Monitor>, es: seq<Event>, n: nat): int
    requires n <= |es| < |ms|
  {
    if n == 0 then 0 else UnmatchedTotal(c, ms, es, n - 1) + UnmatchedBy(c, ms[n - 1], es[n - 1])
  }

  function ReportedTotal(c: Counter, es: seq<Event>, n: nat): int
    requires n <= |es|
  {
    if n == 0 then 0 else ReportedTotal(c, es, n - 1) + Reported(c, es[n - 1].act)
  }

  lemma TotalOfNone(c: Counter, sessions: map<string, Session>)
    ensures Total(c, Only(sessions, {})) == 0
  {
    assert Only(sessions, {}) == map[];
  }

  lemma TotalOfOne(c: Counter, sessions: map<string, Session>, k: string)
    ensures Total(c, Only(sessions, {k})) == if k in sessions then Reading(c, sessions[k]) else 0
  {
    if k in sessions {
      assert Only(sessions, {k}) == map[k := sessions[k]];
      TotalPicks(c, map[k := sessions[k]], k);
      assert map[k := sessions[k]] - {k} == map[];
    } else {
      assert Only(sessions, {k}) == map[];
    }
  }

  /** One event balances: what is counted afterwards, plus what it retired, plus what it could not
      place, is what was counted before plus what it reports. */
  ghost predicate Balances(c: Counter, cfg: Settings, m: Monitor, e: Event) {
    Total(c, Step(cfg, m, e).sessions) + RetiredBy(c, cfg, m, e) + UnmatchedBy(c, m, e)
    == Total(c, m.sessions) + Reported(c, e.act)
  }

  lemma PacketBalances(c: Counter, cfg: Settings, m: Monitor, e: Event)
    requires e.act.PacketSeen?
    ensures Balances(c, cfg, m, e)
  {
    TotalOfNone(c, m.sessions);
    var k := SessionKey(e.act.user, e.act.clientIP);
    if k in m.sessions {
      TotalPut(c, m.sessions, k, Credit(m.sessions[k], e.act.bytes, e.now));
    }
  }

  lemma RelayBalances(c: Counter, cfg: Settings, m: Monitor, e: Event)
    requires LegalPick(m, e.act) && e.act.RelayTraffic?
    ensures Balances(c, cfg, m, e)
  {
    TotalOfNone(c, m.sessions);
    if e.act.bytes > 0 && m.sessions != map[] {
      var k := e.act.pick;
      var after := RelayStep(m, e.act.relay, e.act.remote, e.act.bytes, k, e.now).sessions;
      TotalPut(c, m.sessions, k, after[k]);
      assert after == m.sessions[k := after[k]];
    }
  }

  lemma RawBalances(c: Counter, cfg: Settings, m: Monitor, e: Event)
    requires LegalPick(m, e.act) && e.act.RawTraffic?
    ensures Balances(c, cfg, m, e)
  {
    TotalOfNone(c, m.sessions);
    if e.act.bytes > 0 && ByClient(m.sessions, e.act.src) != {} {
      TotalPut(c, m.sessions, e.act.pick, Credit(m.sessions[e.act.pick], e.act.bytes, e.now));
    }
  }

  lemma RemovalBalances(c: Counter, cfg: Settings, m: Monitor, e: Event)
    requires e.act.BlockIP? || e.act.RevokeSession? || e.act.Cleanup?
    ensures Balances(c, cfg, m, e)
  {
    TotalOfNone(c, m.sessions);
    TotalSplits(c, m.sessions, Retired(cfg, m, e));
  }

  lemma AllocationBalances(c: Counter, cfg: Settings, m: Monitor, e: Event)
    requires e.act.AllocationCreated? || e.act.AllocationDeleted?
    ensures Balances(c, cfg, m, e)
  {
    TotalOfNone(c, m.sessions);
    if e.act.src.Some? {
      var k := SessionKey(e.act.user, e.act.src.value);
      var after := Step(cfg, m, e).sessions;
      if k in after {
        TotalPut(c, m.sessions, k, after[k]);
        assert after == m.sessions[k := after[k]];
      }
    }
  }

  lemma HandlerBalances(c: Counter, cfg: Settings, m: Monitor, e: Event)
    requires e.act.Handler? || e.act.UnblockIP?
    ensures Balances(c, cfg, m, e)
  {
    TotalOfNone(c, m.sessions);
    if e.act.Handler? && e.act.src.Some? && HandlerStep(cfg, m, e.act.user, e.act.src, e.now).1 {
      var k := SessionKey(e.act.user, e.act.src.value);
      TotalOfOne(c, m.sessions, k);
      TotalPut(c, m.sessions, k, NewSession(e.act.user, e.act.src.value, e.now));
    }
  }

  lemma EveryEventBalances(c: Counter, cfg: Settings, m: Monitor, e: Event)
    requires LegalPick(m, e.act)
    ensures Balances(c, cfg, m, e)
  {
    match e.act {
      case PacketSeen(_, _, _) => PacketBalances(c, cfg, m, e);
      case RelayTraffic(_, _, _, _) => RelayBalances(c, cfg, m, e);
      case RawTraffic(_, _, _) => RawBalances(c, cfg, m, e);
      case BlockIP(_, _) => RemovalBalances(c, cfg, m, e);
      case RevokeSession(_) => RemovalBalances(c, cfg, m, e);
      case Cleanup => RemovalBalances(c, cfg, m, e);
      case AllocationCreated(_, _, _) => AllocationBalances(c, cfg, m, e);
      case AllocationDeleted(_, _) => AllocationBalances(c, cfg, m, e);
      case Handler(_, _) => HandlerBalances(c, cfg, m, e);
      case UnblockIP(_) => HandlerBalances(c, cfg, m, e);
    }
  }

  lemma StepBalances(c: Counter, cfg: Settings, ms: seq<Monitor>, es: seq<Event>, i: nat)
    requires i < |es| && LegalRun(cfg, ms, es)
    ensures Total(c, ms[i + 1].sessions) + RetiredBy(c, cfg, ms[i], es[i]) + UnmatchedBy(c, ms[i], es[i])
            == Total(c, ms[i].sessions) + Reported(c, es[i].act)
  {
    assert LegalStep(cfg, ms, es, i);
    EveryEventBalances(c, cfg, ms[i], es[i]);
  }

  /** Traffic is conserved over whole runs, whatever order the maps are iterated in: what the current
      sessions count, plus what removed and overwritten sessions had counted, plus what no session
      matched, is everything that was reported. */
  lemma {:induction false} TrafficIsConserved(
    c: Counter, cfg: Settings, ms: seq<Monitor>, es: seq<Event>, n: nat)
    requires n <= |es| && LegalRun(cfg, ms, es)
    ensures Total(c, ms[n].sessions) + RetiredTotal(c, cfg, ms, es, n) + UnmatchedTotal(c, ms, es, n)
            == ReportedTotal(c, es, n)
  {
    if n > 0 {
      TrafficIsConserved(c, cfg, ms, es, n - 1);
      StepBalances(c, cfg, ms, es, n - 1);
    }
  }

  // ---------------------------------------------------- who gets the credit

  /** A session after a report of `bytes`: the report, one packet, the time, and the relay address `addr`. */
  function Recorded(s: Session, bytes: int, now: Time, addr: string): Session {
    Session(s.username, s.peerID, s.clientIP, addr, s.createdAt, s.expiresAt, s.bytesRelayed + bytes,
            s.packetsCount + 1, now, s.isTokenAuth, s.status)
  }

  /** Some session has the relay address. */
  ghost predicate Held(sessions: map<string, Session>, relay: string) {
    relay != "" && exists j :: j in sessions && sessions[j].relayAddr == relay
  }

  /** Some session belongs to the client address. */
  ghost predicate Known(sessions: map<string, Session>, ip: Option<string>) {
    ip.Some? && exists j :: j in sessions && sessions[j].clientIP == ip.value
  }

  /** Session `k` has the reported relay address if any session has, else the client address if any has. */
  ghost predicate BestMatch(sessions: map<string, Session>, relay: string, remote: Option<string>, k: string) {
    && k in sessions
    && if Held(sessions, relay) then sessions[k].relayAddr == relay
       else Known(sessions, remote) ==> sessions[k].clientIP == remote.value
  }

  /** The relay address a credited session has afterwards: one found by its client address learns it. */
  ghost function Learned(sessions: map<string, Session>, relay: string, remote: Option<string>, s: Session): string {
    if s.relayAddr == "" && !Held(sessions, relay) && Known(sessions, remote) then relay else s.relayAddr
  }

  lemma CandidatesMatchBest(sessions: map<string, Session>, relay: string, remote: Option<string>, k: string)
    requires k in RelayCandidates(sessions, relay, remote)
    ensures BestMatch(sessions, relay, remote, k)
    ensures Adopts(sessions, relay, remote) == (!Held(sessions, relay) && Known(sessions, remote))
  {
    forall j | j in sessions
      ensures relay != "" && sessions[j].relayAddr == relay ==> ByRelay(sessions, relay) != {}
      ensures remote.Some? && sessions[j].clientIP == remote.value ==> ByClient(sessions, remote) != {}
    {
      assert relay != "" && sessions[j].relayAddr == relay ==> j in ByRelay(sessions, relay);
      assert remote.Some? && sessions[j].clientIP == remote.value ==> j in ByClient(sessions, remote);
    }
  }

  /** In every run, a relay report made while there are sessions is recorded in exactly one, a best match;
      that one learns the relay address if it was found by its client address, and nothing else changes. */
  lemma RelayCreditsExactlyOne(cfg: Settings, ms: seq<Monitor>, es: seq<Event>, i: nat) returns (k: string)
    requires i < |es| && LegalRun(cfg, ms, es)
    requires es[i].act.RelayTraffic? && es[i].act.bytes > 0 && ms[i].sessions != map[]
    ensures BestMatch(ms[i].sessions, es[i].act.relay, es[i].act.remote, k)
    ensures var before, a := ms[i].sessions, es[i].act;
            var addr := Learned(before, a.relay, a.remote, before[k]);
            ms[i + 1] == ms[i].(sessions := before[k := Recorded(before[k], a.bytes, es[i].now, addr)])
  {
    assert LegalStep(cfg, ms, es, i);
    k := es[i].act.pick;
    CandidatesMatchBest(ms[i].sessions, es[i].act.relay, es[i].act.remote, k);
  }

  /** So a session without a relay address that was found by its client has the reported address afterwards,
      and the next report for that address goes to a session that has it. */
  lemma LearnedAddressIsFound(cfg: Settings, ms: seq<Monitor>, es: seq<Event>, i: nat) returns (k: string)
    requires i + 1 < |es| && LegalRun(cfg, ms, es)
    requires var a, b := es[i].act, es[i + 1].act;
             && a.RelayTraffic? && a.bytes > 0 && a.relay != "" && !Held(ms[i].sessions, a.relay)
             && Known(ms[i].sessions, a.remote) && a.pick in ms[i].sessions && ms[i].sessions[a.pick].relayAddr == ""
             && b.RelayTraffic? && b.bytes > 0 && b.relay == a.relay
    ensures var a := es[i].act;
            && ms[i].sessions[a.pick].clientIP == a.remote.value
            && a.pick in ms[i + 1].sessions && ms[i + 1].sessions[a.pick].relayAddr == a.relay
    ensures k in ms[i + 1].sessions && ms[i + 1].sessions[k].relayAddr == es[i].act.relay
    ensures var before, b := ms[i + 1].sessions, es[i + 1].act;
            ms[i + 2].sessions == before[k := Recorded(before[k], b.bytes, es[i + 1].now, b.relay)]
  {
    assert LegalStep(cfg, ms, es, i);
    CandidatesMatchBest(ms[i].sessions, es[i].act.relay, es[i].act.remote, es[i].act.pick);
    assert ms[i + 1].sessions[es[i].act.pick].relayAddr == es[i].act.relay;
    assert Held(ms[i + 1].sessions, es[i + 1].act.relay);
    k := RelayCreditsExactlyOne(cfg, ms, es, i + 1);
  }

  /** A raw report is recorded in exactly one session of its client, if there is one. */
  lemma RawCreditsItsClient(cfg: Settings, ms: seq<Monitor>, es: seq<Event>, i: nat) returns (k: string)
    requires i < |es| && LegalRun(cfg, ms, es) && es[i].act.RawTraffic?
    ensures var before, a := ms[i].sessions, es[i].act;
            if a.bytes > 0 && Known(before, a.src) then
              && k in before && before[k].clientIP == a.src.value
              && var after := Recorded(before[k], a.bytes, es[i].now, before[k].relayAddr);
                 ms[i + 1] == ms[i].(sessions := before[k := after])
            else ms[i + 1] == ms[i]
  {
    assert LegalStep(cfg, ms, es, i);
    var before, a := ms[i].sessions, es[i].act;
    k := a.pick;
    if Known(before, a.src) {
      var j :| j in before && before[j].clientIP == a.src.value;
      assert j in ByClient(before, a.src);
    } else {
      assert ByClient(before, a.src) == {};
    }
  }

  /** A packet is recorded in the session of exactly its user and address, if there is one. */
  lemma PacketCreditsItsSession(cfg: Settings, m: Monitor, user: string, ip: string, bytes: int, now: Time)
    ensures var k := user + "@" + ip;
            PacketStep(m, user, ip, bytes, now) ==
              if k in m.sessions then
                m.(sessions := m.sessions[k := Recorded(m.sessions[k], bytes, now, m.sessions[k].relayAddr)])
              else m
  {
  }
}
