/** The TURN monitor (turn_monitor.go): session and reputation records behind pointers, updated in
    place, with loops over maps in an arbitrary order. Every method is proved to be the corresponding
    step of TurnModel; where the order matters, the key the loop stopped at is a ghost result. */
module TurnMonitor {
  import opened Clock
  import opened Maps
  import opened Text
  import opened Wrappers
  import M = TurnModel

  class TurnSession {
    const username: string
    const peerID: string
    const clientIP: string
    var relayAddr: string
    const createdAt: Time
    var expiresAt: Time
    var bytesRelayed: int
    var packetsCount: int
    var lastActivity: Time
    const isTokenAuth: bool
    var status: M.Status

    constructor (s: M.Session)
      ensures Value() == s
    {
      username, peerID, clientIP, relayAddr := s.username, s.peerID, s.clientIP, s.relayAddr;
      createdAt, expiresAt, lastActivity := s.createdAt, s.expiresAt, s.lastActivity;
      bytesRelayed, packetsCount, isTokenAuth, status := s.bytesRelayed, s.packetsCount, s.isTokenAuth, s.status;
    }

    ghost function Key(): string {
      M.SessionKey(username, clientIP)
    }

    ghost function Value(): M.Session
      reads this
    {
      M.Session(username, peerID, clientIP, relayAddr, createdAt, expiresAt, bytesRelayed, packetsCount,
                lastActivity, isTokenAuth, status)
    }

    method Credit(bytes: int, now: Time)
      modifies this
      ensures Value() == M.Credit(old(Value()), bytes, now)
    {
      bytesRelayed := bytesRelayed + bytes;
      packetsCount := packetsCount + 1;
      lastActivity := now;
    }

    method Relayed(relay: string, adopts: bool, bytes: int, now: Time)
      modifies this
      ensures Value() == M.Relayed(old(Value()), relay, adopts, bytes, now)
    {
      Credit(bytes, now);
      if adopts && relayAddr == "" && relay != "" {
        relayAddr := relay;
      }
    }

    method Allocated(relay: Option<string>, now: Time)
      modifies this
      ensures Value() == M.Allocated(old(Value()), relay, now)
    {
      status := M.Active;
      lastActivity := now;
      expiresAt := now + M.ALLOCATION_TTL;
      if relay.Some? {
        relayAddr := relay.value;
      }
    }

    method Released(now: Time)
      modifies this
      ensures Value() == M.Released(old(Value()), now)
    {
      status := M.Closed;
      expiresAt := now;
    }
  }

  class IPReputation {
    const ip: string
    var failures: nat
    var lastFailure: Time
    var blockedUntil: Time
    var successCount: nat

    constructor (ip: string)
      ensures this.ip == ip && Value() == M.Reputation(0, 0, 0, 0)
    {
      this.ip := ip;
      failures, lastFailure, blockedUntil, successCount := 0, 0, 0, 0;
    }

    ghost function Value(): M.Reputation
      reads this
    {
      M.Reputation(failures, lastFailure, blockedUntil, successCount)
    }

    method Fail(now: Time)
      modifies this
      ensures Value() == M.Failing(old(Value()), now)
    {
      failures := failures + 1;
      lastFailure := now;
      if failures >= M.MAX_FAILURES {
        blockedUntil := now + M.ABUSE_BLOCK;
      }
    }

    method Succeed()
      modifies this
      ensures Value() == M.Succeeding(old(Value()))
    {
      successCount := successCount + 1;
      failures := 0;
    }
  }

  class TurnMonitor {
    var sessions: map<string, TurnSession>
    var reputations: map<string, IPReputation>
    var revokedTokens: map<string, Time>

    /** The values behind the pointers. */
    ghost var SessionValues: map<string, M.Session>
    ghost var ReputationValues: map<string, M.Reputation>

    /** Every record is filed under its own key, so no record is shared. */
    ghost predicate Valid()
      reads this, sessions.Values, reputations.Values
    {
      && sessions.Keys == SessionValues.Keys
      && (forall k :: k in sessions ==> sessions[k].Key() == k && sessions[k].Value() == SessionValues[k])
      && reputations.Keys == ReputationValues.Keys
      && (forall ip :: ip in reputations ==>
            reputations[ip].ip == ip && reputations[ip].Value() == ReputationValues[ip])
    }

    ghost function Model(): M.Monitor
      reads this
    {
      M.Monitor(SessionValues, ReputationValues, revokedTokens)
    }

    constructor ()
      ensures Valid() && Model() == M.Init()
    {
      sessions, reputations, revokedTokens := map[], map[], map[];
      SessionValues, ReputationValues := map[], map[];
    }

    // ------------------------------------------------- single-record updates

    method PutSession(key: string, s: M.Session)
      requires Valid() && key == M.SessionKey(s.username, s.clientIP)
      modifies this`sessions, this`SessionValues
      ensures fresh(sessions.Values - old(sessions.Values))
      ensures Valid() && SessionValues == old(SessionValues)[key := s]
    {
      var session := new TurnSession(s);
      sessions := sessions[key := session];
      SessionValues := SessionValues[key := s];
    }

    method CreditSession(key: string, bytes: int, now: Time)
      requires Valid() && key in sessions
      modifies sessions[key], this`SessionValues
      ensures Valid() && SessionValues == old(SessionValues)[key := M.Credit(old(SessionValues)[key], bytes, now)]
    {
      sessions[key].Credit(bytes, now);
      SessionValues := SessionValues[key := M.Credit(SessionValues[key], bytes, now)];
    }

    method RelaySession(key: string, relay: string, adopts: bool, bytes: int, now: Time)
      requires Valid() && key in sessions
      modifies sessions[key], this`SessionValues
      ensures Valid()
      ensures SessionValues == old(SessionValues)[key := M.Relayed(old(SessionValues)[key], relay, adopts, bytes, now)]
    {
      sessions[key].Relayed(relay, adopts, bytes, now);
      SessionValues := SessionValues[key := M.Relayed(SessionValues[key], relay, adopts, bytes, now)];
    }

    method RenewSession(key: string, relay: Option<string>, now: Time)
      requires Valid() && key in sessions
      modifies sessions[key], this`SessionValues
      ensures Valid() && SessionValues == old(SessionValues)[key := M.Allocated(old(SessionValues)[key], relay, now)]
    {
      sessions[key].Allocated(relay, now);
      SessionValues := SessionValues[key := M.Allocated(SessionValues[key], relay, now)];
    }

    method ReleaseSession(key: string, now: Time)
      requires Valid() && key in sessions
      modifies sessions[key], this`SessionValues
      ensures Valid() && SessionValues == old(SessionValues)[key := M.Released(old(SessionValues)[key], now)]
    {
      sessions[key].Released(now);
      SessionValues := SessionValues[key := M.Released(SessionValues[key], now)];
    }

    /** Creates the reputation of an address on first use. */
    method EnsureReputation(ip: string)
      requires Valid()
      modifies this`reputations, this`ReputationValues
      ensures fresh(reputations.Values - old(reputations.Values)) && ip in reputations
      ensures Valid() && ReputationValues == old(ReputationValues)[ip := M.ReputationOf(old(ReputationValues), ip)]
    {
      if ip !in reputations {
        var rep := new IPReputation(ip);
        reputations := reputations[ip := rep];
      }
      ReputationValues := ReputationValues[ip := M.ReputationOf(ReputationValues, ip)];
    }

    method FailReputation(ip: string, now: Time)
      requires Valid() && ip in reputations
      modifies reputations[ip], this`ReputationValues
      ensures Valid() && ReputationValues == old(ReputationValues)[ip := M.Failing(old(ReputationValues)[ip], now)]
    {
      reputations[ip].Fail(now);
      ReputationValues := ReputationValues[ip := M.Failing(ReputationValues[ip], now)];
    }

    method SucceedReputation(ip: string)
      requires Valid() && ip in reputations
      modifies reputations[ip], this`ReputationValues
      ensures Valid() && ReputationValues == old(ReputationValues)[ip := M.Succeeding(old(ReputationValues)[ip])]
    {
      reputations[ip].Succeed();
      ReputationValues := ReputationValues[ip := M.Succeeding(ReputationValues[ip])];
    }

    method SetBlock(ip: string, until: Time)
      requires Valid() && ip in reputations
      modifies reputations[ip], this`ReputationValues
      ensures Valid()
      ensures ReputationValues == old(ReputationValues)[ip := M.Blocking(old(ReputationValues)[ip], until)]
    {
      reputations[ip].blockedUntil := until;
      ReputationValues := ReputationValues[ip := M.Blocking(ReputationValues[ip], until)];
    }

    method ClearReputation(ip: string)
      requires Valid() && ip in reputations
      modifies reputations[ip], this`ReputationValues
      ensures Valid()
      ensures ReputationValues
                == old(ReputationValues)[ip := M.Unblocking(old(ReputationValues)[ip])]
    {
      reputations[ip].blockedUntil := 0;
      reputations[ip].failures := 0;
      ReputationValues := ReputationValues[ip := M.Unblocking(ReputationValues[ip])];
    }

    // --------------------------------------------------------- authentication

    method CheckIPBlocked(src: Option<string>, now: Time) returns (blocked: bool)
      requires Valid()
      ensures blocked == M.CheckIPBlocked(Model(), src, now)
    {
      if src.None? {
        return false;
      }
      return src.value in reputations && now < reputations[src.value].blockedUntil;
    }

    method IsSessionRevoked(user: string, now: Time) returns (revoked: bool)
      requires Valid()
      ensures revoked == M.IsSessionRevoked(Model(), user, now)
    {
      return user in revokedTokens && now < revokedTokens[user];
    }

    method RecordFailure(ip: string, now: Time)
      requires Valid()
      modifies this`reputations, this`ReputationValues, reputations.Values
      ensures fresh(reputations.Values - old(reputations.Values))
      ensures Valid()
      ensures ReputationValues == old(ReputationValues)[ip := M.Failing(M.ReputationOf(old(ReputationValues), ip), now)]
    {
      EnsureReputation(ip);
      FailReputation(ip, now);
    }

    method CountSuccess(ip: string)
      requires Valid()
      modifies this`reputations, this`ReputationValues, reputations.Values
      ensures fresh(reputations.Values - old(reputations.Values))
      ensures Valid()
      ensures ReputationValues == old(ReputationValues)[ip := M.Succeeding(M.ReputationOf(old(ReputationValues), ip))]
    {
      EnsureReputation(ip);
      ghost var rep := ReputationValues[ip];
      PutTwice(old(ReputationValues), ip, rep, M.Succeeding(rep));
      SucceedReputation(ip);
    }

    method RecordSuccess(user: string, ip: string, now: Time)
      requires Valid()
      modifies this`reputations, this`ReputationValues, this`sessions, this`SessionValues, reputations.Values
      ensures fresh(reputations.Values - old(reputations.Values))
      ensures fresh(sessions.Values - old(sessions.Values))
      ensures Valid() && Model() == M.RecordSuccess(old(Model()), user, ip, now)
    {
      if user in revokedTokens && revokedTokens[user] > now {
        EnsureReputation(ip);
      } else {
        CountSuccess(ip);
        PutSession(M.SessionKey(user, ip), M.NewSession(user, ip, now));
      }
    }

    method RecordAuthAttempt(user: string, src: Option<string>, success: bool, now: Time)
      requires Valid()
      modifies this`reputations, this`ReputationValues, this`sessions, this`SessionValues, reputations.Values
      ensures fresh(reputations.Values - old(reputations.Values))
      ensures fresh(sessions.Values - old(sessions.Values))
      ensures Valid() && Model() == M.RecordAuthAttempt(old(Model()), user, src, success, now)
    {
      if src.None? {
        return;
      }
      if success {
        RecordSuccess(user, src.value, now);
      } else {
        RecordFailure(src.value, now);
      }
    }

    /** The AuthHandler closure of main.go; true when it returns a key. */
    method AuthHandler(cfg: M.Settings, user: string, src: Option<string>, now: Time) returns (ok: bool)
      requires Valid()
      modifies this`reputations, this`ReputationValues, this`sessions, this`SessionValues, reputations.Values
      ensures fresh(reputations.Values - old(reputations.Values))
      ensures fresh(sessions.Values - old(sessions.Values))
      ensures Valid() && (Model(), ok) == M.HandlerStep(cfg, old(Model()), user, src, now)
    {
      var blocked := CheckIPBlocked(src, now);
      if blocked {
        return false;
      }
      var revoked := IsSessionRevoked(user, now);
      if revoked {
        return false;
      }
      ok := GrantKey(cfg, user, src, now);
    }

    /** The rest of the handler, for a request that is neither blocked nor banned. */
    method GrantKey(cfg: M.Settings, user: string, src: Option<string>, now: Time) returns (ok: bool)
      requires Valid()
      modifies this`reputations, this`ReputationValues, this`sessions, this`SessionValues, reputations.Values
      ensures fresh(reputations.Values - old(reputations.Values))
      ensures fresh(sessions.Values - old(sessions.Values))
      ensures ok == (user == cfg.username || cfg.authSecret != "")
      ensures Valid() && Model() == M.RecordAuthAttempt(old(Model()), user, src, ok, now)
    {
      if user == cfg.username {
        ok := true;
      } else if cfg.authSecret != "" {
        ok := true;
      } else {
        ok := false;
      }
      RecordAuthAttempt(user, src, ok, now);
    }

    // ---------------------------------------------------------------- traffic

    /** The first loop of RecordRelayTraffic, up to its `break`. */
    method FindByRelay(relay: string) returns (key: Option<string>)
      requires Valid()
      ensures if key.Some? then key.value in M.ByRelay(SessionValues, relay) else M.ByRelay(SessionValues, relay) == {}
    {
      if relay != "" {
        var keys := sessions.Keys;
        while keys != {}
          invariant keys <= sessions.Keys
          invariant forall k :: k in sessions && k !in keys ==> sessions[k].relayAddr != relay
        {
          var k :| k in keys;
          keys := keys - {k};
          if sessions[k].relayAddr == relay {
            return Some(k);
          }
        }
      }
      return None;
    }

    /** A loop that looks for a session of a client address, up to its `break`. */
    method FindByClient(ip: Option<string>) returns (key: Option<string>)
      requires Valid()
      ensures if key.Some? then key.value in M.ByClient(SessionValues, ip) else M.ByClient(SessionValues, ip) == {}
    {
      if ip.Some? {
        var keys := sessions.Keys;
        while keys != {}
          invariant keys <= sessions.Keys
          invariant forall k :: k in sessions && k !in keys ==> sessions[k].clientIP != ip.value
        {
          var k :| k in keys;
          keys := keys - {k};
          if sessions[k].clientIP == ip.value {
            return Some(k);
          }
        }
      }
      return None;
    }

    /** The last loop of RecordRelayTraffic: it ends with some session whenever there is one. */
    method FindAny(now: Time) returns (key: Option<string>)
      requires Valid()
      ensures if key.Some? then key.value in sessions else sessions == map[]
    {
      key := None;
      var keys := sessions.Keys;
      while keys != {}
        invariant keys <= sessions.Keys
        invariant key.Some? ==> key.value in sessions
        invariant key.None? ==> keys == sessions.Keys
      {
        var k :| k in keys;
        keys := keys - {k};
        if key.None? || sessions[k].lastActivity < now {
          key := Some(k);
        }
      }
    }

    /** The session a relay report goes to: by relay address, else by client address, else any. */
    method FindRelayTarget(relay: string, remote: Option<string>, now: Time) returns (key: Option<string>, adopts: bool)
      requires Valid()
      ensures if key.Some? then key.value in M.RelayCandidates(SessionValues, relay, remote) else sessions == map[]
      ensures adopts == M.Adopts(SessionValues, relay, remote)
    {
      key := FindByRelay(relay);
      if key.Some? {
        return key, false;
      }
      key := FindByClient(remote);
      if key.Some? {
        return key, true;
      }
      key := FindAny(now);
      return key, false;
    }

    method RecordRelayTraffic(relay: string, remote: Option<string>, bytes: int, now: Time) returns (ghost pick: string)
      requires Valid()
      modifies sessions.Values, this`SessionValues
      ensures M.LegalPick(old(Model()), M.RelayTraffic(relay, remote, bytes, pick))
      ensures Valid() && Model() == M.RelayStep(old(Model()), relay, remote, bytes, pick, now)
    {
      pick := "";
      if bytes <= 0 {
        return;
      }
      var found, adopts := FindRelayTarget(relay, remote, now);
      if found.Some? {
        pick := found.value;
        RelaySession(found.value, relay, adopts, bytes, now);
      }
    }

    method RecordRawTraffic(src: Option<string>, bytes: int, now: Time) returns (ghost pick: Option<string>)
      requires Valid()
      modifies sessions.Values, this`SessionValues
      ensures bytes > 0 ==>
                if pick.Some? then M.LegalPick(old(Model()), M.RawTraffic(src, bytes, pick.value))
                else M.ByClient(old(SessionValues), src) == {}
      ensures Valid()
      ensures Model() == if pick.Some? then M.RawStep(old(Model()), src, bytes, pick.value, now) else old(Model())
    {
      pick := None;
      if bytes <= 0 || src.None? {
        return;
      }
      var found := FindByClient(src);
      if found.Some? {
        pick := found;
        CreditSession(found.value, bytes, now);
      }
    }

    method RecordPacket(user: string, clientIP: string, bytes: int, now: Time)
      requires Valid()
      modifies sessions.Values, this`SessionValues
      ensures Valid() && Model() == M.PacketStep(old(Model()), user, clientIP, bytes, now)
    {
      var key := M.SessionKey(user, clientIP);
      if key in sessions {
        CreditSession(key, bytes, now);
      }
    }

    // ------------------------------------------------- allocations and removal

    method RecordAllocationCreated(user: string, src: Option<string>, relay: Option<string>, now: Time)
      requires Valid()
      modifies this`sessions, this`SessionValues, sessions.Values
      ensures fresh(sessions.Values - old(sessions.Values))
      ensures Valid() && Model() == if src.None? then old(Model())
                         else M.AllocationCreatedStep(old(Model()), user, src.value, relay, now)
    {
      if src.None? {
        return;
      }
      UpsertSession(user, src.value, relay, now);
    }

    method UpsertSession(user: string, ip: string, relay: Option<string>, now: Time)
      requires Valid()
      modifies this`sessions, this`SessionValues, sessions.Values
      ensures fresh(sessions.Values - old(sessions.Values))
      ensures Valid()
      ensures var s := M.SessionOf(old(SessionValues), user, ip, now);
              SessionValues == old(SessionValues)[M.SessionKey(user, ip) := M.Allocated(s, relay, now)]
    {
      EnsureSession(user, ip, now);
      ghost var s := SessionValues[M.SessionKey(user, ip)];
      PutTwice(old(SessionValues), M.SessionKey(user, ip), s, M.Allocated(s, relay, now));
      RenewSession(M.SessionKey(user, ip), relay, now);
    }

    /** Creates the session of a user and address on first use. */
    method EnsureSession(user: string, ip: string, now: Time)
      requires Valid()
      modifies this`sessions, this`SessionValues
      ensures fresh(sessions.Values - old(sessions.Values)) && M.SessionKey(user, ip) in sessions
      ensures Valid()
      ensures SessionValues ==
              old(SessionValues)[M.SessionKey(user, ip) := M.SessionOf(old(SessionValues), user, ip, now)]
    {
      var key := M.SessionKey(user, ip);
      if key !in sessions {
        PutSession(key, M.Session(user, user, ip, "", now, 0, 0, 0, 0, false, M.Active));
      }
      SessionValues := SessionValues[key := SessionValues[key]];
    }

    method RecordAllocationDeleted(user: string, src: Option<string>, now: Time)
      requires Valid()
      modifies sessions.Values, this`SessionValues
      ensures Valid()
      ensures Model() == if src.None? then old(Model()) else M.AllocationDeletedStep(old(Model()), user, src.value, now)
    {
      if src.None? {
        return;
      }
      var key := M.SessionKey(user, src.value);
      if key in sessions {
        ReleaseSession(key, now);
      }
    }

    // ------------------------------------------------ deleting while ranging

    method DropSession(key: string)
      requires Valid() && key in sessions
      modifies this`sessions, this`SessionValues
      ensures sessions.Values <= old(sessions.Values)
      ensures Valid() && SessionValues == old(SessionValues) - {key}
    {
      sessions := sessions - {key};
      SessionValues := SessionValues - {key};
    }

    method DropClient(ip: string)
      requires Valid()
      modifies this`sessions, this`SessionValues
      ensures sessions.Values <= old(sessions.Values)
      ensures Valid() && SessionValues == M.Without(old(SessionValues), M.ByClient(old(SessionValues), Some(ip)))
    {
      ghost var was, gone := SessionValues, M.ByClient(SessionValues, Some(ip));
      var keys := sessions.Keys;
      while keys != {}
        invariant Valid() && sessions.Values <= old(sessions.Values) && keys <= sessions.Keys
        invariant SessionValues == M.Without(was, gone - keys)
      {
        var k :| k in keys;
        M.WithoutOneMore(was, gone, keys, k);
        keys := keys - {k};
        if sessions[k].clientIP == ip {
          DropSession(k);
        }
      }
    }

    method PutBlock(ip: string, until: Time)
      requires Valid()
      modifies this`reputations, this`ReputationValues, reputations.Values
      ensures fresh(reputations.Values - old(reputations.Values))
      ensures Valid()
      ensures ReputationValues ==
              old(ReputationValues)[ip := M.Blocking(M.ReputationOf(old(ReputationValues), ip), until)]
    {
      EnsureReputation(ip);
      ghost var rep := ReputationValues[ip];
      PutTwice(old(ReputationValues), ip, rep, M.Blocking(rep, until));
      SetBlock(ip, until);
    }

    method BlockIP(ip: string, duration: int, now: Time)
      requires Valid()
      modifies this`sessions, this`SessionValues, this`reputations, this`ReputationValues, reputations.Values
      ensures fresh(reputations.Values - old(reputations.Values))
      ensures sessions.Values <= old(sessions.Values)
      ensures Valid() && Model() == M.BlockStep(old(Model()), ip, duration, now)
    {
      if ip == "" {
        return;
      }
      PutBlock(ip, M.BlockEnd(duration, now));
      DropClient(ip);
    }

    method UnblockIP(ip: string)
      requires Valid()
      modifies reputations.Values, this`ReputationValues
      ensures Valid() && Model() == M.UnblockStep(old(Model()), ip)
    {
      if ip in reputations {
        ClearReputation(ip);
      }
    }

    method RevokeSession(sessionKey: string, now: Time)
      requires Valid()
      modifies this`sessions, this`SessionValues, this`revokedTokens
      ensures sessions.Values <= old(sessions.Values)
      ensures Valid() && Model() == M.RevokeStep(old(Model()), sessionKey, now)
    {
      var targetUser := M.RevokeTarget(sessionKey);
      revokedTokens := revokedTokens[sessionKey := now + M.BAN];
      if targetUser != "pingo" && targetUser != "" {
        revokedTokens := revokedTokens[targetUser := now + M.BAN];
      }
      DropRevoked(sessionKey);
    }

    /** The loop after the deletion finds nothing: a session is filed under its own user and address. */
    method DropRevoked(sessionKey: string)
      requires Valid()
      modifies this`sessions, this`SessionValues
      ensures sessions.Values <= old(sessions.Values)
      ensures Valid()
      ensures SessionValues == M.Without(old(SessionValues), M.RevokedSessions(old(SessionValues), sessionKey))
    {
      assert forall k :: k in sessions ==> M.SessionKey(SessionValues[k].username, SessionValues[k].clientIP) == k;
      if sessionKey in sessions {
        DropSession(sessionKey);
      }
      var keys := sessions.Keys;
      while keys != {}
        invariant keys <= sessions.Keys
      {
        var k :| k in keys;
        keys := keys - {k};
        if k == sessionKey || M.SessionKey(sessions[k].username, sessions[k].clientIP) == sessionKey {
          assert false;
        }
      }
    }

    method CleanupExpired(now: Time)
      requires Valid()
      modifies this`sessions, this`SessionValues
      ensures sessions.Values <= old(sessions.Values)
      ensures Valid() && SessionValues == M.Without(old(SessionValues), M.Expired(old(SessionValues), now))
    {
      ghost var was, gone := SessionValues, M.Expired(SessionValues, now);
      var keys := sessions.Keys;
      while keys != {}
        invariant Valid() && sessions.Values <= old(sessions.Values) && keys <= sessions.Keys
        invariant SessionValues == M.Without(was, gone - keys)
      {
        var k :| k in keys;
        M.WithoutOneMore(was, gone, keys, k);
        keys := keys - {k};
        var s := sessions[k];
        if s.status == M.Closed && now > s.lastActivity + M.CLOSED_LINGER {
          DropSession(k);
        } else if now > s.expiresAt && now > s.lastActivity + M.IDLE_LINGER {
          DropSession(k);
        }
      }
    }
  }
}
