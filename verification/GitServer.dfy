/** The Git server's claim registry (git_server.go): maps of claim records that are mutated through
    pointers and written to disk after every change. Every method is proved to be the corresponding
    step of GitModel. */
module GitServer {
  import opened Text
  import opened Wrappers
  import M = GitModel
  import T = GitToken

  class PeerClaim {
    var peerID: string
    var tokenHash: string
    var claimedAt: int
    var expiresAt: int
    var clientIP: string
    var lastUsed: int
    var revoked: bool

    constructor (c: M.Claim)
      ensures Value() == c
    {
      peerID, tokenHash, claimedAt, expiresAt := c.peer, c.tokenHash, c.claimedAt, c.expiresAt;
      clientIP, lastUsed, revoked := c.clientIP, c.lastUsed, c.revoked;
    }

    function Value(): M.Claim
      reads this
    {
      M.Claim(peerID, tokenHash, claimedAt, expiresAt, clientIP, lastUsed, revoked)
    }
  }

  class GitServer {
    const ctx: M.Context
    var claims: map<string, PeerClaim>
    var revokedPeers: map<string, int>
    /** The contents of the claims file. */
    var disk: Option<map<string, M.Claim>>

    /** No two peers share a claim record. */
    ghost predicate Valid()
      reads this`claims
    {
      forall a, b :: a in claims && b in claims && a != b ==> claims[a] != claims[b]
    }

    function Claims(): map<string, M.Claim>
      reads this`claims, claims.Values
    {
      map p | p in claims :: claims[p].Value()
    }

    ghost function Model(): M.GitState
      reads this, claims.Values
    {
      M.GitState(Claims(), revokedPeers, disk)
    }

    /** A new process over an existing claims file: NewGitServer and `loadClaims`. */
    constructor (ctx: M.Context, disk: Option<map<string, M.Claim>>, now: int)
      ensures Valid() && fresh(claims.Values)
      ensures Model() == M.RestartStep(M.GitState(map[], map[], disk), now)
    {
      this.ctx, this.disk := ctx, disk;
      claims, revokedPeers := map[], map[];
      new;
      if disk.Some? {
        DecodeClaims(disk.value);
        ListRevoked(now);
      }
    }

    /** json.Unmarshal into the claims map. */
    method DecodeClaims(loaded: map<string, M.Claim>)
      requires claims == map[]
      modifies this`claims
      ensures Valid() && fresh(claims.Values) && Claims() == loaded
    {
      var peers := loaded.Keys;
      while peers != {}
        invariant Valid() && fresh(claims.Values) && peers <= loaded.Keys
        invariant Claims() == map p | p in loaded && p !in peers :: loaded[p]
      {
        var p :| p in peers;
        peers := peers - {p};
        InsertClaim(p, loaded[p]);
      }
    }

    /** The loop of `loadClaims`. */
    method ListRevoked(now: int)
      requires revokedPeers == map[]
      modifies this`revokedPeers
      ensures revokedPeers == map p | p in Claims() && Claims()[p].revoked :: now
    {
      var peers := claims.Keys;
      while peers != {}
        invariant peers <= claims.Keys
        invariant revokedPeers == map p | p in claims && p !in peers && claims[p].revoked :: now
      {
        var p :| p in peers;
        peers := peers - {p};
        if claims[p].revoked {
          revokedPeers := revokedPeers[p := now];
        }
      }
    }

    method InsertClaim(peer: string, c: M.Claim)
      requires Valid()
      modifies this`claims
      ensures Valid() && fresh(claims.Values - old(claims.Values))
      ensures Claims() == old(Claims())[peer := c]
    {
      var claim := new PeerClaim(c);
      claims := claims[peer := claim];
    }

    method RemoveClaim(peer: string)
      requires Valid()
      modifies this`claims
      ensures Valid() && claims.Values <= old(claims.Values)
      ensures Claims() == old(Claims()) - {peer}
    {
      claims := claims - {peer};
    }

    method SetRevokedFlag(peer: string, revoked: bool)
      requires Valid()
      modifies claims.Values
      ensures Claims() == M.SetRevoked(old(Claims()), peer, revoked)
    {
      if peer in claims {
        claims[peer].revoked := revoked;
      }
    }

    method TouchClaim(peer: string, now: int)
      requires Valid() && peer in claims
      modifies claims.Values
      ensures Claims() == old(Claims())[peer := old(Claims())[peer].(lastUsed := now)]
    {
      claims[peer].lastUsed := now;
    }

    method SaveClaimsLocked()
      modifies this`disk
      ensures disk == Some(Claims())
    {
      disk := Some(Claims());
    }

    method RevokePeer(peerID: string, now: int)
      requires Valid()
      modifies this`revokedPeers, this`disk, claims.Values
      ensures Valid() && Model() == M.RevokeStep(old(Model()), peerID, now)
    {
      var clean := TrimSpace(peerID);
      revokedPeers := revokedPeers[clean := now];
      SetRevokedFlag(clean, true);
      SaveClaimsLocked();
    }

    method UnrevokePeer(peerID: string)
      requires Valid()
      modifies this`revokedPeers, this`disk, claims.Values
      ensures Valid() && Model() == M.UnrevokeStep(old(Model()), peerID)
    {
      var clean := TrimSpace(peerID);
      revokedPeers := revokedPeers - {clean};
      SetRevokedFlag(clean, false);
      SaveClaimsLocked();
    }

    method UnlockPeerClaim(peerID: string)
      requires Valid()
      modifies this`claims, this`disk
      ensures Valid() && Model() == M.UnlockStep(old(Model()), peerID)
    {
      RemoveClaim(TrimSpace(peerID));
      SaveClaimsLocked();
    }

    method IsPeerRevoked(peerID: string) returns (revoked: bool)
      ensures revoked == M.IsPeerRevoked(Model(), peerID)
    {
      var clean := TrimSpace(peerID);
      if clean in claims && claims[clean].revoked {
        return true;
      }
      return clean in revokedPeers;
    }

    /** The list shown to administrators: every revoked peer once, nobody else. */
    method GetRevokedPeers() returns (list: seq<string>)
      ensures forall i, j :: 0 <= i < j < |list| ==> list[i] != list[j]
      ensures forall p :: p in list <==> p in revokedPeers || (p in claims && claims[p].revoked)
      ensures forall p :: M.IsPeerRevoked(Model(), p) <==> TrimSpace(p) in list
    {
      var revokedMap: set<string> := {};
      var keys := revokedPeers.Keys;
      while keys != {}
        invariant keys <= revokedPeers.Keys && revokedMap == revokedPeers.Keys - keys
      {
        var p :| p in keys;
        keys := keys - {p};
        revokedMap := revokedMap + {p};
      }
      keys := claims.Keys;
      while keys != {}
        invariant keys <= claims.Keys && revokedPeers.Keys <= revokedMap
        invariant forall p :: p in revokedMap && p !in revokedPeers ==> p in claims && claims[p].revoked
        invariant forall p :: p in claims && p !in keys && claims[p].revoked ==> p in revokedMap
      {
        var p :| p in keys;
        keys := keys - {p};
        if claims[p].revoked {
          revokedMap := revokedMap + {p};
        }
      }
      list := [];
      var rest := revokedMap;
      while rest != {}
        invariant rest <= revokedMap
        invariant forall p :: p in list <==> p in revokedMap && p !in rest
        invariant forall i, j :: 0 <= i < j < |list| ==> list[i] != list[j]
      {
        var p :| p in rest;
        rest := rest - {p};
        list := list + [p];
      }
    }

    /** A copy of the claim, or None. */
    method GetPeerClaim(peerID: string) returns (r: Option<M.Claim>)
      ensures r == M.GetPeerClaim(Model(), TrimSpace(peerID))
    {
      var clean := TrimSpace(peerID);
      return if clean in claims then Some(claims[clean].Value()) else None;
    }

    /** The checks of HandleGitCredentials; None means that a token is issued. */
    method Refuse(a: M.Action) returns (r: Option<M.Reply>)
      requires a.Credentials?
      ensures r == M.Refusal(ctx, Model(), a)
    {
      var peerID := TrimSpace(a.peer);
      if peerID == "" {
        return Some(M.NeedPeer);
      }
      TrimIdempotent(a.peer, IsSpace);
      var revoked := IsPeerRevoked(peerID);
      if revoked {
        return Some(M.Forbidden);
      }
      var claim := GetPeerClaim(peerID);
      if claim.Some? && claim.value.tokenHash != "" {
        var provided := M.Provided(a.query, a.bearer);
        var isOwner := provided != "" && ctx.HashToken(provided) == claim.value.tokenHash;
        if !a.isAdmin && !isOwner {
          return Some(M.Conflict);
        }
      }
      return None;
    }

    method HandleGitCredentials(a: M.Action, now: int) returns (r: M.Reply)
      requires Valid() && a.Credentials?
      modifies this`claims, this`disk
      ensures Valid() && fresh(claims.Values - old(claims.Values))
      ensures (Model(), r) == M.CredentialsStep(ctx, old(Model()), a, now)
    {
      var refusal := Refuse(a);
      if refusal.Some? {
        return refusal.value;
      }
      var peerID := TrimSpace(a.peer);
      var token := T.Generate(ctx.mac, ctx.secret, peerID, a.expiry, a.nonce);
      InsertClaim(peerID, M.NewClaim(ctx, peerID, token, a.expiry, a.clientIP, now));
      SaveClaimsLocked();
      return M.Issued(token);
    }

    /** The locked section of `authenticateRequest`. */
    method UseToken(username: string, password: string, now: int) returns (ok: bool)
      requires Valid()
      modifies this`disk, claims.Values
      ensures (Model(), ok) == M.UseToken(ctx, old(Model()), username, password, now)
    {
      if username !in claims {
        return true;
      }
      if claims[username].revoked || ctx.HashToken(password) != claims[username].tokenHash {
        return false;
      }
      TouchClaim(username, now);
      SaveClaimsLocked();
      return true;
    }

    method AuthenticateRequest(l: M.Login, now: int) returns (ok: bool)
      requires Valid()
      modifies this`disk, claims.Values
      ensures (Model(), if ok then M.Accepted else M.Rejected) == M.AuthenticateStep(ctx, old(Model()), l, now)
    {
      var username, password := TrimSpace(l.username), TrimSpace(l.password);
      if username == "" || password == "" {
        return false;
      }
      var revoked := IsPeerRevoked(username);
      TrimIdempotent(l.username, IsSpace);
      if revoked {
        return false;
      }
      var isValidGitToken := T.Validate(ctx.mac, ctx.secret, username, password, now);
      if isValidGitToken {
        var usable := UseToken(username, password, now);
        if !usable {
          return false;
        }
      }
      return M.Allowed(isValidGitToken, username, l);
    }

    /** `removed` says whether the directory could be deleted. */
    method DeleteRepo(namespace: string, removed: bool) returns (r: M.Reply)
      requires Valid()
      modifies this
      ensures Valid() && claims.Values <= old(claims.Values)
      ensures (Model(), r) == M.DeleteStep(old(Model()), namespace, removed)
    {
      var clean := TrimSpace(namespace);
      if M.BadName(clean) || !removed {
        return M.BadNamespace;
      }
      RemoveClaim(clean);
      revokedPeers := revokedPeers - {clean};
      SaveClaimsLocked();
      return M.Done;
    }
  }
}
