/** Git revocation at the grain of single critical sections (git_server.go). HandleGitCredentials
    takes the lock three times (revocation check, claim lookup, write), so other requests can come in
    between; the write may install an unrevoked claim for a peer revoked in the meantime. The process may
    also stop and start again at any point. */
module GitLocks {
  import opened GitModel
  import opened Text
  import opened Wrappers

  /** A credentials request between two of its critical sections. */
  datatype Phase = Checked(peer: string) | Cleared(peer: string)

  datatype World = World(git: GitState, pending: map<nat, Phase>)

  /** One critical section. `request` identifies a credentials request in flight. */
  datatype Section =
    | Check(request: nat, peer: string)
    | Look(request: nat, isAdmin: bool, provided: string)
    | Write(request: nat, claim: Claim)
    | Touch(peer: string)
    | RevokeS(peer: string)
    | UnrevokeS(peer: string)
    | UnlockS(peer: string)
    | DeleteS(namespace: string, removed: bool)
    | RestartS

  function Step(c: Context, w: World, s: Section, now: int): World {
    match s
    case Check(r, peer) =>
      var p := TrimSpace(peer);
      if p == "" || r in w.pending || IsPeerRevoked(w.git, p) then w
      else w.(pending := w.pending[r := Checked(p)])
    case Look(r, isAdmin, provided) =>
      if r !in w.pending || !w.pending[r].Checked? then w
      else
        var p := w.pending[r].peer;
        if MayIssue(c, GetPeerClaim(w.git, p), isAdmin, provided)
        then w.(pending := w.pending[r := Cleared(p)])
        else w.(pending := w.pending - {r})
    case Write(r, claim) =>
      if r !in w.pending || !w.pending[r].Cleared? || claim.revoked then w
      else
        World(Save(w.git.(claims := w.git.claims[w.pending[r].peer := claim])), w.pending - {r})
    case Touch(p) =>
      if p !in w.git.claims then w
      else w.(git := Save(w.git.(claims := w.git.claims[p := w.git.claims[p].(lastUsed := now)])))
    case RevokeS(p) => w.(git := RevokeStep(w.git, p, now))
    case UnrevokeS(p) => w.(git := UnrevokeStep(w.git, p))
    case UnlockS(p) => w.(git := UnlockStep(w.git, p))
    case DeleteS(ns, removed) => w.(git := DeleteStep(w.git, ns, removed).0)
    case RestartS => World(RestartStep(w.git, now), map[])
  }

  datatype Timed = Timed(now: int, section: Section)

  function State(c: Context, ts: seq<Timed>, n: nat): World
    requires n <= |ts|
  {
    if n == 0 then World(Init(), map[]) else Step(c, State(c, ts, n - 1), ts[n - 1].section, ts[n - 1].now)
  }

  /** The section restores the access of `p`. */
  predicate Restores(s: Section, p: string) {
    match s
    case UnrevokeS(q) => TrimSpace(q) == p
    case DeleteS(ns, removed) => TrimSpace(ns) == p && removed && !BadName(p)
    case _ => false
  }

  predicate Bans(s: Section, p: string) {
    s.RevokeS? && TrimSpace(s.peer) == p
  }

  /** The claim of `p` is there and carries the revoked flag. */
  predicate Flagged(g: GitState, p: string) {
    p in g.claims && g.claims[p].revoked
  }

  /** Section number `i` ends a revocation of `p`: it restores `p`, or is a restart that does not find the
      flag. */
  predicate Lifts(c: Context, ts: seq<Timed>, i: nat, p: string)
    requires i < |ts|
  {
    Restores(ts[i].section, p) || (ts[i].section.RestartS? && !Flagged(State(c, ts, i).git, p))
  }

  /** Section number `i` revoked `p` and nothing has lifted that since. */
  ghost predicate BannedSince(c: Context, ts: seq<Timed>, n: nat, i: nat, p: string)
    requires n <= |ts|
  {
    i < n && Bans(ts[i].section, p) && forall j :: i < j < n ==> !Lifts(c, ts, j, p)
  }

  ghost predicate Banned(c: Context, ts: seq<Timed>, n: nat, p: string)
    requires n <= |ts|
  {
    exists i: nat :: BannedSince(c, ts, n, i, p)
  }

  lemma BannedStep(c: Context, ts: seq<Timed>, n: nat, p: string)
    requires n < |ts|
    ensures Banned(c, ts, n + 1, p) <==> Bans(ts[n].section, p) || (Banned(c, ts, n, p) && !Lifts(c, ts, n, p))
  {
    if i: nat :| BannedSince(c, ts, n, i, p) {
      if !Lifts(c, ts, n, p) {
        assert BannedSince(c, ts, n + 1, i, p);
      }
    }
    if Bans(ts[n].section, p) {
      assert BannedSince(c, ts, n + 1, n, p);
    }
    if Banned(c, ts, n + 1, p) {
      var i: nat :| BannedSince(c, ts, n + 1, i, p);
      if i < n {
        assert BannedSince(c, ts, n, i, p);
      }
    }
  }

  /** The file holds the claims, and a revoked claim always has its peer in `revokedPeers`. */
  ghost predicate InOrder(g: GitState) {
    && (g.disk == Some(g.claims) || (g.disk == None && g.claims == map[]))
    && (forall p :: Flagged(g, p) ==> p in g.revoked)
  }

  lemma SectionEffect(c: Context, w: World, s: Section, now: int, p: string)
    requires InOrder(w.git)
    ensures var g := Step(c, w, s, now).git;
            && InOrder(g)
            && (p in g.revoked <==>
                  || Bans(s, p)
                  || (p in w.git.revoked && !Restores(s, p) && (s.RestartS? ==> Flagged(w.git, p))))
  {
    match s {
      case Check(_, _) =>
      case Look(_, _, _) =>
      case Write(_, _) =>
      case Touch(_) =>
      case RevokeS(_) =>
      case UnrevokeS(_) =>
      case UnlockS(_) =>
      case DeleteS(_, _) =>
      case RestartS =>
    }
  }

  /** Revocation is stable under every interleaving: a peer is revoked exactly when an administrator
      revoked it, has not restored it since, and no restart found its claim without the flag. */
  lemma {:induction false} RevocationIsStable(c: Context, ts: seq<Timed>, n: nat, p: string)
    requires n <= |ts|
    ensures InOrder(State(c, ts, n).git)
    ensures p in State(c, ts, n).git.revoked <==> Banned(c, ts, n, p)
    ensures TrimSpace(p) == p ==> (IsPeerRevoked(State(c, ts, n).git, p) <==> Banned(c, ts, n, p))
  {
    if n > 0 {
      var t := ts[n - 1];
      RevocationIsStable(c, ts, n - 1, p);
      SectionEffect(c, State(c, ts, n - 1), t.section, t.now, p);
      BannedStep(c, ts, n - 1, p);
    }
  }

  // ----------------------------------------------- what a restart remembers

  /** Section number `i` revoked `p` while `p` was claimed. */
  predicate Marks(c: Context, ts: seq<Timed>, i: nat, p: string)
    requires i < |ts|
  {
    Bans(ts[i].section, p) && p in State(c, ts, i).git.claims
  }

  /** Section number `i` takes the flag away: `p` is restored, or its claim is released or replaced. */
  predicate Unmarks(c: Context, ts: seq<Timed>, i: nat, p: string)
    requires i < |ts|
  {
    var s := ts[i].section;
    || Restores(s, p)
    || (s.UnlockS? && TrimSpace(s.peer) == p)
    || (s.Write? && Lands(State(c, ts, i), s, p))
  }

  /** The write of a request in flight puts a claim in place for `p`. */
  predicate Lands(w: World, s: Section, p: string)
    requires s.Write?
  {
    s.request in w.pending && w.pending[s.request] == Cleared(p) && !s.claim.revoked
  }

  ghost predicate MarkedSince(c: Context, ts: seq<Timed>, n: nat, i: nat, p: string)
    requires n <= |ts|
  {
    i < n && Marks(c, ts, i, p) && forall j :: i < j < n ==> !Unmarks(c, ts, j, p)
  }

  ghost predicate Marked(c: Context, ts: seq<Timed>, n: nat, p: string)
    requires n <= |ts|
  {
    exists i: nat :: MarkedSince(c, ts, n, i, p)
  }

  lemma MarkedStep(c: Context, ts: seq<Timed>, n: nat, p: string)
    requires n < |ts|
    ensures Marked(c, ts, n + 1, p) <==> Marks(c, ts, n, p) || (Marked(c, ts, n, p) && !Unmarks(c, ts, n, p))
  {
    if i: nat :| MarkedSince(c, ts, n, i, p) {
      if !Unmarks(c, ts, n, p) {
        assert MarkedSince(c, ts, n + 1, i, p);
      }
    }
    if Marks(c, ts, n, p) {
      assert MarkedSince(c, ts, n + 1, n, p);
    }
    if Marked(c, ts, n + 1, p) {
      var i: nat :| MarkedSince(c, ts, n + 1, i, p);
      if i < n {
        assert MarkedSince(c, ts, n, i, p);
      }
    }
  }

  lemma FlagEffect(c: Context, w: World, s: Section, now: int, p: string)
    requires InOrder(w.git)
    ensures var unmarks := Restores(s, p) || (s.UnlockS? && TrimSpace(s.peer) == p) || (s.Write? && Lands(w, s, p));
            Flagged(Step(c, w, s, now).git, p) ==
              ((Bans(s, p) && p in w.git.claims) || (Flagged(w.git, p) && !unmarks))
  {
    match s {
      case Check(_, _) =>
      case Look(_, _, _) =>
      case Write(_, _) =>
      case Touch(_) =>
      case RevokeS(_) =>
      case UnrevokeS(_) =>
      case UnlockS(_) =>
      case DeleteS(_, _) =>
      case RestartS =>
    }
  }

  /** The flag of a claim, which is what reaches the file, is the history of the claim itself. */
  lemma {:induction false} FlagIsHistory(c: Context, ts: seq<Timed>, n: nat, p: string)
    requires n <= |ts|
    ensures Flagged(State(c, ts, n).git, p) <==> Marked(c, ts, n, p)
  {
    if n > 0 {
      var t := ts[n - 1];
      FlagIsHistory(c, ts, n - 1, p);
      RevocationIsStable(c, ts, n - 1, p);
      FlagEffect(c, State(c, ts, n - 1), t.section, t.now, p);
      MarkedStep(c, ts, n - 1, p);
    }
  }

  /** Exactly these revocations survive a restart: those made while the peer was claimed and not followed
      by a restoration, by an unlock, or by the write of a request that was already in flight. */
  lemma RevocationsThatSurvive(c: Context, ts: seq<Timed>, n: nat, p: string, now: int)
    requires n <= |ts| && TrimSpace(p) == p
    ensures IsPeerRevoked(Step(c, State(c, ts, n), RestartS, now).git, p) <==> Marked(c, ts, n, p)
  {
    RevocationIsStable(c, ts, n, p);
    FlagIsHistory(c, ts, n, p);
  }

  /** Five sections that end with a forgotten revocation: the peer is revoked after its request was
      cleared, the request still writes its claim, and the process starts again. */
  function LateWrite(p: string, claim: Claim): seq<Timed> {
    [ Timed(0, Check(0, p)), Timed(0, Look(0, false, "")), Timed(0, RevokeS(p)), Timed(0, Write(0, claim)),
      Timed(0, RestartS) ]
  }

  lemma LateWriteIsForgotten(c: Context, p: string, claim: Claim)
    requires p != "" && TrimSpace(p) == p && !claim.revoked
    ensures IsPeerRevoked(State(c, LateWrite(p, claim), 3).git, p)
    ensures IsPeerRevoked(State(c, LateWrite(p, claim), 4).git, p)
    ensures !IsPeerRevoked(State(c, LateWrite(p, claim), 5).git, p)
  {
    var ts := LateWrite(p, claim);
    var w := World(Init(), map[0 := Cleared(p)]);
    assert State(c, ts, 1) == World(Init(), map[0 := Checked(p)]);
    assert State(c, ts, 2) == w;
    assert State(c, ts, 3) == w.(git := RevokeStep(Init(), p, 0));
    assert State(c, ts, 4).git.claims == map[p := claim];
    assert State(c, ts, 4).git.disk == Some(map[p := claim]);
    assert State(c, ts, 5) == Step(c, State(c, ts, 4), RestartS, 0);
  }

  /** A credentials request that starts while its peer is revoked gets nowhere. */
  lemma RevokedPeersGetNothing(c: Context, ts: seq<Timed>, n: nat, request: nat, peer: string, now: int)
    requires n <= |ts| && Banned(c, ts, n, TrimSpace(peer))
    ensures Step(c, State(c, ts, n), Check(request, peer), now) == State(c, ts, n)
  {
    RevocationIsStable(c, ts, n, TrimSpace(peer));
    TrimIdempotent(peer, IsSpace);
  }

  /** Run without interruption, the three sections are one CredentialsStep of GitModel. */
  lemma UninterruptedRequest(c: Context, w: World, r: nat, a: Action, now: int)
    requires a.Credentials? && r !in w.pending
    ensures var (git, reply) := CredentialsStep(c, w.git, a, now);
            var w1 := Step(c, w, Check(r, a.peer), now);
            var w2 := Step(c, w1, Look(r, a.isAdmin, Provided(a.query, a.bearer)), now);
            if reply.Issued? then
              var claim := NewClaim(c, TrimSpace(a.peer), reply.token, a.expiry, a.clientIP, now);
              Step(c, w2, Write(r, claim), now) == World(git, w.pending)
            else w2 == World(git, w.pending)
  {
    TrimIdempotent(a.peer, IsSpace);
    assert w.pending[r := Checked(TrimSpace(a.peer))] - {r} == w.pending;
    assert w.pending[r := Checked(TrimSpace(a.peer))][r := Cleared(TrimSpace(a.peer))] - {r} == w.pending;
  }

  /** The locked section of a Git request is the use of a token of GitModel: refused without effect for a
      flagged claim or another token, nothing for an unclaimed peer, a time stamp otherwise. */
  lemma TokenUseIsOneSection(c: Context, w: World, p: string, token: string, now: int)
    ensures var (git, ok) := UseToken(c, w.git, p, token, now);
            && ok == (p in w.git.claims ==> !w.git.claims[p].revoked && c.HashToken(token) == w.git.claims[p].tokenHash)
            && World(git, w.pending) == if ok then Step(c, w, Touch(p), now) else w
  {
  }
}
