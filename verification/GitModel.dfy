/** First-claim ownership of Git peers (git_server.go): claims, token rotation, revocation, unlocking,
    deletion and restart. Here one HTTP request is one step; GitLocks.dfy looks at finer steps.
    Clock readings are Unix seconds. */
module GitModel {
  import opened Text
  import opened Wrappers
  import T = GitToken

  datatype Claim = Claim(
    peer: string, tokenHash: string, claimedAt: int, expiresAt: int, clientIP: string, lastUsed: int, revoked: bool)

  /** `disk` is the claims file, None before the first write. */
  datatype GitState = GitState(
    claims: map<string, Claim>, revoked: map<string, int>, disk: Option<map<string, Claim>>)

  const DIGEST_SIZE: nat := 32

  /** The cryptography and the configured secret: parameters of every run. */
  datatype Context = Context(mac: T.Mac, sha: string -> seq<byte>, secret: string) {
    /** HashGitToken. */
    function HashToken(token: string): string {
      Hex(sha(token))
    }

    /** What the theorems need of SHA-256: digests are 32 bytes long, and no two of the tokens in
        question collide. SoundHashExists shows that this can be met. */
    ghost predicate SoundHash(tokens: set<string>) {
      && (forall t :: |sha(t)| == DIGEST_SIZE)
      && (forall t, u :: t in tokens && u in tokens && sha(t) == sha(u) ==> t == u)
    }
  }

  datatype Action =
    | Credentials(peer: string, isAdmin: bool, query: string, bearer: Option<string>,
                  expiry: int, nonce: seq<byte>, clientIP: string)
    | Authenticate(login: Login)
    | Revoke(peer: string)
    | Unrevoke(peer: string)
    | Unlock(peer: string)
    | Delete(namespace: string, removed: bool)
    | Restart

  /** A Git request's credentials; the flags say whether the password is also the appliance
      password, the administrator password or a live session token. */
  datatype Login = Login(
    username: string, password: string, repoName: string, appliance: bool, admin: bool, session: bool)

  datatype Event = Event(now: int, act: Action)

  datatype Reply = NeedPeer | Forbidden | Conflict | Issued(token: string) | Accepted | Rejected | Done | BadNamespace

  // -------------------------------------------------------------- revocation

  function Init(): GitState {
    GitState(map[], map[], None)
  }

  function Save(s: GitState): GitState {
    s.(disk := Some(s.claims))
  }

  predicate IsPeerRevoked(s: GitState, peer: string) {
    var clean := TrimSpace(peer);
    (clean in s.claims && s.claims[clean].revoked) || clean in s.revoked
  }

  function SetRevoked(claims: map<string, Claim>, peer: string, revoked: bool): map<string, Claim> {
    if peer in claims then claims[peer := claims[peer].(revoked := revoked)] else claims
  }

  function RevokeStep(s: GitState, peer: string, now: int): GitState {
    var clean := TrimSpace(peer);
    Save(s.(revoked := s.revoked[clean := now], claims := SetRevoked(s.claims, clean, true)))
  }

  function UnrevokeStep(s: GitState, peer: string): GitState {
    var clean := TrimSpace(peer);
    Save(s.(revoked := s.revoked - {clean}, claims := SetRevoked(s.claims, clean, false)))
  }

  function UnlockStep(s: GitState, peer: string): GitState {
    Save(s.(claims := s.claims - {TrimSpace(peer)}))
  }

  /** The names DeleteRepo refuses: they would not be a direct child of the repository root. */
  predicate BadName(name: string) {
    || name == "" || name == "." || name == ".." || '/' in name || '\\' in name
    || (|name| >= 2 && name[..2] == "..")
  }

  function DeleteStep(s: GitState, namespace: string, removed: bool): (GitState, Reply) {
    var clean := TrimSpace(namespace);
    if BadName(clean) || !removed then (s, BadNamespace)
    else (Save(s.(claims := s.claims - {clean}, revoked := s.revoked - {clean})), Done)
  }

  /** A new process: `loadClaims` reads the file back and lists the revoked claims. */
  function RestartStep(s: GitState, now: int): GitState {
    var claims := if s.disk.Some? then s.disk.value else map[];
    s.(claims := claims, revoked := map p | p in claims && claims[p].revoked :: now)
  }

  // ------------------------------------------------------------------ claims

  function Provided(query: string, bearer: Option<string>): string {
    if TrimSpace(query) != "" then TrimSpace(query)
    else if bearer.Some? then TrimSpace(bearer.value)
    else ""
  }

  /** The first-claim lock: a claimed peer is re-issued only to an administrator or to a presenter of
      the claimed token. */
  predicate MayIssue(c: Context, claim: Option<Claim>, isAdmin: bool, provided: string) {
    claim.Some? && claim.value.tokenHash != "" ==>
      isAdmin || (provided != "" && c.HashToken(provided) == claim.value.tokenHash)
  }

  function GetPeerClaim(s: GitState, peer: string): Option<Claim> {
    if peer in s.claims then Some(s.claims[peer]) else None
  }

  function NewClaim(c: Context, peer: string, token: string, expiry: int, clientIP: string, now: int): Claim {
    Claim(peer, c.HashToken(token), now, expiry, clientIP, now, false)
  }

  /** Why a credentials request is turned away, if it is. */
  function Refusal(c: Context, s: GitState, a: Action): Option<Reply>
    requires a.Credentials?
  {
    var peer := TrimSpace(a.peer);
    if peer == "" then Some(NeedPeer)
    else if IsPeerRevoked(s, peer) then Some(Forbidden)
    else if !MayIssue(c, GetPeerClaim(s, peer), a.isAdmin, Provided(a.query, a.bearer)) then Some(Conflict)
    else None
  }

  function CredentialsStep(c: Context, s: GitState, a: Action, now: int): (GitState, Reply)
    requires a.Credentials?
  {
    var refusal := Refusal(c, s, a);
    if refusal.Some? then (s, refusal.value)
    else
      var peer := TrimSpace(a.peer);
      var token := T.Generate(c.mac, c.secret, peer, a.expiry, a.nonce);
      (Save(s.(claims := s.claims[peer := NewClaim(c, peer, token, a.expiry, a.clientIP, now)])), Issued(token))
  }

  predicate IsSlash(c: char) {
    c == '/'
  }

  /** The first path segment when there is more than one, else "". */
  function Namespace(repoName: string): string {
    var parts := Split(Trim(repoName, IsSlash), '/');
    if |parts| > 1 then parts[0] else ""
  }

  /** An HMAC-valid token must be the claimed one; using it is recorded. False means refused. */
  function UseToken(c: Context, s: GitState, username: string, password: string, now: int): (GitState, bool) {
    if username !in s.claims then (s, true)
    else
      var claim := s.claims[username];
      if claim.revoked || c.HashToken(password) != claim.tokenHash then (s, false)
      else (Save(s.(claims := s.claims[username := claim.(lastUsed := now)])), true)
  }

  /** Some credential is good, and a repository in a namespace is the user's own or the user is admin. */
  predicate Allowed(byToken: bool, username: string, l: Login) {
    var ns := Namespace(l.repoName);
    && (byToken || l.appliance || l.admin || l.session)
    && (ns == "" || l.admin || username == ns)
  }

  function AuthenticateStep(c: Context, s: GitState, l: Login, now: int): (GitState, Reply) {
    var username, password := TrimSpace(l.username), TrimSpace(l.password);
    if username == "" || password == "" || IsPeerRevoked(s, username) then (s, Rejected)
    else
      var byToken := T.Validate(c.mac, c.secret, username, password, now);
      var (s', usable) := if byToken then UseToken(c, s, username, password, now) else (s, true);
      (s', if usable && Allowed(byToken, username, l) then Accepted else Rejected)
  }

  function Step(c: Context, s: GitState, e: Event): (GitState, Reply) {
    match e.act
    case Credentials(_, _, _, _, _, _, _) => CredentialsStep(c, s, e.act, e.now)
    case Authenticate(l) => AuthenticateStep(c, s, l, e.now)
    case Revoke(p) => (RevokeStep(s, p, e.now), Done)
    case Unrevoke(p) => (UnrevokeStep(s, p), Done)
    case Unlock(p) => (UnlockStep(s, p), Done)
    case Delete(ns, removed) => DeleteStep(s, ns, removed)
    case Restart => (RestartStep(s, e.now), Done)
  }

  /** Request number `i` leads from state `ss[i]` to state `ss[i + 1]`. */
  ghost predicate StepAt(c: Context, ss: seq<GitState>, es: seq<Event>, i: nat)
    requires i < |es| < |ss|
  {
    ss[i + 1] == Step(c, ss[i], es[i]).0
  }

  /** A run from an empty server, with the states before, between and after its requests. */
  ghost predicate Run(c: Context, ss: seq<GitState>, es: seq<Event>) {
    |ss| == |es| + 1 && ss[0] == Init() && forall i :: 0 <= i < |es| ==> StepAt(c, ss, es, i)
  }

  /** Every sequence of requests has its run. */
  lemma {:induction false} RunExists(c: Context, es: seq<Event>) returns (ss: seq<GitState>)
    ensures Run(c, ss, es)
  {
    if es == [] {
      ss := [Init()];
    } else {
      var n := |es| - 1;
      var before := RunExists(c, es[..n]);
      ss := before + [Step(c, before[n], es[n]).0];
      forall i | 0 <= i < |es|
        ensures StepAt(c, ss, es, i)
      {
        assert i < n ==> StepAt(c, before, es[..n], i);
      }
    }
  }

  // ------------------------------------------------- effects of single requests

  /** A credentials request changes nothing, or writes a fresh claim for an unrevoked peer. */
  lemma CredentialsEffect(c: Context, s: GitState, a: Action, now: int)
    requires a.Credentials?
    ensures var (s', r) := CredentialsStep(c, s, a, now);
            var p := TrimSpace(a.peer);
            if r.Issued? then
              && p != "" && TrimSpace(p) == p && !IsPeerRevoked(s, p)
              && MayIssue(c, GetPeerClaim(s, p), a.isAdmin, Provided(a.query, a.bearer))
              && r.token == T.Generate(c.mac, c.secret, p, a.expiry, a.nonce)
              && s' == Save(s.(claims := s.claims[p := NewClaim(c, p, r.token, a.expiry, a.clientIP, now)]))
            else s' == s
  {
    TrimIdempotent(a.peer, IsSpace);
  }

  /** A Git request changes nothing, or touches the time stamp of the user's own claim. */
  lemma AuthenticateEffect(c: Context, s: GitState, l: Login, now: int)
    ensures var (s', r) := AuthenticateStep(c, s, l, now);
            var u := TrimSpace(l.username);
            s' == s || (u in s.claims && s' == Save(s.(claims := s.claims[u := s.claims[u].(lastUsed := now)])))
  {}

  /** Claims are saved as they are made, and a claimed peer is revoked in both places or in neither. */
  ghost predicate Consistent(s: GitState) {
    && (s.disk == Some(s.claims) || (s.disk == None && s.claims == map[]))
    && (forall p :: p in s.claims ==> TrimSpace(p) == p && p != "" && (s.claims[p].revoked <==> p in s.revoked))
  }

  lemma ConsistentCredentials(c: Context, s: GitState, a: Action, now: int)
    requires Consistent(s) && a.Credentials?
    ensures Consistent(CredentialsStep(c, s, a, now).0)
  {
    var s' := CredentialsStep(c, s, a, now).0;
    CredentialsEffect(c, s, a, now);
    assert s' == s || s'.disk == Some(s'.claims);
  }

  lemma ConsistentAuthenticate(c: Context, s: GitState, l: Login, now: int)
    requires Consistent(s)
    ensures Consistent(AuthenticateStep(c, s, l, now).0)
  {
    var s' := AuthenticateStep(c, s, l, now).0;
    AuthenticateEffect(c, s, l, now);
    assert s' == s || s'.disk == Some(s'.claims);
  }

  lemma ConsistentStep(c: Context, s: GitState, e: Event)
    requires Consistent(s)
    ensures Consistent(Step(c, s, e).0)
  {
    match e.act {
      case Credentials(p, _, _, _, _, _, _) => ConsistentCredentials(c, s, e.act, e.now);
      case Authenticate(l) => ConsistentAuthenticate(c, s, l, e.now);
      case Revoke(p) => assert Consistent(RevokeStep(s, p, e.now));
      case Unrevoke(p) => assert Consistent(UnrevokeStep(s, p));
      case Unlock(p) => assert Consistent(UnlockStep(s, p));
      case Delete(ns, removed) => assert Consistent(DeleteStep(s, ns, removed).0);
      case Restart => assert Consistent(RestartStep(s, e.now));
    }
  }

  lemma {:induction false} AlwaysConsistent(c: Context, ss: seq<GitState>, es: seq<Event>, n: nat)
    requires n <= |es| && Run(c, ss, es)
    ensures Consistent(ss[n])
  {
    if n > 0 {
      AlwaysConsistent(c, ss, es, n - 1);
      assert StepAt(c, ss, es, n - 1);
      ConsistentStep(c, ss[n - 1], es[n - 1]);
    }
  }

  /** Claims survive a restart, and of the revoked peers exactly those with a claim do. */
  lemma RestartKeepsClaims(c: Context, ss: seq<GitState>, es: seq<Event>, n: nat, now: int)
    requires n <= |es| && Run(c, ss, es)
    ensures var before := ss[n];
            var after := Step(c, before, Event(now, Restart)).0;
            && after.claims == before.claims
            && after.revoked.Keys == before.revoked.Keys * before.claims.Keys
  {
    AlwaysConsistent(c, ss, es, n);
  }

  // -------------------------------------------------------- what a run means

  /** What one request did to the ownership of peers. */
  datatype Deed = Issue(peer: string, token: string) | Release(peer: string) | Neither

  function DeedOf(c: Context, s: GitState, e: Event): Deed {
    match e.act
    case Credentials(p, _, _, _, _, _, _) =>
      var r := CredentialsStep(c, s, e.act, e.now).1;
      if r.Issued? then Issue(TrimSpace(p), r.token) else Neither
    case Unlock(q) => Release(TrimSpace(q))
    case Delete(ns, removed) => if removed && !BadName(TrimSpace(ns)) then Release(TrimSpace(ns)) else Neither
    case _ => Neither
  }

  /** The deeds of a run. */
  function Journal(c: Context, ss: seq<GitState>, es: seq<Event>): (j: seq<Deed>)
    requires |es| < |ss|
    ensures |j| == |es| && forall i :: 0 <= i < |es| ==> j[i] == DeedOf(c, ss[i], es[i])
  {
    seq(|es|, i requires 0 <= i < |es| => DeedOf(c, ss[i], es[i]))
  }

  predicate Concerns(d: Deed, p: string) {
    !d.Neither? && d.peer == p
  }

  /** Deed number `i` issued `token` to `p`, and no later deed concerns `p`. */
  ghost predicate HeldSince(j: seq<Deed>, i: nat, p: string, token: string) {
    i < |j| && j[i] == Issue(p, token) && forall k :: i < k < |j| ==> !Concerns(j[k], p)
  }

  /** The token last issued for `p`, unless `p` was released afterwards. */
  function LastToken(j: seq<Deed>, p: string): Option<string> {
    if j == [] then None
    else
      var d := j[|j| - 1];
      if !Concerns(d, p) then LastToken(j[..|j| - 1], p)
      else if d.Issue? then Some(d.token)
      else None
  }

  lemma {:induction false} LastTokenIsHeld(j: seq<Deed>, p: string, token: string)
    ensures LastToken(j, p) == Some(token) <==> exists i: nat :: HeldSince(j, i, p, token)
  {
    if j != [] {
      var n := |j| - 1;
      LastTokenIsHeld(j[..n], p, token);
      if i: nat :| HeldSince(j[..n], i, p, token) {
        if !Concerns(j[n], p) {
          assert HeldSince(j, i, p, token);
        }
      }
      if i: nat :| HeldSince(j, i, p, token) {
        if i < n {
          assert HeldSince(j[..n], i, p, token);
        }
      }
      if j[n] == Issue(p, token) {
        assert HeldSince(j, n, p, token);
      }
    }
  }

  /** The hash stored for `p`, if `p` is claimed. */
  function Holding(s: GitState, p: string): Option<string> {
    if p in s.claims then Some(s.claims[p].tokenHash) else None
  }

  function HashOf(c: Context, token: Option<string>): Option<string> {
    if token.Some? then Some(c.HashToken(token.value)) else None
  }

  /** How one deed changes the hash stored for `p`. */
  function AfterDeed(c: Context, d: Deed, p: string, held: Option<string>): Option<string> {
    if !Concerns(d, p) then held else if d.Issue? then Some(c.HashToken(d.token)) else None
  }

  lemma HashFollowsDeed(c: Context, j: seq<Deed>, d: Deed, p: string)
    ensures HashOf(c, LastToken(j + [d], p)) == AfterDeed(c, d, p, HashOf(c, LastToken(j, p)))
  {
    assert (j + [d])[..|j|] == j;
  }

  lemma HoldingCredentials(c: Context, s: GitState, e: Event, p: string)
    requires e.act.Credentials?
    ensures Holding(CredentialsStep(c, s, e.act, e.now).0, p) == AfterDeed(c, DeedOf(c, s, e), p, Holding(s, p))
  {
    CredentialsEffect(c, s, e.act, e.now);
  }

  lemma HoldingAuthenticate(c: Context, s: GitState, l: Login, now: int, p: string)
    ensures Holding(AuthenticateStep(c, s, l, now).0, p) == Holding(s, p)
  {
    AuthenticateEffect(c, s, l, now);
  }

  /** One request: issuing writes the hash of the new token, releasing clears it, nothing else
      touches it. */
  lemma HoldingStep(c: Context, s: GitState, e: Event, p: string)
    requires Consistent(s)
    ensures Holding(Step(c, s, e).0, p) == AfterDeed(c, DeedOf(c, s, e), p, Holding(s, p))
  {
    match e.act {
      case Credentials(_, _, _, _, _, _, _) => HoldingCredentials(c, s, e, p);
      case Authenticate(l) => HoldingAuthenticate(c, s, l, e.now, p);
      case Revoke(_) =>
      case Unrevoke(_) =>
      case Unlock(_) =>
      case Delete(_, _) =>
      case Restart =>
    }
  }

  lemma HoldingInRun(c: Context, ss: seq<GitState>, es: seq<Event>, i: nat, p: string)
    requires i < |es| && Run(c, ss, es)
    ensures Holding(ss[i + 1], p) == AfterDeed(c, Journal(c, ss, es)[i], p, Holding(ss[i], p))
  {
    AlwaysConsistent(c, ss, es, i);
    assert StepAt(c, ss, es, i);
    HoldingStep(c, ss[i], es[i], p);
  }

  /** Hashes that follow the deeds one by one are the hash of the last token. */
  lemma {:induction false} HashesFollowDeeds(c: Context, j: seq<Deed>, held: seq<Option<string>>, n: nat, p: string)
    requires n <= |j| < |held| && held[0] == None
    requires forall i :: 0 <= i < |j| ==> held[i + 1] == AfterDeed(c, j[i], p, held[i])
    ensures held[n] == HashOf(c, LastToken(j[..n], p))
  {
    if n > 0 {
      var i := n - 1;
      HashesFollowDeeds(c, j, held, i, p);
      HashFollowsDeed(c, j[..i], j[i], p);
      assert j[..n] == j[..i] + [j[i]];
      assert held[i + 1] == AfterDeed(c, j[i], p, held[i]);
    }
  }

  /** Who holds what: `p` is claimed exactly when its last issue has not been followed by an unlock or
      a deletion, and the stored hash is that of the token then issued. */
  lemma ClaimIsLastToken(c: Context, ss: seq<GitState>, es: seq<Event>, n: nat, p: string)
    requires n <= |es| && Run(c, ss, es)
    ensures Holding(ss[n], p) == HashOf(c, LastToken(Journal(c, ss, es)[..n], p))
  {
    var held := seq(|ss|, i requires 0 <= i < |ss| => Holding(ss[i], p));
    forall i | 0 <= i < |es|
      ensures held[i + 1] == AfterDeed(c, Journal(c, ss, es)[i], p, held[i])
    {
      HoldingInRun(c, ss, es, i, p);
    }
    HashesFollowDeeds(c, Journal(c, ss, es), held, n, p);
  }

  lemma HashIsInjective(c: Context, tokens: set<string>, t: string, u: string)
    requires c.SoundHash(tokens) && t in tokens && u in tokens
    ensures c.HashToken(t) == c.HashToken(u) ==> t == u
    ensures c.HashToken(t) != ""
  {
    if c.HashToken(t) == c.HashToken(u) {
      HexInjective(c.sha(t), c.sha(u));
    }
  }

  /** Every token issued among the deeds. */
  ghost function IssuedTokens(j: seq<Deed>): set<string> {
    set d | d in j && d.Issue? :: d.token
  }

  lemma {:induction false} LastTokenWasIssued(j: seq<Deed>, p: string)
    requires LastToken(j, p).Some?
    ensures LastToken(j, p).value in IssuedTokens(j)
  {
    var d := j[|j| - 1];
    assert d in j;
    if !Concerns(d, p) {
      LastTokenWasIssued(j[..|j| - 1], p);
    }
  }

  /** Every token is handed from owner to owner: a claimed peer is only re-issued to an administrator
      or to someone who presents the very token issued last. */
  lemma ReissueNeedsTheLastToken(c: Context, ss: seq<GitState>, es: seq<Event>, i: nat)
    requires i < |es| && Run(c, ss, es) && es[i].act.Credentials?
    ensures var a, d, j := es[i].act, DeedOf(c, ss[i], es[i]), Journal(c, ss, es)[..i];
            c.SoundHash(IssuedTokens(j) + {Provided(a.query, a.bearer)}) && d.Issue? && d.peer in ss[i].claims ==>
              a.isAdmin || LastToken(j, d.peer) == Some(Provided(a.query, a.bearer))
  {
    var a, d, j := es[i].act, DeedOf(c, ss[i], es[i]), Journal(c, ss, es)[..i];
    var given := Provided(a.query, a.bearer);
    if c.SoundHash(IssuedTokens(j) + {given}) && d.Issue? && d.peer in ss[i].claims {
      ClaimIsLastToken(c, ss, es, i, d.peer);
      CredentialsEffect(c, ss[i], a, es[i].now);
      LastTokenWasIssued(j, d.peer);
      HashIsInjective(c, IssuedTokens(j) + {given}, LastToken(j, d.peer).value, given);
    }
  }

  /** A claim disappears only through an unlock or a deletion of that peer. */
  lemma ClaimEndsByRelease(c: Context, ss: seq<GitState>, es: seq<Event>, i: nat, p: string)
    requires i < |es| && Run(c, ss, es) && p in ss[i].claims && p !in ss[i + 1].claims
    ensures DeedOf(c, ss[i], es[i]) == Release(p)
    ensures es[i].act.Unlock? || es[i].act.Delete?
  {
    AlwaysConsistent(c, ss, es, i);
    assert StepAt(c, ss, es, i);
    HoldingStep(c, ss[i], es[i], p);
  }

  // -------------------------------------------------- whose repository it is

  /** `repoName`, without slashes at its ends, is a path below the directory `owner`. */
  ghost predicate BelongsTo(repoName: string, owner: string) {
    '/' !in owner && exists rest :: Trim(repoName, IsSlash) == owner + "/" + rest
  }

  /** The repository belongs to somebody else than `user`. */
  ghost predicate Foreign(repoName: string, user: string) {
    exists owner :: BelongsTo(repoName, owner) && owner != user
  }

  lemma NamespaceOfOwned(repoName: string, owner: string)
    requires BelongsTo(repoName, owner)
    ensures owner != "" && Namespace(repoName) == owner
  {
    var path := Trim(repoName, IsSlash);
    var rest :| path == owner + "/" + rest;
    var left, right := TrimSplits(repoName, IsSlash);
    assert path == owner + ['/'] + rest;
    assert path[0] == if owner == "" then '/' else owner[0];
    SplitPrefix(owner, rest, '/');
  }

  lemma NamespaceOfShared(repoName: string)
    requires '/' !in Trim(repoName, IsSlash)
    ensures Namespace(repoName) == ""
  {
    var path := Trim(repoName, IsSlash);
    assert IndexOf(path, '/') == |path|;
  }

  /** What the namespace test comes down to. */
  lemma NamespaceIsolates(repoName: string, user: string)
    ensures (Namespace(repoName) == "" || Namespace(repoName) == user) == !Foreign(repoName, user)
  {
    var path := Trim(repoName, IsSlash);
    if owner :| BelongsTo(repoName, owner) && owner != user {
      NamespaceOfOwned(repoName, owner);
    } else if '/' in path {
      var i := IndexOf(path, '/');
      assert path == path[..i] + "/" + path[i + 1..];
      assert BelongsTo(repoName, path[..i]);
      NamespaceOfOwned(repoName, path[..i]);
    } else {
      NamespaceOfShared(repoName);
    }
  }

  /** Repositories are isolated: whatever credentials a request carries, short of an administrator's, it
      gets into "owner/repo" only as `owner`. */
  lemma OnlyOwnRepositories(c: Context, s: GitState, l: Login, now: int, owner: string, repo: string)
    requires owner != "" && '/' !in owner && repo != "" && repo[|repo| - 1] != '/'
    requires l.repoName == owner + "/" + repo && !l.admin
    ensures AuthenticateStep(c, s, l, now).1 == Accepted ==> TrimSpace(l.username) == owner
  {
    TrimFixpoint(l.repoName, IsSlash);
    assert BelongsTo(l.repoName, owner);
    NamespaceOfOwned(l.repoName, owner);
  }

  /** What a claim demands of a Git request that relies on a token. */
  lemma ClaimedLogin(c: Context, s: GitState, l: Login, now: int, tokens: set<string>, last: string)
    requires c.SoundHash(tokens) && last in tokens && TrimSpace(l.password) in tokens
    requires Holding(s, TrimSpace(l.username)) == Some(c.HashToken(last))
    requires !l.appliance && !l.admin && !l.session
    ensures var p, t := TrimSpace(l.username), TrimSpace(l.password);
            AuthenticateStep(c, s, l, now).1 == Accepted <==>
              && !IsPeerRevoked(s, p) && t == last
              && T.Validate(c.mac, c.secret, p, t, now)
              && !Foreign(l.repoName, p)
  {
    HashIsInjective(c, tokens, TrimSpace(l.password), last);
    TrimIdempotent(l.username, IsSpace);
    NamespaceIsolates(l.repoName, TrimSpace(l.username));
  }

  /** While `p` is claimed, a request that relies on a token is accepted for exactly one token: the one
      issued last, until it expires or `p` is revoked, and only for `p`'s own repositories. */
  lemma OnlyTheLastToken(c: Context, ss: seq<GitState>, es: seq<Event>, n: nat, l: Login, now: int)
    requires n <= |es| && Run(c, ss, es)
    requires TrimSpace(l.username) in ss[n].claims && !l.appliance && !l.admin && !l.session
    ensures var p, t, j := TrimSpace(l.username), TrimSpace(l.password), Journal(c, ss, es)[..n];
            c.SoundHash(IssuedTokens(j) + {t}) ==>
              (AuthenticateStep(c, ss[n], l, now).1 == Accepted <==>
                 && !IsPeerRevoked(ss[n], p)
                 && LastToken(j, p) == Some(t)
                 && T.Validate(c.mac, c.secret, p, t, now)
                 && !Foreign(l.repoName, p))
  {
    var j := Journal(c, ss, es)[..n];
    ClaimIsLastToken(c, ss, es, n, TrimSpace(l.username));
    if c.SoundHash(IssuedTokens(j) + {TrimSpace(l.password)}) {
      LoginByJournal(c, ss[n], j, l, now);
    }
  }

  lemma LoginByJournal(c: Context, s: GitState, j: seq<Deed>, l: Login, now: int)
    requires c.SoundHash(IssuedTokens(j) + {TrimSpace(l.password)}) && !l.appliance && !l.admin && !l.session
    requires Holding(s, TrimSpace(l.username)).Some?
    requires Holding(s, TrimSpace(l.username)) == HashOf(c, LastToken(j, TrimSpace(l.username)))
    ensures var p, t := TrimSpace(l.username), TrimSpace(l.password);
            AuthenticateStep(c, s, l, now).1 == Accepted <==>
              && !IsPeerRevoked(s, p)
              && LastToken(j, p) == Some(t)
              && T.Validate(c.mac, c.secret, p, t, now)
              && !Foreign(l.repoName, p)
  {
    var p, t := TrimSpace(l.username), TrimSpace(l.password);
    LastTokenWasIssued(j, p);
    ClaimedLogin(c, s, l, now, IssuedTokens(j) + {t}, LastToken(j, p).value);
  }

  /** Even with other valid credentials, an HMAC-valid token of a claimed peer other than the last one
      is refused. */
  lemma OtherTokensAreRefused(c: Context, ss: seq<GitState>, es: seq<Event>, n: nat, l: Login, now: int)
    requires n <= |es| && Run(c, ss, es) && TrimSpace(l.username) in ss[n].claims
    ensures var p, t, j := TrimSpace(l.username), TrimSpace(l.password), Journal(c, ss, es)[..n];
            c.SoundHash(IssuedTokens(j) + {t}) ==>
              T.Validate(c.mac, c.secret, p, t, now) && LastToken(j, p) != Some(t) ==>
                AuthenticateStep(c, ss[n], l, now) == (ss[n], Rejected)
  {
    var p, t, j := TrimSpace(l.username), TrimSpace(l.password), Journal(c, ss, es)[..n];
    ClaimIsLastToken(c, ss, es, n, p);
    LastTokenWasIssued(j, p);
    if c.SoundHash(IssuedTokens(j) + {t}) {
      HashIsInjective(c, IssuedTokens(j) + {t}, t, LastToken(j, p).value);
    }
  }

  /** A token that was issued passes the HMAC check for its peer exactly until it expires. */
  lemma IssuedTokenLifetime(c: Context, s: GitState, e: Event, now: int)
    requires c.secret != "" && e.act.Credentials? && IsInt64(e.act.expiry)
    ensures var d := DeedOf(c, s, e);
            d.Issue? ==> (T.Validate(c.mac, c.secret, d.peer, d.token, now) <==> now <= e.act.expiry)
  {
    var a := e.act;
    var p := TrimSpace(a.peer);
    CredentialsEffect(c, s, a, e.now);
    T.ValidateGenerated(c.mac, c.secret, p, a.expiry, a.nonce, p, now);
  }

  // ------------------------------------------ the assumptions can be met

  function Power(n: nat): nat {
    if n == 0 then 1 else 0x100 * Power(n - 1)
  }

  /** `k` as `n` bytes, most significant first. */
  function Encode(k: nat, n: nat): (bs: seq<byte>)
    ensures |bs| == n
  {
    if n == 0 then [] else Encode(k / 0x100, n - 1) + [(k % 0x100) as byte]
  }

  lemma {:induction false} EncodeInjective(j: nat, k: nat, n: nat)
    requires j < Power(n) && k < Power(n) && Encode(j, n) == Encode(k, n)
    ensures j == k
  {
    if n > 0 {
      assert Encode(j, n)[..n - 1] == Encode(j / 0x100, n - 1);
      assert Encode(k, n)[..n - 1] == Encode(k / 0x100, n - 1);
      assert Encode(j, n)[n - 1] == Encode(k, n)[n - 1];
      EncodeInjective(j / 0x100, k / 0x100, n - 1);
    }
  }

  /** A numbering of the tokens. */
  lemma {:induction false} Numbering(tokens: set<string>) returns (index: map<string, nat>)
    ensures index.Keys == tokens && forall t :: t in tokens ==> index[t] < |tokens|
    ensures forall t, u :: t in tokens && u in tokens && index[t] == index[u] ==> t == u
    decreases |tokens|
  {
    if tokens == {} {
      index := map[];
    } else {
      var t :| t in tokens;
      index := Numbering(tokens - {t});
      index := index[t := |tokens| - 1];
    }
  }

  /** For any tokens, as many as there are digests, some hash is sound. */
  lemma SoundHashExists(mac: T.Mac, secret: string, tokens: set<string>) returns (c: Context)
    requires |tokens| <= Power(DIGEST_SIZE)
    ensures c.SoundHash(tokens) && c.mac == mac && c.secret == secret
  {
    var index := Numbering(tokens);
    c := Context(mac, t => Encode(if t in index then index[t] else 0, DIGEST_SIZE), secret);
    forall t, u | t in tokens && u in tokens && c.sha(t) == c.sha(u)
      ensures t == u
    {
      EncodeInjective(index[t], index[u], DIGEST_SIZE);
    }
  }

  lemma {:induction false} PowerGrows(n: nat)
    requires n > 0
    ensures Power(n) >= 0x100
  {
    if n > 1 {
      PowerGrows(n - 1);
    }
  }

  /** So the theorems above speak of actual servers: a first claim of any peer, for any HMAC and any
      token presented afterwards, meets their assumptions. */
  lemma SoundClaimExists(mac: T.Mac, secret: string, e: Event, presented: string)
    returns (c: Context, ss: seq<GitState>)
    requires e.act.Credentials? && TrimSpace(e.act.peer) != ""
    ensures c.mac == mac && c.secret == secret && Run(c, ss, [e])
    ensures TrimSpace(e.act.peer) in ss[1].claims
    ensures c.SoundHash(IssuedTokens(Journal(c, ss, [e])[..1]) + {presented})
  {
    var peer := TrimSpace(e.act.peer);
    var token := T.Generate(mac, secret, peer, e.act.expiry, e.act.nonce);
    PowerGrows(DIGEST_SIZE);
    c := SoundHashExists(mac, secret, {token, presented});
    ss := RunExists(c, [e]);
    assert StepAt(c, ss, [e], 0);
    FirstClaim(c, e.act, e.now);
    assert Journal(c, ss, [e])[..1] == [Issue(peer, token)];
    IssuedOnce(peer, token);
    assert {token} + {presented} == {token, presented};
  }

  lemma IssuedOnce(peer: string, token: string)
    ensures IssuedTokens([Issue(peer, token)]) == {token}
  {
    var d := Issue(peer, token);
    assert d in [d] && forall x :: x in [d] ==> x == d;
  }

  lemma FirstClaim(c: Context, a: Action, now: int)
    requires a.Credentials? && TrimSpace(a.peer) != ""
    ensures var peer := TrimSpace(a.peer);
            && CredentialsStep(c, Init(), a, now).1 == Issued(T.Generate(c.mac, c.secret, peer, a.expiry, a.nonce))
            && peer in CredentialsStep(c, Init(), a, now).0.claims
  {
    TrimIdempotent(a.peer, IsSpace);
  }
}
