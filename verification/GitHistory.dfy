/** The answers of the Git server of GitModel over whole runs: who gets a token, who gets in, what may be
    deleted, who is revoked, and what a claim records. */
module GitHistory {
  import opened GitModel
  import opened Text
  import opened Wrappers
  import T = GitToken

  // --------------------------------- the answer to every request, from the journal

  /** The request carries the token, in its query or, with no query, as a bearer token. */
  predicate Presents(a: Action, token: string)
    requires a.Credentials?
  {
    && token != ""
    && (|| token == TrimSpace(a.query)
        || (TrimSpace(a.query) == "" && a.bearer.Some? && token == TrimSpace(a.bearer.value)))
  }

  /** The tokens a credentials request carries. */
  function Carried(a: Action): set<string>
    requires a.Credentials?
  {
    {TrimSpace(a.query)} + if a.bearer.Some? then {TrimSpace(a.bearer.value)} else {}
  }

  /** The claims hold what the journal says. */
  ghost predicate Keeps(c: Context, s: GitState, j: seq<Deed>) {
    forall p :: Holding(s, p) == HashOf(c, LastToken(j, p))
  }

  lemma RunKeeps(c: Context, ss: seq<GitState>, es: seq<Event>, n: nat)
    requires n <= |es| && Run(c, ss, es)
    ensures Keeps(c, ss[n], Journal(c, ss, es)[..n])
  {
    forall p
      ensures Holding(ss[n], p) == HashOf(c, LastToken(Journal(c, ss, es)[..n], p))
    {
      ClaimIsLastToken(c, ss, es, n, p);
    }
  }

  /** An unclaimed peer is anybody's; a claimed one goes to an administrator or a presenter of `last`. */
  predicate Entitled(a: Action, last: Option<string>)
    requires a.Credentials?
  {
    last.None? || a.isAdmin || Presents(a, last.value)
  }

  lemma EntitledMayIssue(c: Context, s: GitState, j: seq<Deed>, a: Action)
    requires a.Credentials? && Keeps(c, s, j) && c.SoundHash(IssuedTokens(j) + Carried(a))
    ensures var p := TrimSpace(a.peer);
            MayIssue(c, GetPeerClaim(s, p), a.isAdmin, Provided(a.query, a.bearer)) == Entitled(a, LastToken(j, p))
  {
    var p, given := TrimSpace(a.peer), Provided(a.query, a.bearer);
    assert Holding(s, p) == HashOf(c, LastToken(j, p));
    if LastToken(j, p).Some? {
      LastTokenWasIssued(j, p);
      HashIsInjective(c, IssuedTokens(j) + Carried(a), LastToken(j, p).value, LastToken(j, p).value);
      if given != "" {
        HashIsInjective(c, IssuedTokens(j) + Carried(a), LastToken(j, p).value, given);
      }
    }
  }

  lemma CredentialsByJournal(c: Context, s: GitState, j: seq<Deed>, a: Action, now: int)
    requires a.Credentials? && Keeps(c, s, j) && c.SoundHash(IssuedTokens(j) + Carried(a))
    ensures var p := TrimSpace(a.peer);
            CredentialsStep(c, s, a, now).1 ==
              if p == "" then NeedPeer
              else if IsPeerRevoked(s, p) then Forbidden
              else if !Entitled(a, LastToken(j, p)) then Conflict
              else Issued(T.Generate(c.mac, c.secret, p, a.expiry, a.nonce))
  {
    EntitledMayIssue(c, s, j, a);
  }

  /** The answer to every credentials request: a token for the peer's new owner exactly when the peer is
      named, not revoked, and unclaimed, or asked for by an administrator, or by a presenter of the token
      issued last. */
  lemma CredentialsAreHistory(c: Context, ss: seq<GitState>, es: seq<Event>, i: nat)
    requires i < |es| && Run(c, ss, es) && es[i].act.Credentials?
    ensures var a, j := es[i].act, Journal(c, ss, es)[..i];
            var p := TrimSpace(a.peer);
            c.SoundHash(IssuedTokens(j) + Carried(a)) ==>
              CredentialsStep(c, ss[i], a, es[i].now).1 ==
                if p == "" then NeedPeer
                else if IsPeerRevoked(ss[i], p) then Forbidden
                else if !Entitled(a, LastToken(j, p)) then Conflict
                else Issued(T.Generate(c.mac, c.secret, p, a.expiry, a.nonce))
  {
    RunKeeps(c, ss, es, i);
    var a, j := es[i].act, Journal(c, ss, es)[..i];
    if c.SoundHash(IssuedTokens(j) + Carried(a)) {
      CredentialsByJournal(c, ss[i], j, a, es[i].now);
    }
  }

  lemma AuthenticateByJournal(c: Context, s: GitState, j: seq<Deed>, l: Login, now: int)
    requires Keeps(c, s, j) && c.SoundHash(IssuedTokens(j) + {TrimSpace(l.password)})
    ensures var p, t := TrimSpace(l.username), TrimSpace(l.password);
            var byToken := T.Validate(c.mac, c.secret, p, t, now);
            AuthenticateStep(c, s, l, now).1 == Accepted <==>
              && p != "" && t != "" && !IsPeerRevoked(s, p)
              && (byToken || l.appliance || l.admin || l.session)
              && (byToken ==> LastToken(j, p) == None || LastToken(j, p) == Some(t))
              && (l.admin || !Foreign(l.repoName, p))
  {
    var p, t := TrimSpace(l.username), TrimSpace(l.password);
    TrimIdempotent(l.username, IsSpace);
    NamespaceIsolates(l.repoName, p);
    assert Holding(s, p) == HashOf(c, LastToken(j, p));
    if LastToken(j, p).Some? {
      LastTokenWasIssued(j, p);
      HashIsInjective(c, IssuedTokens(j) + {t}, LastToken(j, p).value, t);
    }
  }

  /** The answer to every Git request: some credential must be good, an HMAC-valid token must be the last
      one of a claimed peer, the user must not be revoked, and only administrators enter the repositories
      of others. */
  lemma AuthenticationIsHistory(c: Context, ss: seq<GitState>, es: seq<Event>, n: nat, l: Login, now: int)
    requires n <= |es| && Run(c, ss, es)
    ensures var p, t, j := TrimSpace(l.username), TrimSpace(l.password), Journal(c, ss, es)[..n];
            var byToken := T.Validate(c.mac, c.secret, p, t, now);
            c.SoundHash(IssuedTokens(j) + {t}) ==>
              (AuthenticateStep(c, ss[n], l, now).1 == Accepted <==>
                 && p != "" && t != "" && !IsPeerRevoked(ss[n], p)
                 && (byToken || l.appliance || l.admin || l.session)
                 && (byToken ==> LastToken(j, p) == None || LastToken(j, p) == Some(t))
                 && (l.admin || !Foreign(l.repoName, p)))
  {
    RunKeeps(c, ss, es, n);
    var j := Journal(c, ss, es)[..n];
    if c.SoundHash(IssuedTokens(j) + {TrimSpace(l.password)}) {
      AuthenticateByJournal(c, ss[n], j, l, now);
    }
  }

  // ------------------------------------------------ which directories may go

  /** A relative path walked component by component, as filepath.Clean does. */
  function Walk(parts: seq<string>): seq<string> {
    if parts == [] then []
    else
      var before, last := Walk(parts[..|parts| - 1]), parts[|parts| - 1];
      if last == "" || last == "." then before
      else if last == ".." && before != [] && before[|before| - 1] != ".." then before[..|before| - 1]
      else before + [last]
  }

  /** The name leads to a direct child of the repository root, and to nowhere else on any platform; names
      that begin with two dots are refused as well. */
  predicate DirectChild(name: string) {
    Walk(Split(name, '/')) == [name] && '\\' !in name && !(|name| >= 2 && name[..2] == "..")
  }

  lemma {:induction false} WalkStays(parts: seq<string>, x: string)
    requires x in Walk(parts)
    ensures x in parts
  {
    var init := parts[..|parts| - 1];
    if x in Walk(init) {
      WalkStays(init, x);
    }
  }

  lemma SlashedIsNoChild(name: string)
    requires '/' in name
    ensures name !in Walk(Split(name, '/'))
  {
    JoinSplit(name, '/');
    if name in Walk(Split(name, '/')) {
      WalkStays(Split(name, '/'), name);
    }
  }

  lemma PlainWalk(name: string)
    requires '/' !in name
    ensures Walk(Split(name, '/')) == if name == "" || name == "." then [] else [name]
  {
    assert IndexOf(name, '/') == |name|;
    assert [name][..0] == [];
    assert Walk([name][..0]) == [];
  }

  lemma GoodNamesAreChildren(name: string)
    ensures BadName(name) == !DirectChild(name)
  {
    if '/' in name {
      SlashedIsNoChild(name);
    } else {
      PlainWalk(name);
    }
  }

  /** The answer to a deletion and all it does: a direct child of the root whose directory is gone loses its
      claim and its revocation, anything else is refused without effect. */
  lemma DeletionAnswered(s: GitState, namespace: string, removed: bool)
    ensures var p := TrimSpace(namespace);
            DeleteStep(s, namespace, removed) ==
              if removed && DirectChild(p) then
                (GitState(s.claims - {p}, s.revoked - {p}, Some(s.claims - {p})), Done)
              else (s, BadNamespace)
  {
    GoodNamesAreChildren(TrimSpace(namespace));
  }

  // ------------------------------------------------ who is revoked

  predicate Revokes(a: Action, p: string) {
    a.Revoke? && TrimSpace(a.peer) == p
  }

  /** The request ends a revocation of `p`; a restart does when `p` holds no claim. */
  predicate Lifts(s: GitState, a: Action, p: string) {
    match a
    case Unrevoke(q) => TrimSpace(q) == p
    case Delete(ns, removed) => removed && TrimSpace(ns) == p && DirectChild(p)
    case Restart => p !in s.claims
    case _ => false
  }

  ghost predicate RevokedSince(ss: seq<GitState>, es: seq<Event>, n: nat, i: nat, p: string)
    requires n <= |es| < |ss|
  {
    i < n && Revokes(es[i].act, p) && forall k :: i < k < n ==> !Lifts(ss[k], es[k].act, p)
  }

  ghost predicate RevokedEver(ss: seq<GitState>, es: seq<Event>, n: nat, p: string)
    requires n <= |es| < |ss|
  {
    exists i: nat :: RevokedSince(ss, es, n, i, p)
  }

  lemma RevokedEffect(c: Context, s: GitState, e: Event, p: string)
    requires Consistent(s)
    ensures p in Step(c, s, e).0.revoked <==> Revokes(e.act, p) || (p in s.revoked && !Lifts(s, e.act, p))
  {
    match e.act {
      case Credentials(_, _, _, _, _, _, _) => CredentialsEffect(c, s, e.act, e.now);
      case Authenticate(l) => AuthenticateEffect(c, s, l, e.now);
      case Delete(ns, removed) => GoodNamesAreChildren(TrimSpace(ns));
      case Restart =>
      case _ =>
    }
  }

  lemma RevokedStep(ss: seq<GitState>, es: seq<Event>, n: nat, p: string)
    requires n < |es| < |ss|
    ensures RevokedEver(ss, es, n + 1, p) <==>
              Revokes(es[n].act, p) || (RevokedEver(ss, es, n, p) && !Lifts(ss[n], es[n].act, p))
  {
    if i: nat :| RevokedSince(ss, es, n, i, p) {
      if !Lifts(ss[n], es[n].act, p) {
        assert RevokedSince(ss, es, n + 1, i, p);
      }
    }
    if Revokes(es[n].act, p) {
      assert RevokedSince(ss, es, n + 1, n, p);
    }
    if RevokedEver(ss, es, n + 1, p) {
      var i: nat :| RevokedSince(ss, es, n + 1, i, p);
      if i < n {
        assert RevokedSince(ss, es, n, i, p);
      }
    }
  }

  /** A peer is revoked exactly from its revocation until it is restored or deleted, or a restart finds it
      without a claim. */
  lemma {:induction false} RevocationIsHistory(c: Context, ss: seq<GitState>, es: seq<Event>, n: nat, p: string)
    requires n <= |es| && Run(c, ss, es)
    ensures p in ss[n].revoked <==> RevokedEver(ss, es, n, p)
    ensures TrimSpace(p) == p ==> (IsPeerRevoked(ss[n], p) <==> RevokedEver(ss, es, n, p))
  {
    AlwaysConsistent(c, ss, es, n);
    if n > 0 {
      RevocationIsHistory(c, ss, es, n - 1, p);
      AlwaysConsistent(c, ss, es, n - 1);
      assert StepAt(c, ss, es, n - 1);
      RevokedEffect(c, ss[n - 1], es[n - 1], p);
      RevokedStep(ss, es, n - 1, p);
    }
  }

  // ------------------------------------------------ what a claim records

  /** The stored claim, its revocation aside. */
  function Record(s: GitState, p: string): Option<Claim> {
    if p in s.claims then Some(s.claims[p].(revoked := false)) else None
  }

  /** A Git request that uses the token of the claimed user `p`. */
  predicate UsesToken(c: Context, s: GitState, e: Event, p: string) {
    && e.act.Authenticate? && p != "" && p == TrimSpace(e.act.login.username)
    && var t := TrimSpace(e.act.login.password);
       && t != "" && !IsPeerRevoked(s, p) && T.Validate(c.mac, c.secret, p, t, e.now)
       && Holding(s, p) == Some(c.HashToken(t))
  }

  /** What one request makes of the record of `p`. */
  function NextRecord(c: Context, d: Deed, e: Event, used: bool, p: string, held: Option<Claim>): Option<Claim> {
    if d.Issue? && d.peer == p && e.act.Credentials? then
      Some(Claim(p, c.HashToken(d.token), e.now, e.act.expiry, e.act.clientIP, e.now, false))
    else if d == Release(p) then None
    else if used && held.Some? then Some(held.value.(lastUsed := e.now))
    else held
  }

  lemma RecordCredentials(c: Context, s: GitState, e: Event, p: string)
    requires e.act.Credentials?
    ensures Record(CredentialsStep(c, s, e.act, e.now).0, p)
              == NextRecord(c, DeedOf(c, s, e), e, false, p, Record(s, p))
  {
    CredentialsEffect(c, s, e.act, e.now);
  }

  lemma RecordAuthenticate(c: Context, s: GitState, e: Event, p: string)
    requires e.act.Authenticate?
    ensures Record(AuthenticateStep(c, s, e.act.login, e.now).0, p)
              == NextRecord(c, Neither, e, UsesToken(c, s, e, p), p, Record(s, p))
  {
    TrimIdempotent(e.act.login.username, IsSpace);
  }

  lemma RecordStep(c: Context, s: GitState, e: Event, p: string)
    requires Consistent(s)
    ensures Record(Step(c, s, e).0, p) == NextRecord(c, DeedOf(c, s, e), e, UsesToken(c, s, e, p), p, Record(s, p))
  {
    match e.act {
      case Credentials(_, _, _, _, _, _, _) => RecordCredentials(c, s, e, p);
      case Authenticate(_) => RecordAuthenticate(c, s, e, p);
      case Revoke(_) =>
      case Unrevoke(_) =>
      case Unlock(_) =>
      case Delete(_, _) =>
      case Restart =>
    }
  }

  /** Deed `i` gave `p` its token, request `k` is its last use, and nothing later concerns either. */
  ghost predicate IssuedAndUsed(j: seq<Deed>, used: seq<bool>, n: nat, i: nat, k: nat, p: string)
    requires n <= |j| && |used| == |j|
  {
    && i <= k < n && j[i].Issue? && j[i].peer == p && (k == i || used[k])
    && (forall m :: i < m < n ==> !Concerns(j[m], p))
    && (forall m :: k < m < n ==> !used[m])
  }

  lemma {:induction false} RecordsFollow(
    c: Context, j: seq<Deed>, es: seq<Event>, used: seq<bool>, held: seq<Option<Claim>>, n: nat, p: string)
    returns (i: nat, k: nat)
    requires n <= |j| == |es| == |used| && |held| == |j| + 1 && held[0] == None && held[n].Some?
    requires forall m :: 0 <= m < |j| ==>
               && held[m + 1] == NextRecord(c, j[m], es[m], used[m], p, held[m])
               && (j[m].Issue? ==> es[m].act.Credentials? && !used[m])
    ensures IssuedAndUsed(j, used, n, i, k, p) && es[i].act.Credentials?
    ensures held[n] == Some(Claim(p, c.HashToken(j[i].token), es[i].now, es[i].act.expiry, es[i].act.clientIP,
                                  es[k].now, false))
  {
    var m := n - 1;
    assert held[m + 1] == NextRecord(c, j[m], es[m], used[m], p, held[m]);
    if Concerns(j[m], p) {
      i, k := m, m;
    } else {
      i, k := RecordsFollow(c, j, es, used, held, m, p);
      if used[m] {
        k := m;
      }
    }
  }

  /** Which requests of a run used the token of `p`. */
  function Uses(c: Context, ss: seq<GitState>, es: seq<Event>, p: string): (used: seq<bool>)
    requires |es| < |ss|
    ensures |used| == |es| && forall m :: 0 <= m < |es| ==> used[m] == UsesToken(c, ss[m], es[m], p)
  {
    seq(|es|, m requires 0 <= m < |es| => UsesToken(c, ss[m], es[m], p))
  }

  /** The records of `p` in the states of a run. */
  function Records(ss: seq<GitState>, p: string): (held: seq<Option<Claim>>)
    ensures |held| == |ss| && forall m :: 0 <= m < |ss| ==> held[m] == Record(ss[m], p)
  {
    seq(|ss|, m requires 0 <= m < |ss| => Record(ss[m], p))
  }

  lemma RecordIsHistory(c: Context, ss: seq<GitState>, es: seq<Event>, n: nat, p: string)
    returns (i: nat, k: nat)
    requires n <= |es| && Run(c, ss, es) && p in ss[n].claims
    ensures IssuedAndUsed(Journal(c, ss, es), Uses(c, ss, es, p), n, i, k, p) && es[i].act.Credentials?
    ensures Records(ss, p)[n] == Some(Claim(p, c.HashToken(Journal(c, ss, es)[i].token), es[i].now,
                                            es[i].act.expiry, es[i].act.clientIP, es[k].now, false))
  {
    forall m | 0 <= m < |es|
      ensures Records(ss, p)[m + 1]
              == NextRecord(c, Journal(c, ss, es)[m], es[m], Uses(c, ss, es, p)[m], p, Records(ss, p)[m])
      ensures Journal(c, ss, es)[m].Issue? ==> es[m].act.Credentials? && !Uses(c, ss, es, p)[m]
    {
      RecordInRun(c, ss, es, m, p);
    }
    assert Records(ss, p)[0] == None;
    i, k := RecordsFollow(c, Journal(c, ss, es), es, Uses(c, ss, es, p), Records(ss, p), n, p);
  }

  /** A claim records what happened: who got the token when, until when, from where, and its last use. */
  lemma ClaimRecordsHistory(c: Context, ss: seq<GitState>, es: seq<Event>, n: nat, p: string)
    returns (i: nat, k: nat)
    requires n <= |es| && Run(c, ss, es) && p in ss[n].claims
    ensures IssuedAndUsed(Journal(c, ss, es), Uses(c, ss, es, p), n, i, k, p) && es[i].act.Credentials?
    ensures ss[n].claims[p] == Claim(p, c.HashToken(Journal(c, ss, es)[i].token), es[i].now, es[i].act.expiry,
                                     es[i].act.clientIP, es[k].now, p in ss[n].revoked)
  {
    i, k := RecordIsHistory(c, ss, es, n, p);
    AlwaysConsistent(c, ss, es, n);
  }

  lemma RecordInRun(c: Context, ss: seq<GitState>, es: seq<Event>, m: nat, p: string)
    requires m < |es| && Run(c, ss, es)
    ensures var d, used := Journal(c, ss, es)[m], Uses(c, ss, es, p)[m];
            && Records(ss, p)[m + 1] == NextRecord(c, d, es[m], used, p, Records(ss, p)[m])
            && (d.Issue? ==> es[m].act.Credentials? && !used)
  {
    AlwaysConsistent(c, ss, es, m);
    assert StepAt(c, ss, es, m);
    RecordStep(c, ss[m], es[m], p);
  }
}
