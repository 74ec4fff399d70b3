/** The signaling registry (main.go): current clients, recently seen tokens, and the connections the
    server has closed, with the theorems that compare them to the full history. */
module SignalingModel {
  import opened Clock
  import opened Wrappers

  const PURGE_AFTER: nat := 10 * MINUTE
  const GRACE: nat := 5 * MINUTE

  /** A connection; None in place of one is the nil connection. */
  type Conn = nat

  datatype Client = Client(token: string, conn: Option<Conn>)

  datatype Registry = Registry(
    clients: map<string, Client>, recentTokens: map<string, map<string, Time>>, closed: set<Conn>)

  datatype Action =
    | Add(id: string, token: string, conn: Option<Conn>)
    | Remove(id: string, token: string, conn: Option<Conn>)
    | Kick(id: string)

  datatype Event = Event(now: Time, act: Action)

  function Init(): Registry {
    Registry(map[], map[], {})
  }

  /** The connection of the current client `id`, if it has one. */
  function CurrentConn(r: Registry, id: string): set<Conn> {
    if id in r.clients && r.clients[id].conn.Some? then {r.clients[id].conn.value} else {}
  }

  function TokensOf(r: Registry, id: string): map<string, Time> {
    if id in r.recentTokens then r.recentTokens[id] else map[]
  }

  function Stale(tokens: map<string, Time>, now: Time): set<string> {
    set t | t in tokens && tokens[t] + PURGE_AFTER < now
  }

  function Remember(tokens: map<string, Time>, token: string, now: Time): map<string, Time> {
    var seen := tokens[token := now];
    seen - Stale(seen, now)
  }

  function AddStep(r: Registry, id: string, token: string, conn: Option<Conn>, now: Time): Registry {
    Registry(r.clients[id := Client(token, conn)],
             if token == "" then r.recentTokens else r.recentTokens[id := Remember(TokensOf(r, id), token, now)],
             r.closed + CurrentConn(r, id))
  }

  /** A removal of `id` that reaches `client`. */
  predicate Reaches(token: string, conn: Option<Conn>, client: Client) {
    (conn.None? || conn == client.conn) && (token == "" || token == client.token)
  }

  function RemoveStep(r: Registry, id: string, token: string, conn: Option<Conn>): Registry {
    if id in r.clients && Reaches(token, conn, r.clients[id]) then r.(clients := r.clients - {id}) else r
  }

  function KickStep(r: Registry, id: string): Registry {
    r.(clients := r.clients - {id}, closed := r.closed + CurrentConn(r, id))
  }

  predicate ValidatePeerToken(r: Registry, id: string, token: string, now: Time) {
    && id != "" && token != ""
    && (|| (id in r.clients && r.clients[id].token == token)
        || (token in TokensOf(r, id) && now - TokensOf(r, id)[token] < GRACE))
  }

  function Step(r: Registry, e: Event): Registry {
    match e.act
    case Add(id, token, conn) => AddStep(r, id, token, conn, e.now)
    case Remove(id, token, conn) => RemoveStep(r, id, token, conn)
    case Kick(id) => KickStep(r, id)
  }

  function State(es: seq<Event>, n: nat): Registry
    requires n <= |es|
  {
    if n == 0 then Init() else Step(State(es, n - 1), es[n - 1])
  }

  ghost predicate Clocked(es: seq<Event>) {
    forall i, j :: 0 <= i <= j < |es| ==> es[i].now <= es[j].now
  }

  // ------------------------------------------------------------ token cache

  predicate Registers(e: Event, id: string, token: string) {
    e.act.Add? && e.act.id == id && e.act.token == token
  }

  /** One of the first `n` events registered the token at `when`. */
  ghost predicate RegisteredAt(es: seq<Event>, n: nat, id: string, token: string, when: Time) {
    exists i :: 0 <= i < n && i < |es| && es[i].now == when && Registers(es[i], id, token)
  }

  /** What the cache holds was registered at that very time. */
  lemma {:induction false} CacheIsHistory(es: seq<Event>, n: nat, id: string, token: string)
    requires n <= |es| && token != "" && token in TokensOf(State(es, n), id)
    ensures RegisteredAt(es, n, id, token, TokensOf(State(es, n), id)[token])
  {
    var e, before := es[n - 1], State(es, n - 1);
    if Registers(e, id, token) {
      assert TokensOf(State(es, n), id)[token] == es[n - 1].now;
    } else {
      assert TokensOf(State(es, n), id)[token] == TokensOf(before, id)[token];
      CacheIsHistory(es, n - 1, id, token);
      var i :| 0 <= i < n - 1 && es[i].now == TokensOf(before, id)[token] && Registers(es[i], id, token);
    }
  }

  /** A registration is remembered with its time or a later one, until ten minutes have passed. */
  lemma {:induction false} CacheKeeps(es: seq<Event>, n: nat, i: nat, id: string, token: string)
    requires i < n <= |es| && Clocked(es) && token != "" && Registers(es[i], id, token)
    requires es[n - 1].now <= es[i].now + PURGE_AFTER
    ensures token in TokensOf(State(es, n), id) && es[i].now <= TokensOf(State(es, n), id)[token] <= es[n - 1].now
  {
    if i < n - 1 {
      CacheKeeps(es, n - 1, i, id, token);
    }
  }

  /** The last event of the run is not in the future. */
  predicate NotBefore(es: seq<Event>, n: nat, now: Time)
    requires n <= |es|
  {
    n > 0 ==> es[n - 1].now <= now
  }

  /** `id` registered `token` less than five minutes ago. */
  ghost predicate FreshlyRegistered(es: seq<Event>, n: nat, id: string, token: string, now: Time) {
    exists i :: 0 <= i < n && i < |es| && Registers(es[i], id, token) && now < es[i].now + GRACE
  }

  /** The token cache agrees with the full log: a token is accepted exactly when it is the current
      client's, or was registered for the id less than five minutes ago. The purge never shows. */
  lemma ValidateIsHistory(es: seq<Event>, n: nat, id: string, token: string, now: Time)
    requires n <= |es| && Clocked(es) && NotBefore(es, n, now)
    ensures ValidatePeerToken(State(es, n), id, token, now) ==
            (&& id != "" && token != ""
             && (|| (id in State(es, n).clients && State(es, n).clients[id].token == token)
                 || FreshlyRegistered(es, n, id, token, now)))
  {
    if token != "" {
      if FreshlyRegistered(es, n, id, token, now) {
        var i :| 0 <= i < n && Registers(es[i], id, token) && now < es[i].now + GRACE;
        CacheKeeps(es, n, i, id, token);
      }
      if token in TokensOf(State(es, n), id) {
        CacheIsHistory(es, n, id, token);
      }
    }
  }

  // -------------------------------------------------------- current clients

  /** What takes `client` off its id: another registration, a kick, or a removal of the id that names its
      connection or none, and its token or none. */
  predicate Displaces(a: Action, id: string, client: Client) {
    match a
    case Add(other, _, _) => other == id
    case Remove(other, token, conn) =>
      other == id && (conn == None || conn == client.conn) && (token == "" || token == client.token)
    case Kick(other) => other == id
  }

  ghost predicate StandsFrom(es: seq<Event>, n: nat, i: nat, id: string, client: Client)
    requires n <= |es|
  {
    && i < n && es[i].act == Add(id, client.token, client.conn)
    && forall j :: i < j < n ==> !Displaces(es[j].act, id, client)
  }

  ghost predicate Stands(es: seq<Event>, n: nat, id: string, client: Client)
    requires n <= |es|
  {
    exists i :: StandsFrom(es, n, i, id, client)
  }

  /** A client is current exactly when it registered and nothing has displaced it since. */
  lemma {:induction false} ClientsAreHistory(es: seq<Event>, n: nat, id: string, client: Client)
    requires n <= |es|
    ensures (id in State(es, n).clients && State(es, n).clients[id] == client)
            == Stands(es, n, id, client)
  {
    if n > 0 {
      ClientsAreHistory(es, n - 1, id, client);
      var a := es[n - 1].act;
      if a == Add(id, client.token, client.conn) {
        assert StandsFrom(es, n, n - 1, id, client);
      } else if !Displaces(a, id, client) {
        if Stands(es, n - 1, id, client) {
          var i :| StandsFrom(es, n - 1, i, id, client);
          assert StandsFrom(es, n, i, id, client);
        }
        if Stands(es, n, id, client) {
          var i :| StandsFrom(es, n, i, id, client);
          assert StandsFrom(es, n - 1, i, id, client);
        }
      }
    }
  }

  /** Reconnect races are harmless: after a registration, removals made for other connections, by however
      many late handlers, leave the new client in place. */
  lemma {:induction false} StaleRemovalsAreHarmless(
    es: seq<Event>, n: nat, i: nat, id: string, token: string, conn: Conn)
    requires i < n <= |es| && es[i].act == Add(id, token, Some(conn))
    requires forall j :: i < j < n && es[j].act.id == id ==>
               es[j].act.Remove? && es[j].act.conn.Some? && es[j].act.conn != Some(conn)
    ensures id in State(es, n).clients && State(es, n).clients[id] == Client(token, Some(conn))
  {
    assert StandsFrom(es, n, i, id, Client(token, Some(conn)));
    ClientsAreHistory(es, n, id, Client(token, Some(conn)));
  }

  /** A removal as event `j` that takes away the client in place. */
  predicate RemovedAt(es: seq<Event>, j: nat, id: string, client: Client)
    requires j < |es|
  {
    es[j].act.Remove? && Displaces(es[j].act, id, client)
  }

  /** At most one open client per id: a connection that registered is still the current one, has been
      closed by the server, or was unregistered by a removal that reached it. */
  lemma {:induction false} ReplacedClientsAreClosed(
    es: seq<Event>, n: nat, i: nat, id: string, token: string, conn: Conn)
    requires i < n <= |es| && es[i].act == Add(id, token, Some(conn))
    ensures var client := Client(token, Some(conn));
            || (id in State(es, n).clients && State(es, n).clients[id] == client)
            || conn in State(es, n).closed
            || exists j :: i < j < n && RemovedAt(es, j, id, client)
  {
    if i < n - 1 {
      var client := Client(token, Some(conn));
      ReplacedClientsAreClosed(es, n - 1, i, id, token, conn);
      assert RemovedAt(es, n - 1, id, client) || !RemovedAt(es, n - 1, id, client);
    }
  }

  /** Event `j` replaces or kicks a current client of that connection. */
  ghost predicate ClosesAt(es: seq<Event>, j: nat, conn: Conn)
    requires j < |es|
  {
    (es[j].act.Add? || es[j].act.Kick?) && exists token :: Stands(es, j, es[j].act.id, Client(token, Some(conn)))
  }

  lemma CurrentConnIsHistory(es: seq<Event>, n: nat, id: string, conn: Conn)
    requires n <= |es|
    ensures conn in CurrentConn(State(es, n), id) <==> exists token :: Stands(es, n, id, Client(token, Some(conn)))
  {
    var r := State(es, n);
    if conn in CurrentConn(r, id) {
      ClientsAreHistory(es, n, id, r.clients[id]);
      assert Stands(es, n, id, Client(r.clients[id].token, Some(conn)));
    }
    if token :| Stands(es, n, id, Client(token, Some(conn))) {
      ClientsAreHistory(es, n, id, Client(token, Some(conn)));
    }
  }

  lemma ClosedStep(r: Registry, e: Event, conn: Conn)
    ensures conn in Step(r, e).closed
            <==> conn in r.closed || ((e.act.Add? || e.act.Kick?) && conn in CurrentConn(r, e.act.id))
  {
  }

  /** The server closes exactly the connections of clients it replaces or kicks, and no others. */
  lemma {:induction false} ClosedIsHistory(es: seq<Event>, n: nat, conn: Conn)
    requires n <= |es|
    ensures conn in State(es, n).closed <==> exists j: nat :: j < n && ClosesAt(es, j, conn)
  {
    if n > 0 {
      ClosedIsHistory(es, n - 1, conn);
      ClosedStep(State(es, n - 1), es[n - 1], conn);
      CurrentConnIsHistory(es, n - 1, es[n - 1].act.id, conn);
      assert ClosesAt(es, n - 1, conn) <==>
             (es[n - 1].act.Add? || es[n - 1].act.Kick?) && conn in CurrentConn(State(es, n - 1), es[n - 1].act.id);
    }
  }

  // ---------------------------------------------------- what the purge leaves

  /** A registration of `id` with some token purges what is then more than ten minutes old. */
  predicate Purges(e: Event, id: string, when: Time) {
    e.act.Add? && e.act.id == id && e.act.token != "" && when + 10 * MINUTE < e.now
  }

  /** Event `i` registered the token last, and no registration since then found it too old. */
  ghost predicate CachedFrom(es: seq<Event>, n: nat, i: nat, id: string, token: string)
    requires n <= |es|
  {
    && i < n && Registers(es[i], id, token)
    && forall j :: i < j < n ==> !Registers(es[j], id, token) && !Purges(es[j], id, es[i].now)
  }

  ghost predicate Cached(es: seq<Event>, n: nat, id: string, token: string, when: Time)
    requires n <= |es|
  {
    exists i: nat :: CachedFrom(es, n, i, id, token) && es[i].now == when
  }

  lemma CacheStep(r: Registry, e: Event, id: string, token: string)
    requires token != ""
    ensures var before, after := TokensOf(r, id), TokensOf(Step(r, e), id);
            if Registers(e, id, token) then token in after && after[token] == e.now
            else (token in after <==> token in before && !Purges(e, id, before[token]))
                 && (token in after ==> after[token] == before[token])
  {
  }

  /** The cache is exactly what was registered and not purged since: a token with the time of its last
      registration. */
  lemma {:induction false} CacheIsExact(es: seq<Event>, n: nat, id: string, token: string, when: Time)
    requires n <= |es| && token != ""
    ensures var tokens := TokensOf(State(es, n), id);
            (token in tokens && tokens[token] == when) == Cached(es, n, id, token, when)
  {
    if n > 0 {
      var e := es[n - 1];
      CacheIsExact(es, n - 1, id, token, when);
      CacheStep(State(es, n - 1), e, id, token);
      if Registers(e, id, token) {
        assert CachedFrom(es, n, n - 1, id, token);
      } else {
        if Cached(es, n - 1, id, token, when) && !Purges(e, id, when) {
          var i: nat :| CachedFrom(es, n - 1, i, id, token) && es[i].now == when;
          assert CachedFrom(es, n, i, id, token);
        }
        if Cached(es, n, id, token, when) {
          var i: nat :| CachedFrom(es, n, i, id, token) && es[i].now == when;
          assert CachedFrom(es, n - 1, i, id, token);
        }
      }
    }
  }
}
