/** The routing state of one relay port (ring_relay.go) and what a run of it remembers.

    Many virtual connections share one physical port, so the owner of an inbound packet has to be
    recovered from `routes` and `activeConns`. The state machine is generic in the type `V` of
    connections: the class model in RingRelay.dfy instantiates it with object references. */
module RelayRoutes {
  import opened Wrappers

  datatype Endpoint = Endpoint(ip: string, port: int)

  /** The two kinds of keys of `routes`: "ip:port" and bare "ip". */
  datatype Key = Exact(addr: Endpoint) | ByIP(ip: string)

  datatype NodeState<!V(==)> = NodeState(routes: map<Key, V>, active: seq<V>)

  datatype Event<V> =
    | Allocate(conn: V)
    | Write(conn: V, to: Option<Endpoint>)
    | Permit(ip: string)
    | Close(conn: V)

  // ------------------------------------------------------------- operations

  function Init<V>(): NodeState<V> {
    NodeState(map[], [])
  }

  function Register<V>(routes: map<Key, V>, addr: Endpoint, v: V): map<Key, V> {
    if addr.ip != "" then routes[Exact(addr) := v][ByIP(addr.ip) := v] else routes[Exact(addr) := v]
  }

  function RemoveFirst<V(==)>(s: seq<V>, v: V): seq<V> {
    if s == [] then []
    else if s[0] == v then s[1..]
    else [s[0]] + RemoveFirst(s[1..], v)
  }

  function DropTarget<V(==)>(routes: map<Key, V>, v: V): map<Key, V> {
    map k | k in routes && routes[k] != v :: routes[k]
  }

  function Step<V(==)>(s: NodeState<V>, e: Event<V>): NodeState<V> {
    match e
    case Allocate(v) => s.(active := s.active + [v])
    case Write(v, to) =>
      if v in s.active && to.Some? then s.(routes := Register(s.routes, to.value, v)) else s
    case Permit(ip) =>
      if ip != "" && s.active != [] then s.(routes := s.routes[ByIP(ip) := s.active[|s.active| - 1]]) else s
    case Close(v) => NodeState(DropTarget(s.routes, v), RemoveFirst(s.active, v))
  }

  /** The state after the first `n` events of a run. */
  function State<V(==)>(es: seq<Event<V>>, n: nat): NodeState<V>
    requires n <= |es|
  {
    if n == 0 then Init() else Step(State(es, n - 1), es[n - 1])
  }

  function FindTarget<V(==)>(s: NodeState<V>, addr: Endpoint): Option<V> {
    if Exact(addr) in s.routes then Some(s.routes[Exact(addr)])
    else if ByIP(addr.ip) in s.routes then Some(s.routes[ByIP(addr.ip)])
    else if |s.active| == 1 then Some(s.active[0])
    else if |s.active| > 0 then Some(s.active[|s.active| - 1])
    else None
  }

  // ------------------------------------------------------ what a run means

  /** Each connection object is created once. */
  ghost predicate AllocatedOnce<V>(es: seq<Event<V>>) {
    forall i, j :: 0 <= i < j < |es| && es[i].Allocate? && es[j].Allocate? ==> es[i].conn != es[j].conn
  }

  /** Event number `i` allocated `v`, and `v` has not been closed by the time `n` events have passed. */
  ghost predicate OpenSince<V>(es: seq<Event<V>>, n: nat, i: nat, v: V)
    requires n <= |es|
  {
    i < n && es[i] == Allocate(v) && forall j :: i < j < n ==> es[j] != Close(v)
  }

  ghost predicate Open<V>(es: seq<Event<V>>, n: nat, v: V)
    requires n <= |es|
  {
    exists i: nat :: OpenSince(es, n, i, v)
  }

  /** The allocations among the first `m` events that are still open after `n`, oldest first. */
  ghost function OpenList<V>(es: seq<Event<V>>, n: nat, m: nat): seq<V>
    requires m <= n <= |es|
  {
    if m == 0 then []
    else if es[m - 1].Allocate? && OpenSince(es, n, m - 1, es[m - 1].conn)
    then OpenList(es, n, m - 1) + [es[m - 1].conn]
    else OpenList(es, n, m - 1)
  }

  /** `v` is the open connection that was allocated last. */
  ghost predicate Newest<V>(es: seq<Event<V>>, n: nat, v: V)
    requires n <= |es|
  {
    exists i: nat :: OpenSince(es, n, i, v) &&
      forall j: nat :: i < j < n && es[j].Allocate? ==> !OpenSince(es, n, j, es[j].conn)
  }

  ghost predicate NoneOpen<V>(es: seq<Event<V>>, n: nat)
    requires n <= |es|
  {
    forall i: nat :: i < n && es[i].Allocate? ==> !OpenSince(es, n, i, es[i].conn)
  }

  predicate Names(addr: Endpoint, k: Key) {
    k == Exact(addr) || (addr.ip != "" && k == ByIP(addr.ip))
  }

  /** Event number `i` points key `k` at some connection. */
  ghost predicate Touches<V>(es: seq<Event<V>>, i: nat, k: Key)
    requires i < |es|
  {
    match es[i]
    case Write(v, Some(addr)) => Open(es, i, v) && Names(addr, k)
    case Permit(ip) => ip != "" && k == ByIP(ip) && !NoneOpen(es, i)
    case _ => false
  }

  /** Event number `i` points key `k` at `v`. */
  ghost predicate Sets<V>(es: seq<Event<V>>, i: nat, k: Key, v: V)
    requires i < |es|
  {
    Touches(es, i, k) && if es[i].Write? then es[i].conn == v else Newest(es, i, v)
  }

  ghost predicate OwnedSince<V>(es: seq<Event<V>>, n: nat, i: nat, k: Key, v: V)
    requires n <= |es|
  {
    && i < n && Sets(es, i, k, v)
    && (forall j :: i < j < n ==> !Touches(es, j, k))
    && (forall j :: i < j < n ==> es[j] != Close(v))
  }

  /** The latest event that pointed `k` anywhere pointed it at `v`, and `v` has not been closed since. */
  ghost predicate Owns<V>(es: seq<Event<V>>, n: nat, k: Key, v: V)
    requires n <= |es|
  {
    exists i: nat :: OwnedSince(es, n, i, k, v)
  }

  // -------------------------------------------------------- active connections

  lemma {:induction false} OpenListMembers<V>(es: seq<Event<V>>, n: nat, m: nat, v: V)
    requires m <= n <= |es|
    ensures v in OpenList(es, n, m) <==> exists i: nat :: i < m && OpenSince(es, n, i, v)
  {
    if m > 0 {
      OpenListMembers(es, n, m - 1, v);
    }
  }

  lemma {:induction false} OpenListDistinct<V>(es: seq<Event<V>>, n: nat, m: nat)
    requires m <= n <= |es| && AllocatedOnce(es)
    ensures forall a, b :: 0 <= a < b < |OpenList(es, n, m)| ==> OpenList(es, n, m)[a] != OpenList(es, n, m)[b]
  {
    if m > 0 {
      OpenListDistinct(es, n, m - 1);
      if es[m - 1].Allocate? {
        OpenListMembers(es, n, m - 1, es[m - 1].conn);
      }
    }
  }

  lemma {:induction false} OpenListEmpty<V>(es: seq<Event<V>>, n: nat, m: nat)
    requires m <= n <= |es|
    ensures OpenList(es, n, m) == [] <==>
              forall j: nat :: j < m && es[j].Allocate? ==> !OpenSince(es, n, j, es[j].conn)
  {
    if m > 0 {
      OpenListEmpty(es, n, m - 1);
    }
  }

  /** Where the last open connection was allocated: nothing allocated later is still open. */
  lemma {:induction false} OpenListLast<V>(es: seq<Event<V>>, n: nat, m: nat) returns (i: nat)
    requires m <= n <= |es| && OpenList(es, n, m) != []
    ensures i < m && OpenSince(es, n, i, OpenList(es, n, m)[|OpenList(es, n, m)| - 1])
    ensures forall j: nat :: i < j < m && es[j].Allocate? ==> !OpenSince(es, n, j, es[j].conn)
  {
    if es[m - 1].Allocate? && OpenSince(es, n, m - 1, es[m - 1].conn) {
      i := m - 1;
    } else {
      i := OpenListLast(es, n, m - 1);
    }
  }

  lemma RemoveFirstSnoc<V>(s: seq<V>, x: V, v: V)
    ensures RemoveFirst(s + [x], v) ==
              if v in s then RemoveFirst(s, v) + [x] else if x == v then s else s + [x]
  {
    if s == [] {
      assert s + [x] == [x];
    } else {
      assert (s + [x])[1..] == s[1..] + [x];
      if s[0] != v {
        RemoveFirstSnoc(s[1..], x, v);
      }
    }
  }

  lemma OpenSinceStep<V>(es: seq<Event<V>>, n: nat, i: nat, v: V)
    requires i < n < |es|
    ensures OpenSince(es, n + 1, i, v) <==> OpenSince(es, n, i, v) && es[n] != Close(v)
  {}

  /** One more event: a close takes exactly its connection out, nothing else changes older entries. */
  lemma {:induction false} OpenListStep<V>(es: seq<Event<V>>, n: nat, m: nat)
    requires m <= n < |es| && AllocatedOnce(es)
    ensures OpenList(es, n + 1, m) ==
              if es[n].Close? then RemoveFirst(OpenList(es, n, m), es[n].conn) else OpenList(es, n, m)
  {
    if m > 0 {
      OpenListStep(es, n, m - 1);
      var e := es[m - 1];
      if e.Allocate? {
        OpenSinceStep(es, n, m - 1, e.conn);
        OpenListMembers(es, n, m - 1, e.conn);
        if es[n].Close? {
          RemoveFirstSnoc(OpenList(es, n, m - 1), e.conn, es[n].conn);
          if es[n].conn !in OpenList(es, n, m - 1) {
            RemoveAbsent(OpenList(es, n, m - 1), es[n].conn);
          }
        }
      }
    }
  }

  lemma {:induction false} RemoveAbsent<V>(s: seq<V>, v: V)
    requires v !in s
    ensures RemoveFirst(s, v) == s
  {
    if s != [] {
      RemoveAbsent(s[1..], v);
    }
  }

  /** `activeConns` is exactly the list of open connections, in the order they were allocated. */
  lemma {:induction false} ActiveIsOpenList<V>(es: seq<Event<V>>, n: nat)
    requires n <= |es| && AllocatedOnce(es)
    ensures State(es, n).active == OpenList(es, n, n)
  {
    if n > 0 {
      ActiveIsOpenList(es, n - 1);
      OpenListStep(es, n - 1, n - 1);
    }
  }

  /** Membership, no duplicates, and when the list is empty. */
  lemma ActiveConns<V>(es: seq<Event<V>>, n: nat, v: V)
    requires n <= |es| && AllocatedOnce(es)
    ensures var active := State(es, n).active;
            && (v in active <==> Open(es, n, v))
            && (forall a, b :: 0 <= a < b < |active| ==> active[a] != active[b])
            && (active == [] <==> NoneOpen(es, n))
  {
    ActiveIsOpenList(es, n);
    OpenListMembers(es, n, n, v);
    OpenListDistinct(es, n, n);
    OpenListEmpty(es, n, n);
  }

  /** The last element of the list is the newest open connection, and the only newest one. */
  lemma NewestIsLast<V>(es: seq<Event<V>>, n: nat, v: V)
    requires n <= |es| && AllocatedOnce(es)
    ensures var active := State(es, n).active;
            Newest(es, n, v) <==> active != [] && active[|active| - 1] == v
  {
    ActiveIsOpenList(es, n);
    OpenListEmpty(es, n, n);
    var active := State(es, n).active;
    if active != [] {
      var last := active[|active| - 1];
      var i := OpenListLast(es, n, n);
      if Newest(es, n, v) {
        var j: nat :| OpenSince(es, n, j, v) &&
          forall l: nat :: j < l < n && es[l].Allocate? ==> !OpenSince(es, n, l, es[l].conn);
        assert OpenSince(es, n, i, last) && OpenSince(es, n, j, v);
        assert i == j;
      }
    }
  }

  // ----------------------------------------------------------------- routes

  lemma OwnsStep<V>(es: seq<Event<V>>, n: nat, k: Key, v: V)
    requires n < |es| && AllocatedOnce(es)
    ensures Owns(es, n + 1, k, v) <==>
              if Touches(es, n, k) then Sets(es, n, k, v)
              else Owns(es, n, k, v) && es[n] != Close(v)
  {
    if Owns(es, n + 1, k, v) {
      var i: nat :| OwnedSince(es, n + 1, i, k, v);
      if i < n {
        assert OwnedSince(es, n, i, k, v);
      }
    }
    if Touches(es, n, k) && Sets(es, n, k, v) {
      assert OwnedSince(es, n + 1, n, k, v);
    }
    if !Touches(es, n, k) && Owns(es, n, k, v) && es[n] != Close(v) {
      var i: nat :| OwnedSince(es, n, i, k, v);
      assert OwnedSince(es, n + 1, i, k, v);
    }
  }

  predicate Points<V(==)>(routes: map<Key, V>, k: Key, v: V) {
    k in routes && routes[k] == v
  }

  /** The route table refines history: `routes[k]` is `v` exactly when `v` owns `k`. */
  lemma {:induction false} RoutesRefineHistory<V>(es: seq<Event<V>>, n: nat, k: Key, v: V)
    requires n <= |es| && AllocatedOnce(es)
    ensures Points(State(es, n).routes, k, v) <==> Owns(es, n, k, v)
  {
    if n > 0 {
      RoutesRefineHistory(es, n - 1, k, v);
      OwnsStep(es, n - 1, k, v);
      RoutesStep(es, n - 1, k, v);
    }
  }

  lemma RoutesStep<V>(es: seq<Event<V>>, n: nat, k: Key, v: V)
    requires n < |es| && AllocatedOnce(es)
    ensures Points(State(es, n + 1).routes, k, v) <==>
              if Touches(es, n, k) then Sets(es, n, k, v)
              else Points(State(es, n).routes, k, v) && es[n] != Close(v)
  {
    match es[n] {
      case Allocate(w) =>
      case Write(w, to) => ActiveConns(es, n, w);
      case Permit(ip) =>
        ActiveConns(es, n, v);
        NewestIsLast(es, n, v);
      case Close(w) =>
    }
  }

  // --------------------------------------------------------------- dispatch

  /** Every owner is open. */
  lemma OwnerIsOpen<V>(es: seq<Event<V>>, n: nat, k: Key, v: V)
    requires n <= |es| && Owns(es, n, k, v)
    ensures Open(es, n, v)
  {
    var i: nat :| OwnedSince(es, n, i, k, v);
    assert Open(es, i, v);
    var a: nat :| OpenSince(es, i, a, v);
    assert OpenSince(es, n, a, v);
  }

  /** No allocated connection owns the key. */
  ghost predicate Unowned<V>(es: seq<Event<V>>, n: nat, k: Key)
    requires n <= |es|
  {
    forall i :: 0 <= i < n && es[i].Allocate? ==> !Owns(es, n, k, es[i].conn)
  }

  lemma UnownedKeys<V>(es: seq<Event<V>>, n: nat, k: Key)
    requires n <= |es| && AllocatedOnce(es)
    ensures k !in State(es, n).routes <==> Unowned(es, n, k)
  {
    if k in State(es, n).routes {
      var w := State(es, n).routes[k];
      RoutesRefineHistory(es, n, k, w);
      OwnerIsOpen(es, n, k, w);
      var i: nat :| OpenSince(es, n, i, w);
      assert es[i].conn == w;
    }
    forall i | 0 <= i < n && es[i].Allocate? && Owns(es, n, k, es[i].conn)
      ensures k in State(es, n).routes
    {
      RoutesRefineHistory(es, n, k, es[i].conn);
    }
  }

  /** Who gets a packet from `addr`: the owner of the exact endpoint, else the owner of its IP, else
      the newest open connection. Nothing else about the run matters. */
  lemma Dispatch<V>(es: seq<Event<V>>, n: nat, addr: Endpoint, v: V)
    requires n <= |es| && AllocatedOnce(es)
    ensures FindTarget(State(es, n), addr) == Some(v) <==>
              || Owns(es, n, Exact(addr), v)
              || (Unowned(es, n, Exact(addr)) && Owns(es, n, ByIP(addr.ip), v))
              || (Unowned(es, n, Exact(addr)) && Unowned(es, n, ByIP(addr.ip)) && Newest(es, n, v))
  {
    UnownedKeys(es, n, Exact(addr));
    UnownedKeys(es, n, ByIP(addr.ip));
    RoutesRefineHistory(es, n, Exact(addr), v);
    RoutesRefineHistory(es, n, ByIP(addr.ip), v);
    NewestIsLast(es, n, v);
  }

  /** A packet is dropped only when the port has no open connection, and a target is always open. */
  lemma DispatchReachesAnOpenConn<V>(es: seq<Event<V>>, n: nat, addr: Endpoint)
    requires n <= |es| && AllocatedOnce(es)
    ensures var target := FindTarget(State(es, n), addr);
            && (target == None <==> NoneOpen(es, n))
            && (target.Some? ==> Open(es, n, target.value))
  {
    var s := State(es, n);
    var target := FindTarget(s, addr);
    if target.Some? {
      var v := target.value;
      ActiveConns(es, n, v);
      Dispatch(es, n, addr, v);
      if Owns(es, n, Exact(addr), v) {
        OwnerIsOpen(es, n, Exact(addr), v);
      } else if Owns(es, n, ByIP(addr.ip), v) {
        OwnerIsOpen(es, n, ByIP(addr.ip), v);
      }
      var i: nat :| OpenSince(es, n, i, v);
      assert es[i].Allocate? && es[i].conn == v;
    } else {
      ActiveIsOpenList(es, n);
      OpenListEmpty(es, n, n);
    }
  }

  /** Once `v` has written to `addr`, packets from `addr` reach `v` until `v` closes or another
      connection writes to the very same endpoint; permissions and writes to other ports of the same
      IP make no difference. */
  lemma WriterKeepsEndpoint<V>(es: seq<Event<V>>, n: nat, i: nat, addr: Endpoint, v: V)
    requires i < n <= |es| && AllocatedOnce(es)
    requires es[i] == Write(v, Some(addr)) && Open(es, i, v)
    requires forall j :: i < j < n ==> es[j] != Close(v)
    requires forall j :: i < j < n && es[j].Write? && es[j].conn != v && Open(es, j, es[j].conn) ==>
               es[j].to != Some(addr)
    ensures FindTarget(State(es, n), addr) == Some(v)
    decreases n - i
  {
    var k := Exact(addr);
    if j: nat :| i < j < n && Touches(es, j, k) {
      // only `v` itself can have touched the endpoint: start again from that write
      assert es[j] == Write(v, Some(addr));
      WriterKeepsEndpoint(es, n, j, addr, v);
    } else {
      assert OwnedSince(es, n, i, k, v);
      Dispatch(es, n, addr, v);
    }
  }

  // --------------------------------------------------------- extending a run

  lemma {:induction false} StatePrefix<V>(a: seq<Event<V>>, b: seq<Event<V>>, n: nat)
    requires n <= |a| && n <= |b| && a[..n] == b[..n]
    ensures State(a, n) == State(b, n)
  {
    if n > 0 {
      assert a[..n][..n - 1] == b[..n][..n - 1];
      assert a[n - 1] == a[..n][n - 1] == b[..n][n - 1];
      StatePrefix(a, b, n - 1);
    }
  }

  lemma StateExtends<V>(es: seq<Event<V>>, e: Event<V>)
    ensures State(es + [e], |es| + 1) == Step(State(es, |es|), e)
  {
    StatePrefix(es + [e], es, |es|);
  }

  lemma RemoveFirstAt<V>(s: seq<V>, i: nat, v: V)
    requires i < |s| && s[i] == v && v !in s[..i]
    ensures RemoveFirst(s, v) == s[..i] + s[i + 1..]
  {
    if i > 0 {
      assert s[0] == s[..i][0] && s[..i][1..] == s[1..][..i - 1];
      RemoveFirstAt(s[1..], i - 1, v);
      assert s[..i] + s[i + 1..] == [s[0]] + (s[1..][..i - 1] + s[1..][i..]);
    }
  }

  /** Every connection a run has allocated. */
  ghost function ConnsOf<V>(es: seq<Event<V>>): set<V> {
    set i | 0 <= i < |es| && es[i].Allocate? :: es[i].conn
  }

  lemma ConnsExtend<V>(es: seq<Event<V>>, e: Event<V>)
    ensures ConnsOf(es + [e]) == ConnsOf(es) + if e.Allocate? then {e.conn} else {}
  {
    var all := es + [e];
    assert all[|es|] == e;
    assert forall i :: 0 <= i < |es| ==> all[i] == es[i];
    assert forall v :: v in ConnsOf(all) ==> v in ConnsOf(es) || (e.Allocate? && v == e.conn);
    forall v | v in ConnsOf(es)
      ensures v in ConnsOf(all)
    {
      var i :| 0 <= i < |es| && es[i].Allocate? && es[i].conn == v;
      assert all[i].conn == v;
    }
  }

  lemma AllocateFresh<V>(es: seq<Event<V>>, v: V)
    requires AllocatedOnce(es) && v !in ConnsOf(es)
    ensures AllocatedOnce(es + [Allocate(v)])
  {
    assert forall i :: 0 <= i < |es| && es[i].Allocate? ==> es[i].conn in ConnsOf(es);
  }

  lemma ActiveAreAllocated<V>(es: seq<Event<V>>, v: V)
    requires AllocatedOnce(es) && v in State(es, |es|).active
    ensures v in ConnsOf(es)
  {
    ActiveConns(es, |es|, v);
    var i: nat :| OpenSince(es, |es|, i, v);
    assert es[i].conn == v;
  }

  lemma {:induction false} RemoveFirstMembers<V>(s: seq<V>, v: V, w: V)
    requires forall a, b :: 0 <= a < b < |s| ==> s[a] != s[b]
    ensures w in RemoveFirst(s, v) <==> w in s && w != v
  {
    if s != [] {
      assert s == [s[0]] + s[1..];
      RemoveFirstMembers(s[1..], v, w);
    }
  }
}
