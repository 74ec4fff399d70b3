/** The relay ring itself (ring_relay.go): virtual connections that share the sockets of a fixed
    ring of ports. Every object carries a ghost log of what was done to it, and `Valid()` says that
    its fields are what that log means, so the theorems of RelayRoutes, RelayQueue and RelayRing
    hold of any object after any sequence of calls. */
module RingRelay {
  import opened Text
  import opened Wrappers
  import opened RelayRing
  import Q = RelayQueue
  import R = RelayRoutes

  /** A call of TurnMonitor.RecordRelayTraffic. */
  datatype Report = Report(relay: R.Endpoint, remote: Option<R.Endpoint>, bytes: nat)

  class VirtualPacketConn {
    const node: RingPortNode
    var inbound: seq<Q.Packet>
    var closed: bool
    ghost var ops: seq<Q.Op>

    ghost predicate Valid()
      reads this
    {
      Q.Queue(inbound, closed) == Q.State(ops, |ops|)
    }

    /** The connection belongs to its node, and the node is in order. */
    ghost predicate Attached()
      reads this, node, node.Conns()
    {
      node.Valid() && this in node.Conns()
    }

    constructor (node: RingPortNode)
      ensures Valid() && this.node == node && !closed && ops == []
    {
      this.node := node;
      inbound, closed, ops := [], false, [];
    }

    /** `deliver`: queue a packet, or drop it when the buffer is full or the connection closed. */
    method Deliver(data: seq<byte>, addr: R.Endpoint) returns (report: Option<Report>)
      requires Valid() && (node.monitored ==> node.relayAddr.Some?)
      modifies this
      ensures Valid() && closed == old(closed)
      ensures ops == old(ops) + [Q.Deliver(Q.Packet(data, addr))]
      ensures report == if node.monitored && Q.OutcomeAt(ops, |old(ops)|) == Q.Accepted
                        then Some(Report(node.relayAddr.value, Some(addr), |data|)) else None
    {
      Q.StateExtends(ops, Q.Deliver(Q.Packet(data, addr)));
      ops := ops + [Q.Deliver(Q.Packet(data, addr))];
      if closed {
        return None;
      }
      if |inbound| < Q.CAPACITY {
        inbound := inbound + [Q.Packet(data, addr)];
        if node.monitored {
          return Some(Report(node.relayAddr.value, Some(addr), |data|));
        }
      }
      return None;
    }

    /** `ReadFrom` into a buffer of `room` bytes; `Waits` stands for a call that is still blocked. */
    method ReadFrom(room: nat) returns (r: Q.Outcome)
      requires Valid()
      modifies this
      ensures Valid() && closed == old(closed)
      ensures ops == old(ops) + [Q.Read(room)] && r == Q.OutcomeAt(ops, |old(ops)|)
    {
      Q.StateExtends(ops, Q.Read(room));
      ops := ops + [Q.Read(room)];
      if inbound != [] {
        var pkt := inbound[0];
        inbound := inbound[1..];
        return Q.Got(Q.Copied(pkt.data, room), pkt.from);
      }
      return if closed then Q.ErrClosed else Q.Waits;
    }

    /** `WriteTo`: `sent` is what the physical socket reports; None is net.ErrClosed. */
    method WriteTo(addr: Option<R.Endpoint>, sent: nat) returns (n: Option<nat>, report: Option<Report>)
      requires Attached()
      modifies node`routes, node`events
      ensures Attached() && node.events == old(node.events) + [R.Write(this, addr)]
      ensures n == if closed then None else Some(sent)
      ensures report == if !closed && sent > 0 && node.monitored
                        then Some(Report(node.relayAddr.value, addr, sent)) else None
    {
      assert node.events != [];
      R.ActiveConns(node.events, |node.events|, this);
      R.StateExtends(node.events, R.Write(this, addr));
      R.ConnsExtend(node.events, R.Write(this, addr));
      node.events := node.events + [R.Write(this, addr)];
      if closed {
        return None, None;
      }
      if addr.Some? {
        node.RegisterRoute(addr.value, this);
      }
      n, report := Some(sent), None;
      if sent > 0 && node.monitored {
        report := Some(Report(node.relayAddr.value, addr, sent));
      }
    }

    /** `Close`: only the first call does anything. */
    method Close()
      requires Attached()
      modifies this, node`routes, node`activeConns, node`events
      ensures Attached() && closed
      ensures if old(closed) then node.events == old(node.events) && ops == old(ops)
              else node.events == old(node.events) + [R.Close(this)] && ops == old(ops) + [Q.Shut]
    {
      if closed {
        return;
      }
      closed := true;
      node.UnregisterVirtual(this);
      Q.StateExtends(ops, Q.Shut);
      ops := ops + [Q.Shut];
    }
  }

  class RingPortNode {
    const port: uint16
    const monitored: bool
    /** The public relay address; set when the physical socket has been bound. */
    var relayAddr: Option<R.Endpoint>
    var routes: map<R.Key, VirtualPacketConn>
    var activeConns: seq<VirtualPacketConn>
    ghost var events: seq<R.Event<VirtualPacketConn>>

    /** Every connection ever allocated on this port. */
    ghost function Conns(): set<VirtualPacketConn>
      reads this
    {
      R.ConnsOf(events)
    }

    /** The routing tables are what the log of events means. */
    ghost predicate Refines()
      reads this
    {
      R.AllocatedOnce(events) && R.NodeState(routes, activeConns) == R.State(events, |events|)
    }

    ghost predicate Valid()
      reads this, Conns()
    {
      && Refines()
      && (forall v :: v in Conns() ==> v.node == this && v.Valid() && (v.closed <==> v !in activeConns))
      && (relayAddr.None? ==> events == [])
    }

    constructor (port: uint16, monitored: bool)
      ensures Valid() && this.port == port && this.monitored == monitored
      ensures relayAddr == None && events == []
    {
      this.port, this.monitored := port, monitored;
      relayAddr, routes, activeConns, events := None, map[], [], [];
    }

    function FindTarget(addr: R.Endpoint): Option<VirtualPacketConn>
      reads this
    {
      if R.Exact(addr) in routes then Some(routes[R.Exact(addr)])
      else if R.ByIP(addr.ip) in routes then Some(routes[R.ByIP(addr.ip)])
      else if |activeConns| == 1 then Some(activeConns[0])
      else if |activeConns| > 0 then Some(activeConns[|activeConns| - 1])
      else None
    }

    method RegisterRoute(addr: R.Endpoint, v: VirtualPacketConn)
      modifies this`routes
      ensures routes == R.Register(old(routes), addr, v)
    {
      routes := routes[R.Exact(addr) := v];
      if addr.ip != "" {
        routes := routes[R.ByIP(addr.ip) := v];
      }
    }

    method UnregisterVirtual(v: VirtualPacketConn)
      requires Refines()
      modifies this`routes, this`activeConns, this`events
      ensures Refines() && events == old(events) + [R.Close(v)] && Conns() == old(Conns())
      ensures forall w :: w in Conns() ==> (w in activeConns <==> w in old(activeConns) && w != v)
    {
      DropRoutes(v);
      DropActive(v);
      forall w | w in Conns()
        ensures w in R.RemoveFirst(old(activeConns), v) <==> w in old(activeConns) && w != v
      {
        R.ActiveConns(events, |events|, w);
        R.RemoveFirstMembers(old(activeConns), v, w);
      }
      R.StateExtends(events, R.Close(v));
      R.ConnsExtend(events, R.Close(v));
      events := events + [R.Close(v)];
    }

    method DropRoutes(v: VirtualPacketConn)
      modifies this`routes
      ensures routes == R.DropTarget(old(routes), v)
    {
      var keys := routes.Keys;
      while keys != {}
        invariant keys <= routes.Keys <= old(routes).Keys
        invariant forall k :: k in routes ==> routes[k] == old(routes)[k]
        invariant forall k :: k in old(routes) && k !in routes ==> old(routes)[k] == v
        invariant forall k :: k in routes && k !in keys ==> routes[k] != v
      {
        var k :| k in keys;
        keys := keys - {k};
        if routes[k] == v {
          routes := routes - {k};
        }
      }
    }

    method DropActive(v: VirtualPacketConn)
      modifies this`activeConns
      ensures activeConns == R.RemoveFirst(old(activeConns), v)
    {
      for i := 0 to |activeConns|
        invariant activeConns == old(activeConns) && v !in activeConns[..i]
      {
        if activeConns[i] == v {
          R.RemoveFirstAt(activeConns, i, v);
          activeConns := activeConns[..i] + activeConns[i + 1..];
          return;
        }
      }
      R.RemoveAbsent(activeConns, v);
    }

    /** The part of `AllocatePacketConn` that concerns the chosen node: bind its socket on first use
        (`bindOk` says whether that works), then append a new connection. */
    method Attach(relayIP: string, bindOk: bool) returns (v: Option<VirtualPacketConn>)
      requires Valid()
      modifies this
      ensures Valid() && Conns() == old(Conns()) + if v.Some? then {v.value} else {}
      ensures v.Some? == relayAddr.Some? == (bindOk || old(relayAddr).Some?)
      ensures relayAddr.Some? ==>
                relayAddr == if old(relayAddr).Some? then old(relayAddr) else Some(R.Endpoint(relayIP, port as int))
      ensures v.None? ==> events == old(events)
      ensures v.Some? ==>
                && fresh(v.value) && v.value.node == this && !v.value.closed && v.value.ops == []
                && events == old(events) + [R.Allocate(v.value)]
    {
      if relayAddr.None? {
        if !bindOk {
          return None;
        }
        relayAddr := Some(R.Endpoint(relayIP, port as int));
      }
      var conn := new VirtualPacketConn(this);
      assert conn !in Conns();
      R.AllocateFresh(events, conn);
      R.StateExtends(events, R.Allocate(conn));
      R.ConnsExtend(events, R.Allocate(conn));
      events := events + [R.Allocate(conn)];
      activeConns := activeConns + [conn];
      return Some(conn);
    }

    /** The body of `RegisterPermission` for the node that was found. */
    method Permit(ip: string)
      requires Valid() && ip != "" && relayAddr.Some?
      modifies this`routes, this`events
      ensures Valid() && events == old(events) + [R.Permit(ip)]
    {
      R.StateExtends(events, R.Permit(ip));
      R.ConnsExtend(events, R.Permit(ip));
      events := events + [R.Permit(ip)];
      if |activeConns| > 0 {
        routes := routes[R.ByIP(ip) := activeConns[|activeConns| - 1]];
      }
    }

    /** One packet read from the physical socket (the body of the loop in `start`). */
    method Receive(data: seq<byte>, addr: R.Endpoint)
      returns (ghost target: Option<VirtualPacketConn>, report: Option<Report>)
      requires Valid()
      modifies Conns()
      ensures Valid() && target == FindTarget(addr) == R.FindTarget(R.State(events, |events|), addr)
      ensures target.None? <==> R.NoneOpen(events, |events|)
      ensures target.Some? ==> target.value in Conns() && !target.value.closed
      ensures forall v :: v in Conns() ==> v.closed == old(v.closed)
      ensures forall v :: v in Conns() ==>
                (v.ops == if data != [] && target == Some(v)
                          then old(v.ops) + [Q.Deliver(Q.Packet(data, addr))] else old(v.ops))
      ensures report ==
                if data != [] && target.Some? && monitored
                   && Q.OutcomeAt(target.value.ops, |target.value.ops| - 1) == Q.Accepted
                then Some(Report(relayAddr.value, Some(addr), |data|)) else None
    {
      target := FindTarget(addr);
      R.DispatchReachesAnOpenConn(events, |events|, addr);
      if target.Some? {
        R.ActiveConns(events, |events|, target.value);
        R.ActiveAreAllocated(events, target.value);
      }
      report := None;
      if data == [] {
        return;
      }
      var found := FindTarget(addr);
      if found.Some? {
        report := found.value.Deliver(data, addr);
      }
    }
  }

  datatype AllocError = UnsupportedNetwork | BindFailed(port: uint16)

  class RingRelayAddressGenerator {
    const relayIP: string
    const minPort: uint16
    const maxPort: uint16
    const monitored: bool
    var ring: seq<RingPortNode>
    var currentIndex: nat
    /** The index picked by each attempt so far. */
    ghost var picks: seq<nat>

    ghost function Size(): nat {
      if minPort <= maxPort then maxPort as int - minPort as int + 1 else 0
    }

    ghost function AllConns(): set<VirtualPacketConn>
      reads this, ring
    {
      set n, v | n in ring && v in n.Conns() :: v
    }

    /** Node number `i` serves port `minPort + i`. */
    ghost predicate RingInOrder()
      reads this, ring
    {
      && |ring| == Size()
      && (forall i :: 0 <= i < |ring| ==> ring[i].port as int == minPort as int + i && ring[i].monitored == monitored)
      && (forall i, j :: 0 <= i < j < |ring| ==> ring[i] != ring[j])
    }

    ghost predicate Valid()
      reads this, ring, AllConns()
    {
      && minPort <= maxPort
      && (ring == [] ==> picks == [] && currentIndex == 0)
      && (ring != [] ==>
            && RingInOrder()
            && RoundRobin(picks, |ring|) && currentIndex == Turn(|picks|, |ring|)
            && (forall n :: n in ring ==> n.Valid())
            && (forall n :: n in ring && n.relayAddr.Some? ==> n.relayAddr.value == R.Endpoint(relayIP, n.port as int)))
    }

    constructor (relayIP: string, minPort: uint16, maxPort: uint16, monitored: bool)
      ensures Valid() && ring == [] && picks == []
      ensures this.relayIP == relayIP && this.monitored == monitored
      ensures this.minPort == (if minPort <= maxPort then minPort else maxPort)
      ensures this.maxPort == (if minPort <= maxPort then maxPort else minPort)
    {
      this.relayIP, this.monitored := relayIP, monitored;
      this.minPort := if minPort > maxPort then maxPort else minPort;
      this.maxPort := if minPort > maxPort then minPort else maxPort;
      ring, currentIndex, picks := [], 0, [];
    }

    /** The ring-building loop. It needs an upper bound below 65535: see BuildStopsBelowMax. */
    method BuildRing()
      requires ring == [] && minPort <= maxPort < MAX_PORT
      modifies this`ring
      ensures RingInOrder() && fresh(ring)
      ensures forall n :: n in ring ==> n.Valid() && n.events == [] && n.relayAddr == None
    {
      var port := minPort;
      while port <= maxPort
        invariant minPort <= port <= maxPort + 1
        invariant |ring| == port as int - minPort as int
        invariant fresh(ring)
        invariant forall i :: 0 <= i < |ring| ==> ring[i].port as int == minPort as int + i
        invariant forall i, j :: 0 <= i < j < |ring| ==> ring[i] != ring[j]
        invariant forall n :: n in ring ==>
          n.Valid() && n.events == [] && n.relayAddr == None && n.monitored == monitored
        decreases maxPort as int + 1 - port as int
      {
        var node := new RingPortNode(port, monitored);
        ring := ring + [node];
        port := Next(port);
      }
    }

    /** The round-robin choice. */
    method PickNode() returns (node: RingPortNode)
      requires Valid() && ring != []
      modifies this`currentIndex, this`picks
      ensures Valid() && picks == old(picks) + [Turn(|old(picks)|, Size())]
      ensures node == ring[picks[|old(picks)|]] && node.port as int == minPort as int + picks[|old(picks)|]
    {
      node := ring[currentIndex];
      TakeTurn(picks, |ring|);
      currentIndex := (currentIndex + 1) % |ring|;
      picks := picks + [Turn(|picks|, |ring|)];
    }

    /** One attempt on a ring that has been built: attempt number i goes to port minPort + i mod n,
        also when binds fail. Only that node changes, and it gains exactly the new connection. */
    method NextConn(bindOk: bool)
      returns (conn: Option<VirtualPacketConn>, node: RingPortNode)
      requires Valid() && ring != []
      modifies this`currentIndex, this`picks, ring
      ensures Valid() && picks == old(picks) + [Turn(|old(picks)|, Size())]
      ensures node == ring[picks[|old(picks)|]] && node.port as int == minPort as int + picks[|old(picks)|]
      ensures forall n :: n in ring && n != node ==> unchanged(n)
      ensures conn.Some? <==> bindOk || old(node.relayAddr).Some?
      ensures node.events == old(node.events) + if conn.Some? then [R.Allocate(conn.value)] else []
      ensures conn.Some? ==> fresh(conn.value) && conn.value in node.Conns()
      ensures conn.Some? ==> conn.value.node == node && !conn.value.closed && conn.value.ops == []
    {
      node := PickNode();
      conn := node.Attach(relayIP, bindOk);
    }

    /** The event an allocation adds to its node. */
    static ghost function Gained(r: Result<VirtualPacketConn, AllocError>): seq<R.Event<VirtualPacketConn>> {
      if r.Success? then [R.Allocate(r.value)] else []
    }

    /** `AllocatePacketConn`; `bindOk` says whether net.ListenPacket would succeed on the port. The
        first call builds the ring. */
    method AllocatePacketConn(network: string, bindOk: bool) returns (r: Result<VirtualPacketConn, AllocError>)
      requires Valid() && (ring == [] && network in {"udp", "udp4", "udp6"} ==> maxPort < MAX_PORT)
      modifies this, ring
      ensures Valid() && (old(ring) != [] ==> ring == old(ring))
      ensures network !in {"udp", "udp4", "udp6"} ==>
                r == Failure(UnsupportedNetwork) && ring == old(ring) && picks == old(picks)
                && forall n :: n in ring ==> unchanged(n)
      ensures network in {"udp", "udp4", "udp6"} ==>
                && ring != [] && picks == old(picks) + [Turn(|old(picks)|, Size())]
                && var k := picks[|old(picks)|];
                   && (r.Failure? ==> !bindOk && r.error == BindFailed(ring[k].port))
                   && (r.Success? ==> fresh(r.value) && r.value.node == ring[k] && r.value in ring[k].Conns())
      ensures network in {"udp", "udp4", "udp6"} && old(ring) != [] ==>
                var k := Turn(|old(picks)|, Size());
                && (r.Success? <==> bindOk || old(ring[Turn(|picks|, Size())].relayAddr).Some?)
                && ring[k].events == old(ring[Turn(|picks|, Size())].events) + Gained(r)
                && (forall n :: n in ring && n != ring[k] ==> unchanged(n))
      ensures network in {"udp", "udp4", "udp6"} && old(ring) == [] ==>
                && (r.Success? <==> bindOk)
                && forall n :: n in ring ==> n.events == if n == ring[Turn(0, Size())] then Gained(r) else []
    {
      if network != "udp" && network != "udp4" && network != "udp6" {
        return Failure(UnsupportedNetwork);
      }
      if ring == [] {
        BuildRing();
      }
      var conn, node := NextConn(bindOk);
      r := if conn.Some? then Success(conn.value) else Failure(BindFailed(node.port));
    }

    /** `RegisterPermission`: at most one node has the relay address, and only that one is told. */
    method RegisterPermission(relayAddr: Option<R.Endpoint>, peerIP: string)
      requires Valid()
      modifies ring
      ensures Valid() && ring == old(ring) && picks == old(picks)
      ensures forall n :: n in ring ==>
                n.events == old(n.events) +
                  if relayAddr.Some? && peerIP != "" && n.relayAddr == relayAddr then [R.Permit(peerIP)] else []
    {
      if relayAddr.None? || peerIP == "" {
        return;
      }
      var i := 0;
      while i < |ring| && ring[i].relayAddr != relayAddr
        invariant i <= |ring|
        invariant forall j :: 0 <= j < i ==> ring[j].relayAddr != relayAddr
      {
        i := i + 1;
      }
      if i < |ring| {
        ring[i].Permit(peerIP);
      }
    }
  }
}
