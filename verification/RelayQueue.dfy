/** The bounded inbound queue of a virtual relay connection (ring_relay.go): `deliver`, `ReadFrom`
    and the queue side of `Close`. */
module RelayQueue {
  import opened RelayRoutes
  import opened Text

  const CAPACITY: nat := 256

  datatype Packet = Packet(data: seq<byte>, from: Endpoint)

  datatype Queue = Queue(inbound: seq<Packet>, closed: bool)

  /** A `Read` that finds an open, empty queue waits; as an operation of a run it has no effect. */
  datatype Op = Deliver(pkt: Packet) | Read(room: nat) | Shut

  datatype Outcome =
    | Accepted
    | Dropped
    | Refused
    | Got(data: seq<byte>, from: Endpoint)
    | Waits
    | ErrClosed
    | Done

  function Step(q: Queue, op: Op): (Queue, Outcome) {
    match op
    case Deliver(pkt) =>
      if q.closed then (q, Refused)
      else if |q.inbound| < CAPACITY then (q.(inbound := q.inbound + [pkt]), Accepted)
      else (q, Dropped)
    case Read(room) =>
      if q.inbound != [] then
        var pkt := q.inbound[0];
        (q.(inbound := q.inbound[1..]), Got(Copied(pkt.data, room), pkt.from))
      else if q.closed then (q, ErrClosed)
      else (q, Waits)
    case Shut => (q.(closed := true), Done)
  }

  /** Go's copy(p, data) into a buffer of `room` bytes. */
  function Copied(data: seq<byte>, room: nat): (d: seq<byte>)
    ensures d <= data && |d| == (if |data| < room then |data| else room)
  {
    if |data| <= room then data else data[..room]
  }

  function State(ops: seq<Op>, n: nat): Queue
    requires n <= |ops|
  {
    if n == 0 then Queue([], false) else Step(State(ops, n - 1), ops[n - 1]).0
  }

  function OutcomeAt(ops: seq<Op>, i: nat): Outcome
    requires i < |ops|
  {
    Step(State(ops, i), ops[i]).1
  }

  /** What the traffic monitor is told when `deliver` is called with an outcome. */
  function Charge(op: Op, r: Outcome): nat {
    if op.Deliver? && r == Accepted then |op.pkt.data| else 0
  }

  function Charged(ops: seq<Op>, n: nat): nat
    requires n <= |ops|
  {
    if n == 0 then 0 else Charged(ops, n - 1) + Charge(ops[n - 1], OutcomeAt(ops, n - 1))
  }

  // -------------------------------------------------- the run, without states

  ghost predicate ShutBefore(ops: seq<Op>, n: nat)
    requires n <= |ops|
  {
    exists j :: 0 <= j < n && ops[j] == Shut
  }

  /** Packets that were let in during the first `n` operations, in order. */
  ghost function Arrived(ops: seq<Op>, n: nat): seq<Packet>
    requires n <= |ops|
    decreases n, 1
  {
    if n == 0 then []
    else if LetsIn(ops, n - 1) then Arrived(ops, n - 1) + [ops[n - 1].pkt]
    else Arrived(ops, n - 1)
  }

  ghost function Taken(ops: seq<Op>, n: nat): nat
    requires n <= |ops|
    decreases n, 1
  {
    if n == 0 then 0
    else if ops[n - 1].Read? && Taken(ops, n - 1) < |Arrived(ops, n - 1)| then Taken(ops, n - 1) + 1
    else Taken(ops, n - 1)
  }

  /** A delivery gets in when the connection is not closed and fewer than 256 packets are waiting. */
  ghost predicate LetsIn(ops: seq<Op>, i: nat)
    requires i < |ops|
    decreases i, 2
  {
    ops[i].Deliver? && !ShutBefore(ops, i) && |Arrived(ops, i)| - Taken(ops, i) < CAPACITY
  }

  ghost function TotalBytes(pkts: seq<Packet>): nat {
    if pkts == [] then 0 else TotalBytes(pkts[..|pkts| - 1]) + |pkts[|pkts| - 1].data|
  }

  // -------------------------------------------------------------- properties

  /** The queue is exactly what has arrived and has not been taken, and never more than 256 packets. */
  lemma {:induction false} QueueIsBacklog(ops: seq<Op>, n: nat)
    requires n <= |ops|
    ensures Taken(ops, n) <= |Arrived(ops, n)| <= Taken(ops, n) + CAPACITY
    ensures State(ops, n) == Queue(Arrived(ops, n)[Taken(ops, n)..], ShutBefore(ops, n))
  {
    if n > 0 {
      QueueIsBacklog(ops, n - 1);
      if ShutBefore(ops, n - 1) {
        var j :| 0 <= j < n - 1 && ops[j] == Shut;
        assert ShutBefore(ops, n);
      } else if ops[n - 1] == Shut {
        assert ShutBefore(ops, n);
      }
    }
  }

  lemma {:induction false} ArrivedGrows(ops: seq<Op>, m: nat, n: nat)
    requires m <= n <= |ops|
    ensures Arrived(ops, m) <= Arrived(ops, n)
    ensures ShutBefore(ops, m) ==> Arrived(ops, m) == Arrived(ops, n)
  {
    if m < n {
      ArrivedGrows(ops, m, n - 1);
      if ShutBefore(ops, m) {
        assert ShutBefore(ops, n - 1);
      }
    }
  }

  /** First in, first out: the k-th successful read hands over the k-th packet ever let in (cut to the
      reader's buffer), whatever arrives later. Packets read are a prefix of packets accepted. */
  lemma ReadsFollowArrivals(ops: seq<Op>, i: nat, n: nat)
    requires i < n <= |ops| && ops[i].Read? && OutcomeAt(ops, i).Got?
    ensures var k := Taken(ops, i);
            && Taken(ops, i + 1) == k + 1 && k < |Arrived(ops, n)|
            && OutcomeAt(ops, i)
                 == Got(Copied(Arrived(ops, n)[k].data, ops[i].room), Arrived(ops, n)[k].from)
  {
    QueueIsBacklog(ops, i);
    ArrivedGrows(ops, i, n);
  }

  /** The answer of every operation, from the history alone. A read hands over the oldest packet let in and
      not yet taken, if there is one, whether the connection is open or closed; a delivery is refused
      after a close, let in while fewer than 256 packets wait, and dropped otherwise. */
  lemma OutcomesAreHistory(ops: seq<Op>, i: nat)
    requires i < |ops|
    ensures var k := Taken(ops, i);
            OutcomeAt(ops, i) ==
              match ops[i]
              case Read(room) =>
                if k < |Arrived(ops, i)| then Got(Copied(Arrived(ops, i)[k].data, room), Arrived(ops, i)[k].from)
                else if ShutBefore(ops, i) then ErrClosed
                else Waits
              case Deliver(_) =>
                if ShutBefore(ops, i) then Refused else if |Arrived(ops, i)| - k < 256 then Accepted else Dropped
              case Shut => Done
  {
    QueueIsBacklog(ops, i);
  }

  /** After a close nothing is let in, and everything buffered before it is still read, in order; only
      then do reads fail. */
  lemma BufferedPacketsSurviveClose(ops: seq<Op>, c: nat, i: nat)
    requires c < i < |ops| && ops[c] == Shut && ops[i].Read?
    ensures var k := Taken(ops, i);
            OutcomeAt(ops, i) ==
              if k < |Arrived(ops, c)|
              then Got(Copied(Arrived(ops, c)[k].data, ops[i].room), Arrived(ops, c)[k].from)
              else ErrClosed
  {
    assert ShutBefore(ops, c + 1);
    ArrivedGrows(ops, c + 1, i);
    QueueIsBacklog(ops, i);
    assert ShutBefore(ops, i);
    assert Arrived(ops, c + 1) == Arrived(ops, c);
  }

  function Count(ops: seq<Op>, n: nat, r: Outcome): nat
    requires n <= |ops|
  {
    if n == 0 then 0 else Count(ops, n - 1, r) + if OutcomeAt(ops, n - 1) == r then 1 else 0
  }

  function Delivered(ops: seq<Op>, n: nat): nat
    requires n <= |ops|
  {
    if n == 0 then 0 else Delivered(ops, n - 1) + if ops[n - 1].Deliver? then 1 else 0
  }

  lemma OutcomeOfDelivery(ops: seq<Op>, i: nat)
    requires i < |ops|
    ensures OutcomeAt(ops, i) == Accepted <==> LetsIn(ops, i)
    ensures ops[i].Deliver? <==> OutcomeAt(ops, i) in {Accepted, Dropped, Refused}
  {
    QueueIsBacklog(ops, i);
  }

  /** Nothing is lost silently: packets handed to `deliver` were let in, dropped on a full queue, or
      came after the close. */
  lemma {:induction false} DeliveriesAreAccountedFor(ops: seq<Op>, n: nat)
    requires n <= |ops|
    ensures Delivered(ops, n) == |Arrived(ops, n)| + Count(ops, n, Dropped) + Count(ops, n, Refused)
  {
    if n > 0 {
      DeliveriesAreAccountedFor(ops, n - 1);
      OutcomeOfDelivery(ops, n - 1);
    }
  }

  lemma TotalBytesSnoc(pkts: seq<Packet>, pkt: Packet)
    ensures TotalBytes(pkts + [pkt]) == TotalBytes(pkts) + |pkt.data|
  {
    assert (pkts + [pkt])[..|pkts|] == pkts;
  }

  /** The traffic monitor is charged exactly the bytes let in. */
  lemma {:induction false} ChargedIsArrivedBytes(ops: seq<Op>, n: nat)
    requires n <= |ops|
    ensures Charged(ops, n) == TotalBytes(Arrived(ops, n))
  {
    if n > 0 {
      ChargedIsArrivedBytes(ops, n - 1);
      OutcomeOfDelivery(ops, n - 1);
      if LetsIn(ops, n - 1) {
        TotalBytesSnoc(Arrived(ops, n - 1), ops[n - 1].pkt);
      }
    }
  }

  // --------------------------------------------------------- extending a run

  lemma {:induction false} StatePrefix(a: seq<Op>, b: seq<Op>, n: nat)
    requires n <= |a| && n <= |b| && a[..n] == b[..n]
    ensures State(a, n) == State(b, n)
  {
    if n > 0 {
      assert a[..n][..n - 1] == b[..n][..n - 1];
      assert a[n - 1] == a[..n][n - 1] == b[..n][n - 1];
      StatePrefix(a, b, n - 1);
    }
  }

  lemma StateExtends(ops: seq<Op>, op: Op)
    ensures State(ops + [op], |ops| + 1) == Step(State(ops, |ops|), op).0
    ensures OutcomeAt(ops + [op], |ops|) == Step(State(ops, |ops|), op).1
  {
    StatePrefix(ops + [op], ops, |ops|);
  }
}
