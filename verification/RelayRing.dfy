/** The arithmetic of the port ring (ring_relay.go): the 16-bit loop that builds it and the
    round-robin index that walks it. */
module RelayRing {
  newtype uint16 = x: int | 0 <= x < 0x1_0000

  const MAX_PORT: uint16 := 0xFFFF

  /** `port++` on a uint16. */
  function Next(port: uint16): uint16 {
    if port == MAX_PORT then 0 else port + 1
  }

  // ---------------------------------------------------------- the build loop

  /** The loop variable when the guard `port <= maxPort` is evaluated for the n-th time. */
  ghost function PortAt(minPort: uint16, n: nat): uint16 {
    if n == 0 then minPort else Next(PortAt(minPort, n - 1))
  }

  /** The guard fails sooner or later. */
  ghost predicate BuildStops(minPort: uint16, maxPort: uint16) {
    exists n: nat :: PortAt(minPort, n) > maxPort
  }

  lemma {:induction false} PortAtCounts(minPort: uint16, n: nat)
    requires minPort as int + n <= MAX_PORT as int
    ensures PortAt(minPort, n) as int == minPort as int + n
  {
    if n > 0 {
      PortAtCounts(minPort, n - 1);
    }
  }

  /** The loop ends for exactly the upper bounds below 65535; at 65535 no uint16 fails the guard. */
  lemma BuildStopsBelowMax(minPort: uint16, maxPort: uint16)
    ensures BuildStops(minPort, maxPort) <==> maxPort < MAX_PORT
  {
    if maxPort < MAX_PORT {
      if minPort > maxPort {
        assert PortAt(minPort, 0) > maxPort;
      } else {
        var n := maxPort as int - minPort as int + 1;
        PortAtCounts(minPort, n);
        assert PortAt(minPort, n) > maxPort;
      }
    }
  }

  // ------------------------------------------------------------- round robin

  function Turn(i: nat, n: nat): (k: nat)
    requires n > 0
    ensures k < n
  {
    i % n
  }

  /** Attempt number `i` picks node `i mod n`. */
  ghost predicate RoundRobin(picks: seq<nat>, n: nat) {
    n > 0 && forall i :: 0 <= i < |picks| ==> picks[i] == Turn(i, n)
  }

  ghost function Occurrences(picks: seq<nat>, r: nat): nat {
    if picks == [] then 0
    else Occurrences(picks[..|picks| - 1], r) + if picks[|picks| - 1] == r then 1 else 0
  }

  lemma MulMonotone(x: nat, y: nat, n: nat)
    requires x <= y
    ensures x * n <= y * n
  {
    assert (y - x) * n >= 0;
  }

  lemma ModUnique(a: nat, n: nat, q: nat, r: nat)
    requires n > 0 && a == q * n + r && r < n
    ensures a % n == r
  {
    var q', r' := a / n, a % n;
    assert a == q' * n + r';
    if q < q' {
      MulMonotone(q + 1, q', n);
    } else if q' < q {
      MulMonotone(q' + 1, q, n);
    }
  }

  /** Stepping the index as the code does keeps it equal to the number of attempts modulo n. */
  lemma NextTurn(m: nat, n: nat)
    requires n > 0
    ensures (m % n + 1) % n == (m + 1) % n
  {
    var q, r := m / n, m % n;
    assert m == q * n + r;
    if r == n - 1 {
      assert (q + 1) * n == q * n + n;
      ModUnique(m + 1, n, q + 1, 0);
      ModUnique(r + 1, n, 1, 0);
    } else {
      ModUnique(m + 1, n, q, r + 1);
      ModUnique(r + 1, n, 0, r + 1);
    }
  }

  lemma TakeTurn(picks: seq<nat>, n: nat)
    requires RoundRobin(picks, n)
    ensures RoundRobin(picks + [Turn(|picks|, n)], n)
    ensures (Turn(|picks|, n) + 1) % n == Turn(|picks| + 1, n)
  {
    NextTurn(|picks|, n);
  }

  /** After `q` full laps and `t` further attempts, node `r` was tried `q` times, once more if it is
      among the first `t`. */
  lemma {:induction false} OccurrencesCount(picks: seq<nat>, n: nat, q: nat, t: nat, r: nat)
    requires RoundRobin(picks, n) && |picks| == q * n + t && t < n && r < n
    ensures Occurrences(picks, r) == q + if r < t then 1 else 0
    decreases |picks|
  {
    var m := |picks| - 1;
    if t > 0 {
      MulMonotone(0, q, n);
      ModUnique(m, n, q, t - 1);
      OccurrencesCount(picks[..m], n, q, t - 1, r);
    } else if q > 0 {
      MulMonotone(1, q, n);
      assert m == (q - 1) * n + (n - 1);
      ModUnique(m, n, q - 1, n - 1);
      OccurrencesCount(picks[..m], n, q - 1, n - 1, r);
    }
  }

  /** However many attempts were made, no two ports were tried a different number of times by more
      than one. */
  lemma RoundRobinIsFair(picks: seq<nat>, n: nat, r: nat, s: nat)
    requires RoundRobin(picks, n) && r < n && s < n
    ensures Occurrences(picks, r) <= Occurrences(picks, s) + 1
  {
    var q, t := |picks| / n, |picks| % n;
    assert |picks| == q * n + t;
    OccurrencesCount(picks, n, q, t, r);
    OccurrencesCount(picks, n, q, t, s);
  }
}
