/** How stable the ip_hash assignment is when backends go down and come back (src/load_balancer.rs, ip_hash). */
module IpHashStability {
  import opened Prelude
  import opened CircuitBreaker
  import opened LoadBalancer
  import opened RoundRobinFairness
  import Modular

  /** The slot `i` steps after the client's own, in circular order. */
  function SlotAt(n: nat, hash: nat, i: nat): (s: nat)
    requires n > 0
    ensures s < n
  {
    (hash + i) % n
  }

  /** How far a client walks, from offset `i` on, before it meets a healthy backend. */
  function Walk(h: seq<bool>, hash: nat, i: nat): (p: nat)
    requires h != [] && i <= |h|
    ensures i <= p <= |h|
    ensures forall k | i <= k < p :: !h[SlotAt(|h|, hash, k)]
    ensures p < |h| ==> h[SlotAt(|h|, hash, p)]
    decreases |h| - i
  {
    if i == |h| || h[SlotAt(|h|, hash, i)] then i else Walk(h, hash, i + 1)
  }

  function Assigned(h: seq<bool>, hash: nat): Option<nat>
    requires h != []
  {
    var p := Walk(h, hash, 0);
    if p == |h| then None else Some(SlotAt(|h|, hash, p))
  }

  /** While health is fixed, a selection returns the client's assigned backend. */
  lemma SelectionIsAssignment(p: Pool, h: seq<bool>, lo: Word, hi: Word, hash: nat, clock: seq<Word>)
    requires p.Valid() && |clock| == |p.circuits| > 0
    requires FixedHealth(p.circuits, h, lo, hi) && Within(clock, lo, hi)
    ensures Selected(p, IpHash, hash, clock).0 == Assigned(h, hash)
  {
    var slots, n := HashSlots(|h|, hash), |h|;
    var found, walked := FirstHealthy(p.circuits, slots, clock), Walk(h, hash, 0);
    if found < n {
      assert slots[found] == SlotAt(n, hash, found) && lo <= clock[found] <= hi;
    }
    if walked < n {
      assert slots[walked] == SlotAt(n, hash, walked) && lo <= clock[walked] <= hi;
    }
  }

  /** With all backends up a client is served by its address: an IPv4 one by its bytes, read as one number. */
  lemma AddressPicksBackend(p: Pool, h: seq<bool>, lo: Word, hi: Word, clock: seq<Word>,
                            a: Octet, b: Octet, c: Octet, d: Octet)
    requires p.Valid() && |clock| == |p.circuits| > 0
    requires FixedHealth(p.circuits, h, lo, hi) && Within(clock, lo, hi) && forall s | 0 <= s < |h| :: h[s]
    ensures var bytes := ((a as nat * 256 + b as nat) * 256 + c as nat) * 256 + d as nat;
            Selected(p, IpHash, Hash(Some(V4(a, b, c, d))), clock).0 == Some(bytes % |h|)
  {
    var hash := Hash(Some(V4(a, b, c, d)));
    SelectionIsAssignment(p, h, lo, hi, hash, clock);
    assert h[SlotAt(|h|, hash, 0)];
    WalkIsShortest(h, hash, 0);
  }

  /** If moreover `n` divides 256, the last byte alone decides. */
  lemma LastBytePicksBackend(p: Pool, h: seq<bool>, lo: Word, hi: Word, clock: seq<Word>,
                             a: Octet, b: Octet, c: Octet, d: Octet)
    requires p.Valid() && |clock| == |p.circuits| > 0 && 256 % |p.circuits| == 0
    requires FixedHealth(p.circuits, h, lo, hi) && Within(clock, lo, hi) && forall s | 0 <= s < |h| :: h[s]
    ensures Selected(p, IpHash, Hash(Some(V4(a, b, c, d))), clock).0 == Some(d as nat % |h|)
  {
    AddressPicksBackend(p, h, lo, hi, clock, a, b, c, d);
    Modular.DropMultiple((a as nat * 256 + b as nat) * 256 + c as nat, 256, d as nat, |h|);
  }

  lemma NoneIffAllDown(h: seq<bool>, hash: nat)
    requires h != []
    ensures Assigned(h, hash).None? <==> forall s | 0 <= s < |h| :: !h[s]
  {
    if Assigned(h, hash).None? {
      forall s | 0 <= s < |h|
        ensures !h[s]
      {
        Modular.Meets(hash, s, |h|);
        assert SlotAt(|h|, hash, Modular.Offset(hash, s, |h|)) == s;
      }
    }
  }

  lemma WalkIsShortest(h: seq<bool>, hash: nat, i: nat)
    requires i < |h| && h[SlotAt(|h|, hash, i)]
    ensures Walk(h, hash, 0) <= i
  {}

  lemma WalkAfterOutage(h: seq<bool>, x: nat, hash: nat)
    requires x < |h|
    ensures Walk(h, hash, 0) <= Walk(h[x := false], hash, 0)
    ensures Assigned(h, hash) != Some(x) ==> Walk(h[x := false], hash, 0) == Walk(h, hash, 0)
  {}

  /** Taking a backend down moves only the clients that were on it; its return moves only clients back to it. */
  lemma OutageMovesOnlyItsClients(h: seq<bool>, x: nat, hash: nat)
    requires x < |h| && h[x]
    ensures Assigned(h[x := false], hash) != Assigned(h, hash) <==> Assigned(h, hash) == Some(x)
  {}

  /** All clients of a failed backend move together, to the first healthy backend after it. */
  lemma OutageClientsStayTogether(h: seq<bool>, x: nat, hash: nat)
    requires x < |h| && Assigned(h, hash) == Some(x)
    ensures Assigned(h[x := false], hash) == Assigned(h[x := false], x)
  {
    var n, down, p := |h|, h[x := false], Walk(h, hash, 0);
    var q, r := Walk(down, hash, 0), Walk(down, x, 0);
    forall k: nat
      ensures SlotAt(n, hash, p + k) == SlotAt(n, x, k)
    {
      Modular.Add(hash + p, k, n);
    }
    WalkAfterOutage(h, x, hash);
    if q < n {
      assert SlotAt(n, hash, p + (q - p)) == SlotAt(n, x, q - p);
      WalkIsShortest(down, x, q - p);
      assert SlotAt(n, hash, p + r) == SlotAt(n, x, r);
      WalkIsShortest(down, hash, p + r);
    } else {
      NoneIffAllDown(down, hash);
      NoneIffAllDown(down, x);
    }
  }

  /** The same two facts for whole selections from pools that differ in one backend's health. */
  lemma SelectionsDifferOnlyForItsClients(up: Pool, down: Pool, h: seq<bool>, x: nat, lo: Word, hi: Word,
                                          hash: nat, clock: seq<Word>)
    requires up.Valid() && down.Valid() && |clock| == |up.circuits| && x < |h| && h[x]
    requires FixedHealth(up.circuits, h, lo, hi) && FixedHealth(down.circuits, h[x := false], lo, hi)
    requires Within(clock, lo, hi)
    ensures var (before, after) := (Selected(up, IpHash, hash, clock).0, Selected(down, IpHash, hash, clock).0);
            && (before != after <==> before == Some(x))
            && (before == Some(x) ==> after == Assigned(h[x := false], x))
  {
    SelectionIsAssignment(up, h, lo, hi, hash, clock);
    SelectionIsAssignment(down, h[x := false], lo, hi, hash, clock);
    OutageMovesOnlyItsClients(h, x, hash);
    if Assigned(h, hash) == Some(x) {
      OutageClientsStayTogether(h, x, hash);
    }
  }
}
