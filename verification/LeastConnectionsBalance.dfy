/**
 How far least_connections lets the active counts drift apart (src/load_balancer.rs,
 least_connections, select). The scan is one step and the acquisition that follows it is
 another; at most `k` calls are between the two at any time. No request ends and the set
 of healthy backends is fixed.
 */
module LeastConnectionsBalance {
  import opened Prelude
  import opened CircuitBreaker
  import opened LoadBalancer
  import opened RoundRobinFairness

  /** `pending[b]` calls have chosen backend `b` and not yet counted themselves on it. */
  datatype System = System(pool: Pool, pending: seq<nat>)

  datatype Action =
    | Scan(clock: seq<Word>)
    | Acquire(b: nat)

  function Sum(s: seq<nat>): nat {
    if s == [] then 0 else Sum(s[..|s| - 1]) + s[|s| - 1]
  }

  /** One step; a scan waits while `k` calls are already on their way. */
  function Apply(k: nat, s: System, a: Action): System
    requires s.pool.Valid() && |s.pending| == |s.pool.active|
  {
    match a
    case Scan(clock) =>
      if |clock| != |s.pool.circuits| || Sum(s.pending) >= k then s
      else
        var pick := LeastLoaded(s.pool.circuits, s.pool.active, clock, |clock|);
        var pool := s.pool.(circuits := AllQueried(s.pool.circuits, clock));
        if pick.None? then System(pool, s.pending)
        else System(pool, s.pending[pick.value := s.pending[pick.value] + 1])
    case Acquire(b) =>
      if b >= |s.pending| || s.pending[b] == 0 then s
      else System(Acquired(s.pool, Some(b)), s.pending[b := s.pending[b] - 1])
  }

  function Run(k: nat, s: System, acts: seq<Action>): (s': System)
    requires s.pool.Valid() && |s.pending| == |s.pool.active|
    ensures s'.pool.Valid() && |s'.pending| == |s'.pool.active| == |s.pool.active|
  {
    if acts == [] then s else Apply(k, Run(k, s, acts[..|acts| - 1]), acts[|acts| - 1])
  }

  lemma {:induction false} SumUpdate(s: seq<nat>, b: nat, v: nat)
    requires b < |s|
    ensures Sum(s[b := v]) == Sum(s) - s[b] + v && s[b] <= Sum(s)
  {
    var n := |s| - 1;
    if b == n {
      assert s[b := v][..n] == s[..n];
    } else {
      SumUpdate(s[..n], b, v);
      assert s[b := v][..n] == s[..n][b := v];
    }
  }

  /** Counting every call from its scan on, no healthy backend is more than `k` above another's count. */
  ghost predicate Inv(k: nat, h: seq<bool>, lo: Word, hi: Word, s: System, limit: nat) {
    && s.pool.Valid() && |s.pending| == |h| && FixedHealth(s.pool.circuits, h, lo, hi)
    && Sum(s.pending) <= k
    && (forall b | 0 <= b < |h| :: s.pool.active[b] + s.pending[b] <= limit)
    && forall b, c | 0 <= b < |h| && 0 <= c < |h| && h[b] && h[c] ::
         s.pool.active[b] + s.pending[b] <= s.pool.active[c] + k
  }

  ghost predicate ClocksWithin(acts: seq<Action>, lo: Word, hi: Word) {
    forall i | 0 <= i < |acts| && acts[i].Scan? :: Within(acts[i].clock, lo, hi)
  }

  lemma QueriesKeepHealth(cs: seq<Circuit>, h: seq<bool>, lo: Word, hi: Word, clock: seq<Word>)
    requires FixedHealth(cs, h, lo, hi) && Within(clock, lo, hi) && |cs| == |clock|
    ensures FixedHealth(AllQueried(cs, clock), h, lo, hi)
    ensures forall i | 0 <= i < |cs| :: Healthy(cs[i], clock[i]) == h[i]
  {
    forall i | 0 <= i < |cs|
      ensures Healthy(cs[i], clock[i]) == h[i]
    {
      assert lo <= clock[i] <= hi;
    }
  }

  lemma ScanKeepsInv(k: nat, h: seq<bool>, lo: Word, hi: Word, s: System, clock: seq<Word>, limit: nat)
    requires Inv(k, h, lo, hi, s, limit) && Within(clock, lo, hi)
    ensures Inv(k, h, lo, hi, Apply(k, s, Scan(clock)), limit + 1)
  {
    if |clock| == |h| && Sum(s.pending) < k {
      QueriesKeepHealth(s.pool.circuits, h, lo, hi, clock);
      hide Healthy, AllQueried, QueriedUpTo, LeastLoaded;
      var pick := LeastLoaded(s.pool.circuits, s.pool.active, clock, |clock|);
      if pick.Some? {
        SumUpdate(s.pending, pick.value, s.pending[pick.value] + 1);
      }
    }
  }

  lemma AcquireKeepsInv(k: nat, h: seq<bool>, lo: Word, hi: Word, s: System, b: nat, limit: nat)
    requires Inv(k, h, lo, hi, s, limit) && limit < WORD
    ensures Inv(k, h, lo, hi, Apply(k, s, Acquire(b)), limit)
  {
    if b < |h| && s.pending[b] > 0 {
      SumUpdate(s.pending, b, s.pending[b] - 1);
    }
  }

  lemma {:induction false} InvAlways(k: nat, h: seq<bool>, lo: Word, hi: Word, s: System, acts: seq<Action>, start: nat)
    requires Inv(k, h, lo, hi, s, start) && ClocksWithin(acts, lo, hi) && start + |acts| < WORD
    ensures Inv(k, h, lo, hi, Run(k, s, acts), start + |acts|)
  {
    if acts != [] {
      var n := |acts| - 1;
      InvAlways(k, h, lo, hi, s, acts[..n], start);
      match acts[n]
      case Scan(clock) => ScanKeepsInv(k, h, lo, hi, Run(k, s, acts[..n]), clock, start + n);
      case Acquire(b) => AcquireKeepsInv(k, h, lo, hi, Run(k, s, acts[..n]), b, start + n);
    }
  }

  lemma {:induction false} NothingPending(n: nat)
    ensures Sum(seq(n, _ => 0)) == 0
  {
    if n > 0 {
      var s: seq<nat> := seq(n, _ => 0);
      assert s[..n - 1] == seq(n - 1, _ => 0);
      NothingPending(n - 1);
    }
  }

  /**
   From equal counts, in every interleaving with at most `k` calls between choosing and
   acquiring, the counts of any two healthy backends differ by at most `k`.
   */
  lemma ImbalanceIsBounded(k: nat, p: Pool, a: nat, h: seq<bool>, lo: Word, hi: Word, acts: seq<Action>, b: nat, c: nat)
    requires p.Valid() && FixedHealth(p.circuits, h, lo, hi) && ClocksWithin(acts, lo, hi)
    requires a + |acts| < WORD && forall i | 0 <= i < |p.active| :: p.active[i] == a
    requires b < |h| && c < |h| && h[b] && h[c]
    ensures var s := Run(k, System(p, seq(|h|, _ => 0)), acts);
            s.pool.active[b] <= s.pool.active[c] + k
  {
    NothingPending(|h|);
    InvAlways(k, h, lo, hi, System(p, seq(|h|, _ => 0)), acts, a);
  }

  // ---------------------------------------------------------------------------------
  // The bound is reached
  // ---------------------------------------------------------------------------------

  /** `done` calls have been counted on the first backend, and `pending` more have chosen it. */
  function Piled(n: nat, done: Word, pending: nat): System
    requires n > 0
  {
    var zeros: seq<Word> := seq(n, _ => 0);
    var none: seq<nat> := seq(n, _ => 0);
    System(FreshPool(n).(active := zeros[0 := done]), none[0 := pending])
  }

  lemma PiledIsValid(n: nat, done: Word, pending: nat)
    requires 0 < n < WORD / 2
    ensures Piled(n, done, pending).pool.Valid()
    ensures |Piled(n, done, pending).pending| == |Piled(n, done, pending).pool.active| == n
  {}

  lemma RunExtends(k: nat, s: System, acts: seq<Action>, a: Action, before: System, after: System)
    requires s.pool.Valid() && |s.pending| == |s.pool.active|
    requires Run(k, s, acts) == before && Apply(k, before, a) == after
    ensures Run(k, s, acts + [a]) == after
  {
    hide Apply;
    assert (acts + [a])[..|acts|] == acts;
  }

  function Zeros(n: nat): seq<Word> {
    seq(n, _ => 0)
  }

  /** While nothing has been counted, a scan finds the first backend again. */
  lemma ScanPiles(k: nat, n: nat, m: nat)
    requires 0 < n < WORD / 2 && m < k
    ensures Apply(k, Piled(n, 0, m), Scan(Zeros(n))) == Piled(n, 0, m + 1)
  {
    var s, clock := Piled(n, 0, m), Zeros(n);
    NothingPending(n);
    SumUpdate(seq(n, _ => 0), 0, m);
    assert Sum(s.pending) == m;
    assert Healthy(s.pool.circuits[0], clock[0]) && s.pool.active[0] == 0;
    assert LeastLoaded(s.pool.circuits, s.pool.active, clock, n) == Some(0);
    assert AllQueried(s.pool.circuits, clock) == s.pool.circuits;
    assert s.pending[0 := m + 1] == Piled(n, 0, m + 1).pending;
  }

  lemma AcquirePiles(k: nat, n: nat, m: nat, p: nat)
    requires 0 < n < WORD / 2 && m + 1 < WORD && p > 0
    ensures Apply(k, Piled(n, m, p), Acquire(0)) == Piled(n, m + 1, p - 1)
  {}

  lemma NothingRun(k: nat, n: nat)
    requires 0 < n < WORD / 2
    ensures Run(k, Piled(n, 0, 0), []) == Piled(n, 0, 0)
  {}

  lemma {:induction false} ScansPileUp(k: nat, n: nat, m: nat) returns (acts: seq<Action>)
    requires 0 < n < WORD / 2 && m <= k
    ensures Run(k, Piled(n, 0, 0), acts) == Piled(n, 0, m)
  {
    hide Run, Apply, Piled;
    NothingRun(k, n);
    if m == 0 {
      acts := [];
    } else {
      acts := ScansPileUp(k, n, m - 1);
      PiledIsValid(n, 0, 0);
      ScanPiles(k, n, m - 1);
      RunExtends(k, Piled(n, 0, 0), acts, Scan(Zeros(n)), Piled(n, 0, m - 1), Piled(n, 0, m));
      acts := acts + [Scan(Zeros(n))];
    }
  }

  lemma {:induction false} AcquisitionsDrain(k: nat, n: nat, m: nat, left: nat) returns (acts: seq<Action>)
    requires 0 < n < WORD / 2 && m + left == k < WORD
    ensures Run(k, Piled(n, 0, 0), acts) == Piled(n, m, left)
  {
    hide Run, Apply, Piled;
    if m == 0 {
      acts := ScansPileUp(k, n, k);
    } else {
      acts := AcquisitionsDrain(k, n, m - 1, left + 1);
      PiledIsValid(n, 0, 0);
      AcquirePiles(k, n, m - 1, left + 1);
      RunExtends(k, Piled(n, 0, 0), acts, Acquire(0), Piled(n, m - 1, left + 1), Piled(n, m, left));
      acts := acts + [Acquire(0)];
    }
  }

  /** With two idle backends or more, `k` concurrent calls do drive two counts exactly `k` apart. */
  lemma ImbalanceIsReached(k: nat, n: nat) returns (acts: seq<Action>)
    requires 2 <= n < WORD / 2 && k < WORD
    ensures var s := Run(k, System(FreshPool(n), seq(n, _ => 0)), acts);
            s.pool.active[0] == s.pool.active[1] + k
  {
    acts := AcquisitionsDrain(k, n, k, 0);
    assert Piled(n, 0, 0) == System(FreshPool(n), seq(n, _ => 0));
  }
}
