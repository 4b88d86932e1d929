/**
 The load balancer of src/load_balancer.rs: three selection strategies over the backends'
 circuit breakers, and the feedback by URL. Every health query reads the clock for itself:
 `clock[i]` is the reading of the i-th query of a selection.
 */
module LoadBalancer {
  import opened Prelude
  import opened CircuitBreaker

  datatype Strategy = RoundRobin | LeastConnections | IpHash

  /** All mutable state of a balancer: breakers, active counts and the round-robin cursor. */
  datatype Pool = Pool(circuits: seq<Circuit>, active: seq<Word>, cursor: Word) {
    ghost predicate Valid() {
      |circuits| == |active| < WORD / 2
    }
  }

  /** A balancer of `n` new backends. */
  function FreshPool(n: nat): Pool {
    Pool(seq(n, _ => FRESH), seq(n, _ => 0), 0)
  }

  // ---------------------------------------------------------------------------------
  // The order in which slots are probed
  // ---------------------------------------------------------------------------------

  function Ticket(cursor: Word, i: nat): Word
    requires i < WORD
  {
    if cursor + i >= WORD then cursor + i - WORD else cursor + i
  }

  function CursorSlots(n: nat, cursor: Word): (slots: seq<nat>)
    requires n < WORD
    ensures |slots| == n && forall i | 0 <= i < n :: slots[i] < n
  {
    seq(n, i requires 0 <= i < n => Ticket(cursor, i) % n)
  }

  lemma NextTicket(n: nat, cursor: Word, i: nat)
    requires i < n < WORD
    ensures CursorSlots(n, cursor)[i] == Ticket(cursor, i) % n
    ensures Ticket(cursor, 0) == cursor && Ticket(cursor, i + 1) == WrapAdd1(Ticket(cursor, i))
  {}

  function HashSlots(n: nat, hash: nat): (slots: seq<nat>)
    ensures |slots| == n && forall i | 0 <= i < n :: slots[i] < n && slots[i] == (hash + i) % n
  {
    seq(n, i requires 0 <= i < n => (hash + i) % n)
  }

  /** The client's hash: an IPv4 address, or the last four bytes of an IPv6 one. */
  function Hash(ip: Option<IpAddr>): (hash: nat)
    ensures hash < 0x1_0000_0000
  {
    match ip
    case None => 0
    case Some(V4(a, b, c, d)) => BigEndian(a, b, c, d)
    case Some(V6(_, w, x, y, z)) => BigEndian(w, x, y, z)
  }

  function BigEndian(a: Octet, b: Octet, c: Octet, d: Octet): (v: nat)
    ensures v < 0x1_0000_0000
  {
    ((a as nat * 256 + b as nat) * 256 + c as nat) * 256 + d as nat
  }

  lemma LastByte(rest: nat, d: Octet)
    ensures (rest * 256 + d as nat) % 256 == d as nat && (rest * 256 + d as nat) / 256 == rest
  {}

  /** The four bytes can be read back from the hash, the last one first. */
  lemma HashReadsBack(a: Octet, b: Octet, c: Octet, d: Octet)
    ensures var hash := Hash(Some(V4(a, b, c, d)));
            && hash % 256 == d as nat && hash / 256 % 256 == c as nat
            && hash / 256 / 256 % 256 == b as nat && hash / 256 / 256 / 256 == a as nat
  {
    LastByte((a as nat * 256 + b as nat) * 256 + c as nat, d);
    LastByte(a as nat * 256 + b as nat, c);
    LastByte(a as nat, b);
  }

  /** No two IPv4 clients hash alike; an IPv6 client hashes by its last four bytes, and no address as 0. */
  lemma HashIdentifiesV4(x: IpAddr, y: IpAddr)
    requires x.V4? && y.V4?
    ensures Hash(Some(x)) == Hash(Some(y)) <==> x == y
    ensures forall head :: Hash(Some(V6(head, x.a, x.b, x.c, x.d))) == Hash(Some(x))
    ensures Hash(None) == 0
  {
    HashReadsBack(x.a, x.b, x.c, x.d);
    HashReadsBack(y.a, y.b, y.c, y.d);
  }

  /** The number of unhealthy probes before the first healthy one. */
  function FirstHealthy(cs: seq<Circuit>, slots: seq<nat>, clock: seq<Word>): (p: nat)
    requires |slots| <= |clock| && forall i | 0 <= i < |slots| :: slots[i] < |cs|
    ensures p <= |slots|
    ensures forall i | 0 <= i < p :: !Healthy(cs[slots[i]], clock[i])
    ensures p < |slots| ==> Healthy(cs[slots[p]], clock[p])
  {
    if slots == [] then 0
    else if Healthy(cs[slots[0]], clock[0]) then 0
    else 1 + FirstHealthy(cs, slots[1..], clock[1..])
  }

  /** Probing `slots` in order: the slot chosen, and the circuits with the chosen one queried. */
  function Probe(cs: seq<Circuit>, slots: seq<nat>, clock: seq<Word>): (Option<nat>, seq<Circuit>)
    requires |slots| <= |clock| && forall i | 0 <= i < |slots| :: slots[i] < |cs|
  {
    var p := FirstHealthy(cs, slots, clock);
    if p == |slots| then (None, cs)
    else (Some(slots[p]), cs[slots[p] := Queried(cs[slots[p]], clock[p])])
  }

  /** What the probe of slot `i` decides, after `i` unhealthy ones. */
  lemma ProbeOneMore(cs: seq<Circuit>, slots: seq<nat>, clock: seq<Word>, i: nat)
    requires |slots| <= |clock| && forall k | 0 <= k < |slots| :: slots[k] < |cs|
    requires i < |slots| && i <= FirstHealthy(cs, slots, clock)
    ensures var (s, p) := (slots[i], FirstHealthy(cs, slots, clock));
            var cs' := cs[s := Queried(cs[s], clock[i])];
            if Healthy(cs[s], clock[i]) then p == i && Probe(cs, slots, clock) == (Some(s), cs')
            else p > i && cs' == cs
  {}

  lemma NothingProbed(cs: seq<Circuit>, slots: seq<nat>, clock: seq<Word>)
    requires |slots| <= |clock| && forall k | 0 <= k < |slots| :: slots[k] < |cs|
    requires FirstHealthy(cs, slots, clock) >= |slots|
    ensures Probe(cs, slots, clock) == (None, cs)
  {}

  /** How one more backend, healthy or not, changes the least loaded one. */
  function Better(best: Option<nat>, active: seq<Word>, m: nat, healthy: bool): Option<nat>
    requires m < |active| && (best.Some? ==> best.value < |active|)
  {
    if healthy && (best.None? || active[m] < active[best.value]) then Some(m) else best
  }

  /** Among the first `m` slots, the first healthy one with the fewest active requests. */
  function LeastLoaded(cs: seq<Circuit>, active: seq<Word>, clock: seq<Word>, m: nat): (best: Option<nat>)
    requires m <= |cs| == |active| && |cs| <= |clock|
    ensures best.None? <==> forall i | 0 <= i < m :: !Healthy(cs[i], clock[i])
    ensures best.Some? ==>
              && best.value < m && Healthy(cs[best.value], clock[best.value])
              && (forall i | 0 <= i < m && Healthy(cs[i], clock[i]) :: active[best.value] <= active[i])
              && (forall i | 0 <= i < best.value && Healthy(cs[i], clock[i]) :: active[best.value] < active[i])
  {
    if m == 0 then None
    else Better(LeastLoaded(cs, active, clock, m - 1), active, m - 1, Healthy(cs[m - 1], clock[m - 1]))
  }

  /** The circuits when the first `m` of them have been queried. */
  function QueriedUpTo(cs: seq<Circuit>, clock: seq<Word>, m: nat): (qs: seq<Circuit>)
    requires m <= |cs| <= |clock|
    ensures |qs| == |cs| && (m == 0 ==> qs == cs)
  {
    seq(|cs|, i requires 0 <= i < |cs| => if i < m then Queried(cs[i], clock[i]) else cs[i])
  }

  lemma QueriedOneMore(cs: seq<Circuit>, clock: seq<Word>, m: nat)
    requires m < |cs| <= |clock|
    ensures QueriedUpTo(cs, clock, m)[m] == cs[m]
    ensures QueriedUpTo(cs, clock, m + 1) == QueriedUpTo(cs, clock, m)[m := Queried(cs[m], clock[m])]
  {}

  lemma LeastLoadedOneMore(cs: seq<Circuit>, active: seq<Word>, clock: seq<Word>, m: nat)
    requires m < |cs| == |active| && |cs| <= |clock|
    ensures LeastLoaded(cs, active, clock, m + 1)
         == Better(LeastLoaded(cs, active, clock, m), active, m, Healthy(cs[m], clock[m]))
  {}

  function AllQueried(cs: seq<Circuit>, clock: seq<Word>): (qs: seq<Circuit>)
    requires |cs| <= |clock|
    ensures qs == QueriedUpTo(cs, clock, |cs|)
  {
    seq(|cs|, i requires 0 <= i < |cs| => Queried(cs[i], clock[i]))
  }

  /** One whole selection, including the acquisition of the chosen backend. */
  function Selected(p: Pool, strategy: Strategy, hash: nat, clock: seq<Word>): (Option<nat>, Pool)
    requires p.Valid() && |clock| == |p.circuits|
  {
    var n := |p.circuits|;
    match strategy
    case RoundRobin =>
      var slots := CursorSlots(n, p.cursor);
      var (pick, cs) := Probe(p.circuits, slots, clock);
      var used := Min(FirstHealthy(p.circuits, slots, clock) + 1, n);
      (pick, Acquired(p.(circuits := cs, cursor := Ticket(p.cursor, used)), pick))
    case LeastConnections =>
      var pick := LeastLoaded(p.circuits, p.active, clock, n);
      (pick, Acquired(p.(circuits := AllQueried(p.circuits, clock)), pick))
    case IpHash =>
      var (pick, cs) := Probe(p.circuits, HashSlots(n, hash), clock);
      (pick, Acquired(p.(circuits := cs), pick))
  }

  lemma EmptyPoolOffersNothing(p: Pool, strategy: Strategy, hash: nat, clock: seq<Word>)
    requires p.Valid() && p.circuits == [] && clock == []
    ensures Selected(p, strategy, hash, clock) == (None, p)
  {
    assert AllQueried(p.circuits, clock) == [];
    assert Probe(p.circuits, [], clock) == (None, p.circuits);
  }

  function Acquired(p: Pool, pick: Option<nat>): Pool
    requires pick.Some? ==> pick.value < |p.active|
  {
    match pick
    case None => p
    case Some(b) => p.(active := p.active[b := WrapAdd1(p.active[b])])
  }

  /** The backend that feedback about `url` reaches: the first one with that URL. */
  function Addressee(urls: seq<string>, url: string): (b: Option<nat>)
    ensures b.None? <==> url !in urls
    ensures b.Some? ==> b.value < |urls| && urls[b.value] == url && url !in urls[..b.value]
  {
    if urls == [] then None
    else
      var n := |urls| - 1;
      assert urls == urls[..n] + [urls[n]];
      match Addressee(urls[..n], url)
      case Some(b) => assert urls[..n][..b] == urls[..b]; Some(b)
      case None => if urls[n] == url then Some(n) else None
  }

  function Informed(p: Pool, target: Option<nat>, e: Event): Pool
    requires target.Some? ==> target.value < |p.circuits|
  {
    match target
    case None => p
    case Some(b) => p.(circuits := p.circuits[b := Step(p.circuits[b], e)])
  }

  /**
   What a selection changes: the active count of the backend it returns, and circuits. The
   two walking strategies touch only the circuit of the backend they return, and leave it
   closed; least-connections queries every one. A query resets a matured circuit, nothing else.
   */
  lemma WhatSelectionChanges(p: Pool, strategy: Strategy, hash: nat, clock: seq<Word>, b: nat)
    requires p.Valid() && |clock| == |p.circuits| && b < |p.circuits|
    ensures var (pick, q) := Selected(p, strategy, hash, clock);
            && |q.circuits| == |p.circuits| && |q.active| == |p.active|
            && q.active[b] == (if pick == Some(b) then WrapAdd1(p.active[b]) else p.active[b])
            && (!strategy.RoundRobin? ==> q.cursor == p.cursor)
            && (!strategy.LeastConnections? && pick != Some(b) ==> q.circuits[b] == p.circuits[b])
            && (strategy.LeastConnections? ==>
                  q.circuits[b] == if Matured(p.circuits[b], clock[b]) then Succeeded(p.circuits[b]) else p.circuits[b])
            && (pick == Some(b) ==> !q.circuits[b].open)
            && (q.circuits[b] != p.circuits[b] ==> p.circuits[b].open && q.circuits[b] == Succeeded(p.circuits[b]))
  {
    var n := |clock|;
    match strategy
    case RoundRobin => ProbeTouchesPick(p.circuits, CursorSlots(n, p.cursor), clock, b);
    case LeastConnections =>
    case IpHash => ProbeTouchesPick(p.circuits, HashSlots(n, hash), clock, b);
  }

  /** What feedback changes: the circuit of the first backend with that URL, by the event, and nothing else. */
  lemma WhatFeedbackChanges(p: Pool, urls: seq<string>, url: string, e: Event, b: nat)
    requires |urls| == |p.circuits| && b < |urls|
    ensures var q := Informed(p, Addressee(urls, url), e);
            && q.active == p.active && q.cursor == p.cursor && |q.circuits| == |p.circuits|
            && q.circuits[b] == if urls[b] == url && url !in urls[..b] then Step(p.circuits[b], e) else p.circuits[b]
  {
    var first := Addressee(urls, url);
    if first.Some? && first.value < b {
      assert urls[..b][first.value] == url;
    }
  }

  lemma ProbeTouchesPick(cs: seq<Circuit>, slots: seq<nat>, clock: seq<Word>, b: nat)
    requires |slots| <= |clock| && b < |cs| && forall i | 0 <= i < |slots| :: slots[i] < |cs|
    ensures var (pick, cs') := Probe(cs, slots, clock);
            && |cs'| == |cs| && (pick != Some(b) ==> cs'[b] == cs[b])
            && (pick == Some(b) ==> !cs'[b].open)
            && (cs'[b] != cs[b] ==> cs[b].open && cs'[b] == Succeeded(cs[b]))
  {}

  // ---------------------------------------------------------------------------------
  // The balancer itself
  // ---------------------------------------------------------------------------------

  class LoadBalancer {
    const backends: seq<Backend>
    const strategy: Strategy
    var cursor: Word

    ghost predicate Valid() {
      && |backends| < WORD / 2
      && forall i, j | 0 <= i < j < |backends| :: backends[i] != backends[j]
    }

    constructor (backends: seq<Backend>, strategy: Strategy)
      ensures this.backends == backends && this.strategy == strategy && cursor == 0
    {
      this.backends, this.strategy, this.cursor := backends, strategy, 0;
    }

    ghost function Circuits(): (cs: seq<Circuit>)
      reads backends
      ensures |cs| == |backends|
    {
      seq(|backends|, i requires 0 <= i < |backends| reads backends => backends[i].View())
    }

    ghost function Actives(): (active: seq<Word>)
      reads backends
      ensures |active| == |backends|
    {
      seq(|backends|, i requires 0 <= i < |backends| reads backends => backends[i].active)
    }

    ghost function View(): Pool
      reads this, backends
    {
      Pool(Circuits(), Actives(), cursor)
    }

    ghost function Urls(): seq<string> {
      seq(|backends|, i requires 0 <= i < |backends| => backends[i].url)
    }

    /** The health query on one slot. */
    method ProbeSlot(idx: nat, now: Word) returns (healthy: bool)
      requires Valid() && idx < |backends|
      modifies backends[idx]
      ensures healthy == Healthy(old(Circuits())[idx], now)
      ensures Circuits() == old(Circuits())[idx := Queried(old(Circuits())[idx], now)]
      ensures Actives() == old(Actives())
    {
      healthy := backends[idx].IsHealthy(now);
      assert forall k | 0 <= k < |backends| && k != idx :: backends[k].View() == old(backends[k].View());
      assert forall k | 0 <= k < |backends| :: backends[k].active == old(backends[k].active);
    }

    method PickRoundRobin(clock: seq<Word>) returns (pick: Option<nat>)
      requires Valid() && |clock| == |backends|
      modifies `cursor, backends
      ensures var slots := CursorSlots(|backends|, old(cursor));
              && (pick, Circuits()) == Probe(old(Circuits()), slots, clock)
              && cursor == Ticket(old(cursor), Min(FirstHealthy(old(Circuits()), slots, clock) + 1, |backends|))
      ensures Actives() == old(Actives())
    {
      hide FirstHealthy, Probe, CursorSlots, Queried, Circuits, Actives;
      var n := |backends|;
      ghost var slots, before, start := CursorSlots(n, cursor), Circuits(), cursor;
      for i := 0 to n
        invariant cursor == Ticket(start, i)
        invariant Circuits() == before && Actives() == old(Actives())
        invariant i <= FirstHealthy(before, slots, clock)
      {
        NextTicket(n, start, i);
        ProbeOneMore(before, slots, clock, i);
        var idx := cursor % n;
        cursor := WrapAdd1(cursor);
        var healthy := ProbeSlot(idx, clock[i]);
        if healthy {
          return Some(idx);
        }
      }
      NothingProbed(before, slots, clock);
      pick := None;
    }

    /** The comparison of one more backend with the best so far. */
    method Compare(best: Option<nat>, idx: nat, healthy: bool) returns (pick: Option<nat>)
      requires idx < |backends| && (best.Some? ==> best.value < |backends|)
      ensures pick == Better(best, Actives(), idx, healthy)
    {
      pick := best;
      if healthy {
        if best.None? {
          pick := Some(idx);
        } else if backends[idx].active < backends[best.value].active {
          pick := Some(idx);
        }
      }
    }

    method PickLeastConnections(clock: seq<Word>) returns (pick: Option<nat>)
      requires Valid() && |clock| == |backends|
      modifies backends
      ensures pick == LeastLoaded(old(Circuits()), old(Actives()), clock, |backends|)
      ensures Circuits() == AllQueried(old(Circuits()), clock) && Actives() == old(Actives())
    {
      hide *;
      pick := None;
      ghost var before, actives := Circuits(), Actives();
      for i := 0 to |backends|
        invariant Circuits() == QueriedUpTo(before, clock, i) && Actives() == actives
        invariant pick == LeastLoaded(before, actives, clock, i)
      {
        QueriedOneMore(before, clock, i);
        LeastLoadedOneMore(before, actives, clock, i);
        var healthy := ProbeSlot(i, clock[i]);
        pick := Compare(pick, i, healthy);
      }
    }

    method PickIpHash(ip: Option<IpAddr>, clock: seq<Word>) returns (pick: Option<nat>)
      requires Valid() && |clock| == |backends|
      modifies backends
      ensures (pick, Circuits()) == Probe(old(Circuits()), HashSlots(|backends|, Hash(ip)), clock)
      ensures Actives() == old(Actives())
    {
      hide FirstHealthy, Probe, HashSlots, Queried, Circuits, Actives;
      var hash, n := Hash(ip), |backends|;
      ghost var slots, before := HashSlots(n, hash), Circuits();
      for i := 0 to n
        invariant Circuits() == before && Actives() == old(Actives())
        invariant i <= FirstHealthy(before, slots, clock)
      {
        assert hash + i < WORD;
        ProbeOneMore(before, slots, clock, i);
        var idx := (hash + i) % n;
        var healthy := ProbeSlot(idx, clock[i]);
        if healthy {
          return Some(idx);
        }
      }
      NothingProbed(before, slots, clock);
      pick := None;
    }

    method AcquireSlot(idx: nat)
      requires Valid() && idx < |backends|
      modifies backends[idx]
      ensures Circuits() == old(Circuits())
      ensures Actives() == old(Actives())[idx := WrapAdd1(old(Actives())[idx])]
    {
      backends[idx].Acquire();
      assert forall k | 0 <= k < |backends| :: backends[k].View() == old(backends[k].View());
      assert forall k | 0 <= k < |backends| && k != idx :: backends[k].active == old(backends[k].active);
    }

    /** Picks a backend and counts the request on it; the caller's guard will call `Release`. */
    method Select(ip: Option<IpAddr>, clock: seq<Word>) returns (pick: Option<nat>)
      requires Valid() && |clock| == |backends|
      modifies `cursor, backends
      ensures (pick, View()) == Selected(old(View()), strategy, Hash(ip), clock)
    {
      hide FirstHealthy, LeastLoaded, AllQueried, CursorSlots, HashSlots, Circuits, Actives;
      if backends == [] {
        EmptyPoolOffersNothing(View(), strategy, Hash(ip), clock);
        return None;
      }
      match strategy {
        case RoundRobin => pick := PickRoundRobin(clock);
        case LeastConnections => pick := PickLeastConnections(clock);
        case IpHash => pick := PickIpHash(ip, clock);
      }
      if pick.Some? {
        AcquireSlot(pick.value);
      }
    }

    /** Feedback for the first backend whose URL is `url`; `at` is the clock reading. */
    method Report(url: string, ok: bool, at: Word)
      requires Valid()
      modifies backends
      ensures View() == Informed(old(View()), Addressee(Urls(), url), if ok then Success(at) else Failure(at))
    {
      for i := 0 to |backends|
        invariant View() == old(View())
        invariant url !in Urls()[..i]
      {
        if backends[i].url == url {
          assert Urls()[i] == url;
          assert Addressee(Urls(), url) == Some(i);
          if ok {
            backends[i].RecordSuccess();
          } else {
            backends[i].RecordFailure(at);
          }
          assert Actives() == old(Actives());
          assert Circuits() == old(Circuits())[i := Step(old(Circuits())[i], if ok then Success(at) else Failure(at))];
          return;
        }
      }
      assert Urls()[..|backends|] == Urls();
    }
  }
}
