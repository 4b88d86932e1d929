/**
 Round-robin selection over whole runs (src/load_balancer.rs, round_robin). A ticket is a
 value of the shared cursor; ticket `t` probes slot `t % n`.
 */
module RoundRobinFairness {
  import opened Prelude
  import opened CircuitBreaker
  import opened LoadBalancer
  import Modular

  // ---------------------------------------------------------------------------------
  // Tickets
  // ---------------------------------------------------------------------------------

  predicate Hit(h: seq<bool>, t: nat)
    requires h != []
  {
    h[t % |h|]
  }

  /** How many of the tickets `[c, c + m)` probe a healthy slot. */
  function Hits(h: seq<bool>, c: nat, m: nat): nat
    requires h != []
  {
    if m == 0 then 0 else Hits(h, c, m - 1) + if Hit(h, c + m - 1) then 1 else 0
  }

  lemma {:induction false} HitsFromZero(h: seq<bool>, m: nat)
    requires h != [] && m <= |h|
    ensures Hits(h, 0, m) == Count(h, 0, m)
  {
    if m > 0 {
      HitsFromZero(h, m - 1);
      Modular.Small(m - 1, |h|);
    }
  }

  lemma {:induction false} HitsShift(h: seq<bool>, c: nat, m: nat)
    requires h != []
    ensures Hits(h, c, m) + (if Hit(h, c + m) then 1 else 0) == Hits(h, c + 1, m) + (if Hit(h, c) then 1 else 0)
  {
    if m > 0 {
      HitsShift(h, c, m - 1);
    }
  }

  /** Any `n` consecutive tickets hit as often as there are healthy backends. */
  lemma {:induction false} FullTurn(h: seq<bool>, c: nat)
    requires h != []
    ensures Hits(h, c, |h|) == Count(h, 0, |h|)
  {
    if c == 0 {
      HitsFromZero(h, |h|);
    } else {
      FullTurn(h, c - 1);
      HitsShift(h, c - 1, |h|);
      Modular.Turn(c - 1, |h|);
    }
  }

  /** The first hit at or after ticket `c + a`. */
  lemma NextHit(h: seq<bool>, c: nat, a: nat, b: nat) returns (t: nat)
    requires h != [] && a <= b && Hits(h, c, a) < Hits(h, c, b)
    ensures c + a <= t < c + b && Hit(h, t)
    ensures forall u | c + a <= u < t :: !Hit(h, u)
    ensures Hits(h, c, t - c) == Hits(h, c, a)
    decreases b - a
  {
    if Hit(h, c + a) {
      t := c + a;
    } else {
      t := NextHit(h, c, a + 1, b);
    }
  }

  lemma {:induction false} HitsMonotone(h: seq<bool>, c: nat, a: nat, b: nat)
    requires h != [] && a <= b
    ensures Hits(h, c, a) <= Hits(h, c, b)
    ensures Hits(h, c, a) == Hits(h, c, b) ==> forall u | c + a <= u < c + b :: !Hit(h, u)
  {
    if a < b {
      HitsMonotone(h, c, a, b - 1);
    }
  }

  // ---------------------------------------------------------------------------------
  // Consecutive selections
  // ---------------------------------------------------------------------------------

  /** While the clock reads between `lo` and `hi`, backend `i` is healthy iff `h[i]`. */
  ghost predicate FixedHealth(cs: seq<Circuit>, h: seq<bool>, lo: Word, hi: Word) {
    |cs| == |h| && forall i, t: Word | 0 <= i < |h| && lo <= t <= hi :: Healthy(cs[i], t) == h[i]
  }

  ghost predicate Within(clock: seq<Word>, lo: Word, hi: Word) {
    forall i | 0 <= i < |clock| :: lo <= clock[i] <= hi
  }

  function PoolAfter(p: Pool, clocks: seq<seq<Word>>): (q: Pool)
    requires p.Valid() && forall c | c in clocks :: |c| == |p.circuits|
    ensures q.Valid() && |q.circuits| == |p.circuits|
  {
    if clocks == [] then p
    else Selected(PoolAfter(p, clocks[..|clocks| - 1]), RoundRobin, 0, clocks[|clocks| - 1]).1
  }

  function Picks(p: Pool, clocks: seq<seq<Word>>): (picks: seq<Option<nat>>)
    requires p.Valid() && forall c | c in clocks :: |c| == |p.circuits|
    ensures |picks| == |clocks|
  {
    if clocks == [] then []
    else
      var n := |clocks| - 1;
      Picks(p, clocks[..n]) + [Selected(PoolAfter(p, clocks[..n]), RoundRobin, 0, clocks[n]).0]
  }

  /** The cursor at an unbounded position: it wraps at 2^64. */
  function Wrap(pos: nat): Word
    requires pos < 2 * WORD
  {
    if pos >= WORD then pos - WORD else pos
  }

  /** A turn of `n` tickets from `cursor` does not wrap, or `n` divides 2^64. */
  predicate NoSkip(n: nat, cursor: Word)
    requires n > 0
  {
    cursor + n <= WORD || WORD % n == 0
  }

  lemma WrapKeepsSlot(n: nat, start: Word, u: nat)
    requires 0 < n < WORD && NoSkip(n, start) && start <= u < start + n
    ensures Wrap(u) % n == u % n
  {
    if u >= WORD {
      Modular.Add(WORD, u - WORD, n);
    }
  }

  /** Within the turn that began at `start`, the `k`-th probe from position `pos` uses ticket `pos + k`. */
  lemma TicketProbes(n: nat, start: Word, pos: nat, k: nat)
    requires 0 < n < WORD && NoSkip(n, start) && start <= pos && pos + k < start + n
    ensures CursorSlots(n, Wrap(pos))[k] == (pos + k) % n
  {
    WrapKeepsSlot(n, start, pos + k);
    assert Ticket(Wrap(pos), k) == Wrap(pos + k);
  }

  lemma ProbeFindsHit(cs: seq<Circuit>, start: Word, pos: nat, h: seq<bool>, lo: Word, hi: Word,
                      clock: seq<Word>, k: nat)
    requires 0 < |clock| == |cs| == |h| < WORD && NoSkip(|h|, start)
    requires FixedHealth(cs, h, lo, hi) && Within(clock, lo, hi)
    requires start <= pos && pos + k < start + |h|
    ensures Healthy(cs[CursorSlots(|h|, Wrap(pos))[k]], clock[k]) == Hit(h, pos + k)
  {
    hide Healthy;
    TicketProbes(|h|, start, pos, k);
    assert lo <= clock[k] <= hi;
  }

  lemma ProbeStopsAtHit(cs: seq<Circuit>, start: Word, pos: nat, h: seq<bool>, lo: Word, hi: Word,
                        clock: seq<Word>, t: nat)
    requires 0 < |clock| == |cs| == |h| < WORD && NoSkip(|h|, start)
    requires FixedHealth(cs, h, lo, hi) && Within(clock, lo, hi)
    requires start <= pos <= t < start + |h|
    requires Hit(h, t) && forall u | pos <= u < t :: !Hit(h, u)
    ensures FirstHealthy(cs, CursorSlots(|h|, Wrap(pos)), clock) == t - pos
    ensures CursorSlots(|h|, Wrap(pos))[t - pos] == t % |h|
  {
    hide Healthy, FirstHealthy, CursorSlots, Hit, Wrap, NoSkip;
    var found := FirstHealthy(cs, CursorSlots(|h|, Wrap(pos)), clock);
    TicketProbes(|h|, start, pos, t - pos);
    ProbeFindsHit(cs, start, pos, h, lo, hi, clock, t - pos);
    if found < t - pos {
      ProbeFindsHit(cs, start, pos, h, lo, hi, clock, found);
    }
  }

  lemma QueryKeepsHealth(cs: seq<Circuit>, h: seq<bool>, lo: Word, hi: Word, b: nat, now: Word)
    requires FixedHealth(cs, h, lo, hi) && b < |cs| && lo <= now <= hi
    ensures FixedHealth(cs[b := Queried(cs[b], now)], h, lo, hi)
  {
    assert Healthy(cs[b], now) == h[b];
  }

  lemma SelectionTakesFirstHit(p: Pool, h: seq<bool>, lo: Word, hi: Word, start: Word, pos: nat,
                               clock: seq<Word>, t: nat)
    requires p.Valid() && |clock| == |p.circuits| == |h| > 0 && NoSkip(|h|, start)
    requires FixedHealth(p.circuits, h, lo, hi) && Within(clock, lo, hi)
    requires start <= pos <= t < start + |h| && p.cursor == Wrap(pos)
    requires Hit(h, t) && forall u | pos <= u < t :: !Hit(h, u)
    ensures var (pick, q) := Selected(p, RoundRobin, 0, clock);
            && pick == Some(t % |h|)
            && q.cursor == Wrap(t + 1)
            && FixedHealth(q.circuits, h, lo, hi)
  {
    ProbeStopsAtHit(p.circuits, start, pos, h, lo, hi, clock, t);
    QueryKeepsHealth(p.circuits, h, lo, hi, t % |h|, clock[t - pos]);
    var (pick, cs) := Probe(p.circuits, CursorSlots(|h|, p.cursor), clock);
    assert Ticket(p.cursor, t + 1 - pos) == Wrap(t + 1);
    assert Selected(p, RoundRobin, 0, clock) == (pick, Acquired(p.(circuits := cs, cursor := Wrap(t + 1)), pick));
  }

  lemma WrapIsRemainder(pos: nat)
    requires pos < 2 * WORD
    ensures Wrap(pos) == pos % WORD
  {}

  lemma SelectionFindsNothing(p: Pool, h: seq<bool>, lo: Word, hi: Word, clock: seq<Word>)
    requires p.Valid() && |clock| == |p.circuits| == |h| > 0 && NoSkip(|h|, p.cursor)
    requires FixedHealth(p.circuits, h, lo, hi) && Within(clock, lo, hi)
    requires forall u | p.cursor <= u < p.cursor + |h| :: !Hit(h, u)
    ensures Selected(p, RoundRobin, 0, clock).0.None?
    ensures Selected(p, RoundRobin, 0, clock).1.cursor == Wrap(p.cursor + |h|)
  {
    hide Hit;
    var found := FirstHealthy(p.circuits, CursorSlots(|h|, p.cursor), clock);
    if found < |h| {
      ProbeFindsHit(p.circuits, p.cursor, p.cursor, h, lo, hi, clock, found);
    }
    assert Ticket(p.cursor, |h|) == Wrap(p.cursor + |h|);
  }

  /** The selections `picks` have used the tickets from `start` up to `pos`. */
  ghost predicate Used(pos: nat, h: seq<bool>, start: nat, tickets: seq<nat>, picks: seq<Option<nat>>)
    requires h != []
  {
    && start <= pos <= start + |h|
    && |tickets| == |picks| == Hits(h, start, pos - start)
    && (forall u | start <= u < pos && Hit(h, u) :: u in tickets)
    && (forall i | 0 <= i < |tickets| ::
          start <= tickets[i] < pos && Hit(h, tickets[i]) && picks[i] == Some(tickets[i] % |h|))
    && (forall i, j | 0 <= i < j < |tickets| :: tickets[i] < tickets[j])
  }

  lemma OneMoreUsed(pos: nat, h: seq<bool>, start: nat, tickets: seq<nat>, picks: seq<Option<nat>>, t: nat)
    requires h != [] && Used(pos, h, start, tickets, picks)
    requires pos <= t < start + |h| && Hit(h, t)
    requires Hits(h, start, t - start) == |tickets|
    requires forall u | pos <= u < t :: !Hit(h, u)
    ensures Used(t + 1, h, start, tickets + [t], picks + [Some(t % |h|)])
  {
    assert Hits(h, start, t + 1 - start) == |tickets| + 1;
    forall u | start <= u < t + 1 && Hit(h, u)
      ensures u in tickets + [t]
    {}
  }

  lemma OneMoreSelection(q: Pool, h: seq<bool>, lo: Word, hi: Word, start: Word, pos: nat,
                         tickets: seq<nat>, picks: seq<Option<nat>>, clock: seq<Word>)
    returns (t: nat)
    requires q.Valid() && q.circuits != [] && |clock| == |q.circuits| && h != [] && NoSkip(|h|, start)
    requires FixedHealth(q.circuits, h, lo, hi) && Within(clock, lo, hi)
    requires Used(pos, h, start, tickets, picks) && |tickets| < Count(h, 0, |h|) && q.cursor == Wrap(pos)
    ensures var (pick, q') := Selected(q, RoundRobin, 0, clock);
            && Used(t + 1, h, start, tickets + [t], picks + [pick]) && q'.cursor == Wrap(t + 1)
            && FixedHealth(q'.circuits, h, lo, hi)
  {
    FullTurn(h, start);
    t := NextHit(h, start, pos - start, |h|);
    SelectionTakesFirstHit(q, h, lo, hi, start, pos, clock, t);
    OneMoreUsed(pos, h, start, tickets, picks, t);
  }

  /** A pool of fixed health in which as many selections are made as there are healthy backends, or fewer. */
  ghost predicate TurnSetting(p: Pool, h: seq<bool>, lo: Word, hi: Word, clocks: seq<seq<Word>>) {
    && p.Valid() && p.circuits != [] && h != [] && FixedHealth(p.circuits, h, lo, hi)
    && (forall c | c in clocks :: |c| == |p.circuits| && Within(c, lo, hi))
    && |clocks| <= Count(h, 0, |h|)
  }

  /** The selections of a run take, in order, the hits at and after the starting cursor. */
  lemma {:induction false} RunTakesHits(p: Pool, h: seq<bool>, lo: Word, hi: Word, clocks: seq<seq<Word>>)
    returns (tickets: seq<nat>, pos: nat)
    requires TurnSetting(p, h, lo, hi, clocks) && NoSkip(|h|, p.cursor)
    ensures FixedHealth(PoolAfter(p, clocks).circuits, h, lo, hi)
    ensures Used(pos, h, p.cursor, tickets, Picks(p, clocks)) && PoolAfter(p, clocks).cursor == Wrap(pos)
  {
    hide Selected, FixedHealth, Within, Hit, Wrap, NoSkip, Used, PoolAfter, Picks;
    if clocks == [] {
      tickets, pos := [], p.cursor;
      NothingUsed(p, h);
    } else {
      var n := |clocks| - 1;
      assert clocks[n] in clocks;
      tickets, pos := RunTakesHits(p, h, lo, hi, clocks[..n]);
      RunsLast(p, clocks);
      var q, picks := PoolAfter(p, clocks[..n]), Picks(p, clocks[..n]);
      assert |picks| == |tickets| by { UsedCounts(pos, h, p.cursor, tickets, picks); }
      var t := OneMoreSelection(q, h, lo, hi, p.cursor, pos, tickets, picks, clocks[n]);
      tickets, pos := tickets + [t], t + 1;
    }
  }

  lemma UsedCounts(pos: nat, h: seq<bool>, start: nat, tickets: seq<nat>, picks: seq<Option<nat>>)
    requires h != [] && Used(pos, h, start, tickets, picks)
    ensures |tickets| == |picks|
  {}

  lemma NothingUsed(p: Pool, h: seq<bool>)
    requires p.Valid() && h != []
    ensures PoolAfter(p, []) == p && Used(p.cursor, h, p.cursor, [], Picks(p, [])) && Wrap(p.cursor) == p.cursor
  {}

  lemma RunsLast(p: Pool, clocks: seq<seq<Word>>)
    requires p.Valid() && clocks != [] && forall c | c in clocks :: |c| == |p.circuits|
    ensures var n := |clocks| - 1;
            var (pick, q) := Selected(PoolAfter(p, clocks[..n]), RoundRobin, 0, clocks[n]);
            PoolAfter(p, clocks) == q && Picks(p, clocks) == Picks(p, clocks[..n]) + [pick]
  {
    hide Selected;
  }

  /** `picks` lists every healthy slot exactly once and nothing else. */
  ghost predicate EachHealthyOnce(h: seq<bool>, picks: seq<Option<nat>>) {
    && (forall i | 0 <= i < |picks| :: picks[i].Some? && picks[i].value < |h| && h[picks[i].value])
    && (forall i, j | 0 <= i < j < |picks| :: picks[i] != picks[j])
    && (forall s | 0 <= s < |h| && h[s] :: Some(s) in picks)
  }

  lemma FullTurnIsFair(pos: nat, h: seq<bool>, start: nat, tickets: seq<nat>, picks: seq<Option<nat>>)
    requires h != [] && Used(pos, h, start, tickets, picks) && |picks| == Count(h, 0, |h|)
    ensures EachHealthyOnce(h, picks)
  {
    var n := |h|;
    FullTurn(h, start);
    HitsMonotone(h, start, pos - start, n);
    forall s | 0 <= s < n && h[s]
      ensures Some(s) in picks
    {
      Modular.Meets(start, s, n);
      var t := start + Modular.Offset(start, s, n);
      assert Hit(h, t);
      var i :| 0 <= i < |tickets| && tickets[i] == t;
      assert picks[i] == Some(s);
    }
    forall i, j | 0 <= i < j < |picks|
      ensures picks[i] != picks[j]
    {
      if tickets[i] % n == tickets[j] % n {
        Modular.Injective(tickets[i], tickets[j], n);
      }
    }
  }

  /**
   With the set of healthy backends fixed, as many consecutive selections as there are
   healthy backends return each of them exactly once, whatever the cursor starts from,
   unless a wrap of the cursor skips a slot.
   */
  lemma EveryHealthyBackendOncePerTurn(p: Pool, h: seq<bool>, lo: Word, hi: Word, clocks: seq<seq<Word>>)
    requires TurnSetting(p, h, lo, hi, clocks) && |clocks| == Count(h, 0, |h|) && NoSkip(|h|, p.cursor)
    ensures EachHealthyOnce(h, Picks(p, clocks))
  {
    var tickets, pos := RunTakesHits(p, h, lo, hi, clocks);
    FullTurnIsFair(pos, h, p.cursor, tickets, Picks(p, clocks));
  }

  // ---------------------------------------------------------------------------------
  // When "none" means that every backend is down
  // ---------------------------------------------------------------------------------

  /** One undisturbed walk from `cursor` reaches every slot. */
  ghost predicate Covers(n: nat, cursor: Word)
    requires n < WORD
  {
    forall s | 0 <= s < n :: Reaches(n, cursor, s)
  }

  ghost predicate Reaches(n: nat, cursor: Word, s: nat)
    requires n < WORD
  {
    exists i | 0 <= i < n :: CursorSlots(n, cursor)[i] == s
  }

  lemma WholeTurnCovers(n: nat, cursor: Word, s: nat)
    requires s < n < WORD && NoSkip(n, cursor)
    ensures Reaches(n, cursor, s)
  {
    Modular.Meets(cursor, s, n);
    var i := Modular.Offset(cursor, s, n);
    if cursor + i >= WORD {
      Modular.Add(WORD, cursor + i - WORD, n);
    }
    assert CursorSlots(n, cursor)[i] == s;
  }

  /** The remainder of the `k`-th value below 2^64. */
  lemma BelowWrap(n: nat, k: nat)
    requires 0 < k < n
    ensures (WORD - k) % n == if k <= WORD % n then WORD % n - k else WORD % n - k + n
  {
    var r := WORD % n;
    Modular.Quotient(WORD, n);
    var minusK: int := -(k as int);
    Modular.Add(WORD, minusK, n);
    assert (r - k) % n == if k <= r then r - k else r - k + n by {
      if k <= r {
        Modular.Small(r - k, n);
      } else {
        Modular.Turn(r - k, n);
        Modular.Small(r - k + n, n);
      }
    }
  }

  /** A slot that a walk across the wrap skips: some other slot is probed twice. */
  function SkippedSlot(n: nat, cursor: Word): nat
    requires 0 < n < WORD
  {
    var before, r := WORD - cursor, WORD % n;
    if r >= before then n - 1 else if r >= n - before then r else n - before
  }

  lemma WrapSkips(n: nat, cursor: Word)
    requires 0 < n < WORD && !NoSkip(n, cursor)
    ensures SkippedSlot(n, cursor) < n && !Reaches(n, cursor, SkippedSlot(n, cursor))
  {
    var before, s := WORD - cursor, SkippedSlot(n, cursor);
    Modular.Quotient(WORD, n);
    forall i | 0 <= i < n
      ensures CursorSlots(n, cursor)[i] != s
    {
      if i < before {
        BelowWrap(n, before - i);
        assert Ticket(cursor, i) == WORD - (before - i);
      } else {
        Modular.Small(i - before, n);
        assert Ticket(cursor, i) == i - before;
      }
    }
  }

  /** A walk covers all slots iff the cursor does not wrap in it, or `n` divides 2^64. */
  lemma CoversIff(n: nat, cursor: Word)
    requires 0 < n < WORD
    ensures Covers(n, cursor) <==> NoSkip(n, cursor)
  {
    if NoSkip(n, cursor) {
      forall s | 0 <= s < n ensures Reaches(n, cursor, s) { WholeTurnCovers(n, cursor, s); }
    } else {
      WrapSkips(n, cursor);
    }
  }

  ghost predicate DownAtSome(p: Pool, clock: seq<Word>, s: nat)
    requires s < |p.circuits|
  {
    exists i | 0 <= i < |clock| :: !Healthy(p.circuits[s], clock[i])
  }

  ghost predicate DownThroughout(p: Pool, clock: seq<Word>, s: nat)
    requires s < |p.circuits|
  {
    forall i | 0 <= i < |clock| :: !Healthy(p.circuits[s], clock[i])
  }

  /**
   "None" is answered only if every backend was unhealthy at some moment of the walk, and
   always if all were unhealthy throughout; in a walk within one second the two are one.
   */
  ghost predicate NoneIsExactFor(p: Pool, clock: seq<Word>)
    requires p.Valid() && |clock| == |p.circuits|
  {
    var none := Selected(p, RoundRobin, 0, clock).0.None?;
    && (none ==> forall s | 0 <= s < |p.circuits| :: DownAtSome(p, clock, s))
    && ((forall s | 0 <= s < |p.circuits| :: DownThroughout(p, clock, s)) ==> none)
  }

  ghost predicate NoneIsExact(n: nat, cursor: Word) {
    forall p: Pool, clock | p.Valid() && |p.circuits| == n == |clock| && p.cursor == cursor :: NoneIsExactFor(p, clock)
  }

  lemma CoveringWalkIsExact(p: Pool, clock: seq<Word>)
    requires p.Valid() && p.circuits != [] && |clock| == |p.circuits| && Covers(|p.circuits|, p.cursor)
    ensures NoneIsExactFor(p, clock)
  {
    var n := |p.circuits|;
    var slots := CursorSlots(n, p.cursor);
    var found := FirstHealthy(p.circuits, slots, clock);
    if found == n {
      forall s | 0 <= s < n
        ensures DownAtSome(p, clock, s)
      {
        assert Reaches(n, p.cursor, s);
        var i :| 0 <= i < n && slots[i] == s;
        assert !Healthy(p.circuits[slots[i]], clock[i]);
      }
    } else {
      assert !DownThroughout(p, clock, slots[found]);
    }
  }

  function Only(n: nat, s: nat): seq<bool> {
    seq(n, i => i == s)
  }

  lemma {:induction false} CountOnly(n: nat, s: nat, m: nat)
    requires s < n && m <= n
    ensures Count(Only(n, s), 0, m) == if s < m then 1 else 0
  {
    if m > 0 {
      CountOnly(n, s, m - 1);
    }
  }

  /** If a walk skips slot `s`, it answers "none" when that backend is the only healthy one. */
  lemma SkippingWalkMisses(n: nat, cursor: Word, s: nat) returns (p: Pool, clock: seq<Word>)
    requires s < n < WORD / 2 && !Reaches(n, cursor, s)
    ensures p.Valid() && |p.circuits| == n == |clock| && p.cursor == cursor && Within(clock, 0, 0)
    ensures FixedHealth(p.circuits, Only(n, s), 0, 0) && Selected(p, RoundRobin, 0, clock).0.None?
  {
    var down := Circuit(5, 0, true);
    p := Pool(seq(n, i => if i == s then FRESH else down), seq(n, _ => 0), cursor);
    clock := seq(n, _ => 0);
    var slots := CursorSlots(n, cursor);
    forall i | 0 <= i < n
      ensures !Healthy(p.circuits[slots[i]], clock[i])
    {
      assert slots[i] != s;
    }
    assert FirstHealthy(p.circuits, slots, clock) == n;
  }

  /**
   For sequential calls the documented "none iff all circuits are open" holds from every
   state with this cursor iff the walk cannot skip a slot.
   */
  lemma NoneIsExactIff(n: nat, cursor: Word)
    requires 0 < n < WORD / 2
    ensures NoneIsExact(n, cursor)
       <==> cursor + n <= 18446744073709551616 || 18446744073709551616 % n == 0
  {
    CoversIff(n, cursor);
    if Covers(n, cursor) {
      forall p: Pool, clock | p.Valid() && |p.circuits| == n == |clock| && p.cursor == cursor
        ensures NoneIsExactFor(p, clock)
      {
        CoveringWalkIsExact(p, clock);
      }
    } else {
      var s :| 0 <= s < n && !Reaches(n, cursor, s);
      var p, clock := SkippingWalkMisses(n, cursor, s);
      assert Only(n, s)[s] && 0 <= clock[0] <= 0;
      assert !DownAtSome(p, clock, s);
      assert !NoneIsExactFor(p, clock);
    }
  }

  /** From every pool with this cursor a full turn returns each healthy backend exactly once. */
  ghost predicate TurnsAreFair(n: nat, cursor: Word) {
    forall p: Pool, h, lo, hi, clocks |
      TurnSetting(p, h, lo, hi, clocks) && |clocks| == Count(h, 0, |h|) && |h| == n && p.cursor == cursor ::
      EachHealthyOnce(h, Picks(p, clocks))
  }

  /** Full turns are fair exactly from the cursors from which no slot can be skipped. */
  lemma TurnsAreFairIff(n: nat, cursor: Word)
    requires 0 < n < WORD / 2
    ensures TurnsAreFair(n, cursor)
       <==> cursor + n <= 18446744073709551616 || 18446744073709551616 % n == 0
  {
    if NoSkip(n, cursor) {
      forall p: Pool, h, lo, hi, clocks |
        TurnSetting(p, h, lo, hi, clocks) && |clocks| == Count(h, 0, |h|) && |h| == n && p.cursor == cursor
        ensures EachHealthyOnce(h, Picks(p, clocks))
      {
        EveryHealthyBackendOncePerTurn(p, h, lo, hi, clocks);
      }
    } else {
      WrapSkips(n, cursor);
      var s := SkippedSlot(n, cursor);
      var p, clock := SkippingWalkMisses(n, cursor, s);
      CountOnly(n, s, n);
      assert TurnSetting(p, Only(n, s), 0, 0, [clock]);
      assert PoolAfter(p, [clock][..0]) == p;
      assert Picks(p, [clock])[0].None?;
      assert !EachHealthyOnce(Only(n, s), Picks(p, [clock]));
    }
  }
}
