/**
 The circuit breaker of one backend under concurrent calls (src/load_balancer.rs): every
 load, store, fetch_add and clock reading of record_success, record_failure and is_healthy
 is a step of its own, and the steps of any number of threads interleave freely. Memory is
 sequentially consistent and the clock never runs backwards.
 */
module BreakerRaces {
  import opened Prelude
  import opened CircuitBreaker

  datatype Call = CallSuccess | CallFailure | CallQuery

  /** Where a thread stands; `answer` is the result of its last query. */
  datatype Thread =
    | Ready(answer: Option<bool>)
    | Zeroed                            // record_success: failures stored, circuit still to be closed
    | Counted(f: Word, own: nat)        // record_failure: failures incremented to f
    | Stamped(f: Word, own: nat, now: Word)
    | Recorded(f: Word, own: nat)       // last_failure stored, threshold still to be compared
    | SawOpen                           // is_healthy: circuit loaded as open
    | ReadClock(now: Word)
    | Resetting                         // elapsed long enough, circuit still to be closed
    | Closing                           // circuit closed, failures still to be zeroed

  /** The stores and increments made so far; `own` names the increment an opening belongs to. */
  datatype Write =
    | Zero
    | Increment(tid: nat)
    | Open(tid: nat, own: nat)
    | Close

  datatype Memory = Memory(c: Circuit, clock: Word, threads: map<nat, Thread>, log: seq<Write>) {
    function Thread(tid: nat): Thread {
      if tid in threads then threads[tid] else Ready(None)
    }

    predicate Quiescent() {
      forall tid | tid in threads :: threads[tid].Ready?
    }
  }

  datatype Action =
    | Start(tid: nat, call: Call)
    | Advance(tid: nat)
    | Tick

  function Put(m: Memory, tid: nat, t: Thread): Memory {
    m.(threads := m.threads[tid := t])
  }

  /** One atomic step; an action that is not enabled changes nothing. */
  function Apply(m: Memory, a: Action): Memory {
    match a
    case Tick => if m.clock + 1 < WORD then m.(clock := m.clock + 1) else m
    case Start(tid, call) =>
      if !m.Thread(tid).Ready? then m
      else (match call
        case CallSuccess => Put(m.(c := m.c.(failures := 0), log := m.log + [Zero]), tid, Zeroed)
        case CallFailure =>
          var f := WrapAdd1(m.c.failures);
          Put(m.(c := m.c.(failures := f), log := m.log + [Increment(tid)]), tid, Counted(f, |m.log|))
        case CallQuery => Put(m, tid, if m.c.open then SawOpen else Ready(Some(true))))
    case Advance(tid) =>
      match m.Thread(tid)
      case Ready(_) => m
      case Zeroed => Put(m.(c := m.c.(open := false), log := m.log + [Close]), tid, Ready(None))
      case Counted(f, own) => Put(m, tid, Stamped(f, own, m.clock))
      case Stamped(f, own, now) => Put(m.(c := m.c.(lastFailure := now)), tid, Recorded(f, own))
      case Recorded(f, own) =>
        if f >= CB_THRESHOLD then Put(m.(c := m.c.(open := true), log := m.log + [Open(tid, own)]), tid, Ready(None))
        else Put(m, tid, Ready(None))
      case SawOpen => Put(m, tid, ReadClock(m.clock))
      case ReadClock(now) =>
        Put(m, tid, if WrapSub(now, m.c.lastFailure) >= CB_RESET_SECS then Resetting else Ready(Some(false)))
      case Resetting => Put(m.(c := m.c.(open := false), log := m.log + [Close]), tid, Closing)
      case Closing => Put(m.(c := m.c.(failures := 0), log := m.log + [Zero]), tid, Ready(Some(true)))
  }

  function Run(now: Word, acts: seq<Action>): Memory {
    if acts == [] then Memory(FRESH, now, map[], [])
    else Apply(Run(now, acts[..|acts| - 1]), acts[|acts| - 1])
  }

  // ---------------------------------------------------------------------------------
  // A call that is not disturbed is the atomic call
  // ---------------------------------------------------------------------------------

  function AdvanceMany(m: Memory, tid: nat, steps: nat): Memory
    decreases steps
  {
    if steps == 0 then m else AdvanceMany(Apply(m, Advance(tid)), tid, steps - 1)
  }

  /** One whole call of thread `tid` with nothing in between; no call takes more than five steps. */
  function Whole(m: Memory, tid: nat, call: Call): Memory {
    AdvanceMany(Apply(m, Start(tid, call)), tid, 4)
  }

  function AsEvent(call: Call, now: Word): Event {
    match call
    case CallSuccess => Success(now)
    case CallFailure => Failure(now)
    case CallQuery => Query(now)
  }

  lemma FourSteps(m: Memory, tid: nat) returns (m1: Memory, m2: Memory, m3: Memory, m4: Memory)
    ensures m1 == Apply(m, Advance(tid)) && m2 == Apply(m1, Advance(tid))
    ensures m3 == Apply(m2, Advance(tid)) && m4 == Apply(m3, Advance(tid))
    ensures AdvanceMany(m, tid, 4) == m4
  {
    m1 := Apply(m, Advance(tid));
    m2 := Apply(m1, Advance(tid));
    m3 := Apply(m2, Advance(tid));
    m4 := Apply(m3, Advance(tid));
    assert AdvanceMany(m1, tid, 3) == AdvanceMany(m2, tid, 2) == AdvanceMany(m3, tid, 1) == m4;
  }

  /** What the memory is after an atomic call of thread `tid`, apart from the log. */
  ghost predicate DoneAtomically(m: Memory, m': Memory, tid: nat, call: Call) {
    && m'.c == Step(m.c, AsEvent(call, m.clock))
    && m'.threads == m.threads[tid := Ready(if call.CallQuery? then Some(Healthy(m.c, m.clock)) else None)]
    && m'.clock == m.clock
  }

  lemma UndisturbedSuccess(m: Memory, tid: nat)
    requires m.Thread(tid).Ready?
    ensures DoneAtomically(m, Whole(m, tid, CallSuccess), tid, CallSuccess)
  {
    var m1, m2, m3, m4 := FourSteps(Apply(m, Start(tid, CallSuccess)), tid);
    assert m1 == m2 == m3 == m4;
  }

  lemma UndisturbedFailure(m: Memory, tid: nat)
    requires m.Thread(tid).Ready?
    ensures DoneAtomically(m, Whole(m, tid, CallFailure), tid, CallFailure)
  {
    var m1, m2, m3, m4 := FourSteps(Apply(m, Start(tid, CallFailure)), tid);
    assert m1.Thread(tid) == Stamped(WrapAdd1(m.c.failures), |m.log|, m.clock);
    assert m2.Thread(tid) == Recorded(WrapAdd1(m.c.failures), |m.log|);
    assert m3 == m4;
  }

  lemma UndisturbedQuery(m: Memory, tid: nat)
    requires m.Thread(tid).Ready?
    ensures DoneAtomically(m, Whole(m, tid, CallQuery), tid, CallQuery)
  {
    var m1, m2, m3, m4 := FourSteps(Apply(m, Start(tid, CallQuery)), tid);
    if Matured(m.c, m.clock) {
      assert m1.Thread(tid) == ReadClock(m.clock) && m3.Thread(tid) == Closing;
    } else {
      assert m2 == m3 == m4;
    }
  }

  /** A call whose steps are not disturbed does and answers what the atomic call does. */
  lemma UndisturbedCallIsAtomic(m: Memory, tid: nat, call: Call)
    requires m.Thread(tid).Ready?
    ensures DoneAtomically(m, Whole(m, tid, call), tid, call)
  {
    match call
    case CallSuccess => UndisturbedSuccess(m, tid);
    case CallFailure => UndisturbedFailure(m, tid);
    case CallQuery => UndisturbedQuery(m, tid);
  }

  // ---------------------------------------------------------------------------------
  // The invariant
  // ---------------------------------------------------------------------------------

  /** Increments since the last zeroing in the log. */
  function Charge(log: seq<Write>): nat {
    if log == [] then 0
    else
      var n := |log| - 1;
      match log[n]
      case Zero => 0
      case Increment(_) => Charge(log[..n]) + 1
      case _ => Charge(log[..n])
  }

  /** `log[own]` is an increment by `tid`, and it brought the counter to `f`. */
  ghost predicate OwnIncrement(log: seq<Write>, tid: nat, own: nat, f: Word) {
    own < |log| && log[own] == Increment(tid) && Charge(log[..own + 1]) % WORD == f
  }

  ghost predicate ThreadOk(log: seq<Write>, clock: Word, tid: nat, t: Thread) {
    match t
    case Counted(f, own) => OwnIncrement(log, tid, own, f)
    case Stamped(f, own, now) => OwnIncrement(log, tid, own, f) && now <= clock
    case Recorded(f, own) => OwnIncrement(log, tid, own, f)
    case ReadClock(now) => now <= clock
    case _ => true
  }

  /** Position `k` opens the circuit on behalf of an increment that was at least the fifth. */
  ghost predicate OpeningEarned(log: seq<Write>, k: nat)
    requires k < |log|
  {
    log[k].Open? ==>
      && log[k].own < k && log[log[k].own] == Increment(log[k].tid)
      && Charge(log[..log[k].own + 1]) >= CB_THRESHOLD
  }

  /** The last store to the circuit, if any, opened it. */
  predicate LastOpened(log: seq<Write>) {
    if log == [] then false
    else
      match log[|log| - 1]
      case Open(_, _) => true
      case Close => false
      case _ => LastOpened(log[..|log| - 1])
  }

  /** Store `k` closed the circuit when the counter had reached the threshold, and neither was undone since. */
  ghost predicate LateClose(log: seq<Write>, k: nat)
    requires k < |log|
  {
    && log[k].Close? && Charge(log[..k]) >= CB_THRESHOLD
    && forall j | k < j < |log| :: !log[j].Zero? && !log[j].Open?
  }

  ghost predicate ClosedWhileCharged(log: seq<Write>) {
    exists k | 0 <= k < |log| :: LateClose(log, k)
  }

  /** A failure whose increment reached the threshold and whose opening store is still to come. */
  predicate Pending(t: Thread) {
    match t
    case Counted(f, _) => f >= CB_THRESHOLD
    case Stamped(f, _, _) => f >= CB_THRESHOLD
    case Recorded(f, _) => f >= CB_THRESHOLD
    case _ => false
  }

  ghost predicate AboutToOpen(threads: map<nat, Thread>) {
    exists tid | tid in threads :: Pending(threads[tid])
  }

  ghost predicate ThreadsOk(log: seq<Write>, clock: Word, threads: map<nat, Thread>) {
    forall tid | tid in threads :: ThreadOk(log, clock, tid, threads[tid])
  }

  ghost predicate OpeningsEarned(log: seq<Write>) {
    forall k | 0 <= k < |log| :: OpeningEarned(log, k)
  }

  ghost predicate Inv(m: Memory) {
    && m.c.failures == Charge(m.log) % WORD
    && m.c.lastFailure <= m.clock
    && ThreadsOk(m.log, m.clock, m.threads)
    && OpeningsEarned(m.log)
    && m.c.open == LastOpened(m.log)
    && (Charge(m.log) >= CB_THRESHOLD ==> m.c.open || AboutToOpen(m.threads) || ClosedWhileCharged(m.log))
  }

  // Preservation, one kind of step at a time.

  lemma ChargeAppend(log: seq<Write>, w: Write)
    ensures Charge(log + [w]) == match w
                                 case Zero => 0
                                 case Increment(_) => Charge(log) + 1
                                 case _ => Charge(log)
    ensures LastOpened(log + [w]) == (w.Open? || (LastOpened(log) && !w.Close?))
    ensures forall k | 0 <= k <= |log| :: (log + [w])[..k] == log[..k]
  {}

  lemma ThreadOkAppend(log: seq<Write>, w: Write, clock: Word, tid: nat, t: Thread)
    requires ThreadOk(log, clock, tid, t)
    ensures ThreadOk(log + [w], clock, tid, t)
  {
    ChargeAppend(log, w);
  }

  lemma OpeningsAppend(log: seq<Write>, w: Write)
    requires OpeningsEarned(log)
    requires w.Open? ==> w.own < |log| && log[w.own] == Increment(w.tid) && Charge(log[..w.own + 1]) >= CB_THRESHOLD
    ensures OpeningsEarned(log + [w])
  {
    ChargeAppend(log, w);
    forall k | 0 <= k < |log|
      ensures OpeningEarned(log + [w], k)
    {
      assert OpeningEarned(log, k);
    }
  }

  lemma ClosedWhileChargedAppend(log: seq<Write>, w: Write)
    requires !w.Zero? && !w.Open?
    requires ClosedWhileCharged(log) || (w.Close? && Charge(log) >= CB_THRESHOLD)
    ensures ClosedWhileCharged(log + [w])
  {
    ChargeAppend(log, w);
    if ClosedWhileCharged(log) {
      var k :| 0 <= k < |log| && LateClose(log, k);
      assert LateClose(log + [w], k);
    } else {
      assert LateClose(log + [w], |log|);
    }
  }

  lemma PutKeepsPending(threads: map<nat, Thread>, tid: nat, t: Thread)
    requires tid in threads && Pending(threads[tid]) ==> Pending(t)
    ensures AboutToOpen(threads) ==> AboutToOpen(threads[tid := t])
  {
    if AboutToOpen(threads) {
      var w :| w in threads && Pending(threads[w]);
      assert w in threads[tid := t] && Pending(threads[tid := t][w]);
    }
  }

  lemma PutKeepsThreads(log: seq<Write>, clock: Word, threads: map<nat, Thread>, tid: nat, t: Thread)
    requires ThreadsOk(log, clock, threads) && ThreadOk(log, clock, tid, t)
    ensures ThreadsOk(log, clock, threads[tid := t])
  {}

  /** Steps that write nothing, and the store to last_failure. */
  lemma QuietStepKeepsInv(m: Memory, tid: nat, last: Word, t: Thread)
    requires Inv(m) && last <= m.clock
    requires ThreadOk(m.log, m.clock, tid, t)
    requires Pending(m.Thread(tid)) ==> Pending(t)
    ensures Inv(Put(m.(c := m.c.(lastFailure := last)), tid, t))
  {
    PutKeepsPending(m.threads, tid, t);
    PutKeepsThreads(m.log, m.clock, m.threads, tid, t);
  }

  lemma TickKeepsInv(m: Memory)
    requires Inv(m)
    ensures Inv(Apply(m, Tick))
  {}

  /** A logged write `w` leaving the circuit as `c` and the thread as `t`. */
  lemma WriteKeepsInv(m: Memory, tid: nat, w: Write, c: Circuit, t: Thread)
    requires Inv(m)
    requires c.failures == Charge(m.log + [w]) % WORD && c.lastFailure == m.c.lastFailure
    requires c.open == match w case Open(_, _) => true case Close => false case _ => m.c.open
    requires ThreadOk(m.log + [w], m.clock, tid, t)
    requires w.Open? ==>
               w.own < |m.log| && m.log[w.own] == Increment(w.tid) && Charge(m.log[..w.own + 1]) >= CB_THRESHOLD
    requires Pending(m.Thread(tid)) ==> w.Open?
    requires w.Increment? && Charge(m.log) + 1 == CB_THRESHOLD ==> Pending(t)
    ensures Inv(Put(m.(c := c, log := m.log + [w]), tid, t))
  {
    var log := m.log + [w];
    ChargeAppend(m.log, w);
    forall other | other in m.threads
      ensures ThreadOk(log, m.clock, other, m.threads[other])
    {
      ThreadOkAppend(m.log, w, m.clock, other, m.threads[other]);
    }
    PutKeepsThreads(log, m.clock, m.threads, tid, t);
    OpeningsAppend(m.log, w);
    if !w.Open? {
      PutKeepsPending(m.threads, tid, t);
    }
    if !w.Zero? && !w.Open? && (ClosedWhileCharged(m.log) || (w.Close? && Charge(m.log) >= CB_THRESHOLD)) {
      ClosedWhileChargedAppend(m.log, w);
    }
    if Pending(t) {
      assert tid in m.threads[tid := t] && Pending(m.threads[tid := t][tid]);
    }
  }

  lemma ReachedAtLeast(log: seq<Write>, tid: nat, own: nat, f: Word)
    requires OwnIncrement(log, tid, own, f)
    ensures Charge(log[..own + 1]) >= f
  {}

  lemma IncrementKeepsInv(m: Memory, tid: nat)
    requires Inv(m) && m.Thread(tid).Ready?
    ensures Inv(Apply(m, Start(tid, CallFailure)))
  {
    var w, f := Increment(tid), WrapAdd1(m.c.failures);
    ChargeAppend(m.log, w);
    StreakWraps(Charge(m.log));
    var log := m.log + [w];
    assert log[..|m.log| + 1] == log;
    WriteKeepsInv(m, tid, w, m.c.(failures := f), Counted(f, |m.log|));
  }

  lemma AdvanceKeepsInv(m: Memory, tid: nat)
    requires Inv(m)
    ensures Inv(Apply(m, Advance(tid)))
  {
    var t := m.Thread(tid);
    assert tid in m.threads ==> ThreadOk(m.log, m.clock, tid, t);
    match t {
      case Ready(_) =>
      case Zeroed =>
        ChargeAppend(m.log, Close);
        WriteKeepsInv(m, tid, Close, m.c.(open := false), Ready(None));
      case Counted(f, own) => QuietStepKeepsInv(m, tid, m.c.lastFailure, Stamped(f, own, m.clock));
      case Stamped(f, own, now) => QuietStepKeepsInv(m, tid, now, Recorded(f, own));
      case Recorded(f, own) =>
        if f >= CB_THRESHOLD {
          ReachedAtLeast(m.log, tid, own, f);
          ChargeAppend(m.log, Open(tid, own));
          WriteKeepsInv(m, tid, Open(tid, own), m.c.(open := true), Ready(None));
        } else {
          QuietStepKeepsInv(m, tid, m.c.lastFailure, Ready(None));
        }
      case SawOpen => QuietStepKeepsInv(m, tid, m.c.lastFailure, ReadClock(m.clock));
      case ReadClock(now) =>
        QuietStepKeepsInv(m, tid, m.c.lastFailure,
                          if WrapSub(now, m.c.lastFailure) >= CB_RESET_SECS then Resetting else Ready(Some(false)));
      case Resetting =>
        ChargeAppend(m.log, Close);
        WriteKeepsInv(m, tid, Close, m.c.(open := false), Closing);
      case Closing =>
        ChargeAppend(m.log, Zero);
        WriteKeepsInv(m, tid, Zero, m.c.(failures := 0), Ready(Some(true)));
    }
  }

  lemma StepKeepsInv(m: Memory, a: Action)
    requires Inv(m)
    ensures Inv(Apply(m, a))
  {
    match a {
      case Tick => TickKeepsInv(m);
      case Advance(tid) => AdvanceKeepsInv(m, tid);
      case Start(tid, call) =>
        if m.Thread(tid).Ready? {
          match call {
            case CallSuccess =>
              ChargeAppend(m.log, Zero);
              WriteKeepsInv(m, tid, Zero, m.c.(failures := 0), Zeroed);
            case CallFailure => IncrementKeepsInv(m, tid);
            case CallQuery =>
              QuietStepKeepsInv(m, tid, m.c.lastFailure, if m.c.open then SawOpen else Ready(Some(true)));
          }
        }
    }
  }

  lemma {:induction false} InvAlways(now: Word, acts: seq<Action>)
    ensures Inv(Run(now, acts))
  {
    if acts != [] {
      InvAlways(now, acts[..|acts| - 1]);
      StepKeepsInv(Run(now, acts[..|acts| - 1]), acts[|acts| - 1]);
    }
  }

  // ---------------------------------------------------------------------------------
  // What holds in every interleaving
  // ---------------------------------------------------------------------------------

  /** Every opening store belongs to an increment that was at least the fifth since the last zeroing before it. */
  lemma EveryOpeningIsEarned(now: Word, acts: seq<Action>, k: nat)
    requires k < |Run(now, acts).log| && Run(now, acts).log[k].Open?
    ensures var log := Run(now, acts).log;
            var own := log[k].own;
            own < k && log[own] == Increment(log[k].tid) && Charge(log[..own + 1]) >= 5
  {
    InvAlways(now, acts);
    assert OpeningEarned(Run(now, acts).log, k);
  }

  /**
   Races leave odd states behind, such as an open circuit with no failures, but a later
   undisturbed query always recovers: it admits exactly from 30 s after the recorded last
   failure on, and then leaves the circuit closed with no failures.
   */
  lemma OpenCircuitRecoversOnTime(now: Word, acts: seq<Action>, tid: nat)
    requires Run(now, acts).Quiescent() && Run(now, acts).c.open
    ensures var m := Run(now, acts);
            var m' := Whole(m, tid, CallQuery);
            && (m'.Thread(tid) == Ready(Some(true)) <==> m.clock >= m.c.lastFailure + 30)
            && m'.c == if m.clock >= m.c.lastFailure + 30 then Succeeded(m.c) else m.c
  {
    InvAlways(now, acts);
    UndisturbedCallIsAtomic(Run(now, acts), tid, CallQuery);
  }

  /**
   A circuit left with five or more failures is open after the next undisturbed failure,
   unless it was closed and the failure wraps the 64-bit counter to zero.
   */
  lemma OverchargedCircuitOpensNext(now: Word, acts: seq<Action>, tid: nat)
    requires Run(now, acts).Quiescent() && Run(now, acts).c.failures >= 5
    ensures var c := Run(now, acts).c;
            Whole(Run(now, acts), tid, CallFailure).c.open <==> c.open || c.failures + 1 < WORD
  {
    UndisturbedCallIsAtomic(Run(now, acts), tid, CallFailure);
  }

  lemma {:induction false} ChargeGrowsWithoutZero(log: seq<Write>, k: nat)
    requires k <= |log| && forall j | k <= j < |log| :: !log[j].Zero?
    ensures Charge(log[..k]) <= Charge(log)
  {
    if k < |log| {
      var n := |log| - 1;
      ChargeGrowsWithoutZero(log[..n], k);
      assert log[..n][..k] == log[..k];
    } else {
      assert log[..k] == log;
    }
  }

  lemma {:induction false} StaysClosed(log: seq<Write>, k: nat)
    requires k < |log| && log[k].Close? && forall j | k < j < |log| :: !log[j].Open?
    ensures !LastOpened(log)
  {
    if k < |log| - 1 {
      StaysClosed(log[..|log| - 1], k);
    }
  }

  /**
   At rest, a circuit is closed with five or more failures exactly if a closing store came
   after the fifth increment, with no opening and no zeroing after it.
   */
  lemma ClosedAtRestIff(now: Word, acts: seq<Action>)
    requires Run(now, acts).Quiescent()
    ensures var m := Run(now, acts);
            !m.c.open && Charge(m.log) >= 5 <==> ClosedWhileCharged(m.log)
  {
    var log := Run(now, acts).log;
    InvAlways(now, acts);
    if ClosedWhileCharged(log) {
      var k :| 0 <= k < |log| && LateClose(log, k);
      StaysClosed(log, k);
      ChargeGrowsWithoutZero(log, k);
    }
  }

  /** The last opening of the circuit, and that no closing came after it. */
  lemma {:induction false} FindOpening(log: seq<Write>) returns (k: nat)
    requires LastOpened(log)
    ensures k < |log| && log[k].Open? && forall j | k < j < |log| :: !log[j].Close?
  {
    k := |log| - 1;
    if !log[k].Open? {
      k := FindOpening(log[..k]);
    }
  }

  lemma {:induction false} StaysOpen(log: seq<Write>, k: nat)
    requires k < |log| && log[k].Open? && forall j | k < j < |log| :: !log[j].Close?
    ensures LastOpened(log)
  {
    if k < |log| - 1 {
      StaysOpen(log[..|log| - 1], k);
    }
  }

  function Increments(log: seq<Write>): nat {
    if log == [] then 0
    else Increments(log[..|log| - 1]) + if log[|log| - 1].Increment? then 1 else 0
  }

  /** After a zeroing the counter is at most the number of increments since, and exactly that since the last one. */
  lemma {:induction false} ChargeSinceZero(log: seq<Write>, z: nat)
    requires z < |log| && log[z].Zero?
    ensures Charge(log) <= Increments(log[z + 1..])
    ensures (forall j | z < j < |log| :: !log[j].Zero?) ==> Charge(log) == Increments(log[z + 1..])
  {
    var n := |log| - 1;
    if z < n {
      ChargeSinceZero(log[..n], z);
      assert log[z + 1..][..n - z - 1] == log[..n][z + 1..];
    }
  }

  lemma {:induction false} FindZero(log: seq<Write>, from: nat) returns (z: nat)
    requires from <= |log| && exists j | from <= j < |log| :: log[j].Zero?
    ensures from <= z < |log| && log[z].Zero? && forall j | z < j < |log| :: !log[j].Zero?
  {
    z := |log| - 1;
    if !log[z].Zero? {
      z := FindZero(log[..z], from);
    }
  }

  /**
   Store `k` opened the circuit with no closing after it, and the zeroing `z` came later
   than its own increment, with fewer than five increments since.
   */
  ghost predicate LateZero(log: seq<Write>, k: nat, z: nat)
    requires k < |log| && z < |log|
  {
    && log[k].Open? && (forall j | k < j < |log| :: !log[j].Close?)
    && log[z].Zero? && log[k].own < z && Increments(log[z + 1..]) < CB_THRESHOLD
  }

  ghost predicate ZeroedAroundOpening(log: seq<Write>) {
    exists k, z | 0 <= k < |log| && 0 <= z < |log| :: LateZero(log, k, z)
  }

  lemma OpenUnchargedWasZeroed(log: seq<Write>)
    requires LastOpened(log) && OpeningsEarned(log) && Charge(log) < CB_THRESHOLD
    ensures ZeroedAroundOpening(log)
  {
    var k := FindOpening(log);
    assert OpeningEarned(log, k);
    var own := log[k].own;
    if forall j | own + 1 <= j < |log| :: !log[j].Zero? {
      ChargeGrowsWithoutZero(log, own + 1);
    }
    var z := FindZero(log, own + 1);
    ChargeSinceZero(log, z);
    assert LateZero(log, k, z);
  }

  /** In every reachable state a circuit is open with fewer than five failures exactly if that has happened. */
  lemma OpenWithFewFailuresIff(now: Word, acts: seq<Action>)
    ensures var m := Run(now, acts);
            m.c.open && Charge(m.log) < 5 <==> ZeroedAroundOpening(m.log)
  {
    var log := Run(now, acts).log;
    InvAlways(now, acts);
    if LastOpened(log) && Charge(log) < CB_THRESHOLD {
      OpenUnchargedWasZeroed(log);
    }
    if ZeroedAroundOpening(log) {
      var k, z :| 0 <= k < |log| && 0 <= z < |log| && LateZero(log, k, z);
      StaysOpen(log, k);
      ChargeSinceZero(log, z);
    }
  }

  predicate OnlyFailures(acts: seq<Action>) {
    forall k | 0 <= k < |acts| && acts[k].Start? :: acts[k].call.CallFailure?
  }

  ghost predicate SawOnlyFailures(m: Memory) {
    && (forall k | 0 <= k < |m.log| :: m.log[k].Increment? || m.log[k].Open?)
    && forall tid | tid in m.threads ::
         var t := m.threads[tid]; t.Ready? || t.Counted? || t.Stamped? || t.Recorded?
  }

  lemma FailureStep(m: Memory, a: Action)
    requires SawOnlyFailures(m) && (a.Start? ==> a.call.CallFailure?)
    ensures SawOnlyFailures(Apply(m, a))
  {}

  lemma {:induction false} RunSawOnlyFailures(now: Word, acts: seq<Action>)
    requires OnlyFailures(acts)
    ensures SawOnlyFailures(Run(now, acts))
  {
    if acts != [] {
      var n := |acts| - 1;
      RunSawOnlyFailures(now, acts[..n]);
      FailureStep(Run(now, acts[..n]), acts[n]);
    }
  }

  lemma {:induction false} ChargeWithoutZero(log: seq<Write>)
    requires forall k | 0 <= k < |log| :: !log[k].Zero?
    ensures Charge(log) == Increments(log)
  {
    if log != [] {
      ChargeWithoutZero(log[..|log| - 1]);
    }
  }

  /** Concurrent failures are never lost: at rest the circuit is open iff five of them were recorded. */
  lemma ConcurrentFailuresCount(now: Word, acts: seq<Action>)
    requires OnlyFailures(acts) && Run(now, acts).Quiescent()
    ensures var m := Run(now, acts);
            && m.c.failures == Increments(m.log) % WORD
            && (m.c.open <==> Increments(m.log) >= 5)
  {
    var m := Run(now, acts);
    InvAlways(now, acts);
    RunSawOnlyFailures(now, acts);
    ChargeWithoutZero(m.log);
    if m.c.open {
      var k := FindOpening(m.log);
      assert OpeningEarned(m.log, k);
      ChargeGrowsWithoutZero(m.log, m.log[k].own + 1);
    }
  }

  // What the order of a call's own stores guarantees.

  predicate NoSuccesses(acts: seq<Action>) {
    forall k | 0 <= k < |acts| && acts[k].Start? :: !acts[k].call.CallSuccess?
  }

  /** The last zeroing or closing in the log, if any, is a closing. */
  predicate CloseAwaitsZero(log: seq<Write>) {
    if log == [] then false
    else
      match log[|log| - 1]
      case Close => true
      case Zero => false
      case _ => CloseAwaitsZero(log[..|log| - 1])
  }

  /** Without successes a circuit is closed only by a reset, and that zeroes the failures next. */
  ghost predicate ResetsFinish(m: Memory) {
    && (forall tid | tid in m.threads :: !m.threads[tid].Zeroed?)
    && (CloseAwaitsZero(m.log) ==> SomeoneCloses(m.threads))
  }

  lemma AwaitAppend(log: seq<Write>, w: Write)
    ensures CloseAwaitsZero(log + [w]) == (w.Close? || (CloseAwaitsZero(log) && !w.Zero?))
  {}

  ghost predicate SomeoneCloses(threads: map<nat, Thread>) {
    exists tid | tid in threads :: threads[tid].Closing?
  }

  lemma StepFinishesResets(m: Memory, a: Action)
    requires ResetsFinish(m) && (a.Start? ==> !a.call.CallSuccess?)
    ensures ResetsFinish(Apply(m, a))
  {
    match a
    case Tick =>
    case Start(tid, _) =>
      AwaitAppend(m.log, Increment(tid));
      PutKeepsClosers(m.threads, tid, Apply(m, a).Thread(tid));
    case Advance(tid) =>
      var t := m.Thread(tid);
      AwaitAppend(m.log, Close);
      AwaitAppend(m.log, Zero);
      if t.Recorded? {
        AwaitAppend(m.log, Open(tid, t.own));
      }
      PutKeepsClosers(m.threads, tid, Apply(m, a).Thread(tid));
  }

  /** Replacing a thread that is not about to zero leaves all those that are. */
  lemma PutKeepsClosers(threads: map<nat, Thread>, tid: nat, t: Thread)
    ensures SomeoneCloses(threads) && !(tid in threads && threads[tid].Closing?) ==> SomeoneCloses(threads[tid := t])
    ensures t.Closing? ==> SomeoneCloses(threads[tid := t])
  {
    if SomeoneCloses(threads) && !(tid in threads && threads[tid].Closing?) {
      var other :| other in threads && threads[other].Closing?;
      assert other in threads[tid := t] && threads[tid := t][other].Closing?;
    }
    if t.Closing? {
      assert tid in threads[tid := t] && threads[tid := t][tid].Closing?;
    }
  }

  lemma {:induction false} ResetsAlwaysFinish(now: Word, acts: seq<Action>)
    requires NoSuccesses(acts)
    ensures ResetsFinish(Run(now, acts))
  {
    if acts != [] {
      var n := |acts| - 1;
      ResetsAlwaysFinish(now, acts[..n]);
      StepFinishesResets(Run(now, acts[..n]), acts[n]);
    }
  }

  lemma {:induction false} CloseWithoutZeroAwaits(log: seq<Write>, k: nat)
    requires k < |log| && log[k].Close? && forall j | k < j < |log| :: !log[j].Zero?
    ensures CloseAwaitsZero(log)
  {
    if k < |log| - 1 {
      CloseWithoutZeroAwaits(log[..|log| - 1], k);
    }
  }

  /**
   A reset closes the circuit first and zeroes the failures then. So as long as no success
   is recorded, a circuit at rest is open whenever five failures or more are counted.
   */
  lemma ChargedCircuitIsOpenWithoutSuccesses(now: Word, acts: seq<Action>)
    requires NoSuccesses(acts) && Run(now, acts).Quiescent()
    ensures Charge(Run(now, acts).log) >= 5 ==> Run(now, acts).c.open
  {
    var m := Run(now, acts);
    ResetsAlwaysFinish(now, acts);
    ClosedAtRestIff(now, acts);
    if !m.c.open && Charge(m.log) >= 5 {
      var k :| 0 <= k < |m.log| && LateClose(m.log, k);
      CloseWithoutZeroAwaits(m.log, k);
    }
  }

  ghost predicate HasIncrement(log: seq<Write>) {
    exists k | 0 <= k < |log| :: log[k].Increment?
  }

  lemma StepCountsFirst(m: Memory, a: Action)
    requires Inv(m) && (m.c.lastFailure > 0 ==> HasIncrement(m.log))
    ensures Apply(m, a).c.lastFailure > 0 ==> HasIncrement(Apply(m, a).log)
  {
    var m' := Apply(m, a);
    assert |m'.log| >= |m.log| && m'.log[..|m.log|] == m.log;
    if HasIncrement(m.log) {
      var k :| 0 <= k < |m.log| && m.log[k].Increment?;
      assert m'.log[..|m.log|][k].Increment?;
    } else if a.Advance? && a.tid in m.threads {
      assert ThreadOk(m.log, m.clock, a.tid, m.threads[a.tid]);
    }
  }

  /** A failure is counted before it is stamped. */
  lemma {:induction false} CountedBeforeStamped(now: Word, acts: seq<Action>)
    ensures Run(now, acts).c.lastFailure > 0 ==> HasIncrement(Run(now, acts).log)
  {
    if acts != [] {
      var n := |acts| - 1;
      CountedBeforeStamped(now, acts[..n]);
      InvAlways(now, acts[..n]);
      StepCountsFirst(Run(now, acts[..n]), acts[n]);
    }
  }

  /** Stamps are read after `start`, and the circuit is opened after the stamp is stored. */
  ghost predicate StampsInOrder(m: Memory, start: Word) {
    && start <= m.clock
    && (m.c.open ==> m.c.lastFailure >= start)
    && (forall tid | tid in m.threads ::
          match m.threads[tid]
          case Stamped(_, _, at) => at >= start
          case Recorded(_, _) => m.c.lastFailure >= start
          case _ => true)
  }

  lemma StepStampsInOrder(m: Memory, a: Action, start: Word)
    requires StampsInOrder(m, start)
    ensures StampsInOrder(Apply(m, a), start)
  {}

  /** An open circuit always shows the time of a failure of this run: no reader finds it open but not stamped. */
  lemma {:induction false} OpenCircuitIsStamped(now: Word, acts: seq<Action>)
    ensures StampsInOrder(Run(now, acts), now)
    ensures Run(now, acts).c.open ==> now <= Run(now, acts).c.lastFailure <= Run(now, acts).clock
  {
    InvAlways(now, acts);
    if acts != [] {
      var n := |acts| - 1;
      OpenCircuitIsStamped(now, acts[..n]);
      StepStampsInOrder(Run(now, acts[..n]), acts[n], now);
    }
  }

  /**
   is_healthy reads the clock before the last failure. A query holding the reading `now`
   goes on to reset the circuit iff 30 s have passed, or a failure later than its reading
   has been stored in between: then the subtraction wraps around.
   */
  lemma StaleReadingAdmitsIff(start: Word, acts: seq<Action>, tid: nat)
    requires Run(start, acts).Thread(tid).ReadClock? && Run(start, acts).clock <= WORD - 30
    ensures var m := Run(start, acts);
            var now := m.Thread(tid).now;
            Apply(m, Advance(tid)).Thread(tid).Resetting?
            <==> now >= m.c.lastFailure + 30 || now < m.c.lastFailure
  {
    InvAlways(start, acts);
  }

  /** It happens: a failure recorded one second after the reading readmits the backend that just failed. */
  lemma FreshFailureReadmits(m: Memory, query: nat, failure: nat)
    requires m.Thread(query).SawOpen? && m.Thread(failure).Ready? && m.clock + 1 < WORD
    ensures var m1 := Apply(Apply(Apply(m, Advance(query)), Tick), Start(failure, CallFailure));
            var m2 := Apply(Apply(Apply(m1, Advance(failure)), Advance(failure)), Advance(query));
            && m2.c.lastFailure == m2.clock == m.clock + 1 && m2.c.open == m.c.open && m2.Thread(query) == Resetting
            && AdvanceMany(m2, query, 2).Thread(query) == Ready(Some(true))
            && AdvanceMany(m2, query, 2).c == Succeeded(m2.c)
  {
    var m1 := Apply(Apply(Apply(m, Advance(query)), Tick), Start(failure, CallFailure));
    var m2 := Apply(Apply(Apply(m1, Advance(failure)), Advance(failure)), Advance(query));
    ResetAnswers(m2, query);
  }

  lemma ResetAnswers(m: Memory, tid: nat)
    requires m.Thread(tid).Resetting?
    ensures var m' := AdvanceMany(m, tid, 2); m'.Thread(tid) == Ready(Some(true)) && m'.c == Succeeded(m.c)
  {
    var m1 := Apply(m, Advance(tid));
    assert AdvanceMany(m, tid, 2) == AdvanceMany(m1, tid, 1) == AdvanceMany(Apply(m1, Advance(tid)), tid, 0);
  }

  // ---------------------------------------------------------------------------------
  // The odd states do occur
  // ---------------------------------------------------------------------------------

  ghost predicate Reachable(m: Memory) {
    exists now, acts :: Run(now, acts) == m
  }

  lemma ReachStep(m: Memory, a: Action)
    requires Reachable(m)
    ensures Reachable(Apply(m, a))
  {
    var now, acts :| Run(now, acts) == m;
    assert (acts + [a])[..|acts|] == acts;
    assert Run(now, acts + [a]) == Apply(m, a);
  }

  lemma {:induction false} ReachAdvances(m: Memory, tid: nat, steps: nat)
    requires Reachable(m)
    ensures Reachable(AdvanceMany(m, tid, steps))
    decreases steps
  {
    if steps > 0 {
      ReachStep(m, Advance(tid));
      ReachAdvances(Apply(m, Advance(tid)), tid, steps - 1);
    }
  }

  /** `k` undisturbed failures of one thread. */
  lemma {:induction false} ReachFailures(m: Memory, tid: nat, k: nat) returns (m': Memory)
    requires Reachable(m) && m.Thread(tid).Ready? && m.c.failures + k < WORD
    ensures Reachable(m') && m'.c.failures == m.c.failures + k
    ensures m'.clock == m.clock && m'.c.open == (m.c.open || (k > 0 && m.c.failures + k >= CB_THRESHOLD))
    ensures m'.threads.Keys == m.threads.Keys + (if k > 0 then {tid} else {}) && m'.Thread(tid).Ready?
    ensures forall other | other != tid :: m'.Thread(other) == m.Thread(other)
    decreases k
  {
    if k == 0 {
      m' := m;
    } else {
      ReachStep(m, Start(tid, CallFailure));
      ReachAdvances(Apply(m, Start(tid, CallFailure)), tid, 4);
      UndisturbedCallIsAtomic(m, tid, CallFailure);
      m' := ReachFailures(Whole(m, tid, CallFailure), tid, k - 1);
    }
  }

  /** Thread 0's fifth failure is counted; thread 1's success zeroes and closes before it opens the circuit. */
  lemma SuccessOvertakesFifthFailure(m: Memory) returns (m': Memory)
    requires Reachable(m) && m.threads.Keys == {0} && m.Thread(0).Ready? && m.c.failures == 4
    ensures Reachable(m') && m'.threads.Keys == {0, 1} && m'.Thread(0) == Counted(5, |m.log|)
    ensures m'.Thread(1) == Ready(None) && m'.c.failures == 0
  {
    ReachStep(m, Start(0, CallFailure));
    var m1 := Apply(m, Start(0, CallFailure));
    ReachStep(m1, Start(1, CallSuccess));
    var m2 := Apply(m1, Start(1, CallSuccess));
    ReachStep(m2, Advance(1));
    m' := Apply(m2, Advance(1));
  }

  /** An open circuit with no failures, at rest. */
  lemma OpenWithoutFailuresOccurs()
    ensures exists m :: Reachable(m) && m.Quiescent() && m.c.open && m.c.failures == 0
  {
    var m0 := Run(0, []);
    var m1 := ReachFailures(m0, 0, 4);
    var m2 := SuccessOvertakesFifthFailure(m1);
    ReachAdvances(m2, 0, 4);
    var a, b, c, d := FourSteps(m2, 0);
    assert c.c.open && c.Thread(0) == Ready(None);
    assert d.threads.Keys == {0, 1} && d.Thread(1) == Ready(None);
  }

  /** A closed circuit with five failures, at rest: a success closes it only after they were recorded. */
  lemma ClosedWithFiveFailuresOccurs()
    ensures exists m :: Reachable(m) && m.Quiescent() && !m.c.open && m.c.failures == 5
  {
    var m0 := Run(0, []);
    ReachStep(m0, Start(1, CallSuccess));
    var m1 := Apply(m0, Start(1, CallSuccess));
    var m2 := ReachFailures(m1, 0, 5);
    ReachStep(m2, Advance(1));
    assert m2.Thread(1) == Zeroed;
    assert Apply(m2, Advance(1)).threads.Keys == {0, 1};
  }

  /** The query reads the clock, a second passes, and a failure is recorded before the query goes on. */
  lemma ReachBehindReading(m: Memory, query: nat, failure: nat)
    requires Reachable(m)
    ensures var m1 := Apply(Apply(Apply(m, Advance(query)), Tick), Start(failure, CallFailure));
            Reachable(Apply(Apply(Apply(m1, Advance(failure)), Advance(failure)), Advance(query)))
  {
    hide Apply, Reachable;
    var a := Apply(m, Advance(query));
    var b := Apply(a, Tick);
    var c := Apply(b, Start(failure, CallFailure));
    var d := Apply(c, Advance(failure));
    ReachStep(m, Advance(query));
    ReachStep(a, Tick);
    ReachStep(b, Start(failure, CallFailure));
    ReachStep(c, Advance(failure));
    ReachStep(d, Advance(failure));
    ReachStep(Apply(d, Advance(failure)), Advance(query));
  }

  /** An open circuit that failed this very second, and a query that is about to close it and to answer "healthy". */
  lemma FreshFailureReadmitsOccurs()
    ensures exists m ::
              && Reachable(m) && m.c.open && m.c.lastFailure == m.clock > 0 && m.Thread(1) == Resetting
              && AdvanceMany(m, 1, 2).Thread(1) == Ready(Some(true)) && AdvanceMany(m, 1, 2).c == Succeeded(m.c)
  {
    var m0 := Run(0, []);
    var m1 := ReachFailures(m0, 0, 5);
    ReachStep(m1, Start(1, CallQuery));
    var m := Apply(m1, Start(1, CallQuery));
    assert m.Thread(1) == SawOpen && m.Thread(0).Ready? && m.c.open && m.clock == 0;
    hide Apply, Run, AdvanceMany;
    FreshFailureReadmits(m, 1, 0);
    ReachBehindReading(m, 1, 0);
  }
}
