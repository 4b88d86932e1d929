/**
 One backend and its circuit breaker (src/load_balancer.rs). Times are Unix seconds as
 `u64`. This module takes each call as one atomic step; BreakerRaces.dfy splits the calls
 into their atomic memory operations.
 */
module CircuitBreaker {
  import opened Prelude

  /** Failures before the circuit opens. */
  const CB_THRESHOLD: nat := 5
  /** Seconds before an open circuit lets traffic through again. */
  const CB_RESET_SECS: nat := 30

  datatype Circuit = Circuit(failures: Word, lastFailure: Word, open: bool)

  const FRESH := Circuit(0, 0, false)

  /** `u64` and `usize` arithmetic wraps around, as it does in a release build. */
  function WrapAdd1(n: Word): Word {
    if n + 1 == WORD then 0 else n + 1
  }

  function WrapSub(a: Word, b: Word): Word {
    if a >= b then a - b else a - b + WORD
  }

  function Succeeded(c: Circuit): Circuit {
    c.(failures := 0, open := false)
  }

  function Failed(c: Circuit, now: Word): Circuit {
    Circuit(WrapAdd1(c.failures), now, c.open || WrapAdd1(c.failures) >= CB_THRESHOLD)
  }

  /** An open circuit whose last failure is long enough ago to be closed by the next query. */
  predicate Matured(c: Circuit, now: Word) {
    c.open && WrapSub(now, c.lastFailure) >= CB_RESET_SECS
  }

  /** The answer of a health query; the query may close the circuit. */
  predicate Healthy(c: Circuit, now: Word) {
    !c.open || Matured(c, now)
  }

  function Queried(c: Circuit, now: Word): Circuit {
    if Matured(c, now) then Succeeded(c) else c
  }

  class Backend {
    const url: string
    var active: Word
    var failures: Word
    var lastFailure: Word
    var circuitOpen: bool

    constructor (url: string)
      ensures this.url == url && active == 0 && View() == FRESH
    {
      this.url := url;
      active, failures, lastFailure, circuitOpen := 0, 0, 0, false;
    }

    ghost function View(): Circuit
      reads this
    {
      Circuit(failures, lastFailure, circuitOpen)
    }

    method Acquire()
      modifies this`active
      ensures active == WrapAdd1(old(active))
    {
      active := if active + 1 == WORD then 0 else active + 1;
    }

    method Release()
      modifies this`active
      ensures active == WrapSub(old(active), 1)
    {
      active := if active == 0 then WORD - 1 else active - 1;
    }

    method RecordSuccess()
      modifies this`failures, this`circuitOpen
      ensures View() == Succeeded(old(View()))
    {
      failures := 0;
      circuitOpen := false;
    }

    method RecordFailure(now: Word)
      modifies this`failures, this`lastFailure, this`circuitOpen
      ensures View() == Failed(old(View()), now)
    {
      failures := WrapAdd1(failures);
      var f := failures;
      lastFailure := now;
      if f >= CB_THRESHOLD {
        circuitOpen := true;
      }
    }

    method IsHealthy(now: Word) returns (healthy: bool)
      modifies this`failures, this`circuitOpen
      ensures healthy == Healthy(old(View()), now)
      ensures View() == Queried(old(View()), now)
    {
      if !circuitOpen {
        return true;
      }
      var elapsed := WrapSub(now, lastFailure);
      if elapsed >= CB_RESET_SECS {
        circuitOpen := false;
        failures := 0;
        healthy := true;
      } else {
        healthy := false;
      }
    }
  }

  // ---------------------------------------------------------------------------------
  // Runs of atomic calls
  // ---------------------------------------------------------------------------------

  datatype Event =
    | Success(at: Word)
    | Failure(at: Word)
    | Query(at: Word)

  function Step(c: Circuit, e: Event): Circuit {
    match e
    case Success(_) => Succeeded(c)
    case Failure(now) => Failed(c, now)
    case Query(now) => Queried(c, now)
  }

  function After(c: Circuit, evs: seq<Event>): Circuit {
    if evs == [] then c else Step(After(c, evs[..|evs| - 1]), evs[|evs| - 1])
  }

  /** The clock never runs backwards along the run. */
  ghost predicate Ordered(evs: seq<Event>) {
    forall i, j | 0 <= i <= j < |evs| :: evs[i].at <= evs[j].at
  }

  /** The latest failure of the run, or `last` if there is none. */
  function LatestSince(last: Word, evs: seq<Event>): Word {
    if evs == [] then last
    else
      var n := |evs| - 1;
      if evs[n].Failure? then evs[n].at else LatestSince(last, evs[..n])
  }

  /** The time of the latest recorded failure, 0 if there is none. */
  function LatestFailure(evs: seq<Event>): Word {
    LatestSince(0, evs)
  }

  /** Failures since the last success or reset, read off the history alone. */
  function Streak(evs: seq<Event>): nat {
    if evs == [] then 0
    else
      var n := |evs| - 1;
      var before := Streak(evs[..n]);
      match evs[n]
      case Success(_) => 0
      case Failure(_) => before + 1
      case Query(now) =>
        if before >= 5 && WrapSub(now, LatestFailure(evs[..n])) >= 30 then 0
        else before
  }

  lemma StreakWraps(s: nat)
    ensures WrapAdd1(s % WORD) == (s + 1) % WORD
    ensures s >= CB_THRESHOLD || WrapAdd1(s % WORD) >= CB_THRESHOLD <==> s + 1 >= CB_THRESHOLD
  {}

  lemma StateStep(before: nat, last: Word, latest: Word, e: Event, streak: nat)
    requires latest == if e.Failure? then e.at else last
    requires streak == match e
                       case Success(_) => 0
                       case Failure(_) => before + 1
                       case Query(now) =>
                         if before >= CB_THRESHOLD && WrapSub(now, last) >= CB_RESET_SECS then 0 else before
    ensures Step(Circuit(before % WORD, last, before >= CB_THRESHOLD), e)
         == Circuit(streak % WORD, latest, streak >= CB_THRESHOLD)
  {
    StreakWraps(before);
  }

  /** The three fields are functions of the history; the circuit is open iff the streak is five or more. */
  lemma {:induction false} StateIsHistory(evs: seq<Event>)
    ensures After(FRESH, evs) == Circuit(Streak(evs) % WORD, LatestFailure(evs), Streak(evs) >= 5)
  {
    if evs != [] {
      var n := |evs| - 1;
      StateIsHistory(evs[..n]);
      StateStep(Streak(evs[..n]), LatestFailure(evs[..n]), LatestFailure(evs), evs[n], Streak(evs));
    }
  }

  // ---------------------------------------------------------------------------------
  // The lazy reset against a real timer
  // ---------------------------------------------------------------------------------

  /** A breaker whose open circuit is closed by a timer the moment it matures. */
  function TimerAfter(evs: seq<Event>): Circuit {
    if evs == [] then FRESH
    else
      var n := |evs| - 1;
      Step(Queried(TimerAfter(evs[..n]), evs[n].at), evs[n])
  }

  /** After every event, a query at that instant gets the same answer from both breakers. */
  ghost predicate AgreesWithTimer(evs: seq<Event>) {
    forall k | 0 <= k < |evs| :: AgreesAt(evs, k)
  }

  ghost predicate AgreesAt(evs: seq<Event>, k: nat)
    requires k < |evs|
  {
    Healthy(After(FRESH, evs[..k + 1]), evs[k].at) == Healthy(TimerAfter(evs[..k + 1]), evs[k].at)
  }

  /** A failure recorded at position `k` lands on a circuit that has matured but was not queried yet. */
  ghost predicate LateFailure(evs: seq<Event>, k: nat)
    requires k < |evs|
  {
    evs[k].Failure? && Matured(After(FRESH, evs[..k]), evs[k].at)
  }

  ghost predicate NoLateFailure(evs: seq<Event>) {
    forall k | 0 <= k < |evs| :: !LateFailure(evs, k)
  }

  lemma {:induction false} LastFailureIsPast(evs: seq<Event>)
    requires Ordered(evs) && evs != []
    ensures After(FRESH, evs).lastFailure <= evs[|evs| - 1].at
  {
    var n := |evs| - 1;
    if n > 0 {
      LastFailureIsPast(evs[..n]);
      assert evs[n - 1].at <= evs[n].at;
    }
  }

  /** While no failure has come late, the timer's state is the lazy state queried now. */
  lemma {:induction false} TimerIsQueried(evs: seq<Event>)
    requires Ordered(evs) && NoLateFailure(evs) && evs != []
    ensures TimerAfter(evs) == Queried(After(FRESH, evs), evs[|evs| - 1].at)
  {
    var n := |evs| - 1;
    assert !LateFailure(evs, n);
    if n > 0 {
      NoLateFailurePrefix(evs);
      TimerIsQueried(evs[..n]);
      LastFailureIsPast(evs[..n]);
      assert evs[n - 1].at <= evs[n].at;
    }
  }

  lemma NoLateFailurePrefix(evs: seq<Event>)
    requires evs != []
    ensures var n := |evs| - 1; NoLateFailure(evs) <==> NoLateFailure(evs[..n]) && !LateFailure(evs, n)
  {
    var n := |evs| - 1;
    forall k | 0 <= k < n
      ensures LateFailure(evs, k) == LateFailure(evs[..n], k)
    {
      assert evs[..n][..k] == evs[..k];
    }
  }

  lemma AgreesWithTimerPrefix(evs: seq<Event>)
    requires evs != []
    ensures var n := |evs| - 1; AgreesWithTimer(evs) <==> AgreesWithTimer(evs[..n]) && AgreesAt(evs, n)
  {
    var n := |evs| - 1;
    forall k | 0 <= k < n
      ensures AgreesAt(evs, k) == AgreesAt(evs[..n], k)
    {
      assert evs[..n][..k + 1] == evs[..k + 1];
    }
  }

  lemma AgreesNowIffNotLate(evs: seq<Event>)
    requires Ordered(evs) && evs != [] && NoLateFailure(evs[..|evs| - 1])
    ensures AgreesAt(evs, |evs| - 1) <==> !LateFailure(evs, |evs| - 1)
  {
    var n := |evs| - 1;
    assert evs[..n + 1] == evs;
    NoLateFailurePrefix(evs);
    if NoLateFailure(evs) {
      TimerIsQueried(evs);
    } else {
      assert After(FRESH, evs[..n]).open;
      assert n > 0;
      TimerIsQueried(evs[..n]);
      LastFailureIsPast(evs[..n]);
      assert evs[n - 1].at <= evs[n].at;
    }
  }

  /**
   The lazy reset behaves as a 30 second timer on exactly those runs in which no failure
   is recorded between maturity and the next query.
   */
  lemma {:induction false} LazyResetIsTimerIff(evs: seq<Event>)
    requires Ordered(evs)
    ensures AgreesWithTimer(evs) <==> NoLateFailure(evs)
  {
    if evs != [] {
      LazyResetIsTimerIff(evs[..|evs| - 1]);
      AgreesWithTimerPrefix(evs);
      NoLateFailurePrefix(evs);
      if NoLateFailure(evs[..|evs| - 1]) {
        AgreesNowIffNotLate(evs);
      }
    }
  }

  // ---------------------------------------------------------------------------------
  // What a reset amounts to
  // ---------------------------------------------------------------------------------

  function Failures(c: Circuit, times: seq<Word>): Circuit {
    if times == [] then c else Failed(Failures(c, times[..|times| - 1]), times[|times| - 1])
  }

  /**
   The comment says that a matured circuit lets one probe through; in fact the reset
   forgets everything, and it takes exactly five more failures to open the circuit again.
   */
  lemma {:induction false} ResetForgetsEverything(c: Circuit, now: Word, times: seq<Word>)
    requires Matured(c, now) && |times| < WORD
    ensures var after := Failures(Queried(c, now), times);
            after.failures == |times| && (after.open <==> |times| >= 5)
  {
    if times != [] {
      ResetForgetsEverything(c, now, times[..|times| - 1]);
    }
  }

  /** Position `k` is not a query that the circuit answers with "healthy". */
  ghost predicate RefusedAt(c: Circuit, evs: seq<Event>, k: nat)
    requires k < |evs|
  {
    evs[k].Query? ==> !Healthy(After(c, evs[..k]), evs[k].at)
  }

  /** Position `k` is not a query thirty seconds or more after the latest failure. */
  ghost predicate SoonAt(last: Word, evs: seq<Event>, k: nat)
    requires k < |evs|
  {
    evs[k].Query? ==> WrapSub(evs[k].at, LatestSince(last, evs[..k])) < 30
  }

  ghost predicate AllRefused(c: Circuit, evs: seq<Event>) {
    forall k | 0 <= k < |evs| :: RefusedAt(c, evs, k)
  }

  ghost predicate AllSoon(last: Word, evs: seq<Event>) {
    forall k | 0 <= k < |evs| :: SoonAt(last, evs, k)
  }

  lemma RefusedAndSoonPrefix(c: Circuit, evs: seq<Event>)
    requires evs != []
    ensures var n := |evs| - 1;
            && (AllRefused(c, evs) <==> AllRefused(c, evs[..n]) && RefusedAt(c, evs, n))
            && (AllSoon(c.lastFailure, evs) <==> AllSoon(c.lastFailure, evs[..n]) && SoonAt(c.lastFailure, evs, n))
  {
    var n := |evs| - 1;
    forall k | 0 <= k < n
      ensures RefusedAt(c, evs[..n], k) == RefusedAt(c, evs, k)
      ensures SoonAt(c.lastFailure, evs[..n], k) == SoonAt(c.lastFailure, evs, k)
    {
      assert evs[..n][..k] == evs[..k];
    }
  }

  /**
   From an open circuit, in a run without successes, every query is refused if and only if
   each comes less than 30 s after the failure recorded before it.
   */
  lemma {:induction false} RefusedIffQueriedSoon(c: Circuit, evs: seq<Event>)
    requires c.open && forall e | e in evs :: !e.Success?
    ensures AllRefused(c, evs) <==> AllSoon(c.lastFailure, evs)
    ensures AllRefused(c, evs) ==>
              After(c, evs).open && After(c, evs).lastFailure == LatestSince(c.lastFailure, evs)
  {
    if evs != [] {
      var n := |evs| - 1;
      RefusedIffQueriedSoon(c, evs[..n]);
      RefusedAndSoonPrefix(c, evs);
      assert evs[n] in evs;
    }
  }
}
