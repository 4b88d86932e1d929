/**
 When the health checker records its failures (src/health_check.rs, start_health_checks)
 and what this means for the breaker. Times are in nanoseconds; one round checks the
 backends one after the other, each check ends within `timeout`, and the ticker skips
 missed ticks.
 */
module HealthSchedule {
  import opened Prelude
  import opened CircuitBreaker
  import opened LoadBalancer
  import opened PoolRuns
  import Modular

  /** The ticker still counts a tick that is 5 ms late as on time. */
  const TOLERANCE: nat := 5_000_000

  /** The configured times, in nanoseconds unless said otherwise, and the number of backends. */
  datatype Timing = Timing(interval: nat, timeout: nat, n: nat) {
    /** The longest that `k` checks in a row can take. */
    function Checks(k: nat): (time: nat)
      ensures k == 0 ==> time == 0
    {
      k * timeout
    }

    lemma OneMoreCheck(k: nat)
      ensures Checks(k + 1) == Checks(k) + timeout
    {}
  }

  /** A round was due, fired, and finished checking backend `i` at `done[i]`. */
  datatype Round = Round(due: nat, fired: nat, done: seq<nat>)

  /** The deadline after one that was due at `due` and fired at `fired`; late ticks are skipped, keeping the phase. */
  function NextDue(t: Timing, due: nat, fired: nat): nat
    requires t.interval > 0 && due <= fired
  {
    if fired > due + TOLERANCE then fired + t.interval - (fired - due) % t.interval
    else due + t.interval
  }

  /** However late a tick fires, the next deadline keeps the phase and is at most one interval away. */
  lemma NextDueKeepsPhase(t: Timing, due: nat, fired: nat)
    requires t.interval > 0 && due <= fired
    ensures due + t.interval <= NextDue(t, due, fired) <= fired + t.interval
    ensures (NextDue(t, due, fired) - due) % t.interval == 0
    ensures fired > due + 5_000_000 ==> fired < NextDue(t, due, fired)
    ensures fired <= due + 5_000_000 ==> NextDue(t, due, fired) == due + t.interval
    ensures t.interval >= 1_000_000_000 ==> fired < NextDue(t, due, fired)
  {
    var late, p := fired - due, t.interval;
    Modular.Quotient(late, p);
    assert (late / p + 1) * p == (late / p) * p + p;
    Modular.Unique(late + p - late % p, p, late / p + 1, 0);
    Modular.Unique(p, p, 1, 0);
  }

  ghost predicate RoundOk(t: Timing, r: Round) {
    && r.due <= r.fired && |r.done| == t.n > 0
    && r.fired <= r.done[0] <= r.fired + t.timeout
    && forall i | 0 < i < t.n :: r.done[i - 1] <= r.done[i] <= r.done[i - 1] + t.timeout
  }

  function Max(a: nat, b: nat): nat {
    if a >= b then a else b
  }

  /** Round `r'` follows `r`: it fires when it is due, or as soon as `r` is through if that is later. */
  ghost predicate Follows(t: Timing, r: Round, r': Round)
    requires t.interval > 0 && RoundOk(t, r)
  {
    && r'.due == NextDue(t, r.due, r.fired)
    && r'.fired == Max(r'.due, r.done[t.n - 1])
  }

  ghost predicate Schedule(t: Timing, rounds: seq<Round>) {
    && t.interval > 0
    && (forall k | 0 <= k < |rounds| :: RoundOk(t, rounds[k]))
    && forall k | 0 < k < |rounds| :: Follows(t, rounds[k - 1], rounds[k])
  }

  lemma {:induction false} CheckEndsInTime(t: Timing, r: Round, i: nat)
    requires RoundOk(t, r) && i < t.n
    ensures r.fired <= r.done[i] <= r.fired + t.Checks(i + 1)
  {
    t.OneMoreCheck(i);
    if i > 0 {
      CheckEndsInTime(t, r, i - 1);
    }
  }

  lemma {:induction false} LaterChecksEndInTime(t: Timing, r: Round, i: nat, j: nat)
    requires RoundOk(t, r) && i <= j < t.n
    ensures r.done[i] <= r.done[j] <= r.done[i] + t.Checks(j - i)
  {
    if i < j {
      LaterChecksEndInTime(t, r, i, j - 1);
      t.OneMoreCheck(j - 1 - i);
    }
  }

  /**
   The longest time between two consecutive results for backend `i`. The next round starts
   an interval after this one or, if that is later, when the backends after `i` have been
   checked; then come the backends up to `i`.
   */
  function WorstGap(t: Timing, i: nat): nat
    requires i < t.n
  {
    Max(t.interval, t.Checks(t.n - 1 - i)) + t.Checks(i + 1)
  }

  lemma ConsecutiveChecks(t: Timing, r: Round, r': Round, i: nat)
    requires t.interval > 0 && RoundOk(t, r) && RoundOk(t, r') && Follows(t, r, r') && i < t.n
    ensures r.done[i] <= r'.done[i] <= r.done[i] + WorstGap(t, i)
  {
    NextDueKeepsPhase(t, r.due, r.fired);
    CheckEndsInTime(t, r, i);
    LaterChecksEndInTime(t, r, i, t.n - 1);
    CheckEndsInTime(t, r', i);
  }

  /** When check `j` ends if those up to the `i`-th take no time and all later ones the whole timeout. */
  function DoneAfter(t: Timing, i: nat, j: nat): nat {
    t.Checks(if j <= i then 0 else j - i)
  }

  /** A round fired at `at` in which every check after the `i`-th takes the whole timeout, and the others no time. */
  lemma SlowAfter(t: Timing, i: nat, at: nat) returns (r: Round)
    requires i < t.n
    ensures r.due == r.fired == at && RoundOk(t, r)
    ensures r.done[i] == at && r.done[t.n - 1] == at + t.Checks(t.n - 1 - i)
  {
    r := Round(at, at, seq(t.n, (j: nat) => at + DoneAfter(t, i, j)));
    forall j | 0 < j < t.n
      ensures DoneAfter(t, i, j - 1) <= DoneAfter(t, i, j) <= DoneAfter(t, i, j - 1) + t.timeout
    {
      if j > i {
        t.OneMoreCheck(j - 1 - i);
      }
    }
  }

  /** A round in which every check takes the whole timeout. */
  lemma SlowRound(t: Timing, due: nat, fired: nat) returns (r: Round)
    requires t.n > 0 && due <= fired
    ensures r.due == due && r.fired == fired && RoundOk(t, r)
    ensures forall i | 0 <= i < t.n :: r.done[i] == fired + t.Checks(i + 1)
  {
    r := Round(due, fired, seq(t.n, (j: nat) => fired + t.Checks(j + 1)));
    forall i | 0 <= i < t.n
      ensures r.done[i] == (if i == 0 then fired else r.done[i - 1]) + t.timeout
    {
      t.OneMoreCheck(i);
    }
  }

  /** The bound is exact: under every configuration, and from any time on, some schedule reaches it. */
  lemma WorstGapIsReached(t: Timing, i: nat, at: nat) returns (r: Round, r': Round)
    requires t.interval > 0 && i < t.n
    ensures Schedule(t, [r, r']) && r.due == r.fired == at
    ensures |r.done| == |r'.done| == t.n && r.done[i] == at && r'.done[i] == at + WorstGap(t, i)
  {
    r := SlowAfter(t, i, at);
    r' := SlowRound(t, at + t.interval, Max(at + t.interval, r.done[t.n - 1]));
    assert Follows(t, r, r');
  }

  // ---------------------------------------------------------------------------------
  // From the schedule to the breaker
  // ---------------------------------------------------------------------------------

  /** The Unix second at which round `r` records its result for backend `i`. */
  function Stamp(r: Round, i: nat): nat
    requires i < |r.done|
  {
    r.done[i] / SECOND
  }

  lemma StampGap(a: nat, b: nat, secs: nat)
    requires a <= b <= a + secs * SECOND
    ensures a / SECOND <= b / SECOND <= a / SECOND + secs
  {}

  /** The configuration gives interval and timeout in whole seconds. */
  function InSeconds(interval: nat, timeout: nat, n: nat): Timing {
    Timing(interval * SECOND, timeout * SECOND, n)
  }

  lemma WorstGapInSeconds(interval: nat, timeout: nat, n: nat, i: nat)
    requires i < n
    ensures WorstGap(InSeconds(interval, timeout, n), i) == WorstGap(Timing(interval, timeout, n), i) * SECOND
  {
    assert (n - 1 - i) * (timeout * SECOND) == (n - 1 - i) * timeout * SECOND;
    assert (i + 1) * (timeout * SECOND) == (i + 1) * timeout * SECOND;
  }

  /** Times of the failures recorded for backend `k`, in order. */
  function FailureTimes(cfg: Config, k: nat, evs: seq<PoolEvent>): seq<Word> {
    if evs == [] then []
    else
      var rest := FailureTimes(cfg, k, evs[1..]);
      if evs[0].Report? && !evs[0].ok && Addressee(cfg.urls, evs[0].url) == Some(k) then [evs[0].at] + rest else rest
  }

  /** Events happen at `times`, in order, up to `end`; a selection reads the clock at its own time only. */
  ghost predicate Timed(evs: seq<PoolEvent>, times: seq<Word>, end: Word) {
    && |times| == |evs|
    && (forall i | 0 <= i < |evs| :: times[i] <= end)
    && (forall i, j | 0 <= i <= j < |evs| :: times[i] <= times[j])
    && forall i | 0 <= i < |evs| ::
         match evs[i]
         case Choose(_, clock) => forall c | 0 <= c < |clock| :: clock[c] == times[i]
         case Report(_, _, at) => at == times[i]
         case DropGuard(_) => true
  }

  /** Each of `last`, the failures and `end` comes less than 30 s after the one before. */
  ghost predicate Dense(last: Word, failures: seq<Word>, end: Word)
    decreases failures
  {
    if failures == [] then end < last + CB_RESET_SECS
    else failures[0] < last + CB_RESET_SECS && Dense(failures[0], failures[1..], end)
  }

  ghost predicate NoSuccess(cfg: Config, k: nat, evs: seq<PoolEvent>) {
    forall i | 0 <= i < |evs| && evs[i].Report? && evs[i].ok :: Addressee(cfg.urls, evs[i].url) != Some(k)
  }

  lemma {:induction false} DenseFailuresKeepDown(cfg: Config, k: nat, last: Word,
                                                    evs: seq<PoolEvent>, times: seq<Word>, end: Word)
    requires Proper(cfg, evs) && Timed(evs, times, end) && NoSuccess(cfg, k, evs)
    requires Dense(last, FailureTimes(cfg, k, evs), end) && forall i | 0 <= i < |times| :: last <= times[i]
    ensures KeptDown(cfg, k, last, evs)
    decreases evs
  {
    if evs != [] {
      var e, rest := evs[0], evs[1..];
      forall i | 0 <= i < |rest|
        ensures rest[i] == evs[i + 1] && times[1..][i] == times[i + 1]
      {}
      assert Timed(rest, times[1..], end);
      NextFailureIsLater(cfg, k, evs, times, end);
      if e.Report? && Addressee(cfg.urls, e.url) == Some(k) {
        assert !e.ok && FailureTimes(cfg, k, evs) == [e.at] + FailureTimes(cfg, k, rest);
        DenseFailuresKeepDown(cfg, k, e.at, rest, times[1..], end);
      } else {
        DenseFailuresKeepDown(cfg, k, last, rest, times[1..], end);
      }
    }
  }

  lemma {:induction false} NextFailureIsLater(cfg: Config, k: nat, evs: seq<PoolEvent>, times: seq<Word>, end: Word)
    requires evs != [] && Timed(evs, times, end)
    ensures FailureTimes(cfg, k, evs) != [] ==> times[0] <= FailureTimes(cfg, k, evs)[0]
  {
    if |evs| > 1 && !(evs[0].Report? && !evs[0].ok && Addressee(cfg.urls, evs[0].url) == Some(k)) {
      var rest := evs[1..];
      forall i | 0 <= i < |rest|
        ensures rest[i] == evs[i + 1] && times[1..][i] == times[i + 1]
      {}
      NextFailureIsLater(cfg, k, rest, times[1..], end);
    }
  }

  /** The failures recorded for backend `i` in rounds `1..` of a schedule. */
  ghost predicate Recorded(cfg: Config, i: nat, evs: seq<PoolEvent>, rounds: seq<Round>)
    requires forall k | 0 <= k < |rounds| :: i < |rounds[k].done|
  {
    var failures := FailureTimes(cfg, i, evs);
    |rounds| == |failures| + 1 && forall k | 0 <= k < |failures| :: failures[k] == Stamp(rounds[k + 1], i)
  }

  lemma {:induction false} ScheduleIsDense(t: Timing, rounds: seq<Round>, i: nat, failures: seq<Word>, end: Word)
    requires Schedule(t, rounds) && i < t.n && |rounds| == |failures| + 1
    requires forall k | 0 <= k < |failures| :: failures[k] == Stamp(rounds[k + 1], i)
    requires Stamp(rounds[0], i) < WORD && WorstGap(t, i) <= (CB_RESET_SECS - 1) * SECOND
    requires end < Stamp(rounds[|failures|], i) + CB_RESET_SECS
    ensures Dense(Stamp(rounds[0], i), failures, end)
  {
    if failures != [] {
      assert RoundOk(t, rounds[0]) && RoundOk(t, rounds[1]) && Follows(t, rounds[0], rounds[1]);
      ConsecutiveChecks(t, rounds[0], rounds[1], i);
      StampGap(rounds[0].done[i], rounds[1].done[i], CB_RESET_SECS - 1);
      assert rounds[1..][0] == rounds[1] && failures[0] == Stamp(rounds[1], i);
      forall k | 0 < k < |rounds[1..]|
        ensures Follows(t, rounds[1..][k - 1], rounds[1..][k])
      {
        assert Follows(t, rounds[k], rounds[k + 1]);
      }
      ScheduleIsDense(t, rounds[1..], i, failures[1..], end);
    }
  }

  /**
   Exclusion derived from the configuration: if the worst gap is at most 29 s, then a
   backend whose circuit is open and whose checks all fail is not returned by any
   selection, under any strategy, for as long as no success is recorded.
   */
  lemma ChecksKeepDeadBackendOut(cfg: Config, s: State, evs: seq<PoolEvent>, times: seq<Word>, end: Word,
                                 t: Timing, rounds: seq<Round>, i: nat)
    requires WellFormed(cfg, s) && Proper(cfg, evs) && Timed(evs, times, end) && i < |cfg.urls| == t.n
    requires Schedule(t, rounds) && rounds != [] && Recorded(cfg, i, evs, rounds)
    requires WorstGap(t, i) <= (CB_RESET_SECS - 1) * SECOND
    requires s.pool.circuits[i].open && s.pool.circuits[i].lastFailure == Stamp(rounds[0], i)
    requires NoSuccess(cfg, i, evs) && forall k | 0 <= k < |times| :: Stamp(rounds[0], i) <= times[k]
    requires end < Stamp(rounds[|rounds| - 1], i) + CB_RESET_SECS
    ensures Some(i) !in Answers(cfg, s, evs)
    ensures Final(cfg, s, evs).pool.circuits[i].open
  {
    var last := s.pool.circuits[i].lastFailure;
    ScheduleIsDense(t, rounds, i, FailureTimes(cfg, i, evs), end);
    DenseFailuresKeepDown(cfg, i, last, evs, times, end);
    FailingBackendIsNeverPicked(cfg, s, evs, i);
  }
}
