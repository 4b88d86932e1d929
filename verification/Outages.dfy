/**
 Exactly which health-check configurations keep a dead backend out of rotation
 (src/health_check.rs, src/load_balancer.rs). All runs start from a new balancer, and every
 failure recorded for the backend is the result of one round of the health checker.
 */
module Outages {
  import opened Prelude
  import opened CircuitBreaker
  import opened LoadBalancer
  import opened PoolRuns
  import opened HealthSchedule
  import Modular

  /**
   A run during which a backend is dead. `before` starts with the balancer and ends when
   `rounds[last]` has found the backend failing and its circuit is open; `during` follows,
   up to `end`.
   */
  datatype Outage = Outage(before: seq<PoolEvent>, beforeTimes: seq<Word>,
                           during: seq<PoolEvent>, times: seq<Word>, end: Word,
                           rounds: seq<Round>, last: nat)

  ghost predicate IncreasingUpTo(ks: seq<nat>, last: nat) {
    && (forall j | 0 <= j < |ks| :: ks[j] <= last)
    && forall j, l | 0 <= j < l < |ks| :: ks[j] < ks[l]
  }

  /** Each failure is the result for backend `i` of a round of its own, up to the `last`-th. */
  ghost predicate FromRounds(failures: seq<Word>, rounds: seq<Round>, last: nat, i: nat)
    requires last < |rounds| && forall k | 0 <= k < |rounds| :: i < |rounds[k].done|
  {
    exists ks: seq<nat> ::
      && |ks| == |failures| && IncreasingUpTo(ks, last)
      && forall j | 0 <= j < |ks| :: failures[j] == Stamp(rounds[ks[j]], i)
  }

  ghost function AtOutage(cfg: Config, o: Outage): (s: State)
    requires |cfg.urls| < WORD / 2 && Proper(cfg, o.before)
    ensures WellFormed(cfg, s)
  {
    Final(cfg, Started(|cfg.urls|), o.before)
  }

  /**
   Backend `i` is dead in `o`: each further round of the health checker records another
   failure for it, nothing records a success, and the run ends before the last of `rounds`
   is through with it.
   */
  ghost predicate DeadRun(cfg: Config, t: Timing, o: Outage, i: nat) {
    && i < |cfg.urls| == t.n < WORD / 2
    && Schedule(t, o.rounds) && o.last + 1 < |o.rounds| && Stamp(o.rounds[o.last], i) < WORD
    && Proper(cfg, o.before) && Timed(o.before, o.beforeTimes, Stamp(o.rounds[o.last], i))
    && FromRounds(FailureTimes(cfg, i, o.before), o.rounds, o.last, i)
    && AtOutage(cfg, o).pool.circuits[i].open
    && AtOutage(cfg, o).pool.circuits[i].lastFailure == Stamp(o.rounds[o.last], i)
    && Proper(cfg, o.during) && Timed(o.during, o.times, o.end)
    && (forall k | 0 <= k < |o.times| :: Stamp(o.rounds[o.last], i) <= o.times[k])
    && Recorded(cfg, i, o.during, o.rounds[o.last..|o.rounds| - 1]) && NoSuccess(cfg, i, o.during)
    && o.end <= Stamp(o.rounds[|o.rounds| - 1], i)
  }

  /** In no run during which backend `i` is dead does a selection return it. */
  ghost predicate AlwaysKeptOut(strategy: Strategy, t: Timing, i: nat) {
    forall urls, o | DeadRun(Config(urls, strategy), t, o, i) ::
      Some(i) !in Answers(Config(urls, strategy), AtOutage(Config(urls, strategy), o), o.during)
  }

  // ---------------------------------------------------------------------------------
  // Kept out if the gap is short
  // ---------------------------------------------------------------------------------

  lemma SchedulePart(t: Timing, rounds: seq<Round>, lo: nat, hi: nat)
    requires Schedule(t, rounds) && lo <= hi <= |rounds|
    ensures Schedule(t, rounds[lo..hi])
  {
    forall k | 0 < k < hi - lo
      ensures Follows(t, rounds[lo..hi][k - 1], rounds[lo..hi][k])
    {
      assert Follows(t, rounds[lo + k - 1], rounds[lo + k]);
    }
  }

  lemma NextResultIsSoon(t: Timing, rounds: seq<Round>, i: nat, k: nat)
    requires Schedule(t, rounds) && i < t.n && k + 1 < |rounds|
    requires WorstGap(t, i) <= (CB_RESET_SECS - 1) * SECOND
    ensures i < |rounds[k].done| && i < |rounds[k + 1].done|
    ensures Stamp(rounds[k + 1], i) < Stamp(rounds[k], i) + CB_RESET_SECS
  {
    assert Follows(t, rounds[k], rounds[k + 1]) && RoundOk(t, rounds[k]) && RoundOk(t, rounds[k + 1]);
    ConsecutiveChecks(t, rounds[k], rounds[k + 1], i);
    StampGap(rounds[k].done[i], rounds[k + 1].done[i], CB_RESET_SECS - 1);
  }

  lemma ShortGapKeepsOut(cfg: Config, t: Timing, o: Outage, i: nat)
    requires DeadRun(cfg, t, o, i) && WorstGap(t, i) <= (CB_RESET_SECS - 1) * SECOND
    ensures Some(i) !in Answers(cfg, AtOutage(cfg, o), o.during)
  {
    hide Timed, FromRounds, NoSuccess, FailureTimes, Recorded, Final, Answers, WorstGap, Schedule, Stamp;
    var n := |o.rounds| - 1;
    NextResultIsSoon(t, o.rounds, i, n - 1);
    SchedulePart(t, o.rounds, o.last, n);
    var part := o.rounds[o.last..n];
    assert part[0] == o.rounds[o.last] && part[|part| - 1] == o.rounds[n - 1];
    ChecksKeepDeadBackendOut(cfg, AtOutage(cfg, o), o.during, o.times, o.end, t, part, i);
  }

  // ---------------------------------------------------------------------------------
  // Kept out if the clock ends before the circuit can mature
  // ---------------------------------------------------------------------------------

  /** A circuit is open only after five failures. */
  lemma {:induction false} OpenNeedsFive(cfg: Config, s: State, evs: seq<PoolEvent>, i: nat, count: nat)
    requires WellFormed(cfg, s) && Proper(cfg, evs) && i < |cfg.urls|
    requires var c := s.pool.circuits[i]; c.failures <= count && (c.open ==> count >= CB_THRESHOLD)
    ensures var total := count + |FailureTimes(cfg, i, evs)|;
            Final(cfg, s, evs).pool.circuits[i].open ==> total >= CB_THRESHOLD
    decreases evs
  {
    if evs != [] {
      var e := evs[0];
      if e.Choose? {
        WhatSelectionChanges(s.pool, cfg.strategy, e.hash, e.clock, i);
      }
      var failed := e.Report? && !e.ok && Addressee(cfg.urls, e.url) == Some(i);
      OpenNeedsFive(cfg, Apply(cfg, s, e).1, evs[1..], i, if failed then count + 1 else count);
    }
  }

  lemma {:induction false} ResultsAreOrdered(t: Timing, rounds: seq<Round>, i: nat, j: nat, k: nat)
    requires Schedule(t, rounds) && i < t.n && j <= k < |rounds|
    ensures rounds[j].done[i] <= rounds[k].done[i]
  {
    if j < k {
      ResultsAreOrdered(t, rounds, i, j, k - 1);
      assert Follows(t, rounds[k - 1], rounds[k]) && RoundOk(t, rounds[k - 1]) && RoundOk(t, rounds[k]);
      ConsecutiveChecks(t, rounds[k - 1], rounds[k], i);
    }
  }

  lemma DueAdvances(t: Timing, rounds: seq<Round>, k: nat)
    requires Schedule(t, rounds) && k + 1 < |rounds|
    ensures rounds[k + 1].due >= rounds[k].due + t.interval
  {
    assert RoundOk(t, rounds[k]) && Follows(t, rounds[k], rounds[k + 1]);
    NextDueKeepsPhase(t, rounds[k].due, rounds[k].fired);
  }

  lemma StampAtLeast(time: nat, secs: nat)
    requires time >= secs * SECOND
    ensures time / SECOND >= secs
  {}

  /** The fifth result of a round comes four intervals after the first round or later. */
  lemma FifthResultIsLate(rounds: seq<Round>, interval: nat, timeout: nat, n: nat, i: nat, k: nat)
    requires Schedule(InSeconds(interval, timeout, n), rounds) && i < n && 4 <= k < |rounds|
    ensures Stamp(rounds[k], i) >= 4 * interval
  {
    var t := InSeconds(interval, timeout, n);
    DueAdvances(t, rounds, 0);
    DueAdvances(t, rounds, 1);
    DueAdvances(t, rounds, 2);
    DueAdvances(t, rounds, 3);
    assert RoundOk(t, rounds[4]);
    CheckEndsInTime(t, rounds[4], i);
    ResultsAreOrdered(t, rounds, i, 4, k);
    StampAtLeast(rounds[k].done[i], 4 * interval);
  }

  lemma OpenIsLate(cfg: Config, interval: nat, timeout: nat, n: nat, o: Outage, i: nat)
    requires DeadRun(cfg, InSeconds(interval, timeout, n), o, i)
    ensures Stamp(o.rounds[o.last], i) >= 4 * interval
  {
    OpenNeedsFive(cfg, Started(n), o.before, i, 0);
    var failures := FailureTimes(cfg, i, o.before);
    var ks: seq<nat> :| |ks| == |failures| && IncreasingUpTo(ks, o.last);
    assert ks[0] < ks[1] < ks[2] < ks[3] < ks[4];
    FifthResultIsLate(o.rounds, interval, timeout, n, i, o.last);
  }

  /** Near the end of the clock everything comes less than 30 s apart. */
  lemma {:induction false} LateIsDense(last: Word, failures: seq<Word>, end: Word)
    requires last + CB_RESET_SECS >= WORD
    requires forall k | 0 <= k < |failures| :: failures[k] + CB_RESET_SECS >= WORD
    ensures Dense(last, failures, end)
    decreases failures
  {
    if failures != [] {
      LateIsDense(failures[0], failures[1..], end);
    }
  }

  lemma LateResult(t: Timing, rounds: seq<Round>, i: nat, j: nat, k: nat, secs: nat)
    requires Schedule(t, rounds) && i < t.n && j <= k < |rounds|
    requires i < |rounds[j].done| && Stamp(rounds[j], i) >= secs
    ensures i < |rounds[k].done| && Stamp(rounds[k], i) >= secs
  {
    ResultsAreOrdered(t, rounds, i, j, k);
  }

  lemma LateFailures(cfg: Config, t: Timing, o: Outage, i: nat, k: nat, secs: nat)
    requires DeadRun(cfg, t, o, i) && k < |FailureTimes(cfg, i, o.during)|
    requires Stamp(o.rounds[o.last], i) >= secs
    ensures FailureTimes(cfg, i, o.during)[k] >= secs
  {
    hide Timed, FromRounds, Final, NoSuccess, FailureTimes;
    assert FailureTimes(cfg, i, o.during)[k] == Stamp(o.rounds[o.last..|o.rounds| - 1][k + 1], i);
    LateResult(t, o.rounds, i, o.last, o.last + k + 1, secs);
  }

  lemma LateClockKeepsOut(cfg: Config, interval: nat, timeout: nat, n: nat, o: Outage, i: nat)
    requires DeadRun(cfg, InSeconds(interval, timeout, n), o, i) && 4 * interval + CB_RESET_SECS >= WORD
    ensures Some(i) !in Answers(cfg, AtOutage(cfg, o), o.during)
  {
    OpenIsLate(cfg, interval, timeout, n, o, i);
    forall k | 0 <= k < |FailureTimes(cfg, i, o.during)|
      ensures FailureTimes(cfg, i, o.during)[k] >= 4 * interval
    {
      LateFailures(cfg, InSeconds(interval, timeout, n), o, i, k, 4 * interval);
    }
    hide Schedule, Recorded, FromRounds, Final, Answers;
    LateIsDense(Stamp(o.rounds[o.last], i), FailureTimes(cfg, i, o.during), o.end);
    DenseFailuresKeepDown(cfg, i, Stamp(o.rounds[o.last], i), o.during, o.times, o.end);
    FailingBackendIsNeverPicked(cfg, AtOutage(cfg, o), o.during, i);
  }

  // ---------------------------------------------------------------------------------
  // Otherwise readmitted
  // ---------------------------------------------------------------------------------

  /** A new pool after `k` selections, one from each of the first `k` backends: backend `k` is next in line. */
  function Lined(strategy: Strategy, n: nat, k: nat): (p: Pool)
    requires k < n < WORD / 2
    ensures p.Valid() && |p.circuits| == n
  {
    Pool(seq(n, _ => FRESH), seq(n, j => if j < k then 1 else 0), if strategy.RoundRobin? then k else 0)
  }

  /** While backend `k` is healthy, the next selection returns it, under each strategy. */
  lemma NextInLine(p: Pool, strategy: Strategy, n: nat, k: nat, c: Circuit, now: Word)
    requires k < n < WORD / 2 && Healthy(c, now)
    requires var line := Lined(strategy, n, k); p == line.(circuits := line.circuits[k := c])
    ensures Selected(p, strategy, k, seq(n, _ => now)).0 == Some(k)
  {
    var clock: seq<Word> := seq(n, _ => now);
    assert Healthy(p.circuits[k], clock[k]) && Healthy(p.circuits[k], clock[0]);
    match strategy
    case LeastConnections =>
    case RoundRobin =>
      Modular.Small(k, n);
      assert CursorSlots(n, k)[0] == k;
    case IpHash =>
      Modular.Small(k, n);
      assert HashSlots(n, k)[0] == k;
  }

  lemma LineMoves(strategy: Strategy, n: nat, k: nat)
    requires k + 1 < n < WORD / 2
    ensures Selected(Lined(strategy, n, k), strategy, k, seq(n, _ => 0)).1 == Lined(strategy, n, k + 1)
  {
    var p, clock: seq<Word> := Lined(strategy, n, k), seq(n, _ => 0);
    assert p == p.(circuits := p.circuits[k := FRESH]);
    NextInLine(p, strategy, n, k, FRESH, 0);
    var q := Selected(p, strategy, k, clock).1;
    assert q.circuits == p.circuits;
    assert q.active == Lined(strategy, n, k + 1).active;
    if strategy.RoundRobin? {
      Modular.Small(k, n);
      assert CursorSlots(n, k)[0] == k;
    }
  }

  /** The run `evs` of a new balancer, up to second `end`, leaves `pool` and has recorded `failures` for backend `i`. */
  ghost predicate Leaves(cfg: Config, evs: seq<PoolEvent>, times: seq<Word>, end: Word,
                         i: nat, failures: seq<Word>, pool: Pool)
    requires |cfg.urls| < WORD / 2
  {
    && Proper(cfg, evs) && Timed(evs, times, end) && FailureTimes(cfg, i, evs) == failures
    && Final(cfg, Started(|cfg.urls|), evs).pool == pool
  }

  lemma TimedAppend(evs: seq<PoolEvent>, times: seq<Word>, end: Word, e: PoolEvent, at: Word)
    requires Timed(evs, times, end) && end <= at
    requires match e
             case Choose(_, clock) => forall c | 0 <= c < |clock| :: clock[c] == at
             case Report(_, _, when) => when == at
             case DropGuard(_) => true
    ensures Timed(evs + [e], times + [at], at)
  {
    forall k | 0 <= k <= |evs|
      ensures (evs + [e])[k] == (if k < |evs| then evs[k] else e) && (times + [at])[k] <= at
    {}
  }

  lemma {:induction false} FailureTimesAppend(cfg: Config, i: nat, evs: seq<PoolEvent>, e: PoolEvent)
    ensures FailureTimes(cfg, i, evs + [e])
         == FailureTimes(cfg, i, evs)
            + if e.Report? && !e.ok && Addressee(cfg.urls, e.url) == Some(i) then [e.at] else []
  {
    if evs == [] {
      assert [] + [e] == [e] && [e][1..] == [];
    } else {
      assert (evs + [e])[1..] == evs[1..] + [e];
      FailureTimesAppend(cfg, i, evs[1..], e);
    }
  }

  /** One event more. */
  lemma LeavesNext(cfg: Config, evs: seq<PoolEvent>, times: seq<Word>, end: Word, i: nat, failures: seq<Word>,
                   pool: Pool, e: PoolEvent, at: Word)
    requires |cfg.urls| < WORD / 2 && Leaves(cfg, evs, times, end, i, failures, pool) && end <= at && !e.DropGuard?
    requires match e
             case Choose(_, clock) => clock == seq(|cfg.urls|, _ => at)
             case Report(_, _, when) => when == at
             case DropGuard(_) => true
    ensures WellFormed(cfg, State(pool, multiset{}))
    ensures Leaves(cfg, evs + [e], times + [at], at, i,
                   failures + (if e.Report? && !e.ok && Addressee(cfg.urls, e.url) == Some(i) then [at] else []),
                   Apply(cfg, State(pool, multiset{}), e).1.pool)
  {
    TimedAppend(evs, times, end, e, at);
    FailureTimesAppend(cfg, i, evs, e);
    FinalAppend(cfg, Started(|cfg.urls|), evs, e);
    hide Selected, Timed, FailureTimes, Final;
  }

  lemma NewLine(cfg: Config, i: nat)
    requires 0 < |cfg.urls| < WORD / 2
    ensures Leaves(cfg, [], [], 0, i, [], Lined(cfg.strategy, |cfg.urls|, 0))
  {
    assert Lined(cfg.strategy, |cfg.urls|, 0) == FreshPool(|cfg.urls|);
  }

  lemma LineUpNext(cfg: Config, i: nat, k: nat, evs: seq<PoolEvent>, times: seq<Word>)
    returns (evs': seq<PoolEvent>, times': seq<Word>)
    requires k + 1 < |cfg.urls| < WORD / 2
    requires Leaves(cfg, evs, times, 0, i, [], Lined(cfg.strategy, |cfg.urls|, k))
    ensures Leaves(cfg, evs', times', 0, i, [], Lined(cfg.strategy, |cfg.urls|, k + 1))
  {
    hide Leaves, Selected, Lined;
    var e, p := Choose(k, seq(|cfg.urls|, _ => 0)), Lined(cfg.strategy, |cfg.urls|, k);
    LineMoves(cfg.strategy, |cfg.urls|, k);
    LeavesNext(cfg, evs, times, 0, i, [], p, e, 0);
    var none: seq<Word> := [];
    assert none + [] == none;
    evs', times' := evs + [e], times + [0];
  }

  /** Selections bring backend `k` next in line before anything else happens. */
  lemma {:induction false} LineUp(cfg: Config, i: nat, k: nat) returns (evs: seq<PoolEvent>, times: seq<Word>)
    requires k < |cfg.urls| < WORD / 2
    ensures Leaves(cfg, evs, times, 0, i, [], Lined(cfg.strategy, |cfg.urls|, k))
    decreases k
  {
    hide Leaves, Lined;
    if k == 0 {
      evs, times := [], [];
      NewLine(cfg, i);
    } else {
      evs, times := LineUp(cfg, i, k - 1);
      evs, times := LineUpNext(cfg, i, k - 1, evs, times);
    }
  }

  /** The pool of `Lined` when backend `i` has failed `count` times, last at `last`. */
  function Broken(strategy: Strategy, n: nat, i: nat, count: nat, last: Word): Pool
    requires i < n < WORD / 2 && count < WORD
  {
    var p := Lined(strategy, n, i);
    p.(circuits := p.circuits[i := Circuit(count, last, count >= CB_THRESHOLD)])
  }

  lemma FailNext(cfg: Config, evs: seq<PoolEvent>, times: seq<Word>, i: nat, failures: seq<Word>, last: Word, at: Word)
    returns (evs': seq<PoolEvent>, times': seq<Word>)
    requires i < |cfg.urls| < WORD / 2 && Addressee(cfg.urls, cfg.urls[i]) == Some(i) && |failures| < CB_THRESHOLD
    requires Leaves(cfg, evs, times, last, i, failures, Broken(cfg.strategy, |cfg.urls|, i, |failures|, last))
    requires last <= at
    ensures Leaves(cfg, evs', times', at, i, failures + [at], Broken(cfg.strategy, |cfg.urls|, i, |failures| + 1, at))
  {
    var e, n := Report(cfg.urls[i], false, at), |cfg.urls|;
    var p := Broken(cfg.strategy, n, i, |failures|, last);
    LeavesNext(cfg, evs, times, last, i, failures, p, e, at);
    assert Apply(cfg, State(p, multiset{}), e).1.pool == Broken(cfg.strategy, n, i, |failures| + 1, at);
    evs', times' := evs + [e], times + [at];
  }

  /** Five failures of backend `i`, an interval apart. */
  lemma FailFiveTimes(cfg: Config, i: nat, interval: nat) returns (evs: seq<PoolEvent>, times: seq<Word>)
    requires i < |cfg.urls| < WORD / 2 && Addressee(cfg.urls, cfg.urls[i]) == Some(i) && 4 * interval < WORD
    ensures Leaves(cfg, evs, times, 4 * interval, i, [0, interval, 2 * interval, 3 * interval, 4 * interval],
                   Broken(cfg.strategy, |cfg.urls|, i, 5, 4 * interval))
  {
    hide Leaves;
    evs, times := LineUp(cfg, i, i);
    var p := Lined(cfg.strategy, |cfg.urls|, i);
    assert p.circuits[i := Circuit(0, 0, false)] == p.circuits;
    evs, times := FailNext(cfg, evs, times, i, [], 0, 0);
    evs, times := FailNext(cfg, evs, times, i, [] + [0], 0, interval);
    evs, times := FailNext(cfg, evs, times, i, [] + [0] + [interval], interval, 2 * interval);
    evs, times := FailNext(cfg, evs, times, i, [] + [0] + [interval] + [2 * interval], 2 * interval, 3 * interval);
    evs, times := FailNext(cfg, evs, times, i, [] + [0] + [interval] + [2 * interval] + [3 * interval],
                           3 * interval, 4 * interval);
    assert [] + [0] + [interval] + [2 * interval] + [3 * interval] + [4 * interval]
        == [0, interval, 2 * interval, 3 * interval, 4 * interval];
  }

  /** A round in which all checks end at once. */
  function QuickRound(t: Timing, at: nat): (r: Round)
    requires t.n > 0
    ensures RoundOk(t, r)
  {
    Round(at, at, seq(t.n, _ => at))
  }

  /** Four quick rounds, then a slow one and another, with the worst gap between the two. */
  lemma SlowFifthRound(t: Timing, i: nat) returns (rounds: seq<Round>)
    requires t.interval > 0 && i < t.n
    ensures Schedule(t, rounds) && |rounds| == 6 && forall k | 0 <= k < 6 :: i < |rounds[k].done|
    ensures rounds[0].done[i] == 0 && rounds[1].done[i] == t.interval && rounds[2].done[i] == 2 * t.interval
    ensures rounds[3].done[i] == 3 * t.interval && rounds[4].done[i] == 4 * t.interval
    ensures rounds[5].done[i] == 4 * t.interval + WorstGap(t, i)
  {
    var p := t.interval;
    var r, r' := WorstGapIsReached(t, i, 4 * p);
    var a, b, c, d := QuickRound(t, 0), QuickRound(t, p), QuickRound(t, 2 * p), QuickRound(t, 3 * p);
    assert RoundOk(t, [r, r'][0]) && RoundOk(t, [r, r'][1]) && Follows(t, [r, r'][0], [r, r'][1]);
    assert Follows(t, a, b) && Follows(t, b, c) && Follows(t, c, d) && Follows(t, d, r);
    rounds := [a, b, c, d, r, r'];
  }

  lemma StampOf(secs: nat)
    ensures secs * SECOND / SECOND == secs
  {}

  lemma FiveResults(rounds: seq<Round>, i: nat, interval: nat)
    requires |rounds| == 6 && forall k | 0 <= k < 6 :: i < |rounds[k].done|
    requires forall k | 0 <= k < 5 :: rounds[k].done[i] == k * interval * SECOND
    requires 4 * interval < WORD
    ensures Stamp(rounds[4], i) == 4 * interval
    ensures FromRounds([0, interval, 2 * interval, 3 * interval, 4 * interval], rounds, 4, i)
  {
    var failures := [0, interval, 2 * interval, 3 * interval, 4 * interval];
    var ks: seq<nat> := [0, 1, 2, 3, 4];
    forall k | 0 <= k < 5
      ensures failures[k] == Stamp(rounds[ks[k]], i)
    {
      StampOf(k * interval);
    }
    assert IncreasingUpTo(ks, 4);
  }

  /** A run of one selection, in which every query reads the clock at `now`. */
  lemma OneSelection(cfg: Config, s: State, hash: nat, now: Word, i: nat)
    requires WellFormed(cfg, s)
    ensures var clock := seq(|cfg.urls|, _ => now);
            var evs := [Choose(hash, clock)];
            && Proper(cfg, evs) && Timed(evs, [now], now)
            && NoSuccess(cfg, i, evs) && FailureTimes(cfg, i, evs) == []
            && Answers(cfg, s, evs) == [Selected(s.pool, cfg.strategy, hash, clock).0]
  {
    hide Selected;
    var evs := [Choose(hash, seq(|cfg.urls|, _ => now))];
    assert evs[1..] == [];
    assert Answers(cfg, s, evs) == [Apply(cfg, s, evs[0]).0] + Answers(cfg, Apply(cfg, s, evs[0]).1, evs[1..]);
  }

  lemma Unshared(n: nat, i: nat) returns (urls: seq<string>)
    requires i < n
    ensures |urls| == n && Addressee(urls, urls[i]) == Some(i)
  {
    urls := seq(n, (k: nat) => seq(k, _ => 'a'));
    assert forall k | 0 <= k < n :: |urls[k]| == k;
  }

  /**
   If the worst gap is 30 s or more: five rounds of checks fail an interval apart, the last
   of them slow, and a selection 30 s after the fifth failure returns the dead backend
   before the sixth is recorded.
   */
  lemma LongGapReadmits(strategy: Strategy, interval: nat, timeout: nat, n: nat, i: nat)
    requires interval > 0 && i < n < WORD / 2 && 4 * interval + CB_RESET_SECS < WORD
    requires WorstGap(InSeconds(interval, timeout, n), i) >= CB_RESET_SECS * SECOND
    ensures !AlwaysKeptOut(strategy, InSeconds(interval, timeout, n), i)
  {
    hide Selected, WorstGap, Timed, NoSuccess, FailureTimes, Answers, FromRounds, Final, Schedule, Lined;
    var t, fifth := InSeconds(interval, timeout, n), 4 * interval;
    var now := fifth + CB_RESET_SECS;
    var urls := Unshared(n, i);
    var cfg := Config(urls, strategy);
    var rounds := SlowFifthRound(t, i);
    FiveResults(rounds, i, interval);
    StampAtLeast(rounds[5].done[i], now);
    var before, beforeTimes := FailFiveTimes(cfg, i, interval);
    var during := [Choose(i, seq(n, _ => now))];
    var o := Outage(before, beforeTimes, during, [now], now, rounds, 4);
    OneSelection(cfg, AtOutage(cfg, o), i, now, i);
    NextInLine(AtOutage(cfg, o).pool, strategy, n, i, Circuit(5, fifth, true), now);
    assert rounds[4..5] == [rounds[4]];
    assert Recorded(cfg, i, during, rounds[4..5]);
    assert DeadRun(cfg, t, o, i);
    assert Answers(cfg, AtOutage(cfg, o), during)[0] == Some(i);
  }

  /**
   A configuration keeps every dead backend out, under any of the strategies, iff its worst
   gap is below 30 s, or its interval is so long that the clock ends before the fifth
   failing check is 30 s old.
   */
  lemma ConfigurationKeepsOutIff(strategy: Strategy, interval: nat, timeout: nat, n: nat, i: nat)
    requires interval > 0 && i < n < WORD / 2
    ensures AlwaysKeptOut(strategy, InSeconds(interval, timeout, n), i)
       <==> WorstGap(Timing(interval, timeout, n), i) < CB_RESET_SECS || 4 * interval + CB_RESET_SECS >= WORD
  {
    var t, gap := InSeconds(interval, timeout, n), WorstGap(Timing(interval, timeout, n), i);
    WorstGapInSeconds(interval, timeout, n, i);
    if gap < CB_RESET_SECS || 4 * interval + CB_RESET_SECS >= WORD {
      forall urls, o | DeadRun(Config(urls, strategy), t, o, i)
        ensures Some(i) !in Answers(Config(urls, strategy), AtOutage(Config(urls, strategy), o), o.during)
      {
        if gap < CB_RESET_SECS {
          ShortGapKeepsOut(Config(urls, strategy), t, o, i);
        } else {
          LateClockKeepsOut(Config(urls, strategy), interval, timeout, n, o, i);
        }
      }
    } else {
      LongGapReadmits(strategy, interval, timeout, n, i);
    }
  }

  /**
   The defaults, an interval of 15 s and a timeout of 5 s, in nanoseconds: of five backends
   the first two are kept out while they are dead, and the third is not.
   */
  lemma DefaultsKeepTwoOfFiveOut(strategy: Strategy)
    ensures AlwaysKeptOut(strategy, Timing(15_000_000_000, 5_000_000_000, 5), 0)
    ensures AlwaysKeptOut(strategy, Timing(15_000_000_000, 5_000_000_000, 5), 1)
    ensures !AlwaysKeptOut(strategy, Timing(15_000_000_000, 5_000_000_000, 5), 2)
  {
    hide AlwaysKeptOut;
    ConfigurationKeepsOutIff(strategy, 15, 5, 5, 0);
    ConfigurationKeepsOutIff(strategy, 15, 5, 5, 1);
    ConfigurationKeepsOutIff(strategy, 15, 5, 5, 2);
    assert InSeconds(15, 5, 5) == Timing(15_000_000_000, 5_000_000_000, 5);
  }
}
