/**
 Whole runs of one balancer under its three kinds of callers: proxies that select and
 later drop their guard, and the health checker's and proxies' feedback by URL
 (src/load_balancer.rs, src/health_check.rs).
 */
module PoolRuns {
  import opened Prelude
  import opened CircuitBreaker
  import opened LoadBalancer

  datatype PoolEvent =
    | Choose(hash: nat, clock: seq<Word>)
    | Report(url: string, ok: bool, at: Word)
    | DropGuard(slot: nat)

  /** The pool together with the guards that are still held, one element per guard. */
  datatype State = State(pool: Pool, guards: multiset<nat>)

  /** The fixed part of a balancer. */
  datatype Config = Config(urls: seq<string>, strategy: Strategy)

  ghost predicate WellFormed(cfg: Config, s: State) {
    s.pool.Valid() && |cfg.urls| == |s.pool.circuits|
  }

  /** A selection reads the clock once per backend. */
  ghost predicate Proper(cfg: Config, evs: seq<PoolEvent>) {
    forall i | 0 <= i < |evs| && evs[i].Choose? :: |evs[i].clock| == |cfg.urls|
  }

  /** One event: the backend it returned, if it is a selection, and the state it leaves. */
  function Apply(cfg: Config, s: State, e: PoolEvent): (r: (Option<nat>, State))
    requires WellFormed(cfg, s) && (e.Choose? ==> |e.clock| == |cfg.urls|)
    ensures WellFormed(cfg, r.1)
  {
    match e
    case Choose(hash, clock) =>
      var (pick, pool) := Selected(s.pool, cfg.strategy, hash, clock);
      (pick, State(pool, if pick.Some? then s.guards + multiset{pick.value} else s.guards))
    case Report(url, ok, at) =>
      (None, s.(pool := Informed(s.pool, Addressee(cfg.urls, url), if ok then Success(at) else Failure(at))))
    case DropGuard(slot) =>
      if slot in s.guards && slot < |s.pool.active| then
        var left := WrapSub(s.pool.active[slot], 1);
        (None, State(s.pool.(active := s.pool.active[slot := left]), s.guards - multiset{slot}))
      else (None, s)
  }

  function Final(cfg: Config, s: State, evs: seq<PoolEvent>): (s': State)
    requires WellFormed(cfg, s) && Proper(cfg, evs)
    ensures WellFormed(cfg, s')
    decreases evs
  {
    if evs == [] then s else Final(cfg, Apply(cfg, s, evs[0]).1, evs[1..])
  }

  /** What each event returned. */
  function Answers(cfg: Config, s: State, evs: seq<PoolEvent>): (picks: seq<Option<nat>>)
    requires WellFormed(cfg, s) && Proper(cfg, evs)
    ensures |picks| == |evs|
    decreases evs
  {
    if evs == [] then []
    else [Apply(cfg, s, evs[0]).0] + Answers(cfg, Apply(cfg, s, evs[0]).1, evs[1..])
  }

  /** A balancer that has just been started. */
  function Started(n: nat): State {
    State(FreshPool(n), multiset{})
  }

  lemma {:induction false} FinalAppend(cfg: Config, s: State, evs: seq<PoolEvent>, e: PoolEvent)
    requires WellFormed(cfg, s) && Proper(cfg, evs) && (e.Choose? ==> |e.clock| == |cfg.urls|)
    ensures Proper(cfg, evs + [e]) && Final(cfg, s, evs + [e]) == Apply(cfg, Final(cfg, s, evs), e).1
    decreases evs
  {
    if evs != [] {
      assert (evs + [e])[1..] == evs[1..] + [e];
      FinalAppend(cfg, Apply(cfg, s, evs[0]).1, evs[1..], e);
    }
  }

  // ---------------------------------------------------------------------------------
  // Active counts are the live guards
  // ---------------------------------------------------------------------------------

  ghost predicate Tally(active: seq<Word>, guards: multiset<nat>) {
    && (forall b | 0 <= b < |active| :: active[b] == guards[b] % WORD)
    && forall b | b in guards :: b < |active|
  }

  ghost predicate CountsGuards(s: State) {
    Tally(s.pool.active, s.guards)
  }

  lemma SelectionAcquires(p: Pool, strategy: Strategy, hash: nat, clock: seq<Word>)
    requires p.Valid() && |clock| == |p.circuits|
    ensures var (pick, q) := Selected(p, strategy, hash, clock);
            && (pick.None? ==> q.active == p.active)
            && (pick.Some? ==> pick.value < |p.active|)
            && (pick.Some? ==> q.active == p.active[pick.value := WrapAdd1(p.active[pick.value])])
  {}

  lemma AcquireTallies(active: seq<Word>, guards: multiset<nat>, b: nat)
    requires Tally(active, guards) && b < |active|
    ensures Tally(active[b := WrapAdd1(active[b])], guards + multiset{b})
  {}

  lemma ReleaseTallies(active: seq<Word>, guards: multiset<nat>, b: nat)
    requires Tally(active, guards) && b in guards
    ensures Tally(active[b := WrapSub(active[b], 1)], guards - multiset{b})
  {}

  lemma ApplyCountsGuards(cfg: Config, s: State, e: PoolEvent)
    requires WellFormed(cfg, s) && (e.Choose? ==> |e.clock| == |cfg.urls|) && CountsGuards(s)
    ensures CountsGuards(Apply(cfg, s, e).1)
  {
    match e
    case Choose(hash, clock) =>
      SelectionAcquires(s.pool, cfg.strategy, hash, clock);
      var pick := Selected(s.pool, cfg.strategy, hash, clock).0;
      if pick.Some? {
        AcquireTallies(s.pool.active, s.guards, pick.value);
      }
    case Report(_, _, _) =>
    case DropGuard(slot) =>
      if slot in s.guards {
        ReleaseTallies(s.pool.active, s.guards, slot);
      }
  }

  /** In every run, each active count is the number of guards held on that backend: no release is lost or doubled. */
  lemma {:induction false} ActiveCountsLiveGuards(cfg: Config, s: State, evs: seq<PoolEvent>)
    requires WellFormed(cfg, s) && Proper(cfg, evs) && CountsGuards(s)
    ensures CountsGuards(Final(cfg, s, evs))
    decreases evs
  {
    if evs != [] {
      ApplyCountsGuards(cfg, s, evs[0]);
      ActiveCountsLiveGuards(cfg, Apply(cfg, s, evs[0]).1, evs[1..]);
    }
  }

  // ---------------------------------------------------------------------------------
  // Sustained exclusion
  // ---------------------------------------------------------------------------------

  /**
   Backend `k`, last failed at `last`, hears no success, and every selection reads the
   clock less than 30 s after the failure recorded before it.
   */
  ghost predicate KeptDown(cfg: Config, k: nat, last: Word, evs: seq<PoolEvent>)
    requires Proper(cfg, evs)
    decreases evs
  {
    if evs == [] then true
    else
      var rest := evs[1..];
      match evs[0]
      case Choose(_, clock) =>
        (forall i | 0 <= i < |clock| :: last <= clock[i] < last + 30) && KeptDown(cfg, k, last, rest)
      case Report(url, ok, at) =>
        if Addressee(cfg.urls, url) == Some(k) then !ok && KeptDown(cfg, k, at, rest)
        else KeptDown(cfg, k, last, rest)
      case DropGuard(_) => KeptDown(cfg, k, last, rest)
  }

  lemma RefusingBackendIsNotSelected(p: Pool, strategy: Strategy, hash: nat, clock: seq<Word>, k: nat)
    requires p.Valid() && |clock| == |p.circuits| && k < |p.circuits|
    requires forall i | 0 <= i < |clock| :: !Healthy(p.circuits[k], clock[i])
    ensures var (pick, q) := Selected(p, strategy, hash, clock);
            pick != Some(k) && q.circuits[k] == p.circuits[k]
  {}

  /**
   An open backend that keeps failing is returned by no selection, whatever the strategy,
   until a success is recorded: not one pick in the whole run, and it is still open after it.
   */
  lemma {:induction false} FailingBackendIsNeverPicked(cfg: Config, s: State, evs: seq<PoolEvent>, k: nat)
    requires WellFormed(cfg, s) && Proper(cfg, evs) && k < |cfg.urls|
    requires s.pool.circuits[k].open && KeptDown(cfg, k, s.pool.circuits[k].lastFailure, evs)
    ensures Some(k) !in Answers(cfg, s, evs)
    ensures Final(cfg, s, evs).pool.circuits[k].open
    decreases evs
  {
    if evs != [] {
      var e := evs[0];
      var (pick, s') := Apply(cfg, s, e);
      if e.Choose? {
        RefusingBackendIsNotSelected(s.pool, cfg.strategy, e.hash, e.clock, k);
      }
      FailingBackendIsNeverPicked(cfg, s', evs[1..], k);
    }
  }

  // ---------------------------------------------------------------------------------
  // Backends that share a URL
  // ---------------------------------------------------------------------------------

  lemma DuplicateIsNotAddressed(urls: seq<string>, url: string, first: nat, k: nat)
    requires first < k < |urls| && urls[first] == urls[k]
    ensures Addressee(urls, url) != Some(k)
  {}

  /**
   Feedback reaches only the first backend with a URL. A later backend with the same URL
   keeps its fresh circuit for ever: whatever the health checks find, it stays in rotation.
   */
  lemma {:induction false} DuplicateUrlNeverHearsFeedback(cfg: Config, s: State, evs: seq<PoolEvent>,
                                                            first: nat, k: nat)
    requires WellFormed(cfg, s) && Proper(cfg, evs)
    requires first < k < |cfg.urls| && cfg.urls[first] == cfg.urls[k]
    requires s.pool.circuits[k] == FRESH
    ensures Final(cfg, s, evs).pool.circuits[k] == FRESH
    decreases evs
  {
    if evs != [] {
      var e := evs[0];
      if e.Report? {
        DuplicateIsNotAddressed(cfg.urls, e.url, first, k);
      }
      DuplicateUrlNeverHearsFeedback(cfg, Apply(cfg, s, e).1, evs[1..], first, k);
    }
  }

  /** Feedback about a backend's own URL reaches that backend iff no earlier backend shares the URL. */
  lemma FeedbackReachesOwnerIff(urls: seq<string>, k: nat)
    requires k < |urls|
    ensures Addressee(urls, urls[k]) == Some(k) <==> urls[k] !in urls[..k]
  {
    var b := Addressee(urls, urls[k]).value;
    if b < k {
      assert urls[..k][b] == urls[k];
    }
  }
}
