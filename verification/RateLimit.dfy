/**
 The per-client token bucket of src/rate_limit.rs.

 Time is in nanoseconds and tokens are counted in billionths, so that a refill of
 `elapsed * rps` is exact. A request's timestamp is read before its bucket is locked, so
 timestamps reach a bucket in any order; `duration_since` then saturates at zero.
 */
module RateLimit {
  import opened Prelude

  /** The cost of one request. */
  const TOKEN: nat := 1_000_000_000

  datatype Limits = Limits(rps: nat, burst: nat) {
    function Cap(): nat { burst * TOKEN }
  }

  datatype Bucket = Bucket(tokens: nat, lastRefill: nat)

  function Elapsed(now: nat, since: nat): nat {
    if now >= since then now - since else 0
  }

  function Refill(lim: Limits, b: Bucket, now: nat): Bucket {
    Bucket(Min(b.tokens + Elapsed(now, b.lastRefill) * lim.rps, lim.Cap()), now)
  }

  /** One request of one client: the decision and the bucket it leaves behind. */
  function Serve(lim: Limits, stored: Option<Bucket>, now: nat): (bool, Option<Bucket>) {
    if lim.rps == 0 then (true, stored)
    else
      var found := match stored case Some(b) => b case None => Bucket(lim.Cap(), now);
      var b := Refill(lim, found, now);
      if b.tokens >= TOKEN then (true, Some(b.(tokens := b.tokens - TOKEN)))
      else (false, Some(b))
  }

  function Lookup(buckets: map<IpAddr, Bucket>, ip: IpAddr): Option<Bucket> {
    if ip in buckets then Some(buckets[ip]) else None
  }

  class RateLimiter {
    const limits: Limits
    var buckets: map<IpAddr, Bucket>

    ghost predicate Valid()
      reads this
    {
      forall ip | ip in buckets :: buckets[ip].tokens <= limits.Cap()
    }

    constructor (rps: nat, burst: nat)
      ensures Valid() && limits == Limits(rps, burst) && buckets == map[]
    {
      limits := Limits(rps, burst);
      buckets := map[];
    }

    /** Decides one request stamped `now`, updating the client's bucket in place. */
    method IsAllowed(ip: IpAddr, now: nat) returns (allowed: bool)
      requires Valid()
      modifies this
      ensures Valid()
      ensures allowed == Serve(limits, Lookup(old(buckets), ip), now).0
      ensures Lookup(buckets, ip) == Serve(limits, Lookup(old(buckets), ip), now).1
      ensures buckets - {ip} == old(buckets) - {ip}
    {
      if limits.rps == 0 {
        return true;
      }
      if ip !in buckets {
        buckets := buckets[ip := Bucket(limits.Cap(), now)];
      }
      var bucket := buckets[ip];
      var elapsed := Elapsed(now, bucket.lastRefill);
      bucket := bucket.(tokens := Min(bucket.tokens + elapsed * limits.rps, limits.Cap()));
      bucket := bucket.(lastRefill := now);
      allowed := bucket.tokens >= TOKEN;
      if allowed {
        bucket := bucket.(tokens := bucket.tokens - TOKEN);
      }
      buckets := buckets[ip := bucket];
    }
  }

  // ---------------------------------------------------------------------------------
  // One client's trace
  // ---------------------------------------------------------------------------------

  /** The client's bucket after the requests stamped `ts`. */
  function BucketAfter(lim: Limits, ts: seq<nat>): Option<Bucket> {
    if ts == [] then None
    else Serve(lim, BucketAfter(lim, ts[..|ts| - 1]), ts[|ts| - 1]).1
  }

  function Decisions(lim: Limits, ts: seq<nat>): (ds: seq<bool>)
    ensures |ds| == |ts|
  {
    if ts == [] then []
    else
      var n := |ts| - 1;
      Decisions(lim, ts[..n]) + [Serve(lim, BucketAfter(lim, ts[..n]), ts[n]).0]
  }

  lemma {:induction false} DecisionAt(lim: Limits, ts: seq<nat>, j: nat)
    requires j < |ts|
    ensures Decisions(lim, ts)[j] == Serve(lim, BucketAfter(lim, ts[..j]), ts[j]).0
    ensures BucketAfter(lim, ts[..j + 1]) == Serve(lim, BucketAfter(lim, ts[..j]), ts[j]).1
  {
    assert ts[..j + 1][..j] == ts[..j];
    var n := |ts| - 1;
    if j < n {
      DecisionAt(lim, ts[..n], j);
      assert ts[..n][..j] == ts[..j];
    }
  }

  lemma DecisionsAppend(lim: Limits, ts: seq<nat>, t: nat)
    ensures Decisions(lim, ts + [t]) == Decisions(lim, ts) + [Serve(lim, BucketAfter(lim, ts), t).0]
    ensures BucketAfter(lim, ts + [t]) == Serve(lim, BucketAfter(lim, ts), t).1
  {}

  /** Billionths of a token that flow in between request `i` and request `j`. */
  function Inflow(lim: Limits, ts: seq<nat>, i: nat, j: nat): nat
    requires i <= j < |ts|
  {
    if i == j then 0
    else Inflow(lim, ts, i, j - 1) + Elapsed(ts[j], ts[j - 1]) * lim.rps
  }

  /** The total by which timestamps step back between request `i` and request `j`. */
  function Backward(ts: seq<nat>, i: nat, j: nat): nat
    requires i <= j < |ts|
  {
    if i == j then 0
    else Backward(ts, i, j - 1) + Elapsed(ts[j - 1], ts[j])
  }

  lemma {:induction false} InflowIsTime(lim: Limits, ts: seq<nat>, i: nat, j: nat)
    requires i <= j < |ts|
    ensures Inflow(lim, ts, i, j) == (ts[j] - ts[i] + Backward(ts, i, j)) * lim.rps
  {
    if i < j {
      InflowIsTime(lim, ts, i, j - 1);
      var before, e := ts[j - 1] - ts[i] + Backward(ts, i, j - 1), Elapsed(ts[j], ts[j - 1]);
      assert ts[j] - ts[i] + Backward(ts, i, j) == before + e;
      assert (before + e) * lim.rps == before * lim.rps + e * lim.rps;
    }
  }

  lemma {:induction false} SortedNeverBackward(ts: seq<nat>, i: nat, j: nat)
    requires i <= j < |ts| && Ordered(ts)
    ensures Backward(ts, i, j) == 0
  {
    if i < j {
      SortedNeverBackward(ts, i, j - 1);
    }
  }

  /**
   The level a bucket would show just before request `j` is decided, had it been charged
   for exactly the requests marked in `taken`, affordable or not.
   */
  function Level(lim: Limits, ts: seq<nat>, taken: seq<bool>, j: nat): int
    requires j < |ts| && j <= |taken|
  {
    if j == 0 then lim.Cap()
    else
      Min(Level(lim, ts, taken, j - 1) - (if taken[j - 1] then TOKEN else 0)
          + Elapsed(ts[j], ts[j - 1]) * lim.rps,
          lim.Cap())
  }

  /** Billionths of a token that a full bucket and `duration` of refill add up to. */
  function Budget(lim: Limits, duration: int): int {
    lim.burst * TOKEN + duration * lim.rps
  }

  /** What the window from `i` to `j` leaves over: a full bucket, plus inflow, less charges. */
  function Slack(lim: Limits, ts: seq<nat>, taken: seq<bool>, i: nat, j: nat): int
    requires i <= j < |ts| && j <= |taken|
  {
    lim.Cap() + Inflow(lim, ts, i, j) - TOKEN * Count(taken, i, j)
  }

  /** The min-plus closed form: the level is the least slack over all windows ending at `j`. */
  lemma {:induction false} LevelIsLeastSlack(lim: Limits, ts: seq<nat>, taken: seq<bool>, j: nat)
    requires j < |ts| && j <= |taken|
    ensures forall i | 0 <= i <= j :: Level(lim, ts, taken, j) <= Slack(lim, ts, taken, i, j)
    ensures exists i | 0 <= i <= j :: Level(lim, ts, taken, j) == Slack(lim, ts, taken, i, j)
  {
    assert Slack(lim, ts, taken, j, j) == lim.Cap();
    if j > 0 {
      LevelIsLeastSlack(lim, ts, taken, j - 1);
      var flow := Elapsed(ts[j], ts[j - 1]) * lim.rps - if taken[j - 1] then TOKEN else 0;
      forall i | 0 <= i < j
        ensures Slack(lim, ts, taken, i, j) == Slack(lim, ts, taken, i, j - 1) + flow
      {}
      if Level(lim, ts, taken, j) < lim.Cap() {
        var i :| 0 <= i <= j - 1 && Level(lim, ts, taken, j - 1) == Slack(lim, ts, taken, i, j - 1);
        assert Level(lim, ts, taken, j) == Slack(lim, ts, taken, i, j);
      }
    }
  }

  /** Serving one request from a stored bucket that gains `gain` by refill: cap, and charge if affordable. */
  lemma ServeStored(lim: Limits, b: Bucket, now: nat, gain: nat)
    requires lim.rps > 0 && gain == Elapsed(now, b.lastRefill) * lim.rps
    ensures var level := Min(b.tokens + gain, lim.Cap());
            && 0 <= level <= lim.Cap()
            && Serve(lim, Some(b), now)
               == (level >= TOKEN, Some(Bucket(if level >= TOKEN then level - TOKEN else level, now)))
  {}

  /** Request `j` is decided by its level, and the stored bucket shows the level it leaves. */
  ghost predicate ShowsLevel(lim: Limits, ts: seq<nat>, j: nat)
    requires j < |ts|
  {
    var d, level := Decisions(lim, ts)[j], Level(lim, ts, Decisions(lim, ts), j);
    && d == (level >= TOKEN)
    && 0 <= level <= lim.Cap()
    && BucketAfter(lim, ts[..j + 1]) == Some(Bucket(if d then level - TOKEN else level, ts[j]))
  }

  lemma FirstShowsLevel(lim: Limits, ts: seq<nat>)
    requires lim.rps > 0 && ts != []
    ensures ShowsLevel(lim, ts, 0)
  {
    DecisionAt(lim, ts, 0);
    assert ts[..0] == [];
  }

  lemma NextShowsLevel(lim: Limits, ts: seq<nat>, j: nat)
    requires lim.rps > 0 && j + 1 < |ts| && ShowsLevel(lim, ts, j)
    ensures ShowsLevel(lim, ts, j + 1)
  {
    hide Serve;
    var b, gain := BucketAfter(lim, ts[..j + 1]).value, Elapsed(ts[j + 1], ts[j]) * lim.rps;
    assert Level(lim, ts, Decisions(lim, ts), j + 1) == Min(b.tokens + gain, lim.Cap());
    ServeStored(lim, b, ts[j + 1], gain);
    DecisionAt(lim, ts, j + 1);
  }

  lemma {:induction false} BucketShowsLevel(lim: Limits, ts: seq<nat>, j: nat)
    requires lim.rps > 0 && j < |ts|
    ensures ShowsLevel(lim, ts, j)
  {
    if j == 0 {
      FirstShowsLevel(lim, ts);
    } else {
      BucketShowsLevel(lim, ts, j - 1);
      NextShowsLevel(lim, ts, j - 1);
    }
  }

  /** One more request at `j` still fits the window that opens with request `i`. */
  ghost predicate WindowFits(lim: Limits, ts: seq<nat>, ds: seq<bool>, i: nat, j: nat)
    requires i <= j < |ts| && j <= |ds|
  {
    TOKEN * (Count(ds, i, j) + 1) <= Budget(lim, ts[j] - ts[i] + Backward(ts, i, j))
  }

  ghost predicate Ordered(ts: seq<nat>) {
    forall a, b | 0 <= a <= b < |ts| :: ts[a] <= ts[b]
  }

  lemma SlackIsBudgetLessCharges(lim: Limits, ts: seq<nat>, taken: seq<bool>, i: nat, j: nat)
    requires i <= j < |ts| && j <= |taken|
    ensures Slack(lim, ts, taken, i, j)
         == Budget(lim, ts[j] - ts[i] + Backward(ts, i, j)) - TOKEN * Count(taken, i, j)
  {
    InflowIsTime(lim, ts, i, j);
  }

  /**
   The closed form of admission, for timestamps in any order: request `j` is admitted
   exactly when every window that it ends still fits burst plus refill, where each backward
   step of the timestamps counts as extra refill time.
   */
  lemma AdmittedIffEveryWindowFits(lim: Limits, ts: seq<nat>, j: nat)
    requires j < |ts|
    ensures var ds := Decisions(lim, ts);
            ds[j] <==> lim.rps == 0 || forall i | 0 <= i <= j :: WindowFits(lim, ts, ds, i, j)
  {
    if lim.rps == 0 {
      DecisionAt(lim, ts, j);
    } else {
      var ds := Decisions(lim, ts);
      BucketShowsLevel(lim, ts, j);
      LevelIsLeastSlack(lim, ts, ds, j);
      forall i | 0 <= i <= j
        ensures WindowFits(lim, ts, ds, i, j) <==> Slack(lim, ts, ds, i, j) >= TOKEN
      {
        SlackIsBudgetLessCharges(lim, ts, ds, i, j);
      }
    }
  }

  /** With timestamps in order, one more request at `j` fits the window from `i` by the rule in plain numbers. */
  lemma FitsByPlainRule(lim: Limits, ts: seq<nat>, ds: seq<bool>, i: nat, j: nat)
    requires i <= j < |ts| && j <= |ds| && Ordered(ts)
    ensures ts[i] <= ts[j]
    ensures WindowFits(lim, ts, ds, i, j)
       <==> 1_000_000_000 * (Count(ds, i, j) + 1) <= 1_000_000_000 * lim.burst + lim.rps * (ts[j] - ts[i])
  {
    SortedNeverBackward(ts, i, j);
    assert lim.rps * (ts[j] - ts[i]) == (ts[j] - ts[i]) * lim.rps;
  }

  /**
   With timestamps in order, admission is the classical rule over every window: the count
   is at most `burst` plus `rps` times the seconds that have passed. Times are nanoseconds.
   */
  lemma AdmittedIffRateConforms(lim: Limits, ts: seq<nat>, j: nat)
    requires j < |ts| && Ordered(ts)
    ensures var ds := Decisions(lim, ts);
            ds[j] <==> lim.rps == 0 || forall i | 0 <= i <= j ::
              1_000_000_000 * (Count(ds, i, j) + 1) <= 1_000_000_000 * lim.burst + lim.rps * (ts[j] - ts[i])
  {
    AdmittedIffEveryWindowFits(lim, ts, j);
    var ds := Decisions(lim, ts);
    hide WindowFits, Decisions, Count, Ordered;
    forall i | 0 <= i <= j
      ensures WindowFits(lim, ts, ds, i, j)
         <==> 1_000_000_000 * (Count(ds, i, j) + 1) <= 1_000_000_000 * lim.burst + lim.rps * (ts[j] - ts[i])
    {
      FitsByPlainRule(lim, ts, ds, i, j);
    }
  }

  lemma NanosecondsCancel(rps: nat, burst: nat, count: nat, secs: int)
    ensures 1_000_000_000 * count <= 1_000_000_000 * burst + rps * (1_000_000_000 * secs)
       <==> count <= burst + rps * secs
  {
    assert rps * (1_000_000_000 * secs) == 1_000_000_000 * (rps * secs);
  }

  /** For stamps that are whole seconds: every window holds at most `burst + rps * seconds`. */
  lemma AdmittedIffSecondsFit(lim: Limits, ts: seq<nat>, secs: seq<nat>, j: nat)
    requires j < |ts| == |secs| && Ordered(ts)
    requires forall i | 0 <= i < |ts| :: ts[i] == 1_000_000_000 * secs[i]
    ensures var ds := Decisions(lim, ts);
            ds[j] <==> lim.rps == 0 || forall i | 0 <= i <= j ::
              Count(ds, i, j) + 1 <= lim.burst + lim.rps * (secs[j] - secs[i])
  {
    AdmittedIffRateConforms(lim, ts, j);
    var ds := Decisions(lim, ts);
    hide Decisions, Count, Ordered;
    forall i | 0 <= i <= j
      ensures 1_000_000_000 * (Count(ds, i, j) + 1) <= 1_000_000_000 * lim.burst + lim.rps * (ts[j] - ts[i])
         <==> Count(ds, i, j) + 1 <= lim.burst + lim.rps * (secs[j] - secs[i])
    {
      assert ts[j] - ts[i] == 1_000_000_000 * (secs[j] - secs[i]);
      NanosecondsCancel(lim.rps, lim.burst, Count(ds, i, j) + 1, secs[j] - secs[i]);
    }
  }

  /** No window admits more than burst plus refill, however the timestamps are ordered. */
  lemma WindowNeverExceeded(lim: Limits, ts: seq<nat>, i: nat, j: nat)
    requires lim.rps > 0 && i <= j < |ts|
    ensures TOKEN * Count(Decisions(lim, ts), i, j + 1)
         <= Budget(lim, ts[j] - ts[i] + Backward(ts, i, j))
  {
    var ds := Decisions(lim, ts);
    BucketShowsLevel(lim, ts, j);
    LevelIsLeastSlack(lim, ts, ds, j);
    assert Level(lim, ts, ds, j) <= Slack(lim, ts, ds, i, j);
    SlackIsBudgetLessCharges(lim, ts, ds, i, j);
  }

  // ---------------------------------------------------------------------------------
  // Greedy optimality
  // ---------------------------------------------------------------------------------

  /** `pick` is a selection of the requests that respects burst plus refill in every window. */
  ghost predicate Conforms(lim: Limits, ts: seq<nat>, pick: seq<bool>) {
    && |pick| == |ts|
    && forall i, j | 0 <= i <= j < |ts| ::
         TOKEN * Count(pick, i, j + 1) <= lim.Cap() + Inflow(lim, ts, i, j)
  }

  lemma ConformingPicksAreAffordable(lim: Limits, ts: seq<nat>, pick: seq<bool>, j: nat)
    requires Conforms(lim, ts, pick) && j < |ts| && pick[j]
    ensures Level(lim, ts, pick, j) >= TOKEN
  {
    LevelIsLeastSlack(lim, ts, pick, j);
    var i :| 0 <= i <= j && Level(lim, ts, pick, j) == Slack(lim, ts, pick, i, j);
    assert Count(pick, i, j + 1) == Count(pick, i, j) + 1;
  }

  /** The limiter's own decisions conform. */
  lemma DecisionsConform(lim: Limits, ts: seq<nat>)
    requires lim.rps > 0
    ensures Conforms(lim, ts, Decisions(lim, ts))
  {
    forall i, j | 0 <= i <= j < |ts|
      ensures TOKEN * Count(Decisions(lim, ts), i, j + 1) <= lim.Cap() + Inflow(lim, ts, i, j)
    {
      WindowNeverExceeded(lim, ts, i, j);
      InflowIsTime(lim, ts, i, j);
    }
  }

  /** The rival leads in tokens only as far as it trails in admitted requests. */
  lemma {:induction false} LeadPaysForLevel(lim: Limits, ts: seq<nat>, pick: seq<bool>, j: nat)
    requires lim.rps > 0 && Conforms(lim, ts, pick) && j < |ts|
    ensures var ds := Decisions(lim, ts);
            var lead := Count(ds, 0, j) - Count(pick, 0, j);
            lead >= 0 && Level(lim, ts, pick, j) - Level(lim, ts, ds, j) <= TOKEN * lead
  {
    if j > 0 {
      LeadPaysForLevel(lim, ts, pick, j - 1);
      BucketShowsLevel(lim, ts, j - 1);
      if pick[j - 1] {
        ConformingPicksAreAffordable(lim, ts, pick, j - 1);
      }
    }
  }

  lemma {:induction false} CountAll(all: seq<bool>, some: seq<bool>, k: nat)
    requires k <= |all| == |some| && forall i | 0 <= i < |all| :: all[i]
    ensures Count(some, 0, k) <= Count(all, 0, k)
  {
    if k > 0 {
      CountAll(all, some, k - 1);
    }
  }

  /** Admitting greedily is optimal: no conforming selection is ever ahead at any prefix. */
  lemma GreedyIsOptimal(lim: Limits, ts: seq<nat>, pick: seq<bool>, k: nat)
    requires Conforms(lim, ts, pick) && k <= |ts|
    ensures Count(pick, 0, k) <= Count(Decisions(lim, ts), 0, k)
  {
    if lim.rps == 0 {
      UnlimitedAdmitsAll(lim, ts);
      CountAll(Decisions(lim, ts), pick, k);
    } else if k > 0 {
      var j := k - 1;
      LeadPaysForLevel(lim, ts, pick, j);
      BucketShowsLevel(lim, ts, j);
      if pick[j] {
        ConformingPicksAreAffordable(lim, ts, pick, j);
      }
    }
  }

  // ---------------------------------------------------------------------------------
  // Denied requests leave no trace
  // ---------------------------------------------------------------------------------

  /** The mask `keep` deletes denied requests only. */
  ghost predicate Spares(ds: seq<bool>, keep: seq<bool>)
    requires |ds| == |keep|
  {
    forall k | 0 <= k < |ds| :: ds[k] ==> keep[k]
  }

  /** `late` is `early` refilled once more; an absent bucket stands for a full one. */
  ghost predicate SameButRefilled(lim: Limits, late: Option<Bucket>, early: Option<Bucket>) {
    match early
    case None => late.None? || late.value.tokens == lim.Cap()
    case Some(b) =>
      && late.Some?
      && b.lastRefill <= late.value.lastRefill
      && late.value == Refill(lim, b, late.value.lastRefill)
  }

  lemma RefillsCompose(lim: Limits, b: Bucket, mid: nat, now: nat)
    requires b.lastRefill <= mid <= now
    ensures Refill(lim, Refill(lim, b, mid), now) == Refill(lim, b, now)
  {
    assert (now - b.lastRefill) * lim.rps
        == (mid - b.lastRefill) * lim.rps + (now - mid) * lim.rps;
  }

  lemma SameButRefilledDecidesAlike(lim: Limits, late: Option<Bucket>, early: Option<Bucket>, now: nat)
    requires lim.rps > 0 && SameButRefilled(lim, late, early)
    requires late.Some? ==> late.value.lastRefill <= now
    requires early.Some? ==> early.value.tokens <= lim.Cap()
    ensures Serve(lim, late, now) == Serve(lim, early, now)
    ensures !Serve(lim, late, now).0 ==> SameButRefilled(lim, Serve(lim, late, now).1, early)
  {
    if early.Some? {
      RefillsCompose(lim, early.value, late.value.lastRefill, now);
    }
  }

  lemma BucketStaysWithinCap(lim: Limits, ts: seq<nat>)
    requires lim.rps > 0 && ts != []
    ensures var b := BucketAfter(lim, ts);
            b.Some? && b.value.tokens <= lim.Cap() && b.value.lastRefill == ts[|ts| - 1]
  {}

  lemma {:induction false} DeletingDenied(lim: Limits, ts: seq<nat>, keep: seq<bool>)
    requires lim.rps > 0 && |keep| == |ts| && Ordered(ts)
    requires Spares(Decisions(lim, ts), keep)
    ensures Decisions(lim, Keep(ts, keep)) == Keep(Decisions(lim, ts), keep)
    ensures SameButRefilled(lim, BucketAfter(lim, ts), BucketAfter(lim, Keep(ts, keep)))
  {
    if ts != [] {
      var n := |ts| - 1;
      var ds := Decisions(lim, ts);
      assert ds[..n] == Decisions(lim, ts[..n]);
      DeletingDenied(lim, ts[..n], keep[..n]);
      var kept := Keep(ts[..n], keep[..n]);
      DeletingOneMore(lim, ts[..n], kept, ts[n]);
      if keep[n] {
        DecisionsAppend(lim, kept, ts[n]);
        assert Keep(ts, keep) == kept + [ts[n]];
        assert Keep(ds, keep) == Keep(ds[..n], keep[..n]) + [ds[n]];
      } else {
        assert Keep(ts, keep) == kept;
        assert Keep(ds, keep) == Keep(ds[..n], keep[..n]);
      }
    }
  }

  lemma DeletingOneMore(lim: Limits, ts: seq<nat>, kept: seq<nat>, t: nat)
    requires lim.rps > 0 && (ts != [] ==> ts[|ts| - 1] <= t)
    requires SameButRefilled(lim, BucketAfter(lim, ts), BucketAfter(lim, kept))
    ensures var late, early := BucketAfter(lim, ts), BucketAfter(lim, kept);
            && Serve(lim, late, t) == Serve(lim, early, t)
            && (!Serve(lim, late, t).0 ==> SameButRefilled(lim, Serve(lim, late, t).1, early))
            && SameButRefilled(lim, Serve(lim, late, t).1, Serve(lim, early, t).1)
  {
    if ts != [] {
      BucketStaysWithinCap(lim, ts);
    }
    if kept != [] {
      BucketStaysWithinCap(lim, kept);
    }
    SameButRefilledDecidesAlike(lim, BucketAfter(lim, ts), BucketAfter(lim, kept), t);
  }

  /** With ordered timestamps, deleting any denied requests changes no other decision. */
  lemma DeniedRequestsAreInvisible(lim: Limits, ts: seq<nat>, keep: seq<bool>)
    requires |keep| == |ts| && Ordered(ts)
    requires Spares(Decisions(lim, ts), keep)
    ensures Decisions(lim, Keep(ts, keep)) == Keep(Decisions(lim, ts), keep)
  {
    if lim.rps > 0 {
      DeletingDenied(lim, ts, keep);
    } else {
      UnlimitedAdmitsAll(lim, ts);
      KeepAll(ts, keep);
      KeepAll(Decisions(lim, ts), keep);
    }
  }

  lemma {:induction false} UnlimitedAdmitsAll(lim: Limits, ts: seq<nat>)
    requires lim.rps == 0
    ensures forall k | 0 <= k < |ts| :: Decisions(lim, ts)[k]
  {
    if ts != [] {
      UnlimitedAdmitsAll(lim, ts[..|ts| - 1]);
    }
  }

  lemma KeepAppend<T>(s: seq<T>, x: T, mask: seq<bool>, b: bool)
    requires |s| == |mask|
    ensures Keep(s + [x], mask + [b]) == if b then Keep(s, mask) + [x] else Keep(s, mask)
  {}

  lemma {:induction false} KeepAll<T>(s: seq<T>, mask: seq<bool>)
    requires |s| == |mask| && forall k | 0 <= k < |mask| :: mask[k]
    ensures Keep(s, mask) == s
  {
    if s != [] {
      var n := |s| - 1;
      KeepAll(s[..n], mask[..n]);
      assert s == s[..n] + [s[n]];
    }
  }

  // When exactly the next denied request leaves no trace.

  predicate Denied(lim: Limits, ts: seq<nat>, t: nat) {
    !Serve(lim, BucketAfter(lim, ts), t).0
  }

  /** The requests `more` are decided alike whether or not a request stamped `t` came between `ts` and them. */
  ghost predicate Unaffected(lim: Limits, ts: seq<nat>, t: nat, more: seq<nat>) {
    Decisions(lim, ts + more)[|ts|..] == Decisions(lim, ts + [t] + more)[|ts| + 1..]
  }

  /** One more request `x` after the trace `ts + more`. */
  lemma TraceAppend(lim: Limits, ts: seq<nat>, more: seq<nat>, x: nat)
    ensures var d := Serve(lim, BucketAfter(lim, ts + more), x);
            && Decisions(lim, ts + (more + [x])) == Decisions(lim, ts + more) + [d.0]
            && BucketAfter(lim, ts + (more + [x])) == d.1
  {
    DecisionsAppend(lim, ts + more, x);
    assert ts + (more + [x]) == ts + more + [x];
  }

  lemma TailsAppend(a: seq<bool>, i: nat, p: bool, b: seq<bool>, j: nat, q: bool)
    requires i <= |a| && j <= |b|
    ensures (a + [p])[i..] == (b + [q])[j..] <==> a[i..] == b[j..] && p == q
  {
    assert (a + [p])[i..] == a[i..] + [p] && (b + [q])[j..] == b[j..] + [q];
    assert (a[i..] + [p])[..|a| - i] == a[i..] && (b[j..] + [q])[..|b| - j] == b[j..];
    assert (a[i..] + [p])[|a| - i] == p && (b[j..] + [q])[|b| - j] == q;
  }

  lemma UnaffectedStep(lim: Limits, ts: seq<nat>, t: nat, more: seq<nat>, x: nat)
    ensures Unaffected(lim, ts, t, more + [x])
       <==> Unaffected(lim, ts, t, more)
            && Serve(lim, BucketAfter(lim, ts + more), x).0 == Serve(lim, BucketAfter(lim, ts + [t] + more), x).0
  {
    var p, q := Serve(lim, BucketAfter(lim, ts + more), x).0, Serve(lim, BucketAfter(lim, ts + [t] + more), x).0;
    TraceAppend(lim, ts, more, x);
    TraceAppend(lim, ts + [t], more, x);
    TailsAppend(Decisions(lim, ts + more), |ts|, p, Decisions(lim, ts + [t] + more), |ts| + 1, q);
  }

  lemma NothingMore(lim: Limits, ts: seq<nat>, t: nat)
    ensures ts + [] == ts && ts + [t] + [] == ts + [t]
    ensures Unaffected(lim, ts, t, [])
    ensures BucketAfter(lim, ts + [t]) == Serve(lim, BucketAfter(lim, ts), t).1
  {
    DecisionsAppend(lim, ts, t);
    assert ts + [] == ts && ts + [t] + [] == ts + [t];
  }

  /** With no burst nothing is ever admitted. */
  lemma {:induction false} NoBurstDeniesAll(lim: Limits, ts: seq<nat>)
    requires lim.rps > 0 && lim.burst == 0
    ensures forall k | 0 <= k < |ts| :: !Decisions(lim, ts)[k]
  {
    if ts != [] {
      NoBurstDeniesAll(lim, ts[..|ts| - 1]);
    }
  }

  /** Two levels at least one refill apart are told apart by the right further refill. */
  lemma Parting(rps: nat, low: nat, high: nat) returns (k: nat)
    requires rps > 0 && low < TOKEN && low + rps <= high
    ensures low + k * rps < TOKEN <= high + k * rps
    decreases TOKEN - low
  {
    if high >= TOKEN {
      k := 0;
    } else {
      k := Parting(rps, low + rps, high + rps);
      assert (k + 1) * rps == k * rps + rps;
      k := k + 1;
    }
  }

  /** A bucket refilled up to `at` and for `k` more decides by the plain sum, as the cap is worth a token. */
  lemma RefilledFurther(lim: Limits, b: Bucket, at: nat, k: nat)
    requires lim.rps > 0 && lim.burst > 0 && b.lastRefill <= at
    ensures Serve(lim, Some(b), at + k).0 <==> b.tokens + (at - b.lastRefill) * lim.rps + k * lim.rps >= TOKEN
  {
    assert (at + k - b.lastRefill) * lim.rps == (at - b.lastRefill) * lim.rps + k * lim.rps;
    ServeStored(lim, b, at + k, (at + k - b.lastRefill) * lim.rps);
  }

  /** Two buckets whose levels at time `at` are a refill apart disagree on some later request. */
  lemma BucketsPart(lim: Limits, a: Bucket, b: Bucket, at: nat) returns (u: nat)
    requires lim.rps > 0 && lim.burst > 0 && a.lastRefill <= at && b.lastRefill <= at
    requires a.tokens + (at - a.lastRefill) * lim.rps < TOKEN
    requires a.tokens + (at - a.lastRefill) * lim.rps + lim.rps <= b.tokens + (at - b.lastRefill) * lim.rps
    ensures u >= at && !Serve(lim, Some(a), u).0 && Serve(lim, Some(b), u).0
  {
    hide Serve;
    var k := Parting(lim.rps, a.tokens + (at - a.lastRefill) * lim.rps, b.tokens + (at - b.lastRefill) * lim.rps);
    RefilledFurther(lim, a, at, k);
    RefilledFurther(lim, b, at, k);
    u := at + k;
  }

  /** What a denied request finds and leaves: a bucket below one token, refilled if time has passed. */
  lemma DeniedBucket(lim: Limits, ts: seq<nat>, t: nat) returns (b: Bucket)
    requires Denied(lim, ts, t) && lim.burst > 0
    ensures lim.rps > 0 && ts != [] && BucketAfter(lim, ts) == Some(b)
    ensures b.tokens < TOKEN && b.lastRefill == ts[|ts| - 1]
    ensures var left := b.tokens + Elapsed(t, b.lastRefill) * lim.rps;
            left < TOKEN && Serve(lim, Some(b), t).1 == Some(Bucket(left, t))
    ensures t <= b.lastRefill ==> Serve(lim, Some(b), t).1 == Some(Bucket(b.tokens, t))
  {
    assert ts != [];
    BucketStaysWithinCap(lim, ts);
    b := BucketAfter(lim, ts).value;
    ServeStored(lim, b, t, Elapsed(t, b.lastRefill) * lim.rps);
    if t <= b.lastRefill {
      ServeStored(lim, b, t, 0);
    }
  }

  lemma WoundBackParts(lim: Limits, b: Bucket, t: nat) returns (u: nat)
    requires lim.rps > 0 && lim.burst > 0 && b.tokens < TOKEN && t < b.lastRefill
    ensures t <= u && !Serve(lim, Some(b), u).0 && Serve(lim, Some(Bucket(b.tokens, t)), u).0
  {
    Times(b.lastRefill - t, lim.rps);
    u := BucketsPart(lim, b, Bucket(b.tokens, t), b.lastRefill);
  }

  /** A denied request stamped earlier than the one before it is paid out again later. */
  lemma EarlierDenialShows(lim: Limits, ts: seq<nat>, t: nat) returns (u: nat)
    requires Denied(lim, ts, t) && lim.burst > 0 && ts != [] && t < ts[|ts| - 1]
    ensures t <= u && !Unaffected(lim, ts, t, [u])
  {
    var b := DeniedBucket(lim, ts, t);
    u := WoundBackParts(lim, b, t);
    NothingMore(lim, ts, t);
    UnaffectedStep(lim, ts, t, [], u);
    assert [] + [u] == [u];
  }

  lemma Times(d: nat, rps: nat)
    requires d > 0
    ensures d * rps >= rps
  {}

  /** After a request stamped before it, a later denial has still been paid for the time up to it. */
  lemma PaidAheadParts(lim: Limits, b: Bucket, t: nat) returns (u: nat)
    requires lim.rps > 0 && lim.burst > 0 && b.lastRefill < t
    requires var left := b.tokens + Elapsed(t, b.lastRefill) * lim.rps; left < TOKEN
    ensures var left := Bucket(b.tokens + Elapsed(t, b.lastRefill) * lim.rps, t);
            var (early, late) := (Serve(lim, Some(b), b.lastRefill), Serve(lim, Some(left), b.lastRefill));
            !early.0 && !late.0 && !Serve(lim, early.1, u).0 && Serve(lim, late.1, u).0
  {
    var at, left := b.lastRefill, b.tokens + Elapsed(t, b.lastRefill) * lim.rps;
    Times(t - at, lim.rps);
    u := BucketsPart(lim, b, Bucket(left, at), at);
    ServeStored(lim, b, at, 0);
    ServeStored(lim, Bucket(left, t), at, 0);
  }

  /** One stamped later shows if a request stamped before it comes after it. */
  lemma LaterDenialShows(lim: Limits, ts: seq<nat>, t: nat) returns (u: nat)
    requires Denied(lim, ts, t) && lim.burst > 0 && ts != [] && t > ts[|ts| - 1]
    ensures !Unaffected(lim, ts, t, [ts[|ts| - 1]] + [u])
  {
    var b := DeniedBucket(lim, ts, t);
    u := PaidAheadParts(lim, b, t);
    NothingMore(lim, ts, t);
    DecisionsAppend(lim, ts, b.lastRefill);
    DecisionsAppend(lim, ts + [t], b.lastRefill);
    UnaffectedStep(lim, ts, t, [b.lastRefill], u);
  }

  ghost predicate InvisibleInOrder(lim: Limits, ts: seq<nat>, t: nat) {
    forall more | Ordered([t] + more) :: Unaffected(lim, ts, t, more)
  }

  ghost predicate InvisibleAlways(lim: Limits, ts: seq<nat>, t: nat) {
    forall more :: Unaffected(lim, ts, t, more)
  }

  lemma NoBurstIsUnaffected(lim: Limits, ts: seq<nat>, t: nat, more: seq<nat>)
    requires lim.rps > 0 && lim.burst == 0
    ensures Unaffected(lim, ts, t, more)
  {
    NoBurstDeniesAll(lim, ts + more);
    NoBurstDeniesAll(lim, ts + [t] + more);
  }

  lemma UnseenStep(lim: Limits, ts: seq<nat>, t: nat, more: seq<nat>, x: nat)
    requires lim.rps > 0 && (ts + [t] + more)[|ts| + |more|] <= x
    requires Unaffected(lim, ts, t, more)
    requires SameButRefilled(lim, BucketAfter(lim, ts + [t] + more), BucketAfter(lim, ts + more))
    ensures Unaffected(lim, ts, t, more + [x])
    ensures SameButRefilled(lim, BucketAfter(lim, ts + [t] + (more + [x])), BucketAfter(lim, ts + (more + [x])))
  {
    DeletingOneMore(lim, ts + [t] + more, ts + more, x);
    UnaffectedStep(lim, ts, t, more, x);
    TraceAppend(lim, ts, more, x);
    TraceAppend(lim, ts + [t], more, x);
  }

  lemma {:induction false} LaterDenialIsUnseen(lim: Limits, ts: seq<nat>, t: nat, more: seq<nat>)
    requires Denied(lim, ts, t) && lim.burst > 0 && ts != [] && ts[|ts| - 1] <= t && Ordered([t] + more)
    ensures Unaffected(lim, ts, t, more)
    ensures SameButRefilled(lim, BucketAfter(lim, ts + [t] + more), BucketAfter(lim, ts + more))
  {
    NothingMore(lim, ts, t);
    if more == [] {
      LaterDenialRefills(lim, ts, t);
    } else {
      var n := |more| - 1;
      assert [t] + more[..n] == ([t] + more)[..n + 1] && more == more[..n] + [more[n]];
      LaterDenialIsUnseen(lim, ts, t, more[..n]);
      assert (ts + [t] + more[..n])[|ts| + n] == ([t] + more)[n] && more[n] == ([t] + more)[n + 1];
      UnseenStep(lim, ts, t, more[..n], more[n]);
    }
  }

  lemma DenialOnlyRefills(lim: Limits, b: Bucket, t: nat)
    requires lim.rps > 0 && b.tokens <= lim.Cap() && b.lastRefill <= t && !Serve(lim, Some(b), t).0
    ensures SameButRefilled(lim, Serve(lim, Some(b), t).1, Some(b))
  {}

  lemma LaterDenialRefills(lim: Limits, ts: seq<nat>, t: nat)
    requires Denied(lim, ts, t) && lim.burst > 0 && ts != [] && ts[|ts| - 1] <= t
    ensures SameButRefilled(lim, BucketAfter(lim, ts + [t]), BucketAfter(lim, ts))
  {
    var b := DeniedBucket(lim, ts, t);
    BucketStaysWithinCap(lim, ts);
    DecisionsAppend(lim, ts, t);
    DenialOnlyRefills(lim, b, t);
  }

  lemma {:induction false} RepeatedDenialIsUnseen(lim: Limits, ts: seq<nat>, t: nat, more: seq<nat>)
    requires BucketAfter(lim, ts + [t]) == BucketAfter(lim, ts)
    ensures Unaffected(lim, ts, t, more)
    ensures BucketAfter(lim, ts + [t] + more) == BucketAfter(lim, ts + more)
  {
    NothingMore(lim, ts, t);
    if more != [] {
      var n := |more| - 1;
      assert more == more[..n] + [more[n]];
      RepeatedDenialIsUnseen(lim, ts, t, more[..n]);
      UnaffectedStep(lim, ts, t, more[..n], more[n]);
      TraceAppend(lim, ts, more[..n], more[n]);
      TraceAppend(lim, ts + [t], more[..n], more[n]);
    }
  }

  /**
   A denied request leaves no trace on the requests stamped in order after it iff it is
   itself stamped no earlier than the request before it. (With no burst nothing is ever
   admitted; with one, a denied request is never the first.)
   */
  lemma DenialIsInvisibleIff(lim: Limits, ts: seq<nat>, t: nat)
    requires Denied(lim, ts, t)
    ensures InvisibleInOrder(lim, ts, t) <==> lim.burst == 0 || (ts != [] && ts[|ts| - 1] <= t)
  {
    if lim.burst == 0 {
      forall more ensures Unaffected(lim, ts, t, more) { NoBurstIsUnaffected(lim, ts, t, more); }
    } else if ts != [] && ts[|ts| - 1] <= t {
      forall more | Ordered([t] + more) ensures Unaffected(lim, ts, t, more) { LaterDenialIsUnseen(lim, ts, t, more); }
    } else {
      var b := DeniedBucket(lim, ts, t);
      var u := EarlierDenialShows(lim, ts, t);
      assert Ordered([t] + [u]);
    }
  }

  lemma SameBucketLeft(lim: Limits, ts: seq<nat>, t: nat)
    requires Denied(lim, ts, t) && lim.burst > 0 && ts != [] && ts[|ts| - 1] == t
    ensures BucketAfter(lim, ts + [t]) == BucketAfter(lim, ts)
  {
    var b := DeniedBucket(lim, ts, t);
    DecisionsAppend(lim, ts, t);
  }

  /** It leaves no trace on any later requests, in whatever order, iff it repeats the last stamp. */
  lemma DenialIsAlwaysInvisibleIff(lim: Limits, ts: seq<nat>, t: nat)
    requires Denied(lim, ts, t)
    ensures InvisibleAlways(lim, ts, t) <==> lim.burst == 0 || (ts != [] && ts[|ts| - 1] == t)
  {
    if lim.burst == 0 {
      forall more ensures Unaffected(lim, ts, t, more) { NoBurstIsUnaffected(lim, ts, t, more); }
    } else if ts != [] && ts[|ts| - 1] == t {
      SameBucketLeft(lim, ts, t);
      forall more ensures Unaffected(lim, ts, t, more) { RepeatedDenialIsUnseen(lim, ts, t, more); }
    } else {
      var b := DeniedBucket(lim, ts, t);
      if t < b.lastRefill {
        var u := EarlierDenialShows(lim, ts, t);
      } else {
        var u := LaterDenialShows(lim, ts, t);
      }
    }
  }

  /**
   An instance: at one token per second and a burst of one, a denial backdated by a second
   winds `last_refill` back, and a request at the time of the first is then admitted too.
   */
  lemma BackdatedDenialIsVisible()
    ensures var (lim, ts) := (Limits(1, 1), [10 * TOKEN]);
            Denied(lim, ts, 9 * TOKEN) && !Unaffected(lim, ts, 9 * TOKEN, [10 * TOKEN])
  {
    var lim, ts := Limits(1, 1), [10 * TOKEN];
    DecisionsAppend(lim, [], 10 * TOKEN);
    assert [] + ts == ts;
    NothingMore(lim, ts, 9 * TOKEN);
    UnaffectedStep(lim, ts, 9 * TOKEN, [], 10 * TOKEN);
  }

  // ---------------------------------------------------------------------------------
  // Clients do not influence each other
  // ---------------------------------------------------------------------------------

  datatype Request = Request(ip: IpAddr, at: nat)

  /** The limiter's map after a run of interleaved requests, and the decision on each. */
  function RunBuckets(lim: Limits, reqs: seq<Request>): map<IpAddr, Bucket> {
    if reqs == [] then map[]
    else
      var n := |reqs| - 1;
      var before := RunBuckets(lim, reqs[..n]);
      match Serve(lim, Lookup(before, reqs[n].ip), reqs[n].at).1
      case Some(b) => before[reqs[n].ip := b]
      case None => before
  }

  function RunDecisions(lim: Limits, reqs: seq<Request>): (ds: seq<bool>)
    ensures |ds| == |reqs|
  {
    if reqs == [] then []
    else
      var n := |reqs| - 1;
      RunDecisions(lim, reqs[..n]) + [Serve(lim, Lookup(RunBuckets(lim, reqs[..n]), reqs[n].ip), reqs[n].at).0]
  }

  function IsFrom(reqs: seq<Request>, ip: IpAddr): seq<bool> {
    seq(|reqs|, k requires 0 <= k < |reqs| => reqs[k].ip == ip)
  }

  function Stamps(reqs: seq<Request>): seq<nat> {
    seq(|reqs|, k requires 0 <= k < |reqs| => reqs[k].at)
  }

  lemma RunAppend(lim: Limits, reqs: seq<Request>, r: Request, ip: IpAddr)
    ensures var d := Serve(lim, Lookup(RunBuckets(lim, reqs), r.ip), r.at);
            && RunDecisions(lim, reqs + [r]) == RunDecisions(lim, reqs) + [d.0]
            && Lookup(RunBuckets(lim, reqs + [r]), ip) == if r.ip == ip then d.1 else Lookup(RunBuckets(lim, reqs), ip)
  {}

  lemma ProjectionAppend(lim: Limits, reqs: seq<Request>, r: Request, ip: IpAddr)
    ensures var mine, from := r.ip == ip, IsFrom(reqs, ip);
            var d := Serve(lim, Lookup(RunBuckets(lim, reqs), r.ip), r.at);
            var (stamps, ds) := (Keep(Stamps(reqs), from), Keep(RunDecisions(lim, reqs), from));
            && Keep(Stamps(reqs + [r]), IsFrom(reqs + [r], ip)) == (if mine then stamps + [r.at] else stamps)
            && Keep(RunDecisions(lim, reqs + [r]), IsFrom(reqs + [r], ip)) == (if mine then ds + [d.0] else ds)
            && Lookup(RunBuckets(lim, reqs + [r]), ip) == if mine then d.1 else Lookup(RunBuckets(lim, reqs), ip)
  {
    hide Serve, Keep, Lookup, RunBuckets, RunDecisions;
    var d := Serve(lim, Lookup(RunBuckets(lim, reqs), r.ip), r.at).0;
    RunAppend(lim, reqs, r, ip);
    assert IsFrom(reqs + [r], ip) == IsFrom(reqs, ip) + [r.ip == ip];
    assert Stamps(reqs + [r]) == Stamps(reqs) + [r.at];
    KeepAppend(Stamps(reqs), r.at, IsFrom(reqs, ip), r.ip == ip);
    KeepAppend(RunDecisions(lim, reqs), d, IsFrom(reqs, ip), r.ip == ip);
  }

  /** Client `ip` has been decided, and its bucket left, as by its own requests alone. */
  ghost predicate AsAlone(lim: Limits, reqs: seq<Request>, ip: IpAddr) {
    && Keep(RunDecisions(lim, reqs), IsFrom(reqs, ip)) == Decisions(lim, Keep(Stamps(reqs), IsFrom(reqs, ip)))
    && Lookup(RunBuckets(lim, reqs), ip) == BucketAfter(lim, Keep(Stamps(reqs), IsFrom(reqs, ip)))
  }

  lemma StillAsAlone(lim: Limits, reqs: seq<Request>, r: Request, ip: IpAddr)
    requires AsAlone(lim, reqs, ip)
    ensures AsAlone(lim, reqs + [r], ip)
  {
    hide Serve, Keep, Lookup, RunBuckets, RunDecisions, BucketAfter, Decisions;
    ProjectionAppend(lim, reqs, r, ip);
    if r.ip == ip {
      DecisionsAppend(lim, Keep(Stamps(reqs), IsFrom(reqs, ip)), r.at);
    }
  }

  /** In an interleaved run every client is decided exactly as its own requests alone would be. */
  lemma {:induction false} ClientsAreIndependent(lim: Limits, reqs: seq<Request>, ip: IpAddr)
    ensures AsAlone(lim, reqs, ip)
  {
    if reqs != [] {
      hide AsAlone;
      var n := |reqs| - 1;
      ClientsAreIndependent(lim, reqs[..n], ip);
      StillAsAlone(lim, reqs[..n], reqs[n], ip);
      assert reqs[..n] + [reqs[n]] == reqs;
    }
  }
}
