/**
 Round-robin walks by any number of threads, interleaved at the granularity of the atomic
 operations on the shared cursor (src/load_balancer.rs, round_robin): taking a ticket and
 probing its slot are separate steps. Backends may change their health at any time, and the
 cursor is taken not to wrap.
 */
module RoundRobinRaces {
  import opened Prelude
  import opened CircuitBreaker
  import opened LoadBalancer
  import opened RoundRobinFairness
  import Modular

  /** One thread's walk; `mine` lists the tickets it has probed so far. */
  datatype Walker =
    | Idle
    | Between(mine: seq<nat>)
    | Holding(mine: seq<nat>, ticket: nat)
    | Done(mine: seq<nat>, result: Option<nat>)

  /**
   The number of backends, and what the probe of each ticket finds. No ticket is probed
   twice, so that `ok` stands for every way in which health can change during a run.
   */
  datatype Fleet = Fleet(n: nat, ok: nat -> bool)

  /** A fleet whose health never changes. */
  function Steady(h: seq<bool>): Fleet
    requires h != []
  {
    Fleet(|h|, (t: nat) => Hit(h, t))
  }

  datatype Probe = Probe(ticket: nat, ok: bool)

  /** `issued[i]` is the thread that took ticket `start + i`. */
  datatype Ledger = Ledger(start: nat, issued: seq<nat>) {
    function Cursor(): nat { start + |issued| }

    /** The thread that took ticket `u`, if it has been issued. */
    function Owner(u: nat): Option<nat> {
      if start <= u < Cursor() then Some(issued[u - start]) else None
    }
  }

  datatype System = System(ledger: Ledger, walkers: map<nat, Walker>, probes: seq<Probe>) {
    function Walker(tid: nat): Walker {
      if tid in walkers then walkers[tid] else Idle
    }
  }

  datatype Action =
    | Begin(tid: nat)
    | TakeTicket(tid: nat)
    | ProbeSlot(tid: nat)
    | GiveUp(tid: nat)

  /** One atomic step; an action that is not enabled changes nothing. */
  function Apply(f: Fleet, s: System, a: Action): System
    requires f.n > 0
  {
    match (a, s.Walker(a.tid))
    case (Begin(tid), Idle) => s.(walkers := s.walkers[tid := Between([])])
    case (Begin(tid), Done(_, _)) => s.(walkers := s.walkers[tid := Between([])])
    case (TakeTicket(tid), Between(mine)) =>
      if |mine| == f.n then s
      else s.(ledger := s.ledger.(issued := s.ledger.issued + [tid]),
                walkers := s.walkers[tid := Holding(mine, s.ledger.Cursor())])
    case (ProbeSlot(tid), Holding(mine, t)) =>
      s.(walkers := s.walkers[tid := if f.ok(t) then Done(mine + [t], Some(t % f.n)) else Between(mine + [t])],
         probes := s.probes + [Probe(t, f.ok(t))])
    case (GiveUp(tid), Between(mine)) =>
      if |mine| == f.n then s.(walkers := s.walkers[tid := Done(mine, None)]) else s
    case _ => s
  }

  function Run(f: Fleet, start: nat, acts: seq<Action>): System
    requires f.n > 0
  {
    if acts == [] then System(Ledger(start, []), map[], [])
    else Apply(f, Run(f, start, acts[..|acts| - 1]), acts[|acts| - 1])
  }

  // ---------------------------------------------------------------------------------
  // The invariant
  // ---------------------------------------------------------------------------------

  ghost predicate Increasing(ts: seq<nat>) {
    forall i, j | 0 <= i < j < |ts| :: ts[i] < ts[j]
  }

  ghost predicate AllMiss(f: Fleet, ts: seq<nat>)
    requires f.n > 0
  {
    forall i | 0 <= i < |ts| :: !f.ok(ts[i])
  }

  /** Tickets that were issued to `tid`, in order, with nothing issued to it in between. */
  ghost predicate Own(l: Ledger, tid: nat, ts: seq<nat>) {
    && Increasing(ts)
    && (forall i | 0 <= i < |ts| :: l.Owner(ts[i]) == Some(tid))
    && (ts != [] ==> forall u | ts[0] <= u <= ts[|ts| - 1] && l.Owner(u) == Some(tid) :: u in ts)
  }

  /** Nothing was issued to `tid` after the last of `ts`. */
  ghost predicate Latest(l: Ledger, tid: nat, ts: seq<nat>) {
    ts != [] ==> forall u | u > ts[|ts| - 1] :: l.Owner(u) != Some(tid)
  }

  ghost predicate Probed(probes: seq<Probe>, t: nat) {
    exists i | 0 <= i < |probes| :: probes[i].ticket == t
  }

  ghost predicate WalkerOk(f: Fleet, l: Ledger, probes: seq<Probe>, tid: nat, w: Walker)
    requires f.n > 0
  {
    match w
    case Idle => true
    case Between(mine) => |mine| <= f.n && AllMiss(f, mine) && Own(l, tid, mine) && Latest(l, tid, mine)
    case Holding(mine, t) =>
      && |mine| < f.n && AllMiss(f, mine)
      && Own(l, tid, mine + [t]) && Latest(l, tid, mine + [t])
      && !Probed(probes, t)
    case Done(mine, None) => |mine| == f.n && AllMiss(f, mine) && Own(l, tid, mine)
    case Done(mine, Some(b)) =>
      && 0 < |mine| <= f.n && AllMiss(f, mine[..|mine| - 1])
      && Own(l, tid, mine) && f.ok(mine[|mine| - 1]) && b == mine[|mine| - 1] % f.n
  }

  /** Every probe reports its slot's health, and no ticket is probed twice. */
  ghost predicate ProbesOk(f: Fleet, l: Ledger, probes: seq<Probe>)
    requires f.n > 0
  {
    && (forall i | 0 <= i < |probes| ::
          l.Owner(probes[i].ticket).Some? && probes[i].ok == f.ok(probes[i].ticket))
    && (forall i, j | 0 <= i < j < |probes| :: probes[i].ticket != probes[j].ticket)
  }

  ghost predicate Inv(f: Fleet, s: System)
    requires f.n > 0
  {
    && ProbesOk(f, s.ledger, s.probes)
    && forall tid :: WalkerOk(f, s.ledger, s.probes, tid, s.Walker(tid))
  }

  /** `l'` is `l` with one more ticket, issued to `tid`. */
  ghost predicate Issues(l: Ledger, l': Ledger, tid: nat) {
    && l.Owner(l.Cursor()) == None && l'.Owner(l.Cursor()) == Some(tid)
    && (forall u: nat | u != l.Cursor() :: l'.Owner(u) == l.Owner(u))
    && (forall u: nat | l.Owner(u).Some? :: u < l.Cursor())
  }

  lemma TakeKeepsOthers(f: Fleet, l: Ledger, l': Ledger, probes: seq<Probe>, tid: nat, other: nat, w: Walker)
    requires f.n > 0 && Issues(l, l', tid) && tid != other
    requires WalkerOk(f, l, probes, other, w)
    ensures WalkerOk(f, l', probes, other, w)
  {}

  lemma TakeKeepsOwn(f: Fleet, l: Ledger, l': Ledger, probes: seq<Probe>, tid: nat, mine: seq<nat>)
    requires f.n > 0 && Issues(l, l', tid) && |mine| < f.n && ProbesOk(f, l, probes)
    requires WalkerOk(f, l, probes, tid, Between(mine))
    ensures WalkerOk(f, l', probes, tid, Holding(mine, l.Cursor()))
    ensures ProbesOk(f, l', probes)
  {}

  lemma ProbeKeepsOthers(f: Fleet, l: Ledger, probes: seq<Probe>, tid: nat, p: Probe, other: nat, w: Walker)
    requires f.n > 0 && tid != other && l.Owner(p.ticket) == Some(tid)
    requires WalkerOk(f, l, probes, other, w)
    ensures WalkerOk(f, l, probes + [p], other, w)
  {
    if w.Holding? {
      assert l.Owner((w.mine + [w.ticket])[|w.mine|]) == Some(other);
      assert !Probed(probes + [p], w.ticket) by {
        assert forall i | 0 <= i < |probes| :: (probes + [p])[i] == probes[i];
      }
    }
  }

  lemma NewProbeIsOk(f: Fleet, l: Ledger, probes: seq<Probe>, t: nat)
    requires f.n > 0 && ProbesOk(f, l, probes) && l.Owner(t).Some? && !Probed(probes, t)
    ensures ProbesOk(f, l, probes + [Probe(t, f.ok(t))])
  {}

  lemma ProbeKeepsOwn(f: Fleet, l: Ledger, probes: seq<Probe>, tid: nat, mine: seq<nat>, t: nat)
    requires f.n > 0 && ProbesOk(f, l, probes)
    requires WalkerOk(f, l, probes, tid, Holding(mine, t))
    ensures l.Owner(t) == Some(tid)
    ensures ProbesOk(f, l, probes + [Probe(t, f.ok(t))])
    ensures WalkerOk(f, l, probes + [Probe(t, f.ok(t))], tid,
                     if f.ok(t) then Done(mine + [t], Some(t % f.n)) else Between(mine + [t]))
  {
    hide ProbesOk;
    assert (mine + [t])[|mine|] == t && (mine + [t])[..|mine|] == mine;
    NewProbeIsOk(f, l, probes, t);
  }

  lemma TakeStepKeepsInv(f: Fleet, s: System, tid: nat)
    requires f.n > 0 && Inv(f, s) && s.Walker(tid).Between? && |s.Walker(tid).mine| < f.n
    ensures Inv(f, Apply(f, s, TakeTicket(tid)))
  {
    var s', l, w := Apply(f, s, TakeTicket(tid)), s.ledger, s.Walker(tid);
    assert Issues(l, s'.ledger, tid);
    TakeKeepsOwn(f, l, s'.ledger, s.probes, tid, w.mine);
    forall other | other != tid
      ensures WalkerOk(f, s'.ledger, s'.probes, other, s'.Walker(other))
    {
      TakeKeepsOthers(f, l, s'.ledger, s.probes, tid, other, s.Walker(other));
    }
    assert s'.Walker(tid) == Holding(w.mine, l.Cursor());
  }

  lemma ProbeStepKeepsInv(f: Fleet, s: System, tid: nat)
    requires f.n > 0 && Inv(f, s) && s.Walker(tid).Holding?
    ensures Inv(f, Apply(f, s, ProbeSlot(tid)))
  {
    var s', l, w := Apply(f, s, ProbeSlot(tid)), s.ledger, s.Walker(tid);
    var p := Probe(w.ticket, f.ok(w.ticket));
    ProbeKeepsOwn(f, l, s.probes, tid, w.mine, w.ticket);
    forall other | other != tid
      ensures WalkerOk(f, s'.ledger, s'.probes, other, s'.Walker(other))
    {
      ProbeKeepsOthers(f, l, s.probes, tid, p, other, s.Walker(other));
    }
    assert WalkerOk(f, s'.ledger, s'.probes, tid, s'.Walker(tid));
  }

  lemma StepKeepsInv(f: Fleet, s: System, a: Action)
    requires f.n > 0 && Inv(f, s)
    ensures Inv(f, Apply(f, s, a))
  {
    var w := s.Walker(a.tid);
    assert WalkerOk(f, s.ledger, s.probes, a.tid, w);
    if a.TakeTicket? && w.Between? && |w.mine| < f.n {
      TakeStepKeepsInv(f, s, a.tid);
    } else if a.ProbeSlot? && w.Holding? {
      ProbeStepKeepsInv(f, s, a.tid);
    } else {
      var s' := Apply(f, s, a);
      forall tid
        ensures WalkerOk(f, s'.ledger, s'.probes, tid, s'.Walker(tid))
      {
        assert WalkerOk(f, s.ledger, s.probes, tid, s.Walker(tid));
      }
    }
  }

  lemma {:induction false} InvAlways(f: Fleet, start: nat, acts: seq<Action>)
    requires f.n > 0
    ensures Inv(f, Run(f, start, acts))
  {
    if acts != [] {
      InvAlways(f, start, acts[..|acts| - 1]);
      StepKeepsInv(f, Run(f, start, acts[..|acts| - 1]), acts[|acts| - 1]);
    }
  }

  /** Ticket `u`, if it has been issued, is probed or still in its owner's hand. */
  ghost predicate Accounted(s: System, u: nat) {
    match s.ledger.Owner(u)
    case None => true
    case Some(tid) => Probed(s.probes, u) || (s.Walker(tid).Holding? && s.Walker(tid).ticket == u)
  }

  lemma ProbedStays(probes: seq<Probe>, p: Probe, u: nat)
    ensures Probed(probes, u) || p.ticket == u ==> Probed(probes + [p], u)
  {
    if Probed(probes, u) {
      var i :| 0 <= i < |probes| && probes[i].ticket == u;
      assert (probes + [p])[i].ticket == u;
    } else if p.ticket == u {
      assert (probes + [p])[|probes|].ticket == u;
    }
  }

  lemma StepAccounts(f: Fleet, s: System, a: Action, u: nat)
    requires f.n > 0 && Accounted(s, u)
    ensures Accounted(Apply(f, s, a), u)
  {
    var w := s.Walker(a.tid);
    if a.ProbeSlot? && w.Holding? {
      ProbedStays(s.probes, Probe(w.ticket, f.ok(w.ticket)), u);
    }
  }

  /** No ticket is lost: in every interleaving each issued ticket has been probed or is about to be. */
  lemma {:induction false} TicketsAreAccountedFor(f: Fleet, start: nat, acts: seq<Action>, u: nat)
    requires f.n > 0
    ensures Accounted(Run(f, start, acts), u)
  {
    if acts != [] {
      TicketsAreAccountedFor(f, start, acts[..|acts| - 1], u);
      StepAccounts(f, Run(f, start, acts[..|acts| - 1]), acts[|acts| - 1], u);
    }
  }

  /** In every interleaving a returned backend is the one that the walk's last ticket stands for, found healthy. */
  lemma AnswerIsLastProbe(f: Fleet, start: nat, acts: seq<Action>, tid: nat, mine: seq<nat>, b: nat)
    requires f.n > 0 && Run(f, start, acts).Walker(tid) == Done(mine, Some(b))
    ensures mine != [] && b == mine[|mine| - 1] % f.n && f.ok(mine[|mine| - 1])
    ensures forall i | 0 <= i < |mine| - 1 :: !f.ok(mine[i])
  {
    var s := Run(f, start, acts);
    InvAlways(f, start, acts);
    assert WalkerOk(f, s.ledger, s.probes, tid, s.Walker(tid));
    forall i | 0 <= i < |mine| - 1
      ensures !f.ok(mine[i])
    {
      assert !f.ok(mine[..|mine| - 1][i]);
    }
  }

  /** While health does not change, every returned backend is healthy. */
  lemma AnswerIsHealthy(h: seq<bool>, start: nat, acts: seq<Action>, tid: nat, mine: seq<nat>, b: nat)
    requires h != [] && Run(Steady(h), start, acts).Walker(tid) == Done(mine, Some(b))
    ensures mine != [] && b < |h| && h[b] && b == mine[|mine| - 1] % |h|
  {
    AnswerIsLastProbe(Steady(h), start, acts, tid, mine, b);
  }

  // ---------------------------------------------------------------------------------
  // Fairness under every interleaving
  // ---------------------------------------------------------------------------------

  /** How many successful probes among `probes` used a ticket in `[a, b)`. */
  function Successes(probes: seq<Probe>, a: nat, b: nat): nat {
    if probes == [] then 0
    else
      var n := |probes| - 1;
      Successes(probes[..n], a, b) + if a <= probes[n].ticket < b && probes[n].ok then 1 else 0
  }

  lemma {:induction false} SuccessesSplit(probes: seq<Probe>, a: nat, m: nat, b: nat)
    requires a <= m <= b
    ensures Successes(probes, a, b) == Successes(probes, a, m) + Successes(probes, m, b)
  {
    if probes != [] {
      SuccessesSplit(probes[..|probes| - 1], a, m, b);
    }
  }

  lemma {:induction false} NoSuccess(probes: seq<Probe>, t: nat)
    requires forall i | 0 <= i < |probes| :: probes[i].ticket != t
    ensures Successes(probes, t, t + 1) == 0
  {
    if probes != [] {
      NoSuccess(probes[..|probes| - 1], t);
    }
  }

  lemma {:induction false} OneSuccess(probes: seq<Probe>, t: nat, i: nat)
    requires i < |probes| && probes[i].ticket == t
    requires forall j, k | 0 <= j < k < |probes| :: probes[j].ticket != probes[k].ticket
    ensures Successes(probes, t, t + 1) == if probes[i].ok then 1 else 0
  {
    var n := |probes| - 1;
    if i == n {
      NoSuccess(probes[..n], t);
    } else {
      OneSuccess(probes[..n], t, i);
    }
  }

  /** The probes of the tickets `[a, a + m)` found the backends as healthy as `h` says. */
  ghost predicate FoundAs(f: Fleet, h: seq<bool>, a: nat, m: nat)
    requires h != []
  {
    |h| == f.n && forall t | a <= t < a + m :: f.ok(t) == Hit(h, t)
  }

  lemma {:induction false} SuccessesAreHits(f: Fleet, h: seq<bool>, s: System, a: nat, m: nat)
    requires h != [] && f.n > 0 && FoundAs(f, h, a, m)
    requires ProbesOk(f, s.ledger, s.probes) && forall t | a <= t < a + m :: Probed(s.probes, t)
    ensures Successes(s.probes, a, a + m) == Hits(h, a, m)
  {
    if m == 0 {
      SuccessesEmpty(s.probes, a);
    } else {
      var t := a + m - 1;
      SuccessesAreHits(f, h, s, a, m - 1);
      SuccessesSplit(s.probes, a, t, t + 1);
      assert Probed(s.probes, t);
      var i :| 0 <= i < |s.probes| && s.probes[i].ticket == t;
      OneSuccess(s.probes, t, i);
    }
  }

  lemma {:induction false} SuccessesEmpty(probes: seq<Probe>, a: nat)
    ensures Successes(probes, a, a) == 0
  {
    if probes != [] {
      SuccessesEmpty(probes[..|probes| - 1], a);
    }
  }

  /**
   In every interleaving of every number of threads, once any `n` consecutive tickets have
   been probed and found the same backends healthy, they hold exactly as many successful
   probes as there are healthy backends.
   */
  lemma ConsecutiveTicketsAreFair(f: Fleet, h: seq<bool>, start: nat, acts: seq<Action>, a: nat)
    requires h != [] && FoundAs(f, h, a, f.n) && f.n > 0
    requires forall t | a <= t < a + f.n :: Probed(Run(f, start, acts).probes, t)
    ensures Successes(Run(f, start, acts).probes, a, a + f.n) == Count(h, 0, |h|)
  {
    InvAlways(f, start, acts);
    SuccessesAreHits(f, h, Run(f, start, acts), a, f.n);
    FullTurn(h, a);
  }

  /** Backend `slot` is found healthy by every ticket of `[a, b)` that probes it. */
  ghost predicate StaysHealthy(f: Fleet, slot: nat, a: nat, b: nat)
    requires f.n > 0
  {
    forall t | a <= t < b && t % f.n == slot :: f.ok(t)
  }

  /**
   A backend that stays healthy, whatever the others do, is probed successfully by exactly
   one of any `n` consecutive tickets.
   */
  lemma EachHealthyBackendHitOnce(f: Fleet, start: nat, acts: seq<Action>, a: nat, slot: nat)
    requires slot < f.n && StaysHealthy(f, slot, a, a + f.n)
    requires forall t | a <= t < a + f.n :: Probed(Run(f, start, acts).probes, t)
    ensures exists i | 0 <= i < |Run(f, start, acts).probes| ::
              var p := Run(f, start, acts).probes[i];
              a <= p.ticket < a + f.n && p.ticket % f.n == slot && p.ok
    ensures forall i, j | 0 <= i < j < |Run(f, start, acts).probes| ::
              var (p, q) := (Run(f, start, acts).probes[i], Run(f, start, acts).probes[j]);
              a <= p.ticket < a + f.n && a <= q.ticket < a + f.n ==> p.ticket % f.n != q.ticket % f.n
  {
    var s, n := Run(f, start, acts), f.n;
    InvAlways(f, start, acts);
    Modular.Meets(a, slot, n);
    var t := a + Modular.Offset(a, slot, n);
    assert t % f.n == slot && Probed(s.probes, t);
    forall i, j | 0 <= i < j < |s.probes| && a <= s.probes[i].ticket < a + n && a <= s.probes[j].ticket < a + n
      ensures s.probes[i].ticket % f.n != s.probes[j].ticket % f.n
    {
      var t, u := s.probes[i].ticket, s.probes[j].ticket;
      if t % n == u % n {
        if t <= u { Modular.Injective(t, u, n); } else { Modular.Injective(u, t, n); }
      }
    }
  }

  // ---------------------------------------------------------------------------------
  // "None" under interleaving
  // ---------------------------------------------------------------------------------

  lemma {:induction false} IncreasingGrows(ts: seq<nat>, k: nat)
    requires Increasing(ts) && k < |ts|
    ensures ts[k] >= ts[0] + k
  {
    if k > 0 {
      IncreasingGrows(ts, k - 1);
    }
  }

  /** Thread `tid` was answered "none" after probing the tickets `mine`. */
  ghost predicate GaveUp(f: Fleet, start: nat, acts: seq<Action>, tid: nat, mine: seq<nat>)
    requires f.n > 0
  {
    Run(f, start, acts).Walker(tid) == Done(mine, None)
  }

  lemma GivingUpTakesAllProbes(f: Fleet, start: nat, acts: seq<Action>, tid: nat, mine: seq<nat>)
    requires f.n > 0 && GaveUp(f, start, acts, tid, mine)
    ensures |mine| == f.n && AllMiss(f, mine) && Own(Run(f, start, acts).ledger, tid, mine)
  {
    var s := Run(f, start, acts);
    InvAlways(f, start, acts);
    assert WalkerOk(f, s.ledger, s.probes, tid, s.Walker(tid));
  }

  /** Ticket `u` was for `slot`, and it went to another thread than `tid`. */
  ghost predicate TookInstead(l: Ledger, n: nat, tid: nat, slot: nat, u: nat)
    requires n > 0
  {
    u % n == slot && l.Owner(u) != Some(tid)
  }

  /**
   A caller is answered "none" beside a backend that stays healthy only if, between its
   first and its last ticket, another thread took a ticket of that very backend.
   */
  lemma FalseNoneNeedsRival(f: Fleet, start: nat, acts: seq<Action>, tid: nat, mine: seq<nat>, slot: nat)
    requires slot < f.n && GaveUp(f, start, acts, tid, mine)
    requires mine != [] ==> StaysHealthy(f, slot, mine[0], mine[|mine| - 1] + 1)
    ensures |mine| == f.n
    ensures exists u | mine[0] < u < mine[f.n - 1] :: TookInstead(Run(f, start, acts).ledger, f.n, tid, slot, u)
  {
    hide Run;
    GivingUpTakesAllProbes(f, start, acts, tid, mine);
    Modular.Meets(mine[0], slot, f.n);
    var u := mine[0] + Modular.Offset(mine[0], slot, f.n);
    IncreasingGrows(mine, f.n - 1);
    assert f.ok(u) && u !in mine;
    assert u != mine[0] && u != mine[f.n - 1];
    assert TookInstead(Run(f, start, acts).ledger, f.n, tid, slot, u);
  }

  /** Some ticket of `mine` probed `slot`. */
  ghost predicate MeetsSlot(f: Fleet, mine: seq<nat>, slot: nat)
    requires f.n > 0
  {
    exists i | 0 <= i < |mine| :: mine[i] % f.n == slot
  }

  ghost predicate MeetsAll(f: Fleet, mine: seq<nat>)
    requires f.n > 0
  {
    forall slot | 0 <= slot < f.n :: MeetsSlot(f, mine, slot)
  }

  /** The backends may have been as healthy as `h` says while the tickets `mine` were probed. */
  ghost predicate Explains(f: Fleet, mine: seq<nat>, h: seq<bool>)
    requires f.n > 0
  {
    |h| == f.n && forall i | 0 <= i < |mine| :: f.ok(mine[i]) == h[mine[i] % f.n]
  }

  ghost predicate AllDown(h: seq<bool>) {
    forall slot | 0 <= slot < |h| :: !h[slot]
  }

  /** Whatever fixed health explains what the walk found, all backends are down in it. */
  ghost predicate NoneIsRight(f: Fleet, mine: seq<nat>)
    requires f.n > 0
  {
    forall h | Explains(f, mine, h) :: AllDown(h)
  }

  /**
   In every interleaving, the answer "none" is right, whatever the health of the backends,
   iff the caller's own tickets met every slot.
   */
  lemma NoneIsRightIff(f: Fleet, start: nat, acts: seq<Action>, tid: nat, mine: seq<nat>)
    requires f.n > 0 && GaveUp(f, start, acts, tid, mine)
    ensures NoneIsRight(f, mine) <==> MeetsAll(f, mine)
  {
    GivingUpTakesAllProbes(f, start, acts, tid, mine);
    if MeetsAll(f, mine) {
      forall h, slot | Explains(f, mine, h) && 0 <= slot < f.n
        ensures !h[slot]
      {
        assert MeetsSlot(f, mine, slot);
      }
    } else {
      var slot :| 0 <= slot < f.n && !MeetsSlot(f, mine, slot);
      var h := seq(f.n, i => i == slot);
      assert Explains(f, mine, h) && h[slot];
    }
  }

  /** Some ticket of `mine` probed `slot` and found it unhealthy. */
  ghost predicate FoundDown(f: Fleet, mine: seq<nat>, slot: nat)
    requires f.n > 0
  {
    exists i | 0 <= i < |mine| :: mine[i] % f.n == slot && !f.ok(mine[i])
  }

  /** No other thread took a ticket between the first and the last of `mine`. */
  ghost predicate Undisturbed(l: Ledger, tid: nat, mine: seq<nat>) {
    mine != [] ==> forall u | mine[0] <= u <= mine[|mine| - 1] :: l.Owner(u) == Some(tid)
  }

  /** An undisturbed caller is told the truth: it has found every backend unhealthy. */
  lemma UndisturbedNoneIsTrue(f: Fleet, start: nat, acts: seq<Action>, tid: nat, mine: seq<nat>)
    requires f.n > 0 && GaveUp(f, start, acts, tid, mine)
    requires Undisturbed(Run(f, start, acts).ledger, tid, mine)
    ensures forall slot | 0 <= slot < f.n :: FoundDown(f, mine, slot)
    ensures NoneIsRight(f, mine)
  {
    GivingUpTakesAllProbes(f, start, acts, tid, mine);
    forall slot | 0 <= slot < f.n
      ensures FoundDown(f, mine, slot) && MeetsSlot(f, mine, slot)
    {
      WholeTurnMeets(f, Run(f, start, acts).ledger, tid, mine, slot);
    }
    NoneIsRightIff(f, start, acts, tid, mine);
  }

  lemma WholeTurnMeets(f: Fleet, l: Ledger, tid: nat, mine: seq<nat>, slot: nat)
    requires slot < f.n == |mine| && AllMiss(f, mine) && Own(l, tid, mine) && Undisturbed(l, tid, mine)
    ensures FoundDown(f, mine, slot)
  {
    Modular.Meets(mine[0], slot, f.n);
    var u := mine[0] + Modular.Offset(mine[0], slot, f.n);
    IncreasingGrows(mine, f.n - 1);
    assert u <= mine[f.n - 1] && l.Owner(u) == Some(tid);
    assert u in mine;
    var i :| 0 <= i < |mine| && mine[i] == u;
    assert mine[i] % f.n == slot;
  }

  lemma RunAppend(f: Fleet, start: nat, acts: seq<Action>, a: Action)
    requires f.n > 0
    ensures Run(f, start, acts + [a]) == Apply(f, Run(f, start, acts), a)
  {}

  /** Threads 0 and 1 take tickets 0 and 1 and probe them. */
  function FirstTurn(): seq<Action> {
    [Begin(0)] + [TakeTicket(0)] + [Begin(1)] + [TakeTicket(1)] + [ProbeSlot(0)] + [ProbeSlot(1)]
  }

  /** Thread 0 selects again and takes ticket 2, so that thread 1 is left with ticket 3. */
  function SecondTurn(): seq<Action> {
    FirstTurn() + [Begin(0)] + [TakeTicket(0)] + [TakeTicket(1)] + [ProbeSlot(1)] + [GiveUp(1)]
  }

  lemma AfterBothTook()
    ensures Run(Steady([true, false]), 0, [Begin(0)] + [TakeTicket(0)] + [Begin(1)] + [TakeTicket(1)])
         == System(Ledger(0, [0, 1]), map[0 := Holding([], 0), 1 := Holding([], 1)], [])
  {
    var f, a := Steady([true, false]), [Begin(0)];
    RunAppend(f, 0, [], Begin(0));
    assert [] + [Begin(0)] == a;
    RunAppend(f, 0, a, TakeTicket(0));
    RunAppend(f, 0, a + [TakeTicket(0)], Begin(1));
    RunAppend(f, 0, a + [TakeTicket(0)] + [Begin(1)], TakeTicket(1));
    assert Run(f, 0, a + [TakeTicket(0)]) == System(Ledger(0, [0]), map[0 := Holding([], 0)], []);
  }

  lemma AfterFirstTurn()
    ensures Run(Steady([true, false]), 0, FirstTurn())
         == System(Ledger(0, [0, 1]), map[0 := Done([0], Some(0)), 1 := Between([1])],
                   [Probe(0, true), Probe(1, false)])
  {
    hide Run;
    var f, a := Steady([true, false]), [Begin(0)] + [TakeTicket(0)] + [Begin(1)] + [TakeTicket(1)];
    AfterBothTook();
    RunAppend(f, 0, a, ProbeSlot(0));
    RunAppend(f, 0, a + [ProbeSlot(0)], ProbeSlot(1));
    assert f.ok(0) && !f.ok(1) && [] + [0] == [0] && [] + [1] == [1];
  }

  /** A false "none" does happen: two threads, two backends, the first of them healthy. */
  lemma FalseNoneHappens()
    ensures Run(Steady([true, false]), 0, SecondTurn()).Walker(1) == Done([1, 3], None)
  {
    hide Run;
    var f, a := Steady([true, false]), FirstTurn();
    AfterFirstTurn();
    RunAppend(f, 0, a, Begin(0));
    RunAppend(f, 0, a + [Begin(0)], TakeTicket(0));
    RunAppend(f, 0, a + [Begin(0)] + [TakeTicket(0)], TakeTicket(1));
    RunAppend(f, 0, a + [Begin(0)] + [TakeTicket(0)] + [TakeTicket(1)], ProbeSlot(1));
    RunAppend(f, 0, a + [Begin(0)] + [TakeTicket(0)] + [TakeTicket(1)] + [ProbeSlot(1)], GiveUp(1));
    assert [1] + [3] == [1, 3];
  }

  // ---------------------------------------------------------------------------------
  // An undisturbed walk is the sequential selection
  // ---------------------------------------------------------------------------------

  /** Thread `tid` takes and probes `m` tickets, or fewer if it is done before, with nothing in between. */
  function Solo(f: Fleet, s: System, tid: nat, m: nat): System
    requires f.n > 0
  {
    if m == 0 then Apply(f, s, Begin(tid))
    else Apply(f, Apply(f, Solo(f, s, tid, m - 1), TakeTicket(tid)), ProbeSlot(tid))
  }

  /** One undisturbed round of the loop: take the ticket at the cursor and probe it. */
  lemma TakeAndProbe(f: Fleet, s: System, tid: nat)
    requires f.n > 0 && s.Walker(tid).Between? && |s.Walker(tid).mine| < f.n
    ensures var (t, mine) := (s.ledger.Cursor(), s.Walker(tid).mine + [s.ledger.Cursor()]);
            var s' := Apply(f, Apply(f, s, TakeTicket(tid)), ProbeSlot(tid));
            && s'.Walker(tid) == (if f.ok(t) then Done(mine, Some(t % f.n)) else Between(mine))
            && s'.ledger.Cursor() == t + 1
            && forall other | other != tid :: s'.Walker(other) == s.Walker(other)
  {
    assert Apply(f, s, TakeTicket(tid)).Walker(tid) == Holding(s.Walker(tid).mine, s.ledger.Cursor());
  }

  lemma {:induction false} SoloMisses(f: Fleet, s: System, tid: nat, m: nat)
    requires f.n > 0 && m <= f.n && (s.Walker(tid).Idle? || s.Walker(tid).Done?)
    requires forall u | s.ledger.Cursor() <= u < s.ledger.Cursor() + m :: !f.ok(u)
    ensures var s' := Solo(f, s, tid, m);
            && s'.Walker(tid).Between? && |s'.Walker(tid).mine| == m
            && s'.ledger.Cursor() == s.ledger.Cursor() + m
  {
    if m > 0 {
      SoloMisses(f, s, tid, m - 1);
      TakeAndProbe(f, Solo(f, s, tid, m - 1), tid);
    }
  }

  /**
   Undisturbed, a walk returns the slot of the first hit and uses the tickets up to it, as
   the sequential selection does.
   */
  lemma SoloTakesFirstHit(f: Fleet, s: System, tid: nat, t: nat)
    requires f.n > 0 && (s.Walker(tid).Idle? || s.Walker(tid).Done?)
    requires s.ledger.Cursor() <= t < s.ledger.Cursor() + f.n && f.ok(t)
    requires forall u | s.ledger.Cursor() <= u < t :: !f.ok(u)
    ensures var s' := Solo(f, s, tid, t + 1 - s.ledger.Cursor());
            && s'.Walker(tid).Done? && s'.Walker(tid).result == Some(t % f.n)
            && s'.ledger.Cursor() == t + 1
  {
    hide Apply;
    SoloMisses(f, s, tid, t - s.ledger.Cursor());
    TakeAndProbe(f, Solo(f, s, tid, t - s.ledger.Cursor()), tid);
  }

  /** Undisturbed, a walk past `n` unhealthy slots gives up. */
  lemma SoloGivesUp(f: Fleet, s: System, tid: nat)
    requires f.n > 0 && (s.Walker(tid).Idle? || s.Walker(tid).Done?)
    requires forall u | s.ledger.Cursor() <= u < s.ledger.Cursor() + f.n :: !f.ok(u)
    ensures var w := Apply(f, Solo(f, s, tid, f.n), GiveUp(tid)).Walker(tid);
            w.Done? && w.result.None?
  {
    SoloMisses(f, s, tid, f.n);
  }

  lemma {:induction false} SoloIsOver(f: Fleet, s: System, tid: nat, m: nat, k: nat)
    requires f.n > 0 && Solo(f, s, tid, m).Walker(tid).Done?
    ensures m + k > 0 ==> Solo(f, s, tid, m + k) == Solo(f, s, tid, m)
    decreases k
  {
    if k > 0 {
      SoloIsOver(f, s, tid, m, k - 1);
    }
  }

  /** A whole walk with nothing in between: `n` rounds, or fewer, and giving up if none of them hit. */
  function WholeWalk(f: Fleet, s: System, tid: nat): System
    requires f.n > 0
  {
    Apply(f, Solo(f, s, tid, f.n), GiveUp(tid))
  }

  /**
   While health is fixed, an undisturbed walk from the pool's cursor answers as the
   sequential selection does and leaves the cursor where that leaves it.
   */
  lemma WholeWalkIsSelection(p: Pool, h: seq<bool>, lo: Word, hi: Word, clock: seq<Word>, s: System, tid: nat)
    requires p.Valid() && |clock| == |p.circuits| == |h| > 0 && NoSkip(|h|, p.cursor)
    requires FixedHealth(p.circuits, h, lo, hi) && Within(clock, lo, hi)
    requires s.ledger.Cursor() == p.cursor && (s.Walker(tid).Idle? || s.Walker(tid).Done?)
    ensures var (s', (pick, q)) := (WholeWalk(Steady(h), s, tid), Selected(p, RoundRobin, 0, clock));
            && s'.Walker(tid).Done? && s'.Walker(tid).result == pick
            && q.cursor == s'.ledger.Cursor() % WORD
  {
    var c, n := p.cursor, |h|;
    if Hits(h, c, 0) < Hits(h, c, n) {
      var t := NextHit(h, c, 0, n);
      SelectionTakesFirstHit(p, h, lo, hi, c, c, clock, t);
      hide Selected, Apply, Solo, WholeWalk;
      WholeWalkTakesFirstHit(h, s, tid, t);
      WrapIsRemainder(t + 1);
    } else {
      HitsMonotone(h, c, 0, n);
      SelectionFindsNothing(p, h, lo, hi, clock);
      hide Selected, Apply, Solo, WholeWalk;
      WholeWalkGivesUp(h, s, tid);
      WrapIsRemainder(c + n);
    }
  }

  lemma WholeWalkTakesFirstHit(h: seq<bool>, s: System, tid: nat, t: nat)
    requires h != [] && (s.Walker(tid).Idle? || s.Walker(tid).Done?)
    requires s.ledger.Cursor() <= t < s.ledger.Cursor() + |h| && Hit(h, t)
    requires forall u | s.ledger.Cursor() <= u < t :: !Hit(h, u)
    ensures var s' := WholeWalk(Steady(h), s, tid);
            && s'.Walker(tid).Done? && s'.Walker(tid).result == Some(t % |h|)
            && s'.ledger.Cursor() == t + 1
  {
    hide Apply, Solo;
    var f, m := Steady(h), t + 1 - s.ledger.Cursor();
    SoloTakesFirstHit(f, s, tid, t);
    SoloIsOver(f, s, tid, m, f.n - m);
    GiveUpAfterDone(f, Solo(f, s, tid, f.n), tid);
  }

  lemma WholeWalkGivesUp(h: seq<bool>, s: System, tid: nat)
    requires h != [] && (s.Walker(tid).Idle? || s.Walker(tid).Done?)
    requires forall u | s.ledger.Cursor() <= u < s.ledger.Cursor() + |h| :: !Hit(h, u)
    ensures var s' := WholeWalk(Steady(h), s, tid);
            && s'.Walker(tid).Done? && s'.Walker(tid).result == None
            && s'.ledger.Cursor() == s.ledger.Cursor() + |h|
  {
    hide Apply, Solo;
    var f := Steady(h);
    SoloMisses(f, s, tid, f.n);
    SoloGivesUp(f, s, tid);
    GiveUpKeepsLedger(f, Solo(f, s, tid, f.n), tid);
  }

  lemma GiveUpAfterDone(f: Fleet, s: System, tid: nat)
    requires f.n > 0 && s.Walker(tid).Done?
    ensures Apply(f, s, GiveUp(tid)) == s
  {}

  lemma GiveUpKeepsLedger(f: Fleet, s: System, tid: nat)
    requires f.n > 0
    ensures Apply(f, s, GiveUp(tid)).ledger == s.ledger
  {}

  // ---------------------------------------------------------------------------------
  // For which backends "none" can be wrong
  // ---------------------------------------------------------------------------------

  /** Thread 1 has probed `mine` without success, and thread 0 holds no ticket. */
  ghost predicate Poised(s: System, mine: seq<nat>) {
    s.Walker(1) == Between(mine) && !s.Walker(0).Holding?
  }

  /** Whatever it has done before, thread 0 can go on, or start over, and take a ticket next. */
  lemma ReadyToTake(f: Fleet, s: System, mine: seq<nat>)
    requires f.n > 0 && Poised(s, mine) && (s.Walker(0).Between? ==> |s.Walker(0).mine| <= f.n)
    ensures var s' := Apply(f, Apply(f, s, GiveUp(0)), Begin(0));
            && s'.Walker(0).Between? && |s'.Walker(0).mine| < f.n
            && s'.Walker(1) == Between(mine) && s'.ledger == s.ledger
  {}

  /** Thread 0 uses up one ticket. */
  lemma UseUpOne(f: Fleet, start: nat, acts: seq<Action>, mine: seq<nat>) returns (acts': seq<Action>)
    requires f.n > 0 && Poised(Run(f, start, acts), mine)
    ensures Poised(Run(f, start, acts'), mine)
    ensures Run(f, start, acts').ledger.Cursor() == Run(f, start, acts).ledger.Cursor() + 1
  {
    var s := Run(f, start, acts);
    InvAlways(f, start, acts);
    assert WalkerOk(f, s.ledger, s.probes, 0, s.Walker(0));
    hide Run, Apply;
    ReadyToTake(f, s, mine);
    TakeAndProbe(f, Apply(f, Apply(f, s, GiveUp(0)), Begin(0)), 0);
    RunAppend(f, start, acts, GiveUp(0));
    RunAppend(f, start, acts + [GiveUp(0)], Begin(0));
    RunAppend(f, start, acts + [GiveUp(0)] + [Begin(0)], TakeTicket(0));
    RunAppend(f, start, acts + [GiveUp(0)] + [Begin(0)] + [TakeTicket(0)], ProbeSlot(0));
    acts' := acts + [GiveUp(0)] + [Begin(0)] + [TakeTicket(0)] + [ProbeSlot(0)];
  }

  lemma {:induction false} UseUp(f: Fleet, start: nat, acts: seq<Action>, mine: seq<nat>, k: nat)
    returns (acts': seq<Action>)
    requires f.n > 0 && Poised(Run(f, start, acts), mine)
    ensures Poised(Run(f, start, acts'), mine)
    ensures Run(f, start, acts').ledger.Cursor() == Run(f, start, acts).ledger.Cursor() + k
    decreases k
  {
    acts' := acts;
    if k > 0 {
      acts' := UseUp(f, start, acts, mine, k - 1);
      acts' := UseUpOne(f, start, acts', mine);
    }
  }

  /** Thread 0 uses up tickets until the next one is for `slot`, and leaves that one to thread 1. */
  lemma MeetOnceMore(f: Fleet, start: nat, acts: seq<Action>, mine: seq<nat>, slot: nat)
    returns (acts': seq<Action>, t: nat)
    requires slot < f.n && |mine| < f.n && Poised(Run(f, start, acts), mine)
    requires forall u: nat | u % f.n == slot :: !f.ok(u)
    ensures Poised(Run(f, start, acts'), mine + [t])
  {
    hide Run, Apply;
    var c := Run(f, start, acts).ledger.Cursor();
    Modular.Meets(c, slot, f.n);
    acts' := UseUp(f, start, acts, mine, Modular.Offset(c, slot, f.n));
    t := Run(f, start, acts').ledger.Cursor();
    assert t % f.n == slot;
    TakeAndProbe(f, Run(f, start, acts'), 1);
    RunAppend(f, start, acts', TakeTicket(1));
    RunAppend(f, start, acts' + [TakeTicket(1)], ProbeSlot(1));
    acts' := acts' + [TakeTicket(1)] + [ProbeSlot(1)];
  }

  /** Thread 1 meets the same unhealthy slot `k` times. */
  lemma {:induction false} MeetDownSlot(f: Fleet, start: nat, slot: nat, k: nat)
    returns (acts: seq<Action>, mine: seq<nat>)
    requires slot < f.n && k <= f.n && forall u: nat | u % f.n == slot :: !f.ok(u)
    ensures Poised(Run(f, start, acts), mine) && |mine| == k
    decreases k
  {
    if k == 0 {
      RunAppend(f, start, [], Begin(1));
      acts, mine := [] + [Begin(1)], [];
    } else {
      acts, mine := MeetDownSlot(f, start, slot, k - 1);
      var t: nat;
      acts, t := MeetOnceMore(f, start, acts, mine, slot);
      mine := mine + [t];
    }
  }

  /** Two threads suffice to answer "none" if one backend stays unhealthy, whatever the others do. */
  lemma DownSlotMisleads(f: Fleet, start: nat, slot: nat) returns (acts: seq<Action>, mine: seq<nat>)
    requires slot < f.n && forall u: nat | u % f.n == slot :: !f.ok(u)
    ensures GaveUp(f, start, acts, 1, mine)
  {
    acts, mine := MeetDownSlot(f, start, slot, f.n);
    RunAppend(f, start, acts, GiveUp(1));
    acts := acts + [GiveUp(1)];
  }

  lemma GivingUpMeetsDownSlot(h: seq<bool>, start: nat, acts: seq<Action>, tid: nat, mine: seq<nat>)
    requires h != [] && GaveUp(Steady(h), start, acts, tid, mine)
    ensures exists slot | 0 <= slot < |h| :: !h[slot]
  {
    GivingUpTakesAllProbes(Steady(h), start, acts, tid, mine);
    assert !Steady(h).ok(mine[0]);
    assert !h[mine[0] % |h|];
  }

  /** In every interleaving from cursor `start`, "none" is answered only if all backends are down. */
  ghost predicate NoneMeansAllDown(h: seq<bool>, start: nat)
    requires h != []
  {
    forall acts, tid, mine | GaveUp(Steady(h), start, acts, tid, mine) :: AllDown(h)
  }

  /**
   While health does not change, the documented "none when all circuits are open" can be
   relied on under concurrency iff the backends are all down or all healthy.
   */
  lemma NoneMeansAllDownIff(h: seq<bool>, start: nat)
    requires h != []
    ensures NoneMeansAllDown(h, start) <==> AllDown(h) || forall slot | 0 <= slot < |h| :: h[slot]
  {
    if !AllDown(h) {
      if slot :| 0 <= slot < |h| && !h[slot] {
        var acts, mine := DownSlotMisleads(Steady(h), start, slot);
      }
      if !NoneMeansAllDown(h, start) {
        var acts, tid, mine :| GaveUp(Steady(h), start, acts, tid, mine);
        GivingUpMeetsDownSlot(h, start, acts, tid, mine);
      }
    }
  }
}
