/**
 The admission protocol of the two listeners (src/main.rs, serve_http and serve_https) over
 one shared security checker. An accept loop takes a permit of its own listener, checks the
 block list, and counts the connection, each as a step of its own; a connection's task ends
 by dropping first its per-IP guard and then its permit. All loops and tasks interleave.
 */
module Admission {
  import opened Prelude
  import opened Security

  datatype Listener = Http | Https

  /** What an accept loop has in hand. */
  datatype Loop =
    | Waiting
    | Permitted(ip: IpAddr)   // holds a permit, block list still to be checked
    | Passed(ip: IpAddr)      // found not blocked, still to be counted

  datatype Port = Port(free: nat, loop: Loop)

  datatype Stage =
    | Handshaking
    | Serving
    | Ending       // task over, both guards still held
    | Uncounted    // per-IP guard dropped, permit still held

  datatype Conn = Conn(listener: Listener, ip: IpAddr, stage: Stage)

  /** Without a TLS domain the HTTPS listener is not started. */
  datatype Config = Config(maxConns: Word, tls: bool, limits: Limits)

  /**
   `failures` counts all TLS failures ever recorded for an address, and `raced` holds the
   addresses that were blocked while the HTTPS loop had just found them not blocked.
   */
  datatype State = State(tables: Tables, http: Port, https: Port, live: map<nat, Conn>,
                         failures: map<IpAddr, nat>, raced: set<IpAddr>)
  {
    function Port(l: Listener): Port {
      match l case Http => http case Https => https
    }

    function SetPort(l: Listener, p: Port): State {
      match l case Http => this.(http := p) case Https => this.(https := p)
    }
  }

  datatype Action =
    | Accept(l: Listener, ip: IpAddr)
    | CheckBlocked(l: Listener)
    | CountConnection(l: Listener, id: nat)
    | HandshakeDone(id: nat)
    | HandshakeFailed(id: nat)
    | Finish(id: nat)
    | DropCount(id: nat)
    | DropPermit(id: nat)

  function Start(cfg: Config): State {
    State(Tables(map[], map[], {}), Port(cfg.maxConns, Waiting), Port(cfg.maxConns, Waiting), map[], map[], {})
  }

  function SetStage(s: State, id: nat, stage: Stage): State
    requires id in s.live
  {
    s.(live := s.live[id := s.live[id].(stage := stage)])
  }

  /** One atomic step; an action that is not enabled changes nothing. */
  function Apply(cfg: Config, s: State, a: Action): State {
    match a
    case Accept(l, ip) =>
      var p := s.Port(l);
      if p.loop.Waiting? && p.free > 0 && (l.Https? ==> cfg.tls) then s.SetPort(l, Port(p.free - 1, Permitted(ip)))
      else s
    case CheckBlocked(l) =>
      var p := s.Port(l);
      if !p.loop.Permitted? then s
      else if p.loop.ip in s.tables.blocked then s.SetPort(l, Port(p.free + 1, Waiting))
      else s.SetPort(l, Port(p.free, Passed(p.loop.ip)))
    case CountConnection(l, id) =>
      var p := s.Port(l);
      if !p.loop.Passed? || id in s.live then s
      else
        var (ok, tables) := Counted(cfg.limits, s.tables, p.loop.ip);
        var s' := s.(tables := tables);
        if !ok then s'.SetPort(l, Port(p.free + 1, Waiting))
        else
          var stage := if l.Https? then Handshaking else Serving;
          s'.(live := s.live[id := Conn(l, p.loop.ip, stage)]).SetPort(l, Port(p.free, Waiting))
    case HandshakeDone(id) =>
      if id in s.live && s.live[id].stage.Handshaking? then SetStage(s, id, Serving) else s
    case HandshakeFailed(id) =>
      if id in s.live && s.live[id].stage.Handshaking? then
        var ip := s.live[id].ip;
        var tables := TlsFailed(cfg.limits, s.tables, ip);
        SetStage(s, id, Ending).(
          tables := tables,
          failures := s.failures[ip := At(s.failures, ip) + 1],
          raced := if ip !in s.tables.blocked && s.https.loop == Passed(ip) then s.raced + {ip} else s.raced)
      else s
    case Finish(id) =>
      if id in s.live && s.live[id].stage.Serving? then SetStage(s, id, Ending) else s
    case DropCount(id) =>
      if id in s.live && s.live[id].stage.Ending? then
        SetStage(s, id, Uncounted).(tables := Released(s.tables, s.live[id].ip))
      else s
    case DropPermit(id) =>
      if id in s.live && s.live[id].stage.Uncounted? then
        var l := s.live[id].listener;
        s.(live := s.live - {id}).SetPort(l, Port(s.Port(l).free + 1, s.Port(l).loop))
      else s
  }

  function RunFrom(cfg: Config, s: State, acts: seq<Action>): State {
    if acts == [] then s else Apply(cfg, RunFrom(cfg, s, acts[..|acts| - 1]), acts[|acts| - 1])
  }

  function Run(cfg: Config, acts: seq<Action>): State {
    RunFrom(cfg, Start(cfg), acts)
  }

  /** What the count step does to an accept loop and to the live connections. */
  lemma CountStepEffect(cfg: Config, s: State, l: Listener, id: nat)
    requires s.Port(l).loop.Passed? && id !in s.live
    ensures var (p, counts, s') := (s.Port(l), s.tables.connections, Apply(cfg, s, CountConnection(l, id)));
            var (c, n) := (Conn(l, p.loop.ip, if l.Https? then Handshaking else Serving), At(counts, p.loop.ip));
            if n >= cfg.limits.maxPerIp then
              s' == s.(tables := s.tables.(connections := counts[p.loop.ip := n])).SetPort(l, Port(p.free + 1, Waiting))
            else
              s' == s.(tables := s.tables.(connections := counts[p.loop.ip := n + 1]), live := s.live[id := c])
                     .SetPort(l, Port(p.free, Waiting))
  {}

  /** With nothing in between, the two steps of a loop are the checker's one acquisition. */
  lemma CheckThenCountIsAcquire(cfg: Config, s: State, l: Listener, id: nat)
    requires s.Port(l).loop.Permitted? && id !in s.live
    ensures var ip := s.Port(l).loop.ip;
            var s' := Apply(cfg, Apply(cfg, s, CheckBlocked(l)), CountConnection(l, id));
            && s'.tables == Acquired(cfg.limits, s.tables, ip).1
            && (id in s'.live <==> Acquired(cfg.limits, s.tables, ip).0)
            && s'.Port(l) == Port(s.Port(l).free + One(id !in s'.live), Waiting)
  {
    var s1 := Apply(cfg, s, CheckBlocked(l));
    if s1.Port(l).loop.Passed? {
      CountStepEffect(cfg, s1, l, id);
    }
  }

  // ---------------------------------------------------------------------------------
  // Counting connections
  // ---------------------------------------------------------------------------------

  function Having(live: map<nat, Conn>, p: Conn -> bool): set<nat> {
    set id | id in live && p(live[id])
  }

  /** Connections of `ip` whose per-IP guard is held. */
  function HoldsCount(ip: IpAddr): Conn -> bool {
    (c: Conn) => c.ip == ip && !c.stage.Uncounted?
  }

  function OnListener(l: Listener): Conn -> bool {
    (c: Conn) => c.listener == l
  }

  function ShakingFrom(ip: IpAddr): Conn -> bool {
    (c: Conn) => c.ip == ip && c.stage.Handshaking?
  }

  function One(b: bool): nat {
    if b then 1 else 0
  }

  lemma HavingRemove(live: map<nat, Conn>, p: Conn -> bool, id: nat)
    ensures |Having(live - {id}, p)| == |Having(live, p)| - One(id in live && p(live[id]))
  {
    assert Having(live - {id}, p) == Having(live, p) - {id};
  }

  lemma HavingInsert(live: map<nat, Conn>, p: Conn -> bool, id: nat, c: Conn)
    requires id !in live
    ensures |Having(live[id := c], p)| == |Having(live, p)| + One(p(c))
  {
    assert Having(live[id := c], p) == if p(c) then Having(live, p) + {id} else Having(live, p);
  }

  lemma HavingUpdate(live: map<nat, Conn>, p: Conn -> bool, id: nat, c: Conn)
    ensures |Having(live[id := c], p)| == |Having(live, p)| - One(id in live && p(live[id])) + One(p(c))
  {
    HavingRemove(live, p, id);
    HavingInsert(live - {id}, p, id, c);
    assert (live - {id})[id := c] == live[id := c];
  }

  // ---------------------------------------------------------------------------------
  // Conservation
  // ---------------------------------------------------------------------------------

  ghost predicate CountsMatch(cfg: Config, counts: map<IpAddr, nat>, live: map<nat, Conn>, ip: IpAddr) {
    At(counts, ip) == |Having(live, HoldsCount(ip))| <= cfg.limits.maxPerIp
  }

  ghost predicate PermitsMatch(cfg: Config, s: State, l: Listener) {
    s.Port(l).free + One(!s.Port(l).loop.Waiting?) + |Having(s.live, OnListener(l))| == cfg.maxConns
  }

  ghost predicate Conserved(cfg: Config, s: State) {
    && (forall ip :: CountsMatch(cfg, s.tables.connections, s.live, ip))
    && PermitsMatch(cfg, s, Http) && PermitsMatch(cfg, s, Https)
  }

  lemma StageKeepsCounts(cfg: Config, s: State, id: nat, stage: Stage)
    requires Conserved(cfg, s) && id in s.live
    requires !s.live[id].stage.Uncounted? && !stage.Uncounted?
    ensures Conserved(cfg, SetStage(s, id, stage))
  {
    var s', c := SetStage(s, id, stage), s.live[id].(stage := stage);
    forall ip
      ensures CountsMatch(cfg, s'.tables.connections, s'.live, ip)
    {
      assert CountsMatch(cfg, s.tables.connections, s.live, ip);
      HavingUpdate(s.live, HoldsCount(ip), id, c);
    }
    HavingUpdate(s.live, OnListener(Http), id, c);
    HavingUpdate(s.live, OnListener(Https), id, c);
  }

  /** A newly counted connection keeps all counts. */
  lemma NewConnKeepsCounts(cfg: Config, counts: map<IpAddr, nat>, live: map<nat, Conn>, id: nat, c: Conn, ip: IpAddr)
    requires CountsMatch(cfg, counts, live, ip) && id !in live && !c.stage.Uncounted?
    requires At(counts, c.ip) < cfg.limits.maxPerIp
    ensures CountsMatch(cfg, counts[c.ip := At(counts, c.ip) + 1], live[id := c], ip)
  {
    HavingInsert(live, HoldsCount(ip), id, c);
  }

  lemma CountStepConserves(cfg: Config, s: State, l: Listener, id: nat)
    requires Conserved(cfg, s)
    ensures Conserved(cfg, Apply(cfg, s, CountConnection(l, id)))
  {
    var s', p, counts := Apply(cfg, s, CountConnection(l, id)), s.Port(l), s.tables.connections;
    if p.loop.Passed? && id !in s.live {
      CountStepEffect(cfg, s, l, id);
      hide Apply, HoldsCount;
      var c := Conn(l, p.loop.ip, if l.Https? then Handshaking else Serving);
      forall ip
        ensures CountsMatch(cfg, s'.tables.connections, s'.live, ip)
      {
        assert CountsMatch(cfg, counts, s.live, ip);
        if At(counts, c.ip) < cfg.limits.maxPerIp {
          NewConnKeepsCounts(cfg, counts, s.live, id, c, ip);
        }
      }
      HavingInsert(s.live, OnListener(Http), id, c);
      HavingInsert(s.live, OnListener(Https), id, c);
    }
  }

  lemma DropCountConserves(cfg: Config, s: State, id: nat)
    requires Conserved(cfg, s)
    ensures Conserved(cfg, Apply(cfg, s, DropCount(id)))
    ensures id in s.live && s.live[id].stage.Ending? ==> At(s.tables.connections, s.live[id].ip) > 0
  {
    if id in s.live && s.live[id].stage.Ending? {
      var s', c, own := Apply(cfg, s, DropCount(id)), s.live[id].(stage := Uncounted), s.live[id].ip;
      assert CountsMatch(cfg, s.tables.connections, s.live, own);
      assert id in Having(s.live, HoldsCount(own));
      forall ip
        ensures CountsMatch(cfg, s'.tables.connections, s'.live, ip)
      {
        assert CountsMatch(cfg, s.tables.connections, s.live, ip);
        HavingUpdate(s.live, HoldsCount(ip), id, c);
      }
      HavingUpdate(s.live, OnListener(Http), id, c);
      HavingUpdate(s.live, OnListener(Https), id, c);
    }
  }

  lemma DropPermitConserves(cfg: Config, s: State, id: nat)
    requires Conserved(cfg, s)
    ensures Conserved(cfg, Apply(cfg, s, DropPermit(id)))
  {
    if id in s.live && s.live[id].stage.Uncounted? {
      var s' := Apply(cfg, s, DropPermit(id));
      forall ip
        ensures CountsMatch(cfg, s'.tables.connections, s'.live, ip)
      {
        assert CountsMatch(cfg, s.tables.connections, s.live, ip);
        HavingRemove(s.live, HoldsCount(ip), id);
      }
      HavingRemove(s.live, OnListener(Http), id);
      HavingRemove(s.live, OnListener(Https), id);
    }
  }

  lemma StepConserves(cfg: Config, s: State, a: Action)
    requires Conserved(cfg, s)
    ensures Conserved(cfg, Apply(cfg, s, a))
  {
    match a
    case Accept(l, ip) =>
    case CheckBlocked(l) =>
    case CountConnection(l, id) => CountStepConserves(cfg, s, l, id);
    case HandshakeDone(id) =>
      if id in s.live && s.live[id].stage.Handshaking? { StageKeepsCounts(cfg, s, id, Serving); }
    case HandshakeFailed(id) =>
      if id in s.live && s.live[id].stage.Handshaking? {
        StageKeepsCounts(cfg, s, id, Ending);
        assert TlsFailed(cfg.limits, s.tables, s.live[id].ip).connections == s.tables.connections;
      }
    case Finish(id) =>
      if id in s.live && s.live[id].stage.Serving? { StageKeepsCounts(cfg, s, id, Ending); }
    case DropCount(id) => DropCountConserves(cfg, s, id);
    case DropPermit(id) => DropPermitConserves(cfg, s, id);
  }

  /**
   In every reachable state each per-IP count is the number of guards held for that
   address over both listeners and within its cap, and each listener's permits are all
   accounted for: free, in the accept loop's hand, or with a live connection.
   */
  lemma {:induction false} AlwaysConserved(cfg: Config, acts: seq<Action>)
    ensures Conserved(cfg, Run(cfg, acts))
  {
    if acts == [] {
      forall ip
        ensures CountsMatch(cfg, Start(cfg).tables.connections, Start(cfg).live, ip)
      {
        assert Having(map[], HoldsCount(ip)) == {};
      }
      assert Having(map[], OnListener(Http)) == {} && Having(map[], OnListener(Https)) == {};
    } else {
      AlwaysConserved(cfg, acts[..|acts| - 1]);
      StepConserves(cfg, Run(cfg, acts[..|acts| - 1]), acts[|acts| - 1]);
    }
  }

  lemma LiveSplits(live: map<nat, Conn>)
    ensures |live| == |Having(live, OnListener(Http))| + |Having(live, OnListener(Https))|
  {
    var http, https := Having(live, OnListener(Http)), Having(live, OnListener(Https));
    assert live.Keys == http + https && http !! https;
    assert |live| == |live.Keys| == |http| + |https|;
  }

  /** No run holds more connections than two listeners' permits, and each address stays within its cap. */
  lemma TotalIsBounded(cfg: Config, acts: seq<Action>, ip: IpAddr)
    ensures |Run(cfg, acts).live| <= 2 * cfg.maxConns
    ensures |Having(Run(cfg, acts).live, HoldsCount(ip))| <= cfg.limits.maxPerIp
  {
    var s := Run(cfg, acts);
    AlwaysConserved(cfg, acts);
    assert CountsMatch(cfg, s.tables.connections, s.live, ip);
    assert PermitsMatch(cfg, s, Http) && PermitsMatch(cfg, s, Https);
    LiveSplits(s.live);
  }

  lemma RunAppend(cfg: Config, acts: seq<Action>, a: Action)
    ensures Run(cfg, acts + [a]) == Apply(cfg, Run(cfg, acts), a)
  {}

  /** An accept loop takes a connection from `ip` and finds it not blocked. */
  function LetIn(l: Listener, ip: IpAddr): seq<Action> {
    [Accept(l, ip)] + [CheckBlocked(l)]
  }

  lemma RunLetIn(cfg: Config, acts: seq<Action>, l: Listener, ip: IpAddr)
    requires var s := Run(cfg, acts);
             s.Port(l).loop.Waiting? && s.Port(l).free > 0 && (l.Https? ==> cfg.tls) && ip !in s.tables.blocked
    ensures var s := Run(cfg, acts);
            Run(cfg, acts + LetIn(l, ip)) == s.SetPort(l, Port(s.Port(l).free - 1, Passed(ip)))
  {
    hide Run;
    RunAppend(cfg, acts, Accept(l, ip));
    RunAppend(cfg, acts + [Accept(l, ip)], CheckBlocked(l));
    assert acts + [Accept(l, ip)] + [CheckBlocked(l)] == acts + LetIn(l, ip);
  }

  /** It is then counted too and becomes connection `id`. */
  lemma RunAdmit(cfg: Config, acts: seq<Action>, l: Listener, ip: IpAddr, id: nat) returns (acts': seq<Action>)
    requires var s := Run(cfg, acts);
             && s.Port(l).loop.Waiting? && s.Port(l).free > 0 && (l.Https? ==> cfg.tls)
             && ip !in s.tables.blocked && id !in s.live && At(s.tables.connections, ip) < cfg.limits.maxPerIp
    ensures var (s, s') := (Run(cfg, acts), Run(cfg, acts'));
            var counts := s.tables.connections;
            s' == s.(tables := s.tables.(connections := counts[ip := At(counts, ip) + 1]),
                     live := s.live[id := Conn(l, ip, if l.Https? then Handshaking else Serving)])
                   .SetPort(l, Port(s.Port(l).free - 1, Waiting))
  {
    hide Run;
    RunLetIn(cfg, acts, l, ip);
    acts' := acts + LetIn(l, ip);
    RunAppend(cfg, acts', CountConnection(l, id));
    CountStepEffect(cfg, Run(cfg, acts'), l, id);
    acts' := acts' + [CountConnection(l, id)];
  }

  /** `s'` differs from `s` at most in an entry of the connection map that holds what an absent one means. */
  ghost predicate SameAgain(s: State, s': State) {
    && (forall ip :: At(s'.tables.connections, ip) == At(s.tables.connections, ip))
    && s'.tables.tlsFailures == s.tables.tlsFailures && s'.tables.blocked == s.tables.blocked
    && s'.http == s.http && s'.https == s.https && s'.live == s.live
    && s'.failures == s.failures && s'.raced == s.raced
  }

  /** A served connection's end: its task is over, then its guard drops, then its permit. */
  lemma RunEnd(cfg: Config, acts: seq<Action>, id: nat) returns (acts': seq<Action>)
    requires id in Run(cfg, acts).live && Run(cfg, acts).live[id].stage.Serving?
    requires At(Run(cfg, acts).tables.connections, Run(cfg, acts).live[id].ip) > 0
    ensures var (s, s') := (Run(cfg, acts), Run(cfg, acts'));
            var (l, ip) := (s.live[id].listener, s.live[id].ip);
            var counts := s.tables.connections;
            s' == s.(tables := s.tables.(connections := counts[ip := At(counts, ip) - 1]), live := s.live - {id})
                   .SetPort(l, Port(s.Port(l).free + 1, s.Port(l).loop))
  {
    hide Run;
    var s := Run(cfg, acts);
    RunAppend(cfg, acts, Finish(id));
    RunAppend(cfg, acts + [Finish(id)], DropCount(id));
    RunAppend(cfg, acts + [Finish(id)] + [DropCount(id)], DropPermit(id));
    acts' := acts + [Finish(id)] + [DropCount(id)] + [DropPermit(id)];
    assert Run(cfg, acts').live == s.live - {id};
  }

  /** Every admission can be undone: once the connection has been served and has ended, all is as before. */
  lemma ServedConnectionLeavesNoTrace(cfg: Config, acts: seq<Action>, l: Listener, ip: IpAddr, id: nat)
    returns (acts': seq<Action>)
    requires var s := Run(cfg, acts);
             && s.Port(l).loop.Waiting? && s.Port(l).free > 0 && (l.Https? ==> cfg.tls)
             && ip !in s.tables.blocked && id !in s.live && At(s.tables.connections, ip) < cfg.limits.maxPerIp
    ensures SameAgain(Run(cfg, acts), Run(cfg, acts'))
  {
    hide Run;
    acts' := RunAdmit(cfg, acts, l, ip, id);
    if l.Https? {
      RunAppend(cfg, acts', HandshakeDone(id));
      acts' := acts' + [HandshakeDone(id)];
    }
    var served := Run(cfg, acts');
    assert served.live[id] == Conn(l, ip, Serving) && served.live - {id} == Run(cfg, acts).live;
    hide Apply;
    acts' := RunEnd(cfg, acts', id);
  }

  /** A client address of its own for the `i`-th connection. */
  function FreshAddress(i: nat): IpAddr
    requires i < 2 * WORD
  {
    V6(i, 0, 0, 0, 0)
  }

  /** `a` plain and `b` TLS connections are live, each from an address of its own, and nothing else is going on. */
  ghost predicate Filled(cfg: Config, s: State, a: nat, b: nat) {
    && a <= cfg.maxConns && b <= cfg.maxConns
    && s.http == Port(cfg.maxConns - a, Waiting) && s.https == Port(cfg.maxConns - b, Waiting)
    && |s.live| == a + b && (forall id | id in s.live :: id < a + b)
    && s.tables.blocked == {}
    && forall i | a + b <= i < 2 * WORD :: At(s.tables.connections, FreshAddress(i)) == 0
  }

  lemma FillOne(cfg: Config, acts: seq<Action>, l: Listener, a: nat, b: nat) returns (acts': seq<Action>)
    requires cfg.tls && cfg.limits.maxPerIp >= 1 && Filled(cfg, Run(cfg, acts), a, b)
    requires if l.Http? then a < cfg.maxConns else b < cfg.maxConns
    ensures Filled(cfg, Run(cfg, acts'), if l.Http? then a + 1 else a, if l.Http? then b else b + 1)
  {
    hide Run, Apply;
    acts' := RunAdmit(cfg, acts, l, FreshAddress(a + b), a + b);
  }

  lemma {:induction false} FillUp(cfg: Config, a: nat, b: nat) returns (acts: seq<Action>)
    requires cfg.tls && cfg.limits.maxPerIp >= 1 && a <= cfg.maxConns && b <= cfg.maxConns
    ensures Filled(cfg, Run(cfg, acts), a, b)
    decreases a + b
  {
    if a > 0 {
      acts := FillUp(cfg, a - 1, b);
      acts := FillOne(cfg, acts, Http, a - 1, b);
    } else if b > 0 {
      acts := FillUp(cfg, a, b - 1);
      acts := FillOne(cfg, acts, Https, a, b - 1);
    } else {
      acts := [];
    }
  }

  /** With a TLS domain, twice `max_connections` connections are live in some run. */
  lemma TwiceIsReached(cfg: Config) returns (acts: seq<Action>)
    requires cfg.tls && cfg.limits.maxPerIp >= 1
    ensures |Run(cfg, acts).live| == 2 * cfg.maxConns
  {
    acts := FillUp(cfg, cfg.maxConns, cfg.maxConns);
  }

  lemma {:induction false} NobodyIsAdmitted(cfg: Config, acts: seq<Action>)
    requires cfg.limits.maxPerIp == 0
    ensures Run(cfg, acts).live == map[]
  {
    if acts != [] {
      NobodyIsAdmitted(cfg, acts[..|acts| - 1]);
    }
  }

  lemma {:induction false} NothingOverTls(cfg: Config, acts: seq<Action>)
    requires !cfg.tls
    ensures var s := Run(cfg, acts);
            s.https == Port(cfg.maxConns, Waiting) && forall id | id in s.live :: s.live[id].listener.Http?
  {
    if acts != [] {
      NothingOverTls(cfg, acts[..|acts| - 1]);
    }
  }

  lemma OneListenerIsBounded(cfg: Config, acts: seq<Action>)
    requires !cfg.tls
    ensures |Run(cfg, acts).live| <= cfg.maxConns
  {
    var s := Run(cfg, acts);
    AlwaysConserved(cfg, acts);
    NothingOverTls(cfg, acts);
    LiveSplits(s.live);
    assert PermitsMatch(cfg, s, Http);
    assert Having(s.live, OnListener(Https)) == {};
  }

  /**
   The documented cap, `max_connections` over all clients, holds in every run iff only one
   listener runs, or the configuration admits no connection at all.
   */
  lemma DocumentedCapHoldsIff(cfg: Config)
    ensures (forall acts :: |Run(cfg, acts).live| <= cfg.maxConns)
       <==> !cfg.tls || cfg.maxConns == 0 || cfg.limits.maxPerIp == 0
  {
    if cfg.tls && cfg.maxConns > 0 && cfg.limits.maxPerIp > 0 {
      var acts := TwiceIsReached(cfg);
    } else {
      forall acts
        ensures |Run(cfg, acts).live| <= cfg.maxConns
      {
        if !cfg.tls {
          OneListenerIsBounded(cfg, acts);
        } else if cfg.maxConns == 0 {
          TotalIsBounded(cfg, acts, FreshAddress(0));
        } else {
          NobodyIsAdmitted(cfg, acts);
        }
      }
    }
  }

  /** Dropping a guard always finds a positive count: the zero branch of release is never taken. */
  lemma ReleaseAlwaysCounts(cfg: Config, acts: seq<Action>, id: nat)
    requires id in Run(cfg, acts).live && Run(cfg, acts).live[id].stage.Ending?
    ensures var (s, s') := (Run(cfg, acts), Apply(cfg, Run(cfg, acts), DropCount(id)));
            var ip := s.live[id].ip;
            At(s'.tables.connections, ip) == At(s.tables.connections, ip) - 1
  {
    AlwaysConserved(cfg, acts);
    DropCountConserves(cfg, Run(cfg, acts), id);
  }

  // ---------------------------------------------------------------------------------
  // TLS failures
  // ---------------------------------------------------------------------------------

  function Threshold(cfg: Config): nat {
    if cfg.limits.maxTlsFailures == 0 then 1 else cfg.limits.maxTlsFailures
  }

  /** Failures recorded so far plus those still possible from handshakes under way or just let through. */
  function Exposure(s: State, ip: IpAddr): nat {
    At(s.failures, ip) + |Having(s.live, ShakingFrom(ip))| + One(s.https.loop == Passed(ip))
  }

  ghost predicate Guarded(cfg: Config, s: State, ip: IpAddr) {
    && At(s.tables.tlsFailures, ip) == At(s.failures, ip) % U32
    && (ip in s.tables.blocked <==> At(s.failures, ip) >= Threshold(cfg))
    && (ip in s.tables.blocked ==>
          && Exposure(s, ip) <= Threshold(cfg) + cfg.limits.maxPerIp - One(ip !in s.raced)
          && Exposure(s, ip) <= Threshold(cfg) + cfg.maxConns - 1)
  }

  /** The failing connection still holds its count, so at most the others of its address are shaking hands. */
  lemma OthersShaking(cfg: Config, s: State, id: nat)
    requires Conserved(cfg, s) && id in s.live && s.live[id].stage.Handshaking?
    ensures |Having(s.live, ShakingFrom(s.live[id].ip))| <= cfg.limits.maxPerIp
  {
    var ip := s.live[id].ip;
    assert CountsMatch(cfg, s.tables.connections, s.live, ip);
    var shaking, held := Having(s.live, ShakingFrom(ip)), Having(s.live, HoldsCount(ip));
    assert shaking <= held;
    SubsetSize(shaking, held);
  }

  lemma {:induction false} SubsetSize(a: set<nat>, b: set<nat>)
    requires a <= b
    ensures |a| <= |b|
  {
    if a != {} {
      var x :| x in a;
      SubsetSize(a - {x}, b - {x});
    }
  }

  ghost predicate OnlyTlsShakes(s: State) {
    forall id | id in s.live && s.live[id].stage.Handshaking? :: s.live[id].listener.Https?
  }

  lemma {:induction false} OnlyTlsEverShakes(cfg: Config, acts: seq<Action>)
    ensures OnlyTlsShakes(Run(cfg, acts))
  {
    if acts != [] {
      OnlyTlsEverShakes(cfg, acts[..|acts| - 1]);
    }
  }

  /** Handshakes, and a connection about to be counted, hold permits of the HTTPS listener. */
  lemma ShakingHoldsPermits(cfg: Config, s: State, ip: IpAddr)
    requires Conserved(cfg, s) && OnlyTlsShakes(s)
    ensures |Having(s.live, ShakingFrom(ip))| + One(s.https.loop == Passed(ip)) <= cfg.maxConns
  {
    assert PermitsMatch(cfg, s, Https);
    SubsetSize(Having(s.live, ShakingFrom(ip)), Having(s.live, OnListener(Https)));
  }

  /** What a failing handshake does. */
  lemma FailureEffect(cfg: Config, s: State, id: nat)
    requires cfg.limits.blockAbusers && id in s.live && s.live[id].stage.Handshaking?
    ensures var (ip, s') := (s.live[id].ip, Apply(cfg, s, HandshakeFailed(id)));
            var count := (At(s.tables.tlsFailures, ip) + 1) % U32;
            && s'.live == s.live[id := s.live[id].(stage := Ending)] && (s'.http, s'.https) == (s.http, s.https)
            && s'.failures == s.failures[ip := At(s.failures, ip) + 1]
            && s'.tables.connections == s.tables.connections
            && s'.tables.tlsFailures == s.tables.tlsFailures[ip := count]
            && s'.tables.blocked == (if count >= cfg.limits.maxTlsFailures then s.tables.blocked + {ip}
                                     else s.tables.blocked)
            && s'.raced == (if ip !in s.tables.blocked && s.https.loop == Passed(ip) then s.raced + {ip}
                            else s.raced)
  {}

  lemma OwnFailureGuards(cfg: Config, s: State, id: nat)
    requires cfg.limits.blockAbusers && Conserved(cfg, s) && OnlyTlsShakes(s)
    requires id in s.live && s.live[id].stage.Handshaking? && Guarded(cfg, s, s.live[id].ip)
    ensures Guarded(cfg, Apply(cfg, s, HandshakeFailed(id)), s.live[id].ip)
  {
    var ip := s.live[id].ip;
    FailureEffect(cfg, s, id);
    HavingUpdate(s.live, ShakingFrom(ip), id, s.live[id].(stage := Ending));
    OthersShaking(cfg, s, id);
    ShakingHoldsPermits(cfg, s, ip);
    FailureCounts(At(s.failures, ip), cfg.limits.maxTlsFailures);
    hide Apply, Conserved, OnlyTlsShakes, Having;
  }

  lemma FailureGuards(cfg: Config, s: State, id: nat, ip: IpAddr)
    requires cfg.limits.blockAbusers && Conserved(cfg, s) && OnlyTlsShakes(s) && Guarded(cfg, s, ip)
    ensures Guarded(cfg, Apply(cfg, s, HandshakeFailed(id)), ip)
  {
    if id in s.live && s.live[id].stage.Handshaking? {
      if s.live[id].ip == ip {
        OwnFailureGuards(cfg, s, id);
      } else {
        FailureEffect(cfg, s, id);
        HavingUpdate(s.live, ShakingFrom(ip), id, s.live[id].(stage := Ending));
        hide Apply, Conserved, OnlyTlsShakes, Having;
      }
    }
  }

  lemma FailureCounts(total: nat, max: nat)
    requires max < U32
    ensures (total % U32 + 1) % U32 == (total + 1) % U32
    ensures total + 1 <= (if max == 0 then 1 else max) ==>
              ((total + 1) % U32 >= max <==> total + 1 >= if max == 0 then 1 else max)
  {}

  lemma CountGuards(cfg: Config, s: State, l: Listener, id: nat, ip: IpAddr)
    requires Guarded(cfg, s, ip)
    ensures Guarded(cfg, Apply(cfg, s, CountConnection(l, id)), ip)
  {
    var p := s.Port(l);
    if p.loop.Passed? && id !in s.live {
      CountStepEffect(cfg, s, l, id);
      HavingInsert(s.live, ShakingFrom(ip), id, Conn(l, p.loop.ip, if l.Https? then Handshaking else Serving));
      hide Apply;
    }
  }

  /** A step after which no more connections are shaking hands than before, and which records nothing. */
  lemma StageGuards(cfg: Config, s: State, s': State, ip: IpAddr)
    requires Guarded(cfg, s, ip)
    requires forall id | id in s'.live && s'.live[id].stage.Handshaking? :: id in s.live && s.live[id] == s'.live[id]
    requires s'.tables.tlsFailures == s.tables.tlsFailures && s'.tables.blocked == s.tables.blocked
    requires (s'.failures, s'.raced, s'.https.loop) == (s.failures, s.raced, s.https.loop)
    ensures Guarded(cfg, s', ip)
  {
    SubsetSize(Having(s'.live, ShakingFrom(ip)), Having(s.live, ShakingFrom(ip)));
  }

  lemma PassageGuards(cfg: Config, s: State, l: Listener, ip: IpAddr, other: IpAddr)
    requires Guarded(cfg, s, other)
    ensures Guarded(cfg, Apply(cfg, s, Accept(l, ip)), other)
    ensures Guarded(cfg, Apply(cfg, s, CheckBlocked(l)), other)
  {}

  lemma StepGuards(cfg: Config, s: State, a: Action, ip: IpAddr)
    requires cfg.limits.blockAbusers && Conserved(cfg, s) && OnlyTlsShakes(s) && Guarded(cfg, s, ip)
    ensures Guarded(cfg, Apply(cfg, s, a), ip)
  {
    match a
    case Accept(l, from) => PassageGuards(cfg, s, l, from, ip);
    case CheckBlocked(l) => PassageGuards(cfg, s, l, ip, ip);
    case CountConnection(l, id) => CountGuards(cfg, s, l, id, ip);
    case HandshakeFailed(id) => FailureGuards(cfg, s, id, ip);
    case _ => StageGuards(cfg, s, Apply(cfg, s, a), ip);
  }

  lemma {:induction false} AlwaysGuarded(cfg: Config, acts: seq<Action>, ip: IpAddr)
    requires cfg.limits.blockAbusers
    ensures Guarded(cfg, Run(cfg, acts), ip)
  {
    if acts == [] {
      assert Having(map[], ShakingFrom(ip)) == {};
    } else {
      AlwaysGuarded(cfg, acts[..|acts| - 1], ip);
      AlwaysConserved(cfg, acts[..|acts| - 1]);
      OnlyTlsEverShakes(cfg, acts[..|acts| - 1]);
      StepGuards(cfg, Run(cfg, acts[..|acts| - 1]), acts[|acts| - 1], ip);
    }
  }

  lemma {:induction false} NothingCountedWhenOff(cfg: Config, acts: seq<Action>)
    requires !cfg.limits.blockAbusers
    ensures var t := Run(cfg, acts).tables; t.blocked == {} && t.tlsFailures == map[]
  {
    if acts != [] {
      NothingCountedWhenOff(cfg, acts[..|acts| - 1]);
    }
  }

  /**
   An address is blocked exactly when blocking is on and its failures have reached the
   limit (one, if the limit is configured as zero); with blocking off nothing is counted.
   With it on, failures exceed the limit at most by the per-IP cap, and by the listener's
   permits less one; they stay below the limit plus the cap unless the HTTPS loop had
   passed the address just before it was blocked.
   */
  lemma TlsFailuresAreBounded(cfg: Config, acts: seq<Action>, ip: IpAddr)
    ensures var (s, on) := (Run(cfg, acts), cfg.limits.blockAbusers);
            var limit := if cfg.limits.maxTlsFailures == 0 then 1 else cfg.limits.maxTlsFailures;
            && (ip in s.tables.blocked <==> on && At(s.failures, ip) >= limit)
            && At(s.tables.tlsFailures, ip) == (if on then At(s.failures, ip) % 4294967296 else 0)
            && (on ==> At(s.failures, ip) <= limit + Min(cfg.limits.maxPerIp, cfg.maxConns - 1))
            && (on && ip !in s.raced ==> At(s.failures, ip) + 1 <= limit + cfg.limits.maxPerIp)
  {
    if cfg.limits.blockAbusers {
      AlwaysGuarded(cfg, acts, ip);
    } else {
      NothingCountedWhenOff(cfg, acts);
    }
  }

  /** An address is marked as raced only when a failure blocks it while the HTTPS loop has just passed it. */
  lemma RacedMeansPassed(cfg: Config, s: State, a: Action, ip: IpAddr)
    requires ip in Apply(cfg, s, a).raced && ip !in s.raced
    ensures a.HandshakeFailed? && s.https.loop == Passed(ip) && ip !in s.tables.blocked
  {}

  /** A connection that holds a permit is refused iff its address is blocked or at its cap. */
  lemma AdmittedIffBelowCap(cfg: Config, s: State, l: Listener, id: nat)
    requires s.Port(l).loop.Permitted? && id !in s.live
    ensures var ip := s.Port(l).loop.ip;
            var s' := Apply(cfg, Apply(cfg, s, CheckBlocked(l)), CountConnection(l, id));
            id in s'.live <==> ip !in s.tables.blocked && At(s.tables.connections, ip) < cfg.limits.maxPerIp
  {}

  /** So with blocking off it is refused only at the cap, in every run. */
  lemma OffAdmitsBelowCap(cfg: Config, acts: seq<Action>, l: Listener, id: nat)
    requires !cfg.limits.blockAbusers
    requires Run(cfg, acts).Port(l).loop.Permitted? && id !in Run(cfg, acts).live
    ensures var s := Run(cfg, acts);
            var s' := Apply(cfg, Apply(cfg, s, CheckBlocked(l)), CountConnection(l, id));
            id in s'.live <==> At(s.tables.connections, s.Port(l).loop.ip) < cfg.limits.maxPerIp
  {
    NothingCountedWhenOff(cfg, acts);
    AdmittedIffBelowCap(cfg, Run(cfg, acts), l, id);
  }

  /** `ip` is blocked, and no loop that found it not blocked before has still to count it. */
  ghost predicate ShutOut(s: State, ip: IpAddr) {
    ip in s.tables.blocked && s.http.loop != Passed(ip) && s.https.loop != Passed(ip)
  }

  ghost predicate NoneNew(s: State, s': State, ip: IpAddr) {
    forall id | id in s'.live && s'.live[id].ip == ip :: id in s.live && s.live[id].ip == ip
  }

  lemma CountKeepsOut(cfg: Config, s: State, l: Listener, id: nat, ip: IpAddr)
    requires ShutOut(s, ip)
    ensures var s' := Apply(cfg, s, CountConnection(l, id)); ShutOut(s', ip) && NoneNew(s, s', ip)
  {
    if s.Port(l).loop.Passed? && id !in s.live {
      CountStepEffect(cfg, s, l, id);
      hide Apply;
    }
  }

  /** Blocking is permanent, and a blocked address that no loop has let through yet gets no new connection. */
  lemma BlockedStaysOut(cfg: Config, s: State, a: Action, ip: IpAddr)
    requires ShutOut(s, ip)
    ensures var s' := Apply(cfg, s, a); ShutOut(s', ip) && NoneNew(s, s', ip)
  {
    match a
    case CountConnection(l, id) => CountKeepsOut(cfg, s, l, id, ip);
    case _ =>
  }

  lemma {:induction false} BlockedForEver(cfg: Config, s: State, acts: seq<Action>, ip: IpAddr)
    requires ShutOut(s, ip)
    ensures var s' := RunFrom(cfg, s, acts); ShutOut(s', ip) && NoneNew(s, s', ip)
  {
    if acts != [] {
      BlockedForEver(cfg, s, acts[..|acts| - 1], ip);
      BlockedStaysOut(cfg, RunFrom(cfg, s, acts[..|acts| - 1]), acts[|acts| - 1], ip);
    }
  }

  // ---------------------------------------------------------------------------------
  // The bound on failures is reached
  // ---------------------------------------------------------------------------------

  /** `fails` failures of `ip` are recorded, short of the limit, and connections `0..k` of it are shaking hands. */
  ghost predicate Warming(cfg: Config, s: State, ip: IpAddr, fails: nat, k: nat) {
    && k <= cfg.maxConns && s.https == Port(cfg.maxConns - k, Waiting)
    && At(s.tables.connections, ip) == k && ip !in s.tables.blocked
    && At(s.failures, ip) == At(s.tables.tlsFailures, ip) == fails
    && (forall id | id in s.live :: id < k)
    && forall id | 0 <= id < k :: id in s.live && s.live[id] == Conn(Https, ip, Handshaking)
  }

  /** A handshaking connection fails and drops its guard and its permit. */
  lemma FailAndGo(cfg: Config, acts: seq<Action>, id: nat) returns (acts': seq<Action>)
    requires cfg.limits.blockAbusers
    requires var s := Run(cfg, acts);
             && id in s.live && s.live[id].stage.Handshaking? && s.live[id].listener.Https?
             && At(s.tables.connections, s.live[id].ip) > 0
    ensures var (s, failed) := (Run(cfg, acts), Apply(cfg, Run(cfg, acts), HandshakeFailed(id)));
            Run(cfg, acts') == failed.(tables := Released(failed.tables, s.live[id].ip), live := s.live - {id},
                                       https := Port(s.https.free + 1, s.https.loop))
  {
    hide Run;
    RunAppend(cfg, acts, HandshakeFailed(id));
    acts' := acts + [HandshakeFailed(id)];
    FailureEffect(cfg, Run(cfg, acts), id);
    RunAppend(cfg, acts', DropCount(id));
    RunAppend(cfg, acts' + [DropCount(id)], DropPermit(id));
    acts' := acts' + [DropCount(id)] + [DropPermit(id)];
    assert Run(cfg, acts').live == Run(cfg, acts).live - {id};
  }

  lemma WarmOneMore(cfg: Config, ip: IpAddr, acts: seq<Action>, fails: nat, k: nat) returns (acts': seq<Action>)
    requires cfg.tls && k < cfg.limits.maxPerIp && k < cfg.maxConns && Warming(cfg, Run(cfg, acts), ip, fails, k)
    ensures Warming(cfg, Run(cfg, acts'), ip, fails, k + 1)
  {
    hide Run, Apply;
    acts' := RunAdmit(cfg, acts, Https, ip, k);
  }

  /** The last of them fails, short of the limit, and goes. */
  lemma FailLast(cfg: Config, ip: IpAddr, acts: seq<Action>, fails: nat, k: nat) returns (acts': seq<Action>)
    requires cfg.limits.blockAbusers && fails + 1 < Threshold(cfg) && Warming(cfg, Run(cfg, acts), ip, fails, k + 1)
    ensures Warming(cfg, Run(cfg, acts'), ip, fails + 1, k)
  {
    hide Run, Apply;
    FailureEffect(cfg, Run(cfg, acts), k);
    acts' := FailAndGo(cfg, acts, k);
  }

  lemma {:induction false} WarmUp(cfg: Config, ip: IpAddr, fails: nat, k: nat) returns (acts: seq<Action>)
    requires cfg.limits.blockAbusers && cfg.tls && cfg.limits.maxPerIp >= 1
    requires fails < Threshold(cfg) && k <= cfg.limits.maxPerIp && k <= cfg.maxConns && cfg.maxConns >= 1
    ensures Warming(cfg, Run(cfg, acts), ip, fails, k)
    decreases fails + k
  {
    if k > 0 {
      acts := WarmUp(cfg, ip, fails, k - 1);
      acts := WarmOneMore(cfg, ip, acts, fails, k - 1);
    } else if fails > 0 {
      acts := WarmUp(cfg, ip, fails - 1, 0);
      acts := WarmOneMore(cfg, ip, acts, fails - 1, 0);
      acts := FailLast(cfg, ip, acts, fails - 1, 0);
    } else {
      acts := [];
    }
  }

  /** `fails` failures of `ip` are recorded, and its connections `0..k` are still shaking hands. */
  ghost predicate Failing(s: State, ip: IpAddr, fails: nat, k: nat) {
    && At(s.failures, ip) == fails
    && forall id | 0 <= id < k :: id in s.live && s.live[id] == Conn(Https, ip, Handshaking)
  }

  /**
   With as many connections of `ip` shaking hands as it may have, the loop lets in one more;
   then one of the others fails, which blocks `ip`, and leaves its place to the new one.
   */
  lemma RaceIn(cfg: Config, ip: IpAddr) returns (acts: seq<Action>)
    requires cfg.limits.blockAbusers && cfg.tls && 1 <= cfg.limits.maxPerIp < cfg.maxConns
    ensures Failing(Run(cfg, acts), ip, Threshold(cfg), cfg.limits.maxPerIp)
  {
    hide Run;
    var last := cfg.limits.maxPerIp - 1;
    acts := WarmUp(cfg, ip, Threshold(cfg) - 1, last + 1);
    RunLetIn(cfg, acts, Https, ip);
    acts := acts + LetIn(Https, ip);
    FailureEffect(cfg, Run(cfg, acts), last);
    acts := FailAndGo(cfg, acts, last);
    RunAppend(cfg, acts, CountConnection(Https, last));
    CountStepEffect(cfg, Run(cfg, acts), Https, last);
    acts := acts + [CountConnection(Https, last)];
  }

  lemma {:induction false} AllFail(cfg: Config, ip: IpAddr, acts: seq<Action>, fails: nat, k: nat)
    returns (acts': seq<Action>)
    requires Failing(Run(cfg, acts), ip, fails, k)
    ensures At(Run(cfg, acts').failures, ip) == fails + k
    decreases k
  {
    if k == 0 {
      acts' := acts;
    } else {
      RunAppend(cfg, acts, HandshakeFailed(k - 1));
      acts' := AllFail(cfg, ip, acts + [HandshakeFailed(k - 1)], fails + 1, k - 1);
    }
  }

  /** The bound is exact: under every configuration that lets a TLS connection in at all, some run reaches it. */
  lemma FailureBoundIsReached(cfg: Config, ip: IpAddr) returns (acts: seq<Action>)
    requires cfg.limits.blockAbusers && cfg.tls && cfg.limits.maxPerIp >= 1 && cfg.maxConns >= 1
    ensures At(Run(cfg, acts).failures, ip) == Threshold(cfg) + Min(cfg.limits.maxPerIp, cfg.maxConns - 1)
  {
    if cfg.limits.maxPerIp < cfg.maxConns {
      acts := RaceIn(cfg, ip);
      acts := AllFail(cfg, ip, acts, Threshold(cfg), cfg.limits.maxPerIp);
    } else {
      acts := WarmUp(cfg, ip, Threshold(cfg) - 1, cfg.maxConns);
      acts := AllFail(cfg, ip, acts, Threshold(cfg) - 1, cfg.maxConns);
    }
  }
}
