/** Whole runs of the agent's event loop against an arbitrary peer: event classification and the
    setup retry machine. */
module AgentRuns {
  import opened E2apTypes
  import opened BiMaps
  import opened E2Agents

  /** A setup request generated with this identifier on the wire, and sent if it could be encoded. */
  datatype Attempt = Attempt(transId: nat, encoded: bool)

  /** `made` holds the setup requests generated since the last setup response; `stalled` says that the
      last one took its timer with it and nothing has set a timer since; `leaked` names the
      descriptors left in the epoll set by a connection loss. */
  datatype Machine = Machine(agent: Agent, leaked: set<Fd>, made: seq<Attempt>, stalled: bool)

  /** What one turn of the loop serves. The peer and the kernel choose freely. */
  datatype Event =
    | RequestArrives(q: Request, fd: Fd)
    | SetupResponseArrives(fd: Fd)
    | SetupFailureArrives
    | IndicationTimerFires(fd: Fd)
    | SetupTimerFires(fd: Fd, newFd: Fd, encoded: bool)
    | ConnectionLost(newFd: Fd)
    | NothingReady

  /** The turn can be served without an assertion failure of the handlers. */
  predicate Enabled(m: Machine, e: Event) {
    match e
    case RequestArrives(q, fd) => TakesFd(m.agent, q, fd)
    case SetupResponseArrives(fd) => fd in FdsOf(m.agent.pending, SetupRequestPending) && m.agent.transId > 0
    case SetupFailureArrives => true
    case IndicationTimerFires(fd) => fd in m.agent.registered && Classify(m.agent, fd).IndicationEvent?
    case SetupTimerFires(fd, newFd, _) =>
      && fd in m.agent.registered && Classify(m.agent, fd).PendingTimerEvent?
      && newFd.num > 0 && newFd !in AfterClosing(m.agent, fd)
    case ConnectionLost(newFd) => Fresh(m.agent, newFd)
    case NothingReady => true
  }

  function Apply(m: Machine, e: Event): Machine
    requires Enabled(m, e)
  {
    match e
    case RequestArrives(q, fd) => m.(agent := HandleRequest(m.agent, q, fd))
    case SetupResponseArrives(fd) =>
      Machine(HandleSetupResponse(m.agent, Some(fd)).agent, m.leaked, [], false)
    case SetupFailureArrives => m
    case IndicationTimerFires(_) => m
    case SetupTimerFires(fd, newFd, encoded) =>
      Machine(HandlePendingEvent(m.agent, fd, newFd, encoded), m.leaked,
              m.made + [Attempt(WireTransId(m.agent.transId), encoded)], !encoded)
    case ConnectionLost(newFd) =>
      m.(agent := HandleShutdown(m.agent, newFd), leaked := m.leaked + m.agent.pending.Keys, stalled := false)
    case NothingReady => m
  }

  ghost predicate Run(m: Machine, es: seq<Event>, m': Machine)
    decreases |es|
  {
    if es == [] then m == m' else Enabled(m, es[0]) && Run(Apply(m, es[0]), es[1..], m')
  }

  /** The state in which e2_start_agent enters its loop. */
  function Started(a: Agent, newFd: Fd, encoded: bool): Machine {
    Machine(Start(a, newFd), {}, [Attempt(WireTransId(a.transId), encoded)], false)
  }

  ghost predicate Initial(m: Machine) {
    exists a, newFd, encoded ::
      && Valid(a, {}) && a.pending == map[] && a.transId == 0
      && Fresh(a, newFd) && m == Started(a, newFd, encoded)
  }

  ghost predicate Inv(m: Machine) {
    Valid(m.agent, m.leaked)
  }

  lemma StepKeepsInv(m: Machine, e: Event)
    requires Inv(m) && Enabled(m, e)
    ensures Inv(Apply(m, e))
  {
    match e
    case RequestArrives(q, fd) => RequestKeepsValid(m.agent, m.leaked, q, fd);
    case SetupResponseArrives(fd) =>
      var a' := Apply(m, e).agent;
      assert a'.pending.Keys == m.agent.pending.Keys - {fd};
    case SetupTimerFires(fd, newFd, encoded) =>
      PendingEventKeepsValid(m.agent, m.leaked, fd, newFd, encoded);
    case ConnectionLost(newFd) => ShutdownKeepsValid(m.agent, m.leaked, newFd);
    case SetupFailureArrives =>
    case IndicationTimerFires(_) =>
    case NothingReady =>
  }

  lemma {:induction false} RunKeepsInv(m: Machine, es: seq<Event>, m': Machine)
    requires Inv(m) && Run(m, es, m')
    ensures Inv(m')
    decreases |es|
  {
    if es != [] {
      StepKeepsInv(m, es[0]);
      RunKeepsInv(Apply(m, es[0]), es[1..], m');
    }
  }

  lemma InitialInv(m: Machine)
    requires Initial(m)
    ensures Inv(m) && m.leaked == {} && RetryInv(m)
  {
    var a, newFd, encoded :| Valid(a, {}) && a.pending == map[] && a.transId == 0
                             && Fresh(a, newFd) && m == Started(a, newFd, encoded);
    ShutdownKeepsValid(a, {}, newFd);
  }

  // ---- Event classification ----

  /** Every connection loss of the run came when no setup timer was pending. */
  ghost predicate CleanLosses(m: Machine, es: seq<Event>)
    decreases |es|
  {
    es != [] && Enabled(m, es[0]) ==>
      && (es[0].ConnectionLost? ==> m.agent.pending == map[])
      && CleanLosses(Apply(m, es[0]), es[1..])
  }

  lemma {:induction false} LeakExactlyOnUncleanLoss(m: Machine, es: seq<Event>, m': Machine)
    requires Run(m, es, m')
    ensures m.leaked <= m'.leaked
    ensures m.leaked == {} ==> (m'.leaked == {} <==> CleanLosses(m, es))
    decreases |es|
  {
    if es != [] {
      var n := Apply(m, es[0]);
      LeakExactlyOnUncleanLoss(n, es[1..], m');
      if es[0].ConnectionLost? && m.agent.pending != map[] {
        assert m.agent.pending.Keys != {};
        var fd :| fd in m.agent.pending.Keys;
        assert fd in n.leaked;
      } else if es[0].ConnectionLost? {
        assert m.agent.pending.Keys == {};
      }
    }
  }

  /** "Unknown event happened" is unreachable exactly in the runs whose connection losses come
      after the setup timer was cleared; then every descriptor that can become ready is classified
      as what it was created for. */
  lemma UnknownEventIffUncleanLoss(m: Machine, es: seq<Event>, m': Machine)
    requires Initial(m) && Run(m, es, m')
    ensures (forall fd :: fd in m'.agent.registered ==> Classify(m'.agent, fd) != UnknownEvent)
            <==> CleanLosses(m, es)
  {
    InitialInv(m);
    RunKeepsInv(m, es, m');
    LeakExactlyOnUncleanLoss(m, es, m');
    forall fd | fd in m'.agent.registered
      ensures Classify(m'.agent, fd) == UnknownEvent <==> fd in m'.leaked
    {
      ClassificationIsExact(m'.agent, m'.leaked, fd);
    }
    if m'.leaked != {} {
      var fd :| fd in m'.leaked;
      assert fd in m'.agent.registered;
    }
  }

  /** The failing family is not empty: a connection lost before the first setup response. */
  lemma LossBeforeResponseLeaksTimer(m: Machine, newFd: Fd)
    requires Initial(m) && Fresh(m.agent, newFd)
    ensures Run(m, [ConnectionLost(newFd)], Apply(m, ConnectionLost(newFd)))
    ensures exists fd :: fd in Apply(m, ConnectionLost(newFd)).agent.registered
                      && Classify(Apply(m, ConnectionLost(newFd)).agent, fd) == UnknownEvent
  {
    InitialInv(m);
    var e := ConnectionLost(newFd);
    StepKeepsInv(m, e);
    assert [e][1..] == [];
    assert m.agent.pending.Keys != {};
    var fd :| fd in m.agent.pending.Keys;
    ClassificationIsExact(Apply(m, e).agent, Apply(m, e).leaked, fd);
  }

  // ---- The setup retry machine ----

  /** The counter counts the requests generated since the last response, these carry 0, 1, 2, ... in 8
      bits, and while one is unanswered a timer is pending unless the retries have stalled. */
  ghost predicate RetryInv(m: Machine) {
    && m.agent.transId == |m.made| % U32
    && (forall i :: 0 <= i < |m.made| ==> m.made[i].transId == WireTransId(i))
    && (m.made != [] ==> (m.agent.pending == map[] <==> m.stalled))
  }

  lemma WireIdOfCounter(n: nat)
    ensures WireTransId(n % U32) == WireTransId(n)
  {
    assert n == U8 * (0x100_0000 * (n / U32)) + n % U32;
  }

  lemma StepKeepsRetryInv(m: Machine, e: Event)
    requires Inv(m) && RetryInv(m) && Enabled(m, e)
    ensures RetryInv(Apply(m, e))
  {
    match e
    case SetupTimerFires(fd, newFd, encoded) =>
      WireIdOfCounter(|m.made|);
      assert encoded ==> newFd in Apply(m, e).agent.pending;
    case ConnectionLost(newFd) =>
      assert newFd in Apply(m, e).agent.pending;
    case _ =>
  }

  lemma {:induction false} RetryMachine(m: Machine, es: seq<Event>, m': Machine)
    requires Inv(m) && RetryInv(m) && Run(m, es, m')
    ensures RetryInv(m')
    decreases |es|
  {
    if es != [] {
      StepKeepsInv(m, es[0]);
      StepKeepsRetryInv(m, es[0]);
      RetryMachine(Apply(m, es[0]), es[1..], m');
    }
  }

  lemma WireIdsRepeatAfter256(made: seq<Attempt>)
    requires forall i :: 0 <= i < |made| ==> made[i].transId == WireTransId(i)
    ensures (forall i, j :: 0 <= i < j < |made| ==> made[i].transId != made[j].transId) <==> |made| <= U8
  {
    if |made| > U8 {
      assert made[0].transId == made[U8].transId;
    }
  }

  /** The response is handled exactly when a timer is pending and the counter is not zero. */
  lemma ResponseIffTimerAndCounter(m: Machine)
    requires Inv(m)
    ensures (exists fd :: Enabled(m, SetupResponseArrives(fd))) <==> m.agent.pending != map[] && m.agent.transId > 0
  {
    if m.agent.pending != map[] && m.agent.transId > 0 {
      assert m.agent.pending.Keys != {};
      var fd :| fd in m.agent.pending.Keys;
      assert Enabled(m, SetupResponseArrives(fd));
    }
  }

  lemma ResponseClears(m: Machine, fd: Fd)
    requires Inv(m) && Enabled(m, SetupResponseArrives(fd))
    ensures var n := Apply(m, SetupResponseArrives(fd));
            n.agent.pending == map[] && n.agent.transId == 0 && fd !in n.agent.registered
  {
  }

  /** Over every run: at most one setup timer; the requests generated since the last response carry
      distinct identifiers exactly while there are at most 256 of them; a setup response is handled
      without an assertion failure exactly when a timer is pending and the counter is positive, and
      then leaves no timer and a zero counter. Of these the timer is missing exactly when stalled. */
  lemma SetupRetrySafety(m: Machine, es: seq<Event>, m': Machine)
    requires Initial(m) && Run(m, es, m')
    ensures AtMostOne(m'.agent.pending)
    ensures m'.agent.transId == |m'.made| % 0x1_0000_0000
    ensures forall i :: 0 <= i < |m'.made| ==> m'.made[i].transId == i % 0x100
    ensures (forall i, j :: 0 <= i < j < |m'.made| ==> m'.made[i].transId != m'.made[j].transId) <==> |m'.made| <= 0x100
    ensures (exists fd :: Enabled(m', SetupResponseArrives(fd)))
            <==> m'.agent.pending != map[] && m'.agent.transId > 0
    ensures m'.agent.transId > 0 ==> (m'.agent.pending == map[] <==> m'.stalled)
    ensures forall fd :: Enabled(m', SetupResponseArrives(fd)) ==>
              var n := Apply(m', SetupResponseArrives(fd));
              n.agent.pending == map[] && n.agent.transId == 0 && fd !in n.agent.registered
  {
    InitialInv(m);
    RunKeepsInv(m, es, m');
    RetryMachine(m, es, m');
    WireIdsRepeatAfter256(m'.made);
    ResponseIffTimerAndCounter(m');
    forall fd | Enabled(m', SetupResponseArrives(fd))
      ensures var n := Apply(m', SetupResponseArrives(fd));
              n.agent.pending == map[] && n.agent.transId == 0 && fd !in n.agent.registered
    {
      ResponseClears(m', fd);
    }
  }

  /** The events that set or clear the setup timer. */
  predicate MovesTimer(e: Event) {
    e.SetupTimerFires? || e.ConnectionLost? || e.SetupResponseArrives?
  }

  function LastMove(es: seq<Event>): Option<Event> {
    if es == [] then None
    else if LastMove(es[1..]).Some? then LastMove(es[1..])
    else if MovesTimer(es[0]) then Some(es[0])
    else None
  }

  /** Retries have stalled exactly when the last event of the run that moved the setup timer was a
      retry that could not be encoded; so they never do while every retry is encoded. */
  lemma {:induction false} StalledByUnencodedRetry(m: Machine, es: seq<Event>, m': Machine)
    requires Run(m, es, m')
    ensures m'.stalled <==>
              if LastMove(es).None? then m.stalled
              else LastMove(es).value.SetupTimerFires? && !LastMove(es).value.encoded
    ensures !m.stalled && (forall e :: e in es && e.SetupTimerFires? ==> e.encoded) ==> !m'.stalled
    decreases |es|
  {
    if es != [] {
      assert es[0] in es;
      StalledByUnencodedRetry(Apply(m, es[0]), es[1..], m');
    }
  }

  function Fired(es: seq<Event>): nat {
    if es == [] then 0 else Fired(es[1..]) + (if es[0].SetupTimerFires? then 1 else 0)
  }

  /** Connection j after n more attempts at the agent's RIC. */
  function Counted(conns: seq<Connection>, addr: string, j: nat, n: nat): Connection
    requires j < |conns|
  {
    if FirstWith(conns, addr, j) then Connection(conns[j].addr, conns[j].retryCount + n) else conns[j]
  }

  lemma StepCounts(m: Machine, e: Event, j: nat)
    requires Inv(m) && Enabled(m, e) && j < |m.agent.conns|
    ensures var n := Apply(m, e).agent;
            && n.ricAddr == m.agent.ricAddr && |n.conns| == |m.agent.conns|
            && n.conns[j] == Counted(m.agent.conns, m.agent.ricAddr, j, if e.SetupTimerFires? then 1 else 0)
            && (FirstWith(n.conns, n.ricAddr, j) <==> FirstWith(m.agent.conns, m.agent.ricAddr, j))
  {
    FirstConnection(m.agent.conns, m.agent.ricAddr);
    var n := Apply(m, e).agent;
    assert forall k :: 0 <= k < |n.conns| ==> n.conns[k].addr == m.agent.conns[k].addr;
  }

  /** Every setup-timer event of a run counts one attempt at the agent's RIC, the first connection with
      its address, and nothing else touches the list of connections. */
  lemma {:induction false} RetriesAreCounted(m: Machine, es: seq<Event>, m': Machine, j: nat)
    requires Inv(m) && Run(m, es, m') && j < |m.agent.conns|
    ensures |m'.agent.conns| == |m.agent.conns|
    ensures m'.agent.conns[j] == Counted(m.agent.conns, m.agent.ricAddr, j, Fired(es))
    decreases |es|
  {
    if es != [] {
      StepKeepsInv(m, es[0]);
      StepCounts(m, es[0], j);
      RetriesAreCounted(Apply(m, es[0]), es[1..], m', j);
    }
  }

  /** What the requests of a run leave of n timers of a subscription: each subscription adds one, each
      delete takes one if there is one. */
  function TimersLeft(n: nat, es: seq<Event>, id: RicGenId): nat
    decreases |es|
  {
    if es == [] then n
    else if es[0].RequestArrives? && es[0].q == RicSubscriptionRequest(id) then TimersLeft(n + 1, es[1..], id)
    else if es[0].RequestArrives? && es[0].q == RicSubscriptionDeleteRequest(id) && n > 0 then
      TimersLeft(n - 1, es[1..], id)
    else TimersLeft(n, es[1..], id)
  }

  lemma StepKeepsTimers(m: Machine, e: Event, id: RicGenId)
    requires Inv(m) && Enabled(m, e)
    ensures Count(Apply(m, e).agent.indEvent, id) == TimersLeft(Count(m.agent.indEvent, id), [e], id)
  {
    assert [e][1..] == [];
    if e.RequestArrives? {
      ServingCounts(m.agent, e.q, e.fd, id);
    }
  }

  /** Over every run, setup retries and lost connections included, a subscription has the timers that
      its own requests leave: nothing else sets or clears one. */
  lemma {:induction false} TimersFollowRequests(m: Machine, es: seq<Event>, m': Machine, id: RicGenId)
    requires Inv(m) && Run(m, es, m')
    ensures Count(m'.agent.indEvent, id) == TimersLeft(Count(m.agent.indEvent, id), es, id)
    decreases |es|
  {
    if es != [] {
      StepKeepsInv(m, es[0]);
      StepKeepsTimers(m, es[0], id);
      TimersFollowRequests(Apply(m, es[0]), es[1..], m', id);
      assert [es[0]][1..] == [];
    }
  }

  /** The loop serves whatever becomes ready: in every reachable state each request can be served, each
      subscription timer and each setup timer can fire, and a connection can be lost. */
  lemma LoopIsReceptive(m: Machine, es: seq<Event>, m': Machine, q: Request, newFd: Fd)
    requires Initial(m) && Run(m, es, m') && Fresh(m'.agent, newFd)
    ensures exists fd :: Enabled(m', RequestArrives(q, fd))
    ensures forall fd :: fd in m'.agent.indEvent ==> Enabled(m', IndicationTimerFires(fd))
    ensures forall fd, encoded :: fd in m'.agent.pending ==> Enabled(m', SetupTimerFires(fd, newFd, encoded))
    ensures Enabled(m', ConnectionLost(newFd)) && Enabled(m', SetupFailureArrives) && Enabled(m', NothingReady)
  {
    InitialInv(m);
    RunKeepsInv(m, es, m');
    if q.RicSubscriptionDeleteRequest? && FdsOf(m'.agent.indEvent, q.id) != {} {
      var fd :| fd in FdsOf(m'.agent.indEvent, q.id);
      assert Enabled(m', RequestArrives(q, fd));
    } else {
      assert Enabled(m', RequestArrives(q, newFd));
    }
    forall fd | fd in m'.agent.indEvent || fd in m'.agent.pending
      ensures fd in m'.agent.indEvent ==> Enabled(m', IndicationTimerFires(fd))
      ensures fd in m'.agent.pending ==> forall e :: Enabled(m', SetupTimerFires(fd, newFd, e))
    {
      ClassificationIsExact(m'.agent, m'.leaked, fd);
    }
  }

  /** A retry makes the peer owe two responses, but the first response resets the counter, so the
      second one fails the handler's assertions. */
  lemma SecondResponseAfterRetryFails(m: Machine, fd: Fd, newFd: Fd)
    requires Initial(m) && Enabled(m, SetupTimerFires(fd, newFd, true))
    ensures var retried := Apply(m, SetupTimerFires(fd, newFd, true));
            && |retried.made| == 2 && retried.made[0].transId == 0 && retried.made[1] == Attempt(1, true)
            && Enabled(retried, SetupResponseArrives(newFd))
            && forall g :: !Enabled(Apply(retried, SetupResponseArrives(newFd)), SetupResponseArrives(g))
  {
    InitialInv(m);
    StepKeepsInv(m, SetupTimerFires(fd, newFd, true));
    var retried := Apply(m, SetupTimerFires(fd, newFd, true));
    assert newFd in FdsOf(retried.agent.pending, SetupRequestPending);
  }
}
