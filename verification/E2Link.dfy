/** The near-RT RIC and one E2 agent, joined by two FIFO channels.

    On the RIC side several threads draw an identifier (`drawn`), create a timer, register the
    request and send it later (`unsent`); the event loop hands what it receives to pool workers in no
    order (`held`), and a worker closes a timer some time after it has taken it from the pending map.
    The agent serves one message at a time. Every interleaving of these steps is a run.

    The kernel hands a closed descriptor out again, so timers have serial numbers here: `timers`
    names the timer behind every open timer descriptor. */
module E2Link {
  import opened E2apTypes
  import opened BiMaps
  import opened NearRic
  import A = E2Agents

  datatype Timer = Timer(serial: nat)

  datatype Link = Link(
    ric: Ric,
    agent: A.Agent,
    drawn: multiset<Request>,    // generated, not yet in the pending map
    unsent: multiset<Request>,   // registered in the pending map, not yet on the wire
    toAgent: seq<Request>,
    toRic: seq<Reply>,
    held: multiset<Reply>,       // dequeued by the event loop, owned by pool workers
    timers: map<Fd, Timer>,
    nextTimer: nat,
    ready: map<Fd, Timer>,       // timers reported by epoll_wait, not yet looked up
    extracted: set<Timer>,       // log: timers that workers have taken from the pending map
    generated: seq<Request>,     // log: requests drawn, in order
    deleted: seq<Request>,       // log: deletes forwarded, in order
    issued: seq<Request>,        // log: requests registered, in order
    finished: seq<Reply>,        // log: replies that workers have handled, in order
    handled: seq<Request>,       // log: requests the agent has served, in order
    delivered: seq<Reply>)       // log: replies the RIC has dequeued, in order

  /** Everything the agent has put on its channel. */
  function Output(s: Link): seq<Reply> { s.delivered + s.toRic }

  /** Everything the RIC has put on its channel. */
  function Input(s: Link): seq<Request> { s.handled + s.toAgent }

  datatype Action =
    | Report(ranFuncId: nat)
    | RmReport(ranFuncId: nat, actId: nat)
    | Control(ranFuncId: nat)
    | FwdSubscription(id: RicGenId)
    | FwdControl(id: RicGenId)
    | TimerCreated(fd: Fd)
    | Registers(q: Request, fd: Fd)
    | FwdDelete(id: RicGenId, fd: Fd)
    | Send(q: Request)
    | AgentServes(fd: Fd)
    | AgentIndicates(fd: Fd)
    | RicReceives
    | WorkerHandles(p: Reply, fd: Fd)
    | WorkerCloses(fd: Fd)
    | TimersReported(fds: set<Fd>)
    | TimerLookedUp(fd: Fd)

  predicate Draws(a: Action) {
    a.Report? || a.RmReport? || a.Control? || a.FwdSubscription? || a.FwdControl?
  }

  /** The request an action generates. */
  function Drawn(r: Ric, a: Action): Request
    requires Draws(a)
  {
    match a
    case Report(rf) => ReportRequest(r, rf)
    case RmReport(rf, act) => RicSubscriptionDeleteRequest(RicGenId(act, 0, rf))
    case Control(rf) => ControlRequest(r, rf)
    case FwdSubscription(id) => RicSubscriptionRequest(id)
    case FwdControl(id) => FwdControlRequest(r, id)
  }

  /** What generating it does to the identifier counters. */
  function Counted(r: Ric, a: Action): Ric
    requires Draws(a)
  {
    match a
    case RmReport(_, _) => r
    case FwdSubscription(id) => AdoptReqId(r, id)
    case _ => Bump(r)
  }

  /** The epoll set reports timers in batches; the next batch comes when the last one is looked up. */
  ghost predicate Enabled(s: Link, a: Action) {
    match a
    case TimerCreated(fd) => Fresh(s.ric, fd)
    case Registers(q, fd) => q in s.drawn && fd in s.ric.arming
    case FwdDelete(_, fd) => Fresh(s.ric, fd)
    case Send(q) => q in s.unsent
    case AgentServes(fd) => s.toAgent != [] && A.TakesFd(s.agent, s.toAgent[0], fd)
    case AgentIndicates(fd) => fd in s.agent.registered && A.Classify(s.agent, fd).IndicationEvent?
    case RicReceives => s.toRic != []
    case WorkerHandles(p, fd) =>
      p in s.held && (StoppedBy(p).Some? ==> fd in FdsOf(s.ric.pending, StoppedBy(p).value))
    case WorkerCloses(fd) => fd in s.ric.closing
    case TimersReported(fds) => s.ready == map[] && fds <= s.timers.Keys
    case TimerLookedUp(fd) => fd in s.ready && fd in s.ric.pending
    case _ => true
  }

  function NewTimer(s: Link, fd: Fd): Link {
    s.(ric := CreateTimer(s.ric, fd), timers := s.timers[fd := Timer(s.nextTimer)], nextTimer := s.nextTimer + 1)
  }

  /** The insertion into the pending map, after which the request may be sent. */
  function Insert(s: Link, q: Request, fd: Fd): Link {
    s.(ric := InsertTimer(s.ric, fd, RegisteredAs(q)), unsent := s.unsent + multiset{q}, issued := s.issued + [q])
  }

  function Behind(s: Link, fd: Fd): set<Timer> {
    if fd in s.timers then {s.timers[fd]} else {}
  }

  ghost function Apply(s: Link, a: Action): Link
    requires Enabled(s, a)
  {
    match a
    case TimerCreated(fd) => NewTimer(s, fd)
    case Registers(q, fd) => Insert(s.(drawn := s.drawn - multiset{q}), q, fd)
    case FwdDelete(id, fd) =>
      var q := RicSubscriptionDeleteRequest(id);
      if AlreadyPending(s.ric, q) then s else Insert(NewTimer(s, fd), q, fd).(deleted := s.deleted + [q])
    case Send(q) => s.(unsent := s.unsent - multiset{q}, toAgent := s.toAgent + [q])
    case AgentServes(fd) =>
      var q := s.toAgent[0];
      s.(toAgent := s.toAgent[1..], handled := s.handled + [q],
         agent := A.HandleRequest(s.agent, q, fd), toRic := s.toRic + [AnswerTo(q)])
    case AgentIndicates(fd) =>
      s.(toRic := s.toRic + [RicIndication(s.agent.indEvent[fd])])
    case RicReceives =>
      s.(toRic := s.toRic[1..], delivered := s.delivered + [s.toRic[0]],
         held := s.held + multiset{s.toRic[0]})
    case WorkerHandles(p, fd) =>
      var s1 := s.(held := s.held - multiset{p}, finished := s.finished + [p]);
      if StoppedBy(p).None? then s1
      else s1.(ric := Extract(s.ric, fd), extracted := s.extracted + Behind(s, fd))
    case WorkerCloses(fd) => s.(ric := CloseTimer(s.ric, fd), timers := s.timers - {fd})
    case TimersReported(fds) => s.(ready := map fd | fd in fds :: s.timers[fd])
    case TimerLookedUp(fd) => s.(ready := s.ready - {fd}, ric := Timeout(s.ric))
    case _ =>
      s.(drawn := s.drawn + multiset{Drawn(s.ric, a)}, ric := Counted(s.ric, a),
         generated := s.generated + [Drawn(s.ric, a)])
  }

  ghost predicate Run(s: Link, acts: seq<Action>, s': Link)
    decreases |acts|
  {
    if acts == [] then s == s' else Enabled(s, acts[0]) && Run(Apply(s, acts[0]), acts[1..], s')
  }

  /** Both ends up, nothing requested yet. The agent's setup timer may be pending or cleared. */
  ghost predicate Initial(s: Link) {
    && Valid(s.ric) && s.ric.registered == {s.ric.epFd} && s.ric.pending == map[]
    && A.Valid(s.agent, {}) && s.agent.indEvent == map[]
    && s == Link(s.ric, s.agent, multiset{}, multiset{}, [], [], multiset{}, map[], 0, map[], {},
                 [], [], [], [], [], [])
  }

  // ---- Conservation ----

  /** Copies of a request that are somewhere between its registration and the end of its handler. */
  function Outstanding(s: Link, q: Request): nat {
    s.unsent[q] + multiset(s.toAgent)[q] + multiset(s.toRic)[AnswerTo(q)] + s.held[AnswerTo(q)]
  }

  ghost predicate Balanced(s: Link, q: Request) {
    Count(s.ric.pending, RegisteredAs(q)) == Outstanding(s, q)
  }

  ghost predicate Conserved(s: Link) {
    forall q :: Balanced(s, q)
  }

  ghost predicate Inv(s: Link) {
    Valid(s.ric) && A.Valid(s.agent, {}) && Conserved(s)
  }

  lemma InsertingBalances(s: Link, q0: Request, fd: Fd, q: Request)
    requires Balanced(s, q) && fd !in s.ric.pending
    ensures Balanced(Insert(s, q0, fd), q)
  {
    CountInsert(s.ric.pending, fd, RegisteredAs(q0), RegisteredAs(q));
    AnswerStopsItsOwnRequest(q, q0);
  }

  lemma InsertingConserves(s: Link, q0: Request, fd: Fd)
    requires Inv(s) && fd in s.ric.arming
    ensures Inv(Insert(s, q0, fd))
  {
    InsertKeepsValid(s.ric, fd, q0);
    forall q ensures Balanced(Insert(s, q0, fd), q) {
      assert Balanced(s, q);
      InsertingBalances(s, q0, fd, q);
    }
  }

  /** Steps that touch neither the pending map nor a message under way. */
  lemma UntouchedConserves(s: Link, s': Link)
    requires Inv(s) && Valid(s'.ric) && s'.ric.pending == s.ric.pending
    requires s'.agent == s.agent && s'.unsent == s.unsent && s'.toAgent == s.toAgent
    requires s'.toRic == s.toRic && s'.held == s.held
    ensures Inv(s')
  {
    forall q ensures Balanced(s', q) {
      assert Balanced(s, q);
    }
  }

  lemma DrawingConserves(s: Link, a: Action)
    requires Inv(s) && Draws(a) && Enabled(s, a)
    ensures Inv(Apply(s, a))
  {
    UntouchedConserves(s, Apply(s, a));
  }

  lemma CreatingConserves(s: Link, fd: Fd)
    requires Inv(s) && Fresh(s.ric, fd)
    ensures Inv(NewTimer(s, fd))
  {
    CreateKeepsValid(s.ric, fd);
    UntouchedConserves(s, NewTimer(s, fd));
  }

  lemma RegisteringConserves(s: Link, q0: Request, fd: Fd)
    requires Inv(s) && Enabled(s, Registers(q0, fd))
    ensures Inv(Apply(s, Registers(q0, fd)))
  {
    var m := s.(drawn := s.drawn - multiset{q0});
    UntouchedConserves(s, m);
    InsertingConserves(m, q0, fd);
  }

  lemma ForwardingDeleteConserves(s: Link, id: RicGenId, fd: Fd)
    requires Inv(s) && Enabled(s, FwdDelete(id, fd))
    ensures Inv(Apply(s, FwdDelete(id, fd)))
  {
    if !AlreadyPending(s.ric, RicSubscriptionDeleteRequest(id)) {
      CreatingConserves(s, fd);
      InsertingConserves(NewTimer(s, fd), RicSubscriptionDeleteRequest(id), fd);
      UntouchedConserves(Insert(NewTimer(s, fd), RicSubscriptionDeleteRequest(id), fd), Apply(s, FwdDelete(id, fd)));
    }
  }

  lemma SendBalances(s: Link, s': Link, q0: Request, q: Request)
    requires Balanced(s, q) && q0 in s.unsent
    requires s' == s.(unsent := s.unsent - multiset{q0}, toAgent := s.toAgent + [q0])
    ensures Balanced(s', q)
  {
    assert s.unsent[q] + multiset(s.toAgent)[q] == s'.unsent[q] + multiset(s'.toAgent)[q];
  }

  lemma SendConserves(s: Link, s': Link, q0: Request)
    requires Inv(s) && q0 in s.unsent
    requires s' == s.(unsent := s.unsent - multiset{q0}, toAgent := s.toAgent + [q0])
    ensures Inv(s')
  {
    forall q ensures Balanced(s', q) {
      assert Balanced(s, q);
      SendBalances(s, s', q0, q);
    }
  }

  lemma ServingBalances(s: Link, s': Link, q0: Request, q: Request)
    requires Balanced(s, q) && s.toAgent == [q0] + s'.toAgent
    requires s' == s.(toAgent := s'.toAgent, agent := s'.agent, handled := s'.handled,
                      toRic := s.toRic + [AnswerTo(q0)])
    ensures Balanced(s', q)
  {
    AnswerStopsItsOwnRequest(q, q0);
    assert multiset(s.toAgent)[q] == multiset(s'.toAgent)[q] + (if q == q0 then 1 else 0);
    assert multiset(s'.toRic)[AnswerTo(q)] == multiset(s.toRic)[AnswerTo(q)] + (if q == q0 then 1 else 0);
  }

  lemma ServingConserves(s: Link, s': Link, q0: Request)
    requires Inv(s) && A.Valid(s'.agent, {}) && s.toAgent == [q0] + s'.toAgent
    requires s' == s.(toAgent := s'.toAgent, agent := s'.agent, handled := s'.handled,
                      toRic := s.toRic + [AnswerTo(q0)])
    ensures Inv(s')
  {
    forall q ensures Balanced(s', q) {
      assert Balanced(s, q);
      ServingBalances(s, s', q0, q);
    }
  }

  lemma IndicatingConserves(s: Link, s': Link, id: RicGenId)
    requires Inv(s) && s' == s.(toRic := s.toRic + [RicIndication(id)])
    ensures Inv(s')
  {
    forall q ensures Balanced(s', q) {
      assert Balanced(s, q);
      assert multiset(s'.toRic)[AnswerTo(q)] == multiset(s.toRic)[AnswerTo(q)];
    }
  }

  lemma ReceivingBalances(s: Link, s': Link, p: Reply, q: Request)
    requires Balanced(s, q) && s.toRic == [p] + s'.toRic
    requires s' == s.(toRic := s'.toRic, delivered := s'.delivered, held := s.held + multiset{p})
    ensures Balanced(s', q)
  {
    var one := if p == AnswerTo(q) then 1 else 0;
    assert multiset(s.toRic)[AnswerTo(q)] == multiset(s'.toRic)[AnswerTo(q)] + one;
    assert s'.held[AnswerTo(q)] == s.held[AnswerTo(q)] + one;
  }

  lemma ReceivingConserves(s: Link, s': Link, p: Reply)
    requires Inv(s) && s.toRic == [p] + s'.toRic
    requires s' == s.(toRic := s'.toRic, delivered := s'.delivered, held := s.held + multiset{p})
    ensures Inv(s')
  {
    forall q ensures Balanced(s', q) {
      assert Balanced(s, q);
      ReceivingBalances(s, s', p, q);
    }
  }

  /** Handling an answer takes one entry and one copy of its own request, and of no other. */
  lemma HandlingBalances(s: Link, s': Link, p: Reply, fd: Fd, q: Request)
    requires Balanced(s, q) && p in s.held && StoppedBy(p).Some? && fd in FdsOf(s.ric.pending, StoppedBy(p).value)
    requires s' == s.(held := s.held - multiset{p}, ric := Extract(s.ric, fd), extracted := s'.extracted,
                      finished := s'.finished)
    ensures Balanced(s', q)
  {
    CountExtract(s.ric.pending, fd, RegisteredAs(q));
    AnswerStopsItsOwnRequest(q, RequestOf(p));
    AnswerStopsItsOwnRequest(RequestOf(p), RequestOf(p));
    assert (p == AnswerTo(q)) == (s.ric.pending[fd] == RegisteredAs(q));
    assert s.held[AnswerTo(q)] == s'.held[AnswerTo(q)] + (if p == AnswerTo(q) then 1 else 0);
  }

  lemma HandlingConserves(s: Link, s': Link, p: Reply, fd: Fd)
    requires Inv(s) && p in s.held && StoppedBy(p).Some? && fd in FdsOf(s.ric.pending, StoppedBy(p).value)
    requires s' == s.(held := s.held - multiset{p}, ric := Extract(s.ric, fd), extracted := s'.extracted,
                      finished := s'.finished)
    ensures Inv(s')
  {
    ExtractKeepsValid(s.ric, fd);
    forall q ensures Balanced(s', q) {
      assert Balanced(s, q);
      HandlingBalances(s, s', p, fd, q);
    }
  }

  lemma PublishingConserves(s: Link, s': Link, id: RicGenId)
    requires Inv(s) && s' == s.(held := s.held - multiset{RicIndication(id)}, finished := s'.finished)
    ensures Inv(s')
  {
    forall q ensures Balanced(s', q) {
      assert Balanced(s, q);
      assert s'.held[AnswerTo(q)] == s.held[AnswerTo(q)];
    }
  }

  /** The steps of messages: sending, serving, indicating, receiving, handling. */
  lemma MessageStepConserves(s: Link, a: Action)
    requires Inv(s) && Enabled(s, a)
    requires a.Send? || a.AgentServes? || a.AgentIndicates? || a.RicReceives? || a.WorkerHandles?
    ensures Inv(Apply(s, a))
  {
    var s' := Apply(s, a);
    match a
    case Send(q) => SendConserves(s, s', q);
    case AgentServes(fd) =>
      A.RequestKeepsValid(s.agent, {}, s.toAgent[0], fd);
      ServingConserves(s, s', s.toAgent[0]);
    case AgentIndicates(fd) => IndicatingConserves(s, s', s.agent.indEvent[fd]);
    case RicReceives => ReceivingConserves(s, s', s.toRic[0]);
    case WorkerHandles(p, fd) =>
      if StoppedBy(p).Some? { HandlingConserves(s, s', p, fd); } else { PublishingConserves(s, s', p.id); }
  }

  /** Closing, reporting and looking up change neither the pending map nor the balance. */
  lemma TimersConserve(s: Link, a: Action)
    requires Inv(s) && Enabled(s, a) && (a.WorkerCloses? || a.TimersReported? || a.TimerLookedUp?)
    ensures Inv(Apply(s, a)) && Apply(s, a).ric.pending == s.ric.pending
  {
    if a.WorkerCloses? {
      CloseKeepsValid(s.ric, a.fd);
    }
    UntouchedConserves(s, Apply(s, a));
  }

  lemma StepKeepsInv(s: Link, a: Action)
    requires Inv(s) && Enabled(s, a)
    ensures Inv(Apply(s, a))
  {
    match a
    case TimerCreated(fd) => CreatingConserves(s, fd);
    case Registers(q, fd) => RegisteringConserves(s, q, fd);
    case FwdDelete(id, fd) => ForwardingDeleteConserves(s, id, fd);
    case WorkerCloses(_) => TimersConserve(s, a);
    case TimersReported(_) => TimersConserve(s, a);
    case TimerLookedUp(_) => TimersConserve(s, a);
    case _ => if Draws(a) { DrawingConserves(s, a); } else { MessageStepConserves(s, a); }
  }

  lemma {:induction false} RunKeepsInv(s: Link, acts: seq<Action>, s': Link)
    requires Inv(s) && Run(s, acts, s')
    ensures Inv(s')
    decreases |acts|
  {
    if acts != [] {
      StepKeepsInv(s, acts[0]);
      RunKeepsInv(Apply(s, acts[0]), acts[1..], s');
    }
  }

  lemma InitialInv(s: Link)
    requires Initial(s)
    ensures Inv(s)
  {
    forall q ensures Balanced(s, q) {
      assert FdsOf(s.ric.pending, RegisteredAs(q)) == {};
    }
  }

  /** Request-response conservation over every run, whatever is requested again while pending: the
      pending map holds, per key, exactly one entry for every copy of the request that is
      registered but unsent, in flight, answered but in flight, or held by a worker. */
  lemma RequestsAreConserved(s: Link, acts: seq<Action>, s': Link, q: Request)
    requires Initial(s) && Run(s, acts, s')
    ensures Count(s'.ric.pending, RegisteredAs(q)) == Outstanding(s', q)
    ensures s'.ric.registered == {s'.ric.epFd} + s'.ric.arming + s'.ric.pending.Keys + s'.ric.closing
  {
    InitialInv(s);
    RunKeepsInv(s, acts, s');
    assert Balanced(s', q);
  }

  /** stop_pending_event never fails: every reply a worker holds still has its entry. */
  lemma WorkerFindsPendingEntry(s: Link, acts: seq<Action>, s': Link, p: Reply)
    requires Initial(s) && Run(s, acts, s') && p in s'.held
    ensures exists fd :: Enabled(s', WorkerHandles(p, fd))
  {
    if p.RicIndication? {
      assert Enabled(s', WorkerHandles(p, Fd(0)));
    } else {
      var q := RequestOf(p);
      AnswerStopsItsOwnRequest(q, q);
      RequestsAreConserved(s, acts, s', q);
      CountPositive(s'.ric.pending, RegisteredAs(q));
      var fd :| fd in s'.ric.pending && s'.ric.pending[fd] == RegisteredAs(q);
      assert Enabled(s', WorkerHandles(p, fd));
    }
  }

  /** Nothing is left behind: with no message under way the RIC has no pending entry, and no timer
      but those its threads still hold before the insertion or after the extraction. */
  lemma QuiescentRicHasNoTimer(s: Link, acts: seq<Action>, s': Link)
    requires Initial(s) && Run(s, acts, s')
    requires s'.unsent == multiset{} && s'.toAgent == [] && s'.toRic == [] && s'.held == multiset{}
    ensures s'.ric.pending == map[] && s'.ric.registered == {s'.ric.epFd} + s'.ric.arming + s'.ric.closing
  {
    InitialInv(s);
    RunKeepsInv(s, acts, s');
    forall fd ensures fd !in s'.ric.pending {
      if fd in s'.ric.pending {
        var q :| s'.ric.pending[fd] == RegisteredAs(q);
        assert Balanced(s', q);
        CountPositive(s'.ric.pending, RegisteredAs(q));
        assert false;
      }
    }
    assert s'.ric.pending.Keys == {};
  }

  // ---- At most one forwarded delete ----

  /** At most one entry, and no thread about to make another without looking. */
  ghost predicate OneDelete(s: Link, id: RicGenId) {
    var q := RicSubscriptionDeleteRequest(id);
    Count(s.ric.pending, RegisteredAs(q)) <= 1 && q !in s.drawn
  }

  /** The action deletes this identifier directly, without the duplicate check. */
  predicate DeletesDirectly(a: Action, id: RicGenId) {
    a.RmReport? && RicGenId(a.actId, 0, a.ranFuncId) == id
  }

  lemma InsertingCounts(r: Ric, q: Request, fd: Fd, id: RicGenId)
    requires fd !in r.pending
    ensures var d := RicSubscriptionDeleteRequest(id);
            Count(InsertTimer(r, fd, RegisteredAs(q)).pending, RegisteredAs(d))
            == Count(r.pending, RegisteredAs(d)) + (if q == d then 1 else 0)
  {
    CountInsert(r.pending, fd, RegisteredAs(q), RegisteredAs(RicSubscriptionDeleteRequest(id)));
    AnswerStopsItsOwnRequest(q, RicSubscriptionDeleteRequest(id));
  }

  lemma StepKeepsOneDelete(s: Link, a: Action, id: RicGenId)
    requires Valid(s.ric) && OneDelete(s, id) && Enabled(s, a) && !DeletesDirectly(a, id)
    ensures OneDelete(Apply(s, a), id)
  {
    var d := RicSubscriptionDeleteRequest(id);
    match a
    case Registers(q, fd) => InsertingCounts(s.ric, q, fd, id);
    case FwdDelete(id', fd) =>
      var q := RicSubscriptionDeleteRequest(id');
      if !AlreadyPending(s.ric, q) {
        CountPositive(s.ric.pending, RegisteredAs(q));
        InsertingCounts(CreateTimer(s.ric, fd), q, fd, id);
      }
    case WorkerHandles(p, fd) =>
      if StoppedBy(p).Some? {
        CountExtract(s.ric.pending, fd, RegisteredAs(d));
      }
    case _ => assert Apply(s, a).ric.pending == s.ric.pending;
  }

  lemma {:induction false} RunKeepsOneDelete(s: Link, acts: seq<Action>, s': Link, id: RicGenId)
    requires Inv(s) && OneDelete(s, id) && Run(s, acts, s')
    requires forall a :: a in acts ==> !DeletesDirectly(a, id)
    ensures OneDelete(s', id)
    decreases |acts|
  {
    if acts != [] {
      assert acts[0] in acts;
      StepKeepsInv(s, acts[0]);
      StepKeepsOneDelete(s, acts[0], id);
      RunKeepsOneDelete(Apply(s, acts[0]), acts[1..], s', id);
    }
  }

  /** In the runs that delete an identifier only through the forwarding path, whose check and
      insertion share one lock, at most one copy of that delete is anywhere between registration and
      handling. */
  lemma AtMostOneForwardedDelete(s: Link, acts: seq<Action>, s': Link, id: RicGenId)
    requires Initial(s) && Run(s, acts, s') && forall a :: a in acts ==> !DeletesDirectly(a, id)
    ensures Outstanding(s', RicSubscriptionDeleteRequest(id)) <= 1
  {
    InitialInv(s);
    assert FdsOf(s.ric.pending, RegisteredAs(RicSubscriptionDeleteRequest(id))) == {};
    RunKeepsOneDelete(s, acts, s', id);
    RequestsAreConserved(s, acts, s', RicSubscriptionDeleteRequest(id));
  }

  lemma Cons(s: Link, a: Action, acts: seq<Action>, s': Link) returns (r: seq<Action>)
    requires Enabled(s, a) && Run(Apply(s, a), acts, s')
    ensures Run(s, r, s')
  {
    r := [a] + acts;
    assert r[1..] == acts;
  }

  lemma {:induction false} Joined(s: Link, a: seq<Action>, m: Link, b: seq<Action>, s': Link) returns (r: seq<Action>)
    requires Run(s, a, m) && Run(m, b, s')
    ensures Run(s, r, s')
    decreases |a|
  {
    if a == [] {
      r := b;
    } else {
      r := Joined(Apply(s, a[0]), a[1..], m, b, s');
      r := Cons(s, a[0], r, s');
    }
  }
}
