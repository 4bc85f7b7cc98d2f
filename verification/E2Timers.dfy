/** The timer lookup of the RIC's event loop. The loop learns from epoll_wait which descriptors are
    ready and then looks each one up in the pending map, asserting that it is there. Meanwhile other
    threads create, insert, extract and close timers. */
module E2Timers {
  import opened E2apTypes
  import opened BiMaps
  import opened NearRic
  import opened E2Link
  import A = E2Agents

  /** The lookup of a reported descriptor finds the entry of the very timer that was reported. */
  predicate Own(s: Link, fd: Fd)
    requires fd in s.ready
  {
    fd in s.ric.pending && fd in s.timers && s.timers[fd] == s.ready[fd]
  }

  predicate AllOwn(s: Link) {
    forall fd :: fd in s.ready ==> Own(s, fd)
  }

  /** Serial numbers identify timers; a worker's timers are in the log from extraction on; a timer
      that no worker has extracted is still open behind its descriptor. */
  ghost predicate TimerInv(s: Link) {
    && Valid(s.ric)
    && s.timers.Keys == s.ric.arming + s.ric.pending.Keys + s.ric.closing
    && (forall fd :: fd in s.timers ==> s.timers[fd].serial < s.nextTimer)
    && (forall f, g :: f in s.timers && g in s.timers && f != g ==> s.timers[f] != s.timers[g])
    && (forall t :: t in s.extracted ==> t.serial < s.nextTimer)
    && (forall fd :: fd in s.timers ==> (fd in s.ric.closing <==> s.timers[fd] in s.extracted))
    && (forall fd :: fd in s.ready ==> s.ready[fd].serial < s.nextTimer)
    && (forall fd :: fd in s.ready && s.ready[fd] !in s.extracted ==> fd in s.timers && s.timers[fd] == s.ready[fd])
    && (forall fd :: fd in s.ready && fd in s.timers ==> s.ready[fd].serial <= s.timers[fd].serial)
  }

  lemma NewTimerKeeps(s: Link, fd: Fd)
    requires TimerInv(s) && Fresh(s.ric, fd)
    ensures TimerInv(NewTimer(s, fd))
  {
    CreateKeepsValid(s.ric, fd);
    assert NewTimer(s, fd).timers.Keys == s.timers.Keys + {fd};
  }

  lemma InsertKeeps(s: Link, q: Request, fd: Fd)
    requires TimerInv(s) && fd in s.ric.arming
    ensures TimerInv(Insert(s, q, fd))
  {
    InsertKeepsValid(s.ric, fd, q);
    assert Insert(s, q, fd).ric.pending.Keys == s.ric.pending.Keys + {fd};
  }

  lemma ExtractingKeeps(s: Link, s': Link, fd: Fd)
    requires TimerInv(s) && fd in s.ric.pending && fd in s.timers
    requires s'.ric == Extract(s.ric, fd) && s'.timers == s.timers && s'.nextTimer == s.nextTimer
    requires s'.ready == s.ready && s'.extracted == s.extracted + {s.timers[fd]}
    ensures TimerInv(s')
  {
    ExtractKeepsValid(s.ric, fd);
    assert s'.ric.pending.Keys == s.ric.pending.Keys - {fd};
  }

  lemma HandlingKeeps(s: Link, a: Action)
    requires TimerInv(s) && Enabled(s, a) && a.WorkerHandles?
    ensures TimerInv(Apply(s, a))
  {
    if StoppedBy(a.p).Some? {
      assert a.fd in s.timers;
      ExtractingKeeps(s, Apply(s, a), a.fd);
    } else {
      OthersKeep(s, Apply(s, a));
    }
  }

  lemma ClosingKeeps(s: Link, a: Action)
    requires TimerInv(s) && Enabled(s, a) && a.WorkerCloses?
    ensures TimerInv(Apply(s, a))
  {
    CloseKeepsValid(s.ric, a.fd);
    assert Apply(s, a).timers.Keys == s.timers.Keys - {a.fd};
  }

  lemma ReportingKeeps(s: Link, a: Action)
    requires TimerInv(s) && Enabled(s, a) && a.TimersReported?
    ensures TimerInv(Apply(s, a))
  {
  }

  /** Everything else leaves timers and epoll set alone. */
  lemma OthersKeep(s: Link, s': Link)
    requires TimerInv(s)
    requires s'.ric == s.ric.(reqId := s'.ric.reqId, lastReqId := s'.ric.lastReqId, retryCount := s'.ric.retryCount)
    requires s'.timers == s.timers && s'.nextTimer == s.nextTimer && s'.extracted == s.extracted
    requires s'.ready.Keys <= s.ready.Keys && forall fd :: fd in s'.ready ==> s'.ready[fd] == s.ready[fd]
    ensures TimerInv(s')
  {
  }

  lemma RegisteringKeeps(s: Link, a: Action)
    requires TimerInv(s) && Enabled(s, a) && a.Registers?
    ensures TimerInv(Apply(s, a))
  {
    var m := s.(drawn := s.drawn - multiset{a.q});
    OthersKeep(s, m);
    InsertKeeps(m, a.q, a.fd);
  }

  lemma ForwardingDeleteKeeps(s: Link, a: Action)
    requires TimerInv(s) && Enabled(s, a) && a.FwdDelete?
    ensures TimerInv(Apply(s, a))
  {
    if !AlreadyPending(s.ric, RicSubscriptionDeleteRequest(a.id)) {
      NewTimerKeeps(s, a.fd);
      InsertKeeps(NewTimer(s, a.fd), RicSubscriptionDeleteRequest(a.id), a.fd);
      OthersKeep(Insert(NewTimer(s, a.fd), RicSubscriptionDeleteRequest(a.id), a.fd), Apply(s, a));
    }
  }

  /** The steps that change neither timers nor the entries of the pending map. */
  predicate LeavesTimers(a: Action) {
    Draws(a) || a.Send? || a.AgentServes? || a.AgentIndicates? || a.RicReceives? || a.TimerLookedUp?
  }

  lemma LeavesTimersAlone(s: Link, a: Action)
    requires Enabled(s, a) && LeavesTimers(a)
    ensures var s' := Apply(s, a);
            && s'.ric == s.ric.(reqId := s'.ric.reqId, lastReqId := s'.ric.lastReqId, retryCount := s'.ric.retryCount)
            && s'.timers == s.timers && s'.nextTimer == s.nextTimer && s'.extracted == s.extracted
            && s'.ready.Keys <= s.ready.Keys && forall fd :: fd in s'.ready ==> s'.ready[fd] == s.ready[fd]
  {
  }

  lemma RegistrationKeeps(s: Link, a: Action)
    requires TimerInv(s) && Enabled(s, a) && (a.TimerCreated? || a.Registers? || a.FwdDelete?)
    ensures TimerInv(Apply(s, a))
  {
    match a
    case TimerCreated(_) => NewTimerKeeps(s, a.fd);
    case Registers(_, _) => RegisteringKeeps(s, a);
    case FwdDelete(_, _) => ForwardingDeleteKeeps(s, a);
  }

  lemma StopAndReportKeep(s: Link, a: Action)
    requires TimerInv(s) && Enabled(s, a) && (a.WorkerHandles? || a.WorkerCloses? || a.TimersReported?)
    ensures TimerInv(Apply(s, a))
  {
    match a
    case WorkerHandles(_, _) => HandlingKeeps(s, a);
    case WorkerCloses(_) => ClosingKeeps(s, a);
    case TimersReported(_) => ReportingKeeps(s, a);
  }

  lemma StepKeepsTimerInv(s: Link, a: Action)
    requires TimerInv(s) && Enabled(s, a)
    ensures TimerInv(Apply(s, a))
  {
    if LeavesTimers(a) {
      LeavesTimersAlone(s, a);
      OthersKeep(s, Apply(s, a));
    } else if a.TimerCreated? || a.Registers? || a.FwdDelete? {
      RegistrationKeeps(s, a);
    } else {
      StopAndReportKeep(s, a);
    }
  }

  lemma {:induction false} RunKeepsTimerInv(s: Link, acts: seq<Action>, s': Link)
    requires TimerInv(s) && Run(s, acts, s')
    ensures TimerInv(s')
    decreases |acts|
  {
    if acts != [] {
      StepKeepsTimerInv(s, acts[0]);
      RunKeepsTimerInv(Apply(s, acts[0]), acts[1..], s');
    }
  }

  lemma InitialTimerInv(s: Link)
    requires Initial(s)
    ensures TimerInv(s) && AllOwn(s)
  {
    assert s.ric.arming == {} && s.ric.closing == {};
  }

  // ---- One lookup ----

  /** Over every run, a lookup finds the reported timer exactly when that timer has been inserted and
      no worker has extracted it since it was created. When it finds an entry of another timer, that
      timer was created later on the same descriptor and the reported one has been extracted. */
  lemma LookupIsExact(s: Link, acts: seq<Action>, s': Link, fd: Fd)
    requires Initial(s) && Run(s, acts, s') && fd in s'.ready
    ensures Own(s', fd) <==> s'.ready[fd] !in s'.extracted && fd !in s'.ric.arming
    ensures Own(s', fd) ==> Enabled(s', TimerLookedUp(fd))
    ensures Enabled(s', TimerLookedUp(fd)) && !Own(s', fd) ==>
              s'.ready[fd] in s'.extracted && fd in s'.timers && s'.ready[fd].serial < s'.timers[fd].serial
  {
    InitialTimerInv(s);
    RunKeepsTimerInv(s, acts, s');
  }

  // ---- All lookups of a run ----

  /** In every state of the run, all reported timers still to be looked up would be found. */
  ghost predicate AlwaysOwn(s: Link, acts: seq<Action>)
    decreases |acts|
  {
    AllOwn(s) && (acts != [] && Enabled(s, acts[0]) ==> AlwaysOwn(Apply(s, acts[0]), acts[1..]))
  }

  /** The step lets a report overlap another thread's work on the same timer: a timer is reported
      that is not inserted yet or already extracted, or a worker extracts a reported timer. */
  predicate Overlaps(s: Link, a: Action) {
    match a
    case TimersReported(fds) => exists fd :: fd in fds && (fd in s.ric.arming || fd in s.ric.closing)
    case WorkerHandles(p, fd) => StoppedBy(p).Some? && fd in s.ready
    case _ => false
  }

  ghost predicate NoOverlap(s: Link, acts: seq<Action>)
    decreases |acts|
  {
    acts != [] && Enabled(s, acts[0]) ==> !Overlaps(s, acts[0]) && NoOverlap(Apply(s, acts[0]), acts[1..])
  }

  lemma InsertKeepsOwn(s: Link, q: Request, fd: Fd)
    requires TimerInv(s) && AllOwn(s) && fd in s.ric.arming
    ensures AllOwn(Insert(s, q, fd))
  {
  }

  lemma NewTimerKeepsOwn(s: Link, fd: Fd)
    requires TimerInv(s) && AllOwn(s) && Fresh(s.ric, fd)
    ensures AllOwn(NewTimer(s, fd))
  {
    assert fd !in s.ready;
  }

  lemma HandlingKeepsOwnIff(s: Link, p: Reply, fd: Fd)
    requires TimerInv(s) && AllOwn(s) && Enabled(s, WorkerHandles(p, fd))
    ensures AllOwn(Apply(s, WorkerHandles(p, fd))) <==> !Overlaps(s, WorkerHandles(p, fd))
  {
    var s' := Apply(s, WorkerHandles(p, fd));
    if Overlaps(s, WorkerHandles(p, fd)) {
      assert fd in s'.ready && !Own(s', fd);
    }
  }

  lemma ReportingKeepsOwnIff(s: Link, fds: set<Fd>)
    requires TimerInv(s) && AllOwn(s) && Enabled(s, TimersReported(fds))
    ensures AllOwn(Apply(s, TimersReported(fds))) <==> !Overlaps(s, TimersReported(fds))
  {
    var s' := Apply(s, TimersReported(fds));
    if Overlaps(s, TimersReported(fds)) {
      var fd :| fd in fds && (fd in s.ric.arming || fd in s.ric.closing);
      assert fd in s'.ready && !Own(s', fd);
    }
  }

  lemma ClosingKeepsOwn(s: Link, fd: Fd)
    requires TimerInv(s) && AllOwn(s) && Enabled(s, WorkerCloses(fd))
    ensures AllOwn(Apply(s, WorkerCloses(fd)))
  {
    assert fd in s.ready ==> Own(s, fd);
  }

  lemma RegisteringKeepsOwn(s: Link, q: Request, fd: Fd)
    requires TimerInv(s) && AllOwn(s) && Enabled(s, Registers(q, fd))
    ensures AllOwn(Apply(s, Registers(q, fd)))
  {
    var m := s.(drawn := s.drawn - multiset{q});
    OthersKeep(s, m);
    OthersKeepOwn(s, m);
    InsertKeepsOwn(m, q, fd);
  }

  lemma ForwardingDeleteKeepsOwn(s: Link, id: RicGenId, fd: Fd)
    requires TimerInv(s) && AllOwn(s) && Enabled(s, FwdDelete(id, fd))
    ensures AllOwn(Apply(s, FwdDelete(id, fd)))
  {
    if !AlreadyPending(s.ric, RicSubscriptionDeleteRequest(id)) {
      NewTimerKeeps(s, fd);
      NewTimerKeepsOwn(s, fd);
      InsertKeepsOwn(NewTimer(s, fd), RicSubscriptionDeleteRequest(id), fd);
    }
  }

  lemma StepKeepsOwnIff(s: Link, a: Action)
    requires TimerInv(s) && AllOwn(s) && Enabled(s, a)
    ensures AllOwn(Apply(s, a)) <==> !Overlaps(s, a)
  {
    match a
    case TimerCreated(fd) => NewTimerKeepsOwn(s, fd);
    case Registers(q, fd) => RegisteringKeepsOwn(s, q, fd);
    case FwdDelete(id, fd) => ForwardingDeleteKeepsOwn(s, id, fd);
    case WorkerHandles(p, fd) => HandlingKeepsOwnIff(s, p, fd);
    case WorkerCloses(fd) => ClosingKeepsOwn(s, fd);
    case TimersReported(fds) => ReportingKeepsOwnIff(s, fds);
    case _ =>
      LeavesTimersAlone(s, a);
      OthersKeepOwn(s, Apply(s, a));
  }

  lemma OthersKeepOwn(s: Link, s': Link)
    requires AllOwn(s) && s'.ric.pending == s.ric.pending && s'.timers == s.timers
    requires s'.ready.Keys <= s.ready.Keys && forall fd :: fd in s'.ready ==> s'.ready[fd] == s.ready[fd]
    ensures AllOwn(s')
  {
    forall fd | fd in s'.ready ensures Own(s', fd) {
      assert Own(s, fd);
    }
  }

  lemma {:induction false} OwnIffNoOverlap(s: Link, acts: seq<Action>, s': Link)
    requires TimerInv(s) && AllOwn(s) && Run(s, acts, s')
    ensures AlwaysOwn(s, acts) <==> NoOverlap(s, acts)
    decreases |acts|
  {
    if acts != [] {
      StepKeepsTimerInv(s, acts[0]);
      StepKeepsOwnIff(s, acts[0]);
      if AllOwn(Apply(s, acts[0])) {
        OwnIffNoOverlap(Apply(s, acts[0]), acts[1..], s');
      }
    }
  }

  /** Over every run, descriptor reuse included: every reported timer is found as itself, up to its
      lookup, exactly when no report overlaps a creation or a stop of the same timer. */
  lemma LookupsAreSafeIffNoOverlap(s: Link, acts: seq<Action>, s': Link)
    requires Initial(s) && Run(s, acts, s')
    ensures AlwaysOwn(s, acts) <==> NoOverlap(s, acts)
  {
    InitialTimerInv(s);
    OwnIffNoOverlap(s, acts, s');
  }

  // ---- Four runs that overlap ----

  /** A report is registered: identifier, timer, insertion. */
  lemma Registered(s: Link, rf: nat, fd: Fd) returns (acts: seq<Action>, s': Link)
    requires Initial(s) && Fresh(s.ric, fd)
    ensures Run(s, acts, s')
    ensures var q := ReportRequest(s.ric, rf);
            s' == s.(ric := s'.ric, timers := map[fd := Timer(0)], nextTimer := 1, drawn := s'.drawn,
                     unsent := multiset{q}, generated := [q], issued := [q])
            && s'.ric.pending == map[fd := RegisteredAs(q)]
  {
    var q := ReportRequest(s.ric, rf);
    var s1 := Apply(s, Report(rf));
    var s2 := Apply(s1, TimerCreated(fd));
    s' := Apply(s2, Registers(q, fd));
    acts := Cons(s2, Registers(q, fd), [], s');
    acts := Cons(s1, TimerCreated(fd), acts, s');
    acts := Cons(s, Report(rf), acts, s');
  }

  /** It is sent, served and answered; the answer is with a worker. */
  lemma Served(s: Link, q: Request, fdInd: Fd) returns (acts: seq<Action>, s': Link)
    requires q in s.unsent && q.RicSubscriptionRequest? && s.toAgent == [] && s.toRic == []
    requires A.Fresh(s.agent, fdInd)
    ensures Run(s, acts, s') && AnswerTo(q) in s'.held
    ensures s'.ric == s.ric && s'.timers == s.timers && s'.ready == s.ready
  {
    var s1 := Apply(s, Send(q));
    assert s1.toAgent == [q];
    var s2 := Apply(s1, AgentServes(fdInd));
    assert s2.toRic == [AnswerTo(q)];
    s' := Apply(s2, RicReceives);
    acts := Cons(s2, RicReceives, [], s');
    acts := Cons(s1, AgentServes(fdInd), acts, s');
    acts := Cons(s, Send(q), acts, s');
  }

  lemma Answered(s: Link, rf: nat, fd: Fd, fdInd: Fd) returns (acts: seq<Action>, s': Link)
    requires Initial(s) && Fresh(s.ric, fd) && A.Fresh(s.agent, fdInd)
    ensures Run(s, acts, s') && AnswerTo(ReportRequest(s.ric, rf)) in s'.held
    ensures s'.ric.pending == map[fd := RegisteredAs(ReportRequest(s.ric, rf))] && fd in s'.timers && s'.ready == map[]
  {
    var first, m := Registered(s, rf, fd);
    var rest;
    rest, s' := Served(m, ReportRequest(s.ric, rf), fdInd);
    acts := Joined(s, first, m, rest, s');
  }

  /** From there: the timer is reported, then the worker takes it. */
  lemma TakenAfterReport(s: Link, q: Request, fd: Fd) returns (acts: seq<Action>, s': Link)
    requires AnswerTo(q) in s.held && s.ready == map[] && fd in s.timers && s.ric.pending == map[fd := RegisteredAs(q)]
    ensures Run(s, acts, s') && fd in s'.ready && s'.ready[fd] == s.timers[fd] && s'.timers == s.timers
    ensures s'.ric == Extract(s.ric, fd) && fd !in s'.ric.pending
  {
    AnswerStopsItsOwnRequest(q, q);
    var p := AnswerTo(q);
    var s1 := Apply(s, TimersReported({fd}));
    s' := Apply(s1, WorkerHandles(p, fd));
    acts := Cons(s1, WorkerHandles(p, fd), [], s');
    acts := Cons(s, TimersReported({fd}), acts, s');
  }

  /** Reported, then stopped by a worker, then looked up: the lookup fails. */
  lemma StoppedBeforeLookup(s: Link, rf: nat, fd: Fd, fdInd: Fd) returns (acts: seq<Action>, s': Link)
    requires Initial(s) && Fresh(s.ric, fd) && A.Fresh(s.agent, fdInd)
    ensures Run(s, acts, s') && fd in s'.ready && !Enabled(s', TimerLookedUp(fd))
  {
    var first, m := Answered(s, rf, fd, fdInd);
    var rest;
    rest, s' := TakenAfterReport(m, ReportRequest(s.ric, rf), fd);
    acts := Joined(s, first, m, rest, s');
    NotPendingFails(s', fd);
  }

  lemma NotPendingFails(s: Link, fd: Fd)
    requires fd !in s.ric.pending
    ensures !Enabled(s, TimerLookedUp(fd))
  {
  }

  lemma ReportedAfterTaken(s: Link, q: Request, fd: Fd) returns (acts: seq<Action>, s': Link)
    requires AnswerTo(q) in s.held && s.ready == map[] && fd in s.timers && s.ric.pending == map[fd := RegisteredAs(q)]
    ensures acts == [WorkerHandles(AnswerTo(q), fd), TimersReported({fd})] && Run(s, acts, s')
    ensures fd in s'.ready && fd !in s'.ric.pending
  {
    AnswerStopsItsOwnRequest(q, q);
    var last := TimersReported({fd});
    var s1 := Apply(s, WorkerHandles(AnswerTo(q), fd));
    s' := Apply(s1, last);
    acts := [WorkerHandles(AnswerTo(q), fd), last];
    assert acts[1..] == [last] && [last][1..] == [];
    assert Run(s1, [last], s');
  }

  /** Extracted, but reported before the worker closes it: the lookup fails. */
  lemma ReportedBeforeClose(s: Link, rf: nat, fd: Fd, fdInd: Fd) returns (acts: seq<Action>, s': Link)
    requires Initial(s) && Fresh(s.ric, fd) && A.Fresh(s.agent, fdInd)
    ensures Run(s, acts, s') && fd in s'.ready && !Enabled(s', TimerLookedUp(fd))
    ensures |acts| >= 2 && acts[|acts| - 2].WorkerHandles? && acts[|acts| - 1] == TimersReported({fd})
  {
    var first, m := Answered(s, rf, fd, fdInd);
    var last;
    last, s' := ReportedAfterTaken(m, ReportRequest(s.ric, rf), fd);
    RunAppend(s, first, m, last, s');
    acts := first + last;
  }

  lemma {:induction false} RunAppend(s: Link, a: seq<Action>, m: Link, b: seq<Action>, s': Link)
    requires Run(s, a, m) && Run(m, b, s')
    ensures Run(s, a + b, s')
    decreases |a|
  {
    if a == [] {
      assert a + b == b;
    } else {
      assert (a + b)[1..] == a[1..] + b;
      RunAppend(Apply(s, a[0]), a[1..], m, b, s');
    }
  }

  /** Reported before its thread inserts it: the lookup fails. */
  lemma ReportedBeforeInsertion(s: Link, fd: Fd) returns (acts: seq<Action>, s': Link)
    requires Initial(s) && Fresh(s.ric, fd)
    ensures Run(s, acts, s') && fd in s'.ready && !Enabled(s', TimerLookedUp(fd))
  {
    var s1 := NewTimer(s, fd);
    assert s1 == Apply(s, TimerCreated(fd));
    s' := Apply(s1, TimersReported({fd}));
    assert fd in s'.ready && s'.ric.pending == map[];
    acts := Cons(s1, TimersReported({fd}), [], s');
    acts := Cons(s, TimerCreated(fd), acts, s');
  }

  /** Stopped, closed, and handed to the next request before the lookup: it succeeds on the timer of
      another request. */
  lemma ReusedBeforeLookup(s: Link, rf: nat, fd: Fd, fdInd: Fd) returns (acts: seq<Action>, s': Link)
    requires Initial(s) && Fresh(s.ric, fd) && A.Fresh(s.agent, fdInd)
    ensures Run(s, acts, s') && fd in s'.ready && Enabled(s', TimerLookedUp(fd)) && !Own(s', fd)
  {
    var first, m := Answered(s, rf, fd, fdInd);
    var second, t := TakenAfterReport(m, ReportRequest(s.ric, rf), fd);
    var third;
    third, s' := Reused(t, rf, fd);
    acts := Joined(m, second, t, third, s');
    acts := Joined(s, first, m, acts, s');
    InitialTimerInv(s);
    RunKeepsTimerInv(s, first, m);
    RunKeepsTimerInv(m, second, t);
  }

  lemma Reused(s: Link, rf: nat, fd: Fd) returns (acts: seq<Action>, s': Link)
    requires fd in s.ric.closing && fd.num > 0
    ensures Run(s, acts, s') && fd in s'.ric.pending && s'.ready == s.ready
    ensures fd in s'.timers && s'.timers[fd] == Timer(s.nextTimer)
  {
    var q := ReportRequest(CloseTimer(s.ric, fd), rf);
    var s1 := Apply(s, WorkerCloses(fd));
    var s2 := Apply(s1, Report(rf));
    var s3 := Apply(s2, TimerCreated(fd));
    s' := Apply(s3, Registers(q, fd));
    acts := Cons(s3, Registers(q, fd), [], s');
    acts := Cons(s2, TimerCreated(fd), acts, s');
    acts := Cons(s1, Report(rf), acts, s');
    acts := Cons(s, WorkerCloses(fd), acts, s');
  }
}
