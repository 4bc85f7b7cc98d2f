/** The E2 agent: src/agent/e2_agent.c, src/agent/msg_handler_agent.c, src/agent/asio_agent.c.

    One thread serves one ready descriptor at a time, so every operation is atomic. `leaked` is not
    a field of the source: it names the descriptors that stay in the epoll set without an owner. */
module E2Agents {
  import opened E2apTypes
  import opened BiMaps

  datatype Connection = Connection(addr: string, retryCount: nat)

  datatype Agent = Agent(
    epFd: Fd,
    pipeFd: Fd,                       // read end of the pipe for aperiodic events
    registered: set<Fd>,              // open descriptors in the epoll set
    indEvent: map<Fd, RicGenId>,      // subscription timers
    pending: map<Fd, PendingEvent>,   // setup timers
    transId: nat,                     // trans_id_setup_req, 32 bits
    ricAddr: string,
    conns: seq<Connection>)

  datatype EventClass =
    | NetworkEvent
    | AperiodicEvent
    | IndicationEvent(id: RicGenId)
    | PendingTimerEvent(ev: PendingEvent)
    | UnknownEvent

  /** The order of the tests in next_async_event_agent. */
  function Classify(a: Agent, fd: Fd): EventClass {
    if fd == a.epFd then NetworkEvent
    else if fd == a.pipeFd then AperiodicEvent
    else if fd in a.indEvent then IndicationEvent(a.indEvent[fd])
    else if fd in a.pending then PendingTimerEvent(a.pending[fd])
    else UnknownEvent
  }

  predicate Fresh(a: Agent, fd: Fd) {
    fd.num > 0 && fd !in a.registered
  }

  /** Which descriptor a request's handler works on: a new timer for a subscription, one of the
      subscription's timers for a delete that finds its subscription. */
  predicate TakesFd(a: Agent, q: Request, fd: Fd) {
    match q
    case RicSubscriptionRequest(_) => Fresh(a, fd)
    case RicSubscriptionDeleteRequest(id) => FdsOf(a.indEvent, id) == {} || fd in FdsOf(a.indEvent, id)
    case RicControlRequest(_) => true
  }

  /** State change of the three request handlers, for a periodic subscription. A delete answers
      whether or not it finds its subscription. */
  function HandleRequest(a: Agent, q: Request, fd: Fd): Agent {
    match q
    case RicSubscriptionRequest(id) =>
      a.(registered := a.registered + {fd}, indEvent := a.indEvent[fd := id])
    case RicSubscriptionDeleteRequest(id) =>
      if FdsOf(a.indEvent, id) == {} then a
      else a.(registered := a.registered - {fd}, indEvent := a.indEvent - {fd})
    case RicControlRequest(_) => a
  }

  /** Effect of serving a request on the timers of one subscription. */
  lemma ServingCounts(a: Agent, q: Request, fd: Fd, id: RicGenId)
    requires a.indEvent.Keys <= a.registered && TakesFd(a, q, fd)
    ensures Count(HandleRequest(a, q, fd).indEvent, id) ==
            (if q == RicSubscriptionRequest(id) then Count(a.indEvent, id) + 1
             else if q == RicSubscriptionDeleteRequest(id) && Count(a.indEvent, id) > 0 then Count(a.indEvent, id) - 1
             else Count(a.indEvent, id))
  {
    match q
    case RicSubscriptionRequest(id') => CountInsert(a.indEvent, fd, id', id);
    case RicSubscriptionDeleteRequest(id') =>
      CountPositive(a.indEvent, id');
      if FdsOf(a.indEvent, id') != {} { CountExtract(a.indEvent, fd, id); }
    case RicControlRequest(_) =>
  }

  datatype Outcome = Done(agent: Agent) | AssertionFailed

  /** The setup-response handler; `fd` is the descriptor the extraction meets, if any. */
  function HandleSetupResponse(a: Agent, fd: Option<Fd>): Outcome
    requires fd.None? <==> FdsOf(a.pending, SetupRequestPending) == {}
    requires fd.Some? ==> fd.value in FdsOf(a.pending, SetupRequestPending)
  {
    if fd.None? || a.transId == 0 then AssertionFailed
    else Done(a.(registered := a.registered - {fd.value}, pending := a.pending - {fd.value}, transId := 0))
  }

  function FindConnection(conns: seq<Connection>, addr: string): Option<nat> {
    if conns == [] then None
    else if conns[0].addr == addr then Some(0)
    else match FindConnection(conns[1..], addr)
      case None => None
      case Some(i) => Some(i + 1)
  }

  predicate Listed(a: Agent) {
    FindConnection(a.conns, a.ricAddr).Some?
  }

  function NextTransId(t: nat): nat {
    (t + 1) % U32
  }

  /** The setup request has room for the low 8 bits of the counter. */
  function WireTransId(t: nat): nat {
    t % U8
  }

  lemma {:induction false} FindConnectionIsFirst(conns: seq<Connection>, addr: string, i: nat)
    requires i < |conns| && conns[i].addr == addr
    requires forall j :: 0 <= j < i ==> conns[j].addr != addr
    ensures FindConnection(conns, addr) == Some(i)
  {
    if i > 0 {
      FindConnectionIsFirst(conns[1..], addr, i - 1);
    }
  }

  lemma {:induction false} FindConnectionSound(conns: seq<Connection>, addr: string)
    ensures FindConnection(conns, addr).Some? ==>
              var i := FindConnection(conns, addr).value; i < |conns| && conns[i].addr == addr
    ensures FindConnection(conns, addr).None? ==> forall j :: 0 <= j < |conns| ==> conns[j].addr != addr
  {
    if conns != [] {
      FindConnectionSound(conns[1..], addr);
      forall j | 0 < j < |conns| ensures conns[j] == conns[1..][j - 1] {}
    }
  }

  predicate FirstWith(conns: seq<Connection>, addr: string, i: nat) {
    i < |conns| && conns[i].addr == addr && forall j :: 0 <= j < i ==> conns[j].addr != addr
  }

  lemma FirstConnection(conns: seq<Connection>, addr: string)
    requires FindConnection(conns, addr).Some?
    ensures FirstWith(conns, addr, FindConnection(conns, addr).value)
  {
    if conns[0].addr != addr {
      FirstConnection(conns[1..], addr);
      var i := FindConnection(conns, addr).value;
      forall j | 0 < j < i ensures conns[j].addr != addr { assert conns[j] == conns[1..][j - 1]; }
    }
  }

  /** Counting one more attempt does not change any address. */
  lemma {:induction false} CountingKeepsListed(conns: seq<Connection>, addr: string, i: nat, n: nat)
    requires i < |conns|
    ensures FindConnection(conns[i := conns[i].(retryCount := n)], addr) == FindConnection(conns, addr)
  {
    var conns' := conns[i := conns[i].(retryCount := n)];
    if i > 0 {
      assert conns'[1..] == conns[1..][i - 1 := conns[1..][i - 1].(retryCount := n)];
      CountingKeepsListed(conns[1..], addr, i - 1, n);
    } else {
      assert conns'[1..] == conns[1..];
    }
  }

  /** The descriptors still registered once the fired timer and all pending timers are closed. */
  function AfterClosing(a: Agent, fired: Fd): set<Fd> {
    a.registered - {fired} - a.pending.Keys
  }

  /** The process-wide open descriptors after the timer event has closed the fired descriptor,
      another agent's thread has opened one, and the event has closed the pending timers, the fired
      one a second time. */
  function AfterSecondClose(open: set<Fd>, fired: Fd, other: Fd, pending: set<Fd>): set<Fd> {
    ((open - {fired}) + {other}) - pending
  }

  /** The second close leaves the other thread's descriptor open exactly when the kernel has not
      handed the fired one out again. */
  lemma SecondCloseSparesOtherIff(a: Agent, open: set<Fd>, fired: Fd, other: Fd)
    requires fired in a.pending && a.pending.Keys <= open && other !in open - {fired}
    ensures other in AfterSecondClose(open, fired, other, a.pending.Keys) <==> other != fired
  {
  }

  /** The timer event: close the fired timer, then handle_pending_event. */
  function HandlePendingEvent(a: Agent, fired: Fd, newFd: Fd, encoded: bool): Agent {
    match FindConnection(a.conns, a.ricAddr)
    case None => a.(registered := a.registered - {fired})
    case Some(i) =>
      FindConnectionSound(a.conns, a.ricAddr);
      var c := a.conns[i];
      var a' := a.(conns := a.conns[i := c.(retryCount := c.retryCount + 1)], transId := NextTransId(a.transId));
      if encoded then a'.(registered := AfterClosing(a, fired) + {newFd}, pending := map[newFd := SetupRequestPending])
      else a'.(registered := AfterClosing(a, fired), pending := map[])
  }

  /** handle_connection_shutdown: the pending map is emptied without closing its timers. */
  function HandleShutdown(a: Agent, newFd: Fd): Agent {
    a.(registered := a.registered + {newFd}, pending := map[newFd := SetupRequestPending])
  }

  /** e2_start_agent up to its event loop. */
  function Start(a: Agent, newFd: Fd): Agent {
    HandleShutdown(a, newFd).(transId := NextTransId(a.transId))
  }

  ghost predicate AtMostOne<K, V>(m: map<K, V>) {
    forall f, g :: f in m && g in m ==> f == g
  }

  /** The endpoint, the pipe, the subscription timers and the setup timers are pairwise disjoint,
      and with the leaked descriptors they are the whole epoll set. */
  ghost predicate Valid(a: Agent, leaked: set<Fd>) {
    && a.epFd.num > 0 && a.pipeFd.num > 0 && a.epFd != a.pipeFd
    && {a.epFd, a.pipeFd} !! a.indEvent.Keys !! a.pending.Keys !! leaked
    && a.registered == {a.epFd, a.pipeFd} + a.indEvent.Keys + a.pending.Keys + leaked
    && (forall fd :: fd in a.registered ==> fd.num > 0)
    && (forall fd :: fd in a.pending ==> a.pending[fd] == SetupRequestPending)
    && AtMostOne(a.pending)
    && Listed(a)
    && a.transId < U32
  }

  lemma RequestKeepsValid(a: Agent, leaked: set<Fd>, q: Request, fd: Fd)
    requires Valid(a, leaked) && TakesFd(a, q, fd)
    ensures Valid(HandleRequest(a, q, fd), leaked)
  {
    var a' := HandleRequest(a, q, fd);
    match q
    case RicSubscriptionRequest(id) =>
      assert a'.indEvent.Keys == a.indEvent.Keys + {fd};
    case RicSubscriptionDeleteRequest(id) =>
      if FdsOf(a.indEvent, id) != {} {
        assert fd in a.indEvent;
        assert a'.indEvent.Keys == a.indEvent.Keys - {fd};
      }
    case RicControlRequest(_) =>
  }

  lemma PendingEventKeepsValid(a: Agent, leaked: set<Fd>, fired: Fd, newFd: Fd, encoded: bool)
    requires Valid(a, leaked) && fired in a.pending
    requires newFd.num > 0 && newFd !in AfterClosing(a, fired)
    ensures Valid(HandlePendingEvent(a, fired, newFd, encoded), leaked)
  {
    var i := FindConnection(a.conns, a.ricAddr).value;
    FindConnectionSound(a.conns, a.ricAddr);
    CountingKeepsListed(a.conns, a.ricAddr, i, a.conns[i].retryCount + 1);
    assert AfterClosing(a, fired) == {a.epFd, a.pipeFd} + a.indEvent.Keys + leaked;
    var a' := HandlePendingEvent(a, fired, newFd, encoded);
    assert a'.pending.Keys == if encoded then {newFd} else {};
  }

  lemma ShutdownKeepsValid(a: Agent, leaked: set<Fd>, newFd: Fd)
    requires Valid(a, leaked) && Fresh(a, newFd)
    ensures Valid(HandleShutdown(a, newFd), leaked + a.pending.Keys)
  {
    assert HandleShutdown(a, newFd).pending.Keys == {newFd};
  }

  /** A ready descriptor is classified by what created it; exactly the leaked ones are unknown. */
  lemma ClassificationIsExact(a: Agent, leaked: set<Fd>, fd: Fd)
    requires Valid(a, leaked) && fd in a.registered
    ensures Classify(a, fd) == NetworkEvent <==> fd == a.epFd
    ensures Classify(a, fd) == AperiodicEvent <==> fd == a.pipeFd
    ensures forall id :: Classify(a, fd) == IndicationEvent(id) <==> fd in FdsOf(a.indEvent, id)
    ensures forall ev :: Classify(a, fd) == PendingTimerEvent(ev) <==> fd in FdsOf(a.pending, ev)
    ensures Classify(a, fd) == UnknownEvent <==> fd in leaked
  {
    assert fd in {a.epFd, a.pipeFd} || fd in a.indEvent || fd in a.pending || fd in leaked;
  }

  /** The agent's split of a timer period; exact for every period the 64-bit product can hold. */
  function TimerSeconds(ms: nat): nat { ms / 1000 }
  function TimerNanoseconds(ms: nat): nat { (ms * 1000000) % 1000000000 }

  lemma TimerSplitIsExact(ms: nat)
    ensures TimerSeconds(ms) * 1000000000 + TimerNanoseconds(ms) == ms * 1000000
    ensures TimerNanoseconds(ms) < 1000000000
    ensures TimerNanoseconds(ms) == (ms % 1000) * 1000000  // the RIC's formula
  {
    var q, r := ms / 1000, ms % 1000;
    assert ms * 1000000 == q * 1000000000 + r * 1000000;
    assert (ms * 1000000) / 1000000000 == q;
  }

  class E2Agent {
    const epFd: Fd
    const pipeFd: Fd
    const ricAddr: string
    var registered: set<Fd>
    var indEvent: map<Fd, RicGenId>
    var pending: map<Fd, PendingEvent>
    var transId: nat
    var conns: seq<Connection>

    ghost function View(): Agent
      reads this
    {
      Agent(epFd, pipeFd, registered, indEvent, pending, transId, ricAddr, conns)
    }

    /** e2_init_agent: the endpoint and the pipe are registered, every listed RIC starts unretried. */
    constructor (epFd: Fd, pipeFd: Fd, addr: string, addrs: seq<string>)
      requires epFd.num > 0 && pipeFd.num > 0 && epFd != pipeFd
      ensures View() == Agent(epFd, pipeFd, {epFd, pipeFd}, map[], map[], 0, addr,
                              seq(|addrs|, i requires 0 <= i < |addrs| => Connection(addrs[i], 0)))
      ensures addr in addrs ==> Valid(View(), {})
    {
      this.epFd, this.pipeFd, ricAddr := epFd, pipeFd, addr;
      registered := {epFd, pipeFd};
      indEvent, pending, transId := map[], map[], 0;
      conns := seq(|addrs|, i requires 0 <= i < |addrs| => Connection(addrs[i], 0));
      new;
      if addr in addrs {
        var i :| 0 <= i < |addrs| && addrs[i] == addr;
        FindConnectionSound(conns, ricAddr);
        assert conns[i].addr == ricAddr;
        assert indEvent.Keys == {} && pending.Keys == {};
      }
    }

    method SetTimer(newFd: Fd)
      modifies this`registered, this`pending
      ensures View() == HandleShutdown(old(View()), newFd)
      ensures pending == map[newFd := SetupRequestPending] && registered == old(registered) + {newFd}
    {
      pending := map[];
      registered := registered + {newFd};
      pending := pending[newFd := SetupRequestPending];
    }

    /** Result: the transaction identifier put into the setup request. */
    method GenSetupRequest() returns (sent: nat)
      modifies this`transId
      ensures sent == WireTransId(old(transId)) && View() == old(View()).(transId := NextTransId(old(transId)))
      ensures sent == old(transId) % 0x100 && transId == (old(transId) + 1) % 0x1_0000_0000
    {
      sent := transId % U8;
      transId := (transId + 1) % U32;
    }

    /** A first request that cannot be encoded is not sent; its timer stays and will retry. */
    method StartAgent(newFd: Fd, encoded: bool) returns (sent: Option<nat>)
      modifies this
      ensures View() == Start(old(View()), newFd)
      ensures sent == if encoded then Some(old(transId) % 0x100) else None
      ensures transId == (old(transId) + 1) % 0x1_0000_0000 && indEvent == old(indEvent) && conns == old(conns)
      ensures pending == map[newFd := SetupRequestPending] && registered == old(registered) + {newFd}
    {
      SetTimer(newFd);
      var id := GenSetupRequest();
      sent := if encoded then Some(id) else None;
    }

    method HandleSubscriptionRequest(id: RicGenId, fdTimer: Fd) returns (ans: Reply)
      requires Fresh(View(), fdTimer)
      modifies this
      ensures View() == HandleRequest(old(View()), RicSubscriptionRequest(id), fdTimer)
      ensures ans == AnswerTo(RicSubscriptionRequest(id)) == RicSubscriptionResponse(id)
      ensures indEvent == old(indEvent)[fdTimer := id] && registered == old(registered) + {fdTimer}
      ensures pending == old(pending) && transId == old(transId) && conns == old(conns)
    {
      registered := registered + {fdTimer};
      indEvent := indEvent[fdTimer := id];
      ans := RicSubscriptionResponse(id);
    }

    /** stop_ind_event: the search in the subscription tree, then the extraction. */
    method StopIndEvent(id: RicGenId) returns (r: Option<Fd>)
      modifies this
      ensures r.None? <==> FdsOf(old(indEvent), id) == {}
      ensures r.Some? ==> r.value in FdsOf(old(indEvent), id)
      ensures View() == if r.Some? then HandleRequest(old(View()), RicSubscriptionDeleteRequest(id), r.value)
                        else old(View())
      ensures r.None? <==> forall fd :: fd in old(indEvent) ==> old(indEvent)[fd] != id
      ensures r.Some? ==> r.value in old(indEvent) && old(indEvent)[r.value] == id
      ensures r.Some? ==> indEvent == old(indEvent) - {r.value} && registered == old(registered) - {r.value}
    {
      assert forall fd :: fd in FdsOf(indEvent, id) <==> fd in indEvent && indEvent[fd] == id;
      var todo := indEvent.Keys;
      while todo != {}
        invariant todo <= indEvent.Keys && View() == old(View())
        invariant forall fd :: fd in indEvent && fd !in todo ==> indEvent[fd] != id
        decreases |todo|
      {
        var fd :| fd in todo;
        if indEvent[fd] == id {
          assert fd in FdsOf(indEvent, id);
          indEvent := indEvent - {fd};
          registered := registered - {fd};
          return Some(fd);
        }
        todo := todo - {fd};
      }
      assert FdsOf(indEvent, id) == {};
      r := None;
    }

    method HandleSubscriptionDelete(id: RicGenId) returns (ans: Reply, fd: Option<Fd>)
      modifies this
      ensures ans == AnswerTo(RicSubscriptionDeleteRequest(id)) == RicSubscriptionDeleteResponse(id)
      ensures fd.Some? ==> indEvent == old(indEvent) - {fd.value} && registered == old(registered) - {fd.value}
      ensures fd.None? <==> FdsOf(old(indEvent), id) == {}
      ensures fd.Some? ==> TakesFd(old(View()), RicSubscriptionDeleteRequest(id), fd.value)
      ensures fd.Some? ==> View() == HandleRequest(old(View()), RicSubscriptionDeleteRequest(id), fd.value)
      ensures fd.None? ==> View() == old(View())
    {
      fd := StopIndEvent(id);
      ans := RicSubscriptionDeleteResponse(id);
    }

    /** A control request is acknowledged; the agent's own state does not change. */
    method HandleControlRequest(id: RicGenId) returns (ans: Reply)
      ensures ans == AnswerTo(RicControlRequest(id)) == RicControlAcknowledge(id)
    {
      ans := RicControlAcknowledge(id);
    }

    /** A subscription timer has fired: the service model may have nothing to report. */
    method OnIndicationTimer(fd: Fd, hasValue: bool) returns (ind: Option<Reply>)
      ensures ind.Some? <==> fd in indEvent && hasValue
      ensures ind.Some? ==> ind.value == RicIndication(indEvent[fd])
    {
      if fd in indEvent && hasValue {
        ind := Some(RicIndication(indEvent[fd]));
      } else {
        ind := None;
      }
    }

    /** Result: false when one of the handler's two assertions fails. */
    method OnSetupResponse() returns (ok: bool)
      requires forall fd :: fd in pending ==> pending[fd] == SetupRequestPending
      modifies this
      ensures ok <==> old(pending) != map[] && old(transId) > 0
      ensures ok ==> exists fd :: fd in FdsOf(old(pending), SetupRequestPending)
                               && HandleSetupResponse(old(View()), Some(fd)) == Done(View())
                               && pending == old(pending) - {fd} && registered == old(registered) - {fd}
      ensures ok ==> transId == 0 && indEvent == old(indEvent) && conns == old(conns)
    {
      if pending == map[] {
        return false;
      }
      assert pending.Keys != {};
      var fd :| fd in pending.Keys;
      assert fd in FdsOf(pending, SetupRequestPending);
      if transId == 0 {
        return false;
      }
      pending := pending - {fd};
      registered := registered - {fd};
      transId := 0;
      assert HandleSetupResponse(old(View()), Some(fd)) == Done(View());
      ok := true;
    }

    method FindRic() returns (r: Option<nat>)
      ensures r == FindConnection(conns, ricAddr)
      ensures r.Some? ==> r.value < |conns|
    {
      for i := 0 to |conns|
        invariant forall j :: 0 <= j < i ==> conns[j].addr != ricAddr
      {
        if conns[i].addr == ricAddr {
          FindConnectionIsFirst(conns, ricAddr, i);
          return Some(i);
        }
      }
      FindConnectionSound(conns, ricAddr);
      r := None;
    }

    method ClosePendingTimers()
      modifies this`registered, this`pending
      ensures pending == map[] && registered == old(registered) - old(pending).Keys
    {
      var todo := pending.Keys;
      while todo != {}
        invariant todo <= pending.Keys && pending == old(pending)
        invariant registered == old(registered) - (pending.Keys - todo)
        decreases |todo|
      {
        var fd :| fd in todo;
        registered := registered - {fd};
        todo := todo - {fd};
      }
      pending := map[];
    }

    method OnPendingTimer(fired: Fd, newFd: Fd, encoded: bool) returns (sent: Option<nat>)
      requires newFd.num > 0 && newFd !in AfterClosing(View(), fired)
      modifies this
      ensures View() == HandlePendingEvent(old(View()), fired, newFd, encoded)
      ensures Listed(old(View())) <==> exists i: nat :: FirstWith(old(conns), ricAddr, i)
      ensures sent == if Listed(old(View())) && encoded then Some(old(transId) % 0x100) else None
      ensures !Listed(old(View())) ==>
                && registered == old(registered) - {fired} && pending == old(pending)
                && transId == old(transId) && conns == old(conns)
      ensures Listed(old(View())) ==> transId == (old(transId) + 1) % 0x1_0000_0000
      ensures Listed(old(View())) && encoded ==>
                && pending == map[newFd := SetupRequestPending]
                && registered == old(registered) - {fired} - old(pending).Keys + {newFd}
      ensures Listed(old(View())) && !encoded ==>
                pending == map[] && registered == old(registered) - {fired} - old(pending).Keys
      ensures forall i: nat :: FirstWith(old(conns), ricAddr, i) ==>
                conns == old(conns)[i := Connection(ricAddr, old(conns)[i].retryCount + 1)]
    {
      FindConnectionSound(conns, ricAddr);
      if Listed(View()) {
        FirstConnection(conns, ricAddr);
      }
      registered := registered - {fired};
      var ric := FindRic();
      if ric.None? {
        return None;
      }
      ClosePendingTimers();
      var c := conns[ric.value];
      conns := conns[ric.value := c.(retryCount := c.retryCount + 1)];
      SetTimer(newFd);
      var id := GenSetupRequest();
      if encoded {
        sent := Some(id);
      } else {
        registered := registered - {newFd};
        pending := map[];
        sent := None;
      }
    }

    method OnConnectionShutdown(newFd: Fd)
      requires Fresh(View(), newFd)
      modifies this
      ensures View() == HandleShutdown(old(View()), newFd)
      ensures pending == map[newFd := SetupRequestPending] && registered == old(registered) + {newFd}
      ensures transId == old(transId) && indEvent == old(indEvent) && conns == old(conns)
    {
      SetTimer(newFd);
    }

    /** next_async_event_agent on a ready descriptor. */
    method NextAsyncEvent(fd: Fd) returns (c: EventClass)
      ensures c == Classify(View(), fd)
    {
      if fd == epFd {
        c := NetworkEvent;
      } else if fd == pipeFd {
        c := AperiodicEvent;
      } else if fd in indEvent {
        c := IndicationEvent(indEvent[fd]);
      } else if fd in pending {
        c := PendingTimerEvent(pending[fd]);
      } else {
        c := UnknownEvent;
      }
    }
  }
}
