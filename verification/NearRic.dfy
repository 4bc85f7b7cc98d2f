/** The request side of the near-RT RIC: src/ric/near_ric.c and src/ric/msg_handler_ric.c.

    `Ric` is the abstract state, the functions say what each operation does to it, and the class
    `NearRtRic` updates the fields of the source's `near_ric_t` in place. The descriptor of a new
    timer and the descriptor a key extraction meets are the kernel's and the tree's choice: they
    are parameters of the functions. */
module NearRic {
  import opened E2apTypes
  import opened BiMaps

  /** A timer is created (and can expire from then on), inserted into the pending map, extracted
      from it by a worker, and closed. `arming` and `closing` are not fields of the source: they
      name the timers that a thread holds before the insertion and after the extraction. */
  datatype Ric = Ric(
    epFd: Fd,                        // the listening SCTP socket
    registered: set<Fd>,             // descriptors in the epoll set
    arming: set<Fd>,
    pending: map<Fd, PendingKey>,
    closing: set<Fd>,
    reqId: nat,                      // the 32-bit pattern of the atomic counter
    lastReqId: nat,
    retryCount: nat)                 // local counter of the event loop

  const RETRIES := 3

  ghost predicate Valid(r: Ric) {
    && r.epFd.num > 0
    && {r.epFd} !! r.arming !! r.pending.Keys !! r.closing
    && r.registered == {r.epFd} + r.arming + r.pending.Keys + r.closing
    && (forall fd :: fd in r.registered ==> fd.num > 0)
    && (forall fd :: fd in r.pending ==> exists q :: r.pending[fd] == RegisteredAs(q))
  }

  predicate Fresh(r: Ric, fd: Fd) {
    fd.num > 0 && fd !in r.registered
  }

  function CreateTimer(r: Ric, fd: Fd): Ric {
    r.(registered := r.registered + {fd}, arming := r.arming + {fd})
  }

  function InsertTimer(r: Ric, fd: Fd, key: PendingKey): Ric {
    r.(arming := r.arming - {fd}, pending := r.pending[fd := key])
  }

  function AddPending(r: Ric, fd: Fd, key: PendingKey): Ric {
    InsertTimer(CreateTimer(r, fd), fd, key)
  }

  /** The extraction of stop_pending_event, of the descriptor the search met. */
  function Extract(r: Ric, fd: Fd): Ric {
    r.(pending := r.pending - {fd}, closing := r.closing + {fd})
  }

  function CloseTimer(r: Ric, fd: Fd): Ric {
    r.(registered := r.registered - {fd}, closing := r.closing - {fd})
  }

  /** The whole of stop_pending_event. */
  function Stop(r: Ric, fd: Fd): Ric {
    CloseTimer(Extract(r, fd), fd)
  }

  /** `req_id++` on the 32-bit counter. */
  function Bump(r: Ric): Ric {
    r.(reqId := (r.reqId + 1) % U32)
  }

  function ReportRequest(r: Ric, ranFuncId: nat): Request {
    RicSubscriptionRequest(RicGenId(r.reqId, 0, ranFuncId))
  }

  function ControlRequest(r: Ric, ranFuncId: nat): Request {
    RicControlRequest(RicGenId(r.reqId, 0, ranFuncId))
  }

  /** The forwarded control request has the low 16 bits of its 32-bit request number overwritten with
      those of the counter; its high bits stay. */
  function FwdControlRequest(r: Ric, id: RicGenId): Request {
    RicControlRequest(id.(reqId := id.reqId - id.reqId % U16 + r.reqId % U16))
  }

  /** A forwarded subscription rewinds the counter to its own, truncated, identifier. */
  function AdoptReqId(r: Ric, id: RicGenId): Ric {
    var original := id.reqId % U16;
    r.(lastReqId := if original > r.lastReqId then original else r.lastReqId, reqId := original)
  }

  /** The duplicate check made under the lock of the pending map. */
  predicate AlreadyPending(r: Ric, q: Request) {
    exists fd :: fd in r.pending && r.pending[fd] == RegisteredAs(q)
  }

  /** A timeout only moves the retry counter of the loop. */
  function Timeout(r: Ric): Ric {
    r.(retryCount := if r.retryCount < RETRIES then r.retryCount + 1 else 0)
  }

  lemma CreateKeepsValid(r: Ric, fd: Fd)
    requires Valid(r) && Fresh(r, fd)
    ensures Valid(CreateTimer(r, fd))
  {
  }

  lemma InsertKeepsValid(r: Ric, fd: Fd, q: Request)
    requires Valid(r) && fd in r.arming
    ensures Valid(InsertTimer(r, fd, RegisteredAs(q)))
  {
    var r' := InsertTimer(r, fd, RegisteredAs(q));
    assert r'.pending.Keys == r.pending.Keys + {fd};
    forall g | g in r'.pending ensures exists q' :: r'.pending[g] == RegisteredAs(q') {
      if g == fd { assert r'.pending[g] == RegisteredAs(q); } else { assert g in r.pending; }
    }
  }

  lemma AddPendingKeepsValid(r: Ric, fd: Fd, q: Request)
    requires Valid(r) && Fresh(r, fd)
    ensures Valid(AddPending(r, fd, RegisteredAs(q)))
  {
    CreateKeepsValid(r, fd);
    InsertKeepsValid(CreateTimer(r, fd), fd, q);
  }

  lemma ExtractKeepsValid(r: Ric, fd: Fd)
    requires Valid(r) && fd in r.pending
    ensures Valid(Extract(r, fd))
  {
    assert Extract(r, fd).pending.Keys == r.pending.Keys - {fd};
  }

  lemma CloseKeepsValid(r: Ric, fd: Fd)
    requires Valid(r) && fd in r.closing
    ensures Valid(CloseTimer(r, fd))
  {
  }

  lemma StopKeepsValid(r: Ric, fd: Fd)
    requires Valid(r) && fd in r.pending
    ensures Valid(Stop(r, fd))
  {
    ExtractKeepsValid(r, fd);
    CloseKeepsValid(Extract(r, fd), fd);
  }

  /** Only the counter's low half enters a forwarded identifier, and only its low half is replaced. */
  lemma FwdControlKeepsHighHalf(r: Ric, id: RicGenId)
    requires id.reqId < U32
    ensures var got := FwdControlRequest(r, id).id;
            && got.reqId < U32 && got.reqId / U16 == id.reqId / U16 && got.reqId % U16 == r.reqId % U16
            && got.instId == id.instId && got.ranFuncId == id.ranFuncId
  {
    var high, low := id.reqId / U16, r.reqId % U16;
    assert id.reqId - id.reqId % U16 + low == high * U16 + low;
    assert (high * U16 + low) / U16 == high && (high * U16 + low) % U16 == low;
  }

  function Timeouts(r: Ric, n: nat): Ric {
    if n == 0 then r else Timeout(Timeouts(r, n - 1))
  }

  /** Over consecutive timeouts the retry counter goes 1, 2, 3, 0, 1, ..., and nothing else moves. */
  lemma {:induction false} RetryCounterCycles(r: Ric, n: nat)
    requires r.retryCount == 0
    ensures Timeouts(r, n) == r.(retryCount := n % 4)
  {
    if n > 0 {
      RetryCounterCycles(r, n - 1);
    }
  }

  class NearRtRic {
    const epFd: Fd
    var registered: set<Fd>
    ghost var arming: set<Fd>
    var pending: map<Fd, PendingKey>
    ghost var closing: set<Fd>
    var reqId: nat
    var lastReqId: nat
    var retryCount: nat

    ghost function View(): Ric
      reads this
    {
      Ric(epFd, registered, arming, pending, closing, reqId, lastReqId, retryCount)
    }

    /** init_near_ric and the entry of the event loop. */
    constructor (epFd: Fd)
      requires epFd.num > 0
      ensures Valid(View()) && View() == Ric(epFd, {epFd}, {}, map[], {}, 0, 0, 0)
    {
      this.epFd := epFd;
      registered := {epFd};
      arming, pending, closing := {}, map[], {};
      reqId, lastReqId, retryCount := 0, 0, 0;
    }

    /** Timer creation, then the insertion under the lock. */
    method InsertPending(fdTimer: Fd, key: PendingKey)
      modifies this
      ensures View() == AddPending(old(View()), fdTimer, key)
    {
      registered := registered + {fdTimer};
      arming := arming + {fdTimer};
      pending := pending[fdTimer := key];
      arming := arming - {fdTimer};
    }

    method ReportService(ranFuncId: nat, fdTimer: Fd) returns (q: Request)
      requires Valid(View()) && Fresh(View(), fdTimer) && 0 < ranFuncId < 150
      modifies this
      ensures Valid(View())
      ensures q == ReportRequest(old(View()), ranFuncId)
      ensures View() == AddPending(Bump(old(View())), fdTimer, RegisteredAs(q))
      ensures q == RicSubscriptionRequest(RicGenId(old(reqId), 0, ranFuncId))
      ensures reqId == (old(reqId) + 1) % 0x1_0000_0000 && lastReqId == old(lastReqId)
      ensures pending == old(pending)[fdTimer := PendingKey(SubscriptionRequestPending, q.id)]
      ensures registered == old(registered) + {fdTimer}
    {
      var id := RicGenId(reqId, 0, ranFuncId);
      reqId := (reqId + 1) % U32;
      AddPendingKeepsValid(View(), fdTimer, RicSubscriptionRequest(id));
      InsertPending(fdTimer, PendingKey(SubscriptionRequestPending, id));
      q := RicSubscriptionRequest(id);
    }

    method RmReportService(ranFuncId: nat, actId: nat, fdTimer: Fd) returns (q: Request)
      requires Valid(View()) && Fresh(View(), fdTimer) && actId > 0
      modifies this
      ensures Valid(View())
      ensures q == RicSubscriptionDeleteRequest(RicGenId(actId, 0, ranFuncId))
      ensures View() == AddPending(old(View()), fdTimer, RegisteredAs(q))
      ensures reqId == old(reqId) && lastReqId == old(lastReqId)
      ensures pending == old(pending)[fdTimer := PendingKey(SubscriptionDeleteRequestPending, q.id)]
      ensures registered == old(registered) + {fdTimer}
    {
      var id := RicGenId(actId, 0, ranFuncId);
      AddPendingKeepsValid(View(), fdTimer, RicSubscriptionDeleteRequest(id));
      InsertPending(fdTimer, PendingKey(SubscriptionDeleteRequestPending, id));
      q := RicSubscriptionDeleteRequest(id);
    }

    method ControlService(ranFuncId: nat, fdTimer: Fd) returns (q: Request)
      requires Valid(View()) && Fresh(View(), fdTimer)
      requires ranFuncId == 3 || ranFuncId == 145 || ranFuncId == 146
      modifies this
      ensures Valid(View())
      ensures q == ControlRequest(old(View()), ranFuncId)
      ensures View() == AddPending(Bump(old(View())), fdTimer, RegisteredAs(q))
      ensures q == RicControlRequest(RicGenId(old(reqId), 0, ranFuncId))
      ensures reqId == (old(reqId) + 1) % 0x1_0000_0000 && lastReqId == old(lastReqId)
      ensures pending == old(pending)[fdTimer := PendingKey(ControlRequestPending, q.id)]
      ensures registered == old(registered) + {fdTimer}
    {
      var id := RicGenId(reqId, 0, ranFuncId);
      reqId := (reqId + 1) % U32;
      AddPendingKeepsValid(View(), fdTimer, RicControlRequest(id));
      InsertPending(fdTimer, PendingKey(ControlRequestPending, id));
      q := RicControlRequest(id);
    }

    method FwdSubscriptionRequest(q: Request, fdTimer: Fd) returns (id16: nat)
      requires Valid(View()) && Fresh(View(), fdTimer) && q.RicSubscriptionRequest?
      modifies this
      ensures Valid(View())
      ensures View() == AddPending(AdoptReqId(old(View()), q.id), fdTimer, RegisteredAs(q))
      ensures id16 == reqId == q.id.reqId % 0x1_0000
      ensures lastReqId >= old(lastReqId) && lastReqId >= id16 && (lastReqId == old(lastReqId) || lastReqId == id16)
      ensures pending == old(pending)[fdTimer := PendingKey(SubscriptionRequestPending, q.id)]
      ensures registered == old(registered) + {fdTimer}
    {
      id16 := q.id.reqId % U16;
      if id16 > lastReqId {
        lastReqId := id16;
      }
      reqId := id16;
      AddPendingKeepsValid(View(), fdTimer, q);
      InsertPending(fdTimer, PendingKey(SubscriptionRequestPending, q.id));
    }

    /** Forwards a delete unless the same delete is pending; the timer is created after the check. */
    method FwdSubscriptionDelete(q: Request, fdTimer: Fd) returns (sent: bool)
      requires Valid(View()) && Fresh(View(), fdTimer) && q.RicSubscriptionDeleteRequest?
      modifies this
      ensures Valid(View())
      ensures sent <==> !AlreadyPending(old(View()), q)
      ensures sent <==> !exists fd :: fd in old(pending)
                                   && old(pending)[fd] == PendingKey(SubscriptionDeleteRequestPending, q.id)
      ensures sent ==> pending == old(pending)[fdTimer := PendingKey(SubscriptionDeleteRequestPending, q.id)]
                       && registered == old(registered) + {fdTimer}
      ensures !sent ==> pending == old(pending) && registered == old(registered)
      ensures reqId == old(reqId) && lastReqId == old(lastReqId)
      ensures View() == if sent then AddPending(old(View()), fdTimer, RegisteredAs(q)) else old(View())
    {
      var key := PendingKey(SubscriptionDeleteRequestPending, q.id);
      var found := FindRight(key);
      sent := found.None?;
      assert AlreadyPending(View(), q) <==> exists fd :: fd in FdsOf(pending, key);
      if sent {
        AddPendingKeepsValid(View(), fdTimer, q);
        InsertPending(fdTimer, key);
      }
    }

    /** Overwrites the low half of the request number it was given. */
    method FwdControlRequestTo(cr: RicGenId, fdTimer: Fd) returns (q: Request)
      requires Valid(View()) && Fresh(View(), fdTimer)
      modifies this
      ensures Valid(View())
      ensures q == FwdControlRequest(old(View()), cr)
      ensures View() == AddPending(Bump(old(View())), fdTimer, RegisteredAs(q))
      ensures q.RicControlRequest? && q.id == cr.(reqId := q.id.reqId)
      ensures q.id.reqId == cr.reqId - cr.reqId % 0x1_0000 + old(reqId) % 0x1_0000
      ensures reqId == (old(reqId) + 1) % 0x1_0000_0000 && lastReqId == old(lastReqId)
      ensures pending == old(pending)[fdTimer := PendingKey(ControlRequestPending, q.id)]
      ensures registered == old(registered) + {fdTimer}
    {
      var id := cr.(reqId := cr.reqId - cr.reqId % U16 + reqId % U16);
      reqId := (reqId + 1) % U32;
      AddPendingKeepsValid(View(), fdTimer, RicControlRequest(id));
      InsertPending(fdTimer, PendingKey(ControlRequestPending, id));
      q := RicControlRequest(id);
    }

    /** Search of the key-to-descriptor tree. */
    method FindRight(key: PendingKey) returns (r: Option<Fd>)
      ensures r.None? <==> FdsOf(pending, key) == {}
      ensures r.Some? ==> r.value in FdsOf(pending, key)
    {
      var todo := pending.Keys;
      while todo != {}
        invariant todo <= pending.Keys
        invariant forall fd :: fd in pending && fd !in todo ==> pending[fd] != key
        decreases |todo|
      {
        var fd :| fd in todo;
        if pending[fd] == key {
          assert fd in FdsOf(pending, key);
          return Some(fd);
        }
        todo := todo - {fd};
      }
      assert FdsOf(pending, key) == {};
      r := None;
    }

    /** `None` is the assertion failure of the extraction: no entry for this key. */
    method StopPendingEvent(key: PendingKey) returns (r: Option<Fd>)
      requires Valid(View())
      modifies this
      ensures Valid(View())
      ensures r.None? <==> FdsOf(old(pending), key) == {}
      ensures r.Some? ==> r.value in FdsOf(old(pending), key)
      ensures View() == if r.Some? then Stop(old(View()), r.value) else old(View())
      ensures r.None? <==> forall fd :: fd in old(pending) ==> old(pending)[fd] != key
      ensures r.Some? ==> r.value in old(pending) && old(pending)[r.value] == key
      ensures r.Some? ==> pending == old(pending) - {r.value} && registered == old(registered) - {r.value}
      ensures reqId == old(reqId) && lastReqId == old(lastReqId) && retryCount == old(retryCount)
    {
      assert forall fd :: fd in FdsOf(pending, key) <==> fd in pending && pending[fd] == key;
      r := FindRight(key);
      if r.Some? {
        StopKeepsValid(View(), r.value);
        pending := pending - {r.value};
        closing := closing + {r.value};
        registered := registered - {r.value};
        closing := closing - {r.value};
      }
    }

    /** The handlers of the three keyed replies and of the indication: `Some(None)` when there is
        nothing to stop, `None` when the extraction fails. */
    method OnReply(p: Reply) returns (r: Option<Option<Fd>>)
      requires Valid(View())
      modifies this
      ensures Valid(View())
      ensures p.RicIndication? ==> r == Some(None) && View() == old(View())
      ensures r.Some? && !p.RicIndication? ==> r.value.Some? && r.value.value in old(pending)
      ensures r.Some? && r.value.Some? ==> View() == Stop(old(View()), r.value.value)
      ensures r.Some? && p.RicSubscriptionResponse? ==>
                old(pending)[r.value.value] == PendingKey(SubscriptionRequestPending, p.id)
      ensures r.Some? && p.RicSubscriptionDeleteResponse? ==>
                old(pending)[r.value.value] == PendingKey(SubscriptionDeleteRequestPending, p.id)
      ensures r.Some? && p.RicControlAcknowledge? ==>
                old(pending)[r.value.value] == PendingKey(ControlRequestPending, p.id)
      ensures r.None? ==> StoppedBy(p).Some?
      ensures r.None? ==> forall fd :: fd in old(pending) ==> old(pending)[fd] != StoppedBy(p).value
    {
      var key;
      match p {
        case RicSubscriptionResponse(id) => key := PendingKey(SubscriptionRequestPending, id);
        case RicSubscriptionDeleteResponse(id) => key := PendingKey(SubscriptionDeleteRequestPending, id);
        case RicControlAcknowledge(id) => key := PendingKey(ControlRequestPending, id);
        case RicIndication(_) => return Some(None);
      }
      var fd := StopPendingEvent(key);
      r := if fd.None? then None else Some(fd);
    }

    method PendingTimeout()
      requires Valid(View())
      modifies this`retryCount
      ensures Valid(View()) && View() == Timeout(old(View()))
      ensures retryCount == if old(retryCount) < 3 then old(retryCount) + 1 else 0
    {
      if retryCount < RETRIES {
        retryCount := retryCount + 1;
      } else {
        retryCount := 0;
      }
    }
  }
}
