/** Identifiers, messages and pending-event keys shared by the near-RT RIC and the E2 agent.
    Payloads are erased: encoding and decoding are the identity on what is left. */
module E2apTypes {
  /** A file descriptor. The kernel's choices are parameters of the operations below. */
  datatype Fd = Fd(num: nat)

  const U8: nat := 0x100
  const U16: nat := 0x1_0000
  const U32: nat := 0x1_0000_0000

  /** 32, 16 and 16 bits in the source. */
  datatype RicGenId = RicGenId(reqId: nat, instId: nat, ranFuncId: nat)

  /** In the order of the C enumeration. */
  datatype PendingEvent =
    | SetupRequestPending
    | SubscriptionRequestPending
    | SubscriptionDeleteRequestPending
    | ControlRequestPending
    | E42SetupRequestPending
    | E42RicSubscriptionRequestPending
    | RicSubscriptionDeleteRequestPending
    | E42RicSubscriptionDeleteRequestPending
    | E42RicControlRequestPending

  datatype PendingKey = PendingKey(ev: PendingEvent, id: RicGenId)

  /** RIC to agent. */
  datatype Request =
    | RicSubscriptionRequest(id: RicGenId)
    | RicSubscriptionDeleteRequest(id: RicGenId)
    | RicControlRequest(id: RicGenId)

  /** Agent to RIC. */
  datatype Reply =
    | RicSubscriptionResponse(id: RicGenId)
    | RicSubscriptionDeleteResponse(id: RicGenId)
    | RicControlAcknowledge(id: RicGenId)
    | RicIndication(id: RicGenId)

  datatype Option<+T> = None | Some(value: T)

  function Rank(ev: PendingEvent): nat {
    match ev
    case SetupRequestPending => 0
    case SubscriptionRequestPending => 1
    case SubscriptionDeleteRequestPending => 2
    case ControlRequestPending => 3
    case E42SetupRequestPending => 4
    case E42RicSubscriptionRequestPending => 5
    case RicSubscriptionDeleteRequestPending => 6
    case E42RicSubscriptionDeleteRequestPending => 7
    case E42RicControlRequestPending => 8
  }

  /** The comparison functions answer 1 for "smaller": the tree then goes left. */
  function CmpPendingEvent(a: PendingEvent, b: PendingEvent): int {
    if Rank(a) < Rank(b) then 1 else if a == b then 0 else -1
  }

  function CmpRicGenId(a: RicGenId, b: RicGenId): int {
    if a.ranFuncId < b.ranFuncId then 1
    else if a.ranFuncId > b.ranFuncId then -1
    else if a.instId < b.instId then 1
    else if a.instId > b.instId then -1
    else if a.reqId < b.reqId then 1
    else if a.reqId > b.reqId then -1
    else 0
  }

  function CmpPendingKey(a: PendingKey, b: PendingKey): int {
    var c := CmpPendingEvent(a.ev, b.ev);
    if c != 0 then c else CmpRicGenId(a.id, b.id)
  }

  /** What the search tree of the pending map relies on: the comparison is a total order, and it
      answers 0 exactly for equal keys, so searching by comparison is searching by equality. */
  lemma PendingKeyOrderIsTotal(a: PendingKey, b: PendingKey, c: PendingKey)
    ensures CmpPendingKey(a, b) == 0 <==> a == b
    ensures CmpPendingKey(a, b) == -CmpPendingKey(b, a)
    ensures CmpPendingKey(a, b) == 1 && CmpPendingKey(b, c) == 1 ==> CmpPendingKey(a, c) == 1
    ensures a.ev == b.ev && a.id.ranFuncId == b.id.ranFuncId && a.id.instId == b.id.instId ==>
              (CmpPendingKey(a, b) == 1 <==> a.id.reqId < b.id.reqId)
  {
  }

  /** The pending key the RIC registers when it issues a request. */
  function RegisteredAs(q: Request): PendingKey {
    match q
    case RicSubscriptionRequest(id) => PendingKey(SubscriptionRequestPending, id)
    case RicSubscriptionDeleteRequest(id) => PendingKey(SubscriptionDeleteRequestPending, id)
    case RicControlRequest(id) => PendingKey(ControlRequestPending, id)
  }

  /** The message the agent's handler of a request returns. */
  function AnswerTo(q: Request): Reply {
    match q
    case RicSubscriptionRequest(id) => RicSubscriptionResponse(id)
    case RicSubscriptionDeleteRequest(id) => RicSubscriptionDeleteResponse(id)
    case RicControlRequest(id) => RicControlAcknowledge(id)
  }

  /** The pending key the RIC's handler of a reply stops; an indication stops none. */
  function StoppedBy(p: Reply): Option<PendingKey> {
    match p
    case RicSubscriptionResponse(id) => Some(PendingKey(SubscriptionRequestPending, id))
    case RicSubscriptionDeleteResponse(id) => Some(PendingKey(SubscriptionDeleteRequestPending, id))
    case RicControlAcknowledge(id) => Some(PendingKey(ControlRequestPending, id))
    case RicIndication(_) => None
  }

  /** The request a keyed reply belongs to. */
  function RequestOf(p: Reply): Request
    requires !p.RicIndication?
  {
    match p
    case RicSubscriptionResponse(id) => RicSubscriptionRequest(id)
    case RicSubscriptionDeleteResponse(id) => RicSubscriptionDeleteRequest(id)
    case RicControlAcknowledge(id) => RicControlRequest(id)
  }

  /** Issuing, answering and stopping close the loop: the answer to a request stops the very key
      under which the request was registered, and different requests never share a key. */
  lemma AnswerStopsItsOwnRequest(q: Request, q': Request)
    ensures StoppedBy(AnswerTo(q)) == Some(RegisteredAs(q))
    ensures RegisteredAs(q) == RegisteredAs(q') <==> q == q'
    ensures AnswerTo(q) == AnswerTo(q') <==> q == q'
    ensures RequestOf(AnswerTo(q)) == q
    ensures AnswerTo(q).id == q.id && RegisteredAs(q).id == q.id
    ensures q.RicSubscriptionRequest? ==>
              AnswerTo(q).RicSubscriptionResponse? && RegisteredAs(q).ev == SubscriptionRequestPending
    ensures q.RicSubscriptionDeleteRequest? ==>
              AnswerTo(q).RicSubscriptionDeleteResponse? && RegisteredAs(q).ev == SubscriptionDeleteRequestPending
    ensures q.RicControlRequest? ==>
              AnswerTo(q).RicControlAcknowledge? && RegisteredAs(q).ev == ControlRequestPending
  {
  }
}
