/** The xApp: src/xApp/act_proc.c, pending_event_xapp.c, msg_handler_xapp.c, msg_dispatcher_xapp.c
    and the identifier generation of e42_xapp.c. */
module XApps {
  import opened E2apTypes
  import opened BiMaps

  datatype Proc = Subscription | SubscriptionDelete | Control

  datatype Callback = Callback(name: nat)
  datatype Payload = Payload(content: nat)

  /** Messages between the xApp and its peer; an answer echoes the identifier of its request. */
  datatype E42Msg =
    | E42Request(proc: Proc, id: RicGenId)
    | Answer(proc: Proc, id: RicGenId)
    | Indication(id: RicGenId, data: Payload)

  /** An active procedure; a control procedure has no callback. */
  datatype ActProc = ActProc(id: RicGenId, cb: Option<Callback>)

  /** An indication on its way to the callback. */
  datatype Dispatch = Dispatch(cb: Option<Callback>, data: Payload)

  datatype XApp = XApp(
    registry: map<nat, ActProc>,
    nextKey: nat,
    pending: map<Fd, PendingKey>,
    registered: set<Fd>,          // timers in the epoll set
    queue: seq<Dispatch>)

  function PendingEventOf(p: Proc): PendingEvent {
    match p
    case Subscription => E42RicSubscriptionRequestPending
    case SubscriptionDelete => E42RicSubscriptionDeleteRequestPending
    case Control => E42RicControlRequestPending
  }

  predicate Fresh(x: XApp, fd: Fd) {
    fd.num > 0 && fd !in x.registered
  }

  /** The pending map compares its events by kind only. */
  function Kinds(m: map<Fd, PendingKey>): map<Fd, PendingEvent> {
    map fd | fd in m :: m[fd].ev
  }

  function FdsOfKind(m: map<Fd, PendingKey>, ev: PendingEvent): set<Fd> {
    FdsOf(Kinds(m), ev)
  }

  /** add_act_proc: the stored identifier has no request number yet. */
  function AddActProc(x: XApp, ranFuncId: nat, cb: Option<Callback>): XApp {
    x.(registry := x.registry[x.nextKey := ActProc(RicGenId(0, 0, ranFuncId), cb)], nextKey := x.nextKey + 1)
  }

  /** The identifier generate_ric_gen_id hands out for it. */
  function IssuedId(x: XApp, ranFuncId: nat): RicGenId {
    RicGenId(x.nextKey, 0, ranFuncId)
  }

  /** The search takes a 16-bit key. */
  function Key(id: RicGenId): nat {
    id.reqId % U16
  }

  /** find_act_proc writes the request number into the stored procedure before it answers. */
  function Completed(e: ActProc, key: nat): ActProc {
    e.(id := e.id.(reqId := key))
  }

  function FindActProc(x: XApp, key: nat): Option<ActProc> {
    if key in x.registry then Some(Completed(x.registry[key], key)) else None
  }

  function Touch(x: XApp, key: nat): XApp {
    if key in x.registry then x.(registry := x.registry[key := Completed(x.registry[key], key)]) else x
  }

  function RmActProc(x: XApp, key: nat): XApp {
    x.(registry := x.registry - {key})
  }

  function AddPendingEvent(x: XApp, fd: Fd, key: PendingKey): XApp {
    x.(registered := x.registered + {fd}, pending := x.pending[fd := key])
  }

  function RmPendingEvent(x: XApp, fd: Fd): XApp {
    x.(registered := x.registered - {fd}, pending := x.pending - {fd})
  }

  /** The three response handlers up to the signal for the UI thread: they do not fail when the
      identifier is in the registry and an event of the kind is pending. */
  predicate AnswerAccepted(x: XApp, p: Proc, id: RicGenId, fd: Fd) {
    Key(id) != 0 && Key(id) in x.registry && fd in FdsOfKind(x.pending, PendingEventOf(p))
  }

  function HandleAnswer(x: XApp, p: Proc, id: RicGenId, fd: Fd): XApp
    requires AnswerAccepted(x, p, id, fd)
  {
    RmPendingEvent(Touch(x, Key(id)), fd)
  }

  function HandleIndication(x: XApp, id: RicGenId, data: Payload): XApp {
    match FindActProc(x, Key(id))
    case None => x
    case Some(e) => Touch(x, Key(id)).(queue := x.queue + [Dispatch(e.cb, data)])
  }

  /** The registry gives back exactly the identifier that was issued, until it is removed. */
  lemma FindReturnsIssuedId(x: XApp, ranFuncId: nat, cb: Option<Callback>)
    requires x.nextKey < U16
    ensures var id := IssuedId(x, ranFuncId);
            && FindActProc(AddActProc(x, ranFuncId, cb), Key(id)) == Some(ActProc(id, cb))
            && FindActProc(RmActProc(AddActProc(x, ranFuncId, cb), Key(id)), Key(id)) == None
  {
  }

  lemma KindCountInsert(m: map<Fd, PendingKey>, fd: Fd, k: PendingKey, ev: PendingEvent)
    requires fd !in m
    ensures Count(Kinds(m[fd := k]), ev) == Count(Kinds(m), ev) + (if k.ev == ev then 1 else 0)
  {
    assert Kinds(m[fd := k]) == Kinds(m)[fd := k.ev];
    CountInsert(Kinds(m), fd, k.ev, ev);
  }

  lemma KindCountExtract(m: map<Fd, PendingKey>, fd: Fd, ev: PendingEvent)
    requires fd in m
    ensures Count(Kinds(m), ev) == Count(Kinds(m - {fd}), ev) + (if m[fd].ev == ev then 1 else 0)
  {
    assert Kinds(m - {fd}) == Kinds(m) - {fd};
    CountExtract(Kinds(m), fd, ev);
  }

  class E42XApp {
    var registry: map<nat, ActProc>
    var nextKey: nat
    var pending: map<Fd, PendingKey>
    var registered: set<Fd>
    var queue: seq<Dispatch>

    ghost function View(): XApp
      reads this
    {
      XApp(registry, nextKey, pending, registered, queue)
    }

    /** Keys start at 1; 0 is reserved. */
    constructor ()
      ensures View() == XApp(map[], 1, map[], {}, [])
    {
      registry, nextKey, pending, registered, queue := map[], 1, map[], {}, [];
    }

    /** Result: `None` is the failed overflow assertion. */
    method GenerateRicGenId(ranFuncId: nat, cb: Option<Callback>) returns (r: Option<RicGenId>)
      modifies this
      ensures r.Some? <==> old(nextKey) < U16
      ensures r.Some? ==> r.value == IssuedId(old(View()), ranFuncId) == RicGenId(old(nextKey), 0, ranFuncId)
      ensures r.Some? <==> old(nextKey) < 0x1_0000
      ensures nextKey == old(nextKey) + 1
      ensures registry == old(registry)[old(nextKey) := ActProc(RicGenId(0, 0, ranFuncId), cb)]
      ensures View() == AddActProc(old(View()), ranFuncId, cb)
    {
      var id := RicGenId(0, 0, ranFuncId);
      var key := nextKey;
      registry := registry[key := ActProc(id, cb)];
      nextKey := nextKey + 1;
      r := if key < U16 then Some(id.(reqId := key)) else None;
    }

    method Find(key: nat) returns (r: Option<ActProc>)
      modifies this`registry
      ensures r == FindActProc(old(View()), key) && View() == Touch(old(View()), key)
      ensures r.Some? <==> key in old(registry)
      ensures r.Some? ==> r.value.cb == old(registry)[key].cb && r.value.id == old(registry)[key].id.(reqId := key)
      ensures registry == if r.Some? then old(registry)[key := r.value] else old(registry)
    {
      if key !in registry {
        return None;
      }
      var e := registry[key];
      registry := registry[key := e.(id := e.id.(reqId := key))];
      r := Some(registry[key]);
    }

    method Remove(key: nat) returns (ok: bool)
      modifies this`registry
      ensures ok <==> key in old(registry)
      ensures View() == if ok then RmActProc(old(View()), key) else old(View())
      ensures registry == old(registry) - {key}
    {
      ok := key in registry;
      if ok {
        registry := registry - {key};
      }
    }

    method AddPending(fdTimer: Fd, key: PendingKey)
      modifies this
      ensures View() == AddPendingEvent(old(View()), fdTimer, key)
      ensures pending == old(pending)[fdTimer := key] && registered == old(registered) + {fdTimer}
    {
      registered := registered + {fdTimer};
      pending := pending[fdTimer := key];
    }

    /** Removes one event of the kind and its timer; `None` is the failed extraction. */
    method RmPending(key: PendingKey) returns (r: Option<Fd>)
      modifies this
      ensures r.None? <==> FdsOfKind(old(pending), key.ev) == {}
      ensures r.Some? ==> r.value in FdsOfKind(old(pending), key.ev)
      ensures View() == if r.Some? then RmPendingEvent(old(View()), r.value) else old(View())
      ensures r.None? <==> forall fd :: fd in old(pending) ==> old(pending)[fd].ev != key.ev
      ensures r.Some? ==> r.value in old(pending) && old(pending)[r.value].ev == key.ev
      ensures r.Some? ==> pending == old(pending) - {r.value} && registered == old(registered) - {r.value}
    {
      assert forall fd :: fd in FdsOfKind(pending, key.ev) <==> fd in pending && pending[fd].ev == key.ev;
      var todo := pending.Keys;
      while todo != {}
        invariant todo <= pending.Keys && View() == old(View())
        invariant forall fd :: fd in pending && fd !in todo ==> pending[fd].ev != key.ev
        decreases |todo|
      {
        var fd :| fd in todo;
        if pending[fd].ev == key.ev {
          assert fd in FdsOfKind(pending, key.ev);
          pending := pending - {fd};
          registered := registered - {fd};
          return Some(fd);
        }
        todo := todo - {fd};
      }
      assert FdsOfKind(pending, key.ev) == {};
      r := None;
    }

    /** The three response handlers; `None` is a failed assertion. */
    method OnAnswer(p: Proc, id: RicGenId) returns (r: Option<Fd>)
      modifies this
      ensures r.None? ==> forall fd :: !AnswerAccepted(old(View()), p, id, fd)
      ensures r.Some? ==> AnswerAccepted(old(View()), p, id, r.value)
      ensures r.Some? ==> View() == HandleAnswer(old(View()), p, id, r.value)
      ensures r.Some? <==> && id.reqId % 0x1_0000 != 0 && id.reqId % 0x1_0000 in old(registry)
                           && exists fd :: fd in old(pending) && old(pending)[fd].ev == PendingEventOf(p)
      ensures r.Some? ==> r.value in old(pending)
      ensures r.Some? && p.Subscription? ==> old(pending)[r.value].ev == E42RicSubscriptionRequestPending
      ensures r.Some? && p.SubscriptionDelete? ==> old(pending)[r.value].ev == E42RicSubscriptionDeleteRequestPending
      ensures r.Some? && p.Control? ==> old(pending)[r.value].ev == E42RicControlRequestPending
      ensures r.Some? ==> pending == old(pending) - {r.value} && registered == old(registered) - {r.value}
      ensures r.Some? ==> registry.Keys == old(registry).Keys && queue == old(queue) && nextKey == old(nextKey)
    {
      if Key(id) == 0 {
        return None;
      }
      var rv := Find(Key(id));
      if rv.None? {
        return None;
      }
      r := RmPending(PendingKey(PendingEventOf(p), rv.value.id));
    }

    /** Result: false when the reserved key trips the registry's assertion. */
    method OnIndication(id: RicGenId, data: Payload) returns (ok: bool)
      modifies this
      ensures ok <==> Key(id) != 0
      ensures View() == if ok then HandleIndication(old(View()), id, data) else old(View())
      ensures ok <==> id.reqId % 0x1_0000 != 0
      ensures var key := id.reqId % 0x1_0000;
              queue == if ok && key in old(registry) then old(queue) + [Dispatch(old(registry)[key].cb, data)]
                       else old(queue)
      ensures registry.Keys == old(registry).Keys && pending == old(pending) && registered == old(registered)
    {
      ok := Key(id) != 0;
      if ok {
        var e := Find(Key(id));
        if e.Some? {
          queue := queue + [Dispatch(e.value.cb, data)];
        }
      }
    }

    /** One turn of the dispatcher's worker. */
    method PopDispatch() returns (d: Dispatch)
      requires queue != []
      modifies this`queue
      ensures [d] + queue == old(queue)
    {
      d := queue[0];
      queue := queue[1..];
    }
  }
}
