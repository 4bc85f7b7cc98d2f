/** Delivery of indications, from the peer through the event loop and the queue to the callback. */
module XAppDelivery {
  import opened E2apTypes
  import opened XApps
  import opened XAppRuns

  /** The arrivals whose identifier was registered on arrival, in order, each with the callback it
      was registered with. */
  function Expected(arrivals: seq<Arrival>): seq<Dispatch> {
    if arrivals == [] then []
    else
      var a := arrivals[|arrivals| - 1];
      Expected(arrivals[..|arrivals| - 1]) +
      (if Key(a.id) in a.registry then [Dispatch(a.registry[Key(a.id)].cb, a.data)] else [])
  }

  ghost predicate DeliveryInv(s: System) {
    && s.invoked + s.x.queue == Expected(s.arrivals)
    && (forall a, k :: a in s.arrivals && k in a.registry ==> k in s.issued && a.registry[k].cb == s.issued[k].cb)
  }

  datatype Item = Item(id: RicGenId, data: Payload)

  /** The indications a peer sends in a run, in order. */
  function PeerSends(acts: seq<Action>): seq<Item> {
    if acts == [] then []
    else (if acts[0].PeerIndicates? then [Item(acts[0].id, acts[0].data)] else []) + PeerSends(acts[1..])
  }

  function Arrived(arrivals: seq<Arrival>): seq<Item> {
    seq(|arrivals|, i requires 0 <= i < |arrivals| => Item(arrivals[i].id, arrivals[i].data))
  }

  /** The indications among the messages of a channel. */
  function InFlight(ms: seq<E42Msg>): seq<Item> {
    if ms == [] then [] else ItemOf(ms[0]) + InFlight(ms[1..])
  }

  function ItemOf(m: E42Msg): seq<Item> {
    if m.Indication? then [Item(m.id, m.data)] else []
  }

  lemma {:induction false} InFlightAppend(a: seq<E42Msg>, b: seq<E42Msg>)
    ensures InFlight(a + b) == InFlight(a) + InFlight(b)
  {
    if a == [] {
      assert a + b == b;
    } else {
      assert (a + b)[1..] == a[1..] + b;
      InFlightAppend(a[1..], b);
      assert ItemOf(a[0]) + (InFlight(a[1..]) + InFlight(b)) == (ItemOf(a[0]) + InFlight(a[1..])) + InFlight(b);
    }
  }

  lemma StepArrives(s: System, a: Action)
    requires Enabled(s, a)
    ensures Arrived(Apply(s, a).arrivals) + InFlight(Apply(s, a).toXapp)
            == Arrived(s.arrivals) + InFlight(s.toXapp) + PeerSends([a])
  {
    var s' := Apply(s, a);
    assert [a][1..] == [];
    if a.PeerAnswers? || a.PeerIndicates? {
      var m := s'.toXapp[|s.toXapp|];
      assert [m][1..] == [];
      InFlightAppend(s.toXapp, [m]);
    } else if a.LoopHandles? && s.toXapp[0].Indication? {
      var m := s.toXapp[0];
      assert Arrived(s'.arrivals) == Arrived(s.arrivals) + [Item(m.id, m.data)];
    }
  }

  lemma {:induction false} ArrivalsFrom(s: System, acts: seq<Action>, s': System)
    requires Run(s, acts, s')
    ensures Arrived(s'.arrivals) + InFlight(s'.toXapp) == Arrived(s.arrivals) + InFlight(s.toXapp) + PeerSends(acts)
    decreases |acts|
  {
    if acts != [] {
      StepArrives(s, acts[0]);
      ArrivalsFrom(Apply(s, acts[0]), acts[1..], s');
      assert [acts[0]][1..] == [];
      assert PeerSends(acts) == PeerSends([acts[0]]) + PeerSends(acts[1..]);
    }
  }

  /** Over every run, the indications that have arrived and those still on the channel are the ones the
      peer has sent, in order; and the loop can handle the next one unless it has the reserved key. */
  lemma ArrivalsAreExact(acts: seq<Action>, s: System)
    requires Run(Initial, acts, s)
    ensures Arrived(s.arrivals) + InFlight(s.toXapp) == PeerSends(acts)
    ensures s.toXapp != [] && s.toXapp[0].Indication? ==>
              forall fd :: Enabled(s, LoopHandles(fd)) <==> s.toXapp[0].id.reqId % 0x1_0000 != 0
  {
    ArrivalsFrom(Initial, acts, s);
  }

  lemma ArrivalKeepsDelivery(s: System, fd: Fd)
    requires Inv(s) && DeliveryInv(s) && Enabled(s, LoopHandles(fd)) && s.toXapp[0].Indication?
    ensures DeliveryInv(Apply(s, LoopHandles(fd)))
  {
    var s' := Apply(s, LoopHandles(fd));
    var m := s.toXapp[0];
    assert s'.arrivals == s.arrivals + [Arrival(m.id, m.data, s.x.registry)];
    assert s'.arrivals[..|s.arrivals|] == s.arrivals;
    forall k | k in s.x.registry ensures k in s.issued && s.x.registry[k].cb == s.issued[k].cb {}
  }

  lemma StepKeepsDelivery(s: System, a: Action)
    requires Inv(s) && DeliveryInv(s) && Enabled(s, a)
    ensures DeliveryInv(Apply(s, a))
  {
    match a
    case LoopHandles(fd) =>
      if s.toXapp[0].Indication? {
        ArrivalKeepsDelivery(s, fd);
      }
    case DispatcherRuns =>
      var s' := Apply(s, a);
      assert s'.invoked + s'.x.queue == s.invoked + s.x.queue;
    case _ =>
  }

  lemma {:induction false} RunKeepsDelivery(s: System, acts: seq<Action>, s': System)
    requires Inv(s) && DeliveryInv(s) && Run(s, acts, s')
    ensures DeliveryInv(s')
    decreases |acts|
  {
    if acts != [] {
      StepKeepsInv(s, acts[0]);
      StepKeepsDelivery(s, acts[0]);
      RunKeepsDelivery(Apply(s, acts[0]), acts[1..], s');
    }
  }

  /** Over every run, what the dispatcher has invoked followed by what is queued is the filter of
      the arrivals: in arrival order, each once, and with the callback given at registration. */
  lemma DeliveryRefinesFilter(acts: seq<Action>, s: System)
    requires Run(Initial, acts, s)
    ensures s.invoked + s.x.queue == Expected(s.arrivals)
    ensures forall a :: a in s.arrivals && Key(a.id) in a.registry ==>
              Key(a.id) in s.issued && a.registry[Key(a.id)].cb == s.issued[Key(a.id)].cb
  {
    InitialInv();
    RunKeepsDelivery(Initial, acts, s);
  }

  lemma {:induction false} DispatchesFrom(s: System) returns (acts: seq<Action>, s': System)
    ensures Run(s, acts, s') && forall a :: a in acts ==> a == DispatcherRuns
    ensures s'.x.queue == [] && s'.invoked == s.invoked + s.x.queue && s'.arrivals == s.arrivals
    decreases |s.x.queue|
  {
    if s.x.queue == [] {
      acts, s' := [], s;
    } else {
      var rest;
      rest, s' := DispatchesFrom(Apply(s, DispatcherRuns));
      acts := [DispatcherRuns] + rest;
      assert acts[1..] == rest;
    }
  }

  /** The dispatcher alone brings every queued indication to its callback: then exactly the expected
      callbacks have run. */
  lemma DeliveryCompletes(acts: seq<Action>, s: System) returns (rest: seq<Action>, s': System)
    requires Run(Initial, acts, s)
    ensures Run(s, rest, s') && forall a :: a in rest ==> a == DispatcherRuns
    ensures s'.x.queue == [] && s'.invoked == Expected(s.arrivals)
  {
    DeliveryRefinesFilter(acts, s);
    rest, s' := DispatchesFrom(s);
  }
}
