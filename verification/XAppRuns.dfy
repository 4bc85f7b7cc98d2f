/** Every interleaving of the xApp's UI thread, its event loop, its dispatcher and the peer. */
module XAppRuns {
  import opened E2apTypes
  import opened BiMaps
  import opened XApps

  /** Where the UI thread is. A subscription arms its timer before it sends; a delete and a control
      request send first. */
  datatype Ui =
    | Idle
    | Chosen(proc: Proc, id: RicGenId)
    | Armed(id: RicGenId)
    | Sent(proc: Proc, id: RicGenId)
    | Waiting(proc: Proc, id: RicGenId)

  /** An arriving indication with the registry it met. */
  datatype Arrival = Arrival(id: RicGenId, data: Payload, registry: map<nat, ActProc>)

  datatype System = System(
    x: XApp,
    ui: Ui,
    toPeer: seq<E42Msg>,
    toXapp: seq<E42Msg>,
    issued: map<nat, ActProc>,    // log: every procedure ever registered, with its identifier
    arrivals: seq<Arrival>,       // log: indications handled by the event loop
    invoked: seq<Dispatch>)       // log: callbacks run by the dispatcher

  datatype Action =
    | UiRegisters(proc: Proc, ranFuncId: nat, cb: Option<Callback>)
    | UiPicksForDelete(key: nat)
    | UiArms(fd: Fd)
    | UiSends
    | UiWakes
    | PeerAnswers(i: nat)
    | PeerIndicates(id: RicGenId, data: Payload)
    | LoopHandles(fd: Fd)
    | DispatcherRuns

  predicate Enabled(s: System, a: Action) {
    match a
    case UiRegisters(proc, _, _) => s.ui.Idle? && proc != SubscriptionDelete && s.x.nextKey < U16
    case UiPicksForDelete(key) => s.ui.Idle? && key in s.x.registry
    case UiArms(fd) =>
      Fresh(s.x, fd) && ((s.ui.Chosen? && s.ui.proc == Subscription) || s.ui.Sent?)
    case UiSends => s.ui.Armed? || (s.ui.Chosen? && s.ui.proc != Subscription)
    case UiWakes => s.ui.Waiting? && (s.ui.proc != Subscription ==> Key(s.ui.id) in s.x.registry)
    case PeerAnswers(i) => i < |s.toPeer| && s.toPeer[i].E42Request?
    case PeerIndicates(_, _) => true
    case LoopHandles(fd) =>
      && s.toXapp != []
      && (match s.toXapp[0] {
            case Answer(p, id) => AnswerAccepted(s.x, p, id, fd)
            case Indication(id, _) => Key(id) != 0
            case E42Request(_, _) => false
          })
    case DispatcherRuns => s.x.queue != []
  }

  function UiProc(ui: Ui): Proc
    requires !ui.Idle?
  {
    if ui.Armed? then Subscription else ui.proc
  }

  function Apply(s: System, a: Action): System
    requires Enabled(s, a)
  {
    match a
    case UiRegisters(proc, rf, cb) =>
      var id := IssuedId(s.x, rf);
      s.(x := AddActProc(s.x, rf, cb), ui := Chosen(proc, id), issued := s.issued[s.x.nextKey := ActProc(id, cb)])
    case UiPicksForDelete(key) =>
      s.(x := Touch(s.x, key), ui := Chosen(SubscriptionDelete, FindActProc(s.x, key).value.id))
    case UiArms(fd) =>
      var p := UiProc(s.ui);
      s.(x := AddPendingEvent(s.x, fd, PendingKey(PendingEventOf(p), s.ui.id)),
         ui := if p == Subscription then Armed(s.ui.id) else Waiting(p, s.ui.id))
    case UiSends =>
      var p := UiProc(s.ui);
      s.(toPeer := s.toPeer + [E42Request(p, s.ui.id)],
         ui := if p == Subscription then Waiting(p, s.ui.id) else Sent(p, s.ui.id))
    case UiWakes =>
      s.(ui := Idle, x := if s.ui.proc == Subscription then s.x else RmActProc(s.x, Key(s.ui.id)))
    case PeerAnswers(i) =>
      var q := s.toPeer[i];
      s.(toPeer := s.toPeer[..i] + s.toPeer[i + 1..], toXapp := s.toXapp + [Answer(q.proc, q.id)])
    case PeerIndicates(id, data) => s.(toXapp := s.toXapp + [Indication(id, data)])
    case LoopHandles(fd) =>
      var m, rest := s.toXapp[0], s.toXapp[1..];
      if m.Answer? then s.(x := HandleAnswer(s.x, m.proc, m.id, fd), toXapp := rest)
      else s.(x := HandleIndication(s.x, m.id, m.data), toXapp := rest,
              arrivals := s.arrivals + [Arrival(m.id, m.data, s.x.registry)])
    case DispatcherRuns =>
      s.(x := s.x.(queue := s.x.queue[1..]), invoked := s.invoked + [s.x.queue[0]])
  }

  ghost predicate Run(s: System, acts: seq<Action>, s': System)
    decreases |acts|
  {
    if acts == [] then s == s' else Enabled(s, acts[0]) && Run(Apply(s, acts[0]), acts[1..], s')
  }

  const Initial := System(XApp(map[], 1, map[], {}, []), Idle, [], [], map[], [], [])

  // ---- Counting ----

  function MsgCount(ms: seq<E42Msg>, p: Proc): nat {
    if ms == [] then 0
    else MsgCount(ms[1..], p) + (if !ms[0].Indication? && ms[0].proc == p then 1 else 0)
  }

  lemma {:induction false} MsgCountAppend(a: seq<E42Msg>, b: seq<E42Msg>, p: Proc)
    ensures MsgCount(a + b, p) == MsgCount(a, p) + MsgCount(b, p)
  {
    if a == [] {
      assert a + b == b;
    } else {
      assert (a + b)[1..] == a[1..] + b;
      MsgCountAppend(a[1..], b, p);
    }
  }

  lemma MsgCountOne(m: E42Msg, p: Proc)
    ensures MsgCount([m], p) == if !m.Indication? && m.proc == p then 1 else 0
  {
    assert [m][1..] == [];
  }

  lemma {:induction false} MsgCountPositive(ms: seq<E42Msg>, m: E42Msg, p: Proc)
    requires m in ms && !m.Indication? && m.proc == p
    ensures MsgCount(ms, p) > 0
  {
    if ms[0] != m {
      MsgCountPositive(ms[1..], m, p);
    }
  }

  /** Requests of a procedure sent and not yet answered to the end. */
  function Outstanding(s: System, p: Proc): nat {
    MsgCount(s.toPeer, p) + MsgCount(s.toXapp, p)
  }

  function ArmedUnsent(ui: Ui, p: Proc): nat {
    if ui.Armed? && p == Subscription then 1 else 0
  }

  function SentUnarmed(ui: Ui, p: Proc): nat {
    if ui.Sent? && ui.proc == p then 1 else 0
  }

  ghost predicate CountedFor(s: System, p: Proc) {
    Count(Kinds(s.x.pending), PendingEventOf(p)) + SentUnarmed(s.ui, p) == Outstanding(s, p) + ArmedUnsent(s.ui, p)
  }

  ghost predicate Counted(s: System) {
    forall p :: CountedFor(s, p)
  }

  /** An identifier on the wire or in the UI thread is the one issued under its key. */
  predicate Genuine(s: System, id: RicGenId) {
    0 < id.reqId < U16 && id.reqId in s.issued && s.issued[id.reqId].id == id
  }

  ghost predicate Identified(s: System) {
    && 0 < s.x.nextKey <= U16
    && (forall k :: k in s.issued ==> 0 < k < s.x.nextKey && s.issued[k].id.reqId == k)
    && (forall k :: k in s.x.registry ==> k in s.issued && Completed(s.x.registry[k], k) == s.issued[k])
    && (!s.ui.Idle? ==> Genuine(s, s.ui.id) && Key(s.ui.id) in s.x.registry)
    && (s.ui.Sent? ==> s.ui.proc != Subscription)
    && (forall m :: m in s.toPeer ==> m.E42Request? && Genuine(s, m.id))
    && (forall m :: m in s.toXapp ==> m.Answer? || m.Indication?)
    && (forall m :: m in s.toXapp && m.Answer? ==> Genuine(s, m.id))
  }

  ghost predicate Inv(s: System) {
    s.x.registered == s.x.pending.Keys && Counted(s) && Identified(s)
  }

  lemma UiKeepsInv(s: System, a: Action)
    requires Inv(s) && Enabled(s, a)
    requires a.UiRegisters? || a.UiPicksForDelete? || a.UiWakes?
    ensures Inv(Apply(s, a))
  {
    forall p ensures CountedFor(Apply(s, a), p) {
      assert CountedFor(s, p);
    }
    UiKeepsIdentified(s, a);
  }

  lemma RegisteringKeepsIdentified(s: System, a: Action)
    requires Identified(s) && Enabled(s, a) && a.UiRegisters?
    ensures Identified(Apply(s, a))
  {
  }

  lemma PickingKeepsIdentified(s: System, a: Action)
    requires Identified(s) && Enabled(s, a) && a.UiPicksForDelete?
    ensures Identified(Apply(s, a))
  {
  }

  lemma UiKeepsIdentified(s: System, a: Action)
    requires Identified(s) && Enabled(s, a)
    requires a.UiRegisters? || a.UiPicksForDelete? || a.UiWakes?
    ensures Identified(Apply(s, a))
  {
    if a.UiRegisters? {
      RegisteringKeepsIdentified(s, a);
    } else if a.UiPicksForDelete? {
      PickingKeepsIdentified(s, a);
    }
  }

  lemma ArmingKeepsInv(s: System, fd: Fd)
    requires Inv(s) && Enabled(s, UiArms(fd))
    ensures Inv(Apply(s, UiArms(fd)))
  {
    var s' := Apply(s, UiArms(fd));
    assert s'.x.pending.Keys == s.x.pending.Keys + {fd};
    forall p ensures CountedFor(s', p) {
      assert CountedFor(s, p);
      KindCountInsert(s.x.pending, fd, PendingKey(PendingEventOf(UiProc(s.ui)), s.ui.id), PendingEventOf(p));
    }
  }

  lemma SendingKeepsInv(s: System)
    requires Inv(s) && Enabled(s, UiSends)
    ensures Inv(Apply(s, UiSends))
  {
    var s' := Apply(s, UiSends);
    var m := E42Request(UiProc(s.ui), s.ui.id);
    forall p ensures CountedFor(s', p) {
      assert CountedFor(s, p);
      MsgCountAppend(s.toPeer, [m], p);
      MsgCountOne(m, p);
    }
  }

  lemma PeerKeepsOutstanding(s: System, a: Action)
    requires Enabled(s, a) && (a.PeerAnswers? || a.PeerIndicates?)
    ensures forall p :: Outstanding(Apply(s, a), p) == Outstanding(s, p)
  {
    var s' := Apply(s, a);
    forall p ensures Outstanding(s', p) == Outstanding(s, p) {
      var m := s'.toXapp[|s.toXapp|];
      MsgCountAppend(s.toXapp, [m], p);
      MsgCountOne(m, p);
      if a.PeerAnswers? {
        var i := a.i;
        assert s.toPeer == s.toPeer[..i] + ([s.toPeer[i]] + s.toPeer[i + 1..]);
        MsgCountAppend(s.toPeer[..i], [s.toPeer[i]] + s.toPeer[i + 1..], p);
        MsgCountAppend([s.toPeer[i]], s.toPeer[i + 1..], p);
        MsgCountAppend(s.toPeer[..i], s.toPeer[i + 1..], p);
        MsgCountOne(s.toPeer[i], p);
      }
    }
  }

  lemma PeerKeepsInv(s: System, a: Action)
    requires Inv(s) && Enabled(s, a) && (a.PeerAnswers? || a.PeerIndicates?)
    ensures Inv(Apply(s, a))
  {
    PeerKeepsOutstanding(s, a);
    forall p ensures CountedFor(Apply(s, a), p) {
      assert CountedFor(s, p);
    }
    if a.PeerAnswers? { assert s.toPeer[a.i] in s.toPeer; }
  }

  lemma LoopKeepsCounted(s: System, fd: Fd, p: Proc)
    requires CountedFor(s, p) && Enabled(s, LoopHandles(fd))
    ensures CountedFor(Apply(s, LoopHandles(fd)), p)
  {
    if s.toXapp[0].Answer? {
      KindCountExtract(s.x.pending, fd, PendingEventOf(p));
    }
  }

  lemma LoopKeepsIdentified(s: System, fd: Fd)
    requires Identified(s) && Enabled(s, LoopHandles(fd))
    ensures Identified(Apply(s, LoopHandles(fd)))
  {
  }

  lemma LoopKeepsInv(s: System, fd: Fd)
    requires Inv(s) && Enabled(s, LoopHandles(fd))
    ensures Inv(Apply(s, LoopHandles(fd)))
  {
    var s' := Apply(s, LoopHandles(fd));
    if s.toXapp[0].Answer? {
      assert s'.x.pending.Keys == s.x.pending.Keys - {fd};
    }
    forall p ensures CountedFor(s', p) {
      assert CountedFor(s, p);
      LoopKeepsCounted(s, fd, p);
    }
    LoopKeepsIdentified(s, fd);
  }

  lemma StepKeepsInv(s: System, a: Action)
    requires Inv(s) && Enabled(s, a)
    ensures Inv(Apply(s, a))
  {
    match a
    case UiArms(fd) => ArmingKeepsInv(s, fd);
    case UiSends => SendingKeepsInv(s);
    case PeerAnswers(_) => PeerKeepsInv(s, a);
    case PeerIndicates(_, _) => PeerKeepsInv(s, a);
    case LoopHandles(fd) => LoopKeepsInv(s, fd);
    case DispatcherRuns =>
      assert forall p :: CountedFor(s, p) ==> CountedFor(Apply(s, a), p);
    case _ => UiKeepsInv(s, a);
  }

  lemma {:induction false} RunKeepsInv(s: System, acts: seq<Action>, s': System)
    requires Inv(s) && Run(s, acts, s')
    ensures Inv(s')
    decreases |acts|
  {
    if acts != [] {
      StepKeepsInv(s, acts[0]);
      RunKeepsInv(Apply(s, acts[0]), acts[1..], s');
    }
  }

  lemma InitialInv()
    ensures Inv(Initial)
  {
    forall p ensures CountedFor(Initial, p) {
      assert FdsOf(Kinds(Initial.x.pending), PendingEventOf(p)) == {};
    }
  }

  /** Until it is removed, the registry gives back exactly what was issued under a key. */
  lemma RegistryGivesBackIssued(acts: seq<Action>, s: System, k: nat)
    requires Run(Initial, acts, s)
    ensures k in s.x.registry ==> k in s.issued && FindActProc(s.x, k) == Some(s.issued[k]) && s.issued[k].id.reqId == k
    ensures k !in s.x.registry ==> FindActProc(s.x, k) == None
    ensures k in s.x.registry && s.ui.Idle? ==> Enabled(s, UiPicksForDelete(k))
    ensures Enabled(s, UiPicksForDelete(k)) ==>
              Apply(s, UiPicksForDelete(k)).ui == Chosen(SubscriptionDelete, s.issued[k].id)
  {
    InitialInv();
    RunKeepsInv(Initial, acts, s);
  }

  /** The registrations of a run, in order. */
  function Registrations(acts: seq<Action>): seq<Action> {
    if acts == [] then [] else (if acts[0].UiRegisters? then [acts[0]] else []) + Registrations(acts[1..])
  }

  lemma {:induction false} RegistrationsOnly(acts: seq<Action>)
    ensures forall a :: a in Registrations(acts) ==> a.UiRegisters?
  {
    if acts != [] {
      RegistrationsOnly(acts[1..]);
    }
  }

  /** What was issued under key k, when registrations start at key n. */
  ghost predicate IssuedFrom(n: nat, regs: seq<Action>, issued: map<nat, ActProc>, k: nat)
    requires forall a :: a in regs ==> a.UiRegisters?
  {
    n <= k < n + |regs| ==>
      k in issued && issued[k] == ActProc(RicGenId(k, 0, regs[k - n].ranFuncId), regs[k - n].cb)
  }

  lemma StepIssues(s: System, a: Action, k: nat)
    requires Enabled(s, a)
    ensures !a.UiRegisters? ==> Apply(s, a).x.nextKey == s.x.nextKey && Apply(s, a).issued == s.issued
    ensures a.UiRegisters? ==>
              && Apply(s, a).x.nextKey == s.x.nextKey + 1
              && Apply(s, a).issued
                 == s.issued[s.x.nextKey := ActProc(RicGenId(s.x.nextKey, 0, a.ranFuncId), a.cb)]
  {
  }

  lemma {:induction false} IssuingFrom(s: System, acts: seq<Action>, s': System, k: nat)
    requires Run(s, acts, s')
    ensures forall a :: a in Registrations(acts) ==> a.UiRegisters?
    ensures s'.x.nextKey == s.x.nextKey + |Registrations(acts)|
    ensures k < s.x.nextKey || s'.x.nextKey <= k ==>
              (k in s'.issued <==> k in s.issued) && (k in s.issued ==> s'.issued[k] == s.issued[k])
    ensures IssuedFrom(s.x.nextKey, Registrations(acts), s'.issued, k)
    decreases |acts|
  {
    RegistrationsOnly(acts);
    if acts != [] {
      StepIssues(s, acts[0], k);
      IssuingFrom(Apply(s, acts[0]), acts[1..], s', k);
      if acts[0].UiRegisters? {
        assert Registrations(acts) == [acts[0]] + Registrations(acts[1..]);
      } else {
        assert Registrations(acts) == Registrations(acts[1..]);
      }
    }
  }

  /** Over every run, identifiers are issued once each and in order: the k-th registration gets request
      number k, instance 0 and the function it asked for, and is stored with the callback it brought. */
  lemma IssuedAreRegistrations(acts: seq<Action>, s: System, k: nat)
    requires Run(Initial, acts, s)
    ensures forall a :: a in Registrations(acts) ==> a.UiRegisters?
    ensures k in s.issued <==> 1 <= k <= |Registrations(acts)|
    ensures k in s.issued ==>
              s.issued[k]
              == ActProc(RicGenId(k, 0, Registrations(acts)[k - 1].ranFuncId), Registrations(acts)[k - 1].cb)
  {
    IssuingFrom(Initial, acts, s, k);
  }

  /** The removal that ends a delete or a control procedure always finds its entry. */
  lemma WakingFindsItsProcedure(acts: seq<Action>, s: System)
    requires Run(Initial, acts, s) && s.ui.Waiting?
    ensures Enabled(s, UiWakes)
    ensures Apply(s, UiWakes).ui == Idle
    ensures Apply(s, UiWakes).x.registry
            == if s.ui.proc == Subscription then s.x.registry else s.x.registry - {s.ui.id.reqId}
  {
    InitialInv();
    RunKeepsInv(Initial, acts, s);
  }

  // ---- Responses ----

  /** Register before send: in every interleaving, with any number of requests outstanding, a
      subscription response at the head of the channel is handled without an assertion failure
      exactly when its identifier has not been removed from the registry. */
  lemma SubscriptionResponseIsSafe(acts: seq<Action>, s: System, id: RicGenId)
    requires Run(Initial, acts, s)
    requires s.toXapp != [] && s.toXapp[0] == Answer(Subscription, id)
    ensures (exists fd :: Enabled(s, LoopHandles(fd))) <==> id.reqId in s.x.registry
    ensures id.reqId in s.issued && s.issued[id.reqId].id == id
    ensures id.reqId in s.x.registry ==> FindActProc(s.x, Key(id)) == Some(s.issued[id.reqId])
  {
    AnswerIsSafeOutsideWindow(acts, s, Subscription, id);
    InitialInv();
    RunKeepsInv(Initial, acts, s);
  }

  /** Send before register: in every interleaving, timed-out waits included, an answer at the head of
      the channel fails exactly when its identifier was removed, or it is the only one owed for its
      procedure and the UI thread has sent that request but not yet armed its timer. */
  lemma AnswerIsSafeOutsideWindow(acts: seq<Action>, s: System, p: Proc, id: RicGenId)
    requires Run(Initial, acts, s)
    requires s.toXapp != [] && s.toXapp[0] == Answer(p, id)
    ensures (exists fd :: Enabled(s, LoopHandles(fd)))
            <==> id.reqId in s.x.registry && !(s.ui.Sent? && s.ui.proc == p && Outstanding(s, p) == 1)
    ensures id.reqId in s.issued && s.issued[id.reqId].id == id
    ensures id.reqId in s.x.registry ==> FindActProc(s.x, Key(id)) == Some(s.issued[id.reqId])
  {
    InitialInv();
    RunKeepsInv(Initial, acts, s);
    assert s.toXapp[0] in s.toXapp;
    assert Key(id) == id.reqId;
    MsgCountPositive(s.toXapp, s.toXapp[0], p);
    assert CountedFor(s, p);
    CountPositive(Kinds(s.x.pending), PendingEventOf(p));
    if id.reqId in s.x.registry && !(s.ui.Sent? && s.ui.proc == p && Outstanding(s, p) == 1) {
      var fd :| fd in Kinds(s.x.pending) && Kinds(s.x.pending)[fd] == PendingEventOf(p);
      assert Enabled(s, LoopHandles(fd));
    }
  }

  /** The UI thread subscribes: it registers, arms and sends. */
  lemma Subscribing(s0: System, rf: nat, cb: Callback, fd: Fd) returns (acts: seq<Action>, s: System)
    requires s0.ui.Idle? && s0.x.nextKey < U16 && Fresh(s0.x, fd)
    ensures Run(s0, acts, s)
    ensures var id := IssuedId(s0.x, rf);
            && s.ui == Waiting(Subscription, id) && s.toPeer == s0.toPeer + [E42Request(Subscription, id)]
            && s.x == AddPendingEvent(AddActProc(s0.x, rf, Some(cb)), fd,
                                      PendingKey(E42RicSubscriptionRequestPending, id))
            && s.toXapp == s0.toXapp
  {
    var a := UiRegisters(Subscription, rf, Some(cb));
    var s1 := Apply(s0, a);
    var s2 := Apply(s1, UiArms(fd));
    s := Apply(s2, UiSends);
    acts := Cons(s2, UiSends, [], s);
    acts := Cons(s1, UiArms(fd), acts, s);
    acts := Cons(s0, a, acts, s);
  }

  /** The window is reachable: subscribe, be answered, then delete with a quick peer. */
  lemma DeleteAnswerCanBeatItsTimer(rf: nat, cb: Callback, fd: Fd) returns (acts: seq<Action>, s: System)
    requires fd.num > 0
    ensures Run(Initial, acts, s)
    ensures s.toXapp != [] && s.toXapp[0].Answer? && s.toXapp[0].id.reqId in s.x.registry
    ensures forall g :: !Enabled(s, LoopHandles(g))
  {
    var first, s3 := Subscribing(Initial, rf, cb, fd);
    var rest;
    rest, s := AnsweredThenDeletes(s3, RicGenId(1, 0, rf), fd);
    acts := Joined(Initial, first, s3, rest, s);
  }

  lemma AnsweredThenDeletes(s3: System, id: RicGenId, fd: Fd) returns (acts: seq<Action>, s: System)
    requires s3.ui == Waiting(Subscription, id) && s3.toPeer == [E42Request(Subscription, id)] && s3.toXapp == []
    requires s3.x.pending == map[fd := PendingKey(E42RicSubscriptionRequestPending, id)]
    requires 0 < id.reqId < U16 && id.reqId in s3.x.registry && Completed(s3.x.registry[id.reqId], id.reqId).id == id
    ensures Run(s3, acts, s)
    ensures s.toXapp == [Answer(SubscriptionDelete, id)] && id.reqId in s.x.registry && s.x.pending == map[]
  {
    var s4 := Apply(s3, PeerAnswers(0));
    assert fd in FdsOfKind(s4.x.pending, E42RicSubscriptionRequestPending);
    var s5 := Apply(s4, LoopHandles(fd));
    assert s5.x.pending == map[];
    var s6 := Apply(s5, UiWakes);
    acts, s := QuickPeer(s6, id);
    acts := Cons(s5, UiWakes, acts, s);
    acts := Cons(s4, LoopHandles(fd), acts, s);
    acts := Cons(s3, PeerAnswers(0), acts, s);
  }

  lemma QuickPeer(s0: System, id: RicGenId) returns (acts: seq<Action>, s: System)
    requires s0.ui.Idle? && s0.toPeer == [] && s0.toXapp == [] && s0.x.pending == map[]
    requires id.reqId in s0.x.registry && Completed(s0.x.registry[id.reqId], id.reqId).id == id
    ensures Run(s0, acts, s)
    ensures s.toXapp == [Answer(SubscriptionDelete, id)] && id.reqId in s.x.registry && s.x.pending == map[]
  {
    var s1 := Apply(s0, UiPicksForDelete(id.reqId));
    var s2 := Apply(s1, UiSends);
    assert s2.toPeer == [E42Request(SubscriptionDelete, id)];
    s := Apply(s2, PeerAnswers(0));
    acts := Cons(s2, PeerAnswers(0), [], s);
    acts := Cons(s1, UiSends, acts, s);
    acts := Cons(s0, UiPicksForDelete(id.reqId), acts, s);
  }

  /** From every idle reachable state the UI thread can carry a subscription or a control request to its
      wait: the request is sent once and its event armed once, under the next identifier. */
  lemma RequestIsIssued(acts: seq<Action>, s: System, proc: Proc, rf: nat, cb: Option<Callback>, fd: Fd)
    returns (more: seq<Action>, s': System)
    requires Run(Initial, acts, s) && s.ui.Idle? && s.x.nextKey < 0x1_0000 && Fresh(s.x, fd)
    requires proc != SubscriptionDelete
    ensures Run(s, more, s') && |more| == 3 && more[0] == UiRegisters(proc, rf, cb)
    ensures proc == Subscription ==> more[1] == UiArms(fd) && more[2] == UiSends
    ensures proc == Control ==> more[1] == UiSends && more[2] == UiArms(fd)
    ensures var id := RicGenId(s.x.nextKey, 0, rf);
            && s'.ui == Waiting(proc, id) && s'.toPeer == s.toPeer + [E42Request(proc, id)]
            && s'.toXapp == s.toXapp && s'.issued == s.issued[s.x.nextKey := ActProc(id, cb)]
    ensures s'.x.pending == s.x.pending[fd := PendingKey(if proc == Subscription then E42RicSubscriptionRequestPending
                                                         else E42RicControlRequestPending,
                                                         RicGenId(s.x.nextKey, 0, rf))]
  {
    var a := UiRegisters(proc, rf, cb);
    var b := if proc == Subscription then UiArms(fd) else UiSends;
    var c := if proc == Subscription then UiSends else UiArms(fd);
    var s1 := Apply(s, a);
    var s2 := Apply(s1, b);
    s' := Apply(s2, c);
    more := Cons(s2, c, [], s');
    more := Cons(s1, b, more, s');
    more := Cons(s, a, more, s');
  }

  /** Likewise a delete, under the identifier that was issued for the registered key. */
  lemma DeleteIsIssued(acts: seq<Action>, s: System, key: nat, fd: Fd) returns (more: seq<Action>, s': System)
    requires Run(Initial, acts, s) && s.ui.Idle? && key in s.x.registry && Fresh(s.x, fd)
    ensures Run(s, more, s') && more == [UiPicksForDelete(key), UiSends, UiArms(fd)]
    ensures key in s.issued && s'.toPeer == s.toPeer + [E42Request(SubscriptionDelete, s.issued[key].id)]
    ensures s'.ui == Waiting(SubscriptionDelete, s.issued[key].id) && s'.toXapp == s.toXapp
    ensures s'.x.pending
            == s.x.pending[fd := PendingKey(E42RicSubscriptionDeleteRequestPending, s.issued[key].id)]
  {
    RegistryGivesBackIssued(acts, s, key);
    var s1 := Apply(s, UiPicksForDelete(key));
    var s2 := Apply(s1, UiSends);
    s' := Apply(s2, UiArms(fd));
    more := Cons(s2, UiArms(fd), [], s');
    more := Cons(s1, UiSends, more, s');
    more := Cons(s, UiPicksForDelete(key), more, s');
  }

  lemma Cons(s: System, a: Action, acts: seq<Action>, s': System) returns (r: seq<Action>)
    requires Enabled(s, a) && Run(Apply(s, a), acts, s')
    ensures Run(s, r, s') && r == [a] + acts
  {
    r := [a] + acts;
    assert r[1..] == acts;
  }

  lemma {:induction false} Joined(s: System, a: seq<Action>, m: System, b: seq<Action>, s': System)
    returns (r: seq<Action>)
    requires Run(s, a, m) && Run(m, b, s')
    ensures Run(s, r, s')
    decreases |a|
  {
    if a == [] {
      r := b;
    } else {
      r := Joined(Apply(s, a[0]), a[1..], m, b, s');
      r := Cons(s, a[0], r, s');
    }
  }
}
