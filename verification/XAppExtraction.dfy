/** Extraction by kind only: the pending map of the xApp compares its events without their identifiers. */
module XAppExtraction {
  import opened E2apTypes
  import opened BiMaps
  import opened XApps
  import opened XAppRuns

  // ---- One request per kind ----

  /** At most one request of each kind is armed and unsent, or sent and not yet answered. */
  ghost predicate OnePerKind(s: System) {
    forall p :: Outstanding(s, p) + ArmedUnsent(s.ui, p) <= 1
  }

  ghost predicate AlwaysOnePerKind(s: System, acts: seq<Action>)
    decreases |acts|
  {
    OnePerKind(s) && (acts != [] && Enabled(s, acts[0]) ==> AlwaysOnePerKind(Apply(s, acts[0]), acts[1..]))
  }

  /** The messages of a channel agree with the pending events of their kind. */
  predicate MessagesAgree(ms: seq<E42Msg>, pending: map<Fd, PendingKey>) {
    forall m, fd :: m in ms && fd in pending && !m.Indication? && pending[fd].ev == PendingEventOf(m.proc) ==>
      pending[fd].id == m.id
  }

  predicate AllCarry(ms: seq<E42Msg>, p: Proc, id: RicGenId) {
    forall m :: m in ms && !m.Indication? && m.proc == p ==> m.id == id
  }

  predicate EventsCarry(pending: map<Fd, PendingKey>, p: Proc, id: RicGenId) {
    forall fd :: fd in pending && pending[fd].ev == PendingEventOf(p) ==> pending[fd].id == id
  }

  /** Pending events, messages and the UI thread's identifier agree kind by kind. */
  predicate KindsAgree(s: System) {
    && MessagesAgree(s.toPeer, s.x.pending) && MessagesAgree(s.toXapp, s.x.pending)
    && (s.ui.Armed? ==> EventsCarry(s.x.pending, Subscription, s.ui.id))
    && (s.ui.Sent? ==> AllCarry(s.toPeer, s.ui.proc, s.ui.id) && AllCarry(s.toXapp, s.ui.proc, s.ui.id))
  }

  lemma NoneOfKind(ms: seq<E42Msg>, p: Proc)
    requires MsgCount(ms, p) == 0
    ensures forall m :: m in ms ==> m.Indication? || m.proc != p
  {
    forall m | m in ms ensures m.Indication? || m.proc != p {
      if !m.Indication? && m.proc == p { MsgCountPositive(ms, m, p); }
    }
  }

  lemma OnlyEventOfKind(pending: map<Fd, PendingKey>, fd: Fd, p: Proc)
    requires fd in pending && pending[fd].ev == PendingEventOf(p) && Count(Kinds(pending), PendingEventOf(p)) <= 1
    ensures EventsCarry(pending, p, pending[fd].id)
    ensures FdsOfKind(pending, PendingEventOf(p)) == {fd}
  {
    forall g | g in pending && pending[g].ev == PendingEventOf(p) ensures g == fd {
      CountOneIsUnique(Kinds(pending), g, fd);
    }
  }

  lemma ArmedSubscriptionAgrees(s: System, fd: Fd)
    requires Inv(s) && KindsAgree(s) && Enabled(s, UiArms(fd)) && s.ui.Chosen? && OnePerKind(Apply(s, UiArms(fd)))
    ensures KindsAgree(Apply(s, UiArms(fd)))
  {
    var s' := Apply(s, UiArms(fd));
    ArmingKeepsInv(s, fd);
    assert CountedFor(s', Subscription) && Outstanding(s', Subscription) + ArmedUnsent(s'.ui, Subscription) <= 1;
    OnlyEventOfKind(s'.x.pending, fd, Subscription);
    NoneOfKind(s'.toPeer, Subscription);
    NoneOfKind(s'.toXapp, Subscription);
  }

  lemma ArmedAfterSendingAgrees(s: System, fd: Fd)
    requires Inv(s) && KindsAgree(s) && Enabled(s, UiArms(fd)) && s.ui.Sent? && OnePerKind(Apply(s, UiArms(fd)))
    ensures KindsAgree(Apply(s, UiArms(fd)))
  {
    var s', p := Apply(s, UiArms(fd)), s.ui.proc;
    ArmingKeepsInv(s, fd);
    assert CountedFor(s', p) && Outstanding(s', p) + ArmedUnsent(s'.ui, p) <= 1;
    OnlyEventOfKind(s'.x.pending, fd, p);
  }

  lemma ArmingKeepsAgreement(s: System, fd: Fd)
    requires Inv(s) && KindsAgree(s) && Enabled(s, UiArms(fd)) && OnePerKind(Apply(s, UiArms(fd)))
    ensures KindsAgree(Apply(s, UiArms(fd)))
  {
    if s.ui.Chosen? { ArmedSubscriptionAgrees(s, fd); } else { ArmedAfterSendingAgrees(s, fd); }
  }

  lemma NoEventOfKind(pending: map<Fd, PendingKey>, p: Proc)
    requires Count(Kinds(pending), PendingEventOf(p)) == 0
    ensures forall fd :: fd in pending ==> pending[fd].ev != PendingEventOf(p)
  {
    CountPositive(Kinds(pending), PendingEventOf(p));
    forall fd | fd in pending ensures pending[fd].ev != PendingEventOf(p) {
      assert fd in Kinds(pending);
    }
  }

  lemma SendingKeepsAgreement(s: System)
    requires Inv(s) && KindsAgree(s) && Enabled(s, UiSends) && OnePerKind(Apply(s, UiSends))
    ensures KindsAgree(Apply(s, UiSends))
  {
    var s', p := Apply(s, UiSends), UiProc(s.ui);
    var m := E42Request(p, s.ui.id);
    if s.ui.Chosen? {
      SendingKeepsInv(s);
      MsgCountAppend(s.toPeer, [m], p);
      MsgCountOne(m, p);
      assert CountedFor(s', p) && Outstanding(s', p) + ArmedUnsent(s'.ui, p) <= 1;
      NoEventOfKind(s'.x.pending, p);
      NoneOfKind(s.toPeer, p);
      NoneOfKind(s.toXapp, p);
    }
  }

  lemma PeerKeepsAgreement(s: System, a: Action)
    requires KindsAgree(s) && Enabled(s, a) && (a.PeerAnswers? || a.PeerIndicates?)
    ensures KindsAgree(Apply(s, a))
  {
    if a.PeerAnswers? { assert s.toPeer[a.i] in s.toPeer; }
  }

  lemma StepKeepsAgreement(s: System, a: Action)
    requires Inv(s) && KindsAgree(s) && Enabled(s, a) && OnePerKind(Apply(s, a))
    ensures KindsAgree(Apply(s, a))
  {
    match a
    case UiArms(fd) => ArmingKeepsAgreement(s, fd);
    case UiSends => SendingKeepsAgreement(s);
    case PeerAnswers(_) => PeerKeepsAgreement(s, a);
    case PeerIndicates(_, _) => PeerKeepsAgreement(s, a);
    case _ =>
  }

  lemma {:induction false} RunKeepsAgreement(s: System, acts: seq<Action>, s': System)
    requires Inv(s) && KindsAgree(s) && Run(s, acts, s') && AlwaysOnePerKind(s, acts)
    ensures KindsAgree(s') && OnePerKind(s')
    decreases |acts|
  {
    if acts != [] {
      StepKeepsInv(s, acts[0]);
      StepKeepsAgreement(s, acts[0]);
      RunKeepsAgreement(Apply(s, acts[0]), acts[1..], s');
    }
  }

  /** While at most one request per kind is outstanding, the extraction that compares kinds only
      removes the very event that the comparison by kind and identifier would remove. */
  lemma KindExtractionIsExact(acts: seq<Action>, s: System, p: Proc, id: RicGenId, fd: Fd)
    requires Run(Initial, acts, s) && AlwaysOnePerKind(Initial, acts)
    requires s.toXapp != [] && s.toXapp[0] == Answer(p, id) && Enabled(s, LoopHandles(fd))
    ensures FdsOf(s.x.pending, PendingKey(PendingEventOf(p), id)) == {fd}
    ensures FdsOfKind(s.x.pending, PendingEventOf(p)) == {fd}
  {
    InitialInv();
    RunKeepsInv(Initial, acts, s);
    RunKeepsAgreement(Initial, acts, s);
    assert s.toXapp[0] in s.toXapp;
    assert CountedFor(s, p) && Outstanding(s, p) + ArmedUnsent(s.ui, p) <= 1;
    OnlyEventOfKind(s.x.pending, fd, p);
    assert s.x.pending[fd] == PendingKey(PendingEventOf(p), id);
    forall g | g in FdsOf(s.x.pending, PendingKey(PendingEventOf(p), id)) ensures g == fd {
      assert g in FdsOfKind(s.x.pending, PendingEventOf(p));
    }
  }

  // ---- Every run ----

  /** No key is pending twice, nor armed again: identifiers are issued once, and a delete's identifier
      leaves the registry before another delete could pick it. */
  ghost predicate KeysAreSingle(s: System) {
    && (forall f, g :: f in s.x.pending && g in s.x.pending && f != g ==> s.x.pending[f] != s.x.pending[g])
    && (forall fd :: fd in s.x.pending ==> Genuine(s, s.x.pending[fd].id))
    && (forall fd :: fd in s.x.pending && s.x.pending[fd].ev == PendingEventOf(SubscriptionDelete) ==>
          Key(s.x.pending[fd].id) !in s.x.registry || s.ui == Waiting(SubscriptionDelete, s.x.pending[fd].id))
    && (s.ui.Chosen? || s.ui.Sent? ==>
          forall fd :: fd in s.x.pending ==> s.x.pending[fd] != PendingKey(PendingEventOf(s.ui.proc), s.ui.id))
  }

  lemma UiKeepsKeysSingle(s: System, a: Action)
    requires Identified(s) && KeysAreSingle(s) && Enabled(s, a)
    requires a.UiRegisters? || a.UiPicksForDelete? || a.UiWakes?
    ensures KeysAreSingle(Apply(s, a))
  {
    match a
    case UiRegisters(_, _, _) =>
      forall fd | fd in s.x.pending ensures s.x.pending[fd].id.reqId < s.x.nextKey {}
    case UiPicksForDelete(key) =>
      assert FindActProc(s.x, key).value == s.issued[key];
      assert Key(s.issued[key].id) == key;
    case UiWakes =>
  }

  lemma ArmingKeepsKeysSingle(s: System, fd: Fd)
    requires Identified(s) && s.x.registered == s.x.pending.Keys && KeysAreSingle(s) && Enabled(s, UiArms(fd))
    ensures KeysAreSingle(Apply(s, UiArms(fd)))
  {
  }

  lemma LoopKeepsKeysSingle(s: System, fd: Fd)
    requires KeysAreSingle(s) && Enabled(s, LoopHandles(fd))
    ensures KeysAreSingle(Apply(s, LoopHandles(fd)))
  {
  }

  lemma StepKeepsKeysSingle(s: System, a: Action)
    requires Inv(s) && KeysAreSingle(s) && Enabled(s, a)
    ensures KeysAreSingle(Apply(s, a))
  {
    match a
    case UiRegisters(_, _, _) => UiKeepsKeysSingle(s, a);
    case UiPicksForDelete(_) => UiKeepsKeysSingle(s, a);
    case UiWakes => UiKeepsKeysSingle(s, a);
    case UiArms(fd) => ArmingKeepsKeysSingle(s, fd);
    case LoopHandles(fd) => LoopKeepsKeysSingle(s, fd);
    case _ =>
  }

  /** Both extractions choose among the same descriptors, whichever pending event is asked for. */
  predicate Alike(pending: map<Fd, PendingKey>) {
    forall fd :: fd in pending ==> FdsOfKind(pending, pending[fd].ev) == FdsOf(pending, pending[fd])
  }

  lemma AlikeMeansKindDecides(pending: map<Fd, PendingKey>)
    ensures Alike(pending) <==>
            forall f, g :: f in pending && g in pending && pending[f].ev == pending[g].ev ==> pending[f] == pending[g]
  {
    if Alike(pending) {
      forall f, g | f in pending && g in pending && pending[f].ev == pending[g].ev ensures pending[f] == pending[g] {
        assert g in FdsOfKind(pending, pending[f].ev);
        assert g in FdsOf(pending, pending[f]);
      }
    }
    if forall f, g :: f in pending && g in pending && pending[f].ev == pending[g].ev ==> pending[f] == pending[g] {
      forall fd | fd in pending ensures FdsOfKind(pending, pending[fd].ev) == FdsOf(pending, pending[fd]) {
        forall g ensures g in FdsOfKind(pending, pending[fd].ev) <==> g in FdsOf(pending, pending[fd]) {}
      }
    }
  }

  ghost predicate AlwaysAlike(s: System, acts: seq<Action>)
    decreases |acts|
  {
    Alike(s.x.pending) && (acts != [] && Enabled(s, acts[0]) ==> AlwaysAlike(Apply(s, acts[0]), acts[1..]))
  }

  /** An event is armed while another of its kind is pending. */
  predicate ArmsOver(s: System, a: Action)
    requires Enabled(s, a)
  {
    a.UiArms? && exists fd :: fd in s.x.pending && s.x.pending[fd].ev == PendingEventOf(UiProc(s.ui))
  }

  ghost predicate NeverArmsOver(s: System, acts: seq<Action>)
    decreases |acts|
  {
    acts != [] && Enabled(s, acts[0]) ==> !ArmsOver(s, acts[0]) && NeverArmsOver(Apply(s, acts[0]), acts[1..])
  }

  lemma ArmingKeepsAlikeIff(s: System, fd: Fd)
    requires s.x.registered == s.x.pending.Keys && KeysAreSingle(s) && Alike(s.x.pending) && Enabled(s, UiArms(fd))
    ensures Alike(Apply(s, UiArms(fd)).x.pending) <==> !ArmsOver(s, UiArms(fd))
  {
    var after := Apply(s, UiArms(fd)).x.pending;
    AlikeMeansKindDecides(s.x.pending);
    AlikeMeansKindDecides(after);
    if ArmsOver(s, UiArms(fd)) {
      var g :| g in s.x.pending && s.x.pending[g].ev == PendingEventOf(UiProc(s.ui));
      assert after[g].ev == after[fd].ev && after[g] != after[fd];
    }
  }

  lemma StepKeepsAlikeIff(s: System, a: Action)
    requires Inv(s) && KeysAreSingle(s) && Alike(s.x.pending) && Enabled(s, a)
    ensures Alike(Apply(s, a).x.pending) <==> !ArmsOver(s, a)
  {
    if a.UiArms? {
      ArmingKeepsAlikeIff(s, a.fd);
    } else {
      var after := Apply(s, a).x.pending;
      assert forall g :: g in after ==> g in s.x.pending && after[g] == s.x.pending[g];
      AlikeMeansKindDecides(s.x.pending);
      AlikeMeansKindDecides(after);
    }
  }

  lemma {:induction false} AlikeIffNeverArmsOver(s: System, acts: seq<Action>, s': System)
    requires Inv(s) && KeysAreSingle(s) && Alike(s.x.pending) && Run(s, acts, s')
    ensures AlwaysAlike(s, acts) <==> NeverArmsOver(s, acts)
    decreases |acts|
  {
    if acts != [] {
      var n := Apply(s, acts[0]);
      StepKeepsInv(s, acts[0]);
      StepKeepsKeysSingle(s, acts[0]);
      StepKeepsAlikeIff(s, acts[0]);
      if Alike(n.x.pending) {
        AlikeIffNeverArmsOver(n, acts[1..], s');
      }
    }
  }

  /** Over every run: throughout it both extractions find every pending event alike exactly when no
      event was armed while another of its kind was pending. */
  lemma ExtractionsAlikeIffNeverArmedOver(acts: seq<Action>, s: System)
    requires Run(Initial, acts, s)
    ensures AlwaysAlike(Initial, acts) <==> NeverArmsOver(Initial, acts)
  {
    InitialInv();
    AlikeIffNeverArmsOver(Initial, acts, s);
  }

  /** The failing family is not empty: after a wait that timed out, a second subscription is armed over
      the first, and the answer to the first may take the timer of the second. */
  lemma TimedOutWaitMixesTimers(rf: nat, cb: Callback, fd: Fd, fd': Fd)
    returns (acts: seq<Action>, s: System)
    requires fd.num > 0 && fd'.num > 0 && fd != fd'
    ensures Run(Initial, acts, s) && Enabled(s, LoopHandles(fd'))
    ensures s.toXapp == [Answer(Subscription, RicGenId(1, 0, rf))] && s.x.pending[fd'].id == RicGenId(2, 0, rf)
  {
    var first, s3 := Subscribing(Initial, rf, cb, fd);
    var rest;
    rest, s := SubscribingAgain(s3, rf, cb, fd');
    acts := Joined(Initial, first, s3, rest, s);
  }

  lemma SubscribingAgain(s3: System, rf: nat, cb: Callback, fd': Fd) returns (acts: seq<Action>, s: System)
    requires s3.ui == Waiting(Subscription, RicGenId(1, 0, rf)) && s3.x.nextKey == 2 && 1 in s3.x.registry
    requires s3.toPeer == [E42Request(Subscription, RicGenId(1, 0, rf))] && s3.toXapp == [] && Fresh(s3.x, fd')
    ensures Run(s3, acts, s) && Enabled(s, LoopHandles(fd'))
    ensures s.toXapp == [Answer(Subscription, RicGenId(1, 0, rf))] && s.x.pending[fd'].id == RicGenId(2, 0, rf)
  {
    var s4 := Apply(s3, UiWakes);
    var second, s6 := Subscribing(s4, rf, cb, fd');
    s := Apply(s6, PeerAnswers(0));
    assert fd' in FdsOfKind(s.x.pending, E42RicSubscriptionRequestPending);
    acts := Cons(s6, PeerAnswers(0), [], s);
    acts := Joined(s4, second, s6, acts, s);
    acts := Cons(s3, UiWakes, acts, s);
  }
}
