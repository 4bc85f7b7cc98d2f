/** The link can always come to rest: there is no state from which what is under way cannot be
    brought to its end. */
module E2Rest {
  import opened E2apTypes
  import opened BiMaps
  import opened NearRic
  import opened E2Link
  import A = E2Agents

  lemma {:induction false} Bound(fds: set<Fd>) returns (n: nat)
    ensures forall fd :: fd in fds ==> fd.num < n
    decreases |fds|
  {
    if fds == {} {
      n := 0;
    } else {
      var fd :| fd in fds;
      n := Bound(fds - {fd});
      n := if fd.num < n then n else fd.num + 1;
    }
  }

  /** The kernel always has another descriptor. */
  lemma FreshFd(fds: set<Fd>) returns (fd: Fd)
    ensures fd.num > 0 && fd !in fds
  {
    var n := Bound(fds);
    fd := Fd(n + 1);
  }

  predicate AtRest(s: Link) {
    && s.drawn == multiset{} && s.unsent == multiset{} && s.toAgent == [] && s.toRic == []
    && s.held == multiset{} && s.ric.closing == {}
  }

  /** Steps still owed, at most: every request generated, sent, served, received, handled, closed. */
  datatype Work = Work(drawn: nat, unarmed: bool, unsent: nat, toAgent: nat, toRic: nat, held: nat, closing: nat)

  function WorkOf(s: Link): Work {
    Work(|s.drawn|, s.drawn != multiset{} && s.ric.arming == {}, |s.unsent|, |s.toAgent|, |s.toRic|, |s.held|,
         |s.ric.closing|)
  }

  function Amount(w: Work): nat {
    7 * w.drawn + (if w.unarmed then 1 else 0) + 5 * w.unsent + 4 * w.toAgent + 3 * w.toRic + 2 * w.held + w.closing
  }

  function ToDo(s: Link): nat {
    Amount(WorkOf(s))
  }

  /** A step that finishes work and starts none. */
  predicate Finishes(a: Action) {
    || a.TimerCreated? || a.Registers? || a.Send? || a.AgentServes? || a.RicReceives? || a.WorkerHandles?
    || a.WorkerCloses?
  }

  lemma TakeOne<T>(m: multiset<T>, x: T)
    requires x in m
    ensures |m - multiset{x}| == |m| - 1
  {
    assert m == (m - multiset{x}) + multiset{x};
  }

  lemma Arm(s: Link) returns (a: Action)
    requires Inv(s) && s.drawn != multiset{} && s.ric.arming == {}
    ensures Enabled(s, a) && a.TimerCreated? && ToDo(Apply(s, a)) < ToDo(s)
  {
    var fd := FreshFd(s.ric.registered);
    a := TimerCreated(fd);
    var s' := NewTimer(s, fd);
    assert fd in s'.ric.arming;
    assert WorkOf(s') == WorkOf(s).(unarmed := false);
  }

  lemma Register(s: Link) returns (a: Action)
    requires s.drawn != multiset{} && s.ric.arming != {}
    ensures Enabled(s, a) && a.Registers? && ToDo(Apply(s, a)) < ToDo(s)
  {
    var fd :| fd in s.ric.arming;
    var q :| q in s.drawn;
    a := Registers(q, fd);
    TakeOne(s.drawn, q);
    var s' := Insert(s.(drawn := s.drawn - multiset{q}), q, fd);
    var w := WorkOf(s);
    assert WorkOf(s') == w.(drawn := w.drawn - 1, unarmed := WorkOf(s').unarmed, unsent := w.unsent + 1);
  }

  lemma Serve(s: Link) returns (a: Action)
    requires s.toAgent != []
    ensures Enabled(s, a) && a.AgentServes? && ToDo(Apply(s, a)) < ToDo(s)
  {
    var fd := PickForRequest(s.agent, s.toAgent[0]);
    a := AgentServes(fd);
    var w := WorkOf(s);
    assert WorkOf(Apply(s, a)) == w.(toAgent := w.toAgent - 1, toRic := w.toRic + 1);
  }

  lemma PickForRequest(a: A.Agent, q: Request) returns (fd: Fd)
    ensures A.TakesFd(a, q, fd)
  {
    if q.RicSubscriptionDeleteRequest? && FdsOf(a.indEvent, q.id) != {} {
      fd :| fd in FdsOf(a.indEvent, q.id);
    } else {
      fd := FreshFd(a.registered);
    }
  }

  lemma PickForReply(s: Link, p: Reply) returns (fd: Fd)
    requires Inv(s) && p in s.held
    ensures Enabled(s, WorkerHandles(p, fd))
  {
    if p.RicIndication? {
      fd := Fd(0);
    } else {
      var q := RequestOf(p);
      AnswerStopsItsOwnRequest(q, q);
      assert Balanced(s, q);
      CountPositive(s.ric.pending, RegisteredAs(q));
      fd :| fd in s.ric.pending && s.ric.pending[fd] == RegisteredAs(q);
    }
  }

  lemma HandlingEffect(s: Link, p: Reply, fd: Fd)
    requires Enabled(s, WorkerHandles(p, fd))
    ensures var s' := Apply(s, WorkerHandles(p, fd));
            && s'.held == s.held - multiset{p} && s'.drawn == s.drawn && s'.unsent == s.unsent
            && s'.toAgent == s.toAgent && s'.toRic == s.toRic && s'.ric.arming == s.ric.arming
            && (s'.ric.closing == s.ric.closing || s'.ric.closing == s.ric.closing + {fd})
  {
  }

  lemma HandlingWorks(s: Link, s': Link, p: Reply, fd: Fd)
    requires p in s.held && s'.held == s.held - multiset{p} && s'.drawn == s.drawn && s'.unsent == s.unsent
    requires s'.toAgent == s.toAgent && s'.toRic == s.toRic && s'.ric.arming == s.ric.arming
    requires s'.ric.closing == s.ric.closing || s'.ric.closing == s.ric.closing + {fd}
    ensures ToDo(s') < ToDo(s)
  {
    TakeOne(s.held, p);
    var w := WorkOf(s);
    assert WorkOf(s') == w.(held := w.held - 1, closing := WorkOf(s').closing);
  }

  lemma Handle(s: Link) returns (a: Action)
    requires Inv(s) && s.held != multiset{}
    ensures Enabled(s, a) && a.WorkerHandles? && ToDo(Apply(s, a)) < ToDo(s)
  {
    var p :| p in s.held;
    var fd := PickForReply(s, p);
    a := WorkerHandles(p, fd);
    HandlingEffect(s, p, fd);
    HandlingWorks(s, Apply(s, a), p, fd);
  }

  lemma SendOne(s: Link) returns (a: Action)
    requires s.unsent != multiset{}
    ensures Enabled(s, a) && a.Send? && ToDo(Apply(s, a)) < ToDo(s)
  {
    var q :| q in s.unsent;
    a := Send(q);
    TakeOne(s.unsent, q);
    var w := WorkOf(s);
    assert WorkOf(Apply(s, Send(q))) == w.(unsent := w.unsent - 1, toAgent := w.toAgent + 1);
  }

  lemma Receive(s: Link) returns (a: Action)
    requires s.toRic != []
    ensures Enabled(s, a) && a == RicReceives && ToDo(Apply(s, a)) < ToDo(s)
  {
    a := RicReceives;
    var w := WorkOf(s);
    assert WorkOf(Apply(s, RicReceives)) == w.(toRic := w.toRic - 1, held := w.held + 1);
  }

  lemma CloseOne(s: Link) returns (a: Action)
    requires s.ric.closing != {}
    ensures Enabled(s, a) && a.WorkerCloses? && ToDo(Apply(s, a)) < ToDo(s)
  {
    var fd :| fd in s.ric.closing;
    a := WorkerCloses(fd);
    var s', w := Apply(s, WorkerCloses(fd)), WorkOf(s);
    assert s.ric.closing == s'.ric.closing + {fd};
    assert WorkOf(s') == w.(closing := w.closing - 1);
  }

  lemma FinishOne(s: Link) returns (a: Action)
    requires Inv(s) && !AtRest(s)
    ensures Enabled(s, a) && Finishes(a) && ToDo(Apply(s, a)) < ToDo(s)
  {
    if s.drawn != multiset{} {
      if s.ric.arming == {} { a := Arm(s); } else { a := Register(s); }
    } else if s.unsent != multiset{} {
      a := SendOne(s);
    } else if s.toAgent != [] {
      a := Serve(s);
    } else if s.toRic != [] {
      a := Receive(s);
    } else if s.held != multiset{} {
      a := Handle(s);
    } else {
      a := CloseOne(s);
    }
  }

  lemma {:induction false} DrainsFrom(s: Link) returns (acts: seq<Action>, s': Link)
    requires Inv(s)
    ensures Run(s, acts, s') && AtRest(s') && forall a :: a in acts ==> Finishes(a)
    decreases ToDo(s)
  {
    if AtRest(s) {
      acts, s' := [], s;
    } else {
      var a := FinishOne(s);
      StepKeepsInv(s, a);
      var rest;
      rest, s' := DrainsFrom(Apply(s, a));
      acts := [a] + rest;
      assert acts[1..] == rest;
    }
  }

  /** No deadlock: from every reachable state, registering, sending, serving, receiving, handling and
      closing alone bring everything under way to its end, and then nothing is pending. */
  lemma LinkCanComeToRest(s: Link, acts: seq<Action>, s': Link) returns (rest: seq<Action>, end: Link)
    requires Initial(s) && Run(s, acts, s')
    ensures Run(s', rest, end) && AtRest(end) && forall a :: a in rest ==> Finishes(a)
    ensures end.ric.pending == map[] && end.ric.registered == {end.ric.epFd} + end.ric.arming
  {
    InitialInv(s);
    RunKeepsInv(s, acts, s');
    rest, end := DrainsFrom(s');
    var all := Joined(s, acts, s', rest, end);
    QuiescentRicHasNoTimer(s, all, end);
  }
}
