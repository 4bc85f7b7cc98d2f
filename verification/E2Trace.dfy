/** The language of one subscription on the channel from the agent to the RIC. */
module E2Trace {
  import opened E2apTypes
  import opened BiMaps
  import opened E2Link
  import A = E2Agents

  /** What a message means to one periodic subscription: it opens it, carries data, closes it. */
  datatype Mark = Open | Data | Close

  function ReplyMark(p: Reply, id: RicGenId): seq<Mark> {
    if p == RicSubscriptionResponse(id) then [Open]
    else if p == RicIndication(id) then [Data]
    else if p == RicSubscriptionDeleteResponse(id) then [Close]
    else []
  }

  function RequestMark(q: Request, id: RicGenId): seq<Mark> {
    if q == RicSubscriptionRequest(id) then [Open]
    else if q == RicSubscriptionDeleteRequest(id) then [Close]
    else []
  }

  function ReplyMarks(log: seq<Reply>, id: RicGenId): seq<Mark> {
    if log == [] then []
    else ReplyMarks(log[..|log| - 1], id) + ReplyMark(log[|log| - 1], id)
  }

  function RequestMarks(log: seq<Request>, id: RicGenId): seq<Mark> {
    if log == [] then []
    else RequestMarks(log[..|log| - 1], id) + RequestMark(log[|log| - 1], id)
  }

  /** What may stand at position i of a prefix of (Open Data* Close)*, given what precedes it. */
  predicate MayStand(w: seq<Mark>, i: nat)
    requires i < |w|
  {
    if w[i] == Open then i == 0 || w[i - 1] == Close
    else i > 0 && w[i - 1] != Close
  }

  /** Prefixes of (Open Data* Close)*. On marks without Data this says that requests alternate,
      starting with a subscription. */
  ghost predicate InLanguage(w: seq<Mark>) {
    forall i :: 0 <= i < |w| ==> MayStand(w, i)
  }

  predicate EndsActive(w: seq<Mark>) {
    w != [] && w[|w| - 1] != Close
  }

  lemma InLanguagePrefix(w: seq<Mark>, v: seq<Mark>)
    requires InLanguage(w + v)
    ensures InLanguage(w)
  {
    forall i | 0 <= i < |w| ensures MayStand(w, i) {
      assert MayStand(w + v, i);
    }
  }

  lemma InLanguageSnoc(w: seq<Mark>, m: Mark)
    ensures InLanguage(w + [m]) <==> InLanguage(w) && (m == Open <==> !EndsActive(w))
    ensures EndsActive(w + [m]) <==> m != Close
  {
    if InLanguage(w + [m]) {
      InLanguagePrefix(w, [m]);
      assert MayStand(w + [m], |w|);
    }
    if InLanguage(w) && (m == Open <==> !EndsActive(w)) {
      forall i | 0 <= i < |w + [m]| ensures MayStand(w + [m], i) {
        if i < |w| { assert MayStand(w, i); }
      }
    }
  }

  /** The same language as an automaton: a subscription is opened, carries data, and is closed. */
  predicate Accepts(w: seq<Mark>, active: bool)
    decreases |w|
  {
    w == [] || match w[0]
      case Open => !active && Accepts(w[1..], true)
      case Data => active && Accepts(w[1..], true)
      case Close => active && Accepts(w[1..], false)
  }

  predicate ActiveAfter(w: seq<Mark>, active: bool) {
    if w == [] then active else w[|w| - 1] != Close
  }

  lemma {:induction false} AcceptsSnoc(w: seq<Mark>, m: Mark, active: bool)
    ensures Accepts(w + [m], active) <==> Accepts(w, active) && (m == Open <==> !ActiveAfter(w, active))
    decreases |w|
  {
    if w == [] {
      assert [m][1..] == [];
    } else {
      assert (w + [m])[1..] == w[1..] + [m];
      AcceptsSnoc(w[1..], m, w[0] != Close);
    }
  }

  lemma {:induction false} LanguageIsAutomaton(w: seq<Mark>)
    ensures InLanguage(w) <==> Accepts(w, false)
    decreases |w|
  {
    if w != [] {
      var front, m := w[..|w| - 1], w[|w| - 1];
      assert w == front + [m];
      LanguageIsAutomaton(front);
      AcceptsSnoc(front, m, false);
      InLanguageSnoc(front, m);
    }
  }

  lemma {:induction false} ReplyMarksAppend(a: seq<Reply>, b: seq<Reply>, id: RicGenId)
    ensures ReplyMarks(a + b, id) == ReplyMarks(a, id) + ReplyMarks(b, id)
  {
    if b == [] {
      assert a + b == a;
    } else {
      assert (a + b)[..|a + b| - 1] == a + b[..|b| - 1];
      ReplyMarksAppend(a, b[..|b| - 1], id);
    }
  }

  lemma {:induction false} RequestMarksAppend(a: seq<Request>, b: seq<Request>, id: RicGenId)
    ensures RequestMarks(a + b, id) == RequestMarks(a, id) + RequestMarks(b, id)
  {
    if b == [] {
      assert a + b == a;
    } else {
      assert (a + b)[..|a + b| - 1] == a + b[..|b| - 1];
      RequestMarksAppend(a, b[..|b| - 1], id);
    }
  }

  lemma ReplyMarksSnoc(log: seq<Reply>, p: Reply, id: RicGenId)
    ensures ReplyMarks(log + [p], id) == ReplyMarks(log, id) + ReplyMark(p, id)
  {
    assert (log + [p])[..|log|] == log;
  }

  lemma RequestMarksSnoc(log: seq<Request>, q: Request, id: RicGenId)
    ensures RequestMarks(log + [q], id) == RequestMarks(log, id) + RequestMark(q, id)
  {
    assert (log + [q])[..|log|] == log;
  }

  /** The output marks w and the marks r of the served requests stand or fall together, and the
      subscription has exactly one timer while it is active. */
  ghost predicate InStep(w: seq<Mark>, r: seq<Mark>, timers: nat) {
    && (InLanguage(w) <==> InLanguage(r))
    && (InLanguage(w) ==> EndsActive(w) == EndsActive(r))
    && (InLanguage(w) ==> timers == if EndsActive(w) then 1 else 0)
  }

  ghost predicate TraceInv(s: Link, id: RicGenId) {
    InStep(ReplyMarks(Output(s), id), RequestMarks(s.handled, id), Count(s.agent.indEvent, id))
  }

  lemma InStepServe(w: seq<Mark>, r: seq<Mark>, timers: nat, m: Mark)
    requires InStep(w, r, timers) && m != Data
    ensures InStep(w + [m], r + [m],
                   if m == Open then timers + 1 else if timers > 0 then timers - 1 else timers)
  {
    InLanguageSnoc(w, m);
    InLanguageSnoc(r, m);
  }

  lemma InStepData(w: seq<Mark>, r: seq<Mark>, timers: nat)
    requires InStep(w, r, timers) && timers > 0
    ensures InStep(w + [Data], r, timers)
  {
    InLanguageSnoc(w, Data);
  }

  lemma ServingEffect(s: Link, fd: Fd)
    requires Enabled(s, AgentServes(fd))
    ensures var s', q := Apply(s, AgentServes(fd)), s.toAgent[0];
            && Output(s') == Output(s) + [AnswerTo(q)] && s'.handled == s.handled + [q]
            && s'.agent == A.HandleRequest(s.agent, q, fd)
  {
  }

  /** Serving one request moves both mark sequences and the timers together. */
  lemma ServeInStep(w: seq<Mark>, r: seq<Mark>, a: A.Agent, q: Request, fd: Fd, id: RicGenId)
    requires a.indEvent.Keys <= a.registered && A.TakesFd(a, q, fd)
    requires InStep(w, r, Count(a.indEvent, id))
    ensures InStep(w + ReplyMark(AnswerTo(q), id), r + RequestMark(q, id),
                   Count(A.HandleRequest(a, q, fd).indEvent, id))
  {
    A.ServingCounts(a, q, fd, id);
    if q == RicSubscriptionRequest(id) {
      InStepServe(w, r, Count(a.indEvent, id), Open);
    } else if q == RicSubscriptionDeleteRequest(id) {
      InStepServe(w, r, Count(a.indEvent, id), Close);
    } else {
      assert w + [] == w && r + [] == r;
    }
  }

  lemma ServingKeepsTrace(s: Link, fd: Fd, id: RicGenId)
    requires s.agent.indEvent.Keys <= s.agent.registered
    requires TraceInv(s, id) && Enabled(s, AgentServes(fd))
    ensures TraceInv(Apply(s, AgentServes(fd)), id)
  {
    var q := s.toAgent[0];
    ServingEffect(s, fd);
    ReplyMarksSnoc(Output(s), AnswerTo(q), id);
    RequestMarksSnoc(s.handled, q, id);
    ServeInStep(ReplyMarks(Output(s), id), RequestMarks(s.handled, id), s.agent, q, fd, id);
  }

  lemma IndicatingEffect(s: Link, fd: Fd)
    requires Enabled(s, AgentIndicates(fd))
    ensures fd in s.agent.indEvent
    ensures var s' := Apply(s, AgentIndicates(fd));
            && Output(s') == Output(s) + [RicIndication(s.agent.indEvent[fd])]
            && s'.handled == s.handled && s'.agent == s.agent
  {
  }

  /** An indication moves the output marks of its own subscription only. */
  lemma IndicateInStep(w: seq<Mark>, r: seq<Mark>, a: A.Agent, fd: Fd, id: RicGenId)
    requires fd in a.indEvent && InStep(w, r, Count(a.indEvent, id))
    ensures InStep(w + ReplyMark(RicIndication(a.indEvent[fd]), id), r, Count(a.indEvent, id))
  {
    if a.indEvent[fd] == id {
      CountPositive(a.indEvent, id);
      InStepData(w, r, Count(a.indEvent, id));
    } else {
      assert w + [] == w;
    }
  }

  lemma IndicatingKeepsTrace(s: Link, fd: Fd, id: RicGenId)
    requires TraceInv(s, id) && Enabled(s, AgentIndicates(fd))
    ensures TraceInv(Apply(s, AgentIndicates(fd)), id)
  {
    IndicatingEffect(s, fd);
    ReplyMarksSnoc(Output(s), RicIndication(s.agent.indEvent[fd]), id);
    IndicateInStep(ReplyMarks(Output(s), id), RequestMarks(s.handled, id), s.agent, fd, id);
  }

  /** Every other step leaves the logs, the agent and the order of its output alone. */
  lemma OtherStepsKeepOutput(s: Link, a: Action)
    requires Enabled(s, a) && !a.AgentServes? && !a.AgentIndicates?
    ensures var s' := Apply(s, a); Output(s') == Output(s) && s'.handled == s.handled && s'.agent == s.agent
  {
    if a.RicReceives? {
      assert s.toRic == [s.toRic[0]] + s.toRic[1..];
    }
  }

  lemma StepKeepsTrace(s: Link, a: Action, id: RicGenId)
    requires Inv(s) && TraceInv(s, id) && Enabled(s, a)
    ensures TraceInv(Apply(s, a), id)
  {
    if a.AgentServes? {
      ServingKeepsTrace(s, a.fd, id);
    } else if a.AgentIndicates? {
      IndicatingKeepsTrace(s, a.fd, id);
    } else {
      OtherStepsKeepOutput(s, a);
    }
  }

  lemma {:induction false} RunKeepsTrace(s: Link, acts: seq<Action>, s': Link, id: RicGenId)
    requires Inv(s) && TraceInv(s, id) && Run(s, acts, s')
    ensures TraceInv(s', id)
    decreases |acts|
  {
    if acts != [] {
      StepKeepsInv(s, acts[0]);
      StepKeepsTrace(s, acts[0], id);
      RunKeepsTrace(Apply(s, acts[0]), acts[1..], s', id);
    }
  }

  /** Over every run, the agent's output on one identifier is a prefix of
      (SubscriptionResponse Indication* DeleteResponse)* exactly when the requests it has served on
      that identifier alternate, starting with a subscription. */
  lemma OutputInLanguageIffRequestsAlternate(s: Link, acts: seq<Action>, s': Link, id: RicGenId)
    requires Initial(s) && Run(s, acts, s')
    ensures InLanguage(ReplyMarks(Output(s'), id)) <==> InLanguage(RequestMarks(s'.handled, id))
  {
    InitialInv(s);
    assert FdsOf(s.agent.indEvent, id) == {};
    RunKeepsTrace(s, acts, s', id);
  }

  /** A log in the language has an open, unclosed subscription before every indication. */
  lemma IndicationIsBracketed(log: seq<Reply>, id: RicGenId, i: nat)
    requires InLanguage(ReplyMarks(log, id)) && i < |log| && log[i] == RicIndication(id)
    ensures exists j :: 0 <= j < i && log[j] == RicSubscriptionResponse(id)
              && forall k :: j < k < i ==> log[k] != RicSubscriptionDeleteResponse(id)
  {
    var before := log[..i];
    assert log == (before + [log[i]]) + log[i + 1..];
    ReplyMarksAppend(before + [log[i]], log[i + 1..], id);
    InLanguagePrefix(ReplyMarks(before + [log[i]], id), ReplyMarks(log[i + 1..], id));
    ReplyMarksSnoc(before, log[i], id);
    InLanguageSnoc(ReplyMarks(before, id), Data);
    var j := LastOpen(before, id);
    assert log[j] == before[j];
    forall k | j < k < i ensures log[k] == before[k] {}
  }

  /** What the RIC dequeues, when the requests on the wire alternate: every indication comes after
      a subscription response that no delete response has followed. */
  lemma NoIndicationOutsideSubscription(s: Link, acts: seq<Action>, s': Link, id: RicGenId, i: nat)
    requires Initial(s) && Run(s, acts, s')
    requires InLanguage(RequestMarks(Input(s'), id))
    requires i < |s'.delivered| && s'.delivered[i] == RicIndication(id)
    ensures exists j :: 0 <= j < i && s'.delivered[j] == RicSubscriptionResponse(id)
              && forall k :: j < k < i ==> s'.delivered[k] != RicSubscriptionDeleteResponse(id)
  {
    RequestMarksAppend(s'.handled, s'.toAgent, id);
    InLanguagePrefix(RequestMarks(s'.handled, id), RequestMarks(s'.toAgent, id));
    OutputInLanguageIffRequestsAlternate(s, acts, s', id);
    ReplyMarksAppend(s'.delivered, s'.toRic, id);
    InLanguagePrefix(ReplyMarks(s'.delivered, id), ReplyMarks(s'.toRic, id));
    IndicationIsBracketed(s'.delivered, id, i);
  }

  /** While the requests served so far alternate, a subscription opened and not closed in the output
      has exactly one timer, and an idle one has none. */
  lemma OneTimerWhileActive(s: Link, acts: seq<Action>, s': Link, id: RicGenId)
    requires Initial(s) && Run(s, acts, s') && InLanguage(RequestMarks(s'.handled, id))
    ensures Count(s'.agent.indEvent, id) == if EndsActive(ReplyMarks(Output(s'), id)) then 1 else 0
  {
    InitialInv(s);
    assert FdsOf(s.agent.indEvent, id) == {};
    RunKeepsTrace(s, acts, s', id);
  }

  lemma {:induction false} LastOpen(log: seq<Reply>, id: RicGenId) returns (j: nat)
    requires InLanguage(ReplyMarks(log, id)) && EndsActive(ReplyMarks(log, id))
    ensures j < |log| && log[j] == RicSubscriptionResponse(id)
    ensures forall k :: j < k < |log| ==> log[k] != RicSubscriptionDeleteResponse(id)
    decreases |log|
  {
    var front, p := log[..|log| - 1], log[|log| - 1];
    if p == RicSubscriptionResponse(id) {
      return |log| - 1;
    }
    if p == RicIndication(id) {
      InLanguageSnoc(ReplyMarks(front, id), Data);
    } else {
      assert p != RicSubscriptionDeleteResponse(id);
      assert ReplyMarks(front, id) + [] == ReplyMarks(front, id);
    }
    j := LastOpen(front, id);
    forall k | j < k < |front| ensures log[k] == front[k] {}
  }
}
