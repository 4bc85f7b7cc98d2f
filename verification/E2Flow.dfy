/** What becomes of every request and reply over a whole run of the link: which identifiers are
    issued, that channels are FIFO, that every subscription timer's expiry is one indication, that
    nothing is lost or invented, and that the link can always come to rest.

    The reference definitions here read the actions of a run only; they share nothing with the steps
    of the machine. */
module E2Flow {
  import opened E2apTypes
  import opened BiMaps
  import opened NearRic
  import opened E2Link
  import A = E2Agents

  // ---- Identifiers ----

  /** The actions of a run that generate a request. */
  function DrawActs(acts: seq<Action>): seq<Action> {
    if acts == [] then [] else (if Draws(acts[0]) then [acts[0]] else []) + DrawActs(acts[1..])
  }

  /** The value of the 32-bit counter after an action that finds it at c. */
  function NextCount(c: nat, a: Action): nat {
    match a
    case Report(_) => (c + 1) % 0x1_0000_0000
    case Control(_) => (c + 1) % 0x1_0000_0000
    case FwdControl(_) => (c + 1) % 0x1_0000_0000
    case FwdSubscription(id) => id.reqId % 0x1_0000
    case _ => c
  }

  function CounterAfter(c: nat, draws: seq<Action>): nat
    decreases |draws|
  {
    if draws == [] then c else CounterAfter(NextCount(c, draws[0]), draws[1..])
  }

  /** The request that an action generates when it finds the counter at c. */
  predicate Numbered(c: nat, a: Action, q: Request) {
    match a
    case Report(rf) => q == RicSubscriptionRequest(RicGenId(c, 0, rf))
    case Control(rf) => q == RicControlRequest(RicGenId(c, 0, rf))
    case RmReport(rf, act) => q == RicSubscriptionDeleteRequest(RicGenId(act, 0, rf))
    case FwdSubscription(id) => q == RicSubscriptionRequest(id)
    case FwdControl(id) =>
      && q == RicControlRequest(id.(reqId := q.id.reqId))
      && q.id.reqId / 0x1_0000 == id.reqId / 0x1_0000 && q.id.reqId % 0x1_0000 == c % 0x1_0000
    case _ => false
  }

  lemma DrawIsNumbered(r: Ric, a: Action)
    requires Draws(a)
    ensures Numbered(r.reqId, a, Drawn(r, a)) && Counted(r, a).reqId == NextCount(r.reqId, a)
  {
    if a.FwdControl? {
      var high, low := a.id.reqId / U16, r.reqId % U16;
      assert a.id.reqId - a.id.reqId % U16 + low == high * U16 + low;
      assert (high * U16 + low) / U16 == high && (high * U16 + low) % U16 == low;
    }
  }

  lemma StepDraws(s: Link, a: Action)
    requires Enabled(s, a)
    ensures Draws(a) ==> && Apply(s, a).generated == s.generated + [Drawn(s.ric, a)]
                         && Apply(s, a).ric.reqId == Counted(s.ric, a).reqId
    ensures !Draws(a) ==> Apply(s, a).generated == s.generated && Apply(s, a).ric.reqId == s.ric.reqId
  {
  }

  /** Over every run, forwarded subscriptions included: the i-th generated request is the one its
      action asks for, numbered with the counter value that the actions before it leave. */
  lemma {:induction false} GeneratedAreNumbered(s: Link, acts: seq<Action>, s': Link, i: nat)
    requires Run(s, acts, s') && i < |DrawActs(acts)|
    ensures |s'.generated| == |s.generated| + |DrawActs(acts)|
    ensures s'.generated[..|s.generated|] == s.generated
    ensures Numbered(CounterAfter(s.ric.reqId, DrawActs(acts)[..i]), DrawActs(acts)[i], s'.generated[|s.generated| + i])
    decreases |acts|
  {
    var n, a := Apply(s, acts[0]), acts[0];
    StepDraws(s, a);
    var draws, rest := DrawActs(acts), DrawActs(acts[1..]);
    if Draws(a) {
      assert draws == [a] + rest;
      DrawIsNumbered(s.ric, a);
      LogGrows(n, acts[1..], s');
      if i > 0 {
        GeneratedAreNumbered(n, acts[1..], s', i - 1);
        assert draws[..i][1..] == rest[..i - 1];
      } else {
        assert s'.generated[|s.generated|] == s'.generated[..|n.generated|][|s.generated|];
      }
      assert s'.generated[..|s.generated|] == s'.generated[..|n.generated|][..|s.generated|];
    } else {
      assert draws == rest;
      GeneratedAreNumbered(n, acts[1..], s', i);
    }
  }

  lemma {:induction false} LogGrows(s: Link, acts: seq<Action>, s': Link)
    requires Run(s, acts, s')
    ensures |s'.generated| == |s.generated| + |DrawActs(acts)|
    ensures s'.generated[..|s.generated|] == s.generated
    decreases |acts|
  {
    if acts != [] {
      var n := Apply(s, acts[0]);
      StepDraws(s, acts[0]);
      LogGrows(n, acts[1..], s');
      assert s'.generated[..|s.generated|] == s'.generated[..|n.generated|][..|s.generated|];
    } else {
      assert s.generated[..|s.generated|] == s.generated;
    }
  }

  /** The action takes a value from the counter. */
  predicate Takes(a: Action) {
    a.Report? || a.Control? || a.FwdControl?
  }

  function Taken(draws: seq<Action>): nat {
    if draws == [] then 0 else (if Takes(draws[0]) then 1 else 0) + Taken(draws[1..])
  }

  /** Without forwarded subscriptions the values are consecutive. */
  lemma {:induction false} ValuesAreConsecutive(c: nat, draws: seq<Action>)
    requires c < 0x1_0000_0000 && forall a :: a in draws ==> !a.FwdSubscription?
    ensures CounterAfter(c, draws) == (c + Taken(draws)) % 0x1_0000_0000
    decreases |draws|
  {
    if draws != [] {
      assert draws[0] in draws;
      var c' := NextCount(c, draws[0]);
      ValuesAreConsecutive(c', draws[1..]);
      if Takes(draws[0]) {
        WrapTwice(c, Taken(draws[1..]));
      }
    }
  }

  lemma WrapTwice(c: nat, n: nat)
    ensures ((c + 1) % 0x1_0000_0000 + n) % 0x1_0000_0000 == (c + 1 + n) % 0x1_0000_0000
  {
  }

  lemma {:induction false} TakenSplits(a: seq<Action>, b: seq<Action>)
    ensures Taken(a + b) == Taken(a) + Taken(b)
  {
    if a == [] {
      assert a + b == b;
    } else {
      assert (a + b)[1..] == a[1..] + b;
      TakenSplits(a[1..], b);
    }
  }

  /** There is an action that takes the counter's n-th value. */
  lemma {:induction false} NthTake(draws: seq<Action>, n: nat) returns (i: nat)
    requires n < Taken(draws)
    ensures i < |draws| && Takes(draws[i]) && Taken(draws[..i]) == n
  {
    if Takes(draws[0]) && n == 0 {
      i := 0;
    } else {
      i := NthTake(draws[1..], if Takes(draws[0]) then n - 1 else n);
      assert draws[..i + 1] == [draws[0]] + draws[1..][..i];
      i := i + 1;
    }
  }

  predicate DistinctValues(c: nat, draws: seq<Action>) {
    forall i, j :: 0 <= i < j < |draws| && Takes(draws[i]) && Takes(draws[j]) ==>
      CounterAfter(c, draws[..i]) != CounterAfter(c, draws[..j])
  }

  lemma EqualValues(c: nat, draws: seq<Action>, i: nat, j: nat)
    requires c < 0x1_0000_0000 && forall a :: a in draws ==> !a.FwdSubscription?
    requires i <= j <= |draws|
    ensures CounterAfter(c, draws[..i]) == CounterAfter(c, draws[..j])
            <==> (Taken(draws[..j]) - Taken(draws[..i])) % 0x1_0000_0000 == 0
    ensures Taken(draws[..i]) <= Taken(draws[..j]) <= Taken(draws)
    ensures i < j && Takes(draws[i]) ==> Taken(draws[..i]) < Taken(draws[..j])
    ensures j < |draws| && Takes(draws[j]) ==> Taken(draws[..j]) < Taken(draws)
  {
    ValuesAreConsecutive(c, draws[..i]);
    ValuesAreConsecutive(c, draws[..j]);
    assert draws[..j] == draws[..i] + draws[i..j];
    TakenSplits(draws[..i], draws[i..j]);
    assert draws == draws[..j] + draws[j..];
    TakenSplits(draws[..j], draws[j..]);
    EqualModulo(c, Taken(draws[..i]), Taken(draws[..j]));
  }

  lemma EqualModulo(c: nat, x: nat, y: nat)
    requires x <= y
    ensures (c + x) % 0x1_0000_0000 == (c + y) % 0x1_0000_0000 <==> (y - x) % 0x1_0000_0000 == 0
  {
    var m := 0x1_0000_0000;
    var qx, qy, d := (c + x) / m, (c + y) / m, (y - x) / m;
    assert c + x == qx * m + (c + x) % m && c + y == qy * m + (c + y) % m && y - x == d * m + (y - x) % m;
    if (c + x) % m == (c + y) % m {
      assert y - x == (qy - qx) * m;
    }
    if (y - x) % m == 0 {
      assert c + y == (qx + d) * m + (c + x) % m;
    }
  }

  /** Without forwarded subscriptions, the values taken from the counter are pairwise distinct exactly
      when at most 2^32 were taken. */
  lemma ValuesAreDistinctIff(c: nat, draws: seq<Action>)
    requires c < 0x1_0000_0000 && forall a :: a in draws ==> !a.FwdSubscription?
    ensures DistinctValues(c, draws) <==> Taken(draws) <= 0x1_0000_0000
  {
    if Taken(draws) <= 0x1_0000_0000 {
      forall i, j | 0 <= i < j < |draws| && Takes(draws[i]) && Takes(draws[j])
        ensures CounterAfter(c, draws[..i]) != CounterAfter(c, draws[..j])
      {
        EqualValues(c, draws, i, j);
      }
    } else {
      var i := NthTake(draws, 0);
      var j := NthTake(draws, 0x1_0000_0000);
      if j <= i {
        EqualValues(c, draws, j, i);
      } else {
        EqualValues(c, draws, i, j);
        assert CounterAfter(c, draws[..i]) == CounterAfter(c, draws[..j]);
      }
    }
  }

  lemma {:induction false} DrawActsAreActs(acts: seq<Action>)
    ensures forall a :: a in DrawActs(acts) ==> a in acts && Draws(a)
  {
    if acts != [] {
      DrawActsAreActs(acts[1..]);
    }
  }

  /** Over every run without forwarded subscriptions: a report's and a control request's number is the
      next value of the counter, and two of them have equal numbers exactly when a multiple of 2^32
      values were taken from the first to the second. */
  lemma NumbersAreConsecutive(s: Link, acts: seq<Action>, s': Link, i: nat, j: nat)
    requires Initial(s) && s.ric.reqId < 0x1_0000_0000 && Run(s, acts, s')
    requires forall a :: a in acts ==> !a.FwdSubscription?
    requires i <= j < |DrawActs(acts)|
    requires (DrawActs(acts)[i].Report? || DrawActs(acts)[i].Control?)
    requires (DrawActs(acts)[j].Report? || DrawActs(acts)[j].Control?)
    ensures |s'.generated| == |DrawActs(acts)|
    ensures s'.generated[i].id.reqId == (s.ric.reqId + Taken(DrawActs(acts)[..i])) % 0x1_0000_0000
    ensures s'.generated[i].id.reqId == s'.generated[j].id.reqId
            <==> (Taken(DrawActs(acts)[..j]) - Taken(DrawActs(acts)[..i])) % 0x1_0000_0000 == 0
  {
    NoForwardsDrawn(acts);
    NumberOfDraw(s, acts, s', i);
    NumberOfDraw(s, acts, s', j);
    PairOfValues(s.ric.reqId, DrawActs(acts), i, j);
  }

  lemma NoForwardsDrawn(acts: seq<Action>)
    requires forall a :: a in acts ==> !a.FwdSubscription?
    ensures forall a :: a in DrawActs(acts) ==> !a.FwdSubscription?
  {
    DrawActsAreActs(acts);
  }

  lemma PairOfValues(c: nat, draws: seq<Action>, i: nat, j: nat)
    requires c < 0x1_0000_0000 && forall a :: a in draws ==> !a.FwdSubscription?
    requires i <= j <= |draws|
    ensures CounterAfter(c, draws[..i]) == (c + Taken(draws[..i])) % 0x1_0000_0000
    ensures CounterAfter(c, draws[..i]) == CounterAfter(c, draws[..j])
            <==> (Taken(draws[..j]) - Taken(draws[..i])) % 0x1_0000_0000 == 0
  {
    ValuesAreConsecutive(c, draws[..i]);
    EqualValues(c, draws, i, j);
  }

  lemma NumberOfDraw(s: Link, acts: seq<Action>, s': Link, i: nat)
    requires Initial(s) && Run(s, acts, s')
    requires i < |DrawActs(acts)| && (DrawActs(acts)[i].Report? || DrawActs(acts)[i].Control?)
    ensures |s'.generated| == |DrawActs(acts)|
    ensures s'.generated[i].id.reqId == CounterAfter(s.ric.reqId, DrawActs(acts)[..i])
  {
    GeneratedAreNumbered(s, acts, s', i);
    assert s.generated == [];
  }

  /** A forwarded subscription rewinds the counter to its own number: the next report is given the very
      identifier that was forwarded, if that has instance 0, the same function and a 16-bit number. */
  lemma ForwardedNumberIsReissued(s: Link, id: RicGenId, rf: nat)
    ensures var s2 := Apply(Apply(s, FwdSubscription(id)), Report(rf));
            && |s2.generated| == |s.generated| + 2
            && s2.generated[|s.generated|] == RicSubscriptionRequest(id)
            && (s2.generated[|s.generated| + 1] == s2.generated[|s.generated|]
                <==> id.instId == 0 && id.ranFuncId == rf && id.reqId < 0x1_0000)
  {
    var s1 := Apply(s, FwdSubscription(id));
    DrawIsNumbered(s.ric, FwdSubscription(id));
    DrawIsNumbered(s1.ric, Report(rf));
  }

  lemma StepMovesCounters(s: Link, a: Action)
    requires Enabled(s, a)
    ensures Apply(s, a).ric.lastReqId ==
            if a.FwdSubscription? && a.id.reqId % 0x1_0000 > s.ric.lastReqId then a.id.reqId % 0x1_0000
            else s.ric.lastReqId
    ensures a.TimerLookedUp? && s.ric.retryCount <= 3 ==>
              Apply(s, a).ric.retryCount == (s.ric.retryCount + 1) % 4
    ensures !a.TimerLookedUp? ==> Apply(s, a).ric.retryCount == s.ric.retryCount
  {
  }

  /** Over every run, the last identifier is the highest one forwarded so far. */
  lemma {:induction false} LastIsHighest(s: Link, acts: seq<Action>, s': Link)
    requires Run(s, acts, s')
    ensures s.ric.lastReqId <= s'.ric.lastReqId
    ensures forall id :: FwdSubscription(id) in acts ==> id.reqId % 0x1_0000 <= s'.ric.lastReqId
    ensures s'.ric.lastReqId != s.ric.lastReqId ==>
              exists id :: FwdSubscription(id) in acts && s'.ric.lastReqId == id.reqId % 0x1_0000
    decreases |acts|
  {
    if acts != [] {
      StepMovesCounters(s, acts[0]);
      LastIsHighest(Apply(s, acts[0]), acts[1..], s');
      assert acts == [acts[0]] + acts[1..];
      if s'.ric.lastReqId == Apply(s, acts[0]).ric.lastReqId != s.ric.lastReqId {
        assert FwdSubscription(acts[0].id) in acts;
      }
    }
  }

  function LookedUp(acts: seq<Action>): nat {
    if acts == [] then 0 else (if acts[0].TimerLookedUp? then 1 else 0) + LookedUp(acts[1..])
  }

  /** Over every run, the retry counter counts the timeouts modulo 4. */
  lemma {:induction false} TimeoutsAreCounted(s: Link, acts: seq<Action>, s': Link)
    requires s.ric.retryCount <= 3 && Run(s, acts, s')
    ensures s'.ric.retryCount == (s.ric.retryCount + LookedUp(acts)) % 4
    decreases |acts|
  {
    if acts != [] {
      StepMovesCounters(s, acts[0]);
      TimeoutsAreCounted(Apply(s, acts[0]), acts[1..], s');
    }
  }

  // ---- Channels ----

  /** The requests sent in a run, in order. */
  function Sends(acts: seq<Action>): seq<Request> {
    if acts == [] then [] else (if acts[0].Send? then [acts[0].q] else []) + Sends(acts[1..])
  }

  lemma StepKeepsInput(s: Link, a: Action)
    requires Enabled(s, a)
    ensures Input(Apply(s, a)) == Input(s) + Sends([a])
  {
    assert [a][1..] == [];
    if a.AgentServes? {
      assert s.toAgent == [s.toAgent[0]] + s.toAgent[1..];
    } else if a.Send? {
      assert s.handled + (s.toAgent + [a.q]) == s.handled + s.toAgent + [a.q];
    }
  }

  /** FIFO: what the agent has served, followed by what is on the wire, is what was sent, in order. */
  lemma {:induction false} ChannelIsFifo(s: Link, acts: seq<Action>, s': Link)
    requires Run(s, acts, s')
    ensures s'.handled + s'.toAgent == s.handled + s.toAgent + Sends(acts)
    decreases |acts|
  {
    if acts != [] {
      StepKeepsInput(s, acts[0]);
      ChannelIsFifo(Apply(s, acts[0]), acts[1..], s');
      assert [acts[0]][1..] == [];
      assert Sends(acts) == Sends([acts[0]]) + Sends(acts[1..]);
    }
  }

  /** The replies of a log that answer requests. */
  function Keyed(log: seq<Reply>): seq<Reply> {
    if log == [] then []
    else Keyed(log[..|log| - 1]) + (if log[|log| - 1].RicIndication? then [] else [log[|log| - 1]])
  }

  function IndicationIds(log: seq<Reply>): seq<RicGenId> {
    if log == [] then []
    else IndicationIds(log[..|log| - 1]) + (if log[|log| - 1].RicIndication? then [log[|log| - 1].id] else [])
  }

  lemma LogsSnoc(log: seq<Reply>, p: Reply)
    ensures Keyed(log + [p]) == Keyed(log) + (if p.RicIndication? then [] else [p])
    ensures IndicationIds(log + [p]) == IndicationIds(log) + (if p.RicIndication? then [p.id] else [])
  {
    assert (log + [p])[..|log|] == log;
  }

  /** The answers owed for the served requests: one each, in order. */
  predicate Answers(ps: seq<Reply>, qs: seq<Request>) {
    && |ps| == |qs|
    && forall i :: 0 <= i < |qs| ==>
         && (qs[i].RicSubscriptionRequest? ==> ps[i] == RicSubscriptionResponse(qs[i].id))
         && (qs[i].RicSubscriptionDeleteRequest? ==> ps[i] == RicSubscriptionDeleteResponse(qs[i].id))
         && (qs[i].RicControlRequest? ==> ps[i] == RicControlAcknowledge(qs[i].id))
  }

  /** The subscription whose timer fires in a step, read before the step is made. */
  function Expiry(s: Link, a: Action): seq<RicGenId> {
    if a.AgentIndicates? && a.fd in s.agent.indEvent then [s.agent.indEvent[a.fd]] else []
  }

  ghost function Expiries(s: Link, acts: seq<Action>): seq<RicGenId>
    decreases |acts|
  {
    if acts == [] || !Enabled(s, acts[0]) then [] else Expiry(s, acts[0]) + Expiries(Apply(s, acts[0]), acts[1..])
  }

  lemma ServingOutput(s: Link, a: Action)
    requires Enabled(s, a) && a.AgentServes?
    ensures Output(Apply(s, a)) == Output(s) + [AnswerTo(s.toAgent[0])]
    ensures Apply(s, a).handled == s.handled + [s.toAgent[0]]
  {
  }

  lemma IndicatingOutput(s: Link, a: Action)
    requires Enabled(s, a) && a.AgentIndicates?
    ensures a.fd in s.agent.indEvent
    ensures Output(Apply(s, a)) == Output(s) + [RicIndication(s.agent.indEvent[a.fd])]
    ensures Apply(s, a).handled == s.handled
  {
  }

  lemma OtherOutput(s: Link, a: Action)
    requires Enabled(s, a) && !a.AgentServes? && !a.AgentIndicates?
    ensures Output(Apply(s, a)) == Output(s) && Apply(s, a).handled == s.handled
  {
    if a.RicReceives? {
      assert s.toRic == [s.toRic[0]] + s.toRic[1..];
    }
  }

  lemma StepKeepsAnswers(s: Link, a: Action)
    requires Enabled(s, a) && Answers(Keyed(Output(s)), s.handled)
    ensures Answers(Keyed(Output(Apply(s, a))), Apply(s, a).handled)
  {
    if a.AgentServes? {
      ServingOutput(s, a);
      LogsSnoc(Output(s), AnswerTo(s.toAgent[0]));
    } else if a.AgentIndicates? {
      IndicatingOutput(s, a);
      LogsSnoc(Output(s), RicIndication(s.agent.indEvent[a.fd]));
    } else {
      OtherOutput(s, a);
    }
  }

  lemma {:induction false} RunKeepsAnswers(s: Link, acts: seq<Action>, s': Link)
    requires Run(s, acts, s') && Answers(Keyed(Output(s)), s.handled)
    ensures Answers(Keyed(Output(s')), s'.handled)
    decreases |acts|
  {
    if acts != [] {
      StepKeepsAnswers(s, acts[0]);
      RunKeepsAnswers(Apply(s, acts[0]), acts[1..], s');
    }
  }

  lemma StepIndicates(s: Link, a: Action)
    requires Enabled(s, a)
    ensures IndicationIds(Output(Apply(s, a))) == IndicationIds(Output(s)) + Expiry(s, a)
  {
    if a.AgentServes? {
      ServingOutput(s, a);
      LogsSnoc(Output(s), AnswerTo(s.toAgent[0]));
    } else if a.AgentIndicates? {
      IndicatingOutput(s, a);
      LogsSnoc(Output(s), RicIndication(s.agent.indEvent[a.fd]));
    } else {
      OtherOutput(s, a);
    }
  }

  lemma {:induction false} IndicationsFrom(s: Link, acts: seq<Action>, s': Link)
    requires Run(s, acts, s')
    ensures IndicationIds(Output(s')) == IndicationIds(Output(s)) + Expiries(s, acts)
    decreases |acts|
  {
    if acts != [] {
      StepIndicates(s, acts[0]);
      IndicationsFrom(Apply(s, acts[0]), acts[1..], s');
    }
  }

  /** Over every run, the agent's output is made of one answer per served request, in order, and one
      indication per expiry of a subscription timer, in order and under that subscription's identifier. */
  lemma OutputIsExact(s: Link, acts: seq<Action>, s': Link)
    requires Initial(s) && Run(s, acts, s')
    ensures Answers(Keyed(Output(s')), s'.handled)
    ensures IndicationIds(Output(s')) == Expiries(s, acts)
  {
    RunKeepsAnswers(s, acts, s');
    IndicationsFrom(s, acts, s');
  }

  /** A subscription with a timer can indicate, and its indication goes behind everything already put
      on the channel. */
  lemma NextIndicationGoesLast(s: Link, acts: seq<Action>, s': Link, id: RicGenId)
    requires Initial(s) && Run(s, acts, s') && Count(s'.agent.indEvent, id) > 0
    ensures exists fd :: Enabled(s', AgentIndicates(fd)) && s'.agent.indEvent[fd] == id
    ensures forall fd :: Enabled(s', AgentIndicates(fd)) && s'.agent.indEvent[fd] == id ==>
              Output(Apply(s', AgentIndicates(fd))) == Output(s') + [RicIndication(id)]
  {
    InitialInv(s);
    RunKeepsInv(s, acts, s');
    CountPositive(s'.agent.indEvent, id);
    var fd :| fd in s'.agent.indEvent && s'.agent.indEvent[fd] == id;
    A.ClassificationIsExact(s'.agent, {}, fd);
    assert Enabled(s', AgentIndicates(fd));
    forall g | Enabled(s', AgentIndicates(g)) && s'.agent.indEvent[g] == id
      ensures Output(Apply(s', AgentIndicates(g))) == Output(s') + [RicIndication(id)]
    {
      IndicatingOutput(s', AgentIndicates(g));
    }
  }

  // ---- Nothing lost, nothing invented ----

  ghost predicate Accounted(s: Link, q: Request) {
    && multiset(s.generated)[q] + multiset(s.deleted)[q] == s.drawn[q] + multiset(s.issued)[q]
    && multiset(s.issued)[q] == Outstanding(s, q) + multiset(s.finished)[AnswerTo(q)]
  }

  lemma RegistrationAccounts(s: Link, s': Link, q0: Request, q: Request)
    requires Accounted(s, q) && q0 in s.drawn
    requires s'.drawn == s.drawn - multiset{q0} && s'.unsent == s.unsent + multiset{q0} && s'.issued == s.issued + [q0]
    requires s'.generated == s.generated && s'.deleted == s.deleted && s'.finished == s.finished
    requires s'.toAgent == s.toAgent && s'.toRic == s.toRic && s'.held == s.held
    ensures Accounted(s', q)
  {
  }

  lemma DeletionAccounts(s: Link, s': Link, q0: Request, q: Request)
    requires Accounted(s, q)
    requires s'.deleted == s.deleted + [q0] && s'.unsent == s.unsent + multiset{q0} && s'.issued == s.issued + [q0]
    requires s'.generated == s.generated && s'.drawn == s.drawn && s'.finished == s.finished
    requires s'.toAgent == s.toAgent && s'.toRic == s.toRic && s'.held == s.held
    ensures Accounted(s', q)
  {
  }

  /** Steps that move a copy of a request from one place to the next. */
  lemma MovingAccounts(s: Link, s': Link, q: Request)
    requires Accounted(s, q) && Outstanding(s', q) == Outstanding(s, q)
    requires s'.generated == s.generated && s'.deleted == s.deleted && s'.drawn == s.drawn
    requires s'.issued == s.issued && s'.finished == s.finished
    ensures Accounted(s', q)
  {
  }

  lemma FinishingAccounts(s: Link, s': Link, p: Reply, q: Request)
    requires Accounted(s, q) && p in s.held
    requires s'.held == s.held - multiset{p} && s'.finished == s.finished + [p]
    requires s'.generated == s.generated && s'.deleted == s.deleted && s'.drawn == s.drawn && s'.issued == s.issued
    requires s'.unsent == s.unsent && s'.toAgent == s.toAgent && s'.toRic == s.toRic
    ensures Accounted(s', q)
  {
  }

  lemma SendMoves(s: Link, s': Link, q0: Request, q: Request)
    requires q0 in s.unsent && s'.unsent == s.unsent - multiset{q0} && s'.toAgent == s.toAgent + [q0]
    requires s'.toRic == s.toRic && s'.held == s.held
    ensures Outstanding(s', q) == Outstanding(s, q)
  {
  }

  lemma ServingMoves(s: Link, s': Link, q0: Request, q: Request)
    requires s.toAgent == [q0] + s'.toAgent && s'.toRic == s.toRic + [AnswerTo(q0)]
    requires s'.unsent == s.unsent && s'.held == s.held
    ensures Outstanding(s', q) == Outstanding(s, q)
  {
    AnswerStopsItsOwnRequest(q, q0);
  }

  lemma ReceivingMoves(s: Link, s': Link, p: Reply, q: Request)
    requires s.toRic == [p] + s'.toRic && s'.held == s.held + multiset{p}
    requires s'.unsent == s.unsent && s'.toAgent == s.toAgent
    ensures Outstanding(s', q) == Outstanding(s, q)
  {
  }

  lemma IndicatingMoves(s: Link, s': Link, id: RicGenId, q: Request)
    requires s'.toRic == s.toRic + [RicIndication(id)]
    requires s'.unsent == s.unsent && s'.toAgent == s.toAgent && s'.held == s.held
    ensures Outstanding(s', q) == Outstanding(s, q)
  {
  }

  lemma MessageMoves(s: Link, a: Action, q: Request)
    requires Enabled(s, a) && (a.Send? || a.AgentServes? || a.AgentIndicates? || a.RicReceives?)
    ensures Outstanding(Apply(s, a), q) == Outstanding(s, q)
  {
    var s' := Apply(s, a);
    match a
    case Send(q0) => SendMoves(s, s', q0, q);
    case AgentServes(_) => ServingMoves(s, s', s.toAgent[0], q);
    case AgentIndicates(fd) => IndicatingMoves(s, s', s.agent.indEvent[fd], q);
    case RicReceives => ReceivingMoves(s, s', s.toRic[0], q);
  }

  lemma StepAccounts(s: Link, a: Action, q: Request)
    requires Accounted(s, q) && Enabled(s, a)
    ensures Accounted(Apply(s, a), q)
  {
    var s' := Apply(s, a);
    match a
    case Registers(q0, _) => RegistrationAccounts(s, s', q0, q);
    case FwdDelete(id, _) =>
      if !AlreadyPending(s.ric, RicSubscriptionDeleteRequest(id)) {
        DeletionAccounts(s, s', RicSubscriptionDeleteRequest(id), q);
      }
    case WorkerHandles(p, _) => FinishingAccounts(s, s', p, q);
    case _ =>
      if !Draws(a) {
        if a.Send? || a.AgentServes? || a.AgentIndicates? || a.RicReceives? { MessageMoves(s, a, q); }
        MovingAccounts(s, s', q);
      }
  }

  lemma {:induction false} RunAccounts(s: Link, acts: seq<Action>, s': Link, q: Request)
    requires Accounted(s, q) && Run(s, acts, s')
    ensures Accounted(s', q)
    decreases |acts|
  {
    if acts != [] {
      StepAccounts(s, acts[0], q);
      RunAccounts(Apply(s, acts[0]), acts[1..], s', q);
    }
  }

  /** Over every run and for every request: generated or forwarded as a delete is waiting to be
      registered or registered, and registered is under way or its answer handled. */
  lemma RequestsAreAccounted(s: Link, acts: seq<Action>, s': Link, q: Request)
    requires Initial(s) && Run(s, acts, s')
    ensures multiset(s'.generated)[q] + multiset(s'.deleted)[q] == s'.drawn[q] + multiset(s'.issued)[q]
    ensures multiset(s'.issued)[q] == Outstanding(s', q) + multiset(s'.finished)[AnswerTo(q)]
  {
    RunAccounts(s, acts, s', q);
  }

  // ---- The forwarded delete ----

  /** In every reachable state a forwarded delete adds exactly one copy when none of this identifier's
      deletes is under way, adds nothing otherwise, and leaves every other request alone. */
  lemma ForwardedDeleteIsExact(s: Link, acts: seq<Action>, s': Link, id: RicGenId, fd: Fd, q: Request)
    requires Initial(s) && Run(s, acts, s') && Fresh(s'.ric, fd)
    ensures Enabled(s', FwdDelete(id, fd))
    ensures var d, n := RicSubscriptionDeleteRequest(id), Apply(s', FwdDelete(id, fd));
            && Outstanding(n, d) == (if Outstanding(s', d) == 0 then 1 else Outstanding(s', d))
            && (q != d ==> Outstanding(n, q) == Outstanding(s', q))
            && n.unsent == (if Outstanding(s', d) == 0 then s'.unsent + multiset{d} else s'.unsent)
  {
    var d := RicSubscriptionDeleteRequest(id);
    DeleteLookup(s, acts, s', id);
    if !AlreadyPending(s'.ric, d) {
      UnsentGrows(s', Apply(s', FwdDelete(id, fd)), d, d);
      UnsentGrows(s', Apply(s', FwdDelete(id, fd)), d, q);
    }
  }

  lemma DeleteLookup(s: Link, acts: seq<Action>, s': Link, id: RicGenId)
    requires Initial(s) && Run(s, acts, s')
    ensures AlreadyPending(s'.ric, RicSubscriptionDeleteRequest(id))
            <==> Outstanding(s', RicSubscriptionDeleteRequest(id)) > 0
  {
    RequestsAreConserved(s, acts, s', RicSubscriptionDeleteRequest(id));
    CountPositive(s'.ric.pending, RegisteredAs(RicSubscriptionDeleteRequest(id)));
  }

  lemma UnsentGrows(s: Link, s': Link, q0: Request, q: Request)
    requires s'.unsent == s.unsent + multiset{q0}
    requires s'.toAgent == s.toAgent && s'.toRic == s.toRic && s'.held == s.held
    ensures Outstanding(s', q) == Outstanding(s, q) + (if q == q0 then 1 else 0)
  {
  }
}
