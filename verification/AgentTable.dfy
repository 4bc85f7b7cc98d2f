/** The table of agents, one per near-RT RIC: src/agent/e2_agent_api.c.

    init_agent_api and stop_agent_api hold the table's mutex; the agents' threads set the active
    flag of their slot without it. Inside an initialisation a flag can only be cleared by others,
    so the whole of it is one step; a stop waits for threads, so it is a step per slot. */
module AgentTable {
  import opened E2apTypes

  const MAX_RICS := 20

  /** What the slot's thread is doing. */
  datatype Phase = NoThread | Created | Running | Ended

  datatype Slot = Slot(phase: Phase, active: bool, ip: Option<string>)

  /** Where stop_agent_api is: about to test a slot, or joining the slot's thread. */
  datatype Stopper = NotStopping | Testing(i: nat) | Joining(i: nat)

  datatype Table = Table(slots: seq<Slot>, num: nat, stop: Stopper)

  /** `ready` and `spawned` are the outcomes of e2_init_agent and pthread_create; `limit` is the
      length from which an address is refused. */
  datatype Action =
    | Init(ip: string, limit: nat, ready: bool, spawned: bool)
    | ThreadStarts(i: nat)
    | ThreadEnds(i: nat)
    | StopBegins
    | StopTests
    | StopJoins
    | StopFinishes

  predicate Alive(p: Phase) {
    p == Created || p == Running
  }

  /** The search of init_agent_api: it looks at the slots below the counter only. */
  predicate Duplicate(t: Table, ip: string) {
    exists i :: 0 <= i < t.num && i < |t.slots| && t.slots[i].active && t.slots[i].ip == Some(ip)
  }

  predicate Admits(t: Table, a: Action)
    requires a.Init?
  {
    t.num < MAX_RICS && !Duplicate(t, a.ip) && |a.ip| < a.limit && a.ready && a.spawned
  }

  predicate Enabled(t: Table, a: Action) {
    match a
    case Init(_, _, _, _) => t.stop.NotStopping?
    case ThreadStarts(i) => i < |t.slots| && t.slots[i].phase == Created
    case ThreadEnds(i) => i < |t.slots| && t.slots[i].phase == Running
    case StopBegins => t.stop.NotStopping?
    case StopTests => t.stop.Testing? && t.stop.i < t.num && t.stop.i < |t.slots|
    case StopJoins => t.stop.Joining? && t.stop.i < |t.slots| && t.slots[t.stop.i].phase == Ended
    case StopFinishes => t.stop.Testing? && t.stop.i == t.num
  }

  /** A failed pthread_create clears the flag and the address it has just set. */
  function AfterInit(t: Table, a: Action): Table
    requires a.Init?
  {
    if Admits(t, a) && t.num < |t.slots| then
      t.(slots := t.slots[t.num := Slot(Created, true, Some(a.ip))], num := t.num + 1)
    else if t.num < MAX_RICS && !Duplicate(t, a.ip) && |a.ip| < a.limit && a.ready && t.num < |t.slots| then
      t.(slots := t.slots[t.num := t.slots[t.num].(active := false, ip := None)])
    else t
  }

  function Apply(t: Table, a: Action): Table
    requires Enabled(t, a)
  {
    match a
    case Init(_, _, _, _) => AfterInit(t, a)
    case ThreadStarts(i) => t.(slots := t.slots[i := t.slots[i].(phase := Running, active := true)])
    case ThreadEnds(i) => t.(slots := t.slots[i := t.slots[i].(phase := Ended, active := false)])
    case StopBegins => t.(stop := Testing(0))
    case StopTests => t.(stop := if t.slots[t.stop.i].active then Joining(t.stop.i) else Testing(t.stop.i + 1))
    case StopJoins =>
      t.(slots := t.slots[t.stop.i := t.slots[t.stop.i].(active := false, ip := None)], stop := Testing(t.stop.i + 1))
    case StopFinishes => t.(num := 0, stop := NotStopping)
  }

  ghost predicate Run(t: Table, acts: seq<Action>, t': Table)
    decreases |acts|
  {
    if acts == [] then t == t' else Enabled(t, acts[0]) && Run(Apply(t, acts[0]), acts[1..], t')
  }

  const Initial := Table(seq(MAX_RICS, _ => Slot(NoThread, false, None)), 0, NotStopping)

  // ---- What every step keeps ----

  predicate Quiet(t: Table, upTo: nat) {
    forall i :: 0 <= i < upTo && i < |t.slots| ==> !t.slots[i].active
  }

  predicate OneAgentPerRic(t: Table) {
    forall i, j :: 0 <= i < j < |t.slots| && t.slots[i].active && t.slots[j].active ==> t.slots[i].ip != t.slots[j].ip
  }

  predicate Inv(t: Table) {
    && |t.slots| == MAX_RICS && t.num <= MAX_RICS
    && (forall i :: 0 <= i < |t.slots| ==> (t.slots[i].active <==> Alive(t.slots[i].phase)))
    && (forall i :: 0 <= i < |t.slots| && t.slots[i].active ==> i < t.num && t.slots[i].ip.Some?)
    && OneAgentPerRic(t)
    && (t.stop.Testing? ==> t.stop.i <= t.num && Quiet(t, t.stop.i))
    && (t.stop.Joining? ==> t.stop.i < t.num && Quiet(t, t.stop.i))
  }

  lemma StepKeepsInv(t: Table, a: Action)
    requires Inv(t) && Enabled(t, a)
    ensures Inv(Apply(t, a))
  {
  }

  lemma {:induction false} RunKeepsInv(t: Table, acts: seq<Action>, t': Table)
    requires Inv(t) && Run(t, acts, t')
    ensures Inv(t')
    decreases |acts|
  {
    if acts != [] {
      StepKeepsInv(t, acts[0]);
      RunKeepsInv(Apply(t, acts[0]), acts[1..], t');
    }
  }

  /** Under every interleaving of initialisations, thread starts and ends and stops: the counter
      stays between 0 and 20, every active slot lies below it, and no two active slots serve the
      same RIC; a slot is active exactly while its thread is created or running. */
  lemma TableIsSound(acts: seq<Action>, t: Table)
    requires Run(Initial, acts, t)
    ensures 0 <= t.num <= 20 && |t.slots| == 20
    ensures forall i :: 0 <= i < |t.slots| && t.slots[i].active ==> i < t.num
    ensures forall i, j :: 0 <= i < j < |t.slots| && t.slots[i].active && t.slots[j].active ==>
              t.slots[i].ip != t.slots[j].ip
    ensures forall i :: 0 <= i < |t.slots| ==> (t.slots[i].active <==> Alive(t.slots[i].phase))
  {
    RunKeepsInv(Initial, acts, t);
  }

  /** The step that ends a stop leaves a zero counter, no active slot and no thread alive. */
  lemma StopLeavesNothing(acts: seq<Action>, t: Table)
    requires Run(Initial, acts, t) && Enabled(t, StopFinishes)
    ensures var t' := Apply(t, StopFinishes);
            t'.num == 0 && forall i :: 0 <= i < |t'.slots| ==> !t'.slots[i].active && !Alive(t'.slots[i].phase)
  {
    RunKeepsInv(Initial, acts, t);
  }

  /** The search below the counter misses nobody: outside a stop, an initialisation starts an agent
      exactly when fewer than 20 were started since the last stop, no thread alive anywhere in the
      table serves this RIC, the address is short enough, and agent and thread could be created. The
      agent takes the slot at the counter. Otherwise the counter stays, and so does every slot, except
      that a thread that could not be created clears flag and address of the slot at the counter. */
  lemma AdmissionIsExact(acts: seq<Action>, t: Table, ip: string, limit: nat, ready: bool, spawned: bool)
    requires Run(Initial, acts, t) && t.stop.NotStopping?
    ensures Enabled(t, Init(ip, limit, ready, spawned)) && |t.slots| == 20
    ensures var t' := Apply(t, Init(ip, limit, ready, spawned));
            var free := t.num < 20 && |ip| < limit && ready
                        && forall i :: 0 <= i < |t.slots| ==>
                             t.slots[i].ip == Some(ip) ==> t.slots[i].phase != Created && t.slots[i].phase != Running;
            && (t'.num == t.num + 1 <==> free && spawned)
            && (free && spawned ==> t'.slots == t.slots[t.num := Slot(Created, true, Some(ip))])
            && (free && !spawned ==> t'.num == t.num
                                     && t'.slots == t.slots[t.num := Slot(t.slots[t.num].phase, false, None)])
            && (!free ==> t' == t)
  {
    RunKeepsInv(Initial, acts, t);
  }

  // ---- A stop can always be completed ----

  function Remaining(t: Table): int {
    match t.stop
    case NotStopping => 0
    case Testing(i) => 4 * (t.num - i) + 1
    case Joining(i) =>
      4 * (t.num - i) - (if i < |t.slots| && t.slots[i].phase == Created then 1
                         else if i < |t.slots| && t.slots[i].phase == Running then 2 else 3) + 1
  }

  function NextStopStep(t: Table): Action {
    match t.stop
    case NotStopping => StopBegins
    case Testing(i) => if i == t.num then StopFinishes else StopTests
    case Joining(i) =>
      if i < |t.slots| && t.slots[i].phase == Created then ThreadStarts(i)
      else if i < |t.slots| && t.slots[i].phase == Running then ThreadEnds(i)
      else StopJoins
  }

  lemma StopStepProgresses(t: Table)
    requires Inv(t) && !t.stop.NotStopping?
    requires t.stop.Joining? ==> t.slots[t.stop.i].phase != NoThread
    ensures Enabled(t, NextStopStep(t))
    ensures var t' := Apply(t, NextStopStep(t));
            && 0 <= Remaining(t') < Remaining(t)
            && (t'.stop.Joining? ==> t'.slots[t'.stop.i].phase != NoThread)
            && (t'.stop.NotStopping? ==> t'.num == 0)
  {
  }

  lemma {:induction false} StopCompletesFrom(t: Table) returns (acts: seq<Action>, t': Table)
    requires Inv(t) && (t.stop.Joining? ==> t.slots[t.stop.i].phase != NoThread)
    requires !t.stop.NotStopping?
    ensures Run(t, acts, t') && Inv(t') && t'.stop.NotStopping? && t'.num == 0
    ensures forall a :: a in acts ==> !a.Init? && !a.StopBegins?
    decreases Remaining(t)
  {
    var a := NextStopStep(t);
    StopStepProgresses(t);
    StepKeepsInv(t, a);
    var u := Apply(t, a);
    var rest := [];
    t' := u;
    if !u.stop.NotStopping? {
      rest, t' := StopCompletesFrom(u);
    }
    acts := [a] + rest;
    assert acts[1..] == rest;
  }

  predicate JoinsThread(t: Table) {
    t.stop.Joining? ==> t.stop.i < |t.slots| && t.slots[t.stop.i].phase != NoThread
  }

  lemma {:induction false} RunKeepsJoining(t: Table, acts: seq<Action>, t': Table)
    requires Inv(t) && JoinsThread(t) && Run(t, acts, t')
    ensures JoinsThread(t')
    decreases |acts|
  {
    if acts != [] {
      StepKeepsInv(t, acts[0]);
      RunKeepsJoining(Apply(t, acts[0]), acts[1..], t');
    }
  }

  /** No deadlock: wherever a stop stands, steps of the stop and of the threads alone complete it. */
  lemma StopNeverSticks(acts: seq<Action>, t: Table) returns (rest: seq<Action>, t': Table)
    requires Run(Initial, acts, t) && !t.stop.NotStopping?
    ensures Run(t, rest, t') && t'.stop.NotStopping? && t'.num == 0
    ensures forall a :: a in rest ==> !a.Init? && !a.StopBegins?
  {
    RunKeepsInv(Initial, acts, t);
    RunKeepsJoining(Initial, acts, t);
    rest, t' := StopCompletesFrom(t);
  }

  // ---- Ended threads keep their slots ----

  function Started(k: nat, ip: string): Table {
    var slots := seq(MAX_RICS, i => if i < k then Slot(Ended, false, Some(ip)) else Slot(NoThread, false, None));
    Table(slots, k, NotStopping)
  }

  lemma {:induction false} RunJoin(t: Table, a: seq<Action>, m: Table, b: seq<Action>, t': Table)
    requires Run(t, a, m) && Run(m, b, t')
    ensures Run(t, a + b, t')
    decreases |a|
  {
    if a == [] {
      assert a + b == b;
    } else {
      assert (a + b)[1..] == a[1..] + b;
      RunJoin(Apply(t, a[0]), a[1..], m, b, t');
    }
  }

  lemma OneShortLife(k: nat, ip: string) returns (acts: seq<Action>)
    requires k < MAX_RICS
    ensures Run(Started(k, ip), acts, Started(k + 1, ip))
  {
    var a := Init(ip, |ip| + 1, true, true);
    var t0 := Started(k, ip);
    assert !Duplicate(t0, ip);
    var t1 := Apply(t0, a);
    var t2 := Apply(t1, ThreadStarts(k));
    var t3 := Apply(t2, ThreadEnds(k));
    assert t3.slots == Started(k + 1, ip).slots;
    assert Run(t3, [], Started(k + 1, ip));
    assert [ThreadEnds(k)][1..] == [];
    assert Run(t2, [ThreadEnds(k)], Started(k + 1, ip));
    assert [ThreadStarts(k), ThreadEnds(k)][1..] == [ThreadEnds(k)];
    assert Run(t1, [ThreadStarts(k), ThreadEnds(k)], Started(k + 1, ip));
    acts := [a, ThreadStarts(k), ThreadEnds(k)];
    assert acts[1..] == [ThreadStarts(k), ThreadEnds(k)];
  }

  /** The counter counts agents started, not agents active: twenty that have come and gone leave a
      table without a thread that refuses every further one. */
  lemma {:induction false} EndedAgentsFillTheTable(k: nat, ip: string) returns (acts: seq<Action>)
    requires k <= MAX_RICS
    ensures Run(Initial, acts, Started(k, ip))
    ensures forall i :: 0 <= i < MAX_RICS ==> !Started(k, ip).slots[i].active
    ensures forall other, limit :: Apply(Started(MAX_RICS, ip), Init(other, limit, true, true)) == Started(MAX_RICS, ip)
  {
    if k == 0 {
      acts := [];
      assert Started(0, ip).slots == Initial.slots;
    } else {
      var front := EndedAgentsFillTheTable(k - 1, ip);
      var last := OneShortLife(k - 1, ip);
      RunJoin(Initial, front, Started(k - 1, ip), last, Started(k, ip));
      acts := front + last;
    }
  }

  /** The stop steps over one slot whose thread is given the time to end. */
  function Stopped(slot: Slot): Slot {
    if slot.active then Slot(Ended, false, None) else slot
  }

  lemma StopOneSlot(t: Table) returns (acts: seq<Action>)
    requires Inv(t) && t.stop.Testing? && t.stop.i < t.num
    ensures Run(t, acts, t.(slots := t.slots[t.stop.i := Stopped(t.slots[t.stop.i])], stop := Testing(t.stop.i + 1)))
  {
    var i := t.stop.i;
    var u := t.(slots := t.slots[i := Stopped(t.slots[i])], stop := Testing(i + 1));
    assert Run(u, [], u);
    if !t.slots[i].active {
      assert Apply(t, StopTests) == u && [StopTests][1..] == [];
      return [StopTests];
    }
    acts := [StopJoins];
    assert acts[1..] == [];
    var ended := t.(slots := t.slots[i := t.slots[i].(phase := Ended, active := false)], stop := Joining(i));
    assert Apply(ended, StopJoins) == u;
    var running := t.(slots := t.slots[i := t.slots[i].(phase := Running)], stop := Joining(i));
    assert Apply(running, ThreadEnds(i)) == ended;
    acts := RunCons(running, ThreadEnds(i), acts, u);
    var tested := t.(stop := Joining(i));
    if t.slots[i].phase == Created {
      assert Apply(tested, ThreadStarts(i)) == running;
      acts := RunCons(tested, ThreadStarts(i), acts, u);
    } else {
      assert tested.slots == running.slots;
    }
    acts := RunCons(t, StopTests, acts, u);
  }

  lemma RunCons(t: Table, a: Action, acts: seq<Action>, t': Table) returns (r: seq<Action>)
    requires Enabled(t, a) && Run(Apply(t, a), acts, t')
    ensures Run(t, r, t')
  {
    r := [a] + acts;
    assert r[1..] == acts;
  }

  // ---- The operations as they run ----

  class Agents {
    const slots: array<Slot>
    var num: nat

    ghost predicate Valid()
      reads this, slots
    {
      slots.Length == MAX_RICS && num <= MAX_RICS
    }

    ghost function View(): Table
      reads this, slots
    {
      Table(slots[..], num, NotStopping)
    }

    constructor ()
      ensures Valid() && View() == Initial && fresh(slots)
    {
      slots := new Slot[MAX_RICS](_ => Slot(NoThread, false, None));
      num := 0;
      new;
      assert slots[..] == Initial.slots;
    }

    method InitAgentApi(ip: string, limit: nat, ready: bool, spawned: bool)
      requires Valid()
      modifies this, slots
      ensures Valid() && View() == Apply(old(View()), Init(ip, limit, ready, spawned))
    {
      if num >= MAX_RICS {
        return;
      }
      for i := 0 to num
        invariant forall j :: 0 <= j < i ==> !(slots[j].active && slots[j].ip == Some(ip))
      {
        if slots[i].active && slots[i].ip == Some(ip) {
          assert View().slots[i] == slots[i];
          assert Duplicate(View(), ip);
          return;
        }
      }
      assert !Duplicate(View(), ip);
      if |ip| >= limit || !ready {
        return;
      }
      if !spawned {
        slots[num] := slots[num].(active := false, ip := None);
        assert slots[..] == old(slots[..])[old(num) := slots[old(num)]];
        return;
      }
      slots[num] := Slot(Created, true, Some(ip));
      assert slots[..] == old(slots[..])[old(num) := slots[old(num)]];
      num := num + 1;
    }

    /** Setting the flag, then the agent's whole life, then clearing it. */
    method StaticStartAgent(i: nat)
      requires Valid() && i < MAX_RICS && slots[i].phase == Created
      modifies slots
      ensures Valid() && Run(old(View()), [ThreadStarts(i), ThreadEnds(i)], View())
    {
      slots[i] := slots[i].(phase := Running, active := true);
      slots[i] := slots[i].(phase := Ended, active := false);
      ghost var t := Apply(old(View()), ThreadStarts(i));
      assert View().slots == Apply(t, ThreadEnds(i)).slots;
      assert [ThreadStarts(i), ThreadEnds(i)][1..] == [ThreadEnds(i)] && [ThreadEnds(i)][1..] == [];
      assert Run(t, [ThreadEnds(i)], View());
    }

    /** Every active agent is told to stop and joined, in order; the wait for a thread is its end. */
    method StopAgentApi() returns (ghost acts: seq<Action>)
      requires Valid() && Inv(View())
      modifies this, slots
      ensures Valid() && num == 0 && Run(old(View()), acts, View())
      ensures forall j :: 0 <= j < 20 ==>
                if old(slots[j]).active then slots[j] == Slot(Ended, false, None) else slots[j] == old(slots[j])
    {
      ghost var t := old(View()).(stop := Testing(0));
      acts := [StopBegins];
      assert acts[1..] == [];
      for i := 0 to num
        invariant num == old(num)
        invariant forall j :: 0 <= j < MAX_RICS ==>
                    slots[j] == if j < i then Stopped(old(slots[j])) else old(slots[j])
        invariant t == Table(slots[..], num, Testing(i)) && Run(old(View()), acts, t) && Inv(t)
      {
        ghost var more := StopOneSlot(t);
        if slots[i].active {
          slots[i] := slots[i].(phase := Ended, active := false);
          slots[i] := slots[i].(active := false, ip := None);
        }
        ghost var t' := Table(slots[..], num, Testing(i + 1));
        assert t'.slots == t.slots[i := Stopped(t.slots[i])];
        RunJoin(old(View()), acts, t, more, t');
        RunKeepsInv(t, more, t');
        acts := acts + more;
        t := t';
      }
      num := 0;
      assert Apply(t, StopFinishes) == View() && [StopFinishes][1..] == [];
      assert Run(t, [StopFinishes], View());
      RunJoin(old(View()), acts, t, [StopFinishes], View());
      acts := acts + [StopFinishes];
    }
  }
}
