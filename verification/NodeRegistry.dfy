/** The near-RT RIC's two records of its E2 nodes: the list conn_e2_nodes and the node-to-address
    map (src/ric/near_ric.c, msg_handler_ric.c, not_handler_ric.c, map_e2_node_sockaddr.c).

    A pool worker that handles a setup request registers the address first and appends the node
    later, so other steps come between. Both trees of the map hold the same (node, address) pairs
    and accept equal keys; which of several equal keys a search meets is a parameter. */
module NodeRegistry {
  import opened E2apTypes
  import opened SetupHandshake

  datatype Addr = Addr(port: nat)

  datatype Entry = Entry(id: NodeId, addr: Addr)

  datatype Registry = Registry(
    entries: seq<Entry>,       // the map
    inProgress: seq<Entry>,    // setup requests between the two registrations
    conn: seq<E2Node>)

  datatype Action =
    | SetupRegisters(id: NodeId, addr: Addr)
    | SetupAppends(i: nat, accepted: seq<nat>)
    | Shutdown(i: nat, j: nat)

  function RemoveAt<T>(s: seq<T>, i: nat): seq<T>
    requires i < |s|
  {
    s[..i] + s[i + 1..]
  }

  function Ids(es: seq<Entry>): seq<NodeId> {
    seq(|es|, i requires 0 <= i < |es| => es[i].id)
  }

  function NodeIds(ns: seq<E2Node>): seq<NodeId> {
    seq(|ns|, i requires 0 <= i < |ns| => ns[i].id)
  }

  /** find_if over the node list; its length stands for the end iterator. */
  function IndexOf(ns: seq<E2Node>, id: NodeId): (k: nat)
    ensures k <= |ns|
    ensures k < |ns| ==> ns[k].id == id
    ensures forall j :: 0 <= j < k ==> ns[j].id != id
  {
    if ns == [] || ns[0].id == id then 0 else 1 + IndexOf(ns[1..], id)
  }

  /** A shutdown names the pair the address search meets (i) and the pair the node search meets
      (j). It asserts that both have the same address and that the node is listed. */
  predicate Enabled(s: Registry, a: Action) {
    match a
    case SetupRegisters(_, _) => true
    case SetupAppends(i, _) => i < |s.inProgress|
    case Shutdown(i, j) =>
      && i < |s.entries| && j < |s.entries|
      && s.entries[i] == s.entries[j]
      && IndexOf(s.conn, s.entries[i].id) < |s.conn|
  }

  function Apply(s: Registry, a: Action): Registry
    requires Enabled(s, a)
  {
    match a
    case SetupRegisters(id, addr) =>
      s.(entries := s.entries + [Entry(id, addr)], inProgress := s.inProgress + [Entry(id, addr)])
    case SetupAppends(i, accepted) =>
      s.(inProgress := RemoveAt(s.inProgress, i), conn := s.conn + [E2Node(s.inProgress[i].id, accepted)])
    case Shutdown(i, _) =>
      s.(entries := RemoveAt(s.entries, i), conn := RemoveAt(s.conn, IndexOf(s.conn, s.entries[i].id)))
  }

  ghost predicate Run(s: Registry, acts: seq<Action>, s': Registry)
    decreases |acts|
  {
    if acts == [] then s == s' else Enabled(s, acts[0]) && Run(Apply(s, acts[0]), acts[1..], s')
  }

  const Initial := Registry([], [], [])

  // ---- Conservation ----

  /** As multisets: registered nodes are the listed ones and the ones in progress. */
  ghost predicate Conserved(s: Registry) {
    multiset(Ids(s.entries)) == multiset(NodeIds(s.conn)) + multiset(Ids(s.inProgress))
  }

  lemma RemoveAtMultiset<T>(s: seq<T>, i: nat)
    requires i < |s|
    ensures multiset(s) == multiset(RemoveAt(s, i)) + multiset{s[i]}
  {
    assert s == s[..i] + ([s[i]] + s[i + 1..]);
  }

  lemma RemovalFromEntries(es: seq<Entry>, i: nat)
    requires i < |es|
    ensures Ids(RemoveAt(es, i)) == RemoveAt(Ids(es), i)
    ensures multiset(Ids(es)) == multiset(Ids(RemoveAt(es, i))) + multiset{es[i].id}
  {
    RemoveAtMultiset(Ids(es), i);
  }

  lemma RemovalFromNodes(ns: seq<E2Node>, i: nat)
    requires i < |ns|
    ensures NodeIds(RemoveAt(ns, i)) == RemoveAt(NodeIds(ns), i)
    ensures multiset(NodeIds(ns)) == multiset(NodeIds(RemoveAt(ns, i))) + multiset{ns[i].id}
  {
    RemoveAtMultiset(NodeIds(ns), i);
  }

  lemma CancelCommon<T>(a: multiset<T>, b: multiset<T>, c: multiset<T>, x: T)
    requires a + multiset{x} == (b + multiset{x}) + c
    ensures a == b + c
  {
    forall y ensures a[y] == (b + c)[y] {
      assert (a + multiset{x})[y] == ((b + multiset{x}) + c)[y];
    }
  }

  lemma ShutdownConserves(s: Registry, i: nat, j: nat)
    requires Conserved(s) && Enabled(s, Shutdown(i, j))
    ensures Conserved(Apply(s, Shutdown(i, j)))
  {
    var s', id := Apply(s, Shutdown(i, j)), s.entries[i].id;
    RemovalFromEntries(s.entries, i);
    RemovalFromNodes(s.conn, IndexOf(s.conn, id));
    CancelCommon(multiset(Ids(s'.entries)), multiset(NodeIds(s'.conn)), multiset(Ids(s.inProgress)), id);
  }

  lemma RegisteringConserves(s: Registry, id: NodeId, addr: Addr)
    requires Conserved(s)
    ensures Conserved(Apply(s, SetupRegisters(id, addr)))
  {
    var s' := Apply(s, SetupRegisters(id, addr));
    assert Ids(s'.entries) == Ids(s.entries) + [id];
    assert Ids(s'.inProgress) == Ids(s.inProgress) + [id];
  }

  lemma AppendingConserves(s: Registry, i: nat, accepted: seq<nat>)
    requires Conserved(s) && i < |s.inProgress|
    ensures Conserved(Apply(s, SetupAppends(i, accepted)))
  {
    var s' := Apply(s, SetupAppends(i, accepted));
    RemovalFromEntries(s.inProgress, i);
    assert NodeIds(s'.conn) == NodeIds(s.conn) + [s.inProgress[i].id];
  }

  lemma StepConserves(s: Registry, a: Action)
    requires Conserved(s) && Enabled(s, a)
    ensures Conserved(Apply(s, a))
  {
    match a
    case SetupRegisters(id, addr) => RegisteringConserves(s, id, addr);
    case SetupAppends(i, accepted) => AppendingConserves(s, i, accepted);
    case Shutdown(i, j) => ShutdownConserves(s, i, j);
  }

  /** Over every run, repeated and overlapping setups included. */
  lemma {:induction false} NodesAreConserved(s: Registry, acts: seq<Action>, s': Registry)
    requires Conserved(s) && Run(s, acts, s')
    ensures Conserved(s')
    decreases |acts|
  {
    if acts != [] {
      StepConserves(s, acts[0]);
      NodesAreConserved(Apply(s, acts[0]), acts[1..], s');
    }
  }

  lemma SearchFindsListed(ns: seq<E2Node>, id: NodeId)
    ensures IndexOf(ns, id) < |ns| <==> id in NodeIds(ns)
  {
    if id in NodeIds(ns) {
      var k :| 0 <= k < |ns| && NodeIds(ns)[k] == id;
      assert ns[k].id == id;
    }
    if IndexOf(ns, id) < |ns| {
      assert NodeIds(ns)[IndexOf(ns, id)] == id;
    }
  }

  lemma SplitMembership<T>(whole: seq<T>, a: seq<T>, b: seq<T>, x: T)
    requires multiset(whole) == multiset(a) + multiset(b)
    ensures x in whole <==> x in a || x in b
  {
    assert x in multiset(whole) <==> x in whole;
    assert x in multiset(a) <==> x in a;
    assert x in multiset(b) <==> x in b;
  }

  /** "E2 Node not found!": once the node's handlers have finished, the search of the node list
      always succeeds. The node is then still listed exactly when it had been registered twice. */
  lemma StaleExactlyAfterRepeatedSetup(acts: seq<Action>, s: Registry, i: nat, j: nat)
    requires Run(Initial, acts, s) && i < |s.entries| && j < |s.entries| && s.entries[i] == s.entries[j]
    requires s.entries[i].id !in Ids(s.inProgress)
    ensures Enabled(s, Shutdown(i, j))
    ensures var id, s' := s.entries[i].id, Apply(s, Shutdown(i, j));
            (id in NodeIds(s'.conn) <==> multiset(Ids(s.entries))[id] > 1)
            && (id in NodeIds(s'.conn) <==> id in Ids(s'.entries))
  {
    NodesAreConserved(Initial, acts, s);
    var id := s.entries[i].id;
    assert Ids(s.entries)[i] == id;
    SplitMembership(Ids(s.entries), NodeIds(s.conn), Ids(s.inProgress), id);
    SearchFindsListed(s.conn, id);
    var s' := Apply(s, Shutdown(i, j));
    StepConserves(s, Shutdown(i, j));
    RemovalFromEntries(s.entries, i);
    SplitMembership(Ids(s'.entries), NodeIds(s'.conn), Ids(s'.inProgress), id);
    assert id in multiset(Ids(s'.entries)) <==> id in Ids(s'.entries);
  }

  // ---- One setup request per association ----

  /** Every setup request of the run comes from a node and an address that are not registered. */
  ghost predicate OneSetupEach(s: Registry, acts: seq<Action>)
    decreases |acts|
  {
    acts != [] && Enabled(s, acts[0]) ==>
      && (acts[0].SetupRegisters? ==>
            forall e :: e in s.entries ==> e.id != acts[0].id && e.addr != acts[0].addr)
      && OneSetupEach(Apply(s, acts[0]), acts[1..])
  }

  /** No node and no address is registered twice: the two trees are inverse functions. */
  ghost predicate OneToOne(es: seq<Entry>) {
    forall i, j :: 0 <= i < j < |es| ==> es[i].id != es[j].id && es[i].addr != es[j].addr
  }

  predicate NoDuplicates<T(==)>(s: seq<T>) {
    forall i, j :: 0 <= i < j < |s| ==> s[i] != s[j]
  }

  lemma RemovalKeepsOneToOne(es: seq<Entry>, i: nat)
    requires i < |es| && OneToOne(es)
    ensures OneToOne(RemoveAt(es, i))
  {
    var es' := RemoveAt(es, i);
    forall a, b | 0 <= a < b < |es'| ensures es'[a].id != es'[b].id && es'[a].addr != es'[b].addr {
      assert es'[a] == es[if a < i then a else a + 1] && es'[b] == es[if b < i then b else b + 1];
    }
  }

  lemma AppendKeepsOneToOne(es: seq<Entry>, e: Entry)
    requires OneToOne(es) && forall f :: f in es ==> f.id != e.id && f.addr != e.addr
    ensures OneToOne(es + [e])
  {
  }

  lemma OneToOneAppend(es: seq<Entry>, e: Entry)
    ensures OneToOne(es + [e]) <==> OneToOne(es) && forall f :: f in es ==> f.id != e.id && f.addr != e.addr
  {
    var es' := es + [e];
    if OneToOne(es') {
      forall f | f in es ensures f.id != e.id && f.addr != e.addr {
        var i :| 0 <= i < |es| && es[i] == f;
        assert es'[i] == f && es'[|es|] == e;
      }
      forall i, j | 0 <= i < j < |es| ensures es[i].id != es[j].id && es[i].addr != es[j].addr {
        assert es'[i] == es[i] && es'[j] == es[j];
      }
    }
    if OneToOne(es) && forall f :: f in es ==> f.id != e.id && f.addr != e.addr {
      AppendKeepsOneToOne(es, e);
    }
  }

  lemma StepKeepsOneToOne(s: Registry, a: Action)
    requires OneToOne(s.entries) && Enabled(s, a)
    requires a.SetupRegisters? ==> forall e :: e in s.entries ==> e.id != a.id && e.addr != a.addr
    ensures OneToOne(Apply(s, a).entries)
  {
    match a
    case SetupRegisters(id, addr) => AppendKeepsOneToOne(s.entries, Entry(id, addr));
    case SetupAppends(_, _) =>
    case Shutdown(i, _) => RemovalKeepsOneToOne(s.entries, i);
  }

  lemma {:induction false} RunKeepsOneToOne(s: Registry, acts: seq<Action>, s': Registry)
    requires OneToOne(s.entries) && Run(s, acts, s') && OneSetupEach(s, acts)
    ensures OneToOne(s'.entries)
    decreases |acts|
  {
    if acts != [] {
      StepKeepsOneToOne(s, acts[0]);
      RunKeepsOneToOne(Apply(s, acts[0]), acts[1..], s');
    }
  }

  lemma {:induction false} SimpleMultisetHasNoDuplicates<T>(s: seq<T>)
    ensures NoDuplicates(s) <==> forall x :: multiset(s)[x] <= 1
  {
    if s != [] {
      var front, last := s[..|s| - 1], s[|s| - 1];
      assert s == front + [last];
      SimpleMultisetHasNoDuplicates(front);
      assert multiset(s) == multiset(front) + multiset{last};
      assert last in multiset(front) <==> last in front;
      if NoDuplicates(s) {
        assert last !in front;
        forall x ensures multiset(s)[x] <= 1 {
          assert x == last ==> x !in front;
        }
      } else if NoDuplicates(front) {
        var k :| 0 <= k < |front| && front[k] == last;
        assert multiset(s)[last] > 1;
      } else {
        var x :| multiset(front)[x] > 1;
        assert multiset(s)[x] > 1;
      }
    }
  }

  /** With one setup request per association the list of connected nodes is duplicate-free in every
      reachable state, and with the nodes whose setup is in progress, all of them different, it
      makes up the domain of the map. */
  lemma RegistriesAgree(acts: seq<Action>, s: Registry)
    requires Run(Initial, acts, s) && OneSetupEach(Initial, acts)
    ensures OneToOne(s.entries)
    ensures NoDuplicates(NodeIds(s.conn)) && NoDuplicates(Ids(s.inProgress))
    ensures forall id :: id in Ids(s.entries) <==> id in NodeIds(s.conn) || id in Ids(s.inProgress)
    ensures forall id :: !(id in NodeIds(s.conn) && id in Ids(s.inProgress))
  {
    NodesAreConserved(Initial, acts, s);
    RunKeepsOneToOne(Initial, acts, s);
    forall id
      ensures id in Ids(s.entries) <==> id in NodeIds(s.conn) || id in Ids(s.inProgress)
      ensures !(id in NodeIds(s.conn) && id in Ids(s.inProgress))
    {
      SplitMembership(Ids(s.entries), NodeIds(s.conn), Ids(s.inProgress), id);
      SplitWithoutDuplicates(Ids(s.entries), NodeIds(s.conn), Ids(s.inProgress), id);
    }
    SplitHasNoDuplicates(Ids(s.entries), NodeIds(s.conn), Ids(s.inProgress));
  }

  lemma SplitHasNoDuplicates<T>(whole: seq<T>, a: seq<T>, b: seq<T>)
    requires multiset(whole) == multiset(a) + multiset(b) && NoDuplicates(whole)
    ensures NoDuplicates(a) && NoDuplicates(b)
  {
    SimpleMultisetHasNoDuplicates(whole);
    SimpleMultisetHasNoDuplicates(a);
    SimpleMultisetHasNoDuplicates(b);
    forall x ensures multiset(a)[x] <= 1 && multiset(b)[x] <= 1 {
      assert multiset(whole)[x] <= 1;
    }
  }

  lemma SplitWithoutDuplicates<T>(whole: seq<T>, a: seq<T>, b: seq<T>, x: T)
    requires multiset(whole) == multiset(a) + multiset(b) && NoDuplicates(whole)
    ensures !(x in a && x in b)
  {
    SimpleMultisetHasNoDuplicates(whole);
    assert multiset(whole)[x] <= 1;
    assert x in multiset(a) <==> x in a;
    assert x in multiset(b) <==> x in b;
  }

  /** Shutting an address down after its handler has finished has one outcome and no failure: the
      two searches meet the same pair, that pair and that node disappear from the two records, and
      the other nodes stay in order. */
  lemma ShutdownIsExact(acts: seq<Action>, s: Registry, i: nat, j: nat)
    requires Run(Initial, acts, s) && OneSetupEach(Initial, acts)
    requires i < |s.entries| && j < |s.entries| && s.entries[i].id == s.entries[j].id
    requires s.entries[i].id !in Ids(s.inProgress)
    ensures i == j && Enabled(s, Shutdown(i, j))
    ensures var e, s' := s.entries[i], Apply(s, Shutdown(i, j));
            && (forall f :: f in s'.entries <==> f in s.entries && f.addr != e.addr)
            && (exists k :: 0 <= k < |s.conn| && s.conn[k].id == e.id && s'.conn == s.conn[..k] + s.conn[k + 1..])
            && e.id !in NodeIds(s'.conn)
  {
    RegistriesAgree(acts, s);
    StaleExactlyAfterRepeatedSetup(acts, s, i, j);
    var e, s' := s.entries[i], Apply(s, Shutdown(i, j));
    SimpleMultisetHasNoDuplicates(Ids(s.entries));
    forall f ensures f in s'.entries <==> f in s.entries && f.addr != e.addr {
      RemovedAt(s.entries, i, f);
    }
    var k := IndexOf(s.conn, e.id);
    assert s.conn[k].id == e.id && s'.conn == s.conn[..k] + s.conn[k + 1..];
  }

  lemma RemovedAt(es: seq<Entry>, i: nat, f: Entry)
    requires i < |es| && OneToOne(es)
    ensures f in RemoveAt(es, i) <==> f in es && f.addr != es[i].addr
  {
    if f in es && f.addr != es[i].addr {
      var k :| 0 <= k < |es| && es[k] == f;
      assert RemoveAt(es, i)[if k < i then k else k - 1] == f;
    }
    if f in RemoveAt(es, i) {
      var k :| 0 <= k < |es| - 1 && RemoveAt(es, i)[k] == f;
      assert es[if k < i then k else k + 1] == f;
    }
  }

  /** Appending keeps the list duplicate-free exactly when the node is not listed already. */
  lemma AppendKeepsDuplicateFree(s: Registry, i: nat, accepted: seq<nat>)
    requires i < |s.inProgress| && NoDuplicates(NodeIds(s.conn))
    ensures NoDuplicates(NodeIds(Apply(s, SetupAppends(i, accepted)).conn))
            <==> s.inProgress[i].id !in NodeIds(s.conn)
  {
    var id := s.inProgress[i].id;
    assert NodeIds(Apply(s, SetupAppends(i, accepted)).conn) == NodeIds(s.conn) + [id];
    if id in NodeIds(s.conn) {
      var k :| 0 <= k < |s.conn| && NodeIds(s.conn)[k] == id;
      assert (NodeIds(s.conn) + [id])[k] == (NodeIds(s.conn) + [id])[|s.conn|];
    }
  }

  lemma Prepend(s: Registry, a: Action, n: Registry, acts: seq<Action>, s': Registry)
    requires Enabled(s, a) && Apply(s, a) == n && Run(n, acts, s')
    ensures Run(s, [a] + acts, s')
  {
    assert ([a] + acts)[1..] == acts;
  }

  /** The failing family is not empty: a node whose setup request is sent again after a timeout is
      still listed after its association has gone. */
  lemma RetriedSetupLeavesStaleNode(id: NodeId, addr: Addr, acc: seq<nat>) returns (acts: seq<Action>, s: Registry)
    ensures Run(Initial, acts, s) && s == Registry([Entry(id, addr)], [], [E2Node(id, acc)])
    ensures acts[|acts| - 1] == Shutdown(0, 1)
  {
    var e, n := Entry(id, addr), E2Node(id, acc);
    var a, b, c := SetupRegisters(id, addr), SetupAppends(0, acc), Shutdown(0, 1);
    s := Registry([e], [], [n]);
    Prepend(Registry([e, e], [], [n, n]), c, s, [], s);
    Prepend(Registry([e, e], [e], [n]), b, Registry([e, e], [], [n, n]), [c] + [], s);
    Prepend(Registry([e], [], [n]), a, Registry([e, e], [e], [n]), [b] + ([c] + []), s);
    Prepend(Registry([e], [e], []), b, Registry([e], [], [n]), [a] + ([b] + ([c] + [])), s);
    Prepend(Initial, a, Registry([e], [e], []), [b] + ([a] + ([b] + ([c] + []))), s);
    acts := [a] + ([b] + ([a] + ([b] + ([c] + []))));
  }

  // ---- The order of the list ----

  /** The node a step appends, read before the step is made. */
  function AppendedBy(s: Registry, a: Action): seq<E2Node>
    requires Enabled(s, a)
  {
    if a.SetupAppends? then [E2Node(s.inProgress[a.i].id, a.accepted)] else []
  }

  /** The nodes appended in a run, in order. */
  ghost function Appended(s: Registry, acts: seq<Action>): seq<E2Node>
    decreases |acts|
  {
    if acts == [] || !Enabled(s, acts[0]) then []
    else AppendedBy(s, acts[0]) + Appended(Apply(s, acts[0]), acts[1..])
  }

  /** a is b without some of its elements. */
  predicate Subsequence(a: seq<E2Node>, b: seq<E2Node>)
    decreases |b|
  {
    || a == []
    || (b != [] && ((a[|a| - 1] == b[|b| - 1] && Subsequence(a[..|a| - 1], b[..|b| - 1]))
                    || Subsequence(a, b[..|b| - 1])))
  }

  lemma {:induction false} SubsequenceOfItself(a: seq<E2Node>)
    ensures Subsequence(a, a)
  {
    if a != [] {
      SubsequenceOfItself(a[..|a| - 1]);
    }
  }

  lemma {:induction false} RemovalIsSubsequence(a: seq<E2Node>, b: seq<E2Node>, i: nat)
    requires Subsequence(a, b) && i < |a|
    ensures Subsequence(RemoveAt(a, i), b)
    decreases |b|
  {
    var front := b[..|b| - 1];
    if Subsequence(a, front) {
      RemovalIsSubsequence(a, front, i);
    } else if i == |a| - 1 {
      assert RemoveAt(a, i) == a[..|a| - 1];
    } else {
      RemovalIsSubsequence(a[..|a| - 1], front, i);
      var r := RemoveAt(a, i);
      assert r[..|r| - 1] == RemoveAt(a[..|a| - 1], i) && r[|r| - 1] == a[|a| - 1];
    }
  }

  lemma AppendToBoth(a: seq<E2Node>, b: seq<E2Node>, n: E2Node)
    requires Subsequence(a, b)
    ensures Subsequence(a + [n], b + [n])
  {
    assert (a + [n])[..|a|] == a && (b + [n])[..|b|] == b;
  }

  lemma StepKeepsOrder(s: Registry, a: Action, before: seq<E2Node>)
    requires Enabled(s, a) && Subsequence(s.conn, before)
    ensures Subsequence(Apply(s, a).conn, before + AppendedBy(s, a))
  {
    match a
    case SetupRegisters(_, _) => assert before + [] == before;
    case SetupAppends(i, acc) => AppendToBoth(s.conn, before, E2Node(s.inProgress[i].id, acc));
    case Shutdown(i, _) =>
      RemovalIsSubsequence(s.conn, before, IndexOf(s.conn, s.entries[i].id));
      assert before + [] == before;
  }

  lemma Regroup<T>(a: seq<T>, b: seq<T>, c: seq<T>)
    ensures a + (b + c) == (a + b) + c
  {
  }

  lemma {:induction false} OrderFrom(s: Registry, acts: seq<Action>, s': Registry,
                                     before: seq<E2Node>, all: seq<E2Node>)
    requires Run(s, acts, s') && Subsequence(s.conn, before)
    requires all == before + Appended(s, acts)
    ensures Subsequence(s'.conn, all)
    decreases |acts|
  {
    if acts == [] {
      assert all == before;
    } else {
      var n, added := Apply(s, acts[0]), AppendedBy(s, acts[0]);
      StepKeepsOrder(s, acts[0], before);
      Regroup(before, added, Appended(n, acts[1..]));
      OrderFrom(n, acts[1..], s', before + added, all);
    }
  }

  lemma {:induction false} WithoutShutdown(s: Registry, acts: seq<Action>, s': Registry)
    requires Run(s, acts, s') && forall a :: a in acts ==> !a.Shutdown?
    ensures s'.conn == s.conn + Appended(s, acts)
    decreases |acts|
  {
    if acts != [] {
      assert acts[0] in acts;
      WithoutShutdown(Apply(s, acts[0]), acts[1..], s');
    }
  }

  /** Over every run, the list holds appended nodes in the order in which their handlers finished, each
      with the functions accepted for it; without a shutdown, all of them. */
  lemma ListKeepsOrder(acts: seq<Action>, s: Registry)
    requires Run(Initial, acts, s)
    ensures Subsequence(s.conn, Appended(Initial, acts))
    ensures (forall a :: a in acts ==> !a.Shutdown?) ==> s.conn == Appended(Initial, acts)
  {
    assert [] + Appended(Initial, acts) == Appended(Initial, acts);
    OrderFrom(Initial, acts, s, [], Appended(Initial, acts));
    if forall a :: a in acts ==> !a.Shutdown? {
      WithoutShutdown(Initial, acts, s);
    }
  }

  /** A shutdown of this pair can fail: its node is not listed or has another address as well. */
  predicate Unsafe(s: Registry, e: Entry) {
    IndexOf(s.conn, e.id) == |s.conn| || exists f :: f in s.entries && f.id == e.id && f.addr != e.addr
  }

  // ---- The operations as they run ----

  class NodeTable {
    var entries: seq<Entry>
    var conn: seq<E2Node>

    /** The record as a state of the machine above. */
    ghost function View(inProgress: seq<Entry>): Registry
      reads this
    {
      Registry(entries, inProgress, conn)
    }

    constructor ()
      ensures View([]) == Initial
    {
      entries, conn := [], [];
    }

    /** add_map_e2_node_sad, the first half of a setup: the machine's step, after which the map is
        one-to-one exactly when neither node nor address was registered. */
    method AddSockAddr(id: NodeId, addr: Addr, ghost inProgress: seq<Entry>)
      modifies this`entries
      ensures View(inProgress + [Entry(id, addr)]) == Apply(old(View(inProgress)), SetupRegisters(id, addr))
      ensures multiset(entries) == multiset(old(entries)) + multiset{Entry(id, addr)} && conn == old(conn)
      ensures old(Conserved(View(inProgress))) ==> Conserved(View(inProgress + [Entry(id, addr)]))
      ensures OneToOne(entries)
              <==> OneToOne(old(entries)) && forall e :: e in old(entries) ==> e.id != id && e.addr != addr
    {
      ghost var before := View(inProgress);
      OneToOneAppend(entries, Entry(id, addr));
      if Conserved(before) {
        RegisteringConserves(before, id, addr);
      }
      entries := entries + [Entry(id, addr)];
    }

    /** The end of the setup handler, the second half of setup i: the machine's step, after which the
        list is duplicate-free exactly when it was and did not hold the node. */
    method PushBack(n: E2Node, ghost inProgress: seq<Entry>, ghost i: nat)
      requires i < |inProgress| && inProgress[i].id == n.id
      modifies this`conn
      ensures View(RemoveAt(inProgress, i)) == Apply(old(View(inProgress)), SetupAppends(i, n.accepted))
      ensures conn == old(conn) + [n] && entries == old(entries)
      ensures old(Conserved(View(inProgress))) ==> Conserved(View(RemoveAt(inProgress, i)))
      ensures NoDuplicates(old(NodeIds(conn))) ==> (NoDuplicates(NodeIds(conn)) <==> n.id !in old(NodeIds(conn)))
    {
      ghost var before := View(inProgress);
      if Conserved(before) {
        AppendingConserves(before, i, n.accepted);
      }
      if NoDuplicates(NodeIds(conn)) {
        AppendKeepsDuplicateFree(before, i, n.accepted);
      }
      conn := conn + [n];
    }

    /** find_map_e2_node_sad; `None` is the failed assertion. */
    method FindSockAddr(id: NodeId) returns (r: Option<Addr>)
      ensures r.Some? <==> id in Ids(entries)
      ensures r.Some? ==> Entry(id, r.value) in entries
      ensures r.Some? && OneToOne(entries) ==> forall e :: e in entries && e.id == id ==> e.addr == r.value
    {
      for i := 0 to |entries|
        invariant forall j :: 0 <= j < i ==> entries[j].id != id
      {
        if entries[i].id == id {
          assert Ids(entries)[i] == id;
          return Some(entries[i].addr);
        }
      }
      r := None;
    }

    method FindNode(id: NodeId) returns (k: nat)
      ensures k == IndexOf(conn, id)
    {
      k := 0;
      while k < |conn| && conn[k].id != id
        invariant k <= |conn| && forall j :: 0 <= j < k ==> conn[j].id != id
      {
        k := k + 1;
      }
    }

    /** notification_handle_ric: the shutdown it performs, or `None` when an assertion fails: the
        address is unknown, the two searches disagree, or the node is not listed. */
    method NotificationHandle(addr: Addr, ghost inProgress: seq<Entry>) returns (r: Option<Action>)
      modifies this
      ensures r.Some? ==> r.value.Shutdown? && Enabled(old(View(inProgress)), r.value)
      ensures r.Some? ==> old(entries)[r.value.i].addr == addr
      ensures r.Some? ==> View(inProgress) == Apply(old(View(inProgress)), r.value)
      ensures r.None? ==> (forall f :: f in old(entries) ==> f.addr != addr)
                          || (exists e :: e in old(entries) && e.addr == addr && Unsafe(old(View(inProgress)), e))
      ensures (forall e :: e in old(entries) && e.addr == addr ==> !Unsafe(old(View(inProgress)), e)) ==>
                (r.Some? <==> exists e :: e in old(entries) && e.addr == addr)
      ensures old(OneToOne(entries)) ==>
                (r.Some? <==> exists e :: e in old(entries) && e.addr == addr && e.id in old(NodeIds(conn)))
    {
      var i := 0;
      while i < |entries| && entries[i].addr != addr
        invariant i <= |entries| && forall j :: 0 <= j < i ==> entries[j].addr != addr
      {
        i := i + 1;
      }
      if i == |entries| {
        return None;
      }
      var j := 0;
      while entries[j].id != entries[i].id
        invariant j <= i
        decreases i - j
      {
        j := j + 1;
      }
      var k := FindNode(entries[i].id);
      SearchFindsListed(conn, entries[i].id);
      if entries[j].addr != addr || k == |conn| {
        assert Unsafe(View(inProgress), entries[i]);
        return None;
      }
      r := Some(Shutdown(i, j));
      entries := entries[..i] + entries[i + 1..];
      conn := conn[..k] + conn[k + 1..];
    }
  }
}
