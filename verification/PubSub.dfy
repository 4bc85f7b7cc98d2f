/** Publishing of indications to the RIC's listeners: src/ric/near_ric.c and
    src/ric/msg_handler_ric.c.

    The table is a search tree keyed by RAN function id: traversed from its front, the keys ascend.
    A publication searches the entry of the indication's function but then reads the listeners of
    the front entry. */
module PubSub {
  import opened E2apTypes

  datatype Listener = Stdout | Redis | Influx | Other(name: string)

  datatype Entry = Entry(ranFuncId: nat, listeners: seq<Listener>)

  datatype Registration = Registration(ranFuncId: nat, sub: Listener)

  predicate Ascending(t: seq<Entry>) {
    forall i, j :: 0 <= i < j < |t| ==> t[i].ranFuncId < t[j].ranFuncId
  }

  /** find_if from the front; the length stands for the end iterator. */
  function IndexOf(t: seq<Entry>, id: nat): (k: nat)
    ensures k <= |t|
    ensures k < |t| ==> t[k].ranFuncId == id
    ensures forall j :: 0 <= j < k ==> t[j].ranFuncId != id
  {
    if t == [] || t[0].ranFuncId == id then 0 else 1 + IndexOf(t[1..], id)
  }

  predicate Has(t: seq<Entry>, id: nat) {
    IndexOf(t, id) < |t|
  }

  /** The listeners of the matched entry. */
  function Matched(t: seq<Entry>, id: nat): seq<Listener> {
    if Has(t, id) then t[IndexOf(t, id)].listeners else []
  }

  /** The listeners publish_ind_msg calls, in order; `None` is its failed assertion. */
  function Published(t: seq<Entry>, id: nat): Option<seq<Listener>> {
    if Has(t, id) then Some(t[0].listeners) else None
  }

  /** The place of a new key: behind the smaller ones. */
  function Slot(t: seq<Entry>, id: nat): (k: nat)
    ensures k <= |t|
    ensures forall j :: 0 <= j < k ==> t[j].ranFuncId <= id
    ensures k < |t| ==> id < t[k].ranFuncId
  {
    if t == [] || id < t[0].ranFuncId then 0 else 1 + Slot(t[1..], id)
  }

  function Insert(t: seq<Entry>, e: Entry): seq<Entry> {
    var k := Slot(t, e.ranFuncId);
    t[..k] + [e] + t[k..]
  }

  function Register(t: seq<Entry>, r: Registration): seq<Entry> {
    var k := IndexOf(t, r.ranFuncId);
    if k == |t| then Insert(t, Entry(r.ranFuncId, [r.sub]))
    else t[k := Entry(r.ranFuncId, t[k].listeners + [r.sub])]
  }

  function RegisterAll(t: seq<Entry>, rs: seq<Registration>): seq<Entry>
    decreases |rs|
  {
    if rs == [] then t else Register(RegisterAll(t, rs[..|rs| - 1]), rs[|rs| - 1])
  }

  /** The registrations made for one function, in order. */
  function RegisteredFor(rs: seq<Registration>, id: nat): seq<Listener> {
    if rs == [] then []
    else RegisteredFor(rs[..|rs| - 1], id) + (if rs[|rs| - 1].ranFuncId == id then [rs[|rs| - 1].sub] else [])
  }

  const DEFAULT: seq<Listener> := [Stdout, Redis, Influx]

  /** The registrations of load_default_pub_sub_ric for the loaded service models. */
  function DefaultRegistrations(plugins: seq<nat>): seq<Registration> {
    if plugins == [] then []
    else
      var id := plugins[|plugins| - 1];
      DefaultRegistrations(plugins[..|plugins| - 1])
      + [Registration(id, Stdout)] + [Registration(id, Redis)] + [Registration(id, Influx)]
  }

  // ---- The table holds exactly what was registered ----

  lemma IndexOfIs(t: seq<Entry>, id: nat, k: nat)
    requires Ascending(t) && k < |t| && t[k].ranFuncId == id
    ensures IndexOf(t, id) == k
  {
    assert IndexOf(t, id) <= k;
  }

  lemma InsertKeepsAscending(t: seq<Entry>, e: Entry)
    requires Ascending(t) && !Has(t, e.ranFuncId)
    ensures Ascending(Insert(t, e))
  {
    var k, t' := Slot(t, e.ranFuncId), Insert(t, e);
    forall i, j | 0 <= i < j < |t'| ensures t'[i].ranFuncId < t'[j].ranFuncId {
      if j == k { assert t'[i] == t[i]; }
      else if i == k { assert t'[j] == t[j - 1]; }
      else { assert t'[i] == t[if i < k then i else i - 1] && t'[j] == t[if j < k then j else j - 1]; }
    }
  }

  lemma InsertShifts(t: seq<Entry>, e: Entry, j: nat)
    requires j < |t|
    ensures Insert(t, e)[if j < Slot(t, e.ranFuncId) then j else j + 1] == t[j]
    ensures Insert(t, e)[Slot(t, e.ranFuncId)] == e
  {
  }

  lemma InsertAddsNoOther(t: seq<Entry>, e: Entry, id: nat)
    requires !Has(t, id) && id != e.ranFuncId
    ensures !Has(Insert(t, e), id)
  {
    var k, t' := Slot(t, e.ranFuncId), Insert(t, e);
    forall j | 0 <= j < |t'| ensures t'[j].ranFuncId != id {
      if j != k { assert t'[j] == t[if j < k then j else j - 1]; }
    }
  }

  lemma InsertAddsEntry(t: seq<Entry>, e: Entry, id: nat)
    requires Ascending(t) && !Has(t, e.ranFuncId)
    ensures Has(Insert(t, e), id) <==> Has(t, id) || id == e.ranFuncId
    ensures Matched(Insert(t, e), id) == if id == e.ranFuncId then e.listeners else Matched(t, id)
  {
    var k := Slot(t, e.ranFuncId);
    InsertKeepsAscending(t, e);
    if id == e.ranFuncId {
      IndexOfIs(Insert(t, e), id, k);
    } else if Has(t, id) {
      var j := IndexOf(t, id);
      InsertShifts(t, e, j);
      IndexOfIs(Insert(t, e), id, if j < k then j else j + 1);
    } else {
      InsertAddsNoOther(t, e, id);
    }
  }

  lemma UpdateKeepsKeys(t: seq<Entry>, k: nat, ls: seq<Listener>, id: nat)
    requires Ascending(t) && k < |t|
    ensures var t' := t[k := t[k].(listeners := ls)];
            Ascending(t') && IndexOf(t', id) == IndexOf(t, id)
  {
    var t' := t[k := t[k].(listeners := ls)];
    assert forall j :: 0 <= j < |t| ==> t'[j].ranFuncId == t[j].ranFuncId;
    if Has(t, id) { IndexOfIs(t', id, IndexOf(t, id)); }
    if Has(t', id) { IndexOfIs(t, id, IndexOf(t', id)); }
  }

  lemma RegisterKeepsAscending(t: seq<Entry>, r: Registration)
    requires Ascending(t)
    ensures Ascending(Register(t, r))
  {
    if Has(t, r.ranFuncId) {
      var k := IndexOf(t, r.ranFuncId);
      UpdateKeepsKeys(t, k, t[k].listeners + [r.sub], r.ranFuncId);
    } else {
      InsertKeepsAscending(t, Entry(r.ranFuncId, [r.sub]));
    }
  }

  lemma RegisterAppends(t: seq<Entry>, r: Registration, id: nat)
    requires Ascending(t)
    ensures Has(Register(t, r), id) <==> Has(t, id) || id == r.ranFuncId
    ensures Matched(Register(t, r), id) == Matched(t, id) + (if id == r.ranFuncId then [r.sub] else [])
  {
    if Has(t, r.ranFuncId) {
      var k := IndexOf(t, r.ranFuncId);
      UpdateKeepsKeys(t, k, t[k].listeners + [r.sub], id);
    } else {
      InsertAddsEntry(t, Entry(r.ranFuncId, [r.sub]), id);
    }
  }

  lemma RegisterAllSnoc(t: seq<Entry>, rs: seq<Registration>, r: Registration)
    ensures RegisterAll(t, rs + [r]) == Register(RegisterAll(t, rs), r)
  {
    assert (rs + [r])[..|rs|] == rs;
  }

  lemma RegisteredForSnoc(rs: seq<Registration>, r: Registration, id: nat)
    ensures RegisteredFor(rs + [r], id) == RegisteredFor(rs, id) + (if r.ranFuncId == id then [r.sub] else [])
  {
    assert (rs + [r])[..|rs|] == rs;
  }

  /** After any registrations the keys ascend and every function owns exactly the listeners
      registered for it, each once, in the order of registration. */
  lemma {:induction false} TableIsExact(rs: seq<Registration>, id: nat)
    ensures Ascending(RegisterAll([], rs))
    ensures Matched(RegisterAll([], rs), id) == RegisteredFor(rs, id)
    ensures Has(RegisterAll([], rs), id) <==> exists r :: r in rs && r.ranFuncId == id
  {
    if rs != [] {
      var front, last := rs[..|rs| - 1], rs[|rs| - 1];
      assert rs == front + [last];
      TableIsExact(front, id);
      RegisterKeepsAscending(RegisterAll([], front), last);
      RegisterAppends(RegisterAll([], front), last, id);
      assert RegisteredFor(front, id) + [] == RegisteredFor(front, id);
    }
  }

  // ---- The default listeners ----

  predicate Distinct(plugins: seq<nat>) {
    forall i, j :: 0 <= i < j < |plugins| ==> plugins[i] != plugins[j]
  }

  lemma ThreeMore(rs: seq<Registration>, plugin: nat, id: nat)
    ensures RegisteredFor(rs + [Registration(plugin, Stdout)] + [Registration(plugin, Redis)]
                             + [Registration(plugin, Influx)], id)
            == RegisteredFor(rs, id) + (if plugin == id then DEFAULT else [])
  {
    var a, b, c := Registration(plugin, Stdout), Registration(plugin, Redis), Registration(plugin, Influx);
    RegisteredForSnoc(rs, a, id);
    RegisteredForSnoc(rs + [a], b, id);
    RegisteredForSnoc(rs + [a] + [b], c, id);
  }

  /** Every loaded function owns the three default listeners once, in order, and no other function
      has an entry. */
  lemma {:induction false} DefaultsForEveryPlugin(plugins: seq<nat>, id: nat)
    requires Distinct(plugins)
    ensures RegisteredFor(DefaultRegistrations(plugins), id) == if id in plugins then [Stdout, Redis, Influx] else []
    ensures (exists r :: r in DefaultRegistrations(plugins) && r.ranFuncId == id) <==> id in plugins
  {
    if plugins != [] {
      var front, last := plugins[..|plugins| - 1], plugins[|plugins| - 1];
      assert plugins == front + [last];
      DefaultsForEveryPlugin(front, id);
      ThreeMore(DefaultRegistrations(front), last, id);
      assert Registration(last, Stdout) in DefaultRegistrations(plugins);
      if exists r :: r in DefaultRegistrations(front) && r.ranFuncId == id {
        var r :| r in DefaultRegistrations(front) && r.ranFuncId == id;
        assert r in DefaultRegistrations(plugins);
      }
    }
  }

  /** After load_default_pub_sub_ric an indication of any loaded function notifies the listeners of
      its own function, although the front entry is the one that is read. */
  lemma DefaultPublishing(plugins: seq<nat>, id: nat)
    requires Distinct(plugins)
    ensures var t := RegisterAll([], DefaultRegistrations(plugins));
            Published(t, id) == if id in plugins then Some([Stdout, Redis, Influx]) else None
  {
    var rs := DefaultRegistrations(plugins);
    TableIsExact(rs, id);
    DefaultsForEveryPlugin(plugins, id);
    if id in plugins {
      var t := RegisterAll([], rs);
      var front := t[0].ranFuncId;
      TableIsExact(rs, front);
      DefaultsForEveryPlugin(plugins, front);
      IndexOfIs(t, front, 0);
    }
  }

  /** In general: a publication notifies the listeners registered for its function exactly when
      they are the ones registered for the smallest registered function. */
  lemma PublishingIsRightIffFrontAgrees(rs: seq<Registration>, id: nat, least: nat)
    requires exists r :: r in rs && r.ranFuncId == id
    requires (exists r :: r in rs && r.ranFuncId == least) && forall r :: r in rs ==> least <= r.ranFuncId
    ensures Published(RegisterAll([], rs), id) == Some(RegisteredFor(rs, id))
            <==> RegisteredFor(rs, id) == RegisteredFor(rs, least)
  {
    var t := RegisterAll([], rs);
    TableIsExact(rs, id);
    TableIsExact(rs, least);
    TableIsExact(rs, t[0].ranFuncId);
    assert t[0].ranFuncId <= t[IndexOf(t, least)].ranFuncId == least;
    assert IndexOf(t, t[0].ranFuncId) == 0;
    assert Matched(t, least) == t[0].listeners;
  }

  /** The failing family is not empty: one more listener for a function that is not the smallest. */
  lemma ExtraListenerIsNotNotified(a: nat, b: nat)
    requires a < b
    ensures var rs := DefaultRegistrations([a, b]) + [Registration(b, Other("extra"))];
            && RegisteredFor(rs, b) == DEFAULT + [Other("extra")]
            && Published(RegisterAll([], rs), b) != Some(RegisteredFor(rs, b))
  {
    var ds, x := DefaultRegistrations([a, b]), Registration(b, Other("extra"));
    var rs := ds + [x];
    DefaultsForEveryPlugin([a, b], a);
    DefaultsForEveryPlugin([a, b], b);
    RegisteredForSnoc(ds, x, a);
    RegisteredForSnoc(ds, x, b);
    assert x in rs;
    var r :| r in ds && r.ranFuncId == a;
    assert r in rs;
    forall q | q in rs ensures a <= q.ranFuncId {
      if q in ds { DefaultsForEveryPlugin([a, b], q.ranFuncId); }
    }
    PublishingIsRightIffFrontAgrees(rs, b, a);
  }

  lemma DefaultEntry(plugins: seq<nat>, id: nat)
    requires Distinct(plugins)
    ensures var t := RegisterAll([], DefaultRegistrations(plugins));
            && ((exists e :: e in t && e.ranFuncId == id) <==> id in plugins)
            && (id in plugins ==> Has(t, id) && t[IndexOf(t, id)].listeners == [Stdout, Redis, Influx])
  {
    var t := RegisterAll([], DefaultRegistrations(plugins));
    TableIsExact(DefaultRegistrations(plugins), id);
    DefaultsForEveryPlugin(plugins, id);
    HasIsMembership(t, id);
  }

  lemma HasIsMembership(t: seq<Entry>, id: nat)
    ensures Has(t, id) <==> exists e :: e in t && e.ranFuncId == id
  {
    if Has(t, id) {
      assert t[IndexOf(t, id)] in t;
    }
  }

  // ---- The operations as they run ----

  class PubSubTable {
    var table: seq<Entry>

    constructor ()
      ensures table == []
    {
      table := [];
    }

    /** register_listeners_for_ran_func_id */
    method RegisterListener(id: nat, sub: Listener)
      requires Ascending(table)
      modifies this
      ensures Ascending(table) && table == Register(old(table), Registration(id, sub))
    {
      RegisterKeepsAscending(table, Registration(id, sub));
      var k := 0;
      while k < |table| && table[k].ranFuncId != id
        invariant k <= |table| && forall j :: 0 <= j < k ==> table[j].ranFuncId != id
      {
        k := k + 1;
      }
      if k == |table| {
        table := Insert(table, Entry(id, [sub]));
      } else {
        IndexOfIs(table, id, k);
        table := table[k := Entry(id, table[k].listeners + [sub])];
      }
    }

    /** load_default_pub_sub_ric */
    method LoadDefault(plugins: seq<nat>)
      requires table == []
      modifies this
      ensures Ascending(table) && table == RegisterAll([], DefaultRegistrations(plugins))
      ensures Distinct(plugins) ==> forall id ::
                (exists e :: e in table && e.ranFuncId == id) <==> id in plugins
      ensures Distinct(plugins) ==> forall e :: e in table ==> e.listeners == [Stdout, Redis, Influx]
    {
      for i := 0 to |plugins|
        invariant Ascending(table) && table == RegisterAll([], DefaultRegistrations(plugins[..i]))
      {
        ghost var rs := DefaultRegistrations(plugins[..i]);
        var id := plugins[i];
        RegisterListener(id, Stdout);
        RegisterListener(id, Redis);
        RegisterListener(id, Influx);
        assert plugins[..i + 1][..i] == plugins[..i];
        RegisterAllSnoc([], rs, Registration(id, Stdout));
        RegisterAllSnoc([], rs + [Registration(id, Stdout)], Registration(id, Redis));
        RegisterAllSnoc([], rs + [Registration(id, Stdout)] + [Registration(id, Redis)], Registration(id, Influx));
      }
      assert plugins[..|plugins|] == plugins;
      if Distinct(plugins) {
        forall id ensures (exists e :: e in table && e.ranFuncId == id) <==> id in plugins {
          DefaultEntry(plugins, id);
        }
        forall e | e in table ensures e.listeners == [Stdout, Redis, Influx] {
          var k :| 0 <= k < |table| && table[k] == e;
          DefaultEntry(plugins, e.ranFuncId);
          IndexOfIs(table, e.ranFuncId, k);
        }
      }
    }

    /** publish_ind_msg: the listeners called, in order. */
    method Publish(id: nat) returns (r: Option<seq<Listener>>)
      ensures r == Published(table, id)
      ensures r.Some? <==> exists e :: e in table && e.ranFuncId == id
      ensures r.Some? ==> table != [] && r.value == table[0].listeners
    {
      var k := 0;
      while k < |table| && table[k].ranFuncId != id
        invariant k <= |table| && forall j :: 0 <= j < k ==> table[j].ranFuncId != id
      {
        k := k + 1;
      }
      HasIsMembership(table, id);
      if k == |table| {
        assert !Has(table, id);
        return None;
      }
      assert Has(table, id);
      var arr, called := table[0].listeners, [];
      for i := 0 to |arr|
        invariant called == arr[..i]
      {
        called := called + [arr[i]];
      }
      assert arr[..|arr|] == arr;
      r := Some(called);
    }
  }
}
