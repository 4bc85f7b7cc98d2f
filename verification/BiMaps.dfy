/** The bidirectional map of src/util/alg_ds/ds/assoc_container/bimap.c.

    The source keeps two search trees, descriptor to key and key to descriptor. Descriptors are
    distinct while they are registered, so the first tree is a map; the second is its inverse and,
    because the trees accept equal keys, it may hold several descriptors for one key. The model is
    the map; the inverse is the set `FdsOf`. Extraction by key removes one of these descriptors,
    whichever the tree search meets first, and is an assertion failure when there is none. */
module BiMaps {
  import opened E2apTypes

  function FdsOf<K(==)>(m: map<Fd, K>, k: K): set<Fd> {
    set fd | fd in m && m[fd] == k
  }

  function Count<K(==)>(m: map<Fd, K>, k: K): nat {
    |FdsOf(m, k)|
  }

  lemma CountInsert<K>(m: map<Fd, K>, fd: Fd, v: K, k: K)
    requires fd !in m
    ensures Count(m[fd := v], k) == Count(m, k) + (if v == k then 1 else 0)
  {
    if v == k {
      assert FdsOf(m[fd := v], k) == FdsOf(m, k) + {fd};
    } else {
      assert FdsOf(m[fd := v], k) == FdsOf(m, k);
    }
  }

  lemma CountExtract<K>(m: map<Fd, K>, fd: Fd, k: K)
    requires fd in m
    ensures Count(m, k) == Count(m - {fd}, k) + (if m[fd] == k then 1 else 0)
  {
    if m[fd] == k {
      assert FdsOf(m, k) == FdsOf(m - {fd}, k) + {fd};
    } else {
      assert FdsOf(m, k) == FdsOf(m - {fd}, k);
    }
  }

  lemma CountPositive<K>(m: map<Fd, K>, k: K)
    ensures Count(m, k) > 0 <==> exists fd :: fd in m && m[fd] == k
  {
    if Count(m, k) > 0 {
      assert FdsOf(m, k) != {};
      var fd :| fd in FdsOf(m, k);
    } else if exists fd :: fd in m && m[fd] == k {
      var fd :| fd in m && m[fd] == k;
      assert fd in FdsOf(m, k);
    }
  }

  /** With at most one descriptor per key the extraction has no choice left. */
  lemma CountOneIsUnique<K>(m: map<Fd, K>, fd: Fd, fd': Fd)
    requires fd in m && fd' in m && m[fd] == m[fd'] && Count(m, m[fd]) <= 1
    ensures fd == fd'
  {
    if fd != fd' {
      assert {fd, fd'} <= FdsOf(m, m[fd]);
      SubsetSize({fd, fd'}, FdsOf(m, m[fd]));
    }
  }

  lemma {:induction false} SubsetSize<T>(a: set<T>, b: set<T>)
    requires a <= b
    ensures |a| <= |b|
  {
    if a != {} {
      var x :| x in a;
      SubsetSize(a - {x}, b - {x});
    }
  }
}
