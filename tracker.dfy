/** The storage discipline of a registration tracker (`BasicHandler`),
    independent of what an entry is: a map from a label to the entries
    created under it, in creation order, and the bookkeeping invariant that
    every created entry is either still stored or released, exactly once. */
module Tracker {

  /** The label that `add` files its items under. */
  const GenericLabel: string := "generic"

  /** A handler's `_storage`: label to the entries created under it. */
  type Storage<E> = map<string, seq<E>>

  /** No element occurs twice in `s`. */
  ghost predicate NoDup<T(!new)>(s: seq<T>) {
    forall x :: multiset(s)[x] <= 1
  }

  /** The entries stored under `lbl`, or none when it is absent. */
  function Bucket<E>(st: Storage<E>, lbl: string): seq<E> {
    if lbl in st then st[lbl] else []
  }

  /** Entry `e` is stored under some label. */
  ghost predicate Holds<E(!new)>(st: Storage<E>, e: E) {
    exists l :: l in st && e in st[l]
  }

  /** No entry is stored twice, under one label or under two. */
  ghost predicate UniqueEntries<E(!new)>(st: Storage<E>) {
    && (forall l :: l in st ==> NoDup(st[l]))
    && (forall l, m, e :: l in st && m in st && e in st[l] && e in st[m] ==> l == m)
  }

  /** The conservation invariant: the log of created entries is the log of
      released entries plus what is stored, with nothing created, released
      or stored twice and nothing both released and still stored. */
  ghost predicate Conserved<E(!new)>(created: seq<E>, released: seq<E>, st: Storage<E>) {
    && NoDup(created)
    && NoDup(released)
    && UniqueEntries(st)
    && (forall e :: e in created <==> e in released || Holds(st, e))
    && (forall e :: e in released ==> !Holds(st, e))
  }

  /** `addWithLabel`'s effect on storage: the label's sequence is created if
      absent, the new entries go after the ones already there, and every
      other label keeps its sequence. */
  function Append<E>(st: Storage<E>, lbl: string, es: seq<E>): (r: Storage<E>)
    ensures r.Keys == st.Keys + {lbl}
    ensures |r[lbl]| == |Bucket(st, lbl)| + |es|
    ensures r[lbl][..|Bucket(st, lbl)|] == Bucket(st, lbl)
    ensures r[lbl][|Bucket(st, lbl)|..] == es
    ensures forall l :: l in st && l != lbl ==> r[l] == st[l]
  {
    st[lbl := Bucket(st, lbl) + es]
  }

  /** The entries released when labels are removed one after another in
      `order`, each label's entries in stored order. */
  function Concat<E>(st: Storage<E>, order: seq<string>): seq<E>
    requires forall l :: l in order ==> l in st
  {
    if order == [] then [] else Concat(st, order[..|order| - 1]) + st[order[|order| - 1]]
  }

  /** `order` visits every label in `keys` exactly once. */
  ghost predicate EnumeratesOnce(order: seq<string>, keys: set<string>) {
    NoDup(order) && forall l :: l in order <==> l in keys
  }

  lemma NoDupAppend<T(!new)>(a: seq<T>, b: seq<T>)
    requires NoDup(a) && NoDup(b)
    requires forall x :: x in a ==> x !in b
    ensures NoDup(a + b)
  {
    forall x ensures multiset(a + b)[x] <= 1 {
      assert multiset(a + b)[x] == multiset(a)[x] + multiset(b)[x];
      assert x in multiset(a) <==> x in a;
      assert x in multiset(b) <==> x in b;
    }
  }

  lemma NoDupSplit<T(!new)>(a: seq<T>, b: seq<T>)
    requires NoDup(a + b)
    ensures NoDup(a) && NoDup(b)
    ensures forall x :: x in a ==> x !in b
  {
    forall x ensures multiset(a)[x] <= 1 && multiset(b)[x] <= 1 && (x in a ==> x !in b) {
      assert multiset(a + b)[x] == multiset(a)[x] + multiset(b)[x];
      assert x in multiset(a) <==> x in a;
      assert x in multiset(b) <==> x in b;
    }
  }

  /** Visiting one more label during a teardown: it extends the releases by
      that label's entries and removes it from what is left. */
  lemma VisitNext<E>(st: Storage<E>, order: seq<string>, lbl: string)
    requires forall l :: l in order ==> l in st
    requires NoDup(order) && lbl in st && lbl !in order
    ensures NoDup(order + [lbl])
    ensures Concat(st, order + [lbl]) == Concat(st, order) + st[lbl]
    ensures Bucket(st - (set l | l in order), lbl) == st[lbl]
    ensures (st - (set l | l in order)) - {lbl} == st - (set l | l in order + [lbl])
  {
    NoDupAppend(order, [lbl]);
    assert (order + [lbl])[..|order|] == order;
    assert (set l | l in order + [lbl]) == (set l | l in order) + {lbl};
  }

  /** A teardown that has emptied the storage has visited every label once,
      and its releases are exactly the entries that were stored. */
  lemma TeardownVisitsAll<E(!new)>(st: Storage<E>, order: seq<string>)
    requires UniqueEntries(st) && NoDup(order)
    requires forall l :: l in order ==> l in st
    requires st - (set l | l in order) == map[]
    ensures EnumeratesOnce(order, st.Keys)
    ensures forall e :: e in Concat(st, order) <==> Holds(st, e)
  {
    forall l | l in st ensures l in order {
      assert l !in st - (set l | l in order);
    }
    ConcatSound(st, order);
  }

  lemma InAppend<E>(st: Storage<E>, lbl: string, es: seq<E>, l: string, e: E)
    requires l in Append(st, lbl, es)
    ensures e in Append(st, lbl, es)[l] <==> (l == lbl && e in es) || (l in st && e in st[l])
  {
  }

  /** Adding fresh entries under a label keeps the conservation invariant. */
  lemma AppendConserves<E(!new)>(created: seq<E>, released: seq<E>, st: Storage<E>, lbl: string, es: seq<E>)
    requires Conserved(created, released, st)
    requires NoDup(es)
    requires forall e :: e in es ==> e !in created
    ensures Conserved(created + es, released, Append(st, lbl, es))
  {
    var r := Append(st, lbl, es);
    NoDupAppend(created, es);
    forall e | e in Bucket(st, lbl) ensures e !in es {
      assert Holds(st, e);
    }
    NoDupAppend(Bucket(st, lbl), es);
    forall e ensures Holds(r, e) <==> Holds(st, e) || e in es {
      if Holds(st, e) {
        var l :| l in st && e in st[l];
        if l == lbl {
          assert e in r[lbl];
        } else {
          assert e in r[l];
        }
      }
      if e in es {
        assert e in r[lbl];
      }
      if Holds(r, e) {
        var l :| l in r && e in r[l];
        if l != lbl {
          assert e in st[l];
        } else if e !in es {
          assert e in Bucket(st, lbl);
        }
      }
    }
    forall l, m, e | l in r && m in r && e in r[l] && e in r[m]
      ensures l == m
    {
      InAppend(st, lbl, es, l, e);
      InAppend(st, lbl, es, m, e);
      if e in es {
        assert !Holds(st, e);
      } else {
        assert e in st[l] && e in st[m];
      }
    }
  }

  /** Releasing every entry of a stored label, then deleting the label,
      keeps the conservation invariant. */
  lemma RemoveConserves<E(!new)>(created: seq<E>, released: seq<E>, st: Storage<E>, lbl: string)
    requires Conserved(created, released, st)
    requires lbl in st
    ensures Conserved(created, released + st[lbl], st - {lbl})
  {
    var r := st - {lbl};
    forall e | e in st[lbl] ensures e !in released {
      assert Holds(st, e);
    }
    NoDupAppend(released, st[lbl]);
    forall e ensures Holds(st, e) <==> Holds(r, e) || e in st[lbl] {
      if Holds(st, e) {
        var l :| l in st && e in st[l];
        if l != lbl {
          assert e in r[l];
        }
      }
      if Holds(r, e) {
        var l :| l in r && e in r[l];
        assert e in st[l];
      }
      if e in st[lbl] {
        assert Holds(st, e);
      }
    }
    forall e | Holds(r, e) ensures e !in st[lbl] {
      var l :| l in r && e in r[l];
      assert e in st[l];
    }
  }

  /** The sequence of releases of a teardown is duplicate-free and holds
      exactly the entries stored under the visited labels. */
  lemma {:induction false} ConcatSound<E(!new)>(st: Storage<E>, order: seq<string>)
    requires UniqueEntries(st) && NoDup(order)
    requires forall l :: l in order ==> l in st
    ensures NoDup(Concat(st, order))
    ensures forall e :: e in Concat(st, order) <==> exists l :: l in order && e in st[l]
  {
    if order != [] {
      var init, last := order[..|order| - 1], order[|order| - 1];
      assert order == init + [last];
      NoDupSplit(init, [last]);
      assert forall l :: l in init ==> l in order;
      ConcatSound(st, init);
      forall e | e in Concat(st, init) ensures e !in st[last] {
        var l :| l in init && e in st[l];
        assert l != last;
      }
      NoDupAppend(Concat(st, init), st[last]);
      forall e ensures e in Concat(st, order) <==> exists l :: l in order && e in st[l] {
        if e in Concat(st, order) {
          if e in st[last] {
            assert last in order;
          } else {
            var l :| l in init && e in st[l];
            assert l in order;
          }
        } else {
          forall l | l in order ensures e !in st[l] {
            if l != last {
              assert l in init;
            }
          }
        }
      }
    }
  }

  lemma NoDupCount<T(!new)>(s: seq<T>, x: T)
    requires NoDup(s)
    ensures multiset(s)[x] == if x in s then 1 else 0
  {
    assert multiset(s)[x] <= 1;
  }

  /** Two duplicate-free sequences with the same elements are permutations
      of each other. */
  lemma SameElementsPermutation<T(!new)>(a: seq<T>, b: seq<T>)
    requires NoDup(a) && NoDup(b)
    requires forall x :: x in a <==> x in b
    ensures multiset(a) == multiset(b)
  {
    forall x ensures multiset(a)[x] == multiset(b)[x] {
      NoDupCount(a, x);
      NoDupCount(b, x);
    }
  }

  /** created = released + stored: for any order of visiting the labels,
      the created entries are a permutation of the released ones followed by
      the stored ones. */
  lemma Conservation<E(!new)>(created: seq<E>, released: seq<E>, st: Storage<E>, order: seq<string>)
    requires Conserved(created, released, st)
    requires EnumeratesOnce(order, st.Keys)
    ensures multiset(created) == multiset(released + Concat(st, order))
    ensures |created| == |released| + |Concat(st, order)|
  {
    var rest := Concat(st, order);
    ConcatSound(st, order);
    forall e | e in rest ensures e !in released {
      var l :| l in order && e in st[l];
      assert Holds(st, e);
    }
    NoDupAppend(released, rest);
    forall e ensures e in created <==> e in released + rest {
      if Holds(st, e) {
        var l :| l in st && e in st[l];
        assert l in order;
      }
      if e in rest {
        var l :| l in order && e in st[l];
        assert Holds(st, e);
      }
    }
    SameElementsPermutation(created, released + rest);
    assert |multiset(created)| == |multiset(released + rest)|;
  }

  /** Once nothing is stored, every created entry has been released exactly
      once and nothing else has been released. */
  lemma TeardownReleasesEachOnce<E(!new)>(created: seq<E>, released: seq<E>)
    requires Conserved(created, released, map[])
    ensures multiset(released) == multiset(created)
    ensures forall e :: e in created ==> multiset(released)[e] == 1
  {
    Conservation(created, released, map[], []);
    assert released + Concat(map[], []) == released;
    forall e | e in created ensures multiset(released)[e] == 1 {
      NoDupCount(released, e);
    }
  }
}
