/** Key-value lists. A strictly ascending list is the meaning every layer of the
    engine is measured against, and also how the model holds the standard
    library's BTreeMap: its entries in iteration order. */
module Entries {
  import opened ByteStrings
  import opened Results

  datatype Pair<V> = Pair(key: Bytes, value: V)

  type Entry = Pair<Bytes>

  ghost predicate Ascending<V>(es: seq<Pair<V>>) {
    forall i, j :: 0 <= i < j < |es| ==> Below(es[i].key, es[j].key)
  }

  /** The value of the first entry that has the key. */
  function Lookup<V>(es: seq<Pair<V>>, key: Bytes): Option<V> {
    if es == [] then None
    else if es[0].key == key then Some(es[0].value)
    else Lookup(es[1..], key)
  }

  function Last<T>(s: seq<T>): T
    requires s != []
  {
    s[|s| - 1]
  }

  function Front<T>(s: seq<T>): seq<T>
    requires s != []
  {
    s[..|s| - 1]
  }

  function Keys<V>(es: seq<Pair<V>>): (r: seq<Bytes>)
    ensures |r| == |es|
    ensures forall i :: 0 <= i < |es| ==> r[i] == es[i].key
  {
    seq(|es|, i requires 0 <= i < |es| => es[i].key)
  }

  /** Appending above the last key keeps the list ascending. */
  lemma AscendingAppend<V>(es: seq<Pair<V>>, e: Pair<V>)
    requires Ascending(es)
    requires es != [] ==> Below(Last(es).key, e.key)
    ensures Ascending(es + [e])
  {
    forall i | 0 <= i < |es|
      ensures Below(es[i].key, e.key)
    {
      AtMostBelow(es[i].key, Last(es).key, e.key);
    }
  }

  lemma {:induction false} LookupConcat<V>(a: seq<Pair<V>>, b: seq<Pair<V>>, key: Bytes)
    ensures Lookup(a + b, key) == if Lookup(a, key).Some? then Lookup(a, key) else Lookup(b, key)
  {
    if a == [] {
      assert a + b == b;
    } else {
      LookupConcat(a[1..], b, key);
      assert (a + b)[1..] == a[1..] + b;
    }
  }

  lemma {:induction false} LookupMisses<V>(es: seq<Pair<V>>, key: Bytes)
    requires forall i :: 0 <= i < |es| ==> es[i].key != key
    ensures Lookup(es, key) == None
  {
    if es != [] {
      LookupMisses(es[1..], key);
    }
  }

  lemma {:induction false} LookupFinds<V>(es: seq<Pair<V>>, key: Bytes) returns (i: nat)
    requires Lookup(es, key).Some?
    ensures i < |es| && es[i] == Pair(key, Lookup(es, key).value)
  {
    if es[0].key == key {
      i := 0;
    } else {
      i := LookupFinds(es[1..], key);
      i := i + 1;
    }
  }

  lemma {:induction false} LookupAt<V>(es: seq<Pair<V>>, i: nat)
    requires Ascending(es) && i < |es|
    ensures Lookup(es, es[i].key) == Some(es[i].value)
  {
    if i > 0 {
      BelowIsAsymmetric(es[0].key, es[i].key);
      LookupAt(es[1..], i - 1);
    }
  }

  /** On an ascending list, lookup is exactly membership. */
  lemma LookupIsMembership<V>(es: seq<Pair<V>>, key: Bytes, value: V)
    requires Ascending(es)
    ensures Lookup(es, key) == Some(value) <==> Pair(key, value) in es
  {
    if Lookup(es, key) == Some(value) {
      var i := LookupFinds(es, key);
    }
    if Pair(key, value) in es {
      var i :| 0 <= i < |es| && es[i] == Pair(key, value);
      LookupAt(es, i);
    }
  }

  lemma LookupBelowAll<V>(es: seq<Pair<V>>, key: Bytes)
    requires forall i :: 0 <= i < |es| ==> Below(key, es[i].key)
    ensures Lookup(es, key) == None
  {
    forall i | 0 <= i < |es|
      ensures es[i].key != key
    {
      BelowIsAsymmetric(key, es[i].key);
    }
    LookupMisses(es, key);
  }

  lemma LookupAboveAll<V>(es: seq<Pair<V>>, key: Bytes)
    requires forall i :: 0 <= i < |es| ==> Below(es[i].key, key)
    ensures Lookup(es, key) == None
  {
    forall i | 0 <= i < |es|
      ensures es[i].key != key
    {
      BelowIsAsymmetric(es[i].key, key);
    }
    LookupMisses(es, key);
  }

  /** Two ascending lists with the same lookups are the same list. */
  lemma {:induction false} AscendingListsAreMaps<V>(a: seq<Pair<V>>, b: seq<Pair<V>>)
    requires Ascending(a) && Ascending(b)
    requires forall key :: Lookup(a, key) == Lookup(b, key)
    ensures a == b
  {
    if a != [] || b != [] {
      NeitherIsEmpty(a, b);
      HeadIsLeast(a, b);
      HeadIsLeast(b, a);
      if a[0].key != b[0].key {
        BelowIsAsymmetric(a[0].key, b[0].key);
      }
      assert Lookup(a, a[0].key) == Lookup(b, a[0].key);
      forall key
        ensures Lookup(a[1..], key) == Lookup(b[1..], key)
      {
        assert Lookup(a, key) == Lookup(b, key);
        if key == a[0].key {
          LookupBelowAll(a[1..], key);
          LookupBelowAll(b[1..], key);
        }
      }
      AscendingListsAreMaps(a[1..], b[1..]);
      assert a == [a[0]] + a[1..] && b == [b[0]] + b[1..];
    }
  }

  lemma NeitherIsEmpty<V>(a: seq<Pair<V>>, b: seq<Pair<V>>)
    requires forall key :: Lookup(a, key) == Lookup(b, key)
    requires a != [] || b != []
    ensures a != [] && b != []
  {
    var key := if a != [] then a[0].key else b[0].key;
    assert Lookup(a, key) == Lookup(b, key);
  }

  lemma HeadIsLeast<V>(a: seq<Pair<V>>, b: seq<Pair<V>>)
    requires Ascending(a) && a != [] && b != []
    requires forall key :: Lookup(a, key) == Lookup(b, key)
    ensures AtMost(a[0].key, b[0].key)
  {
    assert Lookup(b, b[0].key).Some?;
    var i := LookupFinds(a, b[0].key);
  }

  lemma AscendingParts<V>(a: seq<Pair<V>>, b: seq<Pair<V>>, e: Pair<V>, f: Pair<V>)
    requires Ascending(a + b)
    ensures Ascending(a) && Ascending(b)
    ensures e in a && f in b ==> Below(e.key, f.key)
  {
    hide Below;
    var all := a + b;
    assert forall i :: 0 <= i < |a| ==> all[i] == a[i];
    assert forall i :: 0 <= i < |b| ==> all[|a| + i] == b[i];
    if e in a && f in b {
      var i :| 0 <= i < |a| && a[i] == e;
      var j :| 0 <= j < |b| && b[j] == f;
      assert Below(all[i].key, all[|a| + j].key);
    }
  }

  ghost function KeySet<V>(es: seq<Pair<V>>): set<Bytes> {
    set e | e in es :: e.key
  }

  lemma {:induction false} KeysAreDistinct<V>(es: seq<Pair<V>>)
    requires Ascending(es)
    ensures |KeySet(es)| == |es|
  {
    if es != [] {
      var init, e := Front(es), Last(es);
      assert es == init + [e];
      AscendingParts(init, [e], e, e);
      KeysAreDistinct(init);
      forall p | p in init
        ensures p.key != e.key
      {
        AscendingParts(init, [e], p, e);
        BelowIsAsymmetric(p.key, e.key);
      }
      assert KeySet(es) == KeySet(init) + {e.key};
    }
  }

  lemma InKeySet<V>(es: seq<Pair<V>>, key: Bytes)
    requires Ascending(es)
    ensures key in KeySet(es) <==> Lookup(es, key).Some?
  {
    hide Lookup, Ascending;
    if Lookup(es, key).Some? {
      var i := LookupFinds(es, key);
      assert es[i] in es;
    }
    if key in KeySet(es) {
      var e :| e in es && e.key == key;
      LookupIsMembership(es, key, e.value);
    }
  }

  // ---------------------------------------------------------------------
  // BTreeMap: insertion and removal in key order
  // ---------------------------------------------------------------------

  /** BTreeMap::insert: replaces the value of a key that is already there. */
  function Insert<V>(m: seq<Pair<V>>, key: Bytes, value: V): (r: seq<Pair<V>>)
    ensures forall p :: p in r ==> p == Pair(key, value) || p in m
  {
    if m == [] || Below(key, m[0].key) then [Pair(key, value)] + m
    else if m[0].key == key then [Pair(key, value)] + m[1..]
    else [m[0]] + Insert(m[1..], key, value)
  }

  /** BTreeMap::remove. */
  function Remove<V>(m: seq<Pair<V>>, key: Bytes): (r: seq<Pair<V>>)
    ensures forall p :: p in r ==> p in m
  {
    if m == [] then []
    else if m[0].key == key then m[1..]
    else [m[0]] + Remove(m[1..], key)
  }

  lemma AscendingCons<V>(e: Pair<V>, es: seq<Pair<V>>)
    requires Ascending(es)
    requires forall p :: p in es ==> Below(e.key, p.key)
    ensures Ascending([e] + es)
  {
    var all := [e] + es;
    forall i, j | 0 <= i < j < |all|
      ensures Below(all[i].key, all[j].key)
    {
      if i == 0 {
        assert all[j] in es;
      }
    }
  }

  lemma HeadIsBelowTail<V>(m: seq<Pair<V>>)
    requires Ascending(m) && m != []
    ensures Ascending(m[1..])
    ensures forall p :: p in m[1..] ==> Below(m[0].key, p.key)
  {
  }

  lemma {:induction false} InsertIsMapUpdate<V>(m: seq<Pair<V>>, key: Bytes, value: V)
    requires Ascending(m)
    ensures Ascending(Insert(m, key, value))
    ensures forall k :: Lookup(Insert(m, key, value), k) == if k == key then Some(value) else Lookup(m, k)
  {
    if m == [] {
    } else {
      HeadIsBelowTail(m);
      if Below(key, m[0].key) {
        forall p | p in m
          ensures Below(key, p.key)
        {
          if p != m[0] {
            assert p in m[1..];
            BelowIsTransitive(key, m[0].key, p.key);
          }
        }
        AscendingCons(Pair(key, value), m);
      } else if m[0].key == key {
        AscendingCons(Pair(key, value), m[1..]);
      } else {
        BelowIsTotal(m[0].key, key);
        InsertIsMapUpdate(m[1..], key, value);
        AscendingCons(m[0], Insert(m[1..], key, value));
      }
    }
  }

  lemma {:induction false} RemoveIsMapRemoval<V>(m: seq<Pair<V>>, key: Bytes)
    requires Ascending(m)
    ensures Ascending(Remove(m, key))
    ensures forall k :: Lookup(Remove(m, key), k) == if k == key then None else Lookup(m, k)
  {
    if m != [] {
      HeadIsBelowTail(m);
      if m[0].key == key {
        forall i | 0 <= i < |m[1..]|
          ensures Below(key, m[1..][i].key)
        {
          assert m[1..][i] in m[1..];
        }
        LookupBelowAll(m[1..], key);
      } else {
        RemoveIsMapRemoval(m[1..], key);
        AscendingCons(m[0], Remove(m[1..], key));
      }
    }
  }
}
