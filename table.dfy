// A PHP array of lists keyed by name, grown with `$t[$key][] = $item`
// after `$t[$key] = []` when the key is missing. Kept generic in the key
// and item types so that reasoning about the table never looks inside them.
module Table {

  /** The list stored under a key, or the empty list. */
  function ListAt<K, D>(m: map<K, seq<D>>, key: K): seq<D> {
    if key in m then m[key] else []
  }

  /** Appends `items` to the list under `key`, creating the list if missing. */
  function Extend<K, D>(m: map<K, seq<D>>, key: K, items: seq<D>): (r: map<K, seq<D>>)
    ensures r.Keys == m.Keys + {key}
    ensures r[key] == ListAt(m, key) + items
    ensures forall k :: k in m && k != key ==> r[k] == m[k]
  {
    m[key := ListAt(m, key) + items]
  }

  /** Creating a missing list adds nothing to an existing one. */
  lemma ExtendEmpty<K, D>(m: map<K, seq<D>>, key: K)
    ensures Extend(m, key, []) == if key in m then m else m[key := []]
  {
    if key in m {
      assert m[key] + [] == m[key];
      assert m[key := m[key]] == m;
    }
  }

  /** Two appends to one list are one append of both runs. */
  lemma ExtendTwice<K, D>(m: map<K, seq<D>>, key: K, a: seq<D>, b: seq<D>)
    ensures Extend(Extend(m, key, a), key, b) == Extend(m, key, a + b)
  {
    assert (ListAt(m, key) + a) + b == ListAt(m, key) + (a + b);
  }

  /** Extends the table with each (key, items) pair in turn. */
  function ExtendAll<K, D>(m: map<K, seq<D>>, regs: seq<(K, seq<D>)>): map<K, seq<D>>
    decreases |regs|
  {
    if regs == [] then m
    else
      var last := regs[|regs| - 1];
      Extend(ExtendAll(m, regs[..|regs| - 1]), last.0, last.1)
  }

  /** The items a run of pairs gives `key`, in order. */
  function ItemsFor<K(==), D>(regs: seq<(K, seq<D>)>, key: K): seq<D>
    decreases |regs|
  {
    if regs == [] then []
    else
      var last := regs[|regs| - 1];
      ItemsFor(regs[..|regs| - 1], key) + (if last.0 == key then last.1 else [])
  }

  /** A key is in the extended table exactly when it was before or some pair names it. */
  lemma {:induction false} ExtendAllKeys<K, D>(m: map<K, seq<D>>, regs: seq<(K, seq<D>)>, key: K)
    ensures key in ExtendAll(m, regs) <==> key in m || exists i :: 0 <= i < |regs| && regs[i].0 == key
    decreases |regs|
  {
    if regs != [] {
      var init := regs[..|regs| - 1];
      ExtendAllKeys(m, init, key);
      assert forall i :: 0 <= i < |init| ==> init[i] == regs[i];
    }
  }

  /** The extended table keeps each key's earlier items and appends, in
      order, the items of every pair naming it. */
  lemma {:induction false} ExtendAllItems<K, D>(m: map<K, seq<D>>, regs: seq<(K, seq<D>)>, key: K)
    ensures ListAt(ExtendAll(m, regs), key) == ListAt(m, key) + ItemsFor(regs, key)
    decreases |regs|
  {
    if regs != [] {
      ExtendAllItems(m, regs[..|regs| - 1], key);
    }
  }

  /** Pairs that never name `key` give it nothing. */
  lemma {:induction false} NoneForKey<K, D>(regs: seq<(K, seq<D>)>, key: K)
    requires forall i :: 0 <= i < |regs| ==> regs[i].0 != key
    ensures ItemsFor(regs, key) == []
    decreases |regs|
  {
    if regs != [] {
      var init := regs[..|regs| - 1];
      assert forall i :: 0 <= i < |init| ==> init[i] == regs[i];
      NoneForKey(init, key);
    }
  }

  /** Applies `f` to every element, keeping the order. */
  function MapSeq<A, B>(f: A -> B, xs: seq<A>): (r: seq<B>)
    ensures |r| == |xs| && forall i :: 0 <= i < |xs| ==> r[i] == f(xs[i])
  {
    if xs == [] then [] else MapSeq(f, xs[..|xs| - 1]) + [f(xs[|xs| - 1])]
  }

  /** Mapping one more element appends its image. */
  lemma MapSeqSnoc<A, B>(f: A -> B, xs: seq<A>, i: nat)
    requires i < |xs|
    ensures MapSeq(f, xs[..i + 1]) == MapSeq(f, xs[..i]) + [f(xs[i])]
  {
    assert xs[..i + 1][..i] == xs[..i];
  }
}
