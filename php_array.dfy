// PHP's ordered array (PHP 5 semantics): keys in insertion order, a value per
// key, and the next free integer key that `$a[] = v` uses. The next free key
// starts at 0, only grows when an integer key at or above it is written, and
// is not lowered by `unset`.
module PhpArray {

  datatype Key = IntKey(n: int) | StrKey(s: string)

  datatype PArray<V> = PArray(keys: seq<Key>, vals: map<Key, V>, nextFree: int) {
    /** Keys are distinct, the order lists exactly the stored keys, and every
        integer key lies below the next free one. */
    ghost predicate Valid() {
      && Distinct(keys)
      && (forall k :: k in vals <==> k in keys)
      && 0 <= nextFree
      && (forall n :: IntKey(n) in vals ==> n < nextFree)
    }
  }

  ghost predicate Distinct(ks: seq<Key>) {
    forall i, j :: 0 <= i < j < |ks| ==> ks[i] != ks[j]
  }

  /** `[]` */
  function Empty<V>(): (a: PArray<V>)
    ensures a.Valid() && a.keys == [] && a.vals == map[] && a.nextFree == 0
  {
    PArray([], map[], 0)
  }

  /** The next free integer key after writing key `k`. */
  function NextAfter(nextFree: int, k: Key): int {
    if k.IntKey? && k.n >= nextFree then k.n + 1 else nextFree
  }

  /** `$a[k] = v`: overwrites in place or adds `k` at the end. */
  function Set<V>(a: PArray<V>, k: Key, v: V): (r: PArray<V>)
    requires a.Valid()
    ensures r.Valid()
    ensures r.vals == a.vals[k := v]
    ensures r.keys == if k in a.vals then a.keys else a.keys + [k]
    ensures r.nextFree >= a.nextFree
  {
    PArray(if k in a.vals then a.keys else a.keys + [k], a.vals[k := v], NextAfter(a.nextFree, k))
  }

  /** `$a[] = v`: stores `v` under a key that no entry uses, at the end. */
  function Append<V>(a: PArray<V>, v: V): (r: PArray<V>)
    requires a.Valid()
    ensures r.Valid()
    ensures IntKey(a.nextFree) !in a.vals
    ensures r.vals == a.vals[IntKey(a.nextFree) := v]
    ensures r.keys == a.keys + [IntKey(a.nextFree)]
    ensures r.nextFree == a.nextFree + 1
  {
    Set(a, IntKey(a.nextFree), v)
  }

  /** The key order with `k` taken out, the rest in the same order. */
  function Without(ks: seq<Key>, k: Key): (r: seq<Key>)
    ensures forall x :: x in r <==> x in ks && x != k
    ensures Distinct(ks) ==> Distinct(r)
  {
    if ks == [] then []
    else if ks[0] == k then Without(ks[1..], k)
    else
      var rest := Without(ks[1..], k);
      assert Distinct(ks) ==> ks[0] !in ks[1..];
      [ks[0]] + rest
  }

  /** `unset($a[k])`: removes only `k`; the next free key is kept. */
  function Unset<V>(a: PArray<V>, k: Key): (r: PArray<V>)
    requires a.Valid()
    ensures r.Valid()
    ensures r.vals == a.vals - {k}
    ensures r.nextFree == a.nextFree
  {
    PArray(Without(a.keys, k), a.vals - {k}, a.nextFree)
  }

  /** The number of stored entries equals the length of the key order. */
  lemma {:induction false} CountIsSize<V>(a: PArray<V>)
    requires a.Valid()
    ensures |a.vals| == |a.keys|
  {
    DistinctCard(a.keys);
    assert a.vals.Keys == set k | k in a.keys;
  }

  lemma {:induction false} DistinctCard(ks: seq<Key>)
    requires Distinct(ks)
    ensures |set k | k in ks| == |ks|
  {
    if ks != [] {
      var rest := ks[1..];
      assert Distinct(rest);
      DistinctCard(rest);
      assert (set k | k in ks) == (set k | k in rest) + {ks[0]};
      assert ks[0] !in rest;
    }
  }

  /** One step of `array_merge`: integer keys are renumbered by appending,
      string keys are written (a later value wins). */
  function Put<V>(acc: PArray<V>, k: Key, v: V): (r: PArray<V>)
    requires acc.Valid()
    ensures r.Valid()
  {
    if k.IntKey? then Append(acc, v) else Set(acc, k, v)
  }

  function PutAll<V>(acc: PArray<V>, ks: seq<Key>, vals: map<Key, V>): (r: PArray<V>)
    requires acc.Valid()
    requires forall k :: k in ks ==> k in vals
    ensures r.Valid()
    decreases |ks|
  {
    if ks == [] then acc else PutAll(Put(acc, ks[0], vals[ks[0]]), ks[1..], vals)
  }

  /** `array_merge(a, b)`. */
  function Merge<V>(a: PArray<V>, b: PArray<V>): (r: PArray<V>)
    requires a.Valid() && b.Valid()
    ensures r.Valid()
  {
    PutAll(PutAll(Empty(), a.keys, a.vals), b.keys, b.vals)
  }

  /** How many integer keys a key order holds. */
  function IntCount(ks: seq<Key>): nat {
    if ks == [] then 0 else (if ks[0].IntKey? then 1 else 0) + IntCount(ks[1..])
  }

  /** The integer keys are exactly 0 .. nextFree-1. */
  ghost predicate Dense<V>(a: PArray<V>) {
    forall n :: IntKey(n) in a.vals <==> 0 <= n < a.nextFree
  }

  /** Writing a run of entries: a string key ends up with its value from the
      run if the run has it, and keeps its old value otherwise. */
  lemma {:induction false} PutAllStrings<V>(acc: PArray<V>, ks: seq<Key>, vals: map<Key, V>, s: string)
    requires acc.Valid()
    requires forall k :: k in ks ==> k in vals
    ensures StrKey(s) in PutAll(acc, ks, vals).vals <==> StrKey(s) in acc.vals || StrKey(s) in ks
    ensures StrKey(s) in ks ==> PutAll(acc, ks, vals).vals[StrKey(s)] == vals[StrKey(s)]
    ensures StrKey(s) !in ks && StrKey(s) in acc.vals ==>
      PutAll(acc, ks, vals).vals[StrKey(s)] == acc.vals[StrKey(s)]
    decreases |ks|
  {
    if ks != [] {
      var next := Put(acc, ks[0], vals[ks[0]]);
      PutString(acc, ks[0], vals[ks[0]], s);
      PutAllStrings(next, ks[1..], vals, s);
      assert ks == [ks[0]] + ks[1..];
    }
  }

  /** One write touches a string key only when it is that key. */
  lemma PutString<V>(acc: PArray<V>, k: Key, v: V, s: string)
    requires acc.Valid()
    ensures StrKey(s) in Put(acc, k, v).vals <==> StrKey(s) in acc.vals || StrKey(s) == k
    ensures StrKey(s) == k ==> Put(acc, k, v).vals[StrKey(s)] == v
    ensures StrKey(s) != k && StrKey(s) in acc.vals ==> Put(acc, k, v).vals[StrKey(s)] == acc.vals[StrKey(s)]
  {
  }

  /** Writing a run of entries into a densely numbered array keeps it dense
      and advances the next free key by the number of integer keys in the run. */
  lemma {:induction false} PutAllDense<V>(acc: PArray<V>, ks: seq<Key>, vals: map<Key, V>)
    requires acc.Valid() && Dense(acc)
    requires forall k :: k in ks ==> k in vals
    ensures Dense(PutAll(acc, ks, vals))
    ensures PutAll(acc, ks, vals).nextFree == acc.nextFree + IntCount(ks)
    decreases |ks|
  {
    if ks != [] {
      var next := Put(acc, ks[0], vals[ks[0]]);
      assert Dense(next);
      PutAllDense(next, ks[1..], vals);
    }
  }

  /** The values stored under integer keys, in key order. */
  function IntVals<V>(ks: seq<Key>, vals: map<Key, V>): (r: seq<V>)
    requires forall k :: k in ks ==> k in vals
    ensures |r| == IntCount(ks)
  {
    if ks == [] then []
    else (if ks[0].IntKey? then [vals[ks[0]]] else []) + IntVals(ks[1..], vals)
  }

  /** One write keeps the value under an integer key below the next free
      one, and an integer key stores its value under the next free key. */
  lemma PutInt<V>(acc: PArray<V>, k: Key, v: V, n: int)
    requires acc.Valid()
    ensures Put(acc, k, v).nextFree == acc.nextFree + (if k.IntKey? then 1 else 0)
    ensures n < acc.nextFree && IntKey(n) in acc.vals ==>
      IntKey(n) in Put(acc, k, v).vals && Put(acc, k, v).vals[IntKey(n)] == acc.vals[IntKey(n)]
    ensures k.IntKey? && n == acc.nextFree ==>
      IntKey(n) in Put(acc, k, v).vals && Put(acc, k, v).vals[IntKey(n)] == v
  {
  }

  /** Writing a run of entries keeps the value under an integer key below the
      next free one. */
  lemma {:induction false} PutAllKeepsInt<V>(acc: PArray<V>, ks: seq<Key>, vals: map<Key, V>, n: int)
    requires acc.Valid()
    requires forall k :: k in ks ==> k in vals
    requires n < acc.nextFree && IntKey(n) in acc.vals
    ensures IntKey(n) in PutAll(acc, ks, vals).vals
    ensures PutAll(acc, ks, vals).vals[IntKey(n)] == acc.vals[IntKey(n)]
    decreases |ks|
  {
    if ks != [] {
      var next := Put(acc, ks[0], vals[ks[0]]);
      PutInt(acc, ks[0], vals[ks[0]], n);
      PutAllKeepsInt(next, ks[1..], vals, n);
    }
  }

  /** Writing a run of entries stores the run's integer-keyed values, in
      order, under the keys from the next free one on. */
  lemma {:induction false} PutAllInt<V>(acc: PArray<V>, ks: seq<Key>, vals: map<Key, V>, n: int)
    requires acc.Valid()
    requires forall k :: k in ks ==> k in vals
    requires acc.nextFree <= n < acc.nextFree + |IntVals(ks, vals)|
    ensures IntKey(n) in PutAll(acc, ks, vals).vals
    ensures PutAll(acc, ks, vals).vals[IntKey(n)] == IntVals(ks, vals)[n - acc.nextFree]
    decreases |ks|
  {
    var next := Put(acc, ks[0], vals[ks[0]]);
    PutInt(acc, ks[0], vals[ks[0]], n);
    var tail := IntVals(ks[1..], vals);
    if ks[0].IntKey? {
      assert IntVals(ks, vals) == [vals[ks[0]]] + tail;
      if n == acc.nextFree {
        PutAllKeepsInt(next, ks[1..], vals, n);
      } else {
        PutAllInt(next, ks[1..], vals, n);
        assert IntVals(ks, vals)[n - acc.nextFree] == tail[n - next.nextFree];
      }
    } else {
      assert IntVals(ks, vals) == tail;
      PutAllInt(next, ks[1..], vals, n);
    }
  }

  /** `array_merge`: for string keys the later array wins and every other
      string key is kept. */
  lemma MergeLaterWins<V>(a: PArray<V>, b: PArray<V>, s: string)
    requires a.Valid() && b.Valid()
    ensures StrKey(s) in Merge(a, b).vals <==> StrKey(s) in a.vals || StrKey(s) in b.vals
    ensures StrKey(s) in b.vals ==> Merge(a, b).vals[StrKey(s)] == b.vals[StrKey(s)]
    ensures StrKey(s) in a.vals && StrKey(s) !in b.vals ==> Merge(a, b).vals[StrKey(s)] == a.vals[StrKey(s)]
  {
    PutAllStrings(Empty(), a.keys, a.vals, s);
    PutAllStrings(PutAll(Empty(), a.keys, a.vals), b.keys, b.vals, s);
  }

  /** `array_merge`: integer keys are renumbered 0, 1, 2, ... over both
      arrays, and they hold the integer-keyed values of `a` and then of `b`,
      each in key order. */
  lemma MergeRenumbers<V>(a: PArray<V>, b: PArray<V>)
    requires a.Valid() && b.Valid()
    ensures forall n :: IntKey(n) in Merge(a, b).vals <==> 0 <= n < IntCount(a.keys) + IntCount(b.keys)
    ensures forall n :: 0 <= n < IntCount(a.keys) + IntCount(b.keys) ==>
      Merge(a, b).vals[IntKey(n)] == (IntVals(a.keys, a.vals) + IntVals(b.keys, b.vals))[n]
  {
    var e: PArray<V> := Empty();
    var mid := PutAll(e, a.keys, a.vals);
    PutAllDense(e, a.keys, a.vals);
    PutAllDense(mid, b.keys, b.vals);
    var both := IntVals(a.keys, a.vals) + IntVals(b.keys, b.vals);
    forall n | 0 <= n < IntCount(a.keys) + IntCount(b.keys)
      ensures Merge(a, b).vals[IntKey(n)] == both[n]
    {
      if n < IntCount(a.keys) {
        PutAllInt(e, a.keys, a.vals, n);
        PutAllKeepsInt(mid, b.keys, b.vals, n);
      } else {
        PutAllInt(mid, b.keys, b.vals, n);
      }
    }
  }
}
