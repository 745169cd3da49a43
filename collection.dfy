// Gear\Util\Collection: a PHP array wrapped in an object, readable and
// writable with array or property syntax. Reads of a missing key give null,
// `isset` treats a stored null as absent, and writing with a null key appends.
module Util {
  import opened Php
  import opened PhpArray

  /** The array key PHP uses for an offset: a null offset indexes the "" key. */
  function OffsetKey(offset: Nullable<Key>): Key {
    if offset.Null? then StrKey("") else offset.v
  }

  /** `isset($a[k]) ? $a[k] : null` */
  function Read<V>(a: PArray<Nullable<V>>, k: Key): (r: Nullable<V>)
    ensures r.Val? <==> k in a.vals && a.vals[k].Val?
    ensures r.Val? ==> r == a.vals[k]
  {
    if k in a.vals && a.vals[k].Val? then a.vals[k] else Null
  }

  /** A written value reads back; no other key's read changes. */
  lemma ReadAfterSet<V>(a: PArray<Nullable<V>>, k: Key, v: Nullable<V>, other: Key)
    requires a.Valid()
    ensures Read(PhpArray.Set(a, k, v), k) == v
    ensures other != k ==> Read(PhpArray.Set(a, k, v), other) == Read(a, other)
  {
  }

  /** An appended value reads back under the previous next free key, which held nothing. */
  lemma ReadAfterAppend<V>(a: PArray<Nullable<V>>, v: Nullable<V>, other: Key)
    requires a.Valid()
    ensures Read(a, IntKey(a.nextFree)) == Null
    ensures Read(Append(a, v), IntKey(a.nextFree)) == v
    ensures other != IntKey(a.nextFree) ==> Read(Append(a, v), other) == Read(a, other)
  {
  }

  /** After `unset` the key reads as null; no other key's read changes. */
  lemma ReadAfterUnset<V>(a: PArray<Nullable<V>>, k: Key, other: Key)
    requires a.Valid()
    ensures Read(PhpArray.Unset(a, k), k) == Null
    ensures other != k ==> Read(PhpArray.Unset(a, k), other) == Read(a, other)
  {
  }

  class Collection<V> {
    var data: PArray<Nullable<V>>

    ghost predicate Valid()
      reads this
    {
      data.Valid()
    }

    /** `new Collection($data)` stores the given array as it is. */
    constructor (init: PArray<Nullable<V>>)
      requires init.Valid()
      ensures Valid() && data == init
    {
      data := init;
    }

    /** `clear`: the collection becomes empty (and appends restart at 0). */
    method Clear()
      modifies this
      ensures Valid() && data == Empty()
      ensures Count() == 0
      ensures forall k :: Read(data, k) == Null
    {
      data := Empty();
    }

    /** `getData` */
    function GetData(): (r: PArray<Nullable<V>>)
      reads this
      requires Valid()
      ensures r.Valid() && r == data
    {
      data
    }

    /** `setData`: replaces the whole array. */
    method SetData(d: PArray<Nullable<V>>)
      requires d.Valid()
      modifies this
      ensures Valid() && data == d
    {
      data := d;
    }

    /** `keys`: every stored key once, in insertion order. */
    function Keys(): (r: seq<Key>)
      reads this
      requires Valid()
      ensures forall k :: k in r <==> k in data.vals
      ensures Distinct(r) && r == data.keys
    {
      data.keys
    }

    /** `offsetExists` / `__isset`: false for a missing key and for a stored null. */
    predicate Exists(offset: Nullable<Key>)
      reads this
      ensures Exists(offset) <==> OffsetKey(offset) in data.vals && data.vals[OffsetKey(offset)].Val?
    {
      Read(data, OffsetKey(offset)).Val?
    }

    /** `offsetGet` / `__get`: the stored value, or null. */
    function Get(offset: Nullable<Key>): (r: Nullable<V>)
      reads this
      ensures r.Val? <==> Exists(offset)
      ensures r.Val? ==> r == data.vals[OffsetKey(offset)]
      ensures OffsetKey(offset) !in data.vals ==> r == Null
    {
      Read(data, OffsetKey(offset))
    }

    /** `offsetSet` / `__set`: a null offset appends, any other offset stores
        or overwrites under that key. */
    method Set(offset: Nullable<Key>, value: Nullable<V>)
      requires Valid()
      modifies this
      ensures Valid()
      ensures offset.Null? ==> data == Append(old(data), value)
      ensures offset.Val? ==> data == PhpArray.Set(old(data), offset.v, value)
    {
      if offset.Null? {
        data := Append(data, value);
      } else {
        data := PhpArray.Set(data, offset.v, value);
      }
    }

    /** `offsetUnset` / `__unset`: removes only the given key. */
    method Unset(offset: Nullable<Key>)
      requires Valid()
      modifies this
      ensures Valid() && data == PhpArray.Unset(old(data), OffsetKey(offset))
    {
      data := PhpArray.Unset(data, OffsetKey(offset));
    }

    /** `count`: the number of stored entries. */
    function Count(): (r: nat)
      reads this
      requires Valid()
      ensures r == |data.vals|
    {
      CountIsSize(data);
      |data.keys|
    }
  }
}
