// Gear\Core\DIContainer: a keyed store of plain values and producers.
// A producer not passed through `factory` is shared: the first read runs it,
// replaces the entry with the result and locks the key against overwrite.
// A producer passed through `factory` runs on every read.
module DI {
  import opened Php

  /** A stored closure. Its argument is the number of producer calls the
      container has made before this one; it stands for whatever state lets
      a producer hand out a new object on each call. */
  type Producer<V> = nat -> Nullable<V>

  /** A container entry: a plain (non-callable) value, possibly null, or a
      closure, marked as a factory or not. */
  datatype Entry<V> =
    | Plain(value: Nullable<V>)
    | Shared(make: Producer<V>)
    | Factory(make: Producer<V>)

  /** `isset` of an entry: only a stored null is unset. */
  predicate IsSet<V>(e: Entry<V>) {
    !(e.Plain? && e.value.Null?)
  }

  /** The container's state: `values`, the keys in `holdValues`, and the
      number of producer calls made so far. */
  datatype Store<V> = Store(values: map<string, Entry<V>>, held: set<string>, calls: nat)

  /** A held key always holds the plain value its producer returned. */
  ghost predicate Valid<V>(s: Store<V>) {
    && s.held <= s.values.Keys
    && forall k :: k in s.held ==> s.values[k].Plain?
  }

  /** The array key an offset indexes: null indexes "". */
  function KeyOf(offset: Nullable<string>): string {
    if offset.Null? then "" else offset.v
  }

  /** `offsetExists` */
  predicate Has<V>(s: Store<V>, offset: Nullable<string>) {
    KeyOf(offset) in s.values && IsSet(s.values[KeyOf(offset)])
  }

  /** `offsetGet` / `__get`: the result of one read and the state after it. */
  function Read<V>(s: Store<V>, offset: Nullable<string>): (out: (Result<Nullable<V>, Exception>, Store<V>))
    ensures Valid(s) ==> Valid(out.1)
  {
    var k := KeyOf(offset);
    if !Has(s, offset) then (Failure(RuntimeException("")), s)
    else match s.values[k]
      case Plain(v) => (Success(v), s)
      case Factory(p) => (Success(p(s.calls)), s.(calls := s.calls + 1))
      case Shared(p) =>
        var v := p(s.calls);
        (Success(v), Store(s.values[k := Plain(v)], s.held + {k}, s.calls + 1))
  }

  /** `offsetUnset` / `__unset`: no hold check. */
  function Delete<V>(s: Store<V>, offset: Nullable<string>): (r: Store<V>)
    ensures Valid(s) ==> Valid(r)
  {
    var k := KeyOf(offset);
    Store(s.values - {k}, s.held - {k}, s.calls)
  }

  /** `offsetSet` / `__set`: the outcome of one write and the state after it. */
  function Write<V>(s: Store<V>, offset: Nullable<string>, e: Entry<V>): (out: (Result<(), Exception>, Store<V>))
    ensures Valid(s) ==> Valid(out.1)
  {
    if offset.Null? then (Failure(InvalidArgumentException("Can't set empty offset.")), s)
    else if offset.v in s.held then (Failure(RuntimeException("Can not override service " + offset.v)), s)
    else
      var cleared := if Has(s, offset) then Delete(s, offset) else s;
      (Success(()), cleared.(values := cleared.values[offset.v := e]))
  }

  /** `factory`: only a closure can be marked; the same closure comes back, marked. */
  function MarkFactory<V>(callable: Entry<V>): (r: Result<Entry<V>, Exception>)
    ensures r.Failure? <==> callable.Plain?
    ensures r.Failure? ==> r.error.InvalidArgumentException?
    ensures r.Success? ==> r.value.Factory? && r.value.make == callable.make
  {
    if callable.Plain? then Failure(InvalidArgumentException("Only callable can add for factory."))
    else Success(Factory(callable.make))
  }

  /** `n` reads of the same offset in a row: their results and the final state. */
  function ReadMany<V>(s: Store<V>, offset: Nullable<string>, n: nat): (seq<Result<Nullable<V>, Exception>>, Store<V>)
    decreases n
  {
    if n == 0 then ([], s)
    else
      var (r, s1) := Read(s, offset);
      var (rs, s2) := ReadMany(s1, offset, n - 1);
      ([r] + rs, s2)
  }

  /** A missing key, or one holding null, throws and changes nothing. */
  lemma ReadUnsetThrows<V>(s: Store<V>, offset: Nullable<string>)
    requires !Has(s, offset)
    ensures Read(s, offset).0.Failure? && Read(s, offset).0.error.RuntimeException?
    ensures Read(s, offset).1 == s
  {
  }

  /** A plain value is returned as it is, and nothing changes. */
  lemma ReadPlainIsPure<V>(s: Store<V>, offset: Nullable<string>, v: V)
    requires KeyOf(offset) in s.values && s.values[KeyOf(offset)] == Plain(Val(v))
    ensures Read(s, offset) == (Success(Val(v)), s)
  {
  }

  /** Reads of a plain entry repeat the same answer and never change the state. */
  lemma {:induction false} PlainReadsStable<V>(s: Store<V>, offset: Nullable<string>, v: V, n: nat)
    requires KeyOf(offset) in s.values && s.values[KeyOf(offset)] == Plain(Val(v))
    ensures var (rs, last) := ReadMany(s, offset, n);
      |rs| == n && (forall i :: 0 <= i < n ==> rs[i] == Success(Val(v))) && last == s
    decreases n
  {
    if n > 0 {
      PlainReadsStable(s, offset, v, n - 1);
      assert Read(s, offset) == (Success(Val(v)), s);
    }
  }

  /** A shared producer runs on the first read only: that read and every
      later one return its first result, the key ends up held, and the
      producer is called exactly once in all. */
  lemma SharedRunsOnce<V>(s: Store<V>, offset: Nullable<string>, p: Producer<V>, n: nat)
    requires Valid(s)
    requires KeyOf(offset) in s.values && s.values[KeyOf(offset)] == Shared(p)
    requires p(s.calls).Val?
    ensures var k := KeyOf(offset);
      var (rs, last) := ReadMany(s, offset, n + 1);
      && |rs| == n + 1 && (forall i :: 0 <= i <= n ==> rs[i] == Success(p(s.calls)))
      && last == Store(s.values[k := Plain(p(s.calls))], s.held + {k}, s.calls + 1)
  {
    var (r, s1) := Read(s, offset);
    PlainReadsStable(s1, offset, p(s.calls).v, n);
  }

  /** A shared producer that returns null leaves the key unreadable and
      locked: later reads throw, writes throw, until the key is deleted. */
  lemma SharedNullLocksKey<V>(s: Store<V>, name: string, p: Producer<V>, e: Entry<V>)
    requires name in s.values && s.values[name] == Shared(p)
    requires p(s.calls).Null?
    ensures var s1 := Read(s, Val(name)).1;
      && Read(s1, Val(name)).0.Failure?
      && Write(s1, Val(name), e).0.Failure?
      && Write(Delete(s1, Val(name)), Val(name), e).0.Success?
  {
  }

  /** A factory runs on every read: the i-th read returns the producer's
      i-th fresh result, and nothing but the call count changes. */
  lemma {:induction false} FactoryRunsEveryTime<V>(s: Store<V>, offset: Nullable<string>, p: Producer<V>, n: nat)
    requires KeyOf(offset) in s.values && s.values[KeyOf(offset)] == Factory(p)
    ensures var (rs, last) := ReadMany(s, offset, n);
      && |rs| == n && (forall i: nat :: i < n ==> rs[i] == Success(p(s.calls + i)))
      && last == s.(calls := s.calls + n)
    decreases n
  {
    if n > 0 {
      var s1 := s.(calls := s.calls + 1);
      FactoryRunsEveryTime(s1, offset, p, n - 1);
      assert Read(s, offset) == (Success(p(s.calls)), s1);
    }
  }

  /** A null offset and a held key are refused for every value, and the
      state stays as it was. */
  lemma WriteRefused<V>(s: Store<V>, offset: Nullable<string>, e: Entry<V>)
    requires offset.Null? || offset.v in s.held
    ensures Write(s, offset, e).0.Failure? && Write(s, offset, e).1 == s
    ensures offset.Null? ==> Write(s, offset, e).0.error.InvalidArgumentException?
    ensures offset.Val? ==> Write(s, offset, e).0.error.RuntimeException?
  {
  }

  /** A successful write leaves exactly the new entry under its key, the key
      not held, and every other key as it was. The empty name is accepted. */
  lemma WriteStores<V>(s: Store<V>, name: string, e: Entry<V>, other: string)
    requires Valid(s) && name !in s.held
    ensures var (r, s1) := Write(s, Val(name), e);
      && r.Success?
      && s1.values == s.values[name := e]
      && name !in s1.held && s1.held == s.held
      && s1.calls == s.calls
      && (other != name ==> (other in s1.values <==> other in s.values))
  {
  }

  /** Writing then reading is a round trip: a plain non-null value reads
      back unchanged, a marked factory's producer is called on the read. */
  lemma WriteThenRead<V>(s: Store<V>, name: string, e: Entry<V>)
    requires Valid(s) && name !in s.held && IsSet(e)
    ensures var s1 := Write(s, Val(name), e).1;
      && (e.Plain? ==> Read(s1, Val(name)) == (Success(e.value), s1))
      && (e.Factory? ==> Read(s1, Val(name)) == (Success(e.make(s.calls)), s1.(calls := s.calls + 1)))
  {
  }

  /** Delete performs no hold check: afterwards the key is absent and
      unheld, so it can be written again. */
  lemma DeleteReleases<V>(s: Store<V>, name: string, e: Entry<V>)
    ensures var s1 := Delete(s, Val(name));
      && name !in s1.values && name !in s1.held
      && Write(s1, Val(name), e).0.Success?
  {
  }

  /** Marking a closure and storing it gives a key whose every read calls
      the closure anew. */
  lemma MarkedClosureIsFactory<V>(s: Store<V>, name: string, p: Producer<V>, n: nat)
    requires Valid(s) && name !in s.held
    ensures MarkFactory(Shared(p)) == Success(Factory(p))
    ensures var rs := ReadMany(Write(s, Val(name), Factory(p)).1, Val(name), n).0;
      |rs| == n && forall i: nat :: i < n ==> rs[i] == Success(p(s.calls + i))
  {
    var s1 := Write(s, Val(name), Factory(p)).1;
    FactoryRunsEveryTime(s1, Val(name), p, n);
  }

  class DIContainer<V> {
    var values: map<string, Entry<V>>
    var held: set<string>
    var calls: nat

    function State(): Store<V>
      reads this
    {
      Store(values, held, calls)
    }

    ghost predicate Invariant()
      reads this
    {
      Valid(State())
    }

    constructor ()
      ensures Invariant() && State() == Store(map[], {}, 0)
    {
      values, held, calls := map[], {}, 0;
    }

    /** `offsetExists`: `isset` of the stored value. */
    predicate Exists(offset: Nullable<string>)
      reads this
      ensures Exists(offset) <==> KeyOf(offset) in values && IsSet(values[KeyOf(offset)])
    {
      Has(State(), offset)
    }

    /** `offsetGet` / `__get` */
    method Get(offset: Nullable<string>) returns (r: Result<Nullable<V>, Exception>)
      requires Invariant()
      modifies this
      ensures Invariant()
      ensures (r, State()) == Read(old(State()), offset)
    {
      var k := KeyOf(offset);
      if !Exists(offset) {
        return Failure(RuntimeException(""));
      }
      var e := values[k];
      if e.Plain? {
        return Success(e.value);
      }
      var v := e.make(calls);
      calls := calls + 1;
      if e.Factory? {
        return Success(v);
      }
      values := values[k := Plain(v)];
      held := held + {k};
      return Success(v);
    }

    /** `offsetSet` / `__set` */
    method Set(offset: Nullable<string>, e: Entry<V>) returns (r: Result<(), Exception>)
      requires Invariant()
      modifies this
      ensures Invariant()
      ensures (r, State()) == Write(old(State()), offset, e)
    {
      if offset.Null? {
        return Failure(InvalidArgumentException("Can't set empty offset."));
      }
      if offset.v in held {
        return Failure(RuntimeException("Can not override service " + offset.v));
      }
      if Exists(offset) {
        Unset(offset);
      }
      values := values[offset.v := e];
      return Success(());
    }

    /** `offsetUnset` / `__unset` */
    method Unset(offset: Nullable<string>)
      requires Invariant()
      modifies this
      ensures Invariant()
      ensures State() == Delete(old(State()), offset)
    {
      var k := KeyOf(offset);
      values := values - {k};
      held := held - {k};
    }

  }
}
