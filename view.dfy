// Gear\View\View: a views directory, data shared by every template, and
// data stored per template name. Rendering goes through Template, which is
// not part of this model.
module Views {
  import opened Php
  import opened PhpString
  import opened PhpArray

  /** The `$templates` argument of `setData` and `getData`: null, a
      template name, an array of such arguments, or anything else. */
  datatype TemplateArg = NullArg | NameArg(name: string) | ListArg(items: seq<TemplateArg>) | OtherArg

  /** The view's data: `$sharedData` and `$templateData`, where a template
      entry may hold null. */
  datatype Store<V> = Store(shared: PArray<V>, templates: map<string, Nullable<PArray<V>>>) {
    ghost predicate Valid() {
      && shared.Valid()
      && forall n :: n in templates && templates[n].Val? ==> templates[n].v.Valid()
    }
  }

  /** `isset($this->templateData[$name])`: stored and not null. */
  predicate HasTemplateData<V>(templates: map<string, Nullable<PArray<V>>>, name: string) {
    name in templates && templates[name].Val?
  }

  /** The data after `setData($data, $t)`. Shared data takes `array_merge`
      of old and new. For a name, an existing array is first reset to `[]`
      and then merged with the data; a missing or null entry is merged as
      null, and `array_merge` with a non-array argument yields null. An
      array of arguments applies each in turn; anything else does nothing. */
  function AfterSetData<V>(s: Store<V>, data: PArray<V>, t: TemplateArg): (r: Store<V>)
    requires s.Valid() && data.Valid()
    ensures r.Valid()
    decreases t
  {
    match t
    case NullArg => s.(shared := Merge(s.shared, data))
    case NameArg(n) =>
      var stored := if HasTemplateData(s.templates, n) then Val(Merge(Empty(), data)) else Null;
      s.(templates := s.templates[n := stored])
    case ListArg(items) => AfterEach(s, data, items)
    case OtherArg => s
  }

  /** `setData($data, $t)` for each `$t` of a list, in order. */
  function AfterEach<V>(s: Store<V>, data: PArray<V>, items: seq<TemplateArg>): (r: Store<V>)
    requires s.Valid() && data.Valid()
    ensures r.Valid()
    decreases items
  {
    if items == [] then s
    else AfterSetData(AfterEach(s, data, items[..|items| - 1]), data, items[|items| - 1])
  }

  /** Every stored template entry is null. */
  predicate AllUnset<V>(templates: map<string, Nullable<PArray<V>>>) {
    forall n :: n in templates ==> templates[n] == Null
  }

  /** `setData` into the shared data: the templates are untouched; a string
      key ends up with the new value when the data has it and keeps its old
      value otherwise. */
  lemma SetSharedData<V>(s: Store<V>, data: PArray<V>, key: string)
    requires s.Valid() && data.Valid()
    ensures var r := AfterSetData(s, data, NullArg);
      && r.templates == s.templates
      && (StrKey(key) in r.shared.vals <==> StrKey(key) in s.shared.vals || StrKey(key) in data.vals)
      && (StrKey(key) in data.vals ==> r.shared.vals[StrKey(key)] == data.vals[StrKey(key)])
      && (StrKey(key) in s.shared.vals && StrKey(key) !in data.vals ==>
          r.shared.vals[StrKey(key)] == s.shared.vals[StrKey(key)])
  {
    MergeLaterWins(s.shared, data, key);
  }

  /** While no template holds data (as after construction), `setData` never
      gives one any: the entry it writes for a name is null. */
  lemma {:induction false} TemplatesStayUnset<V>(s: Store<V>, data: PArray<V>, t: TemplateArg)
    requires s.Valid() && data.Valid() && AllUnset(s.templates)
    ensures AllUnset(AfterSetData(s, data, t).templates)
    decreases t
  {
    match t
    case NullArg =>
    case NameArg(n) =>
    case ListArg(items) =>
      EachStaysUnset(s, data, items);
    case OtherArg =>
  }

  lemma {:induction false} EachStaysUnset<V>(s: Store<V>, data: PArray<V>, items: seq<TemplateArg>)
    requires s.Valid() && data.Valid() && AllUnset(s.templates)
    ensures AllUnset(AfterEach(s, data, items).templates)
    decreases items
  {
    if items != [] {
      var init := items[..|items| - 1];
      EachStaysUnset(s, data, init);
      TemplatesStayUnset(AfterEach(s, data, init), data, items[|items| - 1]);
    }
  }

  /** `setData($data, [$a, $b, ...])` with template names only: shared data
      is untouched, and the stored names are the old ones plus those listed. */
  lemma {:induction false} SetDataForNames<V>(s: Store<V>, data: PArray<V>, items: seq<TemplateArg>, n: string)
    requires s.Valid() && data.Valid()
    requires forall i :: 0 <= i < |items| ==> items[i].NameArg?
    ensures AfterEach(s, data, items).shared == s.shared
    ensures n in AfterEach(s, data, items).templates <==>
      n in s.templates || exists i :: 0 <= i < |items| && items[i] == NameArg(n)
    decreases items
  {
    if items != [] {
      var init := items[..|items| - 1];
      assert forall i :: 0 <= i < |init| ==> init[i] == items[i];
      SetDataForNames(s, data, init, n);
      if n in AfterEach(s, data, items).templates && n !in s.templates {
        if items[|items| - 1] != NameArg(n) {
          var i :| 0 <= i < |init| && init[i] == NameArg(n);
          assert items[i] == NameArg(n);
        }
      }
    }
  }

  /** `array_merge` on every string key at once. */
  lemma MergeStrings<V>(a: PArray<V>, b: PArray<V>)
    requires a.Valid() && b.Valid()
    ensures forall s :: StrKey(s) in Merge(a, b).vals <==> StrKey(s) in a.vals || StrKey(s) in b.vals
    ensures forall s :: StrKey(s) in b.vals ==> Merge(a, b).vals[StrKey(s)] == b.vals[StrKey(s)]
    ensures forall s :: StrKey(s) in a.vals && StrKey(s) !in b.vals ==> Merge(a, b).vals[StrKey(s)] == a.vals[StrKey(s)]
  {
    forall s
      ensures StrKey(s) in Merge(a, b).vals <==> StrKey(s) in a.vals || StrKey(s) in b.vals
      ensures StrKey(s) in b.vals ==> Merge(a, b).vals[StrKey(s)] == b.vals[StrKey(s)]
      ensures StrKey(s) in a.vals && StrKey(s) !in b.vals ==> Merge(a, b).vals[StrKey(s)] == a.vals[StrKey(s)]
    {
      MergeLaterWins(a, b, s);
    }
  }

  class View<V> {
    var directory: string
    var sharedData: PArray<V>
    var templateData: map<string, Nullable<PArray<V>>>

    ghost predicate Valid()
      reads this
    {
      IsDirectoryPath(directory) && Snapshot().Valid()
    }

    function Snapshot(): Store<V>
      reads this
    {
      Store(sharedData, templateData)
    }

    /** `new View($directory)`: the directory normalised, no data. */
    constructor (dir: string)
      ensures Valid() && directory == DirectoryPath(dir)
      ensures sharedData == Empty() && templateData == map[]
    {
      directory := DirectoryPath(dir);
      sharedData := Empty();
      templateData := map[];
    }

    /** `setDirectory`: the directory normalised; the data stays. */
    method SetDirectory(dir: string)
      requires Valid()
      modifies this
      ensures Valid() && directory == DirectoryPath(dir)
      ensures Snapshot() == old(Snapshot())
    {
      directory := DirectoryPath(dir);
    }

    /** `getDirectory`: always a normalised directory. */
    function GetDirectory(): (r: string)
      reads this
      requires Valid()
      ensures IsDirectoryPath(r) && DirectoryPath(r) == r
    {
      DirectoryPathStable(directory);
      directory
    }

    /** `setData($data, $templates)`; returns the view itself, for chaining. */
    method SetData(data: PArray<V>, templates: TemplateArg) returns (self: View<V>)
      requires Valid() && data.Valid()
      modifies this
      ensures self == this
      ensures Valid() && directory == old(directory)
      ensures Snapshot() == AfterSetData(old(Snapshot()), data, templates)
      decreases templates, 1
    {
      self := this;
      match templates
      case NullArg =>
        sharedData := Merge(sharedData, data);
      case NameArg(n) =>
        SetTemplateData(data, n);
      case ListArg(items) =>
        SetEach(data, items);
      case OtherArg =>
    }

    /** `setData($data, $name)`: an entry that holds data is first reset to
        `[]`; then the entry, read as null when undefined, is merged with the
        data. */
    method SetTemplateData(data: PArray<V>, n: string)
      requires Valid() && data.Valid()
      modifies this
      ensures Valid() && directory == old(directory)
      ensures Snapshot() == AfterSetData(old(Snapshot()), data, NameArg(n))
    {
      if HasTemplateData(templateData, n) {
        templateData := templateData[n := Val(Empty())];
      }
      // An undefined index reads as null.
      var stored: Nullable<PArray<V>> := if n in templateData then templateData[n] else Null;
      templateData := templateData[n := if stored.Val? then Val(Merge(stored.v, data)) else Null];
    }

    /** `setData($data, [$t1, $t2, ...])`: each argument in turn. */
    method SetEach(data: PArray<V>, items: seq<TemplateArg>)
      requires Valid() && data.Valid()
      modifies this
      ensures Valid() && directory == old(directory)
      ensures Snapshot() == AfterEach(old(Snapshot()), data, items)
      decreases items, 0
    {
      var i := 0;
      while i < |items|
        invariant 0 <= i <= |items|
        invariant Valid() && directory == old(directory)
        invariant Snapshot() == AfterEach(old(Snapshot()), data, items[..i])
      {
        assert items[..i + 1][..i] == items[..i];
        assert items[i] in items;
        var _ := SetData(data, items[i]);
        i := i + 1;
      }
      assert items[..|items|] == items;
    }

    /** `getData($template)`: the shared data for null; for a name with
        stored data, the shared data merged with it (the template's values
        win on string keys, and integer keys are renumbered with the shared
        data's values first); for a name without, the shared data; otherwise `[]`. */
    function GetData(template: TemplateArg): (r: PArray<V>)
      reads this
      requires Valid()
      ensures r.Valid()
      ensures template.NullArg? ==> r == sharedData
      ensures template.NameArg? && !HasTemplateData(templateData, template.name) ==> r == sharedData
      ensures template.NameArg? && HasTemplateData(templateData, template.name) ==>
        var own := templateData[template.name].v;
        && (forall s :: StrKey(s) in r.vals <==> StrKey(s) in sharedData.vals || StrKey(s) in own.vals)
        && (forall s :: StrKey(s) in own.vals ==> r.vals[StrKey(s)] == own.vals[StrKey(s)])
        && (forall s :: StrKey(s) in sharedData.vals && StrKey(s) !in own.vals ==>
            r.vals[StrKey(s)] == sharedData.vals[StrKey(s)])
        && (forall n :: IntKey(n) in r.vals <==> 0 <= n < IntCount(sharedData.keys) + IntCount(own.keys))
        && (forall n :: 0 <= n < IntCount(sharedData.keys) + IntCount(own.keys) ==>
            r.vals[IntKey(n)] == (IntVals(sharedData.keys, sharedData.vals) + IntVals(own.keys, own.vals))[n])
      ensures template.ListArg? || template.OtherArg? ==> r == Empty()
    {
      match template
      case NullArg => sharedData
      case NameArg(n) =>
        if HasTemplateData(templateData, n) then
          MergeStrings(sharedData, templateData[n].v);
          MergeRenumbers(sharedData, templateData[n].v);
          Merge(sharedData, templateData[n].v)
        else sharedData
      case _ => Empty()
    }
  }

  /** What the repository's views rely on: since a fresh view stores no
      template data and `setData` never stores any, `getData($name)` is
      always the shared data. */
  lemma TemplateDataHidden<V>(v: View<V>, name: string)
    requires v.Valid() && AllUnset(v.templateData)
    ensures v.GetData(NameArg(name)) == v.sharedData
  {
  }
}
