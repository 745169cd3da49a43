// Gear\Core\Autoloader: a PSR-4 style class loader. Namespace prefixes are
// stored normalised (no backslash at either end, then exactly one '\'), each
// with the list of its base directories (each ending in exactly one '/') in
// registration order. A class name is resolved by trying its namespace
// prefixes from the longest to the shortest; for a registered prefix the
// first base directory whose candidate file exists wins.
//
// Whether a file exists is the set `files` handed to the lookups; the
// directory separator is '/'.
module Autoload {
  import opened Php
  import opened PhpString
  import opened Table

  /** The base-directory argument of `addNamespace`: one directory (a null
      one is the empty string) or a list of directories. */
  datatype BaseDir = One(dir: string) | Many(dirs: seq<string>)

  /** The first argument of `addNamespace`: a prefix with its base
      directories, or an array mapping prefixes to base directories. */
  datatype Namespaces =
    | Single(prefix: string, base: BaseDir)
    | Mapping(entries: seq<(string, BaseDir)>)

  /** `trim(prefix, '\\') . '\\'` */
  function NormPrefix(p: string): (r: string)
    ensures |r| >= 1 && r[|r| - 1] == '\\'
    ensures |r| == 1 || (r[0] != '\\' && r[|r| - 2] != '\\')
    ensures |r| <= |p| + 1
  {
    var t := Trim(p, '\\');
    var r := t + "\\";
    assert t != [] ==> r[0] == t[0] && r[|r| - 2] == t[|t| - 1];
    r
  }

  /** Before its final `\`, the normalised prefix is the argument with its
      leading and trailing runs of `\` removed. */
  lemma NormPrefixMeaning(p: string)
    ensures var r := NormPrefix(p); TrimmedFrom(p, '\\', r[..|r| - 1])
  {
    var t := Trim(p, '\\');
    TrimMeaning(p, '\\');
    assert (t + "\\")[..|t|] == t;
  }

  /** Normalising an already normalised prefix changes nothing. */
  lemma {:induction false} NormPrefixIdempotent(p: string)
    ensures NormPrefix(NormPrefix(p)) == NormPrefix(p)
  {
    var t := Trim(p, '\\');
    var n := t + "\\";
    assert n[..|n| - 1] == t;
    assert t == [] || t[|t| - 1] != '\\';
    assert TrimRight(t, '\\') == t;
    assert TrimRight(n, '\\') == t;
    assert t == [] || t[0] != '\\';
    assert TrimLeft(t, '\\') == t;
  }

  /** The normalised base directories an argument contributes, in order. */
  function Dirs(b: BaseDir): (r: seq<string>)
    ensures b.One? ==> r == [DirectoryPath(b.dir)]
    ensures b.Many? ==> |r| == |b.dirs| && forall i :: 0 <= i < |r| ==> r[i] == DirectoryPath(b.dirs[i])
  {
    match b
    case One(d) => [DirectoryPath(d)]
    case Many(ds) => MapSeq(DirectoryPath, ds)
  }

  /** The table entry one (prefix, base) argument pair registers. */
  function Registration(e: (string, BaseDir)): (string, seq<string>) {
    (NormPrefix(e.0), Dirs(e.1))
  }

  /** The prefix table after registering base directories for one prefix:
      the prefix's list gains the normalised directories at its end and no
      other prefix changes. */
  function WithDirs(m: map<string, seq<string>>, prefix: string, b: BaseDir): (r: map<string, seq<string>>)
    ensures r.Keys == m.Keys + {NormPrefix(prefix)}
    ensures r[NormPrefix(prefix)] == ListAt(m, NormPrefix(prefix)) + Dirs(b)
    ensures forall k :: k in m && k != NormPrefix(prefix) ==> r[k] == m[k]
  {
    Extend(m, NormPrefix(prefix), Dirs(b))
  }

  /** The prefix table after one `addNamespace` call. */
  function Registered(m: map<string, seq<string>>, ns: Namespaces): map<string, seq<string>> {
    match ns
    case Single(p, b) => WithDirs(m, p, b)
    case Mapping(es) => ExtendAll(m, MapSeq(Registration, es))
  }

  /** Registering a prefix map registers each entry in turn: a prefix is
      present afterwards exactly when it was before or some entry normalises
      to it; its list keeps its earlier directories and gains those of every
      entry for it, in order; an untouched prefix keeps its list. */
  lemma MappingRegistersEach(m: map<string, seq<string>>, es: seq<(string, BaseDir)>, key: string)
    ensures var r := Registered(m, Mapping(es));
      && (key in r <==> key in m || exists i :: 0 <= i < |es| && NormPrefix(es[i].0) == key)
      && ListAt(r, key) == ListAt(m, key) + ItemsFor(MapSeq(Registration, es), key)
      && ((forall i :: 0 <= i < |es| ==> NormPrefix(es[i].0) != key) ==> ListAt(r, key) == ListAt(m, key))
  {
    MappingKeys(m, es, key);
    MappingItems(m, es, key);
    if forall i :: 0 <= i < |es| ==> NormPrefix(es[i].0) != key {
      MappingUntouched(m, es, key);
    }
  }

  lemma MappingKeys(m: map<string, seq<string>>, es: seq<(string, BaseDir)>, key: string)
    ensures key in Registered(m, Mapping(es)) <==> key in m || exists i :: 0 <= i < |es| && NormPrefix(es[i].0) == key
  {
    var regs := MapSeq(Registration, es);
    ExtendAllKeys(m, regs, key);
    assert forall i :: 0 <= i < |es| ==> regs[i].0 == NormPrefix(es[i].0);
  }

  lemma MappingItems(m: map<string, seq<string>>, es: seq<(string, BaseDir)>, key: string)
    ensures ListAt(Registered(m, Mapping(es)), key) == ListAt(m, key) + ItemsFor(MapSeq(Registration, es), key)
  {
    ExtendAllItems(m, MapSeq(Registration, es), key);
  }

  lemma MappingUntouched(m: map<string, seq<string>>, es: seq<(string, BaseDir)>, key: string)
    requires forall i :: 0 <= i < |es| ==> NormPrefix(es[i].0) != key
    ensures ListAt(Registered(m, Mapping(es)), key) == ListAt(m, key)
  {
    var regs := MapSeq(Registration, es);
    assert forall i :: 0 <= i < |es| ==> regs[i].0 == NormPrefix(es[i].0);
    NoneForKey(regs, key);
    MappingItems(m, es, key);
    assert ListAt(m, key) + [] == ListAt(m, key);
  }

  /** The file a base directory offers for a relative class name. */
  function Candidate(dir: string, rel: string): (r: string)
    ensures |r| >= |dir| + 4 && r[..|dir|] == dir && r[|r| - 4..] == ".php"
  {
    dir + ReplaceAll(rel, "\\", "/") + ".php"
  }

  /** The first directory, in order, whose candidate file exists. */
  function FirstFound(dirs: seq<string>, rel: string, files: set<string>): (r: Option<string>)
    ensures r.None? <==> forall i :: 0 <= i < |dirs| ==> Candidate(dirs[i], rel) !in files
    ensures r.Some? ==> exists i :: (0 <= i < |dirs| && r.value == Candidate(dirs[i], rel) &&
      forall j :: 0 <= j < i ==> Candidate(dirs[j], rel) !in files)
    ensures r.Some? ==> r.value in files
  {
    if dirs == [] then None
    else if Candidate(dirs[0], rel) in files then Some(Candidate(dirs[0], rel))
    else
      var r := FirstFound(dirs[1..], rel, files);
      assert forall i :: 1 <= i < |dirs| ==> dirs[i] == dirs[1..][i - 1];
      r
  }

  /** What `loadMappedFile(prefix, rel)` returns for a prefix table. */
  function Mapped(m: map<string, seq<string>>, prefix: string, rel: string, files: set<string>): (r: Option<string>)
    ensures r.Some? ==> prefix in m && r.value in files
    ensures r.None? <==> prefix !in m || forall i :: 0 <= i < |m[prefix]| ==> Candidate(m[prefix][i], rel) !in files
  {
    if prefix !in m then None else FirstFound(m[prefix], rel, files)
  }

  /** A file found for a registered prefix is the candidate of the first of
      its directories whose candidate exists. */
  lemma MappedFirst(m: map<string, seq<string>>, prefix: string, rel: string, files: set<string>)
    ensures var r := Mapped(m, prefix, rel, files);
      r.Some? ==> exists i :: (0 <= i < |m[prefix]| && r.value == Candidate(m[prefix][i], rel) &&
        forall j :: 0 <= j < i ==> Candidate(m[prefix][j], rel) !in files)
  {
  }

  /** `q` ends a run of backslashes in `name`: these are exactly the
      positions `loadClass` splits the name at. */
  predicate RunEnd(name: string, q: int) {
    0 <= q < |name| && name[q] == '\\' && (q + 1 == |name| || name[q + 1] != '\\')
  }

  /** The outcome of trying the split of `name` after position `q`. */
  function TryAt(m: map<string, seq<string>>, name: string, q: nat, files: set<string>): Option<string>
    requires q < |name|
  {
    Mapped(m, name[..q + 1], name[q + 1..], files)
  }

  /** No split of `name` at or after `from` finds a file. */
  ghost predicate NoneFrom(m: map<string, seq<string>>, name: string, from: nat, files: set<string>) {
    forall q :: from <= q && RunEnd(name, q) ==> TryAt(m, name, q, files).None?
  }

  /** One step of `loadClass` back to a shorter prefix: the split at `pos`
      found nothing, and no other run ends between `lo` and `upto`. */
  lemma NoneFromStep(m: map<string, seq<string>>, name: string, lo: nat, pos: nat, upto: nat, files: set<string>)
    requires lo <= pos < upto && RunEnd(name, pos) && TryAt(m, name, pos, files).None?
    requires NoneFrom(m, name, upto, files)
    requires forall q :: lo <= q < pos ==> !RunEnd(name, q)
    requires forall q :: pos < q < upto ==> !RunEnd(name, q)
    ensures NoneFrom(m, name, lo, files)
  {
  }

  /** A split at `pos` that finds a file, when no later split does, is the
      split `loadClass` answers with. */
  lemma FoundAt(m: map<string, seq<string>>, name: string, pos: nat, upto: nat, files: set<string>)
    requires RunEnd(name, pos) && pos < upto && Mapped(m, name[..pos + 1], name[pos + 1..], files).Some?
    requires NoneFrom(m, name, upto, files)
    requires forall q :: pos < q < upto ==> !RunEnd(name, q)
    ensures exists q :: RunEnd(name, q) && TryAt(m, name, q, files).Some?
    ensures exists q :: (RunEnd(name, q) && Mapped(m, name[..pos + 1], name[pos + 1..], files) == TryAt(m, name, q, files) &&
      forall q2 :: q < q2 && RunEnd(name, q2) ==> TryAt(m, name, q2, files).None?)
  {
    assert TryAt(m, name, pos, files) == Mapped(m, name[..pos + 1], name[pos + 1..], files);
    assert forall q2 :: pos < q2 && RunEnd(name, q2) ==> TryAt(m, name, q2, files).None?;
  }

  /** When the split at `pos` finds nothing, `loadClass` goes on with the
      name cut before the run of backslashes that ends at `pos`, and no
      split from there on finds a file. */
  lemma StepBack(m: map<string, seq<string>>, name: string, pos: nat, upto: nat, files: set<string>)
    requires RunEnd(name, pos) && pos < upto && Mapped(m, name[..pos + 1], name[pos + 1..], files).None?
    requires NoneFrom(m, name, upto, files)
    requires forall q :: pos < q < upto ==> !RunEnd(name, q)
    ensures var t := TrimRight(name[..pos + 1], '\\');
      && |t| <= pos && t == name[..|t|]
      && (|t| == 0 || name[|t| - 1] != '\\')
      && NoneFrom(m, name, |t|, files)
  {
    SeparatorRun(name, pos);
    var t := TrimRight(name[..pos + 1], '\\');
    NoneFromStep(m, name, |t|, pos, upto, files);
  }

  /** The last `\\` before `upto` ends a run, and no run ends after it. */
  lemma LastSeparator(name: string, upto: nat, pos: nat)
    requires upto <= |name| && (upto == |name| || upto == 0 || name[upto - 1] != '\\')
    requires pos < upto && name[pos] == '\\'
    requires forall j :: pos < j < upto ==> name[..upto][j] != '\\'
    ensures RunEnd(name, pos)
    ensures forall q :: pos < q < upto ==> !RunEnd(name, q)
  {
    assert forall j :: pos < j < upto ==> name[j] == name[..upto][j];
  }

  /** Trimming the backslashes that end `name[..pos + 1]` skips a run that
      holds no other run end, and leaves a prefix not ending in `\\`. */
  lemma SeparatorRun(name: string, pos: nat)
    requires pos < |name| && name[pos] == '\\'
    ensures var t := TrimRight(name[..pos + 1], '\\');
      && |t| <= pos && t == name[..|t|]
      && (|t| == 0 || name[|t| - 1] != '\\')
      && forall q :: |t| <= q < pos ==> !RunEnd(name, q)
  {
    var p := name[..pos + 1];
    var t := TrimRight(p, '\\');
    assert forall i :: |t| <= i <= pos ==> name[i] == p[i] == '\\';
    assert forall i :: 0 <= i < |t| ==> name[i] == p[i];
  }

  class Autoloader {
    /** namespace prefix -> base directories, in registration order */
    var prefixes: map<string, seq<string>>

    /** `new Autoloader($prefixes, $baseDir)` */
    constructor (ns: Namespaces)
      ensures prefixes == Registered(map[], ns)
    {
      prefixes := map[];
      new;
      var _ := AddNamespace(ns);
    }

    /** `addNamespace` with a prefix string: create the prefix's list if
        missing, then append each normalised directory. */
    method AddPrefix(prefix: string, b: BaseDir)
      modifies this
      ensures prefixes == WithDirs(old(prefixes), prefix, b)
      decreases if b.Many? then 2 else 0
    {
      var key := NormPrefix(prefix);
      if key !in prefixes {
        prefixes := prefixes[key := []];
      }
      ExtendEmpty(old(prefixes), key);
      assert prefixes == Extend(old(prefixes), key, []);
      match b {
        case One(d) =>
          prefixes := prefixes[key := prefixes[key] + [DirectoryPath(d)]];
          ExtendTwice(old(prefixes), key, [], [DirectoryPath(d)]);
          assert [] + [DirectoryPath(d)] == [DirectoryPath(d)];
        case Many(ds) =>
          AddDirs(prefix, ds);
          ExtendTwice(old(prefixes), key, [], MapSeq(DirectoryPath, ds));
          assert [] + MapSeq(DirectoryPath, ds) == MapSeq(DirectoryPath, ds);
      }
    }

    /** The loop over an array of base directories: each is registered in
        turn under the normalised prefix. */
    method AddDirs(prefix: string, ds: seq<string>)
      requires NormPrefix(prefix) in prefixes
      modifies this
      ensures prefixes == Extend(old(prefixes), NormPrefix(prefix), MapSeq(DirectoryPath, ds))
      decreases 1
    {
      var key := NormPrefix(prefix);
      NormPrefixIdempotent(prefix);
      var i := 0;
      assert MapSeq(DirectoryPath, ds[..0]) == [];
      ExtendEmpty(old(prefixes), key);
      while i < |ds|
        invariant 0 <= i <= |ds|
        invariant prefixes == Extend(old(prefixes), key, MapSeq(DirectoryPath, ds[..i]))
      {
        ghost var before := prefixes;
        AddPrefix(key, One(ds[i]));
        assert prefixes == Extend(before, key, [DirectoryPath(ds[i])]);
        ExtendTwice(old(prefixes), key, MapSeq(DirectoryPath, ds[..i]), [DirectoryPath(ds[i])]);
        MapSeqSnoc(DirectoryPath, ds, i);
        i := i + 1;
      }
      assert ds[..|ds|] == ds;
    }

    /** `addNamespace`: an array of prefixes registers each entry in turn.
        Returns the loader itself, for chaining. */
    method AddNamespace(ns: Namespaces) returns (self: Autoloader)
      modifies this
      ensures self == this
      ensures prefixes == Registered(old(prefixes), ns)
    {
      self := this;
      match ns {
        case Single(p, b) =>
          AddPrefix(p, b);
        case Mapping(es) =>
          var i := 0;
          assert MapSeq(Registration, es[..0]) == [];
          while i < |es|
            invariant 0 <= i <= |es|
            invariant prefixes == ExtendAll(old(prefixes), MapSeq(Registration, es[..i]))
          {
            AddPrefix(es[i].0, es[i].1);
            MapSeqSnoc(Registration, es, i);
            ghost var regs := MapSeq(Registration, es[..i + 1]);
            assert regs[..|regs| - 1] == MapSeq(Registration, es[..i]);
            i := i + 1;
          }
          assert es[..|es|] == es;
      }
    }

    /** `loadMappedFile`: the first existing candidate among the prefix's
        base directories, or false. */
    method LoadMappedFile(prefix: string, rel: string, files: set<string>) returns (r: Option<string>)
      ensures r == Mapped(prefixes, prefix, rel, files)
    {
      if prefix !in prefixes {
        return None;
      }
      var dirs := prefixes[prefix];
      var i := 0;
      while i < |dirs|
        invariant 0 <= i <= |dirs|
        invariant FirstFound(dirs, rel, files) == FirstFound(dirs[i..], rel, files)
      {
        var file := Candidate(dirs[i], rel);
        if file in files {
          return Some(file);
        }
        assert dirs[i..][1..] == dirs[i + 1..];
        i := i + 1;
      }
      return None;
    }

    /** `loadClass`: splits the name after each run of backslashes, from the
        last to the first, and returns the first mapped file found. A name
        without a backslash, or with no registered prefix, or with no
        existing candidate, gives false. */
    method LoadClass(name: string, files: set<string>) returns (r: Option<string>)
      ensures r.Some? ==> r.value in files
      ensures '\\' !in name ==> r.None?
      ensures r.Some? <==> exists q :: RunEnd(name, q) && TryAt(prefixes, name, q, files).Some?
      ensures r.Some? ==> exists q :: (RunEnd(name, q) && r == TryAt(prefixes, name, q, files) &&
        forall q2 :: q < q2 && RunEnd(name, q2) ==> TryAt(prefixes, name, q2, files).None?)
    {
      var prefix := name;
      ghost var upto := |name|;
      while LastIndex(prefix, '\\').Some?
        invariant 0 <= upto <= |name| && prefix == name[..upto]
        invariant upto == |name| || upto == 0 || name[upto - 1] != '\\'
        invariant NoneFrom(prefixes, name, upto, files)
        decreases |prefix|
      {
        var pos := LastIndex(prefix, '\\').value;
        LastSeparator(name, upto, pos);
        var mf := LoadMappedFile(name[..pos + 1], name[pos + 1..], files);
        if mf.Some? {
          r := mf;
          FoundAt(prefixes, name, pos, upto, files);
          return;
        }
        prefix := TrimRight(name[..pos + 1], '\\');
        StepBack(prefixes, name, pos, upto, files);
        upto := |prefix|;
      }
      assert forall q :: 0 <= q < upto ==> name[q] == prefix[q] != '\\';
      assert NoneFrom(prefixes, name, 0, files);
      return None;
    }
  }
}
