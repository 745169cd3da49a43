// The PHP string built-ins the framework relies on, each with the behaviour
// PHP gives it on byte strings: trim/rtrim with a one-character list,
// str_replace, strrpos, strtolower, dirname and empty().
module PhpString {
  import opened Php

  /** `rtrim(s, c)`: drops every trailing `c`. */
  function TrimRight(s: string, c: char): (r: string)
    ensures |r| <= |s| && r == s[..|r|]
    ensures r == [] || r[|r| - 1] != c
    ensures forall i :: |r| <= i < |s| ==> s[i] == c
  {
    if s == [] || s[|s| - 1] != c then s else TrimRight(s[..|s| - 1], c)
  }

  /** `ltrim(s, c)`: drops every leading `c`. */
  function TrimLeft(s: string, c: char): (r: string)
    ensures |r| <= |s| && r == s[|s| - |r|..]
    ensures r == [] || r[0] != c
    ensures forall i :: 0 <= i < |s| - |r| ==> s[i] == c
  {
    if s == [] || s[0] != c then s else TrimLeft(s[1..], c)
  }

  /** `trim(s, c)`: drops `c` from both ends. */
  function Trim(s: string, c: char): (r: string)
    ensures |r| <= |s|
    ensures r == [] || (r[0] != c && r[|r| - 1] != c)
    ensures r == [] <==> forall i :: 0 <= i < |s| ==> s[i] == c
  {
    var t := TrimRight(s, c);
    assert t == [] ==> forall i :: 0 <= i < |s| ==> s[i] == c;
    TrimLeft(t, c)
  }

  /** What `trim` removes is exactly the leading and trailing runs of `c`. */
  lemma TrimMeaning(s: string, c: char)
    ensures TrimmedFrom(s, c, Trim(s, c))
  {
    var t := TrimRight(s, c);
    var r := TrimLeft(t, c);
    var a := |t| - |r|;
    assert s[a..a + |r|] == r;
    assert TrimmedAt(s, c, r, a);
  }

  /** `r` is `s` with its leading and trailing runs of `c` removed: `s` is
      some `c`s, then `r`, then some `c`s, and `r` neither starts nor ends
      with `c`. */
  ghost predicate TrimmedFrom(s: string, c: char, r: string) {
    && (r == [] || (r[0] != c && r[|r| - 1] != c))
    && exists a :: TrimmedAt(s, c, r, a)
  }

  /** `s` is `a` copies of `c`, then `r`, then only `c`s. */
  ghost predicate TrimmedAt(s: string, c: char, r: string, a: int) {
    && 0 <= a <= |s| - |r| && s[a..a + |r|] == r
    && (forall i :: 0 <= i < a ==> s[i] == c)
    && (forall i :: a + |r| <= i < |s| ==> s[i] == c)
  }

  /** That description leaves no choice: it holds only of `trim`'s result. */
  lemma TrimmedFromUnique(s: string, c: char, r: string)
    requires TrimmedFrom(s, c, r)
    ensures r == Trim(s, c)
  {
    var a :| TrimmedAt(s, c, r, a);
    if r == [] {
      assert forall i :: 0 <= i < |s| ==> s[i] == c;
    } else {
      var t := Trim(s, c);
      TrimMeaning(s, c);
      var b :| TrimmedAt(s, c, t, b);
      SameCore(s, c, r, a, t, b);
    }
  }

  /** Two ways of writing a string with a non-empty core as `c`s, core,
      `c`s, where neither core starts or ends with `c`, have the same core. */
  lemma SameCore(s: string, c: char, r: string, a: int, t: string, b: int)
    requires TrimmedAt(s, c, r, a) && TrimmedAt(s, c, t, b)
    requires r != [] && r[0] != c && r[|r| - 1] != c
    requires t == [] || (t[0] != c && t[|t| - 1] != c)
    ensures r == t
  {
    assert s[a] == s[a..a + |r|][0];
    assert s[a + |r| - 1] == s[a..a + |r|][|r| - 1];
    assert t != [];
    assert s[b] == s[b..b + |t|][0];
    assert s[b + |t| - 1] == s[b..b + |t|][|t| - 1];
    assert a == b;
    assert a + |r| == b + |t|;
  }

  /** A string with no `c` at either end is left alone by `trim`. */
  lemma {:induction false} TrimUntouched(s: string, c: char)
    requires s == [] || (s[0] != c && s[|s| - 1] != c)
    ensures Trim(s, c) == s
  {
  }

  /** Trimming twice is trimming once. */
  lemma {:induction false} TrimIdempotent(s: string, c: char)
    ensures Trim(Trim(s, c), c) == Trim(s, c)
  {
    var r := Trim(s, c);
    assert r == [] || (r[0] != c && r[|r| - 1] != c);
    TrimUntouched(r, c);
  }

  /** One leading `c` before a string that does not start or end with `c` is what `trim` removes. */
  lemma TrimLeading(t: string, c: char)
    requires t != [] && t[0] != c && t[|t| - 1] != c
    ensures Trim([c] + t, c) == t
  {
    var s := [c] + t;
    assert s[|s| - 1] == t[|t| - 1];
    assert TrimRight(s, c) == s;
    assert s[1..] == t;
    assert TrimLeft(s, c) == TrimLeft(t, c);
  }

  /** `c` surrounding a string that does not start or end with `c` is exactly what `trim` removes. */
  lemma {:induction false} TrimWrapped(t: string, c: char)
    requires t == [] || (t[0] != c && t[|t| - 1] != c)
    ensures Trim([c] + t + [c], c) == t
  {
    var s := [c] + t + [c];
    var u := [c] + t;
    assert s[..|s| - 1] == u;
    assert TrimRight(s, c) == TrimRight(u, c);
    if t == [] {
      assert u[..|u| - 1] == [];
      assert TrimRight(u, c) == [];
    } else {
      assert u[|u| - 1] == t[|t| - 1];
      assert TrimRight(u, c) == u;
      assert u[1..] == t;
      assert TrimLeft(u, c) == TrimLeft(t, c);
    }
  }

  /** ASCII `strtolower` on one byte (PHP's C-locale behaviour). */
  function LowerChar(ch: char): char {
    if 'A' <= ch <= 'Z' then (ch as int + 32) as char else ch
  }

  /** `strtolower`. */
  function Lower(s: string): (r: string)
    ensures |r| == |s| && forall i :: 0 <= i < |s| ==> r[i] == LowerChar(s[i])
  {
    if s == [] then [] else [LowerChar(s[0])] + Lower(s[1..])
  }

  /** PHP's `empty()` on a string: true for "" and, notoriously, for "0". */
  predicate IsEmpty(s: string) {
    s == "" || s == "0"
  }

  /** `strrpos(s, c)`: the position of the last `c`, or false. */
  function LastIndex(s: string, c: char): (r: Option<nat>)
    ensures r.None? <==> c !in s
    ensures r.Some? ==> r.value < |s| && s[r.value] == c
    ensures r.Some? ==> forall j :: r.value < j < |s| ==> s[j] != c
  {
    if s == [] then None
    else if s[|s| - 1] == c then Some(|s| - 1)
    else
      var r := LastIndex(s[..|s| - 1], c);
      assert forall j :: 0 <= j < |s| - 1 ==> s[..|s| - 1][j] == s[j];
      r
  }

  /** True when `needle` occurs in `s` starting at position `i`. */
  predicate OccursAt(s: string, needle: string, i: nat) {
    i + |needle| <= |s| && s[i..i + |needle|] == needle
  }

  /** `str_replace(needle, rep, s)`: scans left to right and replaces every
      non-overlapping occurrence; an empty needle leaves `s` unchanged. */
  function ReplaceAll(s: string, needle: string, rep: string): (r: string)
    ensures needle == [] ==> r == s
    ensures |rep| == |needle| ==> |r| == |s|
    decreases |s|
  {
    if needle == [] || |s| < |needle| then s
    else if s[..|needle|] == needle then rep + ReplaceAll(s[|needle|..], needle, rep)
    else [s[0]] + ReplaceAll(s[1..], needle, rep)
  }

  /** `rtrim($dir, '/') . '/'`: the directory with its trailing slashes
      replaced by exactly one. */
  function DirectoryPath(dir: string): (r: string)
    ensures IsDirectoryPath(r)
    ensures |r| - 1 <= |dir| && r[..|r| - 1] == dir[..|r| - 1]
    ensures forall i :: |r| - 1 <= i < |dir| ==> dir[i] == '/'
  {
    var t := TrimRight(dir, '/');
    assert (t + "/")[..|t|] == t;
    t + "/"
  }

  /** A normalised directory: it ends in one '/', not two. */
  predicate IsDirectoryPath(d: string) {
    d != [] && d[|d| - 1] == '/' && (|d| == 1 || d[|d| - 2] != '/')
  }

  /** Normalising a normalised directory changes nothing. */
  lemma DirectoryPathStable(d: string)
    requires IsDirectoryPath(d)
    ensures DirectoryPath(d) == d
  {
    var init := d[..|d| - 1];
    assert TrimRight(d, '/') == TrimRight(init, '/');
    assert TrimRight(init, '/') == init;
    assert init + "/" == d;
  }

  /** A directory without a trailing slash gets one appended. */
  lemma DirectoryPathAppends(dir: string)
    requires dir != [] && dir[|dir| - 1] != '/'
    ensures DirectoryPath(dir) == dir + "/"
  {
  }

  /** A string in which the needle never occurs comes back unchanged. */
  lemma {:induction false} ReplaceAllAbsent(s: string, needle: string, rep: string)
    requires forall i :: 0 <= i <= |s| ==> !OccursAt(s, needle, i)
    ensures ReplaceAll(s, needle, rep) == s
  {
    if needle == [] || |s| < |needle| {
    } else {
      assert !OccursAt(s, needle, 0);
      assert s[..|needle|] != needle;
      forall i | 0 <= i <= |s[1..]|
        ensures !OccursAt(s[1..], needle, i)
      {
        assert !OccursAt(s, needle, i + 1);
        if i + |needle| <= |s[1..]| {
          assert s[1..][i..i + |needle|] == s[i + 1..i + 1 + |needle|];
        }
      }
      ReplaceAllAbsent(s[1..], needle, rep);
    }
  }

  /** Removing a one-character needle deletes every copy of it and keeps
      every other character with its multiplicity. */
  lemma {:induction false} RemoveCharDeletesAll(s: string, c: char)
    ensures c !in ReplaceAll(s, [c], "")
    ensures forall ch :: ch != c ==> multiset(ReplaceAll(s, [c], ""))[ch] == multiset(s)[ch]
  {
    if s == [] {
    } else {
      RemoveCharDeletesAll(s[1..], c);
      assert s == [s[0]] + s[1..];
      assert multiset(s) == multiset([s[0]]) + multiset(s[1..]);
      if s[..1] == [c] {
        assert ReplaceAll(s, [c], "") == ReplaceAll(s[1..], [c], "");
      } else {
        var t := ReplaceAll(s[1..], [c], "");
        assert ReplaceAll(s, [c], "") == [s[0]] + t;
        assert multiset([s[0]] + t) == multiset([s[0]]) + multiset(t);
      }
    }
  }

  /** Drops the last path component (everything after the last '/'). */
  function DropBasename(a: string): (r: string)
    ensures |r| <= |a| && r == a[..|r|]
    ensures r == [] || r[|r| - 1] == '/'
    ensures forall i :: |r| <= i < |a| ==> a[i] != '/'
  {
    if a == [] || a[|a| - 1] == '/' then a else DropBasename(a[..|a| - 1])
  }

  /** PHP's `dirname` on a '/'-separated path (zend_dirname): "" for "",
      "/" for a path of slashes only; otherwise the last component and the
      slashes around it are dropped, and what is left before them gives
      "." when it is empty, "/" when it is all slashes, and otherwise
      itself without its trailing slashes. */
  function Dirname(p: string): (r: string)
    ensures r == [] <==> p == []
    ensures r != [] && r != "/" && r != "." ==>
      |r| < |p| && r == p[..|r|] && p[|r|] == '/' && r[|r| - 1] != '/'
    ensures p != [] && AllSlashes(p) ==> r == "/"
    ensures !AllSlashes(p) ==> exists m, e :: LastComponent(p, m, e) && r == DirPart(p[..m])
  {
    if p == [] then []
    else
      var a := TrimRight(p, '/');
      if a == [] then "/"
      else
        var b := DropBasename(a);
        assert LastComponent(p, |b|, |a|);
        assert p[..|b|] == b;
        if b == [] then "."
        else
          var d := TrimRight(b, '/');
          assert d == [] <==> AllSlashes(b);
          if d == [] then "/" else d
  }

  /** Every character is '/'. */
  ghost predicate AllSlashes(q: string) {
    forall i :: 0 <= i < |q| ==> q[i] == '/'
  }

  /** `p[m..e]` is the last path component of `p`: it holds no '/', starts
      the path or follows a '/', and only slashes come after it. */
  ghost predicate LastComponent(p: string, m: int, e: int) {
    && 0 <= m < e <= |p|
    && (m == 0 || p[m - 1] == '/')
    && (forall i :: m <= i < e ==> p[i] != '/')
    && (forall i :: e <= i < |p| ==> p[i] == '/')
  }

  /** The directory named by what precedes the last component. */
  ghost function DirPart(q: string): string {
    if q == [] then "." else if AllSlashes(q) then "/" else TrimRight(q, '/')
  }

  /** Dropping a basename that holds no slash leaves the directory part. */
  lemma {:induction false} DropBasenameOf(dir: string, file: string)
    requires '/' !in file
    requires dir == [] || dir[|dir| - 1] == '/'
    ensures DropBasename(dir + file) == dir
    decreases |file|
  {
    if file != [] {
      var init := file[..|file| - 1];
      assert (dir + file)[..|dir + file| - 1] == dir + init;
      assert (dir + file)[|dir + file| - 1] == file[|file| - 1];
      DropBasenameOf(dir, init);
    } else {
      assert dir + file == dir;
    }
  }

  /** The directory of a script path "dir/file" is "dir", or "/" for a
      script at the root. */
  lemma DirnameOfScript(dir: string, file: string)
    requires file != [] && '/' !in file
    requires dir == [] || dir[|dir| - 1] != '/'
    ensures Dirname(dir + "/" + file) == if dir == [] then "/" else dir
  {
    var p := dir + "/" + file;
    assert p[|p| - 1] == file[|file| - 1];
    assert TrimRight(p, '/') == p;
    DropBasenameOf(dir + "/", file);
    var b := dir + "/";
    assert b[..|b| - 1] == dir;
    assert TrimRight(b, '/') == TrimRight(dir, '/');
    assert TrimRight(dir, '/') == dir;
  }

  /** An occurrence at the front is replaced and the scan goes on after it. */
  lemma ReplaceAllHead(needle: string, rest: string, rep: string)
    requires needle != []
    ensures ReplaceAll(needle + rest, needle, rep) == rep + ReplaceAll(rest, needle, rep)
  {
    var s := needle + rest;
    assert s[..|needle|] == needle;
    assert s[|needle|..] == rest;
  }

  /** A stretch in which no occurrence starts is copied unchanged. */
  lemma {:induction false} ReplaceAllSkip(a: string, b: string, needle: string, rep: string)
    requires needle != []
    requires forall i :: 0 <= i < |a| ==> !OccursAt(a + b, needle, i)
    ensures ReplaceAll(a + b, needle, rep) == a + ReplaceAll(b, needle, rep)
    decreases |a|
  {
    if a != [] {
      var s := a + b;
      var t := a[1..] + b;
      assert s[1..] == t;
      forall i | 0 <= i < |a[1..]|
        ensures !OccursAt(t, needle, i)
      {
        assert !OccursAt(s, needle, i + 1);
        if i + |needle| <= |t| {
          assert t[i..i + |needle|] == s[i + 1..i + 1 + |needle|];
        }
      }
      ReplaceAllSkip(a[1..], b, needle, rep);
      if |s| < |needle| {
        assert ReplaceAll(t, needle, rep) == t;
        assert ReplaceAll(b, needle, rep) == b;
      } else {
        assert !OccursAt(s, needle, 0);
        assert s[..|needle|] != needle;
        assert ReplaceAll(s, needle, rep) == [a[0]] + ReplaceAll(t, needle, rep);
      }
      var r := ReplaceAll(b, needle, rep);
      assert ReplaceAll(s, needle, rep) == [a[0]] + (a[1..] + r);
      assert [a[0]] + (a[1..] + r) == ([a[0]] + a[1..]) + r;
      assert [a[0]] + a[1..] == a;
    } else {
      assert a + b == b;
    }
  }

  /** No occurrence can start at a character other than the needle's first. */
  lemma NoOccurrenceBefore(a: string, b: string, needle: string)
    requires needle != [] && needle[0] !in a
    ensures forall i :: 0 <= i < |a| ==> !OccursAt(a + b, needle, i)
  {
    forall i | 0 <= i < |a|
      ensures !OccursAt(a + b, needle, i)
    {
      if i + |needle| <= |a + b| {
        assert (a + b)[i..i + |needle|][0] == a[i];
      }
    }
  }
}
