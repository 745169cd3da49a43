// The route path language of Gear\Routing\Route. A path is literal text in
// which `:name` (a colon and a maximal run of word characters) marks a
// placeholder. Matching turns the path into the regular expression
// `#^path$#i` with each placeholder replaced by its constraint group, or by
// `([^/]+)` when it has none, and asks PCRE for a match.
//
// Here a path is compiled to a list of segments (one literal character, or
// a placeholder), and the match is a recursive search that tries the
// longest capture first, as PCRE does for `([^/]+)` (see `Search`). What a
// constraint accepts is decided by an `Engine`, standing for PCRE on the
// constraint's own text.
module Pattern {
  import opened Php
  import opened PhpString

  datatype Segment = Lit(c: char) | Param(name: string)

  /** `\w` of PCRE without Unicode support: ASCII letters, digits, '_'. */
  predicate IsWord(c: char) {
    'a' <= c <= 'z' || 'A' <= c <= 'Z' || '0' <= c <= '9' || c == '_'
  }

  /** The length of the longest run of word characters at the start of `s`. */
  function WordRun(s: string): (n: nat)
    ensures n <= |s|
    ensures forall i :: 0 <= i < n ==> IsWord(s[i])
    ensures n == |s| || !IsWord(s[n])
  {
    if s == [] || !IsWord(s[0]) then 0 else 1 + WordRun(s[1..])
  }

  /** What `preg_replace_callback('#:([\w]+)#', ...)` sees in a path: each
      `:` followed by word characters starts a placeholder that takes the
      whole run; every other character is literal. */
  function Compile(p: string): (r: seq<Segment>)
    decreases |p|
  {
    if p == [] then []
    else if p[0] == ':' && WordRun(p[1..]) > 0 then
      var n := WordRun(p[1..]);
      [Param(p[1..1 + n])] + Compile(p[1 + n..])
    else [Lit(p[0])] + Compile(p[1..])
  }

  /** The path text a segment stands for. */
  function Text(seg: Segment): string {
    match seg
    case Lit(c) => [c]
    case Param(n) => ":" + n
  }

  /** The path text a list of segments stands for. */
  function Render(segs: seq<Segment>): string
    decreases |segs|
  {
    if segs == [] then "" else Text(segs[0]) + Render(segs[1..])
  }

  /** True when `seg` cannot be glued onto a preceding placeholder or `:`:
      its text does not start with a word character. */
  predicate Separates(seg: Segment) {
    !(seg.Lit? && IsWord(seg.c))
  }

  /** The segment lists some path compiles to: placeholder names are
      non-empty runs of word characters, and neither a placeholder nor a
      literal `:` is followed by a literal word character. */
  ghost predicate WellFormed(segs: seq<Segment>) {
    forall i :: 0 <= i < |segs| ==>
      && (segs[i].Param? ==> |segs[i].name| > 0 && forall j :: 0 <= j < |segs[i].name| ==> IsWord(segs[i].name[j]))
      && ((segs[i].Param? || segs[i] == Lit(':')) && i + 1 < |segs| ==> Separates(segs[i + 1]))
  }

  lemma RenderFirst(segs: seq<Segment>)
    requires segs != []
    ensures Render(segs) != [] && Render(segs)[0] == (if segs[0].Lit? then segs[0].c else ':')
  {
  }

  /** Compiling is lossless: rendering the segments gives back the path. */
  lemma {:induction false} RenderCompile(p: string)
    ensures Render(Compile(p)) == p
    decreases |p|
  {
    if p != [] {
      if p[0] == ':' && WordRun(p[1..]) > 0 {
        var n := WordRun(p[1..]);
        RenderCompile(p[1 + n..]);
        assert p == ":" + p[1..1 + n] + p[1 + n..];
      } else {
        RenderCompile(p[1..]);
        assert p == [p[0]] + p[1..];
      }
    }
  }

  /** Every path compiles to a well-formed segment list. */
  lemma {:induction false} CompileWellFormed(p: string)
    ensures WellFormed(Compile(p))
    decreases |p|
  {
    if p != [] {
      if p[0] == ':' && WordRun(p[1..]) > 0 {
        var n := WordRun(p[1..]);
        var rest := p[1 + n..];
        CompileWellFormed(rest);
        if rest != [] {
          assert rest[0] == p[1..][n];
          CompileFirst(rest);
        }
        WellFormedCons(Param(p[1..1 + n]), Compile(rest));
      } else {
        var rest := p[1..];
        CompileWellFormed(rest);
        if p[0] == ':' && rest != [] {
          CompileFirst(rest);
        }
        WellFormedCons(Lit(p[0]), Compile(rest));
      }
    }
  }

  /** Putting a segment in front of a well-formed list keeps it well formed
      when the segment is itself well formed and, after a placeholder or a
      bare colon, the list starts with a separator. */
  lemma WellFormedCons(seg: Segment, segs: seq<Segment>)
    requires WellFormed(segs)
    requires seg.Param? ==> |seg.name| > 0 && forall j :: 0 <= j < |seg.name| ==> IsWord(seg.name[j])
    requires (seg.Param? || seg == Lit(':')) && segs != [] ==> Separates(segs[0])
    ensures WellFormed([seg] + segs)
  {
    var all := [seg] + segs;
    forall i | 1 <= i < |all|
      ensures all[i] == segs[i - 1]
    {
    }
  }

  /** A compiled path starts with a literal word character exactly when the path does. */
  lemma CompileFirst(p: string)
    requires p != []
    ensures Compile(p) != []
    ensures Separates(Compile(p)[0]) <==> !IsWord(p[0])
  {
  }

  /** Compiling the text of a well-formed segment list gives the list back. */
  lemma {:induction false} CompileRender(segs: seq<Segment>)
    requires WellFormed(segs)
    ensures Compile(Render(segs)) == segs
    decreases |segs|
  {
    if segs != [] {
      var rest := segs[1..];
      WellFormedTail(segs);
      CompileRender(rest);
      var t := Render(rest);
      assert t == [] || !IsWord(t[0]) || !(segs[0].Param? || segs[0] == Lit(':')) by {
        if t != [] {
          RenderFirst(rest);
        }
      }
      match segs[0]
      case Lit(c) =>
        CompileLit(c, t);
      case Param(n) =>
        CompileParam(n, t);
    }
  }

  lemma WellFormedTail(segs: seq<Segment>)
    requires segs != [] && WellFormed(segs)
    ensures WellFormed(segs[1..])
  {
    var rest := segs[1..];
    forall i | 0 <= i < |rest|
      ensures rest[i] == segs[i + 1]
    {
    }
  }

  lemma CompileLit(c: char, t: string)
    requires c == ':' ==> t == [] || !IsWord(t[0])
    ensures Compile([c] + t) == [Lit(c)] + Compile(t)
  {
    var p := [c] + t;
    assert p[1..] == t;
  }

  lemma CompileParam(n: string, t: string)
    requires |n| > 0 && forall j :: 0 <= j < |n| ==> IsWord(n[j])
    requires t == [] || !IsWord(t[0])
    ensures Compile(":" + n + t) == [Param(n)] + Compile(t)
  {
    var p := ":" + n + t;
    assert p[1..] == n + t;
    WordRunOf(n, t);
    assert p[1..1 + |n|] == n;
    assert p[1 + |n|..] == t;
  }

  /** The word run of a word followed by a non-word start is the word. */
  lemma WordRunOf(n: string, t: string)
    requires forall j :: 0 <= j < |n| ==> IsWord(n[j])
    requires t == [] || !IsWord(t[0])
    ensures WordRun(n + t) == |n|
  {
    var s := n + t;
    assert forall j :: 0 <= j < |n| ==> s[j] == n[j];
    assert t != [] ==> s[|n|] == t[0];
  }

  /** The placeholder names of a segment list, in order. */
  function ParamNames(segs: seq<Segment>): (r: seq<string>)
    ensures |r| <= |segs|
    ensures forall n :: n in r <==> Param(n) in segs
    ensures |r| == |segs| <==> forall i :: 0 <= i < |segs| ==> segs[i].Param?
    decreases |segs|
  {
    if segs == [] then []
    else
      var rest := ParamNames(segs[1..]);
      assert forall x :: x in segs <==> x == segs[0] || x in segs[1..];
      assert forall i :: 1 <= i < |segs| ==> segs[i] == segs[1..][i - 1];
      if segs[0].Param? then [segs[0].name] + rest
      else rest
  }

  /** Stands for PCRE: does the constraint text (a regular expression)
      match the whole candidate text? */
  type Engine = (string, string) -> bool

  /** Whether a placeholder accepts a text as its capture: its constraint
      if it has one, otherwise `[^/]+`. */
  predicate Accepts(params: map<string, string>, name: string, t: string, engine: Engine) {
    if name in params then engine(params[name], t) else t != [] && '/' !in t
  }

  /** Case-insensitive comparison of one character, as under `/i`. */
  predicate SameLetter(a: char, b: char) {
    LowerChar(a) == LowerChar(b)
  }

  /** `$` without the D modifier: the end, or just before a final newline. */
  predicate AtEnd(s: string) {
    s == "" || s == "\n"
  }

  /** The declarative meaning of a match: the URL is the segments' texts
      laid end to end (literals up to ASCII case, each placeholder replaced
      by its capture, which it accepts), then the end. */
  predicate Fits(segs: seq<Segment>, s: string, caps: seq<string>, params: map<string, string>, engine: Engine)
    decreases |segs|
  {
    if segs == [] then caps == [] && AtEnd(s)
    else match segs[0]
      case Lit(c) => s != [] && SameLetter(s[0], c) && Fits(segs[1..], s[1..], caps, params, engine)
      case Param(n) =>
        && caps != [] && |caps[0]| <= |s| && s[..|caps[0]|] == caps[0]
        && Accepts(params, n, caps[0], engine)
        && Fits(segs[1..], s[|caps[0]|..], caps[1..], params, engine)
  }

  /** The matcher: each placeholder tries its longest capture first, then
      shorter ones, or none. This is the order in which PCRE backtracks
      through `([^/]+)` and through a constraint that is a single greedily
      quantified character class such as `[0-9]+`; a lazy quantifier, an
      alternation whose earlier branch is shorter, or several greedy parts
      such as `a*(ab)?` can make PCRE settle on a shorter capture. */
  function Search(segs: seq<Segment>, s: string, params: map<string, string>, engine: Engine): Option<seq<string>>
    decreases |segs|, 1, 0
  {
    if segs == [] then (if AtEnd(s) then Some([]) else None)
    else match segs[0]
      case Lit(c) => if s != [] && SameLetter(s[0], c) then Search(segs[1..], s[1..], params, engine) else None
      case Param(_) => Longest(segs, s, params, engine, |s| + 1)
  }

  /** Tries the first placeholder's captures of length k-1, k-2, ..., 0. */
  function Longest(segs: seq<Segment>, s: string, params: map<string, string>, engine: Engine, k: nat): Option<seq<string>>
    requires segs != [] && segs[0].Param? && k <= |s| + 1
    decreases |segs|, 0, k
  {
    if k == 0 then None
    else
      var t := s[..k - 1];
      if Accepts(params, segs[0].name, t, engine) then
        match Search(segs[1..], s[k - 1..], params, engine)
        case Some(rest) => Some([t] + rest)
        case None => Longest(segs, s, params, engine, k - 1)
      else Longest(segs, s, params, engine, k - 1)
  }

  /** Soundness: whatever the matcher returns is a match. */
  lemma {:induction false} SearchSound(segs: seq<Segment>, s: string, params: map<string, string>, engine: Engine)
    ensures Search(segs, s, params, engine).Some? ==> Fits(segs, s, Search(segs, s, params, engine).value, params, engine)
    decreases |segs|, 1, 0
  {
    if segs != [] {
      match segs[0]
      case Lit(c) =>
        if s != [] {
          SearchSound(segs[1..], s[1..], params, engine);
        }
      case Param(_) =>
        LongestSound(segs, s, params, engine, |s| + 1);
    }
  }

  lemma {:induction false} LongestSound(segs: seq<Segment>, s: string, params: map<string, string>, engine: Engine, k: nat)
    requires segs != [] && segs[0].Param? && k <= |s| + 1
    ensures Longest(segs, s, params, engine, k).Some? ==> Fits(segs, s, Longest(segs, s, params, engine, k).value, params, engine)
    decreases |segs|, 0, k
  {
    if k > 0 {
      var t := s[..k - 1];
      if Accepts(params, segs[0].name, t, engine) && Search(segs[1..], s[k - 1..], params, engine).Some? {
        SearchSound(segs[1..], s[k - 1..], params, engine);
        var caps := [t] + Search(segs[1..], s[k - 1..], params, engine).value;
        assert caps[1..] == Search(segs[1..], s[k - 1..], params, engine).value;
      } else {
        LongestSound(segs, s, params, engine, k - 1);
      }
    }
  }

  /** Completeness: if any split of the URL is a match, the matcher finds one. */
  lemma {:induction false} SearchComplete(segs: seq<Segment>, s: string, caps: seq<string>, params: map<string, string>, engine: Engine)
    requires Fits(segs, s, caps, params, engine)
    ensures Search(segs, s, params, engine).Some?
    decreases |segs|, 1, 0
  {
    if segs != [] {
      match segs[0]
      case Lit(c) =>
        SearchComplete(segs[1..], s[1..], caps, params, engine);
      case Param(_) =>
        LongestComplete(segs, s, caps, params, engine, |s| + 1);
    }
  }

  lemma {:induction false} LongestComplete(segs: seq<Segment>, s: string, caps: seq<string>, params: map<string, string>, engine: Engine, k: nat)
    requires segs != [] && segs[0].Param? && k <= |s| + 1
    requires Fits(segs, s, caps, params, engine) && |caps[0]| < k
    ensures Longest(segs, s, params, engine, k).Some?
    decreases |segs|, 0, k
  {
    var t := s[..k - 1];
    if Accepts(params, segs[0].name, t, engine) && Search(segs[1..], s[k - 1..], params, engine).Some? {
    } else if |caps[0]| == k - 1 {
      SearchComplete(segs[1..], s[k - 1..], caps[1..], params, engine);
    } else {
      LongestComplete(segs, s, caps, params, engine, k - 1);
    }
  }

  /** Greed: the first placeholder's capture is at least as long as in any
      other match. */
  lemma {:induction false} SearchGreedy(segs: seq<Segment>, s: string, caps: seq<string>, params: map<string, string>, engine: Engine)
    requires segs != [] && segs[0].Param?
    requires Fits(segs, s, caps, params, engine)
    ensures Search(segs, s, params, engine).Some? && Search(segs, s, params, engine).value != []
    ensures |caps[0]| <= |Search(segs, s, params, engine).value[0]|
  {
    LongestGreedy(segs, s, caps, params, engine, |s| + 1);
  }

  lemma {:induction false} LongestGreedy(segs: seq<Segment>, s: string, caps: seq<string>, params: map<string, string>, engine: Engine, k: nat)
    requires segs != [] && segs[0].Param? && k <= |s| + 1
    requires Fits(segs, s, caps, params, engine) && |caps[0]| < k
    ensures Longest(segs, s, params, engine, k).Some? && Longest(segs, s, params, engine, k).value != []
    ensures |caps[0]| <= |Longest(segs, s, params, engine, k).value[0]|
    decreases k
  {
    var t := s[..k - 1];
    if Accepts(params, segs[0].name, t, engine) && Search(segs[1..], s[k - 1..], params, engine).Some? {
    } else if |caps[0]| == k - 1 {
      SearchComplete(segs[1..], s[k - 1..], caps[1..], params, engine);
    } else {
      LongestGreedy(segs, s, caps, params, engine, k - 1);
    }
  }

  /** A match captures exactly one text per placeholder, in order, each
      accepted by its placeholder. */
  lemma {:induction false} FitsCaptures(segs: seq<Segment>, s: string, caps: seq<string>, params: map<string, string>, engine: Engine)
    requires Fits(segs, s, caps, params, engine)
    ensures |caps| == |ParamNames(segs)|
    ensures forall j :: 0 <= j < |caps| ==> Accepts(params, ParamNames(segs)[j], caps[j], engine)
    decreases |segs|
  {
    if segs != [] {
      match segs[0]
      case Lit(c) =>
        FitsCaptures(segs[1..], s[1..], caps, params, engine);
      case Param(n) =>
        FitsCaptures(segs[1..], s[|caps[0]|..], caps[1..], params, engine);
        assert forall j :: 1 <= j < |caps| ==> caps[j] == caps[1..][j - 1];
    }
  }
}
