// What a Gear\Routing\Route does with concrete paths: a path without
// placeholders matches the URLs that spell it, and the scenarios the
// repository's route tests walk through (tests/Routing/RouteTest.php).
// The scenarios take the test's literals as parameters pinned by their
// `requires` (`requires path == "/blog"`) instead of writing them in the
// body: facts about a literal string are then stated once, at the head of
// the member, and the verifier meets each literal through one variable.
module RouteBehaviour {
  import opened Php
  import opened PhpString
  import opened Pattern
  import opened Routing

  /** The URL text spells the literal path, letters up to ASCII case, and
      then ends (possibly with a final newline, as `$` allows). */
  predicate Spells(s: string, p: string) {
    && |s| >= |p|
    && AtEnd(s[|p|..])
    && forall i :: 0 <= i < |p| ==> SameLetter(s[i], p[i])
  }

  /** A path without placeholders compiles to literals only: it fits a URL
      text exactly when the text spells it, and captures nothing. */
  lemma {:induction false} LiteralFits(p: string, s: string, caps: seq<string>, params: map<string, string>, engine: Engine)
    requires ':' !in p
    ensures ParamNames(Compile(p)) == []
    ensures Fits(Compile(p), s, caps, params, engine) <==> caps == [] && Spells(s, p)
    decreases |p|
  {
    if p != [] {
      var rest := Compile(p[1..]);
      assert p[0] in p;
      assert Compile(p) == [Lit(p[0])] + rest;
      assert ([Lit(p[0])] + rest)[1..] == rest;
      assert ':' !in p[1..] by {
        forall i | 0 <= i < |p[1..]|
          ensures p[1..][i] != ':'
        {
          assert p[1..][i] == p[i + 1];
        }
      }
      if s == [] {
        LiteralFits(p[1..], s, caps, params, engine);
      } else {
        LiteralFits(p[1..], s[1..], caps, params, engine);
        if |s| >= |p| {
          assert s[1..][|p| - 1..] == s[|p|..];
        }
        if Spells(s, p) {
          assert forall i :: 0 <= i < |p| - 1 ==> s[1..][i] == s[i + 1] && p[1..][i] == p[i + 1];
        }
        if SameLetter(s[0], p[0]) && Spells(s[1..], p[1..]) {
          forall i | 0 <= i < |p|
            ensures SameLetter(s[i], p[i])
          {
            if i > 0 {
              assert s[1..][i - 1] == s[i] && p[1..][i - 1] == p[i];
            }
          }
        }
      }
    }
  }

  /** A route whose path has no placeholder matches exactly the URLs that,
      once trimmed of '/', spell its path, and then captures nothing. */
  lemma LiteralRouteMatches(p: string, params: map<string, string>, url: string, engine: Engine)
    requires ':' !in p
    ensures Attempt(p, params, url, engine).Some? <==> Spells(Trim(url, '/'), p)
    ensures Attempt(p, params, url, engine).Some? ==> Attempt(p, params, url, engine).value == []
  {
    var s := Trim(url, '/');
    LiteralFits(p, s, [], params, engine);
    if Spells(s, p) {
      SearchComplete(Compile(p), s, [], params, engine);
    }
    SearchSound(Compile(p), s, params, engine);
    var a := Search(Compile(p), s, params, engine);
    if a.Some? {
      LiteralFits(p, s, a.value, params, engine);
    }
  }

  /** A text made of decimal digits only, at least one. */
  predicate Digits(t: string) {
    t != [] && forall i :: 0 <= i < |t| ==> '0' <= t[i] <= '9'
  }

  /** Compiling from a literal character of a path. */
  lemma CompileLitAt(p: string, i: nat)
    requires i < |p| && p[i] != ':'
    ensures Compile(p[i..]) == [Lit(p[i])] + Compile(p[i + 1..])
  {
    CompileLit(p[i], p[i + 1..]);
    assert [p[i]] + p[i + 1..] == p[i..];
  }

  /** Compiling from a placeholder `:name` spanning p[i..j]. */
  lemma CompileParamAt(p: string, i: nat, j: nat)
    requires i + 1 < j <= |p| && p[i] == ':'
    requires forall k :: i < k < j ==> IsWord(p[k])
    requires j == |p| || !IsWord(p[j])
    ensures Compile(p[i..]) == [Param(p[i + 1..j])] + Compile(p[j..])
  {
    var n := p[i + 1..j];
    assert forall k :: 0 <= k < |n| ==> n[k] == p[i + 1 + k];
    assert p[j..] != [] ==> p[j..][0] == p[j];
    CompileParam(n, p[j..]);
    assert ":" + n + p[j..] == p[i..];
  }

  /** A literal stretch the path and the URL text share can be skipped. */
  lemma {:induction false} FitsSharedPrefix(p: string, s: string, k: nat, caps: seq<string>, params: map<string, string>, engine: Engine)
    requires k <= |p| && k <= |s| && p[..k] == s[..k]
    requires forall i :: 0 <= i < k ==> p[i] != ':'
    ensures Fits(Compile(p), s, caps, params, engine) <==> Fits(Compile(p[k..]), s[k..], caps, params, engine)
    decreases k
  {
    if k > 0 {
      assert p[0] == p[..k][0] == s[..k][0] == s[0];
      CompileLitAt(p, 0);
      assert p[0..] == p;
      var rest := Compile(p[1..]);
      assert ([Lit(p[0])] + rest)[1..] == rest;
      assert SameLetter(s[0], p[0]);
      assert p[1..][..k - 1] == s[1..][..k - 1] by {
        assert p[1..][..k - 1] == p[..k][1..] && s[1..][..k - 1] == s[..k][1..];
      }
      FitsSharedPrefix(p[1..], s[1..], k - 1, caps, params, engine);
      assert p[1..][k - 1..] == p[k..] && s[1..][k - 1..] == s[k..];
    }
  }

  /** The segments of the tail `:id-:slug` of the test route. The text is
      given letter by letter, so that the solver does not evaluate `Compile`
      on a literal. */
  lemma IdSlugSegments(p: string)
    requires |p| == 9 && p[0] == ':' && p[1] == 'i' && p[2] == 'd'
    requires p[3] == '-' && p[4] == ':' && p[5] == 's' && p[6] == 'l' && p[7] == 'u' && p[8] == 'g'
    ensures Compile(p) == [Param("id"), Lit('-'), Param("slug")]
  {
    var q := p[3..];
    SlugSegments(q);
    assert IsWord(p[1]) && IsWord(p[2]) && !IsWord(p[3]);
    CompileParamAt(p, 0, 3);
    assert p[0..] == p && p[1..3] == "id";
  }

  lemma SlugSegments(q: string)
    requires |q| == 6 && q[0] == '-' && q[1] == ':' && q[2] == 's' && q[3] == 'l' && q[4] == 'u' && q[5] == 'g'
    ensures Compile(q) == [Lit('-'), Param("slug")]
  {
    assert IsWord(q[2]) && IsWord(q[3]) && IsWord(q[4]) && IsWord(q[5]);
    CompileParamAt(q, 1, 6);
    assert q[6..] == [] && q[2..6] == "slug";
    CompileLitAt(q, 0);
    assert q[0..] == q;
  }

  /** With `id` constrained to digits, `12-my-title` fits the tail by
      capturing `12` and `my-title`... */
  lemma IdSlugFits(segs: seq<Segment>, s: string, caps: seq<string>, params: map<string, string>, engine: Engine)
    requires segs == [Param("id"), Lit('-'), Param("slug")] && s == "12-my-title"
    requires params == map["id" := "[0-9]+"]
    requires forall t :: engine("[0-9]+", t) <==> Digits(t)
    requires caps == ["12", "my-title"]
    ensures Fits(segs, s, caps, params, engine)
  {
    assert "id" in params && params["id"] == "[0-9]+" && "slug" !in params;
    assert Digits(caps[0]);
    assert s[..2] == caps[0] && s[2] == '-';
    assert LowerChar('-') == '-';
    assert s[2..][1..] == s[3..];
    assert s[3..][..8] == caps[1] && s[3..][8..] == [];
    assert caps[1..][1..] == [];
    assert Fits(segs[2..], s[3..], caps[1..], params, engine);
    assert Fits(segs[1..], s[2..], caps[1..], params, engine);
    assert Accepts(params, "id", caps[0], engine);
  }

  /** ...and in no other way. */
  lemma IdSlugUnique(segs: seq<Segment>, s: string, caps: seq<string>, params: map<string, string>, engine: Engine)
    requires segs == [Param("id"), Lit('-'), Param("slug")] && s == "12-my-title"
    requires params == map["id" := "[0-9]+"]
    requires forall t :: engine("[0-9]+", t) <==> Digits(t)
    requires Fits(segs, s, caps, params, engine)
    ensures caps == ["12", "my-title"]
  {
    IdCapture(segs, s, caps, params, engine);
    var rest := s[3..];
    assert rest == "my-title";
    LastCapture(segs[2..], "slug", rest, caps[1..], params, engine);
    var slug := caps[1..][0];
    assert (slug + "\n")[|slug|] == '\n' && rest[|rest| - 1] != '\n';
    assert caps == [caps[0]] + caps[1..];
  }

  /** Against `12-my-title`, `id` captures `12` whatever follows. */
  lemma IdCapture(segs: seq<Segment>, s: string, caps: seq<string>, params: map<string, string>, engine: Engine)
    requires segs == [Param("id"), Lit('-'), Param("slug")] && s == "12-my-title"
    requires params == map["id" := "[0-9]+"]
    requires forall t :: engine("[0-9]+", t) <==> Digits(t)
    requires Fits(segs, s, caps, params, engine)
    ensures caps != [] && caps[0] == "12" && Fits(segs[2..], s[3..], caps[1..], params, engine)
  {
    assert "id" in params && params["id"] == "[0-9]+";
    var id := caps[0];
    assert Digits(id) && s[..|id|] == id;
    assert Fits(segs[1..], s[|id|..], caps[1..], params, engine);
    assert forall k :: 0 <= k < |id| ==> id[k] == s[k];
    assert s[1] == '2' && s[2] == '-';
    assert forall k :: 0 <= k < |s| ==> s[k..][0] == s[k];
    assert LowerChar('2') == '2' && LowerChar('-') == '-';
    assert |id| == 2;
    assert id == s[..2] == "12";
    assert s[2..][1..] == s[3..];
  }

  /** A placeholder at the end of the path captures the rest of the URL
      text, or all of it but a final newline. */
  lemma LastCapture(segs: seq<Segment>, name: string, rest: string, caps: seq<string>, params: map<string, string>, engine: Engine)
    requires segs == [Param(name)]
    requires Fits(segs, rest, caps, params, engine)
    ensures caps == [caps[0]] && (caps[0] == rest || caps[0] + "\n" == rest)
  {
    var c := caps[0];
    assert segs[1..] == [];
    assert Fits([], rest[|c|..], caps[1..], params, engine);
    assert rest == rest[..|c|] + rest[|c|..];
    assert caps == [c] + caps[1..];
  }

  /** Against `my-title-12` the tail cannot fit: `id` would have to start
      with the digit-free `m`. */
  lemma IdSlugRejects(segs: seq<Segment>, s: string, caps: seq<string>, params: map<string, string>, engine: Engine)
    requires segs == [Param("id"), Lit('-'), Param("slug")] && s == "my-title-12"
    requires params == map["id" := "[0-9]+"]
    requires forall t :: engine("[0-9]+", t) <==> Digits(t)
    ensures !Fits(segs, s, caps, params, engine)
  {
    assert "id" in params && params["id"] == "[0-9]+";
    forall id | Digits(id) && |id| <= |s|
      ensures s[..|id|] != id
    {
      assert s[..|id|][0] == s[0] == 'm';
    }
  }

  /** testMatchWith: `/blog/:id-:slug`, with `id` constrained to digits,
      matches `/blog/12-my-title`, capturing `12` and `my-title`. */
  lemma MatchWithHit(path: string, params: map<string, string>, url: string, engine: Engine)
    requires path == "blog/:id-:slug"
    requires params == map["id" := "[0-9]+"]
    requires url == "/blog/12-my-title"
    requires forall t :: engine("[0-9]+", t) <==> Digits(t)
    ensures Attempt(path, params, url, engine) == Some(["12", "my-title"])
  {
    var segs := Compile(path);
    var s := TrimmedUrl(url);
    var caps: seq<string> := ["12", "my-title"];
    HitFits(path, s, caps, params, engine);
    SearchComplete(segs, s, caps, params, engine);
    SearchSound(segs, s, params, engine);
    HitUnique(path, s, Search(segs, s, params, engine).value, params, engine);
  }

  /** The url text `blog/12-my-title` fits the path with captures `12` and `my-title`... */
  lemma HitFits(path: string, s: string, caps: seq<string>, params: map<string, string>, engine: Engine)
    requires path == "blog/:id-:slug" && s == "blog/12-my-title" && caps == ["12", "my-title"]
    requires params == map["id" := "[0-9]+"]
    requires forall t :: engine("[0-9]+", t) <==> Digits(t)
    ensures Fits(Compile(path), s, caps, params, engine)
  {
    var tail := path[5..];
    assert tail == ":id-:slug" && s[5..] == "12-my-title";
    assert path[..5] == s[..5] && forall i :: 0 <= i < 5 ==> path[i] != ':';
    IdSlugSegments(tail);
    FitsSharedPrefix(path, s, 5, caps, params, engine);
    IdSlugFits(Compile(tail), s[5..], caps, params, engine);
  }

  /** ...and in no other way. */
  lemma HitUnique(path: string, s: string, found: seq<string>, params: map<string, string>, engine: Engine)
    requires path == "blog/:id-:slug" && s == "blog/12-my-title"
    requires params == map["id" := "[0-9]+"]
    requires forall t :: engine("[0-9]+", t) <==> Digits(t)
    requires Fits(Compile(path), s, found, params, engine)
    ensures found == ["12", "my-title"]
  {
    var tail := path[5..];
    assert tail == ":id-:slug" && s[5..] == "12-my-title";
    assert path[..5] == s[..5] && forall i :: 0 <= i < 5 ==> path[i] != ':';
    IdSlugSegments(tail);
    FitsSharedPrefix(path, s, 5, found, params, engine);
    IdSlugUnique(Compile(tail), s[5..], found, params, engine);
  }

  /** testMatchWith: the same route does not match `/blog/my-title-12`. */
  lemma MatchWithMiss(path: string, params: map<string, string>, url: string, engine: Engine)
    requires path == "blog/:id-:slug"
    requires params == map["id" := "[0-9]+"]
    requires url == "/blog/my-title-12"
    requires forall t :: engine("[0-9]+", t) <==> Digits(t)
    ensures Attempt(path, params, url, engine) == None
  {
    var s := TrimmedUrl(url);
    forall caps
      ensures !Fits(Compile(path), s, caps, params, engine)
    {
      MissNoFit(path, s, caps, params, engine);
    }
    NoFitNoMatch(Compile(path), s, params, engine);
  }

  /** The url text `blog/my-title-12` does not fit the path, whatever the captures. */
  lemma MissNoFit(path: string, s: string, caps: seq<string>, params: map<string, string>, engine: Engine)
    requires path == "blog/:id-:slug" && s == "blog/my-title-12"
    requires params == map["id" := "[0-9]+"]
    requires forall t :: engine("[0-9]+", t) <==> Digits(t)
    ensures !Fits(Compile(path), s, caps, params, engine)
  {
    var tail := path[5..];
    assert tail == ":id-:slug" && s[5..] == "my-title-12";
    assert path[..5] == s[..5] && forall i :: 0 <= i < 5 ==> path[i] != ':';
    IdSlugSegments(tail);
    FitsSharedPrefix(path, s, 5, caps, params, engine);
    IdSlugRejects(Compile(tail), s[5..], caps, params, engine);
  }

  /** The matcher finds nothing where nothing fits. */
  lemma NoFitNoMatch(segs: seq<Segment>, s: string, params: map<string, string>, engine: Engine)
    requires forall caps :: !Fits(segs, s, caps, params, engine)
    ensures Search(segs, s, params, engine) == None
  {
    SearchSound(segs, s, params, engine);
  }

  /** A URL with one leading '/' and none at the end is trimmed to the rest. */
  lemma TrimmedUrl(url: string) returns (s: string)
    requires |url| > 1 && url[0] == '/' && url[1] != '/' && url[|url| - 1] != '/'
    ensures s == url[1..] && Trim(url, '/') == s
  {
    s := url[1..];
    TrimLeading(s, '/');
    assert [url[0]] + s == url;
  }

  /** The tail `:name` of the path `blog/:name` is one placeholder. */
  lemma NameSegments(q: string)
    requires |q| == 5 && q[0] == ':' && q[1] == 'n' && q[2] == 'a' && q[3] == 'm' && q[4] == 'e'
    ensures Compile(q) == [Param("name")]
  {
    assert IsWord(q[1]) && IsWord(q[2]) && IsWord(q[3]) && IsWord(q[4]);
    CompileParamAt(q, 0, 5);
    assert q[0..] == q && q[1..5] == "name" && q[5..] == [];
  }

  /** An unconstrained placeholder at the end captures a whole non-empty
      remainder free of '/'. */
  lemma SoleParamFits(name: string, rest: string, params: map<string, string>, engine: Engine)
    requires name !in params && rest != [] && '/' !in rest
    ensures Fits([Param(name)], rest, [rest], params, engine)
  {
    var segs := [Param(name)];
    var caps := [rest];
    assert rest[..|rest|] == rest && rest[|rest|..] == [];
    assert segs[1..] == [] && caps[1..] == [];
  }

  /** `blog/:name` captures the last URL segment: against `/blog/john` the
      only match captures `john`. */
  lemma NameCapture(path: string, url: string, params: map<string, string>, engine: Engine)
    requires path == "blog/:name" && url == "/blog/john" && params == map[]
    ensures Attempt(path, params, url, engine) == Some(["john"])
  {
    var segs := Compile(path);
    var s := TrimmedUrl(url);
    assert s == "blog/john";
    NameSegments(path[5..]);
    assert forall i :: 0 <= i < 5 ==> path[i] != ':';
    assert path[..5] == s[..5];
    var rest := s[5..];
    assert rest == "john";
    var tail := Compile(path[5..]);
    SoleParamFits("name", rest, params, engine);
    FitsSharedPrefix(path, s, 5, [rest], params, engine);
    SearchComplete(segs, s, [rest], params, engine);
    SearchSound(segs, s, params, engine);
    var found := Search(segs, s, params, engine).value;
    FitsSharedPrefix(path, s, 5, found, params, engine);
    LastCapture(tail, "name", rest, found, params, engine);
    var c := found[0];
    assert (c + "\n")[|c|] == '\n' && rest[|rest| - 1] != '\n';
  }

  /** testMatch: the route `/` matches the URL `/`... */
  method MatchRootScenario(slash: string, engine: Engine) returns (root: bool)
    requires slash == "/"
    ensures root
  {
    var home := new Route<string>(slash, _ => "hello", Verb("GET"));
    assert home.path == [];
    LiteralRouteMatches(home.path, home.params, slash, engine);
    root := home.Match(slash, engine);
  }

  /** ...and the route `/blog` matches the URL `/blog`. */
  method MatchBlogScenario(path: string, engine: Engine) returns (blog: bool)
    requires path == "/blog"
    ensures blog
  {
    var r := new Route<string>(path, _ => "hello", Verb("GET"));
    var name := TrimmedUrl(path);
    assert r.path == name == "blog";
    assert ':' !in name;
    SpellsItself(name);
    LiteralRouteMatches(r.path, r.params, path, engine);
    blog := r.Match(path, engine);
  }

  /** testCall: a route that has matched nothing calls its callback with
      no arguments... */
  method CallPlainScenario(slash: string) returns (plain: string)
    requires slash == "/"
    ensures plain == "hello"
  {
    var home := new Route<string>(slash, _ => "hello", Verb("GET"));
    plain := home.Call();
  }

  /** The callback of testCall: greets the first capture. */
  function Greet(caps: seq<string>): string {
    if caps == [] then "hello " else "hello " + caps[0]
  }

  /** ...and `/blog/:name` matched against `/blog/john` passes it `john`. */
  method CallNamedScenario(path: string, url: string, engine: Engine) returns (named: string)
    requires path == "/blog/:name" && url == "/blog/john"
    ensures named == "hello john"
  {
    var r := new Route<string>(path, Greet, Verb("GET"));
    NamedRoute(path, url, engine);
    var matched := r.Match(url, engine);
    named := r.Call();
    GreetJohn(r.matches);
  }

  /** The route built from `/blog/:name` captures `john` from `/blog/john`. */
  lemma NamedRoute(path: string, url: string, engine: Engine)
    requires path == "/blog/:name" && url == "/blog/john"
    ensures Attempt(Trim(path, '/'), map[], url, engine) == Some(["john"])
  {
    var stored := TrimmedUrl(path);
    NameCapture(stored, url, map[], engine);
  }

  lemma GreetJohn(caps: seq<string>)
    requires caps == ["john"]
    ensures Greet(caps) == "hello john"
  {
    assert Greet(caps) == "hello " + "john";
  }

  /** testMatchWith, on the route object: after `with(['id' => '[0-9]+'])`
      the route matches `/blog/12-my-title` with `12` as first capture, then
      fails on `/blog/my-title-12` and holds no captures. */
  method MatchWithScenario(path: string, digits: string, good: string, bad: string, engine: Engine)
    returns (hit: bool, first: string, miss: bool, left: nat)
    requires path == "/blog/:id-:slug" && digits == "[0-9]+"
    requires good == "/blog/12-my-title" && bad == "/blog/my-title-12"
    requires forall t :: engine("[0-9]+", t) <==> Digits(t)
    ensures hit && first == "12" && !miss && left == 0
  {
    var r := new Route<string>(path, _ => "hello", Verb("GET"));
    var stored := TrimmedUrl(path);
    var entries := [("id", digits)];
    r.With(Several(entries));
    DigitsConstraint(r.params, entries, digits);
    MatchWithHit(r.path, r.params, good, engine);
    hit := r.Match(good, engine);
    var captured := r.GetMatches();
    first := captured[0];
    MatchWithMiss(r.path, r.params, bad, engine);
    miss := r.Match(bad, engine);
    left := |r.GetMatches()|;
  }

  /** Constraining a fresh route's `id` to `[0-9]+` stores that text as is. */
  lemma DigitsConstraint(params: map<string, string>, entries: seq<(string, string)>, digits: string)
    requires digits == "[0-9]+" && entries == [("id", digits)]
    requires params == Constrained(map[], Several(entries))
    ensures params == map["id" := digits]
  {
    DigitsKept(digits);
    var none: map<string, string> := map[];
    assert entries[..|entries| - 1] == [];
    assert ConstrainAll(none, entries[..|entries| - 1]) == none;
    assert params == none["id" := digits];
  }

  lemma DigitsKept(digits: string)
    requires digits == "[0-9]+"
    ensures NonCapturing(digits) == digits
  {
    assert '(' !in digits;
    NonCapturingGroups(digits);
  }

  /** Every text spells itself. */
  lemma SpellsItself(p: string)
    ensures Spells(p, p)
  {
    assert p[|p|..] == [];
  }
}
