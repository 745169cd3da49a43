// Gear\Routing\Route and Gear\Routing\Router. A route couples a path
// template, the verbs it answers and a callback; the router keeps routes in
// insertion order and dispatches a request to the first route whose verb
// list holds the request method and whose path matches the request url.
module Routing {
  import opened Php
  import opened PhpString
  import opened Pattern
  import Network

  /** The `$methods` argument of the constructor: one verb, or an array of verbs. */
  datatype Verbs = Verb(name: string) | VerbList(names: seq<string>)

  /** The `$params` argument of `with`: one placeholder name with its
      regular expression, or an array of name => regular expression. */
  datatype Constraint = Single(name: string, regexp: string) | Several(entries: seq<(string, string)>)

  /** The verb list a route stores: an array as given, `*` expanded to the
      five verbs, and any other single verb as a one-element list. */
  function MethodList(verbs: Verbs): seq<string> {
    match verbs
    case VerbList(names) => names
    case Verb(name) => if name == "*" then ["GET", "POST", "PUT", "DELETE", "PATCH"] else [name]
  }

  /** Which verbs a route built with `verbs` answers (`hasMethod`). */
  lemma VerbMembership(verbs: Verbs, verb: string)
    ensures verbs == Verb("*") ==>
      (verb in MethodList(verbs) <==> verb in ["GET", "POST", "PUT", "DELETE", "PATCH"])
    ensures verbs.Verb? && verbs.name != "*" ==> (verb in MethodList(verbs) <==> verb == verbs.name)
    ensures verbs.VerbList? ==> (verb in MethodList(verbs) <==> exists i :: 0 <= i < |verbs.names| && verbs.names[i] == verb)
  {
  }

  /** `str_replace('(', '(?:', $regexp)`: every group of a constraint is made
      non-capturing, so that only the placeholders' own groups capture. */
  function NonCapturing(regexp: string): string {
    ReplaceAll(regexp, "(", "(?:")
  }

  /** Every `(` of a rewritten constraint opens a non-capturing group, the
      number of `(` is unchanged, and a constraint without `(` is kept. */
  lemma NonCapturingGroups(regexp: string)
    ensures var r := NonCapturing(regexp);
      forall i :: 0 <= i < |r| && r[i] == '(' ==> i + 2 < |r| && r[i + 1] == '?' && r[i + 2] == ':'
    ensures multiset(NonCapturing(regexp))['('] == multiset(regexp)['(']
    ensures '(' !in regexp ==> NonCapturing(regexp) == regexp
  {
    OpensNonCapturing(regexp);
    KeepsParenCount(regexp);
    if '(' !in regexp {
      forall i | 0 <= i <= |regexp|
        ensures !OccursAt(regexp, "(", i)
      {
        if i < |regexp| {
          assert regexp[i..i + 1][0] == regexp[i];
        }
      }
      ReplaceAllAbsent(regexp, "(", "(?:");
    }
  }

  /** One character of the rewriting: `(` becomes `(?:`, any other is kept. */
  lemma NonCapturingStep(regexp: string)
    requires regexp != []
    ensures NonCapturing(regexp) == (if regexp[0] == '(' then "(?:" else [regexp[0]]) + NonCapturing(regexp[1..])
  {
    assert regexp[..1] == [regexp[0]];
  }

  lemma {:induction false} OpensNonCapturing(regexp: string)
    ensures var r := NonCapturing(regexp);
      forall i :: 0 <= i < |r| && r[i] == '(' ==> i + 2 < |r| && r[i + 1] == '?' && r[i + 2] == ':'
    decreases |regexp|
  {
    if regexp != [] {
      OpensNonCapturing(regexp[1..]);
      NonCapturingStep(regexp);
      var t := NonCapturing(regexp[1..]);
      var r := NonCapturing(regexp);
      var k := if regexp[0] == '(' then 3 else 1;
      assert forall i :: k <= i < |r| ==> r[i] == t[i - k];
      assert regexp[0] != '(' ==> r[0] != '(';
    }
  }

  lemma {:induction false} KeepsParenCount(regexp: string)
    ensures multiset(NonCapturing(regexp))['('] == multiset(regexp)['(']
    decreases |regexp|
  {
    if regexp != [] {
      KeepsParenCount(regexp[1..]);
      NonCapturingStep(regexp);
      assert regexp == [regexp[0]] + regexp[1..];
      var head: string := if regexp[0] == '(' then "(?:" else [regexp[0]];
      assert multiset(NonCapturing(regexp)) == multiset(head) + multiset(NonCapturing(regexp[1..]));
      assert multiset(regexp) == multiset([regexp[0]]) + multiset(regexp[1..]);
    }
  }

  /** The constraints after `with(entries)`: each entry in turn, later entries winning. */
  function ConstrainAll(params: map<string, string>, entries: seq<(string, string)>): map<string, string>
    decreases |entries|
  {
    if entries == [] then params
    else
      var last := entries[|entries| - 1];
      ConstrainAll(params, entries[..|entries| - 1])[last.0 := NonCapturing(last.1)]
  }

  /** The constraints after `with(c)`. */
  function Constrained(params: map<string, string>, c: Constraint): map<string, string> {
    match c
    case Single(name, regexp) => params[name := NonCapturing(regexp)]
    case Several(entries) => ConstrainAll(params, entries)
  }

  /** After `with(entries)` a name is constrained exactly when it was before
      or some entry names it; it then holds the rewritten expression of the
      last entry naming it, and otherwise its earlier constraint. */
  lemma {:induction false} ConstrainAllLookup(params: map<string, string>, entries: seq<(string, string)>, name: string)
    ensures name in ConstrainAll(params, entries) <==>
      name in params || exists i :: 0 <= i < |entries| && entries[i].0 == name
    ensures forall i ::
      (0 <= i < |entries| && entries[i].0 == name && forall j :: i < j < |entries| ==> entries[j].0 != name) ==>
      ConstrainAll(params, entries)[name] == NonCapturing(entries[i].1)
    ensures name in params && (forall i :: 0 <= i < |entries| ==> entries[i].0 != name) ==>
      ConstrainAll(params, entries)[name] == params[name]
    decreases |entries|
  {
    if entries != [] {
      var init := entries[..|entries| - 1];
      ConstrainAllLookup(params, init, name);
      assert forall i :: 0 <= i < |init| ==> init[i] == entries[i];
    }
  }

  /** The captures of matching `url` against a route's path under its
      constraints, or none: both ends of the url are stripped of `/` and the
      whole remainder must match. */
  function Attempt(path: string, params: map<string, string>, url: string, engine: Engine): Option<seq<string>> {
    Search(Compile(path), Trim(url, '/'), params, engine)
  }

  /** A match exists exactly when some captures fit the path; the matcher's
      captures fit it, one per placeholder in order, each accepted by its
      placeholder's constraint (or non-empty and free of `/` without one). */
  lemma AttemptMeaning(path: string, params: map<string, string>, url: string, engine: Engine)
    ensures Attempt(path, params, url, engine).Some? <==>
      exists caps :: Fits(Compile(path), Trim(url, '/'), caps, params, engine)
    ensures var a := Attempt(path, params, url, engine);
      a.Some? ==>
        && Fits(Compile(path), Trim(url, '/'), a.value, params, engine)
        && |a.value| == |ParamNames(Compile(path))|
        && forall j :: 0 <= j < |a.value| ==> Accepts(params, ParamNames(Compile(path))[j], a.value[j], engine)
  {
    var segs, s := Compile(path), Trim(url, '/');
    SearchSound(segs, s, params, engine);
    if a: seq<string> :| Fits(segs, s, a, params, engine) {
      SearchComplete(segs, s, a, params, engine);
    }
    var r := Attempt(path, params, url, engine);
    assert r == Search(segs, s, params, engine);
    if r.Some? {
      var caps := r.value;
      assert Fits(segs, s, caps, params, engine);
      FitsCaptures(segs, s, caps, params, engine);
      assert exists caps :: Fits(Compile(path), Trim(url, '/'), caps, params, engine);
    }
  }

  class Route<R> {
    const path: string
    const callback: seq<string> -> R
    const methods: seq<string>
    var params: map<string, string>
    var matches: seq<string>

    /** `new Route($path, $callable, $methods)`. */
    constructor (path: string, callback: seq<string> -> R, verbs: Verbs)
      ensures this.path == Trim(path, '/') && this.callback == callback
      ensures methods == MethodList(verbs)
      ensures params == map[] && matches == []
    {
      this.path := Trim(path, '/');
      this.callback := callback;
      methods := MethodList(verbs);
      params := map[];
      matches := [];
    }

    /** `with($params, $regexp)`: an array is applied entry by entry. */
    method With(c: Constraint)
      modifies this
      ensures params == Constrained(old(params), c)
      ensures matches == old(matches)
      decreases if c.Several? then 1 else 0
    {
      match c
      case Single(name, regexp) =>
        params := params[name := NonCapturing(regexp)];
      case Several(entries) =>
        var i := 0;
        while i < |entries|
          invariant 0 <= i <= |entries|
          invariant params == ConstrainAll(old(params), entries[..i])
          invariant matches == old(matches)
        {
          With(Single(entries[i].0, entries[i].1));
          assert entries[..i + 1][..i] == entries[..i];
          i := i + 1;
        }
        assert entries[..i] == entries;
    }

    /** `match($url)`: the captures are cleared, then set to the matcher's
        captures when the url matches. What a match means is stated by
        `AttemptMeaning`. */
    method Match(url: string, engine: Engine) returns (r: bool)
      modifies this`matches
      ensures r == Attempt(path, params, url, engine).Some?
      ensures matches == if r then Attempt(path, params, url, engine).value else []
      ensures params == old(params)
    {
      matches := [];
      var found := Search(Compile(path), Trim(url, '/'), params, engine);
      if found.None? {
        return false;
      }
      matches := found.value;
      return true;
    }

    /** `hasMethod($method)`: membership in the verb list. */
    predicate HasMethod(verb: string) {
      verb in methods
    }

    /** `call()`: the callback applied to the current captures. */
    function Call(): R
      reads this
    {
      callback(matches)
    }

    /** `getMatches()` */
    function GetMatches(): seq<string>
      reads this
    {
      matches
    }

    /** `hasMethod($verb) && match($url)`, as `run` evaluates it: a route
        without the verb is not matched. */
    method Try(verb: string, url: string, engine: Engine) returns (ok: bool)
      modifies this`matches
      ensures params == old(params)
      ensures ok == (HasMethod(verb) && Attempt(path, params, url, engine).Some?)
      ensures HasMethod(verb) ==> matches == if ok then Attempt(path, params, url, engine).value else []
      ensures !HasMethod(verb) ==> matches == old(matches)
    {
      ok := false;
      if HasMethod(verb) {
        ok := Match(url, engine);
      }
    }

    /** The router picks this route for a request. */
    predicate Dispatches(verb: string, url: string, engine: Engine)
      reads this`params
    {
      HasMethod(verb) && Attempt(path, params, url, engine).Some?
    }
  }

  /** The position of the first route the router picks, or the number of
      routes when none does. */
  function FirstDispatching<R>(routes: seq<Route<R>>, verb: string, url: string, engine: Engine): (k: nat)
    reads (set r | r in routes)`params
    ensures k <= |routes|
    ensures forall j :: 0 <= j < k ==> !routes[j].Dispatches(verb, url, engine)
    ensures k < |routes| ==> routes[k].Dispatches(verb, url, engine)
    decreases |routes|
  {
    if routes == [] then 0
    else if routes[0].Dispatches(verb, url, engine) then 0
    else 1 + FirstDispatching(routes[1..], verb, url, engine)
  }

  class Router<R> {
    var routes: seq<Route<R>>

    /** Each route object appears once. */
    ghost predicate Valid()
      reads this
    {
      forall i, j :: 0 <= i < j < |routes| ==> routes[i] != routes[j]
    }

    constructor ()
      ensures Valid() && routes == []
    {
      routes := [];
    }

    /** `addRoute`: builds the route as `new Route` would and appends it. */
    method AddRoute(path: string, callback: seq<string> -> R, verbs: Verbs) returns (route: Route<R>)
      requires Valid()
      modifies this
      ensures Valid() && fresh(route) && routes == old(routes) + [route]
      ensures route.path == Trim(path, '/') && route.callback == callback
      ensures route.methods == MethodList(verbs)
      ensures route.params == map[] && route.matches == []
    {
      route := new Route(path, callback, verbs);
      ghost var before := routes;
      routes := routes + [route];
      forall i, j | 0 <= i < j < |routes|
        ensures routes[i] != routes[j]
      {
        if j < |before| {
          assert routes[i] == before[i] && routes[j] == before[j];
        } else {
          assert routes[i] == before[i] && routes[j] == route;
        }
      }
    }

    /** `run($request)`: the result of the first route, in insertion order,
        that answers the request's method and matches its url. Routes whose
        verb list lacks the method are not matched and keep their captures;
        the others scanned before the chosen one end with no captures. */
    method Run(request: Network.Request, engine: Engine) returns (r: Result<R, Exception>)
      requires Valid()
      modifies routes
      ensures routes == old(routes)
      ensures forall j :: 0 <= j < |routes| ==> routes[j].params == old(routes[j].params)
      ensures var k := old(FirstDispatching(routes, request.httpMethod, request.url, engine));
        && (k < |routes| ==>
              && routes[k].matches == Attempt(routes[k].path, routes[k].params, request.url, engine).value
              && r == Success(routes[k].callback(routes[k].matches)))
        && (k == |routes| ==> r == Failure(RuntimeException("Route not found")))
        && (forall j :: 0 <= j < k && routes[j].HasMethod(request.httpMethod) ==> routes[j].matches == [])
        && (forall j :: 0 <= j < |routes| && (k < j || !routes[j].HasMethod(request.httpMethod)) ==>
              routes[j].matches == old(routes[j].matches))
    {
      var k := Scan(request.httpMethod, request.url, engine);
      if k < |routes| {
        r := Success(routes[k].Call());
      } else {
        r := Failure(RuntimeException("Route not found"));
      }
    }

    /** The loop of `run`: tries the routes in order and stops at the first
        that answers the verb and matches the url. */
    method Scan(verb: string, url: string, engine: Engine) returns (k: nat)
      requires Valid()
      modifies (set r | r in routes)`matches
      ensures routes == old(routes)
      ensures k == old(FirstDispatching(routes, verb, url, engine))
      ensures forall j :: 0 <= j < |routes| ==> routes[j].params == old(routes[j].params)
      ensures k < |routes| ==> routes[k].matches == Attempt(routes[k].path, routes[k].params, url, engine).value
      ensures forall j :: 0 <= j < |routes| && j != k ==>
        routes[j].matches == if j < k && routes[j].HasMethod(verb) then [] else old(routes[j].matches)
    {
      ghost var before := AllMatches();
      ghost var first := FirstDispatching(routes, verb, url, engine);
      k := 0;
      while k < |routes|
        invariant 0 <= k <= first
        invariant forall j :: 0 <= j < |routes| ==>
          routes[j].matches == if j < k && routes[j].HasMethod(verb) then [] else before[j]
      {
        var ok := Visit(k, verb, url, engine, before);
        if ok {
          return;
        }
        k := k + 1;
      }
    }

    /** One turn of that loop: tries the k-th route. The routes before it
        hold what the scan left them, given the captures `before` it began
        with. */
    method Visit(k: nat, verb: string, url: string, engine: Engine, ghost before: seq<seq<string>>) returns (ok: bool)
      requires Valid() && k < |routes| == |before|
      requires forall j :: 0 <= j < |routes| ==>
        routes[j].matches == if j < k && routes[j].HasMethod(verb) then [] else before[j]
      modifies {routes[k]}`matches
      ensures ok == routes[k].Dispatches(verb, url, engine)
      ensures ok ==> routes[k].matches == Attempt(routes[k].path, routes[k].params, url, engine).value
      ensures forall j :: 0 <= j < |routes| && (j != k || !ok) ==>
        routes[j].matches == if j <= k && routes[j].HasMethod(verb) then [] else before[j]
    {
      var route := routes[k];
      assert forall j :: 0 <= j < |routes| && j != k ==> routes[j] != route;
      ok := route.Try(verb, url, engine);
    }

    /** The captures of every route, in order. */
    ghost function AllMatches(): (ms: seq<seq<string>>)
      reads this, set r | r in routes
      ensures |ms| == |routes|
      ensures forall j :: 0 <= j < |routes| ==> ms[j] == routes[j].matches
    {
      seq(|routes|, (j: int) requires 0 <= j < |routes| reads this, set r | r in routes => routes[j].matches)
    }
  }
}
