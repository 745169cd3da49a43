// Gear\Network\Request: what the framework derives from the server
// variables of one HTTP request. The server variables are passed in as a
// map instead of being read from the process-wide `$_SERVER`.
module Network {
  import opened Php
  import opened PhpString

  /** `getValue`: the server variable if it is set, otherwise the default. */
  function ServerValue(server: map<string, string>, key: string, default: string): (r: string)
    ensures key in server ==> r == server[key]
    ensures key !in server ==> r == default
  {
    if key in server then server[key] else default
  }

  /** The directory of the running script (`dirname` of SCRIPT_NAME). */
  function Base(server: map<string, string>): string {
    Dirname(ServerValue(server, "SCRIPT_NAME", ""))
  }

  /** REQUEST_URI with every occurrence of the base removed and, when a `?`
      remains, every occurrence of `?` + QUERY_STRING removed. */
  function Stripped(server: map<string, string>): string {
    var url := ReplaceAll(ServerValue(server, "REQUEST_URI", "/"), Base(server), "");
    if '?' in url then ReplaceAll(url, "?" + ServerValue(server, "QUERY_STRING", ""), "") else url
  }

  /** The re-wrapping of the stripped url: a non-empty trimmed remainder is
      put between single slashes; an empty url becomes "/". PHP's `empty`
      holds for "0", so a remainder "0" is neither wrapped nor replaced
      unless the whole url is "0". */
  function NormaliseUrl(raw: string): (u: string)
    ensures u != []
    ensures !IsEmpty(Trim(raw, '/')) ==> u == "/" + Trim(raw, '/') + "/"
    ensures IsEmpty(Trim(raw, '/')) && IsEmpty(raw) ==> u == "/"
    ensures IsEmpty(Trim(raw, '/')) && !IsEmpty(raw) ==> u == raw
  {
    var t := Trim(raw, '/');
    var url := if !IsEmpty(t) then "/" + t + "/" else raw;
    if IsEmpty(url) then "/" else url
  }

  /** The url a request keeps. */
  function Url(server: map<string, string>): (r: string)
    ensures r != []
  {
    NormaliseUrl(Stripped(server))
  }

  /** The fields the constructor sets, as one value. */
  datatype Fields = Fields(
    url: string,
    base: string,
    httpMethod: string,
    ajax: bool,
    scheme: string,
    protocol: string,
    isSecure: bool)

  /** What the constructor derives from the server variables. */
  function FromServer(server: map<string, string>): (r: Fields)
    ensures r.url == Url(server) && r.url != []
    ensures r.base == Base(server)
    ensures r.isSecure <==> r.scheme == "https"
    ensures r.ajax <==> Lower(ServerValue(server, "HTTP_X_REQUESTED_WITH", "")) == "xmlhttprequest"
    ensures "REQUEST_METHOD" in server ==> r.httpMethod == server["REQUEST_METHOD"]
    ensures "REQUEST_METHOD" !in server ==> r.httpMethod == "GET"
    ensures "REQUEST_SCHEME" in server ==> r.scheme == server["REQUEST_SCHEME"]
    ensures "REQUEST_SCHEME" !in server ==> r.scheme == "http"
    ensures "SERVER_PROTOCOL" in server ==> r.protocol == server["SERVER_PROTOCOL"]
    ensures "SERVER_PROTOCOL" !in server ==> r.protocol == "HTTP/1.1"
  {
    var scheme := ServerValue(server, "REQUEST_SCHEME", "http");
    Fields(
      Url(server),
      Base(server),
      ServerValue(server, "REQUEST_METHOD", "GET"),
      Lower(ServerValue(server, "HTTP_X_REQUESTED_WITH", "")) == "xmlhttprequest",
      scheme,
      ServerValue(server, "SERVER_PROTOCOL", "HTTP/1.1"),
      scheme == "https")
  }

  /** A property value readable through `__get`: a string, a boolean, or
      the `Collection` the constructor builds from a superglobal, named by
      that superglobal (its contents are not part of this model). */
  datatype Property = Text(s: string) | Flag(b: bool) | CopyOf(superglobal: string)

  class Request {
    var url: string
    var base: string
    var httpMethod: string
    var ajax: bool
    var scheme: string
    var protocol: string
    var isSecure: bool

    function Snapshot(): Fields
      reads this
    {
      Fields(url, base, httpMethod, ajax, scheme, protocol, isSecure)
    }

    /** The constructor: the base first, then the url rewritten step by
        step, then the remaining fields. */
    constructor (server: map<string, string>)
      ensures Snapshot() == FromServer(server)
    {
      var dir := Dirname(ServerValue(server, "SCRIPT_NAME", ""));
      var path := ReplaceAll(ServerValue(server, "REQUEST_URI", "/"), dir, "");
      if '?' in path {
        path := ReplaceAll(path, "?" + ServerValue(server, "QUERY_STRING", ""), "");
      }
      ghost var raw := path;
      assert raw == Stripped(server);
      if !IsEmpty(Trim(path, '/')) {
        path := "/" + Trim(path, '/') + "/";
      }
      if IsEmpty(path) {
        path := "/";
      }
      assert path == NormaliseUrl(raw);
      var requestScheme := ServerValue(server, "REQUEST_SCHEME", "http");
      base := dir;
      url := path;
      httpMethod := ServerValue(server, "REQUEST_METHOD", "GET");
      ajax := Lower(ServerValue(server, "HTTP_X_REQUESTED_WITH", "")) == "xmlhttprequest";
      scheme := requestScheme;
      protocol := ServerValue(server, "SERVER_PROTOCOL", "HTTP/1.1");
      isSecure := requestScheme == "https";
    }

    /** `__get`: a property by name; every property is set once the
        constructor has run, and any other name reads as null. */
    function Get(name: string): (r: Nullable<Property>)
      reads this
      ensures r.Val? <==> name in {"url", "base", "method", "ajax", "scheme", "protocol", "isSecure",
                                   "query", "data", "cookies", "files"}
      ensures name == "url" ==> r == Val(Text(url))
      ensures name == "base" ==> r == Val(Text(base))
      ensures name == "method" ==> r == Val(Text(httpMethod))
      ensures name == "ajax" ==> r == Val(Flag(ajax))
      ensures name == "scheme" ==> r == Val(Text(scheme))
      ensures name == "protocol" ==> r == Val(Text(protocol))
      ensures name == "isSecure" ==> r == Val(Flag(isSecure))
      ensures name == "query" ==> r == Val(CopyOf("_GET"))
      ensures name == "data" ==> r == Val(CopyOf("_POST"))
      ensures name == "cookies" ==> r == Val(CopyOf("_COOKIE"))
      ensures name == "files" ==> r == Val(CopyOf("_FILES"))
    {
      if name == "url" then Val(Text(url))
      else if name == "base" then Val(Text(base))
      else if name == "method" then Val(Text(httpMethod))
      else if name == "ajax" then Val(Flag(ajax))
      else if name == "scheme" then Val(Text(scheme))
      else if name == "protocol" then Val(Text(protocol))
      else if name == "isSecure" then Val(Flag(isSecure))
      else if name == "query" then Val(CopyOf("_GET"))
      else if name == "data" then Val(CopyOf("_POST"))
      else if name == "cookies" then Val(CopyOf("_COOKIE"))
      else if name == "files" then Val(CopyOf("_FILES"))
      else Null
    }
  }

  /** The normalised url is "/" or starts and ends with "/", except when
      what remains between the slashes is "0": that url is kept as it was. */
  lemma NormaliseUrlShape(raw: string)
    ensures var u := NormaliseUrl(raw);
      u == "/" || (u[0] == '/' && u[|u| - 1] == '/') || (Trim(raw, '/') == "0" && u == raw)
  {
    var t := Trim(raw, '/');
    if t == "" && raw != "" && raw != "0" {
      assert raw[0] == '/' && raw[|raw| - 1] == '/';
    }
  }

  /** Normalising keeps what lies between the outer slashes (unless the
      whole url is "0"), and a normalised url is left as it is. */
  lemma {:induction false} NormaliseUrlStable(raw: string)
    ensures raw != "0" ==> Trim(NormaliseUrl(raw), '/') == Trim(raw, '/')
    ensures NormaliseUrl(NormaliseUrl(raw)) == NormaliseUrl(raw)
  {
    var t := Trim(raw, '/');
    if !IsEmpty(t) {
      var u := "/" + t + "/";
      assert NormaliseUrl(raw) == u;
      TrimWrapped(t, '/');
      assert Trim(u, '/') == t;
      assert NormaliseUrl(u) == u;
    } else if IsEmpty(raw) {
      var u := "/";
      assert NormaliseUrl(raw) == u;
      assert Trim(u, '/') == [];
      assert !IsEmpty(u);
      assert NormaliseUrl(u) == u;
    } else {
      assert NormaliseUrl(raw) == raw;
    }
  }

  /** A remainder of "0" is not wrapped, because PHP's `empty("0")` holds:
      "/0" and "/0/" are kept as they are, while "0" itself becomes "/". */
  lemma ZeroSegmentNotWrapped(raw: string)
    requires raw in {"/0", "/0/", "0"}
    ensures NormaliseUrl(raw) == if raw == "0" then "/" else raw
  {
    var zero := "0";
    if raw == "/0" {
      assert raw == "/" + zero;
      TrimLeading(zero, '/');
    } else if raw == "/0/" {
      assert raw == "/" + zero + "/";
      TrimWrapped(zero, '/');
    } else {
      TrimUntouched(zero, '/');
    }
  }

  /** Under a script in a sub-directory `dir`, a request uri made of `dir`
      followed by a remainder in which `dir` does not occur and which has no
      `?` keeps exactly that remainder, normalised. */
  lemma UrlUnderSubdirectory(server: map<string, string>, dir: string, file: string, rest: string)
    requires ServerValue(server, "SCRIPT_NAME", "") == dir + "/" + file
    requires file != [] && '/' !in file && dir != [] && dir[|dir| - 1] != '/'
    requires ServerValue(server, "REQUEST_URI", "/") == dir + rest
    requires forall i :: 0 <= i <= |rest| ==> !OccursAt(rest, dir, i)
    requires '?' !in rest
    ensures Base(server) == dir
    ensures Url(server) == NormaliseUrl(rest)
  {
    DirnameOfScript(dir, file);
    ReplaceAllHead(dir, rest, "");
    ReplaceAllAbsent(rest, dir, "");
    assert Stripped(server) == rest;
  }

  /** The same with a query string: `?` + QUERY_STRING at the end of the uri
      is removed as well. */
  lemma QueryRemovedUnderSubdirectory(server: map<string, string>, dir: string, file: string, path: string, query: string)
    requires ServerValue(server, "SCRIPT_NAME", "") == dir + "/" + file
    requires file != [] && '/' !in file && dir != [] && dir[|dir| - 1] != '/'
    requires ServerValue(server, "REQUEST_URI", "/") == dir + (path + ("?" + query))
    requires ServerValue(server, "QUERY_STRING", "") == query
    requires forall i :: 0 <= i <= |path + ("?" + query)| ==> !OccursAt(path + ("?" + query), dir, i)
    requires '?' !in path
    ensures Base(server) == dir
    ensures Url(server) == NormaliseUrl(path)
  {
    var q := "?" + query;
    var rest := path + q;
    DirnameOfScript(dir, file);
    ReplaceAllHead(dir, rest, "");
    ReplaceAllAbsent(rest, dir, "");
    assert rest[|path|] == '?';
    NoOccurrenceBefore(path, q, q);
    ReplaceAllSkip(path, q, q, "");
    ReplaceAllHead(q, [], "");
    assert q + [] == q;
    assert path + "" == path;
    assert ReplaceAll(rest, q, "") == path;
    assert Base(server) == dir;
    var removed := ReplaceAll(ServerValue(server, "REQUEST_URI", "/"), dir, "");
    assert removed == rest;
    assert '?' in removed;
    assert "?" + ServerValue(server, "QUERY_STRING", "") == q;
    assert Stripped(server) == path;
  }

  /** Under a script at the web root the base is "/", so every `/` of a uri
      without `?` is removed and every other character is kept; what remains
      is wrapped in slashes unless it is empty or "0". */
  lemma UrlAtWebRoot(server: map<string, string>, file: string)
    requires ServerValue(server, "SCRIPT_NAME", "") == "/" + file
    requires file != [] && '/' !in file
    requires '?' !in ServerValue(server, "REQUEST_URI", "/")
    ensures Base(server) == "/"
    ensures var uri := ServerValue(server, "REQUEST_URI", "/");
      var removed := ReplaceAll(uri, "/", "");
      && '/' !in removed
      && (forall ch :: ch != '/' ==> multiset(removed)[ch] == multiset(uri)[ch])
      && Url(server) == NormaliseUrl(removed)
      && (removed != "" && removed != "0" ==> Url(server) == "/" + removed + "/")
  {
    assert "/" + file == [] + "/" + file;
    DirnameOfScript([], file);
    var uri := ServerValue(server, "REQUEST_URI", "/");
    RemoveCharDeletesAll(uri, '/');
    var removed := ReplaceAll(uri, "/", "");
    forall ch | ch in removed
      ensures ch in uri
    {
      assert multiset(removed)[ch] == multiset(uri)[ch];
    }
    if removed != [] {
      assert removed[0] != '/' && removed[|removed| - 1] != '/';
      TrimUntouched(removed, '/');
    }
  }

  /** "/" under "/index.php" is "/". */
  lemma BasicUrl(server: map<string, string>)
    requires server == map["REQUEST_URI" := "/", "SCRIPT_NAME" := "/index.php"]
    ensures Url(server) == "/"
  {
    var slash, file := "/", "index.php";
    assert "REQUEST_URI"[0] != "SCRIPT_NAME"[0];
    assert ServerValue(server, "SCRIPT_NAME", "") == slash + file;
    UrlAtWebRoot(server, file);
    ReplaceAllHead(slash, [], "");
    assert slash + [] == slash;
  }

  /** "/" under "/gear/index.php" is "/". */
  lemma SubdirectoryRoot(server: map<string, string>)
    requires server == map["REQUEST_URI" := "/", "SCRIPT_NAME" := "/gear/index.php"]
    ensures Url(server) == "/"
  {
    var dir, file, slash := "/gear", "index.php", "/";
    assert "REQUEST_URI"[0] != "SCRIPT_NAME"[0];
    assert ServerValue(server, "SCRIPT_NAME", "") == dir + "/" + file;
    DirnameOfScript(dir, file);
    assert ServerValue(server, "REQUEST_URI", "/") == slash;
    assert ReplaceAll(slash, dir, "") == slash;
    assert TrimRight(slash, '/') == TrimRight(slash[..0], '/');
  }

  /** "/gear" occurs nowhere in "/blog/my-article?p=3". */
  lemma DirectoryAbsent(s: string, dir: string)
    requires s == "/blog/my-article?p=3" && dir == "/gear"
    ensures forall i :: 0 <= i <= |s| ==> !OccursAt(s, dir, i)
  {
    forall i | 0 <= i <= |s|
      ensures !OccursAt(s, dir, i)
    {
      if i + 5 <= |s| {
        assert s[i..i + 5][1] == s[i + 1];
        assert s[i..i + 5][0] == s[i];
      }
    }
  }

  /** "/blog/my-article" is wrapped into "/blog/my-article/". */
  lemma ArticleWrapped(path: string)
    requires path == "/blog/my-article"
    ensures NormaliseUrl(path) == path + "/"
  {
    var inner := "blog/my-article";
    assert path == "/" + inner;
    TrimLeading(inner, '/');
    assert inner[0] != '0';
  }

  /** The request for "/gear/blog/my-article?p=3": its script name. */
  lemma ArticleScript(server: map<string, string>, dir: string, file: string)
    requires server == map[
      "REQUEST_URI" := "/gear/blog/my-article?p=3",
      "SCRIPT_NAME" := "/gear/index.php",
      "QUERY_STRING" := "p=3"]
    requires dir == "/gear" && file == "index.php"
    ensures ServerValue(server, "SCRIPT_NAME", "") == dir + "/" + file
  {
  }

  /** The request for "/gear/blog/my-article?p=3": its request URI. */
  lemma ArticleUri(server: map<string, string>, dir: string, path: string, query: string)
    requires server == map[
      "REQUEST_URI" := "/gear/blog/my-article?p=3",
      "SCRIPT_NAME" := "/gear/index.php",
      "QUERY_STRING" := "p=3"]
    requires dir == "/gear" && path == "/blog/my-article" && query == "p=3"
    ensures ServerValue(server, "REQUEST_URI", "/") == dir + (path + ("?" + query))
  {
    assert "REQUEST_URI"[0] != "SCRIPT_NAME"[0];
  }

  /** The request for "/gear/blog/my-article?p=3": its query string. */
  lemma ArticleQuery(server: map<string, string>, query: string)
    requires server == map[
      "REQUEST_URI" := "/gear/blog/my-article?p=3",
      "SCRIPT_NAME" := "/gear/index.php",
      "QUERY_STRING" := "p=3"]
    requires query == "p=3"
    ensures ServerValue(server, "QUERY_STRING", "") == query
  {
  }

  /** The pieces of that request meet the side conditions of
      `QueryRemovedUnderSubdirectory`. */
  lemma ArticleParts(dir: string, file: string, path: string)
    requires dir == "/gear" && file == "index.php" && path == "/blog/my-article"
    ensures file != [] && '/' !in file && dir != [] && dir[|dir| - 1] != '/'
    ensures '?' !in path
  {
  }

  /** "/gear/blog/my-article?p=3" under "/gear/index.php" with query string
      "p=3" is "/blog/my-article/". */
  lemma SubdirectoryWithQuery(server: map<string, string>)
    requires server == map[
      "REQUEST_URI" := "/gear/blog/my-article?p=3",
      "SCRIPT_NAME" := "/gear/index.php",
      "QUERY_STRING" := "p=3"]
    ensures Url(server) == "/blog/my-article/"
  {
    var dir, file, path, query := "/gear", "index.php", "/blog/my-article", "p=3";
    var rest := path + ("?" + query);
    ArticleScript(server, dir, file);
    ArticleUri(server, dir, path, query);
    ArticleQuery(server, query);
    ArticleParts(dir, file, path);
    DirectoryAbsent(rest, dir);
    QueryRemovedUnderSubdirectory(server, dir, file, path, query);
    ArticleWrapped(path);
  }
}
