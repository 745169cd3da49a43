# Gear core, modelled in Dafny

Gear is a small PHP web framework. This project models its core in Dafny and
proves properties of the model:

- **the dependency-injection container** (`Gear\Core\DIContainer`). It stores
  plain values and closures. A closure that was not marked with `factory` is
  shared: the first read runs it, stores the result and locks the key. A
  marked closure runs on every read.
- **the PSR-4 style class loader** (`Gear\Core\Autoloader`). It normalises
  namespace prefixes and base directories. It resolves a class name by trying
  its prefixes from the longest to the shortest, and each prefix's
  directories in registration order.
- **the collection** (`Gear\Util\Collection`), a PHP array with array and
  property access, over a model of PHP's ordered array (`PhpArray`).
- **request URL normalisation** (`Gear\Network\Request`). The constructor
  derives `base`, `url`, `method`, `ajax`, `scheme`, `protocol` and
  `isSecure` from the server variables.
- **routes and the router** (`Gear\Routing\Route`, `Gear\Routing\Router`):
  - a route path's `:name` placeholders and their constraints;
  - the case-insensitive, anchored match, each placeholder trying its
    longest capture first;
  - the router's first-match dispatch.
- **view data** (`Gear\View\View`): the directory normalisation, and the
  shared and per-template data.

Each PHP class whose methods update fields is a Dafny `class`. Its methods
are proved against a specification function of its old state:

| PHP class | Dafny class | specification functions |
|---|---|---|
| DIContainer | `DI.DIContainer` | `DI.Read`, `DI.Write`, `DI.Delete` |
| Autoloader | `Autoload.Autoloader` | `Autoload.Registered`, `Autoload.Mapped` |
| Collection | `Util.Collection` | `PhpArray` operations |
| Request | `Network.Request` | `Network.FromServer` |
| Route | `Routing.Route` | `Routing.Constrained`, `Routing.Attempt` |
| Router | `Routing.Router` | `Routing.FirstDispatching` |
| View | `Views.View` | `Views.AfterSetData` |

Route matching turns the path into a PCRE pattern. Here it is:

- a segment list (`Pattern.Compile`);
- a declarative meaning of a match (`Pattern.Fits`);
- a backtracking search (`Pattern.Search`) in which each placeholder tries
  its longest capture first, then shorter ones. This is the order in which
  PCRE backtracks through `([^/]+)` and through a constraint that is a
  single greedily quantified character class, such as `[0-9]+`. With a
  lazy quantifier, an alternation whose earlier branch is shorter, or a
  constraint made of several greedy parts, such as `a*(ab)?`, PCRE can
  settle on a shorter first capture.

The search is proved sound and complete against `Pattern.Fits`, and it
returns the longest possible first capture.
What a user-supplied constraint expression accepts is a parameter
(`Pattern.Engine`). The other things that stand in for the outside world are:

- the server variables, a map;
- the set of existing files;
- a call counter handed to container closures.

Two behaviours of the source are modelled as written:

- **Per-template view data is never stored.** `setData($data, 'name')` tests
  `isset` the wrong way round. The first call therefore merges an undefined
  entry, and `array_merge` with a null argument gives null. Every later call
  finds null and does the same. So `getData('name')` always returns the
  shared data (`Views.TemplatesStayUnset`, `Views.TemplateDataHidden`).
- **A `0` path segment is not wrapped.** The request URL `/0` is kept as it
  is, because PHP's `empty` treats `"0"` as empty
  (`Network.ZeroSegmentNotWrapped`).

## Model

| member | source | states |
|---|---|---|
| PhpString.Trim | gear/Routing/Route.php:60 | `trim($s, $c)` has no `c` at either end, is no longer than `s`, and is empty exactly when `s` consists of `c` only |
| PhpString.TrimMeaning | gear/Routing/Route.php:60 | `trim` removes exactly the leading and trailing runs of `c`: `s` is some `c`s, then the result, then some `c`s, and the result neither starts nor ends with `c` (`PhpString.TrimmedFrom`) |
| PhpString.TrimmedFromUnique | gear/Routing/Route.php:60 | that description leaves no choice: any string it fits is `trim`'s result |
| PhpString.TrimIdempotent | gear/Routing/Route.php:60 | trimming a trimmed string changes nothing |
| PhpString.TrimWrapped | gear/Network/Request.php:107 | a text without `c` at its ends, wrapped in one `c` on each side, trims back to itself |
| PhpString.TrimLeading | gear/Routing/Route.php:60 | one leading `c` before a text without `c` at its ends is removed by `trim` |
| PhpString.TrimRight | gear/View/View.php:117 | `rtrim` is a prefix, does not end in `c`, and everything it drops is `c` |
| PhpString.TrimLeft | gear/Routing/Route.php:60 | `ltrim` is a suffix, does not start with `c`, and everything it drops is `c` |
| PhpString.Lower | gear/Network/Request.php:113 | `strtolower` keeps the length and lowers each character |
| PhpString.LastIndex | gear/Core/Autoloader.php:91 | `strrpos` finds the last occurrence, and is false exactly when there is none |
| PhpString.ReplaceAllAbsent | gear/Network/Request.php:102 | `str_replace` with a needle that does not occur leaves the text unchanged |
| PhpString.RemoveCharDeletesAll | gear/Network/Request.php:102 | removing a one-character needle deletes every occurrence and keeps the count of every other character |
| PhpString.ReplaceAllHead | gear/Network/Request.php:102 | a leading needle is replaced and the rest is processed after it |
| PhpString.ReplaceAllSkip | gear/Network/Request.php:102 | a prefix in which no needle starts passes through `str_replace` unchanged |
| PhpString.NoOccurrenceBefore | gear/Network/Request.php:102 | a needle cannot start inside a prefix that lacks its first character |
| PhpString.ReplaceAll | gear/Network/Request.php:102-104 | `str_replace` with an empty needle leaves the text unchanged, and a replacement as long as the needle keeps the length; what it replaces is stated by `PhpString.ReplaceAllAbsent`, `PhpString.RemoveCharDeletesAll`, `PhpString.ReplaceAllHead` and `PhpString.ReplaceAllSkip` |
| PhpString.IsEmpty | gear/Network/Request.php:106-111 | no contract of its own: PHP's `empty` on a string, true for `""` and for `"0"`; its effect on urls is stated by `Network.NormaliseUrl` and `Network.ZeroSegmentNotWrapped` |
| PhpString.DropBasename | gear/Network/Request.php:101 | removing the last path component keeps a prefix that ends in `/`, and drops no `/` |
| PhpString.Dirname | gear/Network/Request.php:101 | `dirname` is empty exactly for the empty path and `/` for a path of slashes only; otherwise the last component and the slashes around it are dropped, and what is left before them gives `.` when it is empty, `/` when it is all slashes, and itself without its trailing slashes otherwise; any other result is a proper prefix of the path, followed there by `/`, and does not end in `/` |
| PhpString.DropBasenameOf | gear/Network/Request.php:101 | the basename of `dir + file` is `file` when `file` has no `/` |
| PhpString.DirnameOfScript | gear/Network/Request.php:101 | `dirname(dir . '/' . file)` is `dir`, or `/` for a script at the root |
| PhpArray.Empty | gear/Util/Collection.php:46 | `[]` is a valid array with no keys whose next free integer key is 0 |
| PhpArray.Set | gear/Util/Collection.php:167 | `$a[k] = v` overwrites in place or appends the key, and keeps the array valid |
| PhpArray.Append | gear/Util/Collection.php:165 | `$a[] = v` stores under the next free integer key, which was unused, at the end |
| PhpArray.Without | gear/Util/Collection.php:180 | removing a key from the order keeps the others in order and distinct |
| PhpArray.Unset | gear/Util/Collection.php:180 | `unset($a[k])` removes exactly that key and leaves the next free key alone |
| PhpArray.CountIsSize | gear/Util/Collection.php:241 | the count of a valid array is the number of stored keys |
| PhpArray.MergeLaterWins | gear/View/View.php:61 | `array_merge`: a string key is present when either array has it, and the later array's value wins |
| PhpArray.MergeRenumbers | gear/View/View.php:61 | `array_merge` renumbers integer keys 0, 1, 2, … over both arrays, and key `n` holds the `n`-th integer-keyed value of the first array followed by the second, each in key order |
| PhpArray.Merge | gear/View/View.php:61 | `array_merge` of valid arrays is valid; `PhpArray.MergeLaterWins` states its string keys and their values (the later array wins), and `PhpArray.MergeRenumbers` its integer keys and their values (renumbered, the first array's first) |
| PhpArray.PutAllStrings | gear/View/View.php:61 | writing a run of entries gives a string key its value from the run, or keeps its old one |
| PhpArray.PutAllDense | gear/View/View.php:61 | writing entries into a densely numbered array keeps it dense |
| PhpArray.PutAllKeepsInt | gear/View/View.php:61 | writing entries keeps the value under every integer key below the next free one |
| PhpArray.PutAllInt | gear/View/View.php:61 | writing entries stores their integer-keyed values, in order, under the keys from the next free one on |
| Util.Read | gear/Util/Collection.php:149-152 | a read gives the stored value when it is set and not null, and null otherwise |
| Util.ReadAfterSet | gear/Util/Collection.php:162-169 | a written value reads back, and no other key's read changes |
| Util.ReadAfterAppend | gear/Util/Collection.php:162-169 | an appended value reads back under the former next free key, which held nothing |
| Util.ReadAfterUnset | gear/Util/Collection.php:178-181 | after `unset` the key reads null, and no other key changes |
| Util.Collection.constructor | gear/Util/Collection.php:34-37 | the collection holds the given array |
| Util.Collection.Clear | gear/Util/Collection.php:44-47 | after `clear` the collection is empty, with count 0 and every key reading null |
| Util.Collection.GetData | gear/Util/Collection.php:54-57 | `getData` returns the stored array |
| Util.Collection.SetData | gear/Util/Collection.php:66-69 | `setData` replaces the whole array |
| Util.Collection.Keys | gear/Util/Collection.php:76-79 | `keys` lists every stored key once, in insertion order |
| Util.Collection.Exists | gear/Util/Collection.php:137-140 | `isset` is false for a missing key and for a stored null |
| Util.Collection.Get | gear/Util/Collection.php:149-152 | a read gives the stored value, or null when missing |
| Util.Collection.Set | gear/Util/Collection.php:162-169 | a null offset appends; any other offset stores or overwrites |
| Util.Collection.Unset | gear/Util/Collection.php:178-181 | `unset` removes only the given key |
| Util.Collection.Count | gear/Util/Collection.php:239-242 | `count` is the number of stored entries |
| DI.Read | gear/Core/DIContainer.php:71-90 | reading keeps the container valid: a held key still holds a plain value |
| DI.Has | gear/Core/DIContainer.php:59-62 | no contract of its own: `isset` of the stored value; `DI.ReadUnsetThrows` states that a read throws when it fails, and `DI.DIContainer.Exists` is the same test on the object |
| DI.Delete | gear/Core/DIContainer.php:152-156 | deleting keeps the container valid |
| DI.Write | gear/Core/DIContainer.php:115-130 | writing keeps the container valid |
| DI.MarkFactory | gear/Core/DIContainer.php:167-175 | `factory` refuses a non-closure with InvalidArgumentException, and returns the same closure marked |
| DI.ReadUnsetThrows | gear/Core/DIContainer.php:73-75 | a missing key, or one holding null, throws RuntimeException and changes nothing |
| DI.ReadPlainIsPure | gear/Core/DIContainer.php:77-79 | a plain value is returned as it is, with no change |
| DI.PlainReadsStable | gear/Core/DIContainer.php:77-79 | any number of reads of a plain value give the same answer and change nothing |
| DI.SharedRunsOnce | gear/Core/DIContainer.php:85-89 | a shared closure runs on the first read only; every read returns its first result; the key ends up held |
| DI.SharedNullLocksKey | gear/Core/DIContainer.php:85-89 | a shared closure returning null leaves the key unreadable and locked until it is deleted |
| DI.FactoryRunsEveryTime | gear/Core/DIContainer.php:81-83 | a factory's i-th read returns the closure's i-th fresh result, and only the call count changes |
| DI.WriteRefused | gear/Core/DIContainer.php:117-123 | a null offset throws InvalidArgumentException, a held key throws RuntimeException, and the state stays |
| DI.WriteStores | gear/Core/DIContainer.php:125-129 | a write to an unheld key stores the entry, leaves the key unheld and other keys as they were |
| DI.WriteThenRead | tests/Core/DIContainerTest.php:8-13 | a stored plain value reads back the same; a stored factory runs on the read |
| DI.DeleteReleases | gear/Core/DIContainer.php:152-156 | delete has no hold check, so the key is absent and writable afterwards |
| DI.MarkedClosureIsFactory | gear/Core/DIContainer.php:167-175 | a marked and stored closure is called anew on every read |
| DI.DIContainer.constructor | gear/Core/DIContainer.php:47-50 | a new container is empty, with nothing held |
| DI.DIContainer.Exists | gear/Core/DIContainer.php:59-62 | `offsetExists` is `isset` of the stored value |
| DI.DIContainer.Get | gear/Core/DIContainer.php:71-90 | `offsetGet` returns and leaves the state that `DI.Read` gives |
| DI.DIContainer.Set | gear/Core/DIContainer.php:115-130 | `offsetSet` returns and leaves the state that `DI.Write` gives |
| DI.DIContainer.Unset | gear/Core/DIContainer.php:152-156 | `offsetUnset` leaves the state that `DI.Delete` gives |
| Table.Extend | gear/Core/Autoloader.php:64-73 | appending to a prefix's list creates it if missing and changes no other prefix |
| Table.ExtendEmpty | gear/Core/Autoloader.php:64-66 | creating a missing list adds nothing to an existing one |
| Table.ExtendTwice | gear/Core/Autoloader.php:67-70 | two appends to one list are one append of both runs |
| Table.ExtendAllKeys | gear/Core/Autoloader.php:57-60 | after a run of registrations a prefix is present exactly when it was before or some entry names it |
| Table.ExtendAllItems | gear/Core/Autoloader.php:57-60 | after a run of registrations a prefix's list is its old list plus, in order, every entry's items for it |
| Table.NoneForKey | gear/Core/Autoloader.php:57-60 | entries that never name a prefix give it nothing |
| Table.MapSeq | gear/Core/Autoloader.php:67-70 | mapping keeps the length and order |
| Table.MapSeqSnoc | gear/Core/Autoloader.php:67-70 | mapping one more element appends its image |
| Autoload.NormPrefix | gear/Core/Autoloader.php:62 | a normalised prefix ends in exactly one `\` and does not start with one |
| Autoload.NormPrefixMeaning | gear/Core/Autoloader.php:62 | before its final `\`, a normalised prefix is the argument with its leading and trailing runs of `\` removed |
| Autoload.NormPrefixIdempotent | gear/Core/Autoloader.php:62 | normalising a normalised prefix changes nothing |
| Autoload.Dirs | gear/Core/Autoloader.php:67-73 | one directory gives one normalised entry; a list gives its normalised entries in order |
| Autoload.WithDirs | gear/Core/Autoloader.php:62-73 | registering directories appends them to the prefix's list and changes no other prefix |
| Autoload.MappingRegistersEach | gear/Core/Autoloader.php:57-60 | a prefix map registers each entry in turn: presence, its list's order, and untouched prefixes |
| Autoload.MappingKeys | gear/Core/Autoloader.php:57-60 | after an array of prefixes, a prefix is registered exactly when it was before or some entry normalises to it |
| Autoload.MappingItems | gear/Core/Autoloader.php:57-60 | after an array of prefixes, a prefix's list is its old list followed by the directories of its entries, in order |
| Autoload.MappingUntouched | gear/Core/Autoloader.php:57-60 | a prefix that no entry names keeps its list |
| Autoload.FirstFound | gear/Core/Autoloader.php:120-127 | the result is the candidate of the first directory whose file exists, or false when none does |
| Autoload.Mapped | gear/Core/Autoloader.php:114-128 | an unregistered prefix gives false; a found file exists; the result is false exactly when no directory of the prefix has an existing candidate file |
| Autoload.MappedFirst | gear/Core/Autoloader.php:120-125 | a found file is the candidate of the first of the prefix's directories, in order, whose candidate exists |
| Autoload.Candidate | gear/Core/Autoloader.php:121 | the candidate file of a directory starts with that directory and ends in `.php` |
| Autoload.Registered | gear/Core/Autoloader.php:55-78 | no contract of its own: the table after one `addNamespace`; `Autoload.WithDirs`, `Autoload.MappingRegistersEach`, `Autoload.MappingKeys`, `Autoload.MappingItems` and `Autoload.MappingUntouched` state what it holds |
| Autoload.Autoloader.constructor | gear/Core/Autoloader.php:32-35 | the new loader holds the prefixes registered from its arguments |
| Autoload.Autoloader.AddPrefix | gear/Core/Autoloader.php:61-74 | one prefix gains its normalised directories at the end of its list |
| Autoload.Autoloader.AddDirs | gear/Core/Autoloader.php:67-70 | the loop over an array of base directories appends their normalised forms, in order, to one prefix's list |
| Autoload.Autoloader.AddNamespace | gear/Core/Autoloader.php:55-78 | `addNamespace` leaves the table that `Autoload.Registered` gives, and returns the loader itself for chaining |
| Autoload.Autoloader.LoadMappedFile | gear/Core/Autoloader.php:114-128 | the loop returns what `Autoload.Mapped` gives |
| Autoload.Autoloader.LoadClass | gear/Core/Autoloader.php:87-104 | a found file exists; a name without `\` gives false; the result comes from the longest prefix split that has an existing file |
| Network.ServerValue | gear/Network/Request.php:141-144 | `getValue` gives the server value when present, else the default |
| Network.Base | gear/Network/Request.php:101 | no contract of its own: `dirname` of SCRIPT_NAME; `Network.UrlUnderSubdirectory` and `Network.UrlAtWebRoot` state what it is for a script in a subdirectory and at the root |
| Network.Stripped | gear/Network/Request.php:102-105 | no contract of its own: REQUEST_URI with the base and, when a `?` remains, the query string removed; `Network.UrlUnderSubdirectory`, `Network.QueryRemovedUnderSubdirectory` and `Network.UrlAtWebRoot` state what remains |
| Network.Url | gear/Network/Request.php:101-111 | the url a request keeps is never empty; its shape and stability are stated by `Network.NormaliseUrlShape` and `Network.NormaliseUrlStable` |
| Network.NormaliseUrl | gear/Network/Request.php:106-111 | a non-empty trimmed url is wrapped in single slashes; an empty url becomes `/`; otherwise it is kept |
| Network.FromServer | gear/Network/Request.php:99-116 | the fields derived from the server variables: REQUEST_METHOD, REQUEST_SCHEME and SERVER_PROTOCOL are taken as given when present, and are `GET`, `http` and `HTTP/1.1` otherwise; the url is `Network.Url` and the base `Network.Base`; `isSecure` iff the scheme is `https`; `ajax` iff the lowered header is `xmlhttprequest` |
| Network.Request.constructor | gear/Network/Request.php:99-121 | the constructor's step-by-step rewriting sets the fields `Network.FromServer` gives |
| Network.Request.Get | gear/Network/Request.php:117-131 | `__get` gives each of the seven fields under its own name, and for `query`, `data`, `cookies` and `files` the collection built from `$_GET`, `$_POST`, `$_COOKIE` and `$_FILES`; any other name gives null |
| Network.NormaliseUrlShape | gear/Network/Request.php:106-111 | a normalised url is `/` or starts and ends with `/`, unless the trimmed remainder is `0`, in which case the url is kept as it was |
| Network.NormaliseUrlStable | gear/Network/Request.php:106-111 | normalising keeps the trimmed path, and normalising twice is normalising once |
| Network.ZeroSegmentNotWrapped | gear/Network/Request.php:106-111 | `/0` and `/0/` are kept as they are, and `0` becomes `/` |
| Network.UrlUnderSubdirectory | gear/Network/Request.php:101-111 | under a script in a subdirectory, the base is that directory and the url is the rest of the request uri, normalised |
| Network.QueryRemovedUnderSubdirectory | gear/Network/Request.php:102-105 | the query string and its `?` are removed from the url |
| Network.UrlAtWebRoot | gear/Network/Request.php:101-111 | at the web root the base is `/`, so every `/` of the request uri is removed before normalising |
| Network.BasicUrl | tests/Network/RequestTest.php:166 | request uri `/` under `/index.php` gives url `/` |
| Network.SubdirectoryRoot | tests/Network/RequestTest.php:167 | request uri `/` under `/gear/index.php` gives url `/` |
| Network.SubdirectoryWithQuery | tests/Network/RequestTest.php:168 | `/gear/blog/my-article?p=3` under `/gear/index.php` gives url `/blog/my-article/` |
| Pattern.WordRun | gear/Routing/Route.php:104 | the run of `\w` characters at the start of a text is maximal |
| Pattern.RenderFirst | gear/Routing/Route.php:104 | the text of segments starts with the first segment's first character |
| Pattern.RenderCompile | gear/Routing/Route.php:104 | compiling a path loses nothing: the segments' text is the path |
| Pattern.CompileWellFormed | gear/Routing/Route.php:104 | every path compiles to maximal, non-empty placeholder names |
| Pattern.CompileFirst | gear/Routing/Route.php:104 | a compiled path starts with a literal word character exactly when the path does |
| Pattern.CompileRender | gear/Routing/Route.php:104 | compiling the text of well-formed segments gives them back |
| Pattern.WellFormedTail | gear/Routing/Route.php:104 | the tail of well-formed segments is well formed |
| Pattern.CompileLit | gear/Routing/Route.php:104 | a literal character compiles to one literal segment |
| Pattern.CompileParam | gear/Routing/Route.php:104 | `:name` followed by a non-word character compiles to one placeholder |
| Pattern.WordRunOf | gear/Routing/Route.php:104 | the word run of a word followed by a non-word character is that word |
| Pattern.Compile | gear/Routing/Route.php:104 | no contract of its own: the segments `preg_replace_callback('#:([\w]+)#', …)` sees; `Pattern.RenderCompile`, `Pattern.CompileRender` and `Pattern.CompileWellFormed` state that compiling loses nothing and gives maximal placeholder names |
| Pattern.ParamNames | gear/Routing/Route.php:120-126 | the names listed are exactly the placeholders' names, at most one per segment, and there are as many names as segments exactly when every segment is a placeholder |
| Pattern.SearchSound | gear/Routing/Route.php:105 | whatever the matcher returns is a match of the whole url |
| Pattern.LongestSound | gear/Routing/Route.php:105 | the longest-first step returns only matches |
| Pattern.SearchComplete | gear/Routing/Route.php:105 | if any split of the url matches, the matcher finds a match |
| Pattern.LongestComplete | gear/Routing/Route.php:105 | the longest-first step misses no match |
| Pattern.SearchGreedy | gear/Routing/Route.php:105 | the first placeholder's capture is at least as long as in any other match |
| Pattern.LongestGreedy | gear/Routing/Route.php:105 | the longest-first step returns the longest possible first capture |
| Pattern.FitsCaptures | gear/Routing/Route.php:105-109 | a match has one capture per placeholder, in order, each accepted by its constraint or by `[^/]+` |
| Pattern.Search | gear/Routing/Route.php:105 | no contract of its own: the anchored match of the compiled path; `Pattern.SearchSound`, `Pattern.SearchComplete` and `Pattern.SearchGreedy` state that it returns only fits, misses none, and takes the longest first capture |
| Pattern.Longest | gear/Routing/Route.php:105 | no contract of its own: a placeholder's captures tried from the longest down; `Pattern.LongestSound`, `Pattern.LongestComplete` and `Pattern.LongestGreedy` state its meaning |
| Routing.VerbMembership | tests/Routing/RouteTest.php:19-32 | `*` accepts exactly the five verbs; one verb accepts only itself; a list accepts its members |
| Routing.MethodList | gear/Routing/Route.php:62-69 | no contract of its own: the stored verb list; `Routing.VerbMembership` states which verbs it holds |
| Routing.NonCapturing | gear/Routing/Route.php:88 | no contract of its own: `str_replace('(', '(?:', …)`; `Routing.NonCapturingGroups`, `Routing.OpensNonCapturing` and `Routing.KeepsParenCount` state its effect |
| Routing.NonCapturingGroups | gear/Routing/Route.php:88 | after rewriting, every `(` opens `(?:`, the number of `(` is unchanged, and a constraint without `(` is kept |
| Routing.NonCapturingStep | gear/Routing/Route.php:88 | the first character is rewritten on its own (`(` to `(?:`) and the rest independently |
| Routing.OpensNonCapturing | gear/Routing/Route.php:88 | every `(` of a rewritten constraint is followed by `?:` |
| Routing.KeepsParenCount | gear/Routing/Route.php:88 | the rewriting keeps the number of `(` |
| Routing.ConstrainAll | gear/Routing/Route.php:83-86 | no contract of its own: the constraints after each entry in turn; `Routing.ConstrainAllLookup` states the result for every name |
| Routing.Constrained | gear/Routing/Route.php:81-91 | no contract of its own: one name constrained by its rewritten expression, or every entry of an array; `Routing.ConstrainAllLookup` and `Routing.Route.With` state the result |
| Routing.ConstrainAllLookup | gear/Routing/Route.php:81-91 | `with(array)`: a name is constrained when some entry names it; the last such entry wins; other names keep their constraint |
| Routing.AttemptMeaning | gear/Routing/Route.php:100-111 | a match exists exactly when some captures fit; the captures fit, one per placeholder, each accepted |
| Routing.Attempt | gear/Routing/Route.php:100-111 | no contract of its own: the match of the compiled path against the trimmed url; `Routing.AttemptMeaning` states when it succeeds and what it captures |
| Routing.Route.constructor | gear/Routing/Route.php:58-71 | the path is stored trimmed of `/`; `*` means five verbs, an array is kept, a string is one verb |
| Routing.Route.With | gear/Routing/Route.php:81-91 | `with` constrains as `Routing.Constrained` and keeps the captures |
| Routing.Route.Match | gear/Routing/Route.php:100-111 | `match` answers whether the anchored, case-insensitive match succeeds; it stores the captures, or none on failure |
| Routing.Route.Try | gear/Routing/Router.php:57 | the test `hasMethod && match` holds exactly when the route answers the verb and the match succeeds; `match` runs only when the verb is answered; the constraints are unchanged |
| Routing.Route.HasMethod | gear/Routing/Route.php:135-138 | no contract of its own: membership in the stored verb list; `Routing.VerbMembership` states it for each way of building a route |
| Routing.Route.Call | gear/Routing/Route.php:145-148 | no contract of its own: the callback applied to the stored captures; `RouteBehaviour.CallPlainScenario` and `RouteBehaviour.CallNamedScenario` show it |
| Routing.Route.GetMatches | gear/Routing/Route.php:155-158 | no contract of its own: the stored captures; `Routing.Route.Match` states what they are after a match |
| Routing.FirstDispatching | gear/Routing/Router.php:56-60 | the index of the first route that answers the verb and matches the url, or the number of routes |
| Routing.Router.constructor | gear/Routing/Router.php:26 | a new router has no routes |
| Routing.Router.AddRoute | gear/Routing/Router.php:38-43 | `addRoute` appends a new route built as the constructor builds it, and returns it |
| Routing.Router.Run | gear/Routing/Router.php:54-62 | `run` calls the first dispatching route's callback with its captures, or fails with "Route not found"; earlier routes that answer the verb hold no captures afterwards |
| Routing.Router.Scan | gear/Routing/Router.php:56-60 | the loop stops at the index `Routing.FirstDispatching` gives; the chosen route holds its captures, earlier routes that answer the verb hold none, all others keep theirs, and no constraint changes |
| Routing.Router.Visit | gear/Routing/Router.php:57 | one turn of the loop: the answer is whether the k-th route dispatches; only that route's captures change, to its captures on success and to none after a failed match |
| RouteBehaviour.LiteralFits | gear/Routing/Route.php:104-105 | a placeholder-free path fits a url exactly when the url spells it, letters compared up to case; it captures nothing |
| RouteBehaviour.LiteralRouteMatches | gear/Routing/Route.php:100-111 | a placeholder-free route matches exactly the urls whose trimmed text spells its path, and captures nothing |
| RouteBehaviour.FitsSharedPrefix | gear/Routing/Route.php:105 | a literal stretch shared by path and url can be skipped when matching |
| RouteBehaviour.LastCapture | gear/Routing/Route.php:105 | a trailing placeholder captures the rest of the url, or all of it but a final newline (`$`) |
| RouteBehaviour.IdSlugFits | tests/Routing/RouteTest.php:42-50 | `12-my-title` fits `:id-:slug` with `id` constrained to digits |
| RouteBehaviour.IdSlugUnique | tests/Routing/RouteTest.php:42-50 | under that constraint `12-my-title` fits only as `12`, `my-title` |
| RouteBehaviour.IdSlugRejects | tests/Routing/RouteTest.php:48 | `my-title-12` cannot fit, because `id` would have to start with `m` |
| RouteBehaviour.MatchWithHit | tests/Routing/RouteTest.php:42-47 | `/blog/:id-:slug` with digits for `id` matches `/blog/12-my-title`, capturing `12` and `my-title` |
| RouteBehaviour.MatchWithMiss | tests/Routing/RouteTest.php:48 | the same route does not match `/blog/my-title-12` |
| RouteBehaviour.HitFits | tests/Routing/RouteTest.php:42-47 | the text `blog/12-my-title` fits `blog/:id-:slug` with captures `12` and `my-title` |
| RouteBehaviour.HitUnique | tests/Routing/RouteTest.php:42-47 | no other captures fit that text |
| RouteBehaviour.MissNoFit | tests/Routing/RouteTest.php:48 | no captures at all fit the text `blog/my-title-12` |
| RouteBehaviour.NoFitNoMatch | gear/Routing/Route.php:105 | the match fails wherever no captures fit |
| RouteBehaviour.SoleParamFits | gear/Routing/Route.php:105 | an unconstrained trailing placeholder captures the whole remainder when it is non-empty and free of `/` |
| RouteBehaviour.NameCapture | tests/Routing/RouteTest.php:14-16 | `/blog/:name` against `/blog/john` captures exactly `john` |
| RouteBehaviour.DigitsConstraint | tests/Routing/RouteTest.php:45 | `with(['id' => '[0-9]+'])` on a fresh route stores exactly that constraint |
| RouteBehaviour.MatchRootScenario | tests/Routing/RouteTest.php:36-37 | the route `/` matches `/` |
| RouteBehaviour.MatchBlogScenario | tests/Routing/RouteTest.php:38-39 | the route `/blog` matches `/blog` |
| RouteBehaviour.CallPlainScenario | tests/Routing/RouteTest.php:11-12 | calling a route with no captures runs its callback with no arguments |
| RouteBehaviour.CallNamedScenario | tests/Routing/RouteTest.php:14-16 | after matching `/blog/john`, `call` passes `john` to the callback |
| RouteBehaviour.NamedRoute | tests/Routing/RouteTest.php:14-15 | the route built from `/blog/:name` captures exactly `john` from `/blog/john` |
| RouteBehaviour.GreetJohn | tests/Routing/RouteTest.php:14-16 | the test's callback gives `hello john` for the single capture `john` |
| RouteBehaviour.MatchWithScenario | tests/Routing/RouteTest.php:42-50 | on the route object: the match succeeds with first capture `12`, the second match fails and leaves no captures |
| PhpString.DirectoryPath | gear/View/View.php:117 | `rtrim($dir, '/') . '/'` ends in exactly one `/`; before it stands the argument with only its trailing `/` characters dropped (the same normalisation gives the loader's base directories, gear/Core/Autoloader.php:72) |
| PhpString.DirectoryPathStable | gear/View/View.php:115-118 | setting a normalised directory keeps it |
| PhpString.DirectoryPathAppends | gear/View/View.php:117 | a directory without a trailing slash gets one appended |
| Views.AfterSetData | gear/View/View.php:58-73 | `setData` keeps the shared and stored arrays valid |
| Views.SetSharedData | gear/View/View.php:60-61 | `setData($data)` leaves templates alone; data's keys win, other keys are kept |
| Views.TemplatesStayUnset | gear/View/View.php:66-71 | while no template holds data, `setData` never gives one any |
| Views.EachStaysUnset | gear/View/View.php:62-65 | the same for a list of template arguments |
| Views.AfterEach | gear/View/View.php:62-65 | the data after `setData` for each item of a list, in order, stays valid; `Views.EachStaysUnset` and `Views.SetDataForNames` state what it holds |
| Views.SetDataForNames | gear/View/View.php:62-65 | a list of names leaves the shared data alone and stores an entry for each listed name |
| Views.MergeStrings | gear/View/View.php:89 | `array_merge` on every string key at once, later values winning |
| Views.View.constructor | gear/View/View.php:45-48 | a new view has the normalised directory and no data |
| Views.View.SetDirectory | gear/View/View.php:115-118 | `setDirectory` stores the normalised directory and keeps the data |
| Views.View.GetDirectory | gear/View/View.php:103-106 | the directory is always normalised |
| Views.View.SetData | gear/View/View.php:58-73 | `setData` leaves the data that `Views.AfterSetData` gives, one template argument after another, and returns the view itself for chaining |
| Views.View.SetTemplateData | gear/View/View.php:66-71 | a string argument leaves the data that `Views.AfterSetData` gives for that name |
| Views.View.SetEach | gear/View/View.php:62-65 | the loop over a list leaves the data that `Views.AfterEach` gives, argument after argument |
| Views.View.GetData | gear/View/View.php:83-96 | null gives the shared data; a name with stored data gives the merge (template values win on string keys; integer keys are renumbered from 0, the shared data's values first); a name without gives the shared data; anything else gives `[]` |
| Views.TemplateDataHidden | gear/View/View.php:88-91 | while no template holds data, `getData($name)` is the shared data |

## Left out

- Registering the loader with `spl_autoload_register`, `require` of the found file (gear/Core/Autoloader.php:42-45, 140): these are I/O. Whether a file exists is the set `files`.
- `Gear\View\Template\Template`, `View::template` and `View::render`: file inclusion, output buffering and `extract` are I/O.
- `Gear\Core\Application` is not part of this model.
- The `query`, `data`, `cookies` and `files` collections of a request are represented only by the superglobal each is built from (`$_GET`, `$_POST`, `$_COOKIE`, `$_FILES`); the contents of those superglobals are input and are not modelled (gear/Network/Request.php:117-120).
- Response is not part of this model.
- `Collection`'s iterator methods (`current`, `key`, `next`, `rewind`, `valid`) are not modelled.
- PHP's conversion of numeric strings to integer keys is not modelled: `PhpArray` keys are integers or strings as given.
- Integer keys are unbounded: the overflow of the next free key at PHP_INT_MAX is not modelled.
- Routing.Route.Match: the general PCRE semantics of a constraint is the `Engine` parameter. A path with regular-expression metacharacters, such as `.` or a group, is read as literal text, and so is a constraint's escaped `\(`. Trying each placeholder's longest capture first agrees with PCRE only for `([^/]+)` and for a constraint that is a single greedily quantified character class, such as `[0-9]+`. A lazy quantifier, an alternation listing a shorter branch first, or a constraint made of several greedy parts can make PCRE capture less. For the path `:x:y` with `x` constrained to `a|ab`, the url `abc` gives `a`, `bc` in PCRE and `ab`, `c` in the model. With `x` constrained to `a*(ab)?`, the url `aabc` gives `aa`, `bc` in PCRE, because `a*` takes both `a` and the optional group then matches nothing; the model gives `aab`, `c`.
- Routing.NonCapturingGroups: an escaped `\(` in a constraint is rewritten like any other `(`, as in the source; the model does not follow what PCRE then makes of it.
- Routing.Route.With: the return of `$this` for chaining is not modelled. A nested array of constraints is not modelled.
- Routing.Route.HasMethod uses strict membership; `in_array`'s loose comparison of non-strings is not modelled. `Routing.Route.Call` and `Routing.Route.GetMatches` are direct reads with no contract of their own.
- DI.Read: a closure's access to the container is modelled as a call counter, so a closure that reads or writes the container while it runs is not modelled.
- DI.Read: the value a shared closure returns is stored as a plain value. In the source, a callable result would be called again on the next read (gear/Core/DIContainer.php:77-89); callable results are not modelled.
- DI.Delete: always succeeds. In the source, `offsetUnset` of a plain or missing value hands a non-object to `SplObjectStorage` (gear/Core/DIContainer.php:154), which PHP 5 and 7 report as a warning and PHP 8 as a TypeError; neither is modelled.
- Routing.Route.Call: a route callback is a total function from the captures to a result. Exceptions it throws, its side effects, and arity errors when it takes a different number of arguments are not modelled.
- DI.MarkFactory: the factory mark is a property of the stored entry. The source marks the closure object itself, so one closure stored under two keys shares one mark. Strings naming functions, which PHP also treats as callable, are not modelled.
- Autoload.Dirs: a base-directory list nested inside another list is not modelled.
- Views.AfterSetData: template arguments are null, a string, a list or "other". The behaviour under PHP 8, where `array_merge(null, …)` throws, is not modelled.
- Network.Request.constructor: the fields are computed in locals and assigned at the end, rather than by rewriting `$this->url` in place; the resulting values are the same.
