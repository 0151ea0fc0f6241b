/**
 Layer 7 routing: rules that match on method, path and headers, a table kept sorted by priority, and the
 process-wide cache of compiled patterns that matching goes through.
 */
module Routers {
  import opened Wrappers

  // ---------- patterns ----------

  /**
   The regular expression library as the router sees it: compiling a pattern may fail, and a compiled
   pattern accepts or rejects a text.
   */
  datatype Engine<!R> = Engine(compile: string -> Option<R>, isMatch: (R, string) -> bool) {
    /** Matching without a cache; an invalid pattern matches nothing. */
    predicate Matches(pattern: string, text: string) {
      var regex := compile(pattern);
      regex.Some? && isMatch(regex.value, text)
    }
  }

  class RegexCache<R> {
    const engine: Engine<R>
    var entries: map<string, R>

    /** Every cached pattern is stored with its own compilation. */
    ghost predicate Valid()
      reads this
    {
      forall p <- entries :: engine.compile(p) == Some(entries[p])
    }

    constructor (engine: Engine<R>)
      ensures Valid() && this.engine == engine && entries == map[]
    {
      this.engine := engine;
      this.entries := map[];
    }

    method GetOrCompile(pattern: string) returns (regex: Option<R>)
      requires Valid()
      modifies this
      ensures Valid() && regex == engine.compile(pattern)
      ensures entries == if regex.Some? then old(entries)[pattern := regex.value] else old(entries)
    {
      if pattern in entries {
        return Some(entries[pattern]);
      }
      regex := engine.compile(pattern);
      if regex.Some? {
        entries := entries[pattern := regex.value];
      }
    }

    method Matches(pattern: string, text: string) returns (b: bool)
      requires Valid()
      modifies this
      ensures Valid() && b == engine.Matches(pattern, text)
    {
      var regex := GetOrCompile(pattern);
      b := regex.Some? && engine.isMatch(regex.value, text);
    }
  }

  // ---------- requests and routes ----------

  datatype Method = GET | POST | PUT | DELETE | PATCH | HEAD | OPTIONS | Other(name: string)

  /** A header value: its bytes, and whether they are all visible ASCII and so can be read as a text. */
  datatype HeaderValue = HeaderValue(bytes: string, readable: bool)

  /** A request, with its header map taken as a lookup by name. */
  datatype Request = Request(verb: Method, path: string, header: string -> Option<HeaderValue>)

  datatype MethodMatch = Get | Post | Put | Delete | Patch | Head | Options | Any {
    predicate Matches(m: Method) {
      match this
      case Any => true
      case Get => m == GET
      case Post => m == POST
      case Put => m == PUT
      case Delete => m == DELETE
      case Patch => m == PATCH
      case Head => m == HEAD
      case Options => m == OPTIONS
    }
  }

  datatype PathMatch = ExactPath(path: string) | PrefixPath(prefix: string) | RegexPath(pattern: string) {
    predicate Matches<R>(engine: Engine<R>, text: string) {
      match this
      case ExactPath(expected) => text == expected
      case PrefixPath(start) => start <= text
      case RegexPath(p) => engine.Matches(p, text)
    }

    function Priority(): nat {
      match this
      case ExactPath(_) => 100
      case PrefixPath(_) => 50
      case RegexPath(_) => 25
    }
  }

  /** The position of the first occurrence of `part` in `text`. */
  function FirstOccurrence(text: string, part: string): (r: Option<nat>)
    ensures r.Some? ==> r.value + |part| <= |text| && part <= text[r.value..]
                        && forall i :: 0 <= i < r.value ==> !(part <= text[i..])
    ensures r.None? ==> forall i :: 0 <= i <= |text| ==> !(part <= text[i..])
  {
    if part <= text then Some(0)
    else if text == [] then None
    else
      match FirstOccurrence(text[1..], part)
      case None =>
        assert forall i :: 1 <= i <= |text| ==> text[i..] == text[1..][i - 1..];
        None
      case Some(i) =>
        assert forall j :: 1 <= j <= |text| ==> text[j..] == text[1..][j - 1..];
        Some(i + 1)
  }

  predicate Contains(text: string, part: string) {
    FirstOccurrence(text, part).Some?
  }

  datatype HeaderMatch =
    | ExactHeader(name: string, value: string)
    | ContainsHeader(name: string, value: string)
    | RegexHeader(name: string, pattern: string)
    | Present(name: string)
    | Absent(name: string)
  {
    predicate Matches<R>(engine: Engine<R>, header: string -> Option<HeaderValue>) {
      var v := header(name);
      match this
      case ExactHeader(_, value) => v.Some? && v.value.bytes == value
      case ContainsHeader(_, value) => v.Some? && v.value.readable && Contains(v.value.bytes, value)
      case RegexHeader(_, p) => v.Some? && v.value.readable && engine.Matches(p, v.value.bytes)
      case Present(_) => v.Some?
      case Absent(_) => v.None?
    }
  }

  datatype Route = Route(
    name: string,
    path: PathMatch,
    verb: MethodMatch,
    headers: seq<HeaderMatch>,
    upstream: string,
    weight: nat,
    enabled: bool,
    timeoutMs: Option<nat>,
    rewrite: Option<string>)
  {
    function Priority(): nat {
      path.Priority()
    }

    predicate Matches<R>(engine: Engine<R>, q: Request) {
      && enabled
      && verb.Matches(q.verb)
      && path.Matches(engine, q.path)
      && forall h <- headers :: h.Matches(engine, q.header)
    }
  }

  // ---------- the conditions of a route, spelled out ----------

  /** A pattern that compiles and accepts the text. */
  predicate Accepts<R>(engine: Engine<R>, pattern: string, text: string) {
    match engine.compile(pattern)
    case Some(regex) => engine.isMatch(regex, text)
    case None => false
  }

  predicate VerbFits(verb: MethodMatch, m: Method) {
    || verb == Any
    || (verb, m) in {(Get, GET), (Post, POST), (Put, PUT), (Delete, DELETE), (Patch, PATCH), (Head, HEAD),
                     (Options, OPTIONS)}
  }

  predicate PathFits<R>(engine: Engine<R>, p: PathMatch, text: string) {
    && (p.ExactPath? ==> text == p.path)
    && (p.PrefixPath? ==> |p.prefix| <= |text| && text[..|p.prefix|] == p.prefix)
    && (p.RegexPath? ==> Accepts(engine, p.pattern, text))
  }

  /** The header is there exactly when it should be, and its value is as required. */
  ghost predicate HeaderFits<R>(engine: Engine<R>, h: HeaderMatch, header: string -> Option<HeaderValue>) {
    var v := header(h.name);
    && (v.None? <==> h.Absent?)
    && (h.ExactHeader? ==> v.value.bytes == h.value)
    && (h.ContainsHeader? ==> v.value.readable && exists i :: OccursAt(v.value.bytes, h.value, i))
    && (h.RegexHeader? ==> v.value.readable && Accepts(engine, h.pattern, v.value.bytes))
  }

  predicate OccursAt(text: string, part: string, i: nat) {
    i + |part| <= |text| && text[i..i + |part|] == part
  }

  /** An enabled route whose verb, path and headers all fit. */
  ghost predicate Fits<R>(engine: Engine<R>, route: Route, q: Request) {
    && route.enabled
    && VerbFits(route.verb, q.verb)
    && PathFits(engine, route.path, q.path)
    && forall i :: 0 <= i < |route.headers| ==> HeaderFits(engine, route.headers[i], q.header)
  }

  lemma ContainsIffOccurs(text: string, part: string)
    ensures Contains(text, part) <==> exists i :: OccursAt(text, part, i)
  {
    match FirstOccurrence(text, part)
    case Some(k) => assert OccursAt(text, part, k);
    case None =>
      forall i: nat
        ensures !OccursAt(text, part, i)
      {
        if i + |part| <= |text| {
          assert text[i..i + |part|] == text[i..][..|part|];
        }
      }
  }

  lemma HeaderMatchesIffFits<R>(engine: Engine<R>, h: HeaderMatch, header: string -> Option<HeaderValue>)
    ensures h.Matches(engine, header) <==> HeaderFits(engine, h, header)
  {
    var v := header(h.name);
    if h.ContainsHeader? && v.Some? {
      ContainsIffOccurs(v.value.bytes, h.value);
    }
  }

  /** A route matches exactly when it is enabled and its verb, path and every header condition fit. */
  lemma MatchesIffFits<R>(engine: Engine<R>, route: Route, q: Request)
    ensures route.Matches(engine, q) <==> Fits(engine, route, q)
  {
    forall i | 0 <= i < |route.headers|
      ensures route.headers[i].Matches(engine, q.header) <==> HeaderFits(engine, route.headers[i], q.header)
    {
      HeaderMatchesIffFits(engine, route.headers[i], q.header);
    }
    if Fits(engine, route, q) {
      forall h | h in route.headers
        ensures h.Matches(engine, q.header)
      {
        var i :| 0 <= i < |route.headers| && route.headers[i] == h;
        assert HeaderFits(engine, route.headers[i], q.header);
      }
    }
  }

  function NewRoute(name: string, path: PathMatch, upstream: string): Route {
    Route(name, path, Any, [], upstream, 100, true, None, None)
  }

  // ---------- rewriting ----------

  /** Replaces the first occurrence only. */
  function ReplaceFirst(text: string, part: string, replacement: string): string {
    match FirstOccurrence(text, part)
    case None => text
    case Some(i) => text[..i] + replacement + text[i + |part|..]
  }

  function Rewritten(route: Route, path: string): Option<string> {
    match route.rewrite
    case None => None
    case Some(rewrite) =>
      match route.path
      case PrefixPath(prefix) => Some(ReplaceFirst(path, prefix, rewrite))
      case _ => Some(rewrite)
  }

  /**
   The path a matching prefix route forwards is the rewrite followed by what came after the prefix, the
   empty prefix included: the occurrence replaced is the one the route matched on.
   */
  lemma PrefixRewrite<R>(engine: Engine<R>, route: Route, q: Request)
    requires route.Matches(engine, q) && route.path.PrefixPath? && route.rewrite.Some?
    ensures Rewritten(route, q.path) == Some(route.rewrite.value + q.path[|route.path.prefix|..])
  {
    assert q.path[0..] == q.path;
    assert FirstOccurrence(q.path, route.path.prefix) == Some(0);
    assert q.path[..0] + route.rewrite.value == route.rewrite.value;
  }

  // ---------- the sorted table ----------

  /** Sorted by falling priority. */
  predicate Sorted(routes: seq<Route>) {
    forall i, j :: 0 <= i < j < |routes| ==> routes[i].Priority() >= routes[j].Priority()
  }

  /** The routes of one priority, in order. */
  function OfPriority(routes: seq<Route>, p: nat): seq<Route> {
    if routes == [] then []
    else (if routes[0].Priority() == p then [routes[0]] else []) + OfPriority(routes[1..], p)
  }

  /** Two tables with the same routes, in the same order within each priority. */
  ghost predicate SameTies(a: seq<Route>, b: seq<Route>) {
    forall p: nat :: OfPriority(a, p) == OfPriority(b, p)
  }

  /** Puts a route after every route of at least its priority. */
  function Insert(routes: seq<Route>, r: Route): seq<Route> {
    if routes == [] || routes[|routes| - 1].Priority() >= r.Priority() then routes + [r]
    else Insert(routes[..|routes| - 1], r) + [routes[|routes| - 1]]
  }

  /** The stable sort of the standard library. */
  function SortByPriority(routes: seq<Route>): seq<Route> {
    if routes == [] then [] else Insert(SortByPriority(routes[..|routes| - 1]), routes[|routes| - 1])
  }

  lemma {:induction false} OfPriorityConcat(a: seq<Route>, b: seq<Route>, p: nat)
    ensures OfPriority(a + b, p) == OfPriority(a, p) + OfPriority(b, p)
  {
    if a == [] {
      assert a + b == b;
    } else {
      assert (a + b)[1..] == a[1..] + b;
      OfPriorityConcat(a[1..], b, p);
    }
  }

  lemma {:induction false} InsertKeepsSorted(routes: seq<Route>, r: Route)
    requires Sorted(routes)
    ensures Sorted(Insert(routes, r))
    ensures forall x <- Insert(routes, r) :: x == r || x in routes
  {
    var n := |routes|;
    if n > 0 && routes[n - 1].Priority() < r.Priority() {
      InsertKeepsSorted(routes[..n - 1], r);
      var inner := Insert(routes[..n - 1], r);
      assert forall i :: 0 <= i < |inner| ==> inner[i] in inner;
    }
  }

  lemma {:induction false} InsertKeepsTies(routes: seq<Route>, r: Route, p: nat)
    ensures OfPriority(Insert(routes, r), p) == OfPriority(routes + [r], p)
  {
    var n := |routes|;
    if n > 0 && routes[n - 1].Priority() < r.Priority() {
      var front, last := routes[..n - 1], routes[n - 1];
      InsertKeepsTies(front, r, p);
      assert routes == front + [last];
      OfPriorityConcat(Insert(front, r), [last], p);
      OfPriorityConcat(front, [r], p);
      OfPriorityConcat(routes, [r], p);
      OfPriorityConcat(front, [last], p);
    }
  }

  lemma {:induction false} SortKeepsTies(routes: seq<Route>, p: nat)
    ensures OfPriority(SortByPriority(routes), p) == OfPriority(routes, p)
  {
    if routes != [] {
      var front, r := routes[..|routes| - 1], routes[|routes| - 1];
      SortKeepsTies(front, p);
      InsertKeepsTies(SortByPriority(front), r, p);
      assert routes == front + [r];
      OfPriorityConcat(SortByPriority(front), [r], p);
      OfPriorityConcat(front, [r], p);
    }
  }

  lemma {:induction false} SortSorts(routes: seq<Route>)
    ensures Sorted(SortByPriority(routes))
  {
    if routes != [] {
      SortSorts(routes[..|routes| - 1]);
      InsertKeepsSorted(SortByPriority(routes[..|routes| - 1]), routes[|routes| - 1]);
    }
  }

  lemma {:induction false} OfPriorityNonEmpty(routes: seq<Route>, i: nat)
    requires i < |routes|
    ensures OfPriority(routes, routes[i].Priority()) != []
  {
    if i > 0 {
      OfPriorityNonEmpty(routes[1..], i - 1);
    }
  }

  lemma {:induction false} OfPriorityMembers(routes: seq<Route>, p: nat)
    ensures forall r <- OfPriority(routes, p) :: r in routes && r.Priority() == p
  {
    if routes != [] {
      OfPriorityMembers(routes[1..], p);
    }
  }

  /** There is only one stable sort of a table. */
  lemma {:induction false} StableSortIsUnique(a: seq<Route>, b: seq<Route>)
    requires Sorted(a) && Sorted(b) && SameTies(a, b)
    ensures a == b
  {
    if a == [] {
      var q := if b == [] then 0 else b[0].Priority();
      assert OfPriority(a, q) == OfPriority(b, q);
    } else {
      var p := a[0].Priority();
      OfPriorityNonEmpty(a, 0);
      assert OfPriority(a, p) == OfPriority(b, p);
      OfPriorityMembers(b, p);
      assert b != [];
      var q := b[0].Priority();
      OfPriorityNonEmpty(b, 0);
      assert OfPriority(a, q) == OfPriority(b, q);
      OfPriorityMembers(a, q);
      assert p == q;
      assert a[0] == OfPriority(a, p)[0] == OfPriority(b, p)[0] == b[0];
      forall k: nat
        ensures OfPriority(a[1..], k) == OfPriority(b[1..], k)
      {
        assert OfPriority(a, k) == OfPriority(b, k);
        var head := if p == k then [a[0]] else [];
        assert OfPriority(a, k) == head + OfPriority(a[1..], k);
        assert OfPriority(b, k) == head + OfPriority(b[1..], k);
        assert OfPriority(a[1..], k) == OfPriority(a, k)[|head|..];
        assert OfPriority(b[1..], k) == OfPriority(b, k)[|head|..];
      }
      StableSortIsUnique(a[1..], b[1..]);
    }
  }

  /** The sort is the one table that is sorted and leaves ties in their order. */
  lemma SortIsTheStableSort(routes: seq<Route>, sorted: seq<Route>)
    ensures sorted == SortByPriority(routes) <==> Sorted(sorted) && SameTies(sorted, routes)
  {
    SortSorts(routes);
    forall p: nat
      ensures OfPriority(SortByPriority(routes), p) == OfPriority(routes, p)
    {
      SortKeepsTies(routes, p);
    }
    if Sorted(sorted) && SameTies(sorted, routes) {
      StableSortIsUnique(sorted, SortByPriority(routes));
    }
  }

  // ---------- first in the table, best in order of arrival ----------

  type Test = Route -> bool

  /** The first position that passes a test. */
  function FirstWhere(routes: seq<Route>, test: Test): (r: Option<nat>)
    ensures r.None? ==> forall i :: 0 <= i < |routes| ==> !test(routes[i])
    ensures r.Some? ==> r.value < |routes| && test(routes[r.value])
                        && forall i :: 0 <= i < r.value ==> !test(routes[i])
  {
    if routes == [] then None
    else if test(routes[0]) then Some(0)
    else
      match FirstWhere(routes[1..], test)
      case None => None
      case Some(i) => Some(i + 1)
  }

  /** Position `i` passes the test with the highest priority and, among those, came first. */
  predicate IsBest(routes: seq<Route>, test: Test, i: nat) {
    && i < |routes| && test(routes[i])
    && forall j :: 0 <= j < |routes| && test(routes[j]) ==>
         routes[j].Priority() < routes[i].Priority() || (routes[j].Priority() == routes[i].Priority() && i <= j)
  }

  function BestWhere(routes: seq<Route>, test: Test): (r: Option<nat>)
    ensures r.None? ==> forall i :: 0 <= i < |routes| ==> !test(routes[i])
    ensures r.Some? ==> IsBest(routes, test, r.value)
  {
    if routes == [] then None
    else
      var n := |routes| - 1;
      match BestWhere(routes[..n], test)
      case None => if test(routes[n]) then Some(n) else None
      case Some(i) =>
        if test(routes[n]) && routes[n].Priority() > routes[i].Priority() then Some(n) else Some(i)
  }

  function RemoveAt(routes: seq<Route>, i: nat): seq<Route>
    requires i < |routes|
  {
    routes[..i] + routes[i + 1..]
  }

  /** Where position `i` is among the routes of its own priority. */
  function RankOf(routes: seq<Route>, i: nat): nat
    requires i < |routes|
  {
    |OfPriority(routes[..i], routes[i].Priority())|
  }

  lemma SplitAt(routes: seq<Route>, i: nat, p: nat)
    requires i < |routes|
    ensures OfPriority(routes, p) ==
            OfPriority(routes[..i], p) + OfPriority([routes[i]], p) + OfPriority(routes[i + 1..], p)
    ensures OfPriority(RemoveAt(routes, i), p) == OfPriority(routes[..i], p) + OfPriority(routes[i + 1..], p)
  {
    assert routes == routes[..i] + [routes[i]] + routes[i + 1..];
    OfPriorityConcat(routes[..i] + [routes[i]], routes[i + 1..], p);
    OfPriorityConcat(routes[..i], [routes[i]], p);
    OfPriorityConcat(routes[..i], routes[i + 1..], p);
  }

  /** The best route is the first of its priority to pass the test. */
  lemma BestAmongTies(routes: seq<Route>, test: Test, i: nat)
    requires IsBest(routes, test, i)
    ensures var tie := OfPriority(routes, routes[i].Priority());
            FirstWhere(tie, test) == Some(RankOf(routes, i)) && tie[RankOf(routes, i)] == routes[i]
  {
    var p := routes[i].Priority();
    SplitAt(routes, i, p);
    OfPriorityMembers(routes[..i], p);
    var before, tie := OfPriority(routes[..i], p), OfPriority(routes, p);
    assert OfPriority([routes[i]], p) == [routes[i]];
    forall k | 0 <= k < |before|
      ensures tie[k] == before[k] && !test(tie[k])
    {
      assert before[k] in before;
    }
    assert tie[|before|] == routes[i] && test(tie[|before|]);
    var first := FirstWhere(tie, test);
    assert first.value == |before|;
  }

  lemma RemoveMiddle(a: seq<Route>, x: Route, b: seq<Route>)
    ensures RemoveAt(a + [x] + b, |a|) == a + b
  {
  }

  lemma RemoveFromOwnTies(routes: seq<Route>, i: nat)
    requires i < |routes|
    ensures var q := routes[i].Priority();
            && RankOf(routes, i) < |OfPriority(routes, q)|
            && OfPriority(RemoveAt(routes, i), q) == RemoveAt(OfPriority(routes, q), RankOf(routes, i))
  {
    var q := routes[i].Priority();
    SplitAt(routes, i, q);
    RemoveMiddle(OfPriority(routes[..i], q), routes[i], OfPriority(routes[i + 1..], q));
  }

  lemma RemoveFromOtherTies(routes: seq<Route>, i: nat, q: nat)
    requires i < |routes| && q != routes[i].Priority()
    ensures OfPriority(RemoveAt(routes, i), q) == OfPriority(routes, q)
  {
    SplitAt(routes, i, q);
    assert OfPriority([routes[i]], q) == [];
  }

  lemma {:induction false} OfPriorityHasAll(routes: seq<Route>, r: Route)
    requires r in routes
    ensures r in OfPriority(routes, r.Priority())
  {
    if r != routes[0] {
      OfPriorityHasAll(routes[1..], r);
    }
  }

  lemma SameTiesSameRoutes(a: seq<Route>, b: seq<Route>, r: Route)
    requires SameTies(a, b) && r in a
    ensures r in b
  {
    OfPriorityHasAll(a, r);
    assert OfPriority(a, r.Priority()) == OfPriority(b, r.Priority());
    OfPriorityMembers(b, r.Priority());
  }

  lemma SameTiesSamePriority(a: seq<Route>, b: seq<Route>, test: Test, i: nat, k: nat)
    requires SameTies(a, b) && IsBest(a, test, i) && IsBest(b, test, k)
    ensures a[i].Priority() <= b[k].Priority()
  {
    SameTiesSameRoutes(a, b, a[i]);
  }

  /** Tables that agree on every priority have the same best route, and still agree once it is removed. */
  lemma SameTiesSameBest(a: seq<Route>, b: seq<Route>, test: Test, i: nat, k: nat)
    requires SameTies(a, b) && IsBest(a, test, i) && IsBest(b, test, k)
    ensures a[i] == b[k] && SameTies(RemoveAt(a, i), RemoveAt(b, k))
  {
    assert SameTies(b, a);
    SameTiesSamePriority(a, b, test, i, k);
    SameTiesSamePriority(b, a, test, k, i);
    var p := a[i].Priority();
    assert OfPriority(a, p) == OfPriority(b, p);
    BestAmongTies(a, test, i);
    BestAmongTies(b, test, k);
    forall q: nat
      ensures OfPriority(RemoveAt(a, i), q) == OfPriority(RemoveAt(b, k), q)
    {
      assert OfPriority(a, q) == OfPriority(b, q);
      if q == p {
        RemoveFromOwnTies(a, i);
        RemoveFromOwnTies(b, k);
      } else {
        RemoveFromOtherTies(a, i, q);
        RemoveFromOtherTies(b, k, q);
      }
    }
  }

  /** In a sorted table the first route to pass a test is the best one. */
  lemma FirstIsBest(routes: seq<Route>, test: Test)
    requires Sorted(routes)
    ensures FirstWhere(routes, test).Some? ==> IsBest(routes, test, FirstWhere(routes, test).value)
  {
  }

  /**
   The first-match scan of the sorted table finds the best route of the unsorted one, and removing what it
   finds leaves the table sorted as if that route had been removed before sorting.
   */
  lemma ScanFindsBest(live: seq<Route>, test: Test)
    ensures var table := SortByPriority(live);
            match BestWhere(live, test)
            case None => FirstWhere(table, test) == None
            case Some(i) =>
              var k := FirstWhere(table, test);
              && k.Some? && table[k.value] == live[i]
              && RemoveAt(table, k.value) == SortByPriority(RemoveAt(live, i))
  {
    var table := SortByPriority(live);
    SortIsTheStableSort(live, table);
    assert SameTies(live, table);
    FirstIsBest(table, test);
    match BestWhere(live, test)
    case None =>
      var k := FirstWhere(table, test);
      if k.Some? {
        SameTiesSameRoutes(table, live, table[k.value]);
        assert false;
      }
    case Some(i) =>
      SameTiesSameRoutes(live, table, live[i]);
      var k := FirstWhere(table, test);
      SameTiesSameBest(table, live, test, k.value, i);
      SortIsTheStableSort(RemoveAt(live, i), RemoveAt(table, k.value));
  }

  // ---------- the best route by the shape of its path ----------

  /** The earliest exact route to pass the test, else the earliest prefix route, else the earliest regex route. */
  predicate ComesFirst(routes: seq<Route>, test: Test, i: nat) {
    && i < |routes| && test(routes[i])
    && forall j :: 0 <= j < |routes| && test(routes[j]) ==>
         match routes[i].path
         case ExactPath(_) => routes[j].path.ExactPath? ==> i <= j
         case PrefixPath(_) => !routes[j].path.ExactPath? && (routes[j].path.PrefixPath? ==> i <= j)
         case RegexPath(_) => routes[j].path.RegexPath? && i <= j
  }

  lemma BestComesFirst(routes: seq<Route>, test: Test, i: nat)
    ensures IsBest(routes, test, i) <==> ComesFirst(routes, test, i)
  {
  }

  /** Only one route comes first. */
  lemma OnlyOneComesFirst(routes: seq<Route>, test: Test, i: nat, j: nat)
    requires ComesFirst(routes, test, i) && ComesFirst(routes, test, j)
    ensures i == j
  {
  }

  // ---------- the router ----------

  function Named(name: string): (test: Test)
    ensures forall r :: test(r) <==> r.name == name
  {
    (r: Route) => r.name == name
  }

  function Matching<R>(engine: Engine<R>, q: Request): Test {
    (r: Route) => r.Matches(engine, q)
  }

  datatype RouteMatch = RouteMatch(route: Route, rewrittenPath: Option<string>)

  /** The answer for the route at the given position, or the default, or none. */
  function Answer(
    routes: seq<Route>, position: Option<nat>, defaultUpstream: Option<string>, path: string): Option<RouteMatch>
    requires position.Some? ==> position.value < |routes|
  {
    match position
    case Some(i) => Some(RouteMatch(routes[i], Rewritten(routes[i], path)))
    case None =>
      match defaultUpstream
      case Some(upstream) => Some(RouteMatch(NewRoute("default", PrefixPath("/"), upstream), None))
      case None => None
  }

  method HeaderMatches<R>(h: HeaderMatch, header: string -> Option<HeaderValue>, cache: RegexCache<R>) returns (b: bool)
    requires cache.Valid()
    modifies cache
    ensures cache.Valid() && b == h.Matches(cache.engine, header) == HeaderFits(cache.engine, h, header)
  {
    HeaderMatchesIffFits(cache.engine, h, header);
    var v := header(h.name);
    match h
    case ExactHeader(_, value) => b := v.Some? && v.value.bytes == value;
    case ContainsHeader(_, value) => b := v.Some? && v.value.readable && Contains(v.value.bytes, value);
    case RegexHeader(_, pattern) =>
      var regex := cache.GetOrCompile(pattern);
      b := regex.Some? && v.Some? && v.value.readable && cache.engine.isMatch(regex.value, v.value.bytes);
    case Present(_) => b := v.Some?;
    case Absent(_) => b := v.None?;
  }

  method PathMatches<R>(p: PathMatch, path: string, cache: RegexCache<R>) returns (b: bool)
    requires cache.Valid()
    modifies cache
    ensures cache.Valid() && b == p.Matches(cache.engine, path) == PathFits(cache.engine, p, path)
  {
    match p
    case ExactPath(expected) => b := path == expected;
    case PrefixPath(prefix) => b := prefix <= path;
    case RegexPath(pattern) => b := cache.Matches(pattern, path);
  }

  method RouteMatches<R>(route: Route, q: Request, cache: RegexCache<R>) returns (b: bool)
    requires cache.Valid()
    modifies cache
    ensures cache.Valid() && b == route.Matches(cache.engine, q) == Fits(cache.engine, route, q)
  {
    MatchesIffFits(cache.engine, route, q);
    if !route.enabled || !route.verb.Matches(q.verb) {
      return false;
    }
    var pathOk := PathMatches(route.path, q.path, cache);
    if !pathOk {
      return false;
    }
    for i := 0 to |route.headers|
      invariant cache.Valid()
      invariant forall k :: 0 <= k < i ==> route.headers[k].Matches(cache.engine, q.header)
    {
      var headerOk := HeaderMatches(route.headers[i], q.header, cache);
      if !headerOk {
        return false;
      }
    }
    return true;
  }

  class Router {
    var routes: seq<Route>
    var defaultUpstream: Option<string>

    /** The changes that made the table. */
    ghost var changes: seq<Change>

    ghost predicate Valid()
      reads this
    {
      routes == Table(changes)
    }

    constructor ()
      ensures Valid() && changes == [] && routes == [] && defaultUpstream == None
    {
      routes, defaultUpstream := [], None;
      changes := [];
    }

    constructor WithRoutes(routes: seq<Route>)
      ensures Valid() && changes == Additions(routes)
      ensures this.routes == SortByPriority(routes) && defaultUpstream == None
    {
      this.routes, this.defaultUpstream := SortByPriority(routes), None;
      this.changes := Additions(routes);
      IncrementalIsBatch(routes);
    }

    method WithDefaultUpstream(upstream: string)
      requires Valid()
      modifies this
      ensures Valid() && changes == old(changes)
      ensures routes == old(routes) && defaultUpstream == Some(upstream)
    {
      defaultUpstream := Some(upstream);
    }

    method AddRoute(route: Route)
      requires Valid()
      modifies this
      ensures Valid() && changes == old(changes) + [Add(route)]
      ensures routes == TableAfter(old(routes), Add(route)) && defaultUpstream == old(defaultUpstream)
    {
      routes := routes + [route];
      SortRoutes();
      changes := changes + [Add(route)];
      assert changes[..|changes| - 1] == old(changes);
    }

    method SortRoutes()
      modifies this
      ensures routes == SortByPriority(old(routes))
      ensures defaultUpstream == old(defaultUpstream) && changes == old(changes)
    {
      routes := SortByPriority(routes);
    }

    method RemoveRoute(name: string) returns (removed: Option<Route>)
      requires Valid()
      modifies this
      ensures Valid() && changes == old(changes) + [Remove(name)]
      ensures routes == TableAfter(old(routes), Remove(name)) && defaultUpstream == old(defaultUpstream)
      ensures IsRemoved(InForce(old(changes)), name, removed)
    {
      RemovedIsFirst(changes, name);
      match FirstWhere(routes, Named(name)) {
        case Some(i) =>
          removed := Some(routes[i]);
          routes := RemoveAt(routes, i);
        case None => removed := None;
      }
      changes := changes + [Remove(name)];
      assert changes[..|changes| - 1] == old(changes);
    }

    method FindRoute<R>(q: Request, cache: RegexCache<R>) returns (found: Option<RouteMatch>)
      requires Valid() && cache.Valid()
      modifies cache
      ensures cache.Valid()
      ensures found == Answer(routes, FirstWhere(routes, Matching(cache.engine, q)), defaultUpstream, q.path)
      ensures IsAnswer(cache.engine, InForce(changes), defaultUpstream, q, found)
    {
      RoutingByShape(cache.engine, changes, defaultUpstream, q);
      ghost var test := Matching(cache.engine, q);
      for i := 0 to |routes|
        invariant cache.Valid()
        invariant forall k :: 0 <= k < i ==> !test(routes[k])
      {
        var route := routes[i];
        var ok := RouteMatches(route, q, cache);
        if ok {
          assert FirstWhere(routes, test) == Some(i);
          return Some(RouteMatch(route, Rewritten(route, q.path)));
        }
      }
      assert FirstWhere(routes, test) == None;
      match defaultUpstream
      case Some(upstream) => return Some(RouteMatch(NewRoute("default", PrefixPath("/"), upstream), None));
      case None => return None;
    }
  }

  /** What a removal returns: the route of the name that comes first among those in force, if there is one. */
  ghost predicate IsRemoved(routes: seq<Route>, name: string, removed: Option<Route>) {
    match removed
    case Some(r) => exists i: nat :: ComesFirst(routes, Named(name), i) && routes[i] == r
    case None => forall i :: 0 <= i < |routes| ==> routes[i].name != name
  }

  lemma RemovedIsFirst(changes: seq<Change>, name: string)
    ensures var table := Table(changes);
            var i := FirstWhere(table, Named(name));
            IsRemoved(InForce(changes), name, if i.Some? then Some(table[i.value]) else None)
  {
    var live := Live(changes);
    TableIsSortedLive(changes);
    InForceIsLive(changes);
    ScanFindsBest(live, Named(name));
    match BestWhere(live, Named(name))
    case Some(i) => BestComesFirst(live, Named(name), i);
    case None =>
  }

  // ---------- runs of changes to the table ----------

  datatype Change = Add(route: Route) | Remove(name: string)

  function TableAfter(table: seq<Route>, c: Change): seq<Route> {
    match c
    case Add(r) => SortByPriority(table + [r])
    case Remove(name) =>
      match FirstWhere(table, Named(name))
      case Some(i) => RemoveAt(table, i)
      case None => table
  }

  /** The table of a router after the changes. */
  function Table(changes: seq<Change>): seq<Route> {
    if changes == [] then [] else TableAfter(Table(changes[..|changes| - 1]), changes[|changes| - 1])
  }

  /** The routes in force in order of arrival; a removal takes the best one of the name. */
  function LiveAfter(live: seq<Route>, c: Change): seq<Route> {
    match c
    case Add(r) => live + [r]
    case Remove(name) =>
      match BestWhere(live, Named(name))
      case Some(i) => RemoveAt(live, i)
      case None => live
  }

  function Live(changes: seq<Change>): seq<Route> {
    if changes == [] then [] else LiveAfter(Live(changes[..|changes| - 1]), changes[|changes| - 1])
  }

  /** The routes in force by their shapes alone: a removal takes the one of the name that comes first. */
  ghost function InForceAfter(routes: seq<Route>, c: Change): seq<Route> {
    match c
    case Add(r) => routes + [r]
    case Remove(name) =>
      if exists i: nat :: ComesFirst(routes, Named(name), i)
      then var i: nat :| ComesFirst(routes, Named(name), i); RemoveAt(routes, i)
      else routes
  }

  ghost function InForce(changes: seq<Change>): seq<Route> {
    if changes == [] then [] else InForceAfter(InForce(changes[..|changes| - 1]), changes[|changes| - 1])
  }

  lemma {:induction false} InForceIsLive(changes: seq<Change>)
    ensures InForce(changes) == Live(changes)
  {
    if changes != [] {
      var front, c := changes[..|changes| - 1], changes[|changes| - 1];
      InForceIsLive(front);
      if c.Remove? {
        var live, test := Live(front), Named(c.name);
        match BestWhere(live, test)
        case Some(i) =>
          BestComesFirst(live, test, i);
          var k: nat :| ComesFirst(live, test, k) && InForceAfter(live, c) == RemoveAt(live, k);
          OnlyOneComesFirst(live, test, i, k);
        case None =>
      }
    }
  }

  lemma SortThenAdd(live: seq<Route>, r: Route)
    ensures SortByPriority(SortByPriority(live) + [r]) == SortByPriority(live + [r])
  {
    var table := SortByPriority(live);
    var twice := SortByPriority(table + [r]);
    SortIsTheStableSort(live, table);
    SortIsTheStableSort(table + [r], twice);
    forall p: nat
      ensures OfPriority(twice, p) == OfPriority(live + [r], p)
    {
      assert OfPriority(twice, p) == OfPriority(table + [r], p);
      assert OfPriority(table, p) == OfPriority(live, p);
      OfPriorityConcat(table, [r], p);
      OfPriorityConcat(live, [r], p);
    }
    SortIsTheStableSort(live + [r], twice);
  }

  /** After any run of additions and removals the table is the stable sort of the routes in force. */
  lemma {:induction false} TableIsSortedLive(changes: seq<Change>)
    ensures Table(changes) == SortByPriority(Live(changes))
  {
    if changes != [] {
      var front, c := changes[..|changes| - 1], changes[|changes| - 1];
      TableIsSortedLive(front);
      match c
      case Add(r) => SortThenAdd(Live(front), r);
      case Remove(name) => ScanFindsBest(Live(front), Named(name));
    }
  }

  function Additions(routes: seq<Route>): (changes: seq<Change>)
    ensures |changes| == |routes| && forall i :: 0 <= i < |routes| ==> changes[i] == Add(routes[i])
  {
    seq(|routes|, i requires 0 <= i < |routes| => Add(routes[i]))
  }

  lemma {:induction false} AdditionsStayLive(routes: seq<Route>)
    ensures Live(Additions(routes)) == routes
  {
    if routes != [] {
      var n := |routes| - 1;
      assert Additions(routes)[..n] == Additions(routes[..n]);
      AdditionsStayLive(routes[..n]);
      assert routes == routes[..n] + [routes[n]];
    }
  }

  /** Adding routes one by one leaves the table that a router created with all of them has. */
  lemma IncrementalIsBatch(routes: seq<Route>)
    ensures Table(Additions(routes)) == SortByPriority(routes)
  {
    TableIsSortedLive(Additions(routes));
    AdditionsStayLive(routes);
  }

  /** What the router answers after a run of changes. */
  function Found<R>(
    engine: Engine<R>, changes: seq<Change>, defaultUpstream: Option<string>, q: Request): Option<RouteMatch>
  {
    Answer(Table(changes), FirstWhere(Table(changes), Matching(engine, q)), defaultUpstream, q.path)
  }

  /**
   The router answers with the matching enabled route of highest priority, the first to arrive among
   equals, else with the default, else with nothing.
   */
  lemma RoutingIsBestMatch<R>(engine: Engine<R>, changes: seq<Change>, defaultUpstream: Option<string>, q: Request)
    ensures Found(engine, changes, defaultUpstream, q) ==
            Answer(Live(changes), BestWhere(Live(changes), Matching(engine, q)), defaultUpstream, q.path)
  {
    TableIsSortedLive(changes);
    ScanFindsBest(Live(changes), Matching(engine, q));
  }

  /** The path a route forwards: its rewrite, followed for a prefix route by what came after the prefix. */
  function Forwarded(route: Route, path: string): Option<string> {
    if route.rewrite.None? then None
    else if route.path.PrefixPath? && |route.path.prefix| <= |path|
    then Some(route.rewrite.value + path[|route.path.prefix|..])
    else route.rewrite
  }

  /**
   What a router should answer: of the routes in force that fit, the earliest exact one, else the earliest with a
   prefix, else the earliest with a pattern; else the default; else nothing.
   */
  ghost predicate IsAnswer<R>(
    engine: Engine<R>, routes: seq<Route>, defaultUpstream: Option<string>, q: Request, found: Option<RouteMatch>)
  {
    var fits := (r: Route) => Fits(engine, r, q);
    if exists i :: 0 <= i < |routes| && fits(routes[i]) then
      exists i: nat :: ComesFirst(routes, fits, i)
                       && found == Some(RouteMatch(routes[i], Forwarded(routes[i], q.path)))
    else if defaultUpstream.Some? then
      found == Some(RouteMatch(Route("default", PrefixPath("/"), Any, [], defaultUpstream.value, 100, true, None, None),
                               None))
    else
      found == None
  }

  lemma FittingRouteIsForwarded<R>(engine: Engine<R>, route: Route, q: Request)
    requires route.Matches(engine, q)
    ensures Rewritten(route, q.path) == Forwarded(route, q.path)
  {
    if route.path.PrefixPath? && route.rewrite.Some? {
      PrefixRewrite(engine, route, q);
    }
  }

  lemma SameTestSameFirst(routes: seq<Route>, a: Test, b: Test, i: nat)
    requires forall j :: 0 <= j < |routes| ==> a(routes[j]) == b(routes[j])
    ensures ComesFirst(routes, a, i) <==> ComesFirst(routes, b, i)
  {
  }

  /** After any run of changes the router answers as it should. */
  lemma RoutingByShape<R>(engine: Engine<R>, changes: seq<Change>, defaultUpstream: Option<string>, q: Request)
    ensures IsAnswer(engine, InForce(changes), defaultUpstream, q, Found(engine, changes, defaultUpstream, q))
  {
    var live, test := Live(changes), Matching(engine, q);
    var fits := (r: Route) => Fits(engine, r, q);
    RoutingIsBestMatch(engine, changes, defaultUpstream, q);
    InForceIsLive(changes);
    forall j | 0 <= j < |live|
      ensures test(live[j]) == fits(live[j])
    {
      MatchesIffFits(engine, live[j], q);
    }
    match BestWhere(live, test)
    case Some(i) =>
      BestComesFirst(live, test, i);
      SameTestSameFirst(live, test, fits, i);
      FittingRouteIsForwarded(engine, live[i], q);
    case None =>
  }

  /** There is only one such answer. */
  lemma AnswerIsUnique<R>(
    engine: Engine<R>, routes: seq<Route>, defaultUpstream: Option<string>, q: Request, a: Option<RouteMatch>,
    b: Option<RouteMatch>)
    requires IsAnswer(engine, routes, defaultUpstream, q, a) && IsAnswer(engine, routes, defaultUpstream, q, b)
    ensures a == b
  {
    var fits := (r: Route) => Fits(engine, r, q);
    if exists i :: 0 <= i < |routes| && fits(routes[i]) {
      var i: nat :| ComesFirst(routes, fits, i) && a == Some(RouteMatch(routes[i], Forwarded(routes[i], q.path)));
      var j: nat :| ComesFirst(routes, fits, j) && b == Some(RouteMatch(routes[j], Forwarded(routes[j], q.path)));
      OnlyOneComesFirst(routes, fits, i, j);
    }
  }

  /** Adding a disabled route changes no answer. */
  lemma DisabledRouteIsInvisible<R>(
    engine: Engine<R>, changes: seq<Change>, r: Route, defaultUpstream: Option<string>, q: Request)
    requires !r.enabled
    ensures Found(engine, changes + [Add(r)], defaultUpstream, q) == Found(engine, changes, defaultUpstream, q)
  {
    AddedRouteOrNoChange(engine, changes, r, defaultUpstream, q);
    MatchesIffFits(engine, r, q);
  }

  /** Adding a route changes an answer only to that route. */
  lemma AddedRouteOrNoChange<R>(
    engine: Engine<R>, changes: seq<Change>, r: Route, defaultUpstream: Option<string>, q: Request)
    ensures var found := Found(engine, changes + [Add(r)], defaultUpstream, q);
            || found == Found(engine, changes, defaultUpstream, q)
            || (Fits(engine, r, q) && found == Some(RouteMatch(r, Forwarded(r, q.path))))
  {
    MatchesIffFits(engine, r, q);
    if r.Matches(engine, q) {
      FittingRouteIsForwarded(engine, r, q);
    }
    RoutingIsBestMatch(engine, changes, defaultUpstream, q);
    RoutingIsBestMatch(engine, changes + [Add(r)], defaultUpstream, q);
    assert (changes + [Add(r)])[..|changes|] == changes;
    var live := Live(changes);
    assert (live + [r])[..|live|] == live;
  }

  lemma LastIsBestOfFreshName(live: seq<Route>, r: Route)
    requires forall x <- live :: x.name != r.name
    ensures BestWhere(live + [r], Named(r.name)) == Some(|live|)
  {
    var best := BestWhere(live + [r], Named(r.name));
    assert (live + [r])[|live|] == r;
  }

  /** Adding a route under a fresh name and removing it again restores the table, and so every answer. */
  lemma AddThenRemoveRestores(changes: seq<Change>, r: Route)
    requires forall x <- Live(changes) :: x.name != r.name
    ensures Table(changes + [Add(r), Remove(r.name)]) == Table(changes)
  {
    var added := changes + [Add(r)];
    assert (added + [Remove(r.name)])[..|added|] == added && added[..|changes|] == changes;
    assert changes + [Add(r), Remove(r.name)] == added + [Remove(r.name)];
    TableIsSortedLive(changes);
    TableIsSortedLive(changes + [Add(r), Remove(r.name)]);
    LastIsBestOfFreshName(Live(changes), r);
    assert RemoveAt(Live(changes) + [r], |Live(changes)|) == Live(changes);
  }
}
