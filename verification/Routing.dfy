/** Choosing a server block and a location for a request, on the lists the parser leaves in memory. */
module Routing {
  import opened Options
  import opened Text
  import opened ConfigLexer
  import opened ConfigSyntax
  import opened ConfigText
  import opened ConfigRoundTrip

  // ---------------------------------------------------------------- what a request should get

  /** The first blank-separated piece of a `listen` value, as a number. */
  function ListenPort(value: CString): int {
    AtoI(FirstField(value))
  }

  /** `strtok(value, " ")`: leading spaces are skipped, the next space ends the field. */
  function FirstField(s: CString): CString {
    if s == [] then []
    else if s[0] == ' ' then FirstField(s[1..])
    else UpToSpace(s)
  }

  function UpToSpace(s: CString): CString {
    if s == [] || s[0] == ' ' then [] else One(s[0]) + UpToSpace(s[1..])
  }

  /** Some `listen` directive names the port. */
  predicate Listens(s: Server, port: int)
    requires Routable(s)
  {
    exists i :: 0 <= i < |s.directives| && s.directives[i].key == "listen"
                && ListenPort(s.directives[i].value.value) == port
  }

  /** Every `listen` directive has a value; the code copies it without looking. */
  predicate Routable(s: Server) {
    forall i :: 0 <= i < |s.directives| && s.directives[i].key == "listen" ==> s.directives[i].value.Some?
  }

  predicate AllRoutable(ss: seq<Server>) {
    forall i :: 0 <= i < |ss| ==> Routable(ss[i])
  }

  /** The value of the first directive with that key. */
  function DirectiveValue(key: string, ds: seq<Directive>): Option<CString> {
    if ds == [] then None
    else if ds[0].key == key then ds[0].value
    else DirectiveValue(key, ds[1..])
  }

  /** Listens on the port and carries exactly the requested name. */
  predicate Named(s: Server, host: Option<CString>, port: int)
    requires Routable(s)
  {
    Listens(s, port) && host.Some? && DirectiveValue("server_name", s.directives) == host
  }

  ghost function NamedFlags(ss: seq<Server>, host: Option<CString>, port: int): (r: seq<bool>)
    requires AllRoutable(ss)
    ensures |r| == |ss|
  {
    seq(|ss|, i requires 0 <= i < |ss| => Named(ss[i], host, port))
  }

  ghost function ListensFlags(ss: seq<Server>, port: int): (r: seq<bool>)
    requires AllRoutable(ss)
    ensures |r| == |ss|
  {
    seq(|ss|, i requires 0 <= i < |ss| => Listens(ss[i], port))
  }

  ghost predicate AnySet(flags: seq<bool>) {
    exists i :: 0 <= i < |flags| && flags[i]
  }

  ghost predicate IsFirst(flags: seq<bool>, i: nat) {
    i < |flags| && flags[i] && forall j :: 0 <= j < i ==> !flags[j]
  }

  ghost predicate IsLast(flags: seq<bool>, i: nat) {
    i < |flags| && flags[i] && forall j :: i < j < |flags| ==> !flags[j]
  }

  /** Server i is the one for the request: the first named one, else the first on the port, else the first. */
  ghost predicate IsServerFor(ss: seq<Server>, host: Option<CString>, port: int, i: nat)
    requires AllRoutable(ss)
  {
    var named, listens := NamedFlags(ss, host, port), ListensFlags(ss, port);
    i < |ss| && if AnySet(named) then IsFirst(named, i) else if AnySet(listens) then IsFirst(listens, i) else i == 0
  }

  predicate Matches(l: Location, uri: CString) {
    l.path != [] && l.path <= uri
  }

  /** Location i is a longest non-empty path that prefixes the URI, and the first of that length. */
  ghost predicate IsLocationFor(ls: seq<Location>, uri: CString, i: nat) {
    && i < |ls| && Matches(ls[i], uri)
    && (forall j :: 0 <= j < |ls| && Matches(ls[j], uri) ==> |ls[j].path| <= |ls[i].path|)
    && (forall j :: 0 <= j < i && Matches(ls[j], uri) ==> |ls[j].path| < |ls[i].path|)
  }

  // ---------------------------------------------------------------- what the directives say

  predicate Spaces(s: CString) {
    forall i :: 0 <= i < |s| ==> s[i] == ' '
  }

  /** The value names the port: spaces, the number, and nothing more or a space and whatever follows. */
  ghost predicate NamesPort(value: CString, port: int) {
    exists spaces, rest :: PortText(value, spaces, port, rest)
  }

  predicate PortText(value: CString, spaces: CString, port: int, rest: CString) {
    Spaces(spaces) && (rest == [] || rest[0] == ' ') && value == spaces + (Decimal(port) + rest)
  }

  lemma {:induction false} FirstFieldBack(spaces: CString, w: CString, rest: CString)
    requires Spaces(spaces) && w != [] && ' ' !in w && (rest == [] || rest[0] == ' ')
    ensures FirstField(spaces + (w + rest)) == w
  {
    var s := spaces + (w + rest);
    if spaces == [] {
      assert s == w + rest && s[0] == w[0] != ' ';
      UpToSpaceBack(w, rest);
    } else {
      assert s[1..] == spaces[1..] + (w + rest);
      FirstFieldBack(spaces[1..], w, rest);
    }
  }

  lemma {:induction false} UpToSpaceBack(w: CString, rest: CString)
    requires ' ' !in w && (rest == [] || rest[0] == ' ')
    ensures UpToSpace(w + rest) == w
  {
    if w == [] {
      assert w + rest == rest;
    } else {
      assert (w + rest)[1..] == w[1..] + rest && (w + rest)[0] == w[0];
      UpToSpaceBack(w[1..], rest);
      assert One(w[0]) + w[1..] == w;
    }
  }

  /** The port a `listen` directive names is the number that is read. */
  lemma ListenPortBack(value: CString, port: int)
    requires NamesPort(value, port)
    ensures ListenPort(value) == port
  {
    var spaces, rest :| PortText(value, spaces, port, rest);
    var w := Decimal(port);
    assert w != [] && ' ' !in w by { DecimalHasNoSpace(port); }
    FirstFieldBack(spaces, w, rest);
    AtoIBack(port, []);
    assert w + [] == w;
  }

  lemma DecimalHasNoSpace(n: int)
    ensures Decimal(n) != [] && ' ' !in Decimal(n)
  {
    var digits := Digits(if n < 0 then -n else n);
    assert forall i :: 0 <= i < |digits| ==> IsDigit(digits[i]);
    hide Digits;
  }

  /** A server whose `listen` directives name ports listens on exactly these. */
  lemma ListensExactlyWhen(s: Server, ports: seq<int>, port: int)
    requires Routable(s) && |ports| == |s.directives|
    requires forall i :: 0 <= i < |ports| && s.directives[i].key == "listen" ==>
               NamesPort(s.directives[i].value.value, ports[i])
    ensures Listens(s, port) <==> exists i :: 0 <= i < |ports| && s.directives[i].key == "listen" && ports[i] == port
  {
    forall i | 0 <= i < |ports| && s.directives[i].key == "listen"
      ensures ListenPort(s.directives[i].value.value) == ports[i]
    {
      ListenPortBack(s.directives[i].value.value, ports[i]);
    }
    hide ListenPort, NamesPort;
  }

  /** Of the directives with a key the first one counts. */
  lemma {:induction false} FirstDirectiveCounts(key: string, before: seq<Directive>, after: seq<Directive>)
    requires forall i :: 0 <= i < |before| ==> before[i].key != key
    ensures DirectiveValue(key, before) == None
    ensures after != [] && after[0].key == key ==> DirectiveValue(key, before + after) == after[0].value
  {
    if before == [] {
      assert before + after == after;
    } else {
      FirstDirectiveCounts(key, before[1..], after);
      assert (before + after)[1..] == before[1..] + after;
    }
  }

  /** One server on each of two ports: a request goes to the server on its port, whatever its host. */
  lemma TwoPorts(a: Server, b: Server, p: int, q: int, host: Option<CString>)
    requires p != q && |a.directives| == 1 == |b.directives|
    requires a.directives[0].key == "listen" && a.directives[0].value == Some(Decimal(p))
    requires b.directives[0].key == "listen" && b.directives[0].value == Some(Decimal(q))
    ensures AllRoutable([a, b]) && forall i :: IsServerFor([a, b], host, q, i) <==> i == 1
  {
    assert PortText(Decimal(p), [], p, []) && PortText(Decimal(q), [], q, []);
    ListensExactlyWhen(a, [p], q);
    ListensExactlyWhen(b, [q], q);
    assert !Listens(a, q) && Listens(b, q);
    hide Listens, NamesPort, DirectiveValue;
    var named, listens := NamedFlags([a, b], host, q), ListensFlags([a, b], q);
    assert !named[0] && !listens[0] && listens[1];
    assert AnySet(listens);
  }

  // ---------------------------------------------------------------- find_route

  datatype Route = NoRoute | Route(server: nat, location: Option<nat>)

  method ListensOn(s: Server, port: int) returns (listens: bool)
    requires Routable(s)
    ensures listens == Listens(s, port)
  {
    listens := false;
    for i := 0 to |s.directives|
      invariant listens <==> exists j :: 0 <= j < i && s.directives[j].key == "listen"
                                         && ListenPort(s.directives[j].value.value) == port
    {
      if s.directives[i].key == "listen" && ListenPort(s.directives[i].value.value) == port {
        listens := true;
      }
    }
  }

  method GetDirectiveValue(key: string, ds: seq<Directive>) returns (value: Option<CString>)
    ensures value == DirectiveValue(key, ds)
  {
    for i := 0 to |ds|
      invariant DirectiveValue(key, ds) == DirectiveValue(key, ds[i..])
    {
      if ds[i].key == key { return ds[i].value; }
    }
    return None;
  }

  method FindServer(ss: seq<Server>, host: Option<CString>, port: int) returns (matched: nat)
    requires ss != [] && AllRoutable(ss)
    ensures IsServerFor(ss, host, port, matched)
  {
    var default: Option<nat> := None;
    for i := 0 to |ss|
      invariant forall j :: 0 <= j < i ==> !NamedFlags(ss, host, port)[j]
      invariant default.None? ==> forall j :: 0 <= j < i ==> !ListensFlags(ss, port)[j]
      invariant default.Some? ==> default.value < i && IsFirst(ListensFlags(ss, port), default.value)
    {
      var listens := ListensOn(ss[i], port);
      if listens {
        if default.None? { default := Some(i); }
        var name := GetDirectiveValue("server_name", ss[i].directives);
        if host.Some? && name.Some? && host.value == name.value { return i; }
      }
    }
    if default.Some? { return default.value; }
    return 0;
  }

  method FindLocation(ls: seq<Location>, uri: CString) returns (best: Option<nat>)
    ensures best.Some? ==> IsLocationFor(ls, uri, best.value)
    ensures best.None? <==> NoneMatches(ls, uri)
  {
    best := None;
    var length := 0;
    for i := 0 to |ls|
      invariant best.None? ==> length == 0 && forall j :: 0 <= j < i ==> !Matches(ls[j], uri)
      invariant best.Some? ==> best.value < i && IsLocationFor(ls[..i], uri, best.value) && length == |ls[best.value].path|
    {
      if ls[i].path <= uri && |ls[i].path| > length {
        best := Some(i);
        length := |ls[i].path|;
      }
    }
    assert ls[..|ls|] == ls;
  }

  /** What the route of a request is: no route exactly when there is no server; the server for the request; and a
      longest matching location, or none exactly when there is no URI or none matches. */
  ghost predicate RouteFor(ss: seq<Server>, host: Option<CString>, uri: Option<CString>, port: int, route: Route)
    requires AllRoutable(ss)
  {
    match route
    case NoRoute => ss == []
    case Route(i, location) =>
      && IsServerFor(ss, host, port, i)
      && match location
         case Some(k) => uri.Some? && IsLocationFor(ss[i].locations, uri.value, k)
         case None => uri.Some? ==> NoneMatches(ss[i].locations, uri.value)
  }

  ghost predicate NoneMatches(ls: seq<Location>, uri: CString) {
    forall j :: 0 <= j < |ls| ==> !Matches(ls[j], uri)
  }

  /** `find_route`; a NULL host or URI is None, and without a URI no location is looked for. */
  method FindRoute(ss: seq<Server>, host: Option<CString>, uri: Option<CString>, port: int) returns (route: Route)
    requires AllRoutable(ss)
    ensures RouteFor(ss, host, uri, port, route)
  {
    if ss == [] { return NoRoute; }
    var server := FindServer(ss, host, port);
    if uri.None? { return Route(server, None); }
    var location := FindLocation(ss[server].locations, uri.value);
    return Route(server, location);
  }

  // ---------------------------------------------------------------- routing on a file

  /** The request determines the route. */
  lemma RouteUnique(ss: seq<Server>, host: Option<CString>, uri: Option<CString>, port: int, a: Route, b: Route)
    requires AllRoutable(ss) && RouteFor(ss, host, uri, port, a) && RouteFor(ss, host, uri, port, b)
    ensures a == b
  {
  }

  /** In file order: location i is a longest match, and the last declared of that length. */
  ghost predicate IsLastLongest(ls: seq<Location>, uri: CString, i: nat) {
    && i < |ls| && Matches(ls[i], uri)
    && (forall j :: 0 <= j < |ls| && Matches(ls[j], uri) ==> |ls[j].path| <= |ls[i].path|)
    && (forall j :: i < j < |ls| && Matches(ls[j], uri) ==> |ls[j].path| < |ls[i].path|)
  }

  /** Of the locations of a loaded server, the chosen one is the last longest match of the file, and none matches
      exactly when none in the file does. */
  lemma {:induction false} LoadedLocationTies(ls: seq<Location>, uri: CString, i: nat)
    requires i < |ls|
    ensures IsLocationFor(Reverse(ls), uri, i) <==> IsLastLongest(ls, uri, |ls| - 1 - i)
  {
    var n, rs := |ls|, Reverse(ls);
    forall j | 0 <= j < n ensures rs[j] == ls[n - 1 - j] { ReverseAt(ls, j); }
    if IsLastLongest(ls, uri, n - 1 - i) {
      forall j | 0 <= j < n && Matches(rs[j], uri)
        ensures |rs[j].path| <= |rs[i].path| && (j < i ==> |rs[j].path| < |rs[i].path|)
      {
        assert Matches(ls[n - 1 - j], uri);
      }
    }
    if IsLocationFor(rs, uri, i) {
      forall j | 0 <= j < n && Matches(ls[j], uri)
        ensures |ls[j].path| <= |ls[n - 1 - i].path| && (j > n - 1 - i ==> |ls[j].path| < |ls[n - 1 - i].path|)
      {
        assert rs[n - 1 - j] == ls[j];
        assert Matches(rs[n - 1 - j], uri);
      }
    }
  }

  lemma LoadedNoneMatches(ls: seq<Location>, uri: CString)
    ensures NoneMatches(Reverse(ls), uri) <==> NoneMatches(ls, uri)
  {
    var n, rs := |ls|, Reverse(ls);
    forall j | 0 <= j < n ensures rs[j] == ls[n - 1 - j] { ReverseAt(ls, j); }
    if NoneMatches(rs, uri) {
      forall j | 0 <= j < n ensures !Matches(ls[j], uri) { assert !Matches(rs[n - 1 - j], uri); }
    }
  }

  /** Reversing the locations of a server does not change what it listens to or is called. */
  lemma LoadedServerSameKey(s: Server, host: Option<CString>, port: int)
    requires Routable(s)
    ensures Routable(LoadedServer(s))
    ensures Listens(LoadedServer(s), port) == Listens(s, port)
    ensures Named(LoadedServer(s), host, port) == Named(s, host, port)
  {
  }

  /** In file order: the last server of the wanted name, else the last on the port, else the last of all. */
  ghost predicate IsLastServerFor(ss: seq<Server>, host: Option<CString>, port: int, i: nat)
    requires AllRoutable(ss)
  {
    var named, listens := NamedFlags(ss, host, port), ListensFlags(ss, port);
    i < |ss| && if AnySet(named) then IsLast(named, i) else if AnySet(listens) then IsLast(listens, i) else i == |ss| - 1
  }

  lemma LoadedServersAt(ss: seq<Server>)
    ensures var ms := Reverse(LoadedServers(ss));
            |ms| == |ss| && forall i :: 0 <= i < |ss| ==> ms[|ss| - 1 - i] == LoadedServer(ss[i])
  {
    forall i | 0 <= i < |ss| ensures Reverse(LoadedServers(ss))[|ss| - 1 - i] == LoadedServer(ss[i]) {
      ReverseAt(LoadedServers(ss), |ss| - 1 - i);
    }
  }

  /** The first flag of a mirrored list is the last one of the list. */
  lemma Mirror(ps: seq<bool>, rs: seq<bool>, i: nat)
    requires |rs| == |ps| && i < |ps| && forall j :: 0 <= j < |ps| ==> rs[|ps| - 1 - j] == ps[j]
    ensures AnySet(rs) <==> AnySet(ps)
    ensures IsFirst(rs, i) <==> IsLast(ps, |ps| - 1 - i)
  {
    var n := |ps|;
    forall j | 0 <= j < n ensures rs[j] == ps[n - 1 - j] {
      assert rs[n - 1 - (n - 1 - j)] == ps[n - 1 - j];
    }
    if j :| 0 <= j < n && rs[j] { assert ps[n - 1 - j]; }
    if j :| 0 <= j < n && ps[j] { assert rs[n - 1 - j]; }
    if IsFirst(rs, i) {
      forall j | n - 1 - i < j < n ensures !ps[j] { assert !rs[n - 1 - j]; }
    }
    if IsLast(ps, n - 1 - i) {
      forall j | 0 <= j < i ensures !rs[j] { assert !ps[n - 1 - j]; }
    }
  }

  /** On a loaded file the server chosen is, in file order, the last that qualifies. */
  lemma LoadedServerTies(ss: seq<Server>, host: Option<CString>, port: int, i: nat)
    requires AllRoutable(ss) && AllRoutable(Reverse(LoadedServers(ss))) && i < |ss|
    ensures IsServerFor(Reverse(LoadedServers(ss)), host, port, i) <==> IsLastServerFor(ss, host, port, |ss| - 1 - i)
    ensures Reverse(LoadedServers(ss))[i] == LoadedServer(ss[|ss| - 1 - i])
  {
    hide NamedFlags, ListensFlags, IsFirst, IsLast, AnySet;
    var n, ms := |ss|, Reverse(LoadedServers(ss));
    LoadedServersAt(ss);
    assert i == n - 1 - (n - 1 - i);
    LoadedFlags(ss, ms, host, port);
    Mirror(NamedFlags(ss, host, port), NamedFlags(ms, host, port), i);
    Mirror(ListensFlags(ss, port), ListensFlags(ms, port), i);
  }

  lemma LoadedFlags(ss: seq<Server>, ms: seq<Server>, host: Option<CString>, port: int)
    requires AllRoutable(ss) && AllRoutable(ms) && |ms| == |ss|
    requires forall i :: 0 <= i < |ss| ==> ms[|ss| - 1 - i] == LoadedServer(ss[i])
    ensures forall j :: 0 <= j < |ss| ==> ListensFlags(ms, port)[|ss| - 1 - j] == ListensFlags(ss, port)[j]
    ensures forall j :: 0 <= j < |ss| ==> NamedFlags(ms, host, port)[|ss| - 1 - j] == NamedFlags(ss, host, port)[j]
  {
    forall j | 0 <= j < |ss|
      ensures ListensFlags(ms, port)[|ss| - 1 - j] == ListensFlags(ss, port)[j]
      ensures NamedFlags(ms, host, port)[|ss| - 1 - j] == NamedFlags(ss, host, port)[j]
    {
      LoadedServerSameKey(ss[j], host, port);
    }
  }

  lemma LoadedRoutable(ss: seq<Server>)
    requires AllRoutable(ss)
    ensures AllRoutable(Reverse(LoadedServers(ss)))
  {
    var n, ms := |ss|, Reverse(LoadedServers(ss));
    LoadedServersAt(ss);
    forall j | 0 <= j < n ensures Routable(ms[j]) {
      assert ms[n - 1 - (n - 1 - j)] == LoadedServer(ss[n - 1 - j]);
    }
  }

  /** What a route on the loaded lists says about the servers in file order: numbers count from the end. */
  ghost predicate FileRoute(ss: seq<Server>, host: Option<CString>, uri: Option<CString>, port: int, route: Route)
    requires AllRoutable(ss)
  {
    match route
    case NoRoute => ss == []
    case Route(i, location) =>
      && i < |ss| && IsLastServerFor(ss, host, port, |ss| - 1 - i)
      && var ls := ss[|ss| - 1 - i].locations;
         match location
         case Some(k) => uri.Some? && k < |ls| && IsLastLongest(ls, uri.value, |ls| - 1 - k)
         case None => uri.Some? ==> NoneMatches(ls, uri.value)
  }

  lemma LoadedRoute(ss: seq<Server>, host: Option<CString>, uri: Option<CString>, port: int, route: Route)
    requires AllRoutable(ss) && AllRoutable(Reverse(LoadedServers(ss)))
    ensures RouteFor(Reverse(LoadedServers(ss)), host, uri, port, route) <==> FileRoute(ss, host, uri, port, route)
  {
    hide IsServerFor, IsLastServerFor, IsLocationFor, IsLastLongest, NoneMatches;
    if route.Route? && route.server < |ss| {
      LoadedServerTies(ss, host, port, route.server);
      var ls := ss[|ss| - 1 - route.server].locations;
      if uri.Some? { LoadedNoneMatches(ls, uri.value); }
      if uri.Some? && route.location.Some? && route.location.value < |ls| {
        LoadedLocationTies(ls, uri.value, route.location.value);
      }
      LocationInRange(Reverse(ls), uri, route.location);
    } else if route.Route? {
      ServerInRange(Reverse(LoadedServers(ss)), host, port, route.server);
    }
  }

  lemma LocationInRange(ls: seq<Location>, uri: Option<CString>, location: Option<nat>)
    ensures uri.Some? && location.Some? && IsLocationFor(ls, uri.value, location.value) ==> location.value < |ls|
  {
  }

  lemma ServerInRange(ss: seq<Server>, host: Option<CString>, port: int, i: nat)
    requires AllRoutable(ss)
    ensures IsServerFor(ss, host, port, i) ==> i < |ss|
  {
  }

  /** End to end: any layout of a well-formed file loads, and on the loaded lists `find_route` picks, for any request,
      the last server of the file that qualifies and the last of its longest matching locations, or no location exactly
      when none of the file matches. There is only one such route. */
  lemma RouteInFile(file: seq<Section>, gaps: seq<CString>, host: Option<CString>, uri: Option<CString>, port: int,
                    route: Route)
    requires WfFile(file) && |FileTokens(file)| <= MAX_TOKENS && Layout(FileTokens(file), gaps)
    requires TreeOf(file).Some? && AllRoutable(TreeOf(file).value.servers)
    ensures var loaded := Load(Render(FileTokens(file), gaps));
            && loaded == Done(Some(Loaded(TreeOf(file).value)), [])
            && AllRoutable(loaded.value.value.servers)
            && (RouteFor(loaded.value.value.servers, host, uri, port, route)
                <==> FileRoute(TreeOf(file).value.servers, host, uri, port, route))
    ensures FileRoute(TreeOf(file).value.servers, host, uri, port, route) ==>
              forall other :: FileRoute(TreeOf(file).value.servers, host, uri, port, other) ==> other == route
  {
    hide FileTokens, Render, Layout, WfFile, Load, RouteFor, FileRoute, TreeOf;
    var ss := TreeOf(file).value.servers;
    RoundTrip(file, gaps);
    LoadedRoutable(ss);
    LoadedRoute(ss, host, uri, port, route);
    forall other | FileRoute(ss, host, uri, port, route) && FileRoute(ss, host, uri, port, other) ensures other == route {
      LoadedRoute(ss, host, uri, port, other);
      RouteUnique(Reverse(LoadedServers(ss)), host, uri, port, route, other);
    }
  }
}
