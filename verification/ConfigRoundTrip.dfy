/** Writing a configuration file in any layout, tokenizing and parsing it gives the tree it describes, with its linked
    lists reversed; and what becomes of a file that breaks off. */
module ConfigRoundTrip {
  import opened Options
  import opened Text
  import opened ConfigLexer
  import opened ConfigSyntax
  import opened ConfigText

  // ---------------------------------------------------------------- directives

  /** The tokens up to the semicolon, or all of them. */
  function ValueTokens(ts: seq<CString>): (ws: seq<CString>)
    ensures ws <= ts && ";" !in ws && (|ws| < |ts| ==> ts[|ws|] == ";")
  {
    if ts == [] || ts[0] == ";" then [] else [ts[0]] + ValueTokens(ts[1..])
  }

  lemma {:induction false} ValueTokensAre(ws: seq<CString>, rest: seq<CString>)
    requires ";" !in ws && (rest == [] || rest[0] == ";")
    ensures ValueTokens(ws + rest) == ws
  {
    if ws == [] {
      assert ws + rest == rest;
    } else {
      ValueTokensAre(ws[1..], rest);
      assert (ws + rest)[1..] == ws[1..] + rest;
    }
  }

  /** What the buffer can hold of a value. */
  function Fitting(v: CString): (r: CString)
    ensures |r| <= VALUE_ROOM
  {
    if |v| <= VALUE_ROOM then v else v[..VALUE_ROOM]
  }

  /** The value is overrun when all but its last token fill the buffer. */
  predicate Overruns(ws: seq<CString>) {
    ws != [] && |Join(ws[..|ws| - 1], SPACE)| >= VALUE_ROOM
  }

  predicate NoneEmpty(ts: seq<CString>) {
    forall i :: 0 <= i < |ts| ==> ts[i] != []
  }

  lemma {:induction false} JoinGrows(ws: seq<CString>, more: seq<CString>)
    requires ws != []
    ensures |Join(ws, SPACE)| <= |Join(ws + more, SPACE)|
    decreases |more|
  {
    if more == [] {
      assert ws + more == ws;
    } else {
      assert ws + more == (ws + [more[0]]) + more[1..];
      JoinGrows(ws + [more[0]], more[1..]);
      JoinAppend(ws, more[0], SPACE);
    }
  }

  lemma JoinedIsSome(ws: seq<CString>)
    requires ws != [] && ws[0] != []
    ensures Join(ws, SPACE) != []
  {
  }

  /** What becomes of the tokens `ws` after those in the buffer. */
  function ValueOutcome(read: seq<CString>, ws: seq<CString>, rest: seq<CString>): Outcome<CString> {
    if ws != [] && Overruns(read + ws) then Undefined else Done(Fitting(Join(read + ws, SPACE)), rest)
  }

  lemma FullIsOverrun(read: seq<CString>, ws: seq<CString>, rest: seq<CString>)
    requires read != [] && ws != [] && |Join(read, SPACE)| >= VALUE_ROOM
    ensures ValueOutcome(read, ws, rest) == Undefined
  {
    hide Join;
    var front := ws[..|ws| - 1];
    assert (read + ws)[..|read + ws| - 1] == read + front;
    JoinGrows(read, front);
  }

  lemma OutcomeStep(read: seq<CString>, w: CString, more: seq<CString>, rest: seq<CString>)
    requires |Join(read, SPACE)| < VALUE_ROOM
    ensures ValueOutcome(read, [w] + more, rest) == ValueOutcome(read + [w], more, rest)
  {
    hide Join;
    assert read + ([w] + more) == (read + [w]) + more;
    if more == [] {
      assert (read + [w])[..|read + [w]| - 1] == read;
      assert (read + [w]) + more == read + [w];
    }
  }

  /** The loop on what the buffer can hold of the tokens already joined. */
  lemma {:induction false} ValueFate(read: seq<CString>, ts: seq<CString>)
    requires read != [] && NoneEmpty(read) && NoneEmpty(ValueTokens(ts))
    ensures var ws := ValueTokens(ts);
            ParseValue(ts, Fitting(Join(read, SPACE)), |Join(read, SPACE)|) == ValueOutcome(read, ws, ts[|ws|..])
    decreases |ts|
  {
    hide Join, Append, ValueOutcome, Fitting;
    var ws, buffer := ValueTokens(ts), Join(read, SPACE);
    JoinedIsSome(read);
    if ws == [] {
      NothingMore(read, ts);
    } else if |buffer| >= VALUE_ROOM {
      FullIsOverrun(read, ws, ts[|ws|..]);
    } else {
      var w, more := ts[0], ValueTokens(ts[1..]);
      assert ws == [w] + more;
      assert NoneEmpty(more) by { assert more == ws[1..]; }
      OneTokenMore(buffer, w);
      JoinAppend(read, w, SPACE);
      OutcomeStep(read, w, more, ts[|ws|..]);
      assert ts[1..][|more|..] == ts[|ws|..];
      assert NoneEmpty(read + [w]) by { assert w == ws[0] != []; }
      hide NoneEmpty, ValueTokens;
      ValueFate(read + [w], ts[1..]);
    }
  }

  lemma NothingMore(read: seq<CString>, ts: seq<CString>)
    ensures ValueOutcome(read, [], ts[0..]) == Done(Fitting(Join(read, SPACE)), ts)
  {
    assert read + [] == read && ts[0..] == ts;
  }

  lemma OneTokenMore(buffer: CString, w: CString)
    requires buffer != [] && |buffer| < VALUE_ROOM
    ensures Fitting(buffer) == buffer
    ensures Append(Append(buffer, |buffer|, [SPACE]), |buffer| + 1, w) == Fitting(buffer + [SPACE] + w)
  {
  }

  /** What `parse_directive` does with any tokens: it runs over the value buffer exactly when all tokens of the value
      but the last fill it, and otherwise takes the tokens up to the semicolon and gives what fits of them. */
  lemma DirectiveFate(ts: seq<CString>)
    requires |ts| >= 2 && NoneEmpty(ValueTokens(ts[1..]))
    ensures var ws := ValueTokens(ts[1..]);
            var rest := ts[1 + |ws|..];
            ParseDirective(ts)
            == if Overruns(ws) then Undefined
               else Done(Some(Directive(ts[0], if ws == [] then None else Some(Fitting(Join(ws, SPACE))))),
                         if rest == [] then [] else rest[1..])
  {
    hide Join, Append, Overruns, Fitting;
    var more := ts[1..];
    var ws := ValueTokens(more);
    assert more[|ws|..] == ts[1 + |ws|..];
    NoTokens();
    if ws != [] {
      WholeValue(more);
      JoinedIsSome(ws);
      FittingIsSome(Join(ws, SPACE));
    }
  }

  lemma NoTokens()
    ensures !Overruns([])
  {
  }

  lemma FittingIsSome(v: CString)
    requires v != []
    ensures Fitting(v) != []
  {
  }

  /** The loop from its beginning. */
  lemma WholeValue(ts: seq<CString>)
    requires ValueTokens(ts) != [] && NoneEmpty(ValueTokens(ts))
    ensures var ws := ValueTokens(ts);
            ParseValue(ts, [], 0)
            == if Overruns(ws) then Undefined else Done(Fitting(Join(ws, SPACE)), ts[|ws|..])
  {
    hide Join, Append, Fitting, Overruns;
    var w, more := ts[0], ValueTokens(ts[1..]);
    var ws := ValueTokens(ts);
    assert ws == [w] + more;
    assert NoneEmpty(more) by { assert more == ws[1..]; }
    assert w == ws[0] != [];
    JoinOne(w);
    ValueFate([w], ts[1..]);
    assert ts[1..][|more|..] == ts[|ws|..];
    if more == [] {
      OneIsNoOverrun(w);
      assert ws == [w];
    }
  }

  lemma OneIsNoOverrun(w: CString)
    ensures !Overruns([w])
  {
    assert [w][..0] == [];
  }

  lemma JoinOne(w: CString)
    ensures Join([w], SPACE) == w && Append([], 0, w) == Fitting(w)
  {
  }

  /** A value that fits leaves room for its last token. */
  lemma FittingIsNoOverrun(ws: seq<CString>)
    requires |Join(ws, SPACE)| <= VALUE_ROOM
    ensures !Overruns(ws)
  {
    if |ws| > 1 {
      JoinAppend(ws[..|ws| - 1], ws[|ws| - 1], SPACE);
      assert ws == ws[..|ws| - 1] + [ws[|ws| - 1]];
    }
  }

  /** A directive whose value is made of words. */
  lemma DirectiveFateOf(key: CString, value: CString, rest: seq<CString>)
    requires Words(Split<CChar>(value, SPACE))
    ensures var d := Directive(key, Some(value));
            ParseDirective(DirectiveTokens(d) + rest)
            == if Overruns(Split<CChar>(value, SPACE)) then Undefined
               else Done(Some(Directive(key, Some(Fitting(value)))), rest)
  {
    hide Join, Split, Overruns, Fitting;
    var ws := Split<CChar>(value, SPACE);
    var ts := DirectiveTokens(Directive(key, Some(value))) + rest;
    JoinSplit(value, SPACE);
    assert ts == [key] + (ws + ([SEMICOLON] + rest));
    assert ts[1..] == ws + ([SEMICOLON] + rest);
    ValueTokensAre(ws, [SEMICOLON] + rest);
    DirectiveFate(ts);
    assert ts[1 + |ws|..] == [SEMICOLON] + rest;
    assert ([SEMICOLON] + rest)[1..] == rest;
  }

  lemma DirectiveBack(d: Directive, keywords: set<string>, rest: seq<CString>)
    requires WfDirective(d, keywords)
    ensures ParseDirective(DirectiveTokens(d) + rest) == Done(Some(d), rest)
  {
    match d.value
    case None =>
      assert (DirectiveTokens(d) + rest)[1..] == [SEMICOLON] + rest;
    case Some(v) =>
      JoinSplit(v, SPACE);
      FittingIsNoOverrun(Split<CChar>(v, SPACE));
      DirectiveFateOf(d.key, v, rest);
  }

  /** A turn on a well-formed directive takes exactly its tokens. */
  lemma DirectiveTurnBack<T>(d: Directive, keywords: set<string>, acc: T, add: (T, Directive) -> T, rest: seq<CString>)
    requires WfDirective(d, keywords)
    ensures DirectiveTurn(DirectiveTokens(d) + rest, acc, add) == Goes(add(acc, d), rest)
    ensures (DirectiveTokens(d) + rest)[0] == d.key != "}"
  {
    DirectiveBack(d, keywords, rest);
  }

  // ---------------------------------------------------------------- bodies with their items in any order

  /** One turn takes exactly the item, whatever follows. */
  ghost predicate Reads<B, A(!new)>(turn: (seq<CString>, A) -> Turn<A>, item: Item<B>, inner: B -> seq<CString>,
                                    step: (A, Item<B>) -> A)
  {
    && ItemTokens(item, inner) != []
    && forall acc, more :: turn(ItemTokens(item, inner) + more, acc) == Goes(step(acc, item), more)
  }

  function Fold<B, A>(step: (A, Item<B>) -> A, acc: A, items: seq<Item<B>>): A {
    if items == [] then acc else Fold(step, step(acc, items[0]), items[1..])
  }

  lemma OneItemBack<B, A(!new)>(turn: (seq<CString>, A) -> Turn<A>, item: Item<B>, inner: B -> seq<CString>,
                                step: (A, Item<B>) -> A, acc: A, more: seq<CString>)
    requires Shrinks(turn) && Reads(turn, item, inner, step)
    ensures Loop(turn, ItemTokens(item, inner) + more, acc) == Loop(turn, more, step(acc, item))
  {
    hide ItemTokens;
    assert turn(ItemTokens(item, inner) + more, acc) == Goes(step(acc, item), more);
  }

  /** The loop takes item after item. */
  lemma {:induction false} ItemsBack<B, A(!new)>(turn: (seq<CString>, A) -> Turn<A>, items: seq<Item<B>>,
                                                 inner: B -> seq<CString>, step: (A, Item<B>) -> A, acc: A,
                                                 tail: seq<CString>)
    requires Shrinks(turn) && forall i :: 0 <= i < |items| ==> Reads(turn, items[i], inner, step)
    ensures Loop(turn, ItemsTokens(items, inner) + tail, acc) == Loop(turn, tail, Fold(step, acc, items))
    decreases |items|
  {
    hide Loop, Reads, Shrinks, ItemTokens;
    if items == [] {
      assert ItemsTokens(items, inner) + tail == tail;
    } else {
      var more := ItemsTokens(items[1..], inner) + tail;
      assert ItemsTokens(items, inner) + tail == ItemTokens(items[0], inner) + more;
      OneItemBack(turn, items[0], inner, step, acc, more);
      ItemsBack(turn, items[1..], inner, step, step(acc, items[0]), tail);
    }
  }

  /** Appending, and inserting at the head, element by element. */
  lemma Appends<T>(a: seq<T>, x: T, more: seq<T>)
    ensures (a + [x]) + more == a + ([x] + more)
  {
  }

  lemma Inserts<T>(a: seq<T>, x: T, more: seq<T>)
    ensures Reverse(more) + ([x] + a) == Reverse([x] + more) + a
  {
    assert ([x] + more)[1..] == more;
  }

  lemma FirstItem<B>(items: seq<Item<B>>)
    requires items != []
    ensures match items[0]
            case Plain(d) => Plains(items) == [d] + Plains(items[1..]) && Inners(items) == Inners(items[1..])
            case Inner(b) => Plains(items) == Plains(items[1..]) && Inners(items) == [b] + Inners(items[1..])
  {
    assert [] + Plains(items[1..]) == Plains(items[1..]) && [] + Inners(items[1..]) == Inners(items[1..]);
  }

  /** What may be left where a body breaks off: nothing, a single token, or anything from a closing brace on. */
  predicate BreaksOff(rest: seq<CString>) {
    |rest| <= 1 || rest[0] == "}"
  }

  // ---------------------------------------------------------------- locations

  function LocationStep(ds: seq<Directive>, item: Item<()>): seq<Directive> {
    match item case Plain(d) => ds + [d] case Inner(_) => ds
  }

  lemma {:induction false} LocationFold(ds: seq<Directive>, items: seq<Item<()>>)
    ensures Fold(LocationStep, ds, items) == ds + Plains(items)
    decreases |items|
  {
    if items == [] {
      assert ds + Plains(items) == ds;
    } else {
      LocationFold(LocationStep(ds, items[0]), items[1..]);
      FirstItem(items);
      hide Fold, Plains, Inners;
      if items[0].Plain? { Appends(ds, items[0].directive, Plains(items[1..])); }
    }
  }

  lemma {:induction false} PlainlyPlains(ds: seq<Directive>)
    ensures Plains(Plainly(ds)) == ds
  {
    if ds != [] {
      assert Plainly(ds)[1..] == Plainly(ds[1..]);
      PlainlyPlains(ds[1..]);
      assert [ds[0]] + ds[1..] == ds;
    }
  }

  /** The directives of a location in front of anything. */
  lemma LocationItemsBack(ds: seq<Directive>, read: seq<Directive>, tail: seq<CString>)
    requires forall i :: 0 <= i < |ds| ==> WfDirective(ds[i], {})
    ensures ParseLocationBody(ItemsTokens(Plainly(ds), NoBlock) + tail, read) == ParseLocationBody(tail, read + ds)
  {
    forall i | 0 <= i < |ds| ensures Reads(LocationTurn, Plainly(ds)[i], NoBlock, LocationStep) {
      forall acc, more: seq<CString>
        ensures LocationTurn(DirectiveTokens(ds[i]) + more, acc) == Goes(LocationStep(acc, Plain(ds[i])), more)
      {
        DirectiveTurnBack(ds[i], {}, acc, (ds: seq<Directive>, d) => ds + [d], more);
      }
    }
    ItemsBack(LocationTurn, Plainly(ds), NoBlock, LocationStep, read, tail);
    LocationFold(read, Plainly(ds));
    PlainlyPlains(ds);
  }

  /** The exact fate of a location body of well-formed directives: it ends at its brace; a single token instead hangs
      the loop; nothing at all makes the code read past the tokens. */
  lemma LocationFate(ds: seq<Directive>, rest: seq<CString>)
    requires (forall i :: 0 <= i < |ds| ==> WfDirective(ds[i], {})) && BreaksOff(rest)
    ensures var r := ParseLocationBody(ItemsTokens(Plainly(ds), NoBlock) + rest, []);
            && (r == Undefined <==> rest == [])
            && (r == Hangs <==> rest != [] && rest[0] != "}")
            && (rest != [] && rest[0] == "}" ==> r == Done(ds, rest[1..]))
  {
    LocationItemsBack(ds, [], rest);
    assert [] + ds == ds;
  }

  lemma LocationBack(l: Location, rest: seq<CString>)
    requires WfLocation(l)
    ensures ParseLocation(LocationTokens(l) + rest) == Done(l, rest)
  {
    hide ParseLocationBody, ItemsTokens;
    LocationFate(l.directives, [CLOSE] + rest);
    Header3(LOCATION, l.path, OPEN, ItemsTokens(Plainly(l.directives), NoBlock), rest);
  }

  lemma Header3(a: CString, b: CString, c: CString, body: seq<CString>, rest: seq<CString>)
    ensures var ts := [a, b, c] + (body + [CLOSE]) + rest;
            |ts| >= 3 && ts[0] == a && ts[1] == b && ts[2] == c && ts[3..] == body + ([CLOSE] + rest)
    ensures ([CLOSE] + rest)[1..] == rest
  {
  }

  lemma Header2(a: CString, b: CString, body: seq<CString>, rest: seq<CString>)
    ensures var ts := [a, b] + (body + [CLOSE]) + rest;
            |ts| >= 2 && ts[0] == a && ts[1] == b && ts[2..] == body + ([CLOSE] + rest)
    ensures ([CLOSE] + rest)[1..] == rest
  {
  }

  // ---------------------------------------------------------------- servers

  function ServerStep(s: Server, item: Item<Location>): Server {
    match item
    case Plain(d) => s.(directives := s.directives + [d])
    case Inner(l) => s.(locations := [l] + s.locations)
  }

  lemma {:induction false} ServerFold(s: Server, items: seq<Item<Location>>)
    ensures Fold(ServerStep, s, items)
         == Server(s.directives + Plains(items), Reverse(Inners(items)) + s.locations)
    decreases |items|
  {
    if items == [] {
      assert s.directives + Plains(items) == s.directives && Reverse(Inners(items)) + s.locations == s.locations;
    } else {
      ServerFold(ServerStep(s, items[0]), items[1..]);
      FirstItem(items);
      hide Fold, Reverse, Plains, Inners;
      match items[0]
      case Plain(d) => Appends(s.directives, d, Plains(items[1..]));
      case Inner(l) => Inserts(s.locations, l, Inners(items[1..]));
    }
  }

  lemma ServerItemReads(item: Item<Location>)
    requires WfServerItem(item)
    ensures Reads(ServerTurn, item, LocationTokens, ServerStep)
  {
    forall acc, more: seq<CString>
      ensures ServerTurn(ItemTokens(item, LocationTokens) + more, acc) == Goes(ServerStep(acc, item), more)
    {
      match item
      case Plain(d) =>
        DirectiveTurnBack(d, {"location"}, acc, (s: Server, d) => s.(directives := s.directives + [d]), more);
      case Inner(l) => LocationBack(l, more);
    }
  }

  /** The items of a server block, in any order, in front of anything. */
  lemma {:induction false} ServerItemsBack(body: seq<Item<Location>>, s: Server, tail: seq<CString>)
    requires forall i :: 0 <= i < |body| ==> WfServerItem(body[i])
    ensures ParseServerBody(ItemsTokens(body, LocationTokens) + tail, s)
         == ParseServerBody(tail, Server(s.directives + Plains(body), Reverse(Inners(body)) + s.locations))
  {
    forall i | 0 <= i < |body| ensures Reads(ServerTurn, body[i], LocationTokens, ServerStep) {
      ServerItemReads(body[i]);
    }
    ItemsBack(ServerTurn, body, LocationTokens, ServerStep, s, tail);
    ServerFold(s, body);
  }

  lemma ServerStops(rest: seq<CString>, s: Server)
    requires BreaksOff(rest)
    ensures var r := ParseServerBody(rest, s);
            && (r == Undefined <==> rest == [] || rest[0] == "location")
            && (r == Hangs <==> rest != [] && rest[0] !in {"}", "location"})
            && (rest != [] && rest[0] == "}" ==> r == Done(s, rest[1..]))
  {
  }

  /** The same for a server block, its items in any order; a lone `location` is read past as well. */
  lemma {:induction false} ServerFate(body: seq<Item<Location>>, rest: seq<CString>)
    requires (forall i :: 0 <= i < |body| ==> WfServerItem(body[i])) && BreaksOff(rest)
    ensures var r := ParseServerBody(ItemsTokens(body, LocationTokens) + rest, Server([], []));
            && (r == Undefined <==> rest == [] || rest[0] == "location")
            && (r == Hangs <==> rest != [] && rest[0] !in {"}", "location"})
            && (rest != [] && rest[0] == "}" ==> r == Done(LoadedServer(Server(Plains(body), Inners(body))), rest[1..]))
  {
    hide ParseServerBody, ItemsTokens;
    ServerItemsBack(body, Server([], []), rest);
    assert [] + Plains(body) == Plains(body) && Reverse(Inners(body)) + [] == Reverse(Inners(body));
    ServerStops(rest, LoadedServer(Server(Plains(body), Inners(body))));
  }

  /** A location whose path is not directly followed by its brace, say because of a modifier: the block is NULL and the
      code follows the pointer. */
  lemma {:induction false} ModifierIsUndefined(body: seq<Item<Location>>, rest: seq<CString>)
    requires forall i :: 0 <= i < |body| ==> WfServerItem(body[i])
    requires |rest| >= 3 && rest[0] == "location" && rest[2] != "{"
    ensures ParseServerBody(ItemsTokens(body, LocationTokens) + rest, Server([], [])) == Undefined
  {
    ServerItemsBack(body, Server([], []), rest);
    assert ParseLocation(rest) == Undefined;
    hide ItemsTokens, ParseLocation;
  }

  lemma {:induction false} ServerBack(body: seq<Item<Location>>, rest: seq<CString>)
    requires forall i :: 0 <= i < |body| ==> WfServerItem(body[i])
    ensures ParseServer(BlockTokens(ServerBlock(body)) + rest)
         == Done(LoadedServer(Server(Plains(body), Inners(body))), rest)
  {
    hide ParseServerBody, ItemsTokens, LoadedServer, Plains, Inners;
    ServerFate(body, [CLOSE] + rest);
    Header2(SERVER, OPEN, ItemsTokens(body, LocationTokens), rest);
  }

  // ---------------------------------------------------------------- upstream servers

  /** `atoi` reads a printed integer back, whatever non-digit follows. */
  lemma AtoIBack(n: int, rest: CString)
    requires EndsNumber(rest)
    ensures AtoI(Decimal(n) + rest) == n
  {
    hide Digits, ReadDigits;
    var size: nat := if n < 0 then -n else n;
    var digits := Digits(size);
    ReadDigitsBack(size, rest);
    assert IsDigit((digits + rest)[0]);
    if n < 0 {
      assert (Decimal(n) + rest)[0] == '-';
      assert (Decimal(n) + rest)[1..] == digits + rest;
    }
  }

  /** Before the number there may be white space and a sign; what is no number counts as 0. */
  lemma {:induction false} AtoIOf(space: CString, n: nat, rest: CString)
    requires (forall i :: 0 <= i < |space| ==> IsSpace(space[i])) && EndsNumber(rest)
    ensures AtoI(space + (Digits(n) + rest)) == n == AtoI(space + ([PLUS] + Digits(n) + rest))
    ensures AtoI(space + ([MINUS] + Digits(n) + rest)) == 0 - n
    ensures rest == [] || (rest[0] != '-' && rest[0] != '+' && !IsSpace(rest[0])) ==> AtoI(space + rest) == 0
  {
    var digits := Digits(n);
    assert IsDigit(digits[0]);
    ReadDigitsBack(n, rest);
    hide Digits, ReadDigits;
    if space == [] {
      assert ([PLUS] + digits + rest)[1..] == digits + rest && ([MINUS] + digits + rest)[1..] == digits + rest;
      assert space + rest == rest && space + (digits + rest) == digits + rest;
      assert space + ([PLUS] + digits + rest) == [PLUS] + digits + rest;
      assert space + ([MINUS] + digits + rest) == [MINUS] + digits + rest;
      NoDigitsRead(rest);
    } else {
      AtoIOf(space[1..], n, rest);
      SkipBlank(space, digits + rest);
      SkipBlank(space, [PLUS] + digits + rest);
      SkipBlank(space, [MINUS] + digits + rest);
      SkipBlank(space, rest);
    }
  }

  const PLUS: CChar := '+'

  lemma NoDigitsRead(rest: CString)
    requires EndsNumber(rest)
    ensures ReadDigits(rest, 0) == 0
  {
  }

  lemma SkipBlank(space: CString, rest: CString)
    requires space != [] && IsSpace(space[0])
    ensures AtoI(space + rest) == AtoI(space[1..] + rest)
  {
    assert (space + rest)[1..] == space[1..] + rest;
  }

  lemma {:induction false} AtColonBack(host: CString, port: CString)
    requires forall i :: 0 <= i < |host| ==> host[i] != ':'
    ensures AtColon(host + (COLON + port)) == (host, Some(port)) && AtColon(host) == (host, None)
  {
    var s := host + (COLON + port);
    if host == [] {
      assert s[0] == ':' && s[1..] == port;
    } else {
      AtColonBack(host[1..], port);
      assert s[0] == host[0] && s[1..] == host[1..] + (COLON + port);
      assert One(host[0]) + host[1..] == host;
    }
  }

  lemma AddressBack(line: PeerLine)
    requires WfPeer(line)
    ensures ParseAddress(AddressToken(line))
         == Peer(line.host, if line.port.Some? then line.port.value else 80, 1, 3, 30, 1000)
  {
    match line.port
    case None =>
      AtColonBack(line.host, []);
      assert AddressToken(line) == line.host;
    case Some(port) =>
      AtColonBack(line.host, Decimal(port));
      AtoIBack(port, []);
      assert Decimal(port) + [] == Decimal(port);
  }

  function Given(q: Peer, ps: seq<Param>): Peer {
    Peer(q.host, q.port, LastOf(Weight, ps, q.weight), LastOf(MaxFails, ps, q.maxFails),
         LastOf(FailTimeout, ps, q.failTimeout), LastOf(MaxConns, ps, q.maxConns))
  }

  function WithParam(q: Peer, p: Param): Peer {
    if p.Unknown? then q
    else match p.kind
      case Weight => q.(weight := p.value)
      case MaxFails => q.(maxFails := p.value)
      case FailTimeout => q.(failTimeout := p.value)
      case MaxConns => q.(maxConns := p.value)
  }

  lemma {:induction false} LastFromFront(kind: Kind, ps: seq<Param>, default: int)
    requires ps != []
    ensures LastOf(kind, ps, default)
         == LastOf(kind, ps[1..], if ps[0].Known? && ps[0].kind == kind then ps[0].value else default)
    decreases |ps|
  {
    var n := |ps| - 1;
    if n > 0 {
      assert ps[1..][|ps[1..]| - 1] == ps[n] && ps[1..][..|ps[1..]| - 1] == ps[..n][1..];
      LastFromFront(kind, ps[..n], default);
    } else {
      assert ps[..n] == [] && ps[1..] == [];
    }
  }

  lemma GivenStep(q: Peer, ps: seq<Param>)
    requires ps != []
    ensures Given(q, ps) == Given(WithParam(q, ps[0]), ps[1..])
  {
    LastFromFront(Weight, ps, q.weight);
    LastFromFront(MaxFails, ps, q.maxFails);
    LastFromFront(FailTimeout, ps, q.failTimeout);
    LastFromFront(MaxConns, ps, q.maxConns);
    hide LastOf;
  }

  /** Each parameter sets its own field; a word without one of the four prefixes sets none. */
  lemma ParamBack(p: Param, q: Peer)
    requires WfParam(p)
    ensures ParseParameter(ParamToken(p), q) == WithParam(q, p) && ParamToken(p) != ";"
  {
    match p
    case Unknown(word) =>
      assert !(Prefix(Weight) <= word) && !(Prefix(MaxFails) <= word);
      assert !(Prefix(FailTimeout) <= word) && !(Prefix(MaxConns) <= word);
    case Known(kind, value, unit) =>
      var number := Decimal(value) + unit;
      AtoIBack(value, unit);
      hide Decimal, AtoI;
      assert ParamToken(p) == Prefix(kind) + number;
      match kind {
        case Weight => assert (WEIGHT + number)[7..] == number;
        case MaxFails => assert (MAX_FAILS + number)[10..] == number && (MAX_FAILS + number)[0] == 'm';
        case FailTimeout => assert (FAIL_TIMEOUT + number)[13..] == number && (FAIL_TIMEOUT + number)[0] == 'f';
        case MaxConns =>
          assert (MAX_CONNS + number)[10..] == number && (MAX_CONNS + number)[0] == 'm' && (MAX_CONNS + number)[4] == 'c';
      }
  }

  /** The parameters of an upstream server, any of them in any order: of each kind the last one counts. */
  lemma NothingGiven(q: Peer)
    ensures Given(q, []) == q
  {
  }

  lemma {:induction false} ParamsBack(ps: seq<Param>, q: Peer, rest: seq<CString>)
    requires forall i :: 0 <= i < |ps| ==> WfParam(ps[i])
    ensures ParseParameters(ParamsTokens(ps) + ([SEMICOLON] + rest), q) == (Given(q, ps), rest)
    decreases |ps|
  {
    hide ParseParameter, ParamToken, Given, WithParam, WfParam;
    var tail := [SEMICOLON] + rest;
    if ps == [] {
      NothingGiven(q);
      assert ParamsTokens(ps) + tail == tail && tail[1..] == rest;
    } else {
      var ts := ParamsTokens(ps) + tail;
      assert ts[0] == ParamToken(ps[0]) && ts[1..] == ParamsTokens(ps[1..]) + tail;
      ParamBack(ps[0], q);
      GivenStep(q, ps);
      ParamsBack(ps[1..], WithParam(q, ps[0]), rest);
    }
  }

  lemma PeerBack(line: PeerLine, rest: seq<CString>)
    requires WfPeer(line)
    ensures ParseParameters((PeerTokens(line) + rest)[2..], ParseAddress((PeerTokens(line) + rest)[1]))
            == (PeerOf(line), rest)
  {
    var ts := PeerTokens(line) + rest;
    assert ts[1] == AddressToken(line) && ts[2..] == ParamsTokens(line.params) + ([SEMICOLON] + rest);
    AddressBack(line);
    hide ParseAddress, AddressToken, ParamsTokens, ParseParameters, LastOf;
    ParamsBack(line.params, Peer(line.host, if line.port.Some? then line.port.value else 80, 1, 3, 30, 1000), rest);
  }

  // ---------------------------------------------------------------- upstream blocks

  function UpstreamStep(u: Upstream, item: Item<PeerLine>): Upstream {
    match item
    case Plain(d) => u.(directives := u.directives + [d])
    case Inner(line) => u.(servers := [PeerOf(line)] + u.servers)
  }

  lemma {:induction false} UpstreamFold(u: Upstream, items: seq<Item<PeerLine>>)
    ensures Fold(UpstreamStep, u, items)
         == Upstream(u.name, u.directives + Plains(items), Reverse(PeersOf(Inners(items))) + u.servers)
    decreases |items|
  {
    if items == [] {
      assert u.directives + Plains(items) == u.directives && Reverse(PeersOf(Inners(items))) + u.servers == u.servers;
    } else {
      UpstreamFold(UpstreamStep(u, items[0]), items[1..]);
      FirstItem(items);
      hide Fold, Reverse, PeerOf, Plains, Inners;
      match items[0]
      case Plain(d) => Appends(u.directives, d, Plains(items[1..]));
      case Inner(line) =>
        Inserts(u.servers, PeerOf(line), PeersOf(Inners(items[1..])));
        assert PeersOf(Inners(items)) == [PeerOf(line)] + PeersOf(Inners(items[1..]));
    }
  }

  lemma UpstreamItemReads(item: Item<PeerLine>)
    requires WfUpstreamItem(item)
    ensures Reads(UpstreamTurn, item, PeerTokens, UpstreamStep)
  {
    forall acc, more: seq<CString>
      ensures UpstreamTurn(ItemTokens(item, PeerTokens) + more, acc) == Goes(UpstreamStep(acc, item), more)
    {
      match item
      case Plain(d) =>
        DirectiveTurnBack(d, {"server"}, acc, (u: Upstream, d) => u.(directives := u.directives + [d]), more);
      case Inner(line) => PeerBack(line, more);
    }
  }

  lemma {:induction false} UpstreamItemsBack(members: seq<Item<PeerLine>>, u: Upstream, tail: seq<CString>)
    requires forall i :: 0 <= i < |members| ==> WfUpstreamItem(members[i])
    ensures ParseUpstreamBody(ItemsTokens(members, PeerTokens) + tail, u)
         == ParseUpstreamBody(tail, Upstream(u.name, u.directives + Plains(members),
                                             Reverse(PeersOf(Inners(members))) + u.servers))
  {
    forall i | 0 <= i < |members| ensures Reads(UpstreamTurn, members[i], PeerTokens, UpstreamStep) {
      UpstreamItemReads(members[i]);
    }
    ItemsBack(UpstreamTurn, members, PeerTokens, UpstreamStep, u, tail);
    UpstreamFold(u, members);
  }

  lemma UpstreamStops(rest: seq<CString>, u: Upstream)
    requires BreaksOff(rest)
    ensures var r := ParseUpstreamBody(rest, u);
            && (r == Hangs <==> rest != [] && rest[0] !in {"}", "server"})
            && (rest == [] || rest[0] in {"}", "server"} ==> r == Done(u, if rest == [] then [] else rest[1..]))
  {
  }

  /** An upstream block does without its brace: it also ends where the tokens end, and at a lone `server`. */
  lemma {:induction false} UpstreamFate(name: CString, members: seq<Item<PeerLine>>, rest: seq<CString>)
    requires (forall i :: 0 <= i < |members| ==> WfUpstreamItem(members[i])) && BreaksOff(rest)
    ensures var r := ParseUpstreamBody(ItemsTokens(members, PeerTokens) + rest, Upstream(name, [], []));
            && r != Undefined
            && (r == Hangs <==> rest != [] && rest[0] !in {"}", "server"})
            && (rest == [] || rest[0] in {"}", "server"} ==>
                  r == Done(LoadedUpstream(Upstream(name, Plains(members), PeersOf(Inners(members)))),
                            if rest == [] then [] else rest[1..]))
  {
    hide ParseUpstreamBody, ItemsTokens, PeersOf;
    var servers := PeersOf(Inners(members));
    UpstreamItemsBack(members, Upstream(name, [], []), rest);
    assert [] + Plains(members) == Plains(members) && Reverse(servers) + [] == Reverse(servers);
    UpstreamStops(rest, LoadedUpstream(Upstream(name, Plains(members), servers)));
  }

  lemma {:induction false} UpstreamBack(name: CString, members: seq<Item<PeerLine>>, rest: seq<CString>)
    requires forall i :: 0 <= i < |members| ==> WfUpstreamItem(members[i])
    ensures ParseUpstream(BlockTokens(UpstreamBlock(name, members)) + rest)
         == Done(Some(LoadedUpstream(Upstream(name, Plains(members), PeersOf(Inners(members))))), rest)
  {
    hide ParseUpstreamBody, ItemsTokens, LoadedUpstream, Plains, Inners, PeersOf;
    UpstreamFate(name, members, [CLOSE] + rest);
    Header3(UPSTREAM, name, OPEN, ItemsTokens(members, PeerTokens), rest);
  }

  // ---------------------------------------------------------------- http

  function HttpStep(h: Http, item: Item<HttpBlock>): Http {
    match item
    case Plain(d) => h.(directives := h.directives + [d])
    case Inner(ServerBlock(body)) => h.(servers := [LoadedServer(Server(Plains(body), Inners(body)))] + h.servers)
    case Inner(UpstreamBlock(name, members)) =>
      h.(upstreams := [LoadedUpstream(Upstream(name, Plains(members), PeersOf(Inners(members))))] + h.upstreams)
  }

  lemma {:induction false} HttpFold(h: Http, items: seq<Item<HttpBlock>>)
    ensures Fold(HttpStep, h, items)
         == Http(h.directives + Plains(items), Reverse(LoadedServers(ServersOf(Inners(items)))) + h.servers,
                 Reverse(LoadedUpstreams(UpstreamsOf(Inners(items)))) + h.upstreams)
    decreases |items|
  {
    if items == [] {
      assert h.directives + Plains(items) == h.directives;
      assert Reverse(LoadedServers([])) + h.servers == h.servers;
      assert Reverse(LoadedUpstreams([])) + h.upstreams == h.upstreams;
    } else {
      var blocks := Inners(items[1..]);
      HttpFold(HttpStep(h, items[0]), items[1..]);
      FirstItem(items);
      hide Fold, Reverse, LoadedServer, LoadedUpstream, PeersOf, Plains, Inners, ServersOf, UpstreamsOf;
      match items[0]
      case Plain(d) => Appends(h.directives, d, Plains(items[1..]));
      case Inner(b) =>
        match b {
          case ServerBlock(body) =>
            FirstServer(body, blocks);
            Inserts(h.servers, LoadedServer(Server(Plains(body), Inners(body))), LoadedServers(ServersOf(blocks)));
          case UpstreamBlock(name, members) =>
            FirstUpstream(name, members, blocks);
            Inserts(h.upstreams, LoadedUpstream(Upstream(name, Plains(members), PeersOf(Inners(members)))),
                    LoadedUpstreams(UpstreamsOf(blocks)));
        }
    }
  }

  lemma FirstServer(body: seq<Item<Location>>, blocks: seq<HttpBlock>)
    ensures var all := [ServerBlock(body)] + blocks;
            && LoadedServers(ServersOf(all))
               == [LoadedServer(Server(Plains(body), Inners(body)))] + LoadedServers(ServersOf(blocks))
            && UpstreamsOf(all) == UpstreamsOf(blocks)
  {
    hide LoadedServer, Plains, Inners, PeersOf;
    var s, ss := Server(Plains(body), Inners(body)), ServersOf(blocks);
    assert ([ServerBlock(body)] + blocks)[1..] == blocks;
    assert ([s] + ss)[1..] == ss;
  }

  lemma FirstUpstream(name: CString, members: seq<Item<PeerLine>>, blocks: seq<HttpBlock>)
    ensures var all := [UpstreamBlock(name, members)] + blocks;
            && LoadedUpstreams(UpstreamsOf(all))
               == [LoadedUpstream(Upstream(name, Plains(members), PeersOf(Inners(members))))]
                  + LoadedUpstreams(UpstreamsOf(blocks))
            && ServersOf(all) == ServersOf(blocks)
  {
    hide LoadedUpstream, Plains, Inners, PeersOf;
    var u, us := Upstream(name, Plains(members), PeersOf(Inners(members))), UpstreamsOf(blocks);
    assert ([UpstreamBlock(name, members)] + blocks)[1..] == blocks;
    assert ([u] + us)[1..] == us;
  }

  lemma HttpItemReads(item: Item<HttpBlock>)
    requires WfHttpItem(item)
    ensures Reads(HttpTurn, item, BlockTokens, HttpStep)
  {
    forall acc, more: seq<CString>
      ensures HttpTurn(ItemTokens(item, BlockTokens) + more, acc) == Goes(HttpStep(acc, item), more)
    {
      match item
      case Plain(d) =>
        DirectiveTurnBack(d, {"server", "upstream"}, acc, (h: Http, d) => h.(directives := h.directives + [d]), more);
      case Inner(ServerBlock(body)) => ServerBack(body, more);
      case Inner(UpstreamBlock(name, members)) => UpstreamBack(name, members, more);
    }
  }

  lemma {:induction false} HttpItemsBack(items: seq<Item<HttpBlock>>, h: Http, tail: seq<CString>)
    requires forall i :: 0 <= i < |items| ==> WfHttpItem(items[i])
    ensures ParseHttpBody(ItemsTokens(items, BlockTokens) + tail, h)
         == ParseHttpBody(tail, Http(h.directives + Plains(items),
                                     Reverse(LoadedServers(ServersOf(Inners(items)))) + h.servers,
                                     Reverse(LoadedUpstreams(UpstreamsOf(Inners(items)))) + h.upstreams))
  {
    forall i | 0 <= i < |items| ensures Reads(HttpTurn, items[i], BlockTokens, HttpStep) {
      HttpItemReads(items[i]);
    }
    ItemsBack(HttpTurn, items, BlockTokens, HttpStep, h, tail);
    HttpFold(h, items);
  }

  lemma HttpStops(rest: seq<CString>, h: Http)
    requires BreaksOff(rest)
    ensures var r := ParseHttpBody(rest, h);
            && (r == Undefined <==> rest == [] || rest[0] in {"server", "upstream"})
            && (r == Hangs <==> rest != [] && rest[0] !in {"}", "server", "upstream"})
            && (rest != [] && rest[0] == "}" ==> r == Done(h, rest[1..]))
  {
    assert Loop(HttpTurn, [], h) == Undefined;
    if rest != [] && rest[0] == "upstream" {
      assert HttpTurn(rest, h) == Goes(h, []);
    }
  }

  /** And for the http section; a lone `server` or `upstream` is read past. */
  lemma {:induction false} HttpFate(items: seq<Item<HttpBlock>>, rest: seq<CString>)
    requires (forall i :: 0 <= i < |items| ==> WfHttpItem(items[i])) && BreaksOff(rest)
    ensures var r := ParseHttpBody(ItemsTokens(items, BlockTokens) + rest, Http([], [], []));
            && (r == Undefined <==> rest == [] || rest[0] in {"server", "upstream"})
            && (r == Hangs <==> rest != [] && rest[0] !in {"}", "server", "upstream"})
            && (rest != [] && rest[0] == "}" ==> r == Done(Loaded(HttpOf(items)), rest[1..]))
  {
    hide ParseHttpBody, ItemsTokens, LoadedServers, LoadedUpstreams, ServersOf, UpstreamsOf, Plains, Inners;
    var servers, upstreams := LoadedServers(ServersOf(Inners(items))), LoadedUpstreams(UpstreamsOf(Inners(items)));
    HttpItemsBack(items, Http([], [], []), rest);
    assert [] + Plains(items) == Plains(items);
    assert Reverse(servers) + [] == Reverse(servers) && Reverse(upstreams) + [] == Reverse(upstreams);
    HttpStops(rest, Loaded(HttpOf(items)));
  }

  lemma HttpBack(items: seq<Item<HttpBlock>>, rest: seq<CString>)
    requires forall i :: 0 <= i < |items| ==> WfHttpItem(items[i])
    ensures ParseHttp(SectionTokens(HttpSection(items)) + rest) == Done(Some(Loaded(HttpOf(items))), rest)
  {
    hide ParseHttpBody, ItemsTokens, Loaded, HttpOf;
    HttpFate(items, [CLOSE] + rest);
    Header2(HTTP, OPEN, ItemsTokens(items, BlockTokens), rest);
  }

  // ---------------------------------------------------------------- files

  lemma {:induction false} TreeFromFront(file: seq<Section>)
    requires file != []
    ensures TreeOf(file) == if TreeOf(file[1..]).Some? || file[0].Skipped? then TreeOf(file[1..])
                            else Some(HttpOf(file[0].items))
    decreases |file|
  {
    var n := |file| - 1;
    hide HttpOf;
    if n > 0 {
      assert file[1..][|file[1..]| - 1] == file[n] && file[1..][..|file[1..]| - 1] == file[..n][1..];
      TreeFromFront(file[..n]);
    } else {
      assert file[..n] == [] && file[1..] == [];
    }
  }

  /** The sections of a file, one after the other: the last http section stays. */
  lemma {:induction false} FileBack(file: seq<Section>, http: Option<Http>)
    requires WfFile(file)
    ensures ParseTop(FileTokens(file), http)
         == Done(if TreeOf(file).Some? then LoadedTree(TreeOf(file)) else http, [])
    decreases |file|
  {
    if file != [] {
      var ts, more := FileTokens(file), FileTokens(file[1..]);
      assert WfSection(file[0]);
      TreeFromFront(file);
      match file[0] {
        case Skipped(t) =>
          assert ts[0] == t && ts[1..] == more;
          FileBack(file[1..], http);
        case HttpSection(items) =>
          HttpBack(items, more);
          assert ts[0] == "http";
          FileBack(file[1..], Some(Loaded(HttpOf(items))));
      }
    }
  }

  // ---------------------------------------------------------------- every piece is a token

  ghost predicate AllTokens(ts: seq<CString>) {
    forall i :: 0 <= i < |ts| ==> Token(ts[i])
  }

  lemma Keywords()
    ensures Token(OPEN) && Token(CLOSE) && Token(SEMICOLON)
    ensures Token(HTTP) && Token(SERVER) && Token(UPSTREAM) && Token(LOCATION)
  {
  }

  lemma {:induction false} ItemsAreTokens<B>(items: seq<Item<B>>, inner: B -> seq<CString>)
    requires forall i :: 0 <= i < |items| ==> AllTokens(ItemTokens(items[i], inner))
    ensures AllTokens(ItemsTokens(items, inner))
  {
    hide Token;
    if items != [] { ItemsAreTokens(items[1..], inner); }
  }

  lemma DirectiveIsTokens(d: Directive, keywords: set<string>)
    requires WfDirective(d, keywords)
    ensures AllTokens(DirectiveTokens(d))
  {
    Keywords();
    hide Word, MarkToken;
  }

  lemma LocationIsTokens(l: Location)
    requires WfLocation(l)
    ensures AllTokens(LocationTokens(l))
  {
    var items := Plainly(l.directives);
    forall i | 0 <= i < |items| ensures AllTokens(ItemTokens(items[i], NoBlock)) {
      DirectiveIsTokens(l.directives[i], {});
    }
    ItemsAreTokens(items, NoBlock);
    Keywords();
    hide Word, MarkToken, ItemsTokens, WfDirective;
  }

  lemma DecimalWord(name: CString, n: int, unit: CString)
    requires Word(name) && forall i :: 0 <= i < |unit| ==> !Stops(unit[i])
    ensures Word(name + (Decimal(n) + unit))
  {
    assert forall i :: 0 <= i < |Decimal(n)| ==> !Stops(Decimal(n)[i]);
    hide Decimal;
  }

  lemma PrefixesAreWords(kind: Kind)
    ensures Word(Prefix(kind))
  {
  }

  lemma PeerIsTokens(line: PeerLine)
    requires WfPeer(line)
    ensures AllTokens(PeerTokens(line))
  {
    AddressIsWord(line);
    ParamsAreTokens(line.params);
    Keywords();
    hide Word, MarkToken, AddressToken, ParamsTokens;
  }

  lemma AddressIsWord(line: PeerLine)
    requires WfPeer(line)
    ensures Word(AddressToken(line))
  {
    match line.port
    case None =>
      assert forall i :: 0 <= i < |line.host| ==> line.host[i] == (line.host + COLON)[i];
      assert AddressToken(line) == line.host;
    case Some(port) =>
      DecimalWord(line.host + COLON, port, []);
      assert AddressToken(line) == (line.host + COLON) + (Decimal(port) + []);
  }

  lemma {:induction false} ParamsAreTokens(ps: seq<Param>)
    requires forall i :: 0 <= i < |ps| ==> WfParam(ps[i])
    ensures AllTokens(ParamsTokens(ps))
  {
    if ps != [] {
      ParamsAreTokens(ps[1..]);
      if ps[0].Known? {
        PrefixesAreWords(ps[0].kind);
        DecimalWord(Prefix(ps[0].kind), ps[0].value, ps[0].unit);
      }
      assert WfParam(ps[0]);
      hide Word, MarkToken, Prefix, Decimal;
    }
  }

  lemma BlockIsTokens(b: HttpBlock)
    requires WfBlock(b)
    ensures AllTokens(BlockTokens(b))
  {
    match b {
      case ServerBlock(body) =>
        forall i | 0 <= i < |body| ensures AllTokens(ItemTokens(body[i], LocationTokens)) {
          assert WfServerItem(body[i]);
          match body[i] case Plain(d) => DirectiveIsTokens(d, {"location"}); case Inner(l) => LocationIsTokens(l);
        }
        ItemsAreTokens(body, LocationTokens);
      case UpstreamBlock(_, members) =>
        forall i | 0 <= i < |members| ensures AllTokens(ItemTokens(members[i], PeerTokens)) {
          assert WfUpstreamItem(members[i]);
          match members[i] case Plain(d) => DirectiveIsTokens(d, {"server"}); case Inner(line) => PeerIsTokens(line);
        }
        ItemsAreTokens(members, PeerTokens);
    }
    Keywords();
    hide Word, MarkToken, ItemsTokens;
  }

  lemma SectionIsTokens(s: Section)
    requires WfSection(s)
    ensures AllTokens(SectionTokens(s))
  {
    match s {
      case Skipped(_) =>
      case HttpSection(items) =>
        forall i | 0 <= i < |items| ensures AllTokens(ItemTokens(items[i], BlockTokens)) {
          assert WfHttpItem(items[i]);
          match items[i] case Plain(d) => DirectiveIsTokens(d, {"server", "upstream"}); case Inner(b) => BlockIsTokens(b);
        }
        ItemsAreTokens(items, BlockTokens);
    }
    Keywords();
    hide Token, ItemsTokens;
  }

  lemma {:induction false} FileIsTokens(file: seq<Section>)
    requires WfFile(file)
    ensures AllTokens(FileTokens(file))
  {
    hide Token, SectionTokens, WfSection;
    if file != [] {
      FileIsTokens(file[1..]);
      SectionIsTokens(file[0]);
    }
  }

  // ---------------------------------------------------------------- the round trip

  /** The tree in memory after a text has been tokenized and parsed. */
  ghost function Load(text: seq<Octet>): Outcome<Option<Http>> {
    ParseTop(Held(Lex(text)), None)
  }

  /** Any layout of a well-formed file that fits the token array loads as the tree the file describes, with its linked
      lists reversed. */
  lemma RoundTrip(file: seq<Section>, gaps: seq<CString>)
    requires WfFile(file) && |FileTokens(file)| <= MAX_TOKENS && Layout(FileTokens(file), gaps)
    ensures Load(Render(FileTokens(file), gaps)) == Done(LoadedTree(TreeOf(file)), [])
  {
    var ts := FileTokens(file);
    FileIsTokens(file);
    hide FileTokens, WfFile;
    LexRender(ts, gaps);
    FileBack(file, None);
  }

  // ---------------------------------------------------------------- where parsing fails

  /** A printed directive made of words is read back exactly when its value fits the buffer. */
  lemma ReadBackExactlyWhenItFits(key: CString, value: CString, rest: seq<CString>)
    requires Words(Split<CChar>(value, SPACE))
    ensures var d := Directive(key, Some(value));
            ParseDirective(DirectiveTokens(d) + rest) == Done(Some(d), rest) <==> |value| <= VALUE_ROOM
  {
    hide ParseDirective, DirectiveTokens, Overruns, Join, Split, Word;
    DirectiveFateOf(key, value, rest);
    if |value| <= VALUE_ROOM {
      JoinSplit(value, SPACE);
      FittingIsNoOverrun(Split<CChar>(value, SPACE));
    }
  }

  const LETTER: CChar := 'a'

  /** A value of 1024 letters is not read back. */
  lemma LongValueIsLost()
    ensures var d := Directive([LETTER], Some(seq(1024, _ => LETTER)));
            ParseDirective(DirectiveTokens(d)) != Done(Some(d), [])
  {
    var value: CString := seq(1024, _ => LETTER);
    var d := Directive([LETTER], Some(value));
    SplitWord(value, SPACE);
    assert Word(value) && Word([LETTER]);
    assert DirectiveTokens(d) + [] == DirectiveTokens(d);
    hide Split, ParseDirective, DirectiveTokens;
    ReadBackExactlyWhenItFits([LETTER], value, []);
  }

  const LETTER_WORD: CString := [LETTER]

  /** 1023 letters and one more word: the value buffer is overrun. */
  lemma ValueCanBeOverrun(long: CString)
    requires long == seq(1023, _ => LETTER)
    ensures ParseDirective([LETTER_WORD, long, LETTER_WORD, SEMICOLON]) == Undefined
  {
    var ws, ts := [long, LETTER_WORD], [LETTER_WORD, long, LETTER_WORD, SEMICOLON];
    hide ParseDirective;
    var end := [SEMICOLON];
    assert ts[1..] == ws + end;
    assert long[0] == LETTER && |long| == 1023;
    ValueTokensAre(ws, end);
    DirectiveFate(ts);
    JoinOne(long);
    assert ws[..|ws| - 1] == [long];
  }

  /** A lone key where a location breaks off: the loop goes on for ever. */
  lemma LoneKeyHangs()
    ensures GoesOnForEver(LocationTurn, [[LETTER]], [])
  {
    LocationHangsExactlyWhen([[LETTER]], []);
  }

  /** Blocks whose brace is missing: a server block leads to a NULL pointer; an upstream block is passed over, its keyword
      and name only; and at the top level an http block is tried again and again, for ever. */
  lemma MissingBraces(x: CString, name: CString, rest: seq<CString>, h: Http, http: Option<Http>)
    requires x != "{"
    ensures ParseHttpBody([SERVER, x] + rest, h) == Undefined
    ensures ParseHttpBody([UPSTREAM, name, x] + rest, h) == ParseHttpBody([x] + rest, h)
    ensures ParseTop([HTTP, x] + rest, http) == Hangs && GoesOnForEver(TopTurn, [HTTP, x] + rest, http)
  {
    var ts := [HTTP, x] + rest;
    assert ([UPSTREAM, name, x] + rest)[2..] == [x] + rest;
    assert TopTurn(ts, http) == Goes(None, ts) && TopTurn(ts, None) == Goes(None, ts);
    forall k: nat ensures Turns(TopTurn, ts, http, k).Goes? {
      SameTurnAgain(ts, http, k);
    }
  }

  lemma {:induction false} SameTurnAgain(ts: seq<CString>, http: Option<Http>, k: nat)
    requires forall h :: TopTurn(ts, h) == Goes(None, ts)
    ensures Turns(TopTurn, ts, http, k) == Goes(if k == 0 then http else None, ts)
  {
    if k > 0 { SameTurnAgain(ts, http, k - 1); }
  }
}
