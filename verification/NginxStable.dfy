/** What reading a text guarantees, and what is therefore left unchanged by printing and reading again. */
module NginxStable {
  import opened Options
  import opened Text
  import opened NginxConfig
  import opened NginxText
  import opened NginxNormal
  import opened NginxRoundTrip

  // ---------------------------------------------------------------- what every text is read as

  predicate MaybeWord(w: Option<string>) {
    w.Some? ==> Word(w.value)
  }

  predicate SomeWords(ws: seq<string>) {
    ws != [] && Words(ws)
  }

  predicate MaybeSomeWords(ws: Option<seq<string>>) {
    ws.Some? ==> SomeWords(ws.value)
  }

  /** Words with one space between neighbours. */
  predicate Spaced(v: string) {
    Words(Split(v, ' '))
  }

  predicate SoundHeaders(headers: map<string, string>) {
    headers != map[] && forall k :: k in headers ==> Word(k) && Spaced(headers[k])
  }

  /** A location as it is while its block is read: the path may still be missing. */
  predicate SoundLocation(l: Location) {
    && (l.path == "" || Word(l.path)) && MaybeWord(l.root) && MaybeSomeWords(l.index) && MaybeWord(l.proxyPass)
    && (l.returnCode.Some? ==> l.returnCode.value < U16_LIMIT)
    && MaybeWord(l.returnUrl) && (l.returnUrl.Some? ==> l.returnCode.Some?)
    && MaybeSomeWords(l.tryFiles) && (l.headers.Some? ==> SoundHeaders(l.headers.value))
  }

  predicate SoundSsl(v: Ssl) {
    && (v.certificate == "" || Word(v.certificate)) && (v.privateKey == "" || Word(v.privateKey))
    && SomeWords(v.protocols) && v.ciphers.None?
  }

  predicate SoundServer(s: Server) {
    && s.listen != [] && s.listen[0] == "80" && Distinct(s.listen) && Words(s.listen)
    && MaybeWord(s.serverName) && Word(s.root) && SomeWords(s.index)
    && s.workerProcesses.Some? && s.workerProcesses.value < USIZE_LIMIT && s.workerConnections == Some(1024)
  }

  predicate SoundLogging(logging: Option<Logging>) {
    && logging.Some? && logging.value.accessLog.Some? && Word(logging.value.accessLog.value)
    && MaybeWord(logging.value.errorLog) && logging.value.logLevel == Some("info")
  }

  predicate SoundLocations(ls: seq<Location>) {
    forall i :: 0 <= i < |ls| ==> SoundLocation(ls[i])
  }

  predicate Sound(c: Config) {
    && SoundServer(c.server) && SoundLogging(c.logging) && (c.ssl.Some? ==> SoundSsl(c.ssl.value))
    && c.proxy.None? && c.cache.None? && SoundLocations(c.locations)
  }

  /** What validation adds. */
  predicate Named(c: Config) {
    && (c.ssl.Some? ==> c.ssl.value.certificate != "" && c.ssl.value.privateKey != "")
    && forall i :: 0 <= i < |c.locations| ==> c.locations[i].path != ""
  }

  predicate SoundState(s: State) {
    Sound(s.config) && SoundLocation(s.location)
  }

  lemma StartIsSound()
    ensures SoundState(START)
  {
    DefaultServerIsSound();
    DefaultLoggingIsSound();
    hide SoundServer, SoundLogging, Word;
  }

  lemma DefaultServerIsSound()
    ensures SoundServer(DEFAULT_SERVER)
  {
    assert Word("80") && Word("/var/www/html");
    assert Words(DEFAULT_INDEX);
    hide Word;
  }

  lemma DefaultLoggingIsSound()
    ensures SoundLogging(Some(DEFAULT_LOGGING))
  {
    assert Word("/var/log/anx/access.log") && Word("/var/log/anx/error.log");
  }

  lemma ProtocolsAreWords()
    ensures SomeWords(DEFAULT_PROTOCOLS)
  {
  }

  lemma GlobalKeeps(c: Config, parts: seq<string>, cpus: nat)
    requires Sound(c) && SomeWords(parts) && cpus < USIZE_LIMIT
    ensures ReadGlobal(c, parts, cpus).Good? ==> Sound(ReadGlobal(c, parts, cpus).value)
  {
    hide Word, SoundLocations, SoundSsl, Distinct;
  }

  lemma AddedKeeps(have: seq<string>, w: string)
    requires Distinct(have) && Words(have) && Word(w)
    ensures Distinct(Added(have, w)) && Words(Added(have, w)) && have <= Added(have, w)
  {
    hide Word;
  }

  lemma SslKeeps(c: Config, parts: seq<string>)
    requires Sound(c) && SomeWords(parts) && |parts| >= 2
    requires parts[0] in ["ssl_certificate", "ssl_certificate_key", "ssl_protocols"]
    ensures ReadServer(c, parts).Good? && Sound(ReadServer(c, parts).value)
  {
    hide Word, SoundLocations, SoundServer, SoundLogging;
    ProtocolsAreWords();
    assert Words(parts[1..]);
    hide Words;
  }

  lemma ServerKeeps(c: Config, parts: seq<string>)
    requires Sound(c) && SomeWords(parts)
    ensures ReadServer(c, parts).Good? ==> Sound(ReadServer(c, parts).value)
  {
    hide Word, SoundLocations, SoundSsl, Distinct, Added;
    if |parts| >= 2 && parts[0] in ["ssl_certificate", "ssl_certificate_key", "ssl_protocols"] {
      SslKeeps(c, parts);
    } else if |parts| >= 2 {
      AddedKeeps(c.server.listen, parts[1]);
      assert Words(parts[1..]);
      assert parts[0] == "listen" ==>
        ReadServer(c, parts) == Good(c.(server := c.server.(listen := Added(c.server.listen, parts[1])))) by {
        AddedIs(c.server.listen, parts[1]);
      }
      hide Words;
    }
  }

  lemma AddedIs(have: seq<string>, w: string)
    ensures Added(have, w) == if w in have then have else have + [w]
  {
  }

  lemma HeadersKeep(headers: Option<map<string, string>>, name: string, words: seq<string>)
    requires (headers.Some? ==> SoundHeaders(headers.value)) && Word(name) && SomeWords(words)
    ensures SoundHeaders((if headers.None? then map[] else headers.value)[name := Join(words, ' ')])
  {
    JoinIsSpaced(words);
    var all := (if headers.None? then map[] else headers.value)[name := Join(words, ' ')];
    assert name in all;
    hide Word, Words, Spaced, Join;
  }

  lemma AddHeaderKeeps(l: Location, parts: seq<string>)
    requires SoundLocation(l) && SomeWords(parts) && |parts| >= 3 && parts[0] == "add_header"
    ensures ReadLocation(l, parts).Good? && SoundLocation(ReadLocation(l, parts).value)
  {
    hide Word, Spaced, Join, SoundHeaders;
    assert Words(parts[2..]);
    hide Words;
    HeadersKeep(l.headers, parts[1], parts[2..]);
  }

  lemma ReturnKeeps(l: Location, parts: seq<string>)
    requires SoundLocation(l) && SomeWords(parts) && |parts| >= 2 && parts[0] == "return"
    ensures ReadLocation(l, parts).Good? ==> SoundLocation(ReadLocation(l, parts).value)
  {
    hide Word, SoundHeaders;
    assert Word(parts[1]);
    assert |parts| >= 3 ==> Word(parts[2]);
    hide Words;
  }

  lemma ListKeeps(l: Location, parts: seq<string>)
    requires SoundLocation(l) && SomeWords(parts) && |parts| >= 2 && parts[0] in ["index", "try_files"]
    ensures ReadLocation(l, parts).Good? && SoundLocation(ReadLocation(l, parts).value)
  {
    hide Word, SoundHeaders;
    assert Words(parts[1..]);
    hide Words;
  }

  lemma LocationKeeps(l: Location, parts: seq<string>)
    requires SoundLocation(l) && SomeWords(parts)
    ensures ReadLocation(l, parts).Good? ==> SoundLocation(ReadLocation(l, parts).value)
  {
    hide Word, Spaced, Join, SoundHeaders;
    if |parts| >= 3 && parts[0] == "add_header" {
      AddHeaderKeeps(l, parts);
    } else if |parts| >= 2 && parts[0] == "return" {
      ReturnKeeps(l, parts);
    } else if |parts| >= 2 && parts[0] in ["index", "try_files"] {
      ListKeeps(l, parts);
    } else if |parts| >= 2 {
      assert Word(parts[1]);
      hide Words, Number;
    }
  }

  /** Words joined by single spaces are found again. */
  lemma JoinIsSpaced(ws: seq<string>)
    requires SomeWords(ws)
    ensures Spaced(Join(ws, ' ')) && Split(Join(ws, ' '), ' ') == ws
  {
    SplitJoin(ws);
  }

  lemma {:induction false} SplitJoin(ws: seq<string>)
    requires SomeWords(ws)
    ensures Split(Join(ws, ' '), ' ') == ws
  {
    assert IsSpace(' ');
    if |ws| == 1 {
      SplitWord(ws[0], ' ');
    } else {
      SplitJoin(ws[1..]);
      SplitFirst(ws[0], Join(ws[1..], ' '));
      assert Join(ws, ' ') == ws[0] + (" " + Join(ws[1..], ' '));
    }
  }

  lemma {:induction false} SplitFirst(w: string, rest: string)
    requires ' ' !in w
    ensures Split(w + (" " + rest), ' ') == [w] + Split(rest, ' ')
  {
    var s := w + (" " + rest);
    if w == "" {
      assert s == " " + rest && s[1..] == rest;
    } else {
      SplitFirst(w[1..], rest);
      assert s[1..] == w[1..] + (" " + rest) && s[0] == w[0] != ' ';
      assert [w[0]] + w[1..] == w;
    }
  }

  lemma StructureKeeps(s: State, parts: seq<string>)
    requires SoundState(s) && SomeWords(parts)
    ensures SoundState(ReadStructure(s, parts))
  {
    hide Word, SoundServer, SoundLogging, SoundSsl;
    if parts[0] == "}" && s.context.InLocation? && s.location.path != "" {
      var ls := s.config.locations + [s.location];
      assert SoundLocations(ls);
    }
  }

  lemma PartsKeep(s: State, parts: seq<string>, brace: bool, cpus: nat)
    requires SoundState(s) && Words(parts) && cpus < USIZE_LIMIT
    ensures ReadParts(s, parts, brace, cpus).Good? ==> SoundState(ReadParts(s, parts, brace, cpus).value)
  {
    hide Word, Words, Sound, SoundLocation, ReadGlobal, ReadServer, ReadLocation, ReadStructure;
    if parts != [] {
      GlobalKeeps(s.config, parts, cpus);
      ServerKeeps(s.config, parts);
      LocationKeeps(s.location, parts);
      StructureKeeps(s, parts);
    }
  }

  lemma LineKeeps(s: State, line: string, cpus: nat)
    requires SoundState(s) && cpus < USIZE_LIMIT
    ensures ReadLine(s, line, cpus).Good? ==> SoundState(ReadLine(s, line, cpus).value)
  {
    hide SoundState, ReadParts, Fields, TrimStart, TrimEnd, TrimSemicolons;
    var text := TrimSemicolons(TrimEnd(TrimStart(line)));
    FieldsAreWords(text);
    PartsKeep(s, Fields(text), '{' in text, cpus);
  }

  lemma {:induction false} LinesKeep(s: State, lines: seq<string>, cpus: nat)
    requires SoundState(s) && cpus < USIZE_LIMIT
    ensures ReadLines(s, lines, cpus).Good? ==> SoundState(ReadLines(s, lines, cpus).value)
    decreases |lines|
  {
    hide SoundState, ReadLine;
    if lines != [] {
      LineKeeps(s, lines[0], cpus);
      match ReadLine(s, lines[0], cpus) {
        case Bad(_) =>
        case Good(next) => LinesKeep(next, lines[1..], cpus);
      }
    }
  }

  /** Every accepted text, however it is written, is read as a sound configuration. */
  lemma ParsedIsSound(content: string, cpus: nat)
    requires cpus < USIZE_LIMIT && Parse(content, cpus).Good?
    ensures Sound(Parse(content, cpus).value) && Named(Parse(content, cpus).value)
  {
    hide Sound, SoundLocation, ReadLines, Lines;
    StartIsSound();
    LinesKeep(START, Lines(content), cpus);
    var ls := Parse(content, cpus).value.locations;
    forall i | 0 <= i < |ls| ensures ls[i].path != "" {
      assert ls[i] in ls;
    }
  }

  // ---------------------------------------------------------------- what is read again as it was

  predicate LastOpen(ws: seq<string>) {
    ws == [] || EndsOpen(ws[|ws| - 1])
  }

  predicate MaybeOpen(w: Option<string>) {
    w.Some? ==> EndsOpen(w.value)
  }

  predicate MaybeLastOpen(ws: Option<seq<string>>) {
    ws.Some? ==> LastOpen(ws.value)
  }

  predicate AllOpen(ws: seq<string>) {
    forall i :: 0 <= i < |ws| ==> EndsOpen(ws[i])
  }

  predicate OpenHeaders(headers: map<string, string>) {
    forall k :: k in headers ==> EndsOpen(headers[k])
  }

  predicate OpenLocation(l: Location) {
    && MaybeOpen(l.root) && MaybeLastOpen(l.index) && MaybeOpen(l.proxyPass) && MaybeOpen(l.returnUrl)
    && MaybeLastOpen(l.tryFiles) && (l.headers.Some? ==> OpenHeaders(l.headers.value))
  }

  /** No value that ends a printed line that is read ends in a semicolon itself. */
  predicate OpenEnds(c: Config) {
    && AllOpen(c.server.listen) && MaybeOpen(c.server.serverName) && EndsOpen(c.server.root) && LastOpen(c.server.index)
    && (c.logging.Some? ==> MaybeOpen(c.logging.value.accessLog))
    && (c.ssl.Some? ==>
          EndsOpen(c.ssl.value.certificate) && EndsOpen(c.ssl.value.privateKey) && LastOpen(c.ssl.value.protocols))
    && forall i :: 0 <= i < |c.locations| ==> OpenLocation(c.locations[i])
  }

  /** The settings that are read but never printed, or not where they are read, have their default values. */
  predicate UnprintedAreDefault(c: Config) {
    && c.server.keepaliveTimeout == DEFAULT_SERVER.keepaliveTimeout
    && c.server.clientMaxBodySize == DEFAULT_SERVER.clientMaxBodySize
    && (c.logging.Some? ==> c.logging.value.errorLog == DEFAULT_LOGGING.errorLog)
  }

  predicate Survives(c: Config) {
    Sound(c) && Named(c) && UnprintedAreDefault(c) && OpenEnds(c)
  }

  // ---------------------------------------------------------------- single values

  lemma TrimIsOpen(s: string)
    ensures EndsOpen(TrimSemicolons(s))
  {
  }

  /** A word is read without the semicolons at its end, if anything is left. */
  lemma WordIsTrimmed(w: string)
    requires Word(w)
    ensures var t := TrimSemicolons(w); WordsOf([w]) == (if t == "" then [] else [t]) && EndsOpen(t)
    ensures WordsOf([w]) == [w] <==> EndsOpen(w)
  {
    var t := TrimSemicolons(w);
    OneText(w);
    TrimIsPrefix(w);
    TrimIsOpen(w);
    OpenStays(w);
    if t == "" { NoFields(); } else { WordField(t); }
    hide TrimSemicolons, Fields, WordsOf;
    if WordsOf([w]) == [w] { assert [w][0] == [t][0]; }
  }

  lemma FirstWordUnchanged(w: string)
    requires Word(w)
    ensures FirstWord(w) == Some(w) <==> EndsOpen(w)
    ensures FirstWord(w).Some? ==> EndsOpen(FirstWord(w).value)
  {
    hide TrimSemicolons, WordsOf;
    WordIsTrimmed(w);
  }

  lemma {:induction false} WordsUnchanged(ws: seq<string>)
    requires SomeWords(ws)
    ensures WordsOf(ws) == ws <==> LastOpen(ws)
  {
    hide WordsOf, Word;
    if |ws| == 1 {
      assert ws == [ws[0]];
      WordIsTrimmed(ws[0]);
    } else {
      WordsUnchanged(ws[1..]);
      WordFirst(ws[0], ws[1..]);
      assert ws == [ws[0]] + ws[1..];
      assert ([ws[0]] + WordsOf(ws[1..]))[1..] == WordsOf(ws[1..]);
    }
  }

  /** The words of a text, joined, fit into it. */
  lemma {:induction false} FieldsFit(s: string)
    ensures |Join(Fields(s), ' ')| <= |s|
    decreases |s|
  {
    var t := TrimStart(s);
    if t != "" {
      var n := WordLength(t);
      var more := t[n..];
      assert ([t[..n]] + Fields(more))[1..] == Fields(more);
      WordEnds(t);
      if more != "" {
        SkipSpace(more);
        FieldsFit(more[1..]);
      }
    }
  }

  lemma ValueUnchanged(v: string)
    requires Spaced(v)
    ensures v != "" && (Squeeze(v) == v <==> EndsOpen(v))
  {
    hide Fields, TrimSemicolons, Join, WordsOf;
    var ws := Split(v, ' ');
    JoinSplit(v, ' ');
    OneText(v);
    SpacedIsSome(v);
    if EndsOpen(v) {
      OpenStays(v);
      FieldsJoin(ws);
      WordsBack(ws);
    } else {
      TrimShortens(v);
      FieldsFit(TrimSemicolons(v));
    }
  }

  lemma SpacedIsSome(v: string)
    requires Spaced(v)
    ensures v != ""
  {
    assert Split("", ' ') == [""] && [""][0] == "";
  }

  lemma HeadersUnchanged(headers: map<string, string>)
    requires SoundHeaders(headers)
    ensures NormalHeaders(Some(headers)) == Some(headers) <==> OpenHeaders(headers)
  {
    forall k | k in headers ensures headers[k] != "" && (Squeeze(headers[k]) == headers[k] <==> EndsOpen(headers[k])) {
      ValueUnchanged(headers[k]);
    }
    hide Squeeze, EndsOpen, Spaced;
    var kept := map k | k in headers && Squeeze(headers[k]) != "" :: Squeeze(headers[k]);
    if OpenHeaders(headers) {
      assert kept == headers;
    } else {
      var k :| k in headers && !EndsOpen(headers[k]);
      assert k !in kept || kept[k] != headers[k];
    }
  }

  lemma PathUnchanged(path: string)
    requires Word(path)
    ensures NormalPath(path) == path
  {
    WordField(path);
  }

  lemma MaybeFirstUnchanged(w: Option<string>)
    requires MaybeWord(w)
    ensures MaybeFirst(w) == w <==> MaybeOpen(w)
  {
    if w.Some? { FirstWordUnchanged(w.value); }
    hide FirstWord;
  }

  lemma MaybeWordsUnchanged(ws: Option<seq<string>>)
    requires MaybeSomeWords(ws)
    ensures MaybeWords(ws) == ws <==> MaybeLastOpen(ws)
  {
    if ws.Some? { WordsUnchanged(ws.value); }
    hide WordsOf;
  }

  lemma LocationUnchanged(l: Location)
    requires SoundLocation(l) && l.path != ""
    ensures NormalLocation(l) == l <==> OpenLocation(l)
  {
    hide Word, NormalPath, MaybeFirst, MaybeWords, NormalHeaders, EndsOpen, LastOpen, OpenHeaders, SoundHeaders;
    PathUnchanged(l.path);
    MaybeFirstUnchanged(l.root);
    MaybeWordsUnchanged(l.index);
    MaybeFirstUnchanged(l.proxyPass);
    MaybeFirstUnchanged(l.returnUrl);
    MaybeWordsUnchanged(l.tryFiles);
    if l.headers.Some? { HeadersUnchanged(l.headers.value); } else { NoHeaders(); }
  }

  lemma NoHeaders()
    ensures NormalHeaders(None) == None
  {
  }

  lemma {:induction false} FirstWordsOpen(ws: seq<string>)
    requires Words(ws)
    ensures AllOpen(FirstWords(ws)) && (AllOpen(ws) ==> FirstWords(ws) == ws)
  {
    hide Word, FirstWord, EndsOpen;
    if ws != [] {
      FirstWordUnchanged(ws[0]);
      FirstWordsOpen(ws[1..]);
    }
  }

  lemma ListenUnchanged(listen: seq<string>)
    requires listen != [] && listen[0] == "80" && Distinct(listen) && Words(listen)
    ensures Firsts(["80"] + FirstWords(listen)) == listen <==> AllOpen(listen)
  {
    var read := FirstWords(listen);
    FirstWordsOpen(listen);
    FirstsDistinct(["80"] + read);
    assert EndsOpen("80");
    hide Firsts, EndsOpen, Word, FirstWords, Distinct;
    if AllOpen(listen) {
      RepeatedHead("80", listen);
      FirstsDistinct(listen);
    } else if Firsts(["80"] + read) == listen {
      forall i | 0 <= i < |listen| ensures EndsOpen(listen[i]) {
        assert listen[i] in ["80"] + read;
      }
    }
  }

  // ---------------------------------------------------------------- whole configurations

  lemma ServerUnchanged(s: Server)
    requires SoundServer(s)
    ensures NormalServer(s) == s <==>
      && AllOpen(s.listen) && MaybeOpen(s.serverName) && EndsOpen(s.root) && LastOpen(s.index)
      && s.keepaliveTimeout == DEFAULT_SERVER.keepaliveTimeout && s.clientMaxBodySize == DEFAULT_SERVER.clientMaxBodySize
  {
    hide Firsts, FirstWords, FirstWord, WordsOf, MaybeFirst, Word, Words, Distinct, AllOpen, EndsOpen, LastOpen, MaybeOpen;
    ListenUnchanged(s.listen);
    MaybeFirstUnchanged(s.serverName);
    RootUnchanged(s.root);
    IndexUnchanged(s.index);
  }

  lemma RootUnchanged(root: string)
    requires Word(root)
    ensures GetOr(FirstWord(root), DEFAULT_SERVER.root) == root <==> EndsOpen(root)
  {
    FirstWordUnchanged(root);
    assert EndsOpen(DEFAULT_SERVER.root);
    hide FirstWord;
  }

  lemma IndexUnchanged(index: seq<string>)
    requires SomeWords(index)
    ensures ListOr(WordsOf(index), DEFAULT_INDEX) == index <==> LastOpen(index)
  {
    WordsUnchanged(index);
    assert LastOpen(DEFAULT_INDEX);
    hide WordsOf;
  }

  lemma LoggingUnchanged(logging: Option<Logging>)
    requires SoundLogging(logging)
    ensures NormalLogging(logging) == logging <==>
      MaybeOpen(logging.value.accessLog) && logging.value.errorLog == DEFAULT_LOGGING.errorLog
  {
    hide Word, FirstWord;
    FirstWordUnchanged(logging.value.accessLog.value);
    assert EndsOpen(DEFAULT_LOGGING.accessLog.value);
  }

  lemma SslUnchanged(v: Ssl)
    requires SoundSsl(v) && v.certificate != "" && v.privateKey != ""
    ensures NormalSsl(Some(v)) == Some(v) <==>
      EndsOpen(v.certificate) && EndsOpen(v.privateKey) && LastOpen(v.protocols)
  {
    hide Word, Words, FirstWord, WordsOf;
    FirstWordUnchanged(v.certificate);
    FirstWordUnchanged(v.privateKey);
    WordsUnchanged(v.protocols);
    assert LastOpen(DEFAULT_PROTOCOLS);
  }

  lemma LocationsUnchanged(ls: seq<Location>)
    requires SoundLocations(ls) && forall i :: 0 <= i < |ls| ==> ls[i].path != ""
    ensures NormalLocations(ls) == ls <==> forall i :: 0 <= i < |ls| ==> OpenLocation(ls[i])
  {
    forall i | 0 <= i < |ls| ensures NormalLocation(ls[i]) == ls[i] <==> OpenLocation(ls[i]) {
      LocationUnchanged(ls[i]);
    }
    hide NormalLocation, OpenLocation, SoundLocation;
    if NormalLocations(ls) == ls {
      assert forall i :: 0 <= i < |ls| ==> NormalLocations(ls)[i] == NormalLocation(ls[i]);
    }
  }

  lemma NormalUnchanged(c: Config)
    requires Sound(c) && Named(c)
    ensures Normal(c) == c <==> UnprintedAreDefault(c) && OpenEnds(c)
  {
    hide NormalServer, NormalLogging, NormalSsl, NormalLocations, SoundServer, SoundSsl, SoundLocations;
    hide AllOpen, EndsOpen, LastOpen, MaybeOpen, OpenLocation;
    ServerUnchanged(c.server);
    LoggingUnchanged(c.logging);
    if c.ssl.Some? { SslUnchanged(c.ssl.value); } else { NoSsl(); }
    LocationsUnchanged(c.locations);
  }

  lemma NoSsl()
    ensures NormalSsl(None) == None
  {
  }

  lemma WordIsLine(w: string)
    requires Word(w)
    ensures OneLine(w)
  {
    assert IsSpace('\n');
  }

  lemma WordsAreLines(ws: seq<string>)
    requires Words(ws)
    ensures OneLines(ws)
  {
    forall i | 0 <= i < |ws| ensures OneLine(ws[i]) {
      WordIsLine(ws[i]);
    }
  }

  lemma SpacedIsLine(v: string)
    requires Spaced(v)
    ensures OneLine(v)
  {
    WordsAreLines(Split(v, ' '));
    JoinOneLine(Split(v, ' '));
    JoinSplit(v, ' ');
  }

  lemma SoundLocationIsPrintable(l: Location)
    requires SoundLocation(l)
    ensures PrintableLocation(l)
  {
    if l.path != "" { WordIsLine(l.path); }
    if l.root.Some? { WordIsLine(l.root.value); }
    if l.index.Some? { WordsAreLines(l.index.value); }
    if l.proxyPass.Some? { WordIsLine(l.proxyPass.value); }
    if l.returnUrl.Some? { WordIsLine(l.returnUrl.value); }
    if l.tryFiles.Some? { WordsAreLines(l.tryFiles.value); }
    if l.headers.Some? {
      forall k | k in l.headers.value ensures OneLine(l.headers.value[k]) {
        SpacedIsLine(l.headers.value[k]);
      }
    }
    hide Word, Words, OneLine, OneLines, Spaced;
  }

  lemma SoundIsPrintable(c: Config)
    requires Sound(c)
    ensures Printable(c)
  {
    hide Word, Words, OneLine, OneLines, Distinct, SoundLocation, PrintableLocation;
    WordsAreLines(c.server.listen);
    if c.server.serverName.Some? { WordIsLine(c.server.serverName.value); }
    WordIsLine(c.server.root);
    WordsAreLines(c.server.index);
    WordIsLine(c.logging.value.accessLog.value);
    if c.logging.value.errorLog.Some? { WordIsLine(c.logging.value.errorLog.value); }
    if c.ssl.Some? { SoundSslIsPrintable(c.ssl.value); }
    forall i | 0 <= i < |c.locations| ensures PrintableLocation(c.locations[i]) {
      SoundLocationIsPrintable(c.locations[i]);
    }
  }

  lemma SoundSslIsPrintable(v: Ssl)
    requires SoundSsl(v)
    ensures PrintableSsl(v)
  {
    hide Word, Words;
    if v.certificate != "" { WordIsLine(v.certificate); }
    if v.privateKey != "" { WordIsLine(v.privateKey); }
    WordsAreLines(v.protocols);
  }

  lemma SoundIsValid(c: Config)
    requires Sound(c) && Named(c)
    ensures Checked(c) == Good(c)
  {
    hide Words, SoundLocation, SoundSsl, SoundLogging;
    forall l | l in c.locations ensures l.path != "" {
      var i :| 0 <= i < |c.locations| && l == c.locations[i];
    }
  }

  /** What has been read from some text, whatever the text, is printed and read again unchanged exactly when nothing
      that is not printed was set and no printed line has a semicolon too many. */
  lemma ReadThenPrint(content: string, c: Config, orders: seq<seq<string>>, cpus: nat)
    requires cpus < USIZE_LIMIT && Parse(content, cpus) == Good(c) && OrdersOf(c.locations, orders)
    ensures Parse(Print(c, orders), cpus) == Good(c) <==> UnprintedAreDefault(c) && OpenEnds(c)
  {
    hide Parse, Print, OrdersOf, Sound, Named, Normal, Checked, Printable, UnprintedAreDefault, OpenEnds;
    ParsedIsSound(content, cpus);
    SoundRound(c, orders, cpus);
  }

  lemma SoundRound(c: Config, orders: seq<seq<string>>, cpus: nat)
    requires Sound(c) && Named(c) && OrdersOf(c.locations, orders)
    ensures Parse(Print(c, orders), cpus) == Good(c) <==> UnprintedAreDefault(c) && OpenEnds(c)
  {
    hide Parse, Print, OrdersOf, Sound, Named, Normal, Validate, Printable, UnprintedAreDefault, OpenEnds;
    SoundIsPrintable(c);
    SoundIsValid(c);
    PrintThenParse(c, orders, cpus);
    NormalUnchanged(c);
  }

  /** For every configuration whatsoever: printing and reading gives it back unchanged exactly when it survives. */
  lemma UnchangedExactlyWhen(c: Config, orders: seq<seq<string>>, cpus: nat)
    requires cpus < USIZE_LIMIT && OrdersOf(c.locations, orders)
    ensures Parse(Print(c, orders), cpus) == Good(c) <==> Survives(c)
  {
    hide Parse, Print, OrdersOf, Sound, Named, UnprintedAreDefault, OpenEnds;
    if Parse(Print(c, orders), cpus) == Good(c) { ParsedIsSound(Print(c, orders), cpus); }
    if Sound(c) && Named(c) { SoundRound(c, orders, cpus); }
  }

  /** A second round changes nothing exactly when the first one has left no semicolon at the end of a printed line;
      and then the normal form of the result is the result. */
  lemma SecondRound(c: Config, orders: seq<seq<string>>, d: Config, again: seq<seq<string>>, cpus: nat)
    requires Printable(c) && OrdersOf(c.locations, orders) && OrdersOf(d.locations, again) && cpus < USIZE_LIMIT
    requires Parse(Print(c, orders), cpus) == Good(d)
    ensures d == Normal(c) && (Normal(d) == d <==> OpenEnds(d))
    ensures Parse(Print(d, again), cpus) == Good(d) <==> OpenEnds(d)
  {
    hide Parse, Print, OrdersOf, Sound, Named, Validate, Printable, OpenEnds;
    PrintThenParse(c, orders, cpus);
    ParsedIsSound(Print(c, orders), cpus);
    assert UnprintedAreDefault(d);
    hide Normal, UnprintedAreDefault;
    NormalUnchanged(d);
    ReadThenPrint(Print(c, orders), d, again, cpus);
  }

  /** The root `a; b` is read as `a;` and that as `a`. */
  lemma SecondRoundCanDiffer(cpus: nat)
    requires cpus < USIZE_LIMIT
    ensures var c := DEFAULT.(server := DEFAULT_SERVER.(root := "a; b"));
            var d := Normal(c);
            Parse(Print(c, []), cpus) == Good(d) && d.server.root == "a;" && Parse(Print(d, []), cpus) != Good(d)
  {
    hide Parse, Print, Validate, Normal, Printable, OpenEnds;
    var c := DEFAULT.(server := DEFAULT_SERVER.(root := "a; b"));
    var d := Normal(c);
    RootIsCut(c);
    DefaultIsPrintable("a; b");
    PrintThenParse(c, [], cpus);
    SecondRound(c, [], d, [], cpus);
  }

  lemma RootIsCut(c: Config)
    requires c == DEFAULT.(server := DEFAULT_SERVER.(root := "a; b"))
    ensures Normal(c).server.root == "a;" && Checked(Normal(c)) == Good(Normal(c)) && Normal(c).locations == []
    ensures !OpenEnds(Normal(c))
  {
    RootOfTwoWords();
    NormalIsValid(c);
    hide FirstWord, Firsts, FirstWords, WordsOf, Fields, NormalLogging, Validate, MaybeOpen, AllOpen, LastOpen;
    assert !EndsOpen("a;");
    hide EndsOpen;
  }

  lemma RootOfTwoWords()
    ensures FirstWord("a; b") == Some("a;")
  {
    OneText("a; b");
    OpenStays("a; b");
    assert "a; b" == "a;" + (" " + "b");
    FieldsAppend("a;", "b");
    WordField("a;");
    hide Fields, TrimSemicolons, WordsOf;
  }

  lemma DefaultIsPrintable(root: string)
    requires OneLine(root)
    ensures Printable(DEFAULT.(server := DEFAULT_SERVER.(root := root)))
  {
    StartIsSound();
    SoundIsPrintable(DEFAULT);
  }

  /** A server on port 8080 only comes back listening on port 80 as well. */
  lemma PortIsAdded(cpus: nat)
    requires cpus < USIZE_LIMIT
    ensures var c := DEFAULT.(server := DEFAULT_SERVER.(listen := ["8080"])); Parse(Print(c, []), cpus) != Good(c)
  {
    hide Parse, Print;
    UnchangedExactlyWhen(DEFAULT.(server := DEFAULT_SERVER.(listen := ["8080"])), [], cpus);
    assert ["8080"][0] != "80";
  }
}
