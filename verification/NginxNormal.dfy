/** Printing a configuration and reading it back: exactly what survives. */
module NginxNormal {
  import opened Options
  import opened Text
  import opened NginxConfig
  import opened NginxText

  // ---------------------------------------------------------------- what can be printed line by line

  predicate MaybeLine(v: Option<string>) {
    v.Some? ==> OneLine(v.value)
  }

  predicate MaybeLines(vs: Option<seq<string>>) {
    vs.Some? ==> OneLines(vs.value)
  }

  /** No line feeds, header names that are words, and numbers within their types. */
  predicate PrintableLocation(l: Location) {
    && OneLine(l.path) && MaybeLine(l.root) && MaybeLines(l.index) && MaybeLine(l.proxyPass)
    && (l.returnCode.Some? ==> l.returnCode.value < U16_LIMIT) && MaybeLine(l.returnUrl) && MaybeLines(l.tryFiles)
    && (l.headers.Some? ==> PrintableHeaders(l.headers.value))
  }

  predicate PrintableHeaders(headers: map<string, string>) {
    forall k :: k in headers ==> Word(k) && OneLine(headers[k])
  }

  predicate PrintableLocations(ls: seq<Location>) {
    forall i :: 0 <= i < |ls| ==> PrintableLocation(ls[i])
  }

  predicate PrintableSsl(v: Ssl) {
    OneLine(v.certificate) && OneLine(v.privateKey) && OneLines(v.protocols) && MaybeLine(v.ciphers)
  }

  predicate PrintableHead(c: Config) {
    && OneLines(c.server.listen) && MaybeLine(c.server.serverName) && OneLine(c.server.root) && OneLines(c.server.index)
    && (c.server.workerProcesses.Some? ==> c.server.workerProcesses.value < USIZE_LIMIT)
    && (c.logging.Some? ==> MaybeLine(c.logging.value.accessLog) && MaybeLine(c.logging.value.errorLog))
    && (c.ssl.Some? ==> PrintableSsl(c.ssl.value))
  }

  predicate Printable(c: Config) {
    PrintableHead(c) && PrintableLocations(c.locations)
  }

  // ---------------------------------------------------------------- what is read back

  /** The first occurrences, in order. */
  function Firsts(ws: seq<string>): seq<string> {
    if ws == [] then []
    else
      var n := |ws| - 1;
      Firsts(ws[..n]) + (if ws[n] in ws[..n] then [] else [ws[n]])
  }

  function OrElse<T>(value: Option<T>, otherwise: Option<T>): Option<T> {
    if value.Some? then value else otherwise
  }

  function GetOr<T>(value: Option<T>, otherwise: T): T {
    if value.Some? then value.value else otherwise
  }

  function ListOr(ws: seq<string>, otherwise: seq<string>): seq<string> {
    if ws == [] then otherwise else ws
  }

  /** Of a value only the first word is read. */
  function FirstWord(v: string): Option<string> {
    var ws := WordsOf([v]);
    if ws == [] then None else Some(ws[0])
  }

  function MaybeFirst(v: Option<string>): Option<string> {
    if v.None? then None else FirstWord(v.value)
  }

  function MaybeWords(vs: Option<seq<string>>): Option<seq<string>> {
    if vs.None? || WordsOf(vs.value) == [] then None else Some(WordsOf(vs.value))
  }

  /** The first words of the values that have one. */
  function FirstWords(vs: seq<string>): seq<string> {
    if vs == [] then []
    else (if FirstWord(vs[0]).None? then [] else [FirstWord(vs[0]).value]) + FirstWords(vs[1..])
  }

  /** The words of a header value with one space between neighbours. */
  function Squeeze(v: string): string {
    Join(WordsOf([v]), ' ')
  }

  function NormalHeaders(headers: Option<map<string, string>>): Option<map<string, string>> {
    if headers.None? then None
    else
      var kept := map k | k in headers.value && Squeeze(headers.value[k]) != "" :: Squeeze(headers.value[k]);
      if kept == map[] then None else Some(kept)
  }

  /** A path without a word is read as the brace behind it. */
  function NormalPath(path: string): string {
    (Fields(path) + ["{"])[0]
  }

  function NormalLocation(l: Location): Location {
    Location(NormalPath(l.path), MaybeFirst(l.root), MaybeWords(l.index), MaybeFirst(l.proxyPass), l.returnCode,
             if l.returnCode.Some? then MaybeFirst(l.returnUrl) else None, MaybeWords(l.tryFiles), NormalHeaders(l.headers))
  }

  function NormalLocations(ls: seq<Location>): (r: seq<Location>)
    ensures |r| == |ls| && forall i :: 0 <= i < |ls| ==> r[i] == NormalLocation(ls[i])
  {
    if ls == [] then [] else [NormalLocation(ls[0])] + NormalLocations(ls[1..])
  }

  function NormalServer(s: Server): Server {
    DEFAULT_SERVER.(
      listen := Firsts(["80"] + FirstWords(s.listen)), serverName := MaybeFirst(s.serverName),
      root := GetOr(FirstWord(s.root), DEFAULT_SERVER.root), index := ListOr(WordsOf(s.index), DEFAULT_INDEX),
      workerProcesses := OrElse(s.workerProcesses, DEFAULT_SERVER.workerProcesses))
  }

  function NormalLogging(logging: Option<Logging>): Option<Logging> {
    Some(if logging.None? then DEFAULT_LOGGING
         else DEFAULT_LOGGING.(accessLog := OrElse(MaybeFirst(logging.value.accessLog), DEFAULT_LOGGING.accessLog)))
  }

  function NormalSsl(ssl: Option<Ssl>): Option<Ssl> {
    if ssl.None? then None
    else
      var certificate, key := FirstWord(ssl.value.certificate), FirstWord(ssl.value.privateKey);
      var protocols := WordsOf(ssl.value.protocols);
      if certificate.None? && key.None? && protocols == [] then None
      else Some(Ssl(GetOr(certificate, ""), GetOr(key, ""), ListOr(protocols, DEFAULT_PROTOCOLS), None))
  }

  function Normal(c: Config): Config {
    Config(NormalServer(c.server), NormalLogging(c.logging), NormalSsl(c.ssl), None, None, NormalLocations(c.locations))
  }

  // ---------------------------------------------------------------- single rows

  function Lift(s: State, c: Outcome<Config>): Outcome<State> {
    match c case Bad(why) => Bad(why) case Good(config) => Good(s.(config := config))
  }

  function LiftLocation(s: State, l: Outcome<Location>): Outcome<State> {
    match l case Bad(why) => Bad(why) case Good(location) => Good(s.(location := location))
  }

  lemma OneRow(s: State, row: Row, cpus: nat)
    ensures ReadRows(s, [row], cpus) == ReadParts(s, Parts(row), row.Opening?, cpus)
  {
    hide ReadParts, Parts;
    assert [row][1..] == [];
    assert forall next :: ReadRows(next, [], cpus) == Good(next);
  }

  lemma ServerRow(s: State, name: string, args: seq<string>, cpus: nat)
    requires s.context.InServer? && name !in STRUCTURAL
    ensures ReadRows(s, [Setting(I8, name, args)], cpus) == Lift(s, ReadServer(s.config, [name] + WordsOf(args)))
    ensures ([name] + WordsOf(args))[1..] == WordsOf(args)
  {
    OneRow(s, Setting(I8, name, args), cpus);
    assert ([name] + WordsOf(args))[0] == name;
    hide ReadServer, WordsOf;
  }

  lemma LocationRow(s: State, name: string, args: seq<string>, cpus: nat)
    requires s.context.InLocation? && name !in STRUCTURAL
    ensures ReadRows(s, [Setting(I12, name, args)], cpus)
         == LiftLocation(s, ReadLocation(s.location, [name] + WordsOf(args)))
    ensures ([name] + WordsOf(args))[1..] == WordsOf(args)
  {
    OneRow(s, Setting(I12, name, args), cpus);
    assert ([name] + WordsOf(args))[0] == name;
    hide ReadLocation, WordsOf;
  }

  /** Rows after rows. */
  lemma Then(s: State, a: seq<Row>, m: State, b: seq<Row>, cpus: nat)
    requires ReadRows(s, a, cpus) == Good(m)
    ensures ReadRows(s, a + b, cpus) == ReadRows(m, b, cpus)
  {
    ReadRowsAppend(s, a, b, cpus);
  }

  lemma NoRows(s: State, cpus: nat)
    ensures ReadRows(s, [], cpus) == Good(s)
  {
  }

  lemma NumberBack(n: nat, limit: nat)
    requires n < limit
    ensures Number(Digits(n), limit) == Some(n) && Digits(n) != "auto"
  {
    ReadDigitsExact(n);
    assert IsDigit(Digits(n)[0]);
  }

  /** A single word that ends in no semicolon is read as it is. */
  lemma CleanBack(w: string)
    requires Word(w) && EndsOpen(w)
    ensures WordsOf([w]) == [w]
  {
    OneText(w);
    OpenStays(w);
    WordField(w);
  }

  lemma DigitsBack(n: nat)
    ensures Word(Digits(n)) && EndsOpen(Digits(n)) && WordsOf([Digits(n)]) == [Digits(n)]
  {
    forall i | 0 <= i < |Digits(n)| ensures !IsSpace(Digits(n)[i]) {
      assert IsDigit(Digits(n)[i]);
    }
    assert IsDigit(Digits(n)[|Digits(n)| - 1]);
    hide Digits, WordsOf;
    CleanBack(Digits(n));
  }

  // ---------------------------------------------------------------- the sections of a printed configuration

  lemma WorkersRow(n: nat, cpus: nat)
    requires n < USIZE_LIMIT
    ensures ReadRows(START, [Setting("", "worker_processes", [Digits(n)])], cpus)
         == Good(START.(config := DEFAULT.(server := DEFAULT_SERVER.(workerProcesses := Some(n)))))
  {
    NumberBack(n, USIZE_LIMIT);
    OneRow(START, Setting("", "worker_processes", [Digits(n)]), cpus);
    DigitsBack(n);
    assert ["worker_processes"] + [Digits(n)] == ["worker_processes", Digits(n)];
    hide Number, Digits, WordsOf;
  }

  lemma OpenRow(s: State, indent: string, name: string, cpus: nat)
    requires s.context.Global? && name in ["events", "http", "server"]
    ensures ReadRows(s, [Opening(indent, [name])], cpus)
         == Good(if name == "server" then s.(context := InServer) else s)
  {
    hide ReadGlobal, AllFields, ReadRows;
    OneRow(s, Opening(indent, [name]), cpus);
    WordsBack([name]);
    assert Parts(Opening(indent, [name])) == [name, "{"];
  }

  lemma ConnectionsRow(s: State, n: nat, cpus: nat)
    requires s.context.Global?
    ensures ReadRows(s, [Setting(I4, "worker_connections", [Digits(n)])], cpus) == Good(s)
  {
    hide Digits, WordsOf, ReadRows;
    OneRow(s, Setting(I4, "worker_connections", [Digits(n)]), cpus);
    DigitsBack(n);
    assert ["worker_connections"] + [Digits(n)] == ["worker_connections", Digits(n)];
  }

  lemma EventsEnd(s: State, cpus: nat)
    requires s.context.Global?
    ensures ReadRows(s, [Closing("")], cpus) == Good(s) && ReadRows(s, [Blank], cpus) == Good(s)
  {
    hide ReadRows, ReadGlobal;
    OneRow(s, Closing(""), cpus);
    OneRow(s, Blank, cpus);
  }

  lemma EventsRows(s: State, n: nat, cpus: nat)
    requires s.context.Global?
    ensures var rows := [Opening("", ["events"]), Setting(I4, "worker_connections", [Digits(n)]), Closing(""), Blank];
            ReadRows(s, rows, cpus) == Good(s)
  {
    hide ReadRows, Digits;
    var a, b, c, d := Opening("", ["events"]), Setting(I4, "worker_connections", [Digits(n)]), Closing(""), Blank;
    OpenRow(s, "", "events", cpus);
    ConnectionsRow(s, n, cpus);
    EventsEnd(s, cpus);
    Then(s, [a], s, [b], cpus);
    Then(s, [a] + [b], s, [c], cpus);
    Then(s, [a] + [b] + [c], s, [d], cpus);
    assert [a, b, c, d] == [a] + [b] + [c] + [d];
  }

  lemma HttpRows(s: State, cpus: nat)
    requires s.context.Global?
    ensures ReadRows(s, [Opening("", ["http"]), Opening(I4, ["server"])], cpus) == Good(s.(context := InServer))
  {
    hide ReadRows;
    var a, b := Opening("", ["http"]), Opening(I4, ["server"]);
    OpenRow(s, "", "http", cpus);
    OpenRow(s, I4, "server", cpus);
    Then(s, [a], s, [b], cpus);
    assert [a, b] == [a] + [b];
  }

  lemma GlobalBack(server: Server, cpus: nat)
    requires server.workerProcesses.Some? ==> server.workerProcesses.value < USIZE_LIMIT
    ensures ReadRows(START, GlobalRows(server), cpus)
         == Good(State(DEFAULT.(server := DEFAULT_SERVER.(
                                  workerProcesses := OrElse(server.workerProcesses, DEFAULT_SERVER.workerProcesses))),
                       InServer, NO_LOCATION))
  {
    var workers := OrElse(server.workerProcesses, DEFAULT_SERVER.workerProcesses);
    var m := START.(config := DEFAULT.(server := DEFAULT_SERVER.(workerProcesses := workers)));
    var a := if server.workerProcesses.None? then []
      else [Setting("", "worker_processes", [Digits(server.workerProcesses.value)])];
    var b := if server.workerConnections.None? then []
      else [Opening("", ["events"]), Setting(I4, "worker_connections", [Digits(server.workerConnections.value)]),
            Closing(""), Blank];
    var c := [Opening("", ["http"]), Opening(I4, ["server"])];
    NoRows(m, cpus);
    if server.workerProcesses.Some? { WorkersRow(server.workerProcesses.value, cpus); }
    if server.workerConnections.Some? { EventsRows(m, server.workerConnections.value, cpus); }
    HttpRows(m, cpus);
    assert GlobalRows(server) == a + b + c;
    hide ReadRows, Digits;
    Then(START, a, m, b, cpus);
    Then(START, a + b, m, c, cpus);
  }

  function Added(have: seq<string>, w: string): seq<string> {
    if w in have then have else have + [w]
  }

  /** Adding listen addresses one by one skips those already there. */
  function AddListen(have: seq<string>, more: seq<string>): seq<string>
    decreases |more|
  {
    if more == [] then have else AddListen(Added(have, more[0]), more[1..])
  }

  lemma {:induction false} AddListenIsFirsts(before: seq<string>, more: seq<string>)
    ensures AddListen(Firsts(before), more) == Firsts(before + more)
    decreases |more|
  {
    if more == [] {
      assert before + more == before;
    } else {
      var next := before + [more[0]];
      SameMembers(before);
      assert Firsts(next) == (if more[0] in Firsts(before) then Firsts(before) else Firsts(before) + [more[0]]) by {
        assert next[..|before|] == before;
      }
      AddListenIsFirsts(next, more[1..]);
      assert next + more[1..] == before + more;
      hide Firsts;
    }
  }

  lemma {:induction false} SameMembers(ws: seq<string>)
    ensures forall w :: w in Firsts(ws) <==> w in ws
  {
    if ws != [] {
      SameMembers(ws[..|ws| - 1]);
      assert ws == ws[..|ws| - 1] + [ws[|ws| - 1]];
    }
  }

  function WithListen(s: State, listen: seq<string>): State {
    s.(config := s.config.(server := s.config.server.(listen := listen)))
  }

  lemma ListenRow(s: State, v: string, cpus: nat)
    requires s.context.InServer?
    ensures ReadRows(s, [Setting(I8, "listen", [v])], cpus)
         == Good(WithListen(s, if FirstWord(v).None? then s.config.server.listen
                               else Added(s.config.server.listen, FirstWord(v).value)))
  {
    hide ReadRows, WordsOf;
    ServerRow(s, "listen", [v], cpus);
  }

  lemma AddStep(have: seq<string>, listen: seq<string>)
    requires listen != []
    ensures var first := FirstWord(listen[0]);
            AddListen(have, FirstWords(listen))
            == AddListen(if first.None? then have else Added(have, first.value), FirstWords(listen[1..]))
  {
    hide FirstWord, Added;
    var first, more := FirstWord(listen[0]), FirstWords(listen[1..]);
    if first.Some? {
      assert FirstWords(listen) == [first.value] + more;
      assert ([first.value] + more)[1..] == more;
    } else {
      assert FirstWords(listen) == [] + more == more;
    }
  }

  lemma {:induction false} ListenBack(s: State, listen: seq<string>, cpus: nat)
    requires s.context.InServer?
    ensures ReadRows(s, ListenRows(listen), cpus)
         == Good(WithListen(s, AddListen(s.config.server.listen, FirstWords(listen))))
    decreases |listen|
  {
    if listen == [] {
      NoRows(s, cpus);
    } else {
      hide ReadRows, FirstWord, FirstWords, Added, AddListen;
      var have, first := s.config.server.listen, FirstWord(listen[0]);
      var next := WithListen(s, if first.None? then have else Added(have, first.value));
      ListenRow(s, listen[0], cpus);
      Then(s, [Setting(I8, "listen", [listen[0]])], next, ListenRows(listen[1..]), cpus);
      ListenBack(next, listen[1..], cpus);
      AddStep(have, listen);
    }
  }

  lemma NameBack(s: State, name: Option<string>, cpus: nat)
    requires s.context.InServer?
    ensures ReadRows(s, Maybe(I8, "server_name", name), cpus)
         == Good(s.(config := s.config.(server := s.config.server.(
                   serverName := OrElse(MaybeFirst(name), s.config.server.serverName)))))
  {
    NoRows(s, cpus);
    hide ReadRows, WordsOf;
    if name.Some? { ServerRow(s, "server_name", [name.value], cpus); }
  }

  lemma RootRow(s: State, root: string, cpus: nat)
    requires s.context.InServer?
    ensures ReadRows(s, [Setting(I8, "root", [root])], cpus)
         == Good(s.(config := s.config.(server := s.config.server.(
                   root := GetOr(FirstWord(root), s.config.server.root)))))
  {
    hide ReadRows, WordsOf;
    ServerRow(s, "root", [root], cpus);
  }

  lemma IndexRow(s: State, index: seq<string>, cpus: nat)
    requires s.context.InServer?
    ensures ReadRows(s, [Setting(I8, "index", index)], cpus)
         == Good(s.(config := s.config.(server := s.config.server.(
                   index := ListOr(WordsOf(index), s.config.server.index)))))
  {
    hide ReadRows, WordsOf;
    ServerRow(s, "index", index, cpus);
  }

  lemma SiteBack(s: State, server: Server, cpus: nat)
    requires s.context.InServer?
    ensures ReadRows(s, SiteRows(server), cpus)
         == Good(s.(config := s.config.(server := s.config.server.(
                   serverName := OrElse(MaybeFirst(server.serverName), s.config.server.serverName),
                   root := GetOr(FirstWord(server.root), s.config.server.root),
                   index := ListOr(WordsOf(server.index), s.config.server.index)))))
  {
    hide ReadRows, Maybe, WordsOf, FirstWord, MaybeFirst, OrElse, GetOr, ListOr;
    var named := s.(config := s.config.(server := s.config.server.(
                      serverName := OrElse(MaybeFirst(server.serverName), s.config.server.serverName))));
    var rooted := named.(config := named.config.(server := named.config.server.(
                           root := GetOr(FirstWord(server.root), s.config.server.root))));
    var a, b, c := Maybe(I8, "server_name", server.serverName), [Setting(I8, "root", [server.root])],
      [Setting(I8, "index", server.index)];
    NameBack(s, server.serverName, cpus);
    RootRow(named, server.root, cpus);
    IndexRow(rooted, server.index, cpus);
    assert SiteRows(server) == a + b + c;
    Then(s, a, named, b, cpus);
    Then(s, a + b, rooted, c, cpus);
  }

  /** The SSL section after a certificate, a key and protocols have been read, each unless its line was empty. */
  function WithCertificate(ssl: Option<Ssl>, w: Option<string>): Option<Ssl> {
    if w.None? then ssl else Some(GetOr(ssl, NO_SSL).(certificate := w.value))
  }

  function WithKey(ssl: Option<Ssl>, w: Option<string>): Option<Ssl> {
    if w.None? then ssl else Some(GetOr(ssl, NO_SSL).(privateKey := w.value))
  }

  function WithProtocols(ssl: Option<Ssl>, ws: seq<string>): Option<Ssl> {
    if ws == [] then ssl else Some(GetOr(ssl, NO_SSL).(protocols := ws))
  }

  const NO_SSL := Ssl("", "", DEFAULT_PROTOCOLS, None)

  function WithSsl(s: State, ssl: Option<Ssl>): State {
    s.(config := s.config.(ssl := ssl))
  }

  lemma CertificateRow(s: State, v: string, cpus: nat)
    requires s.context.InServer?
    ensures ReadRows(s, [Setting(I8, "ssl_certificate", [v])], cpus)
         == Good(WithSsl(s, WithCertificate(s.config.ssl, FirstWord(v))))
  {
    hide ReadRows, WordsOf;
    ServerRow(s, "ssl_certificate", [v], cpus);
  }

  lemma KeyRow(s: State, v: string, cpus: nat)
    requires s.context.InServer?
    ensures ReadRows(s, [Setting(I8, "ssl_certificate_key", [v])], cpus)
         == Good(WithSsl(s, WithKey(s.config.ssl, FirstWord(v))))
  {
    hide ReadRows, WordsOf;
    ServerRow(s, "ssl_certificate_key", [v], cpus);
  }

  lemma KeysBack(s: State, v: Ssl, cpus: nat)
    requires s.context.InServer?
    ensures var rows := [Setting(I8, "ssl_certificate", [v.certificate]),
                         Setting(I8, "ssl_certificate_key", [v.privateKey])];
            ReadRows(s, rows, cpus)
            == Good(WithSsl(s, WithKey(WithCertificate(s.config.ssl, FirstWord(v.certificate)), FirstWord(v.privateKey))))
  {
    hide ReadRows, FirstWord, WithCertificate, WithKey;
    var m := WithSsl(s, WithCertificate(s.config.ssl, FirstWord(v.certificate)));
    var a, b := [Setting(I8, "ssl_certificate", [v.certificate])], [Setting(I8, "ssl_certificate_key", [v.privateKey])];
    CertificateRow(s, v.certificate, cpus);
    KeyRow(m, v.privateKey, cpus);
    Then(s, a, m, b, cpus);
    assert a + b == [Setting(I8, "ssl_certificate", [v.certificate]), Setting(I8, "ssl_certificate_key", [v.privateKey])];
  }

  lemma ProtocolsRow(s: State, protocols: seq<string>, cpus: nat)
    requires s.context.InServer?
    ensures ReadRows(s, [Setting(I8, "ssl_protocols", protocols)], cpus)
         == Good(WithSsl(s, WithProtocols(s.config.ssl, WordsOf(protocols))))
  {
    hide ReadRows, WordsOf;
    ServerRow(s, "ssl_protocols", protocols, cpus);
  }

  lemma ProtocolsBack(s: State, v: Ssl, cpus: nat)
    requires s.context.InServer?
    ensures ReadRows(s, [Setting(I8, "ssl_protocols", v.protocols)] + Maybe(I8, "ssl_ciphers", v.ciphers), cpus)
         == Good(WithSsl(s, WithProtocols(s.config.ssl, WordsOf(v.protocols))))
  {
    hide ReadRows, Maybe, WordsOf, WithProtocols;
    var m := WithSsl(s, WithProtocols(s.config.ssl, WordsOf(v.protocols)));
    ProtocolsRow(s, v.protocols, cpus);
    CiphersSkipped(m, v.ciphers, cpus);
    Then(s, [Setting(I8, "ssl_protocols", v.protocols)], m, Maybe(I8, "ssl_ciphers", v.ciphers), cpus);
  }

  lemma CiphersSkipped(s: State, ciphers: Option<string>, cpus: nat)
    requires s.context.InServer?
    ensures ReadRows(s, Maybe(I8, "ssl_ciphers", ciphers), cpus) == Good(s)
  {
    NoRows(s, cpus);
    if ciphers.Some? { ServerRow(s, "ssl_ciphers", [ciphers.value], cpus); }
    hide ReadRows, WordsOf;
  }

  lemma SslBack(s: State, ssl: Option<Ssl>, cpus: nat)
    requires s.context.InServer? && s.config.ssl.None?
    ensures ReadRows(s, SslRows(ssl), cpus) == Good(WithSsl(s, NormalSsl(ssl)))
  {
    NoRows(s, cpus);
    hide ReadRows, WordsOf, FirstWord;
    if ssl.Some? {
      var v := ssl.value;
      var m := WithSsl(s, WithKey(WithCertificate(s.config.ssl, FirstWord(v.certificate)), FirstWord(v.privateKey)));
      var a := [Setting(I8, "ssl_certificate", [v.certificate]), Setting(I8, "ssl_certificate_key", [v.privateKey])];
      var b := [Setting(I8, "ssl_protocols", v.protocols)] + Maybe(I8, "ssl_ciphers", v.ciphers);
      KeysBack(s, v, cpus);
      ProtocolsBack(m, v, cpus);
      Then(s, a, m, b, cpus);
      assert SslRows(ssl) == a + b;
    }
  }

  lemma AccessLogBack(s: State, log: Option<string>, cpus: nat)
    requires s.context.InServer? && s.config.logging == Some(DEFAULT_LOGGING)
    ensures ReadRows(s, Maybe(I8, "access_log", log), cpus)
         == Good(s.(config := s.config.(logging :=
                   Some(DEFAULT_LOGGING.(accessLog := OrElse(MaybeFirst(log), DEFAULT_LOGGING.accessLog))))))
  {
    NoRows(s, cpus);
    hide ReadRows, WordsOf;
    if log.Some? { ServerRow(s, "access_log", [log.value], cpus); }
  }

  lemma ErrorLogSkipped(s: State, log: Option<string>, cpus: nat)
    requires s.context.InServer?
    ensures ReadRows(s, Maybe(I8, "error_log", log), cpus) == Good(s)
  {
    NoRows(s, cpus);
    hide ReadRows, WordsOf;
    if log.Some? { ServerRow(s, "error_log", [log.value], cpus); }
  }

  lemma LoggingBack(s: State, logging: Option<Logging>, cpus: nat)
    requires s.context.InServer? && s.config.logging == Some(DEFAULT_LOGGING)
    ensures ReadRows(s, LoggingRows(logging), cpus) == Good(s.(config := s.config.(logging := NormalLogging(logging))))
  {
    NoRows(s, cpus);
    hide ReadRows, Maybe, MaybeFirst, OrElse;
    if logging.Some? {
      var m := s.(config := s.config.(logging := NormalLogging(logging)));
      var a, b := Maybe(I8, "access_log", logging.value.accessLog), Maybe(I8, "error_log", logging.value.errorLog);
      AccessLogBack(s, logging.value.accessLog, cpus);
      ErrorLogSkipped(m, logging.value.errorLog, cpus);
      Then(s, a, m, b, cpus);
    }
  }

  // ---------------------------------------------------------------- locations

  lemma LocationRootBack(s: State, root: Option<string>, cpus: nat)
    requires s.context.InLocation? && s.location.root.None?
    ensures ReadRows(s, Maybe(I12, "root", root), cpus) == Good(s.(location := s.location.(root := MaybeFirst(root))))
  {
    NoRows(s, cpus);
    hide ReadRows, WordsOf;
    if root.Some? { LocationRow(s, "root", [root.value], cpus); }
  }

  lemma LocationIndexBack(s: State, index: Option<seq<string>>, cpus: nat)
    requires s.context.InLocation? && s.location.index.None?
    ensures ReadRows(s, MaybeList(I12, "index", index), cpus)
         == Good(s.(location := s.location.(index := MaybeWords(index))))
  {
    NoRows(s, cpus);
    hide ReadRows, WordsOf;
    if index.Some? { LocationRow(s, "index", index.value, cpus); }
  }

  lemma ProxyBack(s: State, pass: Option<string>, cpus: nat)
    requires s.context.InLocation? && s.location.proxyPass.None?
    ensures ReadRows(s, Maybe(I12, "proxy_pass", pass), cpus)
         == Good(s.(location := s.location.(proxyPass := MaybeFirst(pass))))
  {
    NoRows(s, cpus);
    hide ReadRows, WordsOf;
    if pass.Some? { LocationRow(s, "proxy_pass", [pass.value], cpus); }
  }

  lemma TryFilesBack(s: State, files: Option<seq<string>>, cpus: nat)
    requires s.context.InLocation? && s.location.tryFiles.None?
    ensures ReadRows(s, MaybeList(I12, "try_files", files), cpus)
         == Good(s.(location := s.location.(tryFiles := MaybeWords(files))))
  {
    NoRows(s, cpus);
    hide ReadRows, WordsOf;
    if files.Some? { LocationRow(s, "try_files", files.value, cpus); }
  }

  lemma FilesBack(s: State, l: Location, cpus: nat)
    requires s.context.InLocation? && s.location.root.None? && s.location.index.None? && s.location.proxyPass.None?
    ensures ReadRows(s, FileRows(l), cpus)
         == Good(s.(location := s.location.(root := MaybeFirst(l.root), index := MaybeWords(l.index),
                                            proxyPass := MaybeFirst(l.proxyPass))))
  {
    hide ReadRows, Maybe, MaybeList, MaybeFirst, MaybeWords;
    var m1 := s.(location := s.location.(root := MaybeFirst(l.root)));
    var m2 := s.(location := s.location.(root := MaybeFirst(l.root), index := MaybeWords(l.index)));
    var a, b, c := Maybe(I12, "root", l.root), MaybeList(I12, "index", l.index), Maybe(I12, "proxy_pass", l.proxyPass);
    LocationRootBack(s, l.root, cpus);
    LocationIndexBack(m1, l.index, cpus);
    ProxyBack(m2, l.proxyPass, cpus);
    Then(s, a, m1, b, cpus);
    Then(s, a + b, m2, c, cpus);
  }

  lemma ReturnBack(s: State, l: Location, cpus: nat)
    requires s.context.InLocation? && s.location.returnCode.None? && s.location.returnUrl.None?
    requires l.returnCode.Some? ==> l.returnCode.value < U16_LIMIT
    ensures ReadRows(s, ReturnRows(l), cpus)
         == Good(s.(location := s.location.(returnCode := l.returnCode,
                                            returnUrl := if l.returnCode.Some? then MaybeFirst(l.returnUrl) else None)))
  {
    NoRows(s, cpus);
    if l.returnCode.Some? {
      var code := Digits(l.returnCode.value);
      var args := [code] + (if l.returnUrl.Some? then [l.returnUrl.value] else []);
      NumberBack(l.returnCode.value, U16_LIMIT);
      DigitsBack(l.returnCode.value);
      LocationRow(s, "return", args, cpus);
      hide Digits, Number, ReadRows, WordsOf;
      if l.returnUrl.Some? {
        WordFirst(code, [l.returnUrl.value]);
      } else {
        assert args == [code];
      }
    }
  }

  /** The headers kept from the given keys. */
  function KeptHeaders(headers: map<string, string>, keys: set<string>): map<string, string>
    requires keys <= headers.Keys
  {
    map k | k in keys && Squeeze(headers[k]) != "" :: Squeeze(headers[k])
  }

  /** The header table after some additions: none at all until the first. */
  function WithHeaders(have: Option<map<string, string>>, more: map<string, string>): Option<map<string, string>> {
    if more == map[] then have else Some((if have.None? then map[] else have.value) + more)
  }

  lemma HeaderBack(s: State, name: string, value: string, cpus: nat)
    requires s.context.InLocation? && Word(name)
    ensures ReadRows(s, [Setting(I12, "add_header", [name, value])], cpus)
         == Good(s.(location := s.location.(headers := WithHeaders(s.location.headers, FirstKept(name, value)))))
  {
    var words := WordsOf([value]);
    LocationRow(s, "add_header", [name, value], cpus);
    HeaderRead(s.location, name, words);
    WordFirst(name, [value]);
    assert [name] + [value] == [name, value];
    AllFieldsAreWords(CutLast([value]));
    JoinEmpty(words);
    hide ReadRows, WordsOf, ReadLocation, WithHeaders;
  }

  lemma HeaderRead(l: Location, name: string, words: seq<string>)
    ensures ReadLocation(l, ["add_header"] + ([name] + words))
         == Good(l.(headers := if words == [] then l.headers else WithHeaders(l.headers, map[name := Join(words, ' ')])))
  {
    var parts := ["add_header"] + ([name] + words);
    assert parts[0] == "add_header" && parts[1] == name && parts[2..] == words;
    hide Join;
    if words != [] {
      var have := if l.headers.None? then map[] else l.headers.value;
      assert have[name := Join(words, ' ')] == have + map[name := Join(words, ' ')];
      assert name in map[name := Join(words, ' ')];
    }
  }

  lemma JoinEmpty(ws: seq<string>)
    requires forall i :: 0 <= i < |ws| ==> ws[i] != ""
    ensures Join(ws, ' ') == "" <==> ws == []
  {
  }

  function SetOf(order: seq<string>): set<string> {
    set k | k in order
  }

  lemma {:induction false} HeadersBack(s: State, headers: map<string, string>, order: seq<string>, cpus: nat)
    requires s.context.InLocation? && (forall k :: k in order ==> k in headers)
    requires forall i, j :: 0 <= i < j < |order| ==> order[i] != order[j]
    requires PrintableHeaders(headers)
    ensures ReadRows(s, HeaderRows(headers, order), cpus)
         == Good(s.(location := s.location.(headers :=
                   WithHeaders(s.location.headers, KeptHeaders(headers, SetOf(order))))))
    decreases |order|
  {
    NoRows(s, cpus);
    if order == [] {
      assert KeptHeaders(headers, SetOf(order)) == map[];
    } else {
      var k, more := order[0], order[1..];
      var first := FirstKept(k, headers[k]);
      var next := s.(location := s.location.(headers := WithHeaders(s.location.headers, first)));
      HeaderBack(s, k, headers[k], cpus);
      KeptStep(headers, order);
      hide ReadRows, Squeeze, KeptHeaders, WithHeaders, FirstKept;
      HeadersBack(next, headers, more, cpus);
      Then(s, [Setting(I12, "add_header", [k, headers[k]])], next, HeaderRows(headers, more), cpus);
      Merge(s.location.headers, first, KeptHeaders(headers, SetOf(more)));
    }
  }

  function FirstKept(k: string, v: string): map<string, string> {
    if Squeeze(v) == "" then map[] else map[k := Squeeze(v)]
  }

  lemma KeptStep(headers: map<string, string>, order: seq<string>)
    requires order != [] && (forall k :: k in order ==> k in headers)
    ensures KeptHeaders(headers, SetOf(order))
         == FirstKept(order[0], headers[order[0]]) + KeptHeaders(headers, SetOf(order[1..]))
  {
    hide Squeeze;
    assert SetOf(order) == {order[0]} + SetOf(order[1..]);
  }

  lemma Merge(have: Option<map<string, string>>, a: map<string, string>, b: map<string, string>)
    ensures WithHeaders(WithHeaders(have, a), b) == WithHeaders(have, a + b)
  {
    var h := if have.None? then map[] else have.value;
    assert (h + a) + b == h + (a + b);
    if a == map[] {
      assert a + b == b;
    } else {
      var k :| k in a;
      assert k in a + b;
      if b == map[] { assert a + b == a; }
    }
  }

  lemma TableBack(s: State, l: Location, order: seq<string>, cpus: nat)
    requires s.context.InLocation? && s.location.headers.None? && PrintableLocation(l) && OrderOf(l.headers, order)
    ensures ReadRows(s, TableRows(l.headers, order), cpus)
         == Good(s.(location := s.location.(headers := NormalHeaders(l.headers))))
  {
    NoRows(s, cpus);
    if l.headers.Some? {
      HeadersBack(s, l.headers.value, order, cpus);
      assert SetOf(order) == l.headers.value.Keys;
      var kept := KeptHeaders(l.headers.value, SetOf(order));
      assert map[] + kept == kept;
      hide ReadRows, Squeeze;
    }
  }
}
