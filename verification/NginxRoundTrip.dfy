/** Parse after print is exactly the normal form. */
module NginxRoundTrip {
  import opened Options
  import opened Text
  import opened NginxConfig
  import opened NginxText
  import opened NginxNormal

  // ---------------------------------------------------------------- every printed row is well formed

  lemma GoodSetting(indent: string, name: string, args: seq<string>)
    requires Indent(indent) && Plain(name) && OneLines(args)
    ensures GoodRow(Setting(indent, name, args)) && GoodRows([Setting(indent, name, args)])
  {
  }

  lemma GoodMaybe(indent: string, name: string, value: Option<string>)
    requires Indent(indent) && Plain(name) && MaybeLine(value)
    ensures GoodRows(Maybe(indent, name, value))
  {
    if value.Some? { GoodSetting(indent, name, [value.value]); }
  }

  lemma GoodMaybeList(indent: string, name: string, value: Option<seq<string>>)
    requires Indent(indent) && Plain(name) && MaybeLines(value)
    ensures GoodRows(MaybeList(indent, name, value))
  {
    if value.Some? { GoodSetting(indent, name, value.value); }
  }

  lemma SiteNames()
    ensures Plain("worker_processes") && Plain("worker_connections") && Plain("listen") && Plain("server_name")
  {
  }

  lemma KeyNames()
    ensures Plain("ssl_certificate") && Plain("ssl_certificate_key")
  {
  }

  lemma SslNames()
    ensures Plain("ssl_protocols") && Plain("ssl_ciphers")
  {
  }

  lemma FileNames()
    ensures Plain("access_log") && Plain("error_log") && Plain("root") && Plain("index")
  {
  }

  lemma LocationNames()
    ensures Plain("proxy_pass") && Plain("return") && Plain("try_files") && Plain("add_header")
  {
  }

  lemma BlockRowsAreGood()
    ensures GoodRow(Opening("", ["events"])) && GoodRow(Closing("")) && GoodRow(Blank)
    ensures GoodRow(Opening("", ["http"])) && GoodRow(Opening(I4, ["server"]))
  {
  }

  lemma DigitsAreLine(n: nat)
    ensures OneLines([Digits(n)])
  {
    assert forall i :: 0 <= i < |Digits(n)| ==> IsDigit(Digits(n)[i]);
  }

  lemma GlobalRowsAreGood(s: Server)
    ensures GoodRows(GlobalRows(s))
  {
    SiteNames();
    BlockRowsAreGood();
    hide GoodRow, Plain, Digits, OneLines;
    if s.workerProcesses.Some? {
      DigitsAreLine(s.workerProcesses.value);
      GoodSetting("", "worker_processes", [Digits(s.workerProcesses.value)]);
    }
    if s.workerConnections.Some? {
      DigitsAreLine(s.workerConnections.value);
      GoodSetting(I4, "worker_connections", [Digits(s.workerConnections.value)]);
    }
  }

  lemma {:induction false} ListenRowsAreGood(listen: seq<string>)
    requires OneLines(listen)
    ensures GoodRows(ListenRows(listen))
  {
    if listen != [] {
      SiteNames();
      hide Plain, OneLine;
      GoodSetting(I8, "listen", [listen[0]]);
      ListenRowsAreGood(listen[1..]);
    }
  }

  lemma SiteRowsAreGood(s: Server)
    requires MaybeLine(s.serverName) && OneLine(s.root) && OneLines(s.index)
    ensures GoodRows(SiteRows(s))
  {
    SiteNames();
    FileNames();
    hide Plain, OneLine, GoodRow;
    GoodMaybe(I8, "server_name", s.serverName);
    GoodSetting(I8, "root", [s.root]);
    GoodSetting(I8, "index", s.index);
  }

  lemma SslRowsAreGood(ssl: Option<Ssl>)
    requires ssl.Some? ==> PrintableSsl(ssl.value)
    ensures GoodRows(SslRows(ssl))
  {
    if ssl.Some? {
      KeyNames();
      SslNames();
      hide Plain, OneLine, GoodRow;
      GoodSetting(I8, "ssl_certificate", [ssl.value.certificate]);
      GoodSetting(I8, "ssl_certificate_key", [ssl.value.privateKey]);
      GoodSetting(I8, "ssl_protocols", ssl.value.protocols);
      GoodMaybe(I8, "ssl_ciphers", ssl.value.ciphers);
    }
  }

  lemma LoggingRowsAreGood(logging: Option<Logging>)
    requires logging.Some? ==> MaybeLine(logging.value.accessLog) && MaybeLine(logging.value.errorLog)
    ensures GoodRows(LoggingRows(logging))
  {
    if logging.Some? {
      FileNames();
      hide Plain, OneLine, GoodRow;
      GoodMaybe(I8, "access_log", logging.value.accessLog);
      GoodMaybe(I8, "error_log", logging.value.errorLog);
    }
  }

  lemma HeadRowsAreGood(c: Config)
    requires PrintableHead(c)
    ensures GoodRows(HeadRows(c))
  {
    GlobalRowsAreGood(c.server);
    ListenRowsAreGood(c.server.listen);
    SiteRowsAreGood(c.server);
    SslRowsAreGood(c.ssl);
    LoggingRowsAreGood(c.logging);
    hide GlobalRows, ListenRows, SiteRows, SslRows, LoggingRows, GoodRow;
  }

  lemma {:induction false} HeaderRowsAreGood(headers: map<string, string>, order: seq<string>)
    requires (forall k :: k in order ==> k in headers) && PrintableHeaders(headers)
    ensures GoodRows(HeaderRows(headers, order))
  {
    if order != [] {
      HeaderRowsAreGood(headers, order[1..]);
      HeaderRowIsGood(order[0], headers[order[0]]);
      hide GoodRow;
    }
  }

  lemma HeaderRowIsGood(name: string, value: string)
    requires Word(name) && OneLine(value)
    ensures GoodRow(Setting(I12, "add_header", [name, value]))
  {
    LocationNames();
    assert IsSpace('\n') && OneLine(name);
    hide Plain, OneLine;
  }

  lemma FileRowsAreGood(l: Location)
    requires MaybeLine(l.root) && MaybeLines(l.index) && MaybeLine(l.proxyPass)
    ensures GoodRows(FileRows(l))
  {
    FileNames();
    LocationNames();
    hide Plain, OneLine, GoodRow, Maybe, MaybeList;
    GoodMaybe(I12, "root", l.root);
    GoodMaybeList(I12, "index", l.index);
    GoodMaybe(I12, "proxy_pass", l.proxyPass);
  }

  lemma ReturnRowsAreGood(l: Location)
    requires MaybeLine(l.returnUrl)
    ensures GoodRows(ReturnRows(l))
  {
    if l.returnCode.Some? {
      LocationNames();
      hide Plain, OneLine, GoodRow, Digits;
      DigitsAreLine(l.returnCode.value);
      assert OneLine([Digits(l.returnCode.value)][0]);
      GoodSetting(I12, "return", [Digits(l.returnCode.value)] + (if l.returnUrl.Some? then [l.returnUrl.value] else []));
    }
  }

  lemma LocationEndsAreGood(path: string)
    requires OneLine(path)
    ensures GoodRow(Opening(I8, ["location", path])) && GoodRow(Closing(I8))
  {
  }

  lemma LocationRowsAreGood(l: Location, order: seq<string>)
    requires PrintableLocation(l) && OrderOf(l.headers, order)
    ensures GoodRows(LocationRows(l, order))
  {
    hide Plain, OneLine, GoodRow, HeaderRows, FileRows, ReturnRows, MaybeList;
    FileRowsAreGood(l);
    ReturnRowsAreGood(l);
    LocationNames();
    if l.headers.Some? { HeaderRowsAreGood(l.headers.value, order); }
    LocationEndsAreGood(l.path);
    GoodMaybeList(I12, "try_files", l.tryFiles);
  }

  lemma {:induction false} LocationsRowsAreGood(ls: seq<Location>, orders: seq<seq<string>>)
    requires PrintableLocations(ls) && OrdersOf(ls, orders)
    ensures GoodRows(LocationsRows(ls, orders))
    decreases |ls|
  {
    if ls != [] {
      LocationRowsAreGood(ls[0], orders[0]);
      LocationsRowsAreGood(ls[1..], orders[1..]);
      hide LocationRows, GoodRow;
    }
  }

  // ---------------------------------------------------------------- whole blocks

  function WithLocations(s: State, ls: seq<Location>): State {
    s.(config := s.config.(locations := s.config.locations + ls))
  }

  lemma MoreLocations(s: State, a: seq<Location>, b: seq<Location>)
    ensures WithLocations(WithLocations(s, a), b) == WithLocations(s, a + b)
    ensures WithLocations(s, a).context == s.context && WithLocations(s, a).location == s.location
    ensures WithLocations(s, []) == s
  {
    assert (s.config.locations + a) + b == s.config.locations + (a + b);
    assert s.config.locations + [] == s.config.locations;
  }

  lemma OpenLocation(s: State, path: string, cpus: nat)
    ensures ReadRows(s, [Opening(I8, ["location", path])], cpus)
         == Good(s.(context := InLocation, location := s.location.(path := NormalPath(path))))
  {
    hide Fields, ReadRows;
    OneRow(s, Opening(I8, ["location", path]), cpus);
    WordField("location");
    OneText(path);
    assert ["location", path][1..] == [path];
    assert AllFields(["location", path]) == ["location"] + Fields(path);
    assert (["location"] + Fields(path)) + ["{"] == ["location"] + (Fields(path) + ["{"]);
  }

  lemma CloseRow(s: State, indent: string, cpus: nat)
    ensures ReadRows(s, [Closing(indent)], cpus) == Good(ReadStructure(s, ["}"]))
  {
    OneRow(s, Closing(indent), cpus);
  }

  lemma NormalPathIsWord(path: string)
    ensures Word(NormalPath(path))
  {
    FieldsAreWords(path);
    hide Fields;
  }

  /** A printed location comes back as its normal form, at the end of the list. */
  lemma LocationBack(s: State, l: Location, order: seq<string>, cpus: nat)
    requires s.context.InServer? && s.location == NO_LOCATION && PrintableLocation(l) && OrderOf(l.headers, order)
    ensures ReadRows(s, LocationRows(l, order), cpus)
         == Good(WithLocations(s, [NormalLocation(l)]))
  {
    hide ReadRows, TableRows, ReturnRows, FileRows, MaybeList, OneLine, OneLines, NormalHeaders, ReadLocation, Lift;
    hide NormalPath, MaybeFirst, MaybeWords;
    var m1 := s.(context := InLocation, location := NO_LOCATION.(path := NormalPath(l.path)));
    var l2 := m1.location.(root := MaybeFirst(l.root), index := MaybeWords(l.index), proxyPass := MaybeFirst(l.proxyPass));
    var l3 := l2.(returnCode := l.returnCode, returnUrl := if l.returnCode.Some? then MaybeFirst(l.returnUrl) else None);
    var l4 := l3.(tryFiles := MaybeWords(l.tryFiles));
    var m2, m3, m4 := m1.(location := l2), m1.(location := l3), m1.(location := l4);
    var m5 := m1.(location := NormalLocation(l));
    var a := [Opening(I8, ["location", l.path])];
    var b, c, d := FileRows(l), ReturnRows(l), MaybeList(I12, "try_files", l.tryFiles);
    var e, f := TableRows(l.headers, order), [Closing(I8)];
    NormalPathIsWord(l.path);
    OpenLocation(s, l.path, cpus);
    FilesBack(m1, l, cpus);
    ReturnBack(m2, l, cpus);
    TryFilesBack(m3, l.tryFiles, cpus);
    TableBack(m4, l, order, cpus);
    CloseRow(m5, I8, cpus);
    Then(s, a, m1, b, cpus);
    Then(s, a + b, m2, c, cpus);
    Then(s, a + b + c, m3, d, cpus);
    Then(s, a + b + c + d, m4, e, cpus);
    Then(s, a + b + c + d + e, m5, f, cpus);
  }

  lemma {:induction false} LocationsBack(s: State, ls: seq<Location>, orders: seq<seq<string>>, cpus: nat)
    requires s.context.InServer? && s.location == NO_LOCATION && PrintableLocations(ls) && OrdersOf(ls, orders)
    ensures ReadRows(s, LocationsRows(ls, orders), cpus)
         == Good(WithLocations(s, NormalLocations(ls)))
    decreases |ls|
  {
    if ls == [] {
      NoRows(s, cpus);
      MoreLocations(s, [], []);
    } else {
      var next := WithLocations(s, [NormalLocation(ls[0])]);
      var row, rest := LocationRows(ls[0], orders[0]), LocationsRows(ls[1..], orders[1..]);
      assert PrintableLocation(ls[0]) && OrderOf(ls[0].headers, orders[0]);
      assert PrintableLocations(ls[1..]) && OrdersOf(ls[1..], orders[1..]);
      hide ReadRows, LocationRows, WithLocations, NormalLocation, PrintableLocation, PrintableLocations, OrderOf, OrdersOf;
      MoreLocations(s, [NormalLocation(ls[0])], NormalLocations(ls[1..]));
      LocationBack(s, ls[0], orders[0], cpus);
      LocationsBack(next, ls[1..], orders[1..], cpus);
      Then(s, row, next, rest, cpus);
    }
  }

  lemma HeadBack(c: Config, cpus: nat)
    requires PrintableHead(c)
    ensures ReadRows(START, HeadRows(c), cpus) == Good(State(Normal(c).(locations := []), InServer, NO_LOCATION))
  {
    var s, d := c.server, DEFAULT_SERVER;
    var w := d.(workerProcesses := OrElse(s.workerProcesses, d.workerProcesses));
    var l := w.(listen := Firsts(["80"] + FirstWords(s.listen)));
    var m1 := State(DEFAULT.(server := w), InServer, NO_LOCATION);
    var m2 := State(DEFAULT.(server := l), InServer, NO_LOCATION);
    var m3 := State(DEFAULT.(server := NormalServer(s)), InServer, NO_LOCATION);
    var m4 := m3.(config := m3.config.(ssl := NormalSsl(c.ssl)));
    var m5 := m4.(config := m4.config.(logging := NormalLogging(c.logging)));
    GlobalBack(s, cpus);
    ListenBack(m1, s.listen, cpus);
    AddListenIsFirsts(["80"], FirstWords(s.listen));
    assert Firsts(["80"]) == ["80"] by { assert Firsts([]) == []; }
    hide ReadRows, GlobalRows, ListenRows, SiteRows, SslRows, LoggingRows, Firsts, AddListen, NormalSsl, NormalLogging;
    SiteBack(m2, s, cpus);
    SslBack(m3, c.ssl, cpus);
    LoggingBack(m4, c.logging, cpus);
    var a, b, e, f, g := GlobalRows(s), ListenRows(s.listen), SiteRows(s), SslRows(c.ssl), LoggingRows(c.logging);
    Then(START, a, m1, b, cpus);
    Then(START, a + b, m2, e, cpus);
    Then(START, a + b + e, m3, f, cpus);
    Then(START, a + b + e + f, m4, g, cpus);
  }

  lemma TailBack(s: State, cpus: nat)
    requires s.context.InServer?
    ensures ReadRows(s, [Closing(I4), Closing("")], cpus) == Good(s.(context := Global))
  {
    CloseRow(s, I4, cpus);
    CloseRow(s.(context := Global), "", cpus);
    hide ReadRows;
    Then(s, [Closing(I4)], s.(context := Global), [Closing("")], cpus);
    assert [Closing(I4)] + [Closing("")] == [Closing(I4), Closing("")];
  }

  /** The normal form passes validation unless the certificate or the key of a read SSL section has no word. */
  lemma NormalIsValid(c: Config)
    ensures Validate(Normal(c)).Good? <==>
      (NormalSsl(c.ssl).Some? ==> FirstWord(c.ssl.value.certificate).Some? && FirstWord(c.ssl.value.privateKey).Some?)
  {
    hide FirstWord, WordsOf, NormalServer, NormalLogging, NormalLocation;
    NormalServerIsValid(c.server);
    if c.ssl.Some? {
      FirstWordIsWord(c.ssl.value.certificate);
      FirstWordIsWord(c.ssl.value.privateKey);
    }
    forall l | l in Normal(c).locations ensures l.path != "" {
      var i :| 0 <= i < |c.locations| && l == NormalLocation(c.locations[i]);
      NormalLocationIsValid(c.locations[i]);
    }
  }

  lemma NormalServerIsValid(s: Server)
    ensures NormalServer(s).listen != [] && NormalServer(s).root != "" && NormalServer(s).index != []
  {
    hide FirstWord, WordsOf, FirstWords;
    FirstsHead("80", FirstWords(s.listen));
    FirstWordIsWord(s.root);
  }

  lemma NormalLocationIsValid(l: Location)
    ensures NormalLocation(l).path != ""
  {
    NormalPathIsWord(l.path);
  }

  lemma FirstWordIsWord(v: string)
    ensures FirstWord(v).Some? ==> Word(FirstWord(v).value)
  {
    AllFieldsAreWords(CutLast([v]));
  }

  lemma RowsAreGood(c: Config, orders: seq<seq<string>>)
    requires Printable(c) && OrdersOf(c.locations, orders)
    ensures GoodRows(Rows(c, orders))
  {
    hide HeadRows, LocationsRows, OrdersOf, PrintableHead, PrintableLocations;
    assert GoodRow(Closing(I4));
    assert GoodRow(Closing(""));
    hide GoodRow;
    HeadRowsAreGood(c);
    LocationsRowsAreGood(c.locations, orders);
  }

  /** All printed rows, read one after the other. */
  lemma RowsGiveNormal(c: Config, orders: seq<seq<string>>, cpus: nat)
    requires Printable(c) && OrdersOf(c.locations, orders)
    ensures ReadRows(START, Rows(c, orders), cpus) == Good(State(Normal(c), Global, NO_LOCATION))
  {
    hide PrintableHead, PrintableLocations, HeadRows, LocationsRows, ReadRows, OrdersOf;
    hide NormalServer, NormalLogging, NormalSsl;
    var head, middle, tail := HeadRows(c), LocationsRows(c.locations, orders), [Closing(I4), Closing("")];
    var m1 := State(Normal(c).(locations := []), InServer, NO_LOCATION);
    var m2 := State(Normal(c), InServer, NO_LOCATION);
    HeadBack(c, cpus);
    LocationsBack(m1, c.locations, orders, cpus);
    assert [] + NormalLocations(c.locations) == NormalLocations(c.locations);
    TailBack(m2, cpus);
    Then(START, head, m1, middle, cpus);
    Then(START, head + middle, m2, tail, cpus);
  }

  /** What the reader returns once it has read c. */
  function Checked(c: Config): Outcome<Config> {
    match Validate(c) case Bad(why) => Bad(why) case Good(_) => Good(c)
  }

  /** Whatever words the values hold, in whatever order the header tables were walked and whatever the number of
      processors, a printed configuration is read as its normal form, which is then validated. */
  lemma PrintThenParse(c: Config, orders: seq<seq<string>>, cpus: nat)
    requires Printable(c) && OrdersOf(c.locations, orders)
    ensures Parse(Print(c, orders), cpus) == Checked(Normal(c))
  {
    hide Printable, Rows, ReadRows, ReadLines, Lines, RowsText, OrdersOf, Validate, Normal, GoodRows;
    RowsAreGood(c, orders);
    RowsBack(START, Rows(c, orders), cpus);
    RowsGiveNormal(c, orders, cpus);
  }

  /** Every row is a line of the text. */
  lemma {:induction false} RowIsALine(rows: seq<Row>, r: Row)
    requires GoodRows(rows) && r in rows
    ensures RowText(r) in Lines(RowsText(rows))
  {
    assert GoodRow(rows[0]);
    RowIsLine(rows[0]);
    FirstLine(RowText(rows[0]), RowsText(rows[1..]));
    if r != rows[0] {
      assert rows == [rows[0]] + rows[1..];
      RowIsALine(rows[1..], r);
    }
  }

  lemma RowIsPrinted(c: Config, orders: seq<seq<string>>, r: Row)
    requires Printable(c) && OrdersOf(c.locations, orders) && r in HeadRows(c)
    ensures RowText(r) in Lines(Print(c, orders))
  {
    hide HeadRows, LocationsRows, OrdersOf, Printable, Lines, RowText, GoodRows, RowsText;
    RowsAreGood(c, orders);
    RowIsALine(Rows(c, orders), r);
  }

  /** What is printed and not read back is printed all the same. */
  lemma IgnoredLinesArePrinted(c: Config, orders: seq<seq<string>>, v: string, n: nat)
    requires Printable(c) && OrdersOf(c.locations, orders)
    ensures c.ssl.Some? && c.ssl.value.ciphers == Some(v) ==>
              "        " + ("ssl_ciphers " + v + ";") in Lines(Print(c, orders))
    ensures c.logging.Some? && c.logging.value.errorLog == Some(v) ==>
              "        " + ("error_log " + v + ";") in Lines(Print(c, orders))
    ensures c.server.workerConnections == Some(n) ==>
              "    " + ("worker_connections " + Digits(n) + ";") in Lines(Print(c, orders))
  {
    var ciphers, log := Setting(I8, "ssl_ciphers", [v]), Setting(I8, "error_log", [v]);
    var connections := Setting(I4, "worker_connections", [Digits(n)]);
    ValueText(I8, "ssl_ciphers", v);
    ValueText(I8, "error_log", v);
    ValueText(I4, "worker_connections", Digits(n));
    assert "ssl_ciphers" + " " == "ssl_ciphers " && "error_log" + " " == "error_log ";
    assert "worker_connections" + " " == "worker_connections ";
    hide Printable, OrdersOf, Lines, Print, RowText, Digits;
    if c.ssl.Some? && c.ssl.value.ciphers == Some(v) {
      assert ciphers in SslRows(c.ssl);
      RowIsPrinted(c, orders, ciphers);
    }
    if c.logging.Some? && c.logging.value.errorLog == Some(v) {
      assert log in LoggingRows(c.logging);
      RowIsPrinted(c, orders, log);
    }
    if c.server.workerConnections == Some(n) {
      assert connections in GlobalRows(c.server);
      RowIsPrinted(c, orders, connections);
    }
  }

  lemma ValueText(indent: string, name: string, v: string)
    ensures RowText(Setting(indent, name, [v])) == indent + ((name + " ") + v + ";")
  {
  }

  // ---------------------------------------------------------------- merging listen addresses

  predicate Distinct(ws: seq<string>) {
    forall i, j :: 0 <= i < j < |ws| ==> ws[i] != ws[j]
  }

  /** First occurrences: no repetition, nothing lost, and nothing to do when nothing repeats. */
  lemma {:induction false} FirstsDistinct(ws: seq<string>)
    ensures Distinct(Firsts(ws)) && (forall w :: w in Firsts(ws) <==> w in ws)
    ensures Distinct(ws) <==> Firsts(ws) == ws
    ensures |Firsts(ws)| <= |ws|
  {
    if ws != [] {
      var n := |ws| - 1;
      FirstsDistinct(ws[..n]);
      assert ws == ws[..n] + [ws[n]];
      if Firsts(ws) == ws {
        assert Firsts(ws[..n]) == Firsts(ws)[..|Firsts(ws[..n])|];
      }
      if ws[n] in ws[..n] {
        assert !Distinct(ws) by {
          var i :| 0 <= i < n && ws[..n][i] == ws[n];
          assert ws[i] == ws[n];
        }
      }
    }
  }

  /** First occurrences come in the order of the list: prefixes of the list give prefixes of the result. */
  lemma {:induction false} FirstsKeepOrder(a: seq<string>, b: seq<string>)
    ensures Firsts(a) <= Firsts(a + b)
    decreases |b|
  {
    if b == [] {
      assert a + b == a;
    } else {
      var n := |b| - 1;
      FirstsKeepOrder(a, b[..n]);
      assert (a + b)[..|a + b| - 1] == a + b[..n];
    }
  }

  lemma FirstsHead(w: string, ws: seq<string>)
    ensures var f := Firsts([w] + ws);
            && f != [] && f[0] == w && Firsts([w] + f) == f
  {
    hide Firsts, Distinct;
    var f := Firsts([w] + ws);
    FirstsKeepOrder([w], ws);
    OneFirst(w);
    assert [w] <= f && f[0] == w;
    FirstsDistinct([w] + ws);
    FirstsDistinct(f);
    RepeatedHead(w, f);
  }

  lemma OneFirst(w: string)
    ensures Firsts([w]) == [w]
  {
    assert Firsts([]) == [];
  }

  lemma {:induction false} RepeatedHead(w: string, f: seq<string>)
    requires f != [] && f[0] == w
    ensures Firsts([w] + f) == Firsts(f)
  {
    var n := |f| - 1;
    assert ([w] + f)[..n + 1] == [w] + f[..n];
    if n == 0 {
      assert f[..n] == [];
      assert Firsts([w]) == [w] && Firsts(f) == [w] by { assert Firsts([]) == []; }
    } else {
      RepeatedHead(w, f[..n]);
      assert f[n] in [w] + f[..n] <==> f[n] in f[..n];
    }
  }
}
