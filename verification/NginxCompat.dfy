/** The reader and the printer as they run: line by line onto a configuration, and push by push onto a string. */
module NginxCompat {
  import opened Options
  import opened Text
  import opened NginxConfig
  import opened NginxNormal
  import opened NginxRoundTrip
  import opened NginxStable
  import NginxMeaning

  class Reader {
    const cpus: nat
    var config: Config
    var context: Context
    var location: Location

    ghost function Now(): State
      reads this
    {
      State(config, context, location)
    }

    constructor (cpus: nat)
      ensures Now() == START && this.cpus == cpus
    {
      this.cpus, config, context, location := cpus, DEFAULT, Global, NO_LOCATION;
    }

    /** The state after a directive, or the one before it and the error. */
    ghost predicate Became(before: State, next: Outcome<State>, error: Option<string>)
      reads this
    {
      match next
      case Good(s) => error.None? && Now() == s
      case Bad(why) => error == Some(why) && Now() == before
    }

    method ParseGlobalDirective(parts: seq<string>) returns (error: Option<string>)
      requires parts != []
      modifies this`config
      ensures Became(old(Now()), Lift(old(Now()), ReadGlobal(old(config), parts, cpus)), error)
    {
      error := None;
      if parts[0] == "worker_processes" {
        if |parts| >= 2 {
          if parts[1] == "auto" {
            config := config.(server := config.server.(workerProcesses := Some(cpus)));
          } else {
            var n := Number(parts[1], USIZE_LIMIT);
            if n.None? { return Some("Invalid worker_processes value"); }
            config := config.(server := config.server.(workerProcesses := n));
          }
        }
      } else if parts[0] == "error_log" {
        if |parts| >= 2 {
          if config.logging.None? {
            config := config.(logging := Some(Logging(None, Some(parts[1]), None)));
          } else {
            config := config.(logging := Some(config.logging.value.(errorLog := Some(parts[1]))));
          }
        }
      }
    }

    /** The directives of a server that go to the SSL section. */
    method ParseSslDirective(parts: seq<string>)
      requires |parts| >= 2 && parts[0] in ["ssl_certificate", "ssl_certificate_key", "ssl_protocols"]
      modifies this`config
      ensures Good(config) == ReadServer(old(config), parts)
    {
      var ssl := if config.ssl.None? then Ssl("", "", DEFAULT_PROTOCOLS, None) else config.ssl.value;
      if parts[0] == "ssl_certificate" {
        config := config.(ssl := Some(ssl.(certificate := parts[1])));
      } else if parts[0] == "ssl_certificate_key" {
        config := config.(ssl := Some(ssl.(privateKey := parts[1])));
      } else {
        config := config.(ssl := Some(ssl.(protocols := parts[1..])));
      }
    }

    method ParseServerDirective(parts: seq<string>) returns (error: Option<string>)
      requires parts != []
      modifies this`config
      ensures Became(old(Now()), Lift(old(Now()), ReadServer(old(config), parts)), error)
    {
      error := None;
      if |parts| < 2 { return; }
      var server := config.server;
      if parts[0] == "listen" {
        if parts[1] !in server.listen {
          config := config.(server := server.(listen := server.listen + [parts[1]]));
        }
      } else if parts[0] == "server_name" {
        config := config.(server := server.(serverName := Some(parts[1])));
      } else if parts[0] == "root" {
        config := config.(server := server.(root := parts[1]));
      } else if parts[0] == "index" {
        config := config.(server := server.(index := parts[1..]));
      } else if parts[0] == "keepalive_timeout" {
        var n := Number(parts[1], USIZE_LIMIT);
        if n.None? { return Some("Invalid keepalive_timeout value"); }
        config := config.(server := server.(keepaliveTimeout := n));
      } else if parts[0] == "client_max_body_size" {
        config := config.(server := server.(clientMaxBodySize := Some(parts[1])));
      } else if parts[0] == "access_log" {
        if config.logging.None? {
          config := config.(logging := Some(Logging(Some(parts[1]), None, None)));
        } else {
          config := config.(logging := Some(config.logging.value.(accessLog := Some(parts[1]))));
        }
      } else if parts[0] in ["ssl_certificate", "ssl_certificate_key", "ssl_protocols"] {
        ParseSslDirective(parts);
      }
    }

    method ParseLocationDirective(parts: seq<string>) returns (error: Option<string>)
      requires parts != []
      modifies this`location
      ensures Became(old(Now()), LiftLocation(old(Now()), ReadLocation(old(location), parts)), error)
    {
      error := None;
      if |parts| < 2 { return; }
      if parts[0] == "root" {
        location := location.(root := Some(parts[1]));
      } else if parts[0] == "index" {
        location := location.(index := Some(parts[1..]));
      } else if parts[0] == "proxy_pass" {
        location := location.(proxyPass := Some(parts[1]));
      } else if parts[0] == "return" {
        var n := Number(parts[1], U16_LIMIT);
        if n.None? { return Some("Invalid return code"); }
        location := location.(returnCode := n);
        if |parts| >= 3 {
          location := location.(returnUrl := Some(parts[2]));
        }
      } else if parts[0] == "try_files" {
        location := location.(tryFiles := Some(parts[1..]));
      } else if parts[0] == "add_header" {
        if |parts| >= 3 {
          if location.headers.None? {
            location := location.(headers := Some(map[]));
          }
          location := location.(headers := Some(location.headers.value[parts[1] := Join(parts[2..], ' ')]));
        }
      }
    }

    /** A closing brace leaves the block; leaving a location files it. */
    method CloseBlock()
      modifies this
      ensures Now() == ReadStructure(old(Now()), ["}"])
    {
      match context {
        case InServer => context := Global;
        case InLocation =>
          if location.path != "" {
            config := config.(locations := config.locations + [location]);
            location := NO_LOCATION;
          }
          context := InServer;
        case Global =>
      }
    }

    /** `parse_directive`, on a line without white space around it. */
    method ParseDirective(line: string) returns (error: Option<string>)
      modifies this
      ensures Became(old(Now()),
                     ReadParts(old(Now()), Fields(TrimSemicolons(line)), '{' in TrimSemicolons(line), cpus), error)
    {
      var text := TrimSemicolons(line);
      var parts := Fields(text);
      hide Fields, TrimSemicolons, ReadGlobal, ReadServer, ReadLocation;
      error := None;
      if parts == [] { return; }
      if parts[0] == "server" {
        if '{' in text {
          context := InServer;
          return;
        }
      } else if parts[0] == "location" {
        if |parts| >= 2 && '{' in text {
          context := InLocation;
          location := location.(path := parts[1]);
          return;
        }
      } else if parts[0] == "}" {
        CloseBlock();
        return;
      } else if parts[0] == "events" || parts[0] == "http" {
        if '{' in text { return; }
      }
      match context {
        case Global => error := ParseGlobalDirective(parts);
        case InServer => error := ParseServerDirective(parts);
        case InLocation => error := ParseLocationDirective(parts);
      }
    }
  }

  /** `parse_nginx_config`: the lines in turn up to the first error, then validation. */
  method ParseNginxConfig(content: string, cpus: nat) returns (r: Outcome<Config>)
    ensures r == Parse(content, cpus) == NginxMeaning.Meaning(content, cpus)
  {
    NginxMeaning.TextMeans(content, cpus);
    hide NginxMeaning.Meaning, Lines, ReadLine, Validate, Fields, TrimSemicolons, TrimStart, TrimEnd, ReadParts;
    var reader := new Reader(cpus);
    var lines := Lines(content);
    var i := 0;
    assert lines[0..] == lines;
    while i < |lines|
      invariant 0 <= i <= |lines| && reader.cpus == cpus
      invariant ReadLines(reader.Now(), lines[i..], cpus) == ReadLines(START, lines, cpus)
    {
      assert lines[i..][1..] == lines[i + 1..];
      LineStep(reader.Now(), lines[i], cpus);
      var line := TrimEnd(TrimStart(lines[i]));
      if line != "" && line[0] != '#' {
        var error := reader.ParseDirective(line);
        if error.Some? { return Bad(error.value); }
      }
      i := i + 1;
    }
    match Validate(reader.config) {
      case Bad(why) => r := Bad(why);
      case Good(_) => r := Good(reader.config);
    }
  }

  lemma LineStep(s: State, line: string, cpus: nat)
    ensures var t := TrimEnd(TrimStart(line));
            ReadLine(s, line, cpus)
            == if t == "" || t[0] == '#' then Good(s)
               else ReadParts(s, Fields(TrimSemicolons(t)), '{' in TrimSemicolons(t), cpus)
  {
  }

  // ---------------------------------------------------------------- printing

  /** One formatted line. */
  function Line(indent: string, name: string, value: string): string {
    indent + name + " " + value + ";\n"
  }

  lemma LineText(indent: string, name: string, args: seq<string>)
    ensures RowsText([Setting(indent, name, args)]) == Line(indent, name, Join(args, ' '))
  {
    var row := Setting(indent, name, args);
    assert [row][1..] == [];
    assert RowsText([row]) == RowText(row) + "\n" + "";
  }

  lemma MaybeText(indent: string, name: string, value: Option<string>)
    ensures RowsText(Maybe(indent, name, value)) == if value.None? then "" else Line(indent, name, value.value)
  {
    if value.Some? { LineText(indent, name, [value.value]); }
  }

  lemma MaybeListText(indent: string, name: string, value: Option<seq<string>>)
    ensures RowsText(MaybeList(indent, name, value))
            == if value.None? then "" else Line(indent, name, Join(value.value, ' '))
  {
    if value.Some? { LineText(indent, name, value.value); }
  }

  lemma {:induction false} RowsTextAppend(a: seq<Row>, b: seq<Row>)
    ensures RowsText(a + b) == RowsText(a) + RowsText(b)
  {
    hide RowText;
    if a == [] {
      assert a + b == b;
    } else {
      RowsTextAppend(a[1..], b);
      assert (a + b)[1..] == a[1..] + b;
      assert (RowText(a[0]) + "\n" + RowsText(a[1..])) + RowsText(b)
          == RowText(a[0]) + "\n" + (RowsText(a[1..]) + RowsText(b));
    }
  }

  lemma OneRowText(row: Row)
    ensures RowsText([row]) == RowText(row) + "\n"
  {
    assert [row][1..] == [];
    assert RowText(row) + "\n" + "" == RowText(row) + "\n";
  }

  lemma EventsText(n: nat)
    ensures RowsText([Opening("", ["events"]), Setting(I4, "worker_connections", [Digits(n)]), Closing(""), Blank])
         == "events {\n" + Line(I4, "worker_connections", Digits(n)) + "}\n" + "\n"
  {
    hide Digits, RowsText;
    var a, b, c, d := Opening("", ["events"]), Setting(I4, "worker_connections", [Digits(n)]), Closing(""), Blank;
    OneRowText(a);
    OneRowText(c);
    OneRowText(d);
    LineText(I4, "worker_connections", [Digits(n)]);
    assert RowText(a) + "\n" == "events {\n" && RowText(c) + "\n" == "}\n" && RowText(d) + "\n" == "\n";
    hide RowText, Line;
    RowsTextAppend([a], [b]);
    RowsTextAppend([a, b], [c]);
    RowsTextAppend([a, b, c], [d]);
    assert [a, b] == [a] + [b] && [a, b, c] == [a, b] + [c] && [a, b, c, d] == [a, b, c] + [d];
  }

  lemma HttpText()
    ensures RowsText([Opening("", ["http"]), Opening(I4, ["server"])]) == "http {\n" + "    server {\n"
    ensures RowsText([Closing(I4), Closing("")]) == "    }\n" + "}\n"
  {
    OneRowText(Opening("", ["http"]));
    OneRowText(Opening(I4, ["server"]));
    OneRowText(Closing(I4));
    OneRowText(Closing(""));
    hide RowsText;
    RowsTextAppend([Opening("", ["http"])], [Opening(I4, ["server"])]);
    RowsTextAppend([Closing(I4)], [Closing("")]);
    assert [Opening("", ["http"]), Opening(I4, ["server"])] == [Opening("", ["http"])] + [Opening(I4, ["server"])];
    assert [Closing(I4), Closing("")] == [Closing(I4)] + [Closing("")];
  }

  method PrintGlobal(server: Server) returns (text: string)
    ensures text == RowsText(GlobalRows(server))
  {
    var a := if server.workerProcesses.None? then []
      else [Setting("", "worker_processes", [Digits(server.workerProcesses.value)])];
    var b := if server.workerConnections.None? then []
      else [Opening("", ["events"]), Setting(I4, "worker_connections", [Digits(server.workerConnections.value)]),
            Closing(""), Blank];
    ghost var c := [Opening("", ["http"]), Opening(I4, ["server"])];
    assert GlobalRows(server) == a + b + c && RowsText([]) == "";
    hide Digits, RowsText;
    text := "";
    if server.workerProcesses.Some? {
      LineText("", "worker_processes", [Digits(server.workerProcesses.value)]);
      text := text + Line("", "worker_processes", Digits(server.workerProcesses.value));
    }
    assert text == RowsText(a);
    if server.workerConnections.Some? {
      EventsText(server.workerConnections.value);
      text := text + ("events {\n" + Line(I4, "worker_connections", Digits(server.workerConnections.value)) + "}\n" + "\n");
    }
    RowsTextAppend(a, b);
    assert text == RowsText(a + b);
    HttpText();
    RowsTextAppend(a + b, c);
    text := text + ("http {\n" + "    server {\n");
  }

  method PrintListen(listen: seq<string>) returns (text: string)
    ensures text == RowsText(ListenRows(listen))
  {
    text := "";
    var i := 0;
    assert listen[0..] == listen;
    while i < |listen|
      invariant 0 <= i <= |listen|
      invariant text + RowsText(ListenRows(listen[i..])) == RowsText(ListenRows(listen))
    {
      ghost var row := Setting(I8, "listen", [listen[i]]);
      ghost var rest := ListenRows(listen[i + 1..]);
      assert listen[i..][1..] == listen[i + 1..];
      assert ListenRows(listen[i..]) == [row] + rest;
      RowsTextAppend([row], rest);
      LineText(I8, "listen", [listen[i]]);
      hide RowsText, ListenRows;
      assert (text + Line(I8, "listen", listen[i])) + RowsText(rest)
          == text + (Line(I8, "listen", listen[i]) + RowsText(rest));
      text := text + Line(I8, "listen", listen[i]);
      i := i + 1;
    }
  }

  method PrintSite(server: Server) returns (text: string)
    ensures text == RowsText(SiteRows(server))
  {
    ghost var a, b, c := Maybe(I8, "server_name", server.serverName), [Setting(I8, "root", [server.root])],
      [Setting(I8, "index", server.index)];
    MaybeText(I8, "server_name", server.serverName);
    LineText(I8, "root", [server.root]);
    LineText(I8, "index", server.index);
    RowsTextAppend(a, b);
    RowsTextAppend(a + b, c);
    assert SiteRows(server) == a + b + c;
    hide RowsText, Line, Maybe, SiteRows;
    text := "";
    if server.serverName.Some? {
      text := text + Line(I8, "server_name", server.serverName.value);
    }
    assert text == RowsText(a);
    text := text + Line(I8, "root", server.root);
    assert text == RowsText(a + b);
    text := text + Line(I8, "index", Join(server.index, ' '));
  }

  method PrintSsl(ssl: Option<Ssl>) returns (text: string)
    ensures text == RowsText(SslRows(ssl))
  {
    text := "";
    if ssl.Some? {
      ghost var a, b := [Setting(I8, "ssl_certificate", [ssl.value.certificate])],
        [Setting(I8, "ssl_certificate_key", [ssl.value.privateKey])];
      ghost var c, d := [Setting(I8, "ssl_protocols", ssl.value.protocols)], Maybe(I8, "ssl_ciphers", ssl.value.ciphers);
      LineText(I8, "ssl_certificate", [ssl.value.certificate]);
      LineText(I8, "ssl_certificate_key", [ssl.value.privateKey]);
      LineText(I8, "ssl_protocols", ssl.value.protocols);
      MaybeText(I8, "ssl_ciphers", ssl.value.ciphers);
      assert SslRows(ssl) == a + b + c + d;
      hide RowsText, Line, SslRows, Maybe;
      RowsTextAppend(a, b);
      RowsTextAppend(a + b, c);
      RowsTextAppend(a + b + c, d);
      text := text + Line(I8, "ssl_certificate", ssl.value.certificate);
      assert text == RowsText(a);
      text := text + Line(I8, "ssl_certificate_key", ssl.value.privateKey);
      text := text + Line(I8, "ssl_protocols", Join(ssl.value.protocols, ' '));
      assert text == RowsText(a + b + c);
      if ssl.value.ciphers.Some? {
        text := text + Line(I8, "ssl_ciphers", ssl.value.ciphers.value);
      }
    }
  }

  method PrintLogging(logging: Option<Logging>) returns (text: string)
    ensures text == RowsText(LoggingRows(logging))
  {
    text := "";
    if logging.Some? {
      MaybeText(I8, "access_log", logging.value.accessLog);
      MaybeText(I8, "error_log", logging.value.errorLog);
      ghost var a, b := Maybe(I8, "access_log", logging.value.accessLog), Maybe(I8, "error_log", logging.value.errorLog);
      RowsTextAppend(a, b);
      assert LoggingRows(logging) == a + b;
      hide RowsText, Line, Maybe, LoggingRows;
      if logging.value.accessLog.Some? {
        text := text + Line(I8, "access_log", logging.value.accessLog.value);
      }
      assert text == RowsText(a);
      if logging.value.errorLog.Some? {
        text := text + Line(I8, "error_log", logging.value.errorLog.value);
      }
    }
  }

  method PrintFiles(l: Location) returns (text: string)
    ensures text == RowsText(FileRows(l))
  {
    ghost var a, b, c := Maybe(I12, "root", l.root), MaybeList(I12, "index", l.index),
      Maybe(I12, "proxy_pass", l.proxyPass);
    MaybeText(I12, "root", l.root);
    MaybeListText(I12, "index", l.index);
    MaybeText(I12, "proxy_pass", l.proxyPass);
    RowsTextAppend(a, b);
    RowsTextAppend(a + b, c);
    hide RowsText, Line;
    text := "";
    if l.root.Some? {
      text := text + Line(I12, "root", l.root.value);
    }
    if l.index.Some? {
      text := text + Line(I12, "index", Join(l.index.value, ' '));
    }
    if l.proxyPass.Some? {
      text := text + Line(I12, "proxy_pass", l.proxyPass.value);
    }
  }

  method PrintReturn(l: Location) returns (text: string)
    ensures text == RowsText(ReturnRows(l))
  {
    text := "";
    if l.returnCode.Some? {
      ghost var args := [Digits(l.returnCode.value)] + (if l.returnUrl.Some? then [l.returnUrl.value] else []);
      LineText(I12, "return", args);
      hide RowsText, Digits;
      if l.returnUrl.Some? {
        assert args[1..] == [l.returnUrl.value];
        text := text + Line(I12, "return", Digits(l.returnCode.value) + " " + l.returnUrl.value);
      } else {
        text := text + Line(I12, "return", Digits(l.returnCode.value));
      }
    }
  }

  lemma {:induction false} HeaderRowsAppend(headers: map<string, string>, order: seq<string>, k: string)
    requires k in headers && forall j :: j in order ==> j in headers
    ensures HeaderRows(headers, order + [k])
         == HeaderRows(headers, order) + [Setting(I12, "add_header", [k, headers[k]])]
  {
    if order == [] {
      assert order + [k] == [k] && [k][1..] == [];
    } else {
      HeaderRowsAppend(headers, order[1..], k);
      assert (order + [k])[1..] == order[1..] + [k];
    }
  }

  lemma HeaderText(name: string, value: string)
    ensures RowsText([Setting(I12, "add_header", [name, value])]) == Line(I12, "add_header", name + " " + value)
  {
    LineText(I12, "add_header", [name, value]);
    assert [name, value][1..] == [value];
    hide RowsText;
  }

  /** The headers, in whatever order the table yields them. */
  method PrintHeaders(headers: Option<map<string, string>>) returns (text: string, ghost order: seq<string>)
    ensures OrderOf(headers, order) && text == RowsText(TableRows(headers, order))
  {
    text, order := "", [];
    if headers.Some? {
      var table := headers.value;
      var left := table.Keys;
      while left != {}
        invariant left <= table.Keys && (forall k :: k in order <==> k in table && k !in left)
        invariant forall i, j :: 0 <= i < j < |order| ==> order[i] != order[j]
        invariant text == RowsText(HeaderRows(table, order))
        decreases |left|
      {
        var name :| name in left;
        HeaderText(name, table[name]);
        HeaderRowsAppend(table, order, name);
        RowsTextAppend(HeaderRows(table, order), [Setting(I12, "add_header", [name, table[name]])]);
        hide RowsText, HeaderRows, Line;
        text := text + Line(I12, "add_header", name + " " + table[name]);
        left, order := left - {name}, order + [name];
      }
    }
  }

  lemma OpeningText(path: string)
    ensures RowText(Opening(I8, ["location", path])) + "\n" == "        location " + path + " {\n"
    ensures RowText(Closing(I8)) + "\n" == "        }\n"
  {
    assert ["location", path][1..] == [path];
    assert Join(["location", path], ' ') == "location" + " " + path;
    assert "        " + (("location" + " " + path) + " {") + "\n" == "        location " + path + " {\n";
  }

  method PrintLocation(l: Location) returns (text: string, ghost order: seq<string>)
    ensures OrderOf(l.headers, order) && text == RowsText(LocationRows(l, order))
  {
    var files := PrintFiles(l);
    var returned := PrintReturn(l);
    var table;
    table, order := PrintHeaders(l.headers);
    ghost var a, b, c := [Opening(I8, ["location", l.path])], FileRows(l), ReturnRows(l);
    ghost var d, e, f := MaybeList(I12, "try_files", l.tryFiles), TableRows(l.headers, order), [Closing(I8)];
    OneRowText(a[0]);
    OneRowText(f[0]);
    OpeningText(l.path);
    MaybeListText(I12, "try_files", l.tryFiles);
    hide RowsText, RowText, Line, OrderOf, FileRows, ReturnRows, MaybeList, TableRows;
    RowsTextAppend(a, b);
    RowsTextAppend(a + b, c);
    RowsTextAppend(a + b + c, d);
    RowsTextAppend(a + b + c + d, e);
    RowsTextAppend(a + b + c + d + e, f);
    text := "        location " + l.path + " {\n";
    text := text + files;
    text := text + returned;
    if l.tryFiles.Some? {
      text := text + Line(I12, "try_files", Join(l.tryFiles.value, ' '));
    }
    assert text == RowsText(a + b + c + d);
    text := text + table;
    text := text + "        }\n";
  }

  lemma {:induction false} LocationsRowsAppend(ls: seq<Location>, orders: seq<seq<string>>, l: Location, order: seq<string>)
    requires OrdersOf(ls, orders) && OrderOf(l.headers, order)
    ensures OrdersOf(ls + [l], orders + [order])
    ensures LocationsRows(ls + [l], orders + [order]) == LocationsRows(ls, orders) + LocationRows(l, order)
    decreases |ls|
  {
    hide OrderOf, LocationRows;
    if ls == [] {
      assert ls + [l] == [l] && orders + [order] == [order] && [l][1..] == [] && [order][1..] == [];
      assert LocationsRows([], []) == [];
    } else {
      LocationsRowsAppend(ls[1..], orders[1..], l, order);
      assert (ls + [l])[1..] == ls[1..] + [l] && (orders + [order])[1..] == orders[1..] + [order];
    }
  }

  lemma NoLocations()
    ensures OrdersOf([], []) && RowsText(LocationsRows([], [])) == ""
  {
  }

  method PrintLocations(ls: seq<Location>) returns (text: string, ghost orders: seq<seq<string>>)
    ensures OrdersOf(ls, orders) && text == RowsText(LocationsRows(ls, orders))
  {
    NoLocations();
    hide RowsText, LocationRows, LocationsRows, OrderOf, OrdersOf;
    text, orders := "", [];
    var i := 0;
    assert ls[..0] == [];
    while i < |ls|
      invariant 0 <= i <= |ls| && OrdersOf(ls[..i], orders)
      invariant text == RowsText(LocationsRows(ls[..i], orders))
    {
      var piece;
      ghost var order;
      piece, order := PrintLocation(ls[i]);
      LocationsRowsAppend(ls[..i], orders, ls[i], order);
      RowsTextAppend(LocationsRows(ls[..i], orders), LocationRows(ls[i], order));
      assert ls[..i + 1] == ls[..i] + [ls[i]];
      text, orders := text + piece, orders + [order];
      i := i + 1;
    }
    assert ls[..i] == ls;
  }

  /** `to_nginx_config`: some walk of the header tables, and the text it gives. Values without line feeds read back as
      the normal form, if that passes validation; and what is read back is the configuration exactly when it survives. */
  method ToNginxConfig(c: Config) returns (text: string, ghost orders: seq<seq<string>>)
    ensures OrdersOf(c.locations, orders) && text == Print(c, orders)
    ensures Printable(c) ==> forall cpus: nat :: Parse(text, cpus) == Checked(Normal(c))
    ensures forall cpus: nat :: cpus < USIZE_LIMIT ==> (Parse(text, cpus) == Good(c) <==> Survives(c))
  {
    ghost var server := c.server;
    text := PrintGlobal(c.server);
    var listen := PrintListen(c.server.listen);
    var site := PrintSite(c.server);
    var ssl := PrintSsl(c.ssl);
    var logging := PrintLogging(c.logging);
    var locations;
    locations, orders := PrintLocations(c.locations);
    hide RowsText, GlobalRows, ListenRows, SiteRows, SslRows, LoggingRows, LocationsRows, OrdersOf,
      Printable, Parse, Normal, Checked, Survives;
    ghost var a, b, d, e, f := GlobalRows(server), ListenRows(server.listen), SiteRows(server),
      SslRows(c.ssl), LoggingRows(c.logging);
    ghost var g, h := LocationsRows(c.locations, orders), [Closing(I4), Closing("")];
    RowsTextAppend(a, b);
    text := text + listen;
    RowsTextAppend(a + b, d);
    text := text + site;
    RowsTextAppend(a + b + d, e);
    text := text + ssl;
    RowsTextAppend(a + b + d + e, f);
    text := text + logging;
    RowsTextAppend(HeadRows(c), g);
    text := text + locations;
    HttpText();
    RowsTextAppend(HeadRows(c) + g, h);
    text := text + ("    }\n" + "}\n");
    forall cpus: nat | Printable(c) ensures Parse(text, cpus) == Checked(Normal(c)) {
      PrintThenParse(c, orders, cpus);
    }
    forall cpus: nat | cpus < USIZE_LIMIT ensures Parse(text, cpus) == Good(c) <==> Survives(c) {
      UnchangedExactlyWhen(c, orders, cpus);
    }
  }
}
