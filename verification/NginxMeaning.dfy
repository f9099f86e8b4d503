/** What a text means, told setting by setting: for each one the last line that sets it, found without running the reader;
    and that the reader computes just this. */
module NginxMeaning {
  import opened Options
  import opened Text
  import opened NginxConfig
  import opened NginxText
  import opened NginxNormal
  import opened NginxRoundTrip

  // ---------------------------------------------------------------- lines

  /** The words of a line, the semicolons at its end gone; none of a blank line or a comment. */
  function LineWords(line: string): (ws: seq<string>) {
    var t := TrimEnd(TrimStart(line));
    if t == "" || t[0] == '#' then [] else Fields(TrimSemicolons(t))
  }

  /** Where a line leads from within a block. */
  function Moved(c: Context, line: string): Context {
    var ws := LineWords(line);
    if ws == [] then c
    else if ws[0] == "}" then (if c.InLocation? then InServer else Global)
    else if '{' !in line then c
    else if ws[0] == "server" then InServer
    else if ws[0] == "location" && |ws| >= 2 then InLocation
    else c
  }

  /** Where the text stands after some lines. */
  function ContextAfter(ls: seq<string>): Context {
    if ls == [] then Global else Moved(ContextAfter(ls[..|ls| - 1]), ls[|ls| - 1])
  }

  /** The values a line gives to a setting: none if it is another directive or stands elsewhere. */
  function Values(c: Context, line: string, where: Context, name: string): seq<string> {
    var ws := LineWords(line);
    if c == where && ws != [] && ws[0] == name then ws[1..] else []
  }

  /** The values in the last line that gives some. */
  function LastValues(ls: seq<string>, where: Context, name: string): seq<string>
    decreases |ls|
  {
    if ls == [] then []
    else
      var early, line := ls[..|ls| - 1], ls[|ls| - 1];
      var vs := Values(ContextAfter(early), line, where, name);
      if vs != [] then vs else LastValues(early, where, name)
  }

  function Head(vs: seq<string>): Option<string> {
    if vs == [] then None else Some(vs[0])
  }

  function LastValue(ls: seq<string>, where: Context, name: string): Option<string> {
    Head(LastValues(ls, where, name))
  }

  /** The first value in every line that gives some. */
  function EveryValue(ls: seq<string>, where: Context, name: string): seq<string>
    decreases |ls|
  {
    if ls == [] then []
    else
      var early, line := ls[..|ls| - 1], ls[|ls| - 1];
      var vs := Values(ContextAfter(early), line, where, name);
      EveryValue(early, where, name) + if vs == [] then [] else [vs[0]]
  }

  // ---------------------------------------------------------------- locations

  /** The line closes a location. */
  predicate Closes(c: Context, line: string) {
    c.InLocation? && LineWords(line) != [] && LineWords(line)[0] == "}"
  }

  predicate OpensLocation(line: string) {
    |LineWords(line)| >= 2 && LineWords(line)[0] == "location" && '{' in line
  }

  /** Since the last location was closed: the values in the last line that gives at least n of them. */
  function BlockValues(ls: seq<string>, name: string, n: nat): seq<string>
    decreases |ls|
  {
    if ls == [] then []
    else
      var early, line := ls[..|ls| - 1], ls[|ls| - 1];
      var c := ContextAfter(early);
      var vs := Values(c, line, InLocation, name);
      if Closes(c, line) then []
      else if vs != [] && |vs| >= n then vs
      else BlockValues(early, name, n)
  }

  /** The path in the last line that opens a location. */
  function BlockPath(ls: seq<string>): string
    decreases |ls|
  {
    if ls == [] then ""
    else
      var early, line := ls[..|ls| - 1], ls[|ls| - 1];
      if Closes(ContextAfter(early), line) then ""
      else if OpensLocation(line) then LineWords(line)[1]
      else BlockPath(early)
  }

  /** Of each header the last line counts. */
  function BlockHeaders(ls: seq<string>): Option<map<string, string>>
    decreases |ls|
  {
    if ls == [] then None
    else
      var early, line := ls[..|ls| - 1], ls[|ls| - 1];
      var c := ContextAfter(early);
      var vs := Values(c, line, InLocation, "add_header");
      if Closes(c, line) then None
      else if |vs| < 2 then BlockHeaders(early)
      else Some(GetOr(BlockHeaders(early), map[])[vs[0] := Join(vs[1..], ' ')])
  }

  function ListOrNone(vs: seq<string>): Option<seq<string>> {
    if vs == [] then None else Some(vs)
  }

  /** The location described since the last one was closed. */
  function BlockLocation(ls: seq<string>): Location {
    var status, target := BlockValues(ls, "return", 1), BlockValues(ls, "return", 2);
    Location(
      BlockPath(ls), Head(BlockValues(ls, "root", 1)), ListOrNone(BlockValues(ls, "index", 1)),
      Head(BlockValues(ls, "proxy_pass", 1)), if status == [] then None else Number(status[0], U16_LIMIT),
      if |target| < 2 then None else Some(target[1]), ListOrNone(BlockValues(ls, "try_files", 1)), BlockHeaders(ls))
  }

  /** Every closed location. */
  function Locations(ls: seq<string>): seq<Location>
    decreases |ls|
  {
    if ls == [] then []
    else
      var early, line := ls[..|ls| - 1], ls[|ls| - 1];
      Locations(early) + if Closes(ContextAfter(early), line) then [BlockLocation(early)] else []
  }

  // ---------------------------------------------------------------- the configuration

  function Workers(v: Option<string>, cpus: nat): Option<nat> {
    if v.None? then Some(1) else if v.value == "auto" then Some(cpus) else Number(v.value, USIZE_LIMIT)
  }

  function Keepalive(v: Option<string>): Option<nat> {
    if v.None? then Some(65) else Number(v.value, USIZE_LIMIT)
  }

  function ServerOf(ls: seq<string>, cpus: nat): Server {
    Server(
      Firsts(["80"] + EveryValue(ls, InServer, "listen")), LastValue(ls, InServer, "server_name"),
      GetOr(LastValue(ls, InServer, "root"), "/var/www/html"),
      ListOr(LastValues(ls, InServer, "index"), ["index.html", "index.htm"]),
      Workers(LastValue(ls, Global, "worker_processes"), cpus), Some(1024),
      Keepalive(LastValue(ls, InServer, "keepalive_timeout")),
      Some(GetOr(LastValue(ls, InServer, "client_max_body_size"), "1M")))
  }

  function LoggingOf(ls: seq<string>): Option<Logging> {
    Some(Logging(Some(GetOr(LastValue(ls, InServer, "access_log"), "/var/log/anx/access.log")),
                 Some(GetOr(LastValue(ls, Global, "error_log"), "/var/log/anx/error.log")), Some("info")))
  }

  function SslOf(ls: seq<string>): Option<Ssl> {
    var certificate, key := LastValue(ls, InServer, "ssl_certificate"), LastValue(ls, InServer, "ssl_certificate_key");
    var protocols := LastValues(ls, InServer, "ssl_protocols");
    if certificate.None? && key.None? && protocols == [] then None
    else Some(Ssl(GetOr(certificate, ""), GetOr(key, ""), ListOr(protocols, ["TLSv1.2", "TLSv1.3"]), None))
  }

  function ConfigOf(ls: seq<string>, cpus: nat): Config {
    Config(ServerOf(ls, cpus), LoggingOf(ls), SslOf(ls), None, None, Locations(ls))
  }

  function StateOf(ls: seq<string>, cpus: nat): State {
    State(ConfigOf(ls, cpus), ContextAfter(ls), BlockLocation(ls))
  }

  /** What is wrong with a line: a number that is none. */
  function LineError(c: Context, line: string): Option<string> {
    var workers, timeout := Values(c, line, Global, "worker_processes"), Values(c, line, InServer, "keepalive_timeout");
    var status := Values(c, line, InLocation, "return");
    if workers != [] && workers[0] != "auto" && Number(workers[0], USIZE_LIMIT).None? then
      Some("Invalid worker_processes value")
    else if timeout != [] && Number(timeout[0], USIZE_LIMIT).None? then Some("Invalid keepalive_timeout value")
    else if status != [] && Number(status[0], U16_LIMIT).None? then Some("Invalid return code")
    else None
  }

  function FirstError(ls: seq<string>): Option<string> {
    if ls == [] then None
    else
      var early := FirstError(ls[..|ls| - 1]);
      if early.Some? then early else LineError(ContextAfter(ls[..|ls| - 1]), ls[|ls| - 1])
  }

  // ---------------------------------------------------------------- the reader on one line

  lemma {:induction false} TrimStartHas(s: string, c: char)
    requires !IsSpace(c)
    ensures c in TrimStart(s) <==> c in s
  {
    if s != "" && IsSpace(s[0]) { TrimStartHas(s[1..], c); }
  }

  lemma {:induction false} TrimEndHas(s: string, c: char)
    requires !IsSpace(c)
    ensures c in TrimEnd(s) <==> c in s
  {
    if s != "" && IsSpace(s[|s| - 1]) { TrimEndHas(s[..|s| - 1], c); }
  }

  lemma {:induction false} TrimSemicolonsHas(s: string, c: char)
    requires c != ';'
    ensures c in TrimSemicolons(s) <==> c in s
  {
    if s != "" && s[|s| - 1] == ';' { TrimSemicolonsHas(s[..|s| - 1], c); }
  }

  lemma LineIsWords(s: State, line: string, cpus: nat)
    ensures ReadLine(s, line, cpus) == ReadParts(s, LineWords(line), '{' in line, cpus)
    ensures Words(LineWords(line))
  {
    hide TrimStart, TrimEnd, TrimSemicolons, Fields, ReadGlobal, ReadServer, ReadLocation, ReadStructure;
    var t := TrimEnd(TrimStart(line));
    TrimStartHas(line, '{');
    TrimEndHas(TrimStart(line), '{');
    TrimSemicolonsHas(t, '{');
    if t != "" && t[0] != '#' { FieldsAreWords(TrimSemicolons(t)); }
  }

  /** The words of a printed line. */
  lemma PrintedWords(indent: string, name: string, args: seq<string>)
    requires Indent(indent) && Plain(name)
    ensures LineWords(RowText(Setting(indent, name, args))) == [name] + WordsOf(args)
  {
    var u := name + " " + Join(args, ' ');
    SkipIndent(indent, u + ";");
    assert TrimEnd(u + ";") == u + ";";
    hide Fields, TrimStart, TrimEnd, TrimSemicolons, Join, CutLast, AllFields;
    LineEnd(name, args);
    var more := Join(CutLast(args), ' ');
    assert name + " " + more == name + (" " + more);
    FieldsAppend(name, more);
    WordField(name);
    FieldsJoin(CutLast(args));
  }

  lemma Snoc(p: seq<string>, line: string)
    ensures (p + [line])[..|p + [line]| - 1] == p && (p + [line])[|p + [line]| - 1] == line
  {
  }

  lemma LocationsNext(p: seq<string>, line: string)
    ensures Locations(p + [line])
         == if Closes(ContextAfter(p), line) then Locations(p) + [BlockLocation(p)] else Locations(p)
  {
    Snoc(p, line);
    hide ContextAfter, BlockLocation, Closes;
    assert Locations(p) + [] == Locations(p);
  }

  lemma PathNext(p: seq<string>, line: string)
    ensures BlockPath(p + [line])
         == if Closes(ContextAfter(p), line) then "" else if OpensLocation(line) then LineWords(line)[1] else BlockPath(p)
  {
    Snoc(p, line);
    hide ContextAfter, Closes, LineWords;
  }

  lemma BlockNext(p: seq<string>, line: string, name: string, n: nat)
    requires n > 0
    ensures BlockValues(p + [line], name, n)
         == if Closes(ContextAfter(p), line) then []
            else if ContextAfter(p).InLocation? && Sets(LineWords(line), name) && |LineWords(line)| > n then
              LineWords(line)[1..]
            else BlockValues(p, name, n)
  {
    Snoc(p, line);
    hide ContextAfter, Closes, LineWords;
  }

  lemma HeadersNext(p: seq<string>, line: string)
    ensures var ws := LineWords(line);
            BlockHeaders(p + [line])
            == if Closes(ContextAfter(p), line) then None
               else if ContextAfter(p).InLocation? && Sets(ws, "add_header") && |ws| > 2 then
                 Some(GetOr(BlockHeaders(p), map[])[ws[1] := Join(ws[2..], ' ')])
               else BlockHeaders(p)
  {
    Snoc(p, line);
    hide ContextAfter, Closes, LineWords, Join;
    var ws := LineWords(line);
    if |ws| > 2 { assert ws[1..][1..] == ws[2..]; }
  }

  lemma ContextNext(p: seq<string>, line: string)
    ensures ContextAfter(p + [line]) == Moved(ContextAfter(p), line)
  {
    Snoc(p, line);
    hide Moved;
  }

  // ---------------------------------------------------------------- the reader, line by line

  /** A line read as a directive in its context. */
  predicate IsDirective(line: string) {
    LineWords(line) != [] && !Structural(LineWords(line), '{' in line)
  }

  lemma DirectiveStays(c: Context, line: string)
    requires IsDirective(line)
    ensures Moved(c, line) == c && !Closes(c, line) && !OpensLocation(line)
  {
    hide LineWords;
  }

  /** The line gives values to the setting, in its context. */
  predicate Sets(ws: seq<string>, name: string) {
    |ws| >= 2 && ws[0] == name
  }

  lemma LastNext(p: seq<string>, line: string, where: Context, name: string)
    ensures LastValues(p + [line], where, name)
         == if ContextAfter(p) == where && Sets(LineWords(line), name) then LineWords(line)[1..]
            else LastValues(p, where, name)
  {
    Snoc(p, line);
    hide LineWords, ContextAfter;
  }

  lemma EveryNext(p: seq<string>, line: string, where: Context, name: string)
    ensures EveryValue(p + [line], where, name)
         == if ContextAfter(p) == where && Sets(LineWords(line), name) then EveryValue(p, where, name) + [LineWords(line)[1]]
            else EveryValue(p, where, name)
  {
    Snoc(p, line);
    hide LineWords, ContextAfter;
    assert EveryValue(p, where, name) + [] == EveryValue(p, where, name);
  }

  lemma ListenNext(p: seq<string>, line: string)
    ensures Firsts(["80"] + EveryValue(p + [line], InServer, "listen"))
         == var have := Firsts(["80"] + EveryValue(p, InServer, "listen"));
            if ContextAfter(p).InServer? && Sets(LineWords(line), "listen") then Added(have, LineWords(line)[1]) else have
  {
    hide LineWords, EveryValue, ContextAfter, Firsts;
    EveryNext(p, line, InServer, "listen");
    if ContextAfter(p).InServer? && Sets(LineWords(line), "listen") {
      var have, w := ["80"] + EveryValue(p, InServer, "listen"), LineWords(line)[1];
      AddedLast(have, w);
      assert have + [w] == ["80"] + EveryValue(p + [line], InServer, "listen");
    }
  }

  lemma AddedLast(have: seq<string>, w: string)
    ensures Firsts(have + [w]) == Added(Firsts(have), w)
  {
    SameMembers(have);
    assert (have + [w])[..|have|] == have;
  }

  // What a directive of a server does to each setting.

  lemma ServerEffect(c: Config, ws: seq<string>)
    requires ws != []
    ensures ReadServer(c, ws).Bad? <==> Sets(ws, "keepalive_timeout") && Number(ws[1], USIZE_LIMIT).None?
    ensures ReadServer(c, ws).Bad? ==> ReadServer(c, ws).reason == "Invalid keepalive_timeout value"
    ensures ReadServer(c, ws).Good? ==>
              var s, t := c.server, ReadServer(c, ws).value.server;
              && t.listen == (if Sets(ws, "listen") then Added(s.listen, ws[1]) else s.listen)
              && t.serverName == (if Sets(ws, "server_name") then Some(ws[1]) else s.serverName)
              && t.root == (if Sets(ws, "root") then ws[1] else s.root)
              && t.index == (if Sets(ws, "index") then ws[1..] else s.index)
              && t.workerProcesses == s.workerProcesses && t.workerConnections == s.workerConnections
              && t.keepaliveTimeout == (if Sets(ws, "keepalive_timeout") then Number(ws[1], USIZE_LIMIT)
                                        else s.keepaliveTimeout)
              && t.clientMaxBodySize == (if Sets(ws, "client_max_body_size") then Some(ws[1]) else s.clientMaxBodySize)
  {
    hide Number;
  }

  lemma OtherServerEffect(c: Config, ws: seq<string>)
    requires ws != [] && c.logging.Some?
    ensures ReadServer(c, ws).Good? ==>
              var d := ReadServer(c, ws).value;
              && d.logging == Some(if Sets(ws, "access_log") then c.logging.value.(accessLog := Some(ws[1]))
                                   else c.logging.value)
              && d.ssl == (if Sets(ws, "ssl_certificate") then WithCertificate(c.ssl, Some(ws[1]))
                           else if Sets(ws, "ssl_certificate_key") then WithKey(c.ssl, Some(ws[1]))
                           else if Sets(ws, "ssl_protocols") then WithProtocols(c.ssl, ws[1..]) else c.ssl)
              && d.proxy == c.proxy && d.cache == c.cache && d.locations == c.locations
  {
    hide Number;
  }

  // And what the line does to the settings told by the text.

  lemma ServerNext(p: seq<string>, line: string, cpus: nat)
    ensures var ws, c, s, t := LineWords(line), ContextAfter(p), ServerOf(p, cpus), ServerOf(p + [line], cpus);
            && t.listen == (if c.InServer? && Sets(ws, "listen") then Added(s.listen, ws[1]) else s.listen)
            && t.serverName == (if c.InServer? && Sets(ws, "server_name") then Some(ws[1]) else s.serverName)
            && t.root == (if c.InServer? && Sets(ws, "root") then ws[1] else s.root)
            && t.index == (if c.InServer? && Sets(ws, "index") then ws[1..] else s.index)
            && t.workerProcesses == (if c.Global? && Sets(ws, "worker_processes") then Workers(Some(ws[1]), cpus)
                                     else s.workerProcesses)
            && t.workerConnections == s.workerConnections
            && t.keepaliveTimeout == (if c.InServer? && Sets(ws, "keepalive_timeout") then Number(ws[1], USIZE_LIMIT)
                                      else s.keepaliveTimeout)
            && t.clientMaxBodySize == (if c.InServer? && Sets(ws, "client_max_body_size") then Some(ws[1])
                                       else s.clientMaxBodySize)
  {
    hide LineWords, LastValues, EveryValue, ContextAfter, Number, Firsts;
    ListenNext(p, line);
    LastNext(p, line, InServer, "server_name");
    LastNext(p, line, InServer, "root");
    LastNext(p, line, InServer, "index");
    LastNext(p, line, Global, "worker_processes");
    LastNext(p, line, InServer, "keepalive_timeout");
    LastNext(p, line, InServer, "client_max_body_size");
  }

  lemma LoggingNext(p: seq<string>, line: string)
    ensures var ws, c, a, b := LineWords(line), ContextAfter(p), LoggingOf(p), LoggingOf(p + [line]);
            b == Some(if c.InServer? && Sets(ws, "access_log") then a.value.(accessLog := Some(ws[1]))
                      else if c.Global? && Sets(ws, "error_log") then a.value.(errorLog := Some(ws[1])) else a.value)
  {
    hide LineWords, LastValues, ContextAfter;
    LastNext(p, line, InServer, "access_log");
    LastNext(p, line, Global, "error_log");
  }

  lemma SslNext(p: seq<string>, line: string)
    ensures var ws, a := LineWords(line), SslOf(p);
            SslOf(p + [line]) == if !ContextAfter(p).InServer? then a
                                 else if Sets(ws, "ssl_certificate") then WithCertificate(a, Some(ws[1]))
                                 else if Sets(ws, "ssl_certificate_key") then WithKey(a, Some(ws[1]))
                                 else if Sets(ws, "ssl_protocols") then WithProtocols(a, ws[1..]) else a
  {
    hide LineWords, LastValues, ContextAfter;
    LastNext(p, line, InServer, "ssl_certificate");
    LastNext(p, line, InServer, "ssl_certificate_key");
    LastNext(p, line, InServer, "ssl_protocols");
  }

  lemma LocationEffect(l: Location, ws: seq<string>)
    requires ws != []
    ensures ReadLocation(l, ws).Bad? <==> Sets(ws, "return") && Number(ws[1], U16_LIMIT).None?
    ensures ReadLocation(l, ws).Bad? ==> ReadLocation(l, ws).reason == "Invalid return code"
    ensures ReadLocation(l, ws).Good? ==>
              var m := ReadLocation(l, ws).value;
              && m.path == l.path
              && m.root == (if Sets(ws, "root") then Some(ws[1]) else l.root)
              && m.index == (if Sets(ws, "index") then Some(ws[1..]) else l.index)
              && m.proxyPass == (if Sets(ws, "proxy_pass") then Some(ws[1]) else l.proxyPass)
              && m.returnCode == (if Sets(ws, "return") then Number(ws[1], U16_LIMIT) else l.returnCode)
              && m.returnUrl == (if Sets(ws, "return") && |ws| > 2 then Some(ws[2]) else l.returnUrl)
              && m.tryFiles == (if Sets(ws, "try_files") then Some(ws[1..]) else l.tryFiles)
              && m.headers == (if Sets(ws, "add_header") && |ws| > 2 then
                                 Some(GetOr(l.headers, map[])[ws[1] := Join(ws[2..], ' ')]) else l.headers)
  {
    hide Number, Join;
  }

  lemma BlockLocationNext(p: seq<string>, line: string)
    requires !Closes(ContextAfter(p), line)
    ensures var ws, c, l, m := LineWords(line), ContextAfter(p), BlockLocation(p), BlockLocation(p + [line]);
            && m.path == (if OpensLocation(line) then ws[1] else l.path)
            && m.root == (if c.InLocation? && Sets(ws, "root") then Some(ws[1]) else l.root)
            && m.index == (if c.InLocation? && Sets(ws, "index") then Some(ws[1..]) else l.index)
            && m.proxyPass == (if c.InLocation? && Sets(ws, "proxy_pass") then Some(ws[1]) else l.proxyPass)
            && m.returnCode == (if c.InLocation? && Sets(ws, "return") then Number(ws[1], U16_LIMIT) else l.returnCode)
            && m.returnUrl == (if c.InLocation? && Sets(ws, "return") && |ws| > 2 then Some(ws[2]) else l.returnUrl)
            && m.tryFiles == (if c.InLocation? && Sets(ws, "try_files") then Some(ws[1..]) else l.tryFiles)
            && m.headers == (if c.InLocation? && Sets(ws, "add_header") && |ws| > 2 then
                               Some(GetOr(l.headers, map[])[ws[1] := Join(ws[2..], ' ')]) else l.headers)
  {
    hide LineWords, ContextAfter, BlockValues, BlockPath, BlockHeaders, Number, Join, Closes;
    PathNext(p, line);
    BlockNext(p, line, "root", 1);
    BlockNext(p, line, "index", 1);
    BlockNext(p, line, "proxy_pass", 1);
    BlockNext(p, line, "return", 1);
    BlockNext(p, line, "return", 2);
    BlockNext(p, line, "try_files", 1);
    HeadersNext(p, line);
  }

  lemma BlockEnds(p: seq<string>, line: string)
    requires Closes(ContextAfter(p), line)
    ensures BlockLocation(p + [line]) == NO_LOCATION
  {
    hide LineWords, ContextAfter, BlockValues, BlockPath, BlockHeaders, Number, Closes;
    PathNext(p, line);
    BlockNext(p, line, "root", 1);
    BlockNext(p, line, "index", 1);
    BlockNext(p, line, "proxy_pass", 1);
    BlockNext(p, line, "return", 1);
    BlockNext(p, line, "return", 2);
    BlockNext(p, line, "try_files", 1);
    HeadersNext(p, line);
  }

  lemma GlobalEffect(c: Config, ws: seq<string>, cpus: nat)
    requires ws != [] && c.logging.Some?
    ensures ReadGlobal(c, ws, cpus).Bad? <==>
              Sets(ws, "worker_processes") && ws[1] != "auto" && Number(ws[1], USIZE_LIMIT).None?
    ensures ReadGlobal(c, ws, cpus).Bad? ==> ReadGlobal(c, ws, cpus).reason == "Invalid worker_processes value"
    ensures ReadGlobal(c, ws, cpus).Good? ==>
              ReadGlobal(c, ws, cpus).value
              == c.(server := if Sets(ws, "worker_processes") then c.server.(workerProcesses := Workers(Some(ws[1]), cpus))
                              else c.server,
                    logging := if Sets(ws, "error_log") then Some(c.logging.value.(errorLog := Some(ws[1]))) else c.logging)
  {
    hide Number;
  }

  /** Inside a location there is a path. */
  lemma {:induction false} PathIsNamed(p: seq<string>)
    ensures ContextAfter(p).InLocation? ==> Word(BlockPath(p))
  {
    if p != [] {
      var early, line := p[..|p| - 1], p[|p| - 1];
      assert p == early + [line];
      PathIsNamed(early);
      LineIsWords(START, line, 0);
      hide LineWords, Word;
    }
  }

  lemma StructuralSetsNothing(ws: seq<string>)
    requires ws != [] && ws[0] in STRUCTURAL
    ensures !Sets(ws, "listen") && !Sets(ws, "server_name") && !Sets(ws, "root") && !Sets(ws, "index")
    ensures !Sets(ws, "worker_processes") && !Sets(ws, "keepalive_timeout") && !Sets(ws, "client_max_body_size")
    ensures !Sets(ws, "access_log") && !Sets(ws, "error_log") && !Sets(ws, "ssl_certificate")
    ensures !Sets(ws, "ssl_certificate_key") && !Sets(ws, "ssl_protocols") && !Sets(ws, "proxy_pass")
    ensures !Sets(ws, "return") && !Sets(ws, "try_files") && !Sets(ws, "add_header")
  {
  }

  // ---------------------------------------------------------------- one line

  /** Without words, or opening or closing a block: no setting changes. */
  lemma QuietLine(p: seq<string>, line: string, cpus: nat)
    requires LineWords(line) == [] || LineWords(line)[0] in STRUCTURAL
    ensures ConfigOf(p + [line], cpus) == ConfigOf(p, cpus).(locations := Locations(p + [line]))
    ensures !Closes(ContextAfter(p), line) ==>
              BlockLocation(p + [line])
              == BlockLocation(p).(path := if OpensLocation(line) then LineWords(line)[1] else BlockPath(p))
    ensures LineError(ContextAfter(p), line) == None
  {
    hide LineWords, ServerOf, LoggingOf, SslOf, Locations, Closes, OpensLocation, ContextAfter, Number, BlockPath;
    hide BlockValues, BlockHeaders, EveryValue, LastValues, WithCertificate, WithKey, WithProtocols, Workers;
    ServerNext(p, line, cpus);
    LoggingNext(p, line);
    SslNext(p, line);
    LoggingIsTold(p);
    if !Closes(ContextAfter(p), line) { BlockLocationNext(p, line); }
    if LineWords(line) != [] { StructuralSetsNothing(LineWords(line)); }
    QuietIsRight(ContextAfter(p), line);
    hide Sets;
  }

  lemma QuietIsRight(c: Context, line: string)
    requires LineWords(line) == [] || LineWords(line)[0] in STRUCTURAL
    ensures LineError(c, line) == None
  {
    hide LineWords, Number;
    if LineWords(line) != [] { StructuralSetsNothing(LineWords(line)); }
    ErrorIs(c, line);
  }

  /** The errors, said of the words. */
  lemma ErrorIs(c: Context, line: string)
    ensures var ws := LineWords(line);
            LineError(c, line)
            == if c.Global? && Sets(ws, "worker_processes") && ws[1] != "auto" && Number(ws[1], USIZE_LIMIT).None? then
                 Some("Invalid worker_processes value")
               else if c.InServer? && Sets(ws, "keepalive_timeout") && Number(ws[1], USIZE_LIMIT).None? then
                 Some("Invalid keepalive_timeout value")
               else if c.InLocation? && Sets(ws, "return") && Number(ws[1], U16_LIMIT).None? then Some("Invalid return code")
               else None
  {
    hide LineWords, Number;
  }

  lemma StructureLine(p: seq<string>, line: string, cpus: nat)
    requires LineWords(line) != [] && Structural(LineWords(line), '{' in line)
    ensures ReadStructure(StateOf(p, cpus), LineWords(line)) == StateOf(p + [line], cpus)
    ensures LineError(ContextAfter(p), line) == None
  {
    hide LineWords, ContextAfter, ConfigOf, BlockLocation, Locations, LineError, Word;
    QuietLine(p, line, cpus);
    ContextNext(p, line);
    LocationsNext(p, line);
    PathIsNamed(p);
    PathNotEmpty(p);
    ConfigLocations(p, cpus);
    if Closes(ContextAfter(p), line) { BlockEnds(p, line); }
  }

  lemma PathNotEmpty(p: seq<string>)
    ensures Word(BlockPath(p)) ==> BlockLocation(p).path != ""
    ensures BlockLocation(p).path == BlockPath(p)
  {
    hide BlockValues, BlockPath, BlockHeaders, Number;
  }

  lemma ConfigLocations(p: seq<string>, cpus: nat)
    ensures ConfigOf(p, cpus).locations == Locations(p)
  {
  }

  lemma GlobalLine(p: seq<string>, line: string, cpus: nat)
    requires ContextAfter(p).Global? && IsDirective(line)
    ensures ReadGlobal(ConfigOf(p, cpus), LineWords(line), cpus)
         == match LineError(Global, line) case Some(why) => Bad(why) case None => Good(ConfigOf(p + [line], cpus))
    ensures BlockLocation(p + [line]) == BlockLocation(p)
  {
    hide LineWords, ServerOf, SslOf, Locations, Closes, OpensLocation, ContextAfter, Number, ReadGlobal, Workers, LineError;
    hide BlockValues, BlockHeaders, BlockPath, EveryValue, LastValues, WithCertificate, WithKey, WithProtocols;
    hide Sets, Added, Join;
    ServerNext(p, line, cpus);
    LoggingNext(p, line);
    SslNext(p, line);
    DirectiveStays(Global, line);
    BlockLocationNext(p, line);
    LocationsNext(p, line);
    GlobalEffect(ConfigOf(p, cpus), LineWords(line), cpus);
    ErrorIs(Global, line);
  }

  lemma ServerLine(p: seq<string>, line: string, cpus: nat)
    requires ContextAfter(p).InServer? && IsDirective(line)
    ensures ReadServer(ConfigOf(p, cpus), LineWords(line))
         == match LineError(InServer, line) case Some(why) => Bad(why) case None => Good(ConfigOf(p + [line], cpus))
    ensures BlockLocation(p + [line]) == BlockLocation(p)
  {
    hide LineWords, ServerOf, LoggingOf, SslOf, Locations, Closes, OpensLocation, ContextAfter, Number, ReadServer;
    hide LineError, BlockValues, BlockHeaders, BlockPath, EveryValue, LastValues, WithCertificate, WithKey;
    hide WithProtocols, Sets, Added;
    hide Join, Workers;
    ServerNext(p, line, cpus);
    LoggingNext(p, line);
    SslNext(p, line);
    DirectiveStays(InServer, line);
    BlockLocationNext(p, line);
    LocationsNext(p, line);
    LoggingIsTold(p);
    ServerEffect(ConfigOf(p, cpus), LineWords(line));
    OtherServerEffect(ConfigOf(p, cpus), LineWords(line));
    ErrorIs(InServer, line);
  }

  lemma LoggingIsTold(p: seq<string>)
    ensures LoggingOf(p).Some?
  {
  }

  lemma LocationLine(p: seq<string>, line: string, cpus: nat)
    requires ContextAfter(p).InLocation? && IsDirective(line)
    ensures ReadLocation(BlockLocation(p), LineWords(line))
         == match LineError(InLocation, line) case Some(why) => Bad(why) case None => Good(BlockLocation(p + [line]))
    ensures ConfigOf(p + [line], cpus) == ConfigOf(p, cpus)
  {
    hide LineWords, ServerOf, LoggingOf, SslOf, Locations, Closes, OpensLocation, ContextAfter, Number, ReadLocation;
    hide LineError;
    hide BlockLocation, EveryValue, LastValues, WithCertificate, WithKey, WithProtocols, Sets, Added, Join, Workers;
    ServerNext(p, line, cpus);
    LoggingNext(p, line);
    SslNext(p, line);
    LoggingIsTold(p);
    DirectiveStays(InLocation, line);
    BlockLocationNext(p, line);
    LocationsNext(p, line);
    LocationEffect(BlockLocation(p), LineWords(line));
    ErrorIs(InLocation, line);
  }

  /** One more line: the reader goes from what the lines before it mean to what they mean with it. */
  lemma LineStep(p: seq<string>, line: string, cpus: nat)
    ensures ReadLine(StateOf(p, cpus), line, cpus)
         == match LineError(ContextAfter(p), line) case Some(why) => Bad(why) case None => Good(StateOf(p + [line], cpus))
  {
    hide LineWords, ContextAfter, ConfigOf, BlockLocation, LineError, ReadLine, ReadGlobal, ReadServer, ReadLocation;
    hide ReadStructure, Structural, Closes, OpensLocation;
    LineIsWords(StateOf(p, cpus), line, cpus);
    ContextNext(p, line);
    var ws := LineWords(line);
    if ws == [] {
      EmptyLine(p, line, cpus);
    } else if Structural(ws, '{' in line) {
      StructureLine(p, line, cpus);
    } else {
      DirectiveStays(ContextAfter(p), line);
      match ContextAfter(p)
      case Global => GlobalLine(p, line, cpus);
      case InServer => ServerLine(p, line, cpus);
      case InLocation => LocationLine(p, line, cpus);
    }
  }

  lemma EmptyLine(p: seq<string>, line: string, cpus: nat)
    requires LineWords(line) == []
    ensures StateOf(p + [line], cpus) == StateOf(p, cpus) && LineError(ContextAfter(p), line) == None
  {
    hide LineWords, ContextAfter, ConfigOf, BlockLocation, Locations, LineError;
    QuietLine(p, line, cpus);
    ContextNext(p, line);
    LocationsNext(p, line);
    PathNotEmpty(p);
    ConfigLocations(p, cpus);
  }

  // ---------------------------------------------------------------- whole texts

  lemma {:induction false} ReadLinesSnoc(s: State, ls: seq<string>, line: string, cpus: nat)
    ensures ReadLines(s, ls + [line], cpus)
         == match ReadLines(s, ls, cpus) case Bad(why) => Bad(why) case Good(t) => ReadLine(t, line, cpus)
    decreases |ls|
  {
    hide ReadLine;
    if ls == [] {
      assert ls + [line] == [line] && [line][1..] == [];
    } else {
      assert (ls + [line])[1..] == ls[1..] + [line];
      match ReadLine(s, ls[0], cpus) {
        case Bad(_) =>
        case Good(next) => ReadLinesSnoc(next, ls[1..], line, cpus);
      }
    }
  }

  lemma NothingRead(cpus: nat)
    ensures StateOf([], cpus) == START
  {
    assert ["80"][..0] == [] && ["80"] + [] == ["80"];
    assert Firsts(["80"]) == ["80"] by { OneFirst("80"); }
    hide Firsts;
  }

  /** The reader comes to what the lines mean, or stops at the first wrong number. */
  lemma {:induction false} LinesMean(ls: seq<string>, cpus: nat)
    ensures ReadLines(START, ls, cpus)
         == match FirstError(ls) case Some(why) => Bad(why) case None => Good(StateOf(ls, cpus))
  {
    hide StateOf, ReadLine, LineError, ContextAfter;
    if ls == [] {
      NothingRead(cpus);
    } else {
      var early, line := ls[..|ls| - 1], ls[|ls| - 1];
      assert ls == early + [line];
      LinesMean(early, cpus);
      ReadLinesSnoc(START, early, line, cpus);
      LineStep(early, line, cpus);
    }
  }

  lemma {:induction false} LocationsAreNamed(ls: seq<string>)
    ensures forall i :: 0 <= i < |Locations(ls)| ==> Locations(ls)[i].path != ""
  {
    hide BlockLocation, Closes, Word, BlockPath;
    if ls != [] {
      var early := ls[..|ls| - 1];
      LocationsAreNamed(early);
      PathIsNamed(early);
      PathNotEmpty(early);
      assert Closes(ContextAfter(early), ls[|ls| - 1]) ==> ContextAfter(early).InLocation? by {
        OnlyLocationsClose(ContextAfter(early), ls[|ls| - 1]);
      }
    }
  }

  lemma OnlyLocationsClose(c: Context, line: string)
    ensures Closes(c, line) ==> c.InLocation?
  {
    hide LineWords;
  }

  lemma {:induction false} ValuesAreWords(ls: seq<string>, where: Context, name: string)
    ensures Words(LastValues(ls, where, name))
  {
    hide LineWords, ContextAfter, Word;
    if ls != [] {
      ValuesAreWords(ls[..|ls| - 1], where, name);
      LineIsWords(START, ls[|ls| - 1], 0);
    }
  }

  /** Only the SSL section can be incomplete. */
  lemma MeaningIsValid(ls: seq<string>, cpus: nat)
    ensures Checked(ConfigOf(ls, cpus))
         == match SslOf(ls)
            case None => Good(ConfigOf(ls, cpus))
            case Some(v) =>
              if v.certificate == "" then Bad("SSL certificate path cannot be empty")
              else if v.privateKey == "" then Bad("SSL private key path cannot be empty")
              else Good(ConfigOf(ls, cpus))
  {
    hide LastValues, EveryValue, SslOf, LoggingOf, Firsts, Locations, Workers, Keepalive;
    FirstsHead("80", EveryValue(ls, InServer, "listen"));
    ValuesAreWords(ls, InServer, "root");
    LocationsAreNamed(ls);
    hide Word;
    assert LastValues(ls, InServer, "root") != [] ==> Word(LastValues(ls, InServer, "root")[0]);
    assert forall w :: Word(w) ==> w != "" by { WordsAreSome(); }
    forall l | l in Locations(ls) ensures l.path != "" {
      var i :| 0 <= i < |Locations(ls)| && l == Locations(ls)[i];
    }
  }

  lemma WordsAreSome()
    ensures forall w :: Word(w) ==> w != ""
  {
  }

  /** What a text says. It is refused exactly for a wrong number, the first one counting, or an SSL section without
      certificate or key; otherwise every setting has the value of the last line that sets it in its place, or its
      default, every address of a `listen` line is there once, and every closed location is there in order. */
  function Meaning(content: string, cpus: nat): Outcome<Config> {
    var ls := Lines(content);
    match FirstError(ls)
    case Some(why) => Bad(why)
    case None =>
      match SslOf(ls)
      case None => Good(ConfigOf(ls, cpus))
      case Some(v) =>
        if v.certificate == "" then Bad("SSL certificate path cannot be empty")
        else if v.privateKey == "" then Bad("SSL private key path cannot be empty")
        else Good(ConfigOf(ls, cpus))
  }

  /** The reader reads what the text says. */
  lemma TextMeans(content: string, cpus: nat)
    ensures Parse(content, cpus) == Meaning(content, cpus)
  {
    hide Lines, ReadLines, ConfigOf, FirstError, Validate, SslOf;
    LinesMean(Lines(content), cpus);
    MeaningIsValid(Lines(content), cpus);
  }

  // ---------------------------------------------------------------- single lines that are never printed

  lemma UnprintedNames()
    ensures Plain("client_max_body_size") && Plain("keepalive_timeout")
  {
  }

  lemma GlobalNames()
    ensures Plain("error_log") && Plain("worker_processes")
  {
  }

  /** A written line is read as a directive with its name and the words of its value. */
  lemma WrittenLine(s: State, indent: string, name: string, value: string, cpus: nat)
    requires Indent(indent) && Plain(name)
    ensures var line := indent + (name + " " + value + ";");
            ReadLine(s, line, cpus) == ReadParts(s, [name] + WordsOf([value]), '{' in line, cpus)
            && !Structural([name] + WordsOf([value]), '{' in line)
  {
    var line := indent + (name + " " + value + ";");
    assert RowText(Setting(indent, name, [value])) == line;
    PrintedWords(indent, name, [value]);
    LineIsWords(s, line, cpus);
    hide LineWords, WordsOf, ReadParts, Plain;
    PlainIsNotStructural(name);
  }

  lemma PlainIsNotStructural(name: string)
    requires Plain(name)
    ensures name !in STRUCTURAL
  {
  }

  /** In a server block `client_max_body_size v;` sets that setting to the first word of v, if there is one, and changes
      nothing else. */
  lemma BodySizeLine(s: State, indent: string, v: string, cpus: nat)
    requires Indent(indent) && s.context.InServer?
    ensures ReadLine(s, indent + ("client_max_body_size " + v + ";"), cpus)
         == Good(if FirstWord(v).None? then s
                 else s.(config := s.config.(server := s.config.server.(clientMaxBodySize := FirstWord(v)))))
  {
    UnprintedNames();
    WrittenLine(s, indent, "client_max_body_size", v, cpus);
    assert "client_max_body_size" + " " + v + ";" == "client_max_body_size " + v + ";";
    hide WordsOf, ReadLine, Number;
  }

  /** So does `keepalive_timeout` with a number; with another word the text is refused. */
  lemma KeepaliveLine(s: State, indent: string, v: string, cpus: nat)
    requires Indent(indent) && s.context.InServer? && FirstWord(v).Some?
    ensures var n := Number(FirstWord(v).value, USIZE_LIMIT);
            ReadLine(s, indent + ("keepalive_timeout " + v + ";"), cpus)
            == if n.None? then Bad("Invalid keepalive_timeout value")
               else Good(s.(config := s.config.(server := s.config.server.(keepaliveTimeout := n))))
  {
    UnprintedNames();
    WrittenLine(s, indent, "keepalive_timeout", v, cpus);
    assert "keepalive_timeout" + " " + v + ";" == "keepalive_timeout " + v + ";";
    hide WordsOf, ReadLine, Number;
  }

  /** Outside any block `error_log` sets the error log. */
  lemma ErrorLogLine(s: State, indent: string, v: string, cpus: nat)
    requires Indent(indent) && s.context.Global? && s.config.logging.Some? && FirstWord(v).Some?
    ensures ReadLine(s, indent + ("error_log " + v + ";"), cpus)
         == Good(s.(config := s.config.(logging := Some(s.config.logging.value.(errorLog := FirstWord(v))))))
  {
    GlobalNames();
    WrittenLine(s, indent, "error_log", v, cpus);
    assert "error_log" + " " + v + ";" == "error_log " + v + ";";
    hide WordsOf, ReadLine, Number;
  }

  /** And `worker_processes auto` takes the number of processors. */
  lemma WorkersLine(s: State, indent: string, v: string, cpus: nat)
    requires Indent(indent) && s.context.Global? && FirstWord(v) == Some("auto")
    ensures ReadLine(s, indent + ("worker_processes " + v + ";"), cpus)
         == Good(s.(config := s.config.(server := s.config.server.(workerProcesses := Some(cpus)))))
  {
    GlobalNames();
    WrittenLine(s, indent, "worker_processes", v, cpus);
    assert "worker_processes" + " " + v + ";" == "worker_processes " + v + ";";
    hide WordsOf, ReadLine, Number;
  }

  // ---------------------------------------------------------------- numbers

  function Zeros(k: nat): string {
    seq(k, _ => '0')
  }

  lemma {:induction false} ReadZeros(k: nat, t: string)
    ensures ReadDigits(Zeros(k) + t, 0) == ReadDigits(t, 0)
  {
    if k > 0 {
      ReadZeros(k - 1, t);
      assert (Zeros(k) + t)[1..] == Zeros(k - 1) + t;
    } else {
      assert Zeros(0) + t == t;
    }
  }

  /** Digits are some zeros and then the number they denote. */
  lemma {:induction false} Canonical(d: string) returns (k: nat)
    requires d != "" && AllDigits(d)
    ensures d == Zeros(k) + Digits(ReadDigits(d, 0))
  {
    var e, c := d[..|d| - 1], d[|d| - 1];
    var digit := c as int - '0' as int;
    assert d == e + [c];
    assert [c][1..] == "";
    ReadDigitsAppend(e, [c], 0);
    hide Digits, ReadDigits;
    if e == "" {
      OneDigit(c, 0);
      k := 0;
      assert Zeros(0) + [c] == d;
    } else {
      k := Canonical(e);
      var v := ReadDigits(e, 0);
      OneDigit(c, v);
      if v == 0 {
        assert Zeros(k) + "0" == Zeros(k + 1);
        k := k + 1;
      } else {
        assert Zeros(k) + (Digits(v) + [c]) == (Zeros(k) + Digits(v)) + [c];
      }
    }
  }

  lemma OneDigit(c: char, v: nat)
    requires IsDigit(c)
    ensures ReadDigits("", v) == v && ReadDigits([c], v) == 10 * v + (c as int - '0' as int)
    ensures Digits(c as int - '0' as int) == [c] && Digits(0) == "0"
    ensures v > 0 ==> Digits(10 * v + (c as int - '0' as int)) == Digits(v) + [c]
  {
    assert [c][1..] == "";
    var d := c as int - '0' as int;
    assert (10 * v + d) / 10 == v && (10 * v + d) % 10 == d;
  }

  /** What is taken for a number: an optional plus sign, any zeros, and the digits of a number in range. */
  lemma NumberExactlyWhen(s: string, limit: nat, n: nat)
    ensures Number(s, limit) == Some(n) <==>
              n < limit && exists k: nat :: s == Zeros(k) + Digits(n) || s == "+" + (Zeros(k) + Digits(n))
  {
    hide Digits, ReadDigits;
    var digits := if s != "" && s[0] == '+' then s[1..] else s;
    if Number(s, limit) == Some(n) {
      var k := Canonical(digits);
      assert s == digits || s == "+" + digits;
    }
    forall k: nat | n < limit && (s == Zeros(k) + Digits(n) || s == "+" + (Zeros(k) + Digits(n)))
      ensures Number(s, limit) == Some(n)
    {
      var t := Zeros(k) + Digits(n);
      assert AllDigits(t) && t != "";
      assert t[0] != '+' by { assert IsDigit(t[0]); }
      assert digits == t;
      ReadZeros(k, Digits(n));
      ReadDigitsExact(n);
    }
  }
}
