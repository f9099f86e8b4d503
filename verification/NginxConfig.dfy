/** The nginx-style configuration: its data, what is printed for it, and what is read from a text. */
module NginxConfig {
  import opened Options
  import opened Text

  // ---------------------------------------------------------------- data

  const USIZE_LIMIT: nat := 0x1_0000_0000_0000_0000
  const U16_LIMIT: nat := 0x1_0000

  datatype Server = Server(
    listen: seq<string>, serverName: Option<string>, root: string, index: seq<string>, workerProcesses: Option<nat>,
    workerConnections: Option<nat>, keepaliveTimeout: Option<nat>, clientMaxBodySize: Option<string>)

  datatype Logging = Logging(accessLog: Option<string>, errorLog: Option<string>, logLevel: Option<string>)

  datatype Ssl = Ssl(certificate: string, privateKey: string, protocols: seq<string>, ciphers: Option<string>)

  /** The `proxy` and `cache` sections are never printed and never read. */
  datatype Untouched = Untouched(summary: string)

  datatype Location = Location(
    path: string, root: Option<string>, index: Option<seq<string>>, proxyPass: Option<string>, returnCode: Option<nat>,
    returnUrl: Option<string>, tryFiles: Option<seq<string>>, headers: Option<map<string, string>>)

  datatype Config = Config(
    server: Server, logging: Option<Logging>, ssl: Option<Ssl>, proxy: Option<Untouched>, cache: Option<Untouched>,
    locations: seq<Location>)

  const DEFAULT_INDEX := ["index.html", "index.htm"]
  const DEFAULT_PROTOCOLS := ["TLSv1.2", "TLSv1.3"]
  const DEFAULT_SERVER := Server(["80"], None, "/var/www/html", DEFAULT_INDEX, Some(1), Some(1024), Some(65), Some("1M"))
  const DEFAULT_LOGGING :=
    Logging(Some("/var/log/anx/access.log"), Some("/var/log/anx/error.log"), Some("info"))
  const DEFAULT := Config(DEFAULT_SERVER, Some(DEFAULT_LOGGING), None, None, None, [])
  const NO_LOCATION := Location("", None, None, None, None, None, None, None)

  datatype Outcome<+T> = Good(value: T) | Bad(reason: string)

  function Validate(c: Config): Outcome<()> {
    if c.server.listen == [] then Bad("Server must have at least one listen address")
    else if c.server.root == "" then Bad("Server root directory cannot be empty")
    else if c.server.index == [] then Bad("Server must have at least one index file")
    else if c.ssl.Some? && c.ssl.value.certificate == "" then Bad("SSL certificate path cannot be empty")
    else if c.ssl.Some? && c.ssl.value.privateKey == "" then Bad("SSL private key path cannot be empty")
    else if exists l :: l in c.locations && l.path == "" then Bad("Location path cannot be empty")
    else Good(())
  }

  // ---------------------------------------------------------------- characters and words

  /** The Unicode White_Space property. */
  predicate IsSpace(c: char) {
    var n := c as int;
    || 0x9 <= n <= 0xD || n == 0x20 || n == 0x85 || n == 0xA0 || n == 0x1680 || 0x2000 <= n <= 0x200A
    || n == 0x2028 || n == 0x2029 || n == 0x202F || n == 0x205F || n == 0x3000
  }

  predicate SpaceFree(s: string) {
    forall i :: 0 <= i < |s| ==> !IsSpace(s[i])
  }

  function TrimStart(s: string): (r: string)
    ensures |r| <= |s| && (r == "" || !IsSpace(r[0]))
  {
    if s != "" && IsSpace(s[0]) then TrimStart(s[1..]) else s
  }

  function TrimEnd(s: string): string {
    if s != "" && IsSpace(s[|s| - 1]) then TrimEnd(s[..|s| - 1]) else s
  }

  /** `trim_end_matches(';')`. */
  function TrimSemicolons(s: string): string {
    if s != "" && s[|s| - 1] == ';' then TrimSemicolons(s[..|s| - 1]) else s
  }

  function WordLength(s: string): (n: nat)
    ensures n <= |s|
  {
    if s == "" || IsSpace(s[0]) then 0 else 1 + WordLength(s[1..])
  }

  /** `split_whitespace`. */
  function Fields(s: string): seq<string>
    decreases |s|
  {
    var t := TrimStart(s);
    if t == "" then []
    else
      assert WordLength(t) > 0;
      [t[..WordLength(t)]] + Fields(t[WordLength(t)..])
  }

  function Newline(s: string): (k: nat)
    ensures k <= |s|
  {
    if s == "" || s[0] == '\n' then 0 else 1 + Newline(s[1..])
  }

  /** `lines`: the final line end is optional, and a CR before a line feed belongs to the line end. */
  function Lines(s: string): seq<string>
    decreases |s|
  {
    if s == "" then []
    else
      var k := Newline(s);
      if k == |s| then [s]
      else [if k > 0 && s[k - 1] == '\r' then s[..k - 1] else s[..k]] + Lines(s[k + 1..])
  }

  predicate AllDigits(s: string) {
    forall i :: 0 <= i < |s| ==> IsDigit(s[i])
  }

  /** `parse::<usize>()` and `parse::<u16>()`: an optional plus sign, at least one digit, a value in range. */
  function Number(s: string, limit: nat): Option<nat> {
    var digits := if s != "" && s[0] == '+' then s[1..] else s;
    if digits == "" || !AllDigits(digits) then None
    else if ReadDigits(digits, 0) < limit then Some(ReadDigits(digits, 0))
    else None
  }

  // ---------------------------------------------------------------- reading

  datatype Context = Global | InServer | InLocation

  datatype State = State(config: Config, context: Context, location: Location)

  const START := State(DEFAULT, Global, NO_LOCATION)

  function ReadGlobal(c: Config, parts: seq<string>, cpus: nat): Outcome<Config>
    requires parts != []
  {
    if |parts| < 2 then Good(c)
    else match parts[0]
      case "worker_processes" =>
        if parts[1] == "auto" then Good(c.(server := c.server.(workerProcesses := Some(cpus))))
        else
          var n := Number(parts[1], USIZE_LIMIT);
          if n.None? then Bad("Invalid worker_processes value") else Good(c.(server := c.server.(workerProcesses := n)))
      case "error_log" =>
        var logging := if c.logging.None? then Logging(None, None, None) else c.logging.value;
        Good(c.(logging := Some(logging.(errorLog := Some(parts[1])))))
      case _ => Good(c)
  }

  /** The SSL section a first SSL directive starts from. */
  function SslOf(c: Config): Ssl {
    if c.ssl.None? then Ssl("", "", DEFAULT_PROTOCOLS, None) else c.ssl.value
  }

  function ReadServer(c: Config, parts: seq<string>): Outcome<Config>
    requires parts != []
  {
    if |parts| < 2 then Good(c)
    else match parts[0]
      case "listen" =>
        Good(if parts[1] in c.server.listen then c else c.(server := c.server.(listen := c.server.listen + [parts[1]])))
      case "server_name" => Good(c.(server := c.server.(serverName := Some(parts[1]))))
      case "root" => Good(c.(server := c.server.(root := parts[1])))
      case "index" => Good(c.(server := c.server.(index := parts[1..])))
      case "keepalive_timeout" =>
        var n := Number(parts[1], USIZE_LIMIT);
        if n.None? then Bad("Invalid keepalive_timeout value") else Good(c.(server := c.server.(keepaliveTimeout := n)))
      case "client_max_body_size" => Good(c.(server := c.server.(clientMaxBodySize := Some(parts[1]))))
      case "access_log" =>
        var logging := if c.logging.None? then Logging(None, None, None) else c.logging.value;
        Good(c.(logging := Some(logging.(accessLog := Some(parts[1])))))
      case "ssl_certificate" => Good(c.(ssl := Some(SslOf(c).(certificate := parts[1]))))
      case "ssl_certificate_key" => Good(c.(ssl := Some(SslOf(c).(privateKey := parts[1]))))
      case "ssl_protocols" => Good(c.(ssl := Some(SslOf(c).(protocols := parts[1..]))))
      case _ => Good(c)
  }

  function ReadLocation(l: Location, parts: seq<string>): Outcome<Location>
    requires parts != []
  {
    if |parts| < 2 then Good(l)
    else match parts[0]
      case "root" => Good(l.(root := Some(parts[1])))
      case "index" => Good(l.(index := Some(parts[1..])))
      case "proxy_pass" => Good(l.(proxyPass := Some(parts[1])))
      case "return" =>
        var n := Number(parts[1], U16_LIMIT);
        if n.None? then Bad("Invalid return code")
        else Good(l.(returnCode := n, returnUrl := if |parts| >= 3 then Some(parts[2]) else l.returnUrl))
      case "try_files" => Good(l.(tryFiles := Some(parts[1..])))
      case "add_header" =>
        if |parts| < 3 then Good(l)
        else
          var headers := if l.headers.None? then map[] else l.headers.value;
          Good(l.(headers := Some(headers[parts[1] := Join(parts[2..], ' ')])))
      case _ => Good(l)
  }

  /** The directives that open or close a block, wherever they stand. */
  predicate Structural(parts: seq<string>, brace: bool)
    requires parts != []
  {
    || parts[0] == "}"
    || (brace && (parts[0] in ["server", "events", "http"] || (parts[0] == "location" && |parts| >= 2)))
  }

  function ReadStructure(s: State, parts: seq<string>): State
    requires parts != []
  {
    match parts[0]
    case "server" => s.(context := InServer)
    case "location" =>
      if |parts| >= 2 then s.(context := InLocation, location := s.location.(path := parts[1])) else s
    case "}" =>
      (match s.context
       case InServer => s.(context := Global)
       case InLocation =>
         if s.location.path == "" then s.(context := InServer)
         else State(s.config.(locations := s.config.locations + [s.location]), InServer, NO_LOCATION)
       case Global => s)
    case _ => s
  }

  function ReadParts(s: State, parts: seq<string>, brace: bool, cpus: nat): Outcome<State> {
    if parts == [] then Good(s)
    else if Structural(parts, brace) then Good(ReadStructure(s, parts))
    else match s.context
      case Global =>
        (match ReadGlobal(s.config, parts, cpus)
         case Bad(why) => Bad(why)
         case Good(c) => Good(s.(config := c)))
      case InServer =>
        (match ReadServer(s.config, parts)
         case Bad(why) => Bad(why)
         case Good(c) => Good(s.(config := c)))
      case InLocation =>
        (match ReadLocation(s.location, parts)
         case Bad(why) => Bad(why)
         case Good(l) => Good(s.(location := l)))
  }

  function ReadLine(s: State, line: string, cpus: nat): Outcome<State> {
    var trimmed := TrimEnd(TrimStart(line));
    if trimmed == "" || trimmed[0] == '#' then Good(s)
    else
      var text := TrimSemicolons(trimmed);
      ReadParts(s, Fields(text), '{' in text, cpus)
  }

  function ReadLines(s: State, lines: seq<string>, cpus: nat): Outcome<State>
    decreases |lines|
  {
    if lines == [] then Good(s)
    else match ReadLine(s, lines[0], cpus)
      case Bad(why) => Bad(why)
      case Good(next) => ReadLines(next, lines[1..], cpus)
  }

  /** `parse_nginx_config`. */
  function Parse(content: string, cpus: nat): Outcome<Config> {
    match ReadLines(START, Lines(content), cpus)
    case Bad(why) => Bad(why)
    case Good(s) => (match Validate(s.config) case Bad(why) => Bad(why) case Good(_) => Good(s.config))
  }

  // ---------------------------------------------------------------- printing

  datatype Row =
    | Blank
    | Opening(indent: string, words: seq<string>)
    | Closing(indent: string)
    | Setting(indent: string, name: string, args: seq<string>)

  const I4 := "    "
  const I8 := "        "
  const I12 := "            "

  function RowText(row: Row): string {
    match row
    case Blank => ""
    case Opening(indent, words) => indent + (Join(words, ' ') + " {")
    case Closing(indent) => indent + "}"
    case Setting(indent, name, args) => indent + (name + " " + Join(args, ' ') + ";")
  }

  function RowsText(rows: seq<Row>): string {
    if rows == [] then "" else RowText(rows[0]) + "\n" + RowsText(rows[1..])
  }

  /** A line for a value that is there, none for one that is not. */
  function Maybe(indent: string, name: string, value: Option<string>): seq<Row> {
    if value.None? then [] else [Setting(indent, name, [value.value])]
  }

  function MaybeList(indent: string, name: string, value: Option<seq<string>>): seq<Row> {
    if value.None? then [] else [Setting(indent, name, value.value)]
  }

  function GlobalRows(s: Server): seq<Row> {
    (if s.workerProcesses.None? then [] else [Setting("", "worker_processes", [Digits(s.workerProcesses.value)])])
    + (if s.workerConnections.None? then []
       else [Opening("", ["events"]), Setting(I4, "worker_connections", [Digits(s.workerConnections.value)]), Closing(""),
             Blank])
    + [Opening("", ["http"]), Opening(I4, ["server"])]
  }

  function ListenRows(listen: seq<string>): seq<Row> {
    if listen == [] then [] else [Setting(I8, "listen", [listen[0]])] + ListenRows(listen[1..])
  }

  function SiteRows(s: Server): seq<Row> {
    Maybe(I8, "server_name", s.serverName) + [Setting(I8, "root", [s.root]), Setting(I8, "index", s.index)]
  }

  function SslRows(ssl: Option<Ssl>): seq<Row> {
    if ssl.None? then []
    else [Setting(I8, "ssl_certificate", [ssl.value.certificate]),
          Setting(I8, "ssl_certificate_key", [ssl.value.privateKey]),
          Setting(I8, "ssl_protocols", ssl.value.protocols)]
         + Maybe(I8, "ssl_ciphers", ssl.value.ciphers)
  }

  function LoggingRows(logging: Option<Logging>): seq<Row> {
    if logging.None? then []
    else Maybe(I8, "access_log", logging.value.accessLog) + Maybe(I8, "error_log", logging.value.errorLog)
  }

  function ReturnRows(l: Location): seq<Row> {
    if l.returnCode.None? then []
    else [Setting(I12, "return",
                  [Digits(l.returnCode.value)] + (if l.returnUrl.Some? then [l.returnUrl.value] else []))]
  }

  /** An order in which the header table may be walked. */
  ghost predicate OrderOf(headers: Option<map<string, string>>, order: seq<string>) {
    && (headers.None? ==> order == [])
    && (headers.Some? ==> forall k :: k in order <==> k in headers.value)
    && forall i, j :: 0 <= i < j < |order| ==> order[i] != order[j]
  }

  function HeaderRows(headers: map<string, string>, order: seq<string>): seq<Row>
    requires forall k :: k in order ==> k in headers
  {
    if order == [] then []
    else [Setting(I12, "add_header", [order[0], headers[order[0]]])] + HeaderRows(headers, order[1..])
  }

  ghost function TableRows(headers: Option<map<string, string>>, order: seq<string>): seq<Row>
    requires OrderOf(headers, order)
  {
    if headers.None? then [] else HeaderRows(headers.value, order)
  }

  function FileRows(l: Location): seq<Row> {
    Maybe(I12, "root", l.root) + MaybeList(I12, "index", l.index) + Maybe(I12, "proxy_pass", l.proxyPass)
  }

  ghost function LocationRows(l: Location, order: seq<string>): seq<Row>
    requires OrderOf(l.headers, order)
  {
    [Opening(I8, ["location", l.path])] + FileRows(l) + ReturnRows(l) + MaybeList(I12, "try_files", l.tryFiles)
    + TableRows(l.headers, order) + [Closing(I8)]
  }

  ghost predicate OrdersOf(locations: seq<Location>, orders: seq<seq<string>>) {
    |orders| == |locations| && forall i :: 0 <= i < |locations| ==> OrderOf(locations[i].headers, orders[i])
  }

  ghost function LocationsRows(locations: seq<Location>, orders: seq<seq<string>>): seq<Row>
    requires OrdersOf(locations, orders)
  {
    if locations == [] then []
    else LocationRows(locations[0], orders[0]) + LocationsRows(locations[1..], orders[1..])
  }

  function HeadRows(c: Config): seq<Row> {
    GlobalRows(c.server) + ListenRows(c.server.listen) + SiteRows(c.server) + SslRows(c.ssl) + LoggingRows(c.logging)
  }

  ghost function Rows(c: Config, orders: seq<seq<string>>): seq<Row>
    requires OrdersOf(c.locations, orders)
  {
    HeadRows(c) + LocationsRows(c.locations, orders) + [Closing(I4), Closing("")]
  }

  /** What `to_nginx_config` returns when it walks the header tables in these orders. */
  ghost function Print(c: Config, orders: seq<seq<string>>): string
    requires OrdersOf(c.locations, orders)
  {
    RowsText(Rows(c, orders))
  }
}
