/** A configuration file as it is written: blocks whose items stand in any order, their tokens, and the tree they
    describe. */
module ConfigText {
  import opened Options
  import opened Text
  import opened ConfigLexer
  import opened ConfigSyntax

  // ---------------------------------------------------------------- what is written

  /** An item of a block: a directive or an inner block. */
  datatype Item<+B> = Plain(directive: Directive) | Inner(block: B)

  datatype Kind = Weight | MaxFails | FailTimeout | MaxConns

  /** A parameter of an upstream server: a number with whatever unit follows it, or a word the parser does not know. */
  datatype Param = Known(kind: Kind, value: int, unit: CString) | Unknown(word: CString)

  datatype PeerLine = PeerLine(host: CString, port: Option<int>, params: seq<Param>)

  datatype HttpBlock =
    | ServerBlock(body: seq<Item<Location>>)
    | UpstreamBlock(name: CString, members: seq<Item<PeerLine>>)

  /** Outside the http section every token is skipped by itself. */
  datatype Section = Skipped(token: CString) | HttpSection(items: seq<Item<HttpBlock>>)

  // ---------------------------------------------------------------- its tokens

  const OPEN: CString := "{"
  const CLOSE: CString := "}"
  const SEMICOLON: CString := ";"
  const HTTP: CString := "http"
  const SERVER: CString := "server"
  const UPSTREAM: CString := "upstream"
  const LOCATION: CString := "location"
  const COLON: CString := ":"
  const WEIGHT: CString := "weight="
  const MAX_FAILS: CString := "max_fails="
  const FAIL_TIMEOUT: CString := "fail_timeout="
  const MAX_CONNS: CString := "max_conns="

  function DirectiveTokens(d: Directive): seq<CString> {
    [d.key] + (match d.value case None => [] case Some(v) => Split<CChar>(v, SPACE)) + [SEMICOLON]
  }

  function ItemTokens<B>(item: Item<B>, inner: B -> seq<CString>): seq<CString> {
    match item
    case Plain(d) => DirectiveTokens(d)
    case Inner(b) => inner(b)
  }

  function ItemsTokens<B>(items: seq<Item<B>>, inner: B -> seq<CString>): seq<CString> {
    if items == [] then [] else ItemTokens(items[0], inner) + ItemsTokens(items[1..], inner)
  }

  function Plainly(ds: seq<Directive>): (items: seq<Item<()>>)
    ensures |items| == |ds|
  {
    seq(|ds|, i requires 0 <= i < |ds| => Plain(ds[i]))
  }

  function NoBlock(u: ()): seq<CString> { [] }

  function LocationTokens(l: Location): seq<CString> {
    [LOCATION, l.path, OPEN] + (ItemsTokens(Plainly(l.directives), NoBlock) + [CLOSE])
  }

  function Prefix(kind: Kind): CString {
    match kind
    case Weight => WEIGHT
    case MaxFails => MAX_FAILS
    case FailTimeout => FAIL_TIMEOUT
    case MaxConns => MAX_CONNS
  }

  function ParamToken(p: Param): CString {
    match p
    case Known(kind, value, unit) => Prefix(kind) + (Decimal(value) + unit)
    case Unknown(word) => word
  }

  function ParamsTokens(ps: seq<Param>): seq<CString> {
    if ps == [] then [] else [ParamToken(ps[0])] + ParamsTokens(ps[1..])
  }

  function AddressToken(line: PeerLine): CString {
    line.host + (match line.port case None => [] case Some(port) => COLON + Decimal(port))
  }

  function PeerTokens(line: PeerLine): seq<CString> {
    [SERVER, AddressToken(line)] + (ParamsTokens(line.params) + [SEMICOLON])
  }

  function BlockTokens(b: HttpBlock): seq<CString> {
    match b
    case ServerBlock(body) => [SERVER, OPEN] + (ItemsTokens(body, LocationTokens) + [CLOSE])
    case UpstreamBlock(name, members) => [UPSTREAM, name, OPEN] + (ItemsTokens(members, PeerTokens) + [CLOSE])
  }

  function SectionTokens(s: Section): seq<CString> {
    match s
    case Skipped(t) => [t]
    case HttpSection(items) => [HTTP, OPEN] + (ItemsTokens(items, BlockTokens) + [CLOSE])
  }

  function FileTokens(file: seq<Section>): seq<CString> {
    if file == [] then [] else SectionTokens(file[0]) + FileTokens(file[1..])
  }

  // ---------------------------------------------------------------- the tree it describes, in file order

  function Plains<B>(items: seq<Item<B>>): seq<Directive> {
    if items == [] then [] else (if items[0].Plain? then [items[0].directive] else []) + Plains(items[1..])
  }

  function Inners<B>(items: seq<Item<B>>): seq<B> {
    if items == [] then [] else (if items[0].Inner? then [items[0].block] else []) + Inners(items[1..])
  }

  /** The last parameter of a kind counts. */
  function LastOf(kind: Kind, ps: seq<Param>, default: int): int {
    if ps == [] then default
    else
      var p := ps[|ps| - 1];
      if p.Known? && p.kind == kind then p.value else LastOf(kind, ps[..|ps| - 1], default)
  }

  function PeerOf(line: PeerLine): Peer {
    Peer(line.host, if line.port.Some? then line.port.value else 80,
         LastOf(Weight, line.params, 1), LastOf(MaxFails, line.params, 3), LastOf(FailTimeout, line.params, 30),
         LastOf(MaxConns, line.params, 1000))
  }

  function PeersOf(lines: seq<PeerLine>): (r: seq<Peer>)
    ensures |r| == |lines|
  {
    seq(|lines|, i requires 0 <= i < |lines| => PeerOf(lines[i]))
  }

  function ServersOf(blocks: seq<HttpBlock>): seq<Server> {
    if blocks == [] then []
    else (if blocks[0].ServerBlock? then [Server(Plains(blocks[0].body), Inners(blocks[0].body))] else [])
         + ServersOf(blocks[1..])
  }

  function UpstreamsOf(blocks: seq<HttpBlock>): seq<Upstream> {
    if blocks == [] then []
    else (if blocks[0].UpstreamBlock?
          then [Upstream(blocks[0].name, Plains(blocks[0].members), PeersOf(Inners(blocks[0].members)))] else [])
         + UpstreamsOf(blocks[1..])
  }

  function HttpOf(items: seq<Item<HttpBlock>>): Http {
    Http(Plains(items), ServersOf(Inners(items)), UpstreamsOf(Inners(items)))
  }

  /** The last http section counts. */
  function TreeOf(file: seq<Section>): Option<Http> {
    if file == [] then None
    else
      var last := file[|file| - 1];
      if last.HttpSection? then Some(HttpOf(last.items)) else TreeOf(file[..|file| - 1])
  }

  // ---------------------------------------------------------------- well-formed files

  predicate Words(ws: seq<CString>) {
    forall i :: 0 <= i < |ws| ==> Word(ws[i])
  }

  /** A word as key, none of the block keywords of its block, and a value that fits the buffer. */
  predicate WfDirective(d: Directive, keywords: set<string>) {
    && Word(d.key) && d.key !in keywords
    && (d.value.Some? ==> |d.value.value| <= VALUE_ROOM && Words(Split<CChar>(d.value.value, SPACE)))
  }

  predicate WfLocation(l: Location) {
    Word(l.path) && forall i :: 0 <= i < |l.directives| ==> WfDirective(l.directives[i], {})
  }

  predicate WfParam(p: Param) {
    match p
    case Known(_, _, unit) => EndsNumber(unit) && forall i :: 0 <= i < |unit| ==> !Stops(unit[i])
    case Unknown(word) => Word(word) && forall kind :: !(Prefix(kind) <= word)
  }

  predicate WfPeer(line: PeerLine) {
    && Word(line.host + COLON) && (line.port.None? ==> line.host != [])
    && (forall i :: 0 <= i < |line.host| ==> line.host[i] != ':')
    && forall i :: 0 <= i < |line.params| ==> WfParam(line.params[i])
  }

  predicate WfServerItem(item: Item<Location>) {
    match item case Plain(d) => WfDirective(d, {"location"}) case Inner(l) => WfLocation(l)
  }

  predicate WfUpstreamItem(item: Item<PeerLine>) {
    match item case Plain(d) => WfDirective(d, {"server"}) case Inner(line) => WfPeer(line)
  }

  predicate WfBlock(b: HttpBlock) {
    match b
    case ServerBlock(body) => forall i :: 0 <= i < |body| ==> WfServerItem(body[i])
    case UpstreamBlock(name, members) => Word(name) && forall i :: 0 <= i < |members| ==> WfUpstreamItem(members[i])
  }

  predicate WfHttpItem(item: Item<HttpBlock>) {
    match item case Plain(d) => WfDirective(d, {"server", "upstream"}) case Inner(b) => WfBlock(b)
  }

  predicate WfSection(s: Section) {
    match s
    case Skipped(t) => Token(t) && t != "http"
    case HttpSection(items) => forall i :: 0 <= i < |items| ==> WfHttpItem(items[i])
  }

  predicate WfFile(file: seq<Section>) {
    forall i :: 0 <= i < |file| ==> WfSection(file[i])
  }

  // ---------------------------------------------------------------- what the parser's head insertion does

  function LoadedServer(s: Server): Server {
    s.(locations := Reverse(s.locations))
  }

  function LoadedUpstream(u: Upstream): Upstream {
    u.(servers := Reverse(u.servers))
  }

  function LoadedServers(ss: seq<Server>): (r: seq<Server>)
    ensures |r| == |ss|
  {
    seq(|ss|, i requires 0 <= i < |ss| => LoadedServer(ss[i]))
  }

  function LoadedUpstreams(us: seq<Upstream>): (r: seq<Upstream>)
    ensures |r| == |us|
  {
    seq(|us|, i requires 0 <= i < |us| => LoadedUpstream(us[i]))
  }

  /** The tree in memory for a tree in file order: every linked list is reversed, directives keep their order. */
  function Loaded(h: Http): Http {
    Http(h.directives, Reverse(LoadedServers(h.servers)), Reverse(LoadedUpstreams(h.upstreams)))
  }

  function LoadedTree(h: Option<Http>): Option<Http> {
    match h case None => None case Some(h) => Some(Loaded(h))
  }
}
