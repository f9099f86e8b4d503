/** The configuration tree in memory, and what the recursive-descent parser makes of any token list. */
module ConfigSyntax {
  import opened Options
  import opened Text
  import opened ConfigLexer

  datatype Directive = Directive(key: CString, value: Option<CString>)

  datatype Location = Location(path: CString, directives: seq<Directive>)

  datatype Server = Server(directives: seq<Directive>, locations: seq<Location>)

  datatype Peer = Peer(host: CString, port: int, weight: int, maxFails: int, failTimeout: int, maxConns: int)

  datatype Upstream = Upstream(name: CString, directives: seq<Directive>, servers: seq<Peer>)

  datatype Http = Http(directives: seq<Directive>, servers: seq<Server>, upstreams: seq<Upstream>)

  /** What parsing from a token list comes to: a value and the tokens left over; a loop that never ends; or a read or
      write outside what C defines (a token that is not there, a NULL block, the value buffer overrun). */
  datatype Outcome<T> = Done(value: T, rest: seq<CString>) | Hangs | Undefined

  const VALUE_ROOM := 1023  // the 1024-byte value buffer without its terminator

  const SPACE: CChar := ' '

  // ---------------------------------------------------------------- block loops

  /** One turn of a block loop: it ends, it goes on, a loop inside it never ends, or it leaves what C defines. */
  datatype Turn<T> = Ends(value: T, rest: seq<CString>) | Goes(value: T, rest: seq<CString>) | Stuck | Broken

  /** A turn takes tokens only from the front. */
  ghost predicate Shrinks<T(!new)>(turn: (seq<CString>, T) -> Turn<T>) {
    forall ts, acc ::
      var t := turn(ts, acc);
      (t.Ends? ==> |t.rest| <= |ts|) && (t.Goes? ==> |t.rest| <= |ts|)
  }

  /** A block loop run to its end. A turn that goes on without taking a token is met again for ever. */
  ghost function Loop<T(!new)>(turn: (seq<CString>, T) -> Turn<T>, ts: seq<CString>, acc: T): (r: Outcome<T>)
    requires Shrinks(turn)
    ensures r.Done? ==> |r.rest| <= |ts|
    decreases |ts|
  {
    match turn(ts, acc)
    case Ends(value, rest) => Done(value, rest)
    case Goes(value, rest) => if |rest| < |ts| then Loop(turn, rest, value) else Hangs
    case Stuck => Hangs
    case Broken => Undefined
  }

  /** Where the loop stands after k turns. */
  function Turns<T>(turn: (seq<CString>, T) -> Turn<T>, ts: seq<CString>, acc: T, k: nat): Turn<T> {
    if k == 0 then Goes(acc, ts)
    else
      match Turns(turn, ts, acc, k - 1)
      case Goes(value, rest) => turn(rest, value)
      case Ends(value, rest) => Ends(value, rest)
      case Stuck => Stuck
      case Broken => Broken
  }

  /** A turn that takes no token takes none either when the block has grown meanwhile. */
  ghost predicate Steady<T(!new)>(turn: (seq<CString>, T) -> Turn<T>) {
    forall ts, a, b :: turn(ts, a).Goes? && |turn(ts, a).rest| >= |ts| ==> turn(ts, b).Goes? && turn(ts, b).rest == ts
  }

  lemma {:induction false} TurnsFromNext<T(!new)>(turn: (seq<CString>, T) -> Turn<T>, ts: seq<CString>, acc: T, k: nat)
    requires turn(ts, acc).Goes?
    ensures Turns(turn, ts, acc, k + 1) == Turns(turn, turn(ts, acc).rest, turn(ts, acc).value, k)
  {
    if k > 0 { TurnsFromNext(turn, ts, acc, k - 1); } else { assert Turns(turn, ts, acc, 0) == Goes(acc, ts); }
  }

  lemma {:induction false} FirstTurn<T(!new)>(turn: (seq<CString>, T) -> Turn<T>, ts: seq<CString>, acc: T, k: nat)
    requires !turn(ts, acc).Goes? && k > 0
    ensures Turns(turn, ts, acc, k) == turn(ts, acc)
  {
    if k > 1 { FirstTurn(turn, ts, acc, k - 1); } else { assert Turns(turn, ts, acc, 0) == Goes(acc, ts); }
  }

  /** Standing still: the same tokens after every number of turns. */
  lemma {:induction false} StandsStill<T(!new)>(turn: (seq<CString>, T) -> Turn<T>, ts: seq<CString>, acc: T, k: nat)
    requires Steady(turn) && turn(ts, acc).Goes? && |turn(ts, acc).rest| >= |ts|
    ensures Turns(turn, ts, acc, k).Goes? && Turns(turn, ts, acc, k).rest == ts
  {
    if k > 0 {
      StandsStill(turn, ts, acc, k - 1);
      assert turn(ts, Turns(turn, ts, acc, k - 1).value).Goes?;
    }
  }

  ghost predicate GoesOnForEver<T>(turn: (seq<CString>, T) -> Turn<T>, ts: seq<CString>, acc: T) {
    forall k: nat :: Turns(turn, ts, acc, k).Goes?
  }

  ghost predicate ComesToStuck<T>(turn: (seq<CString>, T) -> Turn<T>, ts: seq<CString>, acc: T) {
    exists k: nat :: Turns(turn, ts, acc, k).Stuck?
  }

  lemma SameAfterNext<T(!new)>(turn: (seq<CString>, T) -> Turn<T>, ts: seq<CString>, acc: T)
    requires turn(ts, acc).Goes?
    ensures var t := turn(ts, acc);
            && (GoesOnForEver(turn, ts, acc) <==> GoesOnForEver(turn, t.rest, t.value))
            && (ComesToStuck(turn, ts, acc) <==> ComesToStuck(turn, t.rest, t.value))
  {
    var t := turn(ts, acc);
    forall k: nat ensures Turns(turn, ts, acc, k + 1) == Turns(turn, t.rest, t.value, k) {
      TurnsFromNext(turn, ts, acc, k);
    }
    assert Turns(turn, ts, acc, 0).Goes?;
    if GoesOnForEver(turn, t.rest, t.value) {
      forall k: nat ensures Turns(turn, ts, acc, k).Goes? {
        if k > 0 { assert Turns(turn, t.rest, t.value, k - 1).Goes?; TurnsFromNext(turn, ts, acc, k - 1); }
      }
    }
    if GoesOnForEver(turn, ts, acc) {
      forall k: nat ensures Turns(turn, t.rest, t.value, k).Goes? { assert Turns(turn, ts, acc, k + 1).Goes?; }
    }
    if ComesToStuck(turn, t.rest, t.value) {
      var k: nat :| Turns(turn, t.rest, t.value, k).Stuck?;
      assert Turns(turn, ts, acc, k + 1).Stuck?;
    }
    if ComesToStuck(turn, ts, acc) {
      var k: nat :| Turns(turn, ts, acc, k).Stuck?;
      TurnsFromNext(turn, ts, acc, k - 1);
      assert Turns(turn, t.rest, t.value, k - 1).Stuck?;
    }
  }

  /** `Hangs` is what it says: the loop has not ended after any number of turns, or it comes to a turn inside which
      another loop never ends. */
  lemma {:induction false} HangsExactlyWhen<T(!new)>(turn: (seq<CString>, T) -> Turn<T>, ts: seq<CString>, acc: T)
    requires Shrinks(turn) && Steady(turn)
    ensures Loop(turn, ts, acc) == Hangs <==>
      GoesOnForEver(turn, ts, acc) || ComesToStuck(turn, ts, acc)
    decreases |ts|
  {
    var t := turn(ts, acc);
    if t.Goes? && |t.rest| < |ts| {
      HangsExactlyWhen(turn, t.rest, t.value);
      SameAfterNext(turn, ts, acc);
    } else if t.Goes? {
      forall k: nat ensures Turns(turn, ts, acc, k).Goes? { StandsStill(turn, ts, acc, k); }
    } else {
      assert Turns(turn, ts, acc, 0) == Goes(acc, ts);
      forall k: nat | k > 0 ensures Turns(turn, ts, acc, k) == t { FirstTurn(turn, ts, acc, k); }
      assert Turns(turn, ts, acc, 1) == t;
    }
  }

  /** And `Done` is the end the loop comes to. */
  lemma {:induction false} DoneAtItsEnd<T(!new)>(turn: (seq<CString>, T) -> Turn<T>, ts: seq<CString>, acc: T)
    requires Shrinks(turn)
    ensures var r := Loop(turn, ts, acc); r.Done? ==> exists k: nat :: Turns(turn, ts, acc, k) == Ends(r.value, r.rest)
    decreases |ts|
  {
    var t, r := turn(ts, acc), Loop(turn, ts, acc);
    if t.Ends? {
      FirstTurn(turn, ts, acc, 1);
    } else if r.Done? {
      DoneAtItsEnd(turn, t.rest, t.value);
      var k: nat :| Turns(turn, t.rest, t.value, k) == Ends(r.value, r.rest);
      TurnsFromNext(turn, ts, acc, k);
    }
  }

  // ---------------------------------------------------------------- directives

  /** `strncat` onto the value buffer, of which `length` characters are accounted for. */
  function Append(buffer: CString, length: nat, t: CString): CString
    requires length <= VALUE_ROOM
  {
    buffer + if |t| <= VALUE_ROOM - length then t else t[..VALUE_ROOM - length]
  }

  /** The loop that joins the tokens up to ';' in the buffer. */
  function ParseValue(ts: seq<CString>, buffer: CString, length: nat): (r: Outcome<CString>)
    ensures r.Done? ==> |r.rest| <= |ts|
    ensures r != Hangs
    decreases |ts|
  {
    if ts == [] || ts[0] == ";" then Done(buffer, ts)
    else if length == 0 then ParseValue(ts[1..], Append(buffer, 0, ts[0]), |ts[0]|)
    else if length >= VALUE_ROOM then Undefined
    else ParseValue(ts[1..], Append(Append(buffer, length, [SPACE]), length + 1, ts[0]), length + 1 + |ts[0]|)
  }

  /** A directive that is the last token is not taken: the result is a directive without a key. */
  function ParseDirective(ts: seq<CString>): (r: Outcome<Option<Directive>>)
    ensures r.Done? ==> |r.rest| <= |ts|
    ensures r != Hangs
  {
    if |ts| < 2 then Done(None, ts)
    else
      match ParseValue(ts[1..], [], 0)
      case Done(v, rest) =>
        Done(Some(Directive(ts[0], if v == [] then None else Some(v))), if rest == [] then rest else rest[1..])
      case Hangs => Hangs
      case Undefined => Undefined
  }

  /** The turn of a block loop that reads a directive; `add` appends it. The keyless directive that is appended again
      and again when nothing can be taken is left out: no such loop ever ends. */
  function DirectiveTurn<T>(ts: seq<CString>, acc: T, add: (T, Directive) -> T): (t: Turn<T>)
    ensures (t.Ends? ==> |t.rest| <= |ts|) && (t.Goes? ==> |t.rest| <= |ts|)
  {
    match ParseDirective(ts)
    case Done(Some(d), rest) => Goes(add(acc, d), rest)
    case Done(None, rest) => Goes(acc, rest)
    case Hangs => Stuck
    case Undefined => Broken
  }

  // ---------------------------------------------------------------- locations

  /** In the body of a location after '{', `ds` having been read. */
  function LocationTurn(ts: seq<CString>, ds: seq<Directive>): (t: Turn<seq<Directive>>)
    ensures (t.Ends? ==> |t.rest| <= |ts|) && (t.Goes? ==> |t.rest| <= |ts|)
  {
    if ts == [] then Broken
    else if ts[0] == "}" then Ends(ds, ts[1..])
    else DirectiveTurn(ts, ds, (ds: seq<Directive>, d) => ds + [d])
  }

  ghost function ParseLocationBody(ts: seq<CString>, ds: seq<Directive>): (r: Outcome<seq<Directive>>)
    ensures r.Done? ==> |r.rest| <= |ts|
  {
    Loop(LocationTurn, ts, ds)
  }

  ghost function ParseLocation(ts: seq<CString>): (r: Outcome<Location>)
    requires ts != [] && ts[0] == "location"
    ensures r.Done? ==> |r.rest| < |ts|
  {
    if |ts| < 3 || ts[2] != "{" then Undefined
    else
      match ParseLocationBody(ts[3..], [])
      case Done(ds, rest) => Done(Location(ts[1], ds), rest)
      case Hangs => Hangs
      case Undefined => Undefined
  }

  // ---------------------------------------------------------------- servers

  /** A new location becomes the head of the list. */
  ghost function ServerTurn(ts: seq<CString>, s: Server): (t: Turn<Server>)
    ensures (t.Ends? ==> |t.rest| <= |ts|) && (t.Goes? ==> |t.rest| <= |ts|)
  {
    if ts == [] then Broken
    else if ts[0] == "}" then Ends(s, ts[1..])
    else if ts[0] == "location" then
      match ParseLocation(ts)
      case Done(l, rest) => Goes(s.(locations := [l] + s.locations), rest)
      case Hangs => Stuck
      case Undefined => Broken
    else DirectiveTurn(ts, s, (s: Server, d) => s.(directives := s.directives + [d]))
  }

  ghost function ParseServerBody(ts: seq<CString>, s: Server): (r: Outcome<Server>)
    ensures r.Done? ==> |r.rest| <= |ts|
  {
    Loop(ServerTurn, ts, s)
  }

  ghost function ParseServer(ts: seq<CString>): (r: Outcome<Server>)
    requires ts != [] && ts[0] == "server"
    ensures r.Done? ==> |r.rest| < |ts|
  {
    if |ts| < 2 || ts[1] != "{" then Undefined else ParseServerBody(ts[2..], Server([], []))
  }

  // ---------------------------------------------------------------- upstream servers

  /** C `atoi`, on unbounded integers. */
  function AtoI(s: CString): int {
    if s == [] then 0
    else if IsSpace(s[0]) then AtoI(s[1..])
    else if s[0] == '-' then 0 - ReadDigits(s[1..], 0)
    else if s[0] == '+' then ReadDigits(s[1..], 0)
    else ReadDigits(s, 0)
  }

  /** The text before the first colon, and the text after it if there is one. */
  function AtColon(s: CString): (r: (CString, Option<CString>)) {
    if s == [] then ([], None)
    else if s[0] == ':' then ([], Some(s[1..]))
    else
      var (host, port) := AtColon(s[1..]);
      (One(s[0]) + host, port)
  }

  function ParseAddress(s: CString): Peer {
    var (host, port) := AtColon(s);
    Peer(host, match port case Some(p) => AtoI(p) case None => 80, 1, 3, 30, 1000)
  }

  function ParseParameter(t: CString, p: Peer): Peer {
    if "weight=" <= t then p.(weight := AtoI(t[7..]))
    else if "max_fails=" <= t then p.(maxFails := AtoI(t[10..]))
    else if "fail_timeout=" <= t then p.(failTimeout := AtoI(t[13..]))
    else if "max_conns=" <= t then p.(maxConns := AtoI(t[10..]))
    else p
  }

  /** The parameters up to ';', which is consumed if it is there. */
  function ParseParameters(ts: seq<CString>, p: Peer): (r: (Peer, seq<CString>))
    ensures |r.1| <= |ts|
    decreases |ts|
  {
    if ts == [] then (p, ts)
    else if ts[0] == ";" then (p, ts[1..])
    else ParseParameters(ts[1..], ParseParameter(ts[0], p))
  }

  /** An upstream block may end with the tokens; a 'server' without an address ends it early. */
  function UpstreamTurn(ts: seq<CString>, u: Upstream): (t: Turn<Upstream>)
    ensures (t.Ends? ==> |t.rest| <= |ts|) && (t.Goes? ==> |t.rest| <= |ts|)
  {
    if ts == [] then Ends(u, ts)
    else if ts[0] == "}" then Ends(u, ts[1..])
    else if ts[0] == "server" then
      if |ts| == 1 then Ends(u, [])
      else
        var (p, rest) := ParseParameters(ts[2..], ParseAddress(ts[1]));
        Goes(u.(servers := [p] + u.servers), rest)
    else DirectiveTurn(ts, u, (u: Upstream, d) => u.(directives := u.directives + [d]))
  }

  ghost function ParseUpstreamBody(ts: seq<CString>, u: Upstream): (r: Outcome<Upstream>)
    ensures r.Done? ==> |r.rest| <= |ts|
  {
    Loop(UpstreamTurn, ts, u)
  }

  /** A malformed header gives no block, with the tokens read so far consumed. */
  ghost function ParseUpstream(ts: seq<CString>): (r: Outcome<Option<Upstream>>)
    requires ts != [] && ts[0] == "upstream"
    ensures r.Done? ==> |r.rest| < |ts|
  {
    if |ts| < 2 then Done(None, [])
    else if |ts| < 3 || ts[2] != "{" then Done(None, ts[2..])
    else
      match ParseUpstreamBody(ts[3..], Upstream(ts[1], [], []))
      case Done(u, rest) => Done(Some(u), rest)
      case Hangs => Hangs
      case Undefined => Undefined
  }

  // ---------------------------------------------------------------- http

  ghost function HttpTurn(ts: seq<CString>, h: Http): (t: Turn<Http>)
    ensures (t.Ends? ==> |t.rest| <= |ts|) && (t.Goes? ==> |t.rest| <= |ts|)
  {
    if ts == [] then Broken
    else if ts[0] == "}" then Ends(h, ts[1..])
    else if ts[0] == "server" then
      match ParseServer(ts)
      case Done(s, rest) => Goes(h.(servers := [s] + h.servers), rest)
      case Hangs => Stuck
      case Undefined => Broken
    else if ts[0] == "upstream" then
      match ParseUpstream(ts)
      case Done(Some(u), rest) => Goes(h.(upstreams := [u] + h.upstreams), rest)
      case Done(None, rest) => Goes(h, rest)
      case Hangs => Stuck
      case Undefined => Broken
    else DirectiveTurn(ts, h, (h: Http, d) => h.(directives := h.directives + [d]))
  }

  ghost function ParseHttpBody(ts: seq<CString>, h: Http): (r: Outcome<Http>)
    ensures r.Done? ==> |r.rest| <= |ts|
  {
    Loop(HttpTurn, ts, h)
  }

  /** Without '{' there is no block and nothing is consumed. */
  ghost function ParseHttp(ts: seq<CString>): (r: Outcome<Option<Http>>)
    requires ts != [] && ts[0] == "http"
    ensures r.Done? ==> |r.rest| <= |ts|
  {
    if |ts| < 2 then Undefined
    else if ts[1] != "{" then Done(None, ts)
    else
      match ParseHttpBody(ts[2..], Http([], [], []))
      case Done(h, rest) => Done(Some(h), rest)
      case Hangs => Hangs
      case Undefined => Undefined
  }

  /** The top level: everything that is not an http block is skipped token by token; the last block stays. */
  ghost function TopTurn(ts: seq<CString>, http: Option<Http>): (t: Turn<Option<Http>>)
    ensures (t.Ends? ==> |t.rest| <= |ts|) && (t.Goes? ==> |t.rest| <= |ts|)
  {
    if ts == [] then Ends(http, [])
    else if ts[0] == "http" then
      match ParseHttp(ts)
      case Done(h, rest) => Goes(h, rest)
      case Hangs => Stuck
      case Undefined => Broken
    else Goes(http, ts[1..])
  }

  ghost function ParseTop(ts: seq<CString>, http: Option<Http>): Outcome<Option<Http>> {
    Loop(TopTurn, ts, http)
  }

  // ---------------------------------------------------------------- the loops that never end

  /** A location body hangs exactly when its loop is still going after every number of turns. */
  lemma LocationHangsExactlyWhen(ts: seq<CString>, ds: seq<Directive>)
    ensures ParseLocationBody(ts, ds) == Hangs <==> GoesOnForEver(LocationTurn, ts, ds)
  {
    assert Steady(LocationTurn);
    HangsExactlyWhen(LocationTurn, ts, ds);
    forall k: nat ensures !Turns(LocationTurn, ts, ds, k).Stuck? { NeverStuck(LocationTurn, ts, ds, k); }
  }

  /** A loop without loops inside its turns. */
  lemma {:induction false} NeverStuck<T(!new)>(turn: (seq<CString>, T) -> Turn<T>, ts: seq<CString>, acc: T, k: nat)
    requires forall ts, acc :: !turn(ts, acc).Stuck?
    ensures !Turns(turn, ts, acc, k).Stuck?
  {
    if k > 0 { NeverStuck(turn, ts, acc, k - 1); }
  }

  lemma ServerHangsExactlyWhen(ts: seq<CString>, s: Server)
    ensures ParseServerBody(ts, s) == Hangs <==>
      GoesOnForEver(ServerTurn, ts, s) || ComesToStuck(ServerTurn, ts, s)
  {
    assert Steady(ServerTurn);
    HangsExactlyWhen(ServerTurn, ts, s);
  }

  lemma UpstreamHangsExactlyWhen(ts: seq<CString>, u: Upstream)
    ensures ParseUpstreamBody(ts, u) == Hangs <==> GoesOnForEver(UpstreamTurn, ts, u)
  {
    assert Steady(UpstreamTurn);
    HangsExactlyWhen(UpstreamTurn, ts, u);
    forall k: nat ensures !Turns(UpstreamTurn, ts, u, k).Stuck? { NeverStuck(UpstreamTurn, ts, u, k); }
  }

  lemma HttpHangsExactlyWhen(ts: seq<CString>, h: Http)
    ensures ParseHttpBody(ts, h) == Hangs <==>
      GoesOnForEver(HttpTurn, ts, h) || ComesToStuck(HttpTurn, ts, h)
  {
    assert Steady(HttpTurn);
    HangsExactlyWhen(HttpTurn, ts, h);
  }

  lemma TopHangsExactlyWhen(ts: seq<CString>, http: Option<Http>)
    ensures ParseTop(ts, http) == Hangs <==>
      GoesOnForEver(TopTurn, ts, http) || ComesToStuck(TopTurn, ts, http)
  {
    assert Steady(TopTurn);
    HangsExactlyWhen(TopTurn, ts, http);
  }
}
