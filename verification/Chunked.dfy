/** Chunked transfer coding: what the sender puts on the wire, and a receiver after section 7.1 of RFC 9112. */
module Chunked {
  import opened Options
  import opened Text

  type Bytes = seq<Octet>

  const LAST_CHUNK: Bytes := "0\r\n"
  const STREAM_SOURCE: CString := "X-Stream-Source: dynamic"
  const CRLF: CString := "\r\n"

  const NOTHING: seq<Bytes> := []

  /** 16^13: up to here the size line fits the 16-byte header buffer with its CRLF and NUL. */
  const HEADER_LIMIT: nat := 0x10_0000_0000_0000

  // ---------------------------------------------------------------- the sender's text

  function HexDigit(d: nat): Octet
    requires d < 16
  {
    if d < 10 then ('0' as int + d) as char else ('a' as int + (d - 10)) as char
  }

  /** "%zx". */
  function Hex(n: nat): (s: Bytes)
    ensures |s| > 0
  {
    if n < 16 then [HexDigit(n)] else Hex(n / 16) + [HexDigit(n % 16)]
  }

  /** The pieces of one chunk; an empty chunk is not sent at all. */
  function ChunkPieces(data: Bytes): seq<Bytes> {
    if data == [] then [] else [Hex(|data|) + CRLF, data, CRLF]
  }

  function FinalPieces(trailer: Bytes): seq<Bytes> {
    [LAST_CHUNK] + (if trailer == [] then [] else [trailer]) + [CRLF]
  }

  /** Sizes are written in lower-case hexadecimal digits without leading zeros. */
  lemma SizesWritten()
    ensures Hex(10) == "a" && Hex(255) == "ff" && Hex(4096) == "1000" && Hex(0xBEEF) == "beef"
  {
    assert Hex(4096 / 16) == Hex(16) + "0" && Hex(16) == Hex(1) + "0" && Hex(1) == "1";
    assert Hex(0xBEE) == Hex(0xBE) + "e" && Hex(0xBE) == Hex(0xB) + "e" && Hex(0xB) == "b";
  }

  /** The end of a stream: the last chunk, the trailer as it was given, and an empty line. */
  lemma EndWritten(trailer: Bytes)
    ensures Concat(FinalPieces(trailer)) == "0\r\n" + trailer + "\r\n"
  {
    var pieces, end: seq<Bytes> := FinalPieces(trailer), [CRLF];
    assert Concat(end) == CRLF by { assert end[1..] == NOTHING && Concat(NOTHING) == []; }
    if trailer == [] {
      assert pieces[1..] == end;
    } else {
      assert pieces[1..] == [trailer] + end && pieces[1..][1..] == end;
    }
  }

  function Concat(pieces: seq<Bytes>): Bytes {
    if pieces == [] then [] else pieces[0] + Concat(pieces[1..])
  }

  function ChunksText(chunks: seq<Bytes>): Bytes {
    if chunks == [] then [] else Concat(ChunkPieces(chunks[0])) + ChunksText(chunks[1..])
  }

  /** Trailer lines, each with its CRLF. */
  function TrailerText(lines: seq<Bytes>): Bytes {
    if lines == [] then [] else (lines[0] + CRLF) + TrailerText(lines[1..])
  }

  // ---------------------------------------------------------------- the receiver

  function HexValue(c: Octet): Option<nat> {
    if '0' <= c <= '9' then Some(c as int - '0' as int)
    else if 'a' <= c <= 'f' then Some(c as int - 'a' as int + 10)
    else if 'A' <= c <= 'F' then Some(c as int - 'A' as int + 10)
    else None
  }

  /** Hexadecimal digits onto a value already read, and what follows them. */
  function ReadHex(w: Bytes, value: nat): (r: (nat, Bytes))
    ensures |r.1| <= |w|
  {
    if w != [] && HexValue(w[0]).Some? then ReadHex(w[1..], 16 * value + HexValue(w[0]).value) else (value, w)
  }

  /** chunk-size = 1*HEXDIG. */
  function ReadSize(w: Bytes): (r: Option<(nat, Bytes)>)
    ensures r.Some? ==> |r.value.1| < |w|
  {
    if w == [] || HexValue(w[0]).None? then None
    else Some(ReadHex(w[1..], HexValue(w[0]).value))
  }

  /** Up to and including the next CRLF: a chunk extension, or a trailer line. */
  function SkipLine(w: Bytes): (r: Option<Bytes>)
    ensures r.Some? ==> |r.value| < |w|
  {
    if |w| < 2 then None
    else if w[0] == '\r' && w[1] == '\n' then Some(w[2..])
    else SkipLine(w[1..])
  }

  /** trailer-section CRLF. */
  function SkipTrailers(w: Bytes): (r: Option<Bytes>)
    ensures r.Some? ==> |r.value| < |w|
    decreases |w|
  {
    if CRLF <= w then Some(w[2..])
    else match SkipLine(w) case None => None case Some(rest) => SkipTrailers(rest)
  }

  /** The decoded content and what follows the message. */
  function Decode(w: Bytes): Option<(Bytes, Bytes)>
    decreases |w|
  {
    match ReadSize(w)
    case None => None
    case Some((n, afterSize)) =>
      match SkipLine(afterSize)
      case None => None
      case Some(rest) =>
        if n == 0 then (match SkipTrailers(rest) case None => None case Some(end) => Some(([], end)))
        else if |rest| < n + 2 || rest[n..n + 2] != CRLF then None
        else
          match Decode(rest[n + 2..])
          case None => None
          case Some((body, end)) => Some((rest[..n] + body, end))
  }

  // ---------------------------------------------------------------- the receiver undoes the sender

  lemma HexDigitBack(d: nat)
    requires d < 16
    ensures HexValue(HexDigit(d)) == Some(d)
  {
  }

  lemma {:induction false} ReadHexAppend(s: Bytes, t: Bytes, value: nat)
    requires forall i :: 0 <= i < |s| ==> HexValue(s[i]).Some?
    ensures ReadHex(s + t, value) == ReadHex(t, ReadHex(s, value).0)
    decreases |s|
  {
    if s == [] {
      assert s + t == t;
    } else {
      assert (s + t)[1..] == s[1..] + t;
      ReadHexAppend(s[1..], t, 16 * value + HexValue(s[0]).value);
    }
  }

  lemma {:induction false} HexIsDigits(n: nat)
    ensures forall i :: 0 <= i < |Hex(n)| ==> HexValue(Hex(n)[i]).Some?
    ensures ReadHex(Hex(n), 0).0 == n
  {
    if n < 16 {
      HexDigitBack(n);
      assert |Hex(n)[1..]| == 0;
    } else {
      HexIsDigits(n / 16);
      HexDigitBack(n % 16);
      ReadHexAppend(Hex(n / 16), [HexDigit(n % 16)], 0);
      assert |[HexDigit(n % 16)][1..]| == 0;
    }
  }

  /** The size line is read back. */
  lemma SizeBack(n: nat, rest: Bytes)
    ensures ReadSize(Hex(n) + (CRLF + rest)) == Some((n, CRLF + rest))
  {
    var w := Hex(n) + (CRLF + rest);
    HexIsDigits(n);
    ReadHexAppend(Hex(n), CRLF + rest, 0);
    assert ReadHex(w, 0) == (n, CRLF + rest);
    assert w[0] == Hex(n)[0];
  }

  lemma ChunkBack(data: Bytes, rest: Bytes)
    requires data != []
    ensures Decode(Concat(ChunkPieces(data)) + rest)
         == match Decode(rest) case None => None case Some((body, end)) => Some((data + body, end))
  {
    var n := |data|;
    var tail := data + (CRLF + rest);
    ChunkText(data, rest);
    SizeBack(n, tail);
    assert SkipLine(CRLF + tail) == Some(tail) by {
      assert (CRLF + tail)[2..] == tail;
    }
    assert tail[n..n + 2] == CRLF && tail[..n] == data && tail[n + 2..] == rest;
    hide ReadSize, SkipLine, Concat, Hex;
  }

  lemma {:induction false} ChunkText(data: Bytes, rest: Bytes)
    requires data != []
    ensures Concat(ChunkPieces(data)) + rest == Hex(|data|) + (CRLF + (data + (CRLF + rest)))
  {
    var a, b, c := Hex(|data|) + CRLF, data, CRLF;
    assert [a, b, c][1..] == [b, c] && [b, c][1..] == [c] && [c][1..] == NOTHING;
    assert Concat([c]) == c + [];
    assert Concat([b, c]) == b + Concat([c]);
    assert Concat([a, b, c]) == a + Concat([b, c]);
    assert (a + (b + c)) + rest == Hex(|data|) + (CRLF + (data + (CRLF + rest)));
  }

  lemma {:induction false} SkipLineBack(line: Bytes, rest: Bytes)
    requires forall i :: 0 <= i < |line| ==> line[i] != '\r'
    ensures SkipLine(line + CRLF + rest) == Some(rest)
  {
    var w := line + CRLF + rest;
    if line == [] {
      assert w[2..] == rest;
    } else {
      SkipLineBack(line[1..], rest);
      assert w[1..] == line[1..] + CRLF + rest;
    }
  }

  /** A trailer line: not empty, no CR inside. */
  predicate TrailerLine(line: Bytes) {
    line != [] && forall i :: 0 <= i < |line| ==> line[i] != '\r'
  }

  lemma {:induction false} TrailersBack(lines: seq<Bytes>, rest: Bytes)
    requires forall i :: 0 <= i < |lines| ==> TrailerLine(lines[i])
    ensures SkipTrailers(TrailerText(lines) + (CRLF + rest)) == Some(rest)
  {
    if lines == [] {
      assert TrailerText(lines) + (CRLF + rest) == CRLF + rest;
      assert (CRLF + rest)[2..] == rest;
    } else {
      var w, more := TrailerText(lines) + (CRLF + rest), TrailerText(lines[1..]) + (CRLF + rest);
      assert TrailerLine(lines[0]);
      assert w == lines[0] + CRLF + more;
      SkipLineBack(lines[0], more);
      assert w[0] == lines[0][0] != '\r';
      TrailersBack(lines[1..], rest);
    }
  }

  lemma FinalBack(lines: seq<Bytes>, rest: Bytes)
    requires forall i :: 0 <= i < |lines| ==> TrailerLine(lines[i])
    ensures Decode(Concat(FinalPieces(TrailerText(lines))) + rest) == Some(([], rest))
  {
    var trailer := TrailerText(lines);
    var w := Concat(FinalPieces(trailer)) + rest;
    var tail := trailer + (CRLF + rest);
    assert w == "0" + (CRLF + tail) by { FinalText(trailer, rest); }
    assert ReadSize(w) == Some((0, CRLF + tail)) by {
      SizeBack(0, tail);
      assert Hex(0) == "0";
    }
    assert SkipLine(CRLF + tail) == Some(tail) by {
      assert (CRLF + tail)[2..] == tail;
    }
    TrailersBack(lines, rest);
  }

  lemma FinalText(trailer: Bytes, rest: Bytes)
    ensures Concat(FinalPieces(trailer)) + rest == "0" + (CRLF + (trailer + (CRLF + rest)))
  {
    if trailer == [] {
      assert FinalPieces(trailer) == [LAST_CHUNK, CRLF];
      assert [LAST_CHUNK, CRLF][1..] == [CRLF] && [CRLF][1..] == NOTHING;
      assert Concat([CRLF]) == CRLF + [];
      assert Concat([LAST_CHUNK, CRLF]) == LAST_CHUNK + CRLF;
    } else {
      assert FinalPieces(trailer) == [LAST_CHUNK, trailer, CRLF];
      assert [LAST_CHUNK, trailer, CRLF][1..] == [trailer, CRLF] && [trailer, CRLF][1..] == [CRLF] && [CRLF][1..] == NOTHING;
      assert Concat([CRLF]) == CRLF + [];
      assert Concat([trailer, CRLF]) == trailer + CRLF;
      assert Concat([LAST_CHUNK, trailer, CRLF]) == LAST_CHUNK + (trailer + CRLF);
    }
  }

  /** The receiver recovers exactly the content of any sequence of chunks, empty ones among them, and stops exactly at
      the end of the message. */
  lemma {:induction false} StreamBack(chunks: seq<Bytes>, lines: seq<Bytes>, rest: Bytes)
    requires forall i :: 0 <= i < |lines| ==> TrailerLine(lines[i])
    ensures Decode(ChunksText(chunks) + (Concat(FinalPieces(TrailerText(lines))) + rest)) == Some((Concat(chunks), rest))
  {
    var end := Concat(FinalPieces(TrailerText(lines))) + rest;
    if chunks == [] {
      FinalBack(lines, rest);
      assert ChunksText(chunks) + end == end;
    } else {
      hide Decode, FinalPieces, TrailerText;
      var more := ChunksText(chunks[1..]) + end;
      StreamBack(chunks[1..], lines, rest);
      assert ChunksText(chunks) + end == Concat(ChunkPieces(chunks[0])) + more;
      if chunks[0] == [] {
        assert Concat(ChunkPieces(chunks[0])) + more == more;
        assert chunks[0] + Concat(chunks[1..]) == Concat(chunks[1..]);
      } else {
        ChunkBack(chunks[0], more);
      }
    }
  }

  /** The size line fits: below 16^13 it has at most 13 digits, 15 characters with its CRLF. */
  lemma HeaderFits(n: nat)
    requires n < HEADER_LIMIT
    ensures |Hex(n) + CRLF| <= 15
  {
    HexLength(n, 12);
  }

  function Power16(k: nat): nat {
    if k == 0 then 1 else 16 * Power16(k - 1)
  }

  lemma {:induction false} HexLength(n: nat, k: nat)
    requires n < Power16(k + 1)
    ensures |Hex(n)| <= k + 1
  {
    if n >= 16 { HexLength(n / 16, k - 1); }
  }

  // ---------------------------------------------------------------- sending

  /** What the transport does with a piece: refuse it, take at most `limit` of its characters (at least one), or all. */
  datatype Reply = Refuses | Takes(limit: nat) | TakesAll

  /** How many characters of a non-empty piece go out; 0 means failure. */
  function Accepted(reply: Reply, size: nat): (r: nat)
    ensures r <= size
  {
    match reply
    case Refuses => 0
    case TakesAll => size
    case Takes(limit) => if size == 0 then 0 else if limit == 0 then 1 else if limit < size then limit else size
  }

  /** The outcome of sending pieces one after the other from reply number `call` on: the text that went out, the number
      of the next reply, and whether every send succeeded. A short send is a success and is not continued. */
  datatype Emission = Emission(text: Bytes, next: nat, ok: bool)

  function Emit(replies: nat -> Reply, call: nat, pieces: seq<Bytes>): Emission
    decreases |pieces|
  {
    if pieces == [] then Emission([], call, true)
    else if pieces[0] == [] then Emission([], call, false)
    else
      var n := Accepted(replies(call), |pieces[0]|);
      if n == 0 then Emission([], call + 1, false)
      else
        var rest := Emit(replies, call + 1, pieces[1..]);
        Emission(pieces[0][..n] + rest.text, rest.next, rest.ok)
  }

  ghost predicate AllTaken(replies: nat -> Reply) {
    forall i: nat :: replies(i) == TakesAll
  }

  lemma {:induction false} EmitAll(replies: nat -> Reply, call: nat, pieces: seq<Bytes>)
    requires AllTaken(replies) && forall i :: 0 <= i < |pieces| ==> pieces[i] != []
    ensures Emit(replies, call, pieces) == Emission(Concat(pieces), call + |pieces|, true)
    decreases |pieces|
  {
    if pieces != [] { EmitAll(replies, call + 1, pieces[1..]); }
  }

  /** The pieces go out intact exactly when no send falls short; a call that reports success does not say so. */
  lemma {:induction false} IntactExactlyWhen(replies: nat -> Reply, call: nat, pieces: seq<Bytes>)
    requires forall i :: 0 <= i < |pieces| ==> pieces[i] != []
    ensures var e := Emit(replies, call, pieces);
            && |e.text| <= |Concat(pieces)|
            && (e.text == Concat(pieces) <==>
                forall i :: 0 <= i < |pieces| ==> Accepted(replies(call + i), |pieces[i]|) == |pieces[i]|)
    decreases |pieces|
  {
    if pieces != [] {
      var more, n := pieces[1..], Accepted(replies(call), |pieces[0]|);
      IntactExactlyWhen(replies, call + 1, more);
      var e, rest := Emit(replies, call, pieces), Emit(replies, call + 1, more);
      assert |Concat(pieces)| == |pieces[0]| + |Concat(more)|;
      if n == |pieces[0]| {
        assert e.text == pieces[0] + rest.text;
        if e.text == Concat(pieces) {
          assert e.text[|pieces[0]|..] == rest.text && Concat(pieces)[|pieces[0]|..] == Concat(more);
        }
      } else {
        assert |e.text| < |Concat(pieces)|;
      }
      if forall i :: 0 <= i < |pieces| ==> Accepted(replies(call + i), |pieces[i]|) == |pieces[i]| {
        assert Accepted(replies(call + 0), |pieces[0]|) == |pieces[0]|;
        forall i | 0 <= i < |more| ensures Accepted(replies(call + 1 + i), |more[i]|) == |more[i]| {
          assert Accepted(replies(call + (i + 1)), |pieces[i + 1]|) == |pieces[i + 1]|;
        }
      }
      if n == |pieces[0]| && forall i :: 0 <= i < |more| ==> Accepted(replies(call + 1 + i), |more[i]|) == |more[i]| {
        forall i | 0 <= i < |pieces| ensures Accepted(replies(call + i), |pieces[i]|) == |pieces[i]| {
          if i > 0 { assert Accepted(replies(call + 1 + (i - 1)), |more[i - 1]|) == |more[i - 1]|; }
        }
      }
    }
  }

  /** The sends are reported as successful exactly when each gets something out. */
  lemma {:induction false} OkExactlyWhen(replies: nat -> Reply, call: nat, pieces: seq<Bytes>)
    requires forall i :: 0 <= i < |pieces| ==> pieces[i] != []
    ensures Emit(replies, call, pieces).ok <==>
            forall i :: 0 <= i < |pieces| ==> Accepted(replies(call + i), |pieces[i]|) > 0
    decreases |pieces|
  {
    if pieces != [] {
      var more := pieces[1..];
      OkExactlyWhen(replies, call + 1, more);
      if forall i :: 0 <= i < |more| ==> Accepted(replies(call + 1 + i), |more[i]|) > 0 {
        forall i | 0 < i < |pieces| ensures Accepted(replies(call + i), |pieces[i]|) > 0 {
          assert Accepted(replies(call + 1 + (i - 1)), |more[i - 1]|) > 0;
        }
      }
      if forall i :: 0 <= i < |pieces| ==> Accepted(replies(call + i), |pieces[i]|) > 0 {
        assert Accepted(replies(call + 0), |pieces[0]|) > 0;
        forall i | 0 <= i < |more| ensures Accepted(replies(call + 1 + i), |more[i]|) > 0 {
          assert Accepted(replies(call + (i + 1)), |pieces[i + 1]|) > 0;
        }
      }
    }
  }

  /** A transport that takes one byte at a time: the chunk "ab" is reported as sent and has not gone out whole. */
  lemma ShortSendSucceeds()
    ensures var pieces, e := ChunkPieces("ab"), Emit(_ => Takes(1), 0, ChunkPieces("ab"));
            e.ok && e.text != Concat(pieces)
  {
    var data: Bytes := "ab";
    var pieces := ChunkPieces(data);
    OkExactlyWhen(_ => Takes(1), 0, pieces);
    IntactExactlyWhen(_ => Takes(1), 0, pieces);
    assert Accepted(Takes(1), |pieces[1]|) != |pieces[1]|;
  }

  class Context {
    const replies: nat -> Reply
    var calls: nat
    var wire: Bytes  // everything the transport has taken
    var totalSent: nat
    var finished: bool

    /** The counter counts every emitted byte. */
    ghost predicate Valid()
      reads this
    {
      totalSent == |wire|
    }

    constructor (replies: nat -> Reply)
      ensures Valid() && this.replies == replies && wire == [] && calls == 0 && !finished
    {
      this.replies, calls, wire, totalSent, finished := replies, 0, [], 0, false;
    }

    /** This state follows from the old one by sending the pieces; `finished` ends up as given. */
    twostate predicate Sent(pieces: seq<Bytes>, ok: bool, done: bool)
      reads this
    {
      var e := Emit(replies, old(calls), pieces);
      wire == old(wire) + e.text && calls == e.next && ok == e.ok && finished == done
    }

    method SendData(data: Bytes) returns (ok: bool)
      requires Valid()
      modifies this`calls, this`wire, this`totalSent
      ensures Valid() && Sent([data], ok, old(finished))
    {
      if data == [] { return false; }
      var n := Accepted(replies(calls), |data|);
      calls := calls + 1;
      if n == 0 {
        return false;
      }
      wire := wire + data[..n];
      totalSent := totalSent + n;
      return true;
    }

    /** `chunked_send_chunk`. */
    method SendChunk(data: Bytes) returns (ok: bool)
      requires Valid() && |data| < HEADER_LIMIT
      modifies this`calls, this`wire, this`totalSent
      ensures Valid() && if old(finished) then !ok && Sent([], true, true) else Sent(ChunkPieces(data), ok, false)
    {
      if finished { return false; }
      if data == [] { return true; }
      HeaderFits(|data|);
      hide Emit, Hex;
      ok := SendSized(Hex(|data|) + CRLF, data);
    }

    /** A size line, then the data and its CRLF. */
    method SendSized(header: Bytes, data: Bytes) returns (ok: bool)
      requires Valid()
      modifies this`calls, this`wire, this`totalSent
      ensures Valid() && Sent([header, data, CRLF], ok, old(finished))
    {
      EmitAppend(replies, calls, [header], [data, CRLF]);
      assert [header, data, CRLF] == [header] + [data, CRLF];
      hide Emit;
      ok := SendData(header);
      if !ok { return; }
      ok := SendLine(data);
    }

    /** One piece and its CRLF. */
    method SendLine(text: Bytes) returns (ok: bool)
      requires Valid()
      modifies this`calls, this`wire, this`totalSent
      ensures Valid() && Sent([text, CRLF], ok, old(finished))
    {
      EmitAppend(replies, calls, [text], [CRLF]);
      assert [text, CRLF] == [text] + [CRLF];
      hide Emit;
      ok := SendData(text);
      if !ok { return; }
      ok := SendData(CRLF);
    }

    /** `chunked_send_final_chunk`: only a complete terminator marks the context finished. */
    method SendFinalChunk(trailer: CString) returns (ok: bool)
      requires Valid()
      modifies this
      ensures Valid() && if old(finished) then !ok && Sent([], true, true) else Sent(FinalPieces(trailer), ok, ok)
    {
      EmitNothing(replies, calls);
      hide Emit, FinalPieces, LAST_CHUNK;
      if finished { return false; }
      FinalBegins(trailer);
      EmitAppend(replies, calls, [LAST_CHUNK], FinalPieces(trailer)[1..]);
      ok := SendData(LAST_CHUNK);
      if !ok { return; }
      var sent := SendFinalLines(trailer);
      ok := sent;
      finished := ok;
    }

    /** The rest of `chunked_send_final_chunk`: the trailer, if any, and the last CRLF. */
    method SendFinalLines(trailer: CString) returns (ok: bool)
      requires Valid()
      modifies this`calls, this`wire, this`totalSent
      ensures Valid() && Sent(FinalPieces(trailer)[1..], ok, old(finished))
    {
      if trailer != [] {
        assert FinalPieces(trailer)[1..] == [trailer] + [CRLF];
        EmitAppend(replies, calls, [trailer], [CRLF]);
        hide Emit;
        ok := SendData(trailer);
        if !ok { return; }
      } else {
        assert FinalPieces(trailer)[1..] == [CRLF];
      }
      hide Emit;
      ok := SendData(CRLF);
    }

    /** The loop of `chunked_send_stream`: every produced chunk, until a send fails. */
    method SendProduced(produced: seq<Bytes>) returns (ok: bool)
      requires Valid() && !finished && forall i :: 0 <= i < |produced| ==> |produced[i]| < HEADER_LIMIT
      modifies this`calls, this`wire, this`totalSent
      ensures Valid() && Sent(StreamPieces(produced), ok, false)
    {
      hide Emit, ChunkPieces, StreamPieces;
      ghost var from := calls;
      var i := 0;
      ok := true;
      EmitNone(replies, calls);
      assert produced[..0] == [];
      while i < |produced|
        invariant 0 <= i <= |produced| && Valid() && ok && !finished
        invariant old(wire) <= wire
        invariant Emit(replies, from, StreamPieces(produced[..i])) == Emission(wire[|old(wire)|..], calls, true)
      {
        ghost var before := wire;
        StreamPiecesStep(produced, i);
        EmitAppend(replies, from, StreamPieces(produced[..i]), ChunkPieces(produced[i]));
        ok := SendChunk(produced[i]);
        assert wire[|old(wire)|..] == before[|old(wire)|..] + wire[|before|..];
        if !ok {
          EmitStops(replies, from, StreamPieces(produced[..i + 1]), StreamPieces(produced[i + 1..]));
          StreamPiecesSplit(produced, i + 1);
          return;
        }
        i := i + 1;
      }
      assert produced[..i] == produced;
    }

    /** `chunked_send_stream`: everything the producer makes, and the terminator unless the producer or a send failed. */
    method SendStream(produced: seq<Bytes>, producerFailed: bool, enableTrailer: bool) returns (ok: bool)
      requires Valid() && forall i :: 0 <= i < |produced| ==> |produced[i]| < HEADER_LIMIT
      modifies this
      ensures Valid()
      ensures old(finished) ==> !ok && Sent([], true, true)
      ensures !old(finished) && producerFailed ==>
        !ok && Sent(StreamPieces(produced), Emit(replies, old(calls), StreamPieces(produced)).ok, false)
      ensures !old(finished) && !producerFailed ==> Sent(StreamOf(produced, enableTrailer), ok, ok)
      ensures !old(finished) && !producerFailed && AllTaken(replies) ==>
        ok && finished && old(wire) <= wire && Decode(wire[|old(wire)|..]) == Some((Concat(produced), []))
    {
      if finished { return false; }
      StreamDelivered(replies, calls, produced, enableTrailer);
      hide Emit, StreamPieces, Decode, Concat, StreamOf;
      ok := SendProduced(produced);
      if producerFailed {
        ok := false;
      } else {
        ok := SendEnd(ok, produced, old(calls), |old(wire)|, enableTrailer);
      }
    }

    /** The end of `chunked_send_stream`, the producer having finished. */
    method SendEnd(sent: bool, ghost produced: seq<Bytes>, ghost from: nat, ghost start: nat, enableTrailer: bool)
      returns (ok: bool)
      requires Valid() && !finished && start <= |wire|
      requires Emit(replies, from, StreamPieces(produced)) == Emission(wire[start..], calls, sent)
      modifies this
      ensures Valid() && finished == ok && start <= |wire| && wire[..start] == old(wire)[..start]
      ensures Emit(replies, from, StreamOf(produced, enableTrailer)) == Emission(wire[start..], calls, ok)
    {
      EmitAppend(replies, from, StreamPieces(produced), FinalPieces(TrailerText(StreamTrailer(enableTrailer))));
      TrailerConstant(enableTrailer);
      hide Emit, FinalPieces, StreamPieces, TrailerText, StreamTrailer;
      ok := sent;
      if ok {
        ok := SendFinalChunk(if enableTrailer then STREAM_SOURCE + CRLF else []);
      }
    }
  }

  /** The trailer lines a stream ends with. */
  function StreamTrailer(enabled: bool): seq<Bytes> {
    if enabled then [STREAM_SOURCE] else []
  }

  lemma TrailerConstant(enabled: bool)
    ensures TrailerText(StreamTrailer(enabled)) == if enabled then STREAM_SOURCE + CRLF else []
  {
    if enabled {
      assert [STREAM_SOURCE][1..] == NOTHING;
      assert TrailerText([]) == [];
    }
  }

  /** The pieces of every chunk in turn. */
  function StreamPieces(chunks: seq<Bytes>): seq<Bytes> {
    if chunks == [] then [] else ChunkPieces(chunks[0]) + StreamPieces(chunks[1..])
  }

  /** Everything a stream consists of. */
  function StreamOf(chunks: seq<Bytes>, enableTrailer: bool): seq<Bytes> {
    StreamPieces(chunks) + FinalPieces(TrailerText(StreamTrailer(enableTrailer)))
  }

  lemma {:induction false} StreamPiecesSplit(chunks: seq<Bytes>, i: nat)
    requires i <= |chunks|
    ensures StreamPieces(chunks) == StreamPieces(chunks[..i]) + StreamPieces(chunks[i..])
  {
    hide ChunkPieces;
    if i == 0 {
      assert chunks[..0] == [] && chunks[0..] == chunks;
    } else {
      StreamPiecesSplit(chunks[1..], i - 1);
      var head, a, b := ChunkPieces(chunks[0]), StreamPieces(chunks[1..][..i - 1]), StreamPieces(chunks[1..][i - 1..]);
      assert chunks[..i][1..] == chunks[1..][..i - 1] && chunks[1..][i - 1..] == chunks[i..];
      assert head + (a + b) == (head + a) + b;
    }
  }

  lemma StreamPiecesStep(chunks: seq<Bytes>, i: nat)
    requires i < |chunks|
    ensures StreamPieces(chunks[..i + 1]) == StreamPieces(chunks[..i]) + ChunkPieces(chunks[i])
  {
    StreamPiecesSplit(chunks[..i + 1], i);
    assert chunks[..i + 1][..i] == chunks[..i] && chunks[..i + 1][i..] == [chunks[i]];
    var one: seq<Bytes> := [chunks[i]];
    assert one[1..] == NOTHING;
  }

  lemma {:induction false} ConcatAppend(a: seq<Bytes>, b: seq<Bytes>)
    ensures Concat(a + b) == Concat(a) + Concat(b)
  {
    if a == [] {
      assert a + b == b;
    } else {
      ConcatAppend(a[1..], b);
      assert (a + b)[1..] == a[1..] + b;
      assert a[0] + (Concat(a[1..]) + Concat(b)) == (a[0] + Concat(a[1..])) + Concat(b);
    }
  }

  lemma {:induction false} StreamPiecesText(chunks: seq<Bytes>)
    ensures Concat(StreamPieces(chunks)) == ChunksText(chunks)
    ensures forall i :: 0 <= i < |StreamPieces(chunks)| ==> StreamPieces(chunks)[i] != []
  {
    if chunks != [] {
      StreamPiecesText(chunks[1..]);
      ConcatAppend(ChunkPieces(chunks[0]), StreamPieces(chunks[1..]));
    }
  }

  /** When the transport takes everything, a standard receiver recovers exactly what was produced. */
  lemma Delivered(replies: nat -> Reply, call: nat, chunks: seq<Bytes>, lines: seq<Bytes>)
    requires forall i :: 0 <= i < |lines| ==> TrailerLine(lines[i])
    ensures var e := Emit(replies, call, StreamPieces(chunks) + FinalPieces(TrailerText(lines)));
            AllTaken(replies) ==> e.ok && Decode(e.text) == Some((Concat(chunks), []))
  {
    if AllTaken(replies) {
      var tail := FinalPieces(TrailerText(lines));
      StreamPiecesText(chunks);
      EmitAll(replies, call, StreamPieces(chunks) + tail);
      ConcatAppend(StreamPieces(chunks), tail);
      StreamBack(chunks, lines, []);
      assert Concat(tail) + [] == Concat(tail);
    }
  }

  lemma StreamDelivered(replies: nat -> Reply, call: nat, chunks: seq<Bytes>, enabled: bool)
    ensures var e := Emit(replies, call, StreamOf(chunks, enabled));
            AllTaken(replies) ==> e.ok && Decode(e.text) == Some((Concat(chunks), []))
  {
    Delivered(replies, call, chunks, StreamTrailer(enabled));
  }

  lemma EmitNone(replies: nat -> Reply, call: nat)
    ensures Emit(replies, call, StreamPieces([])) == Emission([], call, true)
  {
  }

  lemma EmitNothing(replies: nat -> Reply, call: nat)
    ensures Emit(replies, call, []) == Emission([], call, true)
  {
  }

  lemma FinalBegins(trailer: Bytes)
    ensures FinalPieces(trailer) != [] && [LAST_CHUNK] + FinalPieces(trailer)[1..] == FinalPieces(trailer)
  {
  }

  lemma {:induction false} EmitAppend(replies: nat -> Reply, call: nat, a: seq<Bytes>, b: seq<Bytes>)
    ensures var x := Emit(replies, call, a);
            Emit(replies, call, a + b) == if !x.ok then x
                                          else var y := Emit(replies, x.next, b); Emission(x.text + y.text, y.next, y.ok)
    decreases |a|
  {
    if a == [] {
      assert a + b == b;
    } else if a[0] != [] {
      assert (a + b)[1..] == a[1..] + b;
      var n := Accepted(replies(call), |a[0]|);
      if n > 0 {
        EmitAppend(replies, call + 1, a[1..], b);
        var x := Emit(replies, call + 1, a[1..]);
        if x.ok {
          var y := Emit(replies, x.next, b);
          assert a[0][..n] + (x.text + y.text) == (a[0][..n] + x.text) + y.text;
        }
      }
    }
  }

  lemma EmitStops(replies: nat -> Reply, call: nat, a: seq<Bytes>, b: seq<Bytes>)
    requires !Emit(replies, call, a).ok
    ensures Emit(replies, call, a + b) == Emit(replies, call, a)
  {
    EmitAppend(replies, call, a, b);
  }
}
