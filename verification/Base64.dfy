/** Base64 (section 4 of RFC 4648) as the routines do it: four characters for three bytes,
    twelve or sixteen input characters at a time when NEON is available. */
module Base64 {

  type Byte = bv8

  const PAD: Byte := 61
  const INVALID: bv32 := 0xFFFF_FFFF  // the -1 of the decode table

  // ---------------------------------------------------------------- the alphabet

  /** Entry i of the encode table: A-Z, a-z, 0-9, '+', '/'. */
  function Symbol(i: bv32): Byte {
    if i < 26 then (65 + i & 0xFF) as Byte
    else if i < 52 then (71 + i & 0xFF) as Byte
    else if i < 62 then (i - 4 & 0xFF) as Byte
    else if i == 62 then 43
    else 47
  }

  /** Letters, digits, '+' and '/'. */
  predicate InAlphabet(c: Byte) {
    65 <= c <= 90 || 97 <= c <= 122 || 48 <= c <= 57 || c == 43 || c == 47
  }

  /** The decode table has 256 entries but lists only the first 224: the others are 0. */
  const LISTED: Byte := 224

  /** Entry c of the decode table. */
  function Index(c: Byte): bv32 {
    if 65 <= c <= 90 then c as bv32 - 65
    else if 97 <= c <= 122 then c as bv32 - 71
    else if 48 <= c <= 57 then c as bv32 + 4
    else if c == 43 then 62
    else if c == 47 then 63
    else if c >= LISTED then 0
    else INVALID
  }

  lemma IndexOfSymbol(i: bv32)
    requires i < 64
    ensures Index(Symbol(i)) == i && InAlphabet(Symbol(i)) && Symbol(i) != PAD
  {
  }

  lemma SymbolOfIndex(c: Byte)
    requires Index(c) != INVALID && c < LISTED
    ensures Index(c) < 64 && Symbol(Index(c)) == c
  {
  }

  /** The table refuses what is outside the alphabet, up to where its list ends. */
  lemma IndexIsValid(c: Byte)
    ensures Index(c) != INVALID <==> InAlphabet(c) || c >= LISTED
    ensures InAlphabet(c) ==> c < LISTED
  {
  }

  /** The order of the alphabet of RFC 4648, value by value: 'A' to 'Z', 'a' to 'z', '0' to '9', '+' and '/'. Each run
      begins with its first character, and within it the next value is the next character. */
  lemma AlphabetInOrder(i: bv32)
    ensures Symbol(0) == 65 && Symbol(25) == 90 && Symbol(26) == 97 && Symbol(51) == 122
    ensures Symbol(52) == 48 && Symbol(61) == 57 && Symbol(62) == 43 && Symbol(63) == 47
    ensures i < 61 && i != 25 && i != 51 ==> Symbol(i + 1) == Symbol(i) + 1
    ensures i < 64 ==> Index(Symbol(i)) == i
  {
  }

  // ---------------------------------------------------------------- one group

  function Triple(a: Byte, b: Byte, c: Byte): bv32 {
    (a as bv32 << 16) | (b as bv32 << 8) | (c as bv32)
  }

  /** Sextet k of a 24-bit group, from the top. */
  function Sextet(t: bv32, k: nat): bv32
    requires k < 4
  {
    if k == 0 then (t >> 18) & 0x3F else if k == 1 then (t >> 12) & 0x3F else if k == 2 then (t >> 6) & 0x3F else t & 0x3F
  }

  /** The four symbols of a 24-bit group. */
  function Quad(t: bv32): (r: seq<Byte>)
    ensures |r| == 4
  {
    [Symbol(Sextet(t, 0)), Symbol(Sextet(t, 1)), Symbol(Sextet(t, 2)), Symbol(Sextet(t, 3))]
  }

  function Group(v1: bv32, v2: bv32, v3: bv32, v4: bv32): bv32 {
    (v1 << 18) | (v2 << 12) | (v3 << 6) | v4
  }

  function High(t: bv32): Byte { ((t >> 16) & 0xFF) as Byte }
  function Middle(t: bv32): Byte { ((t >> 8) & 0xFF) as Byte }
  function Low(t: bv32): Byte { (t & 0xFF) as Byte }

  lemma Sextets(t: bv32)
    requires t < 0x100_0000
    ensures Group(Sextet(t, 0), Sextet(t, 1), Sextet(t, 2), Sextet(t, 3)) == t
    ensures Sextet(t, 0) < 64 && Sextet(t, 1) < 64 && Sextet(t, 2) < 64 && Sextet(t, 3) < 64
  {
  }

  lemma Octets(a: Byte, b: Byte, c: Byte)
    ensures Triple(a, b, c) < 0x100_0000
    ensures High(Triple(a, b, c)) == a && Middle(Triple(a, b, c)) == b && Low(Triple(a, b, c)) == c
  {
  }

  /** The symbols of a group give its sextets and so the group back. */
  lemma QuadBack(t: bv32)
    requires t < 0x100_0000
    ensures var q := Quad(t);
            && (forall i :: 0 <= i < 4 ==> Index(q[i]) == Sextet(t, i) != INVALID && InAlphabet(q[i]) && q[i] != PAD)
            && Group(Index(q[0]), Index(q[1]), Index(q[2]), Index(q[3])) == t
  {
    Sextets(t);
    hide Symbol, Index, InAlphabet, Group, Sextet;
    IndexOfSymbol(Sextet(t, 0));
    IndexOfSymbol(Sextet(t, 1));
    IndexOfSymbol(Sextet(t, 2));
    IndexOfSymbol(Sextet(t, 3));
  }

  /** The low sextet of a group whose last byte is missing, and the two low ones when two bytes are, carry no data;
      and the third sextet does not reach the first byte. */
  lemma ShortGroups(a: Byte, b: Byte)
    ensures Sextet(Triple(a, b, 0), 3) == 0
    ensures Sextet(Triple(a, 0, 0), 3) == 0 && Sextet(Triple(a, 0, 0), 2) == 0
  {
  }

  lemma HighIgnoresLow(v1: bv32, v2: bv32, v3: bv32)
    requires v1 < 64 && v2 < 64 && v3 < 64
    ensures High(Group(v1, v2, 0, 0)) == High(Group(v1, v2, v3, 0))
  {
  }

  // ---------------------------------------------------------------- whole texts

  /** The symbols of x without padding. */
  function Bare(x: seq<Byte>): (r: seq<Byte>)
    ensures |r| == |x| / 3 * 4 + (if |x| % 3 == 0 then 0 else |x| % 3 + 1)
  {
    if |x| == 0 then []
    else if |x| == 1 then Quad(Triple(x[0], 0, 0))[..2]
    else if |x| == 2 then Quad(Triple(x[0], x[1], 0))[..3]
    else Quad(Triple(x[0], x[1], x[2])) + Bare(x[3..])
  }

  function Padding(n: nat): seq<Byte> {
    if n % 3 == 0 then [] else if n % 3 == 1 then [PAD, PAD] else [PAD]
  }

  /** The encoding: always a multiple of four characters, 4*ceil(n/3) of them. */
  function Encoded(x: seq<Byte>): (r: seq<Byte>)
    ensures |r| == (|x| + 2) / 3 * 4
  {
    Bare(x) + Padding(|x|)
  }

  /** What the decoder has written when it returns, and whether it returns success. */
  datatype Decoding = Decoding(written: seq<Byte>, ok: bool)

  function Decoded(s: seq<Byte>): (r: Decoding)
    ensures |r.written| <= |s| * 3 / 4
  {
    if |s| < 2 then Decoding([], true)
    else
      var v1, v2 := Index(s[0]), Index(s[1]);
      if v1 == INVALID || v2 == INVALID then Decoding([], false)
      else if |s| == 2 then Decoding([High(Group(v1, v2, 0, 0))], true)
      else
        var v3 := Index(s[2]);
        if |s| == 3 then
          if v3 == INVALID then Decoding([High(Group(v1, v2, 0, 0))], false)
          else Decoding([High(Group(v1, v2, 0, 0)), Middle(Group(v1, v2, v3, 0))], true)
        else
          var v4 := Index(s[3]);
          if v3 == INVALID || v4 == INVALID then Decoding([], false)
          else
            var g, rest := Group(v1, v2, v3, v4), Decoded(s[4..]);
            Decoding([High(g), Middle(g), Low(g)] + rest.written, rest.ok)
  }

  /** Trailing padding is dropped, however much there is. */
  function Stripped(s: seq<Byte>): (r: seq<Byte>)
    ensures |r| <= |s|
  {
    if s != [] && s[|s| - 1] == PAD then Stripped(s[..|s| - 1]) else s
  }

  /** Every symbol of an encoding is in the alphabet. */
  lemma {:induction false} BareIsAlphabet(x: seq<Byte>)
    ensures forall i :: 0 <= i < |Bare(x)| ==> InAlphabet(Bare(x)[i]) && Bare(x)[i] != PAD
  {
    hide Index, InAlphabet, Triple, Symbol, Quad;
    if |x| == 1 {
      Octets(x[0], 0, 0);
      QuadBack(Triple(x[0], 0, 0));
    } else if |x| == 2 {
      Octets(x[0], x[1], 0);
      QuadBack(Triple(x[0], x[1], 0));
    } else if |x| >= 3 {
      Octets(x[0], x[1], x[2]);
      QuadBack(Triple(x[0], x[1], x[2]));
      BareIsAlphabet(x[3..]);
    }
  }

  lemma StripOne(s: seq<Byte>)
    ensures Stripped(s + [PAD]) == Stripped(s)
  {
    var t := s + [PAD];
    assert t[|t| - 1] == PAD && t[..|t| - 1] == s;
  }

  lemma StripsPadding(s: seq<Byte>, n: nat)
    requires s == [] || s[|s| - 1] != PAD
    ensures Stripped(s + Padding(n)) == s
  {
    hide Stripped;
    assert Stripped(s) == s by { NothingToStrip(s); }
    StripOne(s);
    StripOne(s + [PAD]);
    assert s + [PAD] + [PAD] == s + [PAD, PAD];
    assert s + [] == s;
  }

  lemma NothingToStrip(s: seq<Byte>)
    requires s == [] || s[|s| - 1] != PAD
    ensures Stripped(s) == s
  {
  }

  lemma {:induction false} DecodeBare(x: seq<Byte>)
    ensures Decoded(Bare(x)) == Decoding(x, true)
  {
    hide Triple, Quad, Index;
    if |x| == 1 {
      DecodeOne(x[0]);
      assert x == [x[0]];
    } else if |x| == 2 {
      DecodeTwo(x[0], x[1]);
      assert x == [x[0], x[1]];
    } else if |x| >= 3 {
      DecodeThree(x[0], x[1], x[2], Bare(x[3..]));
      DecodeBare(x[3..]);
      assert x == [x[0], x[1], x[2]] + x[3..];
    }
  }

  lemma DecodeOne(a: Byte)
    ensures Decoded(Quad(Triple(a, 0, 0))[..2]) == Decoding([a], true)
  {
    hide Index, Group, High, Triple, Quad, Sextet;
    var t := Triple(a, 0, 0);
    Octets(a, 0, 0);
    Sextets(t);
    QuadBack(t);
    ShortGroups(a, 0);
  }

  lemma DecodeTwo(a: Byte, b: Byte)
    ensures Decoded(Quad(Triple(a, b, 0))[..3]) == Decoding([a, b], true)
  {
    hide Index, Group, High, Middle, Triple, Quad, Sextet;
    var t := Triple(a, b, 0);
    Octets(a, b, 0);
    Sextets(t);
    QuadBack(t);
    ShortGroups(a, b);
    HighIgnoresLow(Sextet(t, 0), Sextet(t, 1), Sextet(t, 2));
  }

  lemma DecodeThree(a: Byte, b: Byte, c: Byte, rest: seq<Byte>)
    ensures Decoded(Quad(Triple(a, b, c)) + rest) == Decoding([a, b, c] + Decoded(rest).written, Decoded(rest).ok)
  {
    var t := Triple(a, b, c);
    Octets(a, b, c);
    QuadBack(t);
    hide Index, Group, High, Middle, Low, Triple, Quad;
    assert (Quad(t) + rest)[4..] == rest;
  }

  lemma EncodedStripped(x: seq<Byte>)
    ensures Stripped(Encoded(x)) == Bare(x)
  {
    BareIsAlphabet(x);
    StripsPadding(Bare(x), |x|);
  }

  /** Decoding an encoding gives the bytes back, for every byte string. */
  lemma RoundTrip(x: seq<Byte>)
    ensures Decoded(Stripped(Encoded(x))) == Decoding(x, true)
  {
    EncodedStripped(x);
    DecodeBare(x);
  }

  /** Section 10 of RFC 4648: "f", "fo" and "foo" are encoded as "Zg==", "Zm8=" and "Zm9v". */
  lemma TestVectors()
    ensures Encoded([102]) == [90, 103, 61, 61]
    ensures Encoded([102, 111]) == [90, 109, 56, 61]
    ensures Encoded([102, 111, 111]) == [90, 109, 57, 118]
  {
  }

  /** Different byte strings have different encodings. */
  lemma Injective(x: seq<Byte>, y: seq<Byte>)
    requires Encoded(x) == Encoded(y)
    ensures x == y
  {
    RoundTrip(x);
    RoundTrip(y);
  }

  // ---------------------------------------------------------------- which texts are decoded, and which are encodings

  /** How many symbols the decoder looks at: a single one left over after the groups of four it does not. */
  function Looked(s: seq<Byte>): (n: nat)
    ensures n <= |s|
  {
    if |s| % 4 == 1 then |s| - 1 else |s|
  }

  /** Every symbol looked at is in the alphabet. */
  predicate Alphabetic(s: seq<Byte>) {
    forall i :: 0 <= i < Looked(s) ==> InAlphabet(s[i])
  }

  /** Every symbol looked at is in the alphabet or beyond the list of the table. */
  predicate Tabled(s: seq<Byte>) {
    forall i :: 0 <= i < Looked(s) ==> InAlphabet(s[i]) || s[i] >= LISTED
  }

  predicate FourValid(s: seq<Byte>)
    requires |s| >= 4
  {
    Index(s[0]) != INVALID && Index(s[1]) != INVALID && Index(s[2]) != INVALID && Index(s[3]) != INVALID
  }

  lemma FirstGroup(s: seq<Byte>)
    requires |s| >= 4
    ensures Decoded(s).ok <==> FourValid(s) && Decoded(s[4..]).ok
    ensures var g := Group(Index(s[0]), Index(s[1]), Index(s[2]), Index(s[3]));
            Decoded(s).ok ==> Decoded(s).written == [High(g), Middle(g), Low(g)] + Decoded(s[4..]).written
  {
    hide Index, Group, High, Middle, Low;
  }

  lemma TabledTail(s: seq<Byte>)
    requires |s| >= 4
    ensures Tabled(s) <==> FourValid(s) && Tabled(s[4..])
  {
    hide Index, InAlphabet;
    IndexIsValid(s[0]);
    IndexIsValid(s[1]);
    IndexIsValid(s[2]);
    IndexIsValid(s[3]);
    var rest := s[4..];
    assert Looked(rest) == Looked(s) - 4;
    forall i | 0 <= i < Looked(rest) ensures rest[i] == s[i + 4] {}
    if FourValid(s) && Tabled(rest) {
      forall i | 0 <= i < Looked(s) ensures InAlphabet(s[i]) || s[i] >= LISTED {
        if i >= 4 { assert InAlphabet(rest[i - 4]) || rest[i - 4] >= LISTED; }
      }
    }
  }

  /** Exactly those texts are accepted. */
  lemma {:induction false} AcceptsExactlyWhen(s: seq<Byte>)
    ensures Decoded(s).ok <==> Tabled(s)
  {
    if |s| >= 4 {
      FirstGroup(s);
      TabledTail(s);
      hide Decoded, Tabled, FourValid;
      AcceptsExactlyWhen(s[4..]);
    } else {
      hide Index, InAlphabet, Group, High, Middle;
      forall i | 0 <= i < |s| ensures Index(s[i]) != INVALID <==> InAlphabet(s[i]) || s[i] >= LISTED {
        IndexIsValid(s[i]);
      }
    }
  }

  /** The decoder tells the alphabet from the rest, except on texts that hold nothing but symbols and bytes beyond the
      list of its table, at least one of these among what it looks at. */
  lemma RefusesExactlyWhen(s: seq<Byte>)
    ensures (Decoded(s).ok <==> Alphabetic(s)) <==> !(Tabled(s) && exists i :: 0 <= i < Looked(s) && s[i] >= LISTED)
  {
    AcceptsExactlyWhen(s);
    hide Decoded, InAlphabet;
    forall i | 0 <= i < |s| ensures InAlphabet(s[i]) ==> s[i] < LISTED {
      IndexIsValid(s[i]);
    }
  }

  /** Four bytes outside the alphabet are decoded as three zero bytes. */
  lemma AcceptsForeignBytes()
    ensures var s := [224, 224, 224, 224]; Decoded(s) == Decoding([0, 0, 0], true) && !Alphabetic(s)
  {
    var s: seq<Byte> := [224, 224, 224, 224];
    assert s[4..] == [];
    assert !InAlphabet(s[0]);
  }

  /** The text with 'A' in place of every byte beyond the list. */
  function AsA(s: seq<Byte>): (r: seq<Byte>)
    ensures |r| == |s|
  {
    seq(|s|, i requires 0 <= i < |s| => if s[i] >= LISTED then 65 else s[i])
  }

  /** Whatever a text holds, it is decoded like that one. */
  lemma {:induction false} ForeignBytesReadAsA(s: seq<Byte>)
    ensures Decoded(s) == Decoded(AsA(s))
  {
    assert forall i :: 0 <= i < |s| ==> Index(AsA(s)[i]) == Index(s[i]);
    hide Index, Group, High, Middle, Low;
    if |s| >= 4 {
      ForeignBytesReadAsA(s[4..]);
      assert AsA(s)[4..] == AsA(s[4..]);
    }
  }

  /** The bits of the last symbol that carry no data are zero, and no symbol stands alone. */
  predicate Tight(s: seq<Byte>) {
    && |s| % 4 != 1
    && (|s| % 4 == 2 ==> Index(s[|s| - 1]) & 0xF == 0)
    && (|s| % 4 == 3 ==> Index(s[|s| - 1]) & 0x3 == 0)
  }

  lemma SymbolsEqual(v: bv32, c: Byte)
    requires v < 64 && Index(c) != INVALID && c < LISTED
    ensures Symbol(v) == c <==> v == Index(c)
  {
    IndexOfSymbol(v);
    SymbolOfIndex(c);
  }

  lemma OneByteSextets(v1: bv32, v2: bv32)
    requires v1 < 64 && v2 < 64
    ensures var t := Triple(High(Group(v1, v2, 0, 0)), 0, 0);
            Sextet(t, 0) == v1 && (Sextet(t, 1) == v2 <==> v2 & 0xF == 0) && Sextet(t, 1) < 64
  {
  }

  lemma TwoByteSextets(v1: bv32, v2: bv32, v3: bv32)
    requires v1 < 64 && v2 < 64 && v3 < 64
    ensures var t := Triple(High(Group(v1, v2, 0, 0)), Middle(Group(v1, v2, v3, 0)), 0);
            Sextet(t, 0) == v1 && Sextet(t, 1) == v2
  {
  }

  lemma TwoByteThird(v1: bv32, v2: bv32, v3: bv32)
    requires v1 < 64 && v2 < 64 && v3 < 64
    ensures var t := Triple(High(Group(v1, v2, 0, 0)), Middle(Group(v1, v2, v3, 0)), 0);
            (Sextet(t, 2) == v3 <==> v3 & 0x3 == 0) && Sextet(t, 2) < 64
  {
  }

  lemma ThreeByteSextets(v1: bv32, v2: bv32, v3: bv32, v4: bv32)
    requires v1 < 64 && v2 < 64 && v3 < 64 && v4 < 64
    ensures var g := Group(v1, v2, v3, v4);
            var t := Triple(High(g), Middle(g), Low(g));
            Sextet(t, 0) == v1 && Sextet(t, 1) == v2 && Sextet(t, 2) == v3 && Sextet(t, 3) == v4
  {
  }

  predicate Listed(s: seq<Byte>) {
    forall i :: 0 <= i < |s| ==> s[i] < LISTED
  }

  /** Encoding what was decoded gives listed symbols back exactly when they are tight. */
  lemma {:induction false} BareAgain(s: seq<Byte>)
    requires Decoded(s).ok && Listed(s)
    ensures Bare(Decoded(s).written) == s <==> Tight(s)
  {
    hide Index, Group, High, Middle, Low, Triple, Quad, Bare, Decoded, Tight, FourValid;
    if |s| >= 4 {
      FirstGroup(s);
      BareAgain(s[4..]);
      GroupAndRest(s);
      TightTail(s);
    } else if |s| >= 2 {
      ShortAgain(s);
    } else {
      NothingAgain(s);
    }
  }

  lemma NothingAgain(s: seq<Byte>)
    requires |s| < 2
    ensures Bare(Decoded(s).written) == s <==> Tight(s)
  {
    hide Index, Quad, Triple;
  }

  lemma GroupAndRest(s: seq<Byte>)
    requires |s| >= 4 && Decoded(s).ok && Listed(s)
    ensures Bare(Decoded(s).written) == s <==> Bare(Decoded(s[4..]).written) == s[4..]
  {
    hide Index, Group, High, Middle, Low, Triple, Quad, Bare, Decoded, FourValid;
    var rest := s[4..];
    FirstGroup(s);
    var g := Group(Index(s[0]), Index(s[1]), Index(s[2]), Index(s[3]));
    BareThree(High(g), Middle(g), Low(g), Decoded(rest).written);
    GroupAgain(s);
    assert s == s[..4] + rest;
    assert (s[..4] + Bare(Decoded(rest).written))[4..] == Bare(Decoded(rest).written);
  }

  lemma TightTail(s: seq<Byte>)
    requires |s| >= 4
    ensures Tight(s) <==> Tight(s[4..])
  {
    hide Index;
    assert |s[4..]| % 4 == |s| % 4;
    assert s[4..] != [] ==> s[4..][|s[4..]| - 1] == s[|s| - 1];
  }

  lemma BareThree(a: Byte, b: Byte, c: Byte, rest: seq<Byte>)
    ensures Bare([a, b, c] + rest) == Quad(Triple(a, b, c)) + Bare(rest)
  {
    hide Quad, Triple;
    assert ([a, b, c] + rest)[3..] == rest;
  }

  lemma GroupAgain(s: seq<Byte>)
    requires |s| >= 4 && FourValid(s) && Listed(s)
    ensures var g := Group(Index(s[0]), Index(s[1]), Index(s[2]), Index(s[3]));
            Quad(Triple(High(g), Middle(g), Low(g))) == s[..4]
  {
    hide Index, Symbol, Sextet, Triple, Group, High, Middle, Low;
    SymbolOfIndex(s[0]);
    SymbolOfIndex(s[1]);
    SymbolOfIndex(s[2]);
    SymbolOfIndex(s[3]);
    ThreeByteSextets(Index(s[0]), Index(s[1]), Index(s[2]), Index(s[3]));
  }

  lemma {:induction false} ShortAgain(s: seq<Byte>)
    requires 2 <= |s| <= 3 && Decoded(s).ok && Listed(s)
    ensures Bare(Decoded(s).written) == s <==> Tight(s)
  {
    hide Index, Symbol, Sextet, Triple, Group, High, Middle, Low;
    var v1, v2 := Index(s[0]), Index(s[1]);
    SymbolOfIndex(s[0]);
    SymbolOfIndex(s[1]);
    if |s| == 2 {
      OneByteSextets(v1, v2);
      SymbolsEqual(Sextet(Triple(High(Group(v1, v2, 0, 0)), 0, 0), 1), s[1]);
    } else {
      var g := Group(v1, v2, Index(s[2]), 0);
      SymbolOfIndex(s[2]);
      TwoByteSextets(v1, v2, Index(s[2]));
      TwoByteThird(v1, v2, Index(s[2]));
      SymbolsEqual(Sextet(Triple(High(Group(v1, v2, 0, 0)), Middle(g), 0), 2), s[2]);
    }
  }

  /** The padding that completes the symbols to groups of four. */
  function Completion(symbols: nat): seq<Byte> {
    if symbols % 4 == 2 then [PAD, PAD] else if symbols % 4 == 3 then [PAD] else []
  }

  lemma {:induction false} DecodedLength(s: seq<Byte>)
    requires Decoded(s).ok
    ensures Padding(|Decoded(s).written|) == Completion(|s|)
  {
    hide Index, Group, High, Middle, Low, FourValid, Decoded;
    if |s| >= 4 {
      FirstGroup(s);
      DecodedLength(s[4..]);
      SameCompletion(s, Decoded(s).written, Decoded(s[4..]).written);
    } else {
      ShortLength(s);
    }
  }

  lemma ShortLength(s: seq<Byte>)
    requires |s| < 4 && Decoded(s).ok
    ensures Padding(|Decoded(s).written|) == Completion(|s|)
  {
    hide Index, Group, High, Middle;
  }

  lemma SameCompletion(s: seq<Byte>, w: seq<Byte>, v: seq<Byte>)
    requires |s| >= 4 && |w| == 3 + |v|
    ensures Padding(|w|) == Padding(|v|) && Completion(|s|) == Completion(|s[4..]|)
  {
  }

  /** Re-encoding what was decoded gives the text back exactly when it is an encoding: in the alphabet, tight, and
      padded to a multiple of four. */
  lemma ReencodesExactlyWhen(s: seq<Byte>)
    ensures var t := Stripped(s);
            Decoded(t).ok && Encoded(Decoded(t).written) == s <==> Alphabetic(t) && Tight(t) && s == t + Completion(|t|)
  {
    var t := Stripped(s);
    AcceptsExactlyWhen(t);
    AlphabeticIsListed(t);
    hide Alphabetic, Tabled, Tight, Decoded, Stripped, Index, InAlphabet;
    if Decoded(t).ok {
      var w := Decoded(t).written;
      DecodedLength(t);
      EncodedStripped(w);
      if Listed(t) { BareAgain(t); } else { ForeignIsNoEncoding(t, w); }
      hide Bare, Padding, Completion, Listed;
    }
  }

  lemma AlphabeticIsListed(s: seq<Byte>)
    ensures Alphabetic(s) && Tight(s) ==> Tabled(s) && Listed(s)
    ensures Tabled(s) && Tight(s) && Listed(s) ==> Alphabetic(s)
  {
    hide InAlphabet, Index;
    forall i | 0 <= i < |s| ensures InAlphabet(s[i]) ==> s[i] < LISTED {
      IndexIsValid(s[i]);
    }
  }

  lemma ForeignIsNoEncoding(s: seq<Byte>, x: seq<Byte>)
    requires !Listed(s)
    ensures Bare(x) != s
  {
    BareIsAlphabet(x);
    forall i | 0 <= i < |Bare(x)| ensures Bare(x)[i] < LISTED {
      IndexIsValid(Bare(x)[i]);
    }
  }

  // ---------------------------------------------------------------- the encoder

  /** The output buffer once `out` has been written at its beginning. */
  ghost predicate Holds(buffer: seq<Byte>, before: seq<Byte>, out: seq<Byte>) {
    |buffer| == |before| && |out| <= |before| && buffer == out + before[|out|..]
  }

  lemma BareStep(x: seq<Byte>, p: nat)
    requires p + 3 <= |x|
    ensures Bare(x[p..]) == Quad(Triple(x[p], x[p + 1], x[p + 2])) + Bare(x[p + 3..])
  {
    assert x[p..][3..] == x[p + 3..];
  }

  method Put(dst: array<Byte>, o: nat, t: bv32, ghost before: seq<Byte>, ghost out: seq<Byte>)
    requires o == |out| && o + 4 <= dst.Length && Holds(dst[..], before, out)
    modifies dst
    ensures Holds(dst[..], before, out + Quad(t))
  {
    var q := Quad(t);
    hide Quad;
    dst[o], dst[o + 1], dst[o + 2], dst[o + 3] := q[0], q[1], q[2], q[3];
  }

  /** Encodes group after group from p0 on, as long as `count` whole groups are left; `count` groups a turn. */
  method EncodeGroups(src: array<Byte>, dst: array<Byte>, p0: nat, o0: nat, count: nat,
                      ghost before: seq<Byte>, ghost out0: seq<Byte>)
    returns (p: nat, o: nat, ghost out: seq<Byte>, ghost groups: nat)
    requires src != dst && count > 0 && p0 <= src.Length && o0 == |out0| && Holds(dst[..], before, out0)
    requires o0 + |Bare(src[p0..])| <= dst.Length
    modifies dst
    ensures p == p0 + 3 * groups <= src.Length && src.Length - p < 3 * count && o == |out| && Holds(dst[..], before, out)
    ensures out + Bare(src[p..]) == out0 + Bare(src[p0..])
  {
    hide Holds, Quad, Triple, Bare;
    p, o, out, groups := p0, o0, out0, 0;
    while src.Length - p >= 3 * count
      invariant p == p0 + 3 * groups <= src.Length && o == |out| && Holds(dst[..], before, out)
      invariant out + Bare(src[p..]) == out0 + Bare(src[p0..])
      decreases src.Length - p
    {
      out := EncodeBlock(src, dst, p, o, count, before, out);
      p, o, groups := p + 3 * count, o + 4 * count, groups + count;
    }
  }

  /** One turn of the loop: `count` groups, read as a block. */
  method EncodeBlock(src: array<Byte>, dst: array<Byte>, p: nat, o: nat, count: nat,
                     ghost before: seq<Byte>, ghost out0: seq<Byte>)
    returns (ghost out: seq<Byte>)
    requires src != dst && p + 3 * count <= src.Length && o == |out0| && Holds(dst[..], before, out0)
    requires o + |Bare(src[p..])| <= dst.Length
    modifies dst
    ensures |out| == o + 4 * count && Holds(dst[..], before, out)
    ensures out + Bare(src[p + 3 * count..]) == out0 + Bare(src[p..])
  {
    hide Holds, Quad, Triple, Bare;
    var block := src[p..p + 3 * count];
    ghost var x := src[..];
    out := out0;
    for i := 0 to count
      invariant o + 4 * i == |out| && Holds(dst[..], before, out)
      invariant out + Bare(x[p + 3 * i..]) == out0 + Bare(x[p..])
    {
      BareStep(x, p + 3 * i);
      var t := Triple(block[3 * i], block[3 * i + 1], block[3 * i + 2]);
      Put(dst, o + 4 * i, t, before, out);
      out := out + Quad(t);
    }
  }

  /** `asm_opt_base64_encode`. Too small a buffer is left alone; otherwise the buffer begins with the encoding and a
      NUL, whether or not the twelve-byte loop ran. */
  method Encode(src: array<Byte>, dst: array<Byte>, neon: bool) returns (length: nat)
    requires src != dst
    modifies dst
    ensures dst.Length < |Encoded(src[..])| + 1 ==> length == 0 && dst[..] == old(dst[..])
    ensures dst.Length >= |Encoded(src[..])| + 1 ==>
              length == |Encoded(src[..])| && Holds(dst[..], old(dst[..]), Encoded(src[..]) + [0])
  {
    var required := (src.Length + 2) / 3 * 4;
    if dst.Length < required + 1 { return 0; }
    ghost var x, before := src[..], dst[..];
    var p, o := 0, 0;
    ghost var out: seq<Byte>, groups: nat := [], 0;
    Beginning(x, before);
    hide Holds, Bare, Encoded, Padding;
    if src.Length >= 12 && neon {
      p, o, out, groups := EncodeGroups(src, dst, p, o, 4, before, out);
    }
    ghost var more: nat;
    p, o, out, more := EncodeGroups(src, dst, p, o, 1, before, out);
    EncodingEnds(x, p, groups + more, out);
    o, out := EncodeTail(src, dst, p, o, groups + more, before, out);
    PutNul(dst, o, before, out);
    length := o;
  }

  lemma Beginning(x: seq<Byte>, before: seq<Byte>)
    ensures Holds(before, before, []) && x[0..] == x && [] + Bare(x) == Bare(x) && |Bare(x)| <= |Encoded(x)|
  {
  }

  /** Once all whole groups are out, the tail completes the encoding; if there is one it takes four characters. */
  lemma {:induction false} EncodingEnds(x: seq<Byte>, p: nat, groups: nat, out: seq<Byte>)
    requires p <= |x| < p + 3 && p == 3 * groups && out + Bare(x[p..]) == Bare(x)
    ensures out + (Bare(x[p..]) + Padding(|x|)) == Encoded(x)
    ensures p < |x| ==> |Encoded(x)| == |out| + 4
  {
    hide Bare;
    assert out + (Bare(x[p..]) + Padding(|x|)) == (out + Bare(x[p..])) + Padding(|x|);
    assert |x[p..]| == |x| % 3;
  }

  method PutNul(dst: array<Byte>, o: nat, ghost before: seq<Byte>, ghost out: seq<Byte>)
    requires o == |out| < dst.Length && Holds(dst[..], before, out)
    modifies dst
    ensures Holds(dst[..], before, out + [0])
  {
    dst[o] := 0;
  }

  /** The one or two bytes left over, with their padding. */
  method EncodeTail(src: array<Byte>, dst: array<Byte>, p: nat, o0: nat, ghost groups: nat,
                    ghost before: seq<Byte>, ghost out0: seq<Byte>)
    returns (o: nat, ghost out: seq<Byte>)
    requires src != dst && p <= src.Length < p + 3 && p == 3 * groups && o0 == |out0| && Holds(dst[..], before, out0)
    requires o0 + 4 <= dst.Length || p == src.Length
    modifies dst
    ensures o == |out| && Holds(dst[..], before, out)
    ensures out == out0 + (Bare(src[p..]) + Padding(src.Length))
  {
    o, out := o0, out0;
    ghost var x := src[p..];
    if src.Length - p > 0 {
      var two := src.Length - p > 1;
      var t := Triple(src[p], if two then src[p + 1] else 0, 0);
      ghost var q := Quad(t);
      hide Quad, Triple;
      Put(dst, o, t, before, out);
      if !two { dst[o + 2] := PAD; }
      dst[o + 3] := PAD;
      out := out + if two then q[..3] + [PAD] else q[..2] + [PAD, PAD];
      o := o + 4;
    }
  }

  // ---------------------------------------------------------------- the decoder

  /** The decoding of a text is what has been written and the decoding of the rest. */
  ghost predicate Continues(all: Decoding, out: seq<Byte>, rest: Decoding) {
    all.written == out + rest.written && all.ok == rest.ok
  }

  /** One group: its values, or a refusal before anything of the group is written. */
  lemma DecodeStep(s: seq<Byte>, p: nat, all: Decoding, out: seq<Byte>)
    requires p + 4 <= |s| && Continues(all, out, Decoded(s[p..]))
    ensures var v1, v2, v3, v4 := Index(s[p]), Index(s[p + 1]), Index(s[p + 2]), Index(s[p + 3]);
            var g := Group(v1, v2, v3, v4);
            if v1 == INVALID || v2 == INVALID || v3 == INVALID || v4 == INVALID then all == Decoding(out, false)
            else Continues(all, out + [High(g), Middle(g), Low(g)], Decoded(s[p + 4..]))
  {
    hide Index, Group, High, Middle, Low;
    assert s[p..][4..] == s[p + 4..];
  }

  method PutThree(dst: array<Byte>, o: nat, g: bv32, ghost before: seq<Byte>, ghost out: seq<Byte>)
    requires o == |out| && o + 3 <= dst.Length && Holds(dst[..], before, out)
    modifies dst
    ensures Holds(dst[..], before, out + [High(g), Middle(g), Low(g)])
  {
    var h, m, l := High(g), Middle(g), Low(g);
    hide High, Middle, Low;
    dst[o], dst[o + 1], dst[o + 2] := h, m, l;
  }

  method StripPadding(src: array<Byte>) returns (n: nat)
    ensures n <= src.Length && src[..n] == Stripped(src[..])
  {
    n := src.Length;
    assert src[..n] == src[..];
    while n > 0 && src[n - 1] == PAD
      invariant n <= src.Length && Stripped(src[..n]) == Stripped(src[..])
    {
      assert src[..n][..n - 1] == src[..n - 1];
      n := n - 1;
    }
  }

  method DecodeGroups(src: array<Byte>, n: nat, dst: array<Byte>, p0: nat, o0: nat, count: nat,
                      ghost all: Decoding, ghost before: seq<Byte>, ghost out0: seq<Byte>)
    returns (ok: bool, p: nat, o: nat, ghost out: seq<Byte>)
    requires src != dst && count > 0 && p0 <= n <= src.Length && o0 == |out0| && Holds(dst[..], before, out0)
    requires Continues(all, out0, Decoded(src[p0..n])) && o0 + (n - p0) * 3 / 4 <= dst.Length
    modifies dst
    ensures ok ==> p0 <= p <= n < p + 4 * count && o == |out| && Holds(dst[..], before, out)
    ensures ok ==> Continues(all, out, Decoded(src[p..n])) && o + (n - p) * 3 / 4 <= dst.Length
    ensures !ok ==> Holds(dst[..], before, all.written) && !all.ok
  {
    hide Holds, Continues, Decoded, Index, Group, High, Middle, Low;
    p, o, out := p0, o0, out0;
    while n - p >= 4 * count
      invariant p0 <= p <= n && o == |out| && Holds(dst[..], before, out)
      invariant Continues(all, out, Decoded(src[p..n])) && o + (n - p) * 3 / 4 <= dst.Length
    {
      var block := src[p..p + 4 * count];
      ghost var s := src[..n];
      assert s[p..] == src[p..n];
      for i := 0 to count
        invariant p + 4 * i <= n && o + 3 * i == |out| && Holds(dst[..], before, out)
        invariant Continues(all, out, Decoded(s[p + 4 * i..]))
      {
        var v1, v2, v3, v4 := Index(block[4 * i]), Index(block[4 * i + 1]), Index(block[4 * i + 2]), Index(block[4 * i + 3]);
        DecodeStep(s, p + 4 * i, all, out);
        if v1 == INVALID || v2 == INVALID || v3 == INVALID || v4 == INVALID { return false, p, o, out; }
        var g := Group(v1, v2, v3, v4);
        PutThree(dst, o + 3 * i, g, before, out);
        out := out + [High(g), Middle(g), Low(g)];
      }
      p := p + 4 * count;
      o := o + 3 * count;
      assert s[p..] == src[p..n];
    }
    ok := true;
  }

  /** `asm_opt_base64_decode`. The buffer ends up with what `Decoded` says has been written, also on a refusal, whether
      or not the sixteen-byte loop ran; the result is the length, or 0 when a character is invalid. */
  method Decode(src: array<Byte>, dst: array<Byte>, neon: bool) returns (length: nat)
    requires src != dst
    modifies dst
    ensures dst.Length < |Stripped(src[..])| * 3 / 4 ==> length == 0 && dst[..] == old(dst[..])
    ensures dst.Length >= |Stripped(src[..])| * 3 / 4 ==>
              var d := Decoded(Stripped(src[..]));
              Holds(dst[..], old(dst[..]), d.written) && length == if d.ok then |d.written| else 0
  {
    var n := StripPadding(src);
    if dst.Length < n * 3 / 4 { return 0; }
    ghost var before, all := dst[..], Decoded(src[..n]);
    var p, o, ok := 0, 0, true;
    ghost var out: seq<Byte> := [];
    assert src[0..n] == src[..n] && Continues(all, out, Decoded(src[0..n])) && Holds(before, before, out);
    hide Holds, Continues, Decoded;
    if n >= 16 && neon {
      ok, p, o, out := DecodeGroups(src, n, dst, p, o, 4, all, before, out);
      if !ok { return 0; }
    }
    ok, p, o, out := DecodeGroups(src, n, dst, p, o, 1, all, before, out);
    if !ok { return 0; }
    length := DecodeTail(src, n, dst, p, o, all, before, out);
  }

  /** The incomplete group at the end; a single left-over character is ignored. */
  method DecodeTail(src: array<Byte>, n: nat, dst: array<Byte>, p: nat, o: nat,
                    ghost all: Decoding, ghost before: seq<Byte>, ghost out: seq<Byte>)
    returns (length: nat)
    requires src != dst && p <= n < p + 4 && n <= src.Length && o == |out| && Holds(dst[..], before, out)
    requires Continues(all, out, Decoded(src[p..n])) && o + (n - p) * 3 / 4 <= dst.Length
    modifies dst
    ensures Holds(dst[..], before, all.written) && length == if all.ok then |all.written| else 0
  {
    hide Index, Group, High, Middle;
    if n - p < 2 { return o; }
    var v1, v2 := Index(src[p]), Index(src[p + 1]);
    if v1 == INVALID || v2 == INVALID { return 0; }
    var v3 := if n - p >= 3 then Index(src[p + 2]) else 0;
    dst[o] := High(Group(v1, v2, 0, 0));
    length := o + 1;
    if n - p >= 3 {
      if v3 == INVALID { return 0; }
      dst[o + 1] := Middle(Group(v1, v2, v3, 0));
      length := length + 1;
    }
  }
}
