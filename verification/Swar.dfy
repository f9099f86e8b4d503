/** Eight bytes at a time: the zero-byte test on 64-bit words and the string routines built on it. */
module Swar {
  import opened Options

  // ---------------------------------------------------------------- words

  /** The expression the routines test. */
  predicate ZeroByteTest(v: bv64) {
    (v - 0x0101010101010101) & !v & 0x8080808080808080 != 0
  }

  /** The little-endian word of eight bytes. */
  function Word(b0: bv8, b1: bv8, b2: bv8, b3: bv8, b4: bv8, b5: bv8, b6: bv8, b7: bv8): bv64 {
    (b0 as bv64) | (b1 as bv64 << 8) | (b2 as bv64 << 16) | (b3 as bv64 << 24)
    | (b4 as bv64 << 32) | (b5 as bv64 << 40) | (b6 as bv64 << 48) | (b7 as bv64 << 56)
  }

  /** `ldr` of eight bytes. */
  function Load(m: seq<bv8>, p: nat): bv64
    requires p + 8 <= |m|
  {
    Word(m[p], m[p + 1], m[p + 2], m[p + 3], m[p + 4], m[p + 5], m[p + 6], m[p + 7])
  }

  /** Byte k of a word, counted from the low end. */
  function Byte(v: bv64, k: nat): bv8
    requires k < 8
  {
    if k == 0 then (v & 0xFF) as bv8
    else if k == 1 then ((v >> 8) & 0xFF) as bv8
    else if k == 2 then ((v >> 16) & 0xFF) as bv8
    else if k == 3 then ((v >> 24) & 0xFF) as bv8
    else if k == 4 then ((v >> 32) & 0xFF) as bv8
    else if k == 5 then ((v >> 40) & 0xFF) as bv8
    else if k == 6 then ((v >> 48) & 0xFF) as bv8
    else ((v >> 56) & 0xFF) as bv8
  }

  /** The test holds of a word exactly when one of its eight bytes is zero. */
  lemma TestIsExact(v: bv64)
    ensures ZeroByteTest(v) <==> exists k :: 0 <= k < 8 && Byte(v, k) == 0
  {
    TestByBytes(v);
    hide ZeroByteTest, Byte;
  }

  lemma TestByBytes(v: bv64)
    ensures ZeroByteTest(v) <==>
      || Byte(v, 0) == 0 || Byte(v, 1) == 0 || Byte(v, 2) == 0 || Byte(v, 3) == 0
      || Byte(v, 4) == 0 || Byte(v, 5) == 0 || Byte(v, 6) == 0 || Byte(v, 7) == 0
  {
  }

  /** The word in which the bytes equal to the target have become zero. */
  function Masked(v: bv64, c: bv8): bv64 {
    v ^ (0x0101010101010101 * (c as bv64))
  }

  lemma ByteOfMasked0(v: bv64, c: bv8)
    ensures Byte(Masked(v, c), 0) == 0 <==> Byte(v, 0) == c
  {
  }

  lemma ByteOfMasked1(v: bv64, c: bv8)
    ensures Byte(Masked(v, c), 1) == 0 <==> Byte(v, 1) == c
  {
  }

  lemma ByteOfMasked2(v: bv64, c: bv8)
    ensures Byte(Masked(v, c), 2) == 0 <==> Byte(v, 2) == c
  {
  }

  lemma ByteOfMasked3(v: bv64, c: bv8)
    ensures Byte(Masked(v, c), 3) == 0 <==> Byte(v, 3) == c
  {
  }

  lemma ByteOfMasked4(v: bv64, c: bv8)
    ensures Byte(Masked(v, c), 4) == 0 <==> Byte(v, 4) == c
  {
  }

  lemma ByteOfMasked5(v: bv64, c: bv8)
    ensures Byte(Masked(v, c), 5) == 0 <==> Byte(v, 5) == c
  {
  }

  lemma ByteOfMasked6(v: bv64, c: bv8)
    ensures Byte(Masked(v, c), 6) == 0 <==> Byte(v, 6) == c
  {
  }

  lemma ByteOfMasked7(v: bv64, c: bv8)
    ensures Byte(Masked(v, c), 7) == 0 <==> Byte(v, 7) == c
  {
  }

  lemma ByteOfMasked(v: bv64, c: bv8, k: nat)
    requires k < 8
    ensures Byte(Masked(v, c), k) == 0 <==> Byte(v, k) == c
  {
    hide Byte, Masked;
    ByteOfMasked0(v, c);
    ByteOfMasked1(v, c);
    ByteOfMasked2(v, c);
    ByteOfMasked3(v, c);
    ByteOfMasked4(v, c);
    ByteOfMasked5(v, c);
    ByteOfMasked6(v, c);
    ByteOfMasked7(v, c);
  }

  lemma BytesOfWord(b0: bv8, b1: bv8, b2: bv8, b3: bv8, b4: bv8, b5: bv8, b6: bv8, b7: bv8)
    ensures var v := Word(b0, b1, b2, b3, b4, b5, b6, b7);
            && Byte(v, 0) == b0 && Byte(v, 1) == b1 && Byte(v, 2) == b2 && Byte(v, 3) == b3
            && Byte(v, 4) == b4 && Byte(v, 5) == b5 && Byte(v, 6) == b6 && Byte(v, 7) == b7
  {
  }

  /** A loaded word holds the bytes of memory in order. */
  lemma BytesOfLoad(m: seq<bv8>, p: nat, k: nat)
    requires p + 8 <= |m| && k < 8
    ensures Byte(Load(m, p), k) == m[p + k]
  {
    hide Byte, Word;
    BytesOfWord(m[p], m[p + 1], m[p + 2], m[p + 3], m[p + 4], m[p + 5], m[p + 6], m[p + 7]);
  }

  /** On a loaded word the test finds exactly the zero bytes in memory. */
  lemma TestOfLoad(m: seq<bv8>, p: nat)
    requires p + 8 <= |m|
    ensures ZeroByteTest(Load(m, p)) <==> exists i :: p <= i < p + 8 && m[i] == 0
  {
    hide Byte, Load, ZeroByteTest;
    var v := Load(m, p);
    TestIsExact(v);
    forall k | 0 <= k < 8 ensures Byte(v, k) == m[p + k] {
      BytesOfLoad(m, p, k);
    }
    if i :| p <= i < p + 8 && m[i] == 0 { assert Byte(v, i - p) == 0; }
  }

  /** On a loaded word masked with the target, it finds exactly the occurrences of the target. */
  lemma MatchOfLoad(m: seq<bv8>, p: nat, c: bv8)
    requires p + 8 <= |m|
    ensures ZeroByteTest(Masked(Load(m, p), c)) <==> exists i :: p <= i < p + 8 && m[i] == c
  {
    hide Byte, Load, ZeroByteTest, Masked;
    var v, w := Load(m, p), Masked(Load(m, p), c);
    TestIsExact(w);
    forall k: nat | k < 8 ensures Byte(w, k) == 0 <==> Byte(v, k) == c {
      ByteOfMasked(v, c, k);
    }
    forall k: nat | k < 8 ensures Byte(v, k) == m[p + k] {
      BytesOfLoad(m, p, k);
    }
    if i :| p <= i < p + 8 && m[i] == c { assert Byte(w, i - p) == 0; }
  }

  /** The bytes at offset i of two places agree. */
  predicate EqualAt(m: seq<bv8>, p: nat, q: nat, i: nat)
    requires p + i < |m| && q + i < |m|
  {
    m[p + i] == m[q + i]
  }

  predicate EightEqual(m: seq<bv8>, p: nat, q: nat)
    requires p + 8 <= |m| && q + 8 <= |m|
  {
    forall i: nat :: i < 8 ==> EqualAt(m, p, q, i)
  }

  /** Two loaded words are equal exactly when the bytes are. */
  lemma LoadEqual(m: seq<bv8>, p: nat, q: nat)
    requires p + 8 <= |m| && q + 8 <= |m|
    ensures Load(m, p) == Load(m, q) <==> EightEqual(m, p, q)
  {
    if Load(m, p) == Load(m, q) {
      forall i: nat | i < 8 ensures EqualAt(m, p, q, i) {
        BytesOfLoad(m, p, i);
        BytesOfLoad(m, q, i);
      }
    }
    if EightEqual(m, p, q) {
      hide Word;
      assert EqualAt(m, p, q, 0) && EqualAt(m, p, q, 1) && EqualAt(m, p, q, 2) && EqualAt(m, p, q, 3);
      assert EqualAt(m, p, q, 4) && EqualAt(m, p, q, 5) && EqualAt(m, p, q, 6) && EqualAt(m, p, q, 7);
    }
  }

  // ---------------------------------------------------------------- strings in memory, byte by byte

  ghost predicate Terminated(m: seq<bv8>, s: nat) {
    exists i :: s <= i < |m| && m[i] == 0
  }

  /** Where the string at s ends. */
  ghost function End(m: seq<bv8>, s: nat): (e: nat)
    requires Terminated(m, s)
    ensures s <= e < |m| && m[e] == 0 && forall i :: s <= i < e ==> m[i] != 0
    decreases |m| - s
  {
    if m[s] == 0 then s else End(m, s + 1)
  }

  /** The bytes up to a multiple of eight past the start, terminator included, may be read. */
  ghost predicate Padded(m: seq<bv8>, s: nat) {
    Terminated(m, s) && s + 8 * ((End(m, s) - s) / 8) + 8 <= |m|
  }

  /** The strings at a and b agree and go on for k characters, and there one ends or they differ. */
  ghost predicate Decides(m: seq<bv8>, a: nat, b: nat, k: nat) {
    && a + k < |m| && b + k < |m|
    && (m[a + k] != m[b + k] || m[a + k] == 0)
    && Alike(m, a, b, k)
  }

  ghost predicate Alike(m: seq<bv8>, a: nat, b: nat, k: nat)
    requires a + k <= |m| && b + k <= |m|
  {
    forall i: nat :: i < k ==> AlikeAt(m, a, b, i)
  }

  predicate AlikeAt(m: seq<bv8>, a: nat, b: nat, i: nat)
    requires a + i < |m| && b + i < |m|
  {
    m[a + i] == m[b + i] != 0
  }

  function Difference(m: seq<bv8>, a: nat, b: nat): int
    requires a < |m| && b < |m|
  {
    m[a] as int - m[b] as int
  }

  /** At most one character decides a comparison, so the result is determined. */
  lemma DecidesOnce(m: seq<bv8>, a: nat, b: nat, j: nat, k: nat)
    requires Decides(m, a, b, j) && Decides(m, a, b, k)
    ensures j == k
  {
    assert j < k ==> AlikeAt(m, a, b, j);
    assert k < j ==> AlikeAt(m, a, b, k);
  }

  /** A difference of 0 means equal strings. */
  lemma ZeroMeansEqual(m: seq<bv8>, a: nat, b: nat, k: nat)
    requires Terminated(m, a) && Terminated(m, b) && Decides(m, a, b, k)
    ensures Difference(m, a + k, b + k) == 0 <==> m[a..End(m, a)] == m[b..End(m, b)]
  {
    var x, y := m[a..End(m, a)], m[b..End(m, b)];
    LongerThan(m, a, b, k);
    if m[a + k] == m[b + k] {
      assert End(m, a) == a + k && End(m, b) == b + k;
      forall i: nat | i < k ensures x[i] == y[i] {
        assert AlikeAt(m, a, b, i);
      }
    } else if k < |x| && k < |y| {
      assert x[k] != y[k];
    } else {
      assert |x| != |y|;
    }
  }

  /** Strings in dictionary order of their bytes. */
  predicate Precedes(x: seq<bv8>, y: seq<bv8>) {
    y != [] && (x == [] || x[0] < y[0] || (x[0] == y[0] && Precedes(x[1..], y[1..])))
  }

  lemma ByteOrder(x: bv8, y: bv8)
    ensures x as int - y as int < 0 <==> x < y
    ensures x == 0 ==> !(y < x)
  {
  }

  /** The first character decides. */
  lemma FirstDecides(m: seq<bv8>, a: nat, b: nat)
    requires Terminated(m, a) && Terminated(m, b) && (m[a] != m[b] || m[a] == 0)
    ensures m[a] < m[b] <==> Precedes(m[a..End(m, a)], m[b..End(m, b)])
  {
    ByteOrder(m[a], m[b]);
    var x, y := m[a..End(m, a)], m[b..End(m, b)];
    assert x == [] <==> m[a] == 0;
    assert y == [] <==> m[b] == 0;
    assert x != [] ==> x[0] == m[a];
    assert y != [] ==> y[0] == m[b];
    hide End, Terminated;
  }

  /** An equal first character leaves it to the others. */
  lemma OthersDecide(m: seq<bv8>, a: nat, b: nat)
    requires Terminated(m, a) && Terminated(m, b) && m[a] == m[b] != 0
    ensures Terminated(m, a + 1) && Terminated(m, b + 1)
    ensures Precedes(m[a..End(m, a)], m[b..End(m, b)])
        <==> Precedes(m[a + 1..End(m, a + 1)], m[b + 1..End(m, b + 1)])
  {
    var x, y := m[a..End(m, a)], m[b..End(m, b)];
    assert x[1..] == m[a + 1..End(m, a + 1)] && y[1..] == m[b + 1..End(m, b + 1)];
  }

  /** The sign of the difference is the order of the strings. */
  lemma {:induction false} SignIsOrder(m: seq<bv8>, a: nat, b: nat, k: nat)
    requires Terminated(m, a) && Terminated(m, b) && Decides(m, a, b, k)
    ensures Difference(m, a + k, b + k) < 0 <==> Precedes(m[a..End(m, a)], m[b..End(m, b)])
    decreases k
  {
    hide Terminated, Precedes, End;
    ByteOrder(m[a + k], m[b + k]);
    if k == 0 {
      FirstDecides(m, a, b);
    } else {
      assert AlikeAt(m, a, b, 0);
      var a', b' := a + 1, b + 1;
      forall i: nat | i < k - 1 ensures AlikeAt(m, a', b', i) {
        assert AlikeAt(m, a, b, i + 1);
      }
      OthersDecide(m, a, b);
      SignIsOrder(m, a', b', k - 1);
    }
  }

  lemma {:induction false} LongerThan(m: seq<bv8>, a: nat, b: nat, k: nat)
    requires a + k <= |m| && b + k <= |m| && Alike(m, a, b, k)
    ensures Terminated(m, a) ==> a + k <= End(m, a)
    ensures Terminated(m, b) ==> b + k <= End(m, b)
  {
    if k > 0 {
      LongerThan(m, a, b, k - 1);
      assert AlikeAt(m, a, b, k - 1);
    }
  }

  // ---------------------------------------------------------------- the routines

  /** `asm_opt_strlen`. */
  method Strlen(mem: array<bv8>, s: nat) returns (length: nat)
    requires Padded(mem[..], s)
    ensures length == End(mem[..], s) - s
  {
    ghost var m, e := mem[..], End(mem[..], s);
    var ptr := s;
    while true
      invariant s <= ptr <= e && (ptr - s) % 8 == 0
      decreases e - ptr
    {
      WithinPadding(m, s, ptr);
      var chunk := Load(mem[..], ptr);
      TestOfLoad(m, ptr);
      if ZeroByteTest(chunk) {
        while mem[ptr] != 0
          invariant s <= ptr <= e
          decreases e - ptr
        {
          ptr := ptr + 1;
        }
        break;
      }
      assert ptr + 8 <= e;
      ptr := ptr + 8;
    }
    length := ptr - s;
  }

  /** A word read inside a padded string stays inside the padding. */
  lemma WithinPadding(m: seq<bv8>, s: nat, p: nat)
    requires Padded(m, s) && s <= p <= End(m, s) && (p - s) % 8 == 0
    ensures p + 8 <= |m|
  {
    var e := End(m, s);
    assert (p - s) / 8 <= (e - s) / 8;
  }

  lemma RoomForWord(m: seq<bv8>, s: nat, k: nat)
    requires Padded(m, s) && s + k <= End(m, s) && k % 8 == 0
    ensures Terminated(m, s) && s + k + 8 <= |m|
  {
    WithinPadding(m, s, s + k);
  }

  /** Equal words after k alike characters: without a NUL eight more are alike, with one the strings are equal. */
  lemma EqualWords(m: seq<bv8>, a: nat, b: nat, k: nat)
    requires Terminated(m, a) && Terminated(m, b) && a + k + 8 <= |m| && b + k + 8 <= |m| && Alike(m, a, b, k)
    requires EightEqual(m, a + k, b + k)
    ensures if ZeroByteTest(Load(m, a + k)) then exists j :: Decides(m, a, b, j) && Difference(m, a + j, b + j) == 0
            else Alike(m, a, b, k + 8) && a + k + 8 <= End(m, a) && b + k + 8 <= End(m, b)
  {
    hide Load, ZeroByteTest, Alike, Decides, Difference, EightEqual, Terminated, End;
    TestOfLoad(m, a + k);
    AlikeOnward(m, a, b, k);
    if !ZeroByteTest(Load(m, a + k)) { LongerThan(m, a, b, k + 8); }
  }

  /** The word of each string at the pointers: whether they are equal, and whether they hold a NUL. */
  method CompareWords(mem: array<bv8>, p1: nat, p2: nat, ghost s1: nat, ghost s2: nat, ghost k: nat)
    returns (equal: bool, ended: bool)
    requires Padded(mem[..], s1) && Padded(mem[..], s2) && k % 8 == 0
    requires p1 == s1 + k <= End(mem[..], s1) && p2 == s2 + k <= End(mem[..], s2) && Alike(mem[..], s1, s2, k)
    ensures equal && ended ==> exists j :: Decides(mem[..], s1, s2, j) && Difference(mem[..], s1 + j, s2 + j) == 0
    ensures equal && !ended ==>
              Alike(mem[..], s1, s2, k + 8) && p1 + 8 <= End(mem[..], s1) && p2 + 8 <= End(mem[..], s2)
  {
    hide Load, ZeroByteTest, Alike, Decides, Difference, End, Padded, Terminated, EightEqual;
    ghost var m := mem[..];
    RoomForWord(m, s1, k);
    RoomForWord(m, s2, k);
    LoadEqual(m, p1, p2);
    if EightEqual(m, p1, p2) { EqualWords(m, s1, s2, k); }
    var chunk1, chunk2 := Load(mem[..], p1), Load(mem[..], p2);
    equal, ended := chunk1 == chunk2, ZeroByteTest(chunk1);
  }

  /** `asm_opt_strcmp`. */
  method Strcmp(mem: array<bv8>, s1: nat, s2: nat) returns (r: int)
    requires Padded(mem[..], s1) && Padded(mem[..], s2)
    ensures exists k :: Decides(mem[..], s1, s2, k) && r == Difference(mem[..], s1 + k, s2 + k)
  {
    ghost var m, e1, e2 := mem[..], End(mem[..], s1), End(mem[..], s2);
    assert Terminated(m, s1) && Terminated(m, s2);
    hide Alike, Decides, Difference, End, Padded, Terminated;
    AlikeNone(m, s1, s2);
    var p1, p2 := s1, s2;
    ghost var k := 0;
    while true
      invariant p1 == s1 + k <= e1 && p2 == s2 + k <= e2 && k % 8 == 0
      invariant Alike(m, s1, s2, k)
      decreases e1 - p1
    {
      var equal, ended := CompareWords(mem, p1, p2, s1, s2, k);
      if !equal {
        r := ByteCompare(mem, p1, p2, s1, s2, k);
        return;
      }
      if ended {
        return 0;
      }
      p1, p2, k := p1 + 8, p2 + 8, k + 8;
    }
  }

  /** The byte loop that settles a comparison once two words differ. */
  method ByteCompare(mem: array<bv8>, from1: nat, from2: nat, ghost s1: nat, ghost s2: nat, ghost start: nat)
    returns (r: int)
    requires Terminated(mem[..], s1) && Terminated(mem[..], s2)
    requires from1 == s1 + start <= End(mem[..], s1) && from2 == s2 + start <= End(mem[..], s2)
    requires Alike(mem[..], s1, s2, start)
    ensures exists k :: Decides(mem[..], s1, s2, k) && r == Difference(mem[..], s1 + k, s2 + k)
  {
    ghost var m, k := mem[..], start;
    var p1, p2 := from1, from2;
    while mem[p1] == mem[p2] && mem[p1] != 0
      invariant p1 == s1 + k <= End(m, s1) && p2 == s2 + k <= End(m, s2) && Alike(m, s1, s2, k)
      decreases End(m, s1) - p1
    {
      assert AlikeAt(m, s1, s2, k);
      p1, p2, k := p1 + 1, p2 + 1, k + 1;
    }
    assert Decides(m, s1, s2, k);
    r := mem[p1] as int - mem[p2] as int;
  }

  lemma ReadableStarts(m: seq<bv8>, s: nat, n: nat)
    requires Readable(m, s, n)
    ensures s <= |m|
  {
  }

  lemma AlikeNone(m: seq<bv8>, a: nat, b: nat)
    requires a <= |m| && b <= |m|
    ensures Alike(m, a, b, 0)
  {
  }

  /** Eight equal bytes after k alike ones: either one of them ends both strings, or k + 8 are alike. */
  lemma AlikeOnward(m: seq<bv8>, a: nat, b: nat, k: nat)
    requires a + k + 8 <= |m| && b + k + 8 <= |m| && Alike(m, a, b, k)
    requires EightEqual(m, a + k, b + k)
    ensures (forall i :: a + k <= i < a + k + 8 ==> m[i] != 0) ==> Alike(m, a, b, k + 8)
    ensures (exists i :: a + k <= i < a + k + 8 && m[i] == 0) ==>
              exists j :: Decides(m, a, b, j) && Difference(m, a + j, b + j) == 0
  {
    var j := k;
    while j < k + 8 && m[a + j] != 0
      invariant k <= j <= k + 8 && Alike(m, a, b, j)
      invariant forall i :: a + k <= i < a + j ==> m[i] != 0
    {
      assert EqualAt(m, a + k, b + k, j - k);
      assert AlikeAt(m, a, b, j);
      j := j + 1;
    }
    if j < k + 8 {
      assert EqualAt(m, a + k, b + k, j - k);
      assert Decides(m, a, b, j);
    }
  }

  // ---------------------------------------------------------------- bounded comparison

  /** Either n bytes may be read, or the string ends before that and is padded. */
  ghost predicate Readable(m: seq<bv8>, s: nat, n: nat) {
    s + n <= |m| || (Padded(m, s) && End(m, s) - s < n)
  }

  /** k is where a comparison of at most n characters stops; k == n means that n characters agreed. */
  ghost predicate DecidesWithin(m: seq<bv8>, a: nat, b: nat, n: nat, k: nat) {
    k <= n && if k < n then Decides(m, a, b, k) else a + n <= |m| && b + n <= |m| && Alike(m, a, b, n)
  }

  function DifferenceWithin(m: seq<bv8>, a: nat, b: nat, n: nat, k: nat): int
    requires k < n ==> a + k < |m| && b + k < |m|
  {
    if k < n then Difference(m, a + k, b + k) else 0
  }

  /** After k alike characters the next one may be read, and a whole word if eight more are wanted. */
  lemma StillReadable(m: seq<bv8>, a: nat, b: nat, n: nat, k: nat)
    requires Readable(m, a, n) && Readable(m, b, n) && k <= n
    requires a + k <= |m| && b + k <= |m| && Alike(m, a, b, k)
    ensures k < n ==> a + k < |m| && b + k < |m|
    ensures k + 8 <= n && k % 8 == 0 ==> a + k + 8 <= |m| && b + k + 8 <= |m|
  {
    LongerThan(m, a, b, k);
    hide Alike;
    if a + n > |m| && k % 8 == 0 { WithinPadding(m, a, a + k); }
    if b + n > |m| && k % 8 == 0 { WithinPadding(m, b, b + k); }
  }

  /** `asm_opt_strncmp`; below eight characters it leaves the work to the C library, modelled by the byte loop. */
  method Strncmp(mem: array<bv8>, s1: nat, s2: nat, n: nat) returns (r: int)
    requires Readable(mem[..], s1, n) && Readable(mem[..], s2, n)
    ensures exists k :: DecidesWithin(mem[..], s1, s2, n, k) && r == DifferenceWithin(mem[..], s1, s2, n, k)
  {
    hide Load, ZeroByteTest, Padded, Alike, DecidesWithin, DifferenceWithin, EightEqual, Readable;
    ghost var m := mem[..];
    assert s1 <= |m| && s2 <= |m| by {
      ReadableStarts(m, s1, n);
      ReadableStarts(m, s2, n);
    }
    AlikeNone(m, s1, s2);
    var compared := 0;
    StillReadable(m, s1, s2, n, 0);
    while compared + 8 <= n
      invariant compared <= n && compared % 8 == 0
      invariant s1 + compared <= |m| && s2 + compared <= |m| && Alike(m, s1, s2, compared)
    {
      StillReadable(m, s1, s2, n, compared);
      var p1, p2 := s1 + compared, s2 + compared;
      var chunk1, chunk2 := Load(mem[..], p1), Load(mem[..], p2);
      LoadEqual(m, p1, p2);
      TestOfLoad(m, p1);
      if chunk1 != chunk2 {
        r := DifferenceInEight(mem, s1, s2, n, compared);
        return;
      }
      AlikeOnward(m, s1, s2, compared);
      if ZeroByteTest(chunk1) {
        DecidedInEight(m, s1, s2, n, compared);
        return 0;
      }
      compared := compared + 8;
    }
    r := ByteCompareWithin(mem, s1, s2, n, compared);
  }

  /** A word with the terminator in it that is equal on both sides decides the comparison at equality. */
  lemma DecidedInEight(m: seq<bv8>, a: nat, b: nat, n: nat, k: nat)
    requires a + k + 8 <= |m| && b + k + 8 <= |m| && k + 8 <= n && Alike(m, a, b, k)
    requires EightEqual(m, a + k, b + k) && exists i :: a + k <= i < a + k + 8 && m[i] == 0
    ensures exists j :: DecidesWithin(m, a, b, n, j) && DifferenceWithin(m, a, b, n, j) == 0
  {
    AlikeOnward(m, a, b, k);
    var j: nat :| Decides(m, a, b, j) && Difference(m, a + j, b + j) == 0;
    var i :| a + k <= i < a + k + 8 && m[i] == 0;
    assert j >= n ==> AlikeAt(m, a, b, i - a);
    assert DecidesWithin(m, a, b, n, j);
  }

  /** The byte loop over two different words. */
  method DifferenceInEight(mem: array<bv8>, s1: nat, s2: nat, n: nat, compared: nat) returns (r: int)
    requires s1 + compared + 8 <= mem.Length && s2 + compared + 8 <= mem.Length && compared + 8 <= n
    requires Alike(mem[..], s1, s2, compared) && !EightEqual(mem[..], s1 + compared, s2 + compared)
    ensures exists k :: DecidesWithin(mem[..], s1, s2, n, k) && r == DifferenceWithin(mem[..], s1, s2, n, k)
  {
    ghost var m := mem[..];
    for i := 0 to 8
      invariant Alike(m, s1, s2, compared + i)
    {
      if mem[s1 + compared + i] != mem[s2 + compared + i] {
        assert DecidesWithin(m, s1, s2, n, compared + i);
        return mem[s1 + compared + i] as int - mem[s2 + compared + i] as int;
      }
      if mem[s1 + compared + i] == 0 {
        assert DecidesWithin(m, s1, s2, n, compared + i);
        return 0;
      }
      assert AlikeAt(m, s1, s2, compared + i);
    }
    var p1, p2 := s1 + compared, s2 + compared;
    forall i: nat | i < 8 ensures EqualAt(m, p1, p2, i) {
      assert AlikeAt(m, s1, s2, compared + i);
    }
    assert false;
    return 0;
  }

  method ByteCompareWithin(mem: array<bv8>, s1: nat, s2: nat, n: nat, start: nat) returns (r: int)
    requires Readable(mem[..], s1, n) && Readable(mem[..], s2, n) && start <= n
    requires s1 + start <= mem.Length && s2 + start <= mem.Length && Alike(mem[..], s1, s2, start)
    ensures exists k :: DecidesWithin(mem[..], s1, s2, n, k) && r == DifferenceWithin(mem[..], s1, s2, n, k)
  {
    ghost var m := mem[..];
    var k: nat := start;
    StillReadable(m, s1, s2, n, k);
    while k < n && mem[s1 + k] == mem[s2 + k] && mem[s1 + k] != 0
      invariant start <= k <= n && s1 + k <= |m| && s2 + k <= |m| && Alike(m, s1, s2, k)
      invariant k < n ==> s1 + k < |m| && s2 + k < |m|
    {
      assert AlikeAt(m, s1, s2, k);
      k := k + 1;
      StillReadable(m, s1, s2, n, k);
    }
    r := if k >= n then 0 else mem[s1 + k] as int - mem[s2 + k] as int;
    assert mem[..] == m;
    assert DecidesWithin(mem[..], s1, s2, n, k);
    assert r == DifferenceWithin(mem[..], s1, s2, n, k);
  }

  // ---------------------------------------------------------------- searching

  /** r is the first place of c in the string at s, its terminator included. */
  ghost predicate IsFirstOf(m: seq<bv8>, s: nat, c: bv8, r: Option<nat>)
    requires Terminated(m, s)
  {
    match r
    case None => forall i :: s <= i <= End(m, s) ==> m[i] != c
    case Some(i) => s <= i <= End(m, s) && m[i] == c && forall j :: s <= j < i ==> m[j] != c
  }

  /** `asm_opt_strchr`; the target is the argument converted to a character. */
  method Strchr(mem: array<bv8>, s: nat, c: bv32) returns (r: Option<nat>)
    requires Padded(mem[..], s)
    ensures IsFirstOf(mem[..], s, (c & 0xFF) as bv8, r)
  {
    hide Load, ZeroByteTest, Masked;
    ghost var m, e := mem[..], End(mem[..], s);
    var target := (c & 0xFF) as bv8;
    var ptr := s;
    while true
      invariant s <= ptr <= e && (ptr - s) % 8 == 0
      invariant forall j :: s <= j < ptr ==> m[j] != target
      decreases e - ptr
    {
      WithinPadding(m, s, ptr);
      var chunk := Load(mem[..], ptr);
      MatchOfLoad(m, ptr, target);
      if ZeroByteTest(Masked(chunk, target)) {
        r := FirstOfEight(mem, ptr, target, s);
        return;
      }
      TestOfLoad(m, ptr);
      if ZeroByteTest(chunk) {
        r := FirstOfEight(mem, ptr, target, s);
        return;
      }
      assert ptr + 8 <= e;
      ptr := ptr + 8;
    }
  }

  /** The byte loop over a word that holds the target or the terminator. */
  method FirstOfEight(mem: array<bv8>, ptr: nat, target: bv8, ghost s: nat) returns (r: Option<nat>)
    requires Terminated(mem[..], s) && s <= ptr <= End(mem[..], s) && ptr + 8 <= mem.Length
    requires forall j :: s <= j < ptr ==> mem[..][j] != target
    requires exists i :: ptr <= i < ptr + 8 && (mem[..][i] == target || mem[..][i] == 0)
    ensures IsFirstOf(mem[..], s, target, r)
  {
    ghost var m := mem[..];
    for i := 0 to 8
      invariant ptr + i <= End(m, s)
      invariant forall j :: s <= j < ptr + i ==> m[j] != target
    {
      if mem[ptr + i] == target { return Some(ptr + i); }
      if mem[ptr + i] == 0 { return None; }
    }
    assert false;
    return None;
  }

  /** r is the last place in [lo, hi) of a byte that, as an int, equals c. */
  ghost predicate IsLastOf(m: seq<bv8>, lo: nat, hi: nat, c: bv32, r: Option<nat>)
    requires hi <= |m|
  {
    match r
    case None => forall i :: lo <= i < hi ==> !Equals(m[i], c)
    case Some(i) => lo <= i < hi && Equals(m[i], c) && forall j :: i < j < hi ==> !Equals(m[j], c)
  }

  /** `*ptr == c`: the character is promoted to int, the argument is not converted. */
  predicate Equals(b: bv8, c: bv32) {
    b as bv32 == c
  }

  /** `asm_opt_strrchr`: the argument is compared unconverted, and the terminator is never looked at. */
  method Strrchr(mem: array<bv8>, s: nat, c: bv32) returns (last: Option<nat>)
    requires Padded(mem[..], s)
    ensures IsLastOf(mem[..], s, End(mem[..], s), c, last)
  {
    hide Load, ZeroByteTest, IsLastOf, Equals;
    ghost var m, e := mem[..], End(mem[..], s);
    last := None;
    NothingYet(m, s, c);
    var ptr := s;
    while true
      invariant s <= ptr <= e && (ptr - s) % 8 == 0 && IsLastOf(m, s, ptr, c, last)
      decreases e - ptr
    {
      WithinPadding(m, s, ptr);
      var chunk := Load(mem[..], ptr);
      TestOfLoad(m, ptr);
      if ZeroByteTest(chunk) {
        while mem[ptr] != 0
          invariant s <= ptr <= e && IsLastOf(m, s, ptr, c, last)
          decreases e - ptr
        {
          OneMore(m, s, ptr, c, last);
          if Equals(mem[ptr], c) { last := Some(ptr); }
          ptr := ptr + 1;
        }
        return;
      }
      for i := 0 to 8
        invariant IsLastOf(m, s, ptr + i, c, last)
      {
        OneMore(m, s, ptr + i, c, last);
        if Equals(mem[ptr + i], c) { last := Some(ptr + i); }
      }
      assert ptr + 8 <= e;
      ptr := ptr + 8;
    }
  }

  lemma NothingYet(m: seq<bv8>, lo: nat, c: bv32)
    requires lo <= |m|
    ensures IsLastOf(m, lo, lo, c, None)
  {
  }

  lemma OneMore(m: seq<bv8>, lo: nat, hi: nat, c: bv32, last: Option<nat>)
    requires lo <= hi < |m| && IsLastOf(m, lo, hi, c, last)
    ensures IsLastOf(m, lo, hi + 1, c, if Equals(m[hi], c) then Some(hi) else last)
  {
    hide Equals;
  }

  /** What the C library promises: the argument is converted to a character and the terminator is part of the string.
      The routine agrees with it exactly when the argument is a non-zero character, or is out of the range of
      characters and converts to one that is neither zero nor in the string. */
  lemma StrrchrAgreesExactlyWhen(m: seq<bv8>, s: nat, c: bv32, r: Option<nat>, std: Option<nat>)
    requires Terminated(m, s)
    requires IsLastOf(m, s, End(m, s), c, r) && IsLastOf(m, s, End(m, s) + 1, c & 0xFF, std)
    ensures r == std <==>
              (0 < c < 256) || (c & 0xFF != 0 && forall i :: s <= i < End(m, s) ==> !Equals(m[i], c & 0xFF))
  {
    var e := End(m, s);
    LowByte(c);
    forall i | 0 <= i < |m| ensures m[i] as bv32 < 256 {
      ByteBelow(m[i]);
    }
    assert m[e] as bv32 == 0;
  }

  lemma LowByte(c: bv32)
    ensures c < 256 ==> c & 0xFF == c
    ensures c & 0xFF < 256
  {
  }

  lemma ByteBelow(b: bv8)
    ensures b as bv32 < 256
    ensures b as bv32 == 0 <==> b == 0
  {
  }

  /** Searching for the terminator itself: the C library finds it, the routine finds nothing. */
  lemma StrrchrMissesTerminator(m: seq<bv8>, s: nat, r: Option<nat>)
    requires Terminated(m, s) && IsLastOf(m, s, End(m, s), 0, r)
    ensures r == None && IsLastOf(m, s, End(m, s) + 1, 0, Some(End(m, s)))
  {
    forall i | s <= i <= End(m, s) ensures Equals(m[i], 0) <==> m[i] == 0 {
      ByteBelow(m[i]);
    }
  }
}
