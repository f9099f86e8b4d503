/** Words, separators and numbers in strings. */
module Text {
  /** A byte of a file, and a character of a C string: a byte other than NUL. */
  type Octet = c: char | c as int < 256 witness ' '
  type CChar = c: char | 0 < c as int < 256 witness ' '
  type CString = seq<CChar>

  /** The words with a single separator between neighbours. */
  function Join<C>(ws: seq<seq<C>>, gap: C): seq<C> {
    if |ws| == 0 then []
    else if |ws| == 1 then ws[0]
    else ws[0] + [gap] + Join(ws[1..], gap)
  }

  /** The pieces of s between its separators; never empty. */
  function Split<C(==)>(s: seq<C>, gap: C): (ws: seq<seq<C>>)
    ensures |ws| > 0
  {
    if s == [] then [[]]
    else
      var ws := Split(s[1..], gap);
      if s[0] == gap then [[]] + ws else [[s[0]] + ws[0]] + ws[1..]
  }

  lemma {:induction false} JoinSplit<C>(s: seq<C>, gap: C)
    ensures Join(Split(s, gap), gap) == s
  {
    if s != [] {
      JoinSplit(s[1..], gap);
      var ws := Split(s[1..], gap);
      if s[0] == gap {
        assert ([[]] + ws)[1..] == ws;
        assert s == [] + [gap] + s[1..];
      } else if |ws| == 1 {
        assert Split(s, gap) == [[s[0]] + ws[0]];
        assert s == [s[0]] + s[1..];
      } else {
        assert ([[s[0]] + ws[0]] + ws[1..])[1..] == ws[1..];
        assert s == [s[0]] + s[1..] == ([s[0]] + ws[0]) + [gap] + Join(ws[1..], gap);
      }
    }
  }

  /** What holds no separator is one piece. */
  lemma {:induction false} SplitWord<C>(w: seq<C>, gap: C)
    requires gap !in w
    ensures Split(w, gap) == [w]
  {
    if w != [] {
      SplitWord(w[1..], gap);
      assert [w[0]] + w[1..] == w;
    }
  }

  /** Joining one more word at the end. */
  lemma {:induction false} JoinAppend<C>(ws: seq<seq<C>>, w: seq<C>, gap: C)
    requires |ws| > 0
    ensures Join(ws + [w], gap) == Join(ws, gap) + [gap] + w
  {
    if |ws| > 1 {
      JoinAppend(ws[1..], w, gap);
      assert (ws + [w])[1..] == ws[1..] + [w];
      assert ws[0] + [gap] + (Join(ws[1..], gap) + [gap] + w) == (ws[0] + [gap] + Join(ws[1..], gap)) + [gap] + w;
    } else {
      assert (ws + [w])[1..] == [w];
    }
  }

  function Reverse<T>(s: seq<T>): (r: seq<T>)
    ensures |r| == |s|
  {
    if s == [] then [] else Reverse(s[1..]) + [s[0]]
  }

  lemma {:induction false} ReverseAt<T>(s: seq<T>, i: nat)
    requires i < |s|
    ensures Reverse(s)[i] == s[|s| - 1 - i]
  {
    if i < |s| - 1 { ReverseAt(s[1..], i); }
  }

  // ---------------------------------------------------------------- numbers

  predicate IsDigit(c: char) {
    '0' <= c <= '9'
  }

  function Digit(d: nat): (c: CChar)
    requires d < 10
    ensures IsDigit(c) && c as int - '0' as int == d
  {
    ('0' as int + d) as char
  }

  /** The decimal digits of n without leading zeros. */
  function Digits(n: nat): (s: CString)
    ensures |s| > 0 && forall i :: 0 <= i < |s| ==> IsDigit(s[i])
  {
    if n < 10 then [Digit(n)] else Digits(n / 10) + [Digit(n % 10)]
  }

  const MINUS: CChar := '-'

  function Decimal(n: int): CString {
    if n < 0 then [MINUS] + Digits(-n) else Digits(n)
  }

  /** Reading the leading digits of s onto a value already read. */
  function ReadDigits(s: string, value: nat): nat {
    if s == "" || !IsDigit(s[0]) then value
    else ReadDigits(s[1..], 10 * value + (s[0] as int - '0' as int))
  }

  /** What is not a digit ends the number. */
  predicate EndsNumber(rest: string) {
    rest == "" || !IsDigit(rest[0])
  }

  lemma {:induction false} ReadDigitsAppend(s: string, t: string, value: nat)
    requires forall i :: 0 <= i < |s| ==> IsDigit(s[i])
    ensures ReadDigits(s + t, value) == ReadDigits(t, ReadDigits(s, value))
  {
    if s == "" {
      assert s + t == t;
    } else {
      assert (s + t)[1..] == s[1..] + t;
      ReadDigitsAppend(s[1..], t, 10 * value + (s[0] as int - '0' as int));
    }
  }

  /** Reading back the digits of n, whatever non-digit follows. */
  lemma ReadDigitsBack(n: nat, rest: string)
    requires EndsNumber(rest)
    ensures ReadDigits(Digits(n) + rest, 0) == n
  {
    ReadDigitsAppend(Digits(n), rest, 0);
    assert ReadDigits(rest, ReadDigits(Digits(n), 0)) == ReadDigits(Digits(n), 0);
    ReadDigitsExact(n);
  }

  lemma {:induction false} ReadDigitsExact(n: nat)
    ensures ReadDigits(Digits(n), 0) == n
  {
    if n >= 10 {
      ReadDigitsExact(n / 10);
      ReadDigitsAppend(Digits(n / 10), [Digit(n % 10)], 0);
      assert [Digit(n % 10)][1..] == "";
    }
  }
}
