/** The tokenizer of the configuration file: what it reads, and what layout it is blind to. */
module ConfigLexer {
  import opened Text

  const MAX_TOKENS := 2048

  /** C `isspace`. */
  predicate IsSpace(c: char) {
    c == ' ' || c == '\t' || c == '\n' || c == '\U{0B}' || c == '\U{0C}' || c == '\r'
  }

  predicate IsMark(c: char) {
    c == '{' || c == '}' || c == ';'
  }

  /** A character that ends a word. */
  predicate Stops(c: char) {
    IsSpace(c) || IsMark(c)
  }

  // ---------------------------------------------------------------- the tokens of a text

  function One(c: CChar): CString {
    [c]
  }

  /** Between tokens. The text ends at its first NUL. */
  function Lex(s: seq<Octet>): seq<CString>
    decreases |s|, 0
  {
    if Ended(s) then []
    else if s[0] == '#' then LexComment(s[1..])
    else if IsSpace(s[0]) then Lex(s[1..])
    else if IsMark(s[0]) then [One(s[0])] + Lex(s[1..])
    else LexWord(One(s[0]), s[1..])
  }

  /** Inside a word of which `word` has been read. A word at the very end of the text is lost. */
  function LexWord(word: CString, s: seq<Octet>): seq<CString>
    decreases |s|, 1
  {
    if Ended(s) then []
    else if Stops(s[0]) then [word] + Lex(s)
    else LexWord(word + One(s[0]), s[1..])
  }

  function LexComment(s: seq<Octet>): seq<CString>
    decreases |s|, 0
  {
    if Ended(s) then []
    else if s[0] == '\n' then Lex(s[1..])
    else LexComment(s[1..])
  }

  predicate Ended(s: seq<Octet>) {
    s == [] || s[0] == '\0'
  }

  /** What the token array can hold of them. */
  function Held(ts: seq<CString>): (r: seq<CString>)
    ensures r <= ts && |r| <= MAX_TOKENS
  {
    if |ts| <= MAX_TOKENS then ts else ts[..MAX_TOKENS]
  }

  // ---------------------------------------------------------------- layout

  /** A token that is one of the three marks. */
  predicate MarkToken(t: CString) {
    |t| == 1 && IsMark(t[0])
  }

  /** A token that is a word; '#' opens a comment only where a token could begin. */
  predicate Word(t: CString) {
    t != "" && t[0] != '#' && forall i :: 0 <= i < |t| ==> !Stops(t[i])
  }

  predicate Token(t: CString) {
    MarkToken(t) || Word(t)
  }

  /** White space and whole comments. */
  predicate Blank(s: CString)
    decreases |s|
  {
    s == "" || (if s[0] == '#' then BlankComment(s[1..]) else IsSpace(s[0]) && Blank(s[1..]))
  }

  predicate BlankComment(s: CString)
    decreases |s|
  {
    s != "" && (if s[0] == '\n' then Blank(s[1..]) else BlankComment(s[1..]))
  }

  /** The text with gaps[i] before token i and the last gap after the last token. */
  function Render(ts: seq<CString>, gaps: seq<CString>): CString
    requires |gaps| == |ts| + 1
  {
    if ts == [] then gaps[0] else gaps[0] + ts[0] + Render(ts[1..], gaps[1..])
  }

  /** Gaps are blank, and after a word comes a space or, directly, a mark. */
  predicate Layout(ts: seq<CString>, gaps: seq<CString>) {
    && |gaps| == |ts| + 1
    && (forall i :: 0 <= i < |gaps| ==> Blank(gaps[i]))
    && (forall i :: 0 <= i < |ts| && Word(ts[i]) ==> Parted(ts, gaps, i))
  }

  /** The gap after token i begins with a space, or is empty and a mark follows. */
  predicate Parted(ts: seq<CString>, gaps: seq<CString>, i: nat)
    requires i < |ts| && |gaps| == |ts| + 1
  {
    var gap := gaps[i + 1];
    if gap != "" then IsSpace(gap[0]) else i + 1 < |ts| && MarkToken(ts[i + 1])
  }

  /** Whatever the text, every token read from it is a mark or a word. */
  lemma {:induction false} LexGivesTokens(s: seq<Octet>)
    ensures forall i :: 0 <= i < |Lex(s)| ==> Token(Lex(s)[i])
    decreases |s|, 0
  {
    if !Ended(s) {
      if s[0] == '#' {
        CommentGivesTokens(s[1..]);
      } else if IsSpace(s[0]) || IsMark(s[0]) {
        LexGivesTokens(s[1..]);
      } else {
        WordGivesTokens(One(s[0]), s[1..]);
      }
    }
  }

  lemma {:induction false} WordGivesTokens(word: CString, s: seq<Octet>)
    requires Word(word)
    ensures forall i :: 0 <= i < |LexWord(word, s)| ==> Token(LexWord(word, s)[i])
    decreases |s|, 1
  {
    if !Ended(s) {
      if Stops(s[0]) { LexGivesTokens(s); } else { WordGivesTokens(word + One(s[0]), s[1..]); }
    }
  }

  lemma {:induction false} CommentGivesTokens(s: seq<Octet>)
    ensures forall i :: 0 <= i < |LexComment(s)| ==> Token(LexComment(s)[i])
    decreases |s|, 0
  {
    if !Ended(s) {
      if s[0] == '\n' { LexGivesTokens(s[1..]); } else { CommentGivesTokens(s[1..]); }
    }
  }

  lemma {:induction false} LexBlank(b: CString, rest: seq<Octet>)
    requires Blank(b)
    ensures Lex(b + rest) == Lex(rest)
    decreases |b|
  {
    if b == "" {
      assert b + rest == rest;
    } else {
      assert (b + rest)[1..] == b[1..] + rest;
      if b[0] == '#' { LexBlankComment(b[1..], rest); } else { LexBlank(b[1..], rest); }
    }
  }

  lemma {:induction false} LexBlankComment(b: CString, rest: seq<Octet>)
    requires BlankComment(b)
    ensures LexComment(b + rest) == Lex(rest)
    decreases |b|
  {
    assert (b + rest)[1..] == b[1..] + rest;
    if b[0] == '\n' { LexBlank(b[1..], rest); } else { LexBlankComment(b[1..], rest); }
  }

  lemma {:induction false} LexWholeWord(read: CString, w: CString, rest: seq<Octet>)
    requires (forall i :: 0 <= i < |w| ==> !Stops(w[i])) && rest != "" && Stops(rest[0])
    ensures LexWord(read, w + rest) == [read + w] + Lex(rest)
    decreases |w|
  {
    if w == "" {
      assert w + rest == rest && read + w == read;
    } else {
      assert (w + rest)[1..] == w[1..] + rest;
      LexWholeWord(read + [w[0]], w[1..], rest);
      assert read + [w[0]] + w[1..] == read + w;
    }
  }

  lemma LexToken(t: CString, rest: seq<Octet>)
    requires Token(t) && (Word(t) ==> rest != "" && Stops(rest[0]))
    ensures Lex(t + rest) == [t] + Lex(rest)
  {
    assert (t + rest)[1..] == t[1..] + rest;
    if MarkToken(t) {
      assert t == [t[0]] && t[1..] + rest == rest;
    } else {
      LexWholeWord([t[0]], t[1..], rest);
      assert [t[0]] + t[1..] == t;
    }
  }

  /** The tokenizer sees through every layout: blanks and comments between tokens change nothing. */
  lemma LexRender(ts: seq<CString>, gaps: seq<CString>)
    requires Layout(ts, gaps) && forall i :: 0 <= i < |ts| ==> Token(ts[i])
    ensures Lex(Render(ts, gaps)) == ts
  {
    LexRenderThen(ts, gaps, []);
    assert Render(ts, gaps) + [] == Render(ts, gaps);
  }

  /** And it goes on with what follows. */
  lemma {:induction false} LexRenderThen(ts: seq<CString>, gaps: seq<CString>, tail: seq<Octet>)
    requires Layout(ts, gaps) && forall i :: 0 <= i < |ts| ==> Token(ts[i])
    ensures Lex(Render(ts, gaps) + tail) == ts + Lex(tail)
  {
    hide Lex, Blank;
    if ts == [] {
      LexBlank(gaps[0], tail);
    } else {
      var more, gaps' := ts[1..], gaps[1..];
      var text: seq<Octet> := Render(more, gaps');
      var rest := text + tail;
      forall i | 0 <= i < |more| && Word(more[i]) ensures Parted(more, gaps', i) {
        assert Parted(ts, gaps, i + 1);
      }
      LexRenderThen(more, gaps', tail);
      if Word(ts[0]) {
        assert Parted(ts, gaps, 0);
        RenderStarts(more, gaps');
      }
      LexToken(ts[0], rest);
      LexBlank(gaps[0], ts[0] + rest);
      assert Render(ts, gaps) + tail == gaps[0] + (ts[0] + rest);
    }
  }

  /** What gives no token at the end of a text: nothing, a word that nothing ends, a comment that nothing ends, and
      anything after a NUL. */
  predicate GivesNothing(tail: seq<Octet>) {
    || Ended(tail)
    || (tail[0] == '#' && '\n' !in tail)
    || (tail[0] != '#' && forall i :: 0 <= i < |tail| ==> !Stops(tail[i]))
  }

  /** So the last word of a file is lost unless something follows it. */
  lemma TextEnds(ts: seq<CString>, gaps: seq<CString>, tail: seq<Octet>)
    requires Layout(ts, gaps) && (forall i :: 0 <= i < |ts| ==> Token(ts[i])) && GivesNothing(tail)
    ensures Lex(Render(ts, gaps) + tail) == ts
  {
    LexRenderThen(ts, gaps, tail);
    if !Ended(tail) {
      if tail[0] == '#' { LexOpenComment(tail[1..]); } else { LexOpenWord(One(tail[0]), tail[1..]); }
    }
  }

  lemma {:induction false} LexOpenComment(s: seq<Octet>)
    requires '\n' !in s
    ensures LexComment(s) == []
  {
    if !Ended(s) { LexOpenComment(s[1..]); }
  }

  lemma {:induction false} LexOpenWord(word: CString, s: seq<Octet>)
    requires forall i :: 0 <= i < |s| ==> !Stops(s[i])
    ensures LexWord(word, s) == []
    decreases |s|
  {
    if !Ended(s) { LexOpenWord(word + One(s[0]), s[1..]); }
  }

  /** White space as in the C locale: tab to carriage return, and the space. */
  lemma Spaces(c: char)
    ensures IsSpace(c) <==> 9 <= c as int <= 13 || c as int == 32
  {
  }

  /** How a rendered text begins. */
  lemma RenderStarts(ts: seq<CString>, gaps: seq<CString>)
    requires |gaps| == |ts| + 1
    ensures gaps[0] != "" ==> Render(ts, gaps) != "" && Render(ts, gaps)[0] == gaps[0][0]
    ensures gaps[0] == "" && ts != [] && ts[0] != "" ==> Render(ts, gaps) != "" && Render(ts, gaps)[0] == ts[0][0]
  {
  }

  // ---------------------------------------------------------------- the state machine

  datatype State = Start | InWord | InComment

  /** What the machine still has to deliver when it stands before `rest`. */
  function Pending(state: State, word: CString, rest: seq<Octet>): seq<CString> {
    match state
    case Start => Lex(rest)
    case InWord => LexWord(word, rest)
    case InComment => LexComment(rest)
  }

  function After(state: State, c: char): State {
    match state
    case Start => if c == '#' then InComment else if Stops(c) then Start else InWord
    case InWord => if Stops(c) then Start else InWord
    case InComment => if c == '\n' then Start else InComment
  }

  function Emitted(state: State, word: CString, c: CChar): seq<CString> {
    match state
    case Start => if IsMark(c) then [One(c)] else []
    case InWord => if Stops(c) then [word] else []
    case InComment => []
  }

  function Reading(state: State, word: CString, c: CChar): CString {
    match state
    case Start => One(c)
    case InWord => if Stops(c) then word else word + One(c)
    case InComment => word
  }

  /** A word's end is not consumed with the word. */
  function Left(state: State, rest: seq<Octet>): seq<Octet>
    requires !Ended(rest)
  {
    if state == InWord && Stops(rest[0]) then rest else rest[1..]
  }

  lemma PendingStep(state: State, word: CString, rest: seq<Octet>)
    requires !Ended(rest)
    ensures Pending(state, word, rest)
         == Emitted(state, word, rest[0])
          + Pending(After(state, rest[0]), Reading(state, word, rest[0]), Left(state, rest))
  {
  }

  /** The same after what has been delivered before. */
  lemma PendingStepAfter(before: seq<CString>, state: State, word: CString, rest: seq<Octet>)
    requires !Ended(rest)
    ensures before + Pending(state, word, rest)
         == (before + Emitted(state, word, rest[0]))
          + Pending(After(state, rest[0]), Reading(state, word, rest[0]), Left(state, rest))
  {
    hide Pending, Emitted, Reading, After, Left;
    PendingStep(state, word, rest);
  }

  lemma CharKinds(c: char)
    ensures Stops(c) <==> IsSpace(c) || IsMark(c)
    ensures !(IsSpace(c) && IsMark(c)) && (c == '#' ==> !Stops(c))
  {
  }

  lemma PendingStart(content: seq<Octet>)
    ensures Pending(Start, "", content) == Lex(content)
  {
  }

  lemma PendingEnd(state: State, word: CString, rest: seq<Octet>)
    requires Ended(rest)
    ensures Pending(state, word, rest) == []
  {
  }

  /** The static token array and its count. */
  class Tokens {
    const tokens: array<CString>
    var count: nat

    ghost predicate Valid()
      reads this
    {
      tokens.Length == MAX_TOKENS && count <= MAX_TOKENS
    }

    ghost function View(): seq<CString>
      requires Valid()
      reads this, tokens
    {
      tokens[..count]
    }

    constructor ()
      ensures Valid() && View() == [] && fresh(tokens)
    {
      tokens := new CString[MAX_TOKENS](_ => "");
      count := 0;
    }

    method Push(t: CString)
      requires Valid() && count < MAX_TOKENS
      modifies this, tokens
      ensures Valid() && View() == old(View()) + [t]
    {
      tokens[count] := t;
      count := count + 1;
    }

    /** Replaces whatever the array held by the tokens of `content`, as far as they fit. */
    method Tokenize(content: seq<Octet>)
      requires Valid()
      modifies this, tokens
      ensures Valid() && View() == Held(Lex(content))
    {
      hide Lex, LexWord, LexComment, Pending, IsSpace, IsMark, Stops;
      PendingStart(content);
      count := 0;
      var state := Start;
      var start, p := 0, 0;
      ghost var word: CString, rest: seq<Octet> := [], content;
      while p < |content| && content[p] != '\0'
        invariant Valid() && 0 <= p <= |content| && rest == content[p..]
        invariant state == InWord ==> 0 <= start < p && word == content[start..p]
        invariant View() + Pending(state, word, rest) == Lex(content)
        decreases 2 * (|content| - p) + (if state == InWord then 1 else 0)
      {
        if count >= MAX_TOKENS {
          return;
        }
        var c: CChar := content[p];
        CharKinds(c);
        assert rest[0] == c && rest[1..] == content[p + 1..];
        assert content[p..p + 1] == [c];
        assert state == InWord ==> content[start..p + 1] == word + One(c);
        PendingStepAfter(View(), state, word, rest);
        word, rest := Reading(state, word, c), Left(state, rest);
        match state {
        case Start =>
          if c == '#' {
            state := InComment;
          } else if IsSpace(c) {
          } else if IsMark(c) {
            Push(One(c));
          } else {
            start := p;
            state := InWord;
          }
        case InWord =>
          if Stops(c) {
            Push(content[start..p]);
            state := Start;
            p := p - 1;  // the character is looked at again
          }
        case InComment =>
          if c == '\n' {
            state := Start;
          }
        }
        p := p + 1;
      }
      PendingEnd(state, word, rest);
    }
  }
}
