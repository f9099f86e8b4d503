/** Reading back printed lines: the text of a row gives the words of the row. */
module NginxText {
  import opened Text
  import opened NginxConfig

  predicate Word(w: string) {
    w != "" && SpaceFree(w)
  }

  /** A name the reader takes for that of a directive. */
  predicate Plain(name: string) {
    Word(name) && name[0] != '#' && name !in STRUCTURAL
  }

  const STRUCTURAL := ["server", "location", "}", "events", "http"]

  predicate OneLine(s: string) {
    '\n' !in s
  }

  predicate OneLines(ws: seq<string>) {
    forall i :: 0 <= i < |ws| ==> OneLine(ws[i])
  }

  predicate Indent(s: string) {
    forall i :: 0 <= i < |s| ==> s[i] == ' '
  }

  predicate GoodRow(row: Row) {
    match row
    case Blank => true
    case Opening(indent, words) => Indent(indent) && words != [] && words[0] in STRUCTURAL && OneLines(words)
    case Closing(indent) => Indent(indent)
    case Setting(indent, name, args) => Indent(indent) && Plain(name) && OneLines(args)
  }

  predicate GoodRows(rows: seq<Row>) {
    forall i :: 0 <= i < |rows| ==> GoodRow(rows[i])
  }

  /** All the words of some texts. */
  function AllFields(ws: seq<string>): seq<string> {
    if ws == [] then [] else Fields(ws[0]) + AllFields(ws[1..])
  }

  /** The values of a line once the semicolons at its end are gone. */
  function CutLast(args: seq<string>): (r: seq<string>)
    ensures |r| == |args|
  {
    if args == [] then [] else args[..|args| - 1] + [TrimSemicolons(args[|args| - 1])]
  }

  /** The words a reader finds in printed values. */
  function WordsOf(args: seq<string>): seq<string> {
    AllFields(CutLast(args))
  }

  /** The words a reader finds in the row. */
  function Parts(row: Row): seq<string> {
    match row
    case Blank => []
    case Opening(_, words) => AllFields(words) + ["{"]
    case Closing(_) => ["}"]
    case Setting(_, name, args) => [name] + WordsOf(args)
  }

  // ---------------------------------------------------------------- words

  lemma {:induction false} SkipIndent(indent: string, t: string)
    requires Indent(indent) && (t == "" || !IsSpace(t[0]))
    ensures TrimStart(indent + t) == t
  {
    if indent == "" {
      assert indent + t == t;
    } else {
      SkipIndent(indent[1..], t);
      assert (indent + t)[1..] == indent[1..] + t;
    }
  }

  lemma {:induction false} WordLengthOf(w: string, rest: string)
    requires SpaceFree(w) && (rest == "" || IsSpace(rest[0]))
    ensures WordLength(w + rest) == |w|
  {
    if w == "" {
      assert w + rest == rest;
    } else {
      WordLengthOf(w[1..], rest);
      assert (w + rest)[1..] == w[1..] + rest;
    }
  }

  lemma FirstField(w: string, rest: string)
    requires Word(w) && (rest == "" || IsSpace(rest[0]))
    ensures Fields(w + rest) == [w] + Fields(rest)
  {
    WordLengthOf(w, rest);
    assert TrimStart(w + rest) == w + rest;
    assert (w + rest)[..|w|] == w && (w + rest)[|w|..] == rest;
  }

  lemma WordField(w: string)
    requires Word(w)
    ensures Fields(w) == [w]
  {
    FirstField(w, "");
    assert w + "" == w && TrimStart("") == "";
  }

  lemma SkipSpace(s: string)
    requires s != "" && IsSpace(s[0])
    ensures Fields(s) == Fields(s[1..])
  {
  }

  lemma {:induction false} WordEnds(s: string)
    ensures SpaceFree(s[..WordLength(s)])
    ensures WordLength(s) < |s| ==> IsSpace(s[WordLength(s)])
  {
    if s != "" && !IsSpace(s[0]) {
      WordEnds(s[1..]);
      assert s[..WordLength(s)] == [s[0]] + s[1..][..WordLength(s[1..])];
    }
  }

  /** A space separates words. */
  lemma {:induction false} FieldsAppend(a: string, b: string)
    ensures Fields(a + (" " + b)) == Fields(a) + Fields(b)
    decreases |a|
  {
    hide Fields;
    var s := a + (" " + b);
    if a == "" {
      assert s == " " + b && s[1..] == b;
      SkipSpace(s);
      assert Fields("") == [] by { NoFields(); }
    } else if IsSpace(a[0]) {
      SkipSpace(a);
      SkipSpace(s);
      assert s[1..] == a[1..] + (" " + b);
      FieldsAppend(a[1..], b);
    } else {
      var n := WordLength(a);
      WordEnds(a);
      var w, more := a[..n], a[n..];
      assert a == w + more && s == w + (more + (" " + b));
      FirstField(w, more);
      FirstField(w, more + (" " + b));
      FieldsAppend(more, b);
    }
  }

  lemma NoFields()
    ensures Fields("") == []
  {
  }

  lemma {:induction false} FieldsJoin(args: seq<string>)
    ensures Fields(Join(args, ' ')) == AllFields(args)
  {
    hide Fields;
    NoFields();
    if |args| == 1 {
      assert AllFields(args[1..]) == [];
    } else if |args| > 1 {
      FieldsJoin(args[1..]);
      FieldsAppend(args[0], Join(args[1..], ' '));
      assert Join(args, ' ') == args[0] + (" " + Join(args[1..], ' '));
    }
  }

  lemma {:induction false} FieldsAreWords(s: string)
    ensures forall i :: 0 <= i < |Fields(s)| ==> Word(Fields(s)[i])
    decreases |s|
  {
    var t := TrimStart(s);
    if t != "" {
      WordEnds(t);
      FieldsAreWords(t[WordLength(t)..]);
    }
  }

  lemma {:induction false} AllFieldsAreWords(ws: seq<string>)
    ensures forall i :: 0 <= i < |AllFields(ws)| ==> Word(AllFields(ws)[i])
  {
    hide Fields, Word;
    if ws != [] {
      FieldsAreWords(ws[0]);
      AllFieldsAreWords(ws[1..]);
    }
  }

  predicate Words(ws: seq<string>) {
    forall i :: 0 <= i < |ws| ==> Word(ws[i])
  }

  lemma {:induction false} WordsBack(ws: seq<string>)
    requires Words(ws)
    ensures AllFields(ws) == ws
  {
    if ws != [] {
      hide Word, Fields;
      WordField(ws[0]);
      WordsBack(ws[1..]);
    }
  }

  lemma OneText(v: string)
    ensures AllFields([v]) == Fields(v) && WordsOf([v]) == Fields(TrimSemicolons(v))
  {
    hide Fields, TrimSemicolons;
    var none: seq<string> := [];
    assert [v][1..] == none && AllFields(none) == [];
    assert CutLast([v]) == [TrimSemicolons(v)];
    assert [TrimSemicolons(v)][1..] == none;
  }

  /** A word before other values is read as it is. */
  lemma WordFirst(w: string, args: seq<string>)
    requires Word(w) && args != []
    ensures WordsOf([w] + args) == [w] + WordsOf(args)
  {
    hide Fields, TrimSemicolons, Word;
    WordField(w);
    assert CutLast([w] + args) == [w] + CutLast(args);
    assert ([w] + CutLast(args))[1..] == CutLast(args);
  }

  /** What ends in no semicolon keeps its end. */
  predicate EndsOpen(s: string) {
    s == "" || s[|s| - 1] != ';'
  }

  lemma OpenStays(s: string)
    ensures TrimSemicolons(s) == s <==> EndsOpen(s)
  {
    hide TrimSemicolons;
    if !EndsOpen(s) { TrimShortens(s); } else { TrimOpen(s); }
  }

  lemma TrimShortens(s: string)
    requires !EndsOpen(s)
    ensures |TrimSemicolons(s)| < |s|
  {
    TrimIsPrefix(s[..|s| - 1]);
  }

  lemma TrimOpen(s: string)
    requires EndsOpen(s)
    ensures TrimSemicolons(s) == s
  {
  }

  lemma {:induction false} TrimIsPrefix(s: string)
    ensures TrimSemicolons(s) <= s
  {
    if s != "" && s[|s| - 1] == ';' { TrimIsPrefix(s[..|s| - 1]); }
  }

  /** Trimming stops at other text. */
  lemma {:induction false} TrimAfter(p: string, v: string)
    requires p != "" && EndsOpen(p)
    ensures TrimSemicolons(p + v) == p + TrimSemicolons(v)
    decreases |v|
  {
    if v == "" {
      assert p + v == p && TrimSemicolons(v) == v;
    } else if v[|v| - 1] == ';' {
      TrimAfter(p, v[..|v| - 1]);
      assert (p + v)[..|p + v| - 1] == p + v[..|v| - 1];
    }
  }

  /** The semicolons at the end of a line are those at the end of its last value. */
  lemma LineEnd(name: string, args: seq<string>)
    ensures TrimSemicolons(name + " " + Join(args, ' ') + ";") == name + " " + Join(CutLast(args), ' ')
  {
    var u := name + " " + Join(args, ' ');
    assert TrimSemicolons(u + ";") == TrimSemicolons(u) by { assert (u + ";")[..|u|] == u; }
    hide TrimSemicolons;
    if args == [] {
      TrimOpen(u);
    } else {
      LastValue(name, args[..|args| - 1], args[|args| - 1]);
      assert args == args[..|args| - 1] + [args[|args| - 1]];
    }
  }

  lemma LastValue(name: string, first: seq<string>, last: string)
    ensures TrimSemicolons(name + " " + Join(first + [last], ' '))
         == name + " " + Join(first + [TrimSemicolons(last)], ' ')
  {
    hide TrimSemicolons, Join;
    var p := name + " " + (if first == [] then "" else Join(first, ' ') + " ");
    JoinParts(first, last);
    JoinParts(first, TrimSemicolons(last));
    TrimAfter(p, last);
    assert name + " " + Join(first + [last], ' ') == p + last;
    assert name + " " + Join(first + [TrimSemicolons(last)], ' ') == p + TrimSemicolons(last);
  }

  lemma JoinParts(first: seq<string>, last: string)
    ensures Join(first + [last], ' ') == (if first == [] then "" else Join(first, ' ') + " ") + last
  {
    if first == [] {
      assert first + [last] == [last];
    } else {
      JoinAppend(first, last, ' ');
    }
  }

  // ---------------------------------------------------------------- rows

  /** The words of a printed setting are its name and the words of its values. */
  lemma SettingLine(s: State, row: Row, cpus: nat)
    requires GoodRow(row) && row.Setting?
    ensures ReadLine(s, RowText(row), cpus) == ReadParts(s, Parts(row), false, cpus)
  {
    var u := row.name + " " + Join(row.args, ' ');
    SkipIndent(row.indent, u + ";");
    assert TrimEnd(u + ";") == u + ";";
    hide Fields, TrimStart, TrimEnd, TrimSemicolons, Join, CutLast, AllFields, ReadGlobal, ReadServer, ReadLocation;
    LineEnd(row.name, row.args);
    var more := Join(CutLast(row.args), ' ');
    assert row.name + " " + more == row.name + (" " + more);
    FieldsAppend(row.name, more);
    WordField(row.name);
    FieldsJoin(CutLast(row.args));
    var text := row.name + " " + more;
    assert Fields(text) == Parts(row) && Parts(row)[0] == row.name;
    assert !Structural(Parts(row), '{' in text) && !Structural(Parts(row), false);
  }

  lemma OpeningLine(s: State, row: Row, cpus: nat)
    requires GoodRow(row) && row.Opening?
    ensures ReadLine(s, RowText(row), cpus) == ReadParts(s, Parts(row), true, cpus)
  {
    var all := row.words + ["{"];
    var u := Join(all, ' ');
    OpeningText(row.indent, row.words);
    assert '{' in u;
    hide Join, TrimStart, TrimEnd, TrimSemicolons, Fields, AllFields, ReadParts;
    FieldsJoin(row.words);
    JoinAppend(row.words, "{", ' ');
    var words := Join(row.words, ' ');
    assert words + [' '] + "{" == words + (" " + "{");
    FieldsAppend(words, "{");
    WordField("{");
  }

  lemma OpeningText(indent: string, words: seq<string>)
    requires Indent(indent) && words != [] && words[0] in STRUCTURAL
    ensures var u := Join(words + ["{"], ' ');
            && u != "" && u[0] != '#' && u[|u| - 1] == '{'
            && TrimEnd(TrimStart(RowText(Opening(indent, words)))) == u && TrimSemicolons(u) == u
  {
    hide Join, TrimStart, TrimEnd, TrimSemicolons;
    var u := Join(words + ["{"], ' ');
    JoinAppend(words, "{", ' ');
    assert u == Join(words, ' ') + " {";
    Keyword(words[0]);
    JoinStarts(words);
    SkipIndent(indent, u);
    EndsInBrace(u);
  }

  lemma Keyword(w: string)
    requires w in STRUCTURAL
    ensures w != "" && w[0] != '#' && !IsSpace(w[0])
  {
  }

  lemma EndsInBrace(u: string)
    requires u != "" && u[|u| - 1] == '{'
    ensures TrimEnd(u) == u && TrimSemicolons(u) == u
  {
  }

  lemma JoinStarts(words: seq<string>)
    requires words != [] && words[0] != ""
    ensures Join(words, ' ') != "" && Join(words, ' ')[0] == words[0][0]
  {
  }

  lemma ClosingLine(s: State, row: Row, cpus: nat)
    requires GoodRow(row) && row.Closing?
    ensures ReadLine(s, RowText(row), cpus) == ReadParts(s, Parts(row), false, cpus)
  {
    SkipIndent(row.indent, "}");
    WordField("}");
  }

  lemma RowLine(s: State, row: Row, cpus: nat)
    requires GoodRow(row)
    ensures ReadLine(s, RowText(row), cpus) == ReadParts(s, Parts(row), row.Opening?, cpus)
  {
    match row {
      case Blank => assert TrimEnd(TrimStart("")) == "";
      case Opening(_, _) => OpeningLine(s, row, cpus);
      case Closing(_) => ClosingLine(s, row, cpus);
      case Setting(_, _, _) => SettingLine(s, row, cpus);
    }
  }

  // ---------------------------------------------------------------- lines

  lemma {:induction false} JoinOneLine(ws: seq<string>)
    requires OneLines(ws)
    ensures OneLine(Join(ws, ' '))
  {
    if |ws| > 1 { JoinOneLine(ws[1..]); }
  }

  /** A printed row is one line, and its end is no carriage return. */
  lemma RowIsLine(row: Row)
    requires GoodRow(row)
    ensures var t := RowText(row); OneLine(t) && (t == "" || t[|t| - 1] != '\r')
  {
    match row {
      case Blank =>
      case Opening(_, words) => JoinOneLine(words);
      case Closing(_) =>
      case Setting(_, _, args) => JoinOneLine(args);
    }
  }

  lemma {:induction false} NewlineAt(a: string, rest: string)
    requires OneLine(a)
    ensures Newline(a + "\n" + rest) == |a|
  {
    if a == "" {
      assert (a + "\n" + rest)[0] == '\n';
    } else {
      NewlineAt(a[1..], rest);
      assert (a + "\n" + rest)[1..] == a[1..] + "\n" + rest;
    }
  }

  lemma FirstLine(a: string, rest: string)
    requires OneLine(a) && (a == "" || a[|a| - 1] != '\r')
    ensures Lines(a + "\n" + rest) == [a] + Lines(rest)
  {
    NewlineAt(a, rest);
    var s := a + "\n" + rest;
    assert s[..|a|] == a && s[|a| + 1..] == rest;
    assert |a| > 0 ==> s[|a| - 1] == a[|a| - 1];
  }

  /** Reading rows instead of the lines printed for them. */
  function ReadRows(s: State, rows: seq<Row>, cpus: nat): Outcome<State>
    decreases |rows|
  {
    if rows == [] then Good(s)
    else match ReadParts(s, Parts(rows[0]), rows[0].Opening?, cpus)
      case Bad(why) => Bad(why)
      case Good(next) => ReadRows(next, rows[1..], cpus)
  }

  /** Reading the printed text is reading the rows. */
  lemma {:induction false} RowsBack(s: State, rows: seq<Row>, cpus: nat)
    requires GoodRows(rows)
    ensures ReadLines(s, Lines(RowsText(rows)), cpus) == ReadRows(s, rows, cpus)
    decreases |rows|
  {
    if rows != [] {
      assert GoodRow(rows[0]);
      RowIsLine(rows[0]);
      FirstLine(RowText(rows[0]), RowsText(rows[1..]));
      RowLine(s, rows[0], cpus);
      hide RowText, ReadLine, ReadParts, GoodRow;
      var lines := Lines(RowsText(rows));
      assert lines[0] == RowText(rows[0]) && lines[1..] == Lines(RowsText(rows[1..]));
      match ReadParts(s, Parts(rows[0]), rows[0].Opening?, cpus) {
        case Bad(_) =>
        case Good(next) => RowsBack(next, rows[1..], cpus);
      }
    }
  }

  lemma {:induction false} ReadRowsAppend(s: State, a: seq<Row>, b: seq<Row>, cpus: nat)
    ensures ReadRows(s, a + b, cpus)
         == match ReadRows(s, a, cpus) case Bad(why) => Bad(why) case Good(m) => ReadRows(m, b, cpus)
    decreases |a|
  {
    hide ReadParts, Parts;
    if a == [] {
      assert a + b == b;
    } else {
      assert (a + b)[1..] == a[1..] + b;
      match ReadParts(s, Parts(a[0]), a[0].Opening?, cpus) {
        case Bad(_) =>
        case Good(next) => ReadRowsAppend(next, a[1..], b, cpus);
      }
    }
  }
}
