/** The VALUES lists of the generated SQL, and a reader for them by the character string literal rule of
    section 5.3 of ISO/IEC 9075-2: a doubled quote inside a literal stands for one quote. */
module SqlValues {
  import opened Options
  import opened Text

  /** A value and the text after it. */
  datatype Parsed<T> = Parsed(value: T, rest: string)

  function PrintLiteral(s: string): string {
    "'" + Replace(s, "'", "''") + "'"
  }

  function PrintColumns(columns: seq<string>): string
    requires columns != []
  {
    if |columns| == 1 then PrintLiteral(columns[0])
    else PrintLiteral(columns[0]) + ", " + PrintColumns(columns[1..])
  }

  /** One line of a VALUES list. */
  function PrintTuple(columns: seq<string>): string
    requires columns != []
  {
    "    (" + PrintColumns(columns) + ")"
  }

  predicate ProperTuples(tuples: seq<seq<string>>) {
    tuples != [] && forall i :: 0 <= i < |tuples| ==> tuples[i] != []
  }

  function PrintValues(tuples: seq<seq<string>>): string
    requires ProperTuples(tuples)
  {
    if |tuples| == 1 then PrintTuple(tuples[0])
    else PrintTuple(tuples[0]) + ",\n" + PrintValues(tuples[1..])
  }

  /** The tuples of a list stand on lines of their own, with a comma after each but the last. */
  lemma {:induction false} PrintValuesConcat(first: seq<seq<string>>, others: seq<seq<string>>)
    requires ProperTuples(first) && ProperTuples(others)
    ensures PrintValues(first + others) == PrintValues(first) + ",\n" + PrintValues(others)
  {
    hide PrintTuple;
    if |first| == 1 {
      assert (first + others)[1..] == others;
    } else {
      PrintValuesConcat(first[1..], others);
      assert (first + others)[1..] == first[1..] + others;
    }
  }

  function SkipSpace(s: string): (r: string)
    ensures |r| <= |s|
  {
    if s != "" && IsSpace(s[0]) then SkipSpace(s[1..]) else s
  }

  /** The rest of a literal after its opening quote. */
  function ParseLiteralBody(s: string): (r: Option<Parsed<string>>)
    ensures r.Some? ==> |r.value.rest| < |s|
  {
    if s == "" then None
    else if s[0] == '\'' && (|s| == 1 || s[1] != '\'') then Some(Parsed("", s[1..]))
    else
      var skip := if s[0] == '\'' then 2 else 1;
      var r := ParseLiteralBody(s[skip..]);
      if r.None? then None else Some(Parsed([s[0]] + r.value.value, r.value.rest))
  }

  function ParseLiteral(s: string): (r: Option<Parsed<string>>)
    ensures r.Some? ==> |r.value.rest| < |s|
  {
    if s == "" || s[0] != '\'' then None else ParseLiteralBody(s[1..])
  }

  /** Literals separated by commas, up to the closing parenthesis. */
  function ParseColumns(s: string): (r: Option<Parsed<seq<string>>>)
    ensures r.Some? ==> |r.value.rest| < |s|
    decreases |s|
  {
    var first := ParseLiteral(SkipSpace(s));
    if first.None? then None
    else
      var next := SkipSpace(first.value.rest);
      if next == "" then None
      else if next[0] == ')' then Some(Parsed([first.value.value], next[1..]))
      else if next[0] == ',' then
        var others := ParseColumns(next[1..]);
        if others.None? then None else Some(Parsed([first.value.value] + others.value.value, others.value.rest))
      else None
  }

  function ParseTuple(s: string): (r: Option<Parsed<seq<string>>>)
    ensures r.Some? ==> |r.value.rest| < |s|
  {
    var start := SkipSpace(s);
    if start == "" || start[0] != '(' then None else ParseColumns(start[1..])
  }

  /** Tuples separated by commas; what follows the last one is returned. */
  function ParseValues(s: string): Option<Parsed<seq<seq<string>>>>
    decreases |s|
  {
    var first := ParseTuple(s);
    if first.None? then None
    else
      var next := SkipSpace(first.value.rest);
      if next != "" && next[0] == ',' then
        var others := ParseValues(next[1..]);
        if others.None? then None else Some(Parsed([first.value.value] + others.value.value, others.value.rest))
      else Some(Parsed([first.value.value], next))
  }

  /** A literal stands between quotes, with every quote in it doubled. */
  lemma LiteralText(a: string, b: string)
    requires '\'' !in a
    ensures PrintLiteral(a) == "'" + a + "'"
    ensures PrintLiteral(a + "'" + b) == "'" + a + "''" + PrintLiteral(b)[1..]
  {
    EscapeUnquoted(a, "");
    EscapeUnquoted(a, "'" + b);
    assert a + "" == a && Replace("", "'", "''") == "";
    assert a + ("'" + b) == a + "'" + b;
    EscapeStep("'" + b);
    assert ("'" + b)[1..] == b;
    hide Replace;
    assert PrintLiteral(b)[1..] == Replace(b, "'", "''") + "'";
  }

  lemma {:induction false} EscapeUnquoted(a: string, b: string)
    requires '\'' !in a
    ensures Replace(a + b, "'", "''") == a + Replace(b, "'", "''")
  {
    if a == "" {
      assert a + b == b;
    } else {
      EscapeUnquoted(a[1..], b);
      EscapeStep(a + b);
      assert (a + b)[1..] == a[1..] + b && (a + b)[0] == a[0];
      assert a == [a[0]] + a[1..];
      hide Replace;
    }
  }

  lemma EscapeStep(s: string)
    requires s != ""
    ensures Replace(s, "'", "''") == (if s[0] == '\'' then "''" else [s[0]]) + Replace(s[1..], "'", "''")
  {
  }

  lemma BodyStep(c: char, tail: string)
    requires ParseLiteralBody(tail).Some?
    ensures var more := ParseLiteralBody(tail).value;
            ParseLiteralBody((if c == '\'' then "''" else [c]) + tail) == Some(Parsed([c] + more.value, more.rest))
  {
  }

  lemma ReadAhead(head: string, others: string, close: string, rest: string)
    ensures head + others + close + rest == head + (others + close + rest)
  {
  }

  lemma {:induction false} LiteralBodyRoundTrip(s: string, rest: string)
    requires rest == "" || rest[0] != '\''
    ensures ParseLiteralBody(Replace(s, "'", "''") + "'" + rest) == Some(Parsed(s, rest))
  {
    if s == "" {
      assert ("'" + rest)[1..] == rest;
      assert "" + "'" + rest == "'" + rest;
    } else {
      hide ParseLiteralBody, Replace;
      var head, others := if s[0] == '\'' then "''" else [s[0]], Replace(s[1..], "'", "''");
      LiteralBodyRoundTrip(s[1..], rest);
      EscapeStep(s);
      BodyStep(s[0], others + "'" + rest);
      ReadAhead(head, others, "'", rest);
      assert s == [s[0]] + s[1..];
    }
  }

  /** A printed literal reads back as the string it was printed from, quotes included. */
  lemma LiteralRoundTrip(s: string, rest: string)
    requires rest == "" || rest[0] != '\''
    ensures ParseLiteral(PrintLiteral(s) + rest) == Some(Parsed(s, rest))
  {
    hide ParseLiteralBody, Replace;
    LiteralBodyRoundTrip(s, rest);
    assert (PrintLiteral(s) + rest)[1..] == Replace(s, "'", "''") + "'" + rest;
  }

  lemma SkipOneSpace(c: char, s: string)
    ensures IsSpace(c) ==> SkipSpace([c] + s) == SkipSpace(s)
    ensures !IsSpace(c) ==> SkipSpace([c] + s) == [c] + s
  {
  }

  lemma Regroup(head: string, separator: string, others: string, close: string, rest: string)
    ensures head + separator + others + close + rest == head + (separator + (others + close + rest))
    ensures others + close + rest == others + (close + rest)
  {
  }

  lemma LastColumn(column: string, rest: string)
    ensures ParseColumns(PrintLiteral(column) + ")" + rest) == Some(Parsed([column], rest))
  {
    LiteralRoundTrip(column, ")" + rest);
    Regroup("", "", PrintLiteral(column), ")", rest);
    SkipOneSpace(')', rest);
    assert (")" + rest)[1..] == rest;
  }

  lemma LiteralHasNoSpaceBefore(s: string, rest: string)
    ensures SkipSpace(PrintLiteral(s) + rest) == PrintLiteral(s) + rest
  {
  }

  lemma ColumnBeforeTail(column: string, tail: string)
    requires ParseColumns(tail).Some?
    ensures var more := ParseColumns(tail).value;
            ParseColumns(PrintLiteral(column) + (", " + tail)) == Some(Parsed([column] + more.value, more.rest))
  {
    hide ParseLiteral, PrintLiteral;
    LiteralHasNoSpaceBefore(column, ", " + tail);
    LiteralRoundTrip(column, ", " + tail);
    SkipOneSpace(',', " " + tail);
    assert ", " + tail == [','] + (" " + tail);
    assert (", " + tail)[1..] == " " + tail;
    SkipOneSpace(' ', tail);
  }

  lemma NextColumn(column: string, others: string, rest: string)
    requires ParseColumns(others + ")" + rest).Some?
    ensures var more := ParseColumns(others + ")" + rest).value;
            ParseColumns(PrintLiteral(column) + ", " + others + ")" + rest) ==
            Some(Parsed([column] + more.value, more.rest))
  {
    Regroup(PrintLiteral(column), ", ", others, ")", rest);
    ColumnBeforeTail(column, others + ")" + rest);
  }

  lemma {:induction false} ColumnsRoundTrip(columns: seq<string>, rest: string)
    requires columns != []
    ensures ParseColumns(PrintColumns(columns) + ")" + rest) == Some(Parsed(columns, rest))
  {
    hide ParseColumns, PrintLiteral;
    if |columns| == 1 {
      LastColumn(columns[0], rest);
      assert columns == [columns[0]];
    } else {
      ColumnsRoundTrip(columns[1..], rest);
      NextColumn(columns[0], PrintColumns(columns[1..]), rest);
      assert columns == [columns[0]] + columns[1..];
    }
  }

  lemma TupleRoundTrip(columns: seq<string>, rest: string)
    requires columns != []
    ensures ParseTuple(PrintTuple(columns) + rest) == Some(Parsed(columns, rest))
  {
    hide ParseColumns, PrintColumns;
    var text := PrintTuple(columns) + rest;
    var start := "(" + (PrintColumns(columns) + ")" + rest);
    ColumnsRoundTrip(columns, rest);
    SkipIndent(start);
    assert text == "    " + start;
    assert start[1..] == PrintColumns(columns) + ")" + rest;
  }

  lemma SkipIndent(s: string)
    requires s != "" && !IsSpace(s[0])
    ensures SkipSpace("    " + s) == s
  {
    assert "    " + s == [' '] + ([' '] + ([' '] + ([' '] + s)));
    SkipOneSpace(' ', s);
    SkipOneSpace(' ', [' '] + s);
    SkipOneSpace(' ', [' '] + ([' '] + s));
    SkipOneSpace(' ', [' '] + ([' '] + ([' '] + s)));
  }

  lemma LastTuple(columns: seq<string>, rest: string)
    requires columns != []
    ensures ParseValues(PrintTuple(columns) + "\n)" + rest) == Some(Parsed([columns], ")" + rest))
  {
    TupleRoundTrip(columns, "\n)" + rest);
    Regroup("", "", PrintTuple(columns), "\n)", rest);
    assert "\n)" + rest == ['\n'] + (")" + rest);
    SkipOneSpace('\n', ")" + rest);
    SkipOneSpace(')', rest);
  }

  lemma TupleBeforeTail(columns: seq<string>, tail: string)
    requires columns != [] && ParseValues(tail).Some?
    ensures var more := ParseValues(tail).value;
            ParseValues(PrintTuple(columns) + (",\n" + tail)) == Some(Parsed([columns] + more.value, more.rest))
  {
    hide PrintTuple;
    TupleRoundTrip(columns, ",\n" + tail);
    assert ",\n" + tail == [','] + ("\n" + tail);
    SkipOneSpace(',', "\n" + tail);
    assert (",\n" + tail)[1..] == "\n" + tail;
    SkipOneSpace('\n', tail);
  }

  lemma NextTuple(columns: seq<string>, others: string, rest: string)
    requires columns != [] && ParseValues(others + "\n)" + rest).Some?
    ensures var more := ParseValues(others + "\n)" + rest).value;
            ParseValues(PrintTuple(columns) + ",\n" + others + "\n)" + rest) ==
            Some(Parsed([columns] + more.value, more.rest))
  {
    Regroup(PrintTuple(columns), ",\n", others, "\n)", rest);
    TupleBeforeTail(columns, others + "\n)" + rest);
  }

  /** A printed VALUES list reads back as the tuples it was printed from, for all texts of the columns. */
  lemma {:induction false} ValuesRoundTrip(tuples: seq<seq<string>>, rest: string)
    requires ProperTuples(tuples)
    ensures ParseValues(PrintValues(tuples) + "\n)" + rest) == Some(Parsed(tuples, ")" + rest))
  {
    hide ParseValues, PrintTuple;
    if |tuples| == 1 {
      LastTuple(tuples[0], rest);
      assert tuples == [tuples[0]];
    } else {
      ValuesRoundTrip(tuples[1..], rest);
      NextTuple(tuples[0], PrintValues(tuples[1..]), rest);
      assert tuples == [tuples[0]] + tuples[1..];
    }
  }

  /** Different tuple lists are never printed alike. */
  lemma PrintValuesInjective(a: seq<seq<string>>, b: seq<seq<string>>)
    requires ProperTuples(a) && ProperTuples(b) && PrintValues(a) == PrintValues(b)
    ensures a == b
  {
    ValuesRoundTrip(a, "");
    ValuesRoundTrip(b, "");
  }

  /** The script's own loop: one line per tuple, joined with ",\n". */
  method WriteValues(tuples: seq<seq<string>>) returns (text: string)
    requires ProperTuples(tuples)
    ensures text == PrintValues(tuples)
    ensures ParseValues(text + "\n)") == Some(Parsed(tuples, ")"))
  {
    var valueRows: seq<string> := [];
    for i := 0 to |tuples|
      invariant |valueRows| == i
      invariant forall j :: 0 <= j < i ==> valueRows[j] == PrintTuple(tuples[j])
    {
      valueRows := valueRows + [PrintTuple(tuples[i])];
    }
    text := Join(valueRows, ",\n");
    JoinIsPrintValues(valueRows, tuples);
    ValuesRoundTrip(tuples, "");
    assert text + "\n)" + "" == text + "\n)" && ")" + "" == ")";
  }

  lemma {:induction false} JoinIsPrintValues(lines: seq<string>, tuples: seq<seq<string>>)
    requires ProperTuples(tuples) && |lines| == |tuples|
    requires forall j :: 0 <= j < |lines| ==> lines[j] == PrintTuple(tuples[j])
    ensures Join(lines, ",\n") == PrintValues(tuples)
  {
    if |lines| > 1 {
      JoinIsPrintValues(lines[1..], tuples[1..]);
    }
  }
}
