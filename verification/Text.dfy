/** ASCII string operations of the Python, Go and TypeScript standard libraries that the modelled code calls. */
module Text {

  function LowerChar(c: char): char {
    if 'A' <= c <= 'Z' then (c as int + 32) as char else c
  }

  function UpperChar(c: char): char {
    if 'a' <= c <= 'z' then (c as int - 32) as char else c
  }

  const CAPITALS := "ABCDEFGHIJKLMNOPQRSTUVWXYZ"

  const SMALL_LETTERS := "abcdefghijklmnopqrstuvwxyz"

  /** The two cases of the alphabet correspond letter by letter. */
  lemma LetterCases(i: nat)
    requires i < 26
    ensures LowerChar(CAPITALS[i]) == SMALL_LETTERS[i] && UpperChar(SMALL_LETTERS[i]) == CAPITALS[i]
  {
  }

  /** No other character has a case. */
  lemma OtherCharacters(c: char)
    ensures c !in CAPITALS ==> LowerChar(c) == c
    ensures c !in SMALL_LETTERS ==> UpperChar(c) == c
  {
    CapitalIff(c);
    SmallIff(c);
  }

  lemma CapitalIff(c: char)
    ensures c in CAPITALS <==> 'A' <= c <= 'Z'
  {
    if 'A' <= c <= 'Z' {
      assert CAPITALS[c as int - 65] == c;
    }
  }

  lemma SmallIff(c: char)
    ensures c in SMALL_LETTERS <==> 'a' <= c <= 'z'
  {
    if 'a' <= c <= 'z' {
      assert SMALL_LETTERS[c as int - 97] == c;
    }
  }

  function Lower(s: string): (r: string)
    ensures |r| == |s|
    ensures forall i :: 0 <= i < |s| ==> r[i] == LowerChar(s[i])
  {
    seq(|s|, i requires 0 <= i < |s| => LowerChar(s[i]))
  }

  function Upper(s: string): (r: string)
    ensures |r| == |s|
    ensures forall i :: 0 <= i < |s| ==> r[i] == UpperChar(s[i])
  {
    seq(|s|, i requires 0 <= i < |s| => UpperChar(s[i]))
  }

  lemma LowerIdempotent(s: string)
    ensures Lower(Lower(s)) == Lower(s)
  {
  }

  lemma UpperThenLower(s: string)
    ensures Lower(Upper(s)) == Lower(s) && Upper(Upper(s)) == Upper(s)
  {
  }

  predicate EndsWith(s: string, suffix: string) {
    |suffix| <= |s| && s[|s| - |suffix|..] == suffix
  }

  predicate OccursAt(s: string, part: string, i: nat) {
    i + |part| <= |s| && s[i..i + |part|] == part
  }

  predicate Contains(s: string, part: string) {
    exists i :: 0 <= i <= |s| && OccursAt(s, part, i)
  }

  /** A part is contained exactly if the text is something, the part, and something. */
  lemma ContainsIff(s: string, part: string)
    ensures Contains(s, part) <==> exists before, after :: s == before + part + after
  {
    if i: nat :| i <= |s| && OccursAt(s, part, i) {
      assert s == s[..i] + part + s[i + |part|..];
    }
    if before, after :| s == before + part + after {
      assert s[|before|..|before| + |part|] == part;
      assert OccursAt(s, part, |before|);
    }
  }

  /** A text without one of the part's characters does not contain the part. */
  lemma NotContained(s: string, part: string, c: char)
    requires c in part && c !in s
    ensures !Contains(s, part)
  {
    var k :| 0 <= k < |part| && part[k] == c;
    forall i: nat ensures !OccursAt(s, part, i) {
      if i + |part| <= |s| {
        assert s[i..i + |part|][k] == s[i + k] && s[i + k] in s;
      }
    }
  }

  /** Python's `str.replace`: leftmost, non-overlapping. */
  function Replace(s: string, target: string, replacement: string): string
    requires target != ""
  {
    if |s| < |target| then s
    else if target <= s then replacement + Replace(s[|target|..], target, replacement)
    else [s[0]] + Replace(s[1..], target, replacement)
  }

  /** An absent part is replaced nowhere. */
  lemma {:induction false} ReplaceAbsent(s: string, target: string, replacement: string)
    requires target != "" && !Contains(s, target)
    ensures Replace(s, target, replacement) == s
  {
    if |s| >= |target| {
      assert target <= s ==> OccursAt(s, target, 0);
      AbsentInTail(s, target);
      ReplaceAbsent(s[1..], target, replacement);
    }
  }

  lemma AbsentInTail(s: string, part: string)
    requires s != "" && !Contains(s, part)
    ensures !Contains(s[1..], part)
  {
    forall i | 0 <= i <= |s[1..]|
      ensures !OccursAt(s[1..], part, i)
    {
      assert !OccursAt(s, part, i + 1);
      if i + |part| <= |s[1..]| {
        assert s[1..][i..i + |part|] == s[i + 1..i + 1 + |part|];
      }
    }
  }

  /** Removing every occurrence of a part never lengthens the text, and shortens it by the part if it occurs. */
  lemma {:induction false} RemoveShortens(s: string, part: string)
    requires part != ""
    ensures |Replace(s, part, "")| <= |s|
    ensures Contains(s, part) ==> |Replace(s, part, "")| <= |s| - |part|
  {
    if |s| < |part| {
    } else if part <= s {
      RemoveShortens(s[|part|..], part);
    } else {
      RemoveShortens(s[1..], part);
      if Contains(s, part) {
        var i :| 0 <= i <= |s| && OccursAt(s, part, i);
        assert i != 0;
        assert s[1..][i - 1..i - 1 + |part|] == s[i..i + |part|];
        assert OccursAt(s[1..], part, i - 1);
      }
    }
  }

  /** No proper beginning of the part is also an ending of it, so two occurrences cannot overlap. */
  predicate Unbordered(part: string) {
    part != "" && forall n :: 0 < n < |part| ==> part[n..] != part[..|part| - n]
  }

  /** The part at the start of `s + part` either lies in `s` or overlaps the appended copy. */
  lemma OccurrenceOrBorder(s: string, part: string)
    requires s != "" && part <= s + part
    ensures OccursAt(s, part, 0) || (|s| < |part| && part[|s|..] == part[..|part| - |s|])
  {
  }

  /** Removing all occurrences of an unbordered part removes an appended one, and nothing besides what it removes
      without it. */
  lemma {:induction false} RemoveAppended(s: string, part: string)
    requires Unbordered(part)
    ensures Replace(s + part, part, "") == Replace(s, part, "")
  {
    var t := s + part;
    if s == "" {
      assert t == part && t[|part|..] == "";
    } else if part <= s {
      RemoveAppended(s[|part|..], part);
      assert t[|part|..] == s[|part|..] + part;
    } else {
      if part <= t {
        OccurrenceOrBorder(s, part);
      }
      RemoveAppended(s[1..], part);
      assert t[1..] == s[1..] + part;
      assert s == [s[0]] + s[1..];
    }
  }

  /** Appending an unbordered part and removing all its occurrences is the identity exactly on texts without it. */
  lemma RemoveAppendedIff(s: string, part: string)
    requires Unbordered(part)
    ensures Replace(s + part, part, "") == s <==> !Contains(s, part)
  {
    RemoveAppended(s, part);
    if Contains(s, part) {
      RemoveShortens(s, part);
    } else {
      ReplaceAbsent(s, part, "");
    }
  }

  /** ASCII whitespace for Go's `strings.TrimSpace` and for SQL. */
  predicate IsSpace(c: char) {
    c == ' ' || 9 as char <= c <= 13 as char
  }

  /** ASCII whitespace for Python's `str.strip`, which also strips the four separator characters. */
  predicate IsPythonSpace(c: char) {
    IsSpace(c) || 28 as char <= c <= 31 as char
  }

  function TrimLeft(s: string, space: char -> bool): string {
    if s != "" && space(s[0]) then TrimLeft(s[1..], space) else s
  }

  function TrimRight(s: string, space: char -> bool): string {
    if s != "" && space(s[|s| - 1]) then TrimRight(s[..|s| - 1], space) else s
  }

  /** `strings.TrimSpace` */
  function Trim(s: string): string {
    TrimRight(TrimLeft(s, IsSpace), IsSpace)
  }

  /** `str.strip` */
  function Strip(s: string): string {
    TrimRight(TrimLeft(s, IsPythonSpace), IsPythonSpace)
  }

  predicate Trimmed(s: string) {
    s != "" ==> !IsSpace(s[0]) && !IsSpace(s[|s| - 1])
  }

  lemma {:induction false} TrimLeftSlice(s: string, space: char -> bool) returns (i: nat)
    ensures i <= |s| && TrimLeft(s, space) == s[i..] && (i < |s| ==> !space(s[i]))
    ensures forall k :: 0 <= k < i ==> space(s[k])
  {
    if s != "" && space(s[0]) {
      var j := TrimLeftSlice(s[1..], space);
      assert s[1..][j..] == s[j + 1..];
      assert forall k :: 0 < k < j + 1 ==> s[k] == s[1..][k - 1];
      return j + 1;
    }
    return 0;
  }

  lemma {:induction false} TrimRightSlice(s: string, space: char -> bool) returns (j: nat)
    ensures j <= |s| && TrimRight(s, space) == s[..j] && (j > 0 ==> !space(s[j - 1]))
    ensures forall k :: j <= k < |s| ==> space(s[k])
  {
    if s != "" && space(s[|s| - 1]) {
      j := TrimRightSlice(s[..|s| - 1], space);
      assert s[..|s| - 1][..j] == s[..j];
      return;
    }
    return |s|;
  }

  const WHITESPACE := " \t\n\r" + [11 as char, 12 as char]

  const PYTHON_WHITESPACE := WHITESPACE + [28 as char, 29 as char, 30 as char, 31 as char]

  lemma SpacesAreWhitespace(c: char)
    ensures IsSpace(c) <==> c in WHITESPACE
    ensures IsPythonSpace(c) <==> c in PYTHON_WHITESPACE
  {
    var w, p := WHITESPACE, PYTHON_WHITESPACE;
    assert w[1] as int == 9 && w[2] as int == 10 && w[3] as int == 13 && w[4] as int == 11 && w[5] as int == 12;
    assert p[..6] == w && p[6] as int == 28 && p[7] as int == 29 && p[8] as int == 30 && p[9] as int == 31;
    assert |w| == 6 && w[0] == ' ';
  }

  /** Trimming cuts the whitespace off both ends of a text, and all of it. */
  lemma TrimSlice(s: string) returns (i: nat, j: nat)
    ensures i <= j <= |s| && Trim(s) == s[i..j] && Trimmed(Trim(s))
    ensures forall k :: 0 <= k < i || j <= k < |s| ==> s[k] in WHITESPACE
    ensures i < j ==> s[i] !in WHITESPACE && s[j - 1] !in WHITESPACE
  {
    i, j := CutSlice(s, IsSpace);
    forall k | 0 <= k < |s| { SpacesAreWhitespace(s[k]); }
    hide IsSpace;
  }

  predicate Blank(s: string) {
    forall i :: 0 <= i < |s| ==> s[i] in WHITESPACE
  }

  /** What is between whitespace and neither starts nor ends with it is what trimming leaves. */
  lemma TrimPadded(pad: string, core: string, pad': string)
    requires Blank(pad) && Blank(pad')
    requires core != "" ==> core[0] !in WHITESPACE && core[|core| - 1] !in WHITESPACE
    ensures Trim(pad + core + pad') == core
  {
    var s := pad + core + pad';
    var i, j := TrimSlice(s);
    assert forall k :: 0 <= k < |pad| ==> s[k] == pad[k];
    assert forall k :: |pad| <= k < |pad| + |core| ==> s[k] == core[k - |pad|];
    assert forall k :: |pad| + |core| <= k < |s| ==> s[k] == pad'[k - |pad| - |core|];
    hide Trim;
    if core == "" {
      assert forall k :: 0 <= k < |s| ==> s[k] in WHITESPACE;
    } else {
      assert s[|pad|] !in WHITESPACE && s[|pad| + |core| - 1] !in WHITESPACE;
      assert i == |pad| && j == |pad| + |core|;
      assert s[i..j] == core;
    }
  }

  lemma StripSlice(s: string) returns (i: nat, j: nat)
    ensures i <= j <= |s| && Strip(s) == s[i..j]
    ensures forall k :: 0 <= k < i || j <= k < |s| ==> s[k] in PYTHON_WHITESPACE
    ensures i < j ==> s[i] !in PYTHON_WHITESPACE && s[j - 1] !in PYTHON_WHITESPACE
  {
    i, j := CutSlice(s, IsPythonSpace);
    forall k | 0 <= k < |s| { SpacesAreWhitespace(s[k]); }
    hide IsPythonSpace;
  }

  lemma CutSlice(s: string, space: char -> bool) returns (i: nat, j: nat)
    ensures i <= j <= |s| && TrimRight(TrimLeft(s, space), space) == s[i..j]
    ensures forall k :: 0 <= k < i || j <= k < |s| ==> space(s[k])
    ensures i < j ==> !space(s[i]) && !space(s[j - 1])
  {
    i := TrimLeftSlice(s, space);
    var k := TrimRightSlice(s[i..], space);
    j := i + k;
    assert s[i..][..k] == s[i..j];
    assert forall n :: j <= n < |s| ==> s[n] == s[i..][n - i];
  }

  function Split(s: string, sep: char): (parts: seq<string>)
    ensures |parts| >= 1
  {
    if s == "" then [""]
    else
      var rest := Split(s[1..], sep);
      if s[0] == sep then [""] + rest else [[s[0]] + rest[0]] + rest[1..]
  }

  function Join(parts: seq<string>, sep: string): string {
    if |parts| == 0 then ""
    else if |parts| == 1 then parts[0]
    else parts[0] + sep + Join(parts[1..], sep)
  }

  lemma {:induction false} SplitUnbroken(s: string, sep: char)
    requires sep !in s
    ensures Split(s, sep) == [s]
  {
    if s != "" {
      SplitUnbroken(s[1..], sep);
      assert s == [s[0]] + s[1..];
    }
  }

  lemma {:induction false} SplitAtSeparator(head: string, sep: char, tail: string)
    requires sep !in head
    ensures Split(head + [sep] + tail, sep) == [head] + Split(tail, sep)
  {
    var s := head + [sep] + tail;
    if head == "" {
      assert s[1..] == tail;
    } else {
      SplitAtSeparator(head[1..], sep, tail);
      assert s[1..] == head[1..] + [sep] + tail;
      assert head == [head[0]] + head[1..];
    }
  }

  /** Splitting a joined list at the separator gives the list back. */
  lemma {:induction false} SplitJoin(parts: seq<string>, sep: char)
    requires |parts| >= 1 && forall p :: p in parts ==> sep !in p
    ensures Split(Join(parts, [sep]), sep) == parts
  {
    if |parts| == 1 {
      SplitUnbroken(parts[0], sep);
    } else {
      SplitJoin(parts[1..], sep);
      SplitAtSeparator(parts[0], sep, Join(parts[1..], [sep]));
    }
  }

  lemma {:induction false} SplitHasNoSeparator(s: string, sep: char)
    ensures forall p :: p in Split(s, sep) ==> sep !in p && forall c :: c in p ==> c in s
  {
    if s != "" {
      SplitHasNoSeparator(s[1..], sep);
    }
  }

  /** Splitting at a separator between two texts is splitting both. */
  lemma {:induction false} SplitConcat(a: string, sep: char, b: string)
    ensures Split(a + [sep] + b, sep) == Split(a, sep) + Split(b, sep)
  {
    var s := a + [sep] + b;
    if a == "" {
      assert s[0] == sep && s[1..] == b;
    } else {
      SplitConcat(a[1..], sep, b);
      assert s[0] == a[0] && s[1..] == a[1..] + [sep] + b;
    }
  }

  /** Index of the last `c`, or -1. */
  function LastIndexOf(s: string, c: char): (i: int)
    ensures -1 <= i < |s|
    ensures i >= 0 ==> s[i] == c
    ensures forall j :: i < j < |s| ==> s[j] != c
  {
    if s == "" then -1
    else if s[|s| - 1] == c then |s| - 1
    else LastIndexOf(s[..|s| - 1], c)
  }

  predicate IsLetter(c: char) {
    'a' <= c <= 'z' || 'A' <= c <= 'Z'
  }

  lemma LettersIff(c: char)
    ensures IsLetter(c) <==> c in CAPITALS || c in SMALL_LETTERS
  {
    CapitalIff(c);
    SmallIff(c);
  }

  /** `os.path.basename`: what follows the last slash. */
  function BaseName(path: string): string {
    path[LastIndexOf(path, '/') + 1..]
  }

  /** `os.path.splitext(name)[0]`: the last dot starts the extension unless only dots precede it. */
  function Stem(name: string): string {
    var dot := LastIndexOf(name, '.');
    if dot >= 0 && exists i :: 0 <= i < dot && name[i] != '.' then name[..dot] else name
  }
}
