/** The text of a stock or macro block's VALUES list, and what the database reads from it. */
module ScriptText {
  import opened Options
  import opened SqlValues
  import opened Bridging
  import opened BridgePlan

  function Columns(r: MapRow): (c: seq<string>)
    ensures c != []
  {
    match r
    case SuffixRow(sym, stripped, assetType) => [sym, stripped, assetType]
    case DirectRow(sym, assetType) => [sym, assetType]
    case FxRow(sym, base, quote) => [sym, base, quote]
    case MacroRow(sym) => [sym]
  }

  /** The line of each kind of map row, in the order of its block's column list. */
  lemma PrintedLines(sym: string, stripped: string, assetType: string)
    ensures PrintTuple(Columns(SuffixRow(sym, stripped, assetType))) ==
            "    (" + PrintLiteral(sym) + ", " + PrintLiteral(stripped) + ", " + PrintLiteral(assetType) + ")"
    ensures PrintTuple(Columns(DirectRow(sym, assetType))) ==
            "    (" + PrintLiteral(sym) + ", " + PrintLiteral(assetType) + ")"
    ensures PrintTuple(Columns(MacroRow(sym))) == "    (" + PrintLiteral(sym) + ")"
  {
    var a, b, c := PrintLiteral(sym), PrintLiteral(stripped), PrintLiteral(assetType);
    hide PrintLiteral;
    assert [sym, stripped, assetType][1..] == [stripped, assetType] && [stripped, assetType][1..] == [assetType];
    assert [sym, assetType][1..] == [assetType];
    assert PrintColumns([assetType]) == c && PrintColumns([sym]) == a;
    assert PrintColumns([sym, assetType]) == a + ", " + c;
    assert PrintColumns([stripped, assetType]) == b + ", " + c;
    assert PrintColumns([sym, stripped, assetType]) == a + ", " + (b + ", " + c);
  }

  /** The tuples of a block. */
  function Tuples(rows: seq<MapRow>): (t: seq<seq<string>>)
    ensures |t| == |rows| && forall n :: 0 <= n < |rows| ==> t[n] == Columns(rows[n])
  {
    seq(|rows|, n requires 0 <= n < |rows| => Columns(rows[n]))
  }

  /** A tuple read under the column list of a block of kind `kind`. */
  function RowOfColumns(kind: Kind, c: seq<string>): Option<MapRow> {
    match kind
    case SuffixMap => if |c| == 3 then Some(SuffixRow(c[0], c[1], c[2])) else None
    case DirectMap => if |c| == 2 then Some(DirectRow(c[0], c[1])) else None
    case FxMap => if |c| == 3 then Some(FxRow(c[0], c[1], c[2])) else None
    case MacroMap => if |c| == 1 then Some(MacroRow(c[0])) else None
  }

  /** What the database reads as the block's map table: None if the text is not a VALUES list of the right shape. */
  function ReadBlock(kind: Kind, text: string): Option<seq<MapRow>> {
    var parsed := ParseValues(text + "\n)");
    if parsed.Some? && parsed.value.rest == ")" then ReadRows(kind, parsed.value.value) else None
  }

  function ReadRows(kind: Kind, tuples: seq<seq<string>>): Option<seq<MapRow>> {
    if tuples == [] then Some([])
    else
      var first, others := RowOfColumns(kind, tuples[0]), ReadRows(kind, tuples[1..]);
      if first.Some? && others.Some? then Some([first.value] + others.value) else None
  }

  lemma ColumnsReadBack(kind: Kind, r: MapRow)
    requires Fits(kind, r)
    ensures RowOfColumns(kind, Columns(r)) == Some(r)
  {
  }

  lemma {:induction false} ReadRowsOfTuples(kind: Kind, rows: seq<MapRow>)
    requires forall r :: r in rows ==> Fits(kind, r)
    ensures ReadRows(kind, Tuples(rows)) == Some(rows)
  {
    if rows != [] {
      assert rows[0] in rows;
      ColumnsReadBack(kind, rows[0]);
      ReadRowsOfTuples(kind, rows[1..]);
      assert Tuples(rows)[1..] == Tuples(rows[1..]);
      assert rows == [rows[0]] + rows[1..];
    }
  }

  /** The escaping printer of the suffix, direct and macro blocks: the database reads back exactly the block's rows,
      whatever characters the symbols contain. */
  method PrintBlock(b: Block) returns (text: string)
    requires b.kind != FxMap && b.rows != [] && forall r :: r in b.rows ==> Fits(b.kind, r)
    ensures ReadBlock(b.kind, text) == Some(b.rows)
  {
    text := WriteValues(Tuples(b.rows));
    ReadRowsOfTuples(b.kind, b.rows);
  }

  /** Every non-currency block of a generated script has a text that reads back as its rows. */
  method PrintScript(blocks: seq<Block>) returns (texts: seq<string>)
    requires Planned(blocks)
    ensures |texts| == |blocks|
    ensures forall n :: 0 <= n < |blocks| && blocks[n].kind != FxMap ==>
              ReadBlock(blocks[n].kind, texts[n]) == Some(blocks[n].rows)
  {
    hide ReadBlock;
    texts := [];
    for n := 0 to |blocks|
      invariant |texts| == n
      invariant forall m :: 0 <= m < n && blocks[m].kind != FxMap ==>
                  ReadBlock(blocks[m].kind, texts[m]) == Some(blocks[m].rows)
    {
      var text := "";
      if blocks[n].kind != FxMap {
        assert ProperBlock(blocks[n]);
        text := PrintBlock(blocks[n]);
      }
      texts := texts + [text];
    }
  }
}
