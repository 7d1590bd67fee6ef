/** The access filter: for any consumer other than the internal one, address
    cells are redacted and ZIP codes cut to their first three characters. */
module Security {
  import opened Strings
  import opened Frames

  /** Personally identifying columns, redacted entirely. */
  const PiiColumns := ["street", "house_num", "house_supp"]
  /** Quasi-identifying columns, coarsened. */
  const QuasiPiiColumns := ["zip"]

  const Internal := "internal"
  const MaskedText := "***MASKED***"

  /** An address cell: null stays null, anything else is redacted. */
  function MaskAddress(x: Cell): (r: Cell)
    ensures x == Null ==> r == Null
    ensures x != Null ==> r == Str(MaskedText)
  {
    if x == Null then Null else Str(MaskedText)
  }

  /** A ZIP cell: null stays null, anything else becomes the first three
      characters of its string form followed by "**". */
  function Zip3(x: Cell): (r: Cell)
    ensures x == Null ==> r == Null
    ensures x != Null ==> r.Str? && |r.s| == (if |ToStr(x)| < 3 then |ToStr(x)| else 3) + 2
    ensures x != Null ==> r.Str? && r.s[..|r.s| - 2] == ToStr(x)[..|r.s| - 2] && r.s[|r.s| - 2..] == "**"
  {
    if x == Null then Null else Str(Take(ToStr(x), 3) + "**")
  }

  /** The cell that masking leaves in column `c` of a table with `columns`. */
  function MaskCell(c: string, x: Cell, columns: seq<string>): Cell {
    if c in PiiColumns && c in columns then MaskAddress(x)
    else if c in QuasiPiiColumns && c in columns then Zip3(x)
    else x
  }

  /** One row after masking: every cell rewritten by `MaskCell`. */
  function MaskRow(row: Row, columns: seq<string>): (r: Row)
    ensures r.Keys == row.Keys
  {
    map c | c in row :: MaskCell(c, row[c], columns)
  }

  /** What `mask_pii` returns: the table itself for the internal level;
      otherwise the same columns and rows, each row rewritten by `MaskRow`. */
  function Masked(t: Table, level: string): Table {
    if level == Internal then t
    else Table(t.columns, seq(|t.rows|, i requires 0 <= i < |t.rows| => MaskRow(t.rows[i], t.columns)))
  }

  /** One row after `out[col] = out[col].apply(f)`. */
  function ApplyRow(row: Row, col: string, f: Cell -> Cell): (r: Row)
    ensures r.Keys == row.Keys
    ensures forall c :: c in row ==> r[c] == if c == col then f(row[c]) else row[c]
  {
    if col in row then row[col := f(row[col])] else row
  }

  /** `out[col] = out[col].apply(f)` for one column. */
  function ApplyColumn(t: Table, col: string, f: Cell -> Cell): (r: Table)
    ensures r.columns == t.columns && |r.rows| == |t.rows|
    ensures forall i :: 0 <= i < |t.rows| ==> r.rows[i] == ApplyRow(t.rows[i], col, f)
  {
    Table(t.columns, seq(|t.rows|, i requires 0 <= i < |t.rows| => ApplyRow(t.rows[i], col, f)))
  }

  /** Row `out` is row `orig` with the address columns in `done` redacted. */
  ghost predicate RowMaskedSoFar(orig: Row, out: Row, columns: seq<string>, done: seq<string>) {
    && out.Keys == orig.Keys
    && forall c :: c in orig ==>
         out[c] == if c in done && c in columns then MaskAddress(orig[c]) else orig[c]
  }

  /** The rows after the loop has redacted the columns in `done`. */
  ghost predicate MaskedSoFar(t: Table, out: Table, done: seq<string>) {
    && out.columns == t.columns
    && |out.rows| == |t.rows|
    && forall i :: 0 <= i < |t.rows| ==> RowMaskedSoFar(t.rows[i], out.rows[i], t.columns, done)
  }

  /** Redacting one more column of a row extends what has been redacted. */
  lemma RowMaskStep(orig: Row, out: Row, columns: seq<string>, done: seq<string>, col: string)
    requires RowMaskedSoFar(orig, out, columns, done)
    ensures RowMaskedSoFar(orig, if col in columns then ApplyRow(out, col, MaskAddress) else out, columns, done + [col])
  {
    var next := if col in columns then ApplyRow(out, col, MaskAddress) else out;
    forall c | c in orig
      ensures next[c] == if c in done + [col] && c in columns then MaskAddress(orig[c]) else orig[c]
    {
      assert c in done + [col] <==> c in done || c == col;
    }
  }

  /** One iteration of the masking loop keeps `MaskedSoFar`. */
  lemma MaskStep(t: Table, out: Table, done: seq<string>, col: string)
    requires MaskedSoFar(t, out, done)
    ensures MaskedSoFar(t, if col in t.columns then ApplyColumn(out, col, MaskAddress) else out, done + [col])
  {
    var next := if col in t.columns then ApplyColumn(out, col, MaskAddress) else out;
    forall i | 0 <= i < |t.rows| ensures RowMaskedSoFar(t.rows[i], next.rows[i], t.columns, done + [col]) {
      RowMaskStep(t.rows[i], out.rows[i], t.columns, done, col);
    }
  }

  /** After every address column, coarsening the ZIP gives the masked row. */
  lemma RowZipStep(orig: Row, out: Row, columns: seq<string>)
    requires RowMaskedSoFar(orig, out, columns, PiiColumns)
    ensures (if "zip" in columns then ApplyRow(out, "zip", Zip3) else out) == MaskRow(orig, columns)
  {
    var last := if "zip" in columns then ApplyRow(out, "zip", Zip3) else out;
    var want := MaskRow(orig, columns);
    forall c | c in orig ensures last[c] == want[c] {
      assert c in QuasiPiiColumns <==> c == "zip";
      assert "zip" !in PiiColumns;
    }
  }

  /** The final ZIP step turns the loop's result into `Masked`. */
  lemma ZipStep(t: Table, out: Table, level: string)
    requires level != Internal
    requires MaskedSoFar(t, out, PiiColumns)
    ensures (if "zip" in t.columns then ApplyColumn(out, "zip", Zip3) else out) == Masked(t, level)
  {
    var last := if "zip" in t.columns then ApplyColumn(out, "zip", Zip3) else out;
    var want := Masked(t, level);
    forall i | 0 <= i < |t.rows| ensures last.rows[i] == want.rows[i] {
      RowZipStep(t.rows[i], out.rows[i], t.columns);
    }
  }

  /** `mask_pii(df, level)`: the loop redacts each address column the table
      has, then the ZIP column is coarsened; the input is not changed. */
  method MaskPii(df: Table, level: string := "external") returns (out: Table)
    ensures out == Masked(df, level)
    ensures level == Internal ==> out == df
    ensures out.columns == df.columns && |out.rows| == |df.rows|
  {
    if level == Internal {
      return df;
    }
    out := df;
    for k := 0 to |PiiColumns|
      invariant MaskedSoFar(df, out, PiiColumns[..k])
    {
      var col := PiiColumns[k];
      MaskStep(df, out, PiiColumns[..k], col);
      if col in out.columns {
        out := ApplyColumn(out, col, MaskAddress);
      }
      assert PiiColumns[..k + 1] == PiiColumns[..k] + [col];
    }
    assert PiiColumns[..|PiiColumns|] == PiiColumns;
    ZipStep(df, out, level);
    if "zip" in out.columns {
      out := ApplyColumn(out, "zip", Zip3);
    }
  }

  /** `get_pii_columns`: the address columns followed by the ZIP column. */
  function GetPiiColumns(): (r: seq<string>)
    ensures |r| == |PiiColumns| + |QuasiPiiColumns|
    ensures r[..|PiiColumns|] == PiiColumns && r[|PiiColumns|..] == QuasiPiiColumns
  {
    PiiColumns + QuasiPiiColumns
  }

  // ---------------------------------------------------------------------
  // Properties of the masking
  // ---------------------------------------------------------------------

  /** The internal level returns the very table it was given. */
  lemma InternalUnchanged(t: Table)
    ensures Masked(t, Internal) == t
  {
  }

  /** Any other level, whatever the string, masks: columns and row count are
      kept; a cell outside the listed PII columns, or in a listed column the
      table does not have, is unchanged; a null stays null; a non-null address
      cell becomes the redaction text. */
  lemma MaskedCells(t: Table, level: string)
    requires level != Internal
    ensures var m := Masked(t, level);
      && m.columns == t.columns && |m.rows| == |t.rows|
      && forall i, c :: 0 <= i < |t.rows| && c in t.rows[i] ==>
           && c in m.rows[i]
           && (c !in GetPiiColumns() || c !in t.columns ==> m.rows[i][c] == t.rows[i][c])
           && (t.rows[i][c] == Null ==> m.rows[i][c] == Null)
           && (c in PiiColumns && c in t.columns && t.rows[i][c] != Null ==> m.rows[i][c] == Str(MaskedText))
  {
  }

  /** Coarsening a ZIP twice equals coarsening it once exactly when its
      string form has at least three characters. */
  lemma Zip3Idempotent(x: Cell)
    ensures Zip3(Zip3(x)) == Zip3(x) <==> x == Null || |ToStr(x)| >= 3
  {
    if x != Null {
      var s := ToStr(x);
      var once := Take(s, 3) + "**";
      if |s| >= 3 {
        assert Take(once, 3) == Take(s, 3);
      } else {
        assert |Zip3(Zip3(x)).s| != |once|;
      }
    }
  }

  /** The two-character ZIP "12" shows that a second masking changes a
      masked ZIP. */
  lemma ShortZipCounterexample()
    ensures Zip3(Str("12")) == Str("12**")
    ensures Zip3(Zip3(Str("12"))) == Str("12***")
  {
    assert Take("12", 3) == "12";
    assert Take("12**", 3) == "12*";
  }

  /** The row's ZIP cell, when the table has that column and the cell is not
      null, has a string form of at least three characters. */
  predicate LongZip(row: Row, columns: seq<string>) {
    "zip" in columns && "zip" in row && row["zip"] != Null ==> |ToStr(row["zip"])| >= 3
  }

  /** Every non-null ZIP cell of the table has a string form of at least
      three characters. */
  predicate LongZips(t: Table) {
    forall i :: 0 <= i < |t.rows| ==> LongZip(t.rows[i], t.columns)
  }

  /** Masking a row again changes nothing on its address cells, and nothing
      at all exactly when its ZIP is long enough. */
  lemma MaskRowIdempotentIff(row: Row, columns: seq<string>)
    ensures MaskRow(MaskRow(row, columns), columns) == MaskRow(row, columns) <==> LongZip(row, columns)
    ensures forall c :: c in row && c in PiiColumns ==> MaskRow(MaskRow(row, columns), columns)[c] == MaskRow(row, columns)[c]
  {
    var once := MaskRow(row, columns);
    var twice := MaskRow(once, columns);
    if LongZip(row, columns) {
      forall c | c in row ensures twice[c] == once[c] {
        if c in QuasiPiiColumns && c in columns {
          Zip3Idempotent(row[c]);
        }
      }
    } else {
      Zip3Idempotent(row["zip"]);
      assert twice["zip"] != once["zip"];
    }
  }

  /** Masking again changes nothing on the address columns, and changes
      nothing at all exactly when every ZIP is long enough. */
  lemma MaskIdempotentIff(t: Table, level: string)
    requires level != Internal
    ensures Masked(Masked(t, level), level) == Masked(t, level) <==> LongZips(t)
    ensures forall i, c :: 0 <= i < |t.rows| && c in t.rows[i] && c in PiiColumns ==>
              Masked(Masked(t, level), level).rows[i][c] == Masked(t, level).rows[i][c]
  {
    var once := Masked(t, level);
    var twice := Masked(once, level);
    assert |twice.rows| == |once.rows| == |t.rows|;
    forall i | 0 <= i < |t.rows|
      ensures twice.rows[i] == MaskRow(MaskRow(t.rows[i], t.columns), t.columns)
      ensures once.rows[i] == MaskRow(t.rows[i], t.columns)
    {
    }
    forall i | 0 <= i < |t.rows|
      ensures twice.rows[i] == once.rows[i] <==> LongZip(t.rows[i], t.columns)
      ensures forall c :: c in t.rows[i] && c in PiiColumns ==> twice.rows[i][c] == once.rows[i][c]
    {
      MaskRowIdempotentIff(t.rows[i], t.columns);
    }
    if !LongZips(t) {
      var i :| 0 <= i < |t.rows| && !LongZip(t.rows[i], t.columns);
      assert twice.rows[i] != once.rows[i];
    } else {
      assert twice.rows == once.rows;
    }
  }
}
