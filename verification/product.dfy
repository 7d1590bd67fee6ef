/** The fact joiner: interval readings left-joined to their meter and then to
    their service point, a missing `utility_id` filled with a placeholder, and
    the columns put in a fixed order. Tables are column lists with rows that
    map column names to cells. */
module Product {
  import opened Wrappers
  import opened Frames
  import opened Relational
  import opened Standardized

  const UnknownUtility := "UNKNOWN_UTILITY"
  const MeterJoinKeys := ["utility_id", "meter_id"]
  const ServicePointJoinKeys := ["utility_id", "service_point_id"]
  const MeterSuffix := "_meter"
  const ServicePointSuffix := "_sp"

  const BaseColumns := ["utility_id", "service_point_id", "meter_id", "interval_start_ts", "interval_end_ts",
                        "duration_seconds", "value", "channel", "quality"]
  const LocationColumns := ["city", "zip", "state"]
  const FixedColumns := BaseColumns + LocationColumns

  // ---------------------------------------------------------------------
  // Left merge with suffixes
  // ---------------------------------------------------------------------

  /** The cells of `row` under the key columns, in key order. */
  function KeyOf(row: Row, keys: seq<string>): (k: seq<Cell>)
    ensures |k| == |keys| && forall i :: 0 <= i < |keys| ==> k[i] == Get(row, keys[i])
  {
    seq(|keys|, i requires 0 <= i < |keys| => Get(row, keys[i]))
  }

  function KeyFn(keys: seq<string>): Row -> seq<Cell> {
    row => KeyOf(row, keys)
  }

  function NotKey(keys: seq<string>): string -> bool {
    c => c !in keys
  }

  /** The right table's columns that are not join keys, in order. */
  function Carried(right: seq<string>, keys: seq<string>): (r: seq<string>)
    ensures forall i :: 0 <= i < |r| ==> r[i] in right && r[i] !in keys
    ensures forall c :: c in right && c !in keys ==> c in r
  {
    var r := Filter(right, NotKey(keys));
    assert forall c :: c in right && c !in keys ==> c in r by {
      forall c | c in right && c !in keys ensures c in r {
        var i :| 0 <= i < |right| && right[i] == c;
      }
    }
    r
  }

  /** The carried columns are exactly those at the ascending positions of
      `right` holding a non-key name, one for one and in order. */
  lemma CarriedInOrder(right: seq<string>, keys: seq<string>)
    ensures Carried(right, keys) == Select(right, Positions(right, NotKey(keys), |right|))
  {
    FilterInOrder(right, NotKey(keys));
  }

  /** A carried column keeps its name unless the left table already has a
      column of that name; then it takes the suffix. */
  function Renamed(carried: seq<string>, left: seq<string>, suffix: string): (r: seq<string>)
    ensures |r| == |carried|
    ensures forall i :: 0 <= i < |carried| ==> r[i] == if carried[i] in left then carried[i] + suffix else carried[i]
  {
    seq(|carried|, i requires 0 <= i < |carried| => if carried[i] in left then carried[i] + suffix else carried[i])
  }

  /** The columns of a left merge whose left suffix is empty: every left
      column under its own name, then every non-key right column, suffixed
      exactly when its name is taken on the left. */
  function MergedColumns(left: seq<string>, right: seq<string>, keys: seq<string>, suffix: string): (r: seq<string>)
    ensures |r| >= |left| && r[..|left|] == left
    ensures r[|left|..] == Renamed(Carried(right, keys), left, suffix)
    ensures forall c :: c in left ==> c in r
    ensures forall c :: c in right && c !in keys && c !in left ==> c in r
    ensures forall c :: c in right && c !in keys && c in left ==> c + suffix in r
  {
    var carried := Carried(right, keys);
    var names := Renamed(carried, left, suffix);
    assert forall c :: c in right && c !in keys ==> (if c in left then c + suffix else c) in names by {
      forall c | c in right && c !in keys ensures (if c in left then c + suffix else c) in names {
        var i :| 0 <= i < |carried| && carried[i] == c;
        assert names[i] == (if c in left then c + suffix else c);
      }
    }
    assert (left + names)[..|left|] == left && (left + names)[|left|..] == names;
    assert forall c :: c in names ==> c in left + names;
    left + names
  }

  /** The right row's carried cells under their output names. */
  function Attach(l: Row, m: Row, left: seq<string>, carried: seq<string>, suffix: string): Row {
    Assign(l, Renamed(carried, left, suffix), seq(|carried|, i requires 0 <= i < |carried| => Get(m, carried[i])))
  }

  /** A left row without a match: null under every carried output name. */
  function AttachNothing(l: Row, left: seq<string>, carried: seq<string>, suffix: string): Row {
    Assign(l, Renamed(carried, left, suffix), seq(|carried|, i requires 0 <= i < |carried| => Null))
  }

  function AttachFn(left: seq<string>, carried: seq<string>, suffix: string): (Row, Row) -> Row {
    (l, m) => Attach(l, m, left, carried, suffix)
  }

  function AttachNothingFn(left: seq<string>, carried: seq<string>, suffix: string): Row -> Row {
    l => AttachNothing(l, left, carried, suffix)
  }

  function MergeRows(left: Table, right: Table, keys: seq<string>, suffix: string): (rows: seq<Row>)
    ensures |rows| >= |left.rows|
  {
    var carried := Carried(right.columns, keys);
    LeftJoin(left.rows, right.rows, KeyFn(keys), KeyFn(keys),
             AttachFn(left.columns, carried, suffix), AttachNothingFn(left.columns, carried, suffix))
  }

  /** `left.merge(right, on=keys, how="left", suffixes=("", suffix))`: a
      KeyError when a key column is missing on either side, a MergeError when
      the suffixed names still clash; otherwise every left row is kept, in
      order, once per matching right row or once alone. */
  function Merge(left: Table, right: Table, keys: seq<string>, suffix: string): (r: Result<Table, string>)
    ensures r.Err? <==> (exists k :: k in keys && (k !in left.columns || k !in right.columns))
                        || !Distinct(MergedColumns(left.columns, right.columns, keys, suffix))
    ensures r.Ok? ==> r.value.columns == MergedColumns(left.columns, right.columns, keys, suffix)
    ensures r.Ok? ==> |r.value.rows| >= |left.rows|
    ensures r.Ok? && WellFormed(left) ==> WellFormed(r.value)
  {
    match FirstMissing(left.columns, keys)
    case Some(k) => Err(k)
    case None =>
      match FirstMissing(right.columns, keys)
      case Some(k) => Err(k)
      case None =>
        var columns := MergedColumns(left.columns, right.columns, keys, suffix);
        if !Distinct(columns) then Err("duplicate columns")
        else
          assert WellFormed(left) ==> WellFormed(Table(columns, MergeRows(left, right, keys, suffix))) by {
            if WellFormed(left) {
              MergeRowsWellFormed(left, right, keys, suffix);
            }
          }
          Ok(Table(columns, MergeRows(left, right, keys, suffix)))
  }

  lemma MergeRowsWellFormed(left: Table, right: Table, keys: seq<string>, suffix: string)
    requires WellFormed(left)
    ensures var columns := MergedColumns(left.columns, right.columns, keys, suffix);
            forall o :: o in MergeRows(left, right, keys, suffix) ==> o.Keys == set c | c in columns
  {
    var names := Renamed(Carried(right.columns, keys), left.columns, suffix);
    MergeRowsKeys(left, right, keys, suffix);
    var columns := MergedColumns(left.columns, right.columns, keys, suffix);
    assert columns == columns[..|left.columns|] + columns[|left.columns|..];
  }

  predicate HasKeys(o: Row, cs: set<string>) {
    o.Keys == cs
  }

  function HasKeysFn(cs: set<string>): Row -> bool {
    o => HasKeys(o, cs)
  }

  /** Every merged row has exactly the left columns and the carried output
      names as keys. */
  lemma MergeRowsKeys(left: Table, right: Table, keys: seq<string>, suffix: string)
    requires WellFormed(left)
    ensures var names := Renamed(Carried(right.columns, keys), left.columns, suffix);
            forall o :: o in MergeRows(left, right, keys, suffix) ==> o.Keys == set c | c in left.columns + names
  {
    var carried := Carried(right.columns, keys);
    var names := Renamed(carried, left.columns, suffix);
    var cs := set c | c in left.columns + names;
    var both := AttachFn(left.columns, carried, suffix);
    var alone := AttachNothingFn(left.columns, carried, suffix);
    var rows := LeftJoin(left.rows, right.rows, KeyFn(keys), KeyFn(keys), both, alone);
    assert forall o :: o in rows ==> HasKeysFn(cs)(o) by {
      assert cs == (set c | c in left.columns) + (set c | c in names);
      forall i | 0 <= i < |left.rows| ensures HasKeysFn(cs)(alone(left.rows[i])) {
        assert left.rows[i].Keys == set c | c in left.columns;
      }
      forall i, j | 0 <= i < |left.rows| && 0 <= j < |right.rows| ensures HasKeysFn(cs)(both(left.rows[i], right.rows[j])) {
        assert left.rows[i].Keys == set c | c in left.columns;
      }
      LeftJoinAll(left.rows, right.rows, KeyFn(keys), KeyFn(keys), both, alone, HasKeysFn(cs));
    }
    assert MergeRows(left, right, keys, suffix) == rows;
    forall o | o in rows ensures HasKeys(o, cs) {
      assert HasKeysFn(cs)(o);
    }
  }

  /** Output row `o` is left row `l` extended: the left cells unchanged, and
      under each carried column's output name the matched right row's cell,
      or null when there is no match. */
  predicate Extends(l: Row, o: Row, left: seq<string>, carried: seq<string>, names: seq<string>, found: Option<Row>) {
    && (forall c :: c in left ==> Get(o, c) == Get(l, c))
    && (forall k :: 0 <= k < |carried| && k < |names| ==>
          Get(o, names[k]) == if found.Some? then Get(found.value, carried[k]) else Null)
  }

  lemma MergedNamesFresh(left: seq<string>, right: seq<string>, keys: seq<string>, suffix: string)
    requires Distinct(MergedColumns(left, right, keys, suffix))
    ensures var names := Renamed(Carried(right, keys), left, suffix);
            Distinct(names) && forall c :: c in left ==> c !in names
  {
    var names := Renamed(Carried(right, keys), left, suffix);
    var columns := MergedColumns(left, right, keys, suffix);
    assert columns == left + names;
    forall a, b | 0 <= a < b < |names| ensures names[a] != names[b] {
      assert columns[|left| + a] == names[a] && columns[|left| + b] == names[b];
    }
    forall c | c in left ensures c !in names {
      var a :| 0 <= a < |left| && left[a] == c;
      forall b | 0 <= b < |names| ensures names[b] != c {
        assert columns[a] == c && columns[|left| + b] == names[b];
      }
    }
  }

  lemma AttachExtends(l: Row, found: Option<Row>, left: seq<string>, carried: seq<string>, suffix: string)
    requires Distinct(Renamed(carried, left, suffix))
    requires forall c :: c in left ==> c !in Renamed(carried, left, suffix)
    ensures var o := if found.Some? then Attach(l, found.value, left, carried, suffix)
                     else AttachNothing(l, left, carried, suffix);
            Extends(l, o, left, carried, Renamed(carried, left, suffix), found)
  {
  }

  /** With the right rows unique on the key, the merge keeps the left rows one
      for one and in order; each keeps its own cells under the left columns
      and gains the matching right row's carried cells, or nulls when no
      right row has its key. */
  lemma MergeOfUnique(left: Table, right: Table, keys: seq<string>, suffix: string)
    requires Merge(left, right, keys, suffix).Ok?
    requires UniqueKeys(right.rows, KeyFn(keys))
    ensures |Merge(left, right, keys, suffix).value.rows| == |left.rows|
    ensures forall i :: 0 <= i < |left.rows| ==>
              Extends(left.rows[i], Merge(left, right, keys, suffix).value.rows[i], left.columns,
                      Carried(right.columns, keys), Renamed(Carried(right.columns, keys), left.columns, suffix),
                      Lookup(KeyOf(left.rows[i], keys), right.rows, KeyFn(keys)))
  {
    var carried := Carried(right.columns, keys);
    var names := Renamed(carried, left.columns, suffix);
    MergedNamesFresh(left.columns, right.columns, keys, suffix);
    var both := AttachFn(left.columns, carried, suffix);
    var alone := AttachNothingFn(left.columns, carried, suffix);
    LeftJoinOfUnique(left.rows, right.rows, KeyFn(keys), KeyFn(keys), both, alone);
    var out := Merge(left, right, keys, suffix).value.rows;
    assert out == LeftJoin(left.rows, right.rows, KeyFn(keys), KeyFn(keys), both, alone);
    forall i | 0 <= i < |left.rows|
      ensures Extends(left.rows[i], out[i], left.columns, carried, names,
                      Lookup(KeyOf(left.rows[i], keys), right.rows, KeyFn(keys)))
    {
      var found := Lookup(KeyOf(left.rows[i], keys), right.rows, KeyFn(keys));
      AttachExtends(left.rows[i], found, left.columns, carried, suffix);
      assert out[i] == JoinRow(left.rows[i], right.rows, KeyFn(keys), KeyFn(keys), both, alone);
    }
  }

  /** Output row `o` is left row `l` extended with a right row of the same
      key, or with nulls when no right row has that key. */
  predicate MergedFrom(o: Row, l: Row, left: seq<string>, right: Table, keys: seq<string>, suffix: string) {
    var carried := Carried(right.columns, keys);
    var names := Renamed(carried, left, suffix);
    || (Extends(l, o, left, carried, names, None) && KeyOf(l, keys) !in KeySet(right.rows, KeyFn(keys)))
    || (exists j :: 0 <= j < |right.rows| && KeyOf(right.rows[j], keys) == KeyOf(l, keys)
                   && Extends(l, o, left, carried, names, Some(right.rows[j])))
  }

  /** Some row of `out` extends left row `l`. */
  predicate MergeYields(out: seq<Row>, l: Row, left: seq<string>, right: Table, keys: seq<string>, suffix: string) {
    exists j :: 0 <= j < |out| && MergedFrom(out[j], l, left, right, keys, suffix)
  }

  /** Row `o` extends some row of `left`. */
  predicate MergedFromSome(o: Row, left: Table, right: Table, keys: seq<string>, suffix: string) {
    exists i :: 0 <= i < |left.rows| && MergedFrom(o, left.rows[i], left.columns, right, keys, suffix)
  }

  lemma JoinedMerged(o: Row, l: Row, left: Table, right: Table, keys: seq<string>, suffix: string)
    requires Distinct(MergedColumns(left.columns, right.columns, keys, suffix))
    requires JoinedFrom(o, l, right.rows, KeyFn(keys), KeyFn(keys),
                        AttachFn(left.columns, Carried(right.columns, keys), suffix),
                        AttachNothingFn(left.columns, Carried(right.columns, keys), suffix))
    ensures MergedFrom(o, l, left.columns, right, keys, suffix)
  {
    var carried := Carried(right.columns, keys);
    MergedNamesFresh(left.columns, right.columns, keys, suffix);
    if o == AttachNothing(l, left.columns, carried, suffix) && KeyOf(l, keys) !in KeySet(right.rows, KeyFn(keys)) {
      AttachExtends(l, None, left.columns, carried, suffix);
    } else {
      var j :| 0 <= j < |right.rows| && KeyOf(right.rows[j], keys) == KeyOf(l, keys)
               && o == Attach(l, right.rows[j], left.columns, carried, suffix);
      AttachExtends(l, Some(right.rows[j]), left.columns, carried, suffix);
    }
  }

  /** The merge loses no left row: each has an output row extending it with
      a right row of its key, or with nulls when there is none. */
  lemma MergeComplete(left: Table, right: Table, keys: seq<string>, suffix: string)
    requires Merge(left, right, keys, suffix).Ok?
    ensures forall i :: 0 <= i < |left.rows| ==>
              MergeYields(Merge(left, right, keys, suffix).value.rows, left.rows[i], left.columns, right, keys, suffix)
  {
    var carried := Carried(right.columns, keys);
    var both := AttachFn(left.columns, carried, suffix);
    var alone := AttachNothingFn(left.columns, carried, suffix);
    var out := Merge(left, right, keys, suffix).value.rows;
    assert out == LeftJoin(left.rows, right.rows, KeyFn(keys), KeyFn(keys), both, alone);
    LeftJoinComplete(left.rows, right.rows, KeyFn(keys), KeyFn(keys), both, alone);
    forall i | 0 <= i < |left.rows| ensures MergeYields(out, left.rows[i], left.columns, right, keys, suffix) {
      assert Yields(out, left.rows[i], right.rows, KeyFn(keys), KeyFn(keys), both, alone);
      var j :| 0 <= j < |out| && JoinedFrom(out[j], left.rows[i], right.rows, KeyFn(keys), KeyFn(keys), both, alone);
      JoinedMerged(out[j], left.rows[i], left, right, keys, suffix);
    }
  }

  /** The merge invents no row: each output row extends some left row with
      a right row of its key, or with nulls when there is none. */
  lemma MergeSound(left: Table, right: Table, keys: seq<string>, suffix: string)
    requires Merge(left, right, keys, suffix).Ok?
    ensures forall j :: 0 <= j < |Merge(left, right, keys, suffix).value.rows| ==>
              MergedFromSome(Merge(left, right, keys, suffix).value.rows[j], left, right, keys, suffix)
  {
    var carried := Carried(right.columns, keys);
    var both := AttachFn(left.columns, carried, suffix);
    var alone := AttachNothingFn(left.columns, carried, suffix);
    var out := Merge(left, right, keys, suffix).value.rows;
    assert out == LeftJoin(left.rows, right.rows, KeyFn(keys), KeyFn(keys), both, alone);
    LeftJoinSound(left.rows, right.rows, KeyFn(keys), KeyFn(keys), both, alone);
    forall j | 0 <= j < |out| ensures MergedFromSome(out[j], left, right, keys, suffix) {
      var i :| 0 <= i < |left.rows| && JoinedFrom(out[j], left.rows[i], right.rows, KeyFn(keys), KeyFn(keys), both, alone);
      JoinedMerged(out[j], left.rows[i], left, right, keys, suffix);
    }
  }

  /** A merged row keeps every cell of its left row. */
  lemma MergedFromKeeps(o: Row, l: Row, left: seq<string>, right: Table, keys: seq<string>, suffix: string)
    requires MergedFrom(o, l, left, right, keys, suffix)
    ensures forall c :: c in left ==> Get(o, c) == Get(l, c)
  {
  }

  // ---------------------------------------------------------------------
  // Tag fill and column order
  // ---------------------------------------------------------------------

  /** `fillna("UNKNOWN_UTILITY")` on `utility_id`, for one row. */
  function FillUtility(row: Row): (r: Row)
    ensures Get(r, "utility_id") == if Get(row, "utility_id") == Null then Str(UnknownUtility) else Get(row, "utility_id")
    ensures forall c :: c != "utility_id" ==> Get(r, c) == Get(row, c)
    ensures "utility_id" in row ==> r.Keys == row.Keys
  {
    if Get(row, "utility_id") == Null then row["utility_id" := Str(UnknownUtility)] else row
  }

  function IndexOf(s: seq<string>, c: string): (k: nat)
    requires c in s
    ensures k < |s| && s[k] == c
    ensures forall j :: 0 <= j < k ==> s[j] != c
  {
    if s[0] == c then 0 else 1 + IndexOf(s[1..], c)
  }

  /** The place a column takes in the output: the fixed base and location
      columns by their fixed position, then every other column after them by
      its position in the joined table. */
  function Rank(cols: seq<string>, c: string): int {
    if c in FixedColumns then IndexOf(FixedColumns, c)
    else if c in cols then |FixedColumns| + IndexOf(cols, c)
    else |FixedColumns|
  }

  /** `r` lists its columns strictly by rank. */
  predicate RankOrdered(cols: seq<string>, r: seq<string>) {
    forall i, j :: 0 <= i < j < |r| ==> Rank(cols, r[i]) < Rank(cols, r[j])
  }

  function PresentIn(cols: seq<string>): string -> bool {
    c => c in cols
  }

  predicate IsExtra(c: string) {
    c !in FixedColumns
  }

  /** The output column order: the base columns present, the location
      columns present, then the remaining columns in their joined order.
      The result holds exactly the joined columns and, when those are
      distinct, lists them strictly by `Rank`, so none is dropped or
      repeated. */
  function OrderColumns(cols: seq<string>): (r: seq<string>)
    ensures forall c :: c in r <==> c in cols
    ensures Distinct(cols) ==> RankOrdered(cols, r)
    ensures Distinct(cols) ==> Distinct(r)
  {
    var fixed := Filter(FixedColumns, PresentIn(cols));
    var extra := Filter(cols, IsExtra);
    assert forall c :: c in cols ==> c in fixed + extra by {
      forall c | c in cols ensures c in fixed + extra {
        if c in FixedColumns {
          var i :| 0 <= i < |FixedColumns| && FixedColumns[i] == c;
          assert c in fixed;
        } else {
          var i :| 0 <= i < |cols| && cols[i] == c;
          assert c in extra;
        }
      }
    }
    assert forall c :: c in fixed + extra ==> c in cols by {
      forall c | c in fixed + extra ensures c in cols {
        var i :| 0 <= i < |fixed + extra| && (fixed + extra)[i] == c;
        if i < |fixed| { assert fixed[i] == c; } else { assert extra[i - |fixed|] == c; }
      }
    }
    assert Distinct(cols) ==> RankOrdered(cols, fixed + extra) by {
      if Distinct(cols) {
        OrderColumnsRanked(cols);
      }
    }
    fixed + extra
  }

  lemma FixedColumnsDistinct()
    ensures Distinct(FixedColumns)
  {
  }

  lemma OrderColumnsRanked(cols: seq<string>)
    requires Distinct(cols)
    ensures RankOrdered(cols, Filter(FixedColumns, PresentIn(cols)) + Filter(cols, IsExtra))
  {
    var inCols := PresentIn(cols);
    var notFixed := IsExtra;
    var rank := (c: string) => Rank(cols, c);
    FixedColumnsDistinct();
    forall i | 0 <= i < |FixedColumns| ensures Rank(cols, FixedColumns[i]) == i {
      var k := IndexOf(FixedColumns, FixedColumns[i]);
    }
    FilterSorted(FixedColumns, inCols, rank);
    forall i | 0 <= i < |cols| && notFixed(cols[i]) ensures Rank(cols, cols[i]) == |FixedColumns| + i {
      var k := IndexOf(cols, cols[i]);
    }
    FilterSorted(cols, notFixed, rank);
    var fixed := Filter(FixedColumns, inCols);
    var extra := Filter(cols, notFixed);
    var r := fixed + extra;
    forall i, j | 0 <= i < j < |r| ensures Rank(cols, r[i]) < Rank(cols, r[j]) {
      if j < |fixed| {
        assert r[i] == fixed[i] && r[j] == fixed[j];
      } else if i >= |fixed| {
        assert r[i] == extra[i - |fixed|] && r[j] == extra[j - |fixed|];
      } else {
        assert r[i] == fixed[i] && fixed[i] in FixedColumns;
        assert r[j] == extra[j - |fixed|] && extra[j - |fixed|] !in FixedColumns && extra[j - |fixed|] in cols;
      }
    }
  }

  // ---------------------------------------------------------------------
  // The joiner
  // ---------------------------------------------------------------------

  /** The rows after both merges, before the tag fill. */
  function Joined(sp: Table, mt: Table, iv: Table): (r: Result<Table, string>)
    ensures r.Ok? ==> "utility_id" in iv.columns
    ensures r.Ok? ==> forall c :: c in iv.columns ==> c in r.value.columns
    ensures r.Ok? ==> |r.value.rows| >= |iv.rows|
    ensures r.Ok? && WellFormed(iv) ==> WellFormed(r.value)
  {
    match Merge(iv, mt, MeterJoinKeys, MeterSuffix)
    case Err(e) => Err(e)
    case Ok(ivMt) => Merge(ivMt, sp, ServicePointJoinKeys, ServicePointSuffix)
  }

  /** The tag fill and the column order applied to the joined table. */
  function Finish(j: Table): (r: Table)
    ensures |r.rows| == |j.rows|
    ensures forall i :: 0 <= i < |r.rows| ==> Get(r.rows[i], "utility_id") != Null
    ensures forall c :: c in r.columns <==> c in j.columns
    ensures r.columns == OrderColumns(j.columns)
    ensures WellFormed(j) && "utility_id" in j.columns ==> WellFormed(r)
  {
    var rows := seq(|j.rows|, i requires 0 <= i < |j.rows| => FillUtility(j.rows[i]));
    var ordered := OrderColumns(j.columns);
    assert WellFormed(j) && "utility_id" in j.columns ==> WellFormed(Table(ordered, rows)) by {
      if WellFormed(j) && "utility_id" in j.columns {
        assert (set c | c in ordered) == (set c | c in j.columns);
        forall i | 0 <= i < |rows| ensures rows[i].Keys == set c | c in ordered {
          assert "utility_id" in j.rows[i];
        }
      }
    }
    Table(ordered, rows)
  }

  /** `build_customer_usage_interval`: the inputs are values and are not
      changed. Every interval row yields at least one usage row, none has a
      null `utility_id`, and the output keeps every interval column and has
      distinct columns in the fixed order. */
  function BuildCustomerUsageInterval(sp: Table, mt: Table, iv: Table): (r: Result<Table, string>)
    ensures r.Ok? <==> Joined(sp, mt, iv).Ok?
    ensures r.Ok? ==> |r.value.rows| >= |iv.rows|
    ensures r.Ok? ==> forall i :: 0 <= i < |r.value.rows| ==> Get(r.value.rows[i], "utility_id") != Null
    ensures r.Ok? ==> forall c :: c in iv.columns ==> c in r.value.columns
    ensures r.Ok? ==> r.value.columns == OrderColumns(Joined(sp, mt, iv).value.columns)
    ensures r.Ok? && WellFormed(iv) ==> WellFormed(r.value)
  {
    match Joined(sp, mt, iv)
    case Err(e) => Err(e)
    case Ok(j) => Ok(Finish(j))
  }

  /** The cell a joined row shows under a carried column `c` of `right`:
      the cell of the right row with the given key, or null when there is
      none. */
  function Looked(right: Table, keys: seq<string>, key: seq<Cell>, c: string): Cell {
    match Lookup(key, right.rows, KeyFn(keys))
    case Some(m) => Get(m, c)
    case None => Null
  }

  /** Usage row `o` of interval row `r`: every interval cell kept (the tag
      filled when null); every carried meter column shows the cell of the
      meter keyed by the interval's `(utility_id, meter_id)`, under its own
      name or, when the interval table has that name, under the `_meter`
      name; every carried service point column shows the cell of the service
      point keyed by the interval's own `(utility_id, service_point_id)`,
      under its own name or, when the first merge has that name, under the
      `_sp` name; null where there is no such meter or service point. */
  predicate UsageRowOf(r: Row, o: Row, iv: Table, mt: Table, sp: Table) {
    var ivMt := MergedColumns(iv.columns, mt.columns, MeterJoinKeys, MeterSuffix);
    && (forall c :: c in iv.columns && c != "utility_id" ==> Get(o, c) == Get(r, c))
    && Get(o, "utility_id") == (if Get(r, "utility_id") == Null then Str(UnknownUtility) else Get(r, "utility_id"))
    && (forall c :: c in mt.columns && c !in MeterJoinKeys && c !in iv.columns ==>
          Get(o, c) == Looked(mt, MeterJoinKeys, KeyOf(r, MeterJoinKeys), c))
    && (forall c :: c in mt.columns && c !in MeterJoinKeys && c in iv.columns ==>
          Get(o, c + MeterSuffix) == Looked(mt, MeterJoinKeys, KeyOf(r, MeterJoinKeys), c))
    && (forall c :: c in sp.columns && c !in ServicePointJoinKeys && c !in ivMt ==>
          Get(o, c) == Looked(sp, ServicePointJoinKeys, KeyOf(r, ServicePointJoinKeys), c))
    && (forall c :: c in sp.columns && c !in ServicePointJoinKeys && c in ivMt ==>
          Get(o, c + ServicePointSuffix) == Looked(sp, ServicePointJoinKeys, KeyOf(r, ServicePointJoinKeys), c))
  }

  /** A merged row shows, under the output name of every carried column,
      the cell of the right row with its key, or null: the column's own name
      when it does not clash, the suffixed name when it does. */
  lemma CarriedCells(l: Row, o: Row, left: seq<string>, right: Table, keys: seq<string>, suffix: string)
    requires Extends(l, o, left, Carried(right.columns, keys), Renamed(Carried(right.columns, keys), left, suffix),
                     Lookup(KeyOf(l, keys), right.rows, KeyFn(keys)))
    ensures forall c :: c in right.columns && c !in keys && c !in left ==> Get(o, c) == Looked(right, keys, KeyOf(l, keys), c)
    ensures forall c :: c in right.columns && c !in keys && c in left ==> Get(o, c + suffix) == Looked(right, keys, KeyOf(l, keys), c)
  {
    var carried := Carried(right.columns, keys);
    var names := Renamed(carried, left, suffix);
    forall c | c in right.columns && c !in keys
      ensures Get(o, if c in left then c + suffix else c) == Looked(right, keys, KeyOf(l, keys), c)
    {
      var k :| 0 <= k < |carried| && carried[k] == c;
      assert names[k] == if c in left then c + suffix else c;
    }
  }

  /** No suffixed name is the tag column, so the tag fill leaves suffixed
      cells alone. */
  lemma SuffixedNotTag(c: string, suffix: string)
    requires suffix == MeterSuffix || suffix == ServicePointSuffix
    ensures c + suffix != "utility_id"
  {
    var s := c + suffix;
    assert s[|s| - 1] == suffix[|suffix| - 1];
  }

  lemma UsageRowOfMerges(r: Row, m: Row, j: Row, iv: Table, mt: Table, sp: Table, ivMtColumns: seq<string>)
    requires ivMtColumns == MergedColumns(iv.columns, mt.columns, MeterJoinKeys, MeterSuffix)
    requires "utility_id" in iv.columns && "service_point_id" in iv.columns
    requires Extends(r, m, iv.columns, Carried(mt.columns, MeterJoinKeys),
                     Renamed(Carried(mt.columns, MeterJoinKeys), iv.columns, MeterSuffix),
                     Lookup(KeyOf(r, MeterJoinKeys), mt.rows, KeyFn(MeterJoinKeys)))
    requires Extends(m, j, ivMtColumns, Carried(sp.columns, ServicePointJoinKeys),
                     Renamed(Carried(sp.columns, ServicePointJoinKeys), ivMtColumns, ServicePointSuffix),
                     Lookup(KeyOf(m, ServicePointJoinKeys), sp.rows, KeyFn(ServicePointJoinKeys)))
    ensures UsageRowOf(r, FillUtility(j), iv, mt, sp)
  {
    CarriedCells(r, m, iv.columns, mt, MeterJoinKeys, MeterSuffix);
    CarriedCells(m, j, ivMtColumns, sp, ServicePointJoinKeys, ServicePointSuffix);
    assert KeyOf(m, ServicePointJoinKeys) == KeyOf(r, ServicePointJoinKeys) by {
      assert Get(m, "utility_id") == Get(r, "utility_id");
      assert Get(m, "service_point_id") == Get(r, "service_point_id");
    }
    forall c | c in mt.columns && c !in MeterJoinKeys && c in iv.columns
      ensures Get(FillUtility(j), c + MeterSuffix) == Looked(mt, MeterJoinKeys, KeyOf(r, MeterJoinKeys), c)
    {
      assert c + MeterSuffix in ivMtColumns;
      SuffixedNotTag(c, MeterSuffix);
    }
    forall c | c in sp.columns && c !in ServicePointJoinKeys && c in ivMtColumns
      ensures Get(FillUtility(j), c + ServicePointSuffix) == Looked(sp, ServicePointJoinKeys, KeyOf(r, ServicePointJoinKeys), c)
    {
      SuffixedNotTag(c, ServicePointSuffix);
    }
  }

  /** A built table is the tag fill of the two merges, row by row. */
  lemma BuildIsFinishOfMerges(sp: Table, mt: Table, iv: Table)
    requires BuildCustomerUsageInterval(sp, mt, iv).Ok?
    ensures Merge(iv, mt, MeterJoinKeys, MeterSuffix).Ok?
    ensures var ivMt := Merge(iv, mt, MeterJoinKeys, MeterSuffix).value;
            && Merge(ivMt, sp, ServicePointJoinKeys, ServicePointSuffix).Ok?
            && var j := Merge(ivMt, sp, ServicePointJoinKeys, ServicePointSuffix).value;
               var out := BuildCustomerUsageInterval(sp, mt, iv).value.rows;
               |out| == |j.rows| && forall i :: 0 <= i < |out| ==> out[i] == FillUtility(j.rows[i])
  {
  }

  /** When meters are unique on `(utility_id, meter_id)` and service points
      on `(utility_id, service_point_id)`, there is exactly one usage row per
      interval row, in interval order, and it is that interval's row as
      `UsageRowOf` describes: the service point join uses the interval's own
      `service_point_id`, never the meter's. */
  lemma UsageRowsOneToOne(sp: Table, mt: Table, iv: Table)
    requires BuildCustomerUsageInterval(sp, mt, iv).Ok?
    requires UniqueKeys(mt.rows, KeyFn(MeterJoinKeys))
    requires UniqueKeys(sp.rows, KeyFn(ServicePointJoinKeys))
    requires "service_point_id" in iv.columns
    ensures |BuildCustomerUsageInterval(sp, mt, iv).value.rows| == |iv.rows|
    ensures forall i :: 0 <= i < |iv.rows| ==>
              UsageRowOf(iv.rows[i], BuildCustomerUsageInterval(sp, mt, iv).value.rows[i], iv, mt, sp)
  {
    var ivMt := Merge(iv, mt, MeterJoinKeys, MeterSuffix).value;
    var j := Merge(ivMt, sp, ServicePointJoinKeys, ServicePointSuffix).value;
    var out := BuildCustomerUsageInterval(sp, mt, iv).value.rows;
    BuildIsFinishOfMerges(sp, mt, iv);
    MergeOfUnique(iv, mt, MeterJoinKeys, MeterSuffix);
    MergeOfUnique(ivMt, sp, ServicePointJoinKeys, ServicePointSuffix);
    forall i | 0 <= i < |iv.rows| ensures UsageRowOf(iv.rows[i], out[i], iv, mt, sp) {
      assert out[i] == FillUtility(j.rows[i]);
      UsageRowOfMerges(iv.rows[i], ivMt.rows[i], j.rows[i], iv, mt, sp, ivMt.columns);
    }
  }

  /** Usage row `o` keeps every cell of interval row `r`, the tag filled
      when null. */
  predicate KeepsInterval(r: Row, o: Row, cols: seq<string>) {
    && (forall c :: c in cols && c != "utility_id" ==> Get(o, c) == Get(r, c))
    && Get(o, "utility_id") == (if Get(r, "utility_id") == Null then Str(UnknownUtility) else Get(r, "utility_id"))
  }

  /** A usage row made by both merges and the tag fill keeps its interval
      row's cells. */
  lemma KeepsThroughMerges(r: Row, m: Row, j: Row, iv: Table, mt: Table, sp: Table, ivMt: Table)
    requires ivMt.columns == MergedColumns(iv.columns, mt.columns, MeterJoinKeys, MeterSuffix)
    requires MergedFrom(m, r, iv.columns, mt, MeterJoinKeys, MeterSuffix)
    requires MergedFrom(j, m, ivMt.columns, sp, ServicePointJoinKeys, ServicePointSuffix)
    requires "utility_id" in iv.columns
    ensures KeepsInterval(r, FillUtility(j), iv.columns)
  {
    MergedFromKeeps(m, r, iv.columns, mt, MeterJoinKeys, MeterSuffix);
    MergedFromKeeps(j, m, ivMt.columns, sp, ServicePointJoinKeys, ServicePointSuffix);
    assert forall c :: c in iv.columns ==> c in ivMt.columns;
  }

  /** No interval row is lost: whatever the keys, every interval row has a
      usage row that keeps its cells. */
  lemma UsageRowsCoverIntervals(sp: Table, mt: Table, iv: Table)
    requires BuildCustomerUsageInterval(sp, mt, iv).Ok?
    ensures forall i :: 0 <= i < |iv.rows| ==>
              exists j :: 0 <= j < |BuildCustomerUsageInterval(sp, mt, iv).value.rows|
                          && KeepsInterval(iv.rows[i], BuildCustomerUsageInterval(sp, mt, iv).value.rows[j], iv.columns)
  {
    var ivMt := Merge(iv, mt, MeterJoinKeys, MeterSuffix).value;
    var jt := Merge(ivMt, sp, ServicePointJoinKeys, ServicePointSuffix).value;
    var out := BuildCustomerUsageInterval(sp, mt, iv).value.rows;
    BuildIsFinishOfMerges(sp, mt, iv);
    MergeComplete(iv, mt, MeterJoinKeys, MeterSuffix);
    MergeComplete(ivMt, sp, ServicePointJoinKeys, ServicePointSuffix);
    forall i | 0 <= i < |iv.rows| ensures exists j :: 0 <= j < |out| && KeepsInterval(iv.rows[i], out[j], iv.columns) {
      assert MergeYields(ivMt.rows, iv.rows[i], iv.columns, mt, MeterJoinKeys, MeterSuffix);
      var a :| 0 <= a < |ivMt.rows| && MergedFrom(ivMt.rows[a], iv.rows[i], iv.columns, mt, MeterJoinKeys, MeterSuffix);
      assert MergeYields(jt.rows, ivMt.rows[a], ivMt.columns, sp, ServicePointJoinKeys, ServicePointSuffix);
      var b :| 0 <= b < |jt.rows| && MergedFrom(jt.rows[b], ivMt.rows[a], ivMt.columns, sp, ServicePointJoinKeys, ServicePointSuffix);
      KeepsThroughMerges(iv.rows[i], ivMt.rows[a], jt.rows[b], iv, mt, sp, ivMt);
      assert out[b] == FillUtility(jt.rows[b]);
    }
  }

  /** No usage row is invented: every usage row keeps the cells of some
      interval row. */
  lemma UsageRowsFromIntervals(sp: Table, mt: Table, iv: Table)
    requires BuildCustomerUsageInterval(sp, mt, iv).Ok?
    ensures forall j :: 0 <= j < |BuildCustomerUsageInterval(sp, mt, iv).value.rows| ==>
              exists i :: 0 <= i < |iv.rows|
                          && KeepsInterval(iv.rows[i], BuildCustomerUsageInterval(sp, mt, iv).value.rows[j], iv.columns)
  {
    var ivMt := Merge(iv, mt, MeterJoinKeys, MeterSuffix).value;
    var jt := Merge(ivMt, sp, ServicePointJoinKeys, ServicePointSuffix).value;
    var out := BuildCustomerUsageInterval(sp, mt, iv).value.rows;
    BuildIsFinishOfMerges(sp, mt, iv);
    MergeSound(iv, mt, MeterJoinKeys, MeterSuffix);
    MergeSound(ivMt, sp, ServicePointJoinKeys, ServicePointSuffix);
    forall b | 0 <= b < |out| ensures exists i :: 0 <= i < |iv.rows| && KeepsInterval(iv.rows[i], out[b], iv.columns) {
      assert MergedFromSome(jt.rows[b], ivMt, sp, ServicePointJoinKeys, ServicePointSuffix);
      var a :| 0 <= a < |ivMt.rows| && MergedFrom(jt.rows[b], ivMt.rows[a], ivMt.columns, sp, ServicePointJoinKeys, ServicePointSuffix);
      assert MergedFromSome(ivMt.rows[a], iv, mt, MeterJoinKeys, MeterSuffix);
      var i :| 0 <= i < |iv.rows| && MergedFrom(ivMt.rows[a], iv.rows[i], iv.columns, mt, MeterJoinKeys, MeterSuffix);
      KeepsThroughMerges(iv.rows[i], ivMt.rows[a], jt.rows[b], iv, mt, sp, ivMt);
      assert out[b] == FillUtility(jt.rows[b]);
    }
  }

  // ---------------------------------------------------------------------
  // The standardized tables as frames
  // ---------------------------------------------------------------------

  const ServicePointColumns := ["utility_id", "service_point_id", "service_point_number", "house_num", "street",
                                "house_supp", "city", "zip", "state", "installed_at", "removed_at",
                                "created_at", "updated_at"]
  const MeterColumns := ["utility_id", "meter_id", "serial_number", "meter_type", "meter_category",
                         "service_point_id", "installed_at", "removed_at", "created_at", "updated_at"]
  const IntervalColumns := ["utility_id", "service_point_id", "meter_id", "interval_start_ts", "duration_seconds",
                            "value", "quality", "channel", "last_update_time", "exported_at", "interval_end_ts"]

  function ServicePointRow(s: ServicePoint): Row {
    map["utility_id" := s.utilityId, "service_point_id" := s.servicePointId,
        "service_point_number" := s.servicePointNumber, "house_num" := s.houseNum, "street" := s.street,
        "house_supp" := s.houseSupp, "city" := s.city, "zip" := s.zip, "state" := s.state,
        "installed_at" := s.installedAt, "removed_at" := s.removedAt, "created_at" := s.createdAt,
        "updated_at" := s.updatedAt]
  }

  function MeterRow(m: Meter): Row {
    map["utility_id" := m.utilityId, "meter_id" := m.meterId, "serial_number" := m.serialNumber,
        "meter_type" := m.meterType, "meter_category" := m.meterCategory,
        "service_point_id" := m.servicePointId, "installed_at" := m.installedAt,
        "removed_at" := m.removedAt, "created_at" := m.createdAt, "updated_at" := m.updatedAt]
  }

  function IntervalRow(iv: Interval): Row {
    map["utility_id" := iv.utilityId, "service_point_id" := iv.servicePointId, "meter_id" := iv.meterId,
        "interval_start_ts" := iv.intervalStartTs, "duration_seconds" := iv.durationSeconds,
        "value" := iv.value, "quality" := iv.quality, "channel" := iv.channel,
        "last_update_time" := iv.lastUpdateTime, "exported_at" := iv.exportedAt,
        "interval_end_ts" := iv.intervalEndTs]
  }

  function ServicePointTable(s: seq<ServicePoint>): Table {
    Table(ServicePointColumns, seq(|s|, i requires 0 <= i < |s| => ServicePointRow(s[i])))
  }

  function MeterTable(s: seq<Meter>): Table {
    Table(MeterColumns, seq(|s|, i requires 0 <= i < |s| => MeterRow(s[i])))
  }

  function IntervalTable(s: seq<Interval>): Table {
    Table(IntervalColumns, seq(|s|, i requires 0 <= i < |s| => IntervalRow(s[i])))
  }

  lemma MeterKeyOfRow(m: Meter)
    ensures KeyFn(MeterJoinKeys)(MeterRow(m)) == MeterKey(m)
  {
  }

  lemma ServicePointKeyOfRow(s: ServicePoint)
    ensures KeyFn(ServicePointJoinKeys)(ServicePointRow(s)) == ServicePointKey(s)
  {
  }

  /** Standardized meters that are unique on `(utility_id, meter_id)` give a
      meter frame with unique join keys, so the usage rows are one per
      interval; likewise for service points. */
  lemma StandardizedFramesUnique(s: seq<ServicePoint>, m: seq<Meter>)
    requires UniqueKeys(s, ServicePointKey)
    requires UniqueKeys(m, MeterKey)
    ensures UniqueKeys(ServicePointTable(s).rows, KeyFn(ServicePointJoinKeys))
    ensures UniqueKeys(MeterTable(m).rows, KeyFn(MeterJoinKeys))
  {
    forall i, j | 0 <= i < j < |s|
      ensures KeyFn(ServicePointJoinKeys)(ServicePointTable(s).rows[i]) != KeyFn(ServicePointJoinKeys)(ServicePointTable(s).rows[j])
    {
      ServicePointKeyOfRow(s[i]);
      ServicePointKeyOfRow(s[j]);
    }
    forall i, j | 0 <= i < j < |m|
      ensures KeyFn(MeterJoinKeys)(MeterTable(m).rows[i]) != KeyFn(MeterJoinKeys)(MeterTable(m).rows[j])
    {
      MeterKeyOfRow(m[i]);
      MeterKeyOfRow(m[j]);
    }
  }

  /** Joining meters to intervals when both have a `service_point_id`
      column, the interval's in second place as in the standardized frames
      (`StandardizedColumnsClash`), renames the meter's to
      `service_point_id_meter` and keeps the interval's under its own name. */
  lemma MeterServicePointRenamed(ivColumns: seq<string>, mtColumns: seq<string>)
    requires |ivColumns| > 1 && ivColumns[1] == "service_point_id"
    requires "service_point_id" in mtColumns
    ensures "service_point_id_meter" in MergedColumns(ivColumns, mtColumns, MeterJoinKeys, MeterSuffix)
    ensures MergedColumns(ivColumns, mtColumns, MeterJoinKeys, MeterSuffix)[1] == "service_point_id"
  {
    SuffixedWhenClashing(ivColumns, mtColumns, MeterJoinKeys, MeterSuffix, "service_point_id");
    MeterSuffixed();
    LeftColumnsFirst(ivColumns, mtColumns, MeterJoinKeys, MeterSuffix, 1);
  }

  lemma MeterSuffixed()
    ensures "service_point_id" + MeterSuffix == "service_point_id_meter"
  {
  }

  lemma SuffixedWhenClashing(left: seq<string>, right: seq<string>, keys: seq<string>, suffix: string, c: string)
    requires c in left && c in right && c !in keys
    ensures c + suffix in MergedColumns(left, right, keys, suffix)
  {
  }

  lemma LeftColumnsFirst(left: seq<string>, right: seq<string>, keys: seq<string>, suffix: string, k: nat)
    requires k < |left|
    ensures MergedColumns(left, right, keys, suffix)[k] == left[k]
  {
    var cols := MergedColumns(left, right, keys, suffix);
    assert cols[k] == cols[..|left|][k];
  }

  /** The standardized interval and meter frames both have a
      `service_point_id` column, the interval's in second place. */
  lemma StandardizedColumnsClash()
    ensures |IntervalColumns| > 1 && IntervalColumns[1] == "service_point_id"
    ensures "service_point_id" in MeterColumns
  {
  }

  lemma ServicePointColumnsDistinct()
    ensures Distinct(ServicePointColumns)
  {
  }

  lemma MeterColumnsDistinct()
    ensures Distinct(MeterColumns)
  {
  }

  lemma IntervalColumnsDistinct()
    ensures Distinct(IntervalColumns)
  {
  }

  /** The standardized service point frame is well formed. */
  lemma ServicePointTableWellFormed(s: seq<ServicePoint>)
    ensures WellFormed(ServicePointTable(s))
  {
    ServicePointColumnsDistinct();
    var cs := set c | c in ServicePointColumns;
    forall i | 0 <= i < |s| ensures ServicePointRow(s[i]).Keys == cs {
    }
  }

  /** The standardized meter frame is well formed. */
  lemma MeterTableWellFormed(m: seq<Meter>)
    ensures WellFormed(MeterTable(m))
  {
    MeterColumnsDistinct();
    var cs := set c | c in MeterColumns;
    forall i | 0 <= i < |m| ensures MeterRow(m[i]).Keys == cs {
    }
  }

  /** The standardized interval frame is well formed. */
  lemma IntervalTableWellFormed(v: seq<Interval>)
    ensures WellFormed(IntervalTable(v))
  {
    IntervalColumnsDistinct();
    var cs := set c | c in IntervalColumns;
    forall i | 0 <= i < |v| ensures IntervalRow(v[i]).Keys == cs {
    }
  }
}
