/** The window aggregator: usage rows are grouped per utility, service point
    and day, and each group is summarised by its total, its count, and its
    peak and pit readings with the time each first occurred. */
module Experience {
  import opened Wrappers
  import opened Strings
  import opened Frames
  import opened Relational

  const UnknownUtility := "UNKNOWN_UTILITY"
  const UnknownServicePoint := "UNKNOWN_SERVICE_POINT"
  const Day := 86400

  /** The columns of the summary, in order; an empty summary has exactly
      these and no rows. */
  const SummaryColumns := ["utility_id", "service_point_id", "bucket_start", "bucket_end", "total_usage",
                           "interval_count", "peak_usage_value", "peak_usage_ts", "pit_usage_value", "pit_usage_ts"]

  /** A usage row that survived the timestamp filter, its keys filled. */
  datatype Kept = Kept(utility: Cell, servicePoint: Cell, ts: int, value: Option<int>)

  /** The grouping key: utility, service point, and the day bucket. */
  datatype GroupKey = GroupKey(utility: Cell, servicePoint: Cell, bucketStart: int, bucketEnd: int)

  datatype Total = Total(key: GroupKey, total: int, count: nat)

  /** One row of the peak or pit table: the group, the value and its start time. */
  datatype Extreme = Extreme(key: GroupKey, value: int, ts: int)

  /** A totals row after the peak merge. */
  datatype WithPeak = WithPeak(totals: Total, peak: Option<Extreme>)

  /** One summary row; peak and pit columns are null when the merges find
      no row for the group. */
  datatype Summary = Summary(
    utilityId: Cell, servicePointId: Cell, bucketStart: int, bucketEnd: int,
    totalUsage: int, intervalCount: nat,
    peakUsageValue: Option<int>, peakUsageTs: Option<int>,
    pitUsageValue: Option<int>, pitUsageTs: Option<int>)

  // ---------------------------------------------------------------------
  // Preparing the rows
  // ---------------------------------------------------------------------

  /** `fillna(placeholder)` for one cell. */
  function Fill(c: Cell, placeholder: string): (r: Cell)
    ensures r != Null
    ensures c != Null ==> r == c
  {
    if c == Null then Str(placeholder) else c
  }

  /** `pd.to_datetime(x.astype(str), errors="coerce", utc=True)`: a
      timestamp parses back to itself, a null never parses, text and numbers
      go through the text parser. */
  function Reparse(c: Cell, p: Parsers): (r: Option<int>)
    ensures c.Null? ==> r.None?
    ensures c.Stamp? ==> r == Some(c.secs)
  {
    match c
    case Null => None
    case Stamp(t) => Some(t)
    case Str(s) => p.datetime(s)
    case Num(n) => p.datetime(DecimalString(n))
  }

  /** A numeric cell's value; anything else is missing. */
  function ValueOf(c: Cell): Option<int> {
    if c.Num? then Some(c.n) else None
  }

  function Prepare(row: Row, ts: int): Kept {
    Kept(Fill(Get(row, "utility_id"), UnknownUtility), Fill(Get(row, "service_point_id"), UnknownServicePoint),
         ts, ValueOf(Get(row, "value")))
  }

  /** The row's start time, when its `interval_start_ts` parses. */
  function StartOf(row: Row, p: Parsers): Option<int> {
    Reparse(Get(row, "interval_start_ts"), p)
  }

  /** The rows whose start timestamp parses, in order, keys filled. A row is
      dropped only for its timestamp, never for a null key. */
  function KeptRows(rows: seq<Row>, p: Parsers): (r: seq<Kept>)
    ensures |r| <= |rows|
    ensures forall i :: 0 <= i < |r| ==> r[i].utility != Null && r[i].servicePoint != Null
    ensures r == [] <==> forall i :: 0 <= i < |rows| ==> StartOf(rows[i], p).None?
  {
    if rows == [] then []
    else
      var init := rows[..|rows| - 1];
      var last := rows[|rows| - 1];
      var rest := KeptRows(init, p);
      assert forall i :: 0 <= i < |init| ==> rows[i] == init[i];
      match StartOf(last, p)
      case Some(ts) => rest + [Prepare(last, ts)]
      case None => rest
  }

  predicate Parses(p: Parsers, row: Row) {
    StartOf(row, p).Some?
  }

  function ParsesFn(p: Parsers): Row -> bool {
    row => Parses(p, row)
  }

  /** Exactly one kept row per row whose start parses, in input order: the
      j-th kept row is the j-th such row, prepared. */
  lemma {:induction false} KeptRowsInOrder(rows: seq<Row>, p: Parsers)
    ensures |KeptRows(rows, p)| == |Positions(rows, ParsesFn(p), |rows|)|
    ensures forall j :: 0 <= j < |KeptRows(rows, p)| ==>
              var i := Positions(rows, ParsesFn(p), |rows|)[j];
              StartOf(rows[i], p).Some? && KeptRows(rows, p)[j] == Prepare(rows[i], StartOf(rows[i], p).value)
  {
    if rows != [] {
      var init := rows[..|rows| - 1];
      var last := rows[|rows| - 1];
      KeptRowsInOrder(init, p);
      assert rows == init + [last];
      PositionsOfPrefix(init, last, ParsesFn(p), |init|);
      var before := KeptRows(init, p);
      var ks := KeptRows(rows, p);
      var ps := Positions(rows, ParsesFn(p), |rows|);
      assert ks == before + (if StartOf(last, p).Some? then [Prepare(last, StartOf(last, p).value)] else []);
      forall j | 0 <= j < |ks|
        ensures StartOf(rows[ps[j]], p).Some? && ks[j] == Prepare(rows[ps[j]], StartOf(rows[ps[j]], p).value)
      {
        assert ParsesFn(p)(rows[ps[j]]);
        if j < |before| {
          assert rows[ps[j]] == init[ps[j]];
        }
      }
    } else {
      assert KeptRows(rows, p) == [];
    }
  }

  /** Every row whose start time parses is kept. */
  lemma KeptRowsComplete(rows: seq<Row>, p: Parsers)
    ensures forall i :: 0 <= i < |rows| && StartOf(rows[i], p).Some? ==>
              Prepare(rows[i], StartOf(rows[i], p).value) in KeptRows(rows, p)
  {
    var ks := KeptRows(rows, p);
    var ps := Positions(rows, ParsesFn(p), |rows|);
    KeptRowsInOrder(rows, p);
    PositionsComplete(rows, ParsesFn(p), |rows|);
    forall i | 0 <= i < |rows| && StartOf(rows[i], p).Some?
      ensures Prepare(rows[i], StartOf(rows[i], p).value) in ks
    {
      assert ParsesFn(p)(rows[i]);
      var j :| 0 <= j < |ps| && ps[j] == i;
      assert ks[j] == Prepare(rows[i], StartOf(rows[i], p).value);
    }
  }

  /** Every kept row comes from a row whose start time parses to its own. */
  lemma KeptRowsSound(rows: seq<Row>, p: Parsers)
    ensures forall j :: 0 <= j < |KeptRows(rows, p)| ==>
              exists i :: 0 <= i < |rows| && StartOf(rows[i], p) == Some(KeptRows(rows, p)[j].ts)
                          && KeptRows(rows, p)[j] == Prepare(rows[i], KeptRows(rows, p)[j].ts)
  {
    var ks := KeptRows(rows, p);
    var ps := Positions(rows, ParsesFn(p), |rows|);
    KeptRowsInOrder(rows, p);
    forall j | 0 <= j < |ks|
      ensures exists i :: 0 <= i < |rows| && StartOf(rows[i], p) == Some(ks[j].ts) && ks[j] == Prepare(rows[i], ks[j].ts)
    {
      var i := ps[j];
      assert StartOf(rows[i], p) == Some(ks[j].ts);
    }
  }

  // ---------------------------------------------------------------------
  // Buckets and groups
  // ---------------------------------------------------------------------

  /** Midnight of the day holding `t`. */
  function BucketStart(t: int): (s: int)
    ensures s <= t < s + Day
    ensures s % Day == 0
  {
    t - t % Day
  }

  function KeyOfKept(k: Kept): (g: GroupKey)
    ensures g.bucketStart <= k.ts <= g.bucketEnd < g.bucketStart + Day
  {
    GroupKey(k.utility, k.servicePoint, BucketStart(k.ts), BucketStart(k.ts) + Day - 1)
  }

  function Self(g: GroupKey): GroupKey {
    g
  }

  /** The distinct group keys, in order of first appearance. */
  function GroupKeys(ks: seq<Kept>): (gs: seq<GroupKey>)
    ensures forall i, j :: 0 <= i < j < |gs| ==> gs[i] != gs[j]
    ensures forall k :: k in ks ==> KeyOfKept(k) in gs
    ensures forall i :: 0 <= i < |gs| ==> exists k :: k in ks && KeyOfKept(k) == gs[i]
  {
    var keys := seq(|ks|, i requires 0 <= i < |ks| => KeyOfKept(ks[i]));
    var gs := Dedup(keys, Self);
    assert KeySet(gs, Self) == KeySet(keys, Self);
    forall k | k in ks ensures KeyOfKept(k) in gs {
      var i :| 0 <= i < |ks| && ks[i] == k;
      assert Self(keys[i]) in KeySet(keys, Self);
      var j :| 0 <= j < |gs| && Self(gs[j]) == keys[i];
    }
    forall i | 0 <= i < |gs| ensures exists k :: k in ks && KeyOfKept(k) == gs[i] {
      assert Self(gs[i]) in KeySet(keys, Self);
      var j :| 0 <= j < |keys| && Self(keys[j]) == gs[i];
      assert ks[j] in ks && KeyOfKept(ks[j]) == gs[i];
    }
    gs
  }

  function InGroup(g: GroupKey): Kept -> bool {
    k => KeyOfKept(k) == g
  }

  /** The rows of group `g`, in order. */
  function Members(ks: seq<Kept>, g: GroupKey): (ms: seq<Kept>)
    ensures forall i :: 0 <= i < |ms| ==> ms[i] in ks && KeyOfKept(ms[i]) == g
    ensures forall k :: k in ks && KeyOfKept(k) == g ==> k in ms
  {
    var ms := Filter(ks, InGroup(g));
    forall k | k in ks && KeyOfKept(k) == g ensures k in ms {
      var i :| 0 <= i < |ks| && ks[i] == k;
    }
    ms
  }

  /** The members of a group are exactly the rows at the ascending positions
      whose key is that group's, one for one and in order. */
  lemma MembersInOrder(ks: seq<Kept>, g: GroupKey)
    ensures Members(ks, g) == Select(ks, Positions(ks, InGroup(g), |ks|))
  {
    FilterInOrder(ks, InGroup(g));
  }

  predicate IsValued(k: Kept) {
    k.value.Some?
  }

  /** The values present among `ms`, in order. */
  function Values(ms: seq<Kept>): (vs: seq<int>)
    ensures |vs| <= |ms|
    ensures vs == [] <==> forall i :: 0 <= i < |ms| ==> ms[i].value.None?
    ensures forall i :: 0 <= i < |ms| && ms[i].value.Some? ==> ms[i].value.value in vs
  {
    if ms == [] then []
    else
      var init := Values(ms[..|ms| - 1]);
      assert forall i :: 0 <= i < |ms| - 1 ==> ms[i] == ms[..|ms| - 1][i];
      init + (if ms[|ms| - 1].value.Some? then [ms[|ms| - 1].value.value] else [])
  }

  /** The values are those of the rows at the ascending positions holding
      one, one for one and in order. */
  lemma {:induction false} ValuesInOrder(ms: seq<Kept>)
    ensures |Values(ms)| == |Positions(ms, IsValued, |ms|)|
    ensures forall j :: 0 <= j < |Values(ms)| ==>
              Values(ms)[j] == ms[Positions(ms, IsValued, |ms|)[j]].value.value
  {
    if ms != [] {
      var prefix := ms[..|ms| - 1];
      var last := ms[|ms| - 1];
      ValuesInOrder(prefix);
      assert ms == prefix + [last];
      PositionsOfPrefix(prefix, last, IsValued, |prefix|);
      var init := Values(prefix);
      var vs := Values(ms);
      var ps := Positions(ms, IsValued, |ms|);
      assert vs == init + (if last.value.Some? then [last.value.value] else []);
      forall j | 0 <= j < |vs| ensures vs[j] == ms[ps[j]].value.value {
        if j < |init| {
          assert ms[ps[j]] == prefix[ps[j]];
        }
      }
    }
  }

  function Sum(vs: seq<int>): int {
    if vs == [] then 0 else Sum(vs[..|vs| - 1]) + vs[|vs| - 1]
  }

  predicate HasValue(ms: seq<Kept>) {
    exists i :: 0 <= i < |ms| && ms[i].value.Some?
  }

  /** `idxmax`: the position of the first row holding the largest value. */
  function PeakIndex(ms: seq<Kept>): (r: Option<nat>)
    ensures r.None? <==> !HasValue(ms)
    ensures r.Some? ==> r.value < |ms| && ms[r.value].value.Some?
    ensures r.Some? ==> forall j :: 0 <= j < |ms| && ms[j].value.Some? ==> ms[j].value.value <= ms[r.value].value.value
    ensures r.Some? ==> forall j :: 0 <= j < r.value && ms[j].value.Some? ==> ms[j].value.value < ms[r.value].value.value
  {
    if ms == [] then None
    else
      var init := ms[..|ms| - 1];
      var last := ms[|ms| - 1];
      var best := PeakIndex(init);
      assert forall j :: 0 <= j < |init| ==> init[j] == ms[j];
      if last.value.Some? && (best.None? || ms[best.value].value.value < last.value.value) then Some(|ms| - 1)
      else best
  }

  /** `idxmin`: the position of the first row holding the smallest value. */
  function PitIndex(ms: seq<Kept>): (r: Option<nat>)
    ensures r.None? <==> !HasValue(ms)
    ensures r.Some? ==> r.value < |ms| && ms[r.value].value.Some?
    ensures r.Some? ==> forall j :: 0 <= j < |ms| && ms[j].value.Some? ==> ms[r.value].value.value <= ms[j].value.value
    ensures r.Some? ==> forall j :: 0 <= j < r.value && ms[j].value.Some? ==> ms[r.value].value.value < ms[j].value.value
  {
    if ms == [] then None
    else
      var init := ms[..|ms| - 1];
      var last := ms[|ms| - 1];
      var best := PitIndex(init);
      assert forall j :: 0 <= j < |init| ==> init[j] == ms[j];
      if last.value.Some? && (best.None? || last.value.value < ms[best.value].value.value) then Some(|ms| - 1)
      else best
  }

  // ---------------------------------------------------------------------
  // The three tables and their merges
  // ---------------------------------------------------------------------

  function TotalOf(ks: seq<Kept>, g: GroupKey): Total {
    var vs := Values(Members(ks, g));
    Total(g, Sum(vs), |vs|)
  }

  function PeakOf(ks: seq<Kept>, g: GroupKey): Extreme
    requires HasValue(Members(ks, g))
  {
    var ms := Members(ks, g);
    var j := PeakIndex(ms).value;
    Extreme(g, ms[j].value.value, ms[j].ts)
  }

  function PitOf(ks: seq<Kept>, g: GroupKey): Extreme
    requires HasValue(Members(ks, g))
  {
    var ms := Members(ks, g);
    var j := PitIndex(ms).value;
    Extreme(g, ms[j].value.value, ms[j].ts)
  }

  function TotalKey(t: Total): GroupKey {
    t.key
  }

  function ExtremeKey(e: Extreme): GroupKey {
    e.key
  }

  function PartialKey(w: WithPeak): GroupKey {
    w.totals.key
  }

  function AddPeak(t: Total, e: Extreme): WithPeak {
    WithPeak(t, Some(e))
  }

  function NoPeak(t: Total): WithPeak {
    WithPeak(t, None)
  }

  function AddPit(w: WithPeak, e: Extreme): Summary {
    Finish(w, Some(e))
  }

  function NoPit(w: WithPeak): Summary {
    Finish(w, None)
  }

  function Finish(w: WithPeak, pit: Option<Extreme>): Summary {
    Summary(w.totals.key.utility, w.totals.key.servicePoint, w.totals.key.bucketStart, w.totals.key.bucketEnd,
            w.totals.total, w.totals.count,
            if w.peak.Some? then Some(w.peak.value.value) else None,
            if w.peak.Some? then Some(w.peak.value.ts) else None,
            if pit.Some? then Some(pit.value.value) else None,
            if pit.Some? then Some(pit.value.ts) else None)
  }

  /** Every group holds a value: `idxmax`/`idxmin` fail on a group without one. */
  predicate AllGroupsValued(ks: seq<Kept>) {
    forall i :: 0 <= i < |GroupKeys(ks)| ==> HasValue(Members(ks, GroupKeys(ks)[i]))
  }

  function Totals(ks: seq<Kept>): seq<Total> {
    var gs := GroupKeys(ks);
    seq(|gs|, i requires 0 <= i < |gs| => TotalOf(ks, gs[i]))
  }

  function Peaks(ks: seq<Kept>): seq<Extreme>
    requires AllGroupsValued(ks)
  {
    var gs := GroupKeys(ks);
    seq(|gs|, i requires 0 <= i < |gs| => PeakOf(ks, gs[i]))
  }

  function Pits(ks: seq<Kept>): seq<Extreme>
    requires AllGroupsValued(ks)
  {
    var gs := GroupKeys(ks);
    seq(|gs|, i requires 0 <= i < |gs| => PitOf(ks, gs[i]))
  }

  /** `agg_total.merge(peak, how="left").merge(pit, how="left")` on the
      grouping key. */
  function Summarize(ks: seq<Kept>): Result<seq<Summary>, string> {
    if !AllGroupsValued(ks) then Err("value")
    else
      var withPeak := LeftJoin(Totals(ks), Peaks(ks), TotalKey, ExtremeKey, AddPeak, NoPeak);
      Ok(LeftJoin(withPeak, Pits(ks), PartialKey, ExtremeKey, AddPit, NoPit))
  }

  /** `build_customer_usage_summary` with daily windows: a KeyError for a
      missing id or timestamp column; no rows when no timestamp parses; a
      KeyError for a missing value column, or an error when a group has no
      value at all; otherwise one summary per group. */
  function BuildCustomerUsageSummary(t: Table, p: Parsers): (r: Result<seq<Summary>, string>)
    ensures "utility_id" !in t.columns ==> r == Err("utility_id")
    ensures "utility_id" in t.columns && "service_point_id" !in t.columns ==> r == Err("service_point_id")
    ensures "utility_id" in t.columns && "service_point_id" in t.columns && "interval_start_ts" !in t.columns ==>
              r == Err("interval_start_ts")
    ensures r.Ok? ==> "utility_id" in t.columns && "service_point_id" in t.columns && "interval_start_ts" in t.columns
    ensures r.Ok? && (forall i :: 0 <= i < |t.rows| ==> StartOf(t.rows[i], p).None?) ==> r.value == []
    ensures (exists i :: 0 <= i < |t.rows| && StartOf(t.rows[i], p).Some?) ==>
              (r.Ok? <==> && "utility_id" in t.columns && "service_point_id" in t.columns
                          && "interval_start_ts" in t.columns && "value" in t.columns
                          && AllGroupsValued(KeptRows(t.rows, p)))
  {
    if "utility_id" !in t.columns then Err("utility_id")
    else if "service_point_id" !in t.columns then Err("service_point_id")
    else if "interval_start_ts" !in t.columns then Err("interval_start_ts")
    else
      var ks := KeptRows(t.rows, p);
      if ks == [] then Ok([])
      else if "value" !in t.columns then Err("value")
      else Summarize(ks)
  }

  function OptionCell(x: Option<int>, stamp: bool): Cell {
    match x
    case None => Null
    case Some(v) => if stamp then Stamp(v) else Num(v)
  }

  /** One summary as a row under `SummaryColumns`. */
  function SummaryRow(s: Summary): Row {
    map["utility_id" := s.utilityId, "service_point_id" := s.servicePointId,
        "bucket_start" := Stamp(s.bucketStart), "bucket_end" := Stamp(s.bucketEnd),
        "total_usage" := Num(s.totalUsage), "interval_count" := Num(s.intervalCount),
        "peak_usage_value" := OptionCell(s.peakUsageValue, false), "peak_usage_ts" := OptionCell(s.peakUsageTs, true),
        "pit_usage_value" := OptionCell(s.pitUsageValue, false), "pit_usage_ts" := OptionCell(s.pitUsageTs, true)]
  }

  lemma SummaryColumnsDistinct()
    ensures Distinct(SummaryColumns)
  {
  }

  lemma SummaryRowKeys(s: Summary)
    ensures SummaryRow(s).Keys == set c | c in SummaryColumns
  {
    var r := SummaryRow(s);
    forall c | c in SummaryColumns ensures c in r {
    }
    forall c | c in r ensures c in SummaryColumns {
    }
  }

  /** The summary as a table: always the ten summary columns in their fixed
      order, one row per summary; an empty summary is the empty schema. */
  function SummaryTable(out: seq<Summary>): (t: Table)
    ensures t.columns == SummaryColumns && |t.rows| == |out|
    ensures WellFormed(t)
    ensures forall i :: 0 <= i < |out| ==> Get(t.rows[i], "total_usage") == Num(out[i].totalUsage)
  {
    var rows := seq(|out|, i requires 0 <= i < |out| => SummaryRow(out[i]));
    assert WellFormed(Table(SummaryColumns, rows)) by {
      SummaryColumnsDistinct();
      forall i | 0 <= i < |rows| ensures rows[i].Keys == set c | c in SummaryColumns {
        SummaryRowKeys(out[i]);
      }
    }
    Table(SummaryColumns, rows)
  }

  // ---------------------------------------------------------------------
  // Properties
  // ---------------------------------------------------------------------

  /** The summary expected for a group holding a value. */
  function Expected(ks: seq<Kept>, g: GroupKey): Summary
    requires HasValue(Members(ks, g))
  {
    Finish(WithPeak(TotalOf(ks, g), Some(PeakOf(ks, g))), Some(PitOf(ks, g)))
  }

  /** `v` is the largest value among `ms` and `t` the start time of the first
      row holding it. */
  predicate FirstMax(ms: seq<Kept>, v: int, t: int) {
    && (exists j :: 0 <= j < |ms| && ms[j].value == Some(v) && ms[j].ts == t
                    && forall j' :: 0 <= j' < j && ms[j'].value.Some? ==> ms[j'].value.value < v)
    && (forall j :: 0 <= j < |ms| && ms[j].value.Some? ==> ms[j].value.value <= v)
  }

  /** `v` is the smallest value among `ms` and `t` the start time of the
      first row holding it. */
  predicate FirstMin(ms: seq<Kept>, v: int, t: int) {
    && (exists j :: 0 <= j < |ms| && ms[j].value == Some(v) && ms[j].ts == t
                    && forall j' :: 0 <= j' < j && ms[j'].value.Some? ==> v < ms[j'].value.value)
    && (forall j :: 0 <= j < |ms| && ms[j].value.Some? ==> v <= ms[j].value.value)
  }

  function SummaryKey(s: Summary): GroupKey {
    GroupKey(s.utilityId, s.servicePointId, s.bucketStart, s.bucketEnd)
  }

  /** Summary row `s` describes group `g` of `ks`: its key is `g`, its total
      and count are the sum and number of the group's values, and its peak
      and pit are the largest and smallest value with the start time of the
      first row holding each. */
  predicate Describes(ks: seq<Kept>, g: GroupKey, s: Summary) {
    && SummaryKey(s) == g
    && s.totalUsage == Sum(Values(Members(ks, g))) && s.intervalCount == |Values(Members(ks, g))|
    && s.peakUsageValue.Some? && s.peakUsageTs.Some? && s.pitUsageValue.Some? && s.pitUsageTs.Some?
    && FirstMax(Members(ks, g), s.peakUsageValue.value, s.peakUsageTs.value)
    && FirstMin(Members(ks, g), s.pitUsageValue.value, s.pitUsageTs.value)
  }

  lemma ExpectedDescribes(ks: seq<Kept>, g: GroupKey)
    requires HasValue(Members(ks, g))
    ensures Describes(ks, g, Expected(ks, g))
  {
    var ms := Members(ks, g);
    var s := Expected(ks, g);
    var jp := PeakIndex(ms).value;
    var jq := PitIndex(ms).value;
    assert ms[jp].value == Some(s.peakUsageValue.value) && ms[jp].ts == s.peakUsageTs.value;
    assert ms[jq].value == Some(s.pitUsageValue.value) && ms[jq].ts == s.pitUsageTs.value;
  }

  /** Both merges are on the unique group key, so they keep the totals one for
      one: one summary per group, in group order. */
  lemma SummaryIsExpected(ks: seq<Kept>)
    requires Summarize(ks).Ok?
    ensures |Summarize(ks).value| == |GroupKeys(ks)|
    ensures forall i :: 0 <= i < |GroupKeys(ks)| ==> Summarize(ks).value[i] == Expected(ks, GroupKeys(ks)[i])
  {
    var gs := GroupKeys(ks);
    var totals := Totals(ks);
    var peaks := Peaks(ks);
    var pits := Pits(ks);
    assert UniqueKeys(peaks, ExtremeKey);
    assert UniqueKeys(pits, ExtremeKey);
    LeftJoinOfUnique(totals, peaks, TotalKey, ExtremeKey, AddPeak, NoPeak);
    var withPeak := LeftJoin(totals, peaks, TotalKey, ExtremeKey, AddPeak, NoPeak);
    LeftJoinOfUnique(withPeak, pits, PartialKey, ExtremeKey, AddPit, NoPit);
    var out := LeftJoin(withPeak, pits, PartialKey, ExtremeKey, AddPit, NoPit);
    assert Summarize(ks).value == out;
    forall i | 0 <= i < |gs| ensures out[i] == Expected(ks, gs[i]) {
      LookupOfUnique(peaks, ExtremeKey, i);
      LookupOfUnique(pits, ExtremeKey, i);
      assert withPeak[i] == JoinRow(totals[i], peaks, TotalKey, ExtremeKey, AddPeak, NoPeak);
      assert withPeak[i] == WithPeak(totals[i], Some(peaks[i]));
      assert out[i] == JoinRow(withPeak[i], pits, PartialKey, ExtremeKey, AddPit, NoPit);
    }
  }

  /** One summary row per group, in group order, each describing its group. */
  lemma SummaryPerGroup(ks: seq<Kept>)
    requires Summarize(ks).Ok?
    ensures |Summarize(ks).value| == |GroupKeys(ks)|
    ensures forall i :: 0 <= i < |GroupKeys(ks)| ==> Describes(ks, GroupKeys(ks)[i], Summarize(ks).value[i])
  {
    SummaryIsExpected(ks);
    forall i | 0 <= i < |GroupKeys(ks)| ensures Describes(ks, GroupKeys(ks)[i], Summarize(ks).value[i]) {
      ExpectedDescribes(ks, GroupKeys(ks)[i]);
    }
  }

  /** Every kept row is described by a summary row, and no two summary rows
      share a key, so each row falls in exactly one of them. */
  lemma EachRowInOneGroup(ks: seq<Kept>)
    requires Summarize(ks).Ok?
    ensures UniqueKeys(Summarize(ks).value, SummaryKey)
    ensures forall k :: k in ks ==>
              exists i :: 0 <= i < |Summarize(ks).value| && Describes(ks, KeyOfKept(k), Summarize(ks).value[i])
  {
    var gs := GroupKeys(ks);
    var out := Summarize(ks).value;
    SummaryPerGroup(ks);
    forall i, j | 0 <= i < j < |out| ensures SummaryKey(out[i]) != SummaryKey(out[j]) {
      assert Describes(ks, gs[i], out[i]) && Describes(ks, gs[j], out[j]);
    }
    forall k | k in ks ensures exists i :: 0 <= i < |out| && Describes(ks, KeyOfKept(k), out[i]) {
      var i :| 0 <= i < |gs| && gs[i] == KeyOfKept(k);
      assert Describes(ks, gs[i], out[i]);
    }
  }

  /** A described row's bucket is one day from midnight, and its peak and pit
      times lie inside it. */
  lemma DescribedInBucket(ks: seq<Kept>, g: GroupKey, s: Summary)
    requires exists k :: k in ks && KeyOfKept(k) == g
    requires Describes(ks, g, s)
    ensures s.bucketStart % Day == 0 && s.bucketEnd == s.bucketStart + Day - 1
    ensures s.bucketStart <= s.peakUsageTs.value <= s.bucketEnd
    ensures s.bucketStart <= s.pitUsageTs.value <= s.bucketEnd
  {
    var ms := Members(ks, g);
    var k :| k in ks && KeyOfKept(k) == g;
    var jp :| 0 <= jp < |ms| && ms[jp].value == Some(s.peakUsageValue.value) && ms[jp].ts == s.peakUsageTs.value
              && forall j' :: 0 <= j' < jp && ms[j'].value.Some? ==> ms[j'].value.value < s.peakUsageValue.value;
    var jq :| 0 <= jq < |ms| && ms[jq].value == Some(s.pitUsageValue.value) && ms[jq].ts == s.pitUsageTs.value
              && forall j' :: 0 <= j' < jq && ms[j'].value.Some? ==> s.pitUsageValue.value < ms[j'].value.value;
    assert KeyOfKept(ms[jp]) == g && KeyOfKept(ms[jq]) == g;
  }

  /** The bucket is one day from midnight and the peak and pit times lie
      inside it. */
  predicate InBucket(s: Summary) {
    && s.bucketStart % Day == 0 && s.bucketEnd == s.bucketStart + Day - 1
    && s.peakUsageTs.Some? && s.bucketStart <= s.peakUsageTs.value <= s.bucketEnd
    && s.pitUsageTs.Some? && s.bucketStart <= s.pitUsageTs.value <= s.bucketEnd
  }

  /** Every summary row's bucket is one day from midnight, and its peak and
      pit times lie inside it. */
  lemma SummaryTimesInBucket(ks: seq<Kept>)
    requires Summarize(ks).Ok?
    ensures forall i :: 0 <= i < |Summarize(ks).value| ==> InBucket(Summarize(ks).value[i])
  {
    var gs := GroupKeys(ks);
    var out := Summarize(ks).value;
    SummaryPerGroup(ks);
    forall i | 0 <= i < |out| ensures InBucket(out[i]) {
      assert exists k :: k in ks && KeyOfKept(k) == gs[i];
      DescribedInBucket(ks, gs[i], out[i]);
    }
  }

  /** Some row of `out` describes the group of `k`. */
  predicate Summarized(ks: seq<Kept>, k: Kept, out: seq<Summary>) {
    exists j :: 0 <= j < |out| && Describes(ks, KeyOfKept(k), out[j])
  }

  /** Back at the level of the joined table: each row whose start time parses
      falls in exactly one summary row, which describes that row's group. */
  lemma TableRowsSummarized(t: Table, p: Parsers)
    requires BuildCustomerUsageSummary(t, p).Ok?
    ensures UniqueKeys(BuildCustomerUsageSummary(t, p).value, SummaryKey)
    ensures forall j :: 0 <= j < |BuildCustomerUsageSummary(t, p).value| ==> InBucket(BuildCustomerUsageSummary(t, p).value[j])
    ensures forall i :: 0 <= i < |t.rows| && StartOf(t.rows[i], p).Some? ==>
              Summarized(KeptRows(t.rows, p), Prepare(t.rows[i], StartOf(t.rows[i], p).value),
                         BuildCustomerUsageSummary(t, p).value)
  {
    var ks := KeptRows(t.rows, p);
    var out := BuildCustomerUsageSummary(t, p).value;
    if ks != [] {
      assert Summarize(ks).value == out;
      EachRowInOneGroup(ks);
      SummaryTimesInBucket(ks);
      forall i | 0 <= i < |t.rows| && StartOf(t.rows[i], p).Some?
        ensures Summarized(ks, Prepare(t.rows[i], StartOf(t.rows[i], p).value), out)
      {
        var k := Prepare(t.rows[i], StartOf(t.rows[i], p).value);
        KeptRowsComplete(t.rows, p);
        assert k in ks;
        var j :| 0 <= j < |out| && Describes(ks, KeyOfKept(k), out[j]);
      }
    }
  }

  lemma SingleGroupValued(ks: seq<Kept>)
    requires |GroupKeys(ks)| == 1 && HasValue(Members(ks, GroupKeys(ks)[0]))
    ensures Summarize(ks).Ok?
  {
    var gs := GroupKeys(ks);
    forall i | 0 <= i < |gs| ensures HasValue(Members(ks, gs[i])) {
      assert i == 0;
    }
  }

  /** A table of one group gives one summary row, the expected one. */
  lemma SingleGroupSummary(ks: seq<Kept>)
    requires |GroupKeys(ks)| == 1 && HasValue(Members(ks, GroupKeys(ks)[0]))
    ensures Summarize(ks) == Ok([Expected(ks, GroupKeys(ks)[0])])
  {
    SingleGroupValued(ks);
    SummaryIsExpected(ks);
    OneRow(Summarize(ks), Expected(ks, GroupKeys(ks)[0]));
  }

  lemma OneRow<T>(r: Result<seq<T>, string>, x: T)
    requires r.Ok? && |r.value| == 1 && r.value[0] == x
    ensures r == Ok([x])
  {
    assert r.value == [x];
  }

  /** Two readings of one service point on one day form a single group. */
  lemma ExampleGroups(a: Kept, b: Kept)
    requires KeyOfKept(a) == KeyOfKept(b)
    ensures GroupKeys([a, b]) == [KeyOfKept(a)]
  {
    var g := KeyOfKept(a);
    var ks := [a, b];
    var keys := seq(|ks|, i requires 0 <= i < |ks| => KeyOfKept(ks[i]));
    assert keys == [g] + [g];
    assert GroupKeys(ks) == Dedup(keys, Self);
    DedupSnoc([], g, Self);
    assert [] + [g] == [g];
    DedupSnoc([g], g, Self);
    assert Self(g) in KeySet([g], Self);
  }

  /** Both readings are members of their common group. */
  lemma ExampleMembers(a: Kept, b: Kept)
    requires KeyOfKept(a) == KeyOfKept(b)
    ensures Members([a, b], KeyOfKept(a)) == [a, b]
  {
    var p := InGroup(KeyOfKept(a));
    assert [a, b][..1] == [a] && [a][..0] == [];
    assert Filter([a], p) == Filter([], p) + [a];
    assert Filter([a, b], p) == Filter([a], p) + [b];
  }

  predicate ExampleRows(a: Kept, b: Kept) {
    && a == Kept(Str("UTILITY1"), Str("SP-1"), 8 * 3600, Some(10))
    && b == Kept(Str("UTILITY1"), Str("SP-1"), 14 * 3600, Some(30))
  }

  lemma ExampleExtremes(a: Kept, b: Kept)
    requires ExampleRows(a, b)
    ensures Values([a, b]) == [10, 30]
    ensures PeakIndex([a, b]) == Some(1) && PitIndex([a, b]) == Some(0)
  {
    assert [a, b][..1] == [a];
    assert [a][..0] == [];
    assert Values([a]) == [10];
    assert PeakIndex([a]) == Some(0);
    assert PitIndex([a]) == Some(0);
  }

  lemma ExampleTotal(a: Kept, b: Kept)
    requires ExampleRows(a, b)
    ensures TotalOf([a, b], KeyOfKept(a)) == Total(KeyOfKept(a), 40, 2)
  {
    ExampleMembers(a, b);
    ExampleExtremes(a, b);
    assert [10, 30][..1] == [10] && [10][..0] == [];
    assert Sum([10, 30]) == 40;
  }

  lemma ExamplePeakAndPit(a: Kept, b: Kept)
    requires ExampleRows(a, b)
    ensures HasValue(Members([a, b], KeyOfKept(a)))
    ensures PeakOf([a, b], KeyOfKept(a)) == Extreme(KeyOfKept(a), 30, 14 * 3600)
    ensures PitOf([a, b], KeyOfKept(a)) == Extreme(KeyOfKept(a), 10, 8 * 3600)
  {
    ExampleMembers(a, b);
    ExampleExtremes(a, b);
    assert HasValue([a, b]) by { assert [a, b][0].value.Some?; }
  }

  lemma ExampleKey(a: Kept, b: Kept)
    requires ExampleRows(a, b)
    ensures KeyOfKept(a) == GroupKey(Str("UTILITY1"), Str("SP-1"), 0, Day - 1)
  {
  }

  lemma ExpectedFrom(ks: seq<Kept>, g: GroupKey, t: Total, peak: Extreme, pit: Extreme)
    requires HasValue(Members(ks, g))
    requires TotalOf(ks, g) == t && PeakOf(ks, g) == peak && PitOf(ks, g) == pit
    ensures Expected(ks, g) == Finish(WithPeak(t, Some(peak)), Some(pit))
  {
  }

  lemma ExampleExpected(a: Kept, b: Kept)
    requires ExampleRows(a, b)
    ensures HasValue(Members([a, b], KeyOfKept(a)))
    ensures Expected([a, b], KeyOfKept(a))
         == Summary(Str("UTILITY1"), Str("SP-1"), 0, Day - 1, 40, 2, Some(30), Some(14 * 3600), Some(10), Some(8 * 3600))
  {
    var g := KeyOfKept(a);
    ExampleKey(a, b);
    ExampleTotal(a, b);
    ExamplePeakAndPit(a, b);
    ExpectedFrom([a, b], g, Total(g, 40, 2), Extreme(g, 30, 14 * 3600), Extreme(g, 10, 8 * 3600));
  }

  /** Values 10 at 08:00 and 30 at 14:00 on the same day for the same
      service point give one row: total 40 over 2 readings, peak 30 at
      14:00, pit 10 at 08:00. */
  lemma WorkedExample(a: Kept, b: Kept)
    requires ExampleRows(a, b)
    ensures Summarize([a, b])
         == Ok([Summary(Str("UTILITY1"), Str("SP-1"), 0, Day - 1, 40, 2, Some(30), Some(14 * 3600), Some(10), Some(8 * 3600))])
  {
    ExampleGroups(a, b);
    ExampleExpected(a, b);
    SingleGroupSummary([a, b]);
  }
}
