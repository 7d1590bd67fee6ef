/** The schema standardizer and identity reconciler: each utility's raw
    service points, meters and interval readings are mapped into one
    canonical record shape, the two utilities are concatenated (utility 1
    first), duplicates on the canonical key are dropped keeping the first row,
    and a missing `utility_id` is inferred from id prefixes. */
module Standardized {
  import opened Wrappers
  import opened Strings
  import opened Frames
  import opened Relational

  const Utility1 := "UTILITY1"
  const Utility2 := "UTILITY2"

  /** The `utility_id` each utility's mapper writes into its rows. The source
      assigns the constant tag to a DataFrame that has no rows yet; pandas
      then re-indexes that column to null as soon as the first id column is
      added, so the rows reach the reconciler untagged (`AsWritten`). The
      evidently intended tags are `Intended`. */
  datatype Tags = Tags(utility1: Cell, utility2: Cell)

  const Intended := Tags(Str(Utility1), Str(Utility2))
  const AsWritten := Tags(Null, Null)

  // ---------------------------------------------------------------------
  // Raw input and column-name normalisation
  // ---------------------------------------------------------------------

  /** A raw table as loaded from a utility's CSV export: column names and
      rows of cells by column position. */
  datatype RawTable = RawTable(columns: seq<string>, rows: seq<seq<Cell>>)

  datatype RawUtility = RawUtility(servicePoints: RawTable, meters: RawTable, intervals: RawTable)

  /** The raw tables of both utilities (`raw_all["utility1"]`, `raw_all["utility2"]`). */
  datatype RawAll = RawAll(utility1: RawUtility, utility2: RawUtility)

  /** `c.strip().lower()`: the stripped name with every character lowered;
      so the result has no upper-case letter and no whitespace at either
      end. */
  function NormalizeName(c: string): (r: string)
    ensures |r| == |Strip(c)| && forall i :: 0 <= i < |r| ==> r[i] == LowerChar(Strip(c)[i])
    ensures forall i :: 0 <= i < |r| ==> !IsUpper(r[i])
    ensures r == [] || (!IsSpace(r[0]) && !IsSpace(r[|r| - 1]))
    ensures |r| <= |c|
  {
    Lower(Strip(c))
  }

  /** Normalising a normalised name changes nothing. */
  lemma NormalizeNameIdempotent(c: string)
    ensures NormalizeName(NormalizeName(c)) == NormalizeName(c)
  {
    var n := NormalizeName(c);
    assert Strip(n) == n by { StripStripped(n); }
    assert Lower(n) == n;
  }

  /** `_normalize_columns`: every column name is normalised, the number and
      order of columns and all rows are kept. */
  function NormalizeColumns(t: RawTable): (r: RawTable)
    ensures r.rows == t.rows
    ensures |r.columns| == |t.columns|
    ensures forall i :: 0 <= i < |t.columns| ==> r.columns[i] == NormalizeName(t.columns[i])
  {
    t.(columns := seq(|t.columns|, i requires 0 <= i < |t.columns| => NormalizeName(t.columns[i])))
  }

  lemma NormalizeColumnsIdempotent(t: RawTable)
    ensures NormalizeColumns(NormalizeColumns(t)) == NormalizeColumns(t)
  {
    var once := NormalizeColumns(t);
    var twice := NormalizeColumns(once);
    forall i | 0 <= i < |t.columns| ensures twice.columns[i] == once.columns[i] {
      NormalizeNameIdempotent(t.columns[i]);
    }
  }

  /** The position of the first column called `name`. */
  function ColumnIndex(columns: seq<string>, name: string): (r: Option<nat>)
    ensures r.Some? ==> r.value < |columns| && columns[r.value] == name
    ensures r.Some? ==> name !in columns[..r.value]
    ensures r.None? <==> name !in columns
  {
    if columns == [] then None
    else if columns[0] == name then Some(0)
    else match ColumnIndex(columns[1..], name)
      case Some(k) =>
        assert columns[..k + 1] == [columns[0]] + columns[1..][..k];
        Some(k + 1)
      case None => None
  }

  /** A name has at most one first occurrence. */
  lemma FirstOccurrenceUnique(columns: seq<string>, name: string)
    ensures forall k, k' :: 0 <= k < k' < |columns| && columns[k] == name ==> name in columns[..k']
  {
    forall k, k' | 0 <= k < k' < |columns| && columns[k] == name ensures name in columns[..k'] {
      assert columns[..k'][k] == name;
    }
  }

  /** The cell of `row` in column `name`; null when there is no such column
      (`df.get(name)`). */
  function Field(df: RawTable, row: seq<Cell>, name: string): (c: Cell)
    ensures name !in df.columns ==> c == Null
    ensures forall k :: 0 <= k < |df.columns| && df.columns[k] == name && name !in df.columns[..k] ==>
              c == if k < |row| then row[k] else Null
  {
    FirstOccurrenceUnique(df.columns, name);
    match ColumnIndex(df.columns, name)
    case Some(k) => if k < |row| then row[k] else Null
    case None => Null
  }

  /** The first of `names` that is not a column: the one `df[name]` fails on. */
  function FirstMissing(columns: seq<string>, names: seq<string>): (r: Option<string>)
    ensures r.None? <==> forall n :: n in names ==> n in columns
    ensures r.Some? ==> exists k :: 0 <= k < |names| && names[k] == r.value && r.value !in columns
                                    && forall j :: 0 <= j < k ==> names[j] in columns
  {
    if names == [] then None
    else if names[0] !in columns then Some(names[0])
    else
      var rest := FirstMissing(columns, names[1..]);
      assert forall j :: 1 <= j < |names| ==> names[j] == names[1..][j - 1];
      rest
  }

  /** One canonical record per raw row, after normalising the column names;
      a KeyError on the first required column that is absent. */
  function MapRows<T>(raw: RawTable, required: seq<string>, build: (RawTable, seq<Cell>) -> T): (r: Result<seq<T>, string>)
    ensures r.Err? <==> FirstMissing(NormalizeColumns(raw).columns, required).Some?
    ensures r.Err? ==> Some(r.error) == FirstMissing(NormalizeColumns(raw).columns, required)
    ensures r.Ok? ==> |r.value| == |raw.rows|
    ensures r.Ok? ==> forall i :: 0 <= i < |raw.rows| ==> r.value[i] == build(NormalizeColumns(raw), raw.rows[i])
  {
    var df := NormalizeColumns(raw);
    match FirstMissing(df.columns, required)
    case Some(c) => Err(c)
    case None => Ok(seq(|df.rows|, i requires 0 <= i < |df.rows| => build(df, df.rows[i])))
  }

  // ---------------------------------------------------------------------
  // Service points
  // ---------------------------------------------------------------------

  datatype ServicePoint = ServicePoint(
    utilityId: Cell, servicePointId: Cell, servicePointNumber: Cell,
    houseNum: Cell, street: Cell, houseSupp: Cell, city: Cell, zip: Cell, state: Cell,
    installedAt: Cell, removedAt: Cell, createdAt: Cell, updatedAt: Cell)

  const Utility1ServicePointColumns := ["service_point_id", "service_point_number", "service_point_street",
                                        "service_point_city", "service_point_zip", "service_point_state"]
  const Utility2ServicePointColumns := ["premise_id", "premise_house_num", "premise_street",
                                        "premise_city", "premise_zip", "premise_region"]

  function Utility1ServicePoint(df: RawTable, row: seq<Cell>, tag: Cell): ServicePoint {
    ServicePoint(
      utilityId := tag,
      servicePointId := Field(df, row, "service_point_id"),
      servicePointNumber := Field(df, row, "service_point_number"),
      houseNum := Null,
      street := Field(df, row, "service_point_street"),
      houseSupp := Null,
      city := Field(df, row, "service_point_city"),
      zip := Field(df, row, "service_point_zip"),
      state := Field(df, row, "service_point_state"),
      installedAt := Field(df, row, "installed_at"),
      removedAt := Field(df, row, "removed_at"),
      createdAt := Field(df, row, "created"),
      updatedAt := Field(df, row, "updated"))
  }

  /** Utility 1 service points: one record per raw row carrying the given
      tag, its id copied from SERVICE_POINT_ID, and null house number and
      house supplement, which utility 1 does not have. */
  function StandardizeUtility1ServicePoints(raw: RawTable, tag: Cell): (r: Result<seq<ServicePoint>, string>)
    ensures r.Err? <==> exists c :: c in Utility1ServicePointColumns && c !in NormalizeColumns(raw).columns
    ensures r.Err? ==> r.error in Utility1ServicePointColumns && r.error !in NormalizeColumns(raw).columns
    ensures r.Ok? ==> |r.value| == |raw.rows|
    ensures r.Ok? ==> forall i :: 0 <= i < |raw.rows| ==>
              && r.value[i].utilityId == tag
              && r.value[i].servicePointId == Field(NormalizeColumns(raw), raw.rows[i], "service_point_id")
              && r.value[i].street == Field(NormalizeColumns(raw), raw.rows[i], "service_point_street")
              && r.value[i].zip == Field(NormalizeColumns(raw), raw.rows[i], "service_point_zip")
              && r.value[i].houseNum == Null && r.value[i].houseSupp == Null
  {
    MapRows(raw, Utility1ServicePointColumns, (df, row) => Utility1ServicePoint(df, row, tag))
  }

  function Utility2ServicePoint(df: RawTable, row: seq<Cell>, tag: Cell): ServicePoint {
    ServicePoint(
      utilityId := tag,
      servicePointId := Field(df, row, "premise_id"),
      servicePointNumber := Null,
      houseNum := Field(df, row, "premise_house_num"),
      street := Field(df, row, "premise_street"),
      houseSupp := Field(df, row, "premise_house_supp"),
      city := Field(df, row, "premise_city"),
      zip := Field(df, row, "premise_zip"),
      state := Field(df, row, "premise_region"),
      installedAt := Null,
      removedAt := Null,
      createdAt := Field(df, row, "created_date"),
      updatedAt := Null)
  }

  /** Utility 2 premises: one record per raw row carrying the given tag, its
      id copied from premise_id, and null service point number, install,
      removal and update times, which utility 2 does not have. */
  function StandardizeUtility2ServicePoints(raw: RawTable, tag: Cell): (r: Result<seq<ServicePoint>, string>)
    ensures r.Err? <==> exists c :: c in Utility2ServicePointColumns && c !in NormalizeColumns(raw).columns
    ensures r.Err? ==> r.error in Utility2ServicePointColumns && r.error !in NormalizeColumns(raw).columns
    ensures r.Ok? ==> |r.value| == |raw.rows|
    ensures r.Ok? ==> forall i :: 0 <= i < |raw.rows| ==>
              && r.value[i].utilityId == tag
              && r.value[i].servicePointId == Field(NormalizeColumns(raw), raw.rows[i], "premise_id")
              && r.value[i].state == Field(NormalizeColumns(raw), raw.rows[i], "premise_region")
              && r.value[i].servicePointNumber == Null && r.value[i].installedAt == Null
              && r.value[i].removedAt == Null && r.value[i].updatedAt == Null
  {
    MapRows(raw, Utility2ServicePointColumns, (df, row) => Utility2ServicePoint(df, row, tag))
  }

  function ServicePointKey(sp: ServicePoint): seq<Cell> {
    [sp.utilityId, sp.servicePointId]
  }

  /** The fallback tag of a service point: UTILITY1 exactly when the id,
      as a string, starts with "SP-"; UTILITY2 otherwise. */
  function ServicePointTag(id: Cell): (t: Cell)
    ensures t == Str(Utility1) || t == Str(Utility2)
    ensures t == Str(Utility1) <==> StartsWith(ToStr(id), "SP-")
  {
    if StartsWith(ToStr(id), "SP-") then Str(Utility1) else Str(Utility2)
  }

  function FillServicePointTag(sp: ServicePoint): ServicePoint {
    if sp.utilityId == Null then sp.(utilityId := ServicePointTag(sp.servicePointId)) else sp
  }

  /** Concatenate (utility 1 first), keep the first row of every
      `(utility_id, service_point_id)`, then fill a null `utility_id` from the
      id prefix. The fill never touches a present tag, changes nothing else,
      and leaves no tag null. */
  function CombineServicePoints(u1: seq<ServicePoint>, u2: seq<ServicePoint>): (r: seq<ServicePoint>)
    ensures var d := Dedup(u1 + u2, ServicePointKey);
      && |r| == |d|
      && forall i :: 0 <= i < |r| ==>
           && r[i] == d[i].(utilityId := r[i].utilityId)
           && r[i].utilityId != Null
           && (d[i].utilityId != Null ==> r[i].utilityId == d[i].utilityId)
           && (d[i].utilityId == Null ==> r[i].utilityId == ServicePointTag(d[i].servicePointId))
  {
    var d := Dedup(u1 + u2, ServicePointKey);
    seq(|d|, i requires 0 <= i < |d| => FillServicePointTag(d[i]))
  }

  /** `build_standardized_service_points`. */
  function BuildStandardizedServicePoints(raw: RawAll, tags: Tags): (r: Result<seq<ServicePoint>, string>)
    ensures r.Ok? <==> StandardizeUtility1ServicePoints(raw.utility1.servicePoints, tags.utility1).Ok?
                       && StandardizeUtility2ServicePoints(raw.utility2.servicePoints, tags.utility2).Ok?
    ensures r.Ok? ==> forall i :: 0 <= i < |r.value| ==> r.value[i].utilityId != Null
  {
    match StandardizeUtility1ServicePoints(raw.utility1.servicePoints, tags.utility1)
    case Err(e) => Err(e)
    case Ok(u1) =>
      match StandardizeUtility2ServicePoints(raw.utility2.servicePoints, tags.utility2)
      case Err(e) => Err(e)
      case Ok(u2) => Ok(CombineServicePoints(u1, u2))
  }

  /** Every tag present, or every tag missing: what the two mappers produce
      under either `Tags` policy. */
  predicate UniformTags(s: seq<Cell>) {
    (forall i :: 0 <= i < |s| ==> s[i] != Null) || (forall i :: 0 <= i < |s| ==> s[i] == Null)
  }

  function ServicePointTags(s: seq<ServicePoint>): seq<Cell> {
    seq(|s|, i requires 0 <= i < |s| => s[i].utilityId)
  }

  /** After reconciliation no `(utility_id, service_point_id)` occurs twice,
      provided the mappers tagged every row or none. */
  lemma CombinedServicePointsUnique(u1: seq<ServicePoint>, u2: seq<ServicePoint>)
    requires UniformTags(ServicePointTags(u1 + u2))
    ensures UniqueKeys(CombineServicePoints(u1, u2), ServicePointKey)
  {
    var s := u1 + u2;
    var d := Dedup(s, ServicePointKey);
    var r := CombineServicePoints(u1, u2);
    forall i, j | 0 <= i < j < |r| ensures ServicePointKey(r[i]) != ServicePointKey(r[j]) {
      assert ServicePointKey(d[i]) != ServicePointKey(d[j]);
      assert d[i] in s && d[j] in s;
      var a :| 0 <= a < |s| && s[a] == d[i];
      var b :| 0 <= b < |s| && s[b] == d[j];
      assert ServicePointTags(s)[a] == d[i].utilityId && ServicePointTags(s)[b] == d[j].utilityId;
      if d[i].utilityId == Null {
        assert d[j].utilityId == Null;
        assert d[i].servicePointId != d[j].servicePointId;
        assert r[i].servicePointId == d[i].servicePointId && r[j].servicePointId == d[j].servicePointId;
      } else {
        assert d[j].utilityId != Null;
        assert r[i] == d[i] && r[j] == d[j];
      }
    }
  }

  /** The reconciled service points are unique on `(utility_id,
      service_point_id)` whether the mappers tag their rows or not. */
  lemma StandardizedServicePointsUnique(raw: RawAll, tags: Tags)
    requires (tags.utility1 == Null) == (tags.utility2 == Null)
    requires BuildStandardizedServicePoints(raw, tags).Ok?
    ensures UniqueKeys(BuildStandardizedServicePoints(raw, tags).value, ServicePointKey)
  {
    var u1 := StandardizeUtility1ServicePoints(raw.utility1.servicePoints, tags.utility1).value;
    var u2 := StandardizeUtility2ServicePoints(raw.utility2.servicePoints, tags.utility2).value;
    assert BuildStandardizedServicePoints(raw, tags).value == CombineServicePoints(u1, u2);
    var ts := ServicePointTags(u1 + u2);
    forall i | 0 <= i < |ts| ensures (ts[i] == Null) == (tags.utility1 == Null) {
      if i < |u1| { assert (u1 + u2)[i] == u1[i]; } else { assert (u1 + u2)[i] == u2[i - |u1|]; }
    }
    CombinedServicePointsUnique(u1, u2);
  }

  /** As written, the mappers leave every tag null, so the duplicate key is
      the id alone: the reconciled service points never repeat an id, and a
      utility 2 premise whose id equals a utility 1 service point id is
      dropped. */
  lemma ServicePointIdsCollapseAsWritten(raw: RawAll)
    requires BuildStandardizedServicePoints(raw, AsWritten).Ok?
    ensures var r := BuildStandardizedServicePoints(raw, AsWritten).value;
            forall i, j :: 0 <= i < j < |r| ==> r[i].servicePointId != r[j].servicePointId
  {
    var u1 := StandardizeUtility1ServicePoints(raw.utility1.servicePoints, AsWritten.utility1).value;
    var u2 := StandardizeUtility2ServicePoints(raw.utility2.servicePoints, AsWritten.utility2).value;
    var s := u1 + u2;
    var d := Dedup(s, ServicePointKey);
    var r := CombineServicePoints(u1, u2);
    assert BuildStandardizedServicePoints(raw, AsWritten).value == r;
    forall i, j | 0 <= i < j < |r| ensures r[i].servicePointId != r[j].servicePointId {
      assert d[i] in s && d[j] in s;
      assert d[i].utilityId == Null && d[j].utilityId == Null;
      assert ServicePointKey(d[i]) != ServicePointKey(d[j]);
    }
  }

  /** Utility 1 service point "SP-1" and utility 2 premise "SP-1": as written
      both reach deduplication untagged, so only the utility 1 row survives,
      tagged from its prefix. */
  lemma SharedIdScenarioAsWritten(a: ServicePoint, b: ServicePoint)
    requires a.utilityId == Null && b.utilityId == Null
    requires a.servicePointId == Str("SP-1") && b.servicePointId == Str("SP-1")
    ensures CombineServicePoints([a], [b]) == [a.(utilityId := Str(Utility1))]
  {
    var d := Dedup([a] + [b], ServicePointKey);
    assert d == [a] by {
      assert ServicePointKey(b) in KeySet([a], ServicePointKey) by {
        assert ServicePointKey([a][0]) == ServicePointKey(b);
      }
      DedupSnoc([a], b, ServicePointKey);
      DedupSnoc([], a, ServicePointKey);
      assert [] + [a] == [a];
    }
    assert ServicePointTag(a.servicePointId) == Str(Utility1) by {
      assert ToStr(a.servicePointId) == "SP-1";
      assert "SP-1"[..3] == "SP-";
    }
    var r := CombineServicePoints([a], [b]);
    assert |r| == 1 && r[0] == FillServicePointTag(d[0]);
  }

  /** When every row already carries a tag, reconciling is exactly
      first-wins duplicate removal: the fallback changes nothing. */
  lemma CombineTaggedServicePoints(u1: seq<ServicePoint>, u2: seq<ServicePoint>)
    requires forall i :: 0 <= i < |u1| ==> u1[i].utilityId != Null
    requires forall j :: 0 <= j < |u2| ==> u2[j].utilityId != Null
    ensures CombineServicePoints(u1, u2) == Dedup(u1 + u2, ServicePointKey)
  {
    var s := u1 + u2;
    var d := Dedup(s, ServicePointKey);
    var r := CombineServicePoints(u1, u2);
    forall i | 0 <= i < |d| ensures r[i] == d[i] {
      assert d[i] in s;
      var a :| 0 <= a < |s| && s[a] == d[i];
      if a < |u1| { assert s[a] == u1[a]; } else { assert s[a] == u2[a - |u1|]; }
    }
  }

  /** With the intended tags both rows survive, each with its own tag. */
  lemma SharedIdScenario(a: ServicePoint, b: ServicePoint)
    requires a.utilityId == Str(Utility1) && b.utilityId == Str(Utility2)
    requires a.servicePointId == Str("SP-1") && b.servicePointId == Str("SP-1")
    ensures CombineServicePoints([a], [b]) == [a, b]
  {
    CombineTaggedServicePoints([a], [b]);
    DedupOfTwo(a, b);
    assert [a] + [b] == [a, b];
  }

  /** Two service points whose keys differ both survive duplicate removal. */
  lemma DedupOfTwo(a: ServicePoint, b: ServicePoint)
    requires ServicePointKey(a) != ServicePointKey(b)
    ensures Dedup([a] + [b], ServicePointKey) == [a, b]
  {
    assert Dedup([a], ServicePointKey) == [a] by {
      DedupSnoc([], a, ServicePointKey);
      assert [] + [a] == [a];
    }
    assert ServicePointKey(b) !in KeySet([a], ServicePointKey) by {
      assert ServicePointKey([a][0]) == ServicePointKey(a);
    }
    DedupSnoc([a], b, ServicePointKey);
  }

  /** Rows of utility 1 and rows of utility 2 never share a key. */
  lemma TaggedKeysDisjoint(u1: seq<ServicePoint>, u2: seq<ServicePoint>)
    requires forall i :: 0 <= i < |u1| ==> u1[i].utilityId == Str(Utility1)
    requires forall j :: 0 <= j < |u2| ==> u2[j].utilityId == Str(Utility2)
    ensures KeySet(u1, ServicePointKey) !! KeySet(u2, ServicePointKey)
  {
    forall k | k in KeySet(u1, ServicePointKey) ensures k !in KeySet(u2, ServicePointKey) {
      var i :| 0 <= i < |u1| && ServicePointKey(u1[i]) == k;
      forall j | 0 <= j < |u2| ensures ServicePointKey(u2[j]) != k {
        assert ServicePointKey(u2[j])[0] != ServicePointKey(u1[i])[0];
      }
    }
  }

  /** With the intended tags the utilities' keys cannot clash: the reconciled
      service points are each utility's own first-wins rows, utility 1 first,
      and no utility 2 premise is lost to a utility 1 id. */
  lemma CrossUtilityIdsKept(raw: RawAll)
    requires BuildStandardizedServicePoints(raw, Intended).Ok?
    ensures var u1 := StandardizeUtility1ServicePoints(raw.utility1.servicePoints, Intended.utility1).value;
            var u2 := StandardizeUtility2ServicePoints(raw.utility2.servicePoints, Intended.utility2).value;
            BuildStandardizedServicePoints(raw, Intended).value
              == Dedup(u1, ServicePointKey) + Dedup(u2, ServicePointKey)
  {
    var u1 := StandardizeUtility1ServicePoints(raw.utility1.servicePoints, Intended.utility1).value;
    var u2 := StandardizeUtility2ServicePoints(raw.utility2.servicePoints, Intended.utility2).value;
    assert BuildStandardizedServicePoints(raw, Intended).value == CombineServicePoints(u1, u2);
    assert forall i :: 0 <= i < |u1| ==> u1[i].utilityId == Str(Utility1);
    assert forall j :: 0 <= j < |u2| ==> u2[j].utilityId == Str(Utility2);
    CombineTaggedServicePoints(u1, u2);
    TaggedKeysDisjoint(u1, u2);
    DedupDisjoint(u1, u2, ServicePointKey);
  }

  // ---------------------------------------------------------------------
  // Meters
  // ---------------------------------------------------------------------

  datatype Meter = Meter(
    utilityId: Cell, meterId: Cell, serialNumber: Cell, meterType: Cell, meterCategory: Cell,
    servicePointId: Cell, installedAt: Cell, removedAt: Cell, createdAt: Cell, updatedAt: Cell)

  const Utility1MeterColumns := ["meter_id"]
  const Utility2MeterColumns := ["meter_id", "meter_number", "meter_type", "premise_id"]

  function Utility1Meter(df: RawTable, row: seq<Cell>, tag: Cell): Meter {
    Meter(
      utilityId := tag,
      meterId := Field(df, row, "meter_id"),
      serialNumber := Field(df, row, "meter_id"),
      meterType := Field(df, row, "meter_type"),
      meterCategory := Field(df, row, "meter_category"),
      servicePointId := Null,
      installedAt := Null,
      removedAt := Null,
      createdAt := Null,
      updatedAt := Null)
  }

  /** Utility 1 meters: the serial number is the meter id and there is no
      link to a service point. */
  function StandardizeUtility1Meters(raw: RawTable, tag: Cell): (r: Result<seq<Meter>, string>)
    ensures r.Err? <==> "meter_id" !in NormalizeColumns(raw).columns
    ensures r.Err? ==> r.error == "meter_id"
    ensures r.Ok? ==> |r.value| == |raw.rows|
    ensures r.Ok? ==> forall i :: 0 <= i < |raw.rows| ==>
              && r.value[i].utilityId == tag
              && r.value[i].meterId == Field(NormalizeColumns(raw), raw.rows[i], "meter_id")
              && r.value[i].serialNumber == r.value[i].meterId
              && r.value[i].servicePointId == Null
              && r.value[i].installedAt == Null && r.value[i].updatedAt == Null
  {
    MapRows(raw, Utility1MeterColumns, (df, row) => Utility1Meter(df, row, tag))
  }

  function Utility2Meter(df: RawTable, row: seq<Cell>, tag: Cell): Meter {
    Meter(
      utilityId := tag,
      meterId := Field(df, row, "meter_id"),
      serialNumber := Field(df, row, "meter_number"),
      meterType := Field(df, row, "meter_type"),
      meterCategory := Field(df, row, "meter_channel"),
      servicePointId := Field(df, row, "premise_id"),
      installedAt := Field(df, row, "installed_at"),
      removedAt := Field(df, row, "removed_at"),
      createdAt := Field(df, row, "created"),
      updatedAt := Field(df, row, "updated"))
  }

  /** Utility 2 meters: the service point link is the premise id. */
  function StandardizeUtility2Meters(raw: RawTable, tag: Cell): (r: Result<seq<Meter>, string>)
    ensures r.Err? <==> exists c :: c in Utility2MeterColumns && c !in NormalizeColumns(raw).columns
    ensures r.Ok? ==> |r.value| == |raw.rows|
    ensures r.Ok? ==> forall i :: 0 <= i < |raw.rows| ==>
              && r.value[i].utilityId == tag
              && r.value[i].meterId == Field(NormalizeColumns(raw), raw.rows[i], "meter_id")
              && r.value[i].serialNumber == Field(NormalizeColumns(raw), raw.rows[i], "meter_number")
              && r.value[i].servicePointId == Field(NormalizeColumns(raw), raw.rows[i], "premise_id")
  {
    MapRows(raw, Utility2MeterColumns, (df, row) => Utility2Meter(df, row, tag))
  }

  function MeterKey(m: Meter): seq<Cell> {
    [m.utilityId, m.meterId]
  }

  /** The fallback tag of a meter or reading: the service point id, or the
      meter id when that is null, as a string; UTILITY1 exactly when it starts
      with "SP-" or "MTR-". */
  function IdPrefixTag(servicePointId: Cell, meterId: Cell): (t: Cell)
    ensures t == Str(Utility1) || t == Str(Utility2)
    ensures var id := ToStr(if servicePointId != Null then servicePointId else meterId);
            t == Str(Utility1) <==> StartsWith(id, "SP-") || StartsWith(id, "MTR-")
  {
    var id := ToStr(if servicePointId != Null then servicePointId else meterId);
    if StartsWith(id, "SP-") || StartsWith(id, "MTR-") then Str(Utility1) else Str(Utility2)
  }

  function FillMeterTag(m: Meter): Meter {
    if m.utilityId == Null then m.(utilityId := IdPrefixTag(m.servicePointId, m.meterId)) else m
  }

  /** Concatenate (utility 1 first), keep the first row of every
      `(utility_id, meter_id)`, then fill a null `utility_id` from the id
      prefixes. */
  function CombineMeters(u1: seq<Meter>, u2: seq<Meter>): (r: seq<Meter>)
    ensures var d := Dedup(u1 + u2, MeterKey);
      && |r| == |d|
      && forall i :: 0 <= i < |r| ==>
           && r[i] == d[i].(utilityId := r[i].utilityId)
           && r[i].utilityId != Null
           && (d[i].utilityId != Null ==> r[i].utilityId == d[i].utilityId)
           && (d[i].utilityId == Null ==> r[i].utilityId == IdPrefixTag(d[i].servicePointId, d[i].meterId))
  {
    var d := Dedup(u1 + u2, MeterKey);
    seq(|d|, i requires 0 <= i < |d| => FillMeterTag(d[i]))
  }

  /** `standardize_meters`. */
  function StandardizeMeters(raw: RawAll, tags: Tags): (r: Result<seq<Meter>, string>)
    ensures r.Ok? <==> StandardizeUtility1Meters(raw.utility1.meters, tags.utility1).Ok?
                       && StandardizeUtility2Meters(raw.utility2.meters, tags.utility2).Ok?
    ensures r.Ok? ==> forall i :: 0 <= i < |r.value| ==> r.value[i].utilityId != Null
  {
    match StandardizeUtility1Meters(raw.utility1.meters, tags.utility1)
    case Err(e) => Err(e)
    case Ok(u1) =>
      match StandardizeUtility2Meters(raw.utility2.meters, tags.utility2)
      case Err(e) => Err(e)
      case Ok(u2) => Ok(CombineMeters(u1, u2))
  }

  /** When every row already carries a tag, reconciling is exactly
      first-wins duplicate removal: the fallback changes nothing. */
  lemma CombineTaggedMeters(u1: seq<Meter>, u2: seq<Meter>)
    requires forall m :: m in u1 + u2 ==> m.utilityId != Null
    ensures CombineMeters(u1, u2) == Dedup(u1 + u2, MeterKey)
  {
    var d := Dedup(u1 + u2, MeterKey);
    var r := CombineMeters(u1, u2);
    forall i | 0 <= i < |d| ensures r[i] == d[i] {
      assert d[i] in u1 + u2;
    }
  }

  /** With every row tagged by its mapper, the reconciled meters are unique on
      `(utility_id, meter_id)` and are exactly the first row of every key,
      utility 1 rows first. */
  lemma StandardizedMetersUnique(raw: RawAll)
    requires StandardizeMeters(raw, Intended).Ok?
    ensures var u1 := StandardizeUtility1Meters(raw.utility1.meters, Intended.utility1).value;
            var u2 := StandardizeUtility2Meters(raw.utility2.meters, Intended.utility2).value;
            StandardizeMeters(raw, Intended).value == Dedup(u1 + u2, MeterKey)
    ensures UniqueKeys(StandardizeMeters(raw, Intended).value, MeterKey)
  {
    var u1 := StandardizeUtility1Meters(raw.utility1.meters, Intended.utility1).value;
    var u2 := StandardizeUtility2Meters(raw.utility2.meters, Intended.utility2).value;
    assert StandardizeMeters(raw, Intended).value == CombineMeters(u1, u2);
    forall m: Meter | m in u1 + u2 ensures m.utilityId != Null {
      if m in u1 {
        var i :| 0 <= i < |u1| && u1[i] == m;
      } else {
        var i :| 0 <= i < |u2| && u2[i] == m;
      }
    }
    CombineTaggedMeters(u1, u2);
  }

  function MeterTags(s: seq<Meter>): seq<Cell> {
    seq(|s|, i requires 0 <= i < |s| => s[i].utilityId)
  }

  /** After reconciliation no `(utility_id, meter_id)` occurs twice, provided
      the mappers tagged every row or none. */
  lemma CombinedMetersUnique(u1: seq<Meter>, u2: seq<Meter>)
    requires UniformTags(MeterTags(u1 + u2))
    ensures UniqueKeys(CombineMeters(u1, u2), MeterKey)
  {
    var s := u1 + u2;
    var d := Dedup(s, MeterKey);
    var r := CombineMeters(u1, u2);
    forall i, j | 0 <= i < j < |r| ensures MeterKey(r[i]) != MeterKey(r[j]) {
      assert MeterKey(d[i]) != MeterKey(d[j]);
      assert d[i] in s && d[j] in s;
      var a :| 0 <= a < |s| && s[a] == d[i];
      var b :| 0 <= b < |s| && s[b] == d[j];
      assert MeterTags(s)[a] == d[i].utilityId && MeterTags(s)[b] == d[j].utilityId;
      if d[i].utilityId == Null {
        assert d[j].utilityId == Null;
        assert d[i].meterId != d[j].meterId;
        assert r[i].meterId == d[i].meterId && r[j].meterId == d[j].meterId;
      } else {
        assert d[j].utilityId != Null;
        assert r[i] == d[i] && r[j] == d[j];
      }
    }
  }

  /** The reconciled meters are unique on `(utility_id, meter_id)` whether
      the mappers tag their rows or not. */
  lemma StandardizedMetersUniqueEitherPolicy(raw: RawAll, tags: Tags)
    requires (tags.utility1 == Null) == (tags.utility2 == Null)
    requires StandardizeMeters(raw, tags).Ok?
    ensures UniqueKeys(StandardizeMeters(raw, tags).value, MeterKey)
  {
    var u1 := StandardizeUtility1Meters(raw.utility1.meters, tags.utility1).value;
    var u2 := StandardizeUtility2Meters(raw.utility2.meters, tags.utility2).value;
    assert StandardizeMeters(raw, tags).value == CombineMeters(u1, u2);
    var ts := MeterTags(u1 + u2);
    forall i | 0 <= i < |ts| ensures (ts[i] == Null) == (tags.utility1 == Null) {
      if i < |u1| { assert (u1 + u2)[i] == u1[i]; } else { assert (u1 + u2)[i] == u2[i - |u1|]; }
    }
    CombinedMetersUnique(u1, u2);
  }

  // ---------------------------------------------------------------------
  // Interval readings
  // ---------------------------------------------------------------------

  datatype Interval = Interval(
    utilityId: Cell, servicePointId: Cell, meterId: Cell, intervalStartTs: Cell,
    durationSeconds: Cell, value: Cell, quality: Cell, channel: Cell,
    lastUpdateTime: Cell, exportedAt: Cell, intervalEndTs: Cell)

  /** A duration that is not a number counts as zero seconds. */
  function DurationOrZero(c: Cell): int {
    if c.Num? then c.n else 0
  }

  /** The derived end: start plus the duration (zero when the duration is
      null), and null when the start is null. */
  predicate EndConsistent(iv: Interval) {
    && (iv.durationSeconds.Null? || iv.durationSeconds.Num?)
    && (iv.intervalStartTs.Null? || iv.intervalStartTs.Stamp?)
    && iv.intervalEndTs == (if iv.intervalStartTs.Stamp?
                            then Stamp(iv.intervalStartTs.secs + DurationOrZero(iv.durationSeconds))
                            else Null)
  }

  /** `_add_interval_end`: the start is parsed as a timestamp and the end is
      derived from it; every other column is kept. */
  function AddIntervalEnd(iv: Interval, p: Parsers): (r: Interval)
    ensures r == iv.(intervalStartTs := r.intervalStartTs, intervalEndTs := r.intervalEndTs)
    ensures r.intervalStartTs == ToDatetime(iv.intervalStartTs, p)
    ensures iv.durationSeconds.Null? || iv.durationSeconds.Num? ==> EndConsistent(r)
  {
    var start := ToDatetime(iv.intervalStartTs, p);
    var duration := match ToNumeric(iv.durationSeconds, p) case Num(n) => n case _ => 0;
    iv.(intervalStartTs := start, intervalEndTs := if start.Stamp? then Stamp(start.secs + duration) else Null)
  }

  /** `_add_interval_end` over a whole table. */
  function AddEnds(s: seq<Interval>, p: Parsers): (r: seq<Interval>)
    ensures |r| == |s|
    ensures forall i :: 0 <= i < |s| ==> r[i] == AddIntervalEnd(s[i], p)
  {
    seq(|s|, i requires 0 <= i < |s| => AddIntervalEnd(s[i], p))
  }

  const Utility1IntervalColumns := ["service_delivery_point_id", "meter_id", "timestamp", "duration",
                                    "value", "quality", "channel"]
  const Utility2IntervalColumns := ["meter_id", "timestamp", "duration", "value", "quality", "channel"]

  function Utility1Reading(df: RawTable, row: seq<Cell>, tag: Cell, p: Parsers): Interval {
    Interval(
      utilityId := tag,
      servicePointId := Field(df, row, "service_delivery_point_id"),
      meterId := Field(df, row, "meter_id"),
      intervalStartTs := Field(df, row, "timestamp"),
      durationSeconds := ToNumeric(Field(df, row, "duration"), p),
      value := ToNumeric(Field(df, row, "value"), p),
      quality := Field(df, row, "quality"),
      channel := Field(df, row, "channel"),
      lastUpdateTime := Field(df, row, "last_update_time"),
      exportedAt := Field(df, row, "exported_at"),
      intervalEndTs := Null)
  }

  /** Utility 1 readings: one record per raw row, with its service point
      taken from service_delivery_point_id and a consistent derived end. */
  function StandardizeUtility1Intervals(raw: RawTable, tag: Cell, p: Parsers): (r: Result<seq<Interval>, string>)
    ensures r.Err? <==> exists c :: c in Utility1IntervalColumns && c !in NormalizeColumns(raw).columns
    ensures r.Ok? ==> |r.value| == |raw.rows|
    ensures r.Ok? ==> forall i :: 0 <= i < |raw.rows| ==>
              var df := NormalizeColumns(raw);
              && r.value[i].utilityId == tag
              && r.value[i].servicePointId == Field(df, raw.rows[i], "service_delivery_point_id")
              && r.value[i].meterId == Field(df, raw.rows[i], "meter_id")
              && r.value[i].intervalStartTs == ToDatetime(Field(df, raw.rows[i], "timestamp"), p)
              && r.value[i].durationSeconds == ToNumeric(Field(df, raw.rows[i], "duration"), p)
              && r.value[i].value == ToNumeric(Field(df, raw.rows[i], "value"), p)
              && EndConsistent(r.value[i])
  {
    match MapRows(raw, Utility1IntervalColumns, (df, row) => Utility1Reading(df, row, tag, p))
    case Err(e) => Err(e)
    case Ok(base) => Ok(AddEnds(base, p))
  }

  function Utility2Reading(df: RawTable, row: seq<Cell>, tag: Cell, p: Parsers): Interval {
    Interval(
      utilityId := tag,
      servicePointId := Null,
      meterId := Field(df, row, "meter_id"),
      intervalStartTs := Field(df, row, "timestamp"),
      durationSeconds := ToNumeric(Field(df, row, "duration"), p),
      value := ToNumeric(Field(df, row, "value"), p),
      quality := Field(df, row, "quality"),
      channel := Field(df, row, "channel"),
      lastUpdateTime := Null,
      exportedAt := Null,
      intervalEndTs := Null)
  }

  predicate IsUtility2(m: Meter) {
    m.utilityId == Str(Utility2)
  }

  /** The standardized meters tagged UTILITY2, in order; unique keys stay
      unique. */
  function Utility2Meters(meters: seq<Meter>): (r: seq<Meter>)
    ensures forall m :: m in r <==> m in meters && m.utilityId == Str(Utility2)
    ensures UniqueKeys(meters, MeterKey) ==> UniqueKeys(r, MeterKey)
  {
    assert UniqueKeys(meters, MeterKey) ==> UniqueKeys(Filter(meters, IsUtility2), MeterKey) by {
      if UniqueKeys(meters, MeterKey) {
        FilterUnique(meters, IsUtility2, MeterKey);
      }
    }
    Filter(meters, IsUtility2)
  }

  function ReadingMeterKey(iv: Interval): seq<Cell> {
    [iv.utilityId, iv.meterId]
  }

  function Inherit(iv: Interval, m: Meter): Interval {
    iv.(servicePointId := m.servicePointId)
  }

  function Unlinked(iv: Interval): Interval {
    iv.(servicePointId := Null)
  }

  /** Utility 2 readings left-joined to the UTILITY2 meters on
      `(utility_id, meter_id)`, taking the meter's service point id. */
  function LinkServicePoints(readings: seq<Interval>, meters: seq<Meter>): (r: seq<Interval>)
    ensures |r| >= |readings|
  {
    LeftJoin(readings, Utility2Meters(meters), ReadingMeterKey, MeterKey, Inherit, Unlinked)
  }

  /** Linking loses no reading and invents none: every reading comes out
      with the service point of a UTILITY2 meter of its `(utility_id,
      meter_id)`, or unlinked when there is no such meter; and every output
      reading is one of these. */
  lemma LinkedReadings(readings: seq<Interval>, meters: seq<Meter>)
    ensures var r := LinkServicePoints(readings, meters);
            forall i :: 0 <= i < |readings| ==>
              Yields(r, readings[i], Utility2Meters(meters), ReadingMeterKey, MeterKey, Inherit, Unlinked)
    ensures var r := LinkServicePoints(readings, meters);
            forall j :: 0 <= j < |r| ==>
              exists i :: 0 <= i < |readings| &&
                          JoinedFrom(r[j], readings[i], Utility2Meters(meters), ReadingMeterKey, MeterKey, Inherit, Unlinked)
  {
    LeftJoinComplete(readings, Utility2Meters(meters), ReadingMeterKey, MeterKey, Inherit, Unlinked);
    LeftJoinSound(readings, Utility2Meters(meters), ReadingMeterKey, MeterKey, Inherit, Unlinked);
  }

  /** With meters unique on their key, linking keeps the readings one for one
      and in order; a reading takes the service point id of the UTILITY2
      meter with its `(utility_id, meter_id)`, or null when there is none;
      nothing else changes. */
  lemma Utility2ReadingsInheritServicePoint(readings: seq<Interval>, meters: seq<Meter>)
    requires UniqueKeys(meters, MeterKey)
    ensures var r := LinkServicePoints(readings, meters);
      && |r| == |readings|
      && forall i :: 0 <= i < |readings| ==>
           && r[i] == readings[i].(servicePointId := r[i].servicePointId)
           && (forall m :: m in meters && m.utilityId == Str(Utility2) && MeterKey(m) == ReadingMeterKey(readings[i])
                 ==> r[i].servicePointId == m.servicePointId)
           && ((forall m :: m in meters && m.utilityId == Str(Utility2) ==> MeterKey(m) != ReadingMeterKey(readings[i]))
                 ==> r[i].servicePointId == Null)
  {
    var u2 := Utility2Meters(meters);
    LeftJoinOfUnique(readings, u2, ReadingMeterKey, MeterKey, Inherit, Unlinked);
    var r := LinkServicePoints(readings, meters);
    forall i | 0 <= i < |readings|
      ensures forall m :: m in meters && m.utilityId == Str(Utility2) && MeterKey(m) == ReadingMeterKey(readings[i])
                 ==> r[i].servicePointId == m.servicePointId
      ensures (forall m :: m in meters && m.utilityId == Str(Utility2) ==> MeterKey(m) != ReadingMeterKey(readings[i]))
                 ==> r[i].servicePointId == Null
    {
      var k := ReadingMeterKey(readings[i]);
      match Lookup(k, u2, MeterKey)
      case Some(found) =>
        forall m | m in meters && m.utilityId == Str(Utility2) && MeterKey(m) == k ensures m == found {
          var a :| 0 <= a < |u2| && u2[a] == m;
          var b :| 0 <= b < |u2| && u2[b] == found;
          assert MeterKey(u2[a]) == MeterKey(u2[b]);
        }
      case None =>
        forall m | m in meters && m.utilityId == Str(Utility2) ensures MeterKey(m) != k {
          var a :| 0 <= a < |u2| && u2[a] == m;
        }
    }
  }

  /** As written, utility 2 readings carry a null tag while every meter they
      are joined against is tagged UTILITY2, so no reading finds its meter and
      every one keeps a null service point id. */
  lemma Utility2ReadingsUnlinkedAsWritten(readings: seq<Interval>, meters: seq<Meter>)
    requires forall i :: 0 <= i < |readings| ==> readings[i].utilityId == Null
    ensures var r := LinkServicePoints(readings, meters);
      && |r| == |readings|
      && forall i :: 0 <= i < |r| ==> r[i] == readings[i].(servicePointId := Null)
  {
    var u2 := Utility2Meters(meters);
    forall i, j | 0 <= i < |readings| && 0 <= j < |u2| ensures ReadingMeterKey(readings[i]) != MeterKey(u2[j]) {
      assert u2[j] in u2;
      assert MeterKey(u2[j])[0] == Str(Utility2);
    }
    LeftJoinNoMatches(readings, u2, ReadingMeterKey, MeterKey, Inherit, Unlinked);
  }

  /** The utility 2 readings before linking: one per raw row, each carrying
      the mapper's tag and a numeric or null duration. */
  function Utility2Base(raw: RawTable, tag: Cell, p: Parsers): (r: Result<seq<Interval>, string>)
    ensures r.Err? <==> exists c :: c in Utility2IntervalColumns && c !in NormalizeColumns(raw).columns
    ensures r.Ok? ==> |r.value| == |raw.rows|
    ensures r.Ok? ==> forall i :: 0 <= i < |r.value| ==>
              (r.value[i].utilityId == tag && (r.value[i].durationSeconds.Null? || r.value[i].durationSeconds.Num?))
    ensures r.Ok? ==> forall i :: 0 <= i < |raw.rows| ==>
              var df := NormalizeColumns(raw);
              && r.value[i].servicePointId == Null
              && r.value[i].meterId == Field(df, raw.rows[i], "meter_id")
              && r.value[i].intervalStartTs == Field(df, raw.rows[i], "timestamp")
              && r.value[i].durationSeconds == ToNumeric(Field(df, raw.rows[i], "duration"), p)
              && r.value[i].value == ToNumeric(Field(df, raw.rows[i], "value"), p)
              && r.value[i].quality == Field(df, raw.rows[i], "quality")
              && r.value[i].channel == Field(df, raw.rows[i], "channel")
  {
    MapRows(raw, Utility2IntervalColumns, (df, row) => Utility2Reading(df, row, tag, p))
  }

  /** Utility 2 readings: base records without a service point, linked to the
      meters, then given their derived end. */
  function StandardizeUtility2Intervals(raw: RawTable, meters: seq<Meter>, tag: Cell, p: Parsers): (r: Result<seq<Interval>, string>)
    ensures r.Err? <==> exists c :: c in Utility2IntervalColumns && c !in NormalizeColumns(raw).columns
    ensures r.Ok? ==> |r.value| >= |raw.rows|
    ensures r.Ok? ==> forall i :: 0 <= i < |r.value| ==> r.value[i].utilityId == tag && EndConsistent(r.value[i])
  {
    match Utility2Base(raw, tag, p)
    case Err(e) => Err(e)
    case Ok(base) =>
      var linked := LinkServicePoints(base, meters);
      LinkKeepsTagAndDuration(base, meters, tag);
      var r := AddEnds(linked, p);
      assert forall i :: 0 <= i < |r| ==> r[i].utilityId == tag && EndConsistent(r[i]) by {
        forall i | 0 <= i < |r| ensures r[i].utilityId == tag && EndConsistent(r[i]) {
          assert r[i] == AddIntervalEnd(linked[i], p);
        }
      }
      Ok(r)
  }

  /** With meters unique on their key, the utility 2 readings are the raw
      rows one for one and in order: each carries the mapper's tag, the
      row's meter id, parsed start, `to_numeric` duration and value,
      quality and channel, a consistent end, and the service point of the
      UTILITY2 meter with its `(utility_id, meter_id)`, or null when there
      is none. */
  lemma Utility2IntervalsFromRows(raw: RawTable, meters: seq<Meter>, tag: Cell, p: Parsers)
    requires UniqueKeys(meters, MeterKey)
    requires StandardizeUtility2Intervals(raw, meters, tag, p).Ok?
    ensures var r := StandardizeUtility2Intervals(raw, meters, tag, p).value;
            var df := NormalizeColumns(raw);
      && |r| == |raw.rows|
      && forall i :: 0 <= i < |raw.rows| ==>
           && r[i].utilityId == tag
           && r[i].meterId == Field(df, raw.rows[i], "meter_id")
           && r[i].intervalStartTs == ToDatetime(Field(df, raw.rows[i], "timestamp"), p)
           && r[i].durationSeconds == ToNumeric(Field(df, raw.rows[i], "duration"), p)
           && r[i].value == ToNumeric(Field(df, raw.rows[i], "value"), p)
           && r[i].quality == Field(df, raw.rows[i], "quality")
           && r[i].channel == Field(df, raw.rows[i], "channel")
           && EndConsistent(r[i])
           && (forall m :: m in meters && m.utilityId == Str(Utility2) && MeterKey(m) == [tag, r[i].meterId]
                 ==> r[i].servicePointId == m.servicePointId)
           && ((forall m :: m in meters && m.utilityId == Str(Utility2) ==> MeterKey(m) != [tag, r[i].meterId])
                 ==> r[i].servicePointId == Null)
  {
    var r := StandardizeUtility2Intervals(raw, meters, tag, p).value;
    var base := Utility2Base(raw, tag, p).value;
    var linked := LinkServicePoints(base, meters);
    assert r == AddEnds(linked, p);
    Utility2ReadingsInheritServicePoint(base, meters);
    forall i | 0 <= i < |raw.rows|
      ensures r[i] == AddIntervalEnd(linked[i], p)
      ensures linked[i] == base[i].(servicePointId := linked[i].servicePointId)
      ensures ReadingMeterKey(base[i]) == [tag, r[i].meterId]
    {
    }
  }

  lemma {:induction false} LinkKeepsTagAndDuration(readings: seq<Interval>, meters: seq<Meter>, tag: Cell)
    requires forall i :: 0 <= i < |readings| ==>
               (readings[i].utilityId == tag && (readings[i].durationSeconds.Null? || readings[i].durationSeconds.Num?))
    ensures var r := LinkServicePoints(readings, meters);
            forall i :: 0 <= i < |r| ==>
              (r[i].utilityId == tag && (r[i].durationSeconds.Null? || r[i].durationSeconds.Num?))
  {
    if readings != [] {
      var t := readings[1..];
      assert forall i :: 0 <= i < |t| ==> t[i] == readings[i + 1];
      LinkKeepsTagAndDuration(t, meters, tag);
      var u2 := Utility2Meters(meters);
      var ms := Matches(ReadingMeterKey(readings[0]), u2, MeterKey);
      var head := JoinOne(readings[0], ms, Inherit, Unlinked);
      var rest := LinkServicePoints(t, meters);
      var r := LinkServicePoints(readings, meters);
      assert r == head + rest;
      forall i | 0 <= i < |r| ensures r[i].utilityId == tag && (r[i].durationSeconds.Null? || r[i].durationSeconds.Num?) {
        if i < |head| {
          if ms == [] {
            assert r[i] == Unlinked(readings[0]);
          } else {
            assert r[i] == Inherit(readings[0], ms[i]);
          }
        } else {
          assert r[i] == rest[i - |head|];
        }
      }
    }
  }

  function IntervalKey(iv: Interval): seq<Cell> {
    [iv.utilityId, iv.servicePointId, iv.meterId, iv.intervalStartTs]
  }

  function FillIntervalTag(iv: Interval): Interval {
    if iv.utilityId == Null then iv.(utilityId := IdPrefixTag(iv.servicePointId, iv.meterId)) else iv
  }

  /** Concatenate (utility 1 first), keep the first reading of every
      `(utility_id, service_point_id, meter_id, interval_start_ts)` (the
      channel is not part of the key), then fill a null `utility_id` from the
      id prefixes. */
  function CombineIntervals(u1: seq<Interval>, u2: seq<Interval>): (r: seq<Interval>)
    ensures var d := Dedup(u1 + u2, IntervalKey);
      && |r| == |d|
      && forall i :: 0 <= i < |r| ==>
           && r[i] == d[i].(utilityId := r[i].utilityId)
           && r[i].utilityId != Null
           && (d[i].utilityId != Null ==> r[i].utilityId == d[i].utilityId)
           && (d[i].utilityId == Null ==> r[i].utilityId == IdPrefixTag(d[i].servicePointId, d[i].meterId))
  {
    var d := Dedup(u1 + u2, IntervalKey);
    seq(|d|, i requires 0 <= i < |d| => FillIntervalTag(d[i]))
  }

  /** `standardize_intervals`: meters first (their errors come first), then
      utility 1 readings, then utility 2 readings linked to those meters. */
  function StandardizeIntervals(raw: RawAll, tags: Tags, p: Parsers): (r: Result<seq<Interval>, string>)
    ensures r.Ok? ==> StandardizeMeters(raw, tags).Ok?
    ensures r.Ok? <==> && StandardizeMeters(raw, tags).Ok?
                       && StandardizeUtility1Intervals(raw.utility1.intervals, tags.utility1, p).Ok?
                       && StandardizeUtility2Intervals(raw.utility2.intervals, StandardizeMeters(raw, tags).value,
                                                       tags.utility2, p).Ok?
    ensures r.Ok? ==> r.value == CombineIntervals(
                        StandardizeUtility1Intervals(raw.utility1.intervals, tags.utility1, p).value,
                        StandardizeUtility2Intervals(raw.utility2.intervals, StandardizeMeters(raw, tags).value,
                                                     tags.utility2, p).value)
    ensures r.Ok? ==> forall i :: 0 <= i < |r.value| ==> r.value[i].utilityId != Null
  {
    match StandardizeMeters(raw, tags)
    case Err(e) => Err(e)
    case Ok(meters) =>
      match StandardizeUtility1Intervals(raw.utility1.intervals, tags.utility1, p)
      case Err(e) => Err(e)
      case Ok(u1) =>
        match StandardizeUtility2Intervals(raw.utility2.intervals, meters, tags.utility2, p)
        case Err(e) => Err(e)
        case Ok(u2) => Ok(CombineIntervals(u1, u2))
  }

  /** Reconciling keeps every reading's derived end consistent: the fill
      only touches `utility_id`. */
  lemma CombinedEndConsistent(u1: seq<Interval>, u2: seq<Interval>)
    requires forall i :: 0 <= i < |u1| ==> EndConsistent(u1[i])
    requires forall j :: 0 <= j < |u2| ==> EndConsistent(u2[j])
    ensures forall iv :: iv in CombineIntervals(u1, u2) ==> EndConsistent(iv)
  {
    var s := u1 + u2;
    var d := Dedup(s, IntervalKey);
    var r := CombineIntervals(u1, u2);
    forall i | 0 <= i < |r| ensures EndConsistent(r[i]) {
      assert d[i] in s;
      var a :| 0 <= a < |s| && s[a] == d[i];
      if a < |u1| { assert s[a] == u1[a]; } else { assert s[a] == u2[a - |u1|]; }
    }
  }

  /** Every standardized reading has a consistent derived end: end = start +
      duration when both are present, end = start when the duration is null,
      and a null end when the start is null. */
  lemma StandardizedIntervalsEndConsistent(raw: RawAll, tags: Tags, p: Parsers)
    requires StandardizeIntervals(raw, tags, p).Ok?
    ensures forall iv :: iv in StandardizeIntervals(raw, tags, p).value ==> EndConsistent(iv)
  {
    var meters := StandardizeMeters(raw, tags).value;
    var u1 := StandardizeUtility1Intervals(raw.utility1.intervals, tags.utility1, p).value;
    var u2 := StandardizeUtility2Intervals(raw.utility2.intervals, meters, tags.utility2, p).value;
    assert StandardizeIntervals(raw, tags, p).value == CombineIntervals(u1, u2);
    CombinedEndConsistent(u1, u2);
  }

  function IntervalTags(s: seq<Interval>): seq<Cell> {
    seq(|s|, i requires 0 <= i < |s| => s[i].utilityId)
  }

  /** After reconciliation no `(utility_id, service_point_id, meter_id,
      interval_start_ts)` occurs twice, provided the mappers tagged every
      reading or none. */
  lemma CombinedIntervalsUnique(u1: seq<Interval>, u2: seq<Interval>)
    requires UniformTags(IntervalTags(u1 + u2))
    ensures UniqueKeys(CombineIntervals(u1, u2), IntervalKey)
  {
    var s := u1 + u2;
    var d := Dedup(s, IntervalKey);
    var r := CombineIntervals(u1, u2);
    forall i, j | 0 <= i < j < |r| ensures IntervalKey(r[i]) != IntervalKey(r[j]) {
      assert IntervalKey(d[i]) != IntervalKey(d[j]);
      assert d[i] in s && d[j] in s;
      var a :| 0 <= a < |s| && s[a] == d[i];
      var b :| 0 <= b < |s| && s[b] == d[j];
      assert IntervalTags(s)[a] == d[i].utilityId && IntervalTags(s)[b] == d[j].utilityId;
      if d[i].utilityId == Null {
        assert d[j].utilityId == Null;
        assert IntervalKey(d[i])[1..] != IntervalKey(d[j])[1..];
        assert IntervalKey(r[i])[1..] == IntervalKey(d[i])[1..];
        assert IntervalKey(r[j])[1..] == IntervalKey(d[j])[1..];
      } else {
        assert d[j].utilityId != Null;
        assert r[i] == d[i] && r[j] == d[j];
      }
    }
  }

  /** The standardized readings are unique on `(utility_id,
      service_point_id, meter_id, interval_start_ts)` whether the mappers tag
      their rows or not. */
  lemma StandardizedIntervalsUnique(raw: RawAll, tags: Tags, p: Parsers)
    requires (tags.utility1 == Null) == (tags.utility2 == Null)
    requires StandardizeIntervals(raw, tags, p).Ok?
    ensures UniqueKeys(StandardizeIntervals(raw, tags, p).value, IntervalKey)
  {
    var meters := StandardizeMeters(raw, tags).value;
    var u1 := StandardizeUtility1Intervals(raw.utility1.intervals, tags.utility1, p).value;
    var u2 := StandardizeUtility2Intervals(raw.utility2.intervals, meters, tags.utility2, p).value;
    assert StandardizeIntervals(raw, tags, p).value == CombineIntervals(u1, u2);
    var ts := IntervalTags(u1 + u2);
    forall i | 0 <= i < |ts| ensures (ts[i] == Null) == (tags.utility1 == Null) {
      if i < |u1| {
        assert (u1 + u2)[i] == u1[i];
        assert u1[i].utilityId == tags.utility1;
      } else {
        assert (u1 + u2)[i] == u2[i - |u1|];
      }
    }
    CombinedIntervalsUnique(u1, u2);
  }

  /** When every reading already carries a tag, reconciling is exactly
      first-wins duplicate removal: the fallback changes nothing. */
  lemma CombineTaggedIntervals(u1: seq<Interval>, u2: seq<Interval>)
    requires forall i :: 0 <= i < |u1| ==> u1[i].utilityId != Null
    requires forall j :: 0 <= j < |u2| ==> u2[j].utilityId != Null
    ensures CombineIntervals(u1, u2) == Dedup(u1 + u2, IntervalKey)
  {
    var s := u1 + u2;
    var d := Dedup(s, IntervalKey);
    var r := CombineIntervals(u1, u2);
    forall i | 0 <= i < |d| ensures r[i] == d[i] {
      assert d[i] in s;
      var a :| 0 <= a < |s| && s[a] == d[i];
      if a < |u1| { assert s[a] == u1[a]; } else { assert s[a] == u2[a - |u1|]; }
    }
  }

  /** Readings tagged UTILITY1 and readings tagged UTILITY2 never share a key. */
  lemma TaggedIntervalKeysDisjoint(u1: seq<Interval>, u2: seq<Interval>)
    requires forall i :: 0 <= i < |u1| ==> u1[i].utilityId == Str(Utility1)
    requires forall j :: 0 <= j < |u2| ==> u2[j].utilityId == Str(Utility2)
    ensures KeySet(u1, IntervalKey) !! KeySet(u2, IntervalKey)
  {
    forall k | k in KeySet(u1, IntervalKey) ensures k !in KeySet(u2, IntervalKey) {
      var i :| 0 <= i < |u1| && IntervalKey(u1[i]) == k;
      forall j | 0 <= j < |u2| ensures IntervalKey(u2[j]) != k {
        assert IntervalKey(u2[j])[0] != IntervalKey(u1[i])[0];
      }
    }
  }

  /** With the intended tags, the standardized readings are each utility's
      own first-wins readings, utility 1 first, so no utility 2 reading is
      lost to a utility 1 key. The meters are unique on their key, so the
      utility 2 readings are the raw rows one for one
      (Utility2IntervalsFromRows), as the utility 1 readings are. */
  lemma StandardizedReadingsKept(raw: RawAll, p: Parsers)
    requires StandardizeIntervals(raw, Intended, p).Ok?
    ensures var meters := StandardizeMeters(raw, Intended).value;
            var u1 := StandardizeUtility1Intervals(raw.utility1.intervals, Intended.utility1, p).value;
            var u2 := StandardizeUtility2Intervals(raw.utility2.intervals, meters, Intended.utility2, p).value;
      && UniqueKeys(meters, MeterKey)
      && |u1| == |raw.utility1.intervals.rows|
      && |u2| == |raw.utility2.intervals.rows|
      && StandardizeIntervals(raw, Intended, p).value == Dedup(u1, IntervalKey) + Dedup(u2, IntervalKey)
  {
    var meters := StandardizeMeters(raw, Intended).value;
    var u1 := StandardizeUtility1Intervals(raw.utility1.intervals, Intended.utility1, p).value;
    var u2 := StandardizeUtility2Intervals(raw.utility2.intervals, meters, Intended.utility2, p).value;
    StandardizedMetersUniqueEitherPolicy(raw, Intended);
    Utility2IntervalsFromRows(raw.utility2.intervals, meters, Intended.utility2, p);
    assert forall i :: 0 <= i < |u1| ==> u1[i].utilityId == Str(Utility1);
    assert forall j :: 0 <= j < |u2| ==> u2[j].utilityId == Str(Utility2);
    CombineTaggedIntervals(u1, u2);
    TaggedIntervalKeysDisjoint(u1, u2);
    DedupDisjoint(u1, u2, IntervalKey);
  }

  // ---------------------------------------------------------------------
  // Scenarios
  // ---------------------------------------------------------------------

  function Reading(tag: Cell, sp: string, meter: string, start: int, channel: string): Interval {
    Interval(tag, Str(sp), Str(meter), Stamp(start), Num(900), Num(1), Null, Str(channel), Null, Null, Stamp(start + 900))
  }

  /** Two channels of one meter at the same instant collapse into the first
      reading, because the channel is not part of the duplicate key. */
  lemma ChannelsCollapse()
    ensures var a := Reading(Str(Utility1), "SP-1", "MTR-1", 0, "1");
            var b := Reading(Str(Utility1), "SP-1", "MTR-1", 0, "2");
            CombineIntervals([a, b], []) == [a]
  {
    var a := Reading(Str(Utility1), "SP-1", "MTR-1", 0, "1");
    var b := Reading(Str(Utility1), "SP-1", "MTR-1", 0, "2");
    assert [a, b] + [] == [a] + [b];
    DedupSnoc([a], b, IntervalKey);
    DedupSnoc([], a, IntervalKey);
    assert [] + [a] == [a];
  }
}
