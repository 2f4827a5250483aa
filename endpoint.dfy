/** The request-to-classification pipeline of the POST /zscore handler
    `compute_z`, shared by both entry points: table selection, validation in a
    fixed order, in-place coercion of the key column, exact-match lookup, the
    LMS z-score and its classification. */
module Endpoint {
  import opened Wrappers
  import opened Ascii
  import opened Frames
  import opened Scoring

  /** The request body; every field but sex and indicator may be absent. */
  datatype Request = Request(
    sex: string,
    indicator: string,
    years: Option<int>,
    months: Option<int>,
    length: Option<real>,
    weight: Option<real>)

  /** The distinct ways a request is refused. ServerFault stands for an exception
      the handler does not catch (a missing L, M or S column, an unreadable or
      NaN L, M or S value, a division by zero), which the framework answers
      with status 500. */
  datatype Error =
    | UnknownSexOrIndicator
    | MissingAge
    | MissingMonthColumn
    | MissingLength
    | MissingWeight
    | MissingLengthAndWeight
    | NoData
    | ServerFault

  /** The HTTP status of each refusal: the two faults of the data are 500, the
      caller's mistakes 400. */
  function Status(e: Error): (code: nat)
    ensures code == 400 || code == 500
    ensures code == 500 <==> e == MissingMonthColumn || e == ServerFault
  {
    if e == MissingMonthColumn || e == ServerFault then 500 else 400
  }

  /** A classified z-score (unrounded), with the L, M and S it was computed from,
      or the refusal. */
  datatype Outcome = Scored(lms: Lms, z: real, classification: string) | Rejected(error: Error)

  /** A key of the table dictionary: (sex, indicator). */
  type Key = (string, string)

  /** The dictionary key a request selects: sex upper-cased, indicator lower-cased. */
  function TableKey(req: Request): Key
  {
    (Upper(req.sex), Lower(req.indicator))
  }

  /** A request after case normalisation: the dictionary key it selects and the
      fields that the later steps read. */
  datatype Query = Query(key: Key, years: Option<int>, months: Option<int>, length: Option<real>, weight: Option<real>)

  function QueryOf(req: Request): Query
  {
    Query(TableKey(req), req.years, req.months, req.length, req.weight)
  }

  predicate IsAgeIndicator(ind: string)
  {
    ind == "length" || ind == "weight"
  }

  /** Age in months: completed years times twelve plus the additional months. */
  function AgeMonths(years: int, months: int): (total: int)
    ensures 0 <= months < 12 ==> total / 12 == years && total % 12 == months
  {
    years * 12 + months
  }

  /** The measurement scored for the (lower-cased) indicator: the length for
      "length", the weight otherwise. */
  function MeasurementFor(q: Query): Option<real>
  {
    if q.key.1 == "length" then q.length else q.weight
  }

  predicate AllWellFormed(data: map<Key, TableData>)
  {
    forall k :: k in data ==> WellFormed(data[k])
  }

  /** L, M and S of one row, read with `float(row[name].values[0])`; None when a
      column is missing or a value is unreadable or NaN. */
  function RowLms(columns: seq<string>, row: seq<Cell>): Option<Lms>
    requires |row| == |columns|
  {
    if "L" in columns && "M" in columns && "S" in columns then
      match (CellValue(row[IndexOf(columns, "L")]), CellValue(row[IndexOf(columns, "M")]), CellValue(row[IndexOf(columns, "S")]))
      case (Some(l), Some(m), Some(s)) => Some(Lms(l, m, s))
      case _ => None
    else None
  }

  /** Steps 3 to 5 on a table whose key column (index col) is already coerced:
      exact-match lookup, L/M/S extraction, z-score and classification. */
  function Score(t: TableData, col: nat, lookup: real, measurement: real, ind: Indicator, pow: Power): Outcome
    requires WellFormed(t) && col < |t.columns|
  {
    match FirstMatch(t.rows, col, lookup)
    case None => Rejected(NoData)
    case Some(i) =>
      match RowLms(t.columns, t.rows[i])
      case None => Rejected(ServerFault)
      case Some(lms) =>
        if Computable(lms) then
          var z := ZScore(measurement, lms, pow);
          Scored(lms, z, Classify(ind, z))
        else Rejected(ServerFault)
  }

  /** The table with its column col coerced to numbers. */
  function CoerceTable(t: TableData, col: nat): (r: TableData)
    requires WellFormed(t) && col < |t.columns|
    ensures WellFormed(r) && r.columns == t.columns
  {
    TableData(t.columns, CoerceRows(t.rows, col))
  }

  /** The table and the key column a request coerces, if it gets that far: the
      Month column once the age is given, the first column once length and
      weight are given. */
  function CoercedColumn(data: map<Key, TableData>, q: Query): (r: Option<(Key, nat)>)
    requires AllWellFormed(data)
    ensures r.Some? ==> r.value.0 in data && r.value.1 < |data[r.value.0].columns|
    ensures r.Some? ==> r.value.0 == q.key
    ensures r.Some? && IsAgeIndicator(q.key.1) ==>
              "Month" in data[q.key].columns && r.value.1 == IndexOf(data[q.key].columns, "Month")
    ensures r.Some? && !IsAgeIndicator(q.key.1) ==> r.value.1 == 0
  {
    var key := q.key;
    if key !in data then None
    else if IsAgeIndicator(key.1) then
      if q.years.None? || q.months.None? || "Month" !in data[key].columns then None
      else Some((key, IndexOf(data[key].columns, "Month")))
    else if q.length.None? || q.weight.None? then None
    else Some((key, 0))
  }

  /** Steps 1 to 5 for a normalised request. */
  function Answer(data: map<Key, TableData>, q: Query, pow: Power): Outcome
    requires AllWellFormed(data)
  {
    var key := q.key;
    if key !in data then Rejected(UnknownSexOrIndicator)
    else
      var t := data[key];
      var ind := key.1;
      if IsAgeIndicator(ind) then
        if q.years.None? || q.months.None? then Rejected(MissingAge)
        else if "Month" !in t.columns then Rejected(MissingMonthColumn)
        else
          var col := IndexOf(t.columns, "Month");
          match MeasurementFor(q)
          case None => Rejected(if ind == "length" then MissingLength else MissingWeight)
          case Some(meas) =>
            Score(CoerceTable(t, col), col, AgeMonths(q.years.value, q.months.value) as real, meas, IndicatorOf(ind), pow)
      else if q.length.None? || q.weight.None? then Rejected(MissingLengthAndWeight)
      else Score(CoerceTable(t, 0), 0, q.length.value, q.weight.value, IndicatorOf(ind), pow)
  }

  /** The answer of `compute_z` to a request, given the tables as they are when it arrives. */
  function Respond(data: map<Key, TableData>, req: Request, pow: Power): Outcome
    requires AllWellFormed(data)
  {
    Answer(data, QueryOf(req), pow)
  }

  /** The tables after `compute_z` has handled a request: the coerced column
      written back into the selected table, nothing else changed. */
  function AfterRequest(data: map<Key, TableData>, req: Request): (r: map<Key, TableData>)
    requires AllWellFormed(data)
    ensures AllWellFormed(r) && r.Keys == data.Keys
  {
    match CoercedColumn(data, QueryOf(req))
    case None => data
    case Some((k, col)) => data[k := CoerceTable(data[k], col)]
  }

  // ---------------------------------------------------------------------------
  // Properties of the pipeline
  // ---------------------------------------------------------------------------

  /** An unknown (sex, indicator) pair is reported before anything else, and it is
      the only thing reported as such. */
  lemma {:induction false} UnknownPairFirst(data: map<Key, TableData>, req: Request, pow: Power)
    requires AllWellFormed(data)
    ensures Respond(data, req, pow) == Rejected(UnknownSexOrIndicator) <==> TableKey(req) !in data
    ensures TableKey(req) !in data ==> CoercedColumn(data, QueryOf(req)).None?
  {
  }

  /** Sex and indicator are compared after case normalisation: requests that
      differ only in the case of those letters get the same answer and leave
      the tables in the same state. */
  lemma {:induction false} CaseInsensitive(data: map<Key, TableData>, r1: Request, r2: Request, pow: Power)
    requires AllWellFormed(data)
    requires SameUpToCase(r1.sex, r2.sex) && SameUpToCase(r1.indicator, r2.indicator)
    requires r1.years == r2.years && r1.months == r2.months
    requires r1.length == r2.length && r1.weight == r2.weight
    ensures Respond(data, r1, pow) == Respond(data, r2, pow)
    ensures AfterRequest(data, r1) == AfterRequest(data, r2)
  {
    CaseVariantsFoldAlike(r1.sex, r2.sex);
    CaseVariantsFoldAlike(r1.indicator, r2.indicator);
    assert QueryOf(r1) == QueryOf(r2);
  }

  /** The validation order for "length" and "weight": a missing age first, then a
      missing Month column, then a missing measurement; "no data" only when all
      of these are present. Each check decides whatever the later fields hold. */
  lemma {:induction false} AgeValidationOrder(data: map<Key, TableData>, req: Request, pow: Power)
    requires AllWellFormed(data)
    requires TableKey(req) in data && IsAgeIndicator(TableKey(req).1)
    ensures req.years.None? || req.months.None? ==> Respond(data, req, pow) == Rejected(MissingAge)
    ensures req.years.Some? && req.months.Some? && "Month" !in data[TableKey(req)].columns
            ==> Respond(data, req, pow) == Rejected(MissingMonthColumn)
    ensures req.years.Some? && req.months.Some? && "Month" in data[TableKey(req)].columns
            && MeasurementFor(QueryOf(req)).None?
            ==> Respond(data, req, pow) == Rejected(if TableKey(req).1 == "length" then MissingLength else MissingWeight)
    ensures Respond(data, req, pow) == Rejected(NoData)
            ==> req.years.Some? && req.months.Some? && "Month" in data[TableKey(req)].columns
                && MeasurementFor(QueryOf(req)).Some?
  {
  }

  /** The age lookup: with the age, the Month column and the measurement present,
      the answer is "no data" exactly when no coerced Month equals
      years*12 + months, and otherwise it is scored from the FIRST such row. */
  lemma {:induction false} AgeLookup(data: map<Key, TableData>, req: Request, pow: Power)
    requires AllWellFormed(data)
    requires TableKey(req) in data && IsAgeIndicator(TableKey(req).1)
    requires req.years.Some? && req.months.Some? && MeasurementFor(QueryOf(req)).Some?
    requires "Month" in data[TableKey(req)].columns
    ensures var t := data[TableKey(req)];
            var col := IndexOf(t.columns, "Month");
            var rows := CoerceRows(t.rows, col);
            var age := (req.years.value * 12 + req.months.value) as real;
            && (Respond(data, req, pow) == Rejected(NoData) <==> forall j :: 0 <= j < |rows| ==> !Matches(rows[j][col], age))
            && (Respond(data, req, pow).Scored? ==>
                  exists i :: 0 <= i < |rows| && Matches(rows[i][col], age)
                    && (forall j :: 0 <= j < i ==> !Matches(rows[j][col], age))
                    && RowLms(t.columns, rows[i]) == Some(Respond(data, req, pow).lms))
  {
  }

  /** Weight-for-length: a missing length or weight is one combined error; with
      both, the length is matched against the coerced FIRST column and the first
      matching row is scored with the weight as the measurement. */
  lemma {:induction false} WeightForLengthLookup(data: map<Key, TableData>, req: Request, pow: Power)
    requires AllWellFormed(data)
    requires TableKey(req) in data && !IsAgeIndicator(TableKey(req).1)
    ensures Respond(data, req, pow) == Rejected(MissingLengthAndWeight) <==> req.length.None? || req.weight.None?
    ensures req.length.Some? && req.weight.Some? ==>
            var t := data[TableKey(req)];
            var rows := CoerceRows(t.rows, 0);
            && (Respond(data, req, pow) == Rejected(NoData) <==> forall j :: 0 <= j < |rows| ==> !Matches(rows[j][0], req.length.value))
            && (Respond(data, req, pow).Scored? ==>
                  && Respond(data, req, pow).z == ZScore(req.weight.value, Respond(data, req, pow).lms, pow)
                  && exists i :: 0 <= i < |rows| && Matches(rows[i][0], req.length.value)
                       && (forall j :: 0 <= j < i ==> !Matches(rows[j][0], req.length.value))
                       && RowLms(t.columns, rows[i]) == Some(Respond(data, req, pow).lms))
  {
  }

  /** Every scored answer is the LMS z-score of the request's measurement,
      classified for the request's indicator, from a row whose L, M and S make
      the formula defined. */
  lemma {:induction false} ScoredIsLmsScore(data: map<Key, TableData>, req: Request, pow: Power)
    requires AllWellFormed(data)
    requires Respond(data, req, pow).Scored?
    ensures TableKey(req) in data && MeasurementFor(QueryOf(req)).Some?
    ensures var out := Respond(data, req, pow);
            && Computable(out.lms)
            && out.z == ZScore(MeasurementFor(QueryOf(req)).value, out.lms, pow)
            && out.classification == Classify(IndicatorOf(TableKey(req).1), out.z)
  {
  }

  /** A request that passes every check and whose lookup value first matches
      row i of the coerced key column: the Month column against years*12 + months
      for "length" and "weight", the first column against the length for "wfl". */
  predicate Reaches(data: map<Key, TableData>, q: Query, i: nat)
    requires AllWellFormed(data)
  {
    && q.key in data
    && MeasurementFor(q).Some?
    && var t := data[q.key];
       if IsAgeIndicator(q.key.1) then
         && q.years.Some? && q.months.Some? && "Month" in t.columns
         && var col := IndexOf(t.columns, "Month");
            IsFirstMatch(CoerceRows(t.rows, col), col, AgeMonths(q.years.value, q.months.value) as real, i)
       else
         && q.length.Some? && q.weight.Some?
         && IsFirstMatch(CoerceRows(t.rows, 0), 0, q.length.value, i)
  }

  /** Row i of the selected table after its key column is coerced. */
  function ReachedRow(data: map<Key, TableData>, q: Query, i: nat): (row: seq<Cell>)
    requires AllWellFormed(data) && Reaches(data, q, i)
    ensures |row| == |data[q.key].columns|
  {
    var t := data[q.key];
    var col := if IsAgeIndicator(q.key.1) then IndexOf(t.columns, "Month") else 0;
    CoerceRows(t.rows, col)[i]
  }

  /** Once a request reaches its first matching row, that row decides the
      answer: the classified z-score of the measurement when its L, M and S read
      as numbers with M != 0 and L*S != 0, a server fault otherwise. */
  lemma {:induction false} ReachedRowDecides(data: map<Key, TableData>, req: Request, pow: Power, i: nat)
    requires AllWellFormed(data) && Reaches(data, QueryOf(req), i)
    ensures var q := QueryOf(req);
            var lms := RowLms(data[q.key].columns, ReachedRow(data, q, i));
            var meas := MeasurementFor(q).value;
            && (lms.Some? && Computable(lms.value) ==>
                  Respond(data, req, pow)
                  == Scored(lms.value, ZScore(meas, lms.value, pow), Classify(IndicatorOf(q.key.1), ZScore(meas, lms.value, pow))))
            && (lms.None? || !Computable(lms.value) ==> Respond(data, req, pow) == Rejected(ServerFault))
  {
    var q := QueryOf(req);
    var t := data[q.key];
    if IsAgeIndicator(q.key.1) {
      var col := IndexOf(t.columns, "Month");
      FirstMatchFinds(CoerceRows(t.rows, col), col, AgeMonths(q.years.value, q.months.value) as real, i);
    } else {
      FirstMatchFinds(CoerceRows(t.rows, 0), 0, q.length.value, i);
    }
  }

  /** A measurement equal to the median M of the row a request reaches scores 0
      and is classified "Normal", whenever 1 ** L is 1. */
  lemma {:induction false} MedianIsNormal(data: map<Key, TableData>, req: Request, pow: Power, i: nat, lms: Lms)
    requires AllWellFormed(data) && Reaches(data, QueryOf(req), i)
    requires RowLms(data[TableKey(req)].columns, ReachedRow(data, QueryOf(req), i)) == Some(lms)
    requires Computable(lms) && pow(1.0, lms.l) == 1.0
    requires MeasurementFor(QueryOf(req)) == Some(lms.m)
    ensures Respond(data, req, pow) == Scored(lms, 0.0, "Normal")
  {
    ReachedRowDecides(data, req, pow, i);
    MedianScoresZero(lms, pow, IndicatorOf(TableKey(req).1));
  }

  /** Coercion changes only the key column of the selected table: the other tables,
      the header and every other cell stay as they were. */
  lemma {:induction false} CoercionIsLocal(data: map<Key, TableData>, req: Request)
    requires AllWellFormed(data)
    ensures forall k :: k in data && (CoercedColumn(data, QueryOf(req)).None? || k != CoercedColumn(data, QueryOf(req)).value.0)
              ==> AfterRequest(data, req)[k] == data[k]
    ensures CoercedColumn(data, QueryOf(req)).Some? ==>
              var (k, col) := CoercedColumn(data, QueryOf(req)).value;
              && AfterRequest(data, req)[k].columns == data[k].columns
              && |AfterRequest(data, req)[k].rows| == |data[k].rows|
              && forall i, j :: 0 <= i < |data[k].rows| && 0 <= j < |data[k].columns| && j != col
                   ==> AfterRequest(data, req)[k].rows[i][j] == data[k].rows[i][j]
  {
  }

  /** The in-place coercion is never observable: whatever request came before,
      every later request gets the answer it would have got from the tables as
      loaded, and repeating a request changes the tables no further. */
  lemma {:induction false} CoercionUnobservable(data: map<Key, TableData>, first: Request, next: Request, pow: Power)
    requires AllWellFormed(data)
    ensures Respond(AfterRequest(data, first), next, pow) == Respond(data, next, pow)
    ensures AfterRequest(AfterRequest(data, first), first) == AfterRequest(data, first)
  {
    var after := AfterRequest(data, first);
    match CoercedColumn(data, QueryOf(first))
    case None =>
    case Some((k, col)) =>
      CoerceIdempotent(data[k].rows, col);
      assert CoercedColumn(after, QueryOf(first)) == Some((k, col));
      assert CoerceTable(after[k], col) == after[k];
      var key := TableKey(next);
      if key == k {
        SameColumnAfterCoercion(data, first, next);
      }
  }

  /** What a request does to the tables, in terms of its own fields: a "length" or
      "weight" request with years, months and a Month column coerces that column
      of its table, whatever its measurement; a "wfl" request with length and
      weight coerces the first column; every other request leaves all tables as
      they were. */
  lemma {:induction false} RequestUpdatesTable(data: map<Key, TableData>, req: Request)
    requires AllWellFormed(data)
    ensures var k := TableKey(req);
            k in data && IsAgeIndicator(k.1) && req.years.Some? && req.months.Some? && "Month" in data[k].columns
            ==> AfterRequest(data, req)
                == data[k := TableData(data[k].columns, CoerceRows(data[k].rows, IndexOf(data[k].columns, "Month")))]
    ensures var k := TableKey(req);
            k in data && !IsAgeIndicator(k.1) && req.length.Some? && req.weight.Some?
            ==> AfterRequest(data, req) == data[k := TableData(data[k].columns, CoerceRows(data[k].rows, 0))]
    ensures var k := TableKey(req);
            !(k in data && (if IsAgeIndicator(k.1) then req.years.Some? && req.months.Some? && "Month" in data[k].columns
                            else req.length.Some? && req.weight.Some?))
            ==> AfterRequest(data, req) == data
  {
  }

  /** Once a request has coerced its table, a later request that selects the
      same table leaves every table as it is. */
  lemma {:induction false} LaterRequestKeepsTables(data: map<Key, TableData>, first: Request, next: Request)
    requires AllWellFormed(data)
    requires CoercedColumn(data, QueryOf(first)).Some? && TableKey(next) == TableKey(first)
    ensures AfterRequest(AfterRequest(data, first), next) == AfterRequest(data, first)
  {
    var after := AfterRequest(data, first);
    SameColumnAfterCoercion(data, first, next);
    assert CoercedColumn(after, QueryOf(next)) == CoercedColumn(data, QueryOf(next));
  }

  /** Two requests that reach the same table coerce the same column of it. */
  lemma {:induction false} SameColumnAfterCoercion(data: map<Key, TableData>, first: Request, next: Request)
    requires AllWellFormed(data)
    requires CoercedColumn(data, QueryOf(first)).Some? && CoercedColumn(data, QueryOf(first)).value.0 == TableKey(next)
    ensures var (k, col) := CoercedColumn(data, QueryOf(first)).value;
            && CoerceTable(CoerceTable(data[k], col), col) == CoerceTable(data[k], col)
            && (CoercedColumn(data, QueryOf(next)).Some? ==> CoercedColumn(data, QueryOf(next)).value == (k, col))
            && (IsAgeIndicator(k.1) && "Month" in data[k].columns ==> col == IndexOf(data[k].columns, "Month"))
            && (!IsAgeIndicator(k.1) ==> col == 0)
  {
    var (k, col) := CoercedColumn(data, QueryOf(first)).value;
    CoerceIdempotent(data[k].rows, col);
  }

  // ---------------------------------------------------------------------------
  // The handler over the shared, mutable tables
  // ---------------------------------------------------------------------------

  /** Every loaded table is well formed, and no two keys share a table's cells. */
  ghost predicate Valid(tables: map<Key, Frame>)
    reads set k | k in tables :: tables[k].rows
  {
    && (forall k :: k in tables ==> tables[k].Valid())
    && (forall k1, k2 :: k1 in tables && k2 in tables && k1 != k2 ==> tables[k1].rows != tables[k2].rows)
  }

  /** The contents of all tables, as values. */
  function Snapshot(tables: map<Key, Frame>): (data: map<Key, TableData>)
    reads set k | k in tables :: tables[k].rows
    ensures data.Keys == tables.Keys
  {
    map k | k in tables :: tables[k].Data()
  }

  lemma {:induction false} ValidSnapshot(tables: map<Key, Frame>)
    requires Valid(tables)
    ensures AllWellFormed(Snapshot(tables))
  {
  }

  /** `compute_z`: answers the request and coerces the key column of the
      selected table in place, as the source does on every request that gets
      past validation of the age (or of length and weight). */
  method Handle(tables: map<Key, Frame>, req: Request, pow: Power) returns (out: Outcome)
    requires Valid(tables)
    modifies set k | k in tables :: tables[k].rows
    ensures Valid(tables)
    ensures AllWellFormed(old(Snapshot(tables)))
    ensures out == Respond(old(Snapshot(tables)), req, pow)
    ensures Snapshot(tables) == AfterRequest(old(Snapshot(tables)), req)
  {
    ValidSnapshot(tables);
    ghost var before := Snapshot(tables);
    var key := TableKey(req);
    if key !in tables {
      return Rejected(UnknownSexOrIndicator);
    }
    var df := tables[key];
    var ind := key.1;
    var col: nat;
    if IsAgeIndicator(ind) {
      if req.years.None? || req.months.None? {
        return Rejected(MissingAge);
      }
      if "Month" !in df.columns {
        return Rejected(MissingMonthColumn);
      }
      col := IndexOf(df.columns, "Month");
    } else {
      if req.length.None? || req.weight.None? {
        return Rejected(MissingLengthAndWeight);
      }
      col := 0;
    }
    df.CoerceColumn(col);
    forall k | k in tables && k != key
      ensures tables[k].rows[..] == old(tables[k].rows[..]) && tables[k].Valid()
    {
      assert tables[k].rows != df.rows;
    }
    ghost var after := before[key := CoerceTable(before[key], col)];
    forall k | k in tables ensures Snapshot(tables)[k] == after[k] {
    }
    assert Snapshot(tables) == after;
    var lookup: real;
    var meas: real;
    if IsAgeIndicator(ind) {
      var m := MeasurementFor(QueryOf(req));
      if m.None? {
        return Rejected(if ind == "length" then MissingLength else MissingWeight);
      }
      lookup, meas := AgeMonths(req.years.value, req.months.value) as real, m.value;
    } else {
      lookup, meas := req.length.value, req.weight.value;
    }
    out := Score(df.Data(), col, lookup, meas, IndicatorOf(ind), pow);
  }
}
