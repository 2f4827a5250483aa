/** The entry point in main.py: the same `compute_z`, over a dictionary of five
    reference tables. There is no girls' length-for-age table. */
module MainApp {
  import opened Ascii
  import opened Frames
  import opened Scoring
  import opened Endpoint
  import ZscoreApi

  /** The keys of the module-level `tables` dictionary; ("F", "length") is not among them. */
  function TableKeys(): set<Key>
  {
    {("M", "length"), ("M", "weight"), ("M", "wfl"), ("F", "weight"), ("F", "wfl")}
  }

  /** A request selects a table exactly when it asks for boys and any of the three
      indicators, or for girls and weight-for-age or weight-for-length. */
  lemma {:induction false} SelectsExactlyFivePairs(req: Request)
    ensures TableKey(req) in TableKeys() <==>
            || (SameUpToCase(req.sex, "M") && ZscoreApi.SupportedIndicator(req.indicator))
            || (SameUpToCase(req.sex, "F") && (SameUpToCase(req.indicator, "weight") || SameUpToCase(req.indicator, "wfl")))
  {
    UpperSelects(req.sex, "M");
    UpperSelects(req.sex, "F");
    LowerSelects(req.indicator, "length");
    LowerSelects(req.indicator, "weight");
    LowerSelects(req.indicator, "wfl");
  }

  /** A girls' length-for-age request, in any spelling of case, is refused as an
      unknown pair, whatever else it carries, and changes no table. */
  lemma {:induction false} GirlsLengthUnknown(data: map<Key, TableData>, req: Request, pow: Power)
    requires AllWellFormed(data) && data.Keys == TableKeys()
    requires SameUpToCase(req.sex, "F") && SameUpToCase(req.indicator, "length")
    ensures Respond(data, req, pow) == Rejected(UnknownSexOrIndicator)
    ensures AfterRequest(data, req) == data
  {
    SelectsExactlyFivePairs(req);
    assert !SameUpToCase(req.sex, "M") by {
      assert SameCharUpToCase(req.sex[0], 'F');
    }
  }

  /** Girls' weight-for-age and weight-for-length requests do select a table, so
      they are never refused as an unknown pair. */
  lemma {:induction false} GirlsWeightSelects(data: map<Key, TableData>, req: Request, pow: Power)
    requires AllWellFormed(data) && data.Keys == TableKeys()
    requires SameUpToCase(req.sex, "F") && (SameUpToCase(req.indicator, "weight") || SameUpToCase(req.indicator, "wfl"))
    ensures Respond(data, req, pow) != Rejected(UnknownSexOrIndicator)
  {
    SelectsExactlyFivePairs(req);
    UnknownPairFirst(data, req, pow);
  }

  /** The `detail` text of each refusal; only the missing-Month text differs from
      api/zscore.py. */
  function Detail(e: Error): string
  {
    match e
    case UnknownSexOrIndicator => "Unknown sex or indicator"
    case MissingAge => "Provide both years and months"
    case MissingMonthColumn => "Invalid table: missing Month"
    case MissingLength => "Provide length (cm)"
    case MissingWeight => "Provide weight (kg)"
    case MissingLengthAndWeight => "Provide both length (cm) and weight (kg)"
    case NoData => "No data for given age or length"
    case ServerFault => "Internal Server Error"
  }

  /** The two entry points word every refusal alike except the missing Month column. */
  lemma {:induction false} DetailsAsInApi(e: Error)
    ensures Detail(e) == ZscoreApi.Detail(e) <==> e != MissingMonthColumn
  {
  }

  /** `compute_z` of main.py over its five shared tables. */
  method ComputeZ(tables: map<Key, Frame>, req: Request, pow: Power) returns (out: Outcome)
    requires Valid(tables) && tables.Keys == TableKeys()
    modifies set k | k in tables :: tables[k].rows
    ensures Valid(tables)
    ensures AllWellFormed(old(Snapshot(tables)))
    ensures out == Respond(old(Snapshot(tables)), req, pow)
    ensures Snapshot(tables) == AfterRequest(old(Snapshot(tables)), req)
    ensures SameUpToCase(req.sex, "F") && SameUpToCase(req.indicator, "length")
            ==> out == Rejected(UnknownSexOrIndicator) && Snapshot(tables) == old(Snapshot(tables))
  {
    ValidSnapshot(tables);
    ghost var before := Snapshot(tables);
    if SameUpToCase(req.sex, "F") && SameUpToCase(req.indicator, "length") {
      GirlsLengthUnknown(before, req, pow);
    }
    out := Handle(tables, req, pow);
  }
}
