/** The entry point in api/zscore.py: `compute_z` over a dictionary of six
    reference tables, boys and girls for each of the three indicators. */
module ZscoreApi {
  import opened Wrappers
  import opened Ascii
  import opened Frames
  import opened Scoring
  import opened Endpoint

  /** The keys of the module-level `tables` dictionary. */
  function TableKeys(): set<Key>
  {
    {("M", "length"), ("M", "weight"), ("M", "wfl"), ("F", "length"), ("F", "weight"), ("F", "wfl")}
  }

  /** A sex the endpoint accepts: "M" or "F" in either case. */
  predicate SupportedSex(sex: string)
  {
    SameUpToCase(sex, "M") || SameUpToCase(sex, "F")
  }

  /** An indicator the endpoint accepts: "length", "weight" or "wfl" in any mixture of cases. */
  predicate SupportedIndicator(ind: string)
  {
    SameUpToCase(ind, "length") || SameUpToCase(ind, "weight") || SameUpToCase(ind, "wfl")
  }

  /** A request selects a table exactly when its sex and its indicator are each one
      of the supported spellings, in any case. */
  lemma {:induction false} SelectsExactlySixPairs(req: Request)
    ensures TableKey(req) in TableKeys() <==> SupportedSex(req.sex) && SupportedIndicator(req.indicator)
  {
    UpperSelects(req.sex, "M");
    UpperSelects(req.sex, "F");
    LowerSelects(req.indicator, "length");
    LowerSelects(req.indicator, "weight");
    LowerSelects(req.indicator, "wfl");
  }

  /** "Unknown sex or indicator" is the answer exactly for the unsupported pairs,
      and it comes before any other check (such a request changes no table). */
  lemma {:induction false} UnknownPairRejectedFirst(data: map<Key, TableData>, req: Request, pow: Power)
    requires AllWellFormed(data) && data.Keys == TableKeys()
    ensures Respond(data, req, pow) == Rejected(UnknownSexOrIndicator)
            <==> !(SupportedSex(req.sex) && SupportedIndicator(req.indicator))
    ensures !(SupportedSex(req.sex) && SupportedIndicator(req.indicator)) ==> AfterRequest(data, req) == data
  {
    SelectsExactlySixPairs(req);
    UnknownPairFirst(data, req, pow);
  }

  /** Every selected table is looked up by age, except the two "wfl" tables,
      which are looked up by length. */
  lemma {:induction false} KeysOfAgeTables(k: Key)
    requires k in TableKeys()
    ensures IsAgeIndicator(k.1) <==> k.1 != "wfl"
    ensures IndicatorOf(k.1) == WeightForLength <==> k.1 == "wfl"
  {
  }

  /** A request in upper case for weight-for-length without a weight is refused
      with the combined length-and-weight message. */
  lemma {:induction false} WflWithoutWeightRejected(data: map<Key, TableData>, pow: Power)
    requires AllWellFormed(data) && data.Keys == TableKeys()
    ensures Respond(data, Request("m", "WFL", None, None, Some(65.0), None), pow) == Rejected(MissingLengthAndWeight)
  {
    var req := Request("m", "WFL", None, None, Some(65.0), None);
    UpperSelects(req.sex, "M");
    LowerSelects(req.indicator, "wfl");
    assert SameUpToCase(req.sex, "M") && SameUpToCase(req.indicator, "wfl");
  }

  /** A sex other than M or F is refused whatever the indicator. */
  lemma {:induction false} UnknownSexRejected(data: map<Key, TableData>, req: Request, pow: Power)
    requires AllWellFormed(data) && data.Keys == TableKeys()
    requires req.sex == "X"
    ensures Respond(data, req, pow) == Rejected(UnknownSexOrIndicator)
  {
    assert Upper(req.sex) == "X";
  }

  /** The `detail` text of each refusal; an uncaught exception is answered with the
      framework's generic text. */
  function Detail(e: Error): string
  {
    match e
    case UnknownSexOrIndicator => "Unknown sex or indicator"
    case MissingAge => "Provide both years and months"
    case MissingMonthColumn => "Invalid table: missing Month column"
    case MissingLength => "Provide length (cm)"
    case MissingWeight => "Provide weight (kg)"
    case MissingLengthAndWeight => "Provide both length (cm) and weight (kg)"
    case NoData => "No data for given age or length"
    case ServerFault => "Internal Server Error"
  }

  /** Different refusals are told apart by their text. */
  lemma {:induction false} DetailsDistinct(e1: Error, e2: Error)
    ensures Detail(e1) == Detail(e2) <==> e1 == e2
  {
  }

  /** `compute_z` of api/zscore.py over its six shared tables. */
  method ComputeZ(tables: map<Key, Frame>, req: Request, pow: Power) returns (out: Outcome)
    requires Valid(tables) && tables.Keys == TableKeys()
    modifies set k | k in tables :: tables[k].rows
    ensures Valid(tables)
    ensures AllWellFormed(old(Snapshot(tables)))
    ensures out == Respond(old(Snapshot(tables)), req, pow)
    ensures Snapshot(tables) == AfterRequest(old(Snapshot(tables)), req)
    ensures out == Rejected(UnknownSexOrIndicator) <==> !(SupportedSex(req.sex) && SupportedIndicator(req.indicator))
  {
    ValidSnapshot(tables);
    ghost var before := Snapshot(tables);
    UnknownPairRejectedFirst(before, req, pow);
    out := Handle(tables, req, pow);
  }
}
