/** One polling round after the commands have run (lines 606-608): the
    captured outputs go through `extract_matches`, and the measurement lists
    it builds through `assemble_influx_lp`. */
module Pipeline {
  import opened Wrappers
  import opened Records
  import opened Extraction
  import opened LineProtocol
  import opened PyText

  /** The line-protocol payload of one round, or the exception that ended
      it. */
  function RoundPayload(specs: seq<ParseSpec>, aggregate: seq<Option<seq<Output>>>, m: Matcher): Result<string, ExtractError> {
    match ExtractAll(specs, aggregate, m)
    case Failure(e) => Failure(e)
    case Success(records) =>
      ExtractAllWellFormed(specs, aggregate, m);
      Success(Payload(records))
  }

  /** The Python lists `extract_matches` returns, one new list object per
      measurement. */
  method NewMeasurements(records: seq<seq<Item>>) returns (ms: seq<Measurement>)
    ensures |ms| == |records|
    ensures forall i :: 0 <= i < |ms| ==> fresh(ms[i]) && ms[i].items == records[i]
    ensures forall i, j :: 0 <= i < |ms| && 0 <= j < |ms| && i != j ==> ms[i] != ms[j]
  {
    ms := [];
    for i := 0 to |records|
      invariant |ms| == i
      invariant forall k :: 0 <= k < i ==> fresh(ms[k]) && ms[k].items == records[k]
      invariant forall j, k :: 0 <= j < i && 0 <= k < i && j != k ==> ms[j] != ms[k]
    {
      var m := new Measurement(records[i]);
      ms := ms + [m];
    }
  }

  /** `measurements = extract_matches(parse_specs, command_results)` then
      `influx_lines = assemble_influx_lp(measurements)`. */
  method ProcessRound(parseSpecs: seq<ParseSpec>, commandResults: seq<Option<seq<Output>>>, m: Matcher)
    returns (r: Result<string, ExtractError>)
    ensures r == RoundPayload(parseSpecs, commandResults, m)
  {
    var extracted := ExtractMatches(parseSpecs, commandResults, m);
    if extracted.Failure? {
      return Failure(extracted.error);
    }
    ghost var records := extracted.value;
    ExtractAllWellFormed(parseSpecs, commandResults, m);
    var measurements := NewMeasurements(extracted.value);
    var influxLines := AssembleInfluxLp(measurements, records);
    return Success(influxLines);
  }

  /** A round fails exactly when extraction raises, with its error.
      Otherwise every list extracted is well-formed, and when no line holds a
      newline the payload splits at its newlines into one piece per list, in
      order (piece `i` is the line of list `i`), and a final empty piece. */
  lemma RoundSpec(specs: seq<ParseSpec>, aggregate: seq<Option<seq<Output>>>, m: Matcher)
    ensures RoundPayload(specs, aggregate, m).Failure? <==> ExtractAll(specs, aggregate, m).Failure?
    ensures RoundPayload(specs, aggregate, m).Failure? ==>
      RoundPayload(specs, aggregate, m).error == ExtractAll(specs, aggregate, m).error
    ensures ExtractAll(specs, aggregate, m).Success? ==>
      && AllWellFormed(ExtractAll(specs, aggregate, m).value)
      && ((forall i :: 0 <= i < |ExtractAll(specs, aggregate, m).value| ==> '\n' !in LineOf(ExtractAll(specs, aggregate, m).value[i])) ==>
            && |Split(RoundPayload(specs, aggregate, m).value, '\n')| == |ExtractAll(specs, aggregate, m).value| + 1
            && Split(RoundPayload(specs, aggregate, m).value, '\n')[|ExtractAll(specs, aggregate, m).value|] == ""
            && forall i :: 0 <= i < |ExtractAll(specs, aggregate, m).value| ==>
                 Split(RoundPayload(specs, aggregate, m).value, '\n')[i] == LineOf(ExtractAll(specs, aggregate, m).value[i]))
  {
    ExtractAllWellFormed(specs, aggregate, m);
    var e := ExtractAll(specs, aggregate, m);
    if e.Success? && forall i :: 0 <= i < |e.value| ==> '\n' !in LineOf(e.value[i]) {
      PayloadLinesAt(e.value);
    }
  }

  /** Two rounds over consecutive runs of hosts: the payload of the whole is
      the first payload followed by the second, and an exception in the
      first run ends the whole round with that exception. */
  lemma RoundConcat(specs: seq<ParseSpec>, a: seq<Option<seq<Output>>>, b: seq<Option<seq<Output>>>, m: Matcher)
    ensures RoundPayload(specs, a, m).Failure? ==> RoundPayload(specs, a + b, m) == RoundPayload(specs, a, m)
    ensures RoundPayload(specs, a, m).Success? && RoundPayload(specs, b, m).Failure? ==>
      RoundPayload(specs, a + b, m) == RoundPayload(specs, b, m)
    ensures RoundPayload(specs, a, m).Success? && RoundPayload(specs, b, m).Success? ==>
      RoundPayload(specs, a + b, m) == Success(RoundPayload(specs, a, m).value + RoundPayload(specs, b, m).value)
  {
    ExtractAllConcat(specs, a, b, m);
    ExtractAllWellFormed(specs, a, m);
    ExtractAllWellFormed(specs, b, m);
    var ea := ExtractAll(specs, a, m);
    var eb := ExtractAll(specs, b, m);
    if ea.Success? && eb.Success? {
      PayloadConcat(ea.value, eb.value);
    }
  }
}
