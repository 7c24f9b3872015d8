/** The read-recent handler: it queries the timestamp index for the newest
    records, projects each to its five transport fields and answers 200 with
    the count and the list, or 500 with a classified error. */
module ReadRecent {
  import opened Values

  /** `MAX_LOGS_TO_RETURN`. */
  const MaxLogsToReturn: nat := 100

  /** The query `query_recent_logs` sends: index `TimestampIndex`, key
      condition `type = 'LOG'`, descending order, at most 100 items. */
  datatype IndexQuery = IndexQuery(indexName: string, keyName: string, keyValue: string,
                                   scanForward: bool, limit: nat)

  const RecentQuery: IndexQuery := IndexQuery("TimestampIndex", "type", "LOG", false, MaxLogsToReturn)

  /** The fields every returned log carries. */
  const ProjectedKeys: set<string> := {"logId", "timestamp", "datetime", "severity", "message"}

  // ---------------------------------------------------------------------
  // convert_logs_to_json

  /** Why converting an item raises: a `KeyError` for a missing attribute, a
      `TypeError` or `ValueError` from `int()` on a timestamp that is not a
      number, or an exception from `json.dumps`: a `TypeError` on a value it
      cannot encode, or a `decimal.InvalidOperation` from `decimal_default`. */
  datatype Fault = MissingKey(key: string) | NotANumber(value: Value) | NotSerialisable

  /** Python's `int(v)` on the numbers the table returns: a decimal is
      truncated toward zero, an int is kept. */
  function ToInt(v: Value): (r: Option<int>)
    ensures r.Some? <==> v.Dec? || v.Int?
    ensures v.Int? ==> r == Some(v.i)
    ensures v.Dec? ==> r == Some(Trunc(v.d))
    ensures v.Dec? && IsIntegral(v.d) ==> r == Some(v.d.Floor)
  {
    match v
    case Int(i) => Some(i)
    case Dec(d) => Some(Trunc(d))
    case _ => None
  }

  /** The transport form of one item, built in the order of the dict literal
      in the loop body: `logId`, `int(timestamp)`, `datetime`, `severity`,
      `message`; the first missing key or unconvertible timestamp raises. */
  function Project(item: Dict): (r: Result<Dict, Fault>)
    ensures r.Success? <==> ProjectedKeys <= item.Keys && ToInt(item["timestamp"]).Some?
    ensures r.Success? ==>
      && r.value.Keys == ProjectedKeys
      && r.value["timestamp"] == Int(ToInt(item["timestamp"]).value)
      && forall k | k in ProjectedKeys - {"timestamp"} :: r.value[k] == item[k]
    ensures r.Failure? && "logId" !in item ==> r.error == MissingKey("logId")
  {
    if "logId" !in item then Failure(MissingKey("logId"))
    else if "timestamp" !in item then Failure(MissingKey("timestamp"))
    else if ToInt(item["timestamp"]).None? then Failure(NotANumber(item["timestamp"]))
    else if "datetime" !in item then Failure(MissingKey("datetime"))
    else if "severity" !in item then Failure(MissingKey("severity"))
    else if "message" !in item then Failure(MissingKey("message"))
    else
      Success(map[
        "logId" := item["logId"],
        "timestamp" := Int(ToInt(item["timestamp"]).value),
        "datetime" := item["datetime"],
        "severity" := item["severity"],
        "message" := item["message"]
      ])
  }

  /** Attributes other than the five, such as the partition attribute `type`,
      do not survive the projection, and an integral stored timestamp comes
      back as the same integer. */
  lemma ProjectDropsOthersKeepsTimestamp(item: Dict, n: int)
    requires ProjectedKeys <= item.Keys && item["timestamp"] == Dec(n as real)
    ensures Project(item).Success?
    ensures "type" !in Project(item).value
    ensures Project(item).value["timestamp"] == Int(n)
  {
    TruncOfInt(n);
  }

  /** The whole conversion: the items projected one by one, in order, or the
      fault of the first item that cannot be projected. */
  function ProjectAll(logs: seq<Dict>): (r: Result<seq<Dict>, Fault>)
    ensures r.Success? <==> forall i | 0 <= i < |logs| :: Project(logs[i]).Success?
    ensures r.Success? ==>
      |r.value| == |logs| && forall i | 0 <= i < |logs| :: r.value[i] == Project(logs[i]).value
    ensures r.Failure? ==>
      exists i | 0 <= i < |logs| :: Project(logs[i]) == Failure(r.error)
        && forall j | 0 <= j < i :: Project(logs[j]).Success?
    decreases |logs|
  {
    if logs == [] then Success([])
    else
      var init := logs[..|logs| - 1];
      match ProjectAll(init)
      case Failure(f) =>
        assert forall i | 0 <= i < |init| :: init[i] == logs[i];
        Failure(f)
      case Success(done) =>
        assert forall i | 0 <= i < |init| :: init[i] == logs[i];
        match Project(logs[|logs| - 1])
        case Failure(f) => Failure(f)
        case Success(p) => Success(done + [p])
  }

  /** Once a prefix fails, the whole conversion fails with the same fault. */
  lemma {:induction false} ProjectAllFailureSticks(logs: seq<Dict>, k: nat)
    requires k <= |logs| && ProjectAll(logs[..k]).Failure?
    ensures ProjectAll(logs) == ProjectAll(logs[..k])
    decreases |logs| - k
  {
    if k < |logs| {
      assert logs[..k + 1][..k] == logs[..k];
      ProjectAllFailureSticks(logs, k + 1);
    } else {
      assert logs[..k] == logs;
    }
  }

  /** `convert_logs_to_json`: the loop that appends the projection of each
      item in turn. */
  method ConvertLogsToJson(logs: seq<Dict>) returns (r: Result<seq<Dict>, Fault>)
    ensures r == ProjectAll(logs)
  {
    var serialisable: seq<Dict> := [];
    var i := 0;
    while i < |logs|
      invariant 0 <= i <= |logs|
      invariant ProjectAll(logs[..i]) == Success(serialisable)
    {
      assert logs[..i + 1][..i] == logs[..i];
      var p := Project(logs[i]);
      if p.Failure? {
        ProjectAllFailureSticks(logs, i + 1);
        return Failure(p.error);
      }
      serialisable := serialisable + [p.value];
      i := i + 1;
    }
    assert logs[..i] == logs;
    r := Success(serialisable);
  }

  // ---------------------------------------------------------------------
  // decimal_default and json.dumps

  /** What `decimal_default` returns or raises. */
  datatype DefaultResult = AsInt(i: int) | AsFloat(d: real) | TypeError | InvalidOperation

  /** Python's default decimal context computes with 28 significant digits.
      `obj % 1` needs the integer part of `obj / 1` to fit in them, so it
      signals `InvalidOperation` (division impossible) once the magnitude
      reaches 10^28, and the default context raises that signal. */
  const DecimalLimit: int := 10_000_000_000_000_000_000_000_000_000

  /** The magnitude of `d` is below 10^28, so `d % 1` can be computed. */
  predicate InDecimalRange(d: real) {
    -DecimalLimit as real < d < DecimalLimit as real
  }

  /** `decimal_default`: a decimal whose magnitude reaches 10^28 makes `obj % 1`
      raise; otherwise an integral decimal becomes an int and any other
      decimal is handed to `float()`; anything that is not a decimal raises
      `TypeError`. */
  function DecimalDefault(v: Value): (r: DefaultResult)
    ensures r.TypeError? <==> !v.Dec?
    ensures r.InvalidOperation? <==> v.Dec? && !InDecimalRange(v.d)
    ensures r.AsInt? <==> v.Dec? && InDecimalRange(v.d) && IsIntegral(v.d)
    ensures r.AsInt? ==> r.i as real == v.d
    ensures r.AsFloat? ==> r.d == v.d && !IsIntegral(v.d)
  {
    if !v.Dec? then TypeError
    else if !InDecimalRange(v.d) then InvalidOperation
    else if IsIntegral(v.d) then AsInt(v.d.Floor)
    else AsFloat(v.d)
  }

  /** An integer stored as a decimal is serialised as that same integer when
      it has fewer than 29 digits; from 10^28 on, `decimal_default` raises. */
  lemma DecimalDefaultRoundTrip(n: int)
    ensures DecimalDefault(Dec(n as real)) == AsInt(n) <==> -DecimalLimit < n < DecimalLimit
    ensures !(-DecimalLimit < n < DecimalLimit) ==> DecimalDefault(Dec(n as real)) == InvalidOperation
  {
  }

  /** `json.dumps(v, default=decimal_default)` succeeds: strings, ints and the
      JSON scalars are encoded natively, lists and dicts element by element,
      and everything else is passed to `decimal_default`. */
  predicate Serialisable(v: Value): (r: bool)
    ensures v.Str? || v.Int? || v.Scalar? ==> r
    ensures v.Dec? ==> (r <==> InDecimalRange(v.d))
    ensures v.Opaque? ==> !r
  {
    match v
    case Arr(elems) => forall i | 0 <= i < |elems| :: Serialisable(elems[i])
    case Obj(fields) => forall k | k in fields :: Serialisable(fields[k])
    case Dec(_) => DecimalDefault(v).AsInt? || DecimalDefault(v).AsFloat?
    case Opaque => DecimalDefault(v).AsInt? || DecimalDefault(v).AsFloat?
    case _ => true
  }

  // ---------------------------------------------------------------------
  // lambda_handler

  /** How `table.query` ends: with a response (whose `Items` may be absent),
      with a botocore `ClientError` carrying an error code and its text, or
      with any other exception and its text. */
  datatype QueryOutcome =
    | Answered(items: Option<seq<Dict>>)
    | ClientError(code: string, text: string)
    | OtherError(text: string)

  /** `create_response`: the read endpoint advertises `GET`. */
  function CreateResponse(status: int, body: Dict): (r: Response)
    ensures r.statusCode == status && r.allowMethods == "GET" && r.body == body
  {
    Response(status, "GET", body)
  }

  /** The answer of the generic `except Exception` branch. */
  function InternalError(details: string): (r: Response)
    ensures r.statusCode == 500 && r.allowMethods == "GET"
    ensures r.body.Keys == {"error", "details"}
    ensures r.body["error"] == Str("Internal server error") && r.body["details"] == Str(details)
  {
    CreateResponse(500, map["error" := Str("Internal server error"), "details" := Str(details)])
  }

  /** The list of logs as a JSON array of objects. */
  function LogList(logs: seq<Dict>): (r: Value)
    ensures r.Arr? && |r.elems| == |logs|
    ensures forall i | 0 <= i < |logs| :: r.elems[i] == Obj(logs[i])
  {
    Arr(seq(|logs|, i requires 0 <= i < |logs| => Obj(logs[i])))
  }

  function SuccessBody(logs: seq<Dict>): Dict {
    map["count" := Int(|logs|), "logs" := LogList(logs)]
  }

  /** `lambda_handler`. `describe` gives `str(e)` for the exception a fault
      raises. */
  function Handle(query: QueryOutcome, describe: Fault -> string): (r: Response)
    ensures r.allowMethods == "GET"
    ensures r.statusCode in {200, 500}
    ensures r.statusCode == 500 ==> r.body.Keys == {"error", "details"}
  {
    match query
    case ClientError(code, text) =>
      if code == "ResourceNotFoundException" then
        CreateResponse(500, map["error" := Str("Database table not found"),
                                "details" := Str("The log storage table does not exist")])
      else
        CreateResponse(500, map["error" := Str("Failed to retrieve log entries"), "details" := Str(text)])
    case OtherError(text) =>
      InternalError(text)
    case Answered(items) =>
      var logs := if items.Some? then items.value else [];
      match ProjectAll(logs)
      case Failure(f) => InternalError(describe(f))
      case Success(projected) =>
        if Serialisable(Obj(SuccessBody(projected))) then CreateResponse(200, SuccessBody(projected))
        else InternalError(describe(NotSerialisable))
  }

  /** On success the answer is 200, `count` is the number of items the table
      returned, and log `i` is the projection of item `i`. */
  lemma {:induction false} SuccessResponse(items: seq<Dict>, describe: Fault -> string)
    requires forall i | 0 <= i < |items| :: Project(items[i]).Success?
    requires forall i | 0 <= i < |items| :: Serialisable(Obj(Project(items[i]).value))
    ensures var r := Handle(Answered(Some(items)), describe);
      && r.statusCode == 200
      && r.body["count"] == Int(|items|)
      && r.body["logs"].Arr? && |r.body["logs"].elems| == |items|
      && forall i | 0 <= i < |items| :: r.body["logs"].elems[i] == Obj(Project(items[i]).value)
  {
    var projected := ProjectAll(items).value;
    var body := SuccessBody(projected);
    assert Serialisable(body["logs"]) by {
      forall i | 0 <= i < |projected| ensures Serialisable(LogList(projected).elems[i]) {
        assert projected[i] == Project(items[i]).value;
      }
    }
    assert Serialisable(Obj(body)) by {
      forall k | k in body ensures Serialisable(body[k]) {
        if k == "count" { assert body[k] == Int(|projected|); }
      }
    }
  }

  /** An empty table, or a response without `Items`, answers 200 with count
      0 and an empty list. */
  lemma EmptyResult(describe: Fault -> string)
    ensures Handle(Answered(Some([])), describe) ==
              Response(200, "GET", map["count" := Int(0), "logs" := Arr([])])
    ensures Handle(Answered(None), describe) ==
              Response(200, "GET", map["count" := Int(0), "logs" := Arr([])])
  {
    var body := SuccessBody([]);
    assert LogList([]) == Arr([]);
    assert Serialisable(Obj(body)) by {
      forall k | k in body ensures Serialisable(body[k]) { }
    }
  }

  /** Store errors: a missing table gets its own message; any other error
      code gets the generic message with the error text as details. */
  lemma ClientErrorClassification(code: string, text: string, describe: Fault -> string)
    ensures var r := Handle(ClientError(code, text), describe);
      && r.statusCode == 500
      && (code == "ResourceNotFoundException" ==>
            r.body == map["error" := Str("Database table not found"),
                          "details" := Str("The log storage table does not exist")])
      && (code != "ResourceNotFoundException" ==>
            r.body == map["error" := Str("Failed to retrieve log entries"), "details" := Str(text)])
  {
  }

  /** Everything that is not a table `ClientError` and not a success ends in
      the generic branch: another query exception, a fault while converting
      an item (the first item's fault), or `json.dumps` failing on the body. */
  lemma OtherFailuresAreInternal(query: QueryOutcome, describe: Fault -> string)
    ensures query.OtherError? ==>
      Handle(query, describe) ==
        Response(500, "GET", map["error" := Str("Internal server error"), "details" := Str(query.text)])
    ensures query.Answered? ==>
      var logs := if query.items.Some? then query.items.value else [];
      && (ProjectAll(logs).Failure? ==>
            Handle(query, describe) ==
              Response(500, "GET", map["error" := Str("Internal server error"),
                                       "details" := Str(describe(ProjectAll(logs).error))]))
      && (ProjectAll(logs).Success? && !Serialisable(Obj(SuccessBody(ProjectAll(logs).value))) ==>
            Handle(query, describe) ==
              Response(500, "GET", map["error" := Str("Internal server error"),
                                       "details" := Str(describe(NotSerialisable))]))
  {
  }

  /** The answer is 200 exactly when the query returned, every item could be
      projected and the result could be serialised. */
  lemma Status200Iff(query: QueryOutcome, describe: Fault -> string)
    ensures Handle(query, describe).statusCode == 200 <==>
      && query.Answered?
      && var logs := if query.items.Some? then query.items.value else [];
      && ProjectAll(logs).Success?
      && Serialisable(Obj(SuccessBody(ProjectAll(logs).value)))
  {
  }

  // ---------------------------------------------------------------------
  // What the index promises

  /** The numeric value of a stored timestamp, when it has one. */
  function NumericTimestamp(item: Dict): Option<real> {
    if "timestamp" in item && item["timestamp"].Dec? then Some(item["timestamp"].d)
    else if "timestamp" in item && item["timestamp"].Int? then Some(item["timestamp"].i as real)
    else None
  }

  /** What the index query promises about its result: at most the limit, all
      timestamps numeric and newest first. */
  predicate NewestFirst(items: seq<Dict>) {
    && |items| <= RecentQuery.limit
    && (forall i | 0 <= i < |items| :: NumericTimestamp(items[i]).Some?)
    && forall i, j | 0 <= i < j < |items| ::
         NumericTimestamp(items[j]).value <= NumericTimestamp(items[i]).value
  }

  /** Given what the index promises, the answer lists at most 100 logs, newest
      first by their integer timestamps: truncation to an integer keeps the
      order. */
  lemma {:induction false} OrderAndCapPreserved(items: seq<Dict>, describe: Fault -> string)
    requires NewestFirst(items)
    requires Handle(Answered(Some(items)), describe).statusCode == 200
    ensures var logs := Handle(Answered(Some(items)), describe).body["logs"];
      && logs.Arr? && |logs.elems| <= MaxLogsToReturn
      && forall i, j | 0 <= i < j < |logs.elems| ::
           logs.elems[i].Obj? && logs.elems[j].Obj?
           && logs.elems[j].fields["timestamp"].i <= logs.elems[i].fields["timestamp"].i
  {
    var projected := ProjectAll(items).value;
    var logs := LogList(projected);
    forall i, j | 0 <= i < j < |logs.elems|
      ensures logs.elems[i].Obj? && logs.elems[j].Obj?
      ensures logs.elems[j].fields["timestamp"].i <= logs.elems[i].fields["timestamp"].i
    {
      var a := items[i]["timestamp"];
      var b := items[j]["timestamp"];
      var ra := NumericTimestamp(items[i]).value;
      var rb := NumericTimestamp(items[j]).value;
      assert ToInt(a).value == Trunc(ra) by { if a.Int? { TruncOfInt(a.i); } }
      assert ToInt(b).value == Trunc(rb) by { if b.Int? { TruncOfInt(b.i); } }
      TruncMonotonic(rb, ra);
    }
  }
}
