/** The ingest handler: it extracts a `{severity, message}` payload from the
    Lambda event, validates it, builds the record to store, writes it to the
    table and answers 201, 400 or 500. */
module Ingest {
  import opened Values
  import opened Text

  /** `VALID_SEVERITIES`. */
  const Severities: set<string> := {"info", "warning", "error"}

  const MaxMessageLength: nat := 10000

  /** The constant partition value every record carries under `type`. */
  const PartitionValue: string := "LOG"

  // ---------------------------------------------------------------------
  // parse_request_body

  /** What `parse_request_body` returns or raises: the body dict,
      `json.JSONDecodeError`, or `ValueError('Invalid request format')`. */
  datatype ParseOutcome = Parsed(body: Dict) | InvalidJson | InvalidFormat

  /** Tries the three envelope shapes in order: a string `body` is decoded as
      JSON, a dict `body` is used as it is, and otherwise the event itself is
      the payload when it holds both fields. `decode` stands for `json.loads`;
      it gives `None` where that raises. */
  function ParseRequestBody(event: Dict, decode: string -> Option<Dict>): (r: ParseOutcome)
    ensures r == InvalidFormat <==>
              ("body" in event ==> !event["body"].Str? && !event["body"].Obj?)
              && !("severity" in event && "message" in event)
    ensures r == InvalidJson ==> "body" in event && event["body"].Str?
  {
    if "body" in event && event["body"].Str? then
      match decode(event["body"].s)
      case Some(b) => Parsed(b)
      case None => InvalidJson
    else if "body" in event && event["body"].Obj? then
      Parsed(event["body"].fields)
    else if "severity" in event && "message" in event then
      Parsed(event)
    else
      InvalidFormat
  }

  /** The shapes are tried in priority order: a string body is decoded even
      when the event also holds a dict or flat fields, a dict body wins over
      flat fields, and the event itself is used only when it has no string or
      dict body. */
  lemma ParsePriority(event: Dict, decode: string -> Option<Dict>)
    ensures "body" in event && event["body"].Str? ==>
              ParseRequestBody(event, decode) ==
                (if decode(event["body"].s).Some? then Parsed(decode(event["body"].s).value) else InvalidJson)
    ensures "body" in event && event["body"].Obj? ==>
              ParseRequestBody(event, decode) == Parsed(event["body"].fields)
    ensures ParseRequestBody(event, decode) == Parsed(event) ==>
              ("body" in event && event["body"].Str? && decode(event["body"].s) == Some(event))
              || ("body" in event && event["body"].Obj? && event["body"].fields == event)
              || ("severity" in event && "message" in event)
    ensures !("body" in event && (event["body"].Str? || event["body"].Obj?))
              && "severity" in event && "message" in event ==>
              ParseRequestBody(event, decode) == Parsed(event)
  {
  }

  // ---------------------------------------------------------------------
  // validate_log_entry

  /** The seven validation failures, in the order they are checked. */
  datatype ValidationError =
    | MissingSeverity
    | MissingMessage
    | SeverityNotString
    | InvalidSeverity
    | MessageNotString
    | EmptyMessage
    | MessageTooLong

  /** The message `validate_log_entry` returns for each failure. */
  function ErrorText(e: ValidationError): (t: string)
    ensures t != []
  {
    match e
    case MissingSeverity => "Missing required field: severity"
    case MissingMessage => "Missing required field: message"
    case SeverityNotString => "Severity must be a string"
    case InvalidSeverity => "Invalid severity. Must be one of: info, warning, error"
    case MessageNotString => "Message must be a string"
    case EmptyMessage => "Message cannot be empty"
    case MessageTooLong => "Message exceeds maximum length of 10000 characters"
  }

  /** `validate_log_entry`: the first check that fails decides the error;
      `None` when every check passes. */
  function Validate(body: Dict): (r: Option<ValidationError>)
    ensures r == None ==>
      && HasStringFields(body) && Lower(body["severity"].s) in Severities
      && Strip(body["message"].s) != [] && |body["message"].s| <= MaxMessageLength
    ensures !HasStringFields(body) ==> r.Some? && r.value !in {EmptyMessage, MessageTooLong}
  {
    if "severity" !in body then Some(MissingSeverity)
    else if "message" !in body then Some(MissingMessage)
    else if !body["severity"].Str? then Some(SeverityNotString)
    else if Lower(body["severity"].s) !in Severities then Some(InvalidSeverity)
    else if !body["message"].Str? then Some(MessageNotString)
    else if Strip(body["message"].s) == [] then Some(EmptyMessage)
    else if |body["message"].s| > MaxMessageLength then Some(MessageTooLong)
    else None
  }

  /** The position of each check in the sequence of checks. */
  function Rank(e: ValidationError): (k: nat)
    ensures k < 7
  {
    match e
    case MissingSeverity => 0
    case MissingMessage => 1
    case SeverityNotString => 2
    case InvalidSeverity => 3
    case MessageNotString => 4
    case EmptyMessage => 5
    case MessageTooLong => 6
  }

  /** Check number `k` on its own: what it demands of the body, given that the
      fields it looks at are present and of the right type. */
  predicate Passes(body: Dict, k: nat) {
    match k
    case 0 => "severity" in body
    case 1 => "message" in body
    case 2 => "severity" in body ==> body["severity"].Str?
    case 3 => "severity" in body && body["severity"].Str? ==> Lower(body["severity"].s) in Severities
    case 4 => "message" in body ==> body["message"].Str?
    case 5 => "message" in body && body["message"].Str? ==> !AllSpace(body["message"].s)
    case 6 => "message" in body && body["message"].Str? ==> |body["message"].s| <= MaxMessageLength
    case _ => true
  }

  /** First failure wins: `Validate` reports error `e` exactly when check
      `Rank(e)` fails and every check before it passes. */
  lemma {:induction false} ValidateFirstFailure(body: Dict, e: ValidationError)
    ensures Validate(body) == Some(e) <==>
              !Passes(body, Rank(e)) && forall j | 0 <= j < Rank(e) :: Passes(body, j)
  {
    if "message" in body && body["message"].Str? {
      StripEmptyIff(body["message"].s);
    }
    var k := Rank(e);
    if Validate(body) == Some(e) {
      forall j | 0 <= j < k ensures Passes(body, j) { }
    } else if forall j | 0 <= j < k :: Passes(body, j) {
      if 0 < k { assert Passes(body, 0); }
      if 1 < k { assert Passes(body, 1); }
      if 2 < k { assert Passes(body, 2); }
      if 3 < k { assert Passes(body, 3); }
      if 4 < k { assert Passes(body, 4); }
      if 5 < k { assert Passes(body, 5); }
    }
  }

  /** The accept condition: a body validates exactly when both fields are
      present, the severity is a string whose lowercase is a known severity,
      and the message is a string that is not all whitespace and whose
      unstripped length is at most 10000. */
  predicate Acceptable(body: Dict) {
    && "severity" in body && "message" in body
    && body["severity"].Str? && Lower(body["severity"].s) in Severities
    && body["message"].Str? && !AllSpace(body["message"].s)
    && |body["message"].s| <= MaxMessageLength
  }

  lemma {:induction false} ValidateAcceptsIff(body: Dict)
    ensures Validate(body) == None <==> Acceptable(body)
  {
    if "message" in body && body["message"].Str? {
      StripEmptyIff(body["message"].s);
    }
  }

  /** A body with neither field is reported as missing the severity. */
  lemma MissingBothReportsSeverity(body: Dict)
    requires "severity" !in body && "message" !in body
    ensures Validate(body) == Some(MissingSeverity)
  {
  }

  /** A non-string severity is reported before anything is said about the
      message, whatever the message is. */
  lemma SeverityCheckedBeforeMessage(body: Dict)
    requires "severity" in body && "message" in body && !body["severity"].Str?
    ensures Validate(body) == Some(SeverityNotString)
  {
  }

  /** The length limit applies to the unstripped message: a message longer
      than 10000 characters is refused even if stripping would shorten it
      below the limit, as long as it is not all whitespace. */
  lemma {:induction false} LengthLimitBeforeStripping(severity: string, message: string)
    requires Lower(severity) in Severities
    requires |message| > MaxMessageLength && !AllSpace(message)
    ensures Validate(map["severity" := Str(severity), "message" := Str(message)]) == Some(MessageTooLong)
  {
    StripEmptyIff(message);
  }

  /** A whitespace-only message is refused as empty, whatever its length. */
  lemma {:induction false} BlankMessageIsEmpty(severity: string, message: string)
    requires Lower(severity) in Severities
    requires AllSpace(message)
    ensures Validate(map["severity" := Str(severity), "message" := Str(message)]) == Some(EmptyMessage)
  {
    StripEmptyIff(message);
  }

  /** The examples "debug" and an empty message. */
  lemma UnknownSeverityAndEmptyMessage()
    ensures Validate(map["severity" := Str("debug"), "message" := Str("x")]) == Some(InvalidSeverity)
    ensures Validate(map["severity" := Str("error"), "message" := Str("")]) == Some(EmptyMessage)
  {
    assert Lower("debug") == "debug";
    assert Lower("error") == "error";
  }

  // ---------------------------------------------------------------------
  // create_log_entry

  /** What `create_log_entry` needs of the body: both fields, as strings. */
  predicate HasStringFields(body: Dict) {
    "severity" in body && body["severity"].Str? && "message" in body && body["message"].Str?
  }

  /** The exact set of attributes of a stored record. */
  const EntryKeys: set<string> := {"logId", "timestamp", "datetime", "severity", "message", "type"}

  /** `create_log_entry`: the record to store. `logId` stands for
      `str(uuid.uuid4())`, `timestamp` for the clock reading in milliseconds
      and `isoDatetime` for `now.isoformat()`. */
  function CreateLogEntry(body: Dict, logId: string, timestamp: int, isoDatetime: string): (item: Dict)
    requires HasStringFields(body)
    ensures item.Keys == EntryKeys
    ensures item["logId"] == Str(logId)
    ensures item["timestamp"] == Dec(timestamp as real)
    ensures item["datetime"] == Str(isoDatetime + "Z")
    ensures item["severity"] == Str(Lower(body["severity"].s))
    ensures item["message"] == Str(Strip(body["message"].s))
    ensures item["type"] == Str(PartitionValue)
  {
    map[
      "logId" := Str(logId),
      "timestamp" := Dec(timestamp as real),
      "datetime" := Str(isoDatetime + "Z"),
      "severity" := Str(Lower(body["severity"].s)),
      "message" := Str(Strip(body["message"].s)),
      "type" := Str(PartitionValue)
    ]
  }

  /** What the stored record of a validated body satisfies: its severity is a
      known one in lower case, its message is non-empty, at most 10000
      characters long and free of surrounding whitespace, and its partition
      value is `LOG`. */
  lemma {:induction false} CreatedEntryIsNormalised(body: Dict, logId: string, timestamp: int, isoDatetime: string)
    requires Validate(body) == None
    ensures var item := CreateLogEntry(body, logId, timestamp, isoDatetime);
      && item["severity"].Str? && item["severity"].s in Severities
      && item["severity"].s == Lower(item["severity"].s)
      && item["message"].Str? && item["message"].s != []
      && |item["message"].s| <= MaxMessageLength
      && Strip(item["message"].s) == item["message"].s
      && item["type"] == Str("LOG")
  {
    var item := CreateLogEntry(body, logId, timestamp, isoDatetime);
    StripIdempotent(body["message"].s);
    LowerIdempotent(body["severity"].s);
  }

  /** The example `{"severity": "INFO", "message": "  hello  "}`. */
  lemma NormalisationExample(logId: string, timestamp: int, isoDatetime: string)
    ensures var body := map["severity" := Str("INFO"), "message" := Str("  hello  ")];
      && Validate(body) == None
      && CreateLogEntry(body, logId, timestamp, isoDatetime)["severity"] == Str("info")
      && CreateLogEntry(body, logId, timestamp, isoDatetime)["message"] == Str("hello")
  {
    assert Lower("INFO") == "info";
    assert Strip("  hello  ") == "hello" by {
      StripPaddedHello();
    }
  }

  lemma StripPaddedHello()
    ensures Strip("  hello  ") == "hello"
  {
    TrimLeftPaddedHello();
    TrimRightHelloPadded();
  }

  lemma TrimLeftPaddedHello()
    ensures TrimLeft("  hello  ") == "hello  "
  {
    var s0: string := "  hello  ";
    var s1: string := " hello  ";
    var s2: string := "hello  ";
    assert s0[0] == ' ' && s0[1..] == s1;
    assert s1[0] == ' ' && s1[1..] == s2;
    assert s2[0] == 'h' && !IsSpace(s2[0]);
    assert TrimLeft(s2) == s2;
    assert IsSpace(s1[0]);
    assert TrimLeft(s1) == s2;
    assert IsSpace(s0[0]);
  }

  lemma TrimRightHelloPadded()
    ensures TrimRight("hello  ") == "hello"
  {
    var s2: string := "hello  ";
    var s3: string := "hello ";
    var s4: string := "hello";
    assert s2[|s2| - 1] == ' ' && s2[..|s2| - 1] == s3;
    assert s3[|s3| - 1] == ' ' && s3[..|s3| - 1] == s4;
    assert s4[|s4| - 1] == 'o' && !IsSpace(s4[|s4| - 1]);
    assert TrimRight(s4) == s4;
    assert IsSpace(s3[|s3| - 1]);
    assert TrimRight(s3) == s4;
    assert IsSpace(s2[|s2| - 1]);
  }

  // ---------------------------------------------------------------------
  // lambda_handler

  /** How `table.put_item` ends: the write succeeds, it raises a botocore
      `ClientError`, or it raises any other exception. */
  datatype StoreResult = Stored | StoreClientError | StoreOtherError

  /** The handler's answer and the record it passed to `put_item`, if it got
      that far. */
  datatype IngestOutcome = IngestOutcome(response: Response, attempted: Option<Dict>)

  /** `create_response`: the ingest endpoint advertises `POST`. */
  function CreateResponse(status: int, body: Dict): (r: Response)
    ensures r.statusCode == status && r.allowMethods == "POST" && r.body == body
  {
    Response(status, "POST", body)
  }

  function ErrorResponse(status: int, text: string): Response {
    CreateResponse(status, map["error" := Str(text)])
  }

  /** `lambda_handler`. The id, clock reading and outcome of the table write
      are supplied from outside. */
  function Handle(event: Dict, decode: string -> Option<Dict>, logId: string, timestamp: int,
                  isoDatetime: string, store: StoreResult): (r: IngestOutcome)
    ensures r.response.allowMethods == "POST"
    ensures r.response.statusCode in {201, 400, 500}
  {
    match ParseRequestBody(event, decode)
    case InvalidJson =>
      IngestOutcome(ErrorResponse(400, "Invalid JSON in request body"), None)
    case InvalidFormat =>
      IngestOutcome(ErrorResponse(500, "Internal server error"), None)
    case Parsed(body) =>
      match Validate(body)
      case Some(e) => IngestOutcome(ErrorResponse(400, ErrorText(e)), None)
      case None =>
        var item := CreateLogEntry(body, logId, timestamp, isoDatetime);
        match store
        case Stored =>
          var created := map[
            "message" := Str("Log entry created successfully"),
            "logId" := item["logId"],
            "timestamp" := Int(Trunc(item["timestamp"].d))
          ];
          IngestOutcome(CreateResponse(201, created), Some(item))
        case StoreClientError =>
          IngestOutcome(ErrorResponse(500, "Failed to store log entry"), Some(item))
        case StoreOtherError =>
          IngestOutcome(ErrorResponse(500, "Internal server error"), Some(item))
  }

  /** A body that fails validation gets 400 with the validation message, and
      nothing is written. */
  lemma RejectedBodyIsNeverStored(event: Dict, decode: string -> Option<Dict>, logId: string,
                                  timestamp: int, isoDatetime: string, store: StoreResult)
    requires ParseRequestBody(event, decode).Parsed?
    requires Validate(ParseRequestBody(event, decode).body).Some?
    ensures var r := Handle(event, decode, logId, timestamp, isoDatetime, store);
      && r.attempted == None
      && r.response.statusCode == 400
      && r.response.body == map["error" := Str(ErrorText(Validate(ParseRequestBody(event, decode).body).value))]
  {
  }

  /** A valid body is written exactly as `CreateLogEntry` builds it, and a
      successful write answers 201 with the supplied id and the same integer
      timestamp. */
  lemma {:induction false} AcceptedBodyIsStored(event: Dict, decode: string -> Option<Dict>, logId: string,
                                                timestamp: int, isoDatetime: string, store: StoreResult)
    requires ParseRequestBody(event, decode).Parsed?
    requires Validate(ParseRequestBody(event, decode).body) == None
    ensures var body := ParseRequestBody(event, decode).body;
      var r := Handle(event, decode, logId, timestamp, isoDatetime, store);
      && r.attempted == Some(CreateLogEntry(body, logId, timestamp, isoDatetime))
      && (store == Stored ==>
            r.response.statusCode == 201
            && r.response.body == map["message" := Str("Log entry created successfully"),
                                      "logId" := Str(logId), "timestamp" := Int(timestamp)])
      && (store != Stored ==> r.response.statusCode == 500)
  {
    var body := ParseRequestBody(event, decode).body;
    var item := CreateLogEntry(body, logId, timestamp, isoDatetime);
    assert item["logId"] == Str(logId);
    assert Trunc(item["timestamp"].d) == timestamp by {
      TruncOfInt(timestamp);
    }
  }

  /** How the failures map to answers: undecodable JSON is a 400, an
      unrecognised envelope is a 500 (its `ValueError` falls into the generic
      handler), a table `ClientError` and any other write failure are 500s
      with their own messages. */
  lemma FailureResponses(event: Dict, decode: string -> Option<Dict>, logId: string,
                         timestamp: int, isoDatetime: string, store: StoreResult)
    ensures var p := ParseRequestBody(event, decode);
      var r := Handle(event, decode, logId, timestamp, isoDatetime, store);
      && (p == InvalidJson ==>
            r.response == Response(400, "POST", map["error" := Str("Invalid JSON in request body")]) && r.attempted == None)
      && (p == InvalidFormat ==>
            r.response == Response(500, "POST", map["error" := Str("Internal server error")]) && r.attempted == None)
      && (p.Parsed? && Validate(p.body) == None && store == StoreClientError ==>
            r.response.body == map["error" := Str("Failed to store log entry")])
      && (p.Parsed? && Validate(p.body) == None && store == StoreOtherError ==>
            r.response.body == map["error" := Str("Internal server error")])
  {
  }

  /** Status 201 means the payload was valid and the write succeeded; status
      400 means it was undecodable or invalid, and nothing was written. */
  lemma {:induction false} StatusMeaning(event: Dict, decode: string -> Option<Dict>, logId: string,
                                         timestamp: int, isoDatetime: string, store: StoreResult)
    ensures var p := ParseRequestBody(event, decode);
      var r := Handle(event, decode, logId, timestamp, isoDatetime, store);
      && (r.response.statusCode == 201 <==> p.Parsed? && Acceptable(p.body) && store == Stored)
      && (r.response.statusCode == 400 <==> p == InvalidJson || (p.Parsed? && !Acceptable(p.body)))
      && (r.response.statusCode == 400 ==> r.attempted == None)
  {
    var p := ParseRequestBody(event, decode);
    if p.Parsed? {
      ValidateAcceptsIff(p.body);
    }
  }
}
