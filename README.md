# Log ingestion and retrieval handlers, modelled in Dafny

The system is a two-function log service on AWS Lambda. The **ingest** handler
takes a `{severity, message}` payload, validates it, builds a record with a
generated id and timestamp, and writes it to a DynamoDB table. It answers 201,
400 or 500. The **read-recent** handler queries the table's timestamp index for
the newest 100 records and projects each one to five transport fields. It
answers 200 with `{count, logs}`, or 500 with a classified error.

The model covers the code around the single table call in each handler:

- `text.dfy` (`Text`): Python's `str.strip()`, `str.isspace()` and `str.lower()`.
- `values.dfy` (`Values`): the dynamic Python values the handlers pass around.
  It also holds `Decimal` truncation (`int(Decimal)`) and the response envelope.
- `ingest.dfy` (`Ingest`): `parse_request_body`, `validate_log_entry`,
  `create_log_entry`, `create_response` and the status dispatch of `lambda_handler`.
- `read_recent.dfy` (`ReadRecent`): `convert_logs_to_json` (a loop, modelled as
  a method proved equal to a recursive specification), `decimal_default`,
  `create_response` and the error classification of `lambda_handler`.
- `end_to_end.dfy` (`EndToEnd`): a stored record carries the partition value
  the read query selects on, and when the query returns it, it comes back as
  a lossless projection.

Outside sources are parameters:

- `json.loads` is a function `decode: string -> Option<Dict>`.
- `uuid.uuid4()` and the clock are the parameters `logId`, `timestamp` and `isoDatetime`.
- The outcome of `put_item` is a `StoreResult`.
- The outcome of `table.query` is a `QueryOutcome`.
- The text of an exception (`str(e)`) is a parameter.

The ingest handler returns the response together with the record it passed to
`put_item`, if any. This makes "a rejected body is never written" a statement
about the model.

Two behaviours of the code are easy to misread:

- An event with no string or dict `body` and without both fields raises
  `ValueError`. The generic handler catches it, so the answer is 500
  "Internal server error", not 400.
- The 10000-character limit applies to the message before stripping, not to
  the stripped message.

## Model

| member | source | states |
|---|---|---|
| `Text.IsSpace` | lambdas/ingest/lambda_function.py:121 | the whitespace `strip()` removes includes space, tab, newline and carriage return, and never a letter or a digit |
| `Text.Strip` | lambdas/ingest/lambda_function.py:121-122 | the stripped message is no longer than the input and neither starts nor ends with whitespace |
| `Text.StripIsSlice` | lambdas/ingest/lambda_function.py:147 | `strip()` yields the slice `s[i..j]` with only whitespace removed at both ends, and nothing more could be removed |
| `Text.StripEmptyIff` | lambdas/ingest/lambda_function.py:121-122 | `not message.strip()` holds exactly when the message is all whitespace, including the empty message |
| `Text.StripIdempotent` | lambdas/ingest/lambda_function.py:147 | stripping the stored message again changes nothing |
| `Text.Lower` | lambdas/ingest/lambda_function.py:113 | lowering keeps the length and maps each character through the case fold |
| `Text.LowerIdempotent` | lambdas/ingest/lambda_function.py:146 | the stored severity is already in lower case |
| `Values.Trunc` | lambdas/read_recent/lambda_function.py:126 | `int()` of a decimal rounds toward zero: the result is within one of the input, on the zero side |
| `Values.TruncOfInt` | lambdas/ingest/lambda_function.py:66 | `int(Decimal(str(n)))` gives back `n` |
| `Values.TruncMonotonic` | lambdas/read_recent/lambda_function.py:126 | converting timestamps to integers keeps their order |
| `Values.IsIntegral` | lambdas/read_recent/lambda_function.py:158 | `obj % 1 == 0` holds exactly when `int(obj)` gives back the decimal itself |
| `Values.IntegralByTrunc` | lambdas/read_recent/lambda_function.py:158 | a decimal equals its floor exactly when it equals its truncation toward zero |
| `Ingest.ParseRequestBody` | lambdas/ingest/lambda_function.py:81-93 | `ValueError` is raised exactly when there is no string or dict body and not both fields; a JSON error arises only from a string body |
| `Ingest.ParsePriority` | lambdas/ingest/lambda_function.py:86-93 | a string body is decoded first, then a dict body is used, and only then the flat event; an event with no string or dict body and both fields is itself the payload |
| `Ingest.ErrorText` | lambdas/ingest/lambda_function.py:102-125 | every validation message is non-empty, so the handler's truth test on it is a test for failure |
| `Ingest.Validate` | lambdas/ingest/lambda_function.py:96-127 | a body that passes has both fields as strings, a known severity after lowering, a message that does not strip to empty and at most 10000 characters; a body without both string fields always fails, and never with the empty-message or length error |
| `Ingest.ValidateFirstFailure` | lambdas/ingest/lambda_function.py:101-125 | validation reports error `e` exactly when check `e` fails and every earlier check passes |
| `Ingest.ValidateAcceptsIff` | lambdas/ingest/lambda_function.py:102-127 | validation returns `None` exactly when both keys are present, the severity is a string whose lowercase is info, warning or error, and the message is a string that is not all whitespace and at most 10000 long before stripping |
| `Ingest.MissingBothReportsSeverity` | lambdas/ingest/lambda_function.py:102-103 | a body with neither field gets "Missing required field: severity" |
| `Ingest.SeverityCheckedBeforeMessage` | lambdas/ingest/lambda_function.py:109-111 | a non-string severity is reported whatever the message is |
| `Ingest.LengthLimitBeforeStripping` | lambdas/ingest/lambda_function.py:124-125 | a message over 10000 characters that is not all whitespace is refused even if stripping would shorten it |
| `Ingest.BlankMessageIsEmpty` | lambdas/ingest/lambda_function.py:121-122 | a whitespace-only message of any length is refused as empty |
| `Ingest.UnknownSeverityAndEmptyMessage` | lambdas/ingest/lambda_function.py:113-122 | severity "debug" is an invalid severity; an empty message with severity "error" is "Message cannot be empty" |
| `Ingest.CreateLogEntry` | lambdas/ingest/lambda_function.py:130-151 | the record has exactly the six keys; it copies the supplied id and timestamp, adds "Z" to the datetime, lowercases the severity, strips the message and sets `type` to `LOG` |
| `Ingest.CreatedEntryIsNormalised` | lambdas/ingest/lambda_function.py:142-149 | for a validated body the stored severity is lower case and one of the three; the stored message is non-empty, at most 10000 characters and already stripped; `type` is `LOG` |
| `Ingest.NormalisationExample` | lambdas/ingest/lambda_function.py:146-147 | `{"severity": "INFO", "message": "  hello  "}` validates and is stored as `info` / `hello` |
| `Ingest.CreateResponse` | lambdas/ingest/lambda_function.py:162-175 | the response carries the given status and body and advertises `POST` |
| `Ingest.Handle` | lambdas/ingest/lambda_function.py:47-78 | every answer advertises `POST` and is 201, 400 or 500 |
| `Ingest.RejectedBodyIsNeverStored` | lambdas/ingest/lambda_function.py:52-54 | a body that fails validation gets 400 with its validation message, and no write is attempted |
| `Ingest.AcceptedBodyIsStored` | lambdas/ingest/lambda_function.py:56-67 | a valid body is written exactly as `CreateLogEntry` builds it; a successful write answers 201 with the supplied id and the same integer timestamp; a failed write answers 500 |
| `Ingest.FailureResponses` | lambdas/ingest/lambda_function.py:69-78 | undecodable JSON gives 400 "Invalid JSON in request body"; an unrecognised envelope gives 500 "Internal server error"; a table `ClientError` gives 500 "Failed to store log entry"; any other write failure gives 500 "Internal server error" |
| `Ingest.StatusMeaning` | lambdas/ingest/lambda_function.py:47-78 | 201 exactly when the payload is acceptable and the write succeeds; 400 exactly when the JSON is undecodable or the payload is not acceptable, and then nothing is written |
| `ReadRecent.ToInt` | lambdas/read_recent/lambda_function.py:126 | `int()` succeeds on ints and decimals, keeps an int, truncates a decimal toward zero and gives an integral decimal's own value |
| `ReadRecent.Project` | lambdas/read_recent/lambda_function.py:124-130 | projection succeeds exactly when the five keys are present and the timestamp is a number; the result has exactly the five keys, copies four values and holds the integer timestamp |
| `ReadRecent.ProjectDropsOthersKeepsTimestamp` | lambdas/read_recent/lambda_function.py:124-130 | the `type` attribute is dropped, and an integral stored timestamp comes back as the same integer |
| `ReadRecent.ProjectAll` | lambdas/read_recent/lambda_function.py:121-133 | on success the output has the input's length and element `i` is the projection of item `i`; otherwise the fault is that of the first item that cannot be projected |
| `ReadRecent.ProjectAllFailureSticks` | lambdas/read_recent/lambda_function.py:123-131 | a failing item aborts the whole conversion with its fault |
| `ReadRecent.ConvertLogsToJson` | lambdas/read_recent/lambda_function.py:116-133 | the appending loop computes exactly `ProjectAll` |
| `ReadRecent.DecimalDefault` | lambdas/read_recent/lambda_function.py:152-159 | it raises `TypeError` exactly for a non-decimal and `InvalidOperation` exactly for a decimal of magnitude 10^28 or more (28-digit default context); below that it gives an int exactly for an integral decimal, equal to it, and otherwise the decimal's value as a float |
| `ReadRecent.DecimalDefaultRoundTrip` | lambdas/read_recent/lambda_function.py:157-158 | an integer stored as a decimal is serialised as the same integer exactly when its magnitude is below 10^28; from there on `decimal_default` raises |
| `ReadRecent.Serialisable` | lambdas/read_recent/lambda_function.py:148-159 | `json.dumps` with `decimal_default` encodes strings, ints and JSON scalars, encodes a decimal exactly when its magnitude is below 10^28, fails on any other leaf value (a set, bytes), and encodes lists and dicts element by element |
| `ReadRecent.CreateResponse` | lambdas/read_recent/lambda_function.py:136-149 | the response carries the given status and body and advertises `GET` |
| `ReadRecent.InternalError` | lambdas/read_recent/lambda_function.py:76-81 | the generic branch answers 500, `GET`, with exactly `error` "Internal server error" and the exception text as `details` |
| `ReadRecent.LogList` | lambdas/read_recent/lambda_function.py:58 | the `logs` array has one object per converted log, in order |
| `ReadRecent.Handle` | lambdas/read_recent/lambda_function.py:48-81 | every answer advertises `GET` and is 200 or 500; every 500 body has exactly the keys `error` and `details` |
| `ReadRecent.SuccessResponse` | lambdas/read_recent/lambda_function.py:50-59 | on success the status is 200, `count` is the number of items returned, and log `i` is the projection of item `i` |
| `ReadRecent.EmptyResult` | lambdas/read_recent/lambda_function.py:56-59 | an empty result, or a response without `Items`, answers 200 with count 0 and an empty list |
| `ReadRecent.ClientErrorClassification` | lambdas/read_recent/lambda_function.py:61-74 | `ResourceNotFoundException` gives 500 "Database table not found"; any other code gives 500 "Failed to retrieve log entries" with the error text as details |
| `ReadRecent.OtherFailuresAreInternal` | lambdas/read_recent/lambda_function.py:48-81 | a non-`ClientError` query exception, the first item that cannot be converted, and a body `json.dumps` cannot encode each answer 500 "Internal server error" with that exception's text as `details` |
| `ReadRecent.Status200Iff` | lambdas/read_recent/lambda_function.py:48-81 | the answer is 200 exactly when the query returned, every item projects and the body can be serialised |
| `ReadRecent.OrderAndCapPreserved` | lambdas/read_recent/lambda_function.py:93-104 | if the index returns at most 100 items newest first, the answer lists at most 100 logs whose integer timestamps are non-increasing |
| `EndToEnd.StoredRecordIsInQueriedPartition` | lambdas/read_recent/lambda_function.py:95-101 | a stored record has the `type` value `LOG` that the read query selects on |
| `EndToEnd.StoredRecordReadsBack` | lambdas/read_recent/lambda_function.py:124-130 | reading a stored record back gives its id, the same integer timestamp, its datetime, the lowercased severity and the stripped message, and the result can be serialised |
| `EndToEnd.StoredRecordsAreListed` | lambdas/read_recent/lambda_function.py:53-59 | a table holding only ingest-built records is answered with 200, a count equal to the number of records, and one log per record in table order |

## Left out

- The DynamoDB calls (`put_item`, `query`), the `boto3` setup and the environment lookup are foreign I/O. Their outcomes are parameters.
- Newest-first order and the cap of 100 items are guarantees of the index, not of this code. `ReadRecent.OrderAndCapPreserved` takes them as a precondition.
- `json.loads` and `json.dumps` are library code. Decoding is a parameter. The response body is the structured value before encoding. Serialisation is modelled only as the question whether `json.dumps` succeeds, which `decimal_default` decides (`ReadRecent.Serialisable`): it fails with `TypeError` on an object that is not a decimal and with `decimal.InvalidOperation` on a decimal of magnitude 10^28 or more. Which of several such values is reached first, and so which exception's text ends up in `details`, is not modelled: both are the fault `NotSerialisable`.
- The decoded body is restricted to JSON objects. A JSON document that is a list, string or number is not modelled. On those, the `in` tests of `validate_log_entry` do substring or membership tests or raise.
- `uuid.uuid4()` and `datetime.utcnow()` are nondeterministic and become parameters. The timestamp computation `int(now.timestamp() * 1000)` goes through floats, and it reads a naive UTC time as local time. It is not modelled, so freshness and positivity of ids and timestamps are not modelled either.
- The float branch of `decimal_default` is floating point. The model returns the exact decimal, marked `AsFloat`, and does not round it.
- Logging (`print`) is left out. Of the response headers, only `Access-Control-Allow-Methods` is modelled.
- `Text.Lower` folds only ASCII capitals and leaves every other character unchanged. Python also lowers non-ASCII letters, but accept/reject is the same. The severity names are ASCII. The only non-ASCII characters that Python lowers to ASCII are U+0130 (it becomes two characters) and U+212A (it becomes `k`), and neither can complete a severity name.
- `Ingest.ErrorText` spells the invalid-severity message with the names in the order `info, warning, error`. Python joins a set whose iteration order for strings varies between processes, so the real order may differ.
- `ReadRecent.ToInt` treats a timestamp that is neither an int nor a decimal as a conversion failure. Python's `int()` also accepts numeric strings, booleans and floats. The table client only ever returns numbers as decimals.
- The text of a Python exception (`str(e)`) is a parameter of the read handler (`describe`, or the text carried by the query outcome), not computed by the model.
