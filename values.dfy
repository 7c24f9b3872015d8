/** The Python values the two handlers pass around: the decoded request, the
    items read from and written to the table, and the response envelope. */
module Values {

  datatype Option<+T> = None | Some(value: T)

  datatype Result<+R, +E> = Success(value: R) | Failure(error: E)

  /** A Python value as the handlers see it. `Dec` is a `decimal.Decimal`, the
      type the table client uses for every number; being a finite decimal it
      is an exact rational. `Scalar` is a value `json` encodes natively
      (`True`, `False`, `None`, a float); `Opaque` is one it cannot (a set, a
      bytes object). */
  datatype Value =
    | Str(s: string)
    | Int(i: int)
    | Dec(d: real)
    | Arr(elems: seq<Value>)
    | Obj(fields: map<string, Value>)
    | Scalar
    | Opaque

  /** A table item, a request body, a Lambda event: a dict with string keys. */
  type Dict = map<string, Value>

  /** Python's `int(d)` on a decimal: truncation toward zero. */
  function Trunc(d: real): (r: int)
    ensures 0.0 <= d ==> r as real <= d < r as real + 1.0
    ensures d < 0.0 ==> r as real - 1.0 < d <= r as real
  {
    if 0.0 <= d then d.Floor else -((-d).Floor)
  }

  /** `int(Decimal(n))` gives back `n`. */
  lemma TruncOfInt(n: int)
    ensures Trunc(n as real) == n
  {
  }

  /** Truncation keeps order: a non-increasing run of decimals stays
      non-increasing as integers. */
  lemma TruncMonotonic(a: real, b: real)
    requires a <= b
    ensures Trunc(a) <= Trunc(b)
  {
    if 0.0 <= a {
      assert a.Floor <= b.Floor;
    } else if b < 0.0 {
      assert (-b).Floor <= (-a).Floor;
    }
  }

  /** Python's `obj % 1 == 0` on a decimal: the value is integral. */
  predicate IsIntegral(d: real): (r: bool)
    ensures r <==> Trunc(d) as real == d
  {
    IntegralByTrunc(d);
    d == d.Floor as real
  }

  /** Flooring and truncating agree on whether a decimal is integral. */
  lemma IntegralByTrunc(d: real)
    ensures d == d.Floor as real <==> Trunc(d) as real == d
  {
    if d < 0.0 {
      var k := Trunc(d);
      if d == d.Floor as real {
        assert (-d).Floor == -d.Floor;
      }
    }
  }

  /** The HTTP response a handler returns: the status code, the value of its
      `Access-Control-Allow-Methods` header, and the body before it is
      serialised by `json.dumps`. */
  datatype Response = Response(statusCode: int, allowMethods: string, body: Dict)
}
