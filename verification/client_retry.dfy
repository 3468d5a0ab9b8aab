/** The browser query client's retry rule: a failed query is retried up to three times unless
    the failure is the server refusing an unauthenticated caller. */
module ClientRetry {

  /** The JavaScript values an error's `data` can hold; arrays are objects keyed by index. */
  datatype JsValue =
    | JsUndefined
    | JsNull
    | JsBool(b: bool)
    | JsNumber(n: int)
    | JsString(s: string)
    | JsObject(props: map<string, JsValue>)
    | JsFunction(props: map<string, JsValue>)

  /** What a failed query threw: a tRPC client error carrying `data`, or anything else. */
  datatype Thrown = TrpcClientError(data: JsValue) | OtherThrown(value: JsValue)

  const MaxFailures: int := 3
  const UnauthorizedCode: string := "UNAUTHORIZED"

  /** `typeof v`: null is an "object". */
  function TypeOf(v: JsValue): string {
    match v
    case JsUndefined => "undefined"
    case JsNull => "object"
    case JsBool(_) => "boolean"
    case JsNumber(_) => "number"
    case JsString(_) => "string"
    case JsObject(_) => "object"
    case JsFunction(_) => "function"
  }

  /** `if (v)` on a value. */
  predicate JsTruthy(v: JsValue) {
    match v
    case JsUndefined => false
    case JsNull => false
    case JsBool(b) => b
    case JsNumber(n) => n != 0
    case JsString(s) => s != ""
    case JsObject(_) => true
    case JsFunction(_) => true
  }

  /** `typeof obj === "object" && obj && "code" in obj && obj.code === "UNAUTHORIZED"` */
  predicate IsUnauthorized(v: JsValue)
    ensures v.JsUndefined? || v.JsNull? || v.JsString? || v.JsFunction? ==> !IsUnauthorized(v)
  {
    && TypeOf(v) == "object"
    && JsTruthy(v)
    && v.JsObject? && "code" in v.props
    && v.props["code"] == JsString(UnauthorizedCode)
  }

  /** `handleUnauthorizedErrorsOnClient`: only in a browser, only for a tRPC client error. */
  predicate HandleUnauthorized(error: Thrown, inBrowser: bool)
    ensures HandleUnauthorized(error, inBrowser) ==>
              && inBrowser && error.TrpcClientError? && error.data.JsObject?
              && "code" in error.data.props && error.data.props["code"] == JsString("UNAUTHORIZED")
  {
    if !inBrowser then false
    else if !error.TrpcClientError? then false
    else IsUnauthorized(error.data)
  }

  /** The `retry` option of the query client. */
  predicate ShouldRetry(failureCount: int, error: Thrown, inBrowser: bool)
    ensures ShouldRetry(failureCount, error, inBrowser) ==> failureCount < 3
    ensures failureCount < 3 && (!inBrowser || error.OtherThrown?) ==> ShouldRetry(failureCount, error, inBrowser)
  {
    if HandleUnauthorized(error, inBrowser) then false else failureCount < MaxFailures
  }

  /** `isUnauthorized` holds exactly for a non-null object (not a function) whose `code` is the
      string "UNAUTHORIZED". */
  lemma UnauthorizedShape(v: JsValue)
    ensures IsUnauthorized(v) <==> v.JsObject? && "code" in v.props && v.props["code"] == JsString("UNAUTHORIZED")
    ensures v.JsNull? || v.JsFunction? || v.JsString? ==> !IsUnauthorized(v)
  {
  }

  /** A query is retried exactly when its failure is not an unauthorized tRPC error seen in a
      browser and it has failed fewer than three times. */
  lemma RetryIff(failureCount: int, error: Thrown, inBrowser: bool)
    ensures ShouldRetry(failureCount, error, inBrowser) <==>
              && !(inBrowser && error.TrpcClientError? && IsUnauthorized(error.data))
              && failureCount < 3
  {
  }

  /** On the server nothing is classified unauthorized, so retries depend on the count alone. */
  lemma ServerRetriesByCount(failureCount: int, error: Thrown)
    ensures !HandleUnauthorized(error, false)
    ensures ShouldRetry(failureCount, error, false) <==> failureCount < 3
  {
  }

  /** An error that is not a tRPC client error is never classified unauthorized, whatever it
      holds. */
  lemma OtherErrorsNotUnauthorized(v: JsValue, inBrowser: bool)
    ensures !HandleUnauthorized(OtherThrown(v), inBrowser)
  {
  }

  /** An unauthorized tRPC error in a browser is never retried, whatever the count. */
  lemma UnauthorizedNeverRetried(failureCount: int, props: map<string, JsValue>)
    requires "code" in props && props["code"] == JsString("UNAUTHORIZED")
    ensures HandleUnauthorized(TrpcClientError(JsObject(props)), true)
    ensures !ShouldRetry(failureCount, TrpcClientError(JsObject(props)), true)
  {
  }

  /** From the third failure on nothing is retried. */
  lemma AtMostThreeRetries(failureCount: int, error: Thrown, inBrowser: bool)
    requires failureCount >= 3
    ensures !ShouldRetry(failureCount, error, inBrowser)
  {
  }

  /** The retries granted to a query whose successive attempts fail with `errors`, the
      failure count passed to the rule starting at `from` and growing by one per failure:
      retrying stops at the first refusal. */
  function RetriesGranted(errors: seq<Thrown>, inBrowser: bool, from: nat): (r: nat)
    ensures r <= |errors|
    ensures from <= 3 ==> from + r <= 3
    ensures from >= 3 ==> r == 0
    ensures forall k :: 0 <= k < r ==> !HandleUnauthorized(errors[k], inBrowser)
    ensures r < |errors| && from + r < 3 ==> HandleUnauthorized(errors[r], inBrowser)
    decreases |errors|
  {
    if |errors| == 0 || !ShouldRetry(from, errors[0], inBrowser) then 0
    else 1 + RetriesGranted(errors[1..], inBrowser, from + 1)
  }

  /** Counting from zero, a query whose failures are never unauthorized is retried
      min(3, failures) times, and an unauthorized first failure in a browser is not retried. */
  lemma RetriesFromZero(errors: seq<Thrown>, inBrowser: bool)
    ensures (forall k :: 0 <= k < |errors| ==> !HandleUnauthorized(errors[k], inBrowser)) ==>
              RetriesGranted(errors, inBrowser, 0) == if |errors| < 3 then |errors| else 3
    ensures |errors| > 0 && HandleUnauthorized(errors[0], inBrowser) ==> RetriesGranted(errors, inBrowser, 0) == 0
  {
  }
}
