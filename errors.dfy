/** What the code throws and how a thrown value becomes the message shown to the user:
    the `APIError` class, `createAPIError`, `handleAPIError` and `assertAPIKey`. */
module Errors {
  import opened Types
  import opened Text

  /** A thrown value. `ApiError` is an `APIError` object (a subclass of `Error`),
      `PlainError` any other `Error`, and `NonError` a thrown value that is not an
      `Error` at all (a string, a number, ...), described by `what`. */
  datatype Thrown =
    | ApiError(message: string, statusCode: Option<int>, response: Option<string>)
    | PlainError(message: string)
    | NonError(what: string)

  /** The `name` property of a thrown error object. */
  function Name(e: Thrown): (n: string)
    requires !e.NonError?
    ensures e.ApiError? <==> n == "APIError"
  {
    if e.ApiError? then "APIError" else "Error"
  }

  /** `new APIError(message, statusCode, response)`. */
  function NewApiError(message: string, statusCode: Option<int>, response: Option<string>): (e: Thrown)
    ensures e.ApiError? && Name(e) == "APIError" && e.message == message
    ensures e.statusCode == statusCode && e.response == response
  {
    ApiError(message, statusCode, response)
  }

  const ApiErrorPrefix: string := "OpenAI API error: "
  const StatusSeparator: string := " - "

  /** The error raised for a response whose status is not ok. */
  function CreateApiError(statusCode: int, responseText: string): (e: Thrown)
    ensures e.ApiError? && e.statusCode == Some(statusCode) && e.response == Some(responseText)
    ensures StartsWith(e.message, ApiErrorPrefix) && EndsWith(e.message, responseText)
  {
    NewApiError(ApiErrorPrefix + (IntString(statusCode) + (StatusSeparator + responseText)),
                Some(statusCode), Some(responseText))
  }

  /** The message shown to the user for a thrown value. */
  function HandleApiError(e: Thrown): string {
    match e
    case ApiError(m, _, _) => m
    case PlainError(m) => m
    case NonError(_) => ApiErrorMessage
  }

  /** The error a request function throws after catching `e`: a new `Error` whose message
      is `prefix` followed by the caught error's message, or by the generic message when
      what was caught is not an error. */
  function Rethrown(prefix: string, e: Thrown): (r: Thrown)
    ensures r.PlainError? && StartsWith(r.message, prefix)
    ensures !e.NonError? ==> r.message == prefix + e.message
    ensures e.NonError? ==> r.message == prefix + ApiErrorMessage
  {
    PlainError(prefix + HandleApiError(e))
  }

  /** `assertAPIKey`: `None` when the key passes, else the error it throws. The key is
      `None` when it is `undefined`. */
  function AssertApiKey(apiKey: Option<string>): Option<Thrown> {
    if apiKey.None? || apiKey.value == "" then Some(PlainError(NoApiKeyMessage)) else None
  }

  /** Every error object is shown by its own message, an `APIError` included; anything
      else thrown is shown as the generic message. */
  lemma HandleApiErrorMessage(e: Thrown)
    ensures !e.NonError? ==> HandleApiError(e) == e.message
    ensures e.NonError? ==> HandleApiError(e) == ApiErrorMessage
  {
  }

  /** The message of a created API error reads back to the status and the body: two
      created errors with the same message have the same status and body. */
  lemma CreateApiErrorInjective(s1: int, t1: string, s2: int, t2: string)
    requires HandleApiError(CreateApiError(s1, t1)) == HandleApiError(CreateApiError(s2, t2))
    ensures s1 == s2 && t1 == t2
  {
    var u1, u2 := IntString(s1), IntString(s2);
    IntStringNoSpace(s1);
    IntStringNoSpace(s2);
    DropPrefix(ApiErrorPrefix, u1 + (StatusSeparator + t1), u2 + (StatusSeparator + t2));
    SplitAtSpace(u1, u2, StatusSeparator, t1, t2);
    IntStringInjective(s1, s2);
  }

  lemma DropPrefix(p: string, a: string, b: string)
    requires p + a == p + b
    ensures a == b
  {
    assert a == (p + a)[|p|..];
    assert b == (p + b)[|p|..];
  }

  /** A number rendered in decimal contains no space. */
  lemma IntStringNoSpace(i: int)
    ensures ' ' !in IntString(i)
  {
    var n := if i < 0 then -i else i;
    var d := NatString(n);
    assert forall k :: 0 <= k < |d| ==> d[k] != ' ';
    if i < 0 {
      assert IntString(i) == "-" + d;
      assert forall k :: 0 <= k < |IntString(i)| ==> IntString(i)[k] != ' ' by {
        forall k | 0 <= k < |IntString(i)|
          ensures IntString(i)[k] != ' '
        {
          if k > 0 {
            assert IntString(i)[k] == d[k - 1];
          }
        }
      }
    }
  }

  /** Two texts `a + sep + r` whose heads have no space and whose separator starts with
      one agree on head and rest. */
  lemma SplitAtSpace(a1: string, a2: string, sep: string, r1: string, r2: string)
    requires ' ' !in a1 && ' ' !in a2 && |sep| > 0 && sep[0] == ' '
    requires a1 + (sep + r1) == a2 + (sep + r2)
    ensures a1 == a2 && r1 == r2
  {
    var m := a1 + (sep + r1);
    FirstSpace(a1, sep + r1);
    FirstSpace(a2, sep + r2);
    assert |a1| == |a2|;
    assert a1 == m[..|a1|];
    assert a2 == m[..|a2|];
    DropPrefix(a1, sep + r1, sep + r2);
    DropPrefix(sep, r1, r2);
  }

  /** In `a + t` with no space in `a` and `t` starting with a space, the first space is at
      index `|a|`. */
  lemma FirstSpace(a: string, t: string)
    requires ' ' !in a && |t| > 0 && t[0] == ' '
    ensures (a + t)[|a|] == ' '
    ensures forall k :: 0 <= k < |a| ==> (a + t)[k] != ' '
  {
    assert forall k :: 0 <= k < |a| ==> (a + t)[k] == a[k];
  }

  /** A created API error is shown as `OpenAI API error: <status> - <body>`. */
  lemma CreatedErrorShown(s: int, t: string)
    ensures HandleApiError(CreateApiError(s, t)) == ApiErrorPrefix + IntString(s) + " - " + t
  {
    assert ApiErrorPrefix + (IntString(s) + (StatusSeparator + t))
        == ApiErrorPrefix + IntString(s) + StatusSeparator + t;
  }

  /** The key check fails exactly for a missing or empty key; a key of spaces passes. */
  lemma AssertApiKeyIff(apiKey: Option<string>)
    ensures AssertApiKey(apiKey).Some? <==> (apiKey == None || apiKey == Some(""))
    ensures AssertApiKey(apiKey).Some? ==> HandleApiError(AssertApiKey(apiKey).value) == NoApiKeyMessage
  {
  }

  lemma SpaceKeyPasses()
    ensures AssertApiKey(Some(" ")) == None
  {
  }
}
