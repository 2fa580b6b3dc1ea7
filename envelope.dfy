/**
 * The response envelope check `__check_json`. The response text has already
 * been decoded into a JSON value; a successful response is an object whose
 * `status` is "OK" and whose `result` is the payload, a failed one carries a
 * `comment` instead.
 */
module Envelope {
  import opened Wrappers

  /** A decoded JSON value. */
  datatype Json =
    | JNull
    | JBool(b: bool)
    | JNumber(n: int)
    | JString(s: string)
    | JArray(items: seq<Json>)
    | JObject(fields: map<string, Json>)

  /** The exceptions `__check_json` raises. */
  datatype CheckError =
    | Failed(comment: Json)      // ValueError(comment): the server reported an error
    | MissedField(name: string)  // ValueError('Missed required field', name)
    | NotAnObject                // TypeError: the top-level value cannot be indexed by a key

  /**
   * `__check_json` on the decoded response: the result of an "OK" answer,
   * the comment of any other status, and otherwise the first required key
   * that is missing on the branch taken.
   */
  function CheckJson(values: Json): (r: Result<Json, CheckError>)
    ensures r.Ok? <==>
      values.JObject? && "status" in values.fields && values.fields["status"] == JString("OK")
      && "result" in values.fields
    ensures r.Ok? ==> r.value == values.fields["result"]
    ensures values.JObject? && "status" !in values.fields ==> r == Err(MissedField("status"))
    ensures (values.JObject? && "status" in values.fields && values.fields["status"] == JString("OK")
             && "result" !in values.fields) ==> r == Err(MissedField("result"))
    ensures (values.JObject? && "status" in values.fields && values.fields["status"] != JString("OK")) ==>
      r == if "comment" in values.fields then Err(Failed(values.fields["comment"]))
           else Err(MissedField("comment"))
    ensures r == Err(NotAnObject) <==> !values.JObject?
  {
    match values
    case JObject(fields) =>
      if "status" !in fields then Err(MissedField("status"))
      else if fields["status"] == JString("OK") then
        if "result" in fields then Ok(fields["result"]) else Err(MissedField("result"))
      else if "comment" in fields then Err(Failed(fields["comment"]))
      else Err(MissedField("comment"))
    case _ => Err(NotAnObject)
  }

  /** The envelope a server sends with a successful answer. */
  function OkEnvelope(result: Json): Json
  {
    JObject(map["status" := JString("OK"), "result" := result])
  }

  /** The envelope a server sends with a failure. */
  function FailedEnvelope(comment: Json): Json
  {
    JObject(map["status" := JString("FAILED"), "comment" := comment])
  }

  /** A successful envelope yields exactly its result, whatever other fields it has. */
  lemma OkEnvelopePassesResult(result: Json, extra: map<string, Json>)
    ensures CheckJson(OkEnvelope(result)) == Ok(result)
    ensures var fields := extra["status" := JString("OK")]["result" := result];
      CheckJson(JObject(fields)) == Ok(result)
  {
  }

  /** A failed envelope raises with exactly its comment. */
  lemma FailedEnvelopeRaisesComment(comment: Json)
    ensures CheckJson(FailedEnvelope(comment)) == Err(Failed(comment))
  {
  }

  /** Any status other than "OK" raises with the comment, whatever other fields there are. */
  lemma NonOkStatusRaisesComment(fields: map<string, Json>)
    requires "status" in fields && fields["status"] != JString("OK")
    requires "comment" in fields
    ensures CheckJson(JObject(fields)) == Err(Failed(fields["comment"]))
  {
  }

  /** An object without `status` is reported as missing `status`, whatever else it holds. */
  lemma MissingStatusNamed(fields: map<string, Json>)
    requires "status" !in fields
    ensures CheckJson(JObject(fields)) == Err(MissedField("status"))
  {
  }

  /** A check that succeeds came from the envelope of its result, up to extra fields. */
  lemma {:induction false} CheckJsonOkInverse(values: Json, result: Json)
    requires CheckJson(values) == Ok(result)
    ensures values.JObject?
    ensures values.fields == values.fields["status" := JString("OK")]["result" := result]
    ensures CheckJson(OkEnvelope(result)) == CheckJson(values)
  {
    var fields := values.fields;
    var rebuilt := fields["status" := JString("OK")]["result" := result];
    assert forall k :: k in fields <==> k in rebuilt;
    assert forall k :: k in fields ==> fields[k] == rebuilt[k];
  }
}
