/**
 * The response classifier (`check_for_error`, `parse_results`). The search
 * service answers either with a JSON list of records or with a JSON string
 * whose own decoding is an object carrying an `Error` field.
 */
module Response {
  import opened Wrappers
  import opened Json

  /** The outcome of `response.json()` on the body of a search response. */
  datatype Body = Malformed | Decoded(value: Json)

  /** The second decode, applied to a string-shaped answer: `json.loads`, None where it raises. */
  type Loads = string -> Option<Json>

  /**
   * The answer reports a truthy error: it is a string whose decoding is an
   * object with a truthy `Error` field.
   */
  predicate ErrorReported(recordsList: Json, loads: Loads)
  {
    && recordsList.JString?
    && loads(recordsList.s).Some?
    && loads(recordsList.s).value.JObject?
    && "Error" in loads(recordsList.s).value.fields
    && Truthy(loads(recordsList.s).value.fields["Error"])
  }

  /** A string-shaped answer whose second decode does not give an object, so `.get` cannot be applied. */
  predicate InnerDecodeFails(recordsList: Json, loads: Loads)
  {
    recordsList.JString? && !(loads(recordsList.s).Some? && loads(recordsList.s).value.JObject?)
  }

  /**
   * `check_for_error(records_list)`: the `Error` field of the re-decoded
   * string (None, i.e. JNull, when absent), None for any other value.
   * The second decode is not guarded, so its failure is an exception.
   */
  function CheckForError(recordsList: Json, loads: Loads): (r: Result<Json, PyError>)
    ensures !recordsList.JString? ==> r == Ok(JNull)
    ensures r.Err? <==> InnerDecodeFails(recordsList, loads)
    ensures r.Ok? ==> (Truthy(r.value) <==> ErrorReported(recordsList, loads))
    ensures recordsList.JString? && r.Ok? ==>
      var fields := loads(recordsList.s).value.fields;
      r.value == if "Error" in fields then fields["Error"] else JNull
  {
    match recordsList
    case JString(s) =>
      (match loads(s)
       case None => Err(JSONDecodeError)
       case Some(JObject(fields)) => Ok(Get(fields, "Error", JNull))
       case Some(_) => Err(AttributeError))
    case _ => Ok(JNull)
  }

  /**
   * `parse_results(response)`: [] when the body is not JSON or reports an
   * error, otherwise the decoded value itself. `len()` of the decoded value
   * is taken for logging, which raises for null, numbers and bools.
   */
  function ParseResults(body: Body, loads: Loads): (r: Result<Json, PyError>)
    ensures body.Malformed? ==> r == Ok(JArray([]))
    ensures body.Decoded? && body.value.JArray? ==> r == Ok(body.value)
    ensures r.Ok? ==> r.value == JArray([]) || (body.Decoded? && r.value == body.value)
    ensures r.Ok? ==> HasLen(r.value)
  {
    match body
    case Malformed => Ok(JArray([]))
    case Decoded(recordsList) =>
      match CheckForError(recordsList, loads)
      case Err(e) => Err(e)
      case Ok(errorMessage) =>
        if Truthy(errorMessage) then Ok(JArray([]))
        else if !HasLen(recordsList) then Err(TypeError)
        else Ok(recordsList)
  }

  /** The three ways to an empty answer: a body that is not JSON, a reported error, or an empty list. */
  lemma ParseResultsEmptyIff(body: Body, loads: Loads)
    ensures ParseResults(body, loads) == Ok(JArray([])) <==>
      body.Malformed? || ErrorReported(body.value, loads) || body.value == JArray([])
  {
  }

  /** When the call raises, and which exception escapes. */
  lemma ParseResultsRaisesIff(body: Body, loads: Loads)
    ensures ParseResults(body, loads).Err? <==>
      body.Decoded? && (InnerDecodeFails(body.value, loads) || !HasLen(body.value))
    ensures ParseResults(body, loads) == Err(TypeError) <==>
      body.Decoded? && (body.value.JNull? || body.value.JBool? || body.value.JNumber?)
  {
  }

  /** A body `[]` gives the empty list without an error. */
  lemma ParseResultsOfEmptyList(loads: Loads)
    ensures ParseResults(Decoded(JArray([])), loads) == Ok(JArray([]))
  {
  }

  /** A body that is the JSON string `{"Error":"bad request"}` gives the empty list. */
  lemma ParseResultsOfErrorString(loads: Loads)
    requires loads("{\"Error\":\"bad request\"}") == Some(JObject(map["Error" := JString("bad request")]))
    ensures ParseResults(Decoded(JString("{\"Error\":\"bad request\"}")), loads) == Ok(JArray([]))
  {
  }
}
