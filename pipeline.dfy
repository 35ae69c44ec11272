/**
 * The orchestration (`get_records`): the response of the search request is
 * parsed and every record of it normalised, in the order of the response.
 */
module Pipeline {
  import opened Wrappers
  import opened Json
  import opened Records
  import opened Response

  /**
   * Every dict the normalisation reaches is well formed: each dict element of
   * a list answer that comes before the first non-dict element.
   */
  predicate RecordsWellFormed(response: Option<Body>)
  {
    response.Some? && response.value.Decoded? && response.value.value.JArray? ==>
      var items := response.value.value.items;
      forall i :: 0 <= i < |items| && items[i].JObject? && (forall j :: 0 <= j < i ==> items[j].JObject?) ==>
        WellFormed(items[i].fields)
  }

  /**
   * `get_records(...)`, given what `fetch_records` returned (None when the
   * request failed) and the second decode `loads`. Values `parse_results`
   * returns other than a list are iterated as Python would: a non-empty
   * string or dict yields elements without `.get`.
   */
  function GetRecords(response: Option<Body>, loads: Loads): (r: Result<seq<NormalizedRecord>, PyError>)
    requires RecordsWellFormed(response)
    ensures response.None? ==> r == Ok([])
    ensures r.Ok? && response.Some? && response.value.Decoded? && response.value.value.JArray? ==>
      var items := response.value.value.items;
      && |r.value| == |items|
      && forall i :: 0 <= i < |items| ==> items[i].JObject? && WellFormed(items[i].fields) && r.value[i] == ProcessItem(items[i].fields)
    ensures r.Err? ==> response.Some? && response.value.Decoded?
  {
    if response.None? then Ok([])
    else match ParseResults(response.value, loads)
      case Err(e) => Err(e)
      case Ok(records) =>
        match DictElements(records)
        case Err(e) => Err(e)
        case Ok(items) =>
          assert forall i :: 0 <= i < |items| ==> WellFormed(items[i]) by {
            if records.JArray? {
              forall i | 0 <= i < |items| ensures WellFormed(items[i]) {
                assert forall j :: 0 <= j < i ==> records.items[j].JObject?;
              }
            }
          }
          Ok(seq(|items|, (i: nat) requires i < |items| => ProcessItem(items[i])))
  }

  /**
   * A list answer of records yields exactly one normalised record per raw
   * record, in the same order; a list with a non-dict element raises.
   */
  lemma GetRecordsOfList(items: seq<Json>, loads: Loads)
    requires RecordsWellFormed(Some(Decoded(JArray(items))))
    ensures GetRecords(Some(Decoded(JArray(items))), loads).Ok? <==> forall i :: 0 <= i < |items| ==> items[i].JObject?
    ensures GetRecords(Some(Decoded(JArray(items))), loads).Err? ==>
      GetRecords(Some(Decoded(JArray(items))), loads).error == AttributeError
  {
  }

  /** Every failure mode before normalisation degrades to an empty result. */
  lemma GetRecordsEmptyCases(response: Option<Body>, loads: Loads)
    requires RecordsWellFormed(response)
    requires response.None? || response == Some(Malformed) || (response.Some? && response.value.Decoded? && ErrorReported(response.value.value, loads))
    ensures GetRecords(response, loads) == Ok([])
  {
    if response.Some? {
      ParseResultsEmptyIff(response.value, loads);
      assert DictElements(JArray([])) == Ok([]);
      assert |GetRecords(response, loads).value| == 0;
    }
  }
}
