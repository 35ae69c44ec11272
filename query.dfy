/**
 * The query built by `fetch_records`: the name is composed surname first and
 * wrapped with the date range into a one-element list of criteria objects,
 * which is what gets JSON-encoded into the request.
 */
module Query {
  import opened Wrappers
  import opened Json

  datatype Criteria = Criteria(fullName: string, fileDateStart: string, fileDateEnd: string)

  /** `f"{last_name} {first_name}"`. */
  function FullName(firstName: string, lastName: string): (name: string)
    ensures |name| == |lastName| + 1 + |firstName|
    ensures name[..|lastName|] == lastName && name[|lastName|] == ' ' && name[|lastName| + 1..] == firstName
  {
    lastName + " " + firstName
  }

  /** Position of the first space in s. */
  function FirstSpace(s: string): (r: Option<nat>)
    ensures r.Some? ==> r.value < |s| && s[r.value] == ' ' && forall j :: 0 <= j < r.value ==> s[j] != ' '
    ensures r.None? ==> forall j :: 0 <= j < |s| ==> s[j] != ' '
  {
    if s == [] then None
    else if s[0] == ' ' then Some(0)
    else match FirstSpace(s[1..])
      case None => None
      case Some(k) => Some(k + 1)
  }

  /** Splits a full name at its first space into (first name, last name). */
  function SplitFullName(fullName: string): Option<(string, string)>
  {
    match FirstSpace(fullName)
    case None => None
    case Some(k) => Some((fullName[k + 1..], fullName[..k]))
  }

  /**
   * The surname comes first and nothing is lost: a surname without spaces is
   * read back, with the first name, from the composed name.
   */
  lemma SplitFullNameOfFullName(firstName: string, lastName: string)
    requires forall j :: 0 <= j < |lastName| ==> lastName[j] != ' '
    ensures SplitFullName(FullName(firstName, lastName)) == Some((firstName, lastName))
  {
    var full := FullName(firstName, lastName);
    assert full[|lastName|] == ' ';
    assert forall j :: 0 <= j < |lastName| ==> full[j] == lastName[j];
    var k := FirstSpace(full);
    assert k.Some? && k.value == |lastName|;
    assert full[..|lastName|] == lastName;
    assert full[|lastName| + 1..] == firstName;
  }

  /** The criteria of `fetch_records(first_name, last_name, from_date, thru_date)`. */
  function BuildCriteria(firstName: string, lastName: string, fromDate: string, thruDate: string): (c: Criteria)
    ensures |c.fullName| == |lastName| + 1 + |firstName|
    ensures c.fullName[..|lastName|] == lastName && c.fullName[|lastName|] == ' ' && c.fullName[|lastName| + 1..] == firstName
    ensures (forall j :: 0 <= j < |lastName| ==> lastName[j] != ' ') ==> SplitFullName(c.fullName) == Some((firstName, lastName))
    ensures c.fileDateStart == fromDate && c.fileDateEnd == thruDate
  {
    var c := Criteria(FullName(firstName, lastName), fromDate, thruDate);
    if forall j :: 0 <= j < |lastName| ==> lastName[j] != ' ' then
      SplitFullNameOfFullName(firstName, lastName); c
    else c
  }

  /** The value `json.dumps` is applied to: `[{"full_name": …, "file_date_start": …, "file_date_end": …}]`. */
  function CriteriaPayload(c: Criteria): (payload: Json)
    ensures payload.JArray? && |payload.items| == 1 && payload.items[0].JObject?
    ensures payload.items[0].fields.Keys == {"full_name", "file_date_start", "file_date_end"}
    ensures PayloadCriteria(payload) == Some(c)
  {
    JArray([JObject(map[
      "full_name" := JString(c.fullName),
      "file_date_start" := JString(c.fileDateStart),
      "file_date_end" := JString(c.fileDateEnd)])])
  }

  /** Reads criteria back from a decoded payload. */
  function PayloadCriteria(payload: Json): Option<Criteria>
  {
    if payload.JArray? && |payload.items| == 1 && payload.items[0].JObject? then
      var fields := payload.items[0].fields;
      if && "full_name" in fields && fields["full_name"].JString?
         && "file_date_start" in fields && fields["file_date_start"].JString?
         && "file_date_end" in fields && fields["file_date_end"].JString?
      then Some(Criteria(fields["full_name"].s, fields["file_date_start"].s, fields["file_date_end"].s))
      else None
    else None
  }

  /** The payload carries the criteria without loss. */
  lemma PayloadRoundTrip(c: Criteria)
    ensures PayloadCriteria(CriteriaPayload(c)) == Some(c)
  {
  }
}
