/**
 * The pure part of the enrichment lookup (`get_additional_info`): the
 * instrument's date is read from a `/Date(<milliseconds>)/` envelope and its
 * parties are split into grantors ("from", Direction 1) and grantees ("to",
 * Direction 0). Any exception in this part is caught and turns the whole
 * answer into the empty one.
 */
module Enrichment {
  import opened Wrappers
  import opened PyStr
  import opened Json

  datatype AdditionalInfo = AdditionalInfo(from: seq<Json>, to: seq<Json>, recordDate: Option<int>)

  /** `{"from": [], "to": [], "record_date": None}`. */
  const EMPTY_INFO: AdditionalInfo := AdditionalInfo([], [], None)

  /** The characters `str.strip('/Date()')` removes: a set, not a prefix and a suffix. */
  const DATE_ENVELOPE: set<char> := {'/', 'D', 'a', 't', 'e', '(', ')'}

  /**
   * `record_date` from the `FileDate` value: None when the value is falsy,
   * otherwise `int(value.strip('/Date()'))`. A non-string has no `strip`
   * and a non-integer remainder makes `int` raise.
   */
  function DecodeFileDate(v: Json): (r: Result<Option<int>, PyError>)
    ensures !Truthy(v) ==> r == Ok(None)
    ensures Truthy(v) && !v.JString? ==> r == Err(AttributeError)
    ensures r.Ok? && r.value.Some? ==> v.JString? && StrToInt(Strip(v.s, DATE_ENVELOPE)) == r.value
    ensures v.JString? && Truthy(v) ==> (r.Err? <==> StrToInt(Strip(v.s, DATE_ENVELOPE)).None?)
  {
    if !Truthy(v) then Ok(None)
    else if !v.JString? then Err(AttributeError)
    else match StrToInt(Strip(v.s, DATE_ENVELOPE))
      case None => Err(ValueError)
      case Some(n) => Ok(Some(n))
  }

  /** Stripping the envelope leaves what it wraps, when that neither starts nor ends with an envelope character. */
  lemma StripEnvelope(core: string)
    requires |core| > 0 && core[0] !in DATE_ENVELOPE && core[|core| - 1] !in DATE_ENVELOPE
    ensures Strip("/Date(" + core + ")/", DATE_ENVELOPE) == core
  {
    var pre, post := "/Date(", ")/";
    assert forall i :: 0 <= i < |pre| ==> pre[i] in DATE_ENVELOPE by {
      assert pre == ['/', 'D', 'a', 't', 'e', '('];
    }
    assert forall i :: 0 <= i < |post| ==> post[i] in DATE_ENVELOPE by {
      assert post == [')', '/'];
    }
    StripKeepsCore(pre, core, post, DATE_ENVELOPE);
  }

  /** The envelope `/Date(n)/` decodes to n, for dates before 1970 too. */
  lemma DecodeFileDateOfEnvelope(n: int)
    ensures DecodeFileDate(JString("/Date(" + IntToString(n) + ")/")) == Ok(Some(n))
  {
    var core := IntToString(n);
    StripEnvelope(core);
    DecodeFileDateOfText("/Date(" + core + ")/", n);
  }

  /** A non-empty text whose stripped remainder `int()` reads as n decodes to n. */
  lemma DecodeFileDateOfText(text: string, n: int)
    requires |text| > 0 && StrToInt(Strip(text, DATE_ENVELOPE)) == Some(n)
    ensures DecodeFileDate(JString(text)) == Ok(Some(n))
  {
  }

  /** The sample envelope of the service. */
  lemma DecodeFileDateSample()
    ensures DecodeFileDate(JString("/Date(1700000000000)/")) == Ok(Some(1700000000000))
  {
    var n: int := 1700000000000;
    var envelope := "/Date(" + IntToString(n) + ")/";
    assert DecodeFileDate(JString(envelope)) == Ok(Some(n)) by {
      DecodeFileDateOfEnvelope(n);
    }
    assert envelope == "/Date(1700000000000)/" by {
      SampleDigits();
      assert IntToString(n) == "1700000000000";
      SampleEnvelope();
    }
  }

  /** The sample's digits inside the envelope literal; a separate lemma keeps the sample's proof small. */
  lemma SampleEnvelope()
    ensures "/Date(" + "1700000000000" + ")/" == "/Date(1700000000000)/"
  {
  }

  lemma SampleDigits()
    ensures NatToString(1700000000000) == "1700000000000"
  {
    NatToStringAppendDigit(1, 7);
    NatToStringAppendDigit(17, 0);
    NatToStringAppendDigit(170, 0);
    NatToStringAppendDigit(1700, 0);
    NatToStringAppendDigit(17000, 0);
    NatToStringAppendDigit(170000, 0);
    assert NatToString(1700000) == "1700000";
    NatToStringAppendDigit(1700000, 0);
    NatToStringAppendDigit(17000000, 0);
    NatToStringAppendDigit(170000000, 0);
    NatToStringAppendDigit(1700000000, 0);
    NatToStringAppendDigit(17000000000, 0);
    NatToStringAppendDigit(170000000000, 0);
  }

  /** A direction of `party`: grantor (1), grantee (0) or neither. */
  predicate HasDirection(party: map<string, Json>, direction: int)
  {
    EqualsInt(Get(party, "Direction", JString("")), direction)
  }

  /** The name of `party` as a one-element list when its `Direction` equals `direction`, else nothing. */
  function PartyName(party: map<string, Json>, direction: int): (r: seq<Json>)
    ensures |r| <= 1
    ensures |r| == 1 <==> HasDirection(party, direction)
    ensures |r| == 1 ==> r[0] == (if "PartyName" in party then party["PartyName"] else JString(""))
  {
    if HasDirection(party, direction) then [Get(party, "PartyName", JString(""))] else []
  }

  /** `[p.get("PartyName", "") for p in parties if p.get("Direction", "") == direction]`. */
  function PartyNames(parties: seq<map<string, Json>>, direction: int): (r: seq<Json>)
    ensures |r| <= |parties|
    ensures (forall i :: 0 <= i < |parties| ==> HasDirection(parties[i], direction)) ==> |r| == |parties|
    ensures (forall i :: 0 <= i < |parties| ==> !HasDirection(parties[i], direction)) ==> r == []
  {
    if parties == [] then [] else PartyName(parties[0], direction) + PartyNames(parties[1..], direction)
  }

  /** The selection keeps input order: it distributes over concatenation. */
  lemma {:induction false} PartyNamesAppend(a: seq<map<string, Json>>, b: seq<map<string, Json>>, direction: int)
    ensures PartyNames(a + b, direction) == PartyNames(a, direction) + PartyNames(b, direction)
  {
    if a != [] {
      assert (a + b)[0] == a[0];
      assert (a + b)[1..] == a[1..] + b;
      PartyNamesAppend(a[1..], b, direction);
      calc {
        PartyNames(a + b, direction);
        PartyName(a[0], direction) + PartyNames(a[1..] + b, direction);
        PartyName(a[0], direction) + (PartyNames(a[1..], direction) + PartyNames(b, direction));
        (PartyName(a[0], direction) + PartyNames(a[1..], direction)) + PartyNames(b, direction);
        PartyNames(a, direction) + PartyNames(b, direction);
      }
    } else {
      assert a + b == b;
    }
  }

  /**
   * No party lands in both lists, and the two lists together hold every
   * party exactly when every party's direction is 0 or 1.
   */
  lemma {:induction false} PartitionSizes(parties: seq<map<string, Json>>)
    ensures |PartyNames(parties, 1)| + |PartyNames(parties, 0)| <= |parties|
    ensures |PartyNames(parties, 1)| + |PartyNames(parties, 0)| == |parties| <==>
      forall i :: 0 <= i < |parties| ==> HasDirection(parties[i], 1) || HasDirection(parties[i], 0)
  {
    if parties != [] {
      PartitionSizes(parties[1..]);
      var p := parties[0];
      assert !(HasDirection(p, 1) && HasDirection(p, 0));
      if |PartyNames(parties, 1)| + |PartyNames(parties, 0)| == |parties| {
        forall i | 0 <= i < |parties| ensures HasDirection(parties[i], 1) || HasDirection(parties[i], 0) {
          if i > 0 { assert parties[i] == parties[1..][i - 1]; }
        }
      }
      if forall i :: 0 <= i < |parties| ==> HasDirection(parties[i], 1) || HasDirection(parties[i], 0) {
        assert HasDirection(p, 1) || HasDirection(p, 0);
        assert forall i :: 0 <= i < |parties[1..]| ==> parties[1..][i] == parties[i + 1];
      }
    }
  }

  /**
   * `get_additional_info(access_key)` after the request, given what
   * `response.json()` gave (None when the request or the decode failed).
   */
  function GetAdditionalInfo(recordsList: Option<Json>): (info: AdditionalInfo)
    ensures recordsList.None? || !recordsList.value.JObject? ==> info == EMPTY_INFO
    ensures recordsList.Some? && recordsList.value.JObject? ==>
      var fields := recordsList.value.fields;
      var date := DecodeFileDate(Get(fields, "FileDate", JString("")));
      var parties := DictElements(Get(fields, "PartyCollection", JArray([])));
      if date.Err? || parties.Err? then info == EMPTY_INFO
      else (info.recordDate == date.value && info.from == PartyNames(parties.value, 1) && info.to == PartyNames(parties.value, 0))
  {
    match recordsList
    case None => EMPTY_INFO
    case Some(JObject(fields)) =>
      (match DecodeFileDate(Get(fields, "FileDate", JString("")))
       case Err(_) => EMPTY_INFO
       case Ok(recordDate) =>
         match DictElements(Get(fields, "PartyCollection", JArray([])))
         case Err(_) => EMPTY_INFO
         case Ok(parties) => AdditionalInfo(PartyNames(parties, 1), PartyNames(parties, 0), recordDate))
    case Some(_) => EMPTY_INFO
  }
}
