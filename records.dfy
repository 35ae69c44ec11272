/**
 * The record normaliser (`process_item`): a loosely keyed upstream record
 * becomes a record with six fixed fields; every missing key gets a default.
 */
module Records {
  import opened Wrappers
  import opened PyStr
  import opened Json
  import opened AccessKey
  import opened ImageLinks

  /** A record as the search service returns it: any keys, any JSON values. */
  type RawRecord = map<string, Json>

  /** The output of `process_item`. */
  datatype NormalizedRecord = NormalizedRecord(
    instrumentNumber: Json,
    from: Json,
    to: Json,
    recordDate: Json,
    docType: Json,
    imageLinks: seq<string>)

  /** The value `process_item` falls back to for a missing text field. */
  const EMPTY: Json := JString("")

  /**
   * What `process_item` needs to return normally: a `gin` that is a string of
   * decimal digits and a `num_pages` that `int()` accepts, where present.
   */
  predicate WellFormed(item: RawRecord)
  {
    && ("gin" in item ==> item["gin"].JString? && IsDigitString(item["gin"].s))
    && ("num_pages" in item ==> IntConvertible(item["num_pages"]))
  }

  /** `item.get("gin", "")`. */
  function Gin(item: RawRecord): (gin: string)
    requires WellFormed(item)
    ensures IsDigitString(gin)
    ensures gin == if "gin" in item then item["gin"].s else ""
  {
    if "gin" in item then item["gin"].s else ""
  }

  /** `item.get("num_pages", "0")`. */
  function NumPages(item: RawRecord): (v: Json)
    requires WellFormed(item)
    ensures IntConvertible(v)
    ensures v == if "num_pages" in item then item["num_pages"] else JString("0")
    ensures "num_pages" !in item ==> PageCount(v) == 0
  {
    StrToIntOfNatToString(0);
    Get(item, "num_pages", JString("0"))
  }

  /** `process_item(item)`. */
  function ProcessItem(item: RawRecord): (r: NormalizedRecord)
    requires WellFormed(item)
    ensures |r.imageLinks| == PageCount(NumPages(item))
    ensures forall i :: 0 <= i < |r.imageLinks| ==> r.imageLinks[i] == ImageLink(GetAccessKey(Gin(item)), i)
  {
    var accessKey := GetAccessKey(Gin(item));
    NormalizedRecord(
      Get(item, "inst_num", EMPTY),
      Get(item, "from_party", EMPTY),
      Get(item, "to_party", EMPTY),
      Get(item, "file_date", EMPTY),
      Get(item, "instrument_type", EMPTY),
      GetImagesLinks(accessKey, NumPages(item)))
  }

  /**
   * Missing keys never fail: each text field is the raw value when its key is
   * present and "" otherwise; no `num_pages` means no links; no `gin` means
   * the links carry the empty access key.
   */
  lemma ProcessItemDefaults(item: RawRecord)
    requires WellFormed(item)
    ensures ProcessItem(item).instrumentNumber == if "inst_num" in item then item["inst_num"] else JString("")
    ensures ProcessItem(item).from == if "from_party" in item then item["from_party"] else JString("")
    ensures ProcessItem(item).to == if "to_party" in item then item["to_party"] else JString("")
    ensures ProcessItem(item).recordDate == if "file_date" in item then item["file_date"] else JString("")
    ensures ProcessItem(item).docType == if "instrument_type" in item then item["instrument_type"] else JString("")
    ensures "num_pages" !in item ==> ProcessItem(item).imageLinks == []
    ensures "gin" !in item ==> forall i :: 0 <= i < |ProcessItem(item).imageLinks| ==>
      ProcessItem(item).imageLinks[i] == ImageLink("", i)
  {
    if "num_pages" !in item {
      DigitsValueOfNatToString(0);
      StrToIntOfNatToString(0);
      assert NatToString(0) == "0";
    }
  }

  /**
   * Every image link of a normalised record leads back to the record's GIN:
   * parsing link i gives page i and a key that decodes to the GIN.
   */
  lemma ProcessItemLinksRecoverGin(item: RawRecord, i: nat)
    requires WellFormed(item)
    requires i < |ProcessItem(item).imageLinks|
    ensures ParseImageLink(ProcessItem(item).imageLinks[i]).Some?
    ensures ParseImageLink(ProcessItem(item).imageLinks[i]).value.1 == i
    ensures DecodeAccessKey(ParseImageLink(ProcessItem(item).imageLinks[i]).value.0) == Some(Gin(item))
  {
    ParseImageLinkOfImageLink(GetAccessKey(Gin(item)), i);
    DecodeEncode(Gin(item));
  }

  /** `process_item` reads only its seven keys: other keys do not change the result. */
  lemma ProcessItemReadsOnlyItsKeys(a: RawRecord, b: RawRecord)
    requires WellFormed(a) && WellFormed(b)
    requires forall k :: k in {"gin", "num_pages", "inst_num", "from_party", "to_party", "file_date", "instrument_type"} ==>
      (k in a <==> k in b) && (k in a ==> a[k] == b[k])
    ensures ProcessItem(a) == ProcessItem(b)
  {
    var keys := ["gin", "num_pages", "inst_num", "from_party", "to_party", "file_date", "instrument_type"];
    assert forall k :: k in keys ==> (k in a <==> k in b) && (k in a ==> a[k] == b[k]);
  }
}
