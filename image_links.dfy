/**
 * The image-link builder (`get_images_links`): page i of a document is
 * addressed as IMAGE_URL + "," + access key + "," + str(i).
 */
module ImageLinks {
  import opened Wrappers
  import opened PyStr
  import opened Json
  import opened Config

  /** The link to page `page` (0-based) of the document with access key `key`. */
  function ImageLink(key: string, page: nat): (link: string)
    ensures |link| == |IMAGE_URL| + 1 + |key| + 1 + |NatToString(page)|
    ensures link[..|IMAGE_URL|] == IMAGE_URL && link[|IMAGE_URL|] == ','
    ensures link[|IMAGE_URL| + 1..|IMAGE_URL| + 1 + |key|] == key && link[|IMAGE_URL| + 1 + |key|] == ','
    ensures link[|IMAGE_URL| + 2 + |key|..] == NatToString(page)
  {
    IMAGE_URL + "," + key + "," + NatToString(page)
  }

  /** Position of the last occurrence of c in s. */
  function LastIndexOf(s: string, c: char): (r: Option<nat>)
    ensures r.Some? ==> r.value < |s| && s[r.value] == c && forall j :: r.value < j < |s| ==> s[j] != c
    ensures r.None? ==> forall j :: 0 <= j < |s| ==> s[j] != c
  {
    if s == [] then None
    else if s[|s| - 1] == c then Some(|s| - 1)
    else LastIndexOf(s[..|s| - 1], c)
  }

  /** Reads `key,page` back into the key and the page: the page has no comma, so the key is everything up to the last comma. */
  function ParseKeyAndPage(rest: string): Option<(string, nat)>
  {
    match LastIndexOf(rest, ',')
    case None => None
    case Some(k) =>
      var digits := rest[k + 1..];
      if |digits| > 0 && IsDigitString(digits) then Some((rest[..k], DigitsValue(digits))) else None
  }

  /** Reads an image link back into its access key and page index. */
  function ParseImageLink(link: string): Option<(string, nat)>
  {
    var prefix := IMAGE_URL + ",";
    if |link| < |prefix| || link[..|prefix|] != prefix then None
    else ParseKeyAndPage(link[|prefix|..])
  }

  lemma ParseKeyAndPageOf(key: string, page: nat)
    ensures ParseKeyAndPage(key + "," + NatToString(page)) == Some((key, page))
  {
    var digits := NatToString(page);
    var rest := key + "," + digits;
    assert rest[|key|] == ',';
    var k := LastIndexOf(rest, ',');
    assert k.Some? && k.value >= |key|;
    assert forall j :: |key| < j < |rest| ==> rest[j] == digits[j - |key| - 1];
    assert k.value == |key|;
    assert rest[..|key|] == key;
    assert rest[|key| + 1..] == digits;
    DigitsValueOfNatToString(page);
  }

  /** Every image link can be read back into the key and page it was built from. */
  lemma ParseImageLinkOfImageLink(key: string, page: nat)
    ensures ParseImageLink(ImageLink(key, page)) == Some((key, page))
  {
    var prefix := IMAGE_URL + ",";
    var rest := key + "," + NatToString(page);
    var link := ImageLink(key, page);
    assert link == prefix + rest;
    assert link[..|prefix|] == prefix && link[|prefix|..] == rest;
    ParseKeyAndPageOf(key, page);
  }

  /** Two links are equal only when they name the same key and the same page. */
  lemma ImageLinkInjective(k1: string, p1: nat, k2: string, p2: nat)
    ensures ImageLink(k1, p1) == ImageLink(k2, p2) ==> k1 == k2 && p1 == p2
  {
    ParseImageLinkOfImageLink(k1, p1);
    ParseImageLinkOfImageLink(k2, p2);
  }

  /** Number of pages `range(int(num_images))` yields: none for a negative count. */
  function PageCount(numImages: Json): (n: nat)
    requires IntConvertible(numImages)
    ensures n >= IntOf(numImages)
    ensures n == 0 || n == IntOf(numImages)
  {
    if IntOf(numImages) < 0 then 0 else IntOf(numImages)
  }

  /**
   * `get_images_links(get_id, num_images)`: one link per page, pages 0 to
   * N-1 in increasing order, no two links equal.
   */
  function GetImagesLinks(getId: string, numImages: Json): (links: seq<string>)
    requires IntConvertible(numImages)
    ensures |links| == PageCount(numImages)
    ensures forall i :: 0 <= i < |links| ==> links[i] == ImageLink(getId, i)
    ensures forall i :: 0 <= i < |links| ==> ParseImageLink(links[i]) == Some((getId, i))
    ensures forall i, j :: 0 <= i < j < |links| ==> links[i] != links[j]
  {
    var n := PageCount(numImages);
    var links := seq(n, (i: nat) => ImageLink(getId, i));
    assert forall i :: 0 <= i < n ==> ParseImageLink(links[i]) == Some((getId, i)) by {
      forall i | 0 <= i < n { ParseImageLinkOfImageLink(getId, i); }
    }
    links
  }

  /** A record whose page count is `str(N)` gets exactly N links. */
  lemma GetImagesLinksOfPageString(getId: string, n: nat)
    ensures IntConvertible(JString(NatToString(n)))
    ensures |GetImagesLinks(getId, JString(NatToString(n)))| == n
  {
    StrToIntOfNatToString(n);
  }
}
