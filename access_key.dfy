/**
 * The access-key codec (`get_access_key`): every decimal digit d of a GIN
 * (global instrument number) is replaced by ENCODE_KEY[d]. Because the ten
 * characters of ENCODE_KEY are pairwise distinct, the codec can be undone.
 */
module AccessKey {
  import opened Wrappers
  import opened PyStr
  import opened Config

  /** The substitution alphabet has ten pairwise distinct characters. */
  lemma EncodeKeyDistinct()
    ensures |ENCODE_KEY| == 10
    ensures forall i, j :: 0 <= i < j < 10 ==> ENCODE_KEY[i] != ENCODE_KEY[j]
  {
  }

  /** `get_access_key(gin)`: the per-digit substitution, in the order of the digits. */
  function GetAccessKey(gin: string): (key: string)
    requires IsDigitString(gin)
    ensures |key| == |gin|
    ensures forall i :: 0 <= i < |gin| ==> key[i] == ENCODE_KEY[DigitValue(gin[i])]
  {
    if gin == [] then [] else [ENCODE_KEY[DigitValue(gin[0])]] + GetAccessKey(gin[1..])
  }

  /** Position of the first occurrence of c in s at or after `from`. */
  function IndexFrom(s: string, c: char, from: nat): (r: Option<nat>)
    requires from <= |s|
    ensures r.Some? ==> from <= r.value < |s| && s[r.value] == c && forall j :: from <= j < r.value ==> s[j] != c
    ensures r.None? ==> forall j :: from <= j < |s| ==> s[j] != c
    decreases |s| - from
  {
    if from == |s| then None else if s[from] == c then Some(from) else IndexFrom(s, c, from + 1)
  }

  /** The digit whose substitution is c, if any. */
  function DecodeChar(c: char): (d: Option<char>)
    ensures d.Some? ==> IsDigit(d.value) && ENCODE_KEY[DigitValue(d.value)] == c
  {
    match IndexFrom(ENCODE_KEY, c, 0)
    case None => None
    case Some(k) => Some(DigitChar(k))
  }

  /** Inverse of GetAccessKey: None when some character is not in ENCODE_KEY. */
  function DecodeAccessKey(key: string): (gin: Option<string>)
    ensures gin.Some? ==> |gin.value| == |key| && IsDigitString(gin.value)
  {
    if key == [] then Some([])
    else match (DecodeChar(key[0]), DecodeAccessKey(key[1..]))
      case (Some(d), Some(rest)) => Some([d] + rest)
      case _ => None
  }

  lemma DecodeCharOfEncoded(d: char)
    requires IsDigit(d)
    ensures DecodeChar(ENCODE_KEY[DigitValue(d)]) == Some(d)
  {
    EncodeKeyDistinct();
    var k := DigitValue(d);
    var r := IndexFrom(ENCODE_KEY, ENCODE_KEY[k], 0);
    assert r.Some? && r.value <= k;
    assert r.value == k;
  }

  /** Decoding an access key recovers the GIN it was made from. */
  lemma {:induction false} DecodeEncode(gin: string)
    requires IsDigitString(gin)
    ensures DecodeAccessKey(GetAccessKey(gin)) == Some(gin)
  {
    if gin != [] {
      var key := GetAccessKey(gin);
      DecodeCharOfEncoded(gin[0]);
      assert key[1..] == GetAccessKey(gin[1..]);
      DecodeEncode(gin[1..]);
      assert [gin[0]] + gin[1..] == gin;
    }
  }

  /** A key that decodes to a GIN is that GIN's access key. */
  lemma {:induction false} EncodeDecode(key: string)
    requires DecodeAccessKey(key).Some?
    ensures GetAccessKey(DecodeAccessKey(key).value) == key
  {
    if key != [] {
      EncodeDecode(key[1..]);
      var gin := DecodeAccessKey(key).value;
      assert gin[1..] == DecodeAccessKey(key[1..]).value;
      assert [key[0]] + key[1..] == key;
    }
  }

  /** Distinct GINs get distinct access keys. */
  lemma GetAccessKeyInjective(a: string, b: string)
    requires IsDigitString(a) && IsDigitString(b)
    ensures GetAccessKey(a) == GetAccessKey(b) ==> a == b
  {
    DecodeEncode(a);
    DecodeEncode(b);
  }
}
