/** The unpadded base64url helpers of the web client
    (client/src/app/APIContext.tsx): `btoa` with '=' stripped and '+', '/'
    mapped to '-', '_' (section 5 of RFC 4648), and the reverse mapping with
    the padding restored before `atob`. */
module ClientCodec {
  import opened Wrappers
  import opened Strings
  import Base64

  /** `"=".repeat(n)`. */
  function Equals(n: nat): (p: string)
    ensures |p| == n && forall k :: 0 <= k < n ==> p[k] == '='
  {
    if n == 0 then "" else "=" + Equals(n - 1)
  }

  /** The number of '=' that `b64uDecode` appends to a text of length `len`. */
  function PaddingLength(len: nat): (n: nat)
    ensures n <= 3 && (len + n) % 4 == 0
  {
    (4 - len % 4) % 4
  }

  /** `b64uEncode`: `None` where `btoa` throws (a character beyond Latin-1). */
  function B64uEncode(str: string): (r: Option<string>)
    ensures r.Some? <==> IsLatin1(str)
  {
    match Base64.Btoa(str)
    case None => None
    case Some(b64) => Some(Replace(Replace(Remove(b64, '='), '+', '-'), '/', '_'))
  }

  /** `b64uDecode`: `None` where `atob` throws; otherwise a binary string,
      one byte per character. */
  function B64uDecode(str: string): (r: Option<string>)
    ensures r.Some? ==> IsLatin1(r.value)
  {
    var b64 := Replace(Replace(str, '-', '+'), '_', '/');
    Base64.Atob(b64 + Equals(PaddingLength(|b64|)))
  }

  /** Removing the padding of an encoding leaves its symbols. */
  lemma RemovePadding(b: seq<byte>)
    ensures Remove(Base64.Encode(b), '=') == Base64.Body(b)
  {
    Base64.BodyShape(b);
    RemoveAppend(Base64.Body(b), Base64.Padding(b), '=');
    assert '=' !in Base64.Body(b) by {
      forall k | 0 <= k < |Base64.Body(b)| ensures Base64.Body(b)[k] != '=' {
        assert Base64.IsSymbol(Base64.Body(b)[k]);
      }
    }
    Base64.RemoveAbsent(Base64.Body(b), '=');
  }

  /** The encoder's output is base64url without padding: none of '=', '+',
      '/' appears, every other character is a symbol of the standard
      alphabet or '-' or '_', and it is the encoding's symbols mapped
      position by position. */
  lemma EncodeAlphabet(str: string)
    requires IsLatin1(str)
    ensures var e := B64uEncode(str).value;
      var body := Base64.Body(ToBytes(str));
      |e| == |body| &&
      (forall k :: 0 <= k < |e| ==> e[k] != '=' && e[k] != '+' && e[k] != '/') &&
      (forall k :: 0 <= k < |e| ==>
        e[k] == (if body[k] == '+' then '-' else if body[k] == '/' then '_' else body[k]))
  {
    RemovePadding(ToBytes(str));
    Base64.BodyShape(ToBytes(str));
  }

  lemma EncodeLengthIsBody(str: string)
    requires IsLatin1(str)
    ensures |B64uEncode(str).value| == |Base64.Body(ToBytes(str))|
  {
    RemovePadding(ToBytes(str));
  }

  /** An encoder output never has length 1 modulo 4, so the decoder adds at
      most two '=' to it. */
  lemma EncodedLength(str: string)
    requires IsLatin1(str)
    ensures |B64uEncode(str).value| % 4 != 1
    ensures PaddingLength(|B64uEncode(str).value|) <= 2
  {
    var b := ToBytes(str);
    EncodeLengthIsBody(str);
    Base64.BodyLength(b);
    PaddingOfTail(|B64uEncode(str).value|, |b| % 3);
  }

  /** A text whose last group holds the symbols of 0, 1 or 2 bytes needs at
      most two '='. */
  lemma PaddingOfTail(len: nat, r: nat)
    requires r < 3 && len % 4 == Base64.TailLength(r)
    ensures len % 4 != 1 && PaddingLength(len) <= 2
    ensures PaddingLength(len) == if r == 0 then 0 else 3 - r
  {
  }

  /** Mapping '-', '_' back to '+', '/' restores a run of standard symbols. */
  lemma UnmapSymbols(body: string)
    requires Base64.AllSymbols(body)
    ensures Replace(Replace(Replace(Replace(body, '+', '-'), '/', '_'), '-', '+'), '_', '/') == body
  {
  }

  /** The '=' the decoder adds are the padding the encoder removed. */
  lemma RestorePadding(b: seq<byte>)
    ensures Equals(PaddingLength(|Base64.Body(b)|)) == Base64.Padding(b)
  {
    Base64.BodyLength(b);
    PaddingOfTail(|Base64.Body(b)|, |b| % 3);
    if |b| % 3 == 1 {
      assert Equals(2) == "==";
    } else if |b| % 3 == 2 {
      assert Equals(1) == "=";
    }
  }

  /** `b64uDecode(b64uEncode(s)) == s` for every string `btoa` accepts. */
  lemma RoundTrip(str: string)
    requires IsLatin1(str)
    ensures B64uDecode(B64uEncode(str).value) == Some(str)
  {
    var b := ToBytes(str);
    var body := Base64.Body(b);
    RemovePadding(b);
    Base64.BodyShape(b);
    UnmapSymbols(body);
    RestorePadding(b);
    var e := B64uEncode(str).value;
    assert e == Replace(Replace(body, '+', '-'), '/', '_');
    assert B64uDecode(e) == Base64.Atob(body + Base64.Padding(b));
    Base64.AtobBtoa(str);
  }
}
