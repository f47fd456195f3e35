/** `CryptoUtils` of the SDK (api-sdk/lib/crypto/utils.ts): hex and base64
    conversions of byte buffers, and the `iv.wrappedKey` token in which a
    wrapped key travels. */
module SdkCryptoUtils {
  import opened Wrappers
  import opened Strings
  import opened SdkErrors
  import Hex
  import Base64

  // ---------------------------------------------------------------- hex

  /** `v.toString(16)`: lowercase digits without leading zeros. */
  function ToStringRadix16(v: byte): string
  {
    if v < 16 then [Hex.Digit(v)] else [Hex.Digit(v / 16), Hex.Digit(v % 16)]
  }

  /** `s.padStart(2, "0")`. */
  function PadStart2(s: string): string
  {
    if |s| >= 2 then s else if |s| == 1 then "0" + s else "00"
  }

  /** The text `bufferToHex` appends for one byte: always the two digits of
      its high and low nibble. */
  lemma ByteToHex(v: byte)
    ensures PadStart2(ToStringRadix16(v)) == [Hex.Digit(v / 16), Hex.Digit(v % 16)]
  {
  }

  /** `bufferToHex`: appends the padded hex text of each byte in turn; the
      result is the lowercase encoding of the whole buffer. */
  method BufferToHex(buffer: seq<byte>) returns (hex: string)
    ensures hex == Hex.Encode(buffer)
  {
    hex := "";
    var i := 0;
    while i < |buffer|
      invariant 0 <= i <= |buffer|
      invariant hex == Hex.Encode(buffer[..i])
    {
      var item := buffer[i];
      ByteToHex(item);
      hex := hex + PadStart2(ToStringRadix16(item));
      Hex.EncodeAppend(buffer[..i], [item]);
      assert buffer[..i + 1] == buffer[..i] + [item];
      i := i + 1;
    }
    assert buffer[..i] == buffer;
  }

  /** Whitespace that `parseInt` skips before the number: the WhiteSpace and
      LineTerminator characters of ECMAScript. */
  predicate IsJsWhitespace(c: char)
  {
    c == '\t' || c == '\n' || c == '\U{000B}' || c == '\U{000C}' || c == '\r' || c == ' '
    || c == '\U{00A0}' || c == '\U{1680}' || ('\U{2000}' <= c <= '\U{200A}')
    || c == '\U{2028}' || c == '\U{2029}' || c == '\U{202F}' || c == '\U{205F}'
    || c == '\U{3000}' || c == '\U{FEFF}'
  }

  function TrimStart(s: string): (r: string)
    ensures |r| <= |s|
  {
    if |s| > 0 && IsJsWhitespace(s[0]) then TrimStart(s[1..]) else s
  }

  predicate AllDigits(d: string)
  {
    forall k :: 0 <= k < |d| ==> Hex.IsDigit(d[k])
  }

  /** The longest prefix of hex digits. */
  function DigitPrefix(s: string): (d: string)
    ensures |d| <= |s| && d == s[..|d|]
    ensures AllDigits(d)
  {
    if |s| > 0 && Hex.IsDigit(s[0]) then [s[0]] + DigitPrefix(s[1..]) else ""
  }

  /** The value of a run of hex digits, most significant first. */
  function DigitsValue(d: string): (v: nat)
    requires AllDigits(d)
  {
    if |d| == 0 then 0 else DigitsValue(d[..|d| - 1]) * 16 + Hex.DigitValue(d[|d| - 1])
  }

  /** One leading sign is skipped. */
  function StripSign(t: string): string
  {
    if |t| > 0 && (t[0] == '-' || t[0] == '+') then t[1..] else t
  }

  /** A "0x"/"0X" prefix is skipped when the radix is 16. */
  function StripRadixPrefix(u: string): string
  {
    if |u| >= 2 && u[0] == '0' && (u[1] == 'x' || u[1] == 'X') then u[2..] else u
  }

  /** `parseInt(s, 16)`: leading whitespace is skipped, then one sign, then a
      "0x"/"0X" prefix; the number is the longest run of hex digits that
      follows, and `None` (NaN) when that run is empty. */
  function ParseIntHex(s: string): Option<int>
  {
    var t := TrimStart(s);
    var negative := |t| > 0 && t[0] == '-';
    var d := DigitPrefix(StripRadixPrefix(StripSign(t)));
    if |d| == 0 then None
    else if negative then Some(-(DigitsValue(d) as int))
    else Some(DigitsValue(d))
  }

  /** Storing a number into a `Uint8Array` cell: NaN becomes 0, an integer
      is taken modulo 256. */
  function StoreUint8(n: Option<int>): byte
  {
    match n
    case None => 0
    case Some(v) => v % 256
  }

  /** The bytes `hexToBuffer` produces from an even-length string: the
      stored `parseInt` of each two-character window, in order. */
  function LenientDecode(hex: string): (b: seq<byte>)
    requires |hex| % 2 == 0
    ensures |b| == |hex| / 2
  {
    if |hex| == 0 then []
    else LenientDecode(hex[..|hex| - 2]) + [StoreUint8(ParseIntHex(hex[|hex| - 2..]))]
  }

  /** `hexToBuffer`: an odd length is a DECODE_FAILED error; otherwise one
      byte per two characters, filled in a loop. */
  method HexToBuffer(hex: string) returns (r: Result<seq<byte>, Exception>)
    ensures |hex| % 2 != 0 ==> r == Err(CryptoError(DecodeFailed))
    ensures |hex| % 2 == 0 ==> r == Ok(LenientDecode(hex))
  {
    if |hex| % 2 != 0 {
      return Err(CryptoError(DecodeFailed));
    }
    var buffer := new byte[|hex| / 2];
    var i := 0;
    while i < |hex|
      invariant 0 <= i <= |hex| && i % 2 == 0
      invariant buffer[..i / 2] == LenientDecode(hex[..i])
    {
      var stored := StoreUint8(ParseIntHex(hex[i..i + 2]));
      buffer[i / 2] := stored;
      DecodeStep(hex, i);
      assert buffer[..(i + 2) / 2] == buffer[..i / 2] + [stored];
      i := i + 2;
    }
    assert hex[..i] == hex;
    assert buffer[..] == buffer[..i / 2];
    return Ok(buffer[..]);
  }

  /** One more window of the loop appends the byte it parses to. */
  lemma DecodeStep(hex: string, i: nat)
    requires i % 2 == 0 && i + 2 <= |hex|
    ensures LenientDecode(hex[..i + 2]) == LenientDecode(hex[..i]) + [StoreUint8(ParseIntHex(hex[i..i + 2]))]
  {
    assert hex[..i + 2][..i] == hex[..i];
    assert hex[..i + 2][i..] == hex[i..i + 2];
  }

  /** Two hex digits of either case parse to the byte they spell. */
  lemma ParseTwoDigits(c0: char, c1: char)
    requires Hex.IsDigit(c0) && Hex.IsDigit(c1)
    ensures ParseIntHex([c0, c1]) == Some(Hex.DigitValue(c0) * 16 + Hex.DigitValue(c1))
  {
    var s := [c0, c1];
    assert TrimStart(s) == s;
    assert StripSign(s) == s;
    assert StripRadixPrefix(s) == s;
    assert DigitPrefix(s[1..]) == [c1];
    assert DigitPrefix(s) == s;
    assert s[..1] == [c0] && [c0][..0] == [];
    assert DigitsValue([c0]) == Hex.DigitValue(c0);
  }

  /** The last byte `hexToBuffer` stores for the encoding of `b + [v]`. */
  lemma DecodeLastByte(v: byte)
    ensures StoreUint8(ParseIntHex(Hex.Encode([v]))) == v
  {
    assert Hex.Encode([v]) == [Hex.Digit(v / 16), Hex.Digit(v % 16)];
    Hex.DigitRoundTrip(v / 16);
    Hex.DigitRoundTrip(v % 16);
    ParseTwoDigits(Hex.Digit(v / 16), Hex.Digit(v % 16));
  }

  /** Appending two characters appends the byte they parse to. */
  lemma DecodeSnoc(h: string, p: string)
    requires |h| % 2 == 0 && |p| == 2
    ensures LenientDecode(h + p) == LenientDecode(h) + [StoreUint8(ParseIntHex(p))]
  {
    assert (h + p)[..|h + p| - 2] == h;
    assert (h + p)[|h + p| - 2..] == p;
  }

  /** `hexToBuffer(bufferToHex(b)) == b`. */
  lemma {:induction false} LenientDecodeEncode(b: seq<byte>)
    ensures |Hex.Encode(b)| % 2 == 0 && LenientDecode(Hex.Encode(b)) == b
  {
    if |b| > 0 {
      var n := |b| - 1;
      var front, last := b[..n], b[n];
      assert front + [last] == b;
      var h, p := Hex.Encode(front), Hex.Encode([last]);
      LenientDecodeEncode(front);
      Hex.EncodeAppend(front, [last]);
      DecodeSnoc(h, p);
      DecodeLastByte(last);
      calc {
        LenientDecode(Hex.Encode(b));
        LenientDecode(h + p);
        LenientDecode(h) + [StoreUint8(ParseIntHex(p))];
        front + [last];
      }
    }
  }

  /** A pair that is not a number at all is stored as 0. */
  lemma NotANumberStoresZero()
    ensures LenientDecode("zz") == [0]
  {
    assert DigitPrefix("zz") == "";
    assert LenientDecode("zz") == LenientDecode("") + [StoreUint8(ParseIntHex("zz"))];
  }

  /** A pair whose second character is not a digit keeps its first digit. */
  lemma PartialPairKeepsFirstDigit()
    ensures LenientDecode("7g") == [7]
  {
    assert TrimStart("7g") == "7g";
    assert StripSign("7g") == "7g" && StripRadixPrefix("7g") == "7g";
    assert DigitPrefix("g") == "";
    assert DigitPrefix("7g") == "7";
    assert "7"[..0] == "";
    assert DigitsValue("7") == 7;
    assert ParseIntHex("7g") == Some(7);
    assert "7g"[..0] == "" && "7g"[0..] == "7g";
    assert LenientDecode("7g") == LenientDecode("") + [StoreUint8(ParseIntHex("7g"))];
  }

  /** A sign is honoured and the negative value wraps modulo 256. */
  lemma SignedPairWraps()
    ensures LenientDecode("-1") == [255]
  {
    assert StripSign("-1") == "1";
    assert DigitPrefix("1") == "1";
    assert "1"[..0] == "";
    assert LenientDecode("-1") == LenientDecode("") + [StoreUint8(ParseIntHex("-1"))];
  }

  // ------------------------------------------------------------- base64

  /** `bufferToBase64`: `btoa` of the bytes read as character codes, which is
      the padded standard base64 of the buffer. */
  function BufferToBase64(buffer: seq<byte>): (s: string)
    ensures s == Base64.Encode(buffer)
  {
    ToBytesFromBytes(buffer);
    Base64.Btoa(FromBytes(buffer)).value
  }

  /** What `base64ToBuffer` returns or throws: the bytes `atob` decodes, or
      DECODE_FAILED. */
  function Base64Decoded(base64: string): Result<seq<byte>, Exception>
  {
    match Base64.Atob(base64)
    case None => Err(CryptoError(DecodeFailed))
    case Some(binaryString) => Ok(ToBytes(binaryString))
  }

  /** The loop of `base64ToBuffer`: a fresh `Uint8Array` of the string's
      length, filled with its character codes. */
  method CopyCodes(binaryString: string) returns (codes: seq<byte>)
    requires IsLatin1(binaryString)
    ensures codes == ToBytes(binaryString)
  {
    var len := |binaryString|;
    var bytes := new byte[len];
    var i := 0;
    while i < len
      invariant 0 <= i <= len
      invariant forall k :: 0 <= k < i ==> bytes[k] == binaryString[k] as int
    {
      bytes[i] := binaryString[i] as int;
      i := i + 1;
    }
    codes := bytes[..];
    assert forall k :: 0 <= k < len ==> codes[k] == ToBytes(binaryString)[k];
  }

  /** `base64ToBuffer`: copies the character codes of `atob`'s binary string
      into a fresh `Uint8Array`. */
  method Base64ToBuffer(base64: string) returns (r: Result<seq<byte>, Exception>)
    ensures r == Base64Decoded(base64)
  {
    var decoded := Base64.Atob(base64);
    if decoded.None? {
      return Err(CryptoError(DecodeFailed));
    }
    var bytes := CopyCodes(decoded.value);
    return Ok(bytes);
  }

  /** `base64ToBuffer(bufferToBase64(b)) == b`. */
  lemma Base64RoundTrip(b: seq<byte>)
    ensures Base64Decoded(BufferToBase64(b)) == Ok(b)
  {
    Base64.ForgivingDecodeEncode(b);
    ToBytesFromBytes(b);
  }

  // -------------------------------------------------------- wrapped key

  /** A wrapped key and the initialisation vector it was wrapped with. */
  datatype Wrapped = Wrapped(wrappedKey: seq<byte>, iv: seq<byte>)

  /** `wrappedToBase64`: the IV first, then the wrapped key, joined by ".".
      Neither half contains ".", so the token splits back into the two. */
  function WrappedToBase64(wrappedKey: seq<byte>, iv: seq<byte>): (token: string)
    ensures Split(token, '.') == [BufferToBase64(iv), BufferToBase64(wrappedKey)]
  {
    TwoPieces(BufferToBase64(iv), BufferToBase64(wrappedKey), '.');
    BufferToBase64(iv) + "." + BufferToBase64(wrappedKey)
  }

  /** `atob("undefined")` fails: nine symbols leave one in the last group. */
  lemma UndefinedIsNotBase64()
    ensures Base64.Atob("undefined") == None
  {
    KeepUndefinedWhitespace();
    assert |"undefined"| % 4 == 1;
  }

  lemma KeepUndefinedWhitespace()
    ensures Base64.StripAsciiWhitespace("undefined") == "undefined"
  {
    Base64.StripNoWhitespace("undefined");
  }

  /** `Base64ToWrapped`: the first two "."-separated segments decoded as IV
      and wrapped key; later segments are ignored, and a missing second
      segment is `undefined`, which `atob` reads as the text "undefined". */
  function Base64ToWrapped(input: string): (r: Result<Wrapped, Exception>)
    ensures r.Err? ==> r.error == CryptoError(DecodeFailed)
    ensures r.Ok? <==>
      var parts := Split(input, '.');
      |parts| >= 2 && Base64.Atob(parts[0]).Some? && Base64.Atob(parts[1]).Some?
    ensures r.Ok? ==> Base64Decoded(Split(input, '.')[0]) == Ok(r.value.iv)
    ensures r.Ok? ==> Base64Decoded(Split(input, '.')[1]) == Ok(r.value.wrappedKey)
  {
    UndefinedIsNotBase64();
    var parts := Split(input, '.');
    var ivBase64 := parts[0];
    var wrappedKeyBase64 := if |parts| >= 2 then parts[1] else "undefined";
    match Base64Decoded(ivBase64)
    case Err(_) => Err(CryptoError(DecodeFailed))
    case Ok(iv) =>
      match Base64Decoded(wrappedKeyBase64)
      case Err(_) => Err(CryptoError(DecodeFailed))
      case Ok(wrappedKey) => Ok(Wrapped(wrappedKey, iv))
  }

  /** `Base64ToWrapped(wrappedToBase64(w, iv))` gives back `iv` and `w`. */
  lemma WrappedRoundTrip(wrappedKey: seq<byte>, iv: seq<byte>)
    ensures Base64ToWrapped(WrappedToBase64(wrappedKey, iv)) == Ok(Wrapped(wrappedKey, iv))
  {
    Base64RoundTrip(iv);
    Base64RoundTrip(wrappedKey);
  }

  /** Segments after the second "." do not matter. */
  lemma ExtraSegmentsIgnored(a: string, b: string, rest: string)
    requires '.' !in a && '.' !in b
    ensures Base64ToWrapped(a + "." + b + "." + rest) == Base64ToWrapped(a + "." + b)
  {
    SplitAfterFirst(a, b + "." + rest, '.');
    assert a + "." + b + "." + rest == a + ['.'] + (b + "." + rest);
    SplitAfterFirst(b, rest, '.');
    assert b + "." + rest == b + ['.'] + rest;
    TwoPieces(a, b, '.');
    assert a + "." + b == a + ['.'] + b;
  }
}
