/** Hexadecimal text, as both runtimes produce and read it: lowercase output
    (`toString(16).padStart(2, "0")` in the SDK, `hex.EncodeToString` in Go)
    and Go's strict `hex.DecodeString`. */
module Hex {
  import opened Wrappers
  import opened Strings

  /** The lowercase digit for `v`. */
  function Digit(v: int): (c: char)
    requires 0 <= v < 16
  {
    if v < 10 then ('0' as int + v) as char else ('a' as int + v - 10) as char
  }

  /** A digit of either case. */
  predicate IsDigit(c: char)
  {
    '0' <= c <= '9' || 'a' <= c <= 'f' || 'A' <= c <= 'F'
  }

  predicate IsLowerDigit(c: char)
  {
    '0' <= c <= '9' || 'a' <= c <= 'f'
  }

  function DigitValue(c: char): (v: int)
    requires IsDigit(c)
    ensures 0 <= v < 16
  {
    if '0' <= c <= '9' then c as int - '0' as int
    else if 'a' <= c <= 'f' then c as int - 'a' as int + 10
    else c as int - 'A' as int + 10
  }

  /** The lowercase form of a digit: 'A'..'F' become 'a'..'f', any other
      character is left as it is. */
  function LowerDigit(c: char): char
  {
    if 'A' <= c <= 'F' then (c as int - 'A' as int + 'a' as int) as char else c
  }

  lemma DigitRoundTrip(v: int)
    requires 0 <= v < 16
    ensures IsLowerDigit(Digit(v)) && IsDigit(Digit(v)) && DigitValue(Digit(v)) == v
  {
  }

  /** Two lowercase digits per byte, high nibble first: the encoding is
      twice as long as the bytes and holds lowercase hex digits only. */
  function Encode(b: seq<byte>): (s: string)
    ensures |s| == 2 * |b|
    ensures forall k :: 0 <= k < |s| ==> IsLowerDigit(s[k])
  {
    if |b| == 0 then ""
    else
      DigitRoundTrip(b[0] / 16);
      DigitRoundTrip(b[0] % 16);
      [Digit(b[0] / 16), Digit(b[0] % 16)] + Encode(b[1..])
  }

  /** Encoding is done byte by byte: it distributes over concatenation. */
  lemma {:induction false} EncodeAppend(a: seq<byte>, b: seq<byte>)
    ensures Encode(a + b) == Encode(a) + Encode(b)
  {
    if |a| > 0 {
      EncodeAppend(a[1..], b);
      assert (a + b)[1..] == a[1..] + b;
    } else {
      assert a + b == b;
    }
  }

  /** Byte `k` of the encoding is spelled by digits `2k` and `2k+1`. */
  lemma {:induction false} EncodeAt(b: seq<byte>, k: nat)
    requires k < |b|
    ensures |Encode(b)| == 2 * |b|
    ensures Encode(b)[2 * k] == Digit(b[k] / 16) && Encode(b)[2 * k + 1] == Digit(b[k] % 16)
  {
    if k > 0 {
      EncodeAt(b[1..], k - 1);
    }
  }

  /** Go's `hex.DecodeString`: an odd length or any non-hex character is an
      error (either case is accepted). */
  function GoDecode(s: string): (r: Option<seq<byte>>)
    ensures r.Some? <==> |s| % 2 == 0 && forall k :: 0 <= k < |s| ==> IsDigit(s[k])
    ensures r.Some? ==> |r.value| == |s| / 2
  {
    if |s| == 0 then Some([])
    else if |s| == 1 then None
    else if !IsDigit(s[0]) || !IsDigit(s[1]) then None
    else
      match GoDecode(s[2..])
      case None => None
      case Some(rest) => Some([DigitValue(s[0]) * 16 + DigitValue(s[1])] + rest)
  }

  /** Decoding what was encoded gives the bytes back. */
  lemma {:induction false} GoDecodeEncode(b: seq<byte>)
    ensures GoDecode(Encode(b)) == Some(b)
  {
    if |b| > 0 {
      GoDecodeEncode(b[1..]);
      DigitRoundTrip(b[0] / 16);
      DigitRoundTrip(b[0] % 16);
      var e := Encode(b);
      assert e[0] == Digit(b[0] / 16) && e[1] == Digit(b[0] % 16);
      assert e[2..] == Encode(b[1..]);
      assert (b[0] / 16) * 16 + b[0] % 16 == b[0];
      assert [b[0]] + b[1..] == b;
    }
  }

  /** Lowercasing every digit. */
  function ToLower(s: string): (r: string)
    ensures |r| == |s|
  {
    if |s| == 0 then "" else [LowerDigit(s[0])] + ToLower(s[1..])
  }

  /** Re-encoding what Go decoded gives the input in lowercase: the server
      hands out a salt in lowercase whatever case it was stored in. */
  lemma {:induction false} EncodeGoDecode(s: string)
    requires GoDecode(s).Some?
    ensures Encode(GoDecode(s).value) == ToLower(s)
  {
    if |s| > 0 {
      GoDecodeCons(s);
      var rest := GoDecode(s[2..]).value;
      EncodeGoDecode(s[2..]);
      var v := DigitValue(s[0]) * 16 + DigitValue(s[1]);
      DigitPair(s[0], s[1]);
      EncodeCons(v, rest);
      ToLowerCons(s);
    }
  }

  lemma GoDecodeCons(s: string)
    requires GoDecode(s).Some? && |s| > 0
    ensures |s| >= 2 && IsDigit(s[0]) && IsDigit(s[1]) && GoDecode(s[2..]).Some?
    ensures GoDecode(s).value == [DigitValue(s[0]) * 16 + DigitValue(s[1])] + GoDecode(s[2..]).value
  {
  }

  lemma EncodeCons(v: byte, rest: seq<byte>)
    ensures Encode([v] + rest) == [Digit(v / 16), Digit(v % 16)] + Encode(rest)
  {
    assert ([v] + rest)[1..] == rest;
  }

  lemma ToLowerCons(s: string)
    requires |s| >= 2
    ensures ToLower(s) == [LowerDigit(s[0]), LowerDigit(s[1])] + ToLower(s[2..])
  {
    var t := s[1..];
    assert t[0] == s[1] && t[1..] == s[2..];
    assert ToLower(s) == [LowerDigit(s[0])] + ToLower(t);
    assert ToLower(t) == [LowerDigit(s[1])] + ToLower(s[2..]);
    ConsTwo(LowerDigit(s[0]), LowerDigit(s[1]), ToLower(s[2..]));
  }

  lemma ConsTwo<T>(a: T, b: T, r: seq<T>)
    ensures [a] + ([b] + r) == [a, b] + r
  {
  }

  /** The byte two digits spell re-encodes as their lowercase forms. */
  lemma DigitPair(c0: char, c1: char)
    requires IsDigit(c0) && IsDigit(c1)
    ensures var v := DigitValue(c0) * 16 + DigitValue(c1);
      0 <= v < 256 && Digit(v / 16) == LowerDigit(c0) && Digit(v % 16) == LowerDigit(c1)
  {
    var v := DigitValue(c0) * 16 + DigitValue(c1);
    assert v / 16 == DigitValue(c0) && v % 16 == DigitValue(c1);
  }
}
