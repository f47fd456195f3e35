/** Standard base64 (section 4 of RFC 4648) as the two runtimes implement it:
    the browser's `btoa`/`atob` (the WHATWG "forgiving-base64" decoder) and
    Go's `base64.StdEncoding`. Both decoders read the same symbols and keep
    the leftover bits of a short final group out of the output; they differ
    in what they tolerate around the symbols (whitespace, missing padding). */
module Base64 {
  import opened Wrappers
  import opened Strings

  type sextet = x: int | 0 <= x < 64

  /** The symbol for a 6-bit value: A-Z, a-z, 0-9, '+', '/'. */
  function Symbol(v: sextet): char
  {
    if v < 26 then ('A' as int + v) as char
    else if v < 52 then ('a' as int + v - 26) as char
    else if v < 62 then ('0' as int + v - 52) as char
    else if v == 62 then '+'
    else '/'
  }

  predicate IsSymbol(c: char)
  {
    'A' <= c <= 'Z' || 'a' <= c <= 'z' || '0' <= c <= '9' || c == '+' || c == '/'
  }

  predicate AllSymbols(s: string)
  {
    forall k :: 0 <= k < |s| ==> IsSymbol(s[k])
  }

  function Value(c: char): sextet
    requires IsSymbol(c)
  {
    if 'A' <= c <= 'Z' then c as int - 'A' as int
    else if 'a' <= c <= 'z' then c as int - 'a' as int + 26
    else if '0' <= c <= '9' then c as int - '0' as int + 52
    else if c == '+' then 62
    else 63
  }

  lemma SymbolValue(v: sextet)
    ensures IsSymbol(Symbol(v)) && Value(Symbol(v)) == v
  {
  }

  /** The four symbols of a full group of three bytes. */
  function Quad(b0: byte, b1: byte, b2: byte): string
  {
    [Symbol(b0 / 4), Symbol((b0 % 4) * 16 + b1 / 16), Symbol((b1 % 16) * 4 + b2 / 64), Symbol(b2 % 64)]
  }

  /** The three symbols of a final pair of bytes. */
  function Triple(b0: byte, b1: byte): string
  {
    [Symbol(b0 / 4), Symbol((b0 % 4) * 16 + b1 / 16), Symbol((b1 % 16) * 4)]
  }

  /** The two symbols of a final single byte. */
  function Pair(b0: byte): string
  {
    [Symbol(b0 / 4), Symbol((b0 % 4) * 16)]
  }

  /** The symbols of `b` without padding: four per full group of three bytes,
      then three for a final pair and two for a final single byte. */
  function Body(b: seq<byte>): string
  {
    if |b| >= 3 then Quad(b[0], b[1], b[2]) + Body(b[3..])
    else if |b| == 2 then Triple(b[0], b[1])
    else if |b| == 1 then Pair(b[0])
    else ""
  }

  /** The '=' characters that complete the last group. */
  function Padding(b: seq<byte>): string
  {
    if |b| % 3 == 1 then "==" else if |b| % 3 == 2 then "=" else ""
  }

  /** A character a padded encoding may hold: a symbol or '='. */
  predicate IsEncodingChar(c: char)
  {
    IsSymbol(c) || c == '='
  }

  /** Padded standard base64 of `b`: whole groups of four characters, each
      a symbol or '='. */
  function Encode(b: seq<byte>): (e: string)
    ensures |e| % 4 == 0
    ensures forall k :: 0 <= k < |e| ==> IsEncodingChar(e[k])
  {
    BodyShape(b);
    Body(b) + Padding(b)
  }

  /** The bytes of one group of two to four symbols; the bits left over by a
      short group are dropped. */
  function Group(u: string): seq<byte>
    requires 2 <= |u| <= 4 && AllSymbols(u)
  {
    var first: byte := Value(u[0]) * 4 + Value(u[1]) / 16;
    if |u| == 2 then [first]
    else
      var second: byte := (Value(u[1]) % 16) * 16 + Value(u[2]) / 4;
      if |u| == 3 then [first, second]
      else [first, second, (Value(u[2]) % 4) * 64 + Value(u[3])]
  }

  /** Bytes of a run of symbols: three per group of four, then two for a
      final group of three symbols and one for a final group of two. */
  function DecodeSymbols(u: string): seq<byte>
    requires AllSymbols(u)
  {
    if |u| >= 4 then Group(u[..4]) + DecodeSymbols(u[4..])
    else if |u| >= 2 then Group(u)
    else []
  }

  lemma QuadRoundTrip(b0: byte, b1: byte, b2: byte)
    ensures |Quad(b0, b1, b2)| == 4 && AllSymbols(Quad(b0, b1, b2))
    ensures Group(Quad(b0, b1, b2)) == [b0, b1, b2]
  {
    var v0, v1, v2, v3 := b0 / 4, (b0 % 4) * 16 + b1 / 16, (b1 % 16) * 4 + b2 / 64, b2 % 64;
    var q := Quad(b0, b1, b2);
    SymbolValue(v0);
    SymbolValue(v1);
    SymbolValue(v2);
    SymbolValue(v3);
    GroupOfValues(q, v0, v1, v2, v3);
    FirstByte(b0, b1);
    SecondByte(b0, b1, b2);
    ThirdByte(b1, b2);
  }

  lemma TripleRoundTrip(b0: byte, b1: byte)
    ensures |Triple(b0, b1)| == 3 && AllSymbols(Triple(b0, b1))
    ensures Group(Triple(b0, b1)) == [b0, b1]
  {
    var v0, v1, v2 := b0 / 4, (b0 % 4) * 16 + b1 / 16, (b1 % 16) * 4;
    var q := Triple(b0, b1);
    SymbolValue(v0);
    SymbolValue(v1);
    SymbolValue(v2);
    GroupOfValues(q, v0, v1, v2, 0);
    FirstByte(b0, b1);
    SecondByte(b0, b1, 0);
  }

  lemma PairRoundTrip(b0: byte)
    ensures |Pair(b0)| == 2 && AllSymbols(Pair(b0))
    ensures Group(Pair(b0)) == [b0]
  {
    var v0, v1 := b0 / 4, (b0 % 4) * 16;
    var q := Pair(b0);
    SymbolValue(v0);
    SymbolValue(v1);
    GroupOfValues(q, v0, v1, 0, 0);
    FirstByte(b0, 0);
  }

  /** The bytes of a group, in terms of its sextets. */
  lemma GroupOfValues(u: string, v0: sextet, v1: sextet, v2: sextet, v3: sextet)
    requires 2 <= |u| <= 4 && AllSymbols(u)
    requires Value(u[0]) == v0 && Value(u[1]) == v1
    requires |u| >= 3 ==> Value(u[2]) == v2
    requires |u| == 4 ==> Value(u[3]) == v3
    ensures |Group(u)| == |u| - 1 && Group(u)[0] == v0 * 4 + v1 / 16
    ensures |u| >= 3 ==> Group(u)[1] == (v1 % 16) * 16 + v2 / 4
    ensures |u| == 4 ==> Group(u)[2] == (v2 % 4) * 64 + v3
  {
  }

  /** The first byte comes back from the first two sextets. */
  lemma FirstByte(b0: byte, b1: byte)
    ensures (b0 / 4) * 4 + ((b0 % 4) * 16 + b1 / 16) / 16 == b0
  {
    BySixteen(b0 % 4, b1 / 16);
  }

  /** The second byte comes back from the second and third sextets. */
  lemma SecondByte(b0: byte, b1: byte, b2: byte)
    ensures (((b0 % 4) * 16 + b1 / 16) % 16) * 16 + ((b1 % 16) * 4 + b2 / 64) / 4 == b1
  {
    BySixteen(b0 % 4, b1 / 16);
    ByFour(b1 % 16, b2 / 64);
  }

  /** The third byte comes back from the third and fourth sextets. */
  lemma ThirdByte(b1: byte, b2: byte)
    ensures (((b1 % 16) * 4 + b2 / 64) % 4) * 64 + b2 % 64 == b2
  {
    ByFour(b1 % 16, b2 / 64);
  }

  /** Quotient and remainder by 16 of `x * 16 + y` with y < 16. */
  lemma BySixteen(x: nat, y: nat)
    requires y < 16
    ensures (x * 16 + y) / 16 == x && (x * 16 + y) % 16 == y
  {
  }

  /** Quotient and remainder by 4 of `x * 4 + y` with y < 4. */
  lemma ByFour(x: nat, y: nat)
    requires y < 4
    ensures (x * 4 + y) / 4 == x && (x * 4 + y) % 4 == y
  {
  }

  lemma AllSymbolsAppend(a: string, b: string)
    requires AllSymbols(a) && AllSymbols(b)
    ensures AllSymbols(a + b)
  {
    assert forall k :: 0 <= k < |a + b| ==> (a + b)[k] == if k < |a| then a[k] else b[k - |a|];
  }

  /** The body is made of symbols only. */
  lemma {:induction false} BodySymbols(b: seq<byte>)
    ensures AllSymbols(Body(b))
  {
    if |b| >= 3 {
      BodySymbols(b[3..]);
      QuadRoundTrip(b[0], b[1], b[2]);
      AllSymbolsAppend(Quad(b[0], b[1], b[2]), Body(b[3..]));
    } else if |b| == 2 {
      TripleRoundTrip(b[0], b[1]);
    } else if |b| == 1 {
      PairRoundTrip(b[0]);
    }
  }

  /** Symbols the body spends on a final group of r bytes. */
  function TailLength(r: nat): nat
  {
    if r == 0 then 0 else r + 1
  }

  /** The body spends four symbols on each full group of three bytes. */
  lemma {:induction false} BodyLengthExact(b: seq<byte>, q: nat, r: nat)
    requires |b| == 3 * q + r && r < 3
    ensures |Body(b)| == 4 * q + TailLength(r)
    decreases q
  {
    if q > 0 {
      BodyLengthExact(b[3..], q - 1, r);
    }
  }

  /** The body never leaves a single symbol in its last group, and with its
      padding fills whole groups of four. */
  lemma BodyLength(b: seq<byte>)
    ensures |Body(b)| % 4 == TailLength(|b| % 3)
    ensures |Body(b)| % 4 != 1
    ensures (|Body(b)| + |Padding(b)|) % 4 == 0
    ensures |Body(b)| % 4 == 0 <==> |Padding(b)| == 0
  {
    var q, r := |b| / 3, |b| % 3;
    BodyLengthExact(b, q, r);
    assert |Padding(b)| == if r == 0 then 0 else 3 - r;
    TailArithmetic(|Body(b)|, |Padding(b)|, q, r);
  }

  /** Remainders modulo 4 of a body of q full groups and a tail of r bytes,
      and of the body with its p padding characters. */
  lemma TailArithmetic(n: nat, p: nat, q: nat, r: nat)
    requires r < 3 && n == 4 * q + TailLength(r) && p == (if r == 0 then 0 else 3 - r)
    ensures n % 4 == TailLength(r) && n % 4 != 1
    ensures (n + p) % 4 == 0
    ensures n % 4 == 0 <==> p == 0
  {
    ModUniqueFour(n, q, TailLength(r));
    ModUniqueFour(n + p, if r == 0 then q else q + 1, 0);
  }

  lemma ModUniqueFour(n: nat, q: nat, t: nat)
    requires n == 4 * q + t && t < 4
    ensures n % 4 == t
  {
  }

  lemma BodyShape(b: seq<byte>)
    ensures AllSymbols(Body(b))
    ensures |Body(b)| % 4 != 1
    ensures (|Body(b)| + |Padding(b)|) % 4 == 0
    ensures |Body(b)| % 4 == 0 <==> |Padding(b)| == 0
    ensures forall k :: 0 <= k < |Body(b) + Padding(b)| ==> IsEncodingChar((Body(b) + Padding(b))[k])
  {
    BodySymbols(b);
    BodyLength(b);
    var u, p := Body(b), Padding(b);
    forall k | 0 <= k < |u + p|
      ensures IsEncodingChar((u + p)[k])
    {
      if k < |u| {
        assert (u + p)[k] == u[k];
      } else {
        assert (u + p)[k] == p[k - |u|];
      }
    }
  }

  /** Decoding the body of an encoding gives the bytes back. */
  lemma {:induction false} DecodeBody(b: seq<byte>)
    ensures AllSymbols(Body(b)) && DecodeSymbols(Body(b)) == b
  {
    BodySymbols(b);
    if |b| >= 3 {
      DecodeBody(b[3..]);
      DecodeQuadThen(b);
    } else if |b| == 2 {
      TripleRoundTrip(b[0], b[1]);
    } else if |b| == 1 {
      PairRoundTrip(b[0]);
    }
  }

  /** A full first group decodes to its three bytes, ahead of the rest. */
  lemma DecodeQuadThen(b: seq<byte>)
    requires |b| >= 3
    requires AllSymbols(Body(b[3..])) && DecodeSymbols(Body(b[3..])) == b[3..]
    ensures AllSymbols(Body(b)) && DecodeSymbols(Body(b)) == b
  {
    QuadRoundTrip(b[0], b[1], b[2]);
    var q, rest := Quad(b[0], b[1], b[2]), Body(b[3..]);
    var u := q + rest;
    assert Body(b) == u;
    AllSymbolsAppend(q, rest);
    assert u[..4] == q && u[4..] == rest;
    assert DecodeSymbols(u) == Group(q) + DecodeSymbols(rest);
    SplitThree(b);
  }

  lemma SplitThree<T>(b: seq<T>)
    requires |b| >= 3
    ensures [b[0], b[1], b[2]] + b[3..] == b
  {
  }

  /** Drops one or two trailing '=' characters. */
  function DropPadding(t: string): (u: string)
    ensures |u| <= |t| && u == t[..|u|]
    ensures |t| - |u| <= 2
    ensures forall k :: |u| <= k < |t| ==> t[k] == '='
  {
    if |t| >= 2 && t[|t| - 2] == '=' && t[|t| - 1] == '=' then t[..|t| - 2]
    else if |t| >= 1 && t[|t| - 1] == '=' then t[..|t| - 1]
    else t
  }

  lemma DropPaddingOfEncode(b: seq<byte>)
    ensures DropPadding(Encode(b)) == Body(b)
  {
    BodySymbols(b);
    var u, e := Body(b), Encode(b);
    if |b| % 3 == 1 {
      assert e == u + "==";
      assert e[|e| - 2] == '=' && e[|e| - 1] == '=';
      assert e[..|e| - 2] == u;
    } else if |b| % 3 == 2 {
      assert e == u + "=";
      assert |u| > 0 && IsSymbol(u[|u| - 1]);
      assert e[|e| - 2] == u[|u| - 1] && e[|e| - 1] == '=';
      assert e[..|e| - 1] == u;
    } else {
      assert e == u;
      assert |u| > 0 ==> IsSymbol(u[|u| - 1]);
    }
  }

  /** ASCII whitespace in the sense of the WHATWG infra standard. */
  predicate IsAsciiWhitespace(c: char)
  {
    c == '\t' || c == '\n' || c == '\U{000C}' || c == '\r' || c == ' '
  }

  function StripAsciiWhitespace(s: string): (r: string)
    ensures forall k :: 0 <= k < |r| ==> !IsAsciiWhitespace(r[k])
  {
    if |s| == 0 then ""
    else (if IsAsciiWhitespace(s[0]) then "" else [s[0]]) + StripAsciiWhitespace(s[1..])
  }

  lemma StripNoWhitespace(s: string)
    requires forall k :: 0 <= k < |s| ==> !IsAsciiWhitespace(s[k])
    ensures StripAsciiWhitespace(s) == s
  {
    if |s| > 0 {
      StripNoWhitespace(s[1..]);
      assert [s[0]] + s[1..] == s;
    }
  }

  /** `atob` on bytes: the WHATWG forgiving-base64 decoder. Whitespace is
      dropped, padding is optional, a length of 1 modulo 4 or any other
      character is a failure. */
  function ForgivingDecode(s: string): (r: Option<seq<byte>>)
    ensures r.Some? ==> forall k :: 0 <= k < |s| ==> IsEncodingChar(s[k]) || IsAsciiWhitespace(s[k])
  {
    ForgivingAccepts(s);
    var t := StripAsciiWhitespace(s);
    var u := if |t| % 4 == 0 then DropPadding(t) else t;
    if |u| % 4 == 1 || !AllSymbols(u) then None else Some(DecodeSymbols(u))
  }

  /** `atob`: the decoded bytes as a binary string. */
  function Atob(s: string): (r: Option<string>)
    ensures r.Some? ==> IsLatin1(r.value)
  {
    match ForgivingDecode(s)
    case None => None
    case Some(b) => Some(FromBytes(b))
  }

  /** `btoa`: fails on any character beyond Latin-1. */
  function Btoa(s: string): (r: Option<string>)
    ensures r.Some? <==> IsLatin1(s)
  {
    if IsLatin1(s) then Some(Encode(ToBytes(s))) else None
  }

  /** `atob` accepts every padded encoding and returns the encoded bytes. */
  lemma ForgivingDecodeEncode(b: seq<byte>)
    ensures ForgivingDecode(Encode(b)) == Some(b)
  {
    StripNoWhitespace(Encode(b));
    BodyShape(b);
    DropPaddingOfEncode(b);
    DecodeBody(b);
  }

  /** `atob(btoa(s)) == s` for every Latin-1 string. */
  lemma AtobBtoa(s: string)
    requires IsLatin1(s)
    ensures Atob(Btoa(s).value) == Some(s)
  {
    ForgivingDecodeEncode(ToBytes(s));
    FromBytesToBytes(s);
  }

  /** Go's `base64.StdEncoding.DecodeString`: carriage returns and line feeds
      are skipped, the rest must be whole groups of four with at most two '='
      at the very end. */
  function GoDecode(s: string): (r: Option<seq<byte>>)
    ensures r.Some? ==> forall k :: 0 <= k < |s| ==> IsEncodingChar(s[k]) || s[k] == '\n' || s[k] == '\r'
  {
    GoAccepts(s);
    var t := Remove(Remove(s, '\n'), '\r');
    var u := DropPadding(t);
    if |t| % 4 != 0 || !AllSymbols(u) then None else Some(DecodeSymbols(u))
  }

  lemma RemoveAbsent(s: string, c: char)
    requires c !in s
    ensures Remove(s, c) == s
  {
    if |s| > 0 {
      RemoveAbsent(s[1..], c);
      assert [s[0]] + s[1..] == s;
    }
  }

  /** Go decodes every padded encoding to the encoded bytes. */
  lemma GoDecodeEncode(b: seq<byte>)
    ensures GoDecode(Encode(b)) == Some(b)
  {
    var e := Encode(b);
    assert '\n' !in e;
    RemoveAbsent(e, '\n');
    assert '\r' !in e;
    RemoveAbsent(e, '\r');
    BodyShape(b);
    DropPaddingOfEncode(b);
    DecodeBody(b);
  }

  /** Stripping whitespace works character by character. */
  lemma {:induction false} StripAppend(a: string, b: string)
    ensures StripAsciiWhitespace(a + b) == StripAsciiWhitespace(a) + StripAsciiWhitespace(b)
  {
    if |a| > 0 {
      StripAppend(a[1..], b);
      assert (a + b)[1..] == a[1..] + b;
    } else {
      assert a + b == b;
    }
  }

  /** Removing line breaks first does not change what stripping leaves. */
  lemma {:induction false} StripAfterRemove(s: string)
    ensures StripAsciiWhitespace(Remove(Remove(s, '\n'), '\r')) == StripAsciiWhitespace(s)
  {
    if |s| > 0 {
      StripAfterRemove(s[1..]);
      var head := if s[0] == '\n' then "" else [s[0]];
      RemoveAppend(head, Remove(s[1..], '\n'), '\r');
      var head2 := Remove(head, '\r');
      StripAppend(head2, Remove(Remove(s[1..], '\n'), '\r'));
      assert StripAsciiWhitespace(head2) == (if IsAsciiWhitespace(s[0]) then "" else [s[0]]);
    }
  }

  /** Dropping at most two '=' from whole groups never leaves one symbol. */
  lemma PaddedLength(n: nat, d: nat)
    requires n % 4 == 0 && d <= 2 && d <= n
    ensures (n - d) % 4 != 1
  {
  }

  /** Symbols followed by '=' contain no whitespace. */
  lemma PaddedHasNoWhitespace(t: string)
    requires AllSymbols(DropPadding(t))
    ensures forall k :: 0 <= k < |t| ==> !IsAsciiWhitespace(t[k])
  {
    var u := DropPadding(t);
    forall k | 0 <= k < |t|
      ensures !IsAsciiWhitespace(t[k])
    {
      if k < |u| {
        assert IsSymbol(u[k]);
      }
    }
  }

  /** Go is the stricter decoder: whatever it accepts, `atob` accepts too and
      decodes to the same bytes. */
  lemma GoDecodeAgrees(s: string)
    requires GoDecode(s).Some?
    ensures ForgivingDecode(s) == GoDecode(s)
  {
    var t := Remove(Remove(s, '\n'), '\r');
    var u := DropPadding(t);
    assert AllSymbols(u) && |t| % 4 == 0;
    PaddedHasNoWhitespace(t);
    StripNoWhitespace(t);
    StripAfterRemove(s);
    assert StripAsciiWhitespace(s) == t;
    PaddedLength(|t|, |t| - |u|);
    assert GoDecode(s) == Some(DecodeSymbols(u));
    assert ForgivingDecode(s) == Some(DecodeSymbols(u));
  }

  // ------------------------------------------- characters a decoder accepts

  /** Stripping keeps every character that is not whitespace. */
  lemma {:induction false} StripKeeps(s: string)
    ensures forall k :: 0 <= k < |s| && !IsAsciiWhitespace(s[k]) ==> s[k] in StripAsciiWhitespace(s)
  {
    if |s| > 0 {
      StripKeeps(s[1..]);
      var head := if IsAsciiWhitespace(s[0]) then "" else [s[0]];
      assert StripAsciiWhitespace(s) == head + StripAsciiWhitespace(s[1..]);
      forall k | 1 <= k < |s| && !IsAsciiWhitespace(s[k])
        ensures s[k] in StripAsciiWhitespace(s)
      {
        assert s[k] == s[1..][k - 1];
      }
    }
  }

  /** Removing `c` keeps every other character. */
  lemma {:induction false} RemoveKeeps(s: string, c: char)
    ensures forall k :: 0 <= k < |s| && s[k] != c ==> s[k] in Remove(s, c)
  {
    if |s| > 0 {
      RemoveKeeps(s[1..], c);
      var head := if s[0] == c then "" else [s[0]];
      assert Remove(s, c) == head + Remove(s[1..], c);
      forall k | 1 <= k < |s| && s[k] != c
        ensures s[k] in Remove(s, c)
      {
        assert s[k] == s[1..][k - 1];
      }
    }
  }

  /** Symbols with at most their trailing '=' removed: every character of
      the whole is a symbol or '='. */
  lemma PaddedChars(t: string, u: string)
    requires |u| <= |t| && u == t[..|u|] && AllSymbols(u)
    requires forall k :: |u| <= k < |t| ==> t[k] == '='
    ensures forall k :: 0 <= k < |t| ==> IsEncodingChar(t[k])
  {
    forall k | 0 <= k < |t|
      ensures IsEncodingChar(t[k])
    {
      if k < |u| {
        assert t[k] == u[k];
      }
    }
  }

  /** What `atob` accepts is made of symbols, '=' and whitespace. */
  lemma ForgivingAccepts(s: string)
    ensures var t := StripAsciiWhitespace(s);
      var u := if |t| % 4 == 0 then DropPadding(t) else t;
      |u| % 4 != 1 && AllSymbols(u) ==> forall k :: 0 <= k < |s| ==> IsEncodingChar(s[k]) || IsAsciiWhitespace(s[k])
  {
    var t := StripAsciiWhitespace(s);
    var u := if |t| % 4 == 0 then DropPadding(t) else t;
    if |u| % 4 != 1 && AllSymbols(u) {
      PaddedChars(t, u);
      StripKeeps(s);
    }
  }

  /** What Go accepts is made of symbols, '=' and line breaks. */
  lemma GoAccepts(s: string)
    ensures var t := Remove(Remove(s, '\n'), '\r');
      |t| % 4 == 0 && AllSymbols(DropPadding(t)) ==> forall k :: 0 <= k < |s| ==> IsEncodingChar(s[k]) || s[k] == '\n' || s[k] == '\r'
  {
    var s1 := Remove(s, '\n');
    var t := Remove(s1, '\r');
    if |t| % 4 == 0 && AllSymbols(DropPadding(t)) {
      PaddedChars(t, DropPadding(t));
      RemoveKeeps(s, '\n');
      RemoveKeeps(s1, '\r');
      forall k | 0 <= k < |s| && s[k] != '\n' && s[k] != '\r'
        ensures IsEncodingChar(s[k])
      {
        assert s[k] in s1;
        var j :| 0 <= j < |s1| && s1[j] == s[k];
        assert s1[j] in t;
      }
    }
  }
}
