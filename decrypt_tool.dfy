/** The two pure pieces of the offline decryption tool
    (jwk-decrypt-tool/main.go): parsing an `iv.wrappedKey` token with Go's
    strict base64 decoder, and the rule by which `countLines` counts the
    lines of a results file. */
module DecryptTool {
  import opened Wrappers
  import opened Strings
  import Base64
  import SdkCryptoUtils

  /** The tool's `WrappedKey` record. */
  datatype WrappedKey = WrappedKey(iv: seq<byte>, wrappedKey: seq<byte>)

  /** The three errors `parseBase64WrappedKey` can return. */
  datatype ParseError = InvalidFormat | BadIv | BadWrappedKey

  /** `parseBase64WrappedKey`: exactly two "."-separated parts, the IV
      decoded first. */
  function ParseBase64WrappedKey(input: string): (r: Result<WrappedKey, ParseError>)
    ensures var parts := Split(input, '.');
      && (r == Err(InvalidFormat) <==> |parts| != 2)
      && (r == Err(BadIv) <==> |parts| == 2 && Base64.GoDecode(parts[0]).None?)
      && (r == Err(BadWrappedKey) <==>
            |parts| == 2 && Base64.GoDecode(parts[0]).Some? && Base64.GoDecode(parts[1]).None?)
      && (r.Ok? ==> Some(r.value.iv) == Base64.GoDecode(parts[0])
                    && Some(r.value.wrappedKey) == Base64.GoDecode(parts[1]))
  {
    var parts := Split(input, '.');
    if |parts| != 2 then Err(InvalidFormat)
    else
      match Base64.GoDecode(parts[0])
      case None => Err(BadIv)
      case Some(iv) =>
        match Base64.GoDecode(parts[1])
        case None => Err(BadWrappedKey)
        case Some(wrappedKey) => Ok(WrappedKey(iv, wrappedKey))
  }

  /** The tool reads back every token the SDK writes. */
  lemma ParsesSdkToken(wrappedKey: seq<byte>, iv: seq<byte>)
    ensures ParseBase64WrappedKey(SdkCryptoUtils.WrappedToBase64(wrappedKey, iv))
         == Ok(WrappedKey(iv, wrappedKey))
  {
    Base64.GoDecodeEncode(iv);
    Base64.GoDecodeEncode(wrappedKey);
  }

  /** The tool is stricter than the SDK's `Base64ToWrapped`: a token it
      accepts the SDK accepts too, with the same IV and wrapped key. */
  lemma StricterThanSdk(input: string)
    requires ParseBase64WrappedKey(input).Ok?
    ensures var w := ParseBase64WrappedKey(input).value;
      SdkCryptoUtils.Base64ToWrapped(input) == Ok(SdkCryptoUtils.Wrapped(w.wrappedKey, w.iv))
  {
    var parts := Split(input, '.');
    Base64.GoDecodeAgrees(parts[0]);
    Base64.GoDecodeAgrees(parts[1]);
    var b0, b1 := Base64.GoDecode(parts[0]).value, Base64.GoDecode(parts[1]).value;
    assert Base64.Atob(parts[0]) == Some(FromBytes(b0));
    assert Base64.Atob(parts[1]) == Some(FromBytes(b1));
    ToBytesFromBytes(b0);
    ToBytesFromBytes(b1);
  }

  /** A token with a third segment is refused by the tool, though the SDK
      ignores the extra segment. */
  lemma ThirdSegmentRefused(a: string, b: string, c: string)
    requires '.' !in a && '.' !in b && '.' !in c
    ensures ParseBase64WrappedKey(a + "." + b + "." + c) == Err(InvalidFormat)
  {
    SplitAfterFirst(a, b + "." + c, '.');
    assert a + "." + b + "." + c == a + ['.'] + (b + "." + c);
    TwoPieces(b, c, '.');
    assert b + "." + c == b + ['.'] + c;
  }

  // ------------------------------------------------------------ counting

  /** Go's `unicode.IsSpace`: ASCII tab, newline, vertical tab, form feed,
      carriage return and space, NEL, no-break space and the Unicode space
      separators. */
  predicate IsSpace(c: char)
  {
    c == '\t' || c == '\n' || c == '\U{000B}' || c == '\U{000C}' || c == '\r' || c == ' '
    || c == '\U{0085}' || c == '\U{00A0}' || c == '\U{1680}' || ('\U{2000}' <= c <= '\U{200A}')
    || c == '\U{2028}' || c == '\U{2029}' || c == '\U{202F}' || c == '\U{205F}' || c == '\U{3000}'
  }

  function TrimLeft(s: string): (r: string)
    ensures |r| <= |s|
  {
    if |s| > 0 && IsSpace(s[0]) then TrimLeft(s[1..]) else s
  }

  function TrimRight(s: string): (r: string)
    ensures |r| <= |s|
  {
    if |s| > 0 && IsSpace(s[|s| - 1]) then TrimRight(s[..|s| - 1]) else s
  }

  /** `strings.TrimSpace`: a line trims to "" exactly when it is white
      space only. */
  function TrimSpace(s: string): (t: string)
    ensures t == "" <==> !HasText(s)
  {
    TrimLeftText(s);
    TrimRightEmpty(TrimLeft(s));
    TrimRight(TrimLeft(s))
  }

  /** The line has a character that is not white space. */
  predicate HasText(line: string)
  {
    exists k :: 0 <= k < |line| && !IsSpace(line[k])
  }

  lemma {:induction false} TrimRightEmpty(s: string)
    ensures TrimRight(s) == "" <==> !HasText(s)
  {
    if |s| > 0 && IsSpace(s[|s| - 1]) {
      TrimRightEmpty(s[..|s| - 1]);
      if HasText(s) {
        var k :| 0 <= k < |s| && !IsSpace(s[k]);
        assert s[..|s| - 1][k] == s[k];
      }
      if HasText(s[..|s| - 1]) {
        var k :| 0 <= k < |s| - 1 && !IsSpace(s[..|s| - 1][k]);
        assert s[k] == s[..|s| - 1][k];
      }
    } else if |s| > 0 {
      assert !IsSpace(s[|s| - 1]);
    }
  }

  lemma {:induction false} TrimLeftText(s: string)
    ensures HasText(TrimLeft(s)) <==> HasText(s)
  {
    if |s| > 0 && IsSpace(s[0]) {
      TrimLeftText(s[1..]);
      if HasText(s) {
        var k :| 0 <= k < |s| && !IsSpace(s[k]);
        assert s[1..][k - 1] == s[k];
      }
      if HasText(s[1..]) {
        var k :| 0 <= k < |s| - 1 && !IsSpace(s[1..][k]);
        assert s[k + 1] == s[1..][k];
      }
    }
  }

  /** A line as `bufio.ScanLines` hands it out: one trailing '\r' dropped. */
  function DropCR(line: string): string
  {
    if |line| > 0 && line[|line| - 1] == '\r' then line[..|line| - 1] else line
  }

  /** The lines of `bufio.ScanLines`: the text between '\n's, a final line
      without '\n' included when it is not empty, each with its trailing
      '\r' dropped. There is one line per '\n', and one more when the
      content does not end with '\n'; no line holds a '\n'. */
  function ScanLines(content: string): (lines: seq<string>)
    ensures |lines| == Count(content, '\n') + (if |content| > 0 && content[|content| - 1] != '\n' then 1 else 0)
    ensures forall k :: 0 <= k < |lines| ==> '\n' !in lines[k]
  {
    SplitShape(content, '\n');
    SplitLast(content, '\n');
    var parts := Split(content, '\n');
    var kept := if parts[|parts| - 1] == "" then parts[..|parts| - 1] else parts;
    seq(|kept|, k requires 0 <= k < |kept| => DropCR(kept[k]))
  }

  /** The number of lines with text, the reference for `countLines`. */
  function TextLines(lines: seq<string>): (n: nat)
    ensures n <= |lines|
  {
    if |lines| == 0 then 0
    else TextLines(lines[..|lines| - 1]) + (if HasText(lines[|lines| - 1]) then 1 else 0)
  }

  /** `countLines` on the file's content: counts the scanned lines whose
      trimmed text is not empty. */
  method CountLines(content: string) returns (count: nat)
    ensures count == TextLines(ScanLines(content))
  {
    var lines := ScanLines(content);
    count := 0;
    var i := 0;
    while i < |lines|
      invariant 0 <= i <= |lines|
      invariant count == TextLines(lines[..i])
    {
      var line := TrimSpace(lines[i]);
      assert lines[..i + 1][..i] == lines[..i];
      if line != "" {
        count := count + 1;
      }
      i := i + 1;
    }
    assert lines[..i] == lines;
  }

  /** Lines of white space only are not counted, lines with text are: a
      file of `n` lines with text and any number of blank lines counts `n`. */
  lemma {:induction false} TextLinesAppend(a: seq<string>, b: seq<string>)
    ensures TextLines(a + b) == TextLines(a) + TextLines(b)
  {
    if |b| > 0 {
      TextLinesAppend(a, b[..|b| - 1]);
      assert (a + b)[..|a + b| - 1] == a + b[..|b| - 1];
    } else {
      assert a + b == a;
    }
  }

  /** Every scanned line is counted when none of them is blank. */
  lemma {:induction false} AllTextLinesCounted(lines: seq<string>)
    requires forall k :: 0 <= k < |lines| ==> HasText(lines[k])
    ensures TextLines(lines) == |lines|
  {
    if |lines| > 0 {
      AllTextLinesCounted(lines[..|lines| - 1]);
    }
  }
}
