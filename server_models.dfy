/** The `Results` column of a group (server/database/models/group.go): the
    encrypted draw results, stored as one text value with the entries
    separated by newlines, and NULL when there are none. */
module ServerModels {
  import opened Strings

  /** The values a database driver hands to `Scan` or takes from `Value`. */
  datatype SqlValue = SqlNull | SqlText(text: string) | SqlBytes(bytes: seq<byte>) | SqlInteger(n: int)

  /** `Scan` either assigns the receiver or panics on its type assertion. */
  datatype ScanOutcome = Scanned(results: seq<string>) | Panic

  /** `Results.Value`. */
  function Value(r: seq<string>): (v: SqlValue)
    ensures v == SqlNull <==> |r| == 0
    ensures v.SqlText? <==> |r| > 0
    ensures v.SqlText? ==> Count(v.text, '\n') >= |r| - 1
  {
    if |r| == 0 then SqlNull
    else
      JoinCount(r);
      SqlText(Join(r, '\n'))
  }

  /** `Results.Scan`: a text value is split on newlines; anything else fails
      the `src.(string)` assertion. */
  function Scan(src: SqlValue): (o: ScanOutcome)
    ensures o.Scanned? <==> src.SqlText?
    ensures o.Scanned? ==> |o.results| == Count(src.text, '\n') + 1
    ensures o.Scanned? ==> forall k :: 0 <= k < |o.results| ==> '\n' !in o.results[k]
  {
    match src
    case SqlText(text) =>
      SplitShape(text, '\n');
      Scanned(Split(text, '\n'))
    case _ => Panic
  }

  /** Joining puts at least one separator between each pair of parts. */
  lemma {:induction false} JoinCount(parts: seq<string>)
    requires |parts| > 0
    ensures Count(Join(parts, '\n'), '\n') >= |parts| - 1
  {
    if |parts| > 1 {
      JoinCount(parts[1..]);
      CountAppend(parts[0] + "\n", Join(parts[1..], '\n'), '\n');
      CountAppend(parts[0], "\n", '\n');
    }
  }

  lemma {:induction false} CountAppend(a: string, b: string, c: char)
    ensures Count(a + b, c) == Count(a, c) + Count(b, c)
  {
    if |a| > 0 {
      CountAppend(a[1..], b, c);
      assert (a + b)[1..] == a[1..] + b;
    } else {
      assert a + b == b;
    }
  }

  /** Reading back what was stored gives the same results, as long as there
      is at least one and none contains a newline. */
  lemma ScanValue(r: seq<string>)
    requires |r| > 0
    requires forall k :: 0 <= k < |r| ==> '\n' !in r[k]
    ensures Scan(Value(r)) == Scanned(r)
  {
    SplitJoin(r, '\n');
  }

  /** Storing what was read back stores the same text. */
  lemma ValueScan(text: string)
    ensures Value(Scan(SqlText(text)).results) == SqlText(text)
  {
    JoinSplit(text, '\n');
  }

  /** No results are stored as NULL, and NULL cannot be read back: `Scan`
      panics on it. */
  lemma EmptyResultsDoNotRoundTrip()
    ensures Scan(Value([])) == Panic
  {
  }

  /** An entry with a newline comes back as two entries. */
  lemma NewlineSplitsEntry()
    ensures Scan(Value(["a\nb"])) == Scanned(["a", "b"])
  {
    TwoPieces("a", "b", '\n');
    assert "a\nb" == "a" + ['\n'] + "b";
  }
}
