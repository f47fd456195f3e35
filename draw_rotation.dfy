/** The administrator's step of the draw (api-sdk/lib/index.ts): the
    decrypted public keys are rotated left by a random shift between 1 and
    N-1, so that the key at position i comes from position (i + s) mod N. */
module DrawRotation {

  /** `Math.floor(r * (n - 1)) + 1` for `Math.random()`'s `0 <= r < 1`.
      For two or more keys the shift lies in [1, N-1]; a single key gets
      shift 1 and no keys shift 0 or 1. */
  function ShiftAmount(r: real, n: nat): (shift: int)
    requires 0.0 <= r < 1.0
    ensures n >= 2 ==> 1 <= shift <= n - 1
    ensures n == 1 ==> shift == 1
    ensures n == 0 ==> 0 <= shift <= 1
  {
    ScaledFloorRange(r, n);
    (r * (n as real - 1.0)).Floor + 1
  }

  /** The floor of `r * (n - 1)` lies in [0, N-2] for N >= 2, is 0 for
      N = 1 and -1 or 0 for N = 0. */
  lemma ScaledFloorRange(r: real, n: nat)
    requires 0.0 <= r < 1.0
    ensures n >= 2 ==> 0 <= (r * (n as real - 1.0)).Floor <= n - 2
    ensures n == 1 ==> (r * (n as real - 1.0)).Floor == 0
    ensures n == 0 ==> -1 <= (r * (n as real - 1.0)).Floor <= 0
  {
    var x := r * (n as real - 1.0);
    if n >= 2 {
      var c := (n - 1) as real;
      assert c == n as real - 1.0 && c > 0.0;
      assert x == r * c;
      ScaledBelow(r, c);
      assert c == (n - 1) as real;
      FloorBelow(x, n - 1);
    } else if n == 1 {
      assert x == r * 0.0 == 0.0;
    } else {
      assert x == r * -1.0 == -r;
      FloorAboveMinusOne(x);
    }
  }

  lemma ScaledBelow(r: real, c: real)
    requires 0.0 <= r < 1.0 && c > 0.0
    ensures 0.0 <= r * c < c
  {
  }

  lemma FloorBelow(x: real, k: int)
    requires 0.0 <= x < k as real
    ensures 0 <= x.Floor < k
  {
  }

  lemma FloorAboveMinusOne(x: real)
    requires -1.0 < x <= 0.0
    ensures -1 <= x.Floor <= 0
  {
  }

  // ------------------------------------------------ modular arithmetic

  lemma {:induction false} MulAtLeast(a: nat, n: nat)
    requires a >= 1
    ensures a * n >= n
  {
    if a > 1 {
      MulAtLeast(a - 1, n);
      assert a * n == (a - 1) * n + n;
    }
  }

  /** Quotient and remainder are unique. */
  lemma ModUnique(x: int, n: int, q: int, m: int)
    requires n > 0 && 0 <= m < n && x == q * n + m
    ensures x % n == m && x / n == q
  {
    var q', m' := x / n, x % n;
    assert x == q' * n + m';
    assert (q - q') * n == m' - m;
    if q > q' {
      MulAtLeast(q - q', n);
    } else if q < q' {
      MulAtLeast(q' - q, n);
    }
  }

  /** `[...keys.slice(s), ...keys.slice(0, s)]`; `slice` clamps a start
      beyond the end. The result is a permutation of the keys. */
  function Rotate<T>(keys: seq<T>, s: nat): (rotated: seq<T>)
    ensures |rotated| == |keys|
    ensures multiset(rotated) == multiset(keys)
  {
    var m := if s <= |keys| then s else |keys|;
    assert keys == keys[..m] + keys[m..];
    keys[m..] + keys[..m]
  }

  /** The rotated list has the same length and takes position i from
      position (i + s) mod N. */
  lemma RotateAt<T>(keys: seq<T>, s: nat)
    requires s <= |keys|
    ensures |Rotate(keys, s)| == |keys|
    ensures forall i :: 0 <= i < |keys| ==> Rotate(keys, s)[i] == keys[(i + s) % |keys|]
  {
    var n := |keys|;
    forall i | 0 <= i < n
      ensures Rotate(keys, s)[i] == keys[(i + s) % n]
    {
      if i + s < n {
        ModUnique(i + s, n, 0, i + s);
      } else {
        ModUnique(i + s, n, 1, i + s - n);
      }
    }
  }

  /** Position i receives from position (i + s) mod N. */
  function Source(i: nat, s: nat, n: nat): nat
    requires n > 0
  {
    (i + s) % n
  }

  /** With 1 <= s <= N-1 no position receives its own key. */
  lemma NoFixedPoint(i: nat, s: nat, n: nat)
    requires i < n && 1 <= s <= n - 1
    ensures Source(i, s, n) != i
  {
    if i + s < n {
      ModUnique(i + s, n, 0, i + s);
    } else {
      ModUnique(i + s, n, 1, i + s - n);
    }
  }

  /** With distinct keys and 1 <= s <= N-1 every position gets a key other
      than its own: the rotation is a derangement. */
  lemma RotateDerangement<T>(keys: seq<T>, s: nat)
    requires 1 <= s <= |keys| - 1
    requires forall a, b :: 0 <= a < b < |keys| ==> keys[a] != keys[b]
    ensures forall i :: 0 <= i < |keys| ==> Rotate(keys, s)[i] != keys[i]
  {
    RotateAt(keys, s);
    forall i | 0 <= i < |keys|
      ensures Rotate(keys, s)[i] != keys[i]
    {
      NoFixedPoint(i, s, |keys|);
    }
  }

  /** k steps of "receive from (i + s) mod N" starting at i. */
  function Iterate(i: nat, s: nat, n: nat, k: nat): nat
    requires n > 0
  {
    if k == 0 then i % n else Source(Iterate(i, s, n, k - 1), s, n)
  }

  lemma IterateClosedForm(i: nat, s: nat, n: nat, k: nat)
    requires n > 0
    ensures Iterate(i, s, n, k) == (i + k * s) % n
  {
    IterateSum(i, s, n, k);
    TimesIsMul(k, s);
  }

  /** k times s by repeated addition. */
  function Times(k: nat, s: nat): nat
  {
    if k == 0 then 0 else Times(k - 1, s) + s
  }

  lemma {:induction false} TimesIsMul(k: nat, s: nat)
    ensures Times(k, s) == k * s
  {
    if k > 0 {
      TimesIsMul(k - 1, s);
      MulSucc(k - 1, s);
    }
  }

  lemma MulSucc(a: nat, s: nat)
    ensures a * s + s == (a + 1) * s
  {
  }

  /** Each step adds s once more, modulo N. */
  lemma {:induction false} IterateSum(i: nat, s: nat, n: nat, k: nat)
    requires n > 0
    ensures Iterate(i, s, n, k) == (i + Times(k, s)) % n
  {
    if k > 0 {
      IterateSum(i, s, n, k - 1);
      var p := i + Times(k - 1, s);
      var prev := Iterate(i, s, n, k - 1);
      assert Iterate(i, s, n, k) == Source(prev, s, n);
      assert Source(prev, s, n) == (prev + s) % n;
      assert prev == p % n;
      assert Iterate(i, s, n, k) == (p % n + s) % n;
      ModAddLeft(p, s, n);
    }
  }

  lemma ModAddLeft(p: nat, s: nat, n: nat)
    requires n > 0
    ensures (p % n + s) % n == (p + s) % n
  {
    var q, a := p / n, p % n + s;
    assert p == q * n + p % n;
    assert a == (a / n) * n + a % n;
    assert p + s == (q + a / n) * n + a % n;
    ModUnique(p + s, n, q + a / n, a % n);
  }

  lemma ModMultiple(t: nat, n: nat)
    requires n > 0
    ensures (t * n) % n == 0
  {
    ModUnique(t * n, n, t, 0);
  }

  /** When s and N share a factor d > 1, position 0 comes back to itself
      after N/d < N steps: the assignment splits into several cycles
      instead of one. */
  lemma ShortCycle(s: nat, n: nat, d: nat)
    requires n > 0 && d > 1 && n % d == 0 && s % d == 0
    ensures 0 < n / d < n
    ensures Iterate(0, s, n, n / d) == 0
  {
    var m, t := n / d, s / d;
    ExactQuotient(n, d);
    ExactQuotient(s, d);
    QuotientBelow(n, d, m);
    IterateClosedForm(0, s, n, m);
    ProductSwap(m, t, d);
    ModMultiple(t, n);
  }

  lemma ExactQuotient(x: nat, d: nat)
    requires d > 0 && x % d == 0
    ensures x == (x / d) * d
  {
  }

  lemma QuotientBelow(n: nat, d: nat, m: nat)
    requires n > 0 && d > 1 && n == m * d
    ensures 0 < m < n
  {
    assert m != 0;
    MulAtLeast(d - 1, m);
    assert n == (d - 1) * m + m;
  }

  lemma ProductSwap(m: nat, t: nat, d: nat)
    ensures m * (t * d) == t * (m * d)
  {
  }

  /** Four participants and shift 2: two separate pairs exchange gifts. */
  lemma FourWithShiftTwo()
    ensures Iterate(0, 2, 4, 1) == 2 && Iterate(0, 2, 4, 2) == 0
    ensures Iterate(1, 2, 4, 1) == 3 && Iterate(1, 2, 4, 2) == 1
  {
    IterateClosedForm(0, 2, 4, 1);
    IterateClosedForm(0, 2, 4, 2);
    IterateClosedForm(1, 2, 4, 1);
    IterateClosedForm(1, 2, 4, 2);
  }
}
