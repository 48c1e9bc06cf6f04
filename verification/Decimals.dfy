/** Decimal digits: numbers in a fixed width, their value, and trailing zeros. */
module Decimals {
  function Digit(d: nat): char
    requires d < 10
  {
    ('0' as int + d) as char
  }

  predicate IsDigit(c: char) {
    '0' <= c <= '9'
  }

  predicate AllDigits(s: string) {
    forall i :: 0 <= i < |s| ==> IsDigit(s[i])
  }

  function Power10(w: nat): (p: nat)
    ensures p > 0
  {
    if w == 0 then 1 else 10 * Power10(w - 1)
  }

  /** The number in w digits. */
  function Pad(n: nat, w: nat): (s: string)
    ensures |s| == w && forall i :: 0 <= i < w ==> '0' <= s[i] <= '9'
  {
    if w == 0 then [] else Pad(n / 10, w - 1) + [Digit(n % 10)]
  }

  /** The number that digits write. */
  function ValueOf(s: string): nat
    requires AllDigits(s)
  {
    if s == [] then 0 else 10 * ValueOf(s[..|s| - 1]) + (s[|s| - 1] as int - '0' as int)
  }

  lemma {:induction false} PadValue(n: nat, w: nat)
    requires n < Power10(w)
    ensures ValueOf(Pad(n, w)) == n
  {
    if w == 0 {
    } else {
      PadValue(n / 10, w - 1);
      assert Pad(n, w)[..w - 1] == Pad(n / 10, w - 1);
    }
  }

  predicate AllZeros(s: string) {
    forall i :: 0 <= i < |s| ==> s[i] == '0'
  }

  /** The digits without the zeros at their end. */
  function TrimZeros(s: string): string {
    if AllZeros(s) then [] else [s[0]] + TrimZeros(s[1..])
  }

  /** What is trimmed is a beginning that ends in no zero, and zeros make it up to the whole. */
  lemma {:induction false} TrimZerosSplits(s: string)
    ensures TrimZeros(s) <= s && AllZeros(s[|TrimZeros(s)|..])
    ensures TrimZeros(s) != [] ==> TrimZeros(s)[|TrimZeros(s)| - 1] != '0'
  {
    if AllZeros(s) {
    } else {
      var rest := TrimZeros(s[1..]);
      TrimZerosSplits(s[1..]);
      assert s == [s[0]] + s[1..];
      assert s[|rest| + 1..] == s[1..][|rest|..];
      if rest == [] {
        assert AllZeros(s[1..]);
      }
    }
  }

  lemma {:induction false} ValueOfZeros(s: string)
    requires AllZeros(s)
    ensures AllDigits(s) && ValueOf(s) == 0
  {
    if s == [] {
    } else {
      ValueOfZeros(s[..|s| - 1]);
    }
  }

  /** Zeros at the end multiply. */
  lemma {:induction false} ValueBeforeZeros(s: string, zeros: string)
    requires AllDigits(s) && AllZeros(zeros)
    ensures AllDigits(s + zeros) && ValueOf(s + zeros) == ValueOf(s) * Power10(|zeros|)
  {
    if zeros == [] {
      assert s + zeros == s;
    } else {
      var shorter := zeros[..|zeros| - 1];
      ValueBeforeZeros(s, shorter);
      assert (s + zeros)[..|s + zeros| - 1] == s + shorter;
      TimesTen(ValueOf(s), Power10(|shorter|));
    }
  }

  lemma TimesTen(v: nat, p: nat)
    ensures 10 * (v * p) == v * (10 * p)
  {
  }

  /** Trimming divides by the power of ten that was trimmed. */
  lemma ValueOfTrimmed(s: string)
    requires AllDigits(s)
    ensures |TrimZeros(s)| <= |s| && AllDigits(TrimZeros(s))
    ensures ValueOf(TrimZeros(s)) * Power10(|s| - |TrimZeros(s)|) == ValueOf(s)
  {
    TrimZerosSplits(s);
    var x := TrimZeros(s);
    assert x == s[..|x|] && s == x + s[|x|..];
    ValueBeforeZeros(x, s[|x|..]);
  }

  // ---------------------------------------------------------------- digits and division

  lemma DivideTwice(n: nat, p: nat)
    requires p > 0
    ensures n / 10 / p == n / (10 * p)
    ensures n % (10 * p) == 0 <==> n % 10 == 0 && n / 10 % p == 0
  {
    var q, r := n / 10, n % 10;
    var q', r' := q / p, q % p;
    assert q == p * q' + r';
    assert n == 10 * q + r == 10 * p * q' + (10 * r' + r);
    assert 0 <= 10 * r' + r < 10 * p;
    Quotient(n, 10 * p, q', 10 * r' + r);
  }

  lemma Quotient(n: nat, p: nat, q: nat, r: nat)
    requires p > 0 && n == p * q + r && r < p
    ensures n / p == q && n % p == r
  {
    var d := n / p - q;
    assert n == p * (n / p) + n % p;
    assert p * d == r - n % p;
    AtLeastOnce(p, d);
  }

  lemma AtLeastOnce(p: nat, d: int)
    ensures d > 0 ==> p * d >= p
    ensures d < 0 ==> p * d + p <= 0
  {
    if d > 0 {
      assert p * (d - 1) >= 0;
    } else if d < 0 {
      assert p * (-d - 1) >= 0;
    }
  }

  /** The first m of m + k digits are the quotient by 10^k. */
  lemma {:induction false} PadPrefix(n: nat, w: nat, m: nat, k: nat)
    requires m + k == w
    ensures Pad(n, w)[..m] == Pad(n / Power10(k), m)
    decreases k
  {
    if k == 0 {
    } else {
      PadPrefix(n / 10, w - 1, m, k - 1);
      DivideTwice(n, Power10(k - 1));
      ShorterPrefix(Pad(n / 10, w - 1), [Digit(n % 10)], m);
    }
  }

  lemma ShorterPrefix(a: string, b: string, m: nat)
    requires m <= |a|
    ensures (a + b)[..m] == a[..m]
  {
  }

  /** The last k are zeros exactly when 10^k divides. */
  lemma {:induction false} PadZeros(n: nat, w: nat, m: nat, k: nat)
    requires m + k == w
    ensures AllZeros(Pad(n, w)[m..]) <==> n % Power10(k) == 0
    decreases k
  {
    if k == 0 {
    } else {
      var front, last := Pad(n / 10, w - 1)[m..], Digit(n % 10);
      PadZeros(n / 10, w - 1, m, k - 1);
      DivideTwice(n, Power10(k - 1));
      assert Pad(n, w)[m..] == front + [last];
      assert AllZeros(front + [last]) <==> AllZeros(front) && last == '0' by {
        assert (front + [last])[|front|] == last;
        assert forall i :: 0 <= i < |front| ==> (front + [last])[i] == front[i];
      }
    }
  }

  /** a is b with some of its last digits, at most w, made zeros. */
  ghost predicate Truncated(a: nat, b: nat, w: nat) {
    exists k :: 1 <= k <= w && a == b - b % Power10(k)
  }

  lemma TruncationIff(a: nat, b: nat, p: nat, qa: nat, qb: nat, divides: bool)
    requires p > 0 && qa == a / p && qb == b / p && (divides <==> a % p == 0)
    ensures a == b - b % p <==> divides && qa == qb
  {
    assert a == p * qa + a % p && b == p * qb + b % p;
    if a == b - b % p {
      Quotient(a, p, qb, 0);
    }
  }

  /** Of two numbers of w digits, the trimmed first is a proper beginning of the trimmed second exactly when
      it is the second truncated. */
  lemma TrimmedPrefixIff(a: nat, b: nat, w: nat)
    requires a < b < Power10(w)
    ensures TrimZeros(Pad(a, w)) < TrimZeros(Pad(b, w)) <==> Truncated(a, b, w)
  {
    if TrimZeros(Pad(a, w)) < TrimZeros(Pad(b, w)) {
      PrefixIsTruncated(a, b, w);
    }
    if k :| 1 <= k <= w && a == b - b % Power10(k) {
      TruncatedIsPrefix(a, b, w, k);
    }
  }

  /** Truncation at 10^k, seen in the digits: zeros from position m = w - k on, and the same digits before. */
  lemma TruncatedDigits(a: nat, b: nat, w: nat, k: nat, m: nat)
    requires a < Power10(w) && b < Power10(w) && k + m == w
    ensures a == b - b % Power10(k) <==> AllZeros(Pad(a, w)[m..]) && Pad(a, w)[..m] == Pad(b, w)[..m]
  {
    var qa, za := Halves(a, w, m, k);
    var qb, zb := Halves(b, w, m, k);
    SamePad(qa, qb, m);
    TruncationIff(a, b, Power10(k), qa, qb, za);
  }

  lemma Halves(n: nat, w: nat, m: nat, k: nat) returns (quotient: nat, divides: bool)
    requires n < Power10(w) && m + k == w
    ensures quotient == n / Power10(k) && quotient < Power10(m) && (divides <==> n % Power10(k) == 0)
    ensures Pad(n, w)[..m] == Pad(quotient, m) && (divides <==> AllZeros(Pad(n, w)[m..]))
  {
    quotient, divides := n / Power10(k), n % Power10(k) == 0;
    PadPrefix(n, w, m, k);
    PadZeros(n, w, m, k);
    QuotientFits(n, w, m, k);
  }

  lemma SamePad(a: nat, b: nat, w: nat)
    requires a < Power10(w) && b < Power10(w)
    ensures Pad(a, w) == Pad(b, w) <==> a == b
  {
    PadValue(a, w);
    PadValue(b, w);
  }

  lemma TruncatedToNothing(b: nat, w: nat)
    requires 0 < b < Power10(w) && w > 0
    ensures Truncated(0, b, w)
  {
    Quotient(b, Power10(w), 0, b);
    assert 0 == b - b % Power10(w);
  }

  lemma PrefixIsTruncated(a: nat, b: nat, w: nat)
    requires a < b < Power10(w) && TrimZeros(Pad(a, w)) < TrimZeros(Pad(b, w))
    ensures Truncated(a, b, w)
  {
    var m := BeginningOf(Pad(a, w), Pad(b, w));
    TruncatedDigits(a, b, w, w - m, m);
  }

  lemma BeginningOf(u: string, v: string) returns (m: nat)
    requires |u| == |v| && TrimZeros(u) < TrimZeros(v)
    ensures m < |u| && AllZeros(u[m..]) && u[..m] == v[..m]
  {
    m := |TrimZeros(u)|;
    TrimZerosSplits(u);
    TrimZerosSplits(v);
    assert u[..m] == TrimZeros(u) == TrimZeros(v)[..m] == v[..m];
  }

  lemma TruncatedIsPrefix(a: nat, b: nat, w: nat, k: nat)
    requires a < b < Power10(w) && 1 <= k <= w && a == b - b % Power10(k)
    ensures TrimZeros(Pad(a, w)) < TrimZeros(Pad(b, w))
  {
    TruncatedDigits(a, b, w, k, w - k);
    PadValue(a, w);
    PadValue(b, w);
    ZerosMakePrefix(Pad(a, w), Pad(b, w), w - k);
  }

  lemma ZerosMakePrefix(u: string, v: string, m: nat)
    requires m <= |u| == |v| && AllZeros(u[m..]) && u[..m] == v[..m] && u != v
    ensures TrimZeros(u) < TrimZeros(v)
  {
    var x, y := TrimZeros(u), TrimZeros(v);
    TrimZerosSplits(u);
    TrimZerosSplits(v);
    ShortBeforeZeros(u, m);
    ZerosAfterTrimmed(v, m);
    SameUpToZeros(u, v, m);
    assert |x| <= m < |y|;
    assert x == u[..|x|] == u[..m][..|x|] == v[..m][..|x|] == v[..|x|] == y[..|x|];
  }

  lemma SameUpToZeros(u: string, v: string, m: nat)
    requires m <= |u| == |v| && AllZeros(u[m..]) && u[..m] == v[..m]
    ensures AllZeros(v[m..]) ==> u == v
  {
    assert u == u[..m] + u[m..] && v == v[..m] + v[m..];
  }

  lemma ZerosAfterTrimmed(s: string, m: nat)
    requires m <= |s|
    ensures |TrimZeros(s)| <= m ==> AllZeros(s[m..])
  {
    TrimZerosSplits(s);
    var n := |TrimZeros(s)|;
    assert n <= m ==> s[m..] == s[n..][m - n..];
  }

  /** Zeros from position m on are trimmed. */
  lemma {:induction false} ShortBeforeZeros(s: string, m: nat)
    requires m <= |s| && AllZeros(s[m..])
    ensures |TrimZeros(s)| <= m
  {
    if m == 0 {
      assert s[0..] == s;
    } else {
      assert s[1..][m - 1..] == s[m..];
      ShortBeforeZeros(s[1..], m - 1);
    }
  }

  lemma {:induction false} QuotientFits(n: nat, w: nat, m: nat, k: nat)
    requires n < Power10(w) && m + k == w
    ensures n / Power10(k) < Power10(m)
    decreases k
  {
    if k == 0 {
    } else {
      QuotientFits(n / 10, w - 1, m, k - 1);
      DivideTwice(n, Power10(k - 1));
    }
  }
}
