/**
 UTC times with nanoseconds, their RFC 3339 text without trailing zeros, and how far the order of the
 texts is the order of the times.
 */
module Timestamps {
  import opened Decimals
  import opened Ordering
  import opened Wrappers

  datatype Instant = Instant(year: nat, month: nat, day: nat, hour: nat, minute: nat, second: nat, nanos: nat)

  const SECOND := 1_000_000_000

  predicate Leap(year: nat) {
    year % 4 == 0 && (year % 100 != 0 || year % 400 == 0)
  }

  function DaysIn(year: nat, month: nat): nat {
    if month == 2 then (if Leap(year) then 29 else 28)
    else if month == 4 || month == 6 || month == 9 || month == 11 then 30
    else 31
  }

  /** A UTC time in a year of four digits. */
  predicate Valid(t: Instant) {
    && t.year <= 9999 && 1 <= t.month <= 12 && 1 <= t.day <= DaysIn(t.year, t.month)
    && t.hour < 24 && t.minute < 60 && t.second < 60 && t.nanos < SECOND
  }

  // ---------------------------------------------------------------- the order of time

  function DaysBeforeMonth(year: nat, month: nat): nat {
    if month <= 1 then 0 else DaysBeforeMonth(year, month - 1) + DaysIn(year, month - 1)
  }

  function YearLength(year: nat): nat {
    DaysBeforeMonth(year, 12) + DaysIn(year, 12)
  }

  function DaysBeforeYear(year: nat): nat {
    if year == 0 then 0 else DaysBeforeYear(year - 1) + YearLength(year - 1)
  }

  /** Days since the beginning of year 0. */
  function DayNumber(t: Instant): nat
    requires t.day >= 1
  {
    DaysBeforeYear(t.year) + DaysBeforeMonth(t.year, t.month) + (t.day - 1)
  }

  /** Nanoseconds since then. */
  function Elapsed(t: Instant): nat
    requires t.day >= 1
  {
    (((DayNumber(t) * 24 + t.hour) * 60 + t.minute) * 60 + t.second) * SECOND + t.nanos
  }

  /** The first difference decides. */
  predicate LexLess(a: seq<nat>, b: seq<nat>)
    requires |a| == |b|
  {
    a != [] && (a[0] < b[0] || (a[0] == b[0] && LexLess(a[1..], b[1..])))
  }

  /** The calendar and clock fields down to the second. */
  function Clock(t: Instant): seq<nat> {
    [t.year, t.month, t.day, t.hour, t.minute, t.second]
  }

  predicate SameSecond(a: Instant, b: Instant) {
    Clock(a) == Clock(b)
  }

  lemma LexStep(a: seq<nat>, b: seq<nat>)
    requires |a| == |b| > 0
    ensures LexLess(a, b) <==> a[0] < b[0] || (a[0] == b[0] && LexLess(a[1..], b[1..]))
  {
  }

  lemma {:induction false} MonthsAdd(year: nat, m: nat, m': nat)
    requires 1 <= m < m' <= 13
    ensures DaysBeforeMonth(year, m) + DaysIn(year, m) <= DaysBeforeMonth(year, m')
  {
    if m + 1 < m' {
      MonthsAdd(year, m, m' - 1);
    }
  }

  lemma {:induction false} YearsAdd(y: nat, y': nat)
    requires y < y'
    ensures DaysBeforeYear(y) + YearLength(y) <= DaysBeforeYear(y')
  {
    if y + 1 < y' {
      YearsAdd(y, y' - 1);
    }
  }

  lemma DateOrder(a: Instant, b: Instant)
    requires Valid(a) && Valid(b) && LexLess([a.year, a.month, a.day], [b.year, b.month, b.day])
    ensures DayNumber(a) < DayNumber(b)
  {
    var x, y := [a.year, a.month, a.day], [b.year, b.month, b.day];
    LexStep(x, y);
    LexStep(x[1..], y[1..]);
    LexStep(x[2..], y[2..]);
    assert x[1..][1..] == x[2..] && y[1..][1..] == y[2..];
    if a.year < b.year {
      YearsAdd(a.year, b.year);
      MonthsAdd(a.year, a.month, 13);
    } else if a.month < b.month {
      MonthsAdd(a.year, a.month, b.month);
    }
  }

  lemma ClockLess(a: Instant, b: Instant)
    ensures LexLess(Clock(a), Clock(b)) <==>
      || LexLess([a.year, a.month, a.day], [b.year, b.month, b.day])
      || (a.year == b.year && a.month == b.month && a.day == b.day
          && (a.hour < b.hour || (a.hour == b.hour
              && (a.minute < b.minute || (a.minute == b.minute && a.second < b.second)))))
  {
    LexStep(Clock(a), Clock(b));
    LexStep(Clock(a)[1..], Clock(b)[1..]);
    LexStep(Clock(a)[2..], Clock(b)[2..]);
    LexStep(Clock(a)[3..], Clock(b)[3..]);
    LexStep(Clock(a)[4..], Clock(b)[4..]);
    LexStep(Clock(a)[5..], Clock(b)[5..]);
    var x, y := [a.year, a.month, a.day], [b.year, b.month, b.day];
    LexStep(x, y);
    LexStep(x[1..], y[1..]);
    LexStep(x[2..], y[2..]);
    assert Clock(a)[1..][1..] == Clock(a)[2..] && Clock(a)[2..][1..] == Clock(a)[3..]
        && Clock(a)[3..][1..] == Clock(a)[4..] && Clock(a)[4..][1..] == Clock(a)[5..];
    assert Clock(b)[1..][1..] == Clock(b)[2..] && Clock(b)[2..][1..] == Clock(b)[3..]
        && Clock(b)[3..][1..] == Clock(b)[4..] && Clock(b)[4..][1..] == Clock(b)[5..];
    assert x[1..][1..] == x[2..] && y[1..][1..] == y[2..];
  }

  lemma ElapsedLess(a: Instant, b: Instant)
    requires Valid(a) && Valid(b)
    requires LexLess(Clock(a), Clock(b)) || (Clock(a) == Clock(b) && a.nanos < b.nanos)
    ensures Elapsed(a) < Elapsed(b)
  {
    ClockLess(a, b);
    if LexLess([a.year, a.month, a.day], [b.year, b.month, b.day]) {
      DateOrder(a, b);
    }
    assert DayNumber(a) < DayNumber(b) || (DayNumber(a) == DayNumber(b) && a.hour <= b.hour) by {
      if Clock(a) == Clock(b) {
        assert a.hour == Clock(a)[3] && b.hour == Clock(b)[3] && a.year == Clock(a)[0] && b.year == Clock(b)[0];
        assert a.month == Clock(a)[1] && b.month == Clock(b)[1] && a.day == Clock(a)[2] && b.day == Clock(b)[2];
      }
    }
    if Clock(a) == Clock(b) {
      assert a.minute == Clock(a)[4] && b.minute == Clock(b)[4] && a.second == Clock(a)[5] && b.second == Clock(b)[5];
      assert a.hour == Clock(a)[3] && b.hour == Clock(b)[3];
    }
  }

  lemma {:induction false} LexTotal(a: seq<nat>, b: seq<nat>)
    requires |a| == |b|
    ensures LexLess(a, b) || LexLess(b, a) || a == b
  {
    if a != [] && a[0] == b[0] {
      LexTotal(a[1..], b[1..]);
      assert a == [a[0]] + a[1..] && b == [b[0]] + b[1..];
    }
  }

  /** Time order is the order of the fields, most significant first. */
  lemma ElapsedOrder(a: Instant, b: Instant)
    requires Valid(a) && Valid(b)
    ensures Elapsed(a) < Elapsed(b) <==> LexLess(Clock(a), Clock(b)) || (SameSecond(a, b) && a.nanos < b.nanos)
    ensures Elapsed(a) == Elapsed(b) <==> a == b
  {
    LexTotal(Clock(a), Clock(b));
    if LexLess(Clock(a), Clock(b)) {
      ElapsedLess(a, b);
    } else if LexLess(Clock(b), Clock(a)) {
      ElapsedLess(b, a);
    } else {
      assert a.year == Clock(a)[0] && a.month == Clock(a)[1] && a.day == Clock(a)[2]
          && a.hour == Clock(a)[3] && a.minute == Clock(a)[4] && a.second == Clock(a)[5];
      assert b.year == Clock(b)[0] && b.month == Clock(b)[1] && b.day == Clock(b)[2]
          && b.hour == Clock(b)[3] && b.minute == Clock(b)[4] && b.second == Clock(b)[5];
    }
  }

  // ---------------------------------------------------------------- formatting

  /** Fields in fixed widths, each followed by its separator. */
  function Stamp(fields: seq<nat>, widths: seq<nat>, separators: seq<string>): string
    requires |fields| == |widths| == |separators|
  {
    if fields == [] then []
    else Pad(fields[0], widths[0]) + (separators[0] + Stamp(fields[1..], widths[1..], separators[1..]))
  }

  const WIDTHS: seq<nat> := [4, 2, 2, 2, 2, 2]
  const SEPARATORS := ["-", "-", "T", ":", ":", ""]

  /** Nine digits without trailing zeros after a point; nothing at all for a whole second. */
  function Fraction(nanos: nat): string {
    if nanos == 0 then [] else "." + TrimZeros(Pad(nanos, 9))
  }

  /** The RFC3339Nano layout in UTC. */
  function Format(t: Instant): string {
    Stamp(Clock(t), WIDTHS, SEPARATORS) + (Fraction(t.nanos) + "Z")
  }

  // ---------------------------------------------------------------- text order against time order

  lemma {:induction false} PadOrder(a: nat, b: nat, w: nat)
    requires a < Power10(w) && b < Power10(w)
    ensures TextLess(Pad(a, w), Pad(b, w)) <==> a < b
    ensures Pad(a, w) == Pad(b, w) <==> a == b
  {
    if w == 0 {
    } else {
      PadOrder(a / 10, b / 10, w - 1);
      AfterPrefix(Pad(a / 10, w - 1), [Digit(a % 10)], Pad(b / 10, w - 1), [Digit(b % 10)]);
    }
  }

  /** A field in fixed width and its separator, before what follows them. */
  lemma FieldOrder(n: nat, m: nat, width: nat, separator: string, x: string, y: string)
    requires n < Power10(width) && m < Power10(width)
    ensures TextLess(Pad(n, width) + (separator + x), Pad(m, width) + (separator + y))
            <==> n < m || (n == m && TextLess(x, y))
    ensures Pad(n, width) + (separator + x) == Pad(m, width) + (separator + y) <==> n == m && x == y
  {
    PadOrder(n, m, width);
    AfterPrefix(separator, x, separator, y);
    TextTotal(separator, separator);
    AfterPrefix(Pad(n, width), separator + x, Pad(m, width), separator + y);
  }

  lemma {:induction false} StampOrder(a: seq<nat>, b: seq<nat>, widths: seq<nat>, separators: seq<string>)
    requires |a| == |b| == |widths| == |separators|
    requires forall i :: 0 <= i < |a| ==> a[i] < Power10(widths[i]) && b[i] < Power10(widths[i])
    ensures |Stamp(a, widths, separators)| == |Stamp(b, widths, separators)|
    ensures TextLess(Stamp(a, widths, separators), Stamp(b, widths, separators)) <==> LexLess(a, b)
    ensures Stamp(a, widths, separators) == Stamp(b, widths, separators) <==> a == b
  {
    if a == [] {
    } else {
      var x, y := Stamp(a[1..], widths[1..], separators[1..]), Stamp(b[1..], widths[1..], separators[1..]);
      StampOrder(a[1..], b[1..], widths[1..], separators[1..]);
      FieldOrder(a[0], b[0], widths[0], separators[0], x, y);
      assert a == [a[0]] + a[1..] && b == [b[0]] + b[1..];
    }
  }

  /** Of two digit strings in order, the trimmed ones, closed by a Z, are out of order exactly when the
      first is a proper prefix of the second: the Z then meets a digit, which is smaller. */
  lemma {:induction false} TrimmedOrder(u: string, v: string)
    requires |u| == |v| && TextLess(u, v)
    requires forall i :: 0 <= i < |u| ==> '0' <= u[i] <= '9' && '0' <= v[i] <= '9'
    ensures TextLess(TrimZeros(u) + "Z", TrimZeros(v) + "Z") <==> !(TrimZeros(u) < TrimZeros(v))
    ensures TrimZeros(v) != [] && TrimZeros(u) != TrimZeros(v)
  {
    var x, y := TrimZeros(u), TrimZeros(v);
    NotAllZeros(u, v);
    assert y == [v[0]] + TrimZeros(v[1..]);
    assert (y + "Z")[1..] == TrimZeros(v[1..]) + "Z" && y[1..] == TrimZeros(v[1..]);
    if AllZeros(u) {
      assert x + "Z" == "Z";
    } else {
      assert x == [u[0]] + TrimZeros(u[1..]);
      assert (x + "Z")[1..] == TrimZeros(u[1..]) + "Z" && x[1..] == TrimZeros(u[1..]);
      if u[0] == v[0] {
        TrimmedOrder(u[1..], v[1..]);
        assert x < y <==> x[1..] < y[1..];
      }
    }
  }

  lemma {:induction false} NotAllZeros(u: string, v: string)
    requires |u| == |v| && TextLess(u, v)
    requires forall i :: 0 <= i < |u| ==> '0' <= u[i] <= '9'
    ensures !AllZeros(v)
  {
    if u[0] == v[0] {
      NotAllZeros(u[1..], v[1..]);
      var i :| 0 <= i < |v[1..]| && v[1..][i] != '0';
      assert v[i + 1] != '0';
    }
  }

  lemma FractionOrder(a: nat, b: nat)
    requires a < b < SECOND
    ensures TextLess(Fraction(a) + "Z", Fraction(b) + "Z") <==> !(Fraction(a) < Fraction(b))
    ensures Fraction(a) != Fraction(b)
  {
    DigitsOrder(a, b);
    var x, y := TrimZeros(Pad(a, 9)), TrimZeros(Pad(b, 9));
    if a == 0 {
      assert Fraction(b)[0] == '.' && Fraction(a) + "Z" == "Z";
    } else {
      AfterPoint(x, y);
    }
  }

  lemma DigitsOrder(a: nat, b: nat)
    requires a < b < SECOND
    ensures var x, y := TrimZeros(Pad(a, 9)), TrimZeros(Pad(b, 9));
            (TextLess(x + "Z", y + "Z") <==> !(x < y)) && x != y
  {
    NinePlaces();
    PadOrder(a, b, 9);
    TrimmedOrder(Pad(a, 9), Pad(b, 9));
  }

  /** A point before both changes neither order nor prefix. */
  lemma AfterPoint(x: string, y: string)
    ensures TextLess("." + x + "Z", "." + y + "Z") <==> TextLess(x + "Z", y + "Z")
    ensures "." + x < "." + y <==> x < y
    ensures "." + x == "." + y <==> x == y
  {
    AfterPrefix(".", x + "Z", ".", y + "Z");
    assert "." + x + "Z" == "." + (x + "Z") && "." + y + "Z" == "." + (y + "Z");
    assert ("." + x)[1..] == x && ("." + y)[1..] == y;
  }

  /** Both times fall in one second, and the earlier is the later with some of its last decimals, perhaps
      all, made zeros. */
  ghost predicate Misordered(a: Instant, b: Instant) {
    SameSecond(a, b) && a.nanos < b.nanos && Truncated(a.nanos, b.nanos, 9)
  }

  /** Those are the pairs of which the trimmed fraction of the first (perhaps empty) is a proper prefix of that
      of the second. */
  lemma FractionPrefixIff(a: nat, b: nat)
    requires a < b < SECOND
    ensures Fraction(a) < Fraction(b) <==> Truncated(a, b, 9)
  {
    NinePlaces();
    if a == 0 {
      TruncatedToNothing(b, 9);
      assert Fraction(a) == [] && Fraction(b) == "." + TrimZeros(Pad(b, 9));
    } else {
      TrimmedPrefixIff(a, b, 9);
      AfterPoint(TrimZeros(Pad(a, 9)), TrimZeros(Pad(b, 9)));
    }
  }

  lemma NinePlaces()
    ensures Power10(9) == SECOND
  {
    assert Power10(4) == 10000;
  }

  lemma ClockFits(t: Instant, i: nat)
    requires Valid(t) && i < 6
    ensures Clock(t)[i] < Power10(WIDTHS[i])
  {
    assert Power10(4) == 10000 && Power10(2) == 100;
  }

  lemma SameSecondOrder(a: Instant, b: Instant)
    requires Valid(a) && Valid(b) && SameSecond(a, b)
    ensures Elapsed(a) < Elapsed(b) <==> a.nanos < b.nanos
  {
    ElapsedOrder(a, b);
    LexTotal(Clock(a), Clock(b));
  }

  /** Text order is time order, except exactly for misordered pairs. */
  lemma TextOrder(a: Instant, b: Instant)
    requires Valid(a) && Valid(b) && Elapsed(a) < Elapsed(b)
    ensures TextLess(Format(a), Format(b)) <==> !Misordered(a, b)
    ensures TextLess(Format(b), Format(a)) <==> Misordered(a, b)
  {
    forall i | 0 <= i < 6 ensures Clock(a)[i] < Power10(WIDTHS[i]) && Clock(b)[i] < Power10(WIDTHS[i]) {
      ClockFits(a, i);
      ClockFits(b, i);
    }
    ElapsedOrder(a, b);
    StampOrder(Clock(a), Clock(b), WIDTHS, SEPARATORS);
    var x, y := Stamp(Clock(a), WIDTHS, SEPARATORS), Stamp(Clock(b), WIDTHS, SEPARATORS);
    AfterPrefix(x, Fraction(a.nanos) + "Z", y, Fraction(b.nanos) + "Z");
    TextTotal(x, y);
    TextTotal(Format(a), Format(b));
    if SameSecond(a, b) {
      SameSecondOrder(a, b);
      FractionOrder(a.nanos, b.nanos);
      FractionPrefixIff(a.nanos, b.nanos);
      TextTotal(Fraction(a.nanos) + "Z", Fraction(b.nanos) + "Z");
    }
  }

  /** A whole second sorts after every later time within it: the shortest misordered pair. */
  lemma WholeSecondSortsLast(a: Instant, nanos: nat)
    requires Valid(a) && a.nanos == 0 && 0 < nanos < SECOND
    ensures var b := a.(nanos := nanos);
            Elapsed(a) < Elapsed(b) && Misordered(a, b) && TextLess(Format(b), Format(a))
  {
    var b := a.(nanos := nanos);
    NinePlaces();
    TruncatedToNothing(nanos, 9);
    ElapsedOrder(a, b);
    TextOrder(a, b);
  }

  // ---------------------------------------------------------------- the layout, read back

  /** The layout field by field. */
  lemma FormatText(t: Instant)
    ensures Format(t) == Pad(t.year, 4) + ("-" + (Pad(t.month, 2) + ("-" + (Pad(t.day, 2) + ("T" + (Pad(t.hour, 2)
                         + (":" + (Pad(t.minute, 2) + (":" + (Pad(t.second, 2) + ("" + [])))))))))))
                         + (Fraction(t.nanos) + "Z")
  {
    var s6 := StampNone();
    var s5 := StampMore(t.second, 2, "", [], [], [], s6);
    var s4 := StampMore(t.minute, 2, ":", [t.second], [2], [""], s5);
    var s3 := StampMore(t.hour, 2, ":", [t.minute, t.second], [2, 2], [":", ""], s4);
    var s2 := StampMore(t.day, 2, "T", [t.hour, t.minute, t.second], [2, 2, 2], [":", ":", ""], s3);
    var s1 := StampMore(t.month, 2, "-", [t.day, t.hour, t.minute, t.second], [2, 2, 2, 2], ["T", ":", ":", ""], s2);
    var s0 := StampMore(t.year, 4, "-", [t.month, t.day, t.hour, t.minute, t.second], [2, 2, 2, 2, 2],
                        ["-", "T", ":", ":", ""], s1);
  }

  lemma StampNone() returns (s: string)
    ensures s == Stamp([], [], []) == []
  {
    s := [];
  }

  lemma StampMore(n: nat, width: nat, separator: string, fields: seq<nat>, widths: seq<nat>, separators: seq<string>,
                  rest: string)
    returns (s: string)
    requires |fields| == |widths| == |separators| && rest == Stamp(fields, widths, separators)
    ensures s == Stamp([n] + fields, [width] + widths, [separator] + separators) == Pad(n, width) + (separator + rest)
  {
    s := Stamp([n] + fields, [width] + widths, [separator] + separators);
    assert ([n] + fields)[1..] == fields && ([width] + widths)[1..] == widths;
    assert ([separator] + separators)[1..] == separators;
  }

  /** Reads fields of fixed widths, each followed by its separator, and returns what follows them. */
  function ReadStamp(s: string, widths: seq<nat>, separators: seq<string>): Option<(seq<nat>, string)>
    requires |widths| == |separators|
  {
    if widths == [] then Some(([], s)) else
    var w, after := widths[0], widths[0] + |separators[0]|;
    if |s| < after || !AllDigits(s[..w]) || s[w..after] != separators[0] then None else
    var rest := ReadStamp(s[after..], widths[1..], separators[1..]);
    if rest.None? then None else Some(([ValueOf(s[..w])] + rest.value.0, rest.value.1))
  }

  /** A Z, after a point and one to nine decimals unless the second is whole. */
  function ReadFraction(s: string): Option<nat> {
    if s == "Z" then Some(0)
    else if |s| < 3 || |s| > 11 || s[0] != '.' || s[|s| - 1] != 'Z' || !AllDigits(s[1..|s| - 1]) then None
    else Some(ValueOf(s[1..|s| - 1]) * Power10(11 - |s|))
  }

  /** How a stored time is read back. */
  function Parse(s: string): Option<Instant> {
    var fields := ReadStamp(s, WIDTHS, SEPARATORS);
    if fields.None? then None else
    var nanos, f := ReadFraction(fields.value.1), fields.value.0;
    if |f| != 6 || nanos.None? then None else Some(Instant(f[0], f[1], f[2], f[3], f[4], f[5], nanos.value))
  }

  lemma {:induction false} StampReadsBack(fields: seq<nat>, widths: seq<nat>, separators: seq<string>, tail: string)
    requires |fields| == |widths| == |separators|
    requires forall i :: 0 <= i < |fields| ==> fields[i] < Power10(widths[i])
    ensures ReadStamp(Stamp(fields, widths, separators) + tail, widths, separators) == Some((fields, tail))
  {
    if fields == [] {
      assert Stamp(fields, widths, separators) + tail == tail;
    } else {
      StampReadsBack(fields[1..], widths[1..], separators[1..], tail);
      FirstReadsBack(fields[0], fields[1..], fields, widths, separators, tail);
    }
  }

  lemma FirstReadsBack(n: nat, rest: seq<nat>, fields: seq<nat>, widths: seq<nat>, separators: seq<string>,
                       tail: string)
    requires |fields| == |widths| == |separators| && widths != [] && n < Power10(widths[0])
    requires fields == [n] + rest && fields[1..] == rest
    requires ReadStamp(Stamp(rest, widths[1..], separators[1..]) + tail, widths[1..], separators[1..])
               == Some((rest, tail))
    ensures ReadStamp(Stamp(fields, widths, separators) + tail, widths, separators) == Some((fields, tail))
  {
    var digits, more := Pad(n, widths[0]), Stamp(rest, widths[1..], separators[1..]);
    PadValue(n, widths[0]);
    Appended(digits, separators[0], more, tail);
    ReadStampStep(Stamp(fields, widths, separators) + tail, widths, separators, digits, more + tail);
  }

  lemma Appended(a: string, b: string, c: string, d: string)
    ensures a + (b + c) + d == a + (b + (c + d))
  {
  }

  lemma ReadStampStep(s: string, widths: seq<nat>, separators: seq<string>, digits: string, more: string)
    requires |widths| == |separators| && widths != [] && |digits| == widths[0] && AllDigits(digits)
    requires s == digits + (separators[0] + more)
    ensures ReadStamp(s, widths, separators) ==
            var rest := ReadStamp(more, widths[1..], separators[1..]);
            if rest.None? then None else Some(([ValueOf(digits)] + rest.value.0, rest.value.1))
  {
    FieldReadsBack(digits, separators[0], more, s);
  }

  lemma FieldReadsBack(digits: string, separator: string, more: string, s: string)
    requires s == digits + (separator + more)
    ensures var after := |digits| + |separator|;
            |s| >= after && s[..|digits|] == digits && s[|digits|..after] == separator && s[after..] == more
  {
  }

  lemma FractionReadsBack(nanos: nat)
    requires nanos < SECOND
    ensures ReadFraction(Fraction(nanos) + "Z") == Some(nanos)
  {
    if nanos == 0 {
      assert Fraction(nanos) + "Z" == "Z";
    } else {
      var digits := Pad(nanos, 9);
      var x := TrimZeros(digits);
      NinePlaces();
      PadValue(nanos, 9);
      TrimZerosSplits(digits);
      ValueOfTrimmed(digits);
      NotAllTrimmed(nanos);
      var s := "." + x + "Z";
      assert s[1..|s| - 1] == x;
    }
  }

  lemma NotAllTrimmed(nanos: nat)
    requires 0 < nanos < SECOND
    ensures TrimZeros(Pad(nanos, 9)) != []
  {
    NinePlaces();
    if AllZeros(Pad(nanos, 9)) {
      PadValue(nanos, 9);
      ValueOfZeros(Pad(nanos, 9));
    }
  }

  /** What is stored for a time is read back as that time. */
  lemma FormatReadsBack(t: Instant)
    requires Valid(t)
    ensures Parse(Format(t)) == Some(t)
  {
    forall i | 0 <= i < 6 ensures Clock(t)[i] < Power10(WIDTHS[i]) {
      ClockFits(t, i);
    }
    StampReadsBack(Clock(t), WIDTHS, SEPARATORS, Fraction(t.nanos) + "Z");
    FractionReadsBack(t.nanos);
  }

  // ---------------------------------------------------------------- the calendar

  /** How many years before this one are divisible by 4, less those by 100, and those by 400 again. */
  function LeapsBefore(year: nat): int {
    (year + 3) / 4 - (year + 99) / 100 + (year + 399) / 400
  }

  /** The years before this one have 365 days each and one more for each leap year. */
  lemma {:induction false} DaysBeforeYearIs(year: nat)
    ensures DaysBeforeYear(year) == 365 * year + LeapsBefore(year)
  {
    if year == 0 {
    } else {
      DaysBeforeYearIs(year - 1);
      YearAdds(year - 1, year);
    }
  }

  lemma YearAdds(y: nat, year: nat)
    requires year == y + 1 && DaysBeforeYear(y) == 365 * y + LeapsBefore(y)
    ensures DaysBeforeYear(year) == 365 * year + LeapsBefore(year)
  {
    var leaps, leaps' := LeapsBefore(y), LeapsBefore(year);
    var days := DaysInYear(y);
    LeapsAdd(y, year);
    YearStep(y);
    assert leaps' - leaps == days - 365;
  }

  lemma YearStep(y: nat)
    ensures DaysBeforeYear(y + 1) == DaysBeforeYear(y) + YearLength(y)
  {
  }

  lemma NextMultiple(y: nat, d: nat)
    requires d > 0
    ensures (y + d) / d == (y + d - 1) / d + (if y % d == 0 then 1 else 0)
  {
    var q, r := y / d, y % d;
    assert y == d * q + r && (q + 1) * d == d * q + d;
    Quotient(y + d, d, q + 1, r);
    if r == 0 {
      Quotient(y + d - 1, d, q, d - 1);
    } else {
      Quotient(y + d - 1, d, q + 1, r - 1);
    }
  }

  lemma LeapsAdd(y: nat, year: nat)
    requires year == y + 1
    ensures LeapsBefore(year) == LeapsBefore(y) + (if y % 4 == 0 && (y % 100 != 0 || y % 400 == 0) then 1 else 0)
  {
    NextMultiple(y, 4);
    NextMultiple(y, 100);
    NextMultiple(y, 400);
    Multiples(y);
  }

  lemma Multiples(y: nat)
    ensures y % 100 == 0 ==> y % 4 == 0
    ensures y % 400 == 0 ==> y % 100 == 0
  {
    if y % 100 == 0 {
      Quotient(y, 4, 25 * (y / 100), 0);
    }
    if y % 400 == 0 {
      Quotient(y, 100, 4 * (y / 400), 0);
    }
  }

  lemma MonthStep(year: nat, month: nat, next: nat)
    requires month >= 1 && next == month + 1
    ensures DaysBeforeMonth(year, next) == DaysBeforeMonth(year, month) + DaysIn(year, month)
  {
  }

  /** The days before each month, in a year with and without a leap day. */
  lemma DaysInYear(year: nat) returns (days: nat)
    ensures days == YearLength(year)
    ensures var leap := if year % 4 == 0 && (year % 100 != 0 || year % 400 == 0) then 1 else 0;
            && DaysBeforeMonth(year, 1) == 0 && DaysBeforeMonth(year, 2) == 31
            && DaysBeforeMonth(year, 3) == 59 + leap && DaysBeforeMonth(year, 4) == 90 + leap
            && DaysBeforeMonth(year, 5) == 120 + leap && DaysBeforeMonth(year, 6) == 151 + leap
            && DaysBeforeMonth(year, 7) == 181 + leap && DaysBeforeMonth(year, 8) == 212 + leap
            && DaysBeforeMonth(year, 9) == 243 + leap && DaysBeforeMonth(year, 10) == 273 + leap
            && DaysBeforeMonth(year, 11) == 304 + leap && DaysBeforeMonth(year, 12) == 334 + leap
            && days == 365 + leap
  {
    days := YearLength(year);
    MonthStep(year, 1, 2);
    MonthStep(year, 2, 3);
    MonthStep(year, 3, 4);
    MonthStep(year, 4, 5);
    MonthStep(year, 5, 6);
    MonthStep(year, 6, 7);
    MonthStep(year, 7, 8);
    MonthStep(year, 8, 9);
    MonthStep(year, 9, 10);
    MonthStep(year, 10, 11);
    MonthStep(year, 11, 12);
  }
}
