/**
 Byte order on text, and the lists that ORDER BY .. DESC may return for rows compared by a text.
 */
module Ordering {
  /** Byte order, as the database compares text. */
  predicate TextLess(a: string, b: string) {
    b != [] && (a == [] || a[0] < b[0] || (a[0] == b[0] && TextLess(a[1..], b[1..])))
  }

  lemma {:induction false} TextTotal(a: string, b: string)
    ensures TextLess(a, b) || TextLess(b, a) || a == b
    ensures !(TextLess(a, b) && TextLess(b, a)) && !TextLess(a, a)
  {
    if a == [] {
    } else {
      TextTotal(a[1..], a[1..]);
    }
    if a != [] && b != [] && a[0] == b[0] {
      TextTotal(a[1..], b[1..]);
      assert a == [a[0]] + a[1..] && b == [b[0]] + b[1..];
    }
  }

  lemma {:induction false} TextTransitive(a: string, b: string, c: string)
    requires TextLess(a, b) && TextLess(b, c)
    ensures TextLess(a, c)
  {
    if a != [] && a[0] == b[0] == c[0] {
      TextTransitive(a[1..], b[1..], c[1..]);
    }
  }

  /** After equally long beginnings, the beginnings decide unless they are equal. */
  lemma {:induction false} AfterPrefix(a: string, x: string, b: string, y: string)
    requires |a| == |b|
    ensures TextLess(a + x, b + y) <==> TextLess(a, b) || (a == b && TextLess(x, y))
    ensures a + x == b + y <==> a == b && x == y
  {
    if a == [] {
      assert a + x == x && b + y == y;
    } else {
      assert (a + x)[1..] == a[1..] + x && (b + y)[1..] == b[1..] + y;
      AfterPrefix(a[1..], x, b[1..], y);
      assert a == [a[0]] + a[1..] && b == [b[0]] + b[1..];
      if a + x == b + y {
        assert (a + x)[0] == (b + y)[0];
      }
    }
  }

  // ---------------------------------------------------------------- lists by descending text

  ghost predicate Descending<T(!new)>(out: seq<T>, text: T -> string) {
    forall i, j :: 0 <= i < j < |out| ==> !TextLess(text(out[i]), text(out[j]))
  }

  ghost predicate Ascending<T(!new)>(rows: seq<T>, text: T -> string) {
    forall i, j :: 0 <= i < j < |rows| ==> TextLess(text(rows[i]), text(rows[j]))
  }

  /** The same rows by descending text; rows of equal text in any order. */
  ghost predicate Listing<T(!new)>(rows: seq<T>, out: seq<T>, text: T -> string) {
    multiset(out) == multiset(rows) && Descending(out, text)
  }

  function Reverse<T>(rows: seq<T>): (r: seq<T>)
    ensures |r| == |rows| && forall i :: 0 <= i < |r| ==> r[i] == rows[|rows| - 1 - i]
  {
    if rows == [] then [] else [rows[|rows| - 1]] + Reverse(rows[..|rows| - 1])
  }

  lemma {:induction false} ReverseSame<T>(rows: seq<T>)
    ensures multiset(Reverse(rows)) == multiset(rows)
  {
    if rows == [] {
    } else {
      ReverseSame(rows[..|rows| - 1]);
      assert rows == rows[..|rows| - 1] + [rows[|rows| - 1]];
    }
  }

  lemma SameLength<T>(a: seq<T>, b: seq<T>)
    requires multiset(a) == multiset(b)
    ensures |a| == |b|
  {
    assert |multiset(a)| == |a| && |multiset(b)| == |b|;
  }

  lemma SameTwo<T>(out: seq<T>, a: T, b: T)
    requires multiset(out) == multiset([a, b]) && a != b
    ensures out == [a, b] || out == [b, a]
  {
    SameLength(out, [a, b]);
    assert out[0] in multiset(out) && out[1] in multiset(out);
    assert out == [out[0], out[1]];
    assert multiset([a, b])[a] == 1 && multiset([a, b])[b] == 1;
  }

  /** The first of a listing of rows in ascending order is the last row. */
  lemma ListingHead<T(!new)>(rows: seq<T>, out: seq<T>, text: T -> string)
    requires rows != [] && Ascending(rows, text) && Listing(rows, out, text)
    ensures out != [] && out[0] == rows[|rows| - 1]
  {
    SameLength(out, rows);
    var last := rows[|rows| - 1];
    assert last in multiset(rows) && out[0] in multiset(out);
    assert last in out && out[0] in rows;
    var j :| 0 <= j < |out| && out[j] == last;
    var i :| 0 <= i < |rows| && rows[i] == out[0];
  }

  lemma SameRest<T>(earlier: seq<T>, last: T, rows: seq<T>, rest: seq<T>)
    requires rows == earlier + [last] && multiset([last] + rest) == multiset(rows)
    ensures multiset(rest) == multiset(earlier)
  {
    assert multiset([last] + rest) == multiset{last} + multiset(rest);
    assert multiset(earlier + [last]) == multiset{last} + multiset(earlier);
    assert multiset(rest) == multiset{last} + multiset(rest) - multiset{last};
    assert multiset(earlier) == multiset{last} + multiset(earlier) - multiset{last};
  }

  lemma ListingTail<T(!new)>(rows: seq<T>, out: seq<T>, text: T -> string)
    requires rows != [] && out != [] && Ascending(rows, text) && Descending(out, text)
    ensures Ascending(rows[..|rows| - 1], text) && Descending(out[1..], text)
  {
    var earlier, rest := rows[..|rows| - 1], out[1..];
    assert forall i :: 0 <= i < |earlier| ==> earlier[i] == rows[i];
    assert forall i :: 0 <= i < |rest| ==> rest[i] == out[i + 1];
  }

  /** Rows in ascending order have one listing: the last first. */
  lemma {:induction false} ListingIsReverse<T(!new)>(rows: seq<T>, out: seq<T>, text: T -> string)
    requires Ascending(rows, text) && Listing(rows, out, text)
    ensures out == Reverse(rows)
  {
    SameLength(out, rows);
    if rows == [] {
    } else {
      var last, earlier := rows[|rows| - 1], rows[..|rows| - 1];
      ListingHead(rows, out, text);
      assert out == [last] + out[1..];
      SameRest(earlier, last, rows, out[1..]);
      ListingTail(rows, out, text);
      ListingIsReverse(earlier, out[1..], text);
    }
  }

  lemma ReverseLists<T(!new)>(rows: seq<T>, text: T -> string)
    requires Ascending(rows, text)
    ensures Listing(rows, Reverse(rows), text)
  {
    ReverseSame(rows);
    var r := Reverse(rows);
    forall i, j | 0 <= i < j < |r| ensures !TextLess(text(r[i]), text(r[j])) {
      TextTotal(text(r[j]), text(r[i]));
    }
  }

  lemma ReverseAt<T>(rows: seq<T>, i: nat, j: nat)
    requires i + j + 1 == |rows|
    ensures Reverse(rows)[i] == rows[j]
  {
  }

  lemma NotDescending<T(!new)>(out: seq<T>, text: T -> string, i: nat, j: nat)
    requires i < j < |out| && TextLess(text(out[i]), text(out[j]))
    ensures !Descending(out, text)
  {
  }

  /** A pair out of order is still out of order in the reverse. */
  lemma PairSpoilsReverse<T(!new)>(rows: seq<T>, text: T -> string, i: nat, j: nat)
    requires i < j < |rows| && TextLess(text(rows[j]), text(rows[i]))
    ensures !Listing(rows, Reverse(rows), text)
  {
    var r, n := Reverse(rows), |rows|;
    var i', j' := n - 1 - j, n - 1 - i;
    ReverseAt(rows, i', j);
    ReverseAt(rows, j', i);
    NotDescending(r, text, i', j');
  }

  // ---------------------------------------------------------------- the second of a listing

  /** Any two rows have different texts. */
  ghost predicate Distinct<T(!new)>(rows: seq<T>, text: T -> string) {
    forall i, j :: 0 <= i < j < |rows| ==> Differ(text(rows[i]), text(rows[j]))
  }

  predicate Differ(a: string, b: string) {
    TextLess(a, b) || TextLess(b, a)
  }

  /** Row i, and no other, is listed before row m. */
  ghost predicate OnlyAhead<T(!new)>(rows: seq<T>, text: T -> string, m: nat, i: nat)
    requires m < |rows|
  {
    && i < |rows| && TextLess(text(rows[m]), text(rows[i]))
    && forall j :: 0 <= j < |rows| && TextLess(text(rows[m]), text(rows[j])) ==> j == i
  }

  lemma DifferentRows<T(!new)>(rows: seq<T>, text: T -> string, i: nat, j: nat)
    requires Distinct(rows, text) && i < |rows| && j < |rows| && i != j
    ensures rows[i] != rows[j] && Differ(text(rows[i]), text(rows[j]))
  {
    TextTotal(text(rows[i]), text(rows[j]));
    assert i < j ==> Differ(text(rows[i]), text(rows[j]));
    assert j < i ==> Differ(text(rows[j]), text(rows[i]));
  }

  lemma {:induction false} OnceEach<T(!new)>(rows: seq<T>, x: T)
    requires forall i, j :: 0 <= i < j < |rows| ==> rows[i] != rows[j]
    ensures multiset(rows)[x] <= 1
  {
    if rows == [] {
    } else {
      var last, earlier := rows[|rows| - 1], rows[..|rows| - 1];
      OnceEach(earlier, x);
      assert rows == earlier + [last];
      if x == last {
        assert x !in earlier;
        assert x !in multiset(earlier);
      }
    }
  }

  /** Two places of a list that hold one row make it occur twice. */
  lemma TwicePlaced<T>(out: seq<T>, i: nat, j: nat)
    requires i < j < |out| && out[i] == out[j]
    ensures multiset(out)[out[i]] >= 2
  {
    assert out == out[..j] + out[j..];
    assert out[..j][i] == out[i] && out[j..][0] == out[i];
    assert out[i] in multiset(out[..j]) && out[i] in multiset(out[j..]);
    assert multiset(out) == multiset(out[..j]) + multiset(out[j..]);
  }

  /** Of rows with different texts, those at different places of a listing are different, and the earlier
      one has the greater text. */
  lemma ListedBefore<T(!new)>(rows: seq<T>, out: seq<T>, text: T -> string, p: nat, q: nat)
    requires Distinct(rows, text) && Listing(rows, out, text) && p < q < |out|
    ensures out[p] != out[q] && TextLess(text(out[q]), text(out[p]))
  {
    forall i, j | 0 <= i < j < |rows| ensures rows[i] != rows[j] {
      DifferentRows(rows, text, i, j);
    }
    OnceEach(rows, out[p]);
    if out[p] == out[q] {
      TwicePlaced(out, p, q);
    }
    var i := Place(rows, out, p);
    var j := Place(rows, out, q);
    DifferentRows(rows, text, i, j);
  }

  lemma Place<T>(rows: seq<T>, out: seq<T>, p: nat) returns (i: nat)
    requires multiset(out) == multiset(rows) && p < |out|
    ensures i < |rows| && rows[i] == out[p]
  {
    assert out[p] in multiset(out);
    assert out[p] in multiset(rows);
    i :| i < |rows| && rows[i] == out[p];
  }

  /** Row m is listed second exactly when one other row, and only one, has a greater text. */
  lemma SecondIff<T(!new)>(rows: seq<T>, out: seq<T>, text: T -> string, m: nat)
    requires Distinct(rows, text) && Listing(rows, out, text) && m < |rows| && 2 <= |rows|
    ensures |out| == |rows|
    ensures out[1] == rows[m] <==> exists i: nat :: OnlyAhead(rows, text, m, i)
  {
    SameLength(out, rows);
    var first := Place(rows, out, 0);
    var p := Place(out, rows, m);
    if p == 1 {
      SecondHasOne(rows, out, text, m, first);
    } else {
      OnlyForSecond(rows, out, text, m, p);
      ListedBefore(rows, out, text, if p < 1 then p else 1, if p < 1 then 1 else p);
    }
  }

  lemma SecondHasOne<T(!new)>(rows: seq<T>, out: seq<T>, text: T -> string, m: nat, first: nat)
    requires Distinct(rows, text) && Listing(rows, out, text) && m < |rows| && first < |rows|
    requires 2 <= |out| && out[1] == rows[m] && out[0] == rows[first]
    ensures OnlyAhead(rows, text, m, first)
  {
    ListedBefore(rows, out, text, 0, 1);
    forall j | 0 <= j < |rows| && TextLess(text(rows[m]), text(rows[j])) ensures j == first {
      var q := Place(out, rows, j);
      TextTotal(text(rows[m]), text(rows[m]));
      if j != first {
        DifferentRows(rows, text, j, first);
      }
    }
  }

  lemma OnlyForSecond<T(!new)>(rows: seq<T>, out: seq<T>, text: T -> string, m: nat, p: nat)
    requires Distinct(rows, text) && Listing(rows, out, text) && m < |rows|
    requires p < |out| && out[p] == rows[m] && p != 1
    ensures forall i: nat :: !OnlyAhead(rows, text, m, i)
  {
    if p == 0 {
      forall i | 0 <= i < |rows| ensures !TextLess(text(rows[m]), text(rows[i])) {
        TextTotal(text(rows[m]), text(rows[m]));
        var q := Place(out, rows, i);
      }
    } else {
      ListedBefore(rows, out, text, 0, p);
      ListedBefore(rows, out, text, 1, p);
      ListedBefore(rows, out, text, 0, 1);
      var i := Place(rows, out, 0);
      var j := Place(rows, out, 1);
    }
  }

  // ---------------------------------------------------------------- every list of rows has a listing

  function Insert<T>(row: T, sorted: seq<T>, text: T -> string): seq<T> {
    if sorted == [] || TextLess(text(sorted[0]), text(row)) then [row] + sorted
    else [sorted[0]] + Insert(row, sorted[1..], text)
  }

  /** One listing of the rows; what the database returns may differ from it in the order of equal texts. */
  function Sorted<T>(rows: seq<T>, text: T -> string): seq<T> {
    if rows == [] then [] else Insert(rows[|rows| - 1], Sorted(rows[..|rows| - 1], text), text)
  }

  lemma {:induction false} InsertSame<T>(row: T, sorted: seq<T>, text: T -> string)
    ensures multiset(Insert(row, sorted, text)) == multiset{row} + multiset(sorted)
  {
    if sorted != [] && !TextLess(text(sorted[0]), text(row)) {
      InsertSame(row, sorted[1..], text);
      assert sorted == [sorted[0]] + sorted[1..];
    }
  }

  lemma {:induction false} InsertDescends<T(!new)>(row: T, sorted: seq<T>, text: T -> string)
    requires Descending(sorted, text)
    ensures Descending(Insert(row, sorted, text), text)
  {
    if sorted == [] {
    } else if TextLess(text(sorted[0]), text(row)) {
      forall j | 0 <= j < |sorted| ensures !TextLess(text(row), text(sorted[j])) {
        TextTotal(text(sorted[0]), text(sorted[j]));
        if TextLess(text(row), text(sorted[j])) {
          TextTransitive(text(sorted[0]), text(row), text(sorted[j]));
        }
      }
    } else {
      var out, rest := Insert(row, sorted, text), Insert(row, sorted[1..], text);
      InsertDescends(row, sorted[1..], text);
      InsertSame(row, sorted[1..], text);
      forall j | 0 <= j < |rest| ensures !TextLess(text(sorted[0]), text(rest[j])) {
        assert rest[j] in multiset(rest);
        assert rest[j] == row || rest[j] in sorted[1..];
      }
      assert out == [sorted[0]] + rest;
    }
  }

  lemma {:induction false} SortedLists<T(!new)>(rows: seq<T>, text: T -> string)
    ensures Listing(rows, Sorted(rows, text), text)
  {
    if rows == [] {
    } else {
      var last, earlier := rows[|rows| - 1], rows[..|rows| - 1];
      SortedLists(earlier, text);
      InsertSame(last, Sorted(earlier, text), text);
      InsertDescends(last, Sorted(earlier, text), text);
      assert rows == earlier + [last];
    }
  }
}
