/** Trimming, spans and splitting, as Go's strings package does them on text. */
module Text {
  /** Unicode white space. */
  predicate IsSpace(c: char) {
    var x := c as int;
    || 9 <= x <= 13 || x == 0x20 || x == 0x85 || x == 0xA0 || x == 0x1680 || 0x2000 <= x <= 0x200A
    || x == 0x2028 || x == 0x2029 || x == 0x202F || x == 0x205F || x == 0x3000
  }

  function TrimLeft(s: string): string {
    if s != [] && IsSpace(s[0]) then TrimLeft(s[1..]) else s
  }

  function TrimRight(s: string): string {
    if s != [] && IsSpace(s[|s| - 1]) then TrimRight(s[..|s| - 1]) else s
  }

  function TrimSpace(s: string): string {
    TrimRight(TrimLeft(s))
  }

  predicate Spaces(s: string) {
    forall i :: 0 <= i < |s| ==> IsSpace(s[i])
  }

  lemma {:induction false} TrimLeftTakes(s: string)
    ensures exists a :: Spaces(a) && s == a + TrimLeft(s)
  {
    if s != [] && IsSpace(s[0]) {
      TrimLeftTakes(s[1..]);
      var a :| Spaces(a) && s[1..] == a + TrimLeft(s[1..]);
      assert Spaces([s[0]] + a) && s == ([s[0]] + a) + TrimLeft(s);
    } else {
      assert Spaces([]) && s == [] + TrimLeft(s);
    }
  }

  lemma {:induction false} TrimRightTakes(s: string)
    ensures exists b :: Spaces(b) && s == TrimRight(s) + b
  {
    if s != [] && IsSpace(s[|s| - 1]) {
      TrimRightTakes(s[..|s| - 1]);
      var b :| Spaces(b) && s[..|s| - 1] == TrimRight(s[..|s| - 1]) + b;
      assert Spaces(b + [s[|s| - 1]]) && s == TrimRight(s) + (b + [s[|s| - 1]]);
    } else {
      assert Spaces([]) && s == TrimRight(s) + [];
    }
  }

  /** Only white space is trimmed. */
  lemma TrimTakesSpaces(s: string) returns (a: string, b: string)
    ensures Spaces(a) && Spaces(b) && s == a + TrimSpace(s) + b
  {
    TrimLeftTakes(s);
    a :| Spaces(a) && s == a + TrimLeft(s);
    TrimRightTakes(TrimLeft(s));
    b :| Spaces(b) && TrimLeft(s) == TrimSpace(s) + b;
  }

  /** A text that neither begins nor ends with white space is left alone. */
  lemma TrimNothing(s: string)
    requires s == [] || (!IsSpace(s[0]) && !IsSpace(s[|s| - 1]))
    ensures TrimSpace(s) == s
  {
  }

  /** The text neither begins nor ends with white space. */
  predicate Edgeless(t: string) {
    t == [] || (!IsSpace(t[0]) && !IsSpace(t[|t| - 1]))
  }

  /** The text is this one with white space around it. */
  ghost predicate Around(s: string, t: string) {
    exists a, b :: Spaces(a) && Spaces(b) && s == a + t + b
  }

  lemma {:induction false} TrimLeftAll(a: string, rest: string)
    requires Spaces(a)
    ensures TrimLeft(a + rest) == TrimLeft(rest)
  {
    if a == [] {
      assert a + rest == rest;
    } else {
      assert (a + rest)[1..] == a[1..] + rest;
      TrimLeftAll(a[1..], rest);
    }
  }

  lemma {:induction false} TrimRightAll(rest: string, b: string)
    requires Spaces(b)
    ensures TrimRight(rest + b) == TrimRight(rest)
  {
    if b == [] {
      assert rest + b == rest;
    } else {
      assert (rest + b)[..|rest + b| - 1] == rest + b[..|b| - 1];
      TrimRightAll(rest, b[..|b| - 1]);
    }
  }

  lemma {:induction false} TrimLeftEdge(s: string)
    ensures TrimLeft(s) != [] ==> !IsSpace(TrimLeft(s)[0])
  {
    if s != [] && IsSpace(s[0]) {
      TrimLeftEdge(s[1..]);
    }
  }

  lemma {:induction false} TrimRightEdge(s: string)
    ensures TrimRight(s) <= s
    ensures TrimRight(s) != [] ==> !IsSpace(TrimRight(s)[|TrimRight(s)| - 1])
  {
    if s != [] && IsSpace(s[|s| - 1]) {
      TrimRightEdge(s[..|s| - 1]);
    }
  }

  /** Trimming a text gives the one text without white space at its edges that it has white space around. */
  lemma TrimSpaceIff(s: string, t: string)
    ensures TrimSpace(s) == t <==> Edgeless(t) && Around(s, t)
  {
    var a, b := TrimTakesSpaces(s);
    TrimLeftEdge(s);
    TrimRightEdge(TrimLeft(s));
    assert Edgeless(TrimSpace(s)) && Around(s, TrimSpace(s));
    if Edgeless(t) && Around(s, t) {
      TrimAround(s, t);
    }
  }

  lemma TrimAround(s: string, t: string)
    requires Edgeless(t) && Around(s, t)
    ensures TrimSpace(s) == t
  {
    var a, b :| Spaces(a) && Spaces(b) && s == a + t + b;
    assert s == a + (t + b);
    TrimLeftAll(a, t + b);
    if t == [] {
      assert t + b == b && b + [] == b;
      TrimLeftAll(b, []);
    } else {
      assert TrimLeft(t + b) == t + b;
      TrimRightAll(t, b);
    }
  }

  /** How many leading characters satisfy `p`. */
  function Span(s: string, p: char -> bool): (n: nat)
    ensures n <= |s|
    ensures forall i :: 0 <= i < n ==> p(s[i])
    ensures n < |s| ==> !p(s[n])
  {
    if s != [] && p(s[0]) then 1 + Span(s[1..], p) else 0
  }

  lemma {:induction false} SpanExact(a: string, b: string, p: char -> bool)
    requires forall i :: 0 <= i < |a| ==> p(a[i])
    requires b == [] || !p(b[0])
    ensures Span(a + b, p) == |a|
  {
    if a == [] {
      assert a + b == b;
    } else {
      assert (a + b)[1..] == a[1..] + b;
      SpanExact(a[1..], b, p);
    }
  }

  /** The pieces of a text between separators. */
  function Split(s: string, separator: char): (pieces: seq<string>)
    ensures pieces != []
  {
    if s == [] then [""] else
    var rest := Split(s[1..], separator);
    if s[0] == separator then [""] + rest else [[s[0]] + rest[0]] + rest[1..]
  }

  function Join(pieces: seq<string>, separator: char): string
    requires pieces != []
  {
    if |pieces| == 1 then pieces[0] else pieces[0] + ([separator] + Join(pieces[1..], separator))
  }

  /** Splitting loses nothing but the separators, and leaves none in a piece. */
  lemma {:induction false} SplitJoins(s: string, separator: char)
    ensures Join(Split(s, separator), separator) == s
    ensures forall p :: p in Split(s, separator) ==> separator !in p
  {
    if s == [] {
    } else {
      SplitJoins(s[1..], separator);
      var rest := Split(s[1..], separator);
      if s[0] == separator {
        assert Split(s, separator)[1..] == rest;
      } else {
        assert Split(s, separator)[1..] == rest[1..];
      }
    }
  }

  /** A piece without separators comes first of what it is put before. */
  lemma {:induction false} SplitFirst(piece: string, rest: string, separator: char)
    requires separator !in piece
    ensures Split(piece + ([separator] + rest), separator) == [piece] + Split(rest, separator)
  {
    var s := piece + ([separator] + rest);
    if piece == [] {
      assert s == [separator] + rest && s[1..] == rest;
    } else {
      assert s[0] == piece[0] && s[1..] == piece[1..] + ([separator] + rest);
      SplitFirst(piece[1..], rest, separator);
      assert [piece[0]] + piece[1..] == piece;
    }
  }

  lemma {:induction false} SplitNothing(piece: string, separator: char)
    requires separator !in piece
    ensures Split(piece, separator) == [piece]
  {
    if piece == [] {
    } else {
      SplitNothing(piece[1..], separator);
      assert [piece[0]] + piece[1..] == piece;
    }
  }
}
