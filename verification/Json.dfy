/**
 The part of JSON that webhook events use: strings, integers and nested objects, written as Go's
 encoding/json writes them (no insignificant whitespace, HTML-sensitive characters escaped), and
 read back by a scanner and a string decoder after sections 4 to 7 of RFC 8259.
 */
module Json {
  import opened Decimals
  import opened Hex
  import opened Wrappers

  datatype Value = Text(text: string) | Number(n: int) | Object(members: Members)
  datatype Members = End | Member(key: string, value: Value, rest: Members)

  // ---------------------------------------------------------------- writing

  /** The characters the encoder writes as \uXXXX because of where JSON may be embedded. */
  predicate Sensitive(c: char) {
    c == '<' || c == '>' || c == '&' || c as int == 0x2028 || c as int == 0x2029
  }

  function UnicodeEscape(n: nat): string
    requires n < 0x10000
  {
    ['\\', 'u', HexDigit(n / 0x1000), HexDigit(n / 0x100 % 16), HexDigit(n / 16 % 16), HexDigit(n % 16)]
  }

  function EscapeChar(c: char): string {
    if c == '\"' then "\\\""
    else if c == '\\' then "\\\\"
    else if c as int == 8 then "\\b"
    else if c as int == 12 then "\\f"
    else if c == '\n' then "\\n"
    else if c == '\r' then "\\r"
    else if c == '\t' then "\\t"
    else if c as int < 0x20 || Sensitive(c) then UnicodeEscape(c as int)
    else [c]
  }

  function Escape(s: string): string {
    if s == [] then [] else EscapeChar(s[0]) + Escape(s[1..])
  }

  function Quote(s: string): string {
    "\"" + Escape(s) + "\""
  }

  function Digits(n: nat): string {
    if n < 10 then [HexDigit(n)] else Digits(n / 10) + [HexDigit(n % 10)]
  }

  function WriteNumber(n: int): string {
    if n < 0 then "-" + Digits(-n) else Digits(n)
  }

  function Write(v: Value): string {
    match v
    case Text(s) => Quote(s)
    case Number(n) => WriteNumber(n)
    case Object(ms) => "{" + WriteMembers(ms)
  }

  /** The members of an object and its closing brace. */
  function WriteMembers(ms: Members): string {
    match ms
    case End => "}"
    case Member(key, value, End) => Quote(key) + ":" + Write(value) + "}"
    case Member(key, value, rest) => Quote(key) + ":" + Write(value) + "," + WriteMembers(rest)
  }

  // ---------------------------------------------------------------- reading

  /** Four hex digits; a surrogate code unit is not read. */
  function HexChar(s: string): Option<char>
    requires |s| == 4
  {
    var (a, b, c, d) := (HexValue(s[0]), HexValue(s[1]), HexValue(s[2]), HexValue(s[3]));
    if a.None? || b.None? || c.None? || d.None? then None else
    var n := a.value * 0x1000 + b.value * 0x100 + c.value * 16 + d.value;
    if 0xD800 <= n < 0xE000 || n >= 0x10000 then None else Some(n as char)
  }

  function SimpleEscape(c: char): Option<char> {
    match c
    case '\"' => Some('\"')
    case '\\' => Some('\\')
    case '/' => Some('/')
    case 'b' => Some(8 as char)
    case 'f' => Some(12 as char)
    case 'n' => Some('\n')
    case 'r' => Some('\r')
    case 't' => Some('\t')
    case _ => None
  }

  /** One character of a string literal, plain or escaped, and what follows it. */
  function ReadChar(s: string): (r: Option<(char, string)>)
    ensures r.Some? ==> |r.value.1| < |s|
  {
    if s == [] || s[0] as int < 0x20 then None
    else if s[0] != '\\' then Some((s[0], s[1..]))
    else if |s| < 2 then None
    else if s[1] == 'u' then
      if |s| < 6 then None else
      var c := HexChar(s[2..6]);
      if c.None? then None else Some((c.value, s[6..]))
    else
      var c := SimpleEscape(s[1]);
      if c.None? then None else Some((c.value, s[2..]))
  }

  /** The text of a string literal whose opening quote has been read, and what follows its closing quote. */
  function ReadChars(s: string): (r: Option<(string, string)>)
    ensures r.Some? ==> |r.value.1| < |s|
    decreases |s|
  {
    if s == [] then None
    else if s[0] == '\"' then Some(("", s[1..]))
    else
      var c := ReadChar(s);
      if c.None? then None else
      var r := ReadChars(c.value.1);
      if r.None? then None else Some(([c.value.0] + r.value.0, r.value.1))
  }

  function ReadText(s: string): (r: Option<(string, string)>)
    ensures r.Some? ==> |r.value.1| < |s|
  {
    if s == [] || s[0] != '\"' then None else ReadChars(s[1..])
  }

  predicate NumberChar(c: char) {
    '0' <= c <= '9' || c == '+' || c == '-' || c == '.' || c == 'e' || c == 'E'
  }

  predicate StartsDigit(s: string) {
    s != [] && '0' <= s[0] <= '9'
  }

  function SkipDigits(s: string): (rest: string)
    ensures |rest| <= |s|
    ensures StartsDigit(s) ==> |rest| < |s|
  {
    if StartsDigit(s) then SkipDigits(s[1..]) else s
  }

  function SkipFraction(s: string): (r: Option<string>)
    ensures r.Some? ==> |r.value| <= |s|
  {
    if s == [] || s[0] != '.' then Some(s)
    else if StartsDigit(s[1..]) then Some(SkipDigits(s[1..])) else None
  }

  function SkipExponent(s: string): (r: Option<string>)
    ensures r.Some? ==> |r.value| <= |s|
  {
    if s == [] || (s[0] != 'e' && s[0] != 'E') then Some(s) else
    var t := if |s| > 1 && (s[1] == '+' || s[1] == '-') then s[2..] else s[1..];
    if StartsDigit(t) then Some(SkipDigits(t)) else None
  }

  /** A sign, an integer without leading zeros, a fraction, an exponent. */
  function SkipNumber(s: string): (r: Option<string>)
    ensures r.Some? ==> |r.value| < |s|
  {
    var t := if s != [] && s[0] == '-' then s[1..] else s;
    if !StartsDigit(t) then None else
    var fraction := SkipFraction(if t[0] == '0' then t[1..] else SkipDigits(t));
    if fraction.None? then None else SkipExponent(fraction.value)
  }

  /** Skips one value and returns what follows it. */
  function SkipValue(s: string): (r: Option<string>)
    ensures r.Some? ==> |r.value| < |s|
    decreases |s|
  {
    if s == [] then None
    else if s[0] == '\"' then
      var t := ReadText(s);
      if t.None? then None else Some(t.value.1)
    else if s[0] == '{' then
      if |s| > 1 && s[1] == '}' then Some(s[2..]) else SkipMembers(s[1..])
    else SkipNumber(s)
  }

  /** Skips the members of an object that has some, and its closing brace. */
  function SkipMembers(s: string): (r: Option<string>)
    ensures r.Some? ==> |r.value| < |s|
    decreases |s|
  {
    var m := ReadMember(s);
    if m.None? then None else
    var after := m.value.1;
    var v := SkipValue(after);
    if v.None? || v.value == [] then None
    else if v.value[0] == '}' then Some(v.value[1..])
    else if v.value[0] == ',' then SkipMembers(v.value[1..])
    else None
  }

  /** A member's key and what follows its colon. */
  function ReadMember(s: string): (r: Option<(string, string)>)
    ensures r.Some? ==> |r.value.1| < |s|
  {
    var key := ReadText(s);
    if key.None? || key.value.1 == [] || key.value.1[0] != ':' then None
    else Some((key.value.0, key.value.1[1..]))
  }

  // ---------------------------------------------------------------- what is written is read back

  lemma Nibbles(n: nat)
    requires n < 0x10000
    ensures n / 0x1000 < 16
    ensures n / 0x1000 * 0x1000 + n / 0x100 % 16 * 0x100 + n / 16 % 16 * 16 + n % 16 == n
  {
    assert n / 0x100 == n / 0x1000 * 16 + n / 0x100 % 16;
    assert n / 16 == n / 0x100 * 16 + n / 16 % 16;
  }

  lemma HexCharOf(a: nat, b: nat, c: nat, d: nat, n: nat)
    requires a < 16 && b < 16 && c < 16 && d < 16 && n == a * 0x1000 + b * 0x100 + c * 16 + d
    requires n < 0xD800
    ensures HexChar([HexDigit(a), HexDigit(b), HexDigit(c), HexDigit(d)]) == Some(n as char)
  {
    HexDigitRoundTrip(a);
    HexDigitRoundTrip(b);
    HexDigitRoundTrip(c);
    HexDigitRoundTrip(d);
  }

  lemma HexRoundTrip(c: char)
    requires c as int < 0x20 || Sensitive(c)
    ensures HexChar(UnicodeEscape(c as int)[2..6]) == Some(c)
  {
    var n := c as int;
    var x, y, z, w := n / 0x1000, n / 0x100 % 16, n / 16 % 16, n % 16;
    Nibbles(n);
    HexCharOf(x, y, z, w, n);
    assert UnicodeEscape(n)[2..6] == [HexDigit(x), HexDigit(y), HexDigit(z), HexDigit(w)];
  }

  lemma ReadCharEscaped(c: char, tail: string)
    ensures ReadChar(EscapeChar(c) + tail) == Some((c, tail))
    ensures EscapeChar(c)[0] != '\"'
  {
    var e := EscapeChar(c);
    if |e| == 6 {
      ReadUnicode(c, tail);
    } else if |e| == 2 {
      ReadSimple(e[1], c, tail);
      assert e == ['\\', e[1]];
    } else {
      assert ([c] + tail)[1..] == tail;
    }
  }

  lemma ReadUnicode(c: char, tail: string)
    requires c as int < 0x20 || Sensitive(c)
    ensures ReadChar(UnicodeEscape(c as int) + tail) == Some((c, tail))
  {
    var e := UnicodeEscape(c as int);
    HexRoundTrip(c);
    assert (e + tail)[2..6] == e[2..6] && (e + tail)[6..] == tail;
    assert (e + tail)[0] == '\\' && (e + tail)[1] == 'u';
  }

  lemma ReadSimple(letter: char, c: char, tail: string)
    requires SimpleEscape(letter) == Some(c)
    ensures ReadChar(['\\', letter] + tail) == Some((c, tail))
  {
    assert (['\\', letter] + tail)[2..] == tail;
  }

  lemma Regroup(a: string, b: string, c: string, d: string)
    ensures a + b + c + d == a + (b + c + d) == a + (b + (c + d))
  {
  }

  lemma {:induction false} ReadCharsEscaped(s: string, tail: string)
    ensures ReadChars(Escape(s) + "\"" + tail) == Some((s, tail))
  {
    if s == [] {
      assert Escape(s) + "\"" + tail == "\"" + tail;
    } else {
      var e, more := EscapeChar(s[0]), Escape(s[1..]) + "\"" + tail;
      Regroup(e, Escape(s[1..]), "\"", tail);
      ReadCharEscaped(s[0], more);
      ReadCharsEscaped(s[1..], tail);
      assert s == [s[0]] + s[1..];
    }
  }

  lemma ReadTextQuoted(s: string, tail: string)
    ensures ReadText(Quote(s) + tail) == Some((s, tail))
  {
    assert (Quote(s) + tail)[1..] == Escape(s) + "\"" + tail;
    ReadCharsEscaped(s, tail);
  }

  /** A value ends at the end of the text or before a character that continues no number. */
  predicate Ends(tail: string) {
    tail == [] || !NumberChar(tail[0])
  }

  lemma {:induction false} DigitsAreDigits(n: nat)
    ensures Digits(n) != [] && forall i :: 0 <= i < |Digits(n)| ==> '0' <= Digits(n)[i] <= '9'
    ensures Digits(n)[0] == '0' <==> n == 0
    ensures n == 0 ==> |Digits(n)| == 1
  {
    if n < 10 {
    } else {
      DigitsAreDigits(n / 10);
      assert Digits(n)[0] == Digits(n / 10)[0];
    }
  }

  /** The digits write the number, without zeros in front. */
  lemma {:induction false} DigitsValue(n: nat)
    ensures AllDigits(Digits(n)) && ValueOf(Digits(n)) == n
  {
    if n < 10 {
      assert Digits(n)[..0] == [];
    } else {
      DigitsValue(n / 10);
      assert Digits(n)[..|Digits(n)| - 1] == Digits(n / 10);
    }
  }

  lemma {:induction false} SkipRun(run: string, tail: string)
    requires Ends(tail) && forall i :: 0 <= i < |run| ==> '0' <= run[i] <= '9'
    ensures SkipDigits(run + tail) == tail
  {
    if run == [] {
      assert run + tail == tail;
    } else {
      assert (run + tail)[1..] == run[1..] + tail;
      SkipRun(run[1..], tail);
    }
  }

  lemma SkipWrittenNumber(n: int, tail: string)
    requires Ends(tail)
    ensures SkipValue(WriteNumber(n) + tail) == Some(tail)
  {
    if n < 0 {
      DigitsAreDigits(-n);
      SkipSigned(Digits(-n), tail);
      FrontMinus(Digits(-n), tail);
    } else {
      DigitsAreDigits(n);
      SkipPlain(Digits(n), tail);
    }
  }

  lemma FrontMinus(digits: string, tail: string)
    ensures "-" + digits + tail == "-" + (digits + tail)
  {
  }

  lemma SkipPlain(digits: string, tail: string)
    requires Ends(tail) && digits != [] && forall i :: 0 <= i < |digits| ==> '0' <= digits[i] <= '9'
    requires digits[0] == '0' ==> |digits| == 1
    ensures SkipValue(digits + tail) == Some(tail)
  {
    SkipUnsigned(digits, tail);
  }

  lemma SkipSigned(digits: string, tail: string)
    requires Ends(tail) && digits != [] && forall i :: 0 <= i < |digits| ==> '0' <= digits[i] <= '9'
    requires digits[0] == '0' ==> |digits| == 1
    ensures SkipValue("-" + (digits + tail)) == Some(tail)
  {
    var s := "-" + (digits + tail);
    SkipUnsigned(digits, tail);
    assert s[0] == '-' && s[1..] == digits + tail;
  }

  lemma SkipUnsigned(digits: string, tail: string)
    requires Ends(tail) && digits != [] && forall i :: 0 <= i < |digits| ==> '0' <= digits[i] <= '9'
    requires digits[0] == '0' ==> |digits| == 1
    ensures StartsDigit(digits + tail)
    ensures (if digits[0] == '0' then (digits + tail)[1..] else SkipDigits(digits + tail)) == tail
    ensures SkipFraction(tail) == SkipExponent(tail) == Some(tail)
  {
    SkipEnd(tail);
    if digits[0] == '0' {
      assert digits == [digits[0]] && (digits + tail)[1..] == tail;
    } else {
      SkipRun(digits, tail);
    }
  }

  lemma SkipEnd(tail: string)
    requires Ends(tail)
    ensures SkipFraction(tail) == SkipExponent(tail) == Some(tail)
  {
  }

  lemma ReadWrittenMember(key: string, tail: string)
    ensures ReadMember(Quote(key) + ":" + tail) == Some((key, tail))
  {
    assert Quote(key) + ":" + tail == Quote(key) + (":" + tail);
    ReadTextQuoted(key, ":" + tail);
  }

  lemma SkipOneMember(key: string, value: string, after: string)
    requires SkipValue(value + after) == Some(after) && after != []
    ensures after[0] == '}' ==> SkipMembers(Quote(key) + ":" + (value + after)) == Some(after[1..])
    ensures after[0] == ',' ==> SkipMembers(Quote(key) + ":" + (value + after)) == SkipMembers(after[1..])
  {
    ReadWrittenMember(key, value + after);
    assert (Quote(key) + ":" + (value + after))[0] == '\"';
  }

  /** The scanner stops exactly at the end of a written value. */
  lemma {:induction false} SkipWritten(v: Value, tail: string)
    requires Ends(tail)
    ensures SkipValue(Write(v) + tail) == Some(tail)
    decreases v, 1
  {
    match v
    case Text(s) => SkipQuoted(s, tail);
    case Number(n) => SkipWrittenNumber(n, tail);
    case Object(End) => SkipEmpty(tail);
    case Object(ms) =>
      SkipWrittenMembers(ms, tail);
      SkipBraced(WriteMembers(ms), tail);
  }

  lemma SkipQuoted(s: string, tail: string)
    ensures SkipValue(Quote(s) + tail) == Some(tail)
  {
    ReadTextQuoted(s, tail);
  }

  lemma SkipEmpty(tail: string)
    ensures SkipValue("{" + "}" + tail) == Some(tail)
  {
    var s := "{" + "}" + tail;
    assert s[0] == '{' && s[1] == '}' && s[2..] == tail;
  }

  /** The rest of an object after its opening brace. */
  lemma SkipBraced(rest: string, tail: string)
    requires SkipMembers(rest + tail) == Some(tail) && (rest + tail)[0] == '\"'
    ensures SkipValue("{" + rest + tail) == Some(tail)
  {
    Braced("{" + rest + tail, rest + tail, rest, tail);
  }

  lemma Braced(s: string, after: string, rest: string, tail: string)
    requires s == "{" + rest + tail && after == rest + tail && after != "" && after[0] != '}'
    ensures SkipValue(s) == SkipMembers(after)
  {
    assert s[0] == '{' && s[1..] == after && s[1] == after[0];
  }

  /** What a written member is followed by. */
  function AfterMember(rest: Members, tail: string): (after: string)
    ensures after != [] && Ends(after)
  {
    if rest == End then "}" + tail else "," + (WriteMembers(rest) + tail)
  }

  lemma WrittenMember(key: string, value: Value, rest: Members, tail: string)
    ensures WriteMembers(Member(key, value, rest)) + tail
              == Quote(key) + ":" + (Write(value) + AfterMember(rest, tail))
  {
  }

  lemma {:induction false} SkipWrittenMembers(ms: Members, tail: string)
    requires ms != End
    ensures SkipMembers(WriteMembers(ms) + tail) == Some(tail)
    ensures (WriteMembers(ms) + tail)[0] == '\"'
    decreases ms, 0
  {
    var Member(key, value, rest) := ms;
    var after := AfterMember(rest, tail);
    WrittenMember(key, value, rest, tail);
    SkipWritten(value, after);
    SkipOneMember(key, Write(value), after);
    if rest != End {
      SkipWrittenMembers(rest, tail);
    }
  }

  // ---------------------------------------------------------------- compaction

  /** Where the compactor stands: outside a string, inside one, or just after a backslash. */
  datatype Place = Outside | Inside | Escaped

  function PlaceAfter(p: Place, c: char): Place {
    match p
    case Outside => if c == '\"' then Inside else Outside
    case Inside => if c == '\"' then Outside else if c == '\\' then Escaped else Inside
    case Escaped => Inside
  }

  predicate Dropped(c: char, p: Place) {
    p == Outside && (c == ' ' || c == '\t' || c == '\n' || c == '\r')
  }

  /** What the encoder does to raw JSON: drops whitespace between tokens, escapes sensitive characters. */
  function Compact(s: string, p: Place): string {
    if s == [] then [] else
    (if Dropped(s[0], p) then [] else if Sensitive(s[0]) then UnicodeEscape(s[0] as int) else [s[0]])
    + Compact(s[1..], PlaceAfter(p, s[0]))
  }

  function PlaceAt(s: string, p: Place): Place {
    if s == [] then p else PlaceAt(s[1..], PlaceAfter(p, s[0]))
  }

  /** Compaction goes piece by piece, each from where the one before it ends. */
  lemma {:induction false} CompactPieces(a: string, b: string, p: Place)
    ensures Compact(a + b, p) == Compact(a, p) + Compact(b, PlaceAt(a, p))
  {
    if a == [] {
      assert a + b == b;
    } else {
      assert (a + b)[1..] == a[1..] + b;
      CompactPieces(a[1..], b, PlaceAfter(p, a[0]));
    }
  }

  lemma BlankFirst(b: string, c: char)
    requires c == ' ' || c == '\t' || c == '\n' || c == '\r'
    ensures Compact([c] + b, Outside) == Compact(b, Outside)
  {
    assert ([c] + b)[1..] == b;
  }

  /** White space between tokens vanishes. */
  lemma CompactBlank(a: string, b: string, c: char)
    requires PlaceAt(a, Outside) == Outside && (c == ' ' || c == '\t' || c == '\n' || c == '\r')
    ensures Compact(a + ([c] + b), Outside) == Compact(a + b, Outside)
  {
    CompactPieces(a, b, Outside);
    CompactPieces(a, [c] + b, Outside);
    BlankFirst(b, c);
  }

  /** The compactor, started at `p`, keeps every character of the text and ends at `q`. */
  ghost predicate Inert(s: string, p: Place, q: Place) {
    if s == [] then p == q
    else !Dropped(s[0], p) && !Sensitive(s[0]) && Inert(s[1..], PlaceAfter(p, s[0]), q)
  }

  lemma {:induction false} InertIsKept(s: string, p: Place, q: Place)
    requires Inert(s, p, q)
    ensures Compact(s, p) == s
  {
    if s == [] {
    } else {
      InertIsKept(s[1..], PlaceAfter(p, s[0]), q);
    }
  }

  lemma {:induction false} InertConcat(a: string, b: string, p: Place, q: Place, r: Place)
    requires Inert(a, p, q) && Inert(b, q, r)
    ensures Inert(a + b, p, r)
  {
    if a == [] {
      assert a + b == b;
    } else {
      assert (a + b)[1..] == a[1..] + b;
      InertConcat(a[1..], b, PlaceAfter(p, a[0]), q, r);
    }
  }

  /** Inside a string everything but quotes, backslashes and sensitive characters is kept. */
  lemma {:induction false} InertInside(s: string)
    requires forall i :: 0 <= i < |s| ==> s[i] != '\"' && s[i] != '\\' && !Sensitive(s[i])
    ensures Inert(s, Inside, Inside)
  {
    if s == [] {
    } else {
      InertInside(s[1..]);
    }
  }

  lemma InertUnicodeEscape(n: nat)
    requires n < 0x10000
    ensures Inert(UnicodeEscape(n), Inside, Inside)
  {
    var e := UnicodeEscape(n);
    assert e[1..][0] == 'u' && e[1..][1..] == e[2..];
    InertInside(e[2..]);
  }

  lemma InertEscapeChar(c: char)
    ensures Inert(EscapeChar(c), Inside, Inside)
  {
    var e := EscapeChar(c);
    if |e| == 6 {
      InertUnicodeEscape(c as int);
    } else if |e| == 2 {
      assert e[1..] == [e[1]];
      assert Inert([e[1]], Escaped, Inside);
    }
  }

  lemma {:induction false} InertEscape(s: string)
    ensures Inert(Escape(s), Inside, Inside)
  {
    if s == [] {
    } else {
      InertEscapeChar(s[0]);
      InertEscape(s[1..]);
      InertConcat(EscapeChar(s[0]), Escape(s[1..]), Inside, Inside, Inside);
    }
  }

  lemma InertQuote(s: string)
    ensures Inert(Quote(s), Outside, Outside)
  {
    InertEscape(s);
    InertConcat(Escape(s), "\"", Inside, Inside, Outside);
    assert Quote(s)[1..] == Escape(s) + "\"";
  }

  predicate Plain(c: char) {
    NumberChar(c) || c == '{' || c == '}' || c == ':' || c == ','
  }

  /** Digits, signs and punctuation outside strings are kept. */
  lemma {:induction false} InertPlain(s: string)
    requires forall i :: 0 <= i < |s| ==> Plain(s[i])
    ensures Inert(s, Outside, Outside)
  {
    if s == [] {
    } else {
      InertPlain(s[1..]);
    }
  }

  lemma {:induction false} InertWrite(v: Value)
    ensures Inert(Write(v), Outside, Outside)
    decreases v, 1
  {
    match v
    case Text(s) =>
      InertQuote(s);
    case Number(n) =>
      DigitsAreDigits(if n < 0 then -n else n);
      InertPlain(WriteNumber(n));
    case Object(ms) =>
      InertWriteMembers(ms);
      InertPlain("{");
      InertConcat("{", WriteMembers(ms), Outside, Outside, Outside);
  }

  lemma {:induction false} InertWriteMembers(ms: Members)
    ensures Inert(WriteMembers(ms), Outside, Outside)
    decreases ms, 0
  {
    match ms
    case End =>
      InertPlain("}");
    case Member(key, value, rest) =>
      InertWrite(value);
      InertMember(key, Write(value));
      if rest == End {
        InertPlain("}");
        InertConcat(Quote(key) + ":" + Write(value), "}", Outside, Outside, Outside);
      } else {
        InertWriteMembers(rest);
        InertPlain(",");
        InertConcat(Quote(key) + ":" + Write(value), ",", Outside, Outside, Outside);
        InertConcat(Quote(key) + ":" + Write(value) + ",", WriteMembers(rest), Outside, Outside, Outside);
      }
  }

  lemma InertMember(key: string, value: string)
    requires Inert(value, Outside, Outside)
    ensures Inert(Quote(key) + ":" + value, Outside, Outside)
  {
    InertQuote(key);
    InertPlain(":");
    InertConcat(Quote(key), ":", Outside, Outside, Outside);
    InertConcat(Quote(key) + ":", value, Outside, Outside, Outside);
  }

  /** Compaction leaves written values byte for byte as they are. */
  lemma CompactWritten(v: Value)
    ensures Compact(Write(v), Outside) == Write(v)
  {
    InertWrite(v);
    InertIsKept(Write(v), Outside, Outside);
  }

  // ---------------------------------------------------------------- what may be written

  /** Neither a control character nor one of <, >, &, U+2028 and U+2029. */
  predicate Harmless(c: char) {
    c as int >= 0x20 && c as int != 0x3C && c as int != 0x3E && c as int != 0x26
    && c as int != 0x2028 && c as int != 0x2029
  }

  lemma HarmlessHex(d: nat)
    requires d < 16
    ensures Harmless(HexDigit(d))
  {
  }

  lemma HarmlessEscape(c: char)
    ensures forall i :: 0 <= i < |EscapeChar(c)| ==> Harmless(EscapeChar(c)[i])
  {
    var n := c as int;
    if n < 0x20 || Sensitive(c) {
      HarmlessHex(n / 0x1000);
      HarmlessHex(n / 0x100 % 16);
      HarmlessHex(n / 16 % 16);
      HarmlessHex(n % 16);
    }
  }

  /** Quoted texts hold none of the characters that the encoder must escape. */
  lemma {:induction false} HarmlessText(s: string)
    ensures forall i :: 0 <= i < |Escape(s)| ==> Harmless(Escape(s)[i])
  {
    if s == [] {
    } else {
      HarmlessEscape(s[0]);
      HarmlessText(s[1..]);
    }
  }

  /** The short escapes of section 7 of RFC 8259. */
  lemma ShortEscapes(tail: string)
    ensures ReadChar("\\\"" + tail) == Some((34 as char, tail)) && ReadChar("\\\\" + tail) == Some((92 as char, tail))
    ensures ReadChar("\\/" + tail) == Some((47 as char, tail)) && ReadChar("\\b" + tail) == Some((8 as char, tail))
    ensures ReadChar("\\f" + tail) == Some((12 as char, tail)) && ReadChar("\\n" + tail) == Some((10 as char, tail))
    ensures ReadChar("\\r" + tail) == Some((13 as char, tail)) && ReadChar("\\t" + tail) == Some((9 as char, tail))
  {
    ReadSimple('\"', 34 as char, tail);
    ReadSimple('\\', 92 as char, tail);
    ReadSimple('/', 47 as char, tail);
    ReadSimple('b', 8 as char, tail);
    ReadSimple('f', 12 as char, tail);
    ReadSimple('n', 10 as char, tail);
    ReadSimple('r', 13 as char, tail);
    ReadSimple('t', 9 as char, tail);
  }
}
