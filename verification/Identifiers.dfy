/**
 Names and keys: identifier validation, the storage key of an artifact version, and artifact ids
 derived from the clock.
 */
module Identifiers {
  import opened Hex
  import opened Text
  import opened Versions
  import opened Wrappers

  // ---------------------------------------------------------------- identifiers and storage keys

  predicate IsAlphaNum(c: char) {
    'a' <= c <= 'z' || 'A' <= c <= 'Z' || '0' <= c <= '9'
  }

  predicate IdentifierChar(c: char) {
    IsAlphaNum(c) || c == '-' || c == '_' || c == '.'
  }

  /** Checked after trimming, though callers go on to use the untrimmed text. */
  predicate ValidIdentifier(s: string) {
    var t := TrimSpace(s);
    t != [] && |t| <= 128 && forall i :: 0 <= i < |t| ==> IdentifierChar(t[i])
  }

  /** Accepted are one to 128 letters, digits, dashes, underscores and dots, with white space around them. */
  lemma ValidIdentifierIff(s: string)
    ensures ValidIdentifier(s) <==> exists t :: Around(s, t) && 1 <= |t| <= 128 && forall i :: 0 <= i < |t| ==>
              || 'a' <= t[i] <= 'z' || 'A' <= t[i] <= 'Z' || '0' <= t[i] <= '9'
              || t[i] == '-' || t[i] == '_' || t[i] == '.'
  {
    TrimSpaceIff(s, TrimSpace(s));
    if t :| Around(s, t) && 1 <= |t| <= 128 && forall i :: 0 <= i < |t| ==> IdentifierChar(t[i]) {
      TrimSpaceIff(s, t);
    }
  }

  function StorageKey(artifactType: string, name: string, version: string): string {
    artifactType + ("/" + (name + ("/" + (version + "/artifact"))))
  }

  predicate NoSlash(s: string) {
    forall i :: 0 <= i < |s| ==> s[i] != '/'
  }

  lemma ValidHasNoSlash(s: string)
    requires ValidIdentifier(s)
    ensures NoSlash(s)
  {
    var a, b := TrimTakesSpaces(s);
    var t := TrimSpace(s);
    forall i | 0 <= i < |s| ensures s[i] != '/' {
      assert s[i] == if i < |a| then a[i] else if i < |a| + |t| then t[i - |a|] else b[i - |a| - |t|];
    }
  }

  lemma ValidNotEmpty(s: string)
    requires ValidIdentifier(s)
    ensures s != []
  {
  }

  /** A text splits at its first slash in one way. */
  lemma SplitAtSlash(a: string, x: string, b: string, y: string)
    requires NoSlash(a) && NoSlash(b) && a + ("/" + x) == b + ("/" + y)
    ensures a == b && x == y
  {
    var s := a + ("/" + x);
    assert s[|a|] == '/' && s[|b|] == '/';
    assert forall i :: 0 <= i < |a| ==> s[i] == a[i];
    assert forall i :: 0 <= i < |b| ==> s[i] == b[i];
    assert |a| == |b|;
    assert a == s[..|a|] && b == s[..|b|];
    assert "/" + x == s[|a|..] && "/" + y == s[|b|..];
    assert x == ("/" + x)[1..] && y == ("/" + y)[1..];
  }

  lemma StorageKeySplits(a: string, b: string, c: string, a': string, b': string, c': string)
    requires NoSlash(a) && NoSlash(b) && NoSlash(c) && NoSlash(a') && NoSlash(b') && NoSlash(c')
    requires StorageKey(a, b, c) == StorageKey(a', b', c')
    ensures a == a' && b == b' && c == c'
  {
    SplitAtSlash(a, b + ("/" + (c + "/artifact")), a', b' + ("/" + (c' + "/artifact")));
    SplitAtSlash(b, c + "/artifact", b', c' + "/artifact");
    assert c + "/artifact" == c + ("/" + "artifact") && c' + "/artifact" == c' + ("/" + "artifact");
    SplitAtSlash(c, "artifact", c', "artifact");
  }

  /** What Upload accepts as a type, a name and a version once normalised. */
  ghost predicate Accepted(artifactType: string, name: string, version: string) {
    && ValidIdentifier(artifactType) && ValidIdentifier(name)
    && exists v :: NormalizeVersion(v) == Ok(version)
  }

  lemma AcceptedHasNoSlash(artifactType: string, name: string, version: string)
    requires Accepted(artifactType, name, version)
    ensures NoSlash(artifactType) && NoSlash(name) && NoSlash(version)
  {
    ValidHasNoSlash(artifactType);
    ValidHasNoSlash(name);
    var v :| NormalizeVersion(v) == Ok(version);
    forall i | 0 <= i < |version| ensures version[i] != '/' {
      NormalizedHasNoSlash(v, i);
    }
  }

  /** Uploads that are accepted share a storage key only when they agree on type, name and normalised
      version, so blobs can be told apart just as table rows are. */
  lemma StorageKeyInjective(type1: string, name1: string, version1: string, type2: string, name2: string,
                            version2: string)
    requires Accepted(type1, name1, version1) && Accepted(type2, name2, version2)
    ensures StorageKey(type1, name1, version1) == StorageKey(type2, name2, version2)
            <==> type1 == type2 && name1 == name2 && version1 == version2
  {
    AcceptedHasNoSlash(type1, name1, version1);
    AcceptedHasNoSlash(type2, name2, version2);
    if StorageKey(type1, name1, version1) == StorageKey(type2, name2, version2) {
      StorageKeySplits(type1, name1, version1, type2, name2, version2);
    }
  }

  // ---------------------------------------------------------------- ids from the clock

  newtype byte = b: int | 0 <= b < 0x100

  /** t >> 4i for a signed t: each shift by four divides by sixteen, rounding down. */
  function Shift(t: int, i: nat): int {
    if i == 0 then t else Shift(t, i - 1) / 16
  }

  /** byte(t >> 4i). */
  function Window(t: int, i: nat): byte {
    (Shift(t, i) % 0x100) as byte
  }

  /** Two characters a byte, high nibble first. */
  function HexEncode(b: seq<byte>): string {
    if b == [] then [] else [HexDigit(b[0] as int / 16), HexDigit(b[0] as int % 16)] + HexEncode(b[1..])
  }

  function IdBytes(t: int): seq<byte> {
    seq(16, i requires 0 <= i < 16 => Window(t, i))
  }

  /** The id for the clock reading t, in nanoseconds. */
  function IdOf(t: int): string {
    HexEncode(IdBytes(t))
  }

  method NewId(t: int) returns (id: string)
    ensures id == IdOf(t)
  {
    var b := new byte[16];
    for i := 0 to b.Length
      invariant forall j :: 0 <= j < i ==> b[j] == Window(t, j)
    {
      b[i] := Window(t, i);
    }
    assert b[..] == IdBytes(t);
    id := HexEncode(b[..]);
  }

  /** The number whose base-16 digits, least significant first, are the low nibbles. */
  function FromLowNibbles(b: seq<byte>): nat {
    if b == [] then 0 else b[0] as int % 16 + 16 * FromLowNibbles(b[1..])
  }

  function Power16(i: nat): (p: nat)
    ensures p > 0
  {
    if i == 0 then 1 else 16 * Power16(i - 1)
  }

  predicate Int64(t: int) {
    -0x8000_0000_0000_0000 <= t < 0x8000_0000_0000_0000
  }

  lemma {:induction false} ShiftBounds(t: int, i: nat)
    requires Int64(t) && i <= 15
    ensures -8 * Power16(15 - i) <= Shift(t, i) < 8 * Power16(15 - i)
    ensures 0 <= t <==> 0 <= Shift(t, i)
  {
    if i == 0 {
      PowersOf16();
    } else {
      ShiftBounds(t, i - 1);
      assert Power16(16 - i) == 16 * Power16(15 - i);
      DividedBounds(Shift(t, i - 1), Power16(15 - i));
    }
  }

  lemma DividedBounds(u: int, p: nat)
    requires -8 * (16 * p) <= u < 8 * (16 * p)
    ensures -8 * p <= u / 16 < 8 * p
    ensures 0 <= u <==> 0 <= u / 16
  {
  }

  lemma PowersOf16()
    ensures Power16(15) == 0x1000_0000_0000_0000 && Power16(16) == 0x1_0000_0000_0000_0000
  {
    assert Power16(4) == 16 * Power16(3) == 0x1_0000;
    assert Power16(8) == 16 * Power16(7) == 0x1_0000_0000;
    assert Power16(12) == 16 * Power16(11) == 0x1_0000_0000_0000;
    assert Power16(15) == 16 * Power16(14) == 0x1000_0000_0000_0000;
  }

  lemma LowDigits(high: int, middle: int, low: int)
    requires 0 <= middle < 16 && 0 <= low < 16
    ensures var u := 0x100 * high + 16 * middle + low;
            u % 0x100 == 16 * middle + low && u / 16 == 16 * high + middle && u % 16 == low
  {
    var u := 0x100 * high + 16 * middle + low;
    assert u == 16 * (16 * high + middle) + low;
  }

  lemma LowNibble(u: int)
    ensures u % 0x100 % 16 == u % 16 && u == 16 * (u / 16) + u % 16
  {
    var high, rest := u / 0x100, u % 0x100;
    var middle, low := rest / 16, rest % 16;
    LowDigits(high, middle, low);
  }

  /** The low nibbles of the windows from position i on are the digits of t >> 4i, as an unsigned number. */
  lemma {:induction false} LowNibblesDecode(t: int, i: nat)
    requires Int64(t) && i <= 16
    ensures FromLowNibbles(IdBytes(t)[i..]) == Shift(t, i) + (if t < 0 then Power16(16 - i) else 0)
    decreases 16 - i
  {
    var rest := IdBytes(t)[i..];
    if i == 16 {
      ShiftBounds(t, 15);
    } else {
      LowNibblesDecode(t, i + 1);
      assert rest[1..] == IdBytes(t)[i + 1..] && rest[0] == Window(t, i);
      LowNibble(Shift(t, i));
    }
  }

  /** The windows overlap: a byte's high nibble is the next byte's low nibble, and the last byte's high
      nibble is zero for readings below 2^63, so the low nibbles alone give the reading back. */
  lemma IdDecodes(t: nat, i: nat)
    requires Int64(t) && i < 16
    ensures FromLowNibbles(IdBytes(t)) == t
    ensures IdBytes(t)[i] as int / 16 == if i < 15 then IdBytes(t)[i + 1] as int % 16 else 0
  {
    LowNibblesDecode(t, 0);
    assert IdBytes(t)[0..] == IdBytes(t);
    if i == 15 {
      ShiftBounds(t, 15);
    } else {
      NibblesOverlap(Shift(t, i));
    }
  }

  lemma NibblesOverlap(u: int)
    ensures u % 0x100 / 16 == u / 16 % 0x100 % 16
  {
    var high, rest := u / 0x100, u % 0x100;
    var middle, low := rest / 16, rest % 16;
    LowDigits(high, middle, low);
    LowDigits(high / 16, high % 16, middle);
  }

  /** The text has two characters a byte, which read back as its high and its low nibble. */
  lemma {:induction false} HexReadsBack(b: seq<byte>, i: nat)
    requires i < |b|
    ensures |HexEncode(b)| == 2 * |b|
    ensures HexValue(HexEncode(b)[2 * i]) == Some(b[i] as int / 16)
    ensures HexValue(HexEncode(b)[2 * i + 1]) == Some(b[i] as int % 16)
  {
    var digits := [HexDigit(b[0] as int / 16), HexDigit(b[0] as int % 16)];
    assert HexEncode(b) == digits + HexEncode(b[1..]);
    HexLength(b[1..]);
    if i == 0 {
      HexDigitRoundTrip(b[0] as int / 16);
      HexDigitRoundTrip(b[0] as int % 16);
    } else {
      HexReadsBack(b[1..], i - 1);
      assert HexEncode(b)[2 * i] == HexEncode(b[1..])[2 * (i - 1)];
      assert HexEncode(b)[2 * i + 1] == HexEncode(b[1..])[2 * (i - 1) + 1];
    }
  }

  lemma {:induction false} HexLength(b: seq<byte>)
    ensures |HexEncode(b)| == 2 * |b|
  {
    if b == [] {
    } else {
      HexLength(b[1..]);
    }
  }

  /** The id of a reading has 32 characters; of those, the odd ones spell it from the lowest nibble up. */
  lemma IdReads(t: nat, i: nat)
    requires Int64(t) && i < 16
    ensures |IdOf(t)| == 32 && HexValue(IdOf(t)[2 * i + 1]) == Some(Shift(t, i) % 16)
    ensures HexValue(IdOf(t)[2 * i]) == Some(Shift(t, i) % 0x100 / 16)
  {
    HexReadsBack(IdBytes(t), i);
    LowNibble(Shift(t, i));
  }

  lemma {:induction false} HexInjective(a: seq<byte>, b: seq<byte>)
    requires |a| == |b| && HexEncode(a) == HexEncode(b)
    ensures a == b
  {
    if a == [] {
    } else {
      var x, y := HexEncode(a), HexEncode(b);
      assert x[0] == y[0] && x[1] == y[1];
      assert x[2..] == HexEncode(a[1..]) && y[2..] == HexEncode(b[1..]);
      HexInjective(a[1..], b[1..]);
      assert a[0] == b[0];
      assert a == [a[0]] + a[1..] && b == [b[0]] + b[1..];
    }
  }

  /** Equal ids come from equal clock readings, for every signed 64-bit reading. */
  lemma IdInjective(t: int, u: int)
    requires Int64(t) && Int64(u)
    ensures IdOf(t) == IdOf(u) <==> t == u
  {
    if IdOf(t) == IdOf(u) {
      HexInjective(IdBytes(t), IdBytes(u));
      LowNibblesDecode(t, 0);
      LowNibblesDecode(u, 0);
      assert IdBytes(t)[0..] == IdBytes(u)[0..];
      PowersOf16();
    }
  }
}
