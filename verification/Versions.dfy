/**
 Version strings. The pattern v?MAJOR.MINOR.PATCH(-PRE)?(+BUILD)? is recognised by a scanner, which is
 proved to accept exactly the strings of the declarative grammar, splitting each in the one possible way.
 */
module Versions {
  import opened Text
  import opened Wrappers

  datatype Version = Version(
    prefixed: bool, major: string, minor: string, patch: string,
    pre: Option<string>, build: Option<string>)

  datatype VersionError = InvalidVersion

  // ---------------------------------------------------------------- the grammar

  predicate IsDigit(c: char) {
    '0' <= c <= '9'
  }

  predicate IsTagChar(c: char) {
    'a' <= c <= 'z' || 'A' <= c <= 'Z' || '0' <= c <= '9' || c == '.'
  }

  predicate Number(s: string) {
    s != [] && forall i :: 0 <= i < |s| ==> IsDigit(s[i])
  }

  predicate Tag(t: Option<string>) {
    t.Some? ==> t.value != [] && forall i :: 0 <= i < |t.value| ==> IsTagChar(t.value[i])
  }

  predicate WellFormed(v: Version) {
    Number(v.major) && Number(v.minor) && Number(v.patch) && Tag(v.pre) && Tag(v.build)
  }

  function PrintTag(mark: char, t: Option<string>): string {
    if t.None? then [] else [mark] + t.value
  }

  /** Everything after the optional v. */
  function PrintBare(v: Version): string {
    v.major + ("." + (v.minor + ("." + (v.patch + (PrintTag('-', v.pre) + PrintTag('+', v.build))))))
  }

  function Print(v: Version): string {
    (if v.prefixed then "v" else "") + PrintBare(v)
  }

  // ---------------------------------------------------------------- the scanner

  /** A nonempty run of digits and what follows. */
  function ScanNumber(s: string): Option<(string, string)> {
    var n := Span(s, IsDigit);
    if n == 0 then None else Some((s[..n], s[n..]))
  }

  /** A number and a dot, and what follows. */
  function ScanField(s: string): Option<(string, string)> {
    var n := ScanNumber(s);
    if n.None? || n.value.1 == [] || n.value.1[0] != '.' then None else Some((n.value.0, n.value.1[1..]))
  }

  /** An optional tag: the mark, if it is there, must be followed by at least one tag character. */
  function ScanTag(s: string, mark: char): Option<(Option<string>, string)> {
    if s == [] || s[0] != mark then Some((None, s)) else
    var n := Span(s[1..], IsTagChar);
    if n == 0 then None else Some((Some(s[1..][..n]), s[1..][n..]))
  }

  function ScanTags(s: string): Option<(Option<string>, Option<string>)> {
    var pre := ScanTag(s, '-');
    if pre.None? then None else
    var build := ScanTag(pre.value.1, '+');
    if build.None? || build.value.1 != [] then None else Some((pre.value.0, build.value.0))
  }

  /** The patch number and the tags, to the end. */
  function ScanEnd(s: string): Option<(string, Option<string>, Option<string>)> {
    var patch := ScanNumber(s);
    if patch.None? then None else
    var tags := ScanTags(patch.value.1);
    if tags.None? then None else Some((patch.value.0, tags.value.0, tags.value.1))
  }

  function ScanBare(prefixed: bool, s: string): Option<Version> {
    var major := ScanField(s);
    if major.None? then None else
    var minor := ScanField(major.value.1);
    if minor.None? then None else
    var end := ScanEnd(minor.value.1);
    if end.None? then None
    else Some(Version(prefixed, major.value.0, minor.value.0, end.value.0, end.value.1, end.value.2))
  }

  function Scan(s: string): Option<Version> {
    if s != [] && s[0] == 'v' then ScanBare(true, s[1..]) else ScanBare(false, s)
  }

  // ---------------------------------------------------------------- the scanner meets the grammar

  lemma ScanNumberExact(n: string, rest: string)
    requires Number(n) && (rest == [] || !IsDigit(rest[0]))
    ensures ScanNumber(n + rest) == Some((n, rest))
  {
    SpanExact(n, rest, IsDigit);
  }

  lemma ScanTagExact(t: Option<string>, mark: char, rest: string)
    requires Tag(t) && (rest == [] || (!IsTagChar(rest[0]) && rest[0] != mark))
    ensures ScanTag(PrintTag(mark, t) + rest, mark) == Some((t, rest))
  {
    if t.Some? {
      assert (PrintTag(mark, t) + rest)[1..] == t.value + rest;
      SpanExact(t.value, rest, IsTagChar);
    } else {
      assert PrintTag(mark, t) + rest == rest;
    }
  }

  lemma ScanTagsExact(pre: Option<string>, build: Option<string>)
    requires Tag(pre) && Tag(build)
    ensures ScanTags(PrintTag('-', pre) + PrintTag('+', build)) == Some((pre, build))
  {
    ScanTagExact(pre, '-', PrintTag('+', build));
    ScanTagExact(build, '+', []);
    assert PrintTag('+', build) + [] == PrintTag('+', build);
  }

  lemma ScanFieldExact(n: string, rest: string)
    requires Number(n)
    ensures ScanField(n + ("." + rest)) == Some((n, rest))
  {
    ScanNumberExact(n, "." + rest);
    assert ("." + rest)[1..] == rest;
  }

  lemma ScanEndExact(patch: string, pre: Option<string>, build: Option<string>)
    requires Number(patch) && Tag(pre) && Tag(build)
    ensures ScanEnd(patch + (PrintTag('-', pre) + PrintTag('+', build))) == Some((patch, pre, build))
  {
    ScanTagsExact(pre, build);
    ScanNumberExact(patch, PrintTag('-', pre) + PrintTag('+', build));
  }

  /** Scanning undoes printing. */
  lemma ScanPrint(v: Version)
    requires WellFormed(v)
    ensures Scan(Print(v)) == Some(v)
  {
    ScanBareExact(v);
    AddPrefix(v.prefixed, PrintBare(v));
  }

  lemma ScanBareExact(v: Version)
    requires WellFormed(v)
    ensures ScanBare(v.prefixed, PrintBare(v)) == Some(v)
    ensures PrintBare(v) != [] && PrintBare(v)[0] != 'v'
  {
    var end := v.patch + (PrintTag('-', v.pre) + PrintTag('+', v.build));
    ScanEndExact(v.patch, v.pre, v.build);
    ScanFieldExact(v.minor, end);
    ScanFieldExact(v.major, v.minor + ("." + end));
    assert PrintBare(v)[0] == v.major[0];
  }

  lemma AddPrefix(prefixed: bool, bare: string)
    requires bare != [] && bare[0] != 'v'
    ensures Scan((if prefixed then "v" else "") + bare) == ScanBare(prefixed, bare)
  {
    if prefixed {
      assert ("v" + bare)[1..] == bare;
    } else {
      assert "" + bare == bare;
    }
  }

  lemma ScanTagSound(s: string, mark: char)
    requires ScanTag(s, mark).Some?
    ensures var (t, rest) := ScanTag(s, mark).value; Tag(t) && PrintTag(mark, t) + rest == s
  {
  }

  lemma ScanFieldSound(s: string)
    requires ScanField(s).Some?
    ensures var (n, rest) := ScanField(s).value; Number(n) && n + ("." + rest) == s
  {
    var (n, after) := ScanNumber(s).value;
    assert after == "." + after[1..];
  }

  lemma ScanTagsSound(s: string)
    requires ScanTags(s).Some?
    ensures var (pre, build) := ScanTags(s).value;
            Tag(pre) && Tag(build) && PrintTag('-', pre) + PrintTag('+', build) == s
  {
    ScanTagSound(s, '-');
    var (pre, rest) := ScanTag(s, '-').value;
    ScanTagSound(rest, '+');
    var (build, none) := ScanTag(rest, '+').value;
    assert PrintTag('+', build) + none == PrintTag('+', build);
  }

  lemma ScanEndSound(s: string)
    requires ScanEnd(s).Some?
    ensures var (patch, pre, build) := ScanEnd(s).value;
            && Number(patch) && Tag(pre) && Tag(build)
            && patch + (PrintTag('-', pre) + PrintTag('+', build)) == s
  {
    var (patch, after) := ScanNumber(s).value;
    assert Number(patch) && patch + after == s;
    ScanTagsSound(after);
  }

  lemma ScanBareSound(prefixed: bool, s: string)
    requires ScanBare(prefixed, s).Some?
    ensures var v := ScanBare(prefixed, s).value; WellFormed(v) && v.prefixed == prefixed && PrintBare(v) == s
  {
    var (major, rest) := ScanField(s).value;
    var (minor, end) := ScanField(rest).value;
    ScanFieldSound(s);
    ScanFieldSound(rest);
    ScanEndSound(end);
  }

  /** Printing undoes scanning, and what is scanned is well formed. */
  lemma PrintScan(s: string)
    requires Scan(s).Some?
    ensures WellFormed(Scan(s).value) && Print(Scan(s).value) == s
  {
    if s != [] && s[0] == 'v' {
      ScanBareSound(true, s[1..]);
    } else {
      ScanBareSound(false, s);
    }
  }

  /** The scanner accepts exactly the strings of the grammar, and the split it returns is the only one. */
  lemma ScanExact(s: string, v: Version)
    ensures Scan(s) == Some(v) <==> WellFormed(v) && Print(v) == s
  {
    if Scan(s) == Some(v) {
      PrintScan(s);
    }
    if WellFormed(v) && Print(v) == s {
      ScanPrint(v);
    }
  }

  // ---------------------------------------------------------------- normalisation

  function NormalizeVersion(v: string): Result<string, VersionError> {
    var t := TrimSpace(v);
    if Scan(t).None? then Err(InvalidVersion)
    else if t[0] == 'v' then Ok(t)
    else Ok("v" + t)
  }

  /** Versions that normalisation leaves alone, as it leaves everything that it returns. */
  predicate Normal(version: string) {
    NormalizeVersion(version) == Ok(version)
  }

  function DropV(s: string): string {
    if s != [] && s[0] == 'v' then s[1..] else s
  }

  predicate VersionChar(c: char) {
    IsTagChar(c) || c == '-' || c == '+'
  }

  lemma PrintedChars(v: Version, i: nat)
    requires WellFormed(v) && i < |Print(v)|
    ensures VersionChar(Print(v)[i])
  {
    var tags := PrintTag('-', v.pre) + PrintTag('+', v.build);
    assert forall j :: 0 <= j < |tags| ==> VersionChar(tags[j]);
    assert forall j :: 0 <= j < |PrintBare(v)| ==> VersionChar(PrintBare(v)[j]);
  }

  lemma PrefixedForm(t: string) returns (p: Version)
    requires Scan(t).Some?
    ensures WellFormed(p) && p.prefixed && Print(p) == "v" + DropV(t)
    ensures t != [] && (t[0] == 'v' ==> t == Print(p)) && (t[0] != 'v' ==> "v" + t == Print(p))
  {
    PrintScan(t);
    var q := Scan(t).value;
    p := q.(prefixed := true);
    var bare := PrintBare(q);
    assert bare == PrintBare(p) && bare[0] == q.major[0];
    assert Print(p) == "v" + bare;
    if q.prefixed {
      assert t == Print(p) && t[1..] == bare;
    } else {
      assert Print(q) == "" + bare == bare;
      assert t == bare;
    }
  }

  /** A normalised version is a v followed by a bare version: one parse of the grammar, printed. */
  lemma NormalizedForm(v: string) returns (p: Version)
    requires NormalizeVersion(v).Ok?
    ensures WellFormed(p) && p.prefixed && NormalizeVersion(v).value == Print(p)
    ensures Print(p) == "v" + DropV(TrimSpace(v))
  {
    p := PrefixedForm(TrimSpace(v));
  }

  lemma PrefixedIsNormal(p: Version)
    requires WellFormed(p) && p.prefixed
    ensures NormalizeVersion(Print(p)) == Ok(Print(p))
  {
    var s := Print(p);
    PrintedChars(p, 0);
    PrintedChars(p, |s| - 1);
    TrimNothing(s);
    ScanPrint(p);
  }

  lemma OneNormal(d: char) returns (v: string)
    requires IsDigit(d)
    ensures Normal(v) && |v| > 1 && v[1] == d
  {
    var p := Version(true, [d], [d], [d], None, None);
    PrefixedIsNormal(p);
    v := Print(p);
    assert v == "v" + PrintBare(p);
  }

  /** There is more than one normal version. */
  lemma TwoNormal() returns (v: string, w: string)
    ensures Normal(v) && Normal(w) && v != w
  {
    v := OneNormal('1');
    w := OneNormal('2');
  }

  /** Normalising twice is normalising once. */
  lemma NormalizeIdempotent(v: string)
    requires NormalizeVersion(v).Ok?
    ensures NormalizeVersion(NormalizeVersion(v).value) == NormalizeVersion(v)
  {
    var p := NormalizedForm(v);
    PrefixedIsNormal(p);
  }

  /** Two accepted inputs name the same version exactly when they agree once trimmed and rid of one leading v. */
  lemma NormalizeKernel(a: string, b: string)
    requires NormalizeVersion(a).Ok? && NormalizeVersion(b).Ok?
    ensures NormalizeVersion(a) == NormalizeVersion(b) <==> DropV(TrimSpace(a)) == DropV(TrimSpace(b))
  {
    var p := NormalizedForm(a);
    var q := NormalizedForm(b);
    assert ("v" + DropV(TrimSpace(a)))[1..] == DropV(TrimSpace(a));
    assert ("v" + DropV(TrimSpace(b)))[1..] == DropV(TrimSpace(b));
  }

  /** The text, rid of the white space around it, is one of the grammar's. */
  ghost predicate Grammatical(v: string) {
    exists p :: WellFormed(p) && Print(p) == TrimSpace(v)
  }

  /** Normalising accepts the grammar's texts and answers with one v in front. */
  lemma NormalizeIs(v: string)
    ensures NormalizeVersion(v) == if Grammatical(v) then Ok("v" + DropV(TrimSpace(v))) else Err(InvalidVersion)
  {
    NormalizeAccepts(v);
    if Grammatical(v) {
      var p := NormalizedForm(v);
    }
  }

  /** A v in front makes no difference to what the grammar accepts. */
  lemma OptionalV(bare: string)
    requires bare == "" || bare[0] != 'v'
    ensures Scan(bare).Some? <==> Scan("v" + bare).Some?
  {
    assert ("v" + bare)[1..] == bare;
    AlikeButForV(bare);
  }

  lemma AlikeButForV(bare: string)
    ensures ScanBare(true, bare).Some? <==> ScanBare(false, bare).Some?
  {
  }

  /** Two texts that agree once trimmed and rid of one leading v are treated alike, accepted or not. */
  lemma SpellingsAgree(a: string, b: string)
    requires DropV(TrimSpace(a)) == DropV(TrimSpace(b))
    ensures NormalizeVersion(a) == NormalizeVersion(b)
  {
    var s, t, x := TrimSpace(a), TrimSpace(b), DropV(TrimSpace(a));
    assert s == x || s == "v" + x by {
      assert s != [] && s[0] == 'v' ==> s == "v" + s[1..];
    }
    assert t == x || t == "v" + x by {
      assert t != [] && t[0] == 'v' ==> t == "v" + t[1..];
    }
    if x != [] && x[0] == 'v' {
      assert s == "v" + x == t;
    } else {
      OptionalV(x);
    }
    NormalizeIs(a);
    NormalizeIs(b);
  }

  /** What is accepted is what the grammar describes, white space around it aside. */
  lemma NormalizeAccepts(v: string)
    ensures NormalizeVersion(v).Ok? <==> exists p :: WellFormed(p) && Print(p) == TrimSpace(v)
  {
    if NormalizeVersion(v).Ok? {
      PrintScan(TrimSpace(v));
    }
    if p :| WellFormed(p) && Print(p) == TrimSpace(v) {
      ScanPrint(p);
    }
  }

  lemma NormalizedStartsWithV(v: string)
    requires NormalizeVersion(v).Ok?
    ensures NormalizeVersion(v).value != "" && NormalizeVersion(v).value[0] == 'v'
  {
    var p := NormalizedForm(v);
  }

  lemma NormalizedNotEmpty(v: string)
    requires NormalizeVersion(v).Ok?
    ensures NormalizeVersion(v).value != ""
  {
    var _ := NormalizedForm(v);
  }

  lemma NormalizedHasNoSlash(v: string, i: nat)
    requires NormalizeVersion(v).Ok? && i < |NormalizeVersion(v).value|
    ensures NormalizeVersion(v).value[i] != '/'
  {
    var p := NormalizedForm(v);
    PrintedChars(p, i);
  }
}
