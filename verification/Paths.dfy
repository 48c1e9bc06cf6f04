/**
 Files of the local store: a storage key is put under the base directory and the path is cleaned, so that a
 component "." disappears and ".." takes its predecessor with it. Both are valid identifiers.
 */
module Paths {
  import opened Identifiers
  import opened Text
  import opened Versions
  import opened Wrappers

  /** The components of a cleaned path. */
  type Path = seq<string>

  /** The cleaned base directory. */
  datatype Base = Base(rooted: bool, parts: Path)

  /** One more component. Nothing is above the root; above a relative path there is more. */
  function Enter(rooted: bool, at: Path, part: string): Path {
    if part == "" || part == "." then at
    else if part != ".." then at + [part]
    else if at != [] && at[|at| - 1] != ".." then at[..|at| - 1]
    else if rooted then at
    else at + [part]
  }

  function Clean(rooted: bool, at: Path, parts: seq<string>): Path
    decreases |parts|
  {
    if parts == [] then at else Clean(rooted, Enter(rooted, at, parts[0]), parts[1..])
  }

  /** The file of a storage key. */
  function FileOf(base: Base, key: string): Path {
    Clean(base.rooted, base.parts, Split(key, '/'))
  }

  /** The directory of a type and a name. */
  function Directory(base: Base, artifactType: string, name: string): Path {
    Enter(base.rooted, Enter(base.rooted, base.parts, artifactType), name)
  }

  // ---------------------------------------------------------------- what cleaning does

  /** An ordinary component names something below. */
  predicate Ordinary(part: string) {
    part != "" && part != "." && part != ".."
  }

  /** No component is empty or a dot, two dots stand only at the beginning, and none below the root. */
  ghost predicate Cleaned(rooted: bool, path: Path) {
    && (forall i :: 0 <= i < |path| ==> path[i] != "" && path[i] != ".")
    && (forall i, j :: 0 <= j <= i < |path| && path[i] == ".." ==> path[j] == "..")
    && (rooted ==> forall i :: 0 <= i < |path| ==> path[i] != "..")
  }

  lemma EnterKeepsClean(rooted: bool, at: Path, part: string)
    requires Cleaned(rooted, at)
    ensures Cleaned(rooted, Enter(rooted, at, part))
  {
  }

  lemma {:induction false} CleanIsCleaned(rooted: bool, at: Path, parts: seq<string>)
    requires Cleaned(rooted, at)
    ensures Cleaned(rooted, Clean(rooted, at, parts))
    decreases |parts|
  {
    if parts == [] {
    } else {
      EnterKeepsClean(rooted, at, parts[0]);
      CleanIsCleaned(rooted, Enter(rooted, at, parts[0]), parts[1..]);
    }
  }

  /** Cleaning is done component by component: a dot or nothing stays where one is, an ordinary component goes
      below, and two dots after it come back. */
  lemma CleanSteps(rooted: bool, at: Path, x: string, rest: seq<string>)
    requires Ordinary(x)
    ensures Clean(rooted, at, ["."] + rest) == Clean(rooted, at, rest) == Clean(rooted, at, [""] + rest)
    ensures Clean(rooted, at, [x] + rest) == Clean(rooted, at + [x], rest)
    ensures Clean(rooted, at, [x, ".."] + rest) == Clean(rooted, at, rest)
    ensures Clean(true, [], [".."] + rest) == Clean(true, [], rest)
    ensures Clean(false, [], [".."] + rest) == Clean(false, [".."], rest)
  {
    OneComponent(rooted, at, ".", rest);
    OneComponent(rooted, at, "", rest);
    OneComponent(rooted, at, x, rest);
    OneComponent(true, [], "..", rest);
    OneComponent(false, [], "..", rest);
    OneComponent(rooted, at, x, [".."] + rest);
    OneComponent(rooted, at + [x], "..", rest);
    assert [] + [".."] == [".."];
    assert [x, ".."] + rest == [x] + ([".."] + rest) && (at + [x])[..|at|] == at;
    DotsDiffer();
  }

  lemma OneComponent(rooted: bool, at: Path, part: string, rest: seq<string>)
    ensures Clean(rooted, at, [part] + rest) == Clean(rooted, Enter(rooted, at, part), rest)
  {
    assert ([part] + rest)[1..] == rest;
  }

  lemma DotsDiffer()
    ensures ".." != "." && ".." != "" && "." != ""
  {
    assert |".."| == 2 && |"."| == 1;
  }

  /** A clean path stays as it is. */
  lemma {:induction false} CleanAgain(rooted: bool, path: Path, k: nat)
    requires Cleaned(rooted, path) && k <= |path|
    ensures Clean(rooted, path[..k], path[k..]) == path
    decreases |path| - k
  {
    if k == |path| {
      assert path[..k] == path && path[k..] == [];
    } else {
      assert path[..k] + [path[k]] == path[..k + 1] && path[k..][1..] == path[k + 1..];
      assert Enter(rooted, path[..k], path[k]) == path[..k + 1];
      CleanAgain(rooted, path, k + 1);
    }
  }

  // ---------------------------------------------------------------- which storage keys share a file

  lemma KeyParts(artifactType: string, name: string, version: string)
    requires NoSlash(artifactType) && NoSlash(name) && NoSlash(version)
    ensures Split(StorageKey(artifactType, name, version), '/') == [artifactType, name, version, "artifact"]
  {
    SplitNothing("artifact", '/');
    assert version + "/artifact" == version + (['/'] + "artifact");
    SplitFirst(version, "artifact", '/');
    SplitFirst(name, version + "/artifact", '/');
    SplitFirst(artifactType, name + ("/" + (version + "/artifact")), '/');
  }

  lemma CleanFour(rooted: bool, at: Path, a: string, b: string, c: string, d: string)
    ensures Clean(rooted, at, [a, b, c, d])
              == Enter(rooted, Enter(rooted, Enter(rooted, Enter(rooted, at, a), b), c), d)
  {
    assert [a, b, c, d][1..] == [b, c, d] && [b, c, d][1..] == [c, d] && [c, d][1..] == [d] && [d][1..] == [];
    var at1 := Enter(rooted, at, a);
    var at2 := Enter(rooted, at1, b);
    var at3 := Enter(rooted, at2, c);
    assert Clean(rooted, at3, [d]) == Enter(rooted, at3, d);
    assert Clean(rooted, at2, [c, d]) == Clean(rooted, at3, [d]);
    assert Clean(rooted, at1, [b, c, d]) == Clean(rooted, at2, [c, d]);
  }

  /** Of an accepted triple, the version and the last component are below the directory of type and name. */
  lemma AcceptedFile(base: Base, artifactType: string, name: string, version: string)
    requires Accepted(artifactType, name, version)
    ensures FileOf(base, StorageKey(artifactType, name, version))
              == Directory(base, artifactType, name) + [version, "artifact"]
  {
    AcceptedHasNoSlash(artifactType, name, version);
    KeyParts(artifactType, name, version);
    CleanFour(base.rooted, base.parts, artifactType, name, version, "artifact");
    AcceptedStartsWithV(artifactType, name, version);
    VersionEnters(base, Directory(base, artifactType, name), version);
  }

  lemma VersionEnters(base: Base, at: Path, version: string)
    requires version != "" && version[0] == 'v'
    ensures Enter(base.rooted, Enter(base.rooted, at, version), "artifact") == at + [version, "artifact"]
  {
    assert "."[0] != 'v' && ".."[0] != 'v' && "artifact"[0] != '.';
    assert at + [version] + ["artifact"] == at + [version, "artifact"];
  }

  lemma AcceptedStartsWithV(artifactType: string, name: string, version: string)
    requires Accepted(artifactType, name, version)
    ensures version != "" && version[0] == 'v'
  {
    var v :| NormalizeVersion(v) == Ok(version);
    NormalizedStartsWithV(v);
  }

  /** Two accepted triples share a file exactly when they agree on the version and on the directory that type
      and name lead to. */
  lemma SharesFileIff(base: Base, type1: string, name1: string, version1: string,
                      type2: string, name2: string, version2: string)
    requires Accepted(type1, name1, version1) && Accepted(type2, name2, version2)
    ensures FileOf(base, StorageKey(type1, name1, version1)) == FileOf(base, StorageKey(type2, name2, version2))
            <==> version1 == version2 && Directory(base, type1, name1) == Directory(base, type2, name2)
  {
    AcceptedFile(base, type1, name1, version1);
    AcceptedFile(base, type2, name2, version2);
    SameEnds(Directory(base, type1, name1), version1, Directory(base, type2, name2), version2, "artifact");
  }

  lemma SameEnds(a: Path, x: string, b: Path, y: string, last: string)
    ensures a + [x, last] == b + [y, last] <==> a == b && x == y
  {
    if a + [x, last] == b + [y, last] {
      assert |a| == |b|;
      assert a == (a + [x, last])[..|a|] && b == (b + [y, last])[..|b|];
      assert (a + [x, last])[|a|] == x && (b + [y, last])[|b|] == y;
    }
  }

  predicate Dots(identifier: string) {
    identifier == "." || identifier == ".."
  }

  /** The directory of a type and a name that are not dots is that of no other type and name. */
  lemma PlainDirectory(base: Base, type1: string, name1: string, type2: string, name2: string)
    requires type1 != "" && name1 != "" && type2 != "" && name2 != "" && !Dots(type1) && !Dots(name1)
    ensures Directory(base, type1, name1) == Directory(base, type2, name2) <==> type1 == type2 && name1 == name2
  {
    var b := base.parts;
    assert Directory(base, type1, name1) == b + [type1] + [name1] == b + [type1, name1];
    if Directory(base, type2, name2) == b + [type1, name1] {
      var at := Enter(base.rooted, b, type2);
      assert |at| <= |b| + 1 && |Enter(base.rooted, at, name2)| <= |at| + 1;
      assert at == b + [type2] && Enter(base.rooted, at, name2) == b + [type2] + [name2];
      assert (b + [type2] + [name2])[|b|] == type2 && (b + [type1, name1])[|b|] == type1;
      assert (b + [type2] + [name2])[|b| + 1] == name2 && (b + [type1, name1])[|b| + 1] == name1;
    }
  }

  /** A triple without dots shares its file with no other accepted triple. */
  lemma PlainIsApart(base: Base, type1: string, name1: string, version1: string,
                     type2: string, name2: string, version2: string)
    requires Accepted(type1, name1, version1) && Accepted(type2, name2, version2)
    requires !Dots(type1) && !Dots(name1)
    ensures FileOf(base, StorageKey(type1, name1, version1)) == FileOf(base, StorageKey(type2, name2, version2))
            <==> type1 == type2 && name1 == name2 && version1 == version2
  {
    SharesFileIff(base, type1, name1, version1, type2, name2, version2);
    ValidNotEmpty(type1);
    ValidNotEmpty(name1);
    ValidNotEmpty(type2);
    ValidNotEmpty(name2);
    PlainDirectory(base, type1, name1, type2, name2);
  }

  // ---------------------------------------------------------------- exactly which identifiers merge files

  ghost predicate Apart(base: Base, type1: string, name1: string, type2: string, name2: string, version: string) {
    FileOf(base, StorageKey(type1, name1, version)) == FileOf(base, StorageKey(type2, name2, version))
    ==> type1 == type2 && name1 == name2
  }

  /** Over these identifiers and any version, different types and names have different files. */
  ghost predicate AllApart(base: Base, identifiers: set<string>) {
    forall type1, name1, type2, name2, version ::
      type1 in identifiers && name1 in identifiers && type2 in identifiers && name2 in identifiers && Normal(version)
      ==> Apart(base, type1, name1, type2, name2, version)
  }

  /** A dot as type or as name leads to the same directory. */
  lemma DotMerges(base: Base, x: string)
    requires !Dots(x) && x != ""
    ensures Directory(base, ".", x) == Directory(base, x, ".")
  {
  }

  /** Two dots as the name take the type away. */
  lemma DotDotMerges(base: Base, x: string, y: string)
    requires !Dots(x) && x != "" && !Dots(y) && y != ""
    ensures Directory(base, x, "..") == Directory(base, y, "..")
  {
    assert (base.parts + [x])[..|base.parts|] == base.parts == (base.parts + [y])[..|base.parts|];
  }

  lemma MergedFiles(base: Base, identifiers: set<string>, type1: string, name1: string, type2: string, name2: string)
    requires forall x :: x in identifiers ==> ValidIdentifier(x)
    requires type1 in identifiers && name1 in identifiers && type2 in identifiers && name2 in identifiers
    requires Directory(base, type1, name1) == Directory(base, type2, name2) && (type1 != type2 || name1 != name2)
    ensures !AllApart(base, identifiers)
  {
    var version, other := TwoNormal();
    assert NormalizeVersion(version) == Ok(version);
    SharesFileIff(base, type1, name1, version, type2, name2, version);
    assert !Apart(base, type1, name1, type2, name2, version);
  }

  /** Of valid identifiers, two of which are not dots, all types, names and versions have files of their own
      exactly when neither "." nor ".." is among them. */
  lemma AllApartIff(base: Base, identifiers: set<string>, x: string, y: string)
    requires forall i :: i in identifiers ==> ValidIdentifier(i)
    requires x in identifiers && y in identifiers && x != y && !Dots(x) && !Dots(y)
    ensures AllApart(base, identifiers) <==> "." !in identifiers && ".." !in identifiers
  {
    ValidNotEmpty(x);
    ValidNotEmpty(y);
    if "." in identifiers {
      DotMerges(base, x);
      MergedFiles(base, identifiers, ".", x, x, ".");
    } else if ".." in identifiers {
      DotDotMerges(base, x, y);
      MergedFiles(base, identifiers, x, "..", y, "..");
    } else {
      forall type1, name1, type2, name2, version |
        type1 in identifiers && name1 in identifiers && type2 in identifiers && name2 in identifiers && Normal(version)
        ensures Apart(base, type1, name1, type2, name2, version)
      {
        assert NormalizeVersion(version) == Ok(version);
        PlainIsApart(base, type1, name1, version, type2, name2, version);
      }
    }
  }

  /** Both dots are valid identifiers. */
  lemma DotsAreValid()
    ensures ValidIdentifier(".") && ValidIdentifier("..")
  {
    TrimNothing(".");
    TrimNothing("..");
  }
}
