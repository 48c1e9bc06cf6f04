/**
 API keys: the entry list built from three comma-separated settings, and the first-match lookup over it.
 */
module Auth {
  import opened Text

  const READ := "read"
  const WRITE := "write"
  const ADMIN := "admin"

  datatype KeyEntry = KeyEntry(key: string, scopes: seq<string>)

  // ---------------------------------------------------------------- lookup

  /** Whether one of the entry's scopes gives the required one. */
  predicate Grants(scopes: seq<string>, required: string) {
    scopes != [] &&
    (scopes[0] == required || scopes[0] == ADMIN || (required == READ && scopes[0] == WRITE)
     || Grants(scopes[1..], required))
  }

  /** The first entry with the key decides, and says no when its scopes do not give the required one. */
  predicate FirstMatch(entries: seq<KeyEntry>, key: string, required: string) {
    entries != [] &&
    (if entries[0].key == key then Grants(entries[0].scopes, required)
     else FirstMatch(entries[1..], key, required))
  }

  predicate Allowed(entries: seq<KeyEntry>, enabled: bool, key: string, required: string) {
    !enabled || (key != "" && FirstMatch(entries, key, required))
  }

  predicate Authenticated(entries: seq<KeyEntry>, enabled: bool, key: string) {
    !enabled || exists i :: 0 <= i < |entries| && entries[i].key == key
  }

  // ---------------------------------------------------------------- the entry list

  function EntriesFor(keys: seq<string>, scopes: seq<string>): seq<KeyEntry> {
    seq(|keys|, i requires 0 <= i < |keys| => KeyEntry(keys[i], scopes))
  }

  const ADMIN_SCOPES := [ADMIN, WRITE, READ]
  const WRITE_SCOPES := [WRITE, READ]
  const READ_SCOPES := [READ]

  function Entries(admins: seq<string>, writers: seq<string>, readers: seq<string>): seq<KeyEntry> {
    EntriesFor(admins, ADMIN_SCOPES) + (EntriesFor(writers, WRITE_SCOPES) + EntriesFor(readers, READ_SCOPES))
  }

  /** The trimmed pieces that are not blank, in order. */
  function NonBlank(pieces: seq<string>): seq<string> {
    if pieces == [] then [] else
    var last := TrimSpace(pieces[|pieces| - 1]);
    NonBlank(pieces[..|pieces| - 1]) + (if last != "" then [last] else [])
  }

  /** The key stands between the commas of the setting, with white space around it. */
  ghost predicate IsKeyOf(key: string, piece: string) {
    key != "" && Edgeless(key) && Around(piece, key)
  }

  ghost predicate Configured(setting: string, key: string) {
    exists piece :: piece in Split(setting, ',') && IsKeyOf(key, piece)
  }

  /** The keys are those of the pieces at these positions, in their order, and every piece that is not all
      white space has its key. */
  ghost predicate KeysOf(keys: seq<string>, pieces: seq<string>, at: seq<nat>) {
    && |at| == |keys|
    && (forall i :: 0 <= i < |at| ==> at[i] < |pieces| && IsKeyOf(keys[i], pieces[at[i]]))
    && (forall i, j :: 0 <= i < j < |at| ==> at[i] < at[j])
    && (forall j :: 0 <= j < |pieces| && !Spaces(pieces[j]) ==> j in at)
  }

  lemma TrimIsKey(piece: string)
    ensures TrimSpace(piece) == "" <==> Spaces(piece)
    ensures forall key :: IsKeyOf(key, piece) <==> key == TrimSpace(piece) != ""
  {
    TrimSpaceIff(piece, "");
    assert Spaces(piece) ==> Around(piece, "") by {
      assert Spaces([]) && piece == piece + "" + [];
    }
    if Around(piece, "") {
      var a, b :| Spaces(a) && Spaces(b) && piece == a + "" + b;
      assert Spaces(piece);
    }
    forall key ensures IsKeyOf(key, piece) <==> key == TrimSpace(piece) != "" {
      TrimSpaceIff(piece, key);
    }
  }

  /** The piece after these adds its key, if it has one. */
  lemma OneMorePiece(keys: seq<string>, pieces: seq<string>, at: seq<nat>, piece: string)
    requires KeysOf(keys, pieces, at)
    ensures var k := TrimSpace(piece);
            if k != "" then KeysOf(keys + [k], pieces + [piece], at + [|pieces|])
            else KeysOf(keys, pieces + [piece], at)
  {
    TrimIsKey(piece);
    var more := pieces + [piece];
    assert forall j :: 0 <= j < |pieces| ==> more[j] == pieces[j];
    if TrimSpace(piece) != "" {
      assert forall j :: j in at ==> j in at + [|pieces|];
    }
  }

  lemma {:induction false} NonBlankKeys(pieces: seq<string>) returns (at: seq<nat>)
    ensures KeysOf(NonBlank(pieces), pieces, at)
  {
    if pieces == [] {
      at := [];
    } else {
      var earlier, last := pieces[..|pieces| - 1], pieces[|pieces| - 1];
      at := NonBlankKeys(earlier);
      OneMorePiece(NonBlank(earlier), earlier, at, last);
      assert pieces == earlier + [last];
      if TrimSpace(last) != "" {
        at := at + [|earlier|];
      }
    }
  }

  /** What the setting configures is what its list holds. */
  lemma ConfiguredIff(setting: string, key: string)
    ensures key in NonBlank(Split(setting, ',')) <==> Configured(setting, key)
  {
    var pieces := Split(setting, ',');
    var keys := NonBlank(pieces);
    var at := NonBlankKeys(pieces);
    if key in keys {
      var i :| 0 <= i < |keys| && keys[i] == key;
      assert IsKeyOf(key, pieces[at[i]]);
    }
    if Configured(setting, key) {
      var piece :| piece in pieces && IsKeyOf(key, piece);
      var j :| 0 <= j < |pieces| && pieces[j] == piece;
      TrimIsKey(piece);
      var i :| 0 <= i < |at| && at[i] == j;
      assert keys[i] == key;
    }
  }

  method SplitKeys(s: string) returns (keys: seq<string>)
    ensures keys == NonBlank(Split(s, ','))
    ensures forall k :: k in keys <==> Configured(s, k)
    ensures exists at :: KeysOf(keys, Split(s, ','), at)
  {
    var pieces := Split(s, ',');
    keys := [];
    for i := 0 to |pieces|
      invariant keys == NonBlank(pieces[..i])
    {
      assert pieces[..i + 1][..i] == pieces[..i];
      var k := TrimSpace(pieces[i]);
      if k != "" {
        keys := keys + [k];
      }
    }
    assert pieces[..|pieces|] == pieces;
    forall k ensures k in keys <==> Configured(s, k) {
      ConfiguredIff(s, k);
    }
    ghost var at := NonBlankKeys(pieces);
  }

  method AppendEntries(entries: seq<KeyEntry>, keys: seq<string>, scopes: seq<string>) returns (longer: seq<KeyEntry>)
    ensures longer == entries + EntriesFor(keys, scopes)
  {
    longer := entries;
    for i := 0 to |keys|
      invariant longer == entries + EntriesFor(keys[..i], scopes)
    {
      longer := longer + [KeyEntry(keys[i], scopes)];
      assert EntriesFor(keys[..i + 1], scopes) == EntriesFor(keys[..i], scopes) + [KeyEntry(keys[i], scopes)];
    }
    assert keys[..|keys|] == keys;
  }

  /** Administrators first, then writers, then readers. */
  method LoadKeys(adminKeys: string, writeKeys: string, readKeys: string) returns (entries: seq<KeyEntry>)
    ensures entries == Entries(NonBlank(Split(adminKeys, ',')), NonBlank(Split(writeKeys, ',')),
                               NonBlank(Split(readKeys, ',')))
    ensures forall enabled, key, required :: Allowed(entries, enabled, key, required)
              <==> !enabled || Rights(adminKeys, writeKeys, readKeys, key, required)
  {
    var admins := SplitKeys(adminKeys);
    var writers := SplitKeys(writeKeys);
    var readers := SplitKeys(readKeys);
    entries := AppendAll(admins, writers, readers);
    forall enabled, key, required
      ensures Allowed(entries, enabled, key, required)
              <==> !enabled || Rights(adminKeys, writeKeys, readKeys, key, required)
    {
      AllowedIsUnion(adminKeys, writeKeys, readKeys, enabled, key, required);
    }
  }

  /** What the three settings give a key, whatever their order: an administrator everything, a writer writing
      and reading, a reader reading. */
  ghost predicate Rights(adminKeys: string, writeKeys: string, readKeys: string, key: string, required: string) {
    || Configured(adminKeys, key)
    || (Configured(writeKeys, key) && (required == "write" || required == "read"))
    || (Configured(readKeys, key) && required == "read")
  }

  method AppendAll(admins: seq<string>, writers: seq<string>, readers: seq<string>) returns (entries: seq<KeyEntry>)
    ensures entries == Entries(admins, writers, readers)
  {
    entries := AppendEntries([], admins, ADMIN_SCOPES);
    entries := AppendEntries(entries, writers, WRITE_SCOPES);
    entries := AppendEntries(entries, readers, READ_SCOPES);
    AppendThree(EntriesFor(admins, ADMIN_SCOPES), EntriesFor(writers, WRITE_SCOPES), EntriesFor(readers, READ_SCOPES));
  }

  lemma AppendThree<T>(a: seq<T>, b: seq<T>, c: seq<T>)
    ensures [] + a + b + c == a + (b + c)
  {
    assert [] + a == a;
  }

  // ---------------------------------------------------------------- first match is the union

  /** What the three lists give a key, whatever their order: an administrator everything, a writer writing
      and reading, a reader reading. */
  predicate Union(admins: seq<string>, writers: seq<string>, readers: seq<string>, key: string, required: string) {
    || key in admins
    || (key in writers && (required == WRITE || required == READ))
    || (key in readers && required == READ)
  }

  lemma {:induction false} FirstMatchIn(keys: seq<string>, scopes: seq<string>, rest: seq<KeyEntry>, key: string,
                                        required: string)
    ensures FirstMatch(EntriesFor(keys, scopes) + rest, key, required)
              == if key in keys then Grants(scopes, required) else FirstMatch(rest, key, required)
  {
    var all := EntriesFor(keys, scopes) + rest;
    if keys == [] {
      assert all == rest;
    } else {
      assert all[1..] == EntriesFor(keys[1..], scopes) + rest;
      FirstMatchIn(keys[1..], scopes, rest, key, required);
    }
  }

  lemma GrantedScopes(required: string)
    ensures Grants(ADMIN_SCOPES, required)
    ensures Grants(WRITE_SCOPES, required) <==> required == WRITE || required == READ
    ensures Grants(READ_SCOPES, required) <==> required == READ
  {
    assert WRITE[0] != ADMIN[0] && READ[0] != ADMIN[0] && READ[0] != WRITE[0];
    assert WRITE_SCOPES[1..] == [READ] && WRITE_SCOPES[1..][1..] == [];
    assert Grants([READ], required) <==> required == READ;
  }

  ghost predicate Gives(scope: string, required: string) {
    scope == required || scope == "admin" || (required == "read" && scope == "write")
  }

  ghost predicate Opens(entry: KeyEntry, required: string) {
    exists scope :: scope in entry.scopes && Gives(scope, required)
  }

  ghost predicate FirstWith(entries: seq<KeyEntry>, key: string, i: nat) {
    i < |entries| && entries[i].key == key && forall j :: 0 <= j < i ==> entries[j].key != key
  }

  lemma {:induction false} GrantsIff(scopes: seq<string>, required: string)
    ensures Grants(scopes, required) <==> exists scope :: scope in scopes && Gives(scope, required)
  {
    if scopes != [] {
      GrantsIff(scopes[1..], required);
      assert scopes == [scopes[0]] + scopes[1..];
      assert Gives(scopes[0], required) ==> scopes[0] in scopes;
    }
  }

  lemma {:induction false} FirstMatchIff(entries: seq<KeyEntry>, key: string, required: string)
    ensures FirstMatch(entries, key, required)
            <==> exists i: nat :: FirstWith(entries, key, i) && Grants(entries[i].scopes, required)
  {
    if entries == [] {
    } else if entries[0].key == key {
      assert FirstWith(entries, key, 0);
    } else {
      var rest := entries[1..];
      FirstMatchIff(rest, key, required);
      assert forall i: nat :: FirstWith(rest, key, i) ==> FirstWith(entries, key, i + 1) && entries[i + 1] == rest[i];
      assert forall i: nat :: FirstWith(entries, key, i) ==> i > 0 && FirstWith(rest, key, i - 1);
    }
  }

  /** For any store of keys: the empty key is never let in, and of the others the first entry alone decides. */
  lemma AllowedIff(entries: seq<KeyEntry>, enabled: bool, key: string, required: string)
    ensures Allowed(entries, enabled, key, required)
            <==> !enabled || (key != "" && exists i: nat :: FirstWith(entries, key, i) && Opens(entries[i], required))
  {
    FirstMatchIff(entries, key, required);
    forall i: nat | FirstWith(entries, key, i)
      ensures Grants(entries[i].scopes, required) <==> Opens(entries[i], required)
    {
      GrantsIff(entries[i].scopes, required);
    }
  }

  /** Because the lists are appended from most to least privileged, the early refusal of the first-match
      lookup loses nothing, even for a key that stands in several lists. */
  lemma FirstMatchIsUnion(admins: seq<string>, writers: seq<string>, readers: seq<string>, key: string,
                          required: string)
    ensures FirstMatch(Entries(admins, writers, readers), key, required)
              == Union(admins, writers, readers, key, required)
  {
    var w, r := EntriesFor(writers, WRITE_SCOPES), EntriesFor(readers, READ_SCOPES);
    FirstMatchIn(admins, ADMIN_SCOPES, w + r, key, required);
    FirstMatchIn(writers, WRITE_SCOPES, r, key, required);
    FirstMatchIn(readers, READ_SCOPES, [], key, required);
    assert r + [] == r;
    GrantedScopes(required);
  }

  /** For the configured lists, access is their order-free union, for every key and scope. */
  lemma AllowedIsUnion(adminKeys: string, writeKeys: string, readKeys: string, enabled: bool, key: string,
                       required: string)
    ensures Allowed(Entries(NonBlank(Split(adminKeys, ',')), NonBlank(Split(writeKeys, ',')),
                            NonBlank(Split(readKeys, ','))), enabled, key, required)
            <==> !enabled || Rights(adminKeys, writeKeys, readKeys, key, required)
  {
    FirstMatchIsUnion(NonBlank(Split(adminKeys, ',')), NonBlank(Split(writeKeys, ',')),
                      NonBlank(Split(readKeys, ',')), key, required);
    ConfiguredIff(adminKeys, key);
    ConfiguredIff(writeKeys, key);
    ConfiguredIff(readKeys, key);
  }

  /** Scopes are additive (admin gives write gives read), and holding any configured key is the same as
      being allowed to read. */
  lemma ScopesAreMonotone(adminKeys: string, writeKeys: string, readKeys: string, enabled: bool, key: string)
    ensures var entries := Entries(NonBlank(Split(adminKeys, ',')), NonBlank(Split(writeKeys, ',')),
                                   NonBlank(Split(readKeys, ',')));
            && (Allowed(entries, enabled, key, "admin") ==> Allowed(entries, enabled, key, "write"))
            && (Allowed(entries, enabled, key, "write") ==> Allowed(entries, enabled, key, "read"))
            && (Authenticated(entries, enabled, key) <==> Allowed(entries, enabled, key, "read"))
  {
    AllowedIsUnion(adminKeys, writeKeys, readKeys, enabled, key, "admin");
    AllowedIsUnion(adminKeys, writeKeys, readKeys, enabled, key, "write");
    AllowedIsUnion(adminKeys, writeKeys, readKeys, enabled, key, "read");
    RightsByScope(adminKeys, writeKeys, readKeys, key);
    AuthenticatedIff(adminKeys, writeKeys, readKeys, enabled, key);
  }

  lemma RightsByScope(adminKeys: string, writeKeys: string, readKeys: string, key: string)
    ensures Rights(adminKeys, writeKeys, readKeys, key, "admin") <==> Configured(adminKeys, key)
    ensures Rights(adminKeys, writeKeys, readKeys, key, "write")
            <==> Configured(adminKeys, key) || Configured(writeKeys, key)
    ensures Rights(adminKeys, writeKeys, readKeys, key, "read")
            <==> Configured(adminKeys, key) || Configured(writeKeys, key) || Configured(readKeys, key)
  {
    assert "write"[0] != "admin"[0] && "read"[0] != "admin"[0] && "read"[0] != "write"[0];
  }

  /** A key is known exactly when one of the settings configures it. */
  lemma AuthenticatedIff(adminKeys: string, writeKeys: string, readKeys: string, enabled: bool, key: string)
    ensures Authenticated(Entries(NonBlank(Split(adminKeys, ',')), NonBlank(Split(writeKeys, ',')),
                                  NonBlank(Split(readKeys, ','))), enabled, key)
            <==> !enabled || Configured(adminKeys, key) || Configured(writeKeys, key) || Configured(readKeys, key)
  {
    ConfiguredIff(adminKeys, key);
    ConfiguredIff(writeKeys, key);
    ConfiguredIff(readKeys, key);
    KeysOfEntries(NonBlank(Split(adminKeys, ',')), NonBlank(Split(writeKeys, ',')),
                  NonBlank(Split(readKeys, ',')), key);
  }

  lemma KeysOfEntries(admins: seq<string>, writers: seq<string>, readers: seq<string>, key: string)
    ensures var entries := Entries(admins, writers, readers);
            (exists i :: 0 <= i < |entries| && entries[i].key == key)
            <==> key in admins || key in writers || key in readers
  {
    var entries, a, w := Entries(admins, writers, readers), |admins|, |writers|;
    if key in admins {
      var i :| 0 <= i < a && admins[i] == key;
      assert entries[i].key == key;
    }
    if key in writers {
      var i :| 0 <= i < w && writers[i] == key;
      assert entries[a + i].key == key;
    }
    if key in readers {
      var i :| 0 <= i < |readers| && readers[i] == key;
      assert entries[a + w + i].key == key;
    }
  }

  /** In another order the early refusal does lose rights: a key listed as reader before administrator. */
  lemma OrderMatters(key: string)
    ensures var entries := [KeyEntry(key, READ_SCOPES), KeyEntry(key, ADMIN_SCOPES)];
            && !FirstMatch(entries, key, ADMIN)
            && FirstMatch([entries[1], entries[0]], key, ADMIN)
  {
    GrantedScopes(ADMIN);
    assert READ[0] != ADMIN[0];
  }
}
