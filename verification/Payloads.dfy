/**
 The data objects inside the events, and what a receiver of a signed body reads in them.
 */
module Payloads {
  import opened Decimals
  import opened Envelope
  import opened Json
  import opened Wrappers

  function ArtifactUploadedData(artifactId: string, version: string, sha256: string, sizeBytes: nat): Value {
    Object(Member("artifact_id", Text(artifactId), Member("version", Text(version),
           Member("sha256", Text(sha256), Member("size_bytes", Number(sizeBytes), End)))))
  }

  function ChannelEventData(channel: string, fromVersion: string, toVersion: string): Value {
    Object(Member("channel", Text(channel), Member("from_version", Text(fromVersion),
           Member("to_version", Text(toVersion), End))))
  }

  /** The members of an object, values as raw text. */
  function FieldsOf(ms: Members): seq<Field> {
    match ms
    case End => []
    case Member(key, value, rest) => [Field(key, Write(value))] + FieldsOf(rest)
  }

  lemma {:induction false} MembersAreFields(ms: Members)
    requires ms != End
    ensures FieldsOf(ms) != [] && WriteMembers(ms) == WriteFields(FieldsOf(ms))
    ensures forall i :: 0 <= i < |FieldsOf(ms)| ==> Skippable(FieldsOf(ms)[i].raw)
  {
    var first := Field(ms.key, Write(ms.value));
    WriteSkippable(ms.value);
    if ms.rest == End {
      assert FieldsOf(ms) == [first];
    } else {
      MembersAreFields(ms.rest);
      WriteMore(first, FieldsOf(ms.rest));
    }
  }

  /** Every written object reads back, member by member. */
  lemma ObjectReadsBack(ms: Members)
    requires ms != End
    ensures ReadObject(Write(Object(ms))) == Some(FieldsOf(ms))
  {
    MembersAreFields(ms);
    FieldsReadBack(FieldsOf(ms));
    BracedReadsBack(FieldsOf(ms), Write(Object(ms)));
  }

  lemma ChannelFields(channel: string, fromVersion: string, toVersion: string)
    ensures var fs := FieldsOf(ChannelEventData(channel, fromVersion, toVersion).members);
            && TextField(fs, "channel") == Some(channel)
            && TextField(fs, "from_version") == Some(fromVersion)
            && TextField(fs, "to_version") == Some(toVersion)
  {
    var fs := [Field("channel", Quote(channel)), Field("from_version", Quote(fromVersion)),
               Field("to_version", Quote(toVersion))];
    var last := Member("to_version", Text(toVersion), End);
    assert FieldsOf(last) == [fs[2]];
    assert FieldsOf(Member("from_version", Text(fromVersion), last)) == [fs[1], fs[2]];
    assert FieldsOf(ChannelEventData(channel, fromVersion, toVersion).members) == fs;
    LookupEarlier(fs, 0);
    LookupEarlier(fs, 1);
    QuoteReadsBack(channel);
    QuoteReadsBack(fromVersion);
    QuoteReadsBack(toVersion);
  }

  /** A receiver who has checked the body of a channel event reads in its data the channel, the version left
      behind and the version now active. */
  lemma ChannelEventReadsBack(mac: Mac, secret: string, src: Source, channel: string, fromVersion: string,
                              toVersion: string)
    returns (letter: Letter, fs: seq<Field>)
    requires src.data == ChannelEventData(channel, fromVersion, toVersion)
    ensures Sign(mac, secret, Unsigned(src)) == Some(letter) && Verifies(mac, secret, letter.body, letter.signature)
    ensures Unmarshal(letter.body).Some? && ReadObject(Unmarshal(letter.body).value.data) == Some(fs)
    ensures TextField(fs, "channel") == Some(channel)
    ensures TextField(fs, "from_version") == Some(fromVersion)
    ensures TextField(fs, "to_version") == Some(toVersion)
  {
    letter, fs := SignedData(mac, secret, src);
    ChannelFields(channel, fromVersion, toVersion);
  }

  /** The data of a signed body reads back as the members that were written. */
  lemma SignedData(mac: Mac, secret: string, src: Source) returns (letter: Letter, fs: seq<Field>)
    requires src.data.Object? && src.data.members != End
    ensures Sign(mac, secret, Unsigned(src)) == Some(letter) && Verifies(mac, secret, letter.body, letter.signature)
    ensures Unmarshal(letter.body).Some? && ReadObject(Unmarshal(letter.body).value.data) == Some(fs)
    ensures fs == FieldsOf(src.data.members)
  {
    SignedVerifies(mac, secret, src);
    letter := Sign(mac, secret, Unsigned(src)).value;
    ObjectReadsBack(src.data.members);
    fs := FieldsOf(src.data.members);
  }

  /** A number without a sign: digits, with no zero in front of others. */
  function NumberField(fs: seq<Field>, key: string): Option<nat> {
    var raw := Lookup(fs, key);
    if raw.None? || raw.value == "" || !AllDigits(raw.value) || (raw.value[0] == '0' && |raw.value| > 1) then None
    else Some(ValueOf(raw.value))
  }

  lemma ArtifactFields(artifactId: string, version: string, sha256: string, sizeBytes: nat)
    ensures var fs := FieldsOf(ArtifactUploadedData(artifactId, version, sha256, sizeBytes).members);
            && TextField(fs, "artifact_id") == Some(artifactId)
            && TextField(fs, "version") == Some(version)
            && TextField(fs, "sha256") == Some(sha256)
            && NumberField(fs, "size_bytes") == Some(sizeBytes)
  {
    var fs := [Field("artifact_id", Quote(artifactId)), Field("version", Quote(version)),
               Field("sha256", Quote(sha256)), Field("size_bytes", WriteNumber(sizeBytes))];
    var last := Member("size_bytes", Number(sizeBytes), End);
    assert FieldsOf(last) == [fs[3]];
    var lastTwo := Member("sha256", Text(sha256), last);
    assert FieldsOf(lastTwo) == [fs[2], fs[3]];
    assert FieldsOf(Member("version", Text(version), lastTwo)) == [fs[1], fs[2], fs[3]];
    assert FieldsOf(ArtifactUploadedData(artifactId, version, sha256, sizeBytes).members) == fs;
    LookupEarlier(fs, 0);
    LookupEarlier(fs, 1);
    LookupEarlier(fs, 2);
    QuoteReadsBack(artifactId);
    QuoteReadsBack(version);
    QuoteReadsBack(sha256);
    DigitsAreDigits(sizeBytes);
    DigitsValue(sizeBytes);
  }

  /** And in the data of an upload event the artifact, its version, digest and size. */
  lemma ArtifactEventReadsBack(mac: Mac, secret: string, src: Source,
                               artifactId: string, version: string, sha256: string, sizeBytes: nat)
    returns (letter: Letter, fs: seq<Field>)
    requires src.data == ArtifactUploadedData(artifactId, version, sha256, sizeBytes)
    ensures Sign(mac, secret, Unsigned(src)) == Some(letter) && Verifies(mac, secret, letter.body, letter.signature)
    ensures Unmarshal(letter.body).Some? && ReadObject(Unmarshal(letter.body).value.data) == Some(fs)
    ensures TextField(fs, "artifact_id") == Some(artifactId)
    ensures TextField(fs, "version") == Some(version)
    ensures TextField(fs, "sha256") == Some(sha256)
    ensures NumberField(fs, "size_bytes") == Some(sizeBytes)
  {
    letter, fs := SignedData(mac, secret, src);
    ArtifactFields(artifactId, version, sha256, sizeBytes);
  }
}
