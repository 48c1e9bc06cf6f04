/**
 The signed event envelope. The signature is a MAC of the envelope with an empty signature field;
 a receiver parses the body, blanks the field, marshals again and compares. The MAC itself
 (HMAC-SHA256 in hex, section 2 of RFC 2104) is any function of a secret and a text.
 */
module Envelope {
  import opened Json
  import opened Wrappers

  type Mac = (string, string) -> string

  /** `data` is raw JSON, kept as text. */
  datatype Event = Event(
    eventId: string, eventType: string, timestamp: string, aggregateKey: string,
    data: string, signature: string)

  /** What the dispatcher sends for one event: the signed body and the X-Signature header. */
  datatype Letter = Letter(eventId: string, eventType: string, aggregateKey: string, body: string, signature: string)

  // ---------------------------------------------------------------- marshalling

  datatype Field = Field(key: string, raw: string)

  /** The envelope's fields in struct order, each with the JSON text of its value. */
  function Fields(e: Event): seq<Field> {
    [Field("event_id", Quote(e.eventId)), Field("event_type", Quote(e.eventType)),
     Field("timestamp", Quote(e.timestamp)), Field("aggregate_key", Quote(e.aggregateKey)),
     Field("data", Compact(e.data, Outside)), Field("signature", Quote(e.signature))]
  }

  function WriteFields(fs: seq<Field>): string
    requires fs != []
  {
    Quote(fs[0].key) + ":" + fs[0].raw + (if |fs| == 1 then "}" else "," + WriteFields(fs[1..]))
  }

  /** Fails, as the encoder does, when the raw data is not one value, here of those that the scanner reads. */
  function Marshal(e: Event): Option<string> {
    if SkipValue(e.data) != Some("") then None else Some("{" + WriteFields(Fields(e)))
  }

  // ---------------------------------------------------------------- unmarshalling

  /** The members of an object whose opening brace has been read, values as raw text. */
  function ReadFields(s: string): Option<(seq<Field>, string)>
    decreases |s|
  {
    var m := ReadMember(s);
    if m.None? then None else
    var after := m.value.1;
    var v := SkipValue(after);
    if v.None? || v.value == [] then None else
    var field := Field(m.value.0, after[..|after| - |v.value|]);
    if v.value[0] == '}' then Some(([field], v.value[1..]))
    else if v.value[0] != ',' then None
    else
      var more := ReadFields(v.value[1..]);
      if more.None? then None else Some(([field] + more.value.0, more.value.1))
  }

  /** The raw value of a key; of several, the last. */
  function Lookup(fs: seq<Field>, key: string): Option<string> {
    if fs == [] then None
    else if fs[|fs| - 1].key == key then Some(fs[|fs| - 1].raw)
    else Lookup(fs[..|fs| - 1], key)
  }

  /** A string field: empty when absent, refused when its value is not a string. */
  function TextField(fs: seq<Field>, key: string): Option<string> {
    var raw := Lookup(fs, key);
    if raw.None? then Some("") else
    var t := ReadText(raw.value);
    if t.None? || t.value.1 != [] then None else Some(t.value.0)
  }

  function EventOf(fs: seq<Field>): Option<Event> {
    var (id, kind, time, key, sig) := (TextField(fs, "event_id"), TextField(fs, "event_type"),
      TextField(fs, "timestamp"), TextField(fs, "aggregate_key"), TextField(fs, "signature"));
    var data := Lookup(fs, "data");
    if id.None? || kind.None? || time.None? || key.None? || sig.None? then None
    else Some(Event(id.value, kind.value, time.value, key.value,
                    if data.None? then "null" else data.value, sig.value))
  }

  /** The members of a text that is one object. */
  function ReadObject(s: string): Option<seq<Field>> {
    if s == [] || s[0] != '{' then None
    else if |s| > 1 && s[1] == '}' then (if |s| == 2 then Some([]) else None) else
    var r := ReadFields(s[1..]);
    if r.None? || r.value.1 != [] then None else Some(r.value.0)
  }

  function Unmarshal(body: string): Option<Event> {
    var fs := ReadObject(body);
    if fs.None? then None else EventOf(fs.value)
  }

  // ---------------------------------------------------------------- signing and verifying

  /** What an event is made from: fresh id and time, and what the emitter was called with. */
  datatype Source = Source(eventId: string, eventType: string, timestamp: string, aggregateKey: string, data: Value)

  function Unsigned(src: Source): Event {
    Event(src.eventId, src.eventType, src.timestamp, src.aggregateKey, Write(src.data), "")
  }

  /** Marshals with an empty signature, signs that text, and marshals again with the signature in place. */
  function Sign(mac: Mac, secret: string, e: Event): Option<Letter> {
    var unsigned := Marshal(e.(signature := ""));
    if unsigned.None? then None else
    var sig := mac(secret, unsigned.value);
    var signed := Marshal(e.(signature := sig));
    if signed.None? then None
    else Some(Letter(e.eventId, e.eventType, e.aggregateKey, signed.value, sig))
  }

  /** The documented check of a receiver, of both the header and the body's own field. */
  ghost predicate Verifies(mac: Mac, secret: string, body: string, header: string) {
    var e := Unmarshal(body);
    && e.Some?
    && e.value.signature == header
    && var unsigned := Marshal(e.value.(signature := ""));
       unsigned.Some? && mac(secret, unsigned.value) == header
  }

  // ---------------------------------------------------------------- proofs

  /** A raw text that the scanner skips exactly, whatever may follow a value. */
  ghost predicate Skippable(raw: string) {
    raw != [] && forall tail :: Ends(tail) ==> SkipValue(raw + tail) == Some(tail)
  }

  lemma QuoteSkippable(s: string)
    ensures Skippable(Quote(s))
  {
    forall tail | Ends(tail) ensures SkipValue(Quote(s) + tail) == Some(tail) {
      ReadTextQuoted(s, tail);
    }
  }

  lemma WriteSkippable(v: Value)
    ensures Skippable(Write(v)) && SkipValue(Write(v)) == Some("")
  {
    forall tail | Ends(tail) ensures SkipValue(Write(v) + tail) == Some(tail) {
      SkipWritten(v, tail);
    }
    assert Write(v) + "" == Write(v);
    if Write(v) == [] {
      SkipWritten(v, "");
      assert false;
    }
  }

  lemma ReadOneField(key: string, raw: string, after: string)
    requires SkipValue(raw + after) == Some(after) && after != []
    ensures var s := Quote(key) + ":" + (raw + after);
            && (after[0] == '}' ==> ReadFields(s) == Some(([Field(key, raw)], after[1..])))
            && (after[0] == ',' ==>
                  ReadFields(s) == (var more := ReadFields(after[1..]);
                                    if more.None? then None
                                    else Some(([Field(key, raw)] + more.value.0, more.value.1))))
  {
    ReadWrittenMember(key, raw + after);
    assert (raw + after)[..|raw|] == raw;
    assert (Quote(key) + ":" + (raw + after))[0] == '\"';
  }

  lemma {:induction false} FieldsReadBack(fs: seq<Field>)
    requires fs != [] && forall i :: 0 <= i < |fs| ==> Skippable(fs[i].raw)
    ensures ReadFields(WriteFields(fs)) == Some((fs, ""))
  {
    if |fs| == 1 {
      LastField(fs[0], fs);
    } else {
      FieldsReadBack(fs[1..]);
      FirstField(fs[0], fs[1..], fs);
    }
  }

  lemma LastField(field: Field, fs: seq<Field>)
    requires Skippable(field.raw) && fs == [field]
    ensures ReadFields(WriteFields(fs)) == Some((fs, ""))
  {
    assert WriteFields(fs) == Quote(field.key) + ":" + (field.raw + "}");
    assert SkipValue(field.raw + "}") == Some("}");
    ReadOneField(field.key, field.raw, "}");
  }

  lemma FirstField(field: Field, rest: seq<Field>, fs: seq<Field>)
    requires Skippable(field.raw) && rest != [] && fs == [field] + rest
    requires ReadFields(WriteFields(rest)) == Some((rest, ""))
    ensures ReadFields(WriteFields(fs)) == Some((fs, ""))
  {
    WriteMore(field, rest);
    Regroup(Quote(field.key) + ":", field.raw, ",", WriteFields(rest));
    assert SkipValue(field.raw + ("," + WriteFields(rest))) == Some("," + WriteFields(rest));
    ReadFirstField(field.key, field.raw, WriteFields(rest), rest);
  }

  lemma WriteMore(first: Field, rest: seq<Field>)
    requires rest != []
    ensures WriteFields([first] + rest) == Quote(first.key) + ":" + first.raw + "," + WriteFields(rest)
  {
    assert ([first] + rest)[1..] == rest;
  }

  lemma ReadFirstField(key: string, raw: string, rest: string, fs: seq<Field>)
    requires SkipValue(raw + ("," + rest)) == Some("," + rest) && ReadFields(rest) == Some((fs, ""))
    ensures ReadFields(Quote(key) + ":" + (raw + ("," + rest))) == Some(([Field(key, raw)] + fs, ""))
  {
    ReadOneField(key, raw, "," + rest);
    assert ("," + rest)[1..] == rest;
  }

  lemma BracedReadsBack(fs: seq<Field>, s: string)
    requires fs != [] && s == "{" + WriteFields(fs)
    requires ReadFields(WriteFields(fs)) == Some((fs, ""))
    ensures ReadObject(s) == Some(fs)
  {
    assert s[0] == '{' && s[1] == WriteFields(fs)[0] == '\"';
    assert s[1..] == WriteFields(fs);
  }

  lemma LookupIn(e: Event)
    ensures Lookup(Fields(e), "event_id") == Some(Quote(e.eventId))
    ensures Lookup(Fields(e), "event_type") == Some(Quote(e.eventType))
    ensures Lookup(Fields(e), "timestamp") == Some(Quote(e.timestamp))
    ensures Lookup(Fields(e), "aggregate_key") == Some(Quote(e.aggregateKey))
    ensures Lookup(Fields(e), "data") == Some(Compact(e.data, Outside))
    ensures Lookup(Fields(e), "signature") == Some(Quote(e.signature))
  {
    assert "timestamp"[0] != "signature"[0];
    var fs := Fields(e);
    LookupEarlier(fs, 0);
    LookupEarlier(fs, 1);
    LookupEarlier(fs, 2);
    LookupEarlier(fs, 3);
    LookupEarlier(fs, 4);
  }

  lemma {:induction false} LookupEarlier(fs: seq<Field>, i: nat)
    requires i < |fs| && forall j :: i < j < |fs| ==> fs[j].key != fs[i].key
    ensures Lookup(fs, fs[i].key) == Some(fs[i].raw)
  {
    if i < |fs| - 1 {
      LookupEarlier(fs[..|fs| - 1], i);
    }
  }

  /** Of several members with one key the last counts. */
  lemma LookupLast(fs: seq<Field>, f: Field, key: string)
    ensures Lookup(fs + [f], key) == if f.key == key then Some(f.raw) else Lookup(fs, key)
  {
    assert (fs + [f])[..|fs|] == fs;
  }

  lemma QuoteReadsBack(s: string)
    ensures ReadText(Quote(s)) == Some((s, ""))
  {
    assert Quote(s) + "" == Quote(s);
    ReadTextQuoted(s, "");
  }

  lemma TextFieldsReadBack(e: Event)
    ensures TextField(Fields(e), "event_id") == Some(e.eventId)
    ensures TextField(Fields(e), "event_type") == Some(e.eventType)
    ensures TextField(Fields(e), "timestamp") == Some(e.timestamp)
    ensures TextField(Fields(e), "aggregate_key") == Some(e.aggregateKey)
    ensures TextField(Fields(e), "signature") == Some(e.signature)
  {
    LookupIn(e);
    QuoteReadsBack(e.eventId);
    QuoteReadsBack(e.eventType);
    QuoteReadsBack(e.timestamp);
    QuoteReadsBack(e.aggregateKey);
    QuoteReadsBack(e.signature);
  }

  lemma EventReadsBack(e: Event, data: Value)
    requires e.data == Write(data)
    ensures EventOf(Fields(e)) == Some(e)
  {
    CompactWritten(data);
    LookupIn(e);
    TextFieldsReadBack(e);
  }

  lemma EventFieldsReadBack(e: Event, data: Value)
    requires e.data == Write(data)
    ensures ReadFields(WriteFields(Fields(e))) == Some((Fields(e), ""))
  {
    WriteSkippable(data);
    CompactWritten(data);
    QuoteSkippable(e.eventId);
    QuoteSkippable(e.eventType);
    QuoteSkippable(e.timestamp);
    QuoteSkippable(e.aggregateKey);
    QuoteSkippable(e.signature);
    FieldsReadBack(Fields(e));
  }

  /** Marshalling an event whose data is a written value succeeds, and parsing the result restores it. */
  lemma MarshalReadsBack(e: Event, data: Value)
    requires e.data == Write(data)
    ensures Marshal(e).Some? && Unmarshal(Marshal(e).value) == Some(e)
  {
    WriteSkippable(data);
    EventFieldsReadBack(e, data);
    EventReadsBack(e, data);
    BracedReadsBack(Fields(e), Marshal(e).value);
  }

  /** Distinct events have distinct bodies, so the signed text determines every field. */
  lemma MarshalInjective(e: Event, data: Value, e': Event, data': Value)
    requires e.data == Write(data) && e'.data == Write(data') && Marshal(e) == Marshal(e')
    ensures e == e'
  {
    MarshalReadsBack(e, data);
    MarshalReadsBack(e', data');
  }

  /** The letter tells of the source, in its own fields and in what its body parses to; its signature is the
      MAC of that event marshalled without a signature, and the receiver's check accepts it. */
  ghost predicate LetterFor(mac: Mac, secret: string, src: Source, letter: Letter) {
    && letter.eventId == src.eventId && letter.eventType == src.eventType && letter.aggregateKey == src.aggregateKey
    && Verifies(mac, secret, letter.body, letter.signature)
    && var unsigned := Event(src.eventId, src.eventType, src.timestamp, src.aggregateKey, Write(src.data), "");
       && Unmarshal(letter.body) == Some(unsigned.(signature := letter.signature))
       && Marshal(unsigned).Some? && letter.signature == mac(secret, Marshal(unsigned).value)
  }

  /** Every event is signed, and the text that the receiver signs again is byte for byte the text that the
      dispatcher signed. */
  lemma SignedVerifies(mac: Mac, secret: string, src: Source)
    ensures var letter := Sign(mac, secret, Unsigned(src));
            && letter.Some? && LetterFor(mac, secret, src, letter.value)
            && Marshal(Unmarshal(letter.value.body).value.(signature := "")) == Marshal(Unsigned(src))
  {
    var e := Unsigned(src);
    assert e.(signature := "") == e;
    MarshalReadsBack(e, src.data);
    var sig := mac(secret, Marshal(e).value);
    MarshalReadsBack(e.(signature := sig), src.data);
    assert e.(signature := sig).(signature := "") == e;
  }

  /** The receiver accepts a marshalled event exactly when its signature, the header and the MAC of the event
      marshalled without it are one text. */
  lemma VerifiesIff(mac: Mac, secret: string, e: Event, data: Value, header: string)
    requires e.data == Write(data)
    ensures Marshal(e).Some? && Marshal(e.(signature := "")).Some?
    ensures Verifies(mac, secret, Marshal(e).value, header)
            <==> e.signature == header && header == mac(secret, Marshal(e.(signature := "")).value)
  {
    MarshalReadsBack(e, data);
    MarshalReadsBack(e.(signature := ""), data);
  }

  /** A body that is accepted under a signature issued for the source carries the source's own event, or else
      its unsigned text and the source's are different and have the same MAC. */
  lemma AcceptedIsGenuine(mac: Mac, secret: string, src: Source, letter: Letter, e: Event, data: Value)
    requires LetterFor(mac, secret, src, letter) && e.data == Write(data)
    requires Marshal(e).Some? && Verifies(mac, secret, Marshal(e).value, letter.signature)
    ensures Marshal(Unsigned(src)).Some? && Marshal(e.(signature := "")).Some?
    ensures var signed, text := Marshal(Unsigned(src)).value, Marshal(e.(signature := "")).value;
            (Unmarshal(letter.body) == Some(e) <==> text == signed) && mac(secret, text) == mac(secret, signed)
  {
    VerifiesIff(mac, secret, e, data, letter.signature);
    if Marshal(e.(signature := "")) == Marshal(Unsigned(src)) {
      MarshalInjective(e.(signature := ""), data, Unsigned(src), src.data);
      assert e == Unsigned(src).(signature := letter.signature);
    }
  }

  // ---------------------------------------------------------------- the text on the wire

  /** A text that needs no escapes is quoted as it is. */
  lemma {:induction false} EscapePlain(s: string)
    requires forall i :: 0 <= i < |s| ==> EscapeChar(s[i]) == [s[i]]
    ensures Escape(s) == s
  {
    if s == [] {
    } else {
      EscapePlain(s[1..]);
      assert s == [s[0]] + s[1..];
    }
  }

  predicate PlainName(name: string) {
    forall i :: 0 <= i < |name| ==> 'a' <= name[i] <= 'z' || name[i] == '_'
  }

  /** Members whose names need no escapes, and the closing brace. */
  function PlainMembers(fs: seq<Field>): string
    requires fs != []
  {
    "\"" + fs[0].key + "\":" + fs[0].raw + (if |fs| == 1 then "}" else "," + PlainMembers(fs[1..]))
  }

  lemma {:induction false} WritePlain(fs: seq<Field>)
    requires fs != [] && forall i :: 0 <= i < |fs| ==> PlainName(fs[i].key)
    ensures WriteFields(fs) == PlainMembers(fs)
  {
    EscapePlain(fs[0].key);
    assert Quote(fs[0].key) + ":" == "\"" + fs[0].key + "\":";
    if |fs| == 1 {
    } else {
      WritePlain(fs[1..]);
    }
  }

  /** The marshalled envelope is an object with these members, in this order. */
  lemma MarshalText(e: Event, data: Value)
    requires e.data == Write(data)
    ensures Marshal(e) == Some("{" + PlainMembers(
              [Field("event_id", Quote(e.eventId)), Field("event_type", Quote(e.eventType)),
               Field("timestamp", Quote(e.timestamp)), Field("aggregate_key", Quote(e.aggregateKey)),
               Field("data", Write(data)), Field("signature", Quote(e.signature))]))
  {
    WriteSkippable(data);
    CompactWritten(data);
    PlainNames(e);
    WritePlain(Fields(e));
  }

  lemma PlainNames(e: Event)
    ensures forall i :: 0 <= i < |Fields(e)| ==> PlainName(Fields(e)[i].key)
  {
    assert PlainName("event_id") && PlainName("event_type") && PlainName("timestamp");
    assert PlainName("aggregate_key") && PlainName("data") && PlainName("signature");
  }
}
