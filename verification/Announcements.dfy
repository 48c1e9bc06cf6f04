/**
 What the handlers announce of a promotion or rollback, from the row that was saved to what a receiver reads
 in the verified body of the event.
 */
module Announcements {
  import opened Catalog
  import opened Channels
  import opened Envelope
  import opened Payloads
  import opened Timestamps
  import opened Wrappers

  /** The event that is emitted for a saved row. */
  function Announce(row: Pointer, rolledBack: bool, eventId: string, timestamp: string): Source {
    Source(eventId, if rolledBack then "channel.rollback" else "channel.promoted", timestamp, row.key.channel,
           ChannelEventData(row.key.channel, row.previousVersion, row.version))
  }

  /** Of every call that saves a row and could read the channel before it, a receiver who has checked the body
      learns the kind of event, the channel, the version that was current before the call and the one that is
      current after it. */
  lemma AnnouncedTruly(db: Db, call: Call, mac: Mac, secret: string, eventId: string, timestamp: string)
    returns (letter: Letter, e: Event)
    requires ResultOf(db, call).Ok? && !call.faults.read
    ensures Sign(mac, secret, Unsigned(Announce(ResultOf(db, call).value, call.RollingBack?, eventId, timestamp)))
              == Some(letter)
    ensures Verifies(mac, secret, letter.body, letter.signature) && Unmarshal(letter.body) == Some(e)
    ensures e.eventId == eventId && e.timestamp == timestamp && e.aggregateKey == call.key.channel
    ensures e.eventType == if call.RollingBack? then "channel.rollback" else "channel.promoted"
    ensures ReadObject(e.data).Some?
    ensures var fs := ReadObject(e.data).value;
            && TextField(fs, "channel") == Some(call.key.channel)
            && TextField(fs, "from_version") == Some(Current(db, call.key))
            && TextField(fs, "to_version") == Some(Current(After(db, call), call.key))
  {
    var row := ResultOf(db, call).value;
    var src := Announce(row, call.RollingBack?, eventId, timestamp);
    CallRow(db, call);
    SignedVerifies(mac, secret, src);
    var fs;
    letter, fs := ChannelEventReadsBack(mac, secret, src, row.key.channel, row.previousVersion, row.version);
    e := Unmarshal(letter.body).value;
  }
}
