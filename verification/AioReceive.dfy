/**
What the asyncio client does with a datagram: decode it, ask the replay guard if it was sealed, look up the
CRC and call. Module AioSubscriptions holds the client and proves that it follows this.
*/
module AioReceive {
  import opened Options
  import opened Words
  import opened Wire
  import opened ReplaySpec
  import opened ReplayGuards
  import T = SubscriptionTable

  // A callback that was called, and with what.
  datatype Heard<S> = Heard(sub: S, payload: seq<byte>, encrypted: bool)

  function HeardAll<S>(log: seq<S>, payload: seq<byte>, encrypted: bool): (hs: seq<Heard<S>>)
    ensures |hs| == |log|
  {
    seq(|log|, i requires 0 <= i < |log| => Heard(log[i], payload, encrypted))
  }

  // Plain datagrams carry neither timestamp nor nonce.
  function Carried(x: Option<u32>): MaybeInt
  {
    match x
    case None => Absent
    case Some(v) => Present(v)
  }

  function Stamp(x: Option<u32>): int
  {
    if x.Some? then x.value else 0
  }

  datatype Handled<S> = Handled(entries: seq<Entry<MaybeInt>>, table: T.Table<S>, heard: seq<Heard<S>>)

  // _handle_datagram. The host's clock is always valid.
  function OnDatagram<S(==)>(n: T.Naming, key: Option<seq<byte>>, window: int, maxEntries: int, entries: seq<Entry<MaybeInt>>,
      t: T.Table<S>, data: seq<byte>, now: int, script: seq<seq<T.Removal<S>>>): Handled<S>
  {
    match Wire.Decode(data, key)
    case None => Handled(entries, t, [])
    case Some(msg) =>
      var o := if msg.wasEncrypted
        then Decide(window, maxEntries, entries, Command(now, true, Stamp(msg.timestamp), Carried(msg.nonce)))
        else Outcome(true, entries);
      if !o.accepted then Handled(o.entries, t, [])
      else
        var d := T.Handle(n, t, msg.crc, msg.encoding, script);
        Handled(o.entries, d.table, HeardAll(d.log, msg.payload, msg.wasEncrypted))
  }
}
