/**
The C++ component scans a vector of subscriptions; the asyncio client looks up a CRC index. Subscribed the
same way, they find the same topics and call the same callbacks, in the same order -- and over a whole run of
subscribing and receiving, with the same key and window, they make the same calls.
*/
module IndexAgreement {
  import opened Options
  import opened Words
  import opened ReplaySpec
  import opened Pipeline
  import opened AioReceive
  import Wire
  import PipelineRuns
  import G = ReplayGuards
  import TopicHash
  import T = SubscriptionTable

  // A call of subscribe that both sides take, with the callback's number.
  datatype Call = Call(topic: Topic, cb: nat, require: bool)

  function AddAll(calls: seq<Call>): seq<Subscription>
  {
    if calls == [] then []
    else
      var n := |calls| - 1;
      AddRaw(AddAll(calls[..n]), calls[n].topic, calls[n].cb, calls[n].require)
  }

  function Events(calls: seq<Call>): (events: seq<T.Event<nat>>)
    ensures |events| == |calls| + 1
  {
    [T.Starting] + seq(|calls|, i requires 0 <= i < |calls| => T.Subscribing(calls[i].topic, calls[i].cb, true))
  }

  // The same topics with the same callbacks, in the same order.
  ghost predicate Mirrors(n: T.Naming, subs: seq<Subscription>, t: T.Table<nat>)
  {
    && |subs| == |t.order|
    && forall i :: 0 <= i < |subs| ==>
         && subs[i].topic == t.order[i] && subs[i].crc == n.crc(t.order[i])
         && t.order[i] in t.subs && subs[i].raw == t.subs[t.order[i]]
  }

  lemma {:induction false} FindInOrder(subs: seq<Subscription>, topic: Topic)
    ensures forall i :: 0 <= i < Find(subs, topic) ==> subs[i].topic != topic
  {
    if subs != [] && subs[0].topic != topic {
      FindInOrder(subs[1..], topic);
      forall i | 0 < i < Find(subs, topic)
        ensures subs[i].topic != topic
      {
        assert subs[1..][i - 1] == subs[i];
      }
    }
  }

  // How AddRaw changes the vector, in its two cases.
  lemma AddRawCases(subs: seq<Subscription>, topic: Topic, cb: nat, require: bool)
    ensures var r, i := AddRaw(subs, topic, cb, require), Find(subs, topic);
      && |r| == (if i < |subs| then |subs| else |subs| + 1)
      && (forall k :: 0 <= k < |subs| && k != i ==> r[k] == subs[k])
      && r[i].topic == topic
      && r[i].crc == (if i < |subs| then subs[i].crc else TopicHash.Crc32(topic))
      && r[i].raw == (if i < |subs| then subs[i].raw + [cb] else [cb])
  {
    hide TopicHash.Crc32, Find;
  }

  lemma SubscribeMirrors(n: T.Naming, subs: seq<Subscription>, t: T.Table<nat>, topic: Topic, cb: nat, require: bool)
    requires Mirrors(n, subs, t) && T.Listed(t) && n.crc(topic) == TopicHash.Crc32(topic)
    requires T.Subscribes(n, t, topic, true)
    ensures Mirrors(n, AddRaw(subs, topic, cb, require), T.Subscribe(n, t, topic, cb, true))
  {
    hide AddRaw, Find, TopicHash.Crc32, T.Subscribes;
    AddRawCases(subs, topic, cb, require);
    FindInOrder(subs, topic);
    var i := Find(subs, topic);
    if i < |subs| {
      assert t.order[i] == topic;
    } else {
      assert forall k :: 0 <= k < |t.order| ==> subs[k].topic == t.order[k];
      assert topic !in t.order;
    }
    assert [] + [cb] == [cb];
  }

  // Every call succeeds on the Python side.
  ghost predicate AllSubscribe(n: T.Naming, calls: seq<Call>)
  {
    forall i :: 0 <= i < |calls| ==> T.Subscribes(n, T.Run(n, Events(calls[..i])), calls[i].topic, true)
  }

  ghost predicate OwnCallbacks(calls: seq<Call>)
  {
    forall i, j :: 0 <= i < j < |calls| ==> calls[i].cb != calls[j].cb
  }

  lemma {:induction false} RunMirrors(n: T.Naming, calls: seq<Call>)
    requires forall a :: n.crc(a) == TopicHash.Crc32(a)
    requires AllSubscribe(n, calls) && OwnCallbacks(calls)
    ensures Mirrors(n, AddAll(calls), T.Run(n, Events(calls))) && T.Core(n, T.Run(n, Events(calls)))
    decreases |calls|
  {
    hide T.Subscribe, T.Subscribes, T.Core, T.Listed, Mirrors, AddRaw, TopicHash.Crc32, OwnCallbacks, T.Run, Events;
    OwnEvents(calls);
    T.RunKeepsCore(n, Events(calls));
    if calls == [] {
      NothingMirrored(n);
    } else {
      var k := |calls| - 1;
      PrefixCalls(n, calls);
      RunMirrors(n, calls[..k]);
      CoreIsListed(n, T.Run(n, Events(calls[..k])));
      LastCall(n, calls);
      SubscribeMirrors(n, AddAll(calls[..k]), T.Run(n, Events(calls[..k])), calls[k].topic, calls[k].cb, calls[k].require);
    }
  }

  lemma NothingMirrored(n: T.Naming)
    ensures Mirrors(n, [], T.Run(n, Events([])))
  {
    assert Events([]) == [T.Starting];
    assert T.Run(n, Events([])) == T.Start(T.Run(n, []));
  }

  lemma LastCall(n: T.Naming, calls: seq<Call>)
    requires calls != []
    ensures var c := calls[|calls| - 1];
      T.Run(n, Events(calls)) == T.Subscribe(n, T.Run(n, Events(calls[..|calls| - 1])), c.topic, c.cb, true)
  {
    hide T.Subscribe;
    var k := |calls| - 1;
    assert Events(calls)[..k + 1] == Events(calls[..k]);
  }

  lemma CoreIsListed(n: T.Naming, t: T.Table<nat>)
    requires T.Core(n, t)
    ensures T.Listed(t)
  {
  }

  lemma OwnEvents(calls: seq<Call>)
    requires OwnCallbacks(calls)
    ensures T.OwnSubscriptions(Events(calls))
  {
  }

  lemma PrefixCalls(n: T.Naming, calls: seq<Call>)
    requires calls != [] && AllSubscribe(n, calls) && OwnCallbacks(calls)
    ensures AllSubscribe(n, calls[..|calls| - 1]) && OwnCallbacks(calls[..|calls| - 1])
    ensures T.Subscribes(n, T.Run(n, Events(calls[..|calls| - 1])), calls[|calls| - 1].topic, true)
  {
    hide T.Subscribes, T.Run, Events;
    var before := calls[..|calls| - 1];
    forall i | 0 <= i < |before|
      ensures T.Subscribes(n, T.Run(n, Events(before[..i])), before[i].topic, true)
    {
      assert before[..i] == calls[..i];
    }
  }

  // ---------------------------------------------------------------- the same look-up, the same calls

  // The topics that deliver_ reaches.
  function Matching(subs: seq<Subscription>, crc: u32): seq<Topic>
  {
    if subs == [] then []
    else (if subs[0].crc == crc then [subs[0].topic] else []) + Matching(subs[1..], crc)
  }

  lemma {:induction false} MatchingIsScan(n: T.Naming, subs: seq<Subscription>, order: seq<Topic>, crc: u32)
    requires |subs| == |order|
    requires forall i :: 0 <= i < |subs| ==> subs[i].topic == order[i] && subs[i].crc == n.crc(order[i])
    ensures Matching(subs, crc) == T.Scan(n, order, crc)
    decreases |subs|
  {
    if subs != [] {
      MatchingIsScan(n, subs[1..], order[1..], crc);
    }
  }

  function Callbacks(ds: seq<Delivery>): (cbs: seq<nat>)
    ensures |cbs| == |ds|
  {
    seq(|ds|, i requires 0 <= i < |ds| => ds[i].cb)
  }

  lemma CallbacksConcat(a: seq<Delivery>, b: seq<Delivery>)
    ensures Callbacks(a + b) == Callbacks(a) + Callbacks(b)
  {
  }

  lemma {:induction false} RawCallbacks(topic: Topic, raw: seq<nat>, body: seq<byte>, encrypted: bool)
    ensures Callbacks(RawDeliveries(topic, raw, body, encrypted)) == raw
    decreases |raw|
  {
    if raw != [] {
      RawCallbacks(topic, raw[1..], body, encrypted);
      CallbacksConcat([Delivery(topic, raw[0], body, encrypted)], RawDeliveries(topic, raw[1..], body, encrypted));
    }
  }

  // The loop over the vector makes the calls of the loop over the scanned topics.
  lemma {:induction false} SameCalls(n: T.Naming, subs: seq<Subscription>, order: seq<Topic>, t: T.Table<nat>, crc: u32,
      payload: seq<byte>, encrypted: bool)
    requires |subs| == |order|
    requires forall i :: 0 <= i < |subs| ==>
      && subs[i].topic == order[i] && subs[i].crc == n.crc(order[i])
      && order[i] in t.subs && subs[i].raw == t.subs[order[i]]
      && (subs[i].requireEncryption ==> encrypted)
    ensures Callbacks(Deliveries(subs, crc, Wire.RAW, payload, encrypted)) == T.AllCallbacks(t, T.Scan(n, order, crc))
    decreases |subs|
  {
    hide RawDeliveries;
    if subs != [] {
      SameCalls(n, subs[1..], order[1..], t, crc, payload, encrypted);
      var here := if subs[0].crc == crc then SubDeliveries(subs[0], Wire.RAW, payload, encrypted) else [];
      CallbacksConcat(here, Deliveries(subs[1..], crc, Wire.RAW, payload, encrypted));
      RawCallbacks(subs[0].topic, subs[0].raw, payload, encrypted);
      assert subs[1..][..] == subs[1..];
    }
  }

  // After the same calls of subscribe, the C++ scan and the Python index find the same topics, and a raw
  // payload reaches the same callbacks in the same order -- unless the C++ side drops it for want of
  // encryption.
  lemma IndexAgreesWithScan(n: T.Naming, calls: seq<Call>, crc: u32, payload: seq<byte>, encrypted: bool)
    requires forall a :: n.crc(a) == TopicHash.Crc32(a)
    requires AllSubscribe(n, calls) && OwnCallbacks(calls)
    requires encrypted || forall i :: 0 <= i < |AddAll(calls)| ==> !AddAll(calls)[i].requireEncryption
    ensures var subs, t := AddAll(calls), T.Run(n, Events(calls));
      && Matching(subs, crc) == T.Lookup(t, crc)
      && Callbacks(Deliveries(subs, crc, Wire.RAW, payload, encrypted)) == T.Handle(n, t, crc, Wire.RAW, []).log
  {
    hide T.Subscribes, T.Run, AddAll, Deliveries, TopicHash.Crc32, T.Core, T.Dispatch, Events;
    var subs, t := AddAll(calls), T.Run(n, Events(calls));
    RunMirrors(n, calls);
    MatchingIsScan(n, subs, t.order, crc);
    T.IndexIsScan(n, t, crc);
    SameCalls(n, subs, t.order, t, crc, payload, encrypted);
    T.QuietDispatch(n, t, crc);
  }

  // ---------------------------------------------------------------- one datagram

  // The calls of the component, in the client's terms.
  function HeardBy(ds: seq<Delivery>): (hs: seq<Heard<nat>>)
    ensures |hs| == |ds|
  {
    seq(|ds|, i requires 0 <= i < |ds| => Heard(ds[i].cb, ds[i].body, ds[i].encrypted))
  }

  lemma HeardConcat(a: seq<Delivery>, b: seq<Delivery>)
    ensures HeardBy(a + b) == HeardBy(a) + HeardBy(b)
  {
  }

  // Raw subscriptions, as many as the client can have; `encrypted` is what they ask for at most.
  ghost predicate RawOnly(subs: seq<Subscription>, encrypted: bool)
  {
    forall i :: 0 <= i < |subs| ==> subs[i].typed == [] && (subs[i].requireEncryption ==> encrypted)
  }

  lemma {:induction false} ProtobufReachesNobody(subs: seq<Subscription>, crc: u32, payload: seq<byte>, encrypted: bool)
    requires RawOnly(subs, encrypted)
    ensures Deliveries(subs, crc, Wire.PROTOBUF, payload, encrypted) == []
    decreases |subs|
  {
    if subs != [] {
      ProtobufReachesNobody(subs[1..], crc, payload, encrypted);
    }
  }

  // What was delivered is the raw payload.
  lemma SamePayloads(subs: seq<Subscription>, crc: u32, payload: seq<byte>, encrypted: bool)
    ensures var ds := Deliveries(subs, crc, Wire.RAW, payload, encrypted);
      HeardBy(ds) == HeardAll(Callbacks(ds), payload, encrypted)
  {
    hide Deliveries;
    var ds := Deliveries(subs, crc, Wire.RAW, payload, encrypted);
    forall i | 0 <= i < |ds|
      ensures ds[i].body == payload && ds[i].encrypted == encrypted
    {
      DeliveriesExact(subs, crc, Wire.RAW, payload, encrypted, ds[i]);
    }
  }

  ghost predicate Alike(n: T.Naming, subs: seq<Subscription>, t: T.Table<nat>)
  {
    Mirrors(n, subs, t) && T.Core(n, t)
  }

  lemma SameHandling(n: T.Naming, subs: seq<Subscription>, t: T.Table<nat>, crc: u32, encoding: byte, payload: seq<byte>,
      encrypted: bool)
    requires Alike(n, subs, t) && RawOnly(subs, encrypted) && Wire.KnownEncoding(encoding)
    ensures var d := T.Handle(n, t, crc, encoding, []);
      d.table == t && HeardAll(d.log, payload, encrypted) == HeardBy(Deliveries(subs, crc, encoding, payload, encrypted))
  {
    hide Deliveries, T.Core, T.Dispatch;
    if encoding == Wire.RAW {
      T.IndexIsScan(n, t, crc);
      SameCalls(n, subs, t.order, t, crc, payload, encrypted);
      T.QuietDispatch(n, t, crc);
      SamePayloads(subs, crc, payload, encrypted);
    } else {
      ProtobufReachesNobody(subs, crc, payload, encrypted);
    }
  }

  // The client's cache decides like the component's: it is as large, or larger while the component's has room.
  predicate SameRoom(maxEntries: int, entries: seq<Entry<int>>)
  {
    maxEntries == COMPONENT_ENTRIES || (maxEntries > COMPONENT_ENTRIES && |entries| < COMPONENT_ENTRIES)
  }

  lemma SameGuard(window: int, maxEntries: int, entries: seq<Entry<int>>, c: Command<int>)
    requires SameRoom(maxEntries, entries)
    ensures var o := Decide(window, COMPONENT_ENTRIES, entries, c);
      Decide(window, maxEntries, G.Wrapped(entries), G.WrappedCommand(c)) == Outcome(o.accepted, G.Wrapped(o.entries))
  {
    hide Prune, Remembers;
    G.WrappedDecides(window, maxEntries, entries, c);
    var d := PruneIsSuffix(c.now, window, entries);
  }

  predicate Sealed(data: seq<byte>)
  {
    |data| > 10 && data[10] == Wire.MODE_AEAD
  }

  // One datagram, as the client and as the component handle it.
  function Listens(n: T.Naming, s: State, maxEntries: int, t: T.Table<nat>, data: seq<byte>, now: u32): Handled<nat>
  {
    AioReceive.OnDatagram(n, s.key, s.window, maxEntries, G.Wrapped(s.entries), t, data, now, [])
  }

  ghost predicate SameOutcome(s: State, s': State, t: T.Table<nat>, h: Handled<nat>)
  {
    && h.table == t && h.entries == G.Wrapped(s'.entries)
    && s.delivered <= s'.delivered && h.heard == HeardBy(s'.delivered[|s.delivered|..])
  }

  lemma SameDatagram(n: T.Naming, s: State, maxEntries: int, t: T.Table<nat>, data: seq<byte>, now: u32)
    requires Alike(n, s.subs, t) && KeyOk(s.key) && |data| <= Wire.MAX_DATAGRAM
    requires SameRoom(maxEntries, s.entries) && RawOnly(s.subs, Sealed(data))
    ensures SameOutcome(s, Receive(s, data, now, true), t, Listens(n, s, maxEntries, t, data, now))
  {
    hide Alike, RawOnly, Wire.Parse, Wire.Decode, Authenticate, Opened, Decide, Deliveries, T.Handle, SameRoom;
    hide G.Wrapped, HeardAll;
    DecodersAgree(s.key, data);
    var s' := Receive(s, data, now, true);
    if Wire.Parse(data).Good? {
      var p := Wire.Parse(data).packet;
      ParsedMode(data);
      if p.mode != Wire.MODE_AEAD {
        SameHandling(n, s.subs, t, p.crc, p.encoding, p.payload, false);
      } else if Authenticate(s.key, data, p).Some? {
        var plaintext := Authenticate(s.key, data, p).value;
        SameSealed(n, s, maxEntries, t, data, now, plaintext);
      }
    }
  }

  lemma ParsedMode(data: seq<byte>)
    ensures var r := Wire.Parse(data);
      r.Good? ==> Wire.KnownEncoding(r.packet.encoding) && (Sealed(data) <==> r.packet.mode == Wire.MODE_AEAD)
  {
    hide Wire.HeaderCrc, Wire.HeaderLen;
  }

  lemma SameSealed(n: T.Naming, s: State, maxEntries: int, t: T.Table<nat>, data: seq<byte>, now: u32, plaintext: seq<byte>)
    requires Alike(n, s.subs, t) && KeyOk(s.key) && SameRoom(maxEntries, s.entries) && RawOnly(s.subs, true)
    requires Wire.Parse(data).Good? && Wire.Parse(data).packet.mode == Wire.MODE_AEAD
    requires Authenticate(s.key, data, Wire.Parse(data).packet) == Some(plaintext)
    requires Wire.Decode(data, s.key) == Some(Opened(Wire.Parse(data).packet, plaintext))
    ensures SameOutcome(s, Receive(s, data, now, true), t, Listens(n, s, maxEntries, t, data, now))
  {
    hide Alike, RawOnly, Wire.Parse, Wire.Decode, Authenticate, Decide, Deliveries, T.Handle, SameRoom, G.Wrapped, HeardAll;
    ParsedMode(data);
    var p := Wire.Parse(data).packet;
    var msg := Opened(p, plaintext);
    SameHandling(n, s.subs, t, msg.crc, msg.encoding, msg.payload, true);
    var c := GuardCommand(plaintext, p.payload, now, true);
    SameGuard(s.window, maxEntries, s.entries, c);
    OpenGuard(s.entries, c);
    assert G.WrappedCommand(c) == Command(now, true, Stamp(msg.timestamp), Carried(msg.nonce));
  }

  lemma OpenGuard(entries: seq<Entry<int>>, c: Command<int>)
    ensures Decide(0, COMPONENT_ENTRIES, entries, c) == Outcome(true, entries)
  {
  }

  // ---------------------------------------------------------------- whole runs

  // What happens to both: a subscription, or a datagram that both read at the same time.
  datatype Step = Calling(call: Call) | Arriving(data: seq<byte>, now: u32)

  function NodeEvents(steps: seq<Step>): (events: seq<PipelineRuns.Event>)
    ensures |events| == |steps|
  {
    seq(|steps|, i requires 0 <= i < |steps| => match steps[i]
        case Calling(c) => PipelineRuns.SubscribeRaw(c.topic, c.cb, c.require)
        case Arriving(data, now) => PipelineRuns.Arrival(data, now, true))
  }

  function NodeAfter(key: Option<seq<byte>>, window: u32, steps: seq<Step>): State
    requires KeyOk(key)
  {
    PipelineRuns.Run(key, window, NodeEvents(steps))
  }

  datatype Listener = Listener(table: T.Table<nat>, entries: seq<Entry<G.MaybeInt>>, heard: seq<Heard<nat>>)

  function Hear(n: T.Naming, key: Option<seq<byte>>, window: int, maxEntries: int, l: Listener, step: Step): Listener
  {
    match step
    case Calling(c) => l.(table := T.Subscribe(n, l.table, c.topic, c.cb, true))
    case Arriving(data, now) =>
      var h := AioReceive.OnDatagram(n, key, window, maxEntries, l.entries, l.table, data, now, []);
      Listener(h.table, h.entries, l.heard + h.heard)
  }

  // A started client, after the same steps.
  function ListenerAfter(n: T.Naming, key: Option<seq<byte>>, window: int, maxEntries: int, steps: seq<Step>): Listener
  {
    if steps == [] then Listener(T.Start(T.Empty()), [], [])
    else
      var k := |steps| - 1;
      Hear(n, key, window, maxEntries, ListenerAfter(n, key, window, maxEntries, steps[..k]), steps[k])
  }

  function CallsOf(steps: seq<Step>): seq<Call>
  {
    if steps == [] then []
    else
      var k := |steps| - 1;
      CallsOf(steps[..k]) + match steps[k] case Calling(c) => [c] case Arriving(_, _) => []
  }

  // The client knows no demand for encryption: either nobody makes one, or everything that arrives is sealed.
  ghost predicate Comparable(steps: seq<Step>)
  {
    && (forall i :: 0 <= i < |steps| && steps[i].Arriving? ==> |steps[i].data| <= Wire.MAX_DATAGRAM)
    && ((forall i :: 0 <= i < |steps| && steps[i].Calling? ==> !steps[i].call.require)
        || (forall i :: 0 <= i < |steps| && steps[i].Arriving? ==> Sealed(steps[i].data)))
  }

  ghost predicate RoomThroughout(key: Option<seq<byte>>, window: u32, maxEntries: int, steps: seq<Step>)
    requires KeyOk(key)
  {
    forall k :: 0 <= k < |steps| ==> SameRoom(maxEntries, NodeAfter(key, window, steps[..k]).entries)
  }

  ghost predicate InStep(n: T.Naming, steps: seq<Step>, s: State, l: Listener)
  {
    && s.subs == AddAll(CallsOf(steps)) && l.table == T.Run(n, Events(CallsOf(steps)))
    && l.entries == G.Wrapped(s.entries) && l.heard == HeardBy(s.delivered)
  }

  ghost predicate Admitted(n: T.Naming, steps: seq<Step>)
  {
    (forall a :: n.crc(a) == TopicHash.Crc32(a)) && AllSubscribe(n, CallsOf(steps)) && OwnCallbacks(CallsOf(steps))
  }

  lemma {:induction false} RawOnlyCalls(calls: seq<Call>, encrypted: bool)
    requires encrypted || forall i :: 0 <= i < |calls| ==> !calls[i].require
    ensures RawOnly(AddAll(calls), encrypted)
    decreases |calls|
  {
    hide AddRaw;
    if calls != [] {
      var k := |calls| - 1;
      RawOnlyCalls(calls[..k], encrypted);
      AddStaysRaw(AddAll(calls[..k]), calls[k].topic, calls[k].cb, calls[k].require, encrypted);
    }
  }

  lemma AddStaysRaw(subs: seq<Subscription>, topic: Topic, cb: nat, require: bool, encrypted: bool)
    requires RawOnly(subs, encrypted) && (require ==> encrypted)
    ensures RawOnly(AddRaw(subs, topic, cb, require), encrypted)
  {
    hide TopicHash.Crc32, Find;
  }

  lemma {:induction false} UndemandingCalls(steps: seq<Step>)
    requires forall i :: 0 <= i < |steps| && steps[i].Calling? ==> !steps[i].call.require
    ensures forall i :: 0 <= i < |CallsOf(steps)| ==> !CallsOf(steps)[i].require
    decreases |steps|
  {
    if steps != [] {
      UndemandingCalls(steps[..|steps| - 1]);
    }
  }

  lemma NodeStep(key: Option<seq<byte>>, window: u32, steps: seq<Step>)
    requires KeyOk(key) && steps != []
    ensures var s := NodeAfter(key, window, steps[..|steps| - 1]);
      NodeAfter(key, window, steps)
      == match steps[|steps| - 1]
         case Calling(c) => s.(subs := AddRaw(s.subs, c.topic, c.cb, c.require))
         case Arriving(data, now) => Receive(s, data, now, true)
  {
    hide AddRaw, Receive;
    var k := |steps| - 1;
    assert NodeEvents(steps)[..k] == NodeEvents(steps[..k]);
  }

  lemma CallStep(n: T.Naming, steps: seq<Step>, s: State, l: Listener, c: Call)
    requires InStep(n, steps, s, l)
    ensures InStep(n, steps + [Calling(c)], s.(subs := AddRaw(s.subs, c.topic, c.cb, c.require)),
                   l.(table := T.Subscribe(n, l.table, c.topic, c.cb, true)))
  {
    hide AddRaw, T.Run, T.Subscribe, Events;
    var calls := CallsOf(steps);
    assert (steps + [Calling(c)])[..|steps|] == steps;
    assert CallsOf(steps + [Calling(c)]) == calls + [c];
    assert (calls + [c])[..|calls|] == calls;
    LastCall(n, calls + [c]);
  }

  lemma ArrivalStep(n: T.Naming, steps: seq<Step>, s: State, l: Listener, maxEntries: int, data: seq<byte>, now: u32)
    requires InStep(n, steps, s, l) && Admitted(n, steps)
    requires KeyOk(s.key) && |data| <= Wire.MAX_DATAGRAM && SameRoom(maxEntries, s.entries)
    requires RawOnly(s.subs, Sealed(data))
    ensures InStep(n, steps + [Arriving(data, now)], Receive(s, data, now, true),
                   Hear(n, s.key, s.window, maxEntries, l, Arriving(data, now)))
  {
    hide T.Run, T.Core, Mirrors, Receive, AioReceive.OnDatagram, Events, AllSubscribe, OwnCallbacks, RawOnly, AddAll;
    hide TopicHash.Crc32;
    assert (steps + [Arriving(data, now)])[..|steps|] == steps;
    assert CallsOf(steps + [Arriving(data, now)]) == CallsOf(steps) + [] == CallsOf(steps);
    RunMirrors(n, CallsOf(steps));
    SameDatagram(n, s, maxEntries, l.table, data, now);
    var s' := Receive(s, data, now, true);
    assert s'.delivered == s.delivered + s'.delivered[|s.delivered|..];
    HeardConcat(s.delivered, s'.delivered[|s.delivered|..]);
  }

  lemma ComparableStep(steps: seq<Step>)
    requires steps != [] && Comparable(steps)
    ensures Comparable(steps[..|steps| - 1])
    ensures var step := steps[|steps| - 1];
      step.Arriving? ==> |step.data| <= Wire.MAX_DATAGRAM
                         && RawOnly(AddAll(CallsOf(steps[..|steps| - 1])), Sealed(step.data))
  {
    hide RawOnly, AddAll, CallsOf, Sealed;
    var before, step := steps[..|steps| - 1], steps[|steps| - 1];
    if step.Arriving? {
      if forall i :: 0 <= i < |steps| && steps[i].Calling? ==> !steps[i].call.require {
        UndemandingCalls(before);
      }
      RawOnlyCalls(CallsOf(before), Sealed(step.data));
    }
  }

  lemma AdmittedStep(n: T.Naming, steps: seq<Step>)
    requires steps != [] && Admitted(n, steps)
    ensures Admitted(n, steps[..|steps| - 1])
  {
    hide AllSubscribe, OwnCallbacks, TopicHash.Crc32;
    var k := |steps| - 1;
    var calls := CallsOf(steps);
    if steps[k].Calling? {
      assert calls[..|calls| - 1] == CallsOf(steps[..k]);
      PrefixCalls(n, calls);
    } else {
      assert calls == CallsOf(steps[..k]);
    }
  }

  lemma RoomStep(key: Option<seq<byte>>, window: u32, maxEntries: int, steps: seq<Step>)
    requires KeyOk(key) && steps != [] && RoomThroughout(key, window, maxEntries, steps)
    ensures RoomThroughout(key, window, maxEntries, steps[..|steps| - 1])
    ensures SameRoom(maxEntries, NodeAfter(key, window, steps[..|steps| - 1]).entries)
  {
    hide NodeAfter, SameRoom;
    var before := steps[..|steps| - 1];
    forall k | 0 <= k < |before|
      ensures SameRoom(maxEntries, NodeAfter(key, window, before[..k]).entries)
    {
      assert before[..k] == steps[..k];
    }
  }

  // A node and an asyncio client with the same key and window, subscribed alike in the course of the same
  // datagrams, make the same calls with the same payloads, in the same order, and remember the same
  // messages -- with caches of one size, or while the component's has room.
  lemma {:induction false} NodeAndClientAgree(n: T.Naming, key: Option<seq<byte>>, window: u32, maxEntries: int, steps: seq<Step>)
    requires KeyOk(key) && Admitted(n, steps) && Comparable(steps) && RoomThroughout(key, window, maxEntries, steps)
    ensures var s, l := NodeAfter(key, window, steps), ListenerAfter(n, key, window, maxEntries, steps);
      l.heard == HeardBy(s.delivered) && l.entries == G.Wrapped(s.entries)
    ensures InStep(n, steps, NodeAfter(key, window, steps), ListenerAfter(n, key, window, maxEntries, steps))
    decreases |steps|
  {
    hide Admitted, Comparable, RoomThroughout, NodeAfter, AddAll, T.Run, Events, Receive, AioReceive.OnDatagram;
    hide AddRaw, T.Subscribe, RawOnly;
    if steps == [] {
      NothingHeard(n, key, window);
    } else {
      var k := |steps| - 1;
      var before, step := steps[..k], steps[k];
      assert steps == before + [step];
      AdmittedStep(n, steps);
      ComparableStep(steps);
      RoomStep(key, window, maxEntries, steps);
      NodeAndClientAgree(n, key, window, maxEntries, before);
      NodeStep(key, window, steps);
      NodeKeeps(key, window, before);
      var s, l := NodeAfter(key, window, before), ListenerAfter(n, key, window, maxEntries, before);
      match step
      case Calling(c) => CallStep(n, before, s, l, c);
      case Arriving(data, now) => ArrivalStep(n, before, s, l, maxEntries, data, now);
    }
  }

  lemma NodeKeeps(key: Option<seq<byte>>, window: u32, steps: seq<Step>)
    requires KeyOk(key)
    ensures NodeAfter(key, window, steps).key == key && NodeAfter(key, window, steps).window == window
  {
  }

  lemma NothingHeard(n: T.Naming, key: Option<seq<byte>>, window: u32)
    requires KeyOk(key)
    ensures InStep(n, [], NodeAfter(key, window, []), Listener(T.Start(T.Empty()), [], []))
  {
    assert NodeEvents([]) == [];
    assert Events([])[..0] == [];
    assert T.Run(n, Events([])) == T.Start(T.Run(n, []));
  }
}
