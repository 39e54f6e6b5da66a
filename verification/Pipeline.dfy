/**
Subscribing and receiving in the C++ component, as functions of values: who is called, in which order, and
what a published datagram delivers at the other end. Module PipelineRuns has the guarantees over whole
runs, module MulticastPubSub the class that does the work on buffers.

Callbacks are numbers; a delivery records who was called, for which topic, with which bytes.
*/
module Pipeline {
  import opened Options
  import opened Words
  import opened Wire
  import opened ReplaySpec
  import Aead
  import TopicHash

  type Topic = seq<byte>

  datatype Typed = Typed(schemaId: u16, cb: nat)
  datatype Subscription = Subscription(topic: Topic, crc: u32, raw: seq<nat>, typed: seq<Typed>, requireEncryption: bool)
  datatype Delivery = Delivery(topic: Topic, cb: nat, body: seq<byte>, encrypted: bool)

  datatype State = State(
    key: Option<seq<byte>>,
    window: u32,
    subs: seq<Subscription>,
    entries: seq<Entry<int>>,
    received: u32,
    verifyOk: u32,
    verifyFailed: u32,
    malformed: nat,
    delivered: seq<Delivery>)

  // ---------------------------------------------------------------- subscribing

  function Find(subs: seq<Subscription>, topic: Topic): (i: nat)
    ensures i <= |subs| && (i < |subs| ==> subs[i].topic == topic)
  {
    if subs == [] then 0 else if subs[0].topic == topic then 0 else 1 + Find(subs[1..], topic)
  }

  // find_or_create_subscription_: the demand for encryption is sticky.
  function FindOrCreate(subs: seq<Subscription>, topic: Topic, require: bool): (r: seq<Subscription>)
    ensures Find(subs, topic) < |r|
  {
    var i := Find(subs, topic);
    if i < |subs| then subs[i := subs[i].(requireEncryption := subs[i].requireEncryption || require)]
    else subs + [Subscription(topic, TopicHash.Crc32(topic), [], [], require)]
  }

  function AddRaw(subs: seq<Subscription>, topic: Topic, cb: nat, require: bool): seq<Subscription>
  {
    var r, i := FindOrCreate(subs, topic, require), Find(subs, topic);
    r[i := r[i].(raw := r[i].raw + [cb])]
  }

  function AddTyped(subs: seq<Subscription>, topic: Topic, typed: Typed, require: bool): seq<Subscription>
  {
    var r, i := FindOrCreate(subs, topic, require), Find(subs, topic);
    r[i := r[i].(typed := r[i].typed + [typed])]
  }

  // ---------------------------------------------------------------- delivering

  function RawDeliveries(topic: Topic, raw: seq<nat>, body: seq<byte>, encrypted: bool): seq<Delivery>
  {
    if raw == [] then [] else [Delivery(topic, raw[0], body, encrypted)] + RawDeliveries(topic, raw[1..], body, encrypted)
  }

  function TypedDeliveries(topic: Topic, typed: seq<Typed>, schemaId: u16, body: seq<byte>, encrypted: bool): seq<Delivery>
  {
    if typed == [] then []
    else (if typed[0].schemaId == schemaId then [Delivery(topic, typed[0].cb, body, encrypted)] else [])
         + TypedDeliveries(topic, typed[1..], schemaId, body, encrypted)
  }

  function SchemaId(payload: seq<byte>): u16
    requires |payload| >= 2
  {
    Pair(payload[0], payload[1])
  }

  // A typed payload is the schema id, low byte first, and the body.
  lemma TypedPayload(schemaId: u16, body: seq<byte>)
    ensures var payload := ToLe(schemaId, 2) + body; SchemaId(payload) == schemaId && payload[2..] == body
  {
    ToLe2(schemaId);
  }

  function SubDeliveries(sub: Subscription, encoding: byte, payload: seq<byte>, encrypted: bool): seq<Delivery>
  {
    if sub.requireEncryption && !encrypted then []
    else if encoding == RAW then RawDeliveries(sub.topic, sub.raw, payload, encrypted)
    else if encoding == PROTOBUF && |payload| >= 2
    then TypedDeliveries(sub.topic, sub.typed, SchemaId(payload), payload[2..], encrypted)
    else []
  }

  function Deliveries(subs: seq<Subscription>, crc: u32, encoding: byte, payload: seq<byte>, encrypted: bool): seq<Delivery>
  {
    if subs == [] then []
    else (if subs[0].crc == crc then SubDeliveries(subs[0], encoding, payload, encrypted) else [])
         + Deliveries(subs[1..], crc, encoding, payload, encrypted)
  }

  predicate Matches(subs: seq<Subscription>, crc: u32)
  {
    exists i :: 0 <= i < |subs| && subs[i].crc == crc
  }

  // Who is owed a delivery, and of what.
  ghost predicate Owed(sub: Subscription, crc: u32, encoding: byte, payload: seq<byte>, encrypted: bool, d: Delivery)
  {
    && sub.crc == crc && d.topic == sub.topic && d.encrypted == encrypted
    && (sub.requireEncryption ==> encrypted)
    && ((encoding == RAW && d.cb in sub.raw && d.body == payload)
        || (encoding == PROTOBUF && |payload| >= 2 && Typed(SchemaId(payload), d.cb) in sub.typed && d.body == payload[2..]))
  }

  lemma {:induction false} RawDeliveriesExact(topic: Topic, raw: seq<nat>, body: seq<byte>, encrypted: bool, d: Delivery)
    ensures d in RawDeliveries(topic, raw, body, encrypted)
            <==> d.topic == topic && d.cb in raw && d.body == body && d.encrypted == encrypted
    decreases |raw|
  {
    if raw != [] {
      RawDeliveriesExact(topic, raw[1..], body, encrypted, d);
    }
  }

  lemma {:induction false} TypedDeliveriesExact(topic: Topic, typed: seq<Typed>, schemaId: u16,
      body: seq<byte>, encrypted: bool, d: Delivery)
    ensures d in TypedDeliveries(topic, typed, schemaId, body, encrypted)
            <==> d.topic == topic && Typed(schemaId, d.cb) in typed && d.body == body && d.encrypted == encrypted
    decreases |typed|
  {
    if typed != [] {
      TypedDeliveriesExact(topic, typed[1..], schemaId, body, encrypted, d);
    }
  }

  lemma SubDeliveriesExact(sub: Subscription, encoding: byte, payload: seq<byte>, encrypted: bool, d: Delivery)
    ensures d in SubDeliveries(sub, encoding, payload, encrypted) <==> Owed(sub, sub.crc, encoding, payload, encrypted, d)
  {
    RawDeliveriesExact(sub.topic, sub.raw, payload, encrypted, d);
    if |payload| >= 2 {
      TypedDeliveriesExact(sub.topic, sub.typed, SchemaId(payload), payload[2..], encrypted, d);
    }
  }

  // Exactly what is owed is delivered.
  lemma {:induction false} DeliveriesExact(subs: seq<Subscription>, crc: u32, encoding: byte,
      payload: seq<byte>, encrypted: bool, d: Delivery)
    ensures d in Deliveries(subs, crc, encoding, payload, encrypted)
            <==> exists i :: 0 <= i < |subs| && Owed(subs[i], crc, encoding, payload, encrypted, d)
    decreases |subs|
  {
    hide Owed, SubDeliveries;
    if subs != [] {
      DeliveriesExact(subs[1..], crc, encoding, payload, encrypted, d);
      SubDeliveriesExact(subs[0], encoding, payload, encrypted, d);
      OwedNeedsCrc(subs[0], crc, encoding, payload, encrypted, d);
      assert forall i :: 0 <= i < |subs| - 1 ==> subs[1..][i] == subs[i + 1];
      if exists i :: 0 <= i < |subs[1..]| && Owed(subs[1..][i], crc, encoding, payload, encrypted, d) {
        var i :| 0 <= i < |subs[1..]| && Owed(subs[1..][i], crc, encoding, payload, encrypted, d);
        assert Owed(subs[i + 1], crc, encoding, payload, encrypted, d);
      }
      if exists i :: 0 <= i < |subs| && Owed(subs[i], crc, encoding, payload, encrypted, d) {
        var i :| 0 <= i < |subs| && Owed(subs[i], crc, encoding, payload, encrypted, d);
        if i > 0 {
          assert Owed(subs[1..][i - 1], crc, encoding, payload, encrypted, d);
        }
      }
    }
  }

  lemma OwedNeedsCrc(sub: Subscription, crc: u32, encoding: byte, payload: seq<byte>, encrypted: bool, d: Delivery)
    ensures Owed(sub, crc, encoding, payload, encrypted, d)
            <==> sub.crc == crc && Owed(sub, sub.crc, encoding, payload, encrypted, d)
  {
  }

  // The at-th callback of a kind, of the sub-th subscription.
  datatype Registration = Registration(sub: nat, at: nat)

  predicate Before(r: Registration, s: Registration)
  {
    r.sub < s.sub || (r.sub == s.sub && r.at < s.at)
  }

  // The registration of a subscription that is owed a delivery.
  predicate OwedAt(sub: Subscription, encoding: byte, payload: seq<byte>, encrypted: bool, at: nat, d: Delivery)
  {
    && (sub.requireEncryption ==> encrypted)
    && ((encoding == RAW && at < |sub.raw| && d == Delivery(sub.topic, sub.raw[at], payload, encrypted))
        || (encoding == PROTOBUF && |payload| >= 2 && at < |sub.typed| && sub.typed[at].schemaId == SchemaId(payload)
            && d == Delivery(sub.topic, sub.typed[at].cb, payload[2..], encrypted)))
  }

  ghost predicate Ascends(at: seq<nat>)
  {
    forall k, l :: 0 <= k < l < |at| ==> at[k] < at[l]
  }

  lemma {:induction false} RawInOrder(topic: Topic, raw: seq<nat>, body: seq<byte>, encrypted: bool)
    ensures var ds := RawDeliveries(topic, raw, body, encrypted);
      |ds| == |raw| && forall k :: 0 <= k < |raw| ==> ds[k] == Delivery(topic, raw[k], body, encrypted)
    decreases |raw|
  {
    if raw != [] {
      RawInOrder(topic, raw[1..], body, encrypted);
    }
  }

  function Shifted(at: seq<nat>): (r: seq<nat>)
    ensures |r| == |at|
  {
    seq(|at|, k requires 0 <= k < |at| => at[k] + 1)
  }

  function ShiftedBehind(first: bool, at: seq<nat>): seq<nat>
  {
    (if first then [0] else []) + Shifted(at)
  }

  lemma ShiftedAscends(first: bool, at: seq<nat>)
    requires Ascends(at)
    ensures Ascends(ShiftedBehind(first, at))
  {
  }

  lemma ShiftedHas(first: bool, at: seq<nat>, i: nat)
    ensures i in ShiftedBehind(first, at) <==> if i == 0 then first else i - 1 in at
  {
    if i > 0 && i - 1 in at {
      var k :| 0 <= k < |at| && at[k] == i - 1;
      assert Shifted(at)[k] == i;
    }
    if i > 0 && i in Shifted(at) {
      var k :| 0 <= k < |at| && Shifted(at)[k] == i;
      assert at[k] == i - 1;
    }
  }

  // The selected typed callbacks and the deliveries to them, one for one.
  ghost predicate TypedCalls(topic: Topic, typed: seq<Typed>, body: seq<byte>, encrypted: bool, at: seq<nat>, ds: seq<Delivery>)
  {
    && |at| == |ds|
    && forall k :: 0 <= k < |at| ==> at[k] < |typed| && ds[k] == Delivery(topic, typed[at[k]].cb, body, encrypted)
  }

  lemma TypedCallsLater(topic: Topic, typed: seq<Typed>, body: seq<byte>, encrypted: bool, at: seq<nat>, ds: seq<Delivery>)
    requires typed != [] && TypedCalls(topic, typed[1..], body, encrypted, at, ds)
    ensures TypedCalls(topic, typed, body, encrypted, Shifted(at), ds)
  {
    forall k | 0 <= k < |at|
      ensures at[k] + 1 < |typed| && ds[k] == Delivery(topic, typed[at[k] + 1].cb, body, encrypted)
    {
      assert typed[1..][at[k]] == typed[at[k] + 1];
    }
  }

  lemma TypedCallsBoth(topic: Topic, typed: seq<Typed>, body: seq<byte>, encrypted: bool,
      at: seq<nat>, ds: seq<Delivery>, at': seq<nat>, ds': seq<Delivery>)
    requires TypedCalls(topic, typed, body, encrypted, at, ds) && TypedCalls(topic, typed, body, encrypted, at', ds')
    ensures TypedCalls(topic, typed, body, encrypted, at + at', ds + ds')
  {
  }

  lemma TypedCallsShifted(topic: Topic, typed: seq<Typed>, body: seq<byte>, encrypted: bool, first: bool, at: seq<nat>,
      ds: seq<Delivery>)
    requires typed != [] && TypedCalls(topic, typed[1..], body, encrypted, at, ds)
    ensures TypedCalls(topic, typed, body, encrypted, ShiftedBehind(first, at),
                       (if first then [Delivery(topic, typed[0].cb, body, encrypted)] else []) + ds)
  {
    hide Shifted;
    var here: seq<nat> := if first then [0] else [];
    var d := if first then [Delivery(topic, typed[0].cb, body, encrypted)] else [];
    TypedCallsLater(topic, typed, body, encrypted, at, ds);
    assert TypedCalls(topic, typed, body, encrypted, here, d);
    hide TypedCalls;
    TypedCallsBoth(topic, typed, body, encrypted, here, d, Shifted(at), ds);
  }

  lemma {:induction false} TypedInOrder(topic: Topic, typed: seq<Typed>, schemaId: u16, body: seq<byte>, encrypted: bool)
    returns (at: seq<nat>)
    ensures TypedCalls(topic, typed, body, encrypted, at, TypedDeliveries(topic, typed, schemaId, body, encrypted))
    ensures Ascends(at) && forall i: nat :: i in at <==> i < |typed| && typed[i].schemaId == schemaId
    decreases |typed|
  {
    hide TypedCalls, Ascends, ShiftedBehind;
    if typed == [] {
      at := [];
      assert TypedCalls(topic, typed, body, encrypted, at, []) && Ascends(at) by {
        NoTypedCalls(topic, body, encrypted);
      }
    } else {
      var rest := TypedInOrder(topic, typed[1..], schemaId, body, encrypted);
      var first := typed[0].schemaId == schemaId;
      at := ShiftedBehind(first, rest);
      ShiftedAscends(first, rest);
      TypedCallsShifted(topic, typed, body, encrypted, first, rest, TypedDeliveries(topic, typed[1..], schemaId, body, encrypted));
      forall i: nat
        ensures i in at <==> i < |typed| && typed[i].schemaId == schemaId
      {
        ShiftedHas(first, rest, i);
      }
    }
  }

  lemma NoTypedCalls(topic: Topic, body: seq<byte>, encrypted: bool)
    ensures TypedCalls(topic, [], body, encrypted, [], []) && Ascends([])
  {
  }

  lemma SubInOrder(sub: Subscription, encoding: byte, payload: seq<byte>, encrypted: bool) returns (at: seq<nat>)
    ensures var ds := SubDeliveries(sub, encoding, payload, encrypted);
      && |at| == |ds| && Ascends(at)
      && (forall k :: 0 <= k < |at| ==> OwedAt(sub, encoding, payload, encrypted, at[k], ds[k]))
    ensures forall i, d :: OwedAt(sub, encoding, payload, encrypted, i, d) ==> i in at
  {
    hide RawDeliveries, TypedDeliveries;
    at := [];
    if sub.requireEncryption && !encrypted {
    } else if encoding == RAW {
      RawInOrder(sub.topic, sub.raw, payload, encrypted);
      at := seq(|sub.raw|, i => i);
      assert forall i :: 0 <= i < |sub.raw| ==> at[i] == i;
    } else if encoding == PROTOBUF && |payload| >= 2 {
      at := TypedInOrder(sub.topic, sub.typed, SchemaId(payload), payload[2..], encrypted);
    }
  }

  ghost predicate OwedTo(subs: seq<Subscription>, crc: u32, encoding: byte, payload: seq<byte>, encrypted: bool,
      r: Registration, d: Delivery)
  {
    r.sub < |subs| && subs[r.sub].crc == crc && OwedAt(subs[r.sub], encoding, payload, encrypted, r.at, d)
  }

  function FirstSub(at: seq<nat>): (rs: seq<Registration>)
    ensures |rs| == |at|
  {
    seq(|at|, k requires 0 <= k < |at| => Registration(0, at[k]))
  }

  function LaterSubs(rs: seq<Registration>): (r: seq<Registration>)
    ensures |r| == |rs|
  {
    seq(|rs|, k requires 0 <= k < |rs| => Registration(rs[k].sub + 1, rs[k].at))
  }

  ghost predicate RegistrationsAscend(rs: seq<Registration>)
  {
    forall k, l :: 0 <= k < l < |rs| ==> Before(rs[k], rs[l])
  }

  ghost predicate CallsOwed(subs: seq<Subscription>, crc: u32, encoding: byte, payload: seq<byte>, encrypted: bool,
      rs: seq<Registration>, ds: seq<Delivery>)
  {
    |rs| == |ds| && forall k :: 0 <= k < |rs| ==> OwedTo(subs, crc, encoding, payload, encrypted, rs[k], ds[k])
  }

  lemma FirstThenLater(at: seq<nat>, rest: seq<Registration>)
    requires Ascends(at) && RegistrationsAscend(rest)
    ensures RegistrationsAscend(FirstSub(at) + LaterSubs(rest))
  {
  }

  lemma FirstThenLaterHas(at: seq<nat>, rest: seq<Registration>, r: Registration)
    requires if r.sub == 0 then r.at in at else Registration(r.sub - 1, r.at) in rest
    ensures r in FirstSub(at) + LaterSubs(rest)
  {
    if r.sub == 0 {
      var k :| 0 <= k < |at| && at[k] == r.at;
      assert FirstSub(at)[k] == r;
    } else {
      var k :| 0 <= k < |rest| && rest[k] == Registration(r.sub - 1, r.at);
      assert LaterSubs(rest)[k] == r;
    }
  }

  lemma LaterOwed(subs: seq<Subscription>, crc: u32, encoding: byte, payload: seq<byte>, encrypted: bool,
      rs: seq<Registration>, ds: seq<Delivery>)
    requires subs != [] && CallsOwed(subs[1..], crc, encoding, payload, encrypted, rs, ds)
    ensures CallsOwed(subs, crc, encoding, payload, encrypted, LaterSubs(rs), ds)
  {
    hide OwedAt;
    forall k | 0 <= k < |rs|
      ensures OwedTo(subs, crc, encoding, payload, encrypted, LaterSubs(rs)[k], ds[k])
    {
      assert OwedTo(subs[1..], crc, encoding, payload, encrypted, rs[k], ds[k]);
    }
  }

  lemma BothOwed(subs: seq<Subscription>, crc: u32, encoding: byte, payload: seq<byte>, encrypted: bool,
      rs: seq<Registration>, ds: seq<Delivery>, rs': seq<Registration>, ds': seq<Delivery>)
    requires CallsOwed(subs, crc, encoding, payload, encrypted, rs, ds)
    requires CallsOwed(subs, crc, encoding, payload, encrypted, rs', ds')
    ensures CallsOwed(subs, crc, encoding, payload, encrypted, rs + rs', ds + ds')
  {
    hide OwedTo;
  }

  // What the first subscription is owed, if the CRC is its own.
  lemma FirstOwed(subs: seq<Subscription>, crc: u32, encoding: byte, payload: seq<byte>, encrypted: bool) returns (at: seq<nat>)
    requires subs != []
    ensures Ascends(at)
    ensures CallsOwed(subs, crc, encoding, payload, encrypted, FirstSub(at),
                      if subs[0].crc == crc then SubDeliveries(subs[0], encoding, payload, encrypted) else [])
    ensures forall i, d :: subs[0].crc == crc && OwedAt(subs[0], encoding, payload, encrypted, i, d) ==> i in at
  {
    hide OwedAt, SubDeliveries;
    at := [];
    if subs[0].crc == crc {
      at := SubInOrder(subs[0], encoding, payload, encrypted);
    }
  }

  // Deliveries and owed registrations correspond one to one, and in order: by subscription, and within one
  // by registration. So each callback is called as often as it is registered.
  lemma {:induction false} DeliveriesInOrder(subs: seq<Subscription>, crc: u32, encoding: byte, payload: seq<byte>, encrypted: bool)
    returns (rs: seq<Registration>)
    ensures CallsOwed(subs, crc, encoding, payload, encrypted, rs, Deliveries(subs, crc, encoding, payload, encrypted))
    ensures RegistrationsAscend(rs)
    ensures forall r, d :: OwedTo(subs, crc, encoding, payload, encrypted, r, d) ==> r in rs
    decreases |subs|
  {
    hide SubDeliveries, OwedAt, CallsOwed, RegistrationsAscend, FirstSub, LaterSubs;
    if subs == [] {
      rs := [];
      NothingOwed(crc, encoding, payload, encrypted);
    } else {
      var rest := DeliveriesInOrder(subs[1..], crc, encoding, payload, encrypted);
      var at := FirstOwed(subs, crc, encoding, payload, encrypted);
      rs := FirstSub(at) + LaterSubs(rest);
      FirstThenLater(at, rest);
      var later := Deliveries(subs[1..], crc, encoding, payload, encrypted);
      var first := if subs[0].crc == crc then SubDeliveries(subs[0], encoding, payload, encrypted) else [];
      LaterOwed(subs, crc, encoding, payload, encrypted, rest, later);
      BothOwed(subs, crc, encoding, payload, encrypted, FirstSub(at), first, LaterSubs(rest), later);
      forall r, d | OwedTo(subs, crc, encoding, payload, encrypted, r, d)
        ensures r in rs
      {
        if r.sub > 0 {
          assert OwedTo(subs[1..], crc, encoding, payload, encrypted, Registration(r.sub - 1, r.at), d);
        }
        FirstThenLaterHas(at, rest, r);
      }
    }
  }

  lemma NothingOwed(crc: u32, encoding: byte, payload: seq<byte>, encrypted: bool)
    ensures CallsOwed([], crc, encoding, payload, encrypted, [], []) && RegistrationsAscend([])
  {
  }

  // ---------------------------------------------------------------- receiving

  function Bump(x: u32): u32 { U32(x + 1) }

  function Deliver(s: State, crc: u32, encoding: byte, payload: seq<byte>, encrypted: bool): State
  {
    s.(delivered := s.delivered + Deliveries(s.subs, crc, encoding, payload, encrypted))
  }

  // The sealed parts of an encrypted body: nonce, then ciphertext, then tag.
  function Unseal(key: seq<byte>, header: seq<byte>, body: seq<byte>): Option<seq<byte>>
    requires |key| == 32 && |body| >= 28
  {
    Aead.Open(key, body[..12], Aead.Sealed(body[12..|body| - 16], body[|body| - 16..]), header)
  }

  function GuardCommand(plaintext: seq<byte>, body: seq<byte>, now: u32, nowValid: bool): Command<int>
    requires |plaintext| >= 8 && |body| >= 12
  {
    Command(now, nowValid, Load32(plaintext, 4), Load32(body, 0))
  }

  predicate KeyOk(key: Option<seq<byte>>) { key.Some? ==> |key.value| == 32 }

  // Authenticated plaintext of a parsed packet, if there is one.
  function Authenticate(key: Option<seq<byte>>, data: seq<byte>, p: Packet): (r: Option<seq<byte>>)
    requires KeyOk(key) && |data| >= HEADER_LEN
    ensures r.Some? ==> |p.payload| >= 28 && |r.value| == |p.payload| - 28
  {
    if key.None? then None
    else if |p.payload| > MAX_DATAGRAM || |p.payload| < 28 then None
    else Unseal(key.value, data[..HEADER_LEN], p.payload)
  }

  // What the component makes of a datagram: the CRC to look up, the encoding and payload to deliver, and
  // what the replay guard is asked.
  function Understood(key: Option<seq<byte>>, data: seq<byte>): Option<Decoded>
    requires KeyOk(key)
  {
    match Parse(data)
    case Bad(_) => None
    case Good(p) =>
      if p.mode == MODE_AEAD then
        match Authenticate(key, data, p)
        case None => None
        case Some(plaintext) => Some(Opened(p, plaintext))
      else Some(Decoded(p.crc, p.encoding, p.payload, None, None, false))
  }

  function Opened(p: Packet, plaintext: seq<byte>): Decoded
    requires |plaintext| >= PREFIX_LEN + p.plaintextLen && |p.payload| >= 12
  {
    Decoded(Load32(plaintext, 0), p.encoding, plaintext[PREFIX_LEN..PREFIX_LEN + p.plaintextLen],
            Some(Load32(plaintext, 4)), Some(Load32(p.payload, 0)), true)
  }

  // Python decodes every datagram that the component can read into exactly that.
  lemma DecodersAgree(key: Option<seq<byte>>, data: seq<byte>)
    requires KeyOk(key) && |data| <= MAX_DATAGRAM
    ensures Wire.Decode(data, key) == Understood(key, data)
  {
    hide Wire.Decode, Parse, Authenticate, Opened, Aead.Tag;
    if |data| < HEADER_LEN {
      ShortDatagram(key, data);
    } else if data[10] != MODE_AEAD {
      ParsersAgreePlain(data, key);
      ModeOf(data);
    } else {
      ParsersAgreeSealed(data, key);
      ModeOf(data);
      if Parse(data).Good? {
        DecodersAgreeSealed(key, data);
      }
    }
  }

  lemma ShortDatagram(key: Option<seq<byte>>, data: seq<byte>)
    requires |data| < HEADER_LEN
    ensures Wire.Decode(data, key) == None && Parse(data).Bad?
  {
  }

  lemma ModeOf(data: seq<byte>)
    requires |data| >= HEADER_LEN
    ensures Parse(data).Good? ==> Parse(data).packet.mode == data[10]
  {
    hide HeaderCrc, HeaderLen;
  }

  // CRC, timestamp and payload come from the authenticated plaintext, the nonce's low 32 bits from the body.
  lemma DecodersAgreeSealed(key: Option<seq<byte>>, data: seq<byte>)
    requires KeyOk(key) && Parse(data).Good? && Parse(data).packet.mode == MODE_AEAD
    requires |data| <= MAX_DATAGRAM
    ensures Wire.Decode(data, key) == Understood(key, data)
  {
    hide HeaderCrc, HeaderLen, Aead.Open, Load32;
    var p := Parse(data).packet;
    SealedBody(data);
    LoadPrefix(p.payload[..12], p.payload);
    if Authenticate(key, data, p).Some? {
      var plaintext := Authenticate(key, data, p).value;
      assert plaintext[PREFIX_LEN..PREFIX_LEN + p.plaintextLen] == plaintext[PREFIX_LEN..];
    }
  }

  // The parts of a sealed datagram, counted from its start and from its body.
  lemma SealedBody(data: seq<byte>)
    requires |data| >= HEADER_LEN + 28
    ensures var body := data[HEADER_LEN..];
      && data[0..2] == [data[0], data[1]] && data[0..HEADER_LEN] == data[..HEADER_LEN]
      && data[HEADER_LEN..HEADER_LEN + 12] == body[..12]
      && data[HEADER_LEN + 12..|data| - 16] == body[12..|body| - 16]
      && data[|data| - 16..] == body[|body| - 16..]
  {
  }

  // handle_encrypted_
  function HandleEncrypted(s: State, data: seq<byte>, p: Packet, now: u32, nowValid: bool): (r: State)
    requires KeyOk(s.key) && Parse(data) == Good(p) && p.mode == MODE_AEAD
    ensures r.key == s.key && r.window == s.window && r.subs == s.subs
  {
    match Authenticate(s.key, data, p)
    case None => s.(verifyFailed := Bump(s.verifyFailed))
    case Some(plaintext) =>
      var s1 := s.(verifyOk := Bump(s.verifyOk));
      var body := plaintext[PREFIX_LEN..PREFIX_LEN + p.plaintextLen];
      if s.window == 0 then Deliver(s1, Load32(plaintext, 0), p.encoding, body, true)
      else
        var o := Decide(s.window, COMPONENT_ENTRIES, s.entries, GuardCommand(plaintext, p.payload, now, nowValid));
        var s2 := s1.(entries := o.entries);
        if o.accepted then Deliver(s2, Load32(plaintext, 0), p.encoding, body, true) else s2
  }

  // on_packet_
  function Receive(s: State, data: seq<byte>, now: u32, nowValid: bool): (r: State)
    requires KeyOk(s.key)
    ensures r.key == s.key && r.window == s.window && r.subs == s.subs
  {
    var s1 := s.(received := Bump(s.received));
    match Parse(data)
    case Bad(_) => s1.(malformed := s1.malformed + 1)
    case Good(p) =>
      if p.mode == MODE_AEAD then HandleEncrypted(s1, data, p, now, nowValid)
      else
        var s2 := Deliver(s1, p.crc, p.encoding, p.payload, false);
        if Matches(s.subs, p.crc) then s2.(verifyOk := Bump(s2.verifyOk)) else s2.(verifyFailed := Bump(s2.verifyFailed))
  }

  // ---------------------------------------------------------------- end to end

  // What the replay guard must say for a published datagram to get through.
  predicate GuardAccepts(s: State, timestamp: int, nonce: seq<byte>, now: u32, nowValid: bool)
    requires |nonce| >= 4
  {
    s.window != 0 ==>
      Decide(s.window, COMPONENT_ENTRIES, s.entries, Command(now, nowValid, timestamp % 0x1_0000_0000, Load32(nonce, 0))).accepted
  }

  lemma EndToEndPlain(s: State, topic: Topic, payload: seq<byte>, encoding: int, timestamp: int,
      nonce: seq<byte>, now: u32, nowValid: bool)
    requires KeyOk(s.key) && Encodable(payload, encoding, None, nonce)
    ensures var crc := TopicHash.Crc32(topic);
      var d := Encode(topic, payload, encoding, None, timestamp, nonce).value;
      var s' := Receive(s, d, now, nowValid);
      && |d| <= MAX_DATAGRAM
      && s'.delivered == s.delivered + Deliveries(s.subs, crc, encoding, payload, false)
      && s'.entries == s.entries
      && (Matches(s.subs, crc) ==> s'.verifyOk == Bump(s.verifyOk) && s'.verifyFailed == s.verifyFailed)
  {
    hide TopicHash.Crc32, Header, HeaderCrc, HeaderLen, Deliveries;
    HeaderFields(TopicHash.Crc32(topic), encoding, |payload|, MODE_NONE, payload);
  }

  lemma EndToEndSealed(s: State, topic: Topic, payload: seq<byte>, encoding: int, timestamp: int,
      nonce: seq<byte>, now: u32, nowValid: bool)
    requires s.key.Some? && Encodable(payload, encoding, s.key, nonce)
    requires GuardAccepts(s, timestamp, nonce, now, nowValid)
    ensures KeyOk(s.key)
    ensures var crc := TopicHash.Crc32(topic);
      var d := Encode(topic, payload, encoding, s.key, timestamp, nonce).value;
      var s' := Receive(s, d, now, nowValid);
      && |d| <= MAX_DATAGRAM
      && s'.delivered == s.delivered + Deliveries(s.subs, crc, encoding, payload, true)
      && s'.verifyOk == Bump(s.verifyOk) && s'.verifyFailed == s.verifyFailed
  {
    hide TopicHash.Crc32, Header, HeaderCrc, HeaderLen, Deliveries, Aead.Seal, Aead.Open, Plaintext, Load32, Decide;
    var key := s.key.value;
    var header := Header(0, encoding, |payload|, MODE_AEAD);
    var plaintext := Plaintext(TopicHash.Crc32(topic), timestamp, payload);
    PlaintextFields(TopicHash.Crc32(topic), timestamp, payload);
    var c := Aead.Seal(key, nonce, plaintext, header);
    var body := nonce + c.ct + c.tag;
    SealedPieces(header, nonce, c.ct, c.tag);
    HeaderFields(0, encoding, |payload|, MODE_AEAD, body);
    Aead.OpenIffSealed(key, nonce, plaintext, c, header);
    assert body[..12] == nonce && body[12..|body| - 16] == c.ct && body[|body| - 16..] == c.tag;
    LoadPrefix(nonce, body);
    assert plaintext[PREFIX_LEN..PREFIX_LEN + |payload|] == payload;
  }

  lemma LoadPrefix(nonce: seq<byte>, body: seq<byte>)
    requires |nonce| == 12 && |body| >= 12 && body[..12] == nonce
    ensures Load32(body, 0) == Load32(nonce, 0)
  {
    assert body[..12][0] == body[0] && body[..12][1] == body[1] && body[..12][2] == body[2] && body[..12][3] == body[3];
  }
}
