/**
The C++ component at work on its buffers: subscribing, publishing and receiving, each proved against the
functions of Pipeline and Wire.

The clock, the random words and the outcome of sending are inputs. Calls of callbacks and datagrams sent
are logged.
*/
module MulticastPubSub {
  import opened Options
  import opened Words
  import opened Wire
  import opened Pipeline
  import opened ReplaySpec
  import Aead
  import ReplayGuards
  import TopicHash

  datatype Datagram = Datagram(group: seq<byte>, bytes: seq<byte>)

  // ---------------------------------------------------------------- writing into buffers

  function Splice(b: seq<byte>, at: nat, s: seq<byte>): (r: seq<byte>)
    requires at + |s| <= |b|
    ensures |r| == |b|
  {
    b[..at] + s + b[at + |s|..]
  }

  lemma SpliceAdjacent(b: seq<byte>, at: nat, s: seq<byte>, t: seq<byte>)
    requires at + |s| + |t| <= |b|
    ensures Splice(Splice(b, at, s), at + |s|, t) == Splice(b, at, s + t)
  {
  }

  // memcpy
  method CopyInto(buf: array<byte>, at: nat, s: seq<byte>)
    requires at + |s| <= buf.Length
    modifies buf
    ensures buf[..] == Splice(old(buf[..]), at, s)
  {
    for i := 0 to |s|
      modifies buf
      invariant buf[..at] == old(buf[..at]) && buf[at..at + i] == s[..i] && buf[at + i..] == old(buf[at + i..])
    {
      buf[at + i] := s[i];
      assert buf[at..at + i + 1] == buf[at..at + i] + [s[i]];
      assert buf[at + i + 1..] == buf[at + i..][1..];
    }
    assert buf[..] == buf[..at] + buf[at..at + |s|] + buf[at + |s|..];
  }

  // store_u32le
  method Store32(buf: array<byte>, at: nat, v: u32)
    requires at + 4 <= buf.Length
    modifies buf
    ensures buf[..] == Splice(old(buf[..]), at, ToLe(v, 4))
  {
    hide ToLe;
    ToLe4(v);
    buf[at] := v % 256;
    buf[at + 1] := v / 0x100 % 256;
    buf[at + 2] := v / 0x1_0000 % 256;
    buf[at + 3] := v / 0x100_0000;
    assert buf[..] == buf[..at] + buf[at..at + 4] + buf[at + 4..];
  }

  function Nonce(random: (u32, u32, u32)): (nonce: seq<byte>)
    ensures |nonce| == 12
  {
    ToLe(random.0, 4) + ToLe(random.1, 4) + ToLe(random.2, 4)
  }

  // ---------------------------------------------------------------- the component

  class Node {
    const key: Option<seq<byte>>
    const scope: TopicHash.Scope
    const guard: ReplayGuards.Ring
    var socketReady: bool
    var failed: bool
    var subscriptions: seq<Subscription>
    var packetsReceived: u32
    var packetsSent: u32
    var verifyOk: u32
    var verifyFailed: u32
    ghost var malformed: nat
    var calls: seq<Delivery>
    var outbox: seq<Datagram>
    // The group field of each subscription, and the groups the socket has been asked to join.
    var groups: seq<seq<byte>>
    var joins: seq<seq<byte>>

    // Every subscription has its topic's group, and a component that is up has asked for all of them.
    ghost predicate Grouped()
      reads this
    {
      && |groups| == |subscriptions|
      && (forall i :: 0 <= i < |groups| ==> groups[i] == TopicHash.Group(subscriptions[i].topic, scope))
      && (socketReady && !failed ==> forall i :: 0 <= i < |groups| ==> groups[i] in joins)
    }

    ghost predicate Valid()
      reads this, guard, guard.slots
    {
      && KeyOk(key)
      && guard.Valid() && guard.slots.Length == COMPONENT_ENTRIES
    }

    ghost function Abs(): State
      requires Valid()
      reads this, guard, guard.slots
    {
      State(key, guard.window, subscriptions, guard.Contents(), packetsReceived, verifyOk, verifyFailed, malformed, calls)
    }

    constructor (key: Option<seq<byte>>, scope: TopicHash.Scope, window: u32)
      requires KeyOk(key)
      ensures Valid() && fresh(guard) && fresh(guard.slots)
      ensures Abs() == State(key, window, [], [], 0, 0, 0, 0, [])
      ensures this.key == key && this.scope == scope && outbox == [] && packetsSent == 0
      ensures Grouped() && !socketReady && !failed
    {
      this.key := key;
      this.scope := scope;
      var ring := new ReplayGuards.Ring(COMPONENT_ENTRIES, window);
      guard := ring;
      socketReady, failed := false, false;
      subscriptions := [];
      groups, joins := [], [];
      packetsReceived, packetsSent, verifyOk, verifyFailed, malformed := 0, 0, 0, 0, 0;
      calls := [];
      outbox := [];
    }

    // setup, with the outcomes of creating and of binding the socket. A socket that could not be bound stays.
    method Setup(created: bool, bound: bool)
      requires Valid() && Grouped()
      modifies `socketReady, `failed, `joins
      ensures Valid() && Grouped() && Abs() == old(Abs())
      ensures socketReady == created && failed == (old(failed) || !(created && bound))
      ensures joins == if created && bound then groups else []
    {
      hide TopicHash.Group;
      socketReady := created;
      joins := [];
      if !socketReady {
        failed := true;
        return;
      }
      if !bound {
        failed := true;
        return;
      }
      for i := 0 to |groups|
        modifies `joins
        invariant joins == groups[..i]
      {
        joins := joins + [groups[i]];
      }
      assert groups[..|groups|] == groups;
    }

    // ---------------------------------------------------------------- subscribing

    method FindSubscription(topic: Topic) returns (i: nat)
      ensures i == Find(subscriptions, topic)
    {
      i := 0;
      while i < |subscriptions| && subscriptions[i].topic != topic
        invariant i <= |subscriptions|
        invariant i + Find(subscriptions[i..], topic) == Find(subscriptions, topic)
      {
        assert subscriptions[i..][1..] == subscriptions[i + 1..];
        i := i + 1;
      }
    }

    // A late subscription joins its group at once.
    method FindOrCreateSubscription(topic: Topic, requireEncryption: bool) returns (i: nat)
      requires Grouped()
      modifies `subscriptions, `groups, `joins
      ensures Grouped()
      ensures var late := Find(old(subscriptions), topic) == |old(subscriptions)|;
        && groups == old(groups) + (if late then [TopicHash.Group(topic, scope)] else [])
        && joins == old(joins) + if late && socketReady then [TopicHash.Group(topic, scope)] else []
      ensures subscriptions == FindOrCreate(old(subscriptions), topic, requireEncryption)
      ensures i == Find(old(subscriptions), topic) && i < |subscriptions|
    {
      hide TopicHash.Crc32, TopicHash.Group, Find, FindOrCreate;
      i := FindSubscription(topic);
      FoundOrCreated(subscriptions, topic, requireEncryption);
      if i < |subscriptions| {
        if requireEncryption {
          subscriptions := subscriptions[i := subscriptions[i].(requireEncryption := true)];
        }
      } else {
        var crc := TopicHash.TopicCrc32(topic);
        var group := TopicHash.TopicToGroup(topic, scope);
        subscriptions := subscriptions + [Subscription(topic, crc, [], [], requireEncryption)];
        groups := groups + [group[..]];
        if socketReady {
          joins := joins + [group[..]];
        }
      }
    }

    method Subscribe(topic: Topic, cb: nat, requireEncryption: bool)
      requires Valid() && Grouped()
      modifies `subscriptions, `groups, `joins
      ensures Valid() && Grouped() && Abs() == old(Abs()).(subs := AddRaw(old(subscriptions), topic, cb, requireEncryption))
    {
      hide FindOrCreate, TopicHash.Group;
      var i := FindOrCreateSubscription(topic, requireEncryption);
      subscriptions := subscriptions[i := subscriptions[i].(raw := subscriptions[i].raw + [cb])];
    }

    method SubscribeTyped(topic: Topic, typed: Typed, requireEncryption: bool)
      requires Valid() && Grouped()
      modifies `subscriptions, `groups, `joins
      ensures Valid() && Grouped() && Abs() == old(Abs()).(subs := AddTyped(old(subscriptions), topic, typed, requireEncryption))
    {
      hide FindOrCreate, TopicHash.Group;
      var i := FindOrCreateSubscription(topic, requireEncryption);
      subscriptions := subscriptions[i := subscriptions[i].(typed := subscriptions[i].typed + [typed])];
    }

    // ---------------------------------------------------------------- delivering

    method CallRaw(sub: Subscription, payload: seq<byte>, wasEncrypted: bool)
      modifies `calls
      ensures calls == old(calls) + RawDeliveries(sub.topic, sub.raw, payload, wasEncrypted)
    {
      for i := 0 to |sub.raw|
        invariant calls + RawDeliveries(sub.topic, sub.raw[i..], payload, wasEncrypted)
                  == old(calls) + RawDeliveries(sub.topic, sub.raw, payload, wasEncrypted)
      {
        assert sub.raw[i..][1..] == sub.raw[i + 1..];
        calls := calls + [Delivery(sub.topic, sub.raw[i], payload, wasEncrypted)];
      }
    }

    method CallTyped(sub: Subscription, schemaId: u16, body: seq<byte>, wasEncrypted: bool)
      modifies `calls
      ensures calls == old(calls) + TypedDeliveries(sub.topic, sub.typed, schemaId, body, wasEncrypted)
    {
      for i := 0 to |sub.typed|
        invariant calls + TypedDeliveries(sub.topic, sub.typed[i..], schemaId, body, wasEncrypted)
                  == old(calls) + TypedDeliveries(sub.topic, sub.typed, schemaId, body, wasEncrypted)
      {
        assert sub.typed[i..][1..] == sub.typed[i + 1..];
        if sub.typed[i].schemaId == schemaId {
          calls := calls + [Delivery(sub.topic, sub.typed[i].cb, body, wasEncrypted)];
        }
      }
    }

    // deliver_
    method Deliver(crc: u32, encoding: byte, payload: seq<byte>, wasEncrypted: bool) returns (crcMatched: bool)
      modifies `calls
      ensures crcMatched == Matches(subscriptions, crc)
      ensures calls == old(calls) + Deliveries(subscriptions, crc, encoding, payload, wasEncrypted)
    {
      hide RawDeliveries, TypedDeliveries, Deliveries, Matches;
      NobodyMatches(subscriptions, crc);
      crcMatched := false;
      for i := 0 to |subscriptions|
        invariant crcMatched == Matches(subscriptions[..i], crc)
        invariant calls + Deliveries(subscriptions[i..], crc, encoding, payload, wasEncrypted)
                  == old(calls) + Deliveries(subscriptions, crc, encoding, payload, wasEncrypted)
      {
        var sub := subscriptions[i];
        MatchesNext(subscriptions, i, crc);
        DeliveriesNext(subscriptions, i, crc, encoding, payload, wasEncrypted);
        if sub.crc != crc {
          continue;
        }
        crcMatched := true;
        if sub.requireEncryption && !wasEncrypted {
          continue;
        }
        if encoding == RAW {
          CallRaw(sub, payload, wasEncrypted);
        } else if encoding == PROTOBUF {
          if |payload| < 2 {
            continue;
          }
          CallTyped(sub, SchemaId(payload), payload[2..], wasEncrypted);
        }
      }
      AllDelivered(subscriptions, crc, encoding, payload, wasEncrypted);
      assert subscriptions[..|subscriptions|] == subscriptions;
    }

    // ---------------------------------------------------------------- receiving

    // The first half of handle_encrypted_: decrypt a copy of the body in a work buffer.
    method Decrypt(raw: seq<byte>, p: Packet) returns (r: Option<seq<byte>>)
      requires KeyOk(key) && |raw| >= HEADER_LEN
      ensures r == Authenticate(key, raw, p)
    {
      hide Aead.Open;
      if key.None? {
        return None;
      }
      var work := new byte[MAX_DATAGRAM](_ => 0);
      var bodyLen := |p.payload|;
      if bodyLen > work.Length || bodyLen < 12 + 16 {
        return None;
      }
      CopyInto(work, 0, p.payload);
      Copied(p.payload, work[..]);
      var nonce, tag := work[..12], work[bodyLen - 16..bodyLen];
      var authentic := Aead.Decrypt(key.value, nonce, raw[..HEADER_LEN], work, 12, bodyLen - 16, tag);
      r := if authentic then Some(work[12..bodyLen - 16]) else None;
    }

    // handle_encrypted_
    method HandleEncrypted(raw: seq<byte>, p: Packet, now: u32, nowValid: bool)
      requires Valid() && Parse(raw) == Good(p) && p.mode == MODE_AEAD
      modifies `packetsReceived, `verifyOk, `verifyFailed, `malformed, `calls, guard, guard.slots
      ensures Valid() && Abs() == Pipeline.HandleEncrypted(old(Abs()), raw, p, now, nowValid)
    {
      hide Authenticate, Decide, Deliveries, Parse, Matches, Load32;
      var plaintext := Decrypt(raw, p);
      if plaintext.None? {
        verifyFailed := Bump(verifyFailed);
        return;
      }
      var ct := plaintext.value;
      verifyOk := Bump(verifyOk);
      if guard.window != 0 {
        var unseen := guard.Accept(now, nowValid, Load32(ct, 4), Load32(p.payload, 0));
        if !unseen {
          return;
        }
      }
      var _ := Deliver(Load32(ct, 0), p.encoding, ct[PREFIX_LEN..PREFIX_LEN + p.plaintextLen], true);
    }

    // on_packet_
    method OnPacket(raw: seq<byte>, now: u32, nowValid: bool)
      requires Valid()
      modifies `packetsReceived, `verifyOk, `verifyFailed, `malformed, `calls, guard, guard.slots
      ensures Valid() && Abs() == Receive(old(Abs()), raw, now, nowValid)
    {
      hide Parse, Pipeline.HandleEncrypted, Deliveries, Matches;
      packetsReceived := Bump(packetsReceived);
      var parsed := Parse(raw);
      if parsed.Bad? {
        malformed := malformed + 1;
        return;
      }
      var p := parsed.packet;
      if p.mode == MODE_AEAD {
        HandleEncrypted(raw, p, now, nowValid);
        return;
      }
      var matched := Deliver(p.crc, p.encoding, p.payload, false);
      if matched {
        verifyOk := Bump(verifyOk);
      } else {
        verifyFailed := Bump(verifyFailed);
      }
    }

    // ---------------------------------------------------------------- publishing

    // encrypt_body_: the body is built in place behind the header, which is authenticated with it.
    method EncryptBody(datagram: array<byte>, crc: u32, payload: seq<byte>, timestamp: u32, random: (u32, u32, u32))
      requires key.Some? && |key.value| == 32 && datagram.Length == HEADER_LEN + AeadBodyLen(|payload|)
      modifies datagram
      ensures var header := old(datagram[..HEADER_LEN]);
        var s := Aead.Seal(key.value, Nonce(random), Plaintext(crc, timestamp, payload), header);
        datagram[..] == header + Nonce(random) + s.ct + s.tag
    {
      hide Aead.Seal, ToLe, Splice;
      ghost var b := datagram[..];
      ghost var n0, n1, n2 := ToLe(random.0, 4), ToLe(random.1, 4), ToLe(random.2, 4);
      Store32(datagram, 12, random.0);
      Store32(datagram, 16, random.1);
      Store32(datagram, 20, random.2);
      Store32(datagram, 24, crc);
      Store32(datagram, 28, timestamp);
      CopyInto(datagram, 32, payload);
      SpliceSix(b, 12, n0, n1, n2, ToLe(crc, 4), ToLe(timestamp, 4), payload);
      assert timestamp % 0x1_0000_0000 == timestamp;
      ghost var plaintext := Plaintext(crc, timestamp, payload);
      assert datagram[..] == Splice(b, 12, Nonce(random) + plaintext);
      Laid(b, Nonce(random), plaintext);
      var ctLen := PREFIX_LEN + |payload|;
      var nonce := datagram[12..24];
      ghost var front, back := datagram[..24], datagram[24 + ctLen..];
      assert datagram[24..24 + ctLen] == plaintext;
      var tag := Aead.Encrypt(key.value, nonce, datagram[..HEADER_LEN], datagram, 24, 24 + ctLen);
      ghost var ct := Aead.Seal(key.value, Nonce(random), plaintext, b[..HEADER_LEN]).ct;
      assert datagram[..] == front + ct + back;
      CopyInto(datagram, 24 + ctLen, tag);
      TagLaid(front, ct, back, tag);
    }

    // What publish puts on the wire is what the Python encoder builds.
    method BuildDatagram(topic: Topic, payload: seq<byte>, encoding: byte, timestamp: u32, random: (u32, u32, u32))
      returns (datagram: array<byte>)
      requires Encodable(payload, encoding, key, Nonce(random))
      ensures fresh(datagram)
      ensures Some(datagram[..]) == Encode(topic, payload, encoding, key, timestamp, Nonce(random))
    {
      hide Aead.Seal, TopicHash.Crc32, Header, Nonce, Plaintext, Encode, Encodable, Splice, KnownEncoding;
      EncodedParts(topic, payload, encoding, key, timestamp, Nonce(random));
      var crc := TopicHash.TopicCrc32(topic);
      var mode := if key.Some? then MODE_AEAD else MODE_NONE;
      var bodyLen := if mode == MODE_AEAD then AeadBodyLen(|payload|) else |payload|;
      datagram := new byte[HEADER_LEN + bodyLen](_ => 0);
      EncodeHeader(crc, encoding, |payload|, datagram, mode);
      ghost var header := Header(if mode != MODE_NONE then 0 else crc, encoding, |payload|, mode);
      assert datagram[..HEADER_LEN] == header;
      if mode == MODE_AEAD {
        EncryptBody(datagram, crc, payload, timestamp, random);
      } else {
        ghost var back := datagram[HEADER_LEN..];
        assert datagram[..] == header + [] + back;
        CopyInto(datagram, HEADER_LEN, payload);
        TagLaid(header, [], back, payload);
        assert header + [] + payload == header + payload;
      }
    }

    // publish: when the datagram is too long or cannot be sent, nothing changes.
    method Publish(topic: Topic, payload: seq<byte>, encoding: byte, timestamp: u32, random: (u32, u32, u32), sendOk: bool)
      returns (ok: bool)
      requires Valid() && KnownEncoding(encoding)
      modifies `outbox, `packetsSent
      ensures Valid() && Abs() == old(Abs())
      ensures var d := Encode(topic, payload, encoding, key, timestamp, Nonce(random));
        && ok == (socketReady && d.Some? && sendOk)
        && outbox == old(outbox) + (if ok then [Datagram(TopicHash.Group(topic, scope), d.value)] else [])
        && packetsSent == if ok then Bump(old(packetsSent)) else old(packetsSent)
    {
      hide Encode, TopicHash.Group, Nonce;
      if !socketReady {
        return false;
      }
      var effectiveMax := if key.Some? then MAX_PAYLOAD - AeadBodyLen(0) else MAX_PAYLOAD;
      if |payload| > effectiveMax {
        return false;
      }
      var datagram := BuildDatagram(topic, payload, encoding, timestamp, random);
      var group := TopicHash.TopicToGroup(topic, scope);
      if !sendOk {
        return false;
      }
      outbox := outbox + [Datagram(group[..], datagram[..])];
      packetsSent := Bump(packetsSent);
      return true;
    }
  }

  // One node publishes and another, with the same key and a guard that accepts, receives: exactly the
  // owed callbacks get exactly the payload.
  method Exchange(sender: Node, receiver: Node, topic: Topic, payload: seq<byte>, encoding: byte, timestamp: u32,
                  random: (u32, u32, u32), now: u32, nowValid: bool)
    returns (sent: bool)
    requires sender.Valid() && receiver.Valid() && sender != receiver && sender.guard != receiver.guard
    requires KnownEncoding(encoding) && sender.key == receiver.key
    requires sender.key.Some? ==> GuardAccepts(receiver.Abs(), timestamp, Nonce(random), now, nowValid)
    modifies sender`outbox, sender`packetsSent, receiver, receiver.guard, receiver.guard.slots
    ensures receiver.Valid()
    ensures sent == (sender.socketReady && Encodable(payload, encoding, sender.key, Nonce(random)))
    ensures receiver.calls == old(receiver.calls)
            + if sent then old(Deliveries(receiver.subscriptions, TopicHash.Crc32(topic), encoding, payload, sender.key.Some?)) else []
  {
    hide Encode, Receive, GuardAccepts, Deliveries, TopicHash.Group, TopicHash.Crc32, Nonce, Encodable;
    ghost var before := receiver.Abs();
    sent := sender.Publish(topic, payload, encoding, timestamp, random, true);
    if sent {
      assert receiver.Abs() == before;
      if sender.key.Some? {
        EndToEndSealed(before, topic, payload, encoding, timestamp, Nonce(random), now, nowValid);
      } else {
        EndToEndPlain(before, topic, payload, encoding, timestamp, Nonce(random), now, nowValid);
      }
      receiver.OnPacket(sender.outbox[|sender.outbox| - 1].bytes, now, nowValid);
    }
  }

  lemma EncodedParts(topic: Topic, payload: seq<byte>, encoding: byte, key: Option<seq<byte>>, timestamp: u32,
      nonce: seq<byte>)
    requires Encodable(payload, encoding, key, nonce)
    ensures |payload| <= MAX_PAYLOAD
    ensures key.Some? ==> |key.value| == 32 && |nonce| == 12
    ensures Encode(topic, payload, encoding, key, timestamp, nonce)
            == match key
               case None => Some(Header(TopicHash.Crc32(topic), encoding, |payload|, MODE_NONE) + payload)
               case Some(k) =>
                 var header := Header(0, encoding, |payload|, MODE_AEAD);
                 var s := Aead.Seal(k, nonce, Plaintext(TopicHash.Crc32(topic), timestamp, payload), header);
                 Some(header + nonce + s.ct + s.tag)
  {
    hide Aead.Seal, TopicHash.Crc32, Header, Plaintext;
  }

  lemma FoundOrCreated(subs: seq<Subscription>, topic: Topic, require: bool)
    ensures FindOrCreate(subs, topic, require)
            == var i := Find(subs, topic);
               if i == |subs| then subs + [Subscription(topic, TopicHash.Crc32(topic), [], [], require)]
               else if require then subs[i := subs[i].(requireEncryption := true)]
               else subs
  {
    hide TopicHash.Crc32, Find;
    var i := Find(subs, topic);
    if i < |subs| {
      assert subs[i := subs[i]] == subs;
    }
  }

  lemma NobodyMatches(subs: seq<Subscription>, crc: u32)
    ensures !Matches(subs[..0], crc) && subs[0..] == subs
  {
  }

  lemma DeliveriesNext(subs: seq<Subscription>, i: nat, crc: u32, encoding: byte, payload: seq<byte>, encrypted: bool)
    requires i < |subs|
    ensures Deliveries(subs[i..], crc, encoding, payload, encrypted)
            == (if subs[i].crc == crc then SubDeliveries(subs[i], encoding, payload, encrypted) else [])
               + Deliveries(subs[i + 1..], crc, encoding, payload, encrypted)
  {
    hide SubDeliveries;
    assert subs[i..][0] == subs[i] && subs[i..][1..] == subs[i + 1..];
  }

  lemma AllDelivered(subs: seq<Subscription>, crc: u32, encoding: byte, payload: seq<byte>, encrypted: bool)
    ensures Deliveries(subs[|subs|..], crc, encoding, payload, encrypted) == []
  {
  }

  lemma MatchesNext(subs: seq<Subscription>, i: nat, crc: u32)
    requires i < |subs|
    ensures Matches(subs[..i + 1], crc) == (Matches(subs[..i], crc) || subs[i].crc == crc)
  {
    assert subs[..i + 1] == subs[..i] + [subs[i]];
    if Matches(subs[..i], crc) {
      var k :| 0 <= k < i && subs[..i][k].crc == crc;
      assert subs[..i + 1][k].crc == crc;
    }
    if subs[i].crc == crc {
      assert subs[..i + 1][i].crc == crc;
    }
  }

  lemma SpliceSix(b: seq<byte>, at: nat, s0: seq<byte>, s1: seq<byte>, s2: seq<byte>, s3: seq<byte>,
      s4: seq<byte>, s5: seq<byte>)
    requires |s0| == |s1| == |s2| == |s3| == |s4| == 4 && at + 20 + |s5| <= |b|
    ensures Splice(Splice(Splice(Splice(Splice(Splice(b, at, s0), at + 4, s1), at + 8, s2), at + 12, s3), at + 16, s4), at + 20, s5)
            == Splice(b, at, (s0 + s1 + s2) + (s3 + s4 + s5))
  {
    hide Splice;
    SpliceAdjacent(b, at, s0, s1);
    SpliceAdjacent(b, at, s0 + s1, s2);
    SpliceAdjacent(b, at, s0 + s1 + s2, s3);
    SpliceAdjacent(b, at, s0 + s1 + s2 + s3, s4);
    SpliceAdjacent(b, at, s0 + s1 + s2 + s3 + s4, s5);
    assert s0 + s1 + s2 + s3 + s4 + s5 == (s0 + s1 + s2) + (s3 + s4 + s5);
  }

  // Where the pieces of an encrypted body lie before it is encrypted.
  lemma Laid(b: seq<byte>, nonce: seq<byte>, plaintext: seq<byte>)
    requires |b| == 24 + |plaintext| + 16 && |nonce| == 12
    ensures var d := Splice(b, 12, nonce + plaintext);
      && d[..12] == b[..12] && d[12..24] == nonce && d[24..24 + |plaintext|] == plaintext && d[..24] == b[..12] + nonce
  {
  }

  lemma Copied(body: seq<byte>, work: seq<byte>)
    requires 28 <= |body| <= |work| && work[..|body|] == body
    ensures work[..12] == body[..12] && work[12..|body| - 16] == body[12..|body| - 16]
    ensures work[|body| - 16..|body|] == body[|body| - 16..]
  {
    assert work[..|body|][..12] == work[..12];
    assert work[..|body|][12..|body| - 16] == work[12..|body| - 16];
    assert work[..|body|][|body| - 16..] == work[|body| - 16..|body|];
  }

  lemma TagLaid(front: seq<byte>, ct: seq<byte>, back: seq<byte>, tag: seq<byte>)
    requires |tag| == |back|
    ensures Splice(front + ct + back, |front| + |ct|, tag) == front + ct + tag
  {
  }
}
