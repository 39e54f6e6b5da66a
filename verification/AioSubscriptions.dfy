/**
The subscription side of the asyncio client as it is stored: topic entries are objects shared between the
table and the CRC index, and dispatch walks copies of lists that its callbacks may change. Every method is
proved against the state machine of module SubscriptionTable.
*/
module AioSubscriptions {
  import opened Options
  import opened Words
  import opened SubscriptionTable
  import opened ReplayGuards
  import opened AioReceive
  import ReplaySpec
  import Wire

  // What identifies a subscription; its callback and codec are not modelled.
  class Subscription {
    constructor () {}
  }

  class TopicSub {
    const topic: Topic
    const crc: u32
    const group: Address
    var callbacks: seq<Subscription>

    constructor (topic: Topic, crc: u32, group: Address)
      ensures this.topic == topic && this.crc == crc && this.group == group && callbacks == []
    {
      this.topic, this.crc, this.group := topic, crc, group;
      callbacks := [];
    }
  }

  type Entries = map<Topic, TopicSub>

  // An entry is filed under its own topic.
  ghost predicate Filed(n: Naming, subs: Entries)
  {
    forall t :: t in subs ==> subs[t].topic == t && subs[t].crc == n.crc(t) && subs[t].group == n.group(t)
  }

  // A list of entries is a list of topics, looked up.
  ghost predicate Resolves(subs: Entries, entries: seq<TopicSub>, topics: seq<Topic>)
  {
    && |entries| == |topics|
    && forall i :: 0 <= i < |topics| ==> topics[i] in subs && entries[i] == subs[topics[i]]
  }

  // The index holds the same objects as the table.
  ghost predicate SharesEntries(subs: Entries, crcIndex: map<u32, seq<TopicSub>>, index: map<u32, seq<Topic>>)
  {
    crcIndex.Keys == index.Keys && forall c :: c in crcIndex ==> Resolves(subs, crcIndex[c], index[c])
  }

  function Siblings(crcIndex: map<u32, seq<TopicSub>>, crc: u32): seq<TopicSub>
  {
    if crc in crcIndex then crcIndex[crc] else []
  }

  lemma JoinShares(subs: Entries, crcIndex: map<u32, seq<TopicSub>>, index: map<u32, seq<Topic>>, e: TopicSub, crc: u32)
    requires SharesEntries(subs, crcIndex, index) && e.topic !in subs
    ensures SharesEntries(subs[e.topic := e], crcIndex[crc := Siblings(crcIndex, crc) + [e]],
                          index[crc := (if crc in index then index[crc] else []) + [e.topic]])
  {
  }

  lemma JoinFiles(n: Naming, subs: Entries, e: TopicSub)
    requires Filed(n, subs) && e.crc == n.crc(e.topic) && e.group == n.group(e.topic)
    ensures Filed(n, subs[e.topic := e])
  {
  }

  lemma {:induction false} RemoveResolves(n: Naming, subs: Entries, entries: seq<TopicSub>, topics: seq<Topic>, topic: Topic)
    requires Filed(n, subs) && Resolves(subs, entries, topics) && topic in subs && NoDup(topics)
    ensures Resolves(subs - {topic}, Remove(entries, subs[topic]), Remove(topics, topic))
    decreases |topics|
  {
    if topics != [] {
      RemoveResolves(n, subs, entries[1..], topics[1..], topic);
    }
  }

  lemma LeaveShares(n: Naming, subs: Entries, crcIndex: map<u32, seq<TopicSub>>, t: Table<Subscription>, topic: Topic)
    requires Filed(n, subs) && SharesEntries(subs, crcIndex, t.index) && topic in subs && topic in t.subs && Core(n, t)
    ensures var crc := n.crc(topic);
      var siblings := Remove(Siblings(crcIndex, crc), subs[topic]);
      SharesEntries(subs - {topic}, if siblings == [] then crcIndex - {crc} else crcIndex[crc := siblings],
                    Leave(n, t, topic).index)
  {
    hide Scan;
    var crc := n.crc(topic);
    IndexIsScan(n, t, crc);
    RemoveResolves(n, subs, Siblings(crcIndex, crc), Lookup(t, crc), topic);
    forall c | c in crcIndex && c != crc
      ensures topic !in t.index[c]
    {
      IndexIsScan(n, t, c);
      assert Lookup(t, c) == t.index[c];
    }
  }

  // Entries go, and the others stay the same objects.
  ghost predicate Sheds(before: Entries, after: Entries)
  {
    forall t :: t in after ==> t in before && after[t] == before[t]
  }

  class Client {
    const naming: Naming
    const key: Option<seq<byte>>
    const replay: Deque
    var started: bool
    var subs: Entries
    var crcIndex: map<u32, seq<TopicSub>>
    // The groups the kernel has joined on the client's socket.
    var joined: set<Address>

    ghost var table: Table<Subscription>

    ghost function EntrySet(): set<TopicSub>
      reads this
    {
      set t | t in subs :: subs[t]
    }

    ghost predicate Stored()
      reads this
    {
      && started == table.started && joined == table.joined && subs.Keys == table.subs.Keys
      && Filed(naming, subs) && SharesEntries(subs, crcIndex, table.index)
    }

    ghost predicate Valid()
      reads this, EntrySet()
    {
      Stored() && Core(naming, table) && Agrees()
    }

    ghost predicate Agrees()
      reads this, EntrySet()
    {
      forall t :: t in subs ==> t in table.subs && subs[t].callbacks == table.subs[t]
    }

    constructor (naming: Naming, key: Option<seq<byte>>, replayWindow: int)
      ensures Valid() && this.naming == naming && this.key == key && table == Empty()
      ensures fresh(replay) && replay.Valid() && replay.order == []
      ensures replay.window == replayWindow && replay.maxEntries == ReplaySpec.CLIENT_ENTRIES
    {
      this.naming := naming;
      this.key := key;
      replay := new Deque(replayWindow, ReplaySpec.CLIENT_ENTRIES);
      started := false;
      subs := map[];
      crcIndex := map[];
      joined := {};
      table := Empty();
      new;
      EmptyInv<Subscription>(naming);
    }

    method Start()
      requires Valid()
      modifies this
      ensures Valid() && table == SubscriptionTable.Start(old(table)) && subs == old(subs)
    {
      hide Core, SharesEntries;
      started := true;
      joined := {};
      StartKeepsCore(naming, table);
      table := SubscriptionTable.Start(table);
    }

    method Stop()
      requires Valid()
      modifies this
      ensures Valid() && table == SubscriptionTable.Stop(old(table))
    {
      started := false;
      joined := {};
      subs := map[];
      crcIndex := map[];
      table := Empty();
      EmptyInv<Subscription>(naming);
    }

    // `allowed` is the kernel's own say in the matter; a failed join raises.
    method Join(topic: Topic, allowed: bool) returns (entry: TopicSub?)
      requires Stored() && Agrees() && topic !in subs
      modifies this
      ensures Stored() && Agrees()
      ensures entry != null <==> JoinSucceeds(naming, old(table), topic, allowed)
      ensures entry == null ==> table == old(table) && subs == old(subs)
      ensures entry != null ==> fresh(entry) && entry.callbacks == []
                                && table == SubscriptionTable.Join(naming, old(table), topic)
                                && subs == old(subs)[topic := entry]
    {
      hide SharesEntries, Filed, Siblings;
      if !started {
        return null;
      }
      var crc := naming.crc(topic);
      var group := naming.group(topic);
      if !allowed || group in joined {
        return null;
      }
      joined := joined + {group};
      var e := new TopicSub(topic, crc, group);
      JoinShares(subs, crcIndex, table.index, e, crc);
      JoinFiles(naming, subs, e);
      subs := subs[topic := e];
      crcIndex := crcIndex[crc := Siblings(crcIndex, crc) + [e]];
      table := SubscriptionTable.Join(naming, table, topic);
      return e;
    }

    method Append(topic: Topic, sub: Subscription)
      requires Stored() && Agrees() && topic in subs
      modifies subs[topic], `table
      ensures Stored() && Agrees()
      ensures table == AddCallback(old(table), topic, sub)
    {
      hide SharesEntries;
      var entry := subs[topic];
      entry.callbacks := entry.callbacks + [sub];
      table := AddCallback(table, topic, sub);
    }

    // Returns null when the call raises, and then nothing has changed. `codecOk`: the codec asked for, if any,
    // exists.
    method Subscribe(topic: Topic, codecOk: bool, allowed: bool) returns (sub: Subscription?)
      requires Valid()
      modifies this, EntrySet()
      ensures Valid()
      ensures sub != null <==> codecOk && Subscribes(naming, old(table), topic, allowed)
      ensures sub == null ==> table == old(table)
      ensures sub != null ==> fresh(sub) && table == SubscriptionTable.Subscribe(naming, old(table), topic, sub, allowed)
    {
      hide Core, Grouped, SharesEntries, AddCallback;
      if !ValidTopic(topic) {
        return null;
      }
      if !codecOk {
        return null;
      }
      var s := new Subscription();
      SubscribeKeepsInv(naming, table, topic, s, allowed);
      assert topic in subs <==> topic in table.subs;
      if topic !in subs {
        var entry := Join(topic, allowed);
        if entry == null {
          return null;
        }
      }
      Append(topic, s);
      return s;
    }

    // An entry without callbacks leaves the table, the index and its group.
    method Leave(entry: TopicSub)
      requires Stored() && Core(naming, table) && entry.topic in subs && subs[entry.topic] == entry
      modifies `subs, `crcIndex, `joined
      ensures subs == old(subs) - {entry.topic} && joined == old(joined) - {entry.group}
      ensures Filed(naming, subs)
      ensures SharesEntries(subs, crcIndex, SubscriptionTable.Leave(naming, table, entry.topic).index)
    {
      hide Core, Grouped, SharesEntries, SubscriptionTable.Leave, Remove;
      LeaveShares(naming, subs, crcIndex, table, entry.topic);
      subs := subs - {entry.topic};
      var siblings := Remove(Siblings(crcIndex, entry.crc), entry);
      crcIndex := if siblings == [] then crcIndex - {entry.crc} else crcIndex[entry.crc := siblings];
      joined := joined - {entry.group};
    }

    method Unsubscribe(topic: Topic, sub: Subscription)
      requires Valid()
      modifies this, EntrySet()
      ensures Valid() && table == SubscriptionTable.Unsubscribe(naming, old(table), topic, sub)
      ensures Sheds(old(subs), subs) && forall t :: t in old(subs) && t !in subs ==> old(subs)[t].callbacks == []
    {
      hide Core, Grouped, SharesEntries, SubscriptionTable.Unsubscribe, SubscriptionTable.Leave, Remove;
      if topic !in subs || sub !in subs[topic].callbacks {
        UnsubscribeAbsent(naming, table, topic, sub);
        return;
      }
      UnsubscribeKeepsInv(naming, table, topic, sub);
      UnsubscribeFields(naming, table, topic, sub);
      var entry := subs[topic];
      entry.callbacks := Remove(entry.callbacks, sub);
      if entry.callbacks == [] {
        Leave(entry);
      }
      table := SubscriptionTable.Unsubscribe(naming, table, topic, sub);
      forall t | t in subs
        ensures t in table.subs && subs[t].callbacks == table.subs[t]
      {
        assert t == topic || subs[t] != entry;
      }
    }

    // What a callback does: it unsubscribes, one by one.
    method RunCallback(removals: seq<Removal<Subscription>>, ghost known: Entries)
      requires Valid() && Departed(known)
      modifies this, EntrySet()
      ensures Valid() && table == RemoveAll(naming, old(table), removals)
      ensures Departed(known) && Sheds(old(subs), subs)
    {
      hide Core, Grouped, SharesEntries, SubscriptionTable.Unsubscribe, Filed;
      var k := 0;
      while k < |removals|
        invariant 0 <= k <= |removals| && Valid() && Departed(known) && Sheds(old(subs), subs)
        invariant RemoveAll(naming, table, removals[k..]) == RemoveAll(naming, old(table), removals)
      {
        assert removals[k..][0] == removals[k] && removals[k..][1..] == removals[k + 1..];
        ghost var before := subs;
        GoneIsNoEntry(known);
        Unsubscribe(removals[k].topic, removals[k].sub);
        k := k + 1;
      }
    }

    // An entry known from before that has left the table has no callbacks left.
    ghost predicate Departed(known: Entries)
      reads this, set t | t in known :: known[t]
    {
      && Filed(naming, known) && Sheds(known, subs)
      && forall t :: t in known && t !in subs ==> known[t].callbacks == []
    }

    lemma GoneIsNoEntry(known: Entries)
      requires Filed(naming, subs) && Filed(naming, known)
      ensures forall t :: t in known && t !in subs ==> known[t] !in EntrySet()
    {
    }

    // The inner loop of _handle_datagram, over a copy of one entry's callbacks.
    method DispatchEntry(entry: TopicSub, script: seq<seq<Removal<Subscription>>>, log: seq<Subscription>,
        ghost known: Entries)
      returns (newLog: seq<Subscription>)
      requires Valid() && Departed(known) && entry.topic in known && known[entry.topic] == entry
      modifies this, EntrySet()
      ensures Valid() && Departed(known) && Sheds(old(subs), subs)
      ensures Dispatched(table, newLog)
              == DispatchSubs(naming, Dispatched(old(table), log), Callbacks(old(table), entry.topic), script)
    {
      hide Core, Grouped, SharesEntries, Filed, RemoveAll;
      var snapshot := entry.callbacks;
      assert snapshot == Callbacks(table, entry.topic);
      newLog := log;
      var j := 0;
      while j < |snapshot|
        invariant 0 <= j <= |snapshot| && Valid() && Departed(known) && Sheds(old(subs), subs)
        invariant DispatchSubs(naming, Dispatched(table, newLog), snapshot[j..], script)
                  == DispatchSubs(naming, Dispatched(old(table), log), snapshot, script)
      {
        assert snapshot[j..][0] == snapshot[j] && snapshot[j..][1..] == snapshot[j + 1..];
        var k := |newLog|;
        newLog := newLog + [snapshot[j]];
        RunCallback(Effect(script, k), known);
        j := j + 1;
      }
    }

    // Everything after the datagram has been accepted: look up the CRC, drop what is not RAW, dispatch.
    method HandleDatagram(crc: u32, encoding: byte, script: seq<seq<Removal<Subscription>>>) returns (log: seq<Subscription>)
      requires Valid()
      modifies this, EntrySet()
      ensures Valid() && Dispatched(table, log) == Handle(naming, old(table), crc, encoding, script)
    {
      hide Core, Grouped, SharesEntries, DispatchSubs;
      ghost var known, topics := subs, Lookup(table, crc);
      SiblingsResolve(crc);
      var snapshot := Siblings(crcIndex, crc);
      log := [];
      if snapshot == [] {
        return;
      }
      if encoding != RAW {
        return;
      }
      var i := 0;
      while i < |snapshot|
        invariant 0 <= i <= |snapshot| && Valid() && Departed(known) && Sheds(old(subs), subs)
        invariant DispatchTopics(naming, Dispatched(table, log), topics[i..], script)
                  == Dispatch(naming, old(table), crc, script)
      {
        assert topics[i..][0] == topics[i] && topics[i..][1..] == topics[i + 1..];
        assert snapshot[i] == known[topics[i]] && snapshot[i].topic == topics[i];
        log := DispatchEntry(snapshot[i], script, log, known);
        i := i + 1;
      }
    }

    // _handle_datagram: what cannot be decoded, or is stale or replayed, is dropped.
    method OnDatagram(data: seq<byte>, now: int, script: seq<seq<Removal<Subscription>>>)
      returns (heard: seq<Heard<Subscription>>)
      requires Valid() && replay.Valid()
      modifies this, EntrySet(), replay
      ensures Valid() && replay.Valid()
      ensures Handled(replay.order, table, heard)
              == AioReceive.OnDatagram(naming, key, replay.window, replay.maxEntries, old(replay.order), old(table), data, now, script)
    {
      hide Core, Grouped, SharesEntries, Filed, Handle, Wire.Decode;
      var decoded := Wire.Decode(data, key);
      if decoded.None? {
        return [];
      }
      var msg := decoded.value;
      if msg.wasEncrypted {
        var accepted := replay.Accept(now, true, Carried(msg.timestamp), Carried(msg.nonce));
        if !accepted {
          return [];
        }
      }
      var log := HandleDatagram(msg.crc, msg.encoding, script);
      return HeardAll(log, msg.payload, msg.wasEncrypted);
    }

    lemma SiblingsResolve(crc: u32)
      requires Stored()
      ensures Resolves(subs, Siblings(crcIndex, crc), Lookup(table, crc))
    {
    }
  }
}
