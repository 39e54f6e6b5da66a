/**
Whole runs of the C++ component: counters, sticky encryption demands, and replays.
*/
module PipelineRuns {
  import opened Options
  import opened Words
  import opened Wire
  import opened ReplaySpec
  import opened Pipeline
  import Aead
  import TopicHash

  datatype Event =
    | SubscribeRaw(topic: Topic, cb: nat, require: bool)
    | SubscribeTyped(topic: Topic, typed: Typed, require: bool)
    | Arrival(data: seq<byte>, now: u32, nowValid: bool)

  function Initial(key: Option<seq<byte>>, window: u32): State
  {
    State(key, window, [], [], 0, 0, 0, 0, [])
  }

  function Next(s: State, e: Event): (r: State)
    requires KeyOk(s.key)
    ensures r.key == s.key && r.window == s.window
  {
    match e
    case SubscribeRaw(topic, cb, require) => s.(subs := AddRaw(s.subs, topic, cb, require))
    case SubscribeTyped(topic, typed, require) => s.(subs := AddTyped(s.subs, topic, typed, require))
    case Arrival(data, now, nowValid) => Receive(s, data, now, nowValid)
  }

  function Run(key: Option<seq<byte>>, window: u32, events: seq<Event>): (r: State)
    requires KeyOk(key)
    ensures r.key == key && r.window == window
  {
    if events == [] then Initial(key, window)
    else Next(Run(key, window, events[..|events| - 1]), events[|events| - 1])
  }

  // ---------------------------------------------------------------- conservation

  // Every datagram is counted once more: verified, failed or malformed. Counters are 32 bits wide.
  predicate Conserved(s: State)
  {
    (s.verifyOk + s.verifyFailed as int + s.malformed) % TWO32 == s.received
  }

  lemma BumpOne(a: u32, b: u32, m: nat, r: u32)
    requires (a + b as int + m) % TWO32 == r
    ensures (Bump(a) + b as int + m) % TWO32 == Bump(r)
    ensures (a + Bump(b) as int + m) % TWO32 == Bump(r)
    ensures (a + b as int + (m + 1)) % TWO32 == Bump(r)
  {
    BumpFirst(a, b + m, r);
    BumpFirst(b, a + m, r);
  }

  lemma BumpFirst(a: u32, rest: nat, r: u32)
    requires (a + rest) % TWO32 == r
    ensures (Bump(a) + rest) % TWO32 == Bump(r) && (a + rest + 1) % TWO32 == Bump(r)
  {
  }

  lemma ReceiveConserves(s: State, data: seq<byte>, now: u32, nowValid: bool)
    requires KeyOk(s.key) && Conserved(s)
    ensures Conserved(Receive(s, data, now, nowValid))
  {
    hide Deliveries, Decide, Authenticate, Parse, Bump;
    BumpOne(s.verifyOk, s.verifyFailed, s.malformed, s.received);
  }

  lemma {:induction false} RunConserves(key: Option<seq<byte>>, window: u32, events: seq<Event>)
    requires KeyOk(key)
    ensures Conserved(Run(key, window, events))
    decreases |events|
  {
    hide Receive, AddRaw, AddTyped;
    if events != [] {
      var s, e := Run(key, window, events[..|events| - 1]), events[|events| - 1];
      RunConserves(key, window, events[..|events| - 1]);
      if e.Arrival? {
        ReceiveConserves(s, e.data, e.now, e.nowValid);
      }
    }
  }

  // ---------------------------------------------------------------- what each counter counts

  // A datagram that parses is verified when it is sealed and authentic, or plain and of a subscribed CRC.
  predicate Verifies(s: State, data: seq<byte>)
    requires KeyOk(s.key)
  {
    match Parse(data)
    case Bad(_) => false
    case Good(p) => if p.mode == MODE_AEAD then Authenticate(s.key, data, p).Some? else Matches(s.subs, p.crc)
  }

  // How many arrivals were verified, with the subscriptions of their time.
  function Verified(key: Option<seq<byte>>, window: u32, events: seq<Event>): nat
    requires KeyOk(key)
  {
    if events == [] then 0
    else
      var n := |events| - 1;
      Verified(key, window, events[..n])
      + if events[n].Arrival? && Verifies(Run(key, window, events[..n]), events[n].data) then 1 else 0
  }

  function Parsing(events: seq<Event>): nat
  {
    if events == [] then 0
    else
      var n := |events| - 1;
      Parsing(events[..n]) + if events[n].Arrival? && Parse(events[n].data).Good? then 1 else 0
  }

  function Arrivals(events: seq<Event>): nat
  {
    if events == [] then 0
    else Arrivals(events[..|events| - 1]) + if events[|events| - 1].Arrival? then 1 else 0
  }

  lemma BumpCount(n: nat)
    ensures Bump(U32(n)) == U32(n + 1)
  {
  }

  lemma ReceiveCounts(s: State, data: seq<byte>, now: u32, nowValid: bool)
    requires KeyOk(s.key)
    ensures var s' := Receive(s, data, now, nowValid);
      && s'.received == Bump(s.received)
      && s'.verifyOk == (if Verifies(s, data) then Bump(s.verifyOk) else s.verifyOk)
      && s'.verifyFailed == (if Parse(data).Good? && !Verifies(s, data) then Bump(s.verifyFailed) else s.verifyFailed)
      && s'.malformed == s.malformed + if Parse(data).Bad? then 1 else 0
    ensures Verifies(s, data) ==> Parse(data).Good?
  {
    hide Deliveries, Decide, Authenticate, Parse, Bump, Matches;
  }

  lemma {:induction false} VerifiedParse(key: Option<seq<byte>>, window: u32, events: seq<Event>)
    requires KeyOk(key)
    ensures Verified(key, window, events) <= Parsing(events) <= Arrivals(events)
    decreases |events|
  {
    hide Parse, Authenticate, Matches, Run;
    if events != [] {
      VerifiedParse(key, window, events[..|events| - 1]);
    }
  }

  // After any run the four counters are, modulo 2^32, the numbers of arrivals, of verified ones, of those
  // that parse but are not verified, and (unbounded) of those that do not parse.
  lemma {:induction false} CountersCount(key: Option<seq<byte>>, window: u32, events: seq<Event>)
    requires KeyOk(key)
    ensures Verified(key, window, events) <= Parsing(events) <= Arrivals(events)
    ensures var s := Run(key, window, events);
      && s.received == U32(Arrivals(events))
      && s.verifyOk == U32(Verified(key, window, events))
      && s.verifyFailed == U32(Parsing(events) - Verified(key, window, events))
      && s.malformed == Arrivals(events) - Parsing(events)
    decreases |events|
  {
    hide Receive, AddRaw, AddTyped, Verifies, Parse, Bump, U32;
    VerifiedParse(key, window, events);
    if events == [] {
      assert U32(0) == 0 by {
        U32Small(0);
      }
    } else {
      var n := |events| - 1;
      var e := events[n];
      CountersCount(key, window, events[..n]);
      if e.Arrival? {
        ReceiveCounts(Run(key, window, events[..n]), e.data, e.now, e.nowValid);
        BumpCount(Arrivals(events[..n]));
        BumpCount(Verified(key, window, events[..n]));
        BumpCount(Parsing(events[..n]) - Verified(key, window, events[..n]));
      }
    }
  }

  // ---------------------------------------------------------------- sticky demands for encryption

  // The topic is subscribed, and every subscription to it demands encryption.
  ghost predicate Demands(subs: seq<Subscription>, topic: Topic)
  {
    && (exists i :: 0 <= i < |subs| && subs[i].topic == topic)
    && (forall i :: 0 <= i < |subs| && subs[i].topic == topic ==> subs[i].requireEncryption)
  }

  ghost predicate DistinctTopics(subs: seq<Subscription>)
  {
    forall i, j :: 0 <= i < j < |subs| ==> subs[i].topic != subs[j].topic
  }

  lemma {:induction false} FindFirst(subs: seq<Subscription>, topic: Topic)
    ensures forall i :: 0 <= i < Find(subs, topic) ==> subs[i].topic != topic
    ensures (exists i :: 0 <= i < |subs| && subs[i].topic == topic) ==> Find(subs, topic) < |subs|
  {
    if subs != [] && subs[0].topic != topic {
      FindFirst(subs[1..], topic);
      forall i | 0 <= i < |subs| && subs[i].topic == topic
        ensures subs[1..][i - 1].topic == topic
      {
      }
    }
  }

  // What adding a callback does to topics and demands.
  ghost predicate Grows(before: seq<Subscription>, after: seq<Subscription>, topic: Topic, require: bool)
  {
    var i := Find(before, topic);
    && |after| == (if i < |before| then |before| else |before| + 1)
    && (forall k :: 0 <= k < |before| && k != i ==> after[k] == before[k])
    && after[i].topic == topic
    && after[i].requireEncryption == (require || (i < |before| && before[i].requireEncryption))
  }

  lemma AddGrows(subs: seq<Subscription>, topic: Topic, cb: nat, typed: Typed, require: bool)
    ensures Grows(subs, AddRaw(subs, topic, cb, require), topic, require)
    ensures Grows(subs, AddTyped(subs, topic, typed, require), topic, require)
  {
    hide TopicHash.Crc32;
  }

  lemma GrowsKeeps(before: seq<Subscription>, after: seq<Subscription>, topic: Topic, require: bool)
    requires DistinctTopics(before) && Grows(before, after, topic, require)
    ensures DistinctTopics(after)
    ensures require ==> Demands(after, topic)
    ensures forall t: Topic :: Demands(before, t) ==> Demands(after, t)
  {
    FindFirst(before, topic);
    var i := Find(before, topic);
    forall t: Topic | Demands(before, t)
      ensures Demands(after, t)
    {
      var k :| 0 <= k < |before| && before[k].topic == t;
      assert after[k].topic == t;
      if t == topic {
        assert i < |before|;
      }
    }
  }

  lemma {:induction false} RunDistinct(key: Option<seq<byte>>, window: u32, events: seq<Event>)
    requires KeyOk(key)
    ensures DistinctTopics(Run(key, window, events).subs)
    decreases |events|
  {
    hide Receive, AddRaw, AddTyped, Grows, DistinctTopics;
    if events == [] {
      NoTopics();
    } else {
      var n := |events| - 1;
      RunDistinct(key, window, events[..n]);
      NextGrows(Run(key, window, events[..n]), events[n]);
    }
  }

  lemma NoTopics()
    ensures DistinctTopics([])
  {
  }

  // ---------------------------------------------------------------- who is registered

  // The callbacks asked for a topic, in order; those for typed messages likewise.
  function RawAsked(events: seq<Event>, topic: Topic): seq<nat>
  {
    if events == [] then []
    else
      var n := |events| - 1;
      RawAsked(events[..n], topic) + if events[n].SubscribeRaw? && events[n].topic == topic then [events[n].cb] else []
  }

  function TypedAsked(events: seq<Event>, topic: Topic): seq<Typed>
  {
    if events == [] then []
    else
      var n := |events| - 1;
      TypedAsked(events[..n], topic) + if events[n].SubscribeTyped? && events[n].topic == topic then [events[n].typed] else []
  }

  predicate Demanded(events: seq<Event>, topic: Topic)
  {
    if events == [] then false
    else
      var n := |events| - 1;
      Demanded(events[..n], topic) || (!events[n].Arrival? && events[n].topic == topic && events[n].require)
  }

  // The subscription of a topic, or the one it would have.
  function Registered(subs: seq<Subscription>, topic: Topic): Subscription
  {
    var i := Find(subs, topic);
    if i < |subs| then subs[i] else Subscription(topic, TopicHash.Crc32(topic), [], [], false)
  }

  lemma {:induction false} FindSame(a: seq<Subscription>, b: seq<Subscription>, topic: Topic)
    requires |a| <= |b| && forall i :: 0 <= i < |a| ==> a[i].topic == b[i].topic
    ensures Find(a, topic) < |a| ==> Find(b, topic) == Find(a, topic)
    ensures Find(a, topic) == |a| ==> Find(b, topic) >= |a|
    decreases |a|
  {
    if a != [] && a[0].topic != topic {
      assert forall i :: 0 <= i < |a| - 1 ==> a[1..][i].topic == a[i + 1].topic == b[i + 1].topic == b[1..][i].topic;
      FindSame(a[1..], b[1..], topic);
    }
  }

  lemma RawRegisters(subs: seq<Subscription>, topic: Topic, cb: nat, require: bool, t: Topic)
    ensures var r, u := Registered(subs, t), Registered(AddRaw(subs, topic, cb, require), t);
      u == if t == topic then r.(raw := r.raw + [cb], requireEncryption := r.requireEncryption || require) else r
  {
    hide TopicHash.Crc32, Find;
    var after := AddRaw(subs, topic, cb, require);
    FindSame(subs, after, t);
    FindSame(subs, after, topic);
    LastFound(subs, after, t);
    assert [] + [cb] == [cb];
  }

  lemma TypedRegisters(subs: seq<Subscription>, topic: Topic, typed: Typed, require: bool, t: Topic)
    ensures var r, u := Registered(subs, t), Registered(AddTyped(subs, topic, typed, require), t);
      u == if t == topic then r.(typed := r.typed + [typed], requireEncryption := r.requireEncryption || require) else r
  {
    hide TopicHash.Crc32, Find;
    var after := AddTyped(subs, topic, typed, require);
    FindSame(subs, after, t);
    FindSame(subs, after, topic);
    LastFound(subs, after, t);
    assert [] + [typed] == [typed];
  }

  lemma LastFound(before: seq<Subscription>, after: seq<Subscription>, t: Topic)
    requires |before| <= |after| <= |before| + 1
    ensures Find(after, t) <= |after|
    ensures |after| == |before| + 1 && after[|before|].topic == t ==> Find(after, t) < |after|
  {
    FindFirst(after, t);
  }

  // After any run the callbacks of a topic are those asked for, in order; its CRC is the topic's, and it
  // demands encryption if and only if somebody asked for that.
  lemma {:induction false} RunRegisters(key: Option<seq<byte>>, window: u32, events: seq<Event>, topic: Topic)
    requires KeyOk(key)
    ensures Registered(Run(key, window, events).subs, topic)
            == Subscription(topic, TopicHash.Crc32(topic), RawAsked(events, topic), TypedAsked(events, topic), Demanded(events, topic))
    decreases |events|
  {
    hide Receive, AddRaw, AddTyped, TopicHash.Crc32, Registered;
    if events == [] {
      NothingRegistered(topic);
    } else {
      var n := |events| - 1;
      var s, e := Run(key, window, events[..n]), events[n];
      RunRegisters(key, window, events[..n], topic);
      match e
      case SubscribeRaw(t, cb, require) => RawRegisters(s.subs, t, cb, require, topic);
      case SubscribeTyped(t, typed, require) => TypedRegisters(s.subs, t, typed, require, topic);
      case Arrival(_, _, _) =>
    }
  }

  lemma NothingRegistered(topic: Topic)
    ensures Registered([], topic) == Subscription(topic, TopicHash.Crc32(topic), [], [], false)
  {
  }

  lemma ReceiveExtends(s: State, data: seq<byte>, now: u32, nowValid: bool)
    requires KeyOk(s.key)
    ensures s.delivered <= Receive(s, data, now, nowValid).delivered
  {
    hide Deliveries, Decide, Authenticate, Parse;
  }

  lemma NextGrows(s: State, e: Event)
    requires KeyOk(s.key) && DistinctTopics(s.subs)
    ensures DistinctTopics(Next(s, e).subs) && s.delivered <= Next(s, e).delivered
    ensures forall t: Topic :: Demands(s.subs, t) ==> Demands(Next(s, e).subs, t)
    ensures !e.Arrival? ==> Next(s, e).delivered == s.delivered && (e.require ==> Demands(Next(s, e).subs, e.topic))
  {
    hide Receive, AddRaw, AddTyped, Grows, DistinctTopics, Demands;
    match e
    case SubscribeRaw(topic, cb, require) =>
      AddGrows(s.subs, topic, cb, Typed(0, 0), require);
      GrowsKeeps(s.subs, Next(s, e).subs, topic, require);
    case SubscribeTyped(topic, typed, require) =>
      AddGrows(s.subs, topic, 0, typed, require);
      GrowsKeeps(s.subs, Next(s, e).subs, topic, require);
    case Arrival(data, now, nowValid) =>
      ReceiveExtends(s, data, now, nowValid);
  }

  ghost predicate OnlyEncrypted(ds: seq<Delivery>, topic: Topic)
  {
    forall i :: 0 <= i < |ds| && ds[i].topic == topic ==> ds[i].encrypted
  }

  lemma DemandedDeliveries(subs: seq<Subscription>, crc: u32, encoding: byte, payload: seq<byte>,
      encrypted: bool, topic: Topic)
    requires Demands(subs, topic)
    ensures OnlyEncrypted(Deliveries(subs, crc, encoding, payload, encrypted), topic)
  {
    var ds := Deliveries(subs, crc, encoding, payload, encrypted);
    forall i | 0 <= i < |ds| && ds[i].topic == topic
      ensures ds[i].encrypted
    {
      DeliveriesExact(subs, crc, encoding, payload, encrypted, ds[i]);
    }
  }

  lemma ReceiveDeliversOwed(s: State, data: seq<byte>, now: u32, nowValid: bool, topic: Topic)
    requires KeyOk(s.key) && Demands(s.subs, topic)
    ensures var s' := Receive(s, data, now, nowValid);
      s.delivered <= s'.delivered && OnlyEncrypted(s'.delivered[|s.delivered|..], topic)
  {
    hide Deliveries, Decide, Authenticate, Parse, Demands;
    var s' := Receive(s, data, now, nowValid);
    ReceiveExtends(s, data, now, nowValid);
    if Parse(data).Good? {
      var p := Parse(data).packet;
      if p.mode == MODE_AEAD {
        if Authenticate(s.key, data, p).Some? {
          var plaintext := Authenticate(s.key, data, p).value;
          DemandedDeliveries(s.subs, Load32(plaintext, 0), p.encoding, plaintext[PREFIX_LEN..PREFIX_LEN + p.plaintextLen],
                             true, topic);
        }
      } else {
        DemandedDeliveries(s.subs, p.crc, p.encoding, p.payload, false, topic);
      }
    }
  }

  // Once any subscriber has demanded encryption for a topic, no plaintext reaches any callback of it, for
  // the rest of the run.
  lemma {:induction false} PlaintextNeverReaches(key: Option<seq<byte>>, window: u32, events: seq<Event>,
      i: nat, topic: Topic)
    requires KeyOk(key) && i < |events|
    requires !events[i].Arrival? && events[i].topic == topic && events[i].require
    ensures var before, s := Run(key, window, events[..i + 1]), Run(key, window, events);
      && Demands(s.subs, topic) && before.delivered <= s.delivered
      && OnlyEncrypted(s.delivered[|before.delivered|..], topic)
    decreases |events|
  {
    hide Receive, AddRaw, AddTyped, Demands;
    var n := |events| - 1;
    var t, e := Run(key, window, events[..n]), events[n];
    RunDistinct(key, window, events[..n]);
    NextGrows(t, e);
    if i == n {
      assert events[..i + 1] == events;
    } else {
      PlaintextNeverReaches(key, window, events[..n], i, topic);
      assert events[..n][..i + 1] == events[..i + 1];
      if e.Arrival? {
        ReceiveDeliversOwed(t, e.data, e.now, e.nowValid, topic);
      }
      var before, s := Run(key, window, events[..i + 1]), Run(key, window, events);
      SplitDeliveries(before.delivered, t.delivered, s.delivered, topic);
    }
  }

  lemma SplitDeliveries(a: seq<Delivery>, b: seq<Delivery>, c: seq<Delivery>, topic: Topic)
    requires a <= b <= c
    requires OnlyEncrypted(b[|a|..], topic) && OnlyEncrypted(c[|b|..], topic)
    ensures OnlyEncrypted(c[|a|..], topic)
  {
    assert c[|a|..] == b[|a|..] + c[|b|..];
  }

  // ---------------------------------------------------------------- replays

  // The command an arrival puts to the replay guard: only authentic packets get that far.
  function CommandOf(key: Option<seq<byte>>, e: Event): Option<Command<int>>
    requires KeyOk(key)
  {
    if !e.Arrival? || Parse(e.data).Bad? || Parse(e.data).packet.mode != MODE_AEAD then None
    else
      match Authenticate(key, e.data, Parse(e.data).packet)
      case None => None
      case Some(plaintext) => Some(GuardCommand(plaintext, Parse(e.data).packet.payload, e.now, e.nowValid))
  }

  function Commands(key: Option<seq<byte>>, events: seq<Event>): seq<Command<int>>
    requires KeyOk(key)
  {
    if events == [] then []
    else
      var n := |events| - 1;
      Commands(key, events[..n]) + match CommandOf(key, events[n]) case None => [] case Some(c) => [c]
  }

  lemma EntriesStep(s: State, e: Event)
    requires KeyOk(s.key) && s.window != 0
    ensures Next(s, e).entries
            == match CommandOf(s.key, e)
               case None => s.entries
               case Some(c) => Decide(s.window, COMPONENT_ENTRIES, s.entries, c).entries
  {
    hide Deliveries, Decide, Authenticate, Parse, AddRaw, AddTyped;
  }

  // The guard's entries are those of the run of its commands.
  lemma {:induction false} EntriesFollowCommands(key: Option<seq<byte>>, window: u32, events: seq<Event>)
    requires KeyOk(key) && window != 0
    ensures Run(key, window, events).entries == After(window, COMPONENT_ENTRIES, Commands(key, events))
    decreases |events|
  {
    hide Decide, Next, CommandOf;
    if events != [] {
      var n := |events| - 1;
      EntriesFollowCommands(key, window, events[..n]);
      EntriesStep(Run(key, window, events[..n]), events[n]);
      var cs := Commands(key, events[..n]);
      var c := CommandOf(key, events[n]);
      if c.Some? {
        AfterAppend(window, cs, c.value);
        assert Commands(key, events) == cs + [c.value];
      } else {
        assert Commands(key, events) == cs;
      }
    }
  }

  lemma AfterAppend(window: u32, cs: seq<Command<int>>, c: Command<int>)
    ensures After(window, COMPONENT_ENTRIES, cs + [c])
            == Decide(window, COMPONENT_ENTRIES, After(window, COMPONENT_ENTRIES, cs), c).entries
  {
    hide Decide;
    assert (cs + [c])[..|cs|] == cs;
  }

  // What the guard says of an arrival.
  predicate Passes(key: Option<seq<byte>>, window: u32, events: seq<Event>, i: nat)
    requires KeyOk(key) && i < |events|
  {
    && CommandOf(key, events[i]).Some?
    && Decide(window, COMPONENT_ENTRIES, Run(key, window, events[..i]).entries, CommandOf(key, events[i]).value).accepted
  }

  // An encrypted arrival that the guard does not pass reaches nobody.
  lemma OnlyPassesDeliver(key: Option<seq<byte>>, window: u32, events: seq<Event>, i: nat)
    requires KeyOk(key) && window != 0 && i < |events| && events[i].Arrival?
    requires Parse(events[i].data).Good? && Parse(events[i].data).packet.mode == MODE_AEAD
    requires !Passes(key, window, events, i)
    ensures Run(key, window, events[..i + 1]).delivered == Run(key, window, events[..i]).delivered
  {
    hide Deliveries, Decide, Authenticate, Parse;
    assert events[..i + 1][..i] == events[..i];
  }

  lemma {:induction false} CommandsPrefix(key: Option<seq<byte>>, events: seq<Event>, i: nat)
    requires KeyOk(key) && i <= |events|
    ensures Commands(key, events[..i]) <= Commands(key, events)
    decreases |events|
  {
    hide CommandOf;
    if i < |events| {
      CommandsPrefix(key, events[..|events| - 1], i);
      assert events[..|events| - 1][..i] == events[..i];
    } else {
      assert events[..i] == events;
    }
  }

  lemma CommandsAt(key: Option<seq<byte>>, events: seq<Event>, i: nat)
    requires KeyOk(key) && i < |events| && CommandOf(key, events[i]).Some?
    ensures var at := |Commands(key, events[..i])|;
      && at < |Commands(key, events)| && Commands(key, events)[at] == CommandOf(key, events[i]).value
      && Commands(key, events)[..at] == Commands(key, events[..i])
  {
    hide CommandOf;
    assert events[..i + 1][..i] == events[..i];
    CommandsPrefix(key, events, i + 1);
    CommandsPrefix(key, events, i);
  }

  lemma PassIsAccepted(key: Option<seq<byte>>, window: u32, events: seq<Event>, i: nat)
    requires KeyOk(key) && window != 0 && i < |events| && CommandOf(key, events[i]).Some?
    ensures var cs, at := Commands(key, events), |Commands(key, events[..i])|;
      && at < |cs| && cs[at] == CommandOf(key, events[i]).value
      && (Accepted(window, COMPONENT_ENTRIES, cs, at) <==> Passes(key, window, events, i))
  {
    hide Decide, CommandOf, Commands, After, Run;
    CommandsAt(key, events, i);
    EntriesFollowCommands(key, window, events[..i]);
  }

  // How many of the arrivals lo .. hi - 1 passed.
  function Passed(key: Option<seq<byte>>, window: u32, events: seq<Event>, lo: nat, hi: nat): nat
    requires KeyOk(key) && lo <= hi <= |events|
  {
    if lo == hi then 0
    else Passed(key, window, events, lo, hi - 1) + if Passes(key, window, events, hi - 1) then 1 else 0
  }

  lemma CommandsOneMore(key: Option<seq<byte>>, events: seq<Event>, i: nat)
    requires KeyOk(key) && i < |events|
    ensures |Commands(key, events[..i + 1])| == |Commands(key, events[..i])| + if CommandOf(key, events[i]).Some? then 1 else 0
  {
    hide CommandOf;
    assert events[..i + 1][..i] == events[..i];
  }

  lemma {:induction false} PassedIsAccepts(key: Option<seq<byte>>, window: u32, events: seq<Event>, lo: nat, hi: nat)
    requires KeyOk(key) && window != 0 && lo <= hi <= |events|
    ensures var cs, a, b := Commands(key, events), |Commands(key, events[..lo])|, |Commands(key, events[..hi])|;
      a <= b <= |cs| && Accepts(window, COMPONENT_ENTRIES, cs, a, b) == Passed(key, window, events, lo, hi)
    decreases hi
  {
    hide CommandOf, Accepted, Commands, Run;
    CommandsPrefix(key, events, hi);
    if lo < hi {
      PassedIsAccepts(key, window, events, lo, hi - 1);
      CommandsOneMore(key, events, hi - 1);
      if CommandOf(key, events[hi - 1]).Some? {
        PassIsAccepted(key, window, events, hi - 1);
      }
    }
  }

  // Timestamp and nonce are inside the datagram.
  lemma SameDatagram(key: Option<seq<byte>>, d: Event, e: Event)
    requires KeyOk(key) && CommandOf(key, d).Some? && CommandOf(key, e).Some? && d.data == e.data
    ensures CommandOf(key, d).value.ts == CommandOf(key, e).value.ts
    ensures CommandOf(key, d).value.nonce == CommandOf(key, e).value.nonce
  {
    hide Parse, Authenticate;
  }

  // The same encrypted datagram passes twice only if at least COMPONENT_ENTRIES other packets passed in between.
  lemma ReplayedDatagram(key: Option<seq<byte>>, window: u32, events: seq<Event>, i: nat, j: nat)
    requires KeyOk(key) && window != 0 && i < j < |events|
    requires ClockAdvances(Commands(key, events))
    requires events[i].Arrival? && events[j].Arrival? && events[i].data == events[j].data
    requires Passes(key, window, events, i) && Passes(key, window, events, j)
    ensures Passed(key, window, events, i + 1, j) >= COMPONENT_ENTRIES
  {
    hide CommandOf, Accepted, Commands, Run, ClockAdvances, Accepts, Passed;
    PassIsAccepted(key, window, events, i);
    PassIsAccepted(key, window, events, j);
    SameDatagram(key, events[i], events[j]);
    CommandsOneMore(key, events, i);
    PassedIsAccepts(key, window, events, i + 1, j);
    var cs := Commands(key, events);
    ReplayNeedsCapacityAccepts(window, COMPONENT_ENTRIES, cs, |Commands(key, events[..i])|, |Commands(key, events[..j])|);
  }

  // Retransmits are the same bytes: once a datagram has passed, it reaches nobody again, whenever and however
  // often it arrives, until COMPONENT_ENTRIES others have passed.
  lemma RetransmitsCollapse(key: Option<seq<byte>>, window: u32, events: seq<Event>, i: nat, j: nat)
    requires KeyOk(key) && window != 0 && i < j < |events|
    requires ClockAdvances(Commands(key, events))
    requires events[i].Arrival? && events[j].Arrival? && events[i].data == events[j].data
    requires Passes(key, window, events, i) && Passed(key, window, events, i + 1, j) < COMPONENT_ENTRIES
    ensures !Passes(key, window, events, j)
    ensures Run(key, window, events[..j + 1]).delivered == Run(key, window, events[..j]).delivered
  {
    hide Passes, Passed, Run, Commands, ClockAdvances;
    if Passes(key, window, events, j) {
      ReplayedDatagram(key, window, events, i, j);
    }
    PassesIsSealed(key, window, events, i);
    OnlyPassesDeliver(key, window, events, j);
  }

  lemma PassesIsSealed(key: Option<seq<byte>>, window: u32, events: seq<Event>, i: nat)
    requires KeyOk(key) && i < |events| && Passes(key, window, events, i)
    ensures events[i].Arrival? && Parse(events[i].data).Good? && Parse(events[i].data).packet.mode == MODE_AEAD
  {
    hide Parse, Authenticate, Decide, Run;
  }
}
