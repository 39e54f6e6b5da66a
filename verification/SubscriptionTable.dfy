/**
The refcounted subscription table of the asyncio client, with its CRC index and its dispatch, as a state
machine on values. Module AioSubscriptions holds the objects and proves that they follow it.

S is the identity of a subscription. The topics of `subs` are kept in the order they were inserted, as a
Python dict keeps them.
*/
module SubscriptionTable {
  import opened Words

  type Topic = seq<byte>
  type Address = seq<byte>

  // How topics are named on the wire. Nothing is assumed about collisions.
  datatype Naming = Naming(crc: Topic -> u32, group: Topic -> Address)

  datatype Table<S> = Table(
    started: bool,
    order: seq<Topic>,
    subs: map<Topic, seq<S>>,
    index: map<u32, seq<Topic>>,
    joined: set<Address>)

  function Empty<S>(): Table<S>
  {
    Table(false, [], map[], map[], {})
  }

  // ---------------------------------------------------------------- sequences without repetition

  ghost predicate NoDup<T>(s: seq<T>)
  {
    forall i, j :: 0 <= i < j < |s| ==> s[i] != s[j]
  }

  // list.remove: the first occurrence goes.
  function Remove<T(==)>(s: seq<T>, x: T): seq<T>
  {
    if s == [] then [] else if s[0] == x then s[1..] else [s[0]] + Remove(s[1..], x)
  }

  lemma {:induction false} RemoveNoDup<T>(s: seq<T>, x: T)
    requires NoDup(s)
    ensures NoDup(Remove(s, x))
    ensures forall y :: y in Remove(s, x) <==> y in s && y != x
  {
    if s != [] {
      RemoveNoDup(s[1..], x);
      assert forall k :: 0 <= k < |s| - 1 ==> s[1..][k] == s[k + 1];
      assert s[0] !in s[1..];
    }
  }

  lemma NoDupAppend<T>(s: seq<T>, t: seq<T>)
    requires NoDup(s) && NoDup(t) && forall x :: x in t ==> x !in s
    ensures NoDup(s + t)
  {
    forall i, j | 0 <= i < j < |s + t|
      ensures (s + t)[i] != (s + t)[j]
    {
      if i < |s| <= j {
        assert t[j - |s|] in t;
      }
    }
  }

  // ---------------------------------------------------------------- validation

  // validate_topic: no MQTT wildcard, not empty, no NUL, at most 200 bytes.
  predicate ValidTopic(topic: Topic)
  {
    0x2b !in topic && 0x23 !in topic && topic != [] && 0 !in topic && |topic| <= 200
  }

  // One to 200 bytes, none of them '+', '#' or NUL.
  lemma ValidTopicIff(topic: Topic)
    ensures ValidTopic(topic)
            <==> && 1 <= |topic| <= 200
                 && forall i :: 0 <= i < |topic| ==> topic[i] != '+' as int && topic[i] != '#' as int && topic[i] != 0
  {
  }

  // ---------------------------------------------------------------- operations

  function Callbacks<S>(t: Table<S>, topic: Topic): seq<S>
  {
    if topic in t.subs then t.subs[topic] else []
  }

  function Lookup<S>(t: Table<S>, crc: u32): seq<Topic>
  {
    if crc in t.index then t.index[crc] else []
  }

  // The kernel refuses to join a group twice on one socket, and may refuse for reasons of its own.
  predicate JoinSucceeds<S>(n: Naming, t: Table<S>, topic: Topic, allowed: bool)
  {
    t.started && allowed && n.group(topic) !in t.joined
  }

  function Join<S>(n: Naming, t: Table<S>, topic: Topic): Table<S>
  {
    t.(order := t.order + [topic],
       subs := t.subs[topic := []],
       index := t.index[n.crc(topic) := Lookup(t, n.crc(topic)) + [topic]],
       joined := t.joined + {n.group(topic)})
  }

  function AddCallback<S>(t: Table<S>, topic: Topic, sub: S): Table<S>
  {
    t.(subs := t.subs[topic := Callbacks(t, topic) + [sub]])
  }

  // subscribe: an invalid topic or a failed join raises and leaves everything as it was.
  predicate Subscribes<S>(n: Naming, t: Table<S>, topic: Topic, allowed: bool)
  {
    ValidTopic(topic) && (topic in t.subs || JoinSucceeds(n, t, topic, allowed))
  }

  function Subscribe<S>(n: Naming, t: Table<S>, topic: Topic, sub: S, allowed: bool): Table<S>
  {
    if !Subscribes(n, t, topic, allowed) then t
    else AddCallback(if topic in t.subs then t else Join(n, t, topic), topic, sub)
  }

  function Leave<S>(n: Naming, t: Table<S>, topic: Topic): Table<S>
  {
    var crc := n.crc(topic);
    var siblings := Remove(Lookup(t, crc), topic);
    t.(order := Remove(t.order, topic),
       subs := t.subs - {topic},
       index := if siblings == [] then t.index - {crc} else t.index[crc := siblings],
       joined := t.joined - {n.group(topic)})
  }

  function Unsubscribe<S(==)>(n: Naming, t: Table<S>, topic: Topic, sub: S): Table<S>
  {
    if topic !in t.subs || sub !in t.subs[topic] then t
    else
      var rest := Remove(t.subs[topic], sub);
      if rest != [] then t.(subs := t.subs[topic := rest]) else Leave(n, t, topic)
  }

  function Stop<S>(t: Table<S>): Table<S> { Empty() }

  // start does not ask whether the client is started: it always opens a socket, which has joined nothing,
  // and leaves the table alone.
  function Start<S>(t: Table<S>): Table<S> { t.(started := true, joined := {}) }

  // ---------------------------------------------------------------- the invariant

  // What a scan of all topics finds.
  function Scan(n: Naming, order: seq<Topic>, crc: u32): seq<Topic>
  {
    if order == [] then []
    else if n.crc(order[0]) == crc then [order[0]] + Scan(n, order[1..], crc) else Scan(n, order[1..], crc)
  }

  // No subscription is listed twice, under one topic or under two.
  ghost predicate Exclusive<S>(t: Table<S>)
  {
    && (forall a :: a in t.subs ==> NoDup(t.subs[a]))
    && (forall a, b, i, j ::
          (a in t.subs && b in t.subs && 0 <= i < |t.subs[a]| && 0 <= j < |t.subs[b]| && t.subs[a][i] == t.subs[b][j])
          ==> a == b)
  }

  // A topic is listed once, and has a callback.
  ghost predicate Listed<S>(t: Table<S>)
  {
    && NoDup(t.order) && (forall a :: a in t.order <==> a in t.subs)
    && (forall a :: a in t.subs ==> t.subs[a] != [])
  }

  // The index lists, for every CRC, exactly what a scan would find, in the same order, and has no empty
  // entries.
  ghost predicate Indexed<S>(n: Naming, t: Table<S>)
  {
    forall c :: Lookup(t, c) == Scan(n, t.order, c) && (c in t.index ==> t.index[c] != [])
  }

  // The groups joined on the client's socket are those of the topics, one each.
  ghost predicate Grouped<S>(n: Naming, t: Table<S>)
  {
    && (forall a :: a in t.subs ==> n.group(a) in t.joined)
    && (forall g :: g in t.joined ==> exists a :: a in t.subs && n.group(a) == g)
    && (forall a, b :: a in t.subs && b in t.subs && n.group(a) == n.group(b) ==> a == b)
  }

  // What holds of the table whatever happens to the socket.
  ghost predicate Core<S>(n: Naming, t: Table<S>)
  {
    Listed(t) && Indexed(n, t) && Exclusive(t)
  }

  ghost predicate Inv<S>(n: Naming, t: Table<S>)
  {
    Core(n, t) && Grouped(n, t)
  }

  // A step keeps the table right, and the groups if they were.
  ghost predicate Keeps<S>(n: Naming, t: Table<S>, u: Table<S>)
  {
    Core(n, u) && (Grouped(n, t) ==> Grouped(n, u))
  }

  lemma {:induction false} ScanMembers(n: Naming, order: seq<Topic>, crc: u32)
    ensures forall a :: a in Scan(n, order, crc) <==> a in order && n.crc(a) == crc
    ensures NoDup(order) ==> NoDup(Scan(n, order, crc))
  {
    if order != [] {
      ScanMembers(n, order[1..], crc);
    }
  }

  lemma {:induction false} ScanAppend(n: Naming, order: seq<Topic>, topic: Topic, crc: u32)
    ensures Scan(n, order + [topic], crc) == if n.crc(topic) == crc then Scan(n, order, crc) + [topic] else Scan(n, order, crc)
  {
    if order == [] {
      assert [topic][1..] == [];
      assert order + [topic] == [topic];
    } else {
      assert (order + [topic])[1..] == order[1..] + [topic];
      ScanAppend(n, order[1..], topic, crc);
    }
  }

  lemma {:induction false} ScanRemove(n: Naming, order: seq<Topic>, topic: Topic, crc: u32)
    requires NoDup(order)
    ensures Scan(n, Remove(order, topic), crc)
            == if n.crc(topic) == crc then Remove(Scan(n, order, crc), topic) else Scan(n, order, crc)
  {
    if order != [] {
      ScanRemove(n, order[1..], topic, crc);
      if order[0] == topic {
        ScanMembers(n, order[1..], crc);
      } else {
        assert Remove(order, topic)[1..] == Remove(order[1..], topic);
      }
    }
  }

  lemma JoinKeepsIndex<S>(n: Naming, t: Table<S>, topic: Topic)
    requires Indexed(n, t)
    ensures Indexed(n, Join(n, t, topic))
  {
    forall c
      ensures Scan(n, t.order + [topic], c) == if n.crc(topic) == c then Scan(n, t.order, c) + [topic] else Scan(n, t.order, c)
    {
      ScanAppend(n, t.order, topic, c);
    }
  }

  lemma JoinKeepsGroups<S>(n: Naming, t: Table<S>, u: Table<S>, topic: Topic)
    requires Grouped(n, t) && topic !in t.subs && n.group(topic) !in t.joined
    requires u.subs.Keys == t.subs.Keys + {topic} && u.joined == t.joined + {n.group(topic)}
    ensures Grouped(n, u)
  {
    forall g | g in u.joined
      ensures exists a :: a in u.subs && n.group(a) == g
    {
      if g in t.joined {
        var a :| a in t.subs && n.group(a) == g;
        assert a in u.subs;
      } else {
        assert topic in u.subs;
      }
    }
  }

  lemma JoinKeepsListed<S>(t: Table<S>, u: Table<S>, topic: Topic, sub: S)
    requires Listed(t) && topic !in t.subs
    requires u.order == t.order + [topic] && u.subs == t.subs[topic := [sub]]
    ensures Listed(u)
  {
    NoDupAppend(t.order, [topic]);
  }

  lemma ExtendExclusive<S>(t: Table<S>, u: Table<S>, topic: Topic, sub: S)
    requires Exclusive(t) && forall a :: a in t.subs ==> sub !in t.subs[a]
    requires u.subs == t.subs[topic := Callbacks(t, topic) + [sub]]
    ensures Exclusive(u)
  {
    NoDupAppend(Callbacks(t, topic), [sub]);
    forall a, b, i, j | a in u.subs && b in u.subs && 0 <= i < |u.subs[a]| && 0 <= j < |u.subs[b]|
                        && u.subs[a][i] == u.subs[b][j]
      ensures a == b
    {
    }
  }

  lemma SameIndex<S>(n: Naming, t: Table<S>, u: Table<S>)
    requires Indexed(n, t) && u.order == t.order && u.index == t.index
    ensures Indexed(n, u)
  {
    hide Scan;
    assert forall c :: Lookup(u, c) == Lookup(t, c);
  }

  lemma AddKeepsInv<S>(n: Naming, t: Table<S>, topic: Topic, sub: S)
    requires Core(n, t) && topic in t.subs && forall a :: a in t.subs ==> sub !in t.subs[a]
    ensures Keeps(n, t, AddCallback(t, topic, sub))
  {
    hide Indexed, Grouped, Exclusive, Listed;
    var u := AddCallback(t, topic, sub);
    SameIndex(n, t, u);
    SameGroups(n, t, u);
    StillListed(t, u, topic);
    ExtendExclusive(t, u, topic, sub);
  }

  lemma JoinKeepsInv<S>(n: Naming, t: Table<S>, topic: Topic, sub: S)
    requires Core(n, t) && topic !in t.subs && n.group(topic) !in t.joined
    requires forall a :: a in t.subs ==> sub !in t.subs[a]
    ensures Keeps(n, t, AddCallback(Join(n, t, topic), topic, sub))
  {
    hide Indexed, Grouped, Exclusive, Listed;
    var u := AddCallback(Join(n, t, topic), topic, sub);
    assert [] + [sub] == [sub];
    assert u.subs == t.subs[topic := [sub]];
    JoinKeepsIndex(n, t, topic);
    SameIndex(n, Join(n, t, topic), u);
    JoinKeepsListed(t, u, topic, sub);
    if Grouped(n, t) {
      JoinKeepsGroups(n, t, u, topic);
    }
    ExtendExclusive(t, u, topic, sub);
  }

  lemma SubscribeKeepsInv<S>(n: Naming, t: Table<S>, topic: Topic, sub: S, allowed: bool)
    requires Core(n, t)
    requires forall a :: a in t.subs ==> sub !in t.subs[a]
    ensures Keeps(n, t, Subscribe(n, t, topic, sub, allowed))
  {
    hide Core, Grouped, Join, AddCallback;
    if Subscribes(n, t, topic, allowed) {
      if topic in t.subs {
        AddKeepsInv(n, t, topic, sub);
      } else {
        JoinKeepsInv(n, t, topic, sub);
      }
    }
  }

  lemma LeaveKeepsIndex<S>(n: Naming, t: Table<S>, topic: Topic)
    requires Indexed(n, t) && NoDup(t.order)
    ensures Indexed(n, Leave(n, t, topic))
  {
    forall c
      ensures Scan(n, Remove(t.order, topic), c)
              == if n.crc(topic) == c then Remove(Scan(n, t.order, c), topic) else Scan(n, t.order, c)
    {
      ScanRemove(n, t.order, topic, c);
    }
  }

  lemma LeaveKeepsGroups<S>(n: Naming, t: Table<S>, topic: Topic)
    requires Grouped(n, t) && topic in t.subs
    ensures Grouped(n, Leave(n, t, topic))
  {
    var u := Leave(n, t, topic);
    FewerGroups(n, t, u, topic);
  }

  lemma FewerGroups<S>(n: Naming, t: Table<S>, u: Table<S>, topic: Topic)
    requires Grouped(n, t) && topic in t.subs
    requires u.subs == t.subs - {topic} && u.joined == t.joined - {n.group(topic)}
    ensures Grouped(n, u)
  {
    forall g | g in u.joined
      ensures exists a :: a in u.subs && n.group(a) == g
    {
      var a :| a in t.subs && n.group(a) == g;
      assert a in u.subs;
    }
  }

  lemma LeaveKeepsInv<S>(n: Naming, t: Table<S>, topic: Topic)
    requires Core(n, t) && topic in t.subs
    ensures Keeps(n, t, Leave(n, t, topic))
  {
    hide Indexed, Grouped, Exclusive, Listed;
    var u := Leave(n, t, topic);
    ListedOnce(t);
    LeaveKeepsIndex(n, t, topic);
    if Grouped(n, t) {
      LeaveKeepsGroups(n, t, topic);
    }
    LeaveKeepsListed(t, u, topic);
    ListsAreNoDup(t);
    UnsubscribeExclusive(t, u);
  }

  lemma ListedOnce<S>(t: Table<S>)
    requires Listed(t)
    ensures NoDup(t.order)
  {
  }

  lemma LeaveKeepsListed<S>(t: Table<S>, u: Table<S>, topic: Topic)
    requires Listed(t) && u.order == Remove(t.order, topic) && u.subs == t.subs - {topic}
    ensures Listed(u)
  {
    RemoveNoDup(t.order, topic);
  }

  lemma UnsubscribeKeepsInv<S>(n: Naming, t: Table<S>, topic: Topic, sub: S)
    requires Core(n, t)
    ensures Keeps(n, t, Unsubscribe(n, t, topic, sub))
  {
    hide Core, Grouped, Leave;
    if topic in t.subs && sub in t.subs[topic] {
      if Remove(t.subs[topic], sub) == [] {
        LeaveKeepsInv(n, t, topic);
      } else {
        DropKeepsInv(n, t, Unsubscribe(n, t, topic, sub), topic, sub);
      }
    }
  }

  // The fields that _unsubscribe changes, in its two cases.
  lemma UnsubscribeFields<S>(n: Naming, t: Table<S>, topic: Topic, sub: S)
    requires topic in t.subs && sub in t.subs[topic]
    ensures var u, rest := Unsubscribe(n, t, topic, sub), Remove(t.subs[topic], sub);
      && u.started == t.started
      && u.index == (if rest == [] then Leave(n, t, topic).index else t.index)
      && u.subs == (if rest == [] then t.subs - {topic} else t.subs[topic := rest])
      && u.joined == (if rest == [] then t.joined - {n.group(topic)} else t.joined)
  {
    hide Remove;
  }

  lemma UnsubscribeAbsent<S>(n: Naming, t: Table<S>, topic: Topic, sub: S)
    requires topic !in t.subs || sub !in t.subs[topic]
    ensures Unsubscribe(n, t, topic, sub) == t
  {
  }

  lemma DropKeepsInv<S>(n: Naming, t: Table<S>, u: Table<S>, topic: Topic, sub: S)
    requires Core(n, t) && topic in t.subs && Remove(t.subs[topic], sub) != []
    requires u == t.(subs := t.subs[topic := Remove(t.subs[topic], sub)])
    ensures Keeps(n, t, u)
  {
    hide Indexed, Grouped, Exclusive, Listed;
    SameIndex(n, t, u);
    SameGroups(n, t, u);
    StillListed(t, u, topic);
    assert NoDup(t.subs[topic]) && forall a :: a in t.subs ==> NoDup(t.subs[a]) by {
      ListsAreNoDup(t);
    }
    RemoveShrinks(t, u, topic, sub);
    UnsubscribeExclusive(t, u);
  }

  lemma ListsAreNoDup<S>(t: Table<S>)
    requires Exclusive(t)
    ensures forall a :: a in t.subs ==> NoDup(t.subs[a])
  {
  }

  lemma SameGroups<S>(n: Naming, t: Table<S>, u: Table<S>)
    requires u.joined == t.joined && u.subs.Keys == t.subs.Keys
    ensures Grouped(n, t) ==> Grouped(n, u)
  {
    if Grouped(n, t) {
      forall g | g in u.joined
        ensures exists a :: a in u.subs && n.group(a) == g
      {
        var a :| a in t.subs && n.group(a) == g;
        assert a in u.subs;
      }
    }
  }

  lemma StillListed<S>(t: Table<S>, u: Table<S>, topic: Topic)
    requires Listed(t) && topic in t.subs && topic in u.subs && u.subs[topic] != []
    requires u.order == t.order && u.subs == t.subs[topic := u.subs[topic]]
    ensures Listed(u)
  {
  }

  // Nothing is added: callback lists only lose members.
  ghost predicate Shrinks<S>(t: Table<S>, u: Table<S>)
  {
    forall a :: a in u.subs ==> a in t.subs && forall x :: x in u.subs[a] ==> x in t.subs[a]
  }

  lemma RemoveShrinks<S>(t: Table<S>, u: Table<S>, topic: Topic, sub: S)
    requires topic in t.subs && NoDup(t.subs[topic])
    requires u.subs == t.subs[topic := Remove(t.subs[topic], sub)]
    ensures Shrinks(t, u) && NoDup(u.subs[topic])
  {
    RemoveNoDup(t.subs[topic], sub);
    var rest := Remove(t.subs[topic], sub);
    assert u.subs[topic] == rest;
    assert forall x :: x in rest ==> x in t.subs[topic];
  }

  lemma UnsubscribeExclusive<S>(t: Table<S>, u: Table<S>)
    requires Exclusive(t)
    requires Shrinks(t, u) && forall a :: a in u.subs ==> NoDup(u.subs[a])
    ensures Exclusive(u)
  {
    forall a, b, i, j | a in u.subs && b in u.subs && 0 <= i < |u.subs[a]| && 0 <= j < |u.subs[b]|
                        && u.subs[a][i] == u.subs[b][j]
      ensures a == b
    {
      assert u.subs[a][i] in t.subs[a] && u.subs[b][j] in t.subs[b];
    }
  }

  // A lookup in the index is the scan the C++ component does.
  lemma IndexIsScan<S>(n: Naming, t: Table<S>, crc: u32)
    requires Core(n, t)
    ensures Lookup(t, crc) == Scan(n, t.order, crc)
    ensures NoDup(Lookup(t, crc)) && forall a :: a in Lookup(t, crc) <==> a in t.subs && n.crc(a) == crc
  {
    ScanMembers(n, t.order, crc);
  }

  // ---------------------------------------------------------------- dispatch

  // What a callback does to the table while it runs: any unsubscriptions, its own included.
  datatype Removal<S> = Removal(topic: Topic, sub: S)
  datatype Dispatched<S> = Dispatched(table: Table<S>, log: seq<S>)

  function RemoveAll<S(==)>(n: Naming, t: Table<S>, removals: seq<Removal<S>>): Table<S>
    decreases |removals|
  {
    if removals == [] then t
    else RemoveAll(n, Unsubscribe(n, t, removals[0].topic, removals[0].sub), removals[1..])
  }

  // script[k] is what the k-th callback of this datagram does; past the end, nothing.
  function Effect<S>(script: seq<seq<Removal<S>>>, k: nat): seq<Removal<S>>
  {
    if k < |script| then script[k] else []
  }

  // The inner loop, over a snapshot of one callback list.
  function DispatchSubs<S(==)>(n: Naming, d: Dispatched<S>, subs: seq<S>, script: seq<seq<Removal<S>>>): Dispatched<S>
    decreases |subs|
  {
    if subs == [] then d
    else DispatchSubs(n, Dispatched(RemoveAll(n, d.table, Effect(script, |d.log|)), d.log + [subs[0]]), subs[1..], script)
  }

  // The outer loop, over a snapshot of the topics with the datagram's CRC. Each callback list is copied
  // when its turn comes.
  function DispatchTopics<S(==)>(n: Naming, d: Dispatched<S>, topics: seq<Topic>,
      script: seq<seq<Removal<S>>>): Dispatched<S>
    decreases |topics|
  {
    if topics == [] then d
    else DispatchTopics(n, DispatchSubs(n, d, Callbacks(d.table, topics[0]), script), topics[1..], script)
  }

  function Dispatch<S(==)>(n: Naming, t: Table<S>, crc: u32, script: seq<seq<Removal<S>>>): Dispatched<S>
  {
    DispatchTopics(n, Dispatched(t, []), Lookup(t, crc), script)
  }

  ghost predicate Subscribed<S>(t: Table<S>, topic: Topic, older x: S)
  {
    topic in t.subs && x in t.subs[topic]
  }

  lemma UnsubscribeShrinks<S>(n: Naming, t: Table<S>, topic: Topic, sub: S)
    requires Core(n, t)
    ensures Shrinks(t, Unsubscribe(n, t, topic, sub))
  {
    if topic in t.subs && sub in t.subs[topic] && Remove(t.subs[topic], sub) != [] {
      RemoveShrinks(t, Unsubscribe(n, t, topic, sub), topic, sub);
    }
  }

  lemma {:induction false} RemoveAllShrinks<S>(n: Naming, t: Table<S>, removals: seq<Removal<S>>)
    requires Core(n, t)
    ensures Keeps(n, t, RemoveAll(n, t, removals)) && Shrinks(t, RemoveAll(n, t, removals))
    decreases |removals|
  {
    hide Core, Grouped, Unsubscribe;
    if removals != [] {
      UnsubscribeKeepsInv(n, t, removals[0].topic, removals[0].sub);
      UnsubscribeShrinks(n, t, removals[0].topic, removals[0].sub);
      RemoveAllShrinks(n, Unsubscribe(n, t, removals[0].topic, removals[0].sub), removals[1..]);
    }
  }

  lemma {:induction false} DispatchSubsLogs<S>(n: Naming, d: Dispatched<S>, subs: seq<S>, script: seq<seq<Removal<S>>>)
    requires Core(n, d.table)
    ensures var e := DispatchSubs(n, d, subs, script);
      Keeps(n, d.table, e.table) && Shrinks(d.table, e.table) && e.log == d.log + subs
    decreases |subs|
  {
    hide Core, Grouped, RemoveAll;
    if subs != [] {
      RemoveAllShrinks(n, d.table, Effect(script, |d.log|));
      var d' := Dispatched(RemoveAll(n, d.table, Effect(script, |d.log|)), d.log + [subs[0]]);
      DispatchSubsLogs(n, d', subs[1..], script);
    } else {
      assert d.log + subs == d.log;
    }
  }

  // Between topics: what is logged so far came, once each, from the topics already done; what is still
  // subscribed under them has been logged.
  ghost predicate Progress<S>(t: Table<S>, topics: seq<Topic>, k: nat, d: Dispatched<S>)
    requires k <= |topics|
  {
    && Shrinks(t, d.table)
    && NoDup(d.log)
    && (forall x :: x in d.log ==> exists i :: 0 <= i < k && Subscribed(t, topics[i], x))
    && (forall i, x :: 0 <= i < k && Subscribed(d.table, topics[i], x) ==> x in d.log)
  }

  lemma ProgressStep<S>(n: Naming, t: Table<S>, topics: seq<Topic>, k: nat, d: Dispatched<S>, e: Dispatched<S>)
    requires Exclusive(t) && Exclusive(d.table) && NoDup(topics) && k < |topics|
    requires Progress(t, topics, k, d)
    requires Shrinks(d.table, e.table) && e.log == d.log + Callbacks(d.table, topics[k])
    ensures Progress(t, topics, k + 1, e)
  {
    var subs := Callbacks(d.table, topics[k]);
    forall x | x in d.log
      ensures x !in subs
    {
      var i :| 0 <= i < k && Subscribed(t, topics[i], x);
      NotElsewhere(t, topics[i], topics[k], x);
    }
    assert forall x :: x in subs ==> Subscribed(t, topics[k], x);
    NoDupAppend(d.log, subs);
    forall x | x in e.log
      ensures exists i :: 0 <= i < k + 1 && Subscribed(t, topics[i], x)
    {
      if x in d.log {
        var i :| 0 <= i < k && Subscribed(t, topics[i], x);
      }
    }
    forall i, x | 0 <= i < k + 1 && Subscribed(e.table, topics[i], x)
      ensures x in e.log
    {
      assert Subscribed(d.table, topics[i], x);
    }
  }

  lemma NotElsewhere<S>(t: Table<S>, a: Topic, b: Topic, x: S)
    requires Exclusive(t) && Subscribed(t, a, x) && a != b
    ensures !Subscribed(t, b, x)
  {
    var i :| 0 <= i < |t.subs[a]| && t.subs[a][i] == x;
  }

  lemma {:induction false} DispatchTopicsProgress<S>(n: Naming, t: Table<S>, topics: seq<Topic>, k: nat,
      d: Dispatched<S>, script: seq<seq<Removal<S>>>)
    requires Core(n, t) && Core(n, d.table) && NoDup(topics) && k <= |topics|
    requires Progress(t, topics, k, d)
    ensures var e := DispatchTopics(n, d, topics[k..], script);
      Keeps(n, d.table, e.table) && Progress(t, topics, |topics|, e)
    decreases |topics| - k
  {
    hide Grouped, DispatchSubs, Callbacks, Progress;
    if k < |topics| {
      var e := DispatchSubs(n, d, Callbacks(d.table, topics[k]), script);
      DispatchSubsLogs(n, d, Callbacks(d.table, topics[k]), script);
      ProgressStep(n, t, topics, k, d, e);
      assert topics[k..][0] == topics[k] && topics[k..][1..] == topics[k + 1..];
      DispatchTopicsProgress(n, t, topics, k + 1, e, script);
    }
  }

  // Whatever the callbacks unsubscribe: nobody is dispatched twice, only matching subscriptions are
  // dispatched, and every matching one that is still subscribed afterwards was.
  lemma DispatchUnderMutation<S>(n: Naming, t: Table<S>, crc: u32, script: seq<seq<Removal<S>>>)
    requires Core(n, t)
    ensures var d := Dispatch(n, t, crc, script);
      && Keeps(n, t, d.table) && Shrinks(t, d.table)
      && NoDup(d.log)
      && (forall x :: x in d.log ==> exists a :: Subscribed(t, a, x) && n.crc(a) == crc)
      && (forall a, x :: Subscribed(d.table, a, x) && n.crc(a) == crc ==> Subscribed(t, a, x) && x in d.log)
  {
    hide Scan, Grouped;
    var topics := Lookup(t, crc);
    IndexIsScan(n, t, crc);
    var d0 := Dispatched(t, []);
    assert topics[0..] == topics;
    DispatchTopicsProgress(n, t, topics, 0, d0, script);
    var d := Dispatch(n, t, crc, script);
    forall x | x in d.log
      ensures exists a :: Subscribed(t, a, x) && n.crc(a) == crc
    {
      var i :| 0 <= i < |topics| && Subscribed(t, topics[i], x);
      assert topics[i] in topics;
    }
    forall a, x | Subscribed(d.table, a, x) && n.crc(a) == crc
      ensures Subscribed(t, a, x) && x in d.log
    {
      assert a in topics;
    }
  }

  // At any point between two topics: whoever is called from there on is still subscribed then, to a topic
  // whose turn is to come. So a subscription that is gone before its topic's turn is not called.
  lemma {:induction false} OnlyRemainingCalled<S>(n: Naming, d: Dispatched<S>, topics: seq<Topic>, script: seq<seq<Removal<S>>>)
    requires Core(n, d.table)
    ensures var e := DispatchTopics(n, d, topics, script);
      && d.log <= e.log
      && forall x :: x in e.log[|d.log|..] ==> exists i :: 0 <= i < |topics| && Subscribed(d.table, topics[i], x)
    decreases |topics|
  {
    hide Core, Grouped, DispatchSubs;
    if topics != [] {
      var subs := Callbacks(d.table, topics[0]);
      var m := DispatchSubs(n, d, subs, script);
      DispatchSubsLogs(n, d, subs, script);
      OnlyRemainingCalled(n, m, topics[1..], script);
      var e := DispatchTopics(n, d, topics, script);
      forall x | x in e.log[|d.log|..]
        ensures exists i :: 0 <= i < |topics| && Subscribed(d.table, topics[i], x)
      {
        assert e.log[|d.log|..] == subs + e.log[|m.log|..];
        if x in subs {
          assert Subscribed(d.table, topics[0], x);
        } else {
          var i :| 0 <= i < |topics| - 1 && Subscribed(m.table, topics[1..][i], x);
          assert Subscribed(d.table, topics[i + 1], x);
        }
      }
    }
  }

  // With callbacks that leave the table alone, exactly the matching subscriptions are dispatched, topic by
  // topic in insertion order.
  function AllCallbacks<S>(t: Table<S>, topics: seq<Topic>): seq<S>
  {
    if topics == [] then [] else Callbacks(t, topics[0]) + AllCallbacks(t, topics[1..])
  }

  lemma {:induction false} QuietSubs<S>(n: Naming, d: Dispatched<S>, subs: seq<S>)
    ensures DispatchSubs(n, d, subs, []) == Dispatched(d.table, d.log + subs)
    decreases |subs|
  {
    if subs == [] {
      assert d.log + subs == d.log;
    } else {
      QuietSubs(n, Dispatched(d.table, d.log + [subs[0]]), subs[1..]);
      assert d.log + [subs[0]] + subs[1..] == d.log + subs;
    }
  }

  lemma {:induction false} QuietTopics<S>(n: Naming, d: Dispatched<S>, topics: seq<Topic>)
    ensures DispatchTopics(n, d, topics, []) == Dispatched(d.table, d.log + AllCallbacks(d.table, topics))
    decreases |topics|
  {
    if topics == [] {
      assert d.log + [] == d.log;
    } else {
      var subs := Callbacks(d.table, topics[0]);
      QuietSubs(n, d, subs);
      QuietTopics(n, Dispatched(d.table, d.log + subs), topics[1..]);
      assert d.log + subs + AllCallbacks(d.table, topics[1..]) == d.log + (subs + AllCallbacks(d.table, topics[1..]));
    }
  }

  lemma QuietDispatch<S>(n: Naming, t: Table<S>, crc: u32)
    requires Core(n, t)
    ensures Dispatch(n, t, crc, []) == Dispatched(t, AllCallbacks(t, Scan(n, t.order, crc)))
  {
    IndexIsScan(n, t, crc);
    QuietTopics(n, Dispatched(t, []), Lookup(t, crc));
    assert [] + AllCallbacks(t, Lookup(t, crc)) == AllCallbacks(t, Lookup(t, crc));
  }

  // ---------------------------------------------------------------- datagrams

  const RAW: byte := 0

  // _handle_datagram, from the look-up on: without a subscriber, or with an encoding other than RAW,
  // nobody is called.
  function Handle<S(==)>(n: Naming, t: Table<S>, crc: u32, encoding: byte, script: seq<seq<Removal<S>>>): Dispatched<S>
  {
    if Lookup(t, crc) == [] || encoding != RAW then Dispatched(t, []) else Dispatch(n, t, crc, script)
  }

  // The laws of dispatch, for every encoding.
  lemma HandleUnderMutation<S>(n: Naming, t: Table<S>, crc: u32, encoding: byte, script: seq<seq<Removal<S>>>)
    requires Core(n, t)
    ensures var d := Handle(n, t, crc, encoding, script);
      && Keeps(n, t, d.table) && Shrinks(t, d.table)
      && NoDup(d.log)
      && (forall x :: x in d.log ==> encoding == RAW && exists a :: Subscribed(t, a, x) && n.crc(a) == crc)
      && (forall a, x :: encoding == RAW && Subscribed(d.table, a, x) && n.crc(a) == crc
            ==> Subscribed(t, a, x) && x in d.log)
  {
    hide Scan, Grouped, Dispatch;
    DispatchUnderMutation(n, t, crc, script);
    IndexIsScan(n, t, crc);
    assert forall a, x :: Subscribed(t, a, x) && n.crc(a) == crc ==> a in Lookup(t, crc);
  }

  // ---------------------------------------------------------------- runs

  datatype Event<S> =
    | Starting
    | Stopping
    | Subscribing(topic: Topic, sub: S, allowed: bool)
    | Unsubscribing(topic: Topic, sub: S)
    | Datagram(crc: u32, encoding: byte, script: seq<seq<Removal<S>>>)

  function Next<S(==)>(n: Naming, t: Table<S>, e: Event<S>): Table<S>
  {
    match e
    case Starting => Start(t)
    case Stopping => Stop(t)
    case Subscribing(topic, sub, allowed) => Subscribe(n, t, topic, sub, allowed)
    case Unsubscribing(topic, sub) => Unsubscribe(n, t, topic, sub)
    case Datagram(crc, encoding, script) => Handle(n, t, crc, encoding, script).table
  }

  function Run<S(==)>(n: Naming, events: seq<Event<S>>): Table<S>
  {
    if events == [] then Empty() else Next(n, Run(n, events[..|events| - 1]), events[|events| - 1])
  }

  // Each call of subscribe makes a subscription of its own.
  ghost predicate OwnSubscriptions<S>(events: seq<Event<S>>)
  {
    forall i, j :: 0 <= i < j < |events| && events[i].Subscribing? && events[j].Subscribing?
      ==> events[i].sub != events[j].sub
  }

  ghost predicate FromEvents<S>(t: Table<S>, events: seq<Event<S>>)
  {
    forall a, x :: Subscribed(t, a, x) ==> exists i :: 0 <= i < |events| && events[i].Subscribing? && events[i].sub == x
  }

  // The client is started only when nothing is subscribed, as it is at first and after a stop.
  ghost predicate CleanStarts<S>(n: Naming, events: seq<Event<S>>)
  {
    forall i :: 0 <= i < |events| && events[i].Starting? ==> Run(n, events[..i]).subs == map[]
  }

  lemma NextKeepsCore<S>(n: Naming, t: Table<S>, e: Event<S>)
    requires Core(n, t)
    requires e.Subscribing? ==> forall a :: !Subscribed(t, a, e.sub)
    ensures Core(n, Next(n, t, e))
    ensures Grouped(n, t) && (e.Starting? ==> t.subs == map[]) ==> Grouped(n, Next(n, t, e))
    ensures e.Subscribing? || Shrinks(t, Next(n, t, e))
  {
    hide Handle, Unsubscribe, Subscribe, Core, Grouped, Start;
    match e
    case Starting =>
      StartKeepsCore(n, t);
      StartKeepsGroupsIff(n, t);
    case Stopping =>
      EmptyInv<S>(n);
    case Subscribing(topic, sub, allowed) =>
      forall a | a in t.subs
        ensures sub !in t.subs[a]
      {
        assert !Subscribed(t, a, sub);
      }
      SubscribeKeepsInv(n, t, topic, sub, allowed);
    case Unsubscribing(topic, sub) =>
      UnsubscribeKeepsInv(n, t, topic, sub);
      UnsubscribeShrinks(n, t, topic, sub);
    case Datagram(crc, encoding, script) =>
      HandleUnderMutation(n, t, crc, encoding, script);
  }

  lemma StartKeepsCore<S>(n: Naming, t: Table<S>)
    requires Core(n, t)
    ensures Core(n, Start(t)) && Shrinks(t, Start(t))
  {
    hide Indexed;
    SameIndex(n, t, Start(t));
  }

  // A start leaves the groups right exactly when nothing is subscribed: the new socket has joined nothing.
  lemma StartKeepsGroupsIff<S>(n: Naming, t: Table<S>)
    ensures Grouped(n, Start(t)) <==> t.subs == map[]
  {
    if t.subs != map[] {
      var a :| a in t.subs;
      assert n.group(a) !in Start(t).joined;
    }
  }

  lemma EmptyInv<S>(n: Naming)
    ensures Inv(n, Empty<S>())
  {
  }

  // After any run -- repeated and failed subscribes, repeated unsubscribes, dispatches with unsubscribing
  // callbacks, stops and starts at any time -- the table and its index are right.
  lemma {:induction false} RunKeepsCore<S>(n: Naming, events: seq<Event<S>>)
    requires OwnSubscriptions(events)
    ensures Core(n, Run(n, events)) && FromEvents(Run(n, events), events)
    decreases |events|
  {
    hide Core, Next;
    if events == [] {
      EmptyInv<S>(n);
    } else {
      var k := |events| - 1;
      var before, e := events[..k], events[k];
      RunKeepsCore(n, before);
      OwnIsNew(events, Run(n, before));
      NextKeepsCore(n, Run(n, before), e);
      NextFromEvents(n, Run(n, before), before, e);
      assert before + [e] == events;
    }
  }

  lemma OwnIsNew<S>(events: seq<Event<S>>, t: Table<S>)
    requires events != [] && OwnSubscriptions(events) && FromEvents(t, events[..|events| - 1])
    ensures var e := events[|events| - 1]; e.Subscribing? ==> forall a :: !Subscribed(t, a, e.sub)
  {
    var before, e := events[..|events| - 1], events[|events| - 1];
    if e.Subscribing? {
      forall i | 0 <= i < |before| && before[i].Subscribing?
        ensures before[i].sub != e.sub
      {
        assert events[i] == before[i];
      }
    }
  }

  // When it is started only with nothing subscribed, the groups joined are those of the topics, too.
  lemma {:induction false} RunKeepsInv<S>(n: Naming, events: seq<Event<S>>)
    requires OwnSubscriptions(events) && CleanStarts(n, events)
    ensures Inv(n, Run(n, events))
    decreases |events|
  {
    hide Core, Grouped, Next;
    RunKeepsCore(n, events);
    if events == [] {
      EmptyInv<S>(n);
    } else {
      var k := |events| - 1;
      var before, e := events[..k], events[k];
      CleanPrefix(n, events, k);
      RunKeepsInv(n, before);
      RunKeepsCore(n, before);
      OwnIsNew(events, Run(n, before));
      NextKeepsCore(n, Run(n, before), e);
    }
  }

  lemma CleanPrefix<S>(n: Naming, events: seq<Event<S>>, k: nat)
    requires CleanStarts(n, events) && k <= |events|
    ensures CleanStarts(n, events[..k])
  {
    hide Run;
    forall i | 0 <= i < k && events[..k][i].Starting?
      ensures Run(n, events[..k][..i]).subs == map[]
    {
      assert events[..k][..i] == events[..i] && events[i].Starting?;
    }
  }

  // And only then: the groups are right all through a run if and only if every start is a clean one.
  lemma GroupsThroughoutIff<S>(n: Naming, events: seq<Event<S>>)
    requires OwnSubscriptions(events)
    ensures (forall k :: 0 <= k <= |events| ==> Grouped(n, Run(n, events[..k]))) <==> CleanStarts(n, events)
  {
    hide Core, Grouped, Next;
    if CleanStarts(n, events) {
      forall k | 0 <= k <= |events|
        ensures Grouped(n, Run(n, events[..k]))
      {
        CleanPrefix(n, events, k);
        RunKeepsInv(n, events[..k]);
      }
    }
    if forall k :: 0 <= k <= |events| ==> Grouped(n, Run(n, events[..k])) {
      forall i | 0 <= i < |events| && events[i].Starting?
        ensures Run(n, events[..i]).subs == map[]
      {
        RunStart(n, events, i);
        StartKeepsGroupsIff(n, Run(n, events[..i]));
        assert Grouped(n, Run(n, events[..i + 1]));
      }
    }
  }

  lemma RunStart<S>(n: Naming, events: seq<Event<S>>, i: nat)
    requires i < |events| && events[i].Starting?
    ensures Run(n, events[..i + 1]) == Start(Run(n, events[..i]))
  {
    assert events[..i + 1][..i] == events[..i];
  }

  // Starting a started client with a subscriber: the topic stays in the table, its group is not joined.
  lemma RestartForgetsGroups<S>(n: Naming, topic: Topic, sub: S)
    requires ValidTopic(topic)
    ensures var t := Run(n, [Starting, Subscribing(topic, sub, true), Starting]);
      t.subs == map[topic := [sub]] && t.joined == {} && !Grouped(n, t)
  {
    var events: seq<Event<S>> := [Starting, Subscribing(topic, sub, true), Starting];
    assert events[..3] == events && events[..2] == [Starting, Subscribing(topic, sub, true)];
    assert events[..2][..1] == events[..1] == [Starting] && events[..1][..0] == [];
    var t1 := Run(n, events[..1]);
    assert events[0] == Starting && Run(n, events[..0]) == Empty();
    RunStart(n, events, 0);
    var t2 := Run(n, events[..2]);
    assert t2 == Subscribe(n, t1, topic, sub, true);
    assert [] + [sub] == [sub];
    assert t2.subs == map[topic := [sub]];
    RunStart(n, events, 2);
    StartKeepsGroupsIff(n, t2);
    assert topic in t2.subs;
  }

  // On the client of any run, a look-up in the index finds the matching topics of the table, each once, in
  // the order of the table.
  lemma RunIndexIsScan<S>(n: Naming, events: seq<Event<S>>, crc: u32)
    requires OwnSubscriptions(events)
    ensures var t := Run(n, events);
      && Lookup(t, crc) == Scan(n, t.order, crc) && NoDup(Lookup(t, crc))
      && forall a :: a in Lookup(t, crc) <==> a in t.subs && n.crc(a) == crc
  {
    hide Core;
    RunKeepsCore(n, events);
    IndexIsScan(n, Run(n, events), crc);
  }

  lemma NextFromEvents<S>(n: Naming, t: Table<S>, before: seq<Event<S>>, e: Event<S>)
    requires FromEvents(t, before)
    requires e.Subscribing? || Shrinks(t, Next(n, t, e))
    ensures FromEvents(Next(n, t, e), before + [e])
  {
    hide Handle, Unsubscribe;
    var u := Next(n, t, e);
    forall a, x | Subscribed(u, a, x)
      ensures exists i :: 0 <= i < |before + [e]| && (before + [e])[i].Subscribing? && (before + [e])[i].sub == x
    {
      if Subscribed(t, a, x) {
        var i :| 0 <= i < |before| && before[i].Subscribing? && before[i].sub == x;
        assert (before + [e])[i] == before[i];
      } else {
        assert (before + [e])[|before|] == e;
      }
    }
  }
}
