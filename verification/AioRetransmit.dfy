/**
The publishing side of the asyncio client: finite retransmissions and indefinite chains as timers of an
event loop.

The loop is a map from handles to pending timers; firing a handle removes it, and so does cancelling it, so
a cancelled timer never fires. Every send attempt is logged with the publication it belongs to.
*/
module AioRetransmit {
  import opened Options
  import opened Words

  type Topic = seq<byte>
  type Handle = nat

  const INDEFINITE: int := -1

  datatype Publication = Publication(topic: Topic, data: seq<byte>, count: int)
  datatype Origin = First | Resend | Chain
  // A pending timer: one more send of a finite publication, or the tick of a topic's chain.
  datatype Timer = Once(pub: nat) | Tick(topic: Topic, pub: nat)
  datatype Sent = Sent(pub: nat, origin: Origin)

  datatype State = State(
    started: bool,
    timers: map<Handle, Timer>,
    next: Handle,
    indefinite: map<Topic, Handle>,
    finite: set<Handle>,
    pubs: seq<Publication>,
    stopped: nat,             // how many publications the last stop cut off
    log: seq<Sent>)

  function Initial(): State
  {
    State(false, map[], 0, map[], {}, [], 0, [])
  }

  // ---------------------------------------------------------------- the steps

  // _cancel_indefinite
  function Cancel(s: State, topic: Topic): State
  {
    if topic in s.indefinite
    then s.(timers := s.timers - {s.indefinite[topic]}, indefinite := s.indefinite - {topic})
    else s
  }

  function CallLater(s: State, timer: Timer): State
  {
    s.(timers := s.timers[s.next := timer], next := s.next + 1)
  }

  // _schedule_one
  function ScheduleOne(s: State, pub: nat): State
  {
    CallLater(s, Once(pub)).(finite := s.finite + {s.next})
  }

  function ScheduleMany(s: State, pub: nat, k: nat): State
  {
    if k == 0 then s else ScheduleOne(ScheduleMany(s, pub, k - 1), pub)
  }

  // Arms the next tick of a topic's chain.
  function Arm(s: State, topic: Topic, pub: nat): State
  {
    CallLater(s, Tick(topic, pub)).(indefinite := s.indefinite[topic := s.next])
  }

  function Send(s: State, pub: nat, origin: Origin): State
  {
    s.(log := s.log + [Sent(pub, origin)])
  }

  // publish: `encoded` is missing when validation or encoding raises; then, or before start, nothing changes.
  function Publish(s: State, topic: Topic, encoded: Option<seq<byte>>, count: int): State
  {
    if !s.started || encoded.None? then s
    else
      var pub := |s.pubs|;
      var s1 := Cancel(s, topic).(pubs := s.pubs + [Publication(topic, encoded.value, count)]);
      var s2 := Send(s1, pub, First);
      if count == INDEFINITE then Arm(s2, topic, pub)
      else if count > 1 then ScheduleMany(s2, pub, count - 1)
      else s2
  }

  function Fire(s: State, h: Handle): State
  {
    if h !in s.timers then s
    else
      var s1 := s.(timers := s.timers - {h});
      match s.timers[h]
      case Once(pub) => Send(s1.(finite := s1.finite - {h}), pub, Resend)
      case Tick(topic, pub) => Arm(Send(s1, pub, Chain), topic, pub)
  }

  // stop: every handle in either collection is cancelled.
  function Stop(s: State): State
  {
    s.(started := false,
       timers := map h | h in s.timers && h !in s.indefinite.Values && h !in s.finite :: s.timers[h],
       indefinite := map[], finite := {}, stopped := |s.pubs|)
  }

  datatype Event =
    | Starting
    | Stopping
    | Publishing(topic: Topic, encoded: Option<seq<byte>>, count: int)
    | Firing(handle: Handle)

  function Next(s: State, e: Event): State
  {
    match e
    case Starting => s.(started := true)
    case Stopping => Stop(s)
    case Publishing(topic, encoded, count) => Publish(s, topic, encoded, count)
    case Firing(h) => Fire(s, h)
  }

  function Run(events: seq<Event>): State
  {
    if events == [] then Initial() else Next(Run(events[..|events| - 1]), events[|events| - 1])
  }

  // ---------------------------------------------------------------- what every run keeps

  // The most recent publication to its topic.
  predicate Latest(pubs: seq<Publication>, pub: nat)
  {
    pub < |pubs| && forall q :: pub < q < |pubs| ==> pubs[q].topic != pubs[pub].topic
  }

  // Each live tick is the one the table names, and it carries the latest publication to its topic; the
  // finite set is exactly the pending single sends.
  ghost predicate TimersOk(s: State)
  {
    && (forall h :: h in s.timers ==> h < s.next)
    && (forall h :: h in s.finite <==> h in s.timers && s.timers[h].Once?)
    && (forall t :: t in s.indefinite ==> s.indefinite[t] in s.timers && s.timers[s.indefinite[t]].Tick?
                                          && s.timers[s.indefinite[t]].topic == t)
    && (forall h :: h in s.timers && s.timers[h].Tick? ==>
          var t := s.timers[h].topic;
          && t in s.indefinite && s.indefinite[t] == h
          && Latest(s.pubs, s.timers[h].pub) && s.pubs[s.timers[h].pub].topic == t
          && s.pubs[s.timers[h].pub].count == INDEFINITE)
    && (!s.started ==> s.timers == map[])
  }

  // Sends refer to publications; a chain's send comes before no older first send of its topic, that is, it
  // never repeats bytes that a later publication has superseded.
  ghost predicate LogOk(s: State)
  {
    && (forall i :: 0 <= i < |s.log| ==> s.log[i].pub < |s.pubs|)
    && (forall i, j ::
          (0 <= i < j < |s.log| && s.log[i].origin == First && s.log[j].origin == Chain
           && s.pubs[s.log[i].pub].topic == s.pubs[s.log[j].pub].topic)
          ==> s.log[i].pub <= s.log[j].pub)
    && (forall j :: 0 <= j < |s.log| && s.log[j].origin == Chain ==> s.pubs[s.log[j].pub].count == INDEFINITE)
  }

  function Attempts(log: seq<Sent>, pub: nat): nat
  {
    if log == [] then 0 else Attempts(log[..|log| - 1], pub) + if log[|log| - 1].pub == pub then 1 else 0
  }

  function Pending(s: State, pub: nat): set<Handle>
  {
    set h | h in s.timers && s.timers[h] == Once(pub)
  }

  // Until a stop, attempts made and sends still pending add up to the count.
  ghost predicate CountsOk(s: State)
  {
    && s.stopped <= |s.pubs|
    && (forall p :: s.stopped <= p < |s.pubs| && s.pubs[p].count >= 1 ==>
          Attempts(s.log, p) + |Pending(s, p)| == s.pubs[p].count)
    && (forall p :: 0 <= p < s.stopped ==> Pending(s, p) == {})
    && (forall h :: h in s.timers ==> s.timers[h].pub < |s.pubs|)
  }

  ghost predicate Inv(s: State)
  {
    TimersOk(s) && LogOk(s) && CountsOk(s)
  }

  lemma AttemptsSnoc(log: seq<Sent>, x: Sent, pub: nat)
    ensures Attempts(log + [x], pub) == Attempts(log, pub) + if x.pub == pub then 1 else 0
  {
    assert (log + [x])[..|log|] == log;
  }

  lemma {:induction false} NoAttempts(log: seq<Sent>, pub: nat)
    requires forall i :: 0 <= i < |log| ==> log[i].pub != pub
    ensures Attempts(log, pub) == 0
  {
    if log != [] {
      NoAttempts(log[..|log| - 1], pub);
    }
  }

  lemma CancelTimers(s: State, topic: Topic)
    requires TimersOk(s)
    ensures TimersOk(Cancel(s, topic))
    ensures forall h :: h in Cancel(s, topic).timers && s.timers[h].Tick? ==> s.timers[h].topic != topic
    ensures forall p :: Pending(Cancel(s, topic), p) == Pending(s, p)
  {
    var u := Cancel(s, topic);
    forall p
      ensures Pending(u, p) == Pending(s, p)
    {
    }
  }

  // The state of publish after the cancelling and the first send.
  function Opened(s: State, topic: Topic, data: seq<byte>, count: int): State
  {
    Send(Cancel(s, topic).(pubs := s.pubs + [Publication(topic, data, count)]), |s.pubs|, First)
  }

  lemma OpenedTimers(s: State, topic: Topic, data: seq<byte>, count: int)
    requires TimersOk(s) && s.started
    ensures TimersOk(Opened(s, topic, data, count))
    ensures topic !in Opened(s, topic, data, count).indefinite
  {
    CancelTimers(s, topic);
    var u := Opened(s, topic, data, count);
    forall h | h in u.timers && u.timers[h].Tick?
      ensures Latest(u.pubs, u.timers[h].pub)
    {
      assert s.timers[h] == u.timers[h];
    }
  }

  lemma OpenedLog(s: State, topic: Topic, data: seq<byte>, count: int)
    requires LogOk(s)
    ensures LogOk(Opened(s, topic, data, count))
  {
    var u := Opened(s, topic, data, count);
    assert u.log == s.log + [Sent(|s.pubs|, First)];
  }

  // After the first send one attempt has been made, nothing is pending yet, and the others are as before.
  lemma OpenedCounts(s: State, topic: Topic, data: seq<byte>, count: int)
    requires Inv(s)
    ensures var u := Opened(s, topic, data, count);
      && Attempts(u.log, |s.pubs|) == 1 && Pending(u, |s.pubs|) == {}
      && (forall h :: h in u.timers ==> u.timers[h].pub < |s.pubs|)
      && (forall p :: p != |s.pubs| ==> Attempts(u.log, p) == Attempts(s.log, p) && Pending(u, p) == Pending(s, p))
  {
    CancelTimers(s, topic);
    var u := Opened(s, topic, data, count);
    NoAttempts(s.log, |s.pubs|);
    forall p
      ensures Attempts(u.log, p) == Attempts(s.log, p) + if p == |s.pubs| then 1 else 0
      ensures Pending(u, p) == Pending(Cancel(s, topic), p)
    {
      AttemptsSnoc(s.log, Sent(|s.pubs|, First), p);
    }
  }

  lemma ScheduleOneTimers(s: State, pub: nat)
    requires TimersOk(s) && s.started
    ensures var u := ScheduleOne(s, pub);
      && TimersOk(u)
      && |Pending(u, pub)| == |Pending(s, pub)| + 1
      && (forall p :: p != pub ==> Pending(u, p) == Pending(s, p))
  {
    var u := ScheduleOne(s, pub);
    assert Pending(u, pub) == Pending(s, pub) + {s.next};
    forall p | p != pub
      ensures Pending(u, p) == Pending(s, p)
    {
    }
  }

  lemma {:induction false} ScheduleManyTimers(s: State, pub: nat, k: nat)
    requires TimersOk(s) && s.started
    ensures var u := ScheduleMany(s, pub, k);
      && TimersOk(u) && u.started && u.pubs == s.pubs && u.log == s.log && u.stopped == s.stopped
      && |Pending(u, pub)| == |Pending(s, pub)| + k
      && (forall p :: p != pub ==> Pending(u, p) == Pending(s, p))
      && (forall h :: h in u.timers ==> u.timers[h].pub == pub || (h in s.timers && u.timers[h] == s.timers[h]))
  {
    hide TimersOk, Pending;
    if k > 0 {
      ScheduleManyTimers(s, pub, k - 1);
      ScheduleOneTimers(ScheduleMany(s, pub, k - 1), pub);
    }
  }

  lemma ArmTimers(s: State, topic: Topic, pub: nat)
    requires TimersOk(s) && s.started && topic !in s.indefinite
    requires Latest(s.pubs, pub) && s.pubs[pub].topic == topic && s.pubs[pub].count == INDEFINITE
    ensures TimersOk(Arm(s, topic, pub))
    ensures forall p :: Pending(Arm(s, topic, pub), p) == Pending(s, p)
  {
    var u := Arm(s, topic, pub);
    forall p
      ensures Pending(u, p) == Pending(s, p)
    {
    }
  }

  lemma SameLog(s: State, u: State)
    requires LogOk(s) && u.pubs == s.pubs && u.log == s.log
    ensures LogOk(u)
  {
  }

  // The counts of a state that differs from an older one by one publication, sent once.
  lemma CountsAfterPublish(s: State, u: State, p: Publication)
    requires CountsOk(s) && u.pubs == s.pubs + [p] && u.stopped == s.stopped
    requires Attempts(u.log, |s.pubs|) == 1
    requires p.count >= 1 ==> |Pending(u, |s.pubs|)| == p.count - 1
    requires forall q :: q != |s.pubs| ==> Attempts(u.log, q) == Attempts(s.log, q) && Pending(u, q) == Pending(s, q)
    requires forall h :: h in u.timers ==> u.timers[h].pub <= |s.pubs|
    ensures CountsOk(u)
  {
    hide Attempts, Pending;
  }

  lemma PublishKeepsInv(s: State, topic: Topic, encoded: Option<seq<byte>>, count: int)
    requires Inv(s)
    ensures Inv(Publish(s, topic, encoded, count))
  {
    hide Pending, Attempts, TimersOk, LogOk;
    if s.started && encoded.Some? {
      var pub, u := |s.pubs|, Opened(s, topic, encoded.value, count);
      OpenedTimers(s, topic, encoded.value, count);
      OpenedLog(s, topic, encoded.value, count);
      OpenedCounts(s, topic, encoded.value, count);
      var v := Publish(s, topic, encoded, count);
      if count == INDEFINITE {
        assert Latest(u.pubs, pub);
        ArmTimers(u, topic, pub);
      } else if count > 1 {
        ScheduleManyTimers(u, pub, count - 1);
      }
      SameLog(u, v);
      CountsAfterPublish(s, v, Publication(topic, encoded.value, count));
    }
  }

  lemma FireOnceTimers(s: State, h: Handle)
    requires TimersOk(s) && h in s.timers && s.timers[h].Once?
    ensures TimersOk(Fire(s, h))
  {
  }

  lemma FireOnceLog(s: State, h: Handle)
    requires LogOk(s) && h in s.timers && s.timers[h].Once? && s.timers[h].pub < |s.pubs|
    ensures LogOk(Fire(s, h))
  {
    assert Fire(s, h).log == s.log + [Sent(s.timers[h].pub, Resend)];
  }

  // One pending send becomes one attempt.
  lemma FireOnceCounts(s: State, h: Handle)
    requires CountsOk(s) && h in s.timers && s.timers[h].Once?
    ensures CountsOk(Fire(s, h))
  {
    var u, pub := Fire(s, h), s.timers[h].pub;
    assert Pending(u, pub) == Pending(s, pub) - {h} && h in Pending(s, pub);
    forall p
      ensures Attempts(u.log, p) == Attempts(s.log, p) + if p == pub then 1 else 0
      ensures p != pub ==> Pending(u, p) == Pending(s, p)
    {
      AttemptsSnoc(s.log, Sent(pub, Resend), p);
    }
    hide Attempts, Pending;
  }

  lemma FireOnceKeepsInv(s: State, h: Handle)
    requires Inv(s) && h in s.timers && s.timers[h].Once?
    ensures Inv(Fire(s, h))
  {
    FireOnceTimers(s, h);
    FireOnceLog(s, h);
    FireOnceCounts(s, h);
  }

  // The chain's send: its publication is the latest to its topic, so nothing sent first since supersedes it.
  lemma TickLog(s: State, pub: nat)
    requires LogOk(s) && Latest(s.pubs, pub) && s.pubs[pub].count == INDEFINITE
    ensures LogOk(Send(s, pub, Chain))
  {
    var u := Send(s, pub, Chain);
    forall i | 0 <= i < |s.log| && s.log[i].origin == First && s.pubs[s.log[i].pub].topic == s.pubs[pub].topic
      ensures s.log[i].pub <= pub
    {
    }
  }

  lemma FireTickTimers(s: State, h: Handle)
    requires TimersOk(s) && h in s.timers && s.timers[h].Tick?
    ensures TimersOk(Fire(s, h))
  {
  }

  lemma FireTickCounts(s: State, h: Handle)
    requires TimersOk(s) && CountsOk(s) && h in s.timers && s.timers[h].Tick?
    requires s.timers[h].pub < |s.pubs| && s.pubs[s.timers[h].pub].count == INDEFINITE
    ensures CountsOk(Fire(s, h))
  {
    hide Attempts, Pending;
    FireTickPending(s, h);
    var u, pub := Fire(s, h), s.timers[h].pub;
    forall p
      ensures Attempts(u.log, p) == Attempts(s.log, p) + if p == pub then 1 else 0
    {
      AttemptsSnoc(s.log, Sent(pub, Chain), p);
    }
  }

  lemma FireTickPending(s: State, h: Handle)
    requires TimersOk(s) && h in s.timers && s.timers[h].Tick? && s.timers[h].pub < |s.pubs|
    ensures forall p :: Pending(Fire(s, h), p) == Pending(s, p)
  {
    hide Attempts;
  }

  lemma FireTickKeepsInv(s: State, h: Handle)
    requires Inv(s) && h in s.timers && s.timers[h].Tick?
    ensures Inv(Fire(s, h))
  {
    FireTickTimers(s, h);
    TickLog(s, s.timers[h].pub);
    SameLog(Send(s, s.timers[h].pub, Chain), Fire(s, h));
    FireTickCounts(s, h);
  }

  lemma StopKeepsInv(s: State)
    requires Inv(s)
    ensures Inv(Stop(s)) && Stop(s).timers == map[]
  {
    var u := Stop(s);
    forall h | h in s.timers
      ensures h in s.finite || h in s.indefinite.Values
    {
      if s.timers[h].Tick? {
        assert s.timers[h].topic in s.indefinite;
      }
    }
    assert u.timers == map[];
    SameLog(s, u);
  }

  lemma NextKeepsInv(s: State, e: Event)
    requires Inv(s)
    ensures Inv(Next(s, e))
  {
    match e
    case Starting =>
      SameLog(s, s.(started := true));
      forall p
        ensures Pending(s.(started := true), p) == Pending(s, p)
      {
      }
    case Stopping =>
      StopKeepsInv(s);
    case Publishing(topic, encoded, count) =>
      PublishKeepsInv(s, topic, encoded, count);
    case Firing(h) =>
      if h in s.timers {
        if s.timers[h].Once? {
          FireOnceKeepsInv(s, h);
        } else {
          FireTickKeepsInv(s, h);
        }
      }
  }

  lemma {:induction false} RunKeepsInv(events: seq<Event>)
    ensures Inv(Run(events))
    decreases |events|
  {
    hide Inv, Next;
    if events == [] {
      InitialInv();
    } else {
      RunKeepsInv(events[..|events| - 1]);
      NextKeepsInv(Run(events[..|events| - 1]), events[|events| - 1]);
    }
  }

  lemma InitialInv()
    ensures Inv(Initial())
  {
  }

  // ---------------------------------------------------------------- what it means

  // In every reachable state a topic has at most one live chain timer, the one on record, and it will send
  // the bytes of the latest publication to that topic.
  lemma OneChainPerTopic(events: seq<Event>, h: Handle, k: Handle)
    ensures var s := Run(events);
      && (h in s.timers && s.timers[h].Tick? ==>
            s.timers[h].topic in s.indefinite && s.indefinite[s.timers[h].topic] == h && Latest(s.pubs, s.timers[h].pub)
            && s.pubs[s.timers[h].pub].topic == s.timers[h].topic)
      && ((h in s.timers && k in s.timers && s.timers[h].Tick? && s.timers[k].Tick?
           && s.timers[h].topic == s.timers[k].topic)
          ==> h == k)
  {
    RunKeepsInv(events);
  }

  // In every reachable state, whatever a chain has sent since a publication to its topic is that
  // publication's bytes or newer ones.
  lemma SupersededNeverResent(events: seq<Event>, i: nat, j: nat)
    requires i < j < |Run(events).log|
    requires Run(events).log[i].origin == First && Run(events).log[j].origin == Chain
    ensures var s := Run(events);
      && s.log[i].pub < |s.pubs| && s.log[j].pub < |s.pubs|
      && (s.pubs[s.log[i].pub].topic == s.pubs[s.log[j].pub].topic ==> s.log[i].pub <= s.log[j].pub)
  {
    RunKeepsInv(events);
  }

  // A finite publication that no stop has cut off: attempts made and sends pending add up to its count.
  lemma AttemptsPlusPending(events: seq<Event>, pub: nat)
    requires var s := Run(events); s.stopped <= pub < |s.pubs| && s.pubs[pub].count >= 1
    ensures var s := Run(events); Attempts(s.log, pub) + |Pending(s, pub)| == s.pubs[pub].count
  {
    RunKeepsInv(events);
  }

  // After a stop nothing is pending: firing any handle changes nothing until the client is started again.
  lemma NothingFiresAfterStop(events: seq<Event>, h: Handle)
    requires !Run(events).started
    ensures Run(events).timers == map[] && Fire(Run(events), h) == Run(events)
  {
    RunKeepsInv(events);
  }

  // ---------------------------------------------------------------- what is still to come

  // The latest publication to its topic, if it is an indefinite one that no stop has cut off, has a tick
  // pending, which is the one on record.
  ghost predicate ChainsLive(s: State)
  {
    forall p :: s.stopped <= p < |s.pubs| && Latest(s.pubs, p) && s.pubs[p].count == INDEFINITE ==> Armed(s, s.pubs[p].topic, p)
  }

  predicate Armed(s: State, topic: Topic, pub: nat)
  {
    topic in s.indefinite && s.indefinite[topic] in s.timers && s.timers[s.indefinite[topic]] == Tick(topic, pub)
  }

  lemma LatestBefore(pubs: seq<Publication>, x: Publication, p: nat)
    requires p < |pubs| && Latest(pubs + [x], p)
    ensures Latest(pubs, p) && pubs[p].topic != x.topic
  {
    assert forall q :: p < q < |pubs| ==> (pubs + [x])[q] == pubs[q];
    assert (pubs + [x])[|pubs|] == x;
  }

  lemma OpenedArmed(s: State, topic: Topic, data: seq<byte>, count: int, t: Topic, p: nat)
    requires TimersOk(s) && Armed(s, t, p) && t != topic
    ensures Armed(Opened(s, topic, data, count), t, p)
  {
  }

  lemma {:induction false} ScheduleManyArmed(s: State, pub: nat, k: nat, t: Topic, p: nat)
    requires Armed(s, t, p) && forall h :: h in s.timers ==> h < s.next
    ensures Armed(ScheduleMany(s, pub, k), t, p)
    ensures var u := ScheduleMany(s, pub, k); u.pubs == s.pubs && forall h :: h in u.timers ==> h < u.next
  {
    if k > 0 {
      ScheduleManyArmed(s, pub, k - 1, t, p);
    }
  }

  lemma {:induction false} ScheduleManyKeeps(s: State, pub: nat, k: nat)
    ensures ScheduleMany(s, pub, k).pubs == s.pubs && ScheduleMany(s, pub, k).stopped == s.stopped
    ensures ScheduleMany(s, pub, k).log == s.log
  {
    if k > 0 {
      ScheduleManyKeeps(s, pub, k - 1);
    }
  }

  lemma PublishKeepsLive(s: State, topic: Topic, encoded: Option<seq<byte>>, count: int)
    requires TimersOk(s) && ChainsLive(s)
    ensures ChainsLive(Publish(s, topic, encoded, count))
  {
    hide TimersOk, Cancel, Latest, Armed, ScheduleMany;
    if s.started && encoded.Some? {
      var o, u := Opened(s, topic, encoded.value, count), Publish(s, topic, encoded, count);
      OpenedTimers(s, topic, encoded.value, count);
      CancelKeeps(s, topic);
      if count > 1 {
        ScheduleManyKeeps(o, |s.pubs|, count - 1);
      }
      forall p | u.stopped <= p < |u.pubs| && Latest(u.pubs, p) && u.pubs[p].count == INDEFINITE
        ensures Armed(u, u.pubs[p].topic, p)
      {
        if p < |s.pubs| {
          LatestBefore(s.pubs, Publication(topic, encoded.value, count), p);
          OpenedArmed(s, topic, encoded.value, count, s.pubs[p].topic, p);
          HandlesBelow(o);
          StillArmed(o, topic, |s.pubs|, count, s.pubs[p].topic, p);
        } else {
          ArmIsArmed(o, topic, p);
        }
      }
    }
  }

  lemma CancelKeeps(s: State, topic: Topic)
    ensures Cancel(s, topic).pubs == s.pubs && Cancel(s, topic).stopped == s.stopped && Cancel(s, topic).log == s.log
  {
  }

  lemma HandlesBelow(s: State)
    requires TimersOk(s)
    ensures forall h :: h in s.timers ==> h < s.next
  {
  }

  lemma ArmIsArmed(s: State, topic: Topic, pub: nat)
    ensures Armed(Arm(s, topic, pub), topic, pub)
  {
  }

  // What publish does behind the first send leaves the chains of other topics alone.
  lemma StillArmed(s: State, topic: Topic, pub: nat, count: int, t: Topic, p: nat)
    requires Armed(s, t, p) && t != topic && forall h :: h in s.timers ==> h < s.next
    ensures Armed(if count == INDEFINITE then Arm(s, topic, pub) else if count > 1 then ScheduleMany(s, pub, count - 1) else s, t, p)
  {
    if count > 1 {
      ScheduleManyArmed(s, pub, count - 1, t, p);
    }
  }

  lemma FireKeepsArmed(s: State, h: Handle, t: Topic, p: nat)
    requires TimersOk(s) && Armed(s, t, p)
    ensures Armed(Fire(s, h), t, p)
  {
  }

  lemma FireKeepsPubs(s: State, h: Handle)
    ensures Fire(s, h).pubs == s.pubs && Fire(s, h).stopped == s.stopped
  {
  }

  lemma NextKeepsLive(s: State, e: Event)
    requires Inv(s) && ChainsLive(s)
    ensures ChainsLive(Next(s, e))
  {
    hide TimersOk, LogOk, CountsOk, Latest, Armed, Publish, Fire;
    match e
    case Starting =>
      forall t, p
        ensures Armed(s, t, p) ==> Armed(s.(started := true), t, p)
      {
        StartedArmed(s, t, p);
      }
    case Stopping =>
    case Publishing(topic, encoded, count) => PublishKeepsLive(s, topic, encoded, count);
    case Firing(h) =>
      FireKeepsPubs(s, h);
      forall p | s.stopped <= p < |s.pubs| && Latest(s.pubs, p) && s.pubs[p].count == INDEFINITE
        ensures Armed(Fire(s, h), s.pubs[p].topic, p)
      {
        FireKeepsArmed(s, h, s.pubs[p].topic, p);
      }
  }

  lemma StartedArmed(s: State, t: Topic, p: nat)
    ensures Armed(s, t, p) ==> Armed(s.(started := true), t, p)
  {
  }

  // After any run, the latest publication to a topic, when it is indefinite and not cut off by a stop, has
  // its next send pending.
  lemma {:induction false} IndefiniteStaysArmed(events: seq<Event>)
    ensures ChainsLive(Run(events))
  {
    hide Inv, ChainsLive, Next;
    if events == [] {
      NothingToArm();
    } else {
      var before := events[..|events| - 1];
      IndefiniteStaysArmed(before);
      RunKeepsInv(before);
      NextKeepsLive(Run(before), events[|events| - 1]);
    }
  }

  lemma NothingToArm()
    ensures ChainsLive(Initial())
  {
  }

  // And that send goes out when its timer fires, and arms the next one.
  lemma FiringResends(events: seq<Event>, p: nat)
    requires var s := Run(events);
      s.stopped <= p < |s.pubs| && Latest(s.pubs, p) && s.pubs[p].count == INDEFINITE
    ensures var s := Run(events);
      var topic := s.pubs[p].topic;
      topic in s.indefinite
      && var u := Fire(s, s.indefinite[topic]);
         u.log == s.log + [Sent(p, Chain)] && u.pubs == s.pubs && Armed(u, topic, p)
  {
    hide Inv;
    IndefiniteStaysArmed(events);
    RunKeepsInv(events);
    TimersOf(Run(events));
    FireKeepsArmed(Run(events), Run(events).indefinite[Run(events).pubs[p].topic], Run(events).pubs[p].topic, p);
  }

  lemma TimersOf(s: State)
    requires Inv(s)
    ensures TimersOk(s)
  {
  }

  // A publish on a started client is sent at once, with the bytes given, whatever its count.
  lemma PublishSendsAtOnce(events: seq<Event>, topic: Topic, data: seq<byte>, count: int)
    requires Run(events).started
    ensures var s, u := Run(events), Run(events + [Publishing(topic, Some(data), count)]);
      u.pubs == s.pubs + [Publication(topic, data, count)] && u.log == s.log + [Sent(|s.pubs|, First)]
  {
    hide Cancel, ScheduleMany;
    var s := Run(events);
    assert (events + [Publishing(topic, Some(data), count)])[..|events|] == events;
    CancelKeeps(s, topic);
    if count > 1 {
      ScheduleManyKeeps(Opened(s, topic, data, count), |s.pubs|, count - 1);
    }
  }

  // ---------------------------------------------------------------- the client's own code

  class Client {
    var started: bool
    var indefinite: map<Topic, Handle>
    var finite: set<Handle>
    // The event loop's pending timers; handles are given out in order.
    var timers: map<Handle, Timer>
    var next: Handle

    // The history: what was published and what was put on the wire.
    var pubs: seq<Publication>
    var log: seq<Sent>
    ghost var stopped: nat

    ghost function Abs(): State
      reads this
    {
      State(started, timers, next, indefinite, finite, pubs, stopped, log)
    }

    constructor ()
      ensures Abs() == Initial() && Inv(Abs())
    {
      started, timers, next, indefinite, finite := false, map[], 0, map[], {};
      pubs, stopped, log := [], 0, [];
      new;
      InitialInv();
    }

    method Start()
      requires Inv(Abs())
      modifies this
      ensures Abs() == Next(old(Abs()), Starting) && Inv(Abs())
    {
      NextKeepsInv(Abs(), Starting);
      started := true;
    }

    method CallLater(timer: Timer) returns (handle: Handle)
      modifies `timers, `next
      ensures handle == old(next) && timers == old(timers)[handle := timer] && next == handle + 1
    {
      handle := next;
      timers := timers[handle := timer];
      next := next + 1;
    }

    method SendTo(pub: nat, origin: Origin)
      modifies `log
      ensures log == old(log) + [Sent(pub, origin)]
    {
      log := log + [Sent(pub, origin)];
    }

    method CancelIndefinite(topic: Topic)
      modifies this
      ensures Abs() == Cancel(old(Abs()), topic)
    {
      if topic in indefinite {
        var handle := indefinite[topic];
        indefinite := indefinite - {topic};
        timers := timers - {handle};
      }
    }

    method Publish(topic: Topic, encoded: Option<seq<byte>>, count: int)
      requires Inv(Abs())
      modifies this
      ensures Abs() == Next(old(Abs()), Publishing(topic, encoded, count)) && Inv(Abs())
    {
      hide Inv;
      PublishKeepsInv(Abs(), topic, encoded, count);
      if !started || encoded.None? {
        return;
      }
      var pub := |pubs|;
      CancelIndefinite(topic);
      pubs := pubs + [Publication(topic, encoded.value, count)];
      SendTo(pub, First);
      if count == INDEFINITE {
        var handle := CallLater(Tick(topic, pub));
        indefinite := indefinite[topic := handle];
      } else if count > 1 {
        ghost var start := Abs();
        for i := 1 to count
          invariant Abs() == ScheduleMany(start, pub, i - 1)
        {
          var handle := CallLater(Once(pub));
          finite := finite + {handle};
        }
      }
    }

    // The loop runs a timer: it is no longer pending, and its callback runs.
    method Fire(handle: Handle)
      requires Inv(Abs()) && handle in timers
      modifies this
      ensures Abs() == Next(old(Abs()), Firing(handle)) && Inv(Abs())
    {
      hide Inv;
      NextKeepsInv(Abs(), Firing(handle));
      var timer := timers[handle];
      timers := timers - {handle};
      match timer
      case Once(pub) =>
        finite := finite - {handle};
        SendTo(pub, Resend);
      case Tick(topic, pub) =>
        SendTo(pub, Chain);
        var again := CallLater(Tick(topic, pub));
        indefinite := indefinite[topic := again];
    }

    method Stop()
      requires Inv(Abs())
      modifies this
      ensures Abs() == Next(old(Abs()), Stopping) && Inv(Abs()) && timers == map[]
    {
      StopKeepsInv(Abs());
      timers := timers - indefinite.Values;
      indefinite := map[];
      timers := timers - finite;
      finite := {};
      started := false;
      stopped := |pubs|;
    }
  }
}
