/**
The three replay guards: a fixed ring (C++), a deque and dict (Python), a slice and set (Go), each proved
against the decision procedure of ReplaySpec.

Two things keep them from deciding alike. They are built with different capacities, and after as many
messages as the smaller one holds they differ. And the Go guard computes its cutoff in unsigned arithmetic.
GoAgreesIff says exactly when neither matters.
*/
module ReplayGuards {
  import opened Words
  import opened ReplaySpec

  predicate IsWord(x: int) { 0 <= x < 0x1_0000_0000 }

  predicate WordCommand(c: Command<int>) { IsWord(c.now) && IsWord(c.ts) && IsWord(c.nonce) }

  // ---------------------------------------------------------------- a window on a ring

  function RingIndex(head: nat, i: nat, capacity: nat): (r: nat)
    requires capacity > 0
    ensures r < capacity
  {
    (head + i) % capacity
  }

  lemma RingIndexWraps(head: nat, i: nat, capacity: nat)
    requires head < capacity && i <= capacity
    ensures RingIndex(head, i, capacity) == if head + i < capacity then head + i else head + i - capacity
  {
  }

  function Window(slots: seq<Entry<int>>, head: nat, count: nat): (es: seq<Entry<int>>)
    requires head < |slots| && count <= |slots|
    ensures |es| == count
  {
    seq(count, i requires 0 <= i < count => slots[RingIndex(head, i, |slots|)])
  }

  lemma WindowPop(slots: seq<Entry<int>>, head: nat, count: nat)
    requires head < |slots| && 0 < count <= |slots|
    ensures Window(slots, RingIndex(head, 1, |slots|), count - 1) == Window(slots, head, count)[1..]
    ensures slots[head] == Window(slots, head, count)[0]
  {
    hide RingIndex;
    RingIndexWraps(head, 1, |slots|);
    RingIndexWraps(head, 0, |slots|);
    var next := RingIndex(head, 1, |slots|);
    forall i | 0 <= i < count - 1
      ensures Window(slots, next, count - 1)[i] == Window(slots, head, count)[1..][i]
    {
      RingIndexWraps(head, i + 1, |slots|);
      RingIndexWraps(next, i, |slots|);
    }
  }

  lemma WindowPush(slots: seq<Entry<int>>, head: nat, count: nat, e: Entry<int>)
    requires head < |slots| && count < |slots|
    ensures var idx := RingIndex(head, count, |slots|);
      Window(slots[idx := e], head, count + 1) == Window(slots, head, count) + [e]
  {
    hide RingIndex;
    RingIndexWraps(head, count, |slots|);
    var idx := RingIndex(head, count, |slots|);
    forall i | 0 <= i < count + 1
      ensures Window(slots[idx := e], head, count + 1)[i] == (Window(slots, head, count) + [e])[i]
    {
      RingIndexWraps(head, i, |slots|);
    }
  }

  lemma WindowOverwrite(slots: seq<Entry<int>>, head: nat, e: Entry<int>)
    requires head < |slots|
    ensures Window(slots[head := e], RingIndex(head, 1, |slots|), |slots|) == (Window(slots, head, |slots|) + [e])[1..]
  {
    hide RingIndex;
    var n := |slots|;
    RingIndexWraps(head, 1, n);
    var next := RingIndex(head, 1, n);
    forall i | 0 <= i < n
      ensures Window(slots[head := e], next, n)[i] == (Window(slots, head, n) + [e])[1..][i]
    {
      RingIndexWraps(next, i, n);
      if i + 1 < n {
        RingIndexWraps(head, i + 1, n);
      }
    }
  }

  // ---------------------------------------------------------------- C++: replay_guard.h

  class Ring {
    var window: u32
    var head: nat
    var count: nat
    const slots: array<Entry<int>>

    ghost predicate Valid()
      reads this, slots
    {
      && 0 < slots.Length && head < slots.Length && count <= slots.Length
      && forall i :: 0 <= i < slots.Length ==> IsWord(slots[i].ts) && IsWord(slots[i].nonce)
    }

    ghost function Contents(): seq<Entry<int>>
      requires Valid()
      reads this, slots
    {
      Window(slots[..], head, count)
    }

    constructor (capacity: nat, window: u32)
      requires 1 <= capacity
      ensures Valid() && fresh(slots)
      ensures slots.Length == capacity && this.window == window && Contents() == []
    {
      this.window := window;
      head := 0;
      count := 0;
      slots := new Entry<int>[capacity](_ => Entry(0, 0));
    }

    method Prune(now: u32)
      requires Valid() && 0 < window
      modifies `head, `count
      ensures Valid()
      ensures Contents() == ReplaySpec.Prune(now, window, old(Contents()))
    {
      ghost var before := Contents();
      while count > 0
        invariant Valid()
        invariant ReplaySpec.Prune(now, window, Contents()) == ReplaySpec.Prune(now, window, before)
        decreases count
      {
        var oldest := slots[head];
        WindowPop(slots[..], head, count);
        if now > oldest.ts && now - oldest.ts > window {
          head := (head + 1) % slots.Length;
          count := count - 1;
        } else {
          break;
        }
      }
    }

    method Accept(now: u32, nowValid: bool, timestamp: u32, nonce: u32) returns (accepted: bool)
      requires Valid()
      modifies this, slots
      ensures Valid() && window == old(window)
      ensures Outcome(accepted, Contents())
              == Decide(window, slots.Length, old(Contents()), Command(now, nowValid, timestamp, nonce))
    {
      if window == 0 {
        return true;
      }
      if !nowValid {
        return false;
      }
      if timestamp == 0 {
        return false;
      }
      var skew := if now >= timestamp then now - timestamp else timestamp - now;
      if skew > window {
        return false;
      }
      Prune(now);
      var seen := Scan(nonce);
      if seen {
        return false;
      }
      Record(nonce, timestamp);
      return true;
    }

    // The scan of accept for a nonce already recorded.
    method Scan(nonce: u32) returns (seen: bool)
      requires Valid()
      ensures seen == Remembers(Contents(), nonce)
    {
      var i := 0;
      while i < count
        invariant 0 <= i <= count
        invariant forall k :: 0 <= k < i ==> Contents()[k].nonce != nonce
      {
        if slots[(head + i) % slots.Length].nonce == nonce {
          assert Contents()[i].nonce == nonce;
          return true;
        }
        i := i + 1;
      }
      return false;
    }

    // The end of accept: append, dropping the oldest entry of a full ring.
    method Record(nonce: u32, timestamp: u32)
      requires Valid()
      modifies `head, `count, slots
      ensures Valid()
      ensures Contents() == Push(slots.Length, old(Contents()), Entry(nonce, timestamp))
    {
      hide RingIndex, Window;
      var idx: nat;
      ghost var s, h := slots[..], head;
      if count < slots.Length {
        WindowPush(s, head, count, Entry(nonce, timestamp));
        idx := RingIndex(head, count, slots.Length);
        count := count + 1;
      } else {
        WindowOverwrite(s, head, Entry(nonce, timestamp));
        idx := head;
        head := RingIndex(head, 1, slots.Length);
      }
      slots[idx] := Entry(nonce, timestamp);
      assert slots[..] == s[idx := Entry(nonce, timestamp)];
    }
  }

  // ---------------------------------------------------------------- the dict or set beside the list

  // The lookup structure holds exactly the nonces of the list, each once.
  ghost predicate Mirrors<N>(seen: set<N>, es: seq<Entry<N>>)
  {
    && Distinct(es)
    && (forall i :: 0 <= i < |es| ==> es[i].nonce in seen)
    && (forall n :: n in seen ==> Remembers(es, n))
  }

  lemma MirrorsPop<N>(seen: set<N>, es: seq<Entry<N>>)
    requires Mirrors(seen, es) && es != []
    ensures Mirrors(seen - {es[0].nonce}, es[1..])
  {
    forall n | n in seen - {es[0].nonce}
      ensures Remembers(es[1..], n)
    {
      var i :| 0 <= i < |es| && es[i].nonce == n;
      assert es[1..][i - 1].nonce == n;
    }
  }

  lemma MirrorsPush<N>(seen: set<N>, es: seq<Entry<N>>, e: Entry<N>)
    requires Mirrors(seen, es) && !Remembers(es, e.nonce)
    ensures Mirrors(seen + {e.nonce}, es + [e])
  {
    forall n | n in seen + {e.nonce}
      ensures Remembers(es + [e], n)
    {
      if n == e.nonce {
        assert (es + [e])[|es|].nonce == n;
      } else {
        var i :| 0 <= i < |es| && es[i].nonce == n;
        assert (es + [e])[i].nonce == n;
      }
    }
  }

  // ---------------------------------------------------------------- Python: wire.ReplayGuard

  datatype MaybeInt = Absent | Present(value: int)

  class Deque {
    const window: int
    const maxEntries: int
    var order: seq<Entry<MaybeInt>>
    var seen: map<MaybeInt, int>

    ghost predicate Valid()
      reads this
    {
      Mirrors(seen.Keys, order)
    }

    constructor (window: int, maxEntries: int)
      ensures Valid() && this.window == window && this.maxEntries == maxEntries && order == []
    {
      this.window := window;
      this.maxEntries := maxEntries;
      order := [];
      seen := map[];
    }

    method Prune(now: int)
      requires Valid()
      modifies this
      ensures Valid() && order == ReplaySpec.Prune(now, window, old(order))
    {
      var cutoff := now - window;
      while order != [] && order[0].ts < cutoff
        invariant Valid()
        invariant ReplaySpec.Prune(now, window, order) == ReplaySpec.Prune(now, window, old(order))
        decreases |order|
      {
        MirrorsPop(seen.Keys, order);
        var oldNonce := order[0].nonce;
        order := order[1..];
        seen := seen - {oldNonce};
      }
    }

    // A missing timestamp is treated like 0: unverifiable. A missing nonce is remembered like any other.
    method Accept(now: int, nowValid: bool, timestamp: MaybeInt, nonce: MaybeInt) returns (accepted: bool)
      requires Valid()
      modifies this
      ensures Valid()
      ensures var ts := if timestamp.Present? then timestamp.value else 0;
        Outcome(accepted, order) == Decide(window, maxEntries, old(order), Command(now, nowValid, ts, nonce))
    {
      if window == 0 {
        return true;
      }
      if !nowValid {
        return false;
      }
      if timestamp == Absent || timestamp == Present(0) {
        return false;
      }
      var ts := timestamp.value;
      if (if now - ts < 0 then ts - now else now - ts) > window {
        return false;
      }
      Prune(now);
      if nonce in seen {
        return false;
      }
      ghost var kept := order;
      MirrorsPush(seen.Keys, order, Entry(nonce, ts));
      seen := seen[nonce := ts];
      order := order + [Entry(nonce, ts)];
      if |order| > maxEntries {
        MirrorsPop(seen.Keys, order);
        var oldNonce := order[0].nonce;
        order := order[1..];
        seen := seen - {oldNonce};
      }
      return true;
    }
  }

  // Naming nonces differently, but injectively, changes no decision: so the Python guard, whose nonces may
  // be missing, decides on words as the others do.
  function Wrapped(es: seq<Entry<int>>): (ws: seq<Entry<MaybeInt>>)
    ensures |ws| == |es|
  {
    seq(|es|, i requires 0 <= i < |es| => Entry(Present(es[i].nonce), es[i].ts))
  }

  function WrappedCommand(c: Command<int>): Command<MaybeInt>
  {
    Command(c.now, c.nowValid, c.ts, Present(c.nonce))
  }

  lemma {:induction false} WrappedPrune(now: int, window: int, es: seq<Entry<int>>)
    ensures ReplaySpec.Prune(now, window, Wrapped(es)) == Wrapped(ReplaySpec.Prune(now, window, es))
    decreases |es|
  {
    if es != [] {
      WrappedPrune(now, window, es[1..]);
      assert Wrapped(es)[1..] == Wrapped(es[1..]);
    }
  }

  lemma WrappedRemembers(es: seq<Entry<int>>, nonce: int)
    ensures Remembers(Wrapped(es), Present(nonce)) == Remembers(es, nonce)
  {
    if Remembers(es, nonce) {
      var i :| 0 <= i < |es| && es[i].nonce == nonce;
      assert Wrapped(es)[i].nonce == Present(nonce);
    }
  }

  lemma WrappedDecides(window: int, capacity: int, es: seq<Entry<int>>, c: Command<int>)
    ensures var o := Decide(window, capacity, es, c);
      Decide(window, capacity, Wrapped(es), WrappedCommand(c)) == Outcome(o.accepted, Wrapped(o.entries))
  {
    hide ReplaySpec.Prune, Remembers;
    WrappedPrune(c.now, window, es);
    var kept := ReplaySpec.Prune(c.now, window, es);
    WrappedRemembers(kept, c.nonce);
    assert Wrapped(kept) + [Entry(Present(c.nonce), c.ts)] == Wrapped(kept + [Entry(c.nonce, c.ts)]);
    assert Wrapped(kept + [Entry(c.nonce, c.ts)])[1..] == Wrapped((kept + [Entry(c.nonce, c.ts)])[1..]);
  }

  // ---------------------------------------------------------------- Go: replay.go

  // uint32 subtraction: below the window the cutoff wraps to a huge number.
  function Cutoff(now: u32, window: u32): u32
  {
    U32(now + TWO32 - window)
  }

  function PruneBelow(cutoff: int, es: seq<Entry<int>>): seq<Entry<int>>
  {
    if es != [] && es[0].ts < cutoff then PruneBelow(cutoff, es[1..]) else es
  }

  function DecideGo(window: u32, maxEntries: int, es: seq<Entry<int>>, c: Command<int>): Outcome<int>
    requires IsWord(c.now)
  {
    if window == 0 then Outcome(true, es)
    else if !Fresh(window, c) then Outcome(false, es)
    else
      var kept := PruneBelow(Cutoff(c.now, window), es);
      if Remembers(kept, c.nonce) then Outcome(false, kept)
      else Outcome(true, Push(maxEntries, kept, Entry(c.nonce, c.ts)))
  }

  lemma {:induction false} PruneBelowStep(cutoff: int, es: seq<Entry<int>>, i: nat)
    requires i <= |es| && forall k :: 0 <= k < i ==> es[k].ts < cutoff
    requires i < |es| ==> es[i].ts >= cutoff
    ensures PruneBelow(cutoff, es) == es[i..]
    decreases i
  {
    if i > 0 {
      PruneBelowStep(cutoff, es[1..], i - 1);
    }
  }

  class Slice {
    const window: u32
    const maxEntries: int
    var order: seq<Entry<int>>
    var seen: set<int>

    ghost predicate Valid()
      reads this
    {
      Mirrors(seen, order)
    }

    constructor (window: u32, maxEntries: int)
      ensures Valid() && this.window == window && this.maxEntries == maxEntries && order == []
    {
      this.window := window;
      this.maxEntries := maxEntries;
      order := [];
      seen := {};
    }

    method Prune(now: u32)
      requires Valid()
      modifies this
      ensures Valid() && order == PruneBelow(Cutoff(now, window), old(order))
    {
      var cutoff := Cutoff(now, window);
      var i := 0;
      while i < |order| && order[i].ts < cutoff
        invariant 0 <= i <= |order| && order == old(order)
        invariant Mirrors(seen, order[i..])
        invariant forall k :: 0 <= k < i ==> order[k].ts < cutoff
      {
        MirrorsPop(seen, order[i..]);
        assert order[i..][1..] == order[i + 1..];
        seen := seen - {order[i].nonce};
        i := i + 1;
      }
      PruneBelowStep(cutoff, order, i);
      if i > 0 {
        order := order[i..];
      }
    }

    method Accept(now: u32, nowValid: bool, timestamp: u32, nonce: u32) returns (accepted: bool)
      requires Valid()
      modifies this
      ensures Valid()
      ensures Outcome(accepted, order)
              == DecideGo(window, maxEntries, old(order), Command(now, nowValid, timestamp, nonce))
    {
      if window == 0 {
        return true;
      }
      if !nowValid {
        return false;
      }
      if timestamp == 0 {
        return false;
      }
      var skew: u32;
      if now >= timestamp {
        skew := now - timestamp;
      } else {
        skew := timestamp - now;
      }
      if skew > window {
        return false;
      }
      Prune(now);
      if nonce in seen {
        return false;
      }
      MirrorsPush(seen, order, Entry(nonce, timestamp));
      seen := seen + {nonce};
      order := order + [Entry(nonce, timestamp)];
      if |order| > maxEntries {
        MirrorsPop(seen, order);
        seen := seen - {order[0].nonce};
        order := order[1..];
      }
      return true;
    }
  }

  // ---------------------------------------------------------------- where the Go guard agrees

  predicate WordRun(run: seq<Command<int>>)
  {
    forall k :: 0 <= k < |run| ==> WordCommand(run[k])
  }

  function AfterGo(window: u32, maxEntries: int, run: seq<Command<int>>): seq<Entry<int>>
    requires WordRun(run)
  {
    if run == [] then []
    else DecideGo(window, maxEntries, AfterGo(window, maxEntries, run[..|run| - 1]), run[|run| - 1]).entries
  }

  predicate AcceptedGo(window: u32, maxEntries: int, run: seq<Command<int>>, i: nat)
    requires i < |run| && WordRun(run)
  {
    DecideGo(window, maxEntries, AfterGo(window, maxEntries, run[..i]), run[i]).accepted
  }

  // The clock readings at which the wrapped cutoff still separates the same timestamps, 0 aside.
  predicate CutoffSound(now: u32, window: u32)
  {
    now >= window || window - now == 0xffff_ffff
  }

  predicate Stamped(es: seq<Entry<int>>)
  {
    forall i :: 0 <= i < |es| ==> 0 < es[i].ts < 0x1_0000_0000
  }

  lemma {:induction false} SoundPrune(now: u32, window: u32, es: seq<Entry<int>>)
    requires CutoffSound(now, window) && Stamped(es)
    ensures PruneBelow(Cutoff(now, window), es) == ReplaySpec.Prune(now, window, es)
  {
    if es != [] {
      SoundPrune(now, window, es[1..]);
    }
  }

  lemma DecideKeepsStamped(window: int, capacity: int, es: seq<Entry<int>>, c: Command<int>)
    requires Stamped(es) && WordCommand(c)
    ensures Stamped(Decide(window, capacity, es, c).entries)
  {
    var d := PruneIsSuffix(c.now, window, es);
  }

  lemma {:induction false} SoundRun(window: u32, maxEntries: int, run: seq<Command<int>>)
    requires WordRun(run) && forall k :: 0 <= k < |run| ==> CutoffSound(run[k].now, window)
    ensures AfterGo(window, maxEntries, run) == After(window, maxEntries, run)
    ensures Stamped(After(window, maxEntries, run))
  {
    if run != [] {
      var n := |run| - 1;
      SoundRun(window, maxEntries, run[..n]);
      var es := After(window, maxEntries, run[..n]);
      DecideKeepsStamped(window, maxEntries, es, run[n]);
      if window != 0 && Fresh(window, run[n]) {
        SoundPrune(run[n].now, window, es);
      }
    }
  }

  // With sound readings the decisions are the same, too, wherever the clock goes.
  lemma SoundDecisions(window: u32, maxEntries: int, run: seq<Command<int>>, i: nat)
    requires i < |run| && WordRun(run) && forall k :: 0 <= k <= i ==> CutoffSound(run[k].now, window)
    ensures AcceptedGo(window, maxEntries, run, i) == Accepted(window, maxEntries, run, i)
  {
    SoundRun(window, maxEntries, run[..i]);
    SoundPrune(run[i].now, window, After(window, maxEntries, run[..i]));
  }

  // ---------------------------------------------------------------- capacities, over words

  // Nonces are words, so more than 2^32 entries are never needed.
  function Effective(capacity: int): nat
  {
    if Room(capacity) < TWO32 then Room(capacity) else TWO32
  }

  ghost predicate Below(es: seq<Entry<int>>, n: nat)
  {
    forall i :: 0 <= i < |es| ==> 0 <= es[i].nonce < n
  }

  lemma {:induction false} DistinctFits(es: seq<Entry<int>>, n: nat)
    requires Distinct(es) && Below(es, n)
    ensures |es| <= n
    decreases n
  {
    if n > 0 {
      if i :| 0 <= i < |es| && es[i].nonce == n - 1 {
        DistinctFits(es[..i] + es[i + 1..], n - 1);
      } else {
        DistinctFits(es, n - 1);
      }
    } else {
      BelowNothing(es);
    }
  }

  lemma BelowNothing(es: seq<Entry<int>>)
    ensures Below(es, 0) ==> es == []
  {
    if es != [] {
      assert !(0 <= es[0].nonce < 0);
    }
  }

  lemma KeptFits(window: int, now: int, es: seq<Entry<int>>, nonce: int)
    requires Distinct(es) && Below(es, TWO32) && IsWord(nonce)
    requires !Remembers(ReplaySpec.Prune(now, window, es), nonce)
    ensures |ReplaySpec.Prune(now, window, es)| + 1 <= TWO32
  {
    var d := PruneIsSuffix(now, window, es);
    DistinctFits(es[d..] + [Entry(nonce, 0)], TWO32);
  }

  // A decision on words is that of the effective capacity.
  lemma EffectiveDecides(window: int, capacity: int, es: seq<Entry<int>>, c: Command<int>)
    requires Distinct(es) && Below(es, TWO32) && IsWord(c.nonce) && |es| <= Room(capacity)
    ensures Decide(window, Effective(capacity), es, c) == Decide(window, capacity, es, c)
  {
    RoomDecides(window, capacity, es, c);
    if Room(capacity) >= TWO32 && !Remembers(ReplaySpec.Prune(c.now, window, es), c.nonce) {
      KeptFits(window, c.now, es, c.nonce);
    }
  }

  lemma DecideKeepsBelow(window: int, capacity: int, es: seq<Entry<int>>, c: Command<int>)
    requires Below(es, TWO32) && IsWord(c.nonce)
    ensures Below(Decide(window, capacity, es, c).entries, TWO32)
  {
    var d := PruneIsSuffix(c.now, window, es);
  }

  lemma {:induction false} EffectiveRun(window: int, capacity: int, run: seq<Command<int>>)
    requires WordRun(run)
    ensures After(window, Effective(capacity), run) == After(window, capacity, run)
    ensures var es := After(window, capacity, run); Distinct(es) && Below(es, TWO32) && |es| <= Room(capacity)
  {
    hide Decide, Distinct, Below;
    if run == [] {
      NothingHeld();
    } else {
      var n := |run| - 1;
      EffectiveRun(window, capacity, run[..n]);
      var es := After(window, capacity, run[..n]);
      EffectiveDecides(window, capacity, es, run[n]);
      DecideKeepsBelow(window, capacity, es, run[n]);
      RoomRun(window, capacity, run);
      AfterFits(window, Room(capacity), run);
      RoomRun(window, capacity, run);
    }
  }

  lemma NothingHeld()
    ensures Distinct<int>([]) && Below([], TWO32)
  {
  }

  lemma EffectiveDecisions(window: int, c: int, d: int, run: seq<Command<int>>, i: nat)
    requires i < |run| && WordRun(run) && Effective(c) == Effective(d)
    ensures Accepted(window, c, run, i) == Accepted(window, d, run, i)
  {
    hide Decide, Effective, Distinct, Below;
    EffectiveRun(window, c, run[..i]);
    EffectiveRun(window, d, run[..i]);
    EffectiveDecides(window, c, After(window, c, run[..i]), run[i]);
    EffectiveDecides(window, d, After(window, d, run[..i]), run[i]);
  }

  // ---------------------------------------------------------------- when the guards agree

  // A guard of this capacity and the Go guard take the same decisions on every run whose clock readings
  // come from the set.
  ghost predicate AgreeOn(window: u32, capacity: int, maxEntries: int, readings: iset<int>)
  {
    forall run: seq<Command<int>>, i: nat ::
      i < |run| && WordRun(run) && (forall k :: 0 <= k < |run| ==> run[k].now in readings)
      ==> AcceptedGo(window, maxEntries, run, i) == Accepted(window, capacity, run, i)
  }

  // Below the window, a message stamped 1 is forgotten at once by the Go guard and accepted again, whatever
  // the capacities.
  lemma ForgottenReplay(window: u32, capacity: int, maxEntries: int, now: u32)
    requires 1 <= capacity && !CutoffSound(now, window)
    ensures var c := Command(now, true, 1, 7);
      Accepted(window, capacity, [c, c], 1) == false && AcceptedGo(window, maxEntries, [c, c], 1) == true
  {
    var c := Command(now, true, 1, 7);
    var run := [c, c];
    assert run[..1] == [c] && [c][..0] == [];
    var es := [Entry(7, 1)];
    assert After(window, capacity, [c]) == es;
    assert AfterGo(window, maxEntries, [c]) == if maxEntries < 1 then [] else es;
    assert ReplaySpec.Prune(now, window, es) == es;
    assert es[0].nonce == 7;
    assert PruneBelow(Cutoff(now, window), es) == [];
  }

  function StampAt(now: u32): u32 { if now == 0 then 1 else now }

  // At a sound reading the smaller of two capacities lets through a replay that the greater one rejects.
  lemma CapacityShowsAt(window: u32, capacity: int, maxEntries: int, now: u32)
    requires 0 < window && CutoffSound(now, window) && Effective(capacity) != Effective(maxEntries)
    ensures var n := 1 + if Room(capacity) < Room(maxEntries) then Room(capacity) else Room(maxEntries);
      var run := FloodAndReplay(now, StampAt(now), n);
      && WordRun(run) && (forall i :: 0 <= i < n ==> Accepted(window, capacity, run, i) && AcceptedGo(window, maxEntries, run, i))
      && Accepted(window, capacity, run, n) == (Room(capacity) < Room(maxEntries))
      && AcceptedGo(window, maxEntries, run, n) == (Room(maxEntries) < Room(capacity))
  {
    hide Accepted, AcceptedGo;
    var less, more := capacity, maxEntries;
    if Room(maxEntries) < Room(capacity) {
      less, more := maxEntries, capacity;
    }
    var n := Room(less) + 1;
    var run := FloodAndReplay(now, StampAt(now), n);
    CapacityShows(window, less, more, now, StampAt(now));
    SoundDecisions(window, maxEntries, run, n);
    forall i | 0 <= i < n
      ensures Accepted(window, capacity, run, i) && AcceptedGo(window, maxEntries, run, i)
    {
      RoomAccepted(window, capacity, now, StampAt(now), n, i);
      RoomAccepted(window, maxEntries, now, StampAt(now), n, i);
      SoundDecisions(window, maxEntries, run, i);
    }
  }

  lemma RoomAccepted(window: int, capacity: int, now: int, ts: int, n: nat, i: nat)
    requires InWindow(window, now, ts) && i < n && n <= Room(capacity) + 1
    ensures Accepted(window, capacity, FloodAndReplay(now, ts, n), i)
  {
    hide Decide;
    var run := FloodAndReplay(now, ts, n);
    FloodAccepted(window, Room(capacity), now, ts, n, i);
    RoomRun(window, capacity, run[..i]);
    RoomDecides(window, capacity, After(window, capacity, run[..i]), run[i]);
  }

  // The readings and capacities at which nothing can be told.
  ghost predicate Indistinct(window: u32, capacity: int, maxEntries: int, readings: iset<int>)
  {
    || window == 0 || readings == iset{}
    || (Effective(capacity) == Effective(maxEntries) && forall now :: now in readings ==> CutoffSound(now, window))
  }

  // Exactly when the Go guard decides like another guard: on all runs with readings from a set, if and only
  // if they hold equally many entries and every reading in the set is sound (or nothing is checked or read).
  lemma GoAgreesIff(window: u32, capacity: int, maxEntries: int, readings: iset<int>)
    requires 1 <= capacity && forall now :: now in readings ==> IsWord(now)
    ensures AgreeOn(window, capacity, maxEntries, readings) <==> Indistinct(window, capacity, maxEntries, readings)
  {
    hide Accepted, AcceptedGo, Effective;
    if Indistinct(window, capacity, maxEntries, readings) {
      forall run: seq<Command<int>>, i: nat |
        i < |run| && WordRun(run) && forall k :: 0 <= k < |run| ==> run[k].now in readings
        ensures AcceptedGo(window, maxEntries, run, i) == Accepted(window, capacity, run, i)
      {
        IndistinctDecisions(window, capacity, maxEntries, readings, run, i);
      }
    } else {
      var run, i := TellApart(window, capacity, maxEntries, readings);
    }
  }

  lemma IndistinctDecisions(window: u32, capacity: int, maxEntries: int, readings: iset<int>, run: seq<Command<int>>, i: nat)
    requires Indistinct(window, capacity, maxEntries, readings)
    requires i < |run| && WordRun(run) && forall k :: 0 <= k < |run| ==> run[k].now in readings
    ensures AcceptedGo(window, maxEntries, run, i) == Accepted(window, capacity, run, i)
  {
    hide Accepted, AcceptedGo, Effective;
    assert run[i].now in readings;
    if window == 0 {
      OpenGuards(capacity, maxEntries, run, i);
    } else {
      SoundDecisions(window, maxEntries, run, i);
      EffectiveDecisions(window, capacity, maxEntries, run, i);
    }
  }

  lemma OpenGuards(capacity: int, maxEntries: int, run: seq<Command<int>>, i: nat)
    requires i < |run| && WordRun(run)
    ensures Accepted(0, capacity, run, i) && AcceptedGo(0, maxEntries, run, i)
  {
  }

  lemma HasReading(readings: iset<int>)
    ensures readings == iset{} || exists now :: now in readings
  {
    if forall now :: now !in readings {
      assert readings == iset{};
    }
  }

  lemma TellApart(window: u32, capacity: int, maxEntries: int, readings: iset<int>) returns (run: seq<Command<int>>, i: nat)
    requires 1 <= capacity && forall now :: now in readings ==> IsWord(now)
    requires !Indistinct(window, capacity, maxEntries, readings)
    ensures i < |run| && WordRun(run) && forall k :: 0 <= k < |run| ==> run[k].now in readings
    ensures AcceptedGo(window, maxEntries, run, i) != Accepted(window, capacity, run, i)
  {
    hide Accepted, AcceptedGo, Effective;
    if now :| now in readings && !CutoffSound(now, window) {
      ForgottenReplay(window, capacity, maxEntries, now);
      var c := Command(now, true, 1, 7);
      run, i := [c, c], 1;
    } else {
      HasReading(readings);
      var now :| now in readings;
      CapacityShowsAt(window, capacity, maxEntries, now);
      i := 1 + if Room(capacity) < Room(maxEntries) then Room(capacity) else Room(maxEntries);
      run := FloodAndReplay(now, StampAt(now), i);
    }
  }

  // As they are configured and with a window set, there is no reading at which the bridge decides like the
  // component on all runs; it does decide like the asyncio client where readings are sound.
  lemma AsConfigured(window: u32, readings: iset<int>)
    requires forall now :: now in readings ==> IsWord(now)
    ensures AgreeOn(window, COMPONENT_ENTRIES, BRIDGE_ENTRIES, readings) <==> window == 0 || readings == iset{}
    ensures AgreeOn(window, CLIENT_ENTRIES, BRIDGE_ENTRIES, readings)
            <==> forall now :: now in readings ==> CutoffSound(now, window)
  {
    hide AgreeOn;
    GoAgreesIff(window, COMPONENT_ENTRIES, BRIDGE_ENTRIES, readings);
    GoAgreesIff(window, CLIENT_ENTRIES, BRIDGE_ENTRIES, readings);
  }

  // The input: 65 messages, which all accept, and the first of them again, which only the component accepts.
  lemma SixtyFiveAndReplay(window: u32, now: u32)
    requires 0 < window && CutoffSound(now, window)
    ensures var run := FloodAndReplay(now, StampAt(now), 65);
      && (forall i :: 0 <= i < 65 ==> Accepted(window, COMPONENT_ENTRIES, run, i) && AcceptedGo(window, BRIDGE_ENTRIES, run, i))
      && Accepted(window, COMPONENT_ENTRIES, run, 65)
      && !Accepted(window, CLIENT_ENTRIES, run, 65) && !AcceptedGo(window, BRIDGE_ENTRIES, run, 65)
  {
    hide Accepted, AcceptedGo;
    CapacityShowsAt(window, COMPONENT_ENTRIES, BRIDGE_ENTRIES, now);
    CapacityShows(window, COMPONENT_ENTRIES, CLIENT_ENTRIES, now, StampAt(now));
  }
}
