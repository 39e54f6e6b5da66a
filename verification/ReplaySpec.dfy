/**
The replay guard as a decision procedure over a list of remembered entries, oldest insertion first, and
what it guarantees over a whole run.

Nothing here assumes that insertion order is timestamp order: a sender whose clock is off inserts out of
order, and the guarantee holds regardless.
*/
module ReplaySpec {

  // The capacities that the C++ component, the asyncio client and the Go bridge give their guards.
  const COMPONENT_ENTRIES: nat := 64
  const CLIENT_ENTRIES: nat := 4096
  const BRIDGE_ENTRIES: nat := 4096

  // N is the type of nonces, which are only compared.
  datatype Entry<N> = Entry(nonce: N, ts: int)
  datatype Command<N> = Command(now: int, nowValid: bool, ts: int, nonce: N)
  datatype Outcome<N> = Outcome(accepted: bool, entries: seq<Entry<N>>)

  // Entries that have left the window are dropped, but only from the front.
  function Prune<N(==)>(now: int, window: int, es: seq<Entry<N>>): seq<Entry<N>>
  {
    if es != [] && now - es[0].ts > window then Prune(now, window, es[1..]) else es
  }

  predicate Fresh<N(==)>(window: int, c: Command<N>)
  {
    c.nowValid && c.ts != 0 && c.ts - window <= c.now <= c.ts + window
  }

  predicate Remembers<N(==)>(es: seq<Entry<N>>, nonce: N)
  {
    exists i :: 0 <= i < |es| && es[i].nonce == nonce
  }

  function Push<N(==)>(capacity: int, es: seq<Entry<N>>, e: Entry<N>): seq<Entry<N>>
  {
    if |es| + 1 > capacity then (es + [e])[1..] else es + [e]
  }

  // A window of zero disables the guard. Everything unverifiable is rejected.
  function Decide<N(==)>(window: int, capacity: int, es: seq<Entry<N>>, c: Command<N>): Outcome<N>
  {
    if window == 0 then Outcome(true, es)
    else if !Fresh(window, c) then Outcome(false, es)
    else
      var kept := Prune(c.now, window, es);
      if Remembers(kept, c.nonce) then Outcome(false, kept)
      else Outcome(true, Push(capacity, kept, Entry(c.nonce, c.ts)))
  }

  // ---------------------------------------------------------------- runs

  // The entries after a run from an empty guard.
  function After<N(==)>(window: int, capacity: int, run: seq<Command<N>>): seq<Entry<N>>
  {
    if run == [] then []
    else Decide(window, capacity, After(window, capacity, run[..|run| - 1]), run[|run| - 1]).entries
  }

  predicate Accepted<N(==)>(window: int, capacity: int, run: seq<Command<N>>, i: nat)
    requires i < |run|
  {
    Decide(window, capacity, After(window, capacity, run[..i]), run[i]).accepted
  }

  // How many of the commands lo .. hi - 1 were accepted.
  function Accepts<N(==)>(window: int, capacity: int, run: seq<Command<N>>, lo: nat, hi: nat): nat
    requires lo <= hi <= |run|
  {
    if lo == hi then 0
    else Accepts(window, capacity, run, lo, hi - 1) + if Accepted(window, capacity, run, hi - 1) then 1 else 0
  }

  ghost predicate ClockAdvances<N>(run: seq<Command<N>>)
  {
    forall i, j :: 0 <= i <= j < |run| && run[i].nowValid && run[j].nowValid ==> run[i].now <= run[j].now
  }

  // ---------------------------------------------------------------- safety

  lemma {:induction false} PruneIsSuffix<N>(now: int, window: int, es: seq<Entry<N>>) returns (d: nat)
    ensures d <= |es| && Prune(now, window, es) == es[d..]
    ensures forall k :: 0 <= k < d ==> now - es[k].ts > window
    ensures d < |es| ==> now - es[d].ts <= window
  {
    if es != [] && now - es[0].ts > window {
      d := PruneIsSuffix(now, window, es[1..]);
      d := d + 1;
    } else {
      d := 0;
    }
  }

  // The entry is in the cache with exactly `behind` entries inserted after it.
  ghost predicate Held<N>(es: seq<Entry<N>>, e: Entry<N>, behind: nat)
  {
    behind < |es| && es[|es| - 1 - behind] == e
  }

  // Some clock reading has already left the message behind.
  ghost predicate Expired<N>(window: int, run: seq<Command<N>>, ts: int, m: nat)
    requires m <= |run|
  {
    exists k :: 0 <= k < m && run[k].nowValid && run[k].now - ts > window
  }

  // One decision moves a held entry one place back, keeps it, or loses it for one of two reasons.
  lemma HeldStep<N>(window: int, capacity: int, es: seq<Entry<N>>, c: Command<N>, e: Entry<N>, behind: nat)
    requires 0 < window && Held(es, e, behind)
    requires !(c.nowValid && c.now - e.ts > window)
    ensures var o := Decide(window, capacity, es, c);
      if !o.accepted then Held(o.entries, e, behind) else behind + 1 >= capacity || Held(o.entries, e, behind + 1)
  {
    if Fresh(window, c) {
      var d := PruneIsSuffix(c.now, window, es);
      assert d <= |es| - 1 - behind;
      assert Held(es[d..], e, behind);
    }
  }

  lemma HeldRejects<N>(window: int, capacity: int, es: seq<Entry<N>>, c: Command<N>, behind: nat)
    requires 0 < window && Held(es, Entry(c.nonce, c.ts), behind)
    ensures !Decide(window, capacity, es, c).accepted
  {
    if Fresh(window, c) {
      var d := PruneIsSuffix(c.now, window, es);
      var p := |es| - 1 - behind;
      assert d <= p;
      assert es[d..][p - d].nonce == c.nonce;
    }
  }

  // An entry goes one of three ways, and stays there: held, out of the window for good, or pushed out by
  // at least `capacity` later accepts.
  lemma {:induction false} Fate<N>(window: int, capacity: int, run: seq<Command<N>>, i: nat, m: nat)
    requires 0 < window && 1 <= capacity && i < m <= |run|
    requires Accepted(window, capacity, run, i)
    ensures var e := Entry(run[i].nonce, run[i].ts);
      var since := Accepts(window, capacity, run, i + 1, m);
      || since >= capacity
      || Expired(window, run, e.ts, m)
      || Held(After(window, capacity, run[..m]), e, since)
    decreases m
  {
    hide Decide;
    assert run[..m][..m - 1] == run[..m - 1];
    var e := Entry(run[i].nonce, run[i].ts);
    if m == i + 1 {
      AcceptedIsHeld(window, capacity, After(window, capacity, run[..i]), run[i]);
    } else {
      Fate(window, capacity, run, i, m - 1);
      var since := Accepts(window, capacity, run, i + 1, m - 1);
      if Expired(window, run, e.ts, m - 1) || (run[m - 1].nowValid && run[m - 1].now - e.ts > window) {
        assert Expired(window, run, e.ts, m);
      } else if since < capacity {
        HeldStep(window, capacity, After(window, capacity, run[..m - 1]), run[m - 1], e, since);
      }
    }
  }

  lemma AcceptedIsHeld<N>(window: int, capacity: int, es: seq<Entry<N>>, c: Command<N>)
    requires 0 < window && 1 <= capacity
    requires Decide(window, capacity, es, c).accepted
    ensures Held(Decide(window, capacity, es, c).entries, Entry(c.nonce, c.ts), 0)
  {
  }

  // The same message is accepted twice only if at least `capacity` other messages were accepted strictly
  // in between.
  lemma ReplayNeedsCapacityAccepts<N>(window: int, capacity: int, run: seq<Command<N>>, i: nat, j: nat)
    requires 0 < window && 1 <= capacity && i < j < |run|
    requires ClockAdvances(run)
    requires run[i].ts == run[j].ts && run[i].nonce == run[j].nonce
    requires Accepted(window, capacity, run, i) && Accepted(window, capacity, run, j)
    ensures Accepts(window, capacity, run, i + 1, j) >= capacity
  {
    Fate(window, capacity, run, i, j);
    var since := Accepts(window, capacity, run, i + 1, j);
    var es := After(window, capacity, run[..j]);
    if Held(es, Entry(run[i].nonce, run[i].ts), since) {
      HeldRejects(window, capacity, es, run[j], since);
    }
    assert Fresh(window, run[j]);
  }

  // ---------------------------------------------------------------- what is accepted at all

  // The guard fails closed: without a valid clock, without a timestamp, or with one more than the window
  // away on either side, nothing is accepted.
  lemma OnlyFreshAccepted<N>(window: int, capacity: int, run: seq<Command<N>>, i: nat)
    requires window != 0 && i < |run| && Accepted(window, capacity, run, i)
    ensures run[i].nowValid && run[i].ts != 0
    ensures -window <= run[i].now - run[i].ts <= window
  {
  }

  lemma {:induction false} RememberedWasAccepted<N>(window: int, capacity: int, run: seq<Command<N>>, m: nat, nonce: N)
    returns (j: nat)
    requires window != 0 && m <= |run| && Remembers(After(window, capacity, run[..m]), nonce)
    ensures j < m && Accepted(window, capacity, run, j) && run[j].nonce == nonce
    decreases m
  {
    hide Decide, Remembers;
    NothingRemembered(nonce);
    AfterOneMore(window, capacity, run, m - 1);
    var es := After(window, capacity, run[..m - 1]);
    if Remembers(es, nonce) {
      j := RememberedWasAccepted(window, capacity, run, m - 1, nonce);
    } else {
      NewlyRemembered(window, capacity, es, run[m - 1], nonce);
      j := m - 1;
    }
  }

  lemma NothingRemembered<N>(nonce: N)
    ensures !Remembers([], nonce)
  {
  }

  lemma NewlyRemembered<N>(window: int, capacity: int, es: seq<Entry<N>>, c: Command<N>, nonce: N)
    requires window != 0 && !Remembers(es, nonce) && Remembers(Decide(window, capacity, es, c).entries, nonce)
    ensures Decide(window, capacity, es, c).accepted && c.nonce == nonce
  {
    var d := PruneIsSuffix(c.now, window, es);
    assert forall k :: d <= k < |es| ==> es[k].nonce != nonce;
  }

  // And nothing else is rejected but what has been accepted before.
  lemma NewIsAccepted<N>(window: int, capacity: int, run: seq<Command<N>>, i: nat)
    requires 0 < window && i < |run| && run[i].nowValid && run[i].ts != 0 && -window <= run[i].now - run[i].ts <= window
    requires forall j :: 0 <= j < i && run[j].nonce == run[i].nonce ==> !Accepted(window, capacity, run, j)
    ensures Accepted(window, capacity, run, i)
  {
    hide Remembers;
    var es := After(window, capacity, run[..i]);
    if Remembers(es, run[i].nonce) {
      var j := RememberedWasAccepted(window, capacity, run, i, run[i].nonce);
    }
    UnseenIsAccepted(window, capacity, es, run[i]);
  }

  lemma UnseenIsAccepted<N>(window: int, capacity: int, es: seq<Entry<N>>, c: Command<N>)
    requires 0 < window && Fresh(window, c)
    ensures !Remembers(es, c.nonce) ==> Decide(window, capacity, es, c).accepted
  {
    var d := PruneIsSuffix(c.now, window, es);
    if !Remembers(es, c.nonce) {
      assert forall k :: d <= k < |es| ==> es[k].nonce != c.nonce;
    }
  }

  // ---------------------------------------------------------------- the bound is tight

  // Distinct messages of one timestamp, all at one instant.
  function Flood(now: int, ts: int, n: nat): seq<Command<int>>
  {
    seq(n, i requires 0 <= i < n => Command(now, true, ts, i))
  }

  function FloodEntries(ts: int, lo: nat, hi: nat): seq<Entry<int>>
    requires lo <= hi
  {
    seq(hi - lo, i requires 0 <= i < hi - lo => Entry(lo + i, ts))
  }

  // ... and then the first of them again.
  function FloodAndReplay(now: int, ts: int, n: nat): (run: seq<Command<int>>)
    ensures |run| == n + 1
  {
    Flood(now, ts, n) + [Command(now, true, ts, 0)]
  }

  predicate InWindow(window: int, now: int, ts: int)
  {
    0 < window && ts != 0 && ts - window <= now <= ts + window
  }

  lemma FloodStep(window: int, capacity: int, now: int, ts: int, lo: nat, hi: nat, nonce: nat)
    requires InWindow(window, now, ts) && lo <= hi && !(lo <= nonce < hi)
    ensures Decide(window, capacity, FloodEntries(ts, lo, hi), Command(now, true, ts, nonce))
            == Outcome(true, Push(capacity, FloodEntries(ts, lo, hi), Entry(nonce, ts)))
  {
    hide Push;
    var es := FloodEntries(ts, lo, hi);
    assert Prune(now, window, es) == es;
    assert !Remembers(es, nonce);
  }

  lemma {:induction false} FloodFills(window: int, capacity: int, now: int, ts: int, n: nat)
    requires InWindow(window, now, ts) && n <= capacity
    ensures After(window, capacity, Flood(now, ts, n)) == FloodEntries(ts, 0, n)
  {
    hide Decide;
    if n > 0 {
      FloodFills(window, capacity, now, ts, n - 1);
      assert Flood(now, ts, n)[..n - 1] == Flood(now, ts, n - 1);
      FloodStep(window, capacity, now, ts, 0, n - 1, n - 1);
      assert FloodEntries(ts, 0, n - 1) + [Entry(n - 1, ts)] == FloodEntries(ts, 0, n);
    }
  }

  // A message more than fits pushes out the first.
  lemma FloodOverflows(window: int, capacity: nat, now: int, ts: int)
    requires InWindow(window, now, ts)
    ensures After(window, capacity, Flood(now, ts, capacity + 1)) == FloodEntries(ts, 1, capacity + 1)
  {
    hide Decide;
    assert Flood(now, ts, capacity + 1)[..capacity] == Flood(now, ts, capacity);
    FloodFills(window, capacity, now, ts, capacity);
    FloodStep(window, capacity, now, ts, 0, capacity, capacity);
    assert Push(capacity, FloodEntries(ts, 0, capacity), Entry(capacity, ts)) == FloodEntries(ts, 1, capacity + 1);
  }

  lemma FloodAccepted(window: int, capacity: int, now: int, ts: int, n: nat, i: nat)
    requires InWindow(window, now, ts) && i < n && i <= capacity
    ensures Accepted(window, capacity, FloodAndReplay(now, ts, n), i)
  {
    hide Decide;
    assert FloodAndReplay(now, ts, n)[..i] == Flood(now, ts, i);
    FloodFills(window, capacity, now, ts, i);
    FloodStep(window, capacity, now, ts, 0, i, i);
  }

  // Exactly `capacity` accepts in between are enough to get a replay through, and fewer never are.
  lemma FloodReplayIff(window: int, capacity: nat, now: int, ts: int, n: nat)
    requires InWindow(window, now, ts) && 1 <= n <= capacity + 1
    ensures Accepted(window, capacity, FloodAndReplay(now, ts, n), n) <==> n == capacity + 1
  {
    hide Decide;
    assert FloodAndReplay(now, ts, n)[..n] == Flood(now, ts, n);
    if n == capacity + 1 {
      FloodOverflows(window, capacity, now, ts);
      FloodStep(window, capacity, now, ts, 1, capacity + 1, 0);
    } else {
      FloodFills(window, capacity, now, ts, n);
      assert Held(FloodEntries(ts, 0, n), Entry(0, ts), n - 1);
      HeldRejects(window, capacity, FloodEntries(ts, 0, n), Command(now, true, ts, 0), n - 1);
    }
  }

  lemma ReplayAfterCapacityAccepts(window: int, capacity: nat, now: int, ts: int)
    requires InWindow(window, now, ts) && 1 <= capacity
    ensures var run := FloodAndReplay(now, ts, capacity + 1);
      && ClockAdvances(run) && run[0] == run[capacity + 1]
      && Accepted(window, capacity, run, 0) && Accepted(window, capacity, run, capacity + 1)
      && Accepts(window, capacity, run, 1, capacity + 1) == capacity
  {
    hide Decide;
    var run := FloodAndReplay(now, ts, capacity + 1);
    forall i | 0 <= i <= capacity
      ensures Accepted(window, capacity, run, i)
    {
      FloodAccepted(window, capacity, now, ts, capacity + 1, i);
    }
    AllAccepted(window, capacity, run, 1, capacity + 1);
    FloodReplayIff(window, capacity, now, ts, capacity + 1);
  }

  lemma {:induction false} AllAccepted<N>(window: int, capacity: int, run: seq<Command<N>>, lo: nat, hi: nat)
    requires lo <= hi <= |run|
    requires forall i :: lo <= i < hi ==> Accepted(window, capacity, run, i)
    ensures Accepts(window, capacity, run, lo, hi) == hi - lo
    decreases hi
  {
    if lo < hi {
      AllAccepted(window, capacity, run, lo, hi - 1);
    }
  }

  // ---------------------------------------------------------------- exactly when a replay gets through

  // Nothing accepted since has this nonce.
  ghost predicate LastAccept<N>(window: int, capacity: int, run: seq<Command<N>>, i: nat, j: nat)
    requires i < j <= |run|
  {
    Accepted(window, capacity, run, i)
    && forall k :: i < k < j && run[k].nonce == run[i].nonce ==> !Accepted(window, capacity, run, k)
  }

  lemma StaysForgotten<N>(window: int, capacity: int, es: seq<Entry<N>>, c: Command<N>, nonce: N)
    requires window != 0 && !Remembers(es, nonce)
    requires c.nonce == nonce ==> !Decide(window, capacity, es, c).accepted
    ensures !Remembers(Decide(window, capacity, es, c).entries, nonce)
  {
    var d := PruneIsSuffix(c.now, window, es);
    assert forall k :: d <= k < |es| ==> es[k].nonce != nonce;
  }

  // A full cache forgets its oldest entry with the next message.
  lemma ForgetsOldest<N>(window: int, capacity: nat, es: seq<Entry<N>>, c: Command<N>, e: Entry<N>)
    requires 0 < window && 1 <= capacity && Distinct(es) && |es| <= capacity && Held(es, e, capacity - 1)
    requires !(c.nowValid && c.now - e.ts > window)
    requires c.nonce != e.nonce && Decide(window, capacity, es, c).accepted
    ensures !Remembers(Decide(window, capacity, es, c).entries, e.nonce)
  {
    var d := PruneIsSuffix(c.now, window, es);
    assert d == 0 && es[0] == e;
    assert Decide(window, capacity, es, c).entries == es[1..] + [Entry(c.nonce, c.ts)];
  }

  lemma {:induction false} Forgotten<N>(window: int, capacity: nat, run: seq<Command<N>>, i: nat, m: nat)
    requires 0 < window && 1 <= capacity && i < m <= |run|
    requires LastAccept(window, capacity, run, i, m)
    requires !Expired(window, run, run[i].ts, m)
    requires Accepts(window, capacity, run, i + 1, m) >= capacity
    ensures !Remembers(After(window, capacity, run[..m]), run[i].nonce)
    decreases m
  {
    hide Decide, Remembers, Held;
    var es, c := After(window, capacity, run[..m - 1]), run[m - 1];
    AfterOneMore(window, capacity, run, m - 1);
    if Accepts(window, capacity, run, i + 1, m - 1) >= capacity {
      Forgotten(window, capacity, run, i, m - 1);
      StaysForgotten(window, capacity, es, c, run[i].nonce);
    } else {
      Fate(window, capacity, run, i, m - 1);
      AfterFits(window, capacity, run[..m - 1]);
      ForgetsOldest(window, capacity, es, c, Entry(run[i].nonce, run[i].ts));
    }
  }

  // A message that comes again, while its timestamp is in the window, is accepted if and only if at least
  // `capacity` messages were accepted since it last was.
  lemma ReplayAcceptedIff<N>(window: int, capacity: nat, run: seq<Command<N>>, i: nat, j: nat)
    requires 0 < window && 1 <= capacity && i < j < |run|
    requires ClockAdvances(run) && LastAccept(window, capacity, run, i, j)
    requires run[i].ts == run[j].ts && run[i].nonce == run[j].nonce && Fresh(window, run[j])
    ensures Accepted(window, capacity, run, j) <==> Accepts(window, capacity, run, i + 1, j) >= capacity
  {
    hide Remembers;
    if Accepted(window, capacity, run, j) {
      ReplayNeedsCapacityAccepts(window, capacity, run, i, j);
    }
    if Accepts(window, capacity, run, i + 1, j) >= capacity {
      Forgotten(window, capacity, run, i, j);
      UnseenIsAccepted(window, capacity, After(window, capacity, run[..j]), run[j]);
    }
  }

  // ---------------------------------------------------------------- capacity is part of the decision

  // A capacity below one remembers nothing.
  function Room(capacity: int): nat { if capacity < 0 then 0 else capacity }

  lemma RoomDecides<N>(window: int, capacity: int, es: seq<Entry<N>>, c: Command<N>)
    requires |es| <= Room(capacity)
    ensures Decide(window, Room(capacity), es, c) == Decide(window, capacity, es, c)
    ensures |Decide(window, capacity, es, c).entries| <= Room(capacity)
  {
    var d := PruneIsSuffix(c.now, window, es);
  }

  lemma {:induction false} RoomRun<N>(window: int, capacity: int, run: seq<Command<N>>)
    ensures After(window, Room(capacity), run) == After(window, capacity, run)
    ensures |After(window, capacity, run)| <= Room(capacity)
  {
    hide Decide;
    if run != [] {
      var n := |run| - 1;
      RoomRun(window, capacity, run[..n]);
      RoomDecides(window, capacity, After(window, capacity, run[..n]), run[n]);
    }
  }

  // The greater cache still knows the first of the messages that overflow the smaller.
  lemma CapacityShows(window: int, c: int, d: int, now: int, ts: int)
    requires InWindow(window, now, ts) && Room(c) < Room(d)
    ensures var run := FloodAndReplay(now, ts, Room(c) + 1);
      Accepted(window, c, run, Room(c) + 1) && !Accepted(window, d, run, Room(c) + 1)
  {
    hide Decide;
    var n := Room(c) + 1;
    var run := FloodAndReplay(now, ts, n);
    FloodReplayIff(window, Room(c), now, ts, n);
    FloodReplayIff(window, Room(d), now, ts, n);
    RoomRun(window, c, run[..n]);
    RoomDecides(window, c, After(window, c, run[..n]), run[n]);
  }

  ghost predicate SameDecisions(window: int, c: int, d: int)
  {
    forall run: seq<Command<int>>, i: nat :: i < |run| ==> Accepted(window, c, run, i) == Accepted(window, d, run, i)
  }

  // Guards of two capacities decide alike on every run if and only if the capacities are the same (or the
  // guard is off, or refuses everything).
  lemma CapacitiesAgreeIff(window: int, c: int, d: int)
    ensures SameDecisions(window, c, d) <==> window <= 0 || Room(c) == Room(d)
  {
    hide Decide;
    if window <= 0 || Room(c) == Room(d) {
      forall run: seq<Command<int>>, i: nat | i < |run|
        ensures Accepted(window, c, run, i) == Accepted(window, d, run, i)
      {
        if window <= 0 {
          NoWindow(window, c, After(window, c, run[..i]), run[i]);
          NoWindow(window, d, After(window, d, run[..i]), run[i]);
        } else {
          RoomRun(window, c, run[..i]);
          RoomRun(window, d, run[..i]);
          RoomDecides(window, c, After(window, c, run[..i]), run[i]);
          RoomDecides(window, d, After(window, d, run[..i]), run[i]);
        }
      }
    } else {
      CapacityShows(window, if Room(c) < Room(d) then c else d, if Room(c) < Room(d) then d else c, 1, 1);
    }
  }

  lemma NoWindow<N>(window: int, capacity: int, es: seq<Entry<N>>, c: Command<N>)
    requires window <= 0
    ensures Decide(window, capacity, es, c).accepted == (window == 0)
  {
  }

  // ---------------------------------------------------------------- the cache holds each nonce once

  ghost predicate Distinct<N>(es: seq<Entry<N>>)
  {
    forall i, j :: 0 <= i < j < |es| ==> es[i].nonce != es[j].nonce
  }

  lemma DecideKeepsDistinct<N>(window: int, capacity: int, es: seq<Entry<N>>, c: Command<N>)
    requires Distinct(es) && (capacity >= 0 ==> |es| <= capacity)
    ensures Distinct(Decide(window, capacity, es, c).entries)
    ensures capacity >= 0 ==> |Decide(window, capacity, es, c).entries| <= capacity
  {
    var d := PruneIsSuffix(c.now, window, es);
  }

  // ---------------------------------------------------------------- insertion order against timestamp order

  ghost predicate InOrder<N>(es: seq<Entry<N>>)
  {
    forall i, j :: 0 <= i < j < |es| ==> es[i].ts <= es[j].ts
  }

  // A sender whose clock is ahead and then one whose clock is behind: the cache is out of order, and an
  // entry that has left the window stays behind one that has not.
  lemma SkewedSendersDisorder()
    ensures var run := [Command(2, true, 3, 0), Command(2, true, 1, 1)];
      var es := After(1, 64, run);
      && Accepted(1, 64, run, 0) && Accepted(1, 64, run, 1)
      && es == [Entry(0, 3), Entry(1, 1)] && !InOrder(es)
      && Prune(3, 1, es) == es && 3 - es[1].ts > 1
  {
    var c, d := Command(2, true, 3, 0), Command(2, true, 1, 1);
    var run := [c, d];
    assert run[..1] == [c] && [c][..0] == [];
    assert Decide(1, 64, [], c) == Outcome(true, [Entry(0, 3)]);
    assert After(1, 64, run[..1]) == [Entry(0, 3)];
    assert Decide(1, 64, [Entry(0, 3)], d) == Outcome(true, [Entry(0, 3), Entry(1, 1)]);
    var es := [Entry(0, 3), Entry(1, 1)];
    assert es[0].ts > es[1].ts;
  }

  // The accepted command is stamped no earlier than what was last recorded and is still remembered.
  predicate Follows<N(==)>(window: int, es: seq<Entry<N>>, c: Command<N>)
  {
    var kept := Prune(c.now, window, es);
    kept == [] || kept[|kept| - 1].ts <= c.ts
  }

  // Exactly when recording a message keeps the cache in timestamp order.
  lemma StaysInOrderIff<N>(window: int, capacity: nat, es: seq<Entry<N>>, c: Command<N>)
    requires window != 0 && InOrder(es) && |es| <= capacity
    requires Decide(window, capacity, es, c).accepted
    ensures InOrder(Decide(window, capacity, es, c).entries) <==> capacity <= 1 || Follows(window, es, c)
  {
    var d := PruneIsSuffix(c.now, window, es);
    var kept := es[d..];
    var e := Entry(c.nonce, c.ts);
    var r := Decide(window, capacity, es, c).entries;
    assert r == Push(capacity, kept, e);
    if capacity >= 2 && kept != [] {
      assert r[|r| - 1] == e && r[|r| - 2] == kept[|kept| - 1];
    }
  }

  // A cache of one entry is always in order.
  ghost predicate AllFollow<N>(window: int, capacity: nat, run: seq<Command<N>>)
  {
    forall i :: 0 <= i < |run| && Accepted(window, capacity, run, i) ==>
      capacity <= 1 || Follows(window, After(window, capacity, run[..i]), run[i])
  }

  // Over a run, the cache is in order throughout if and only if each accepted message follows.
  lemma InOrderThroughoutIff<N>(window: int, capacity: nat, run: seq<Command<N>>)
    requires window != 0
    ensures (forall k :: 0 <= k <= |run| ==> InOrder(After(window, capacity, run[..k])))
            <==> AllFollow(window, capacity, run)
  {
    hide InOrder, Decide, Follows;
    if AllFollow(window, capacity, run) {
      forall k | 0 <= k <= |run|
        ensures InOrder(After(window, capacity, run[..k]))
      {
        FollowingStaysInOrder(window, capacity, run, k);
      }
    }
    if forall k :: 0 <= k <= |run| ==> InOrder(After(window, capacity, run[..k])) {
      forall i | 0 <= i < |run| && Accepted(window, capacity, run, i)
        ensures capacity <= 1 || Follows(window, After(window, capacity, run[..i]), run[i])
      {
        AfterOneMore(window, capacity, run, i);
        AfterFits(window, capacity, run[..i]);
        StaysInOrderIff(window, capacity, After(window, capacity, run[..i]), run[i]);
        assert InOrder(After(window, capacity, run[..i + 1]));
      }
    }
  }

  lemma AfterOneMore<N>(window: int, capacity: int, run: seq<Command<N>>, i: nat)
    requires i < |run|
    ensures After(window, capacity, run[..i + 1]) == Decide(window, capacity, After(window, capacity, run[..i]), run[i]).entries
  {
    hide Decide;
    assert run[..i + 1][..i] == run[..i];
  }

  lemma {:induction false} AfterFits<N>(window: int, capacity: nat, run: seq<Command<N>>)
    ensures Distinct(After(window, capacity, run)) && |After(window, capacity, run)| <= capacity
  {
    hide Decide;
    if run != [] {
      AfterFits(window, capacity, run[..|run| - 1]);
      DecideKeepsDistinct(window, capacity, After(window, capacity, run[..|run| - 1]), run[|run| - 1]);
    }
  }

  lemma {:induction false} FollowingStaysInOrder<N>(window: int, capacity: nat, run: seq<Command<N>>, k: nat)
    requires window != 0 && k <= |run| && AllFollow(window, capacity, run)
    ensures InOrder(After(window, capacity, run[..k]))
    decreases k
  {
    hide Decide, Follows;
    if k > 0 {
      var es, c := After(window, capacity, run[..k - 1]), run[k - 1];
      FollowingStaysInOrder(window, capacity, run, k - 1);
      AfterOneMore(window, capacity, run, k - 1);
      AfterFits(window, capacity, run[..k - 1]);
      if Accepted(window, capacity, run, k - 1) {
        StaysInOrderIff(window, capacity, es, c);
      } else {
        RejectedStaysInOrder(window, capacity, es, c);
      }
    }
  }

  lemma RejectedStaysInOrder<N>(window: int, capacity: int, es: seq<Entry<N>>, c: Command<N>)
    requires InOrder(es) && !Decide(window, capacity, es, c).accepted
    ensures InOrder(Decide(window, capacity, es, c).entries)
  {
    var d := PruneIsSuffix(c.now, window, es);
  }

  // What the order is wanted for: at whatever reading, pruning leaves nothing that has left the window.
  ghost predicate PrunesClean<N>(window: int, es: seq<Entry<N>>)
  {
    forall now, e :: e in Prune(now, window, es) ==> now - e.ts <= window
  }

  lemma PrunesCleanIff<N>(window: int, es: seq<Entry<N>>)
    ensures PrunesClean(window, es) <==> InOrder(es)
  {
    if InOrder(es) {
      forall now, e | e in Prune(now, window, es)
        ensures now - e.ts <= window
      {
        var d := PruneIsSuffix(now, window, es);
        var i :| d <= i < |es| && es[i] == e;
      }
    } else {
      var i, j :| 0 <= i < j < |es| && es[i].ts > es[j].ts;
      StaysBehind(window, es, i, j);
    }
  }

  // An earlier timestamp behind a later one is left when its window has just closed.
  lemma StaysBehind<N>(window: int, es: seq<Entry<N>>, i: nat, j: nat)
    requires i < j < |es| && es[i].ts > es[j].ts
    ensures var now := window + es[i].ts; es[j] in Prune(now, window, es) && now - es[j].ts > window
  {
    var d := PruneIsSuffix(window + es[i].ts, window, es);
    assert d <= i && es[d..][j - d] == es[j];
  }

  // Over a run, pruning leaves nothing expired, at any time and reading, if and only if each accepted
  // message follows.
  lemma PrunesCleanThroughoutIff<N>(window: int, capacity: nat, run: seq<Command<N>>)
    requires window != 0
    ensures (forall k :: 0 <= k <= |run| ==> PrunesClean(window, After(window, capacity, run[..k])))
            <==> AllFollow(window, capacity, run)
  {
    hide PrunesClean, InOrder, After, AllFollow;
    forall k | 0 <= k <= |run|
      ensures PrunesClean(window, After(window, capacity, run[..k])) <==> InOrder(After(window, capacity, run[..k]))
    {
      PrunesCleanIff(window, After(window, capacity, run[..k]));
    }
    InOrderThroughoutIff(window, capacity, run);
  }
}
