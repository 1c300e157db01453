/**
 * Timed sleep. Every bell stores the ticks after its predecessor, so a tick
 * only touches the head. The reference model keeps absolute due times and
 * stable insertion by due time, and knows nothing of deltas.
 */
module Bellringer {
  import opened Options
  import opened Threads

  const TICK_MS: nat := 10

  datatype Bell = Bell(owner: Thread, ticks: nat)

  /** A thread and the tick it is due at. */
  datatype Sleeper = Sleeper(owner: Thread, due: nat)

  /** The due times behind the deltas, when the clock shows `now`. */
  function Absolute(bells: seq<Bell>, now: nat): (sl: seq<Sleeper>)
    ensures |sl| == |bells|
  {
    if bells == [] then [] else
      var due := now + bells[0].ticks;
      [Sleeper(bells[0].owner, due)] + Absolute(bells[1..], due)
  }

  function Upto(sl: seq<Sleeper>, n: nat): (r: seq<Sleeper>) {
    if sl == [] then [] else if sl[0].due <= n then [sl[0]] + Upto(sl[1..], n) else Upto(sl[1..], n)
  }

  function Beyond(sl: seq<Sleeper>, n: nat): (r: seq<Sleeper>) {
    if sl == [] then [] else if sl[0].due > n then [sl[0]] + Beyond(sl[1..], n) else Beyond(sl[1..], n)
  }

  /** Insertion by due time, behind those due at the same time. */
  function Insert(sl: seq<Sleeper>, x: Sleeper): (r: seq<Sleeper>) {
    Upto(sl, x.due) + [x] + Beyond(sl, x.due)
  }

  /** All requests in the order they have to be served. */
  function Order(requests: seq<Sleeper>): (r: seq<Sleeper>) {
    if requests == [] then [] else Insert(Order(requests[..|requests| - 1]), requests[|requests| - 1])
  }

  function Owners(sl: seq<Sleeper>): (r: seq<Thread>)
    ensures |r| == |sl| && forall i :: 0 <= i < |sl| ==> r[i] == sl[i].owner
  {
    if sl == [] then [] else [sl[0].owner] + Owners(sl[1..])
  }

  /** Ticks a sleep of the given length takes: rounded down, but never none. */
  function Ticks(milliseconds: nat): (n: nat)
    ensures milliseconds < TICK_MS ==> n == 1
    ensures milliseconds >= TICK_MS ==> n >= 1 && n * TICK_MS <= milliseconds < (n + 1) * TICK_MS
  {
    if milliseconds < TICK_MS then 1 else milliseconds / TICK_MS
  }

  ghost predicate AllUpto(sl: seq<Sleeper>, n: nat) {
    forall i :: 0 <= i < |sl| ==> sl[i].due <= n
  }

  ghost predicate AllBeyond(sl: seq<Sleeper>, n: nat) {
    forall i :: 0 <= i < |sl| ==> sl[i].due > n
  }

  class Bellringer {
    var bells: seq<Bell>
    ghost var now: nat
    ghost var requests: seq<Sleeper>
    ghost var woken: seq<Sleeper>

    ghost function Sleepers(): (sl: seq<Sleeper>)
      reads this
    {
      Absolute(bells, now)
    }

    /**
     * The threads woken so far, followed by those still asleep, are all the
     * requests ever made in serving order, cut exactly at the current tick.
     */
    ghost predicate Valid()
      reads this
    {
      (bells != [] ==> bells[0].ticks >= 1) &&
      woken + Sleepers() == Order(requests) && AllUpto(woken, now) && AllBeyond(Sleepers(), now)
    }

    constructor ()
      ensures Valid() && requests == [] && woken == []
    {
      bells, now, requests, woken := [], 0, [], [];
    }

    predicate HasPendingBells()
      requires Valid()
      reads this
      ensures HasPendingBells() <==> |woken| < |Order(requests)|
    {
      bells != []
    }

    /** One tick: readies exactly the threads due now, in the order they went to sleep. */
    method Check(scheduler: Scheduler, self: nat) returns (pokes: seq<Option<nat>>)
      requires Valid()
      modifies this, scheduler`ready
      ensures Valid() && now == old(now) + 1 && requests == old(requests)
      ensures woken == old(woken) + Upto(old(Sleepers()), now) && Sleepers() == Beyond(old(Sleepers()), now)
      ensures forall i :: |old(woken)| <= i < |woken| ==> woken[i].due == now
      ensures scheduler.ready == AppendedAll(old(scheduler.ready), Owners(Upto(old(Sleepers()), now)))
      ensures |pokes| == |woken| - |old(woken)|
      ensures forall i :: 0 <= i < |pokes| ==> pokes[i] == IdleOther(old(scheduler.Value()), self, scheduler.cores)
    {
      hide Absolute, Upto, Beyond, Order, Owners, IdleOther;
      Nothing(now);
      Nothing(now + 1);
      ghost var before := Sleepers();
      pokes := [];
      now := now + 1;
      if bells == [] {
        return;
      }
      if bells[0].ticks > 0 {
        bells := bells[0 := bells[0].(ticks := bells[0].ticks - 1)];
      }
      assert Sleepers() == before by { HeadShift(old(bells), bells, old(now), now); }
      ghost var rung;
      pokes, rung := RingDue(scheduler, self);
      HeadLeast(bells, now);
      Cut(rung, Sleepers(), now);
      woken := woken + rung;
    }

    /** Dequeues every bell whose ticks have run out; several can come due at once. */
    method RingDue(scheduler: Scheduler, self: nat) returns (pokes: seq<Option<nat>>, ghost rung: seq<Sleeper>)
      modifies this`bells, scheduler`ready
      ensures old(Sleepers()) == rung + Sleepers() && |pokes| == |rung|
      ensures scheduler.ready == AppendedAll(old(scheduler.ready), Owners(rung))
      ensures forall i :: 0 <= i < |rung| ==> rung[i].due == now
      ensures bells != [] ==> bells[0].ticks > 0
      ensures forall i :: 0 <= i < |pokes| ==> pokes[i] == IdleOther(old(scheduler.Value()), self, scheduler.cores)
    {
      hide Absolute, Owners, IdleOther;
      Nothing(now);
      pokes, rung := [], [];
      while bells != [] && bells[0].ticks == 0
        invariant old(Sleepers()) == rung + Sleepers() && |pokes| == |rung|
        invariant scheduler.ready == AppendedAll(old(scheduler.ready), Owners(rung))
        invariant forall i :: 0 <= i < |rung| ==> rung[i].due == now
        invariant forall i :: 0 <= i < |pokes| ==> pokes[i] == IdleOther(old(scheduler.Value()), self, scheduler.cores)
        decreases |bells|
      {
        Ring(bells, now);
        ghost var x := Sleeper(bells[0].owner, now);
        OwnersAppend(rung, x);
        MoreAppended(old(scheduler.ready), Owners(rung), x.owner);
        var poke := scheduler.Ready(self, bells[0].owner);
        SameIdle(old(scheduler.Value()), scheduler.Value(), self, scheduler.cores);
        pokes := pokes + [poke];
        rung := rung + [x];
        bells := bells[1..];
      }
    }

    /**
     * Puts the running thread to sleep. The walk subtracts deltas until the remainder is
     * smaller than the next one; the successor gives up what the new bell takes. Core 0
     * is poked when it idles and no bell was pending, because its timer is then off.
     */
    method Sleep(scheduler: Scheduler, self: nat, milliseconds: nat) returns (blocked: bool, poke: bool)
      requires Valid() && self in scheduler.active
      modifies this, scheduler`active, scheduler`ready
      ensures Valid() && now == old(now) && woken == old(woken)
      ensures blocked == (milliseconds > 0)
      ensures !blocked ==> requests == old(requests) && bells == old(bells) && scheduler.Value() == old(scheduler.Value()) && !poke
      ensures blocked ==> requests == old(requests) + [Sleeper(old(scheduler.active)[self], now + Ticks(milliseconds))]
      ensures blocked ==> Sleepers() == Insert(old(Sleepers()), Sleeper(old(scheduler.active)[self], now + Ticks(milliseconds)))
      ensures blocked ==> scheduler.Value() == Resumed(old(scheduler.Value()), self, false)
      ensures blocked ==> poke == (old(Sleepers()) == [] && IsIdle(old(scheduler.Value()), 0))
    {
      hide Absolute, Upto, Beyond, Order, Walked, Insert, AllUpto, AllBeyond, Resumed;
      if milliseconds == 0 {
        return false, false;
      }
      var wasEmpty := bells == [];
      var owner := scheduler.active[self];
      var ticks := milliseconds / TICK_MS;
      if ticks == 0 {
        ticks := 1;
      }
      ghost var x := Sleeper(owner, now + ticks);
      var i, rest := Place(ticks);
      ghost var was := Sleepers();
      Hang(owner, i, rest, ticks);
      requests := requests + [x];
      Served(old(requests), x, woken, was, now);
      poke := wasEmpty && 0 in scheduler.active && scheduler.active[0] == Idle(0);
      scheduler.Resume(self, false);
      blocked := true;
    }

    /** Puts the bell where the walk ended. */
    method Hang(owner: Thread, i: nat, rest: nat, ghost ticks: nat)
      requires ticks >= 1 && rest <= ticks && (i == 0 ==> rest == ticks)
      requires Walked(bells, i, now, now + ticks - rest, now + ticks)
      requires i < |bells| ==> bells[i].ticks > rest
      requires AllBeyond(Absolute(bells[i..], now + ticks - rest), now + ticks)
      requires AllBeyond(Sleepers(), now) && (bells != [] ==> bells[0].ticks >= 1)
      modifies this`bells
      ensures Sleepers() == Insert(old(Sleepers()), Sleeper(owner, now + ticks))
      ensures AllBeyond(Sleepers(), now) && bells != [] && bells[0].ticks >= 1
    {
      hide Absolute, Upto, Beyond, Walked, End, Insert;
      ghost var x := Sleeper(owner, now + ticks);
      ghost var base: nat := now + ticks - rest;
      WalkedSplit(bells, i, now, base, now + ticks);
      ghost var front, back := Absolute(bells[..i], now), Absolute(bells[i..], base);
      var tail := bells[i..];
      if tail != [] {
        tail := tail[0 := tail[0].(ticks := tail[0].ticks - rest)];
      }
      Joined(bells[..i], owner, rest, bells[i..], tail, now, base);
      Between(front, back, x);
      Parts(front, back, x, now);
      bells := bells[..i] + [Bell(owner, rest)] + tail;
      assert bells[0] == if i == 0 then Bell(owner, rest) else old(bells)[0];
    }

    /** How far the walk goes: past every bell due no later, and no further. */
    method Place(ticks: nat) returns (i: nat, rest: nat)
      requires Valid() && ticks >= 1
      ensures rest <= ticks && (i == 0 ==> rest == ticks)
      ensures Walked(bells, i, now, now + ticks - rest, now + ticks)
      ensures i < |bells| ==> bells[i].ticks > rest
      ensures AllBeyond(Absolute(bells[i..], now + ticks - rest), now + ticks)
    {
      hide Absolute, Walked;
      i, rest := 0, ticks;
      Set(bells, now, now + ticks);
      while i < |bells| && bells[i].ticks <= rest
        invariant rest <= ticks && (i == 0 ==> rest == ticks)
        invariant Walked(bells, i, now, now + ticks - rest, now + ticks)
      {
        Stride(bells, i, now, now + ticks - rest, now + ticks);
        rest := rest - bells[i].ticks;
        i := i + 1;
      }
      WalkedSplit(bells, i, now, now + ticks - rest, now + ticks);
      HeadLeast(bells[i..], now + ticks - rest);
    }
  }

  /** The first i bells end at t, and none of them is due after the limit. */
  ghost predicate Walked(bells: seq<Bell>, i: nat, now: nat, t: nat, limit: nat) {
    i <= |bells| && End(bells[..i], now) == t && AllUpto(Absolute(bells[..i], now), limit)
  }

  lemma {:induction false} Set(bells: seq<Bell>, now: nat, limit: nat)
    ensures Walked(bells, 0, now, now, limit)
  {
  }

  lemma {:induction false} Stride(bells: seq<Bell>, i: nat, now: nat, t: nat, limit: nat)
    requires Walked(bells, i, now, t, limit) && i < |bells| && t + bells[i].ticks <= limit
    ensures Walked(bells, i + 1, now, t + bells[i].ticks, limit)
  {
    Longer(bells[..i], bells[i], now);
    assert bells[..i + 1] == bells[..i] + [bells[i]];
  }

  lemma {:induction false} WalkedSplit(bells: seq<Bell>, i: nat, now: nat, t: nat, limit: nat)
    requires Walked(bells, i, now, t, limit)
    ensures i <= |bells| && End(bells[..i], now) == t && AllUpto(Absolute(bells[..i], now), limit)
    ensures Absolute(bells, now) == Absolute(bells[..i], now) + Absolute(bells[i..], t)
  {
    AbsoluteSplit(bells[..i], bells[i..], now);
    assert bells[..i] + bells[i..] == bells;
  }

  /** The due time of the last bell. */
  function End(bells: seq<Bell>, now: nat): (t: nat) {
    if bells == [] then now else End(bells[1..], now + bells[0].ticks)
  }

  lemma {:induction false} Longer(bells: seq<Bell>, bell: Bell, now: nat)
    ensures End(bells + [bell], now) == End(bells, now) + bell.ticks
    ensures Absolute(bells + [bell], now) == Absolute(bells, now) + [Sleeper(bell.owner, End(bells, now) + bell.ticks)]
  {
    if bells == [] {
      assert bells + [bell] == [bell];
    } else {
      assert (bells + [bell])[1..] == bells[1..] + [bell];
      Longer(bells[1..], bell, now + bells[0].ticks);
    }
  }

  /** A list in two parts: the second starts where the first ends. */
  lemma {:induction false} AbsoluteSplit(a: seq<Bell>, b: seq<Bell>, now: nat)
    ensures Absolute(a + b, now) == Absolute(a, now) + Absolute(b, End(a, now))
  {
    if a == [] {
      assert a + b == b;
    } else {
      assert (a + b)[1..] == a[1..] + b;
      AbsoluteSplit(a[1..], b, now + a[0].ticks);
    }
  }

  /** Taking ticks from the head is the same as letting that many pass. */
  lemma {:induction false} HeadShift(a: seq<Bell>, b: seq<Bell>, now: nat, later: nat)
    requires a != [] && |a| == |b| && a[1..] == b[1..] && a[0].owner == b[0].owner
    requires now + a[0].ticks == later + b[0].ticks
    ensures Absolute(a, now) == Absolute(b, later)
  {
  }

  /** Nothing is due before the head. */
  lemma {:induction false} HeadLeast(bells: seq<Bell>, now: nat)
    ensures forall i :: 0 <= i < |bells| ==> Absolute(bells, now)[i].due >= now + bells[0].ticks
  {
    if bells != [] {
      HeadLeast(bells[1..], now + bells[0].ticks);
    }
  }

  /** The new bell between the two halves, the second one having given up its ticks. */
  lemma {:induction false} Joined(a: seq<Bell>, owner: Thread, rest: nat, b: seq<Bell>, tail: seq<Bell>, now: nat, base: nat)
    requires End(a, now) == base && |b| == |tail|
    requires b != [] ==> b[0].ticks >= rest && tail == b[0 := b[0].(ticks := b[0].ticks - rest)]
    ensures Absolute(a + [Bell(owner, rest)] + tail, now) ==
      Absolute(a, now) + [Sleeper(owner, base + rest)] + Absolute(b, base)
  {
    Longer(a, Bell(owner, rest), now);
    AbsoluteSplit(a + [Bell(owner, rest)], tail, now);
    if b != [] {
      HeadShift(b, tail, base, base + rest);
    }
  }

  lemma {:induction false} Nothing(now: nat)
    ensures Absolute([], now) == [] && Upto([], now) == [] && Beyond([], now) == [] && Owners([]) == []
  {
  }

  /** A bell whose ticks have run out is due now. */
  lemma {:induction false} Ring(bells: seq<Bell>, now: nat)
    requires bells != [] && bells[0].ticks == 0
    ensures Absolute(bells, now) == [Sleeper(bells[0].owner, now)] + Absolute(bells[1..], now)
  {
  }

  lemma {:induction false} MoreAppended(queue: seq<Thread>, ts: seq<Thread>, t: Thread)
    ensures AppendedAll(queue, ts + [t]) == Appended(AppendedAll(queue, ts), t)
  {
    assert (ts + [t])[..|ts|] == ts;
  }

  lemma {:induction false} OwnersAppend(sl: seq<Sleeper>, x: Sleeper)
    ensures Owners(sl + [x]) == Owners(sl) + [x.owner]
  {
  }

  lemma {:induction false} KeepAll(sl: seq<Sleeper>, n: nat)
    ensures AllUpto(sl, n) ==> Upto(sl, n) == sl && Beyond(sl, n) == []
    ensures AllBeyond(sl, n) ==> Upto(sl, n) == [] && Beyond(sl, n) == sl
  {
    if sl != [] {
      KeepAll(sl[1..], n);
    }
  }

  lemma {:induction false} UptoSplit(a: seq<Sleeper>, b: seq<Sleeper>, n: nat)
    ensures Upto(a + b, n) == Upto(a, n) + Upto(b, n)
  {
    if a == [] {
      assert a + b == b;
    } else {
      UptoSplit(a[1..], b, n);
      assert (a + b)[1..] == a[1..] + b && (a + b)[0] == a[0];
    }
  }

  lemma {:induction false} BeyondSplit(a: seq<Sleeper>, b: seq<Sleeper>, n: nat)
    ensures Beyond(a + b, n) == Beyond(a, n) + Beyond(b, n)
  {
    if a == [] {
      assert a + b == b;
    } else {
      BeyondSplit(a[1..], b, n);
      assert (a + b)[1..] == a[1..] + b && (a + b)[0] == a[0];
    }
  }

  /** A list that is cut at n filters into its two parts. */
  lemma {:induction false} Cut(a: seq<Sleeper>, b: seq<Sleeper>, n: nat)
    requires AllUpto(a, n) && AllBeyond(b, n)
    ensures Upto(a + b, n) == a && Beyond(a + b, n) == b
  {
    UptoSplit(a, b, n);
    BeyondSplit(a, b, n);
    KeepAll(a, n);
    KeepAll(b, n);
  }

  lemma {:induction false} Between(a: seq<Sleeper>, b: seq<Sleeper>, x: Sleeper)
    requires AllUpto(a, x.due) && AllBeyond(b, x.due)
    ensures Insert(a + b, x) == a + [x] + b
  {
    Cut(a, b, x.due);
  }

  lemma {:induction false} Parts(a: seq<Sleeper>, b: seq<Sleeper>, x: Sleeper, n: nat)
    requires AllBeyond(a + b, n) && x.due > n
    ensures AllBeyond(a + [x] + b, n)
  {
    assert forall i :: 0 <= i < |a| ==> a[i] == (a + b)[i];
    assert forall i :: 0 <= i < |b| ==> b[i] == (a + b)[|a| + i];
  }

  /** A request for the future goes among those still asleep. */
  lemma {:induction false} Served(requests: seq<Sleeper>, x: Sleeper, woken: seq<Sleeper>, asleep: seq<Sleeper>, now: nat)
    requires woken + asleep == Order(requests) && AllUpto(woken, now) && x.due > now
    ensures woken + Insert(asleep, x) == Order(requests + [x])
  {
    assert (requests + [x])[..|requests|] == requests;
    UptoSplit(woken, asleep, x.due);
    BeyondSplit(woken, asleep, x.due);
    KeepAll(woken, x.due);
  }

  /** The serving order is sorted by due time. */
  lemma {:induction false} OrderSorted(requests: seq<Sleeper>)
    ensures Ascending(Order(requests))
  {
    if requests != [] {
      var rest, x := requests[..|requests| - 1], requests[|requests| - 1];
      OrderSorted(rest);
      AscendingFilters(Order(rest), x.due);
      AscendingInsert(Upto(Order(rest), x.due), x, Beyond(Order(rest), x.due));
    }
  }

  lemma {:induction false} AscendingInsert(a: seq<Sleeper>, x: Sleeper, b: seq<Sleeper>)
    requires Ascending(a + b) && AllUpto(a, x.due) && AllBeyond(b, x.due)
    ensures Ascending(a + [x] + b)
  {
    var s, t := a + b, a + [x] + b;
    assert forall i :: 0 <= i < |t| ==> t[i] == if i < |a| then s[i] else if i == |a| then x else s[i - 1];
    assert forall i :: 0 <= i < |a| ==> s[i] == a[i];
    assert forall i :: 0 <= i < |b| ==> s[|a| + i] == b[i];
    forall i, j | 0 <= i < j < |t| ensures t[i].due <= t[j].due {
      assert i < |a| ==> s[i].due <= x.due;
      assert j > |a| ==> s[j - 1] == b[j - 1 - |a|];
    }
  }

  ghost predicate Ascending(sl: seq<Sleeper>) {
    forall i, j :: 0 <= i < j < |sl| ==> sl[i].due <= sl[j].due
  }

  lemma {:induction false} AscendingFilters(sl: seq<Sleeper>, n: nat)
    requires Ascending(sl)
    ensures sl == Upto(sl, n) + Beyond(sl, n) && AllUpto(Upto(sl, n), n) && AllBeyond(Beyond(sl, n), n)
  {
    if sl != [] {
      AscendingFilters(sl[1..], n);
      if sl[0].due > n {
        assert AllBeyond(sl, n);
        KeepAll(sl, n);
      } else {
        var front, back := Upto(sl[1..], n), Beyond(sl[1..], n);
        assert sl == [sl[0]] + (front + back) == ([sl[0]] + front) + back;
      }
    }
  }

  /** Those due at one tick. */
  function DueAt(sl: seq<Sleeper>, n: nat): (r: seq<Sleeper>) {
    if sl == [] then [] else if sl[0].due == n then [sl[0]] + DueAt(sl[1..], n) else DueAt(sl[1..], n)
  }

  lemma {:induction false} DueSplit(a: seq<Sleeper>, b: seq<Sleeper>, n: nat)
    ensures DueAt(a + b, n) == DueAt(a, n) + DueAt(b, n)
  {
    if a == [] {
      assert a + b == b;
    } else {
      DueSplit(a[1..], b, n);
      assert (a + b)[1..] == a[1..] + b && (a + b)[0] == a[0];
    }
  }

  lemma {:induction false} DueNowhere(sl: seq<Sleeper>, n: nat)
    requires forall i :: 0 <= i < |sl| ==> sl[i].due != n
    ensures DueAt(sl, n) == []
  {
    if sl != [] {
      DueNowhere(sl[1..], n);
    }
  }

  /** For every tick, the serving order has the requests due then, in the order they were made. */
  lemma {:induction false} OrderStable(requests: seq<Sleeper>, n: nat)
    ensures DueAt(Order(requests), n) == DueAt(requests, n)
  {
    if requests != [] {
      var rest, x := requests[..|requests| - 1], requests[|requests| - 1];
      OrderStable(rest, n);
      OrderSorted(rest);
      InsertStable(Order(rest), x, n);
      DueSplit(rest, [x], n);
      assert requests == rest + [x];
    }
  }

  lemma {:induction false} InsertStable(sl: seq<Sleeper>, x: Sleeper, n: nat)
    requires Ascending(sl)
    ensures DueAt(Insert(sl, x), n) == DueAt(sl, n) + DueAt([x], n)
  {
    var front, back := Upto(sl, x.due), Beyond(sl, x.due);
    AscendingFilters(sl, x.due);
    DueSplit(front, back, n);
    DueSplit(front + [x], back, n);
    DueSplit(front, [x], n);
    if n == x.due {
      DueNowhere(back, n);
    }
  }

  /**
   * No sleep is lost, cut short or drawn out: for every tick that has passed,
   * the threads that asked to be woken then have been, in the order they asked,
   * and all others are still asleep.
   */
  lemma {:induction false} Punctual(ringer: Bellringer, n: nat)
    requires ringer.Valid()
    ensures DueAt(ringer.requests, n) == DueAt(if n <= ringer.now then ringer.woken else ringer.Sleepers(), n)
  {
    OrderStable(ringer.requests, n);
    DueSplit(ringer.woken, ringer.Sleepers(), n);
    if n <= ringer.now {
      DueNowhere(ringer.Sleepers(), n);
    } else {
      DueNowhere(ringer.woken, n);
    }
  }
}
