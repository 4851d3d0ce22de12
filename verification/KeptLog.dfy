/**
 * What a feed index holds of a chain: each block's events are cut at the highest boundary the index
 * was pruned to since the block was recorded, which need not be the same boundary for all of them.
 */
module KeptLog {
  import opened Seqs
  import opened FeedLog
  import Feed
  import opened Chain

  function Larger(a: nat, b: nat): nat {
    if a < b then b else a
  }

  /** The boundaries after one more prune. */
  function Raised(floors: seq<nat>, boundary: nat): (r: seq<nat>)
    ensures |r| == |floors|
  {
    seq(|floors|, i requires 0 <= i < |floors| => Larger(floors[i], boundary))
  }

  /** The chain's events, those of the i-th block cut at `floors[i]`. */
  ghost function Kept(env: Env, base: Snapshot, chain: seq<Block>, floors: seq<nat>): seq<Event>
    requires |floors| == |chain|
  {
    if chain == [] then []
    else
      var n := |chain| - 1;
      Kept(env, base, chain[..n], floors[..n]) +
      Retain(EventsOf(env, Fold(env, base, chain[..n]), chain[n]), EventSlot, AtLeast(floors[n]))
  }

  lemma KeptMore(env: Env, base: Snapshot, chain: seq<Block>, floors: seq<nat>, b: Block, floor: nat)
    requires |floors| == |chain|
    ensures Kept(env, base, chain + [b], floors + [floor]) ==
            Kept(env, base, chain, floors) + Retain(EventsOf(env, Fold(env, base, chain), b), EventSlot, AtLeast(floor))
  {
    hide EventsOf, Fold, Retain;
    assert (chain + [b])[..|chain|] == chain && (floors + [floor])[..|chain|] == floors;
  }

  /** A prune raises every boundary. */
  lemma {:induction false} PruneKept(env: Env, base: Snapshot, chain: seq<Block>, floors: seq<nat>, boundary: nat)
    requires |floors| == |chain|
    ensures Retain(Kept(env, base, chain, floors), EventSlot, AtLeast(boundary)) == Kept(env, base, chain, Raised(floors, boundary))
  {
    hide EventsOf, Fold, Retain;
    if chain == [] {
      RetainAll([], EventSlot, AtLeast(boundary));
    } else {
      var n := |chain| - 1;
      var es := EventsOf(env, Fold(env, base, chain[..n]), chain[n]);
      PruneKept(env, base, chain[..n], floors[..n], boundary);
      RetainConcat(Kept(env, base, chain[..n], floors[..n]), Retain(es, EventSlot, AtLeast(floors[n])), EventSlot, AtLeast(boundary));
      RetainTwice(es, EventSlot, AtLeast(floors[n]), AtLeast(boundary), AtLeast(Larger(floors[n], boundary)));
      assert Raised(floors, boundary)[..n] == Raised(floors[..n], boundary);
    }
  }

  /** A block's events lie at its slot: they are kept all together or not at all. */
  lemma AllOrNothing(env: Env, s: Snapshot, b: Block, cut: Cut)
    ensures var es := EventsOf(env, s, b);
            Retain(es, EventSlot, cut) == if cut.Keeps(b.slot) then es else []
  {
    hide EventsOf, Retain;
    EventsAt(env, s, b);
    if cut.Keeps(b.slot) {
      RetainAll(EventsOf(env, s, b), EventSlot, cut);
    } else {
      RetainNone(EventsOf(env, s, b), EventSlot, cut);
    }
  }

  /** A rollback leaves the blocks up to its slot with their boundaries. */
  lemma {:induction false} RollKept(env: Env, base: Snapshot, chain: seq<Block>, floors: seq<nat>, k: nat, slot: nat)
    requires |floors| == |chain| && k <= |chain|
    requires forall i | 0 <= i < |chain| :: i < k <==> chain[i].slot <= slot
    ensures Retain(Kept(env, base, chain, floors), EventSlot, AtMost(slot)) == Kept(env, base, chain[..k], floors[..k])
  {
    hide EventsOf, Fold, Retain;
    if chain == [] {
      RetainAll([], EventSlot, AtMost(slot));
      assert chain[..k] == chain;
    } else {
      var n := |chain| - 1;
      var s := Fold(env, base, chain[..n]);
      var es := EventsOf(env, s, chain[n]);
      var low := AtLeast(floors[n]);
      RetainConcat(Kept(env, base, chain[..n], floors[..n]), Retain(es, EventSlot, low), EventSlot, AtMost(slot));
      RetainCommutes(es, EventSlot, low, AtMost(slot));
      AllOrNothing(env, s, chain[n], AtMost(slot));
      if k <= n {
        RollKept(env, base, chain[..n], floors[..n], k, slot);
        assert chain[..n][..k] == chain[..k] && floors[..n][..k] == floors[..k];
        RetainAll([], EventSlot, low);
        Nil(Kept(env, base, chain[..k], floors[..k]));
      } else {
        RollKept(env, base, chain[..n], floors[..n], n, slot);
        assert chain[..n][..n] == chain[..n] && chain[..k] == chain && floors[..n][..n] == floors[..n] && floors[..k] == floors;
      }
    }
  }

  lemma {:induction false} KeptBounded(env: Env, base: Snapshot, chain: seq<Block>, floors: seq<nat>)
    requires |floors| == |chain| && Increasing(base.slot, chain)
    ensures Feed.UpTo(Kept(env, base, chain, floors), if chain == [] then base.slot else chain[|chain| - 1].slot)
    ensures forall e <- Kept(env, base, chain, floors) :: EventSlot(e) > base.slot
  {
    hide EventsOf, Fold, Retain;
    if chain != [] {
      var n := |chain| - 1;
      KeptBounded(env, base, chain[..n], floors[..n]);
      AllOrNothing(env, Fold(env, base, chain[..n]), chain[n], AtLeast(floors[n]));
      EventsAt(env, Fold(env, base, chain[..n]), chain[n]);
      var es := EventsOf(env, Fold(env, base, chain[..n]), chain[n]);
      assert forall e <- es :: EventSlot(e) == chain[n].slot;
    }
  }

  // ---- Comparing boundaries ----

  /** The i-th block recorded something. */
  ghost predicate Records(env: Env, base: Snapshot, chain: seq<Block>, i: nat)
    requires i < |chain|
  {
    EventsOf(env, Fold(env, base, chain[..i]), chain[i]) != []
  }

  /** No block that recorded something lies between a lower and a higher boundary of its own. */
  ghost predicate NoneBetween(env: Env, base: Snapshot, chain: seq<Block>, low: seq<nat>, high: seq<nat>)
    requires |low| == |high| == |chain|
  {
    forall i | 0 <= i < |chain| && Records(env, base, chain, i) :: !(low[i] <= chain[i].slot < high[i])
  }

  lemma NoneBetweenMore(env: Env, base: Snapshot, chain: seq<Block>, low: seq<nat>, high: seq<nat>)
    requires |low| == |high| == |chain| && chain != []
    ensures var n := |chain| - 1;
            NoneBetween(env, base, chain, low, high) <==>
            && NoneBetween(env, base, chain[..n], low[..n], high[..n])
            && (Records(env, base, chain, n) ==> !(low[n] <= chain[n].slot < high[n]))
  {
    hide EventsOf, Fold;
    var n := |chain| - 1;
    forall i | 0 <= i < n
      ensures Records(env, base, chain[..n], i) == Records(env, base, chain, i)
    {
      assert chain[..n][..i] == chain[..i];
    }
    if NoneBetween(env, base, chain, low, high) {
      forall i | 0 <= i < n && Records(env, base, chain[..n], i)
        ensures !(low[..n][i] <= chain[..n][i].slot < high[..n][i])
      {
        assert Records(env, base, chain, i);
      }
    }
  }

  /** With higher boundaries no more is kept, and the same exactly when no block that recorded something lies between. */
  lemma {:induction false} HigherKept(env: Env, base: Snapshot, chain: seq<Block>, low: seq<nat>, high: seq<nat>)
    requires |low| == |high| == |chain| && forall i | 0 <= i < |chain| :: low[i] <= high[i]
    ensures |Kept(env, base, chain, high)| <= |Kept(env, base, chain, low)|
    ensures |Kept(env, base, chain, high)| == |Kept(env, base, chain, low)| <==> NoneBetween(env, base, chain, low, high)
    ensures NoneBetween(env, base, chain, low, high) ==> Kept(env, base, chain, high) == Kept(env, base, chain, low)
  {
    hide EventsOf, Fold, Retain, NoneBetween, Records;
    if chain == [] {
      NothingBetween(env, base, low, high);
    } else {
      var n := |chain| - 1;
      var s := Fold(env, base, chain[..n]);
      HigherKept(env, base, chain[..n], low[..n], high[..n]);
      NoneBetweenMore(env, base, chain, low, high);
      AllOrNothing(env, s, chain[n], AtLeast(low[n]));
      AllOrNothing(env, s, chain[n], AtLeast(high[n]));
      assert Records(env, base, chain, n) <==> EventsOf(env, s, chain[n]) != [] by { RecordsLast(env, base, chain); }
    }
  }

  lemma RecordsLast(env: Env, base: Snapshot, chain: seq<Block>)
    requires chain != []
    ensures var n := |chain| - 1; Records(env, base, chain, n) <==> EventsOf(env, Fold(env, base, chain[..n]), chain[n]) != []
  {
    hide EventsOf, Fold;
  }

  lemma NothingBetween(env: Env, base: Snapshot, low: seq<nat>, high: seq<nat>)
    requires low == high == []
    ensures NoneBetween(env, base, [], low, high)
  {
  }

  /** The same for a list of events under two boundaries. */
  lemma {:induction false} HigherRetained(xs: seq<Event>, low: nat, high: nat)
    requires low <= high
    ensures var a, b := Retain(xs, EventSlot, AtLeast(low)), Retain(xs, EventSlot, AtLeast(high));
            |b| <= |a| && (|b| == |a| <==> a == b) && (a == b <==> forall e <- xs :: !(low <= EventSlot(e) < high))
  {
    if xs != [] {
      var n := |xs| - 1;
      HigherRetained(xs[..n], low, high);
      assert forall e :: e in xs <==> e in xs[..n] || e == xs[n];
    }
  }

  function Constant(n: nat, x: nat): (r: seq<nat>)
    ensures |r| == n
  {
    seq(n, _ => x)
  }

  /** With one boundary for all blocks what is kept is the log from it on. */
  lemma {:induction false} OneBoundary(env: Env, base: Snapshot, chain: seq<Block>, floor: nat)
    ensures Kept(env, base, chain, Constant(|chain|, floor)) == Retain(LogOf(env, base, chain), EventSlot, AtLeast(floor))
  {
    hide EventsOf, Fold, Retain;
    if chain == [] {
      RetainAll([], EventSlot, AtLeast(floor));
    } else {
      var n := |chain| - 1;
      var es := EventsOf(env, Fold(env, base, chain[..n]), chain[n]);
      OneBoundary(env, base, chain[..n], floor);
      assert Constant(|chain|, floor)[..n] == Constant(n, floor);
      RetainConcat(LogOf(env, base, chain[..n]), es, EventSlot, AtLeast(floor));
    }
  }

  /** The events of a continued chain. */
  lemma {:induction false} KeptConcat(env: Env, base: Snapshot, a: seq<Block>, b: seq<Block>, floors: seq<nat>)
    requires |floors| == |a| + |b|
    ensures Kept(env, base, a + b, floors) ==
            Kept(env, base, a, floors[..|a|]) + Kept(env, Fold(env, base, a), b, floors[|a|..])
  {
    hide EventsOf, Fold, Retain;
    if b == [] {
      assert a + b == a && floors[..|a|] == floors;
      Nil(Kept(env, base, a, floors));
    } else {
      var n := |b| - 1;
      assert (a + b)[..|a + b| - 1] == a + b[..n];
      assert floors[..|a| + n][..|a|] == floors[..|a|] && floors[..|a| + n][|a|..] == floors[|a|..][..n];
      KeptConcat(env, base, a, b[..n], floors[..|a| + n]);
      FoldConcat(env, base, a, b[..n]);
      Assoc(Kept(env, base, a, floors[..|a|]), Kept(env, Fold(env, base, a), b[..n], floors[|a|..][..n]),
            Retain(EventsOf(env, Fold(env, base, a + b[..n]), b[n]), EventSlot, AtLeast(floors[|a| + n])));
    }
  }

  // ---- The whole index: what it was loaded with and what it kept since ----

  /** What an index holds that started from `loaded` and was never pruned above `floor`. */
  ghost function Held(env: Env, base: Snapshot, chain: seq<Block>, loaded: seq<Event>, floors: seq<nat>, floor: nat): seq<Event>
    requires |floors| == |chain|
  {
    Retain(loaded, EventSlot, AtLeast(floor)) + Kept(env, base, chain, floors)
  }

  lemma HeldGrows(env: Env, base: Snapshot, chain: seq<Block>, loaded: seq<Event>, floors: seq<nat>, floor: nat, b: Block, low: nat)
    requires |floors| == |chain|
    ensures Retain(Held(env, base, chain, loaded, floors, floor) + EventsOf(env, Fold(env, base, chain), b), EventSlot, AtLeast(low)) ==
            Held(env, base, chain + [b], loaded, Raised(floors, low) + [low], Larger(floor, low))
  {
    hide EventsOf, Fold, Retain, Kept;
    var a, k, es := Retain(loaded, EventSlot, AtLeast(floor)), Kept(env, base, chain, floors), EventsOf(env, Fold(env, base, chain), b);
    RetainConcat(a + k, es, EventSlot, AtLeast(low));
    RetainConcat(a, k, EventSlot, AtLeast(low));
    RetainTwice(loaded, EventSlot, AtLeast(floor), AtLeast(low), AtLeast(Larger(floor, low)));
    PruneKept(env, base, chain, floors, low);
    KeptMore(env, base, chain, Raised(floors, low), b, low);
    Assoc(Retain(a, EventSlot, AtLeast(low)), Retain(k, EventSlot, AtLeast(low)), Retain(es, EventSlot, AtLeast(low)));
  }

  lemma HeldRollsBack(env: Env, base: Snapshot, chain: seq<Block>, loaded: seq<Event>, floors: seq<nat>, floor: nat, k: nat, slot: nat)
    requires |floors| == |chain| && k <= |chain| && forall i | 0 <= i < |chain| :: i < k <==> chain[i].slot <= slot
    ensures Retain(Held(env, base, chain, loaded, floors, floor), EventSlot, AtMost(slot)) ==
            Held(env, base, chain[..k], Retain(loaded, EventSlot, AtMost(slot)), floors[..k], floor)
  {
    hide Retain, Kept;
    RetainConcat(Retain(loaded, EventSlot, AtLeast(floor)), Kept(env, base, chain, floors), EventSlot, AtMost(slot));
    RetainCommutes(loaded, EventSlot, AtLeast(floor), AtMost(slot));
    RollKept(env, base, chain, floors, k, slot);
  }

  lemma {:induction false} RetainHas(xs: seq<Event>, cut: Cut)
    ensures forall e :: e in Retain(xs, EventSlot, cut) <==> e in xs && cut.Keeps(EventSlot(e))
  {
    if xs != [] {
      var n := |xs| - 1;
      RetainHas(xs[..n], cut);
      assert xs == xs[..n] + [xs[n]];
    }
  }

  lemma RetainUpTo(xs: seq<Event>, cut: Cut, slot: nat)
    requires Feed.UpTo(xs, slot) || (cut.AtMost? && cut.slot <= slot)
    ensures Feed.UpTo(Retain(xs, EventSlot, cut), slot)
  {
    hide Retain;
    RetainHas(xs, cut);
    var r := Retain(xs, EventSlot, cut);
    assert forall i | 0 <= i < |r| :: r[i] in r;
  }

  lemma UpToLater(xs: seq<Event>, low: nat, high: nat)
    requires Feed.UpTo(xs, low) && low <= high
    ensures Feed.UpTo(xs, high)
  {
  }

  /** Nothing an index holds lies above the last surviving block. */
  lemma HeldUpTo(env: Env, base: Snapshot, chain: seq<Block>, loaded: seq<Event>, floors: seq<nat>, floor: nat)
    requires |floors| == |chain| && Increasing(base.slot, chain) && Feed.UpTo(loaded, base.slot)
    ensures Feed.UpTo(Held(env, base, chain, loaded, floors, floor), if chain == [] then base.slot else chain[|chain| - 1].slot)
  {
    hide Retain, Kept;
    RetainUpTo(loaded, AtLeast(floor), base.slot);
    UpToLater(Retain(loaded, EventSlot, AtLeast(floor)), base.slot, if chain == [] then base.slot else chain[|chain| - 1].slot);
    KeptBounded(env, base, chain, floors);
  }

  /** An index is the log of the surviving events from one boundary on exactly when no block that recorded something was kept below it. */
  lemma HeldExact(env: Env, base: Snapshot, chain: seq<Block>, loaded: seq<Event>, floors: seq<nat>, floor: nat)
    requires |floors| == |chain| && forall i | 0 <= i < |chain| :: floors[i] <= floor
    ensures Held(env, base, chain, loaded, floors, floor) == Retain(loaded + LogOf(env, base, chain), EventSlot, AtLeast(floor)) <==>
            NoneBetween(env, base, chain, floors, Constant(|chain|, floor))
  {
    hide Retain, Kept, LogOf, NoneBetween;
    RetainConcat(loaded, LogOf(env, base, chain), EventSlot, AtLeast(floor));
    OneBoundary(env, base, chain, floor);
    HigherKept(env, base, chain, floors, Constant(|chain|, floor));
    Cancel(Retain(loaded, EventSlot, AtLeast(floor)), Kept(env, base, chain, floors), Kept(env, base, chain, Constant(|chain|, floor)));
  }

  /** Two indexes of one chain, one with higher boundaries, hold the same exactly when nothing recorded lies between. */
  lemma HeldCompare(env: Env, base: Snapshot, chain: seq<Block>, loaded: seq<Event>, low: seq<nat>, floor: nat, high: seq<nat>, top: nat)
    requires |low| == |high| == |chain| && floor <= top && forall i | 0 <= i < |chain| :: low[i] <= high[i]
    ensures Held(env, base, chain, loaded, low, floor) == Held(env, base, chain, loaded, high, top) <==>
            (forall e <- loaded :: !(floor <= EventSlot(e) < top)) && NoneBetween(env, base, chain, low, high)
    ensures |Held(env, base, chain, loaded, low, floor)| == |Held(env, base, chain, loaded, high, top)| ==>
              Held(env, base, chain, loaded, low, floor) == Held(env, base, chain, loaded, high, top)
  {
    hide Retain, Kept, NoneBetween;
    HigherRetained(loaded, floor, top);
    HigherKept(env, base, chain, low, high);
    var a, b := Retain(loaded, EventSlot, AtLeast(floor)), Retain(loaded, EventSlot, AtLeast(top));
    var x, y := Kept(env, base, chain, low), Kept(env, base, chain, high);
    if a + x == b + y {
      assert |a| + |x| == |b| + |y|;
    }
  }
}
