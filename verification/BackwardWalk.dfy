/**
 * A credential's stake at every block of its feed, recovered by walking backward from the current
 * stake: against the forward evolution, and across pages.
 */
module BackwardWalk {

  // ---- The forward evolution ----

  /**
   * What happens to a credential: a reward becomes spendable, a withdrawal in a block that is not
   * among those of its feed, or a block of its feed, `withdrawn` being part of its `delta`.
   */
  datatype Step = Reward(epoch: nat, amount: int)
                | Withdrawal(slot: nat, amount: int)
                | Block(slot: nat, epoch: nat, delta: int, withdrawn: int)

  function Change(s: Step): int {
    match s
    case Reward(_, amount) => amount
    case Withdrawal(_, amount) => -amount
    case Block(_, _, delta, _) => delta
  }

  function Value(start: int, steps: seq<Step>): int {
    if steps == [] then start else Value(start, steps[..|steps| - 1]) + Change(steps[|steps| - 1])
  }

  predicate InOrder(a: Step, b: Step) {
    && (a.Block? && b.Block? ==> a.slot < b.slot && a.epoch <= b.epoch)
    && (a.Block? && b.Reward? ==> a.epoch < b.epoch)
    && (a.Reward? && b.Block? ==> a.epoch <= b.epoch)
    && (a.Block? && b.Withdrawal? ==> a.slot < b.slot)
    && (a.Withdrawal? && b.Block? ==> a.slot < b.slot)
  }

  predicate Chronological(steps: seq<Step>) {
    forall i, j | 0 <= i < j < |steps| :: InOrder(steps[i], steps[j])
  }

  // ---- Rows ----

  /** An amount at an epoch or a slot. */
  datatype Item = Item(at: nat, amount: int)

  function SumAbove(xs: seq<Item>, bound: nat): int {
    if xs == [] then 0
    else SumAbove(xs[..|xs| - 1], bound) + (if xs[|xs| - 1].at > bound then xs[|xs| - 1].amount else 0)
  }

  function SumFrom(xs: seq<Item>, bound: nat): int {
    if xs == [] then 0
    else SumFrom(xs[..|xs| - 1], bound) + (if xs[|xs| - 1].at >= bound then xs[|xs| - 1].amount else 0)
  }

  function SumAll(xs: seq<Item>): int {
    if xs == [] then 0 else SumAll(xs[..|xs| - 1]) + xs[|xs| - 1].amount
  }

  predicate Falling(xs: seq<Item>) {
    forall i, j | 0 <= i < j < |xs| :: xs[i].at >= xs[j].at
  }

  function RewardRows(steps: seq<Step>): seq<Item> {
    if steps == [] then []
    else
      var last := steps[|steps| - 1];
      RewardRows(steps[..|steps| - 1]) + (if last.Reward? then [Item(last.epoch, last.amount)] else [])
  }

  /** Every withdrawal, those inside the touching blocks included. */
  function WithdrawalRows(steps: seq<Step>): seq<Item> {
    if steps == [] then []
    else
      var last := steps[|steps| - 1];
      WithdrawalRows(steps[..|steps| - 1]) +
      (if last.Withdrawal? then [Item(last.slot, last.amount)]
       else if last.Block? && last.withdrawn != 0 then [Item(last.slot, last.withdrawn)] else [])
  }

  function BlocksIn(steps: seq<Step>): seq<Step> {
    if steps == [] then []
    else BlocksIn(steps[..|steps| - 1]) + (if steps[|steps| - 1].Block? then [steps[|steps| - 1]] else [])
  }

  // ---- The queries of one page ----

  /** Rewards spendable after `min` and up to `max`. */
  function Between(xs: seq<Item>, min: nat, max: nat): seq<Item> {
    if xs == [] then []
    else Between(xs[..|xs| - 1], min, max) + (if min < xs[|xs| - 1].at <= max then [xs[|xs| - 1]] else [])
  }

  /** Withdrawals at or above a slot; there is no bound from above. */
  function Since(xs: seq<Item>, min: nat): seq<Item> {
    if xs == [] then [] else Since(xs[..|xs| - 1], min) + (if xs[|xs| - 1].at >= min then [xs[|xs| - 1]] else [])
  }

  /** The newest blocks, newest first. */
  function Newest(blocks: seq<Step>, limit: nat): seq<Step> {
    if blocks == [] || limit == 0 then [] else [blocks[|blocks| - 1]] + Newest(blocks[..|blocks| - 1], limit - 1)
  }

  // ---- Preparing the walk ----

  lemma SumAboveLast(xs: seq<Item>, x: Item, bound: nat)
    ensures SumAbove(xs + [x], bound) == SumAbove(xs, bound) + (if x.at > bound then x.amount else 0)
  {
    assert (xs + [x])[..|xs|] == xs;
  }

  /** Add an amount to its epoch's sum, epochs falling. */
  function Merge(xs: seq<Item>, x: Item): seq<Item> {
    if xs == [] then [x]
    else
      var n := |xs| - 1;
      if xs[n].at == x.at then xs[..n] + [Item(x.at, xs[n].amount + x.amount)]
      else if xs[n].at < x.at then Merge(xs[..n], x) + [xs[n]]
      else xs + [x]
  }

  lemma {:induction false} MergeSum(xs: seq<Item>, x: Item, bound: nat)
    ensures SumAbove(Merge(xs, x), bound) == SumAbove(xs, bound) + (if x.at > bound then x.amount else 0)
  {
    if xs == [] {
      SumAboveLast([], x, bound);
      assert [] + [x] == [x];
    } else {
      var n := |xs| - 1;
      if xs[n].at == x.at {
        SumAboveLast(xs[..n], Item(x.at, xs[n].amount + x.amount), bound);
      } else if xs[n].at < x.at {
        MergeSum(xs[..n], x, bound);
        SumAboveLast(Merge(xs[..n], x), xs[n], bound);
      } else {
        SumAboveLast(xs, x, bound);
      }
    }
  }

  lemma {:induction false} MergeFalls(xs: seq<Item>, x: Item)
    requires Falling(xs)
    ensures Falling(Merge(xs, x))
    ensures forall y <- Merge(xs, x) :: y.at == x.at || exists z <- xs :: z.at == y.at
  {
    if xs != [] {
      var n := |xs| - 1;
      if xs[n].at < x.at {
        MergeFalls(xs[..n], x);
        var m := Merge(xs[..n], x);
        forall i | 0 <= i < |m|
          ensures m[i].at >= xs[n].at
        {
          assert m[i] in m;
        }
      }
    }
  }

  /** Rewards summed per epoch, newest epoch first. */
  method PrepareRewards(rows: seq<Item>) returns (deltas: seq<Item>)
    ensures Falling(deltas) && forall bound :: SumAbove(deltas, bound) == SumAbove(rows, bound)
  {
    deltas := [];
    for i := 0 to |rows|
      invariant Falling(deltas) && forall bound :: SumAbove(deltas, bound) == SumAbove(rows[..i], bound)
    {
      assert rows[..i + 1][..i] == rows[..i];
      MergeFalls(deltas, rows[i]);
      forall bound { MergeSum(deltas, rows[i], bound); }
      deltas := Merge(deltas, rows[i]);
    }
    assert rows[..|rows|] == rows;
  }

  function Excluding(xs: seq<Item>, slots: set<nat>): seq<Item> {
    if xs == [] then [] else Excluding(xs[..|xs| - 1], slots) + (if xs[|xs| - 1].at in slots then [] else [xs[|xs| - 1]])
  }

  function PlaceFalling(xs: seq<Item>, x: Item): seq<Item> {
    if xs == [] then [x]
    else if xs[|xs| - 1].at < x.at then PlaceFalling(xs[..|xs| - 1], x) + [xs[|xs| - 1]]
    else xs + [x]
  }

  lemma {:induction false} PlaceKeeps(xs: seq<Item>, x: Item)
    requires Falling(xs)
    ensures Falling(PlaceFalling(xs, x))
    ensures forall y <- PlaceFalling(xs, x) :: y == x || y in xs
    ensures forall bound :: SumAbove(PlaceFalling(xs, x), bound) == SumAbove(xs, bound) + (if x.at > bound then x.amount else 0)
  {
    if xs != [] {
      var n := |xs| - 1;
      if xs[n].at < x.at {
        PlaceKeeps(xs[..n], x);
        var p := PlaceFalling(xs[..n], x);
        forall i | 0 <= i < |p|
          ensures p[i].at >= xs[n].at
        {
          assert p[i] in p;
        }
        forall bound { SumAboveLast(p, xs[n], bound); }
      } else {
        forall bound { SumAboveLast(xs, x, bound); }
      }
    }
  }

  /** Withdrawals outside the page's own blocks, newest first. */
  method PrepareWithdrawals(rows: seq<Item>, exclude: set<nat>) returns (out: seq<Item>)
    ensures Falling(out) && forall bound :: SumAbove(out, bound) == SumAbove(Excluding(rows, exclude), bound)
  {
    out := [];
    for i := 0 to |rows|
      invariant Falling(out) && forall bound :: SumAbove(out, bound) == SumAbove(Excluding(rows[..i], exclude), bound)
    {
      assert rows[..i + 1][..i] == rows[..i];
      if rows[i].at !in exclude {
        PlaceKeeps(out, rows[i]);
        forall bound { SumAboveLast(Excluding(rows[..i], exclude), rows[i], bound); }
        out := PlaceFalling(out, rows[i]);
      } else {
        assert Excluding(rows[..i], exclude) + [] == Excluding(rows[..i], exclude);
      }
    }
    assert rows[..|rows|] == rows;
  }

  // ---- The walk ----

  /** On a falling list the items above a bound come first. */
  lemma {:induction false} PrefixAbove(xs: seq<Item>, k: nat, bound: nat)
    requires Falling(xs) && k <= |xs|
    requires (forall i | 0 <= i < k :: xs[i].at > bound) && (k < |xs| ==> xs[k].at <= bound)
    ensures SumAll(xs[..k]) == SumAbove(xs, bound)
  {
    if xs != [] {
      var n := |xs| - 1;
      if k == |xs| {
        PrefixAbove(xs[..n], n, bound);
        assert xs[..k] == xs && xs[..n][..n] == xs[..n];
      } else {
        PrefixAbove(xs[..n], k, bound);
        assert xs[..n][..k] == xs[..k];
      }
    }
  }

  class SubjectReplay {
    var running: int
    var rewardDeltas: seq<Item>
    var rewardCursor: nat
    var withdrawals: seq<Item>
    var wdCursor: nat
    var lastSlot: nat
    var lastEpoch: nat

    /** The stake the walk started from and the block deltas undone so far. */
    ghost var anchor: int
    ghost var undone: int

    ghost predicate Valid()
      reads this
    {
      && Falling(rewardDeltas) && Falling(withdrawals)
      && rewardCursor <= |rewardDeltas| && wdCursor <= |withdrawals|
      && running == anchor - SumAll(rewardDeltas[..rewardCursor]) + SumAll(withdrawals[..wdCursor]) - undone
    }

    /** Nothing undone so far belongs at or before a block. */
    predicate Reaches(epoch: nat, slot: nat)
      requires rewardCursor <= |rewardDeltas| && wdCursor <= |withdrawals|
      reads this
    {
      && (forall i | 0 <= i < rewardCursor :: rewardDeltas[i].at > epoch)
      && (forall i | 0 <= i < wdCursor :: withdrawals[i].at > slot)
    }

    constructor (anchor: int, rewards: seq<Item>, withdrawals: seq<Item>)
      requires Falling(rewards) && Falling(withdrawals)
      ensures Valid() && rewardCursor == 0 && wdCursor == 0 && undone == 0
      ensures this.anchor == anchor && running == anchor && rewardDeltas == rewards && this.withdrawals == withdrawals
    {
      running, this.anchor, undone := anchor, anchor, 0;
      rewardDeltas, rewardCursor, this.withdrawals, wdCursor := rewards, 0, withdrawals, 0;
      lastSlot, lastEpoch := 0, 0;
    }

    /** Undo the rewards that became spendable after an epoch. */
    method UndoRewards(epoch: nat)
      requires Valid() && forall i | 0 <= i < rewardCursor :: rewardDeltas[i].at > epoch
      modifies this`running, this`rewardCursor
      ensures Valid() && forall i | 0 <= i < rewardCursor :: rewardDeltas[i].at > epoch
      ensures SumAll(rewardDeltas[..rewardCursor]) == SumAbove(rewardDeltas, epoch)
    {
      hide Falling;
      while rewardCursor < |rewardDeltas| && rewardDeltas[rewardCursor].at > epoch
        invariant Valid() && forall i | 0 <= i < rewardCursor :: rewardDeltas[i].at > epoch
        decreases |rewardDeltas| - rewardCursor
      {
        assert rewardDeltas[..rewardCursor + 1][..rewardCursor] == rewardDeltas[..rewardCursor];
        running := running - rewardDeltas[rewardCursor].amount;
        rewardCursor := rewardCursor + 1;
      }
      PrefixAbove(rewardDeltas, rewardCursor, epoch);
    }

    /** Undo the withdrawals after a slot. */
    method UndoWithdrawals(slot: nat)
      requires Valid() && forall i | 0 <= i < wdCursor :: withdrawals[i].at > slot
      modifies this`running, this`wdCursor
      ensures Valid() && forall i | 0 <= i < wdCursor :: withdrawals[i].at > slot
      ensures SumAll(withdrawals[..wdCursor]) == SumAbove(withdrawals, slot)
    {
      hide Falling;
      while wdCursor < |withdrawals| && withdrawals[wdCursor].at > slot
        invariant Valid() && forall i | 0 <= i < wdCursor :: withdrawals[i].at > slot
        decreases |withdrawals| - wdCursor
      {
        assert withdrawals[..wdCursor + 1][..wdCursor] == withdrawals[..wdCursor];
        running := running + withdrawals[wdCursor].amount;
        wdCursor := wdCursor + 1;
      }
      PrefixAbove(withdrawals, wdCursor, slot);
    }

    /** One block, newest first: undo the rewards and withdrawals after it, then the block itself. */
    method PreBlockStake(epoch: nat, slot: nat, delta: int) returns (pre: int)
      requires Valid() && Reaches(epoch, slot)
      modifies this
      ensures Valid() && Reaches(epoch, slot)
      ensures rewardDeltas == old(rewardDeltas) && withdrawals == old(withdrawals) && anchor == old(anchor)
      ensures undone == old(undone) + delta && lastSlot == slot && lastEpoch == epoch
      ensures pre == running == anchor - SumAbove(rewardDeltas, epoch) + SumAbove(withdrawals, slot) - undone
    {
      hide Falling, SumAll, SumAbove;
      UndoRewards(epoch);
      UndoWithdrawals(slot);
      running := running - delta;
      undone := undone + delta;
      lastSlot, lastEpoch := slot, epoch;
      pre := running;
    }

    method Cursor() returns (slot: nat, epoch: nat, stake: int)
      ensures slot == lastSlot && epoch == lastEpoch && stake == running
    {
      return lastSlot, lastEpoch, running;
    }
  }

  // ---- One page ----

  /** What a page is fetched below: nothing for the first, the cursor's slot for an older one. */
  datatype Anchor = Tip(stake: int, epoch: nat) | Older(stake: int, epoch: nat, before: nat)

  function BlocksBefore(blocks: seq<Step>, a: Anchor): seq<Step> {
    if blocks == [] || a.Tip? || !blocks[|blocks| - 1].Block? || blocks[|blocks| - 1].slot < a.before then blocks
    else BlocksBefore(blocks[..|blocks| - 1], a)
  }

  function SlotsOf(page: seq<Step>): set<nat> {
    set b <- page | b.Block? :: b.slot
  }

  function Deltas(page: seq<Step>): int {
    if page == [] then 0
    else Deltas(page[..|page| - 1]) + (if page[|page| - 1].Block? then page[|page| - 1].delta else 0)
  }

  function RewardsFor(steps: seq<Step>, page: seq<Step>, a: Anchor): seq<Item> {
    if page == [] || !page[|page| - 1].Block? then [] else Between(RewardRows(steps), page[|page| - 1].epoch, a.epoch)
  }

  function WithdrawalsFor(steps: seq<Step>, page: seq<Step>): seq<Item> {
    if page == [] || !page[|page| - 1].Block? then [] else Excluding(Since(WithdrawalRows(steps), page[|page| - 1].slot), SlotsOf(page))
  }

  /** What the walk yields for the i-th block of a page. */
  function Walked(steps: seq<Step>, page: seq<Step>, a: Anchor, i: nat): int
    requires i < |page| && page[i].Block?
  {
    a.stake - SumAbove(RewardsFor(steps, page, a), page[i].epoch) + SumAbove(WithdrawalsFor(steps, page), page[i].slot)
    - Deltas(page[..i + 1])
  }

  /** Newest first. */
  predicate IsPage(page: seq<Step>) {
    && (forall i | 0 <= i < |page| :: page[i].Block?)
    && (forall i, j | 0 <= i < j < |page| :: page[i].slot > page[j].slot && page[i].epoch >= page[j].epoch)
  }

  /** Fetch a page's blocks, rewards and withdrawals and walk it; the cursor carries the walk on. */
  method WalkPage(steps: seq<Step>, a: Anchor, limit: nat) returns (page: seq<Step>, pres: seq<int>, cursor: Anchor)
    requires Chronological(steps)
    ensures page == Newest(BlocksBefore(BlocksIn(steps), a), limit) && IsPage(page) && |pres| == |page|
    ensures forall i | 0 <= i < |page| :: pres[i] == Walked(steps, page, a, i)
    ensures page != [] ==> cursor == Older(pres[|page| - 1], page[|page| - 1].epoch, page[|page| - 1].slot)
  {
    hide Falling, SumAbove, SumAll, Chronological, RewardsFor, WithdrawalsFor, BlocksIn, BlocksBefore, Newest, RewardRows, WithdrawalRows, Between,
         Since, Excluding;
    page := Newest(BlocksBefore(BlocksIn(steps), a), limit);
    PageOrder(steps, a, limit);
    pres, cursor := [], a;
    if page == [] {
      return;
    }
    var oldest := page[|page| - 1];
    var rewards := PrepareRewards(Between(RewardRows(steps), oldest.epoch, a.epoch));
    var withdrawals := PrepareWithdrawals(Since(WithdrawalRows(steps), oldest.slot), SlotsOf(page));
    FetchedFor(steps, page, a);
    var walk := new SubjectReplay(a.stake, rewards, withdrawals);
    assert page[..0] == [];
    for i := 0 to |page|
      invariant fresh(walk) && walk.Valid() && walk.anchor == a.stake && walk.undone == Deltas(page[..i])
      invariant walk.rewardDeltas == rewards && walk.withdrawals == withdrawals
      invariant i < |page| ==> walk.Reaches(page[i].epoch, page[i].slot)
      invariant |pres| == i && forall j | 0 <= j < i :: pres[j] == Walked(steps, page, a, j)
      invariant i > 0 ==> walk.running == pres[i - 1] && walk.lastSlot == page[i - 1].slot && walk.lastEpoch == page[i - 1].epoch
    {
      assert page[..i + 1][..i] == page[..i];
      var pre := walk.PreBlockStake(page[i].epoch, page[i].slot, page[i].delta);
      pres := pres + [pre];
    }
    var slot, epoch, stake := walk.Cursor();
    cursor := Older(stake, epoch, slot);
  }

  lemma FetchedFor(steps: seq<Step>, page: seq<Step>, a: Anchor)
    requires page != [] && IsPage(page)
    ensures RewardsFor(steps, page, a) == Between(RewardRows(steps), page[|page| - 1].epoch, a.epoch)
    ensures WithdrawalsFor(steps, page) == Excluding(Since(WithdrawalRows(steps), page[|page| - 1].slot), SlotsOf(page))
  {
  }

  predicate RisingBlocks(bs: seq<Step>) {
    && (forall i | 0 <= i < |bs| :: bs[i].Block?)
    && (forall i, j | 0 <= i < j < |bs| :: bs[i].slot < bs[j].slot && bs[i].epoch <= bs[j].epoch)
  }

  lemma {:induction false} BlocksRise(steps: seq<Step>)
    requires Chronological(steps)
    ensures RisingBlocks(BlocksIn(steps)) && forall b :: b in BlocksIn(steps) <==> b in steps && b.Block?
  {
    if steps != [] {
      var n := |steps| - 1;
      BlocksRise(steps[..n]);
      var bs := BlocksIn(steps[..n]);
      assert forall x :: x in steps <==> x in steps[..n] || x == steps[n];
      forall i | 0 <= i < |bs|
        ensures InOrder(bs[i], steps[n])
      {
        assert bs[i] in bs;
        var k :| 0 <= k < n && steps[k] == bs[i];
      }
    }
  }

  lemma {:induction false} BeforePrefix(blocks: seq<Step>, a: Anchor)
    requires RisingBlocks(blocks)
    ensures |BlocksBefore(blocks, a)| <= |blocks| && BlocksBefore(blocks, a) == blocks[..|BlocksBefore(blocks, a)|]
    ensures forall i | 0 <= i < |blocks| :: i < |BlocksBefore(blocks, a)| <==> a.Tip? || blocks[i].slot < a.before
  {
    if blocks != [] && a.Older? && blocks[|blocks| - 1].slot >= a.before {
      var n := |blocks| - 1;
      BeforePrefix(blocks[..n], a);
    }
  }

  lemma BeforeIsPrefix(blocks: seq<Step>, a: Anchor)
    requires RisingBlocks(blocks)
    ensures |BlocksBefore(blocks, a)| <= |blocks| && BlocksBefore(blocks, a) == blocks[..|BlocksBefore(blocks, a)|]
    ensures forall b :: b in BlocksBefore(blocks, a) <==> b in blocks && (a.Tip? || b.slot < a.before)
  {
    hide BlocksBefore;
    BeforePrefix(blocks, a);
    forall b
      ensures b in BlocksBefore(blocks, a) <==> b in blocks && (a.Tip? || b.slot < a.before)
    {
      if b in blocks {
        var i :| 0 <= i < |blocks| && blocks[i] == b;
      }
      if b in BlocksBefore(blocks, a) {
        var i :| 0 <= i < |BlocksBefore(blocks, a)| && BlocksBefore(blocks, a)[i] == b;
        assert blocks[i] == b;
      }
    }
  }

  lemma {:induction false} NewestAt(blocks: seq<Step>, limit: nat, i: nat)
    requires i < |Newest(blocks, limit)|
    ensures i < |blocks| && i < limit && Newest(blocks, limit)[i] == blocks[|blocks| - 1 - i]
  {
    if i > 0 {
      NewestAt(blocks[..|blocks| - 1], limit - 1, i - 1);
    }
  }

  lemma {:induction false} NewestSize(blocks: seq<Step>, limit: nat)
    ensures |Newest(blocks, limit)| == if |blocks| < limit then |blocks| else limit
  {
    if blocks != [] && limit > 0 {
      NewestSize(blocks[..|blocks| - 1], limit - 1);
    }
  }

  lemma PageOrder(steps: seq<Step>, a: Anchor, limit: nat)
    requires Chronological(steps)
    ensures IsPage(Newest(BlocksBefore(BlocksIn(steps), a), limit))
  {
    hide Chronological, BlocksIn, BlocksBefore, Newest;
    BlocksRise(steps);
    var all := BlocksIn(steps);
    BeforeIsPrefix(all, a);
    var blocks := BlocksBefore(all, a);
    var page := Newest(blocks, limit);
    forall i | 0 <= i < |page|
      ensures page[i].Block?
    {
      NewestAt(blocks, limit, i);
    }
    forall i, j | 0 <= i < j < |page|
      ensures page[i].slot > page[j].slot && page[i].epoch >= page[j].epoch
    {
      NewestAt(blocks, limit, i);
      NewestAt(blocks, limit, j);
    }
  }

  // ---- The walk against the forward evolution ----

  function OffAbove(steps: seq<Step>, slot: nat): int {
    if steps == [] then 0
    else
      var last := steps[|steps| - 1];
      OffAbove(steps[..|steps| - 1], slot) + (if last.Withdrawal? && last.slot > slot then last.amount else 0)
  }

  function DeltasFrom(steps: seq<Step>, slot: nat): int {
    if steps == [] then 0
    else
      var last := steps[|steps| - 1];
      DeltasFrom(steps[..|steps| - 1], slot) + (if last.Block? && last.slot >= slot then last.delta else 0)
  }

  /** One more step, in each of the sums. */
  lemma StepSums(start: int, steps: seq<Step>, q: nat, epoch: nat, slot: nat)
    requires q < |steps|
    ensures var x := steps[q];
            && Value(start, steps[..q + 1]) == Value(start, steps[..q]) + Change(x)
            && SumAbove(RewardRows(steps[..q + 1]), epoch) ==
               SumAbove(RewardRows(steps[..q]), epoch) + (if x.Reward? && x.epoch > epoch then x.amount else 0)
            && OffAbove(steps[..q + 1], slot) == OffAbove(steps[..q], slot) + (if x.Withdrawal? && x.slot > slot then x.amount else 0)
            && DeltasFrom(steps[..q + 1], slot) == DeltasFrom(steps[..q], slot) + (if x.Block? && x.slot >= slot then x.delta else 0)
  {
    assert steps[..q + 1][..q] == steps[..q];
    var rows := RewardRows(steps[..q]);
    assert rows + [] == rows;
    if steps[q].Reward? {
      SumAboveLast(rows, Item(steps[q].epoch, steps[q].amount), epoch);
    }
  }

  /** Nothing before a block counts as after it. */
  lemma {:induction false} BeforeBlock(steps: seq<Step>, k: nat, q: nat)
    requires Chronological(steps) && q <= k < |steps| && steps[k].Block?
    ensures SumAbove(RewardRows(steps[..q]), steps[k].epoch) == 0
    ensures OffAbove(steps[..q], steps[k].slot) == 0 && DeltasFrom(steps[..q], steps[k].slot) == 0
  {
    if q > 0 {
      BeforeBlock(steps, k, q - 1);
      StepSums(0, steps, q - 1, steps[k].epoch, steps[k].slot);
      assert InOrder(steps[q - 1], steps[k]);
    }
  }

  /** From a block on, the stake changes by the rewards and withdrawals after it and the blocks from it on. */
  lemma {:induction false} ForwardSpan(start: int, steps: seq<Step>, k: nat, q: nat)
    requires Chronological(steps) && k < |steps| && steps[k].Block? && k <= q <= |steps|
    ensures Value(start, steps[..q]) - Value(start, steps[..k]) ==
            SumAbove(RewardRows(steps[..q]), steps[k].epoch) - OffAbove(steps[..q], steps[k].slot) + DeltasFrom(steps[..q], steps[k].slot)
  {
    if q == k {
      BeforeBlock(steps, k, k);
    } else {
      ForwardSpan(start, steps, k, q - 1);
      StepSums(start, steps, q - 1, steps[k].epoch, steps[k].slot);
      assert k == q - 1 || InOrder(steps[k], steps[q - 1]);
    }
  }

  /** The page is fetched below the step `p`, with the stake just before it. */
  predicate Anchored(start: int, steps: seq<Step>, p: nat, a: Anchor) {
    && p <= |steps| && a.stake == Value(start, steps[..p])
    && match a
       case Tip(_, epoch) => p == |steps| && forall x <- steps :: x.Reward? ==> x.epoch <= epoch
       case Older(_, epoch, before) => p < |steps| && steps[p].Block? && steps[p].slot == before && steps[p].epoch == epoch
  }

  lemma BetweenLast(xs: seq<Item>, x: Item, min: nat, max: nat, bound: nat)
    ensures SumAbove(Between(xs + [x], min, max), bound) ==
            SumAbove(Between(xs, min, max), bound) + (if min < x.at <= max && x.at > bound then x.amount else 0)
  {
    assert (xs + [x])[..|xs|] == xs;
    var b := Between(xs, min, max);
    assert b + [] == b;
    SumAboveLast(b, x, bound);
  }

  /** The reward rows fetched are those between the page and its anchor. */
  lemma {:induction false} RewardsCover(start: int, steps: seq<Step>, p: nat, a: Anchor, q: nat, min: nat, bound: nat)
    requires Chronological(steps) && Anchored(start, steps, p, a) && q <= |steps| && min <= bound
    ensures SumAbove(Between(RewardRows(steps[..q]), min, a.epoch), bound) ==
            SumAbove(RewardRows(steps[..if q < p then q else p]), bound)
  {
    hide Value, Between, SumAbove;
    if q == 0 {
      NoRows(min, a.epoch, bound);
    } else {
      RewardsCover(start, steps, p, a, q - 1, min, bound);
      var x, rows := steps[q - 1], RewardRows(steps[..q - 1]);
      assert steps[..q][..q - 1] == steps[..q - 1];
      assert rows + [] == rows;
      if x.Reward? {
        BetweenLast(rows, Item(x.epoch, x.amount), min, a.epoch, bound);
        SumAboveLast(rows, Item(x.epoch, x.amount), bound);
        assert x in steps;
        if a.Older? && q - 1 < p {
          assert InOrder(x, steps[p]);
        } else if a.Older? && q - 1 > p {
          assert InOrder(steps[p], x);
        }
      }
    }
  }

  lemma NoRows(min: nat, max: nat, bound: nat)
    ensures SumAbove(Between([], min, max), bound) == SumAbove([], bound)
  {
  }

  lemma SinceLast(xs: seq<Item>, x: Item, min: nat, ex: set<nat>, bound: nat)
    requires min <= bound
    ensures SumAbove(Excluding(Since(xs + [x], min), ex), bound) ==
            SumAbove(Excluding(Since(xs, min), ex), bound) + (if x.at > bound && x.at !in ex then x.amount else 0)
  {
    assert (xs + [x])[..|xs|] == xs;
    var since := Since(xs, min);
    assert since + [] == since;
    if x.at >= min {
      assert (since + [x])[..|since|] == since;
      var kept := Excluding(since, ex);
      assert kept + [] == kept;
      SumAboveLast(kept, x, bound);
    }
  }

  /** What the page excludes: all blocks above its own that lie below the anchor, and nothing else. */
  predicate Excludes(steps: seq<Step>, p: nat, ex: set<nat>, slot: nat)
    requires p <= |steps|
  {
    && (forall i | 0 <= i < p :: steps[i].Block? && steps[i].slot > slot ==> steps[i].slot in ex)
    && (forall i | 0 <= i < |steps| :: steps[i].Withdrawal? || (steps[i].Block? && i >= p) ==> steps[i].slot !in ex)
  }

  /** Below the anchor exactly the withdrawals outside the touching blocks remain. */
  lemma {:induction false} WithdrawalsCover(steps: seq<Step>, p: nat, q: nat, min: nat, ex: set<nat>, slot: nat)
    requires Chronological(steps) && q <= p <= |steps| && min <= slot && Excludes(steps, p, ex, slot)
    ensures SumAbove(Excluding(Since(WithdrawalRows(steps[..q]), min), ex), slot) == OffAbove(steps[..q], slot)
  {
    hide Since, Excluding, SumAbove;
    if q == 0 {
      NoWithdrawals(min, ex, slot);
    } else {
      WithdrawalsCover(steps, p, q - 1, min, ex, slot);
      RowStep(steps, q - 1, min, ex, slot);
    }
  }

  lemma NoWithdrawals(min: nat, ex: set<nat>, slot: nat)
    ensures SumAbove(Excluding(Since([], min), ex), slot) == 0
  {
  }

  /** One more step's withdrawal row. */
  lemma RowStep(steps: seq<Step>, q: nat, min: nat, ex: set<nat>, slot: nat)
    requires q < |steps| && min <= slot
    ensures var x := steps[q];
            && OffAbove(steps[..q + 1], slot) == OffAbove(steps[..q], slot) + (if x.Withdrawal? && x.slot > slot then x.amount else 0)
            && SumAbove(Excluding(Since(WithdrawalRows(steps[..q + 1]), min), ex), slot) ==
               SumAbove(Excluding(Since(WithdrawalRows(steps[..q]), min), ex), slot) +
               (if x.Withdrawal? && x.slot > slot && x.slot !in ex then x.amount
                else if x.Block? && x.slot > slot && x.slot !in ex then x.withdrawn else 0)
  {
    hide Since, Excluding, SumAbove;
    var x, rows := steps[q], WithdrawalRows(steps[..q]);
    assert steps[..q + 1][..q] == steps[..q];
    assert rows + [] == rows;
    if x.Withdrawal? {
      SinceLast(rows, Item(x.slot, x.amount), min, ex, slot);
    } else if x.Block? && x.withdrawn != 0 {
      SinceLast(rows, Item(x.slot, x.withdrawn), min, ex, slot);
    }
  }

  lemma FromStep(steps: seq<Step>, q: nat, slot: nat)
    requires q < |steps|
    ensures var x := steps[q];
            SumFrom(WithdrawalRows(steps[..q + 1]), slot) == SumFrom(WithdrawalRows(steps[..q]), slot) +
            (if x.Withdrawal? && x.slot >= slot then x.amount else if x.Block? && x.slot >= slot then x.withdrawn else 0)
  {
    var rows := WithdrawalRows(steps[..q]);
    assert steps[..q + 1][..q] == steps[..q];
    assert rows + [] == rows;
    var x := steps[q];
    if x.Withdrawal? {
      assert (rows + [Item(x.slot, x.amount)])[..|rows|] == rows;
    } else if x.Block? {
      assert (rows + [Item(x.slot, x.withdrawn)])[..|rows|] == rows;
    }
  }

  lemma {:induction false} NoneFrom(steps: seq<Step>, p: nat, q: nat)
    requires Chronological(steps) && q <= p < |steps| && steps[p].Block?
    ensures SumFrom(WithdrawalRows(steps[..q]), steps[p].slot) == 0
  {
    if q > 0 {
      NoneFrom(steps, p, q - 1);
      FromStep(steps, q - 1, steps[p].slot);
      assert InOrder(steps[q - 1], steps[p]);
    }
  }

  /** From the anchor on, every withdrawal row is fetched although it was undone on a newer page. */
  lemma {:induction false} ExtraRows(steps: seq<Step>, p: nat, q: nat, min: nat, ex: set<nat>, slot: nat)
    requires Chronological(steps) && p <= q <= |steps| && p < |steps| && steps[p].Block?
    requires min <= slot < steps[p].slot && Excludes(steps, p, ex, slot)
    ensures SumAbove(Excluding(Since(WithdrawalRows(steps[..q]), min), ex), slot) ==
            OffAbove(steps[..p], slot) + SumFrom(WithdrawalRows(steps[..q]), steps[p].slot)
  {
    hide Since, Excluding, SumAbove, SumFrom;
    if q == p {
      WithdrawalsCover(steps, p, p, min, ex, slot);
      NoneFrom(steps, p, p);
    } else {
      ExtraRows(steps, p, q - 1, min, ex, slot);
      RowStep(steps, q - 1, min, ex, slot);
      FromStep(steps, q - 1, steps[p].slot);
      assert q - 1 == p || InOrder(steps[p], steps[q - 1]);
    }
  }

  // ---- The page's blocks ----

  lemma {:induction false} BlocksBelow(start: int, steps: seq<Step>, p: nat, a: Anchor, q: nat)
    requires Chronological(steps) && Anchored(start, steps, p, a) && p <= q <= |steps|
    ensures BlocksBefore(BlocksIn(steps[..q]), a) == BlocksIn(steps[..p])
  {
    hide Value;
    if q == p {
      var bs := BlocksIn(steps[..p]);
      BlocksRise(steps[..p]);
      if bs != [] && a.Older? {
        assert bs[|bs| - 1] in bs;
        var i :| 0 <= i < p && steps[i] == bs[|bs| - 1];
        assert InOrder(steps[i], steps[p]);
      }
    } else {
      BlocksBelow(start, steps, p, a, q - 1);
      assert steps[..q][..q - 1] == steps[..q - 1];
      var bs := BlocksIn(steps[..q - 1]);
      assert bs + [] == bs;
      if steps[q - 1].Block? {
        assert (bs + [steps[q - 1]])[..|bs|] == bs;
        assert q - 1 == p || InOrder(steps[p], steps[q - 1]);
      }
    }
  }

  lemma {:induction false} OnlyBlocksCount(steps: seq<Step>, slot: nat)
    ensures DeltasFrom(BlocksIn(steps), slot) == DeltasFrom(steps, slot)
  {
    if steps != [] {
      var n := |steps| - 1;
      OnlyBlocksCount(steps[..n], slot);
      var bs := BlocksIn(steps[..n]);
      assert bs + [] == bs && (bs + [steps[n]])[..|bs|] == bs;
    }
  }

  lemma {:induction false} DeltasCons(x: Step, page: seq<Step>)
    requires x.Block?
    ensures Deltas([x] + page) == x.delta + Deltas(page)
  {
    if page == [] {
      assert [x] + page == [x] && [x][..0] == [];
    } else {
      var n := |page| - 1;
      DeltasCons(x, page[..n]);
      assert ([x] + page)[..|page|] == [x] + page[..n];
    }
  }

  lemma {:induction false} NoneAbove(bs: seq<Step>, slot: nat)
    requires RisingBlocks(bs) && forall i | 0 <= i < |bs| :: bs[i].slot < slot
    ensures DeltasFrom(bs, slot) == 0
  {
    if bs != [] {
      NoneAbove(bs[..|bs| - 1], slot);
    }
  }

  /** The newest blocks down to one are those from its slot on. */
  lemma {:induction false} NewestDeltas(bs: seq<Step>, i: nat)
    requires RisingBlocks(bs) && i < |bs|
    ensures Deltas(Newest(bs, i + 1)) == DeltasFrom(bs, bs[|bs| - 1 - i].slot)
  {
    var n := |bs| - 1;
    if i == 0 {
      NoneAbove(bs[..n], bs[n].slot);
      assert Newest(bs, 1) == [bs[n]] + Newest(bs[..n], 0);
      DeltasCons(bs[n], []);
    } else {
      NewestDeltas(bs[..n], i - 1);
      DeltasCons(bs[n], Newest(bs[..n], i));
    }
  }

  lemma {:induction false} NewestPrefix(bs: seq<Step>, limit: nat, i: nat)
    requires i <= |Newest(bs, limit)|
    ensures Newest(bs, limit)[..i] == Newest(bs, i)
  {
    if i > 0 {
      NewestPrefix(bs[..|bs| - 1], limit - 1, i - 1);
      assert Newest(bs, limit)[..i] == [bs[|bs| - 1]] + Newest(bs[..|bs| - 1], limit - 1)[..i - 1];
    }
  }

  /** The withdrawals at or above a cursor's slot: already undone by the newer pages, and fetched again. */
  function Refetched(steps: seq<Step>, a: Anchor): int {
    if a.Tip? then 0 else SumFrom(WithdrawalRows(steps), a.before)
  }

  lemma PageExcludes(start: int, steps: seq<Step>, p: nat, a: Anchor, limit: nat, i: nat)
    requires Chronological(steps) && Anchored(start, steps, p, a)
    requires i < |Newest(BlocksIn(steps[..p]), limit)| && RisingBlocks(BlocksIn(steps[..p]))
    ensures var page := Newest(BlocksIn(steps[..p]), limit);
            page[i].Block? && Excludes(steps, p, SlotsOf(page), page[i].slot)
  {
    hide Value, Newest, BlocksIn;
    var bs := BlocksIn(steps[..p]);
    var page := Newest(bs, limit);
    BlocksRise(steps[..p]);
    NewestAt(bs, limit, i);
    forall j | 0 <= j < p && steps[j].Block? && steps[j].slot > page[i].slot
      ensures steps[j].slot in SlotsOf(page)
    {
      OnPage(steps, p, limit, i, j);
    }
    forall j | 0 <= j < |steps| && (steps[j].Withdrawal? || (steps[j].Block? && j >= p))
      ensures steps[j].slot !in SlotsOf(page)
    {
      NotOnPage(steps, p, limit, j);
    }
  }

  lemma OnPage(steps: seq<Step>, p: nat, limit: nat, i: nat, j: nat)
    requires Chronological(steps) && p <= |steps| && j < p && steps[j].Block?
    requires RisingBlocks(BlocksIn(steps[..p])) && i < |Newest(BlocksIn(steps[..p]), limit)|
    requires forall b :: b in BlocksIn(steps[..p]) <==> b in steps[..p] && b.Block?
    requires Newest(BlocksIn(steps[..p]), limit)[i].Block? && steps[j].slot > Newest(BlocksIn(steps[..p]), limit)[i].slot
    ensures steps[j].slot in SlotsOf(Newest(BlocksIn(steps[..p]), limit))
  {
    hide Newest, BlocksIn, Chronological;
    var bs := BlocksIn(steps[..p]);
    var page := Newest(bs, limit);
    NewestAt(bs, limit, i);
    assert steps[..p][j] == steps[j] && steps[j] in bs;
    var m :| 0 <= m < |bs| && bs[m] == steps[j];
    assert m > |bs| - 1 - i;
    NewestSize(bs, limit);
    NewestAt(bs, limit, |bs| - 1 - m);
    assert page[|bs| - 1 - m] in page;
  }

  lemma NotOnPage(steps: seq<Step>, p: nat, limit: nat, j: nat)
    requires Chronological(steps) && p <= |steps| && j < |steps| && (steps[j].Withdrawal? || (steps[j].Block? && j >= p))
    requires forall b :: b in BlocksIn(steps[..p]) <==> b in steps[..p] && b.Block?
    ensures steps[j].slot !in SlotsOf(Newest(BlocksIn(steps[..p]), limit))
  {
    hide Newest, BlocksIn;
    var bs := BlocksIn(steps[..p]);
    var page := Newest(bs, limit);
    forall b <- page | b.Block?
      ensures b.slot != steps[j].slot
    {
      var m :| 0 <= m < |page| && page[m] == b;
      NewestAt(bs, limit, m);
      assert b in bs;
      var k :| 0 <= k < p && steps[k] == b;
      assert InOrder(steps[k], steps[j]) || InOrder(steps[j], steps[k]);
    }
  }

  /**
   * Walked from a right anchor, every block of a page gets the forward stake just before it, off by
   * the withdrawals at or above the cursor's slot that the page fetches again.
   */
  lemma PageValue(start: int, steps: seq<Step>, p: nat, a: Anchor, limit: nat, i: nat, k: nat)
    requires Chronological(steps) && Anchored(start, steps, p, a)
    requires var page := Newest(BlocksBefore(BlocksIn(steps), a), limit);
             i < |page| && k < p && steps[k] == page[i]
    ensures var page := Newest(BlocksBefore(BlocksIn(steps), a), limit);
            page[i].Block? && Walked(steps, page, a, i) == Value(start, steps[..k]) + Refetched(steps, a)
  {
    hide Chronological, RewardRows, WithdrawalRows, Between, Since, Excluding, SumAbove, SumFrom, BlocksIn, BlocksBefore, Newest, Deltas, DeltasFrom,
         OffAbove, Value, Excludes, RisingBlocks, SlotsOf;
    assert steps[..|steps|] == steps;
    BlocksBelow(start, steps, p, a, |steps|);
    ChronologicalPrefix(steps, p);
    BlocksRise(steps[..p]);
    var bs := BlocksIn(steps[..p]);
    var page := Newest(bs, limit);
    PageExcludes(start, steps, p, a, limit, i);
    PageOrder(steps, a, limit);
    var b, oldest := page[i], page[|page| - 1];
    assert oldest.slot <= b.slot && oldest.epoch <= b.epoch;
    FetchedFor(steps, page, a);
    ForwardSpan(start, steps, k, p);
    RewardsCover(start, steps, p, a, |steps|, oldest.epoch, b.epoch);
    PageDeltas(steps, p, bs, limit, i);
    if a.Tip? {
      WithdrawalsCover(steps, p, p, oldest.slot, SlotsOf(page), b.slot);
    } else {
      BelowAnchor(steps, k, p);
      ExtraRows(steps, p, |steps|, oldest.slot, SlotsOf(page), b.slot);
    }
  }

  lemma ChronologicalPrefix(steps: seq<Step>, p: nat)
    requires Chronological(steps) && p <= |steps|
    ensures Chronological(steps[..p])
  {
  }

  lemma BelowAnchor(steps: seq<Step>, k: nat, p: nat)
    requires Chronological(steps) && k < p < |steps| && steps[k].Block? && steps[p].Block?
    ensures steps[k].slot < steps[p].slot
  {
    assert InOrder(steps[k], steps[p]);
  }

  lemma PageDeltas(steps: seq<Step>, p: nat, bs: seq<Step>, limit: nat, i: nat)
    requires p <= |steps| && bs == BlocksIn(steps[..p]) && RisingBlocks(bs) && i < |Newest(bs, limit)|
    ensures i < |bs| && Newest(bs, limit)[i].Block?
    ensures Deltas(Newest(bs, limit)[..i + 1]) == DeltasFrom(steps[..p], Newest(bs, limit)[i].slot)
  {
    hide Newest, BlocksIn, Deltas, DeltasFrom;
    NewestAt(bs, limit, i);
    NewestPrefix(bs, limit, i + 1);
    NewestDeltas(bs, i);
    OnlyBlocksCount(steps[..p], bs[|bs| - 1 - i].slot);
  }

  /** Every block of the page gets the forward stake just before it. */
  ghost predicate Right(start: int, steps: seq<Step>, page: seq<Step>, a: Anchor) {
    forall i, k | 0 <= i < |page| && page[i].Block? && 0 <= k < |steps| && steps[k] == page[i] ::
      Walked(steps, page, a, i) == Value(start, steps[..k])
  }

  lemma PageBlock(start: int, steps: seq<Step>, p: nat, a: Anchor, limit: nat, i: nat) returns (k: nat)
    requires Chronological(steps) && Anchored(start, steps, p, a)
    requires i < |Newest(BlocksBefore(BlocksIn(steps), a), limit)|
    ensures k < p <= |steps| && steps[k] == Newest(BlocksBefore(BlocksIn(steps), a), limit)[i] && steps[k].Block?
  {
    hide Chronological, BlocksIn, BlocksBefore, Newest, Value;
    assert steps[..|steps|] == steps;
    BlocksBelow(start, steps, p, a, |steps|);
    ChronologicalPrefix(steps, p);
    BlocksRise(steps[..p]);
    var bs := BlocksIn(steps[..p]);
    NewestAt(bs, limit, i);
    assert bs[|bs| - 1 - i] in steps[..p];
    k :| 0 <= k < p && steps[k] == bs[|bs| - 1 - i];
  }

  lemma BlocksDiffer(steps: seq<Step>, j: nat, k: nat)
    requires Chronological(steps) && j < k < |steps| && steps[j].Block?
    ensures steps[j] != steps[k]
  {
    assert InOrder(steps[j], steps[k]);
  }

  lemma OneIndex(steps: seq<Step>, j: nat, k: nat)
    requires Chronological(steps) && j < |steps| && k < |steps| && steps[j] == steps[k] && steps[j].Block?
    ensures j == k
  {
    hide Chronological;
    if j < k {
      BlocksDiffer(steps, j, k);
    } else if k < j {
      BlocksDiffer(steps, k, j);
    }
  }

  /**
   * A page is right exactly when no withdrawal at or above its cursor's slot is fetched again; the
   * first page always is.
   */
  lemma PageExact(start: int, steps: seq<Step>, p: nat, a: Anchor, limit: nat)
    requires Chronological(steps) && Anchored(start, steps, p, a)
    ensures var page := Newest(BlocksBefore(BlocksIn(steps), a), limit);
            Right(start, steps, page, a) <==> page == [] || Refetched(steps, a) == 0
    ensures a.Tip? ==> Refetched(steps, a) == 0
  {
    hide Chronological, BlocksIn, BlocksBefore, Newest, Value, Walked, Refetched, Anchored;
    var page := Newest(BlocksBefore(BlocksIn(steps), a), limit);
    forall i, k | 0 <= i < |page| && page[i].Block? && 0 <= k < |steps| && steps[k] == page[i]
      ensures Walked(steps, page, a, i) == Value(start, steps[..k]) + Refetched(steps, a)
    {
      var j := PageBlock(start, steps, p, a, limit, i);
      OneIndex(steps, j, k);
      PageValue(start, steps, p, a, limit, i, k);
    }
    if page != [] {
      var j := PageBlock(start, steps, p, a, limit, 0);
      assert Walked(steps, page, a, 0) == Value(start, steps[..j]) + Refetched(steps, a);
    }
    TipFetchesOnce(steps, a);
  }

  lemma TipFetchesOnce(steps: seq<Step>, a: Anchor)
    ensures a.Tip? ==> Refetched(steps, a) == 0
  {
  }

  /** No withdrawal gives; one of nothing, as scripts make them, is possible. */
  predicate Withdraws(steps: seq<Step>) {
    forall x <- steps :: (x.Withdrawal? ==> x.amount >= 0) && (x.Block? ==> x.withdrawn >= 0)
  }

  lemma {:induction false} RowsPositive(steps: seq<Step>)
    requires Withdraws(steps)
    ensures forall x <- WithdrawalRows(steps) :: x.amount >= 0
  {
    if steps != [] {
      var n := |steps| - 1;
      assert steps[n] in steps && forall x <- steps[..n] :: x in steps;
      RowsPositive(steps[..n]);
    }
  }

  lemma {:induction false} NothingFrom(xs: seq<Item>, slot: nat)
    requires forall x <- xs :: x.amount >= 0
    ensures SumFrom(xs, slot) >= 0
    ensures SumFrom(xs, slot) == 0 <==> forall x <- xs :: x.at < slot || x.amount == 0
  {
    if xs != [] {
      var n := |xs| - 1;
      assert forall x :: x in xs <==> x in xs[..n] || x == xs[n];
      NothingFrom(xs[..n], slot);
    }
  }

  /** An older page is right exactly when nothing was withdrawn at or above its cursor's slot. */
  lemma OlderPageExact(start: int, steps: seq<Step>, p: nat, a: Anchor, limit: nat)
    requires Chronological(steps) && Anchored(start, steps, p, a) && a.Older? && Withdraws(steps)
    ensures var page := Newest(BlocksBefore(BlocksIn(steps), a), limit);
            Right(start, steps, page, a) <==> page == [] || forall x <- WithdrawalRows(steps) :: x.at < a.before || x.amount == 0
  {
    hide Chronological, BlocksIn, BlocksBefore, Newest, Value, Right, Anchored, WithdrawalRows, SumFrom;
    PageExact(start, steps, p, a, limit);
    RowsPositive(steps);
    NothingFrom(WithdrawalRows(steps), a.before);
  }

  /** The cursor of a right page is a right anchor for the next one. */
  lemma CursorContinues(start: int, steps: seq<Step>, p: nat, a: Anchor, limit: nat, pre: int) returns (k: nat)
    requires Chronological(steps) && Anchored(start, steps, p, a)
    requires var page := Newest(BlocksBefore(BlocksIn(steps), a), limit);
             page != [] && Right(start, steps, page, a) && page[|page| - 1].Block? && pre == Walked(steps, page, a, |page| - 1)
    ensures var page := Newest(BlocksBefore(BlocksIn(steps), a), limit);
            k < p && Anchored(start, steps, k, Older(pre, page[|page| - 1].epoch, page[|page| - 1].slot))
  {
    hide Chronological, BlocksIn, BlocksBefore, Newest, Value, Walked;
    k := PageBlock(start, steps, p, a, limit, |Newest(BlocksBefore(BlocksIn(steps), a), limit)| - 1);
  }

  /** A withdrawal inside the one block of the first page is fetched again for the second. */
  ghost predicate PagesDisagree(start: int, steps: seq<Step>, p: nat, a: Anchor) {
    && Chronological(steps) && Anchored(start, steps, p, a) && Withdraws(steps)
    && !Right(start, steps, Newest(BlocksBefore(BlocksIn(steps), a), 1), a)
  }

  lemma WithdrawalFetchedTwice()
    ensures exists start, steps, p, a :: PagesDisagree(start, steps, p, a)
  {
    hide WithdrawalRows, SumFrom, BlocksIn, BlocksBefore, Newest, Right, SumAbove, RewardRows, OffAbove, DeltasFrom;
    var older, newer := Block(1, 0, 10, 0), Block(2, 0, -3, 3);
    var steps := [older, newer];
    var a := Older(10, 0, 2);
    NothingYet(steps);
    StepSums(0, steps, 0, 0, 0);
    assert Anchored(0, steps, 1, a);
    FromStep(steps, 0, 2);
    FromStep(steps, 1, 2);
    assert steps[..2] == steps;
    assert Refetched(steps, a) == 3;
    BlocksBelow(0, steps, 1, a, 2);
    BlocksRise(steps[..1]);
    assert steps[..1][0] == older && older in steps[..1];
    NewestSize(BlocksIn(steps[..1]), 1);
    PageExact(0, steps, 1, a, 1);
    assert PagesDisagree(0, steps, 1, a);
  }

  lemma NothingYet(steps: seq<Step>)
    ensures Value(0, steps[..0]) == 0 && SumFrom(WithdrawalRows(steps[..0]), 2) == 0
  {
  }

  // ---- The whole walk ----

  /** The same anchor with another stake. */
  function WithStake(a: Anchor, stake: int): Anchor {
    match a
    case Tip(_, epoch) => Tip(stake, epoch)
    case Older(_, epoch, before) => Older(stake, epoch, before)
  }

  function PageOf(steps: seq<Step>, a: Anchor, limit: nat): seq<Step> {
    Newest(BlocksBefore(BlocksIn(steps), a), limit)
  }

  /** The anchor of the next page: the cursor of this one, if it shows anything. */
  function Cursor(steps: seq<Step>, a: Anchor, limit: nat): Anchor {
    var page := PageOf(steps, a, limit);
    if page == [] || !page[|page| - 1].Block? then a
    else Older(Walked(steps, page, a, |page| - 1), page[|page| - 1].epoch, page[|page| - 1].slot)
  }

  function NthAnchor(steps: seq<Step>, a: Anchor, limit: nat, n: nat): Anchor {
    if n == 0 then a else Cursor(steps, NthAnchor(steps, a, limit, n - 1), limit)
  }

  /** What the n-th page fetches again, if it shows anything. */
  function Again(steps: seq<Step>, a: Anchor, limit: nat, n: nat): int {
    var b := NthAnchor(steps, a, limit, n);
    if PageOf(steps, b, limit) == [] then 0 else Refetched(steps, b)
  }

  /** What the first `n` pages fetched again. */
  function Accumulated(steps: seq<Step>, a: Anchor, limit: nat, n: nat): int {
    if n == 0 then 0 else Accumulated(steps, a, limit, n - 1) + Again(steps, a, limit, n - 1)
  }

  lemma {:induction false} BlocksIgnoreStake(blocks: seq<Step>, a: Anchor, stake: int)
    ensures BlocksBefore(blocks, WithStake(a, stake)) == BlocksBefore(blocks, a)
  {
    if blocks != [] {
      BlocksIgnoreStake(blocks[..|blocks| - 1], a, stake);
    }
  }

  /** An error in the anchor's stake goes through to every value of the page. */
  lemma WalkShifts(steps: seq<Step>, a: Anchor, limit: nat, stake: int, i: nat)
    requires i < |PageOf(steps, a, limit)| && PageOf(steps, a, limit)[i].Block?
    ensures PageOf(steps, WithStake(a, stake), limit) == PageOf(steps, a, limit)
    ensures var page := PageOf(steps, a, limit);
            Walked(steps, page, a, i) == Walked(steps, page, WithStake(a, stake), i) + a.stake - stake
  {
    hide Newest, BlocksBefore, BlocksIn, SumAbove, Between, Deltas, WithdrawalsFor, RewardRows;
    BlocksIgnoreStake(BlocksIn(steps), a, stake);
  }

  /** From an anchor off by some error a block of the page is off by it and by what the page fetches again. */
  lemma PageOff(start: int, steps: seq<Step>, p: nat, a: Anchor, limit: nat, err: int, i: nat) returns (k: nat)
    requires Chronological(steps) && Anchored(start, steps, p, WithStake(a, a.stake - err)) && i < |PageOf(steps, a, limit)|
    ensures var page := PageOf(steps, a, limit);
            && k < p <= |steps| && steps[k] == page[i] && page[i].Block?
            && Walked(steps, page, a, i) == Value(start, steps[..k]) + err + Refetched(steps, a)
  {
    hide Chronological, BlocksIn, BlocksBefore, Newest, Value, Walked, Anchored;
    var b := WithStake(a, a.stake - err);
    BlocksIgnoreStake(BlocksIn(steps), a, a.stake - err);
    k := PageBlock(start, steps, p, b, limit, i);
    PageValue(start, steps, p, b, limit, i, k);
    WalkShifts(steps, a, limit, a.stake - err, i);
  }

  /** The anchor of the n-th page is off by what the pages before it fetched again. */
  lemma {:induction false} AnchorOff(start: int, steps: seq<Step>, a: Anchor, limit: nat, n: nat) returns (p: nat)
    requires Chronological(steps) && Anchored(start, steps, |steps|, a)
    ensures var b := NthAnchor(steps, a, limit, n);
            p <= |steps| && Anchored(start, steps, p, WithStake(b, b.stake - Accumulated(steps, a, limit, n)))
  {
    hide Chronological, PageOf, Value, Walked, Refetched;
    if n == 0 {
      p := |steps|;
    } else {
      var q := AnchorOff(start, steps, a, limit, n - 1);
      var b, err := NthAnchor(steps, a, limit, n - 1), Accumulated(steps, a, limit, n - 1);
      var page := PageOf(steps, b, limit);
      if page == [] {
        p := q;
      } else {
        p := PageOff(start, steps, q, b, limit, err, |page| - 1);
      }
    }
  }

  /**
   * On the n-th page of a walk from the tip every block's value is the forward stake before it, off
   * by the withdrawals that this page and the pages before it fetched again.
   */
  lemma NthPageOff(start: int, steps: seq<Step>, a: Anchor, limit: nat, n: nat, i: nat) returns (k: nat)
    requires Chronological(steps) && Anchored(start, steps, |steps|, a)
    requires i < |PageOf(steps, NthAnchor(steps, a, limit, n), limit)|
    ensures var b := NthAnchor(steps, a, limit, n);
            var page := PageOf(steps, b, limit);
            && k < |steps| && steps[k] == page[i] && page[i].Block?
            && Walked(steps, page, b, i) == Value(start, steps[..k]) + Accumulated(steps, a, limit, n + 1)
  {
    hide Chronological, PageOf, Value, Walked, Refetched, Anchored, NthAnchor;
    var b := NthAnchor(steps, a, limit, n);
    var p := AnchorOff(start, steps, a, limit, n);
    k := PageOff(start, steps, p, b, limit, Accumulated(steps, a, limit, n), i);
  }

  /** The n-th page is right exactly when what was fetched again so far adds up to nothing. */
  lemma NthPageRight(start: int, steps: seq<Step>, a: Anchor, limit: nat, n: nat)
    requires Chronological(steps) && Anchored(start, steps, |steps|, a)
    ensures var b := NthAnchor(steps, a, limit, n);
            Right(start, steps, PageOf(steps, b, limit), b) <==>
            PageOf(steps, b, limit) == [] || Accumulated(steps, a, limit, n + 1) == 0
  {
    hide Chronological, PageOf, Value, Walked, Anchored, NthAnchor, Accumulated;
    var b := NthAnchor(steps, a, limit, n);
    var page := PageOf(steps, b, limit);
    forall i, k | 0 <= i < |page| && page[i].Block? && 0 <= k < |steps| && steps[k] == page[i]
      ensures Walked(steps, page, b, i) == Value(start, steps[..k]) + Accumulated(steps, a, limit, n + 1)
    {
      var j := NthPageOff(start, steps, a, limit, n, i);
      OneIndex(steps, j, k);
    }
    if page != [] {
      var j := NthPageOff(start, steps, a, limit, n, 0);
      assert Walked(steps, page, b, 0) == Value(start, steps[..j]) + Accumulated(steps, a, limit, n + 1);
    }
  }

  /** Once a page shows nothing no later one does; until then the cursors fall. */
  lemma {:induction false} CursorsFall(start: int, steps: seq<Step>, a: Anchor, limit: nat, m: nat, n: nat)
    requires Chronological(steps) && Anchored(start, steps, |steps|, a) && a.Tip? && m < n
    requires PageOf(steps, NthAnchor(steps, a, limit, n), limit) != []
    ensures PageOf(steps, NthAnchor(steps, a, limit, m), limit) != [] && NthAnchor(steps, a, limit, n).Older?
    ensures var x, y := NthAnchor(steps, a, limit, m), NthAnchor(steps, a, limit, n); x.Older? ==> x.before > y.before
    decreases n - m
  {
    hide Chronological, PageOf, Value, Walked, Anchored;
    var b := NthAnchor(steps, a, limit, n - 1);
    if PageOf(steps, b, limit) != [] {
      var page := PageOf(steps, b, limit);
      var p := AnchorOff(start, steps, a, limit, n - 1);
      var k := PageOff(start, steps, p, b, limit, Accumulated(steps, a, limit, n - 1), |page| - 1);
      BelowBefore(start, steps, p, WithStake(b, b.stake - Accumulated(steps, a, limit, n - 1)), k);
      if m < n - 1 {
        CursorsFall(start, steps, a, limit, m, n - 1);
      }
    }
  }

  lemma BelowBefore(start: int, steps: seq<Step>, p: nat, a: Anchor, k: nat)
    requires Chronological(steps) && Anchored(start, steps, p, a) && k < p && steps[k].Block?
    ensures a.Older? ==> steps[k].slot < a.before
  {
    if a.Older? {
      assert InOrder(steps[k], steps[p]);
    }
  }

  /** With nothing withdrawn below zero the errors only grow. */
  lemma {:induction false} AccumulatedIs(steps: seq<Step>, a: Anchor, limit: nat, n: nat)
    requires Withdraws(steps)
    ensures Accumulated(steps, a, limit, n) >= 0
    ensures Accumulated(steps, a, limit, n) == 0 <==> forall m | 0 <= m < n :: Again(steps, a, limit, m) == 0
  {
    hide Again, Withdraws;
    if n > 0 {
      AccumulatedIs(steps, a, limit, n - 1);
      AgainIs(steps, a, limit, n - 1);
    }
  }

  lemma AgainIs(steps: seq<Step>, a: Anchor, limit: nat, n: nat)
    requires Withdraws(steps)
    ensures Again(steps, a, limit, n) >= 0
  {
    hide NthAnchor, PageOf, Refetched, Withdraws;
    RefetchedIs(steps, NthAnchor(steps, a, limit, n));
  }

  lemma RefetchedIs(steps: seq<Step>, a: Anchor)
    requires Withdraws(steps)
    ensures Refetched(steps, a) >= 0
    ensures Refetched(steps, a) == 0 <==> a.Tip? || forall x <- WithdrawalRows(steps) :: x.at < a.before || x.amount == 0
  {
    hide WithdrawalRows, SumFrom, Withdraws;
    RowsPositive(steps);
    if a.Older? {
      NothingFrom(WithdrawalRows(steps), a.before);
    }
  }

  /** Of the pages that show something the last fetches again whatever one before it does. */
  lemma LastFetchesMost(start: int, steps: seq<Step>, a: Anchor, limit: nat, m: nat, n: nat)
    requires Chronological(steps) && Withdraws(steps) && Anchored(start, steps, |steps|, a) && a.Tip? && m <= n
    requires PageOf(steps, NthAnchor(steps, a, limit, n), limit) != []
    ensures Again(steps, a, limit, n) == 0 ==> Again(steps, a, limit, m) == 0
    ensures PageOf(steps, NthAnchor(steps, a, limit, m), limit) != []
  {
    hide Chronological, PageOf, Anchored, Refetched, Withdraws, WithdrawalRows, NthAnchor;
    if m < n {
      CursorsFall(start, steps, a, limit, m, n);
    }
    RefetchedIs(steps, NthAnchor(steps, a, limit, m));
    RefetchedIs(steps, NthAnchor(steps, a, limit, n));
  }

  /** All pages so far are right exactly when the last fetches nothing again. */
  lemma WalkRight(start: int, steps: seq<Step>, a: Anchor, limit: nat, n: nat)
    requires Chronological(steps) && Withdraws(steps) && Anchored(start, steps, |steps|, a) && a.Tip?
    requires PageOf(steps, NthAnchor(steps, a, limit, n), limit) != []
    ensures (forall m | 0 <= m <= n ::
               Right(start, steps, PageOf(steps, NthAnchor(steps, a, limit, m), limit), NthAnchor(steps, a, limit, m))) <==>
            Again(steps, a, limit, n) == 0
  {
    hide Chronological, PageOf, Anchored, Withdraws, Right, NthAnchor, Again, Accumulated;
    forall m | 0 <= m <= n
      ensures Right(start, steps, PageOf(steps, NthAnchor(steps, a, limit, m), limit), NthAnchor(steps, a, limit, m)) <==>
              forall j | 0 <= j <= m :: Again(steps, a, limit, j) == 0
      ensures Again(steps, a, limit, n) == 0 ==> Again(steps, a, limit, m) == 0
    {
      LastFetchesMost(start, steps, a, limit, m, n);
      NthPageRight(start, steps, a, limit, m);
      AccumulatedIs(steps, a, limit, m + 1);
    }
    if forall m | 0 <= m <= n :: Right(start, steps, PageOf(steps, NthAnchor(steps, a, limit, m), limit), NthAnchor(steps, a, limit, m)) {
      assert Right(start, steps, PageOf(steps, NthAnchor(steps, a, limit, n), limit), NthAnchor(steps, a, limit, n));
    }
  }

  /**
   * All pages of a walk from the tip up to the n-th, which shows something, are right exactly when it
   * is the first or nothing was withdrawn at or above the slot of the cursor it was fetched from.
   */
  lemma WholeWalkExact(start: int, steps: seq<Step>, a: Anchor, limit: nat, n: nat)
    requires Chronological(steps) && Withdraws(steps) && Anchored(start, steps, |steps|, a) && a.Tip?
    requires PageOf(steps, NthAnchor(steps, a, limit, n), limit) != []
    ensures n > 0 ==> NthAnchor(steps, a, limit, n).Older?
    ensures (forall m | 0 <= m <= n ::
               Right(start, steps, PageOf(steps, NthAnchor(steps, a, limit, m), limit), NthAnchor(steps, a, limit, m))) <==>
            n == 0 || forall x <- WithdrawalRows(steps) :: x.at < NthAnchor(steps, a, limit, n).before || x.amount == 0
  {
    hide Chronological, PageOf, Anchored, Refetched, Withdraws, Right, WithdrawalRows, Cursor;
    WalkRight(start, steps, a, limit, n);
    RefetchedIs(steps, NthAnchor(steps, a, limit, n));
    if n > 0 {
      CursorsFall(start, steps, a, limit, 0, n);
    }
  }
}
