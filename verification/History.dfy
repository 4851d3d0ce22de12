/**
 * A credential's history along a chain of blocks, as the backward walk reads it: rewards as epochs are
 * entered, blocks of its feed, and withdrawals elsewhere. Its value at every point is the live stake of
 * the snapshot there.
 */
module History {
  import opened Wrappers
  import opened Bytes
  import opened Ledger
  import opened Unspent
  import opened Stakes
  import D = Delegations
  import B = BackwardWalk
  import opened Chain

  /** What a block's transactions bring a credential, less what they take. */
  function Moved(b: Block, c: Bytes): int {
    ListTotal(Gather(b.txs, Produces()), StakeAt(c)) - ListTotal(Gather(b.txs, Consumes()), StakeAt(c))
  }

  function Taken(b: Block, c: Bytes): int {
    WithdrawnBy(Gather(b.txs, Claims()), c)
  }

  /** The epoch a chain has come to. */
  function EpochOf(epoch: nat, chain: seq<Block>): nat {
    if chain == [] then epoch else chain[|chain| - 1].epoch
  }

  /** What the last block of a chain credits to the credential as it enters its epoch. */
  function Credited(epoch: nat, chain: seq<Block>, c: Bytes, answer: int -> Amounts): seq<B.Step> {
    if chain == [] || chain[|chain| - 1].epoch == EpochOf(epoch, chain[..|chain| - 1]) then []
    else [B.Reward(chain[|chain| - 1].epoch, Get(answer(chain[|chain| - 1].epoch), c))]
  }

  function BlockStep(b: Block, c: Bytes, listed: Block -> bool): B.Step {
    if listed(b) then B.Block(b.slot, b.epoch, Moved(b, c) - Taken(b, c), Taken(b, c)) else B.Withdrawal(b.slot, Taken(b, c))
  }

  /** The credential's history, `listed` being the blocks of its feed. */
  function StepsOf(epoch: nat, chain: seq<Block>, c: Bytes, answer: int -> Amounts, listed: Block -> bool): seq<B.Step> {
    if chain == [] then []
    else
      StepsOf(epoch, chain[..|chain| - 1], c, answer, listed) + Credited(epoch, chain, c, answer) + [BlockStep(chain[|chain| - 1], c, listed)]
  }

  /** A block that is not of the feed moves nothing of the credential but withdrawals. */
  predicate FeedComplete(chain: seq<Block>, c: Bytes, listed: Block -> bool) {
    forall b <- chain :: !listed(b) ==> Moved(b, c) == 0
  }

  function StakeOf(s: Snapshot, c: Bytes): int {
    D.Live(s.stakes, s.rewards)(c)
  }

  lemma NextStake(env: Env, s: Snapshot, b: Block, c: Bytes)
    ensures Get(Next(env, s, b).stakes, c) == Get(s.stakes, c) + Moved(b, c) && Next(env, s, b).rewards == RewardsAfter(s, b)
  {
    hide ApplyStakes, StakeChangesOf, ListTotal, Gather, InputsOf, OutputsOf, D.ApplyAll, ApplyIo, H.Updated, RewardsAfter;
    ApplyStakesGet(s.stakes, StakeChangesOf(b.txs), c);
    DeltasAreNet(b.txs, c);
    SumsDeclared(b.txs);
  }

  lemma NextReward(s: Snapshot, b: Block, c: Bytes, answer: int -> Amounts)
    requires s.epoch.Some? && b.rewardDeltas == Some(answer(b.epoch))
    ensures Get(RewardsAfter(s, b), c) ==
            Get(s.rewards, c) - Taken(b, c) + (if s.epoch == Some(b.epoch) then 0 else Get(answer(b.epoch), c))
  {
    hide Gather, Withdrawn, AddAmounts;
    SumsDeclared(b.txs);
    WithdrawnGet(s.rewards, b.Withdrawals(), c);
    AddedGet(Withdrawn(s.rewards, b.Withdrawals()), answer(b.epoch), c);
  }

  lemma ValueMore(start: int, steps: seq<B.Step>, credited: seq<B.Step>, x: B.Step)
    requires |credited| <= 1
    ensures B.Value(start, steps + credited) == B.Value(start, steps) + (if credited == [] then 0 else B.Change(credited[0]))
    ensures B.Value(start, steps + credited + [x]) == B.Value(start, steps + credited) + B.Change(x)
  {
    assert (steps + credited + [x])[..|steps + credited|] == steps + credited;
    if credited == [] {
      assert steps + credited == steps;
    } else {
      assert (steps + credited)[..|steps|] == steps;
    }
  }

  /** One block more. */
  lemma StakeStep(env: Env, s: Snapshot, b: Block, c: Bytes, answer: int -> Amounts, listed: Block -> bool)
    requires s.epoch.Some? && b.rewardDeltas == Some(answer(b.epoch)) && (!listed(b) ==> Moved(b, c) == 0)
    ensures StakeOf(Next(env, s, b), c) ==
            StakeOf(s, c) + B.Change(BlockStep(b, c, listed)) + (if s.epoch == Some(b.epoch) then 0 else Get(answer(b.epoch), c))
    ensures Next(env, s, b).epoch == Some(b.epoch)
  {
    hide Next, Moved, Taken, RewardsAfter;
    NextStake(env, s, b, c);
    NextRewards(env, s, b);
    NextReward(s, b, c, answer);
  }

  lemma AnsweredPrefix(base: Snapshot, chain: seq<Block>, k: nat, c: Bytes, answer: int -> Amounts, listed: Block -> bool)
    requires Answered(base, chain, answer) && FeedComplete(chain, c, listed) && k <= |chain|
    ensures Answered(base, chain[..k], answer) && FeedComplete(chain[..k], c, listed)
    ensures k < |chain| ==> chain[k].rewardDeltas == Some(answer(chain[k].epoch)) && (!listed(chain[k]) ==> Moved(chain[k], c) == 0)
  {
    hide Moved;
    assert forall x <- chain[..k] :: x in chain;
    assert k < |chain| ==> chain[k] in chain;
  }

  /** The value of the history is the live stake of the snapshot the chain leads to. */
  lemma {:induction false} HistoryIsStake(env: Env, base: Snapshot, chain: seq<Block>, c: Bytes, answer: int -> Amounts, listed: Block -> bool)
    requires Answered(base, chain, answer) && FeedComplete(chain, c, listed)
    ensures B.Value(StakeOf(base, c), StepsOf(base.epoch.value, chain, c, answer, listed)) == StakeOf(Fold(env, base, chain), c)
    ensures Fold(env, base, chain).epoch == Some(EpochOf(base.epoch.value, chain))
  {
    hide Next, StakeOf, Moved, BlockStep, B.Value, B.Change, Answered, FeedComplete;
    KnownEpoch(base, chain, answer);
    if chain == [] {
      NoHistory(StakeOf(base, c));
    } else {
      var n := |chain| - 1;
      AnsweredPrefix(base, chain, n, c, answer, listed);
      HistoryIsStake(env, base, chain[..n], c, answer, listed);
      StakeStep(env, Fold(env, base, chain[..n]), chain[n], c, answer, listed);
      ValueMore(StakeOf(base, c), StepsOf(base.epoch.value, chain[..n], c, answer, listed), Credited(base.epoch.value, chain, c, answer),
                BlockStep(chain[n], c, listed));
      CreditChange(base.epoch.value, chain, c, answer);
    }
  }

  lemma KnownEpoch(base: Snapshot, chain: seq<Block>, answer: int -> Amounts)
    requires Answered(base, chain, answer)
    ensures base.epoch.Some?
  {
  }

  lemma CreditChange(epoch: nat, chain: seq<Block>, c: Bytes, answer: int -> Amounts)
    requires chain != []
    ensures var n, credited := |chain| - 1, Credited(epoch, chain, c, answer);
            && |credited| <= 1
            && (if credited == [] then 0 else B.Change(credited[0])) ==
               (if chain[n].epoch == EpochOf(epoch, chain[..n]) then 0 else Get(answer(chain[n].epoch), c))
  {
  }

  lemma NoHistory(start: int)
    ensures B.Value(start, []) == start
  {
  }

  // ---- The order of the history ----

  /** Nothing in the history lies above a slot or an epoch. */
  predicate UpTo(steps: seq<B.Step>, slot: nat, epoch: nat) {
    forall x <- steps :: (x.Block? ==> x.slot <= slot && x.epoch <= epoch) && (x.Withdrawal? ==> x.slot <= slot) && (x.Reward? ==> x.epoch <= epoch)
  }

  lemma UpToMore(steps: seq<B.Step>, credited: seq<B.Step>, x: B.Step, slot: nat, epoch: nat, slot': nat, epoch': nat)
    requires UpTo(steps, slot, epoch) && slot <= slot' && epoch <= epoch' && UpTo(credited, slot', epoch') && UpTo([x], slot', epoch')
    ensures UpTo(steps + credited + [x], slot', epoch')
  {
    assert x in [x];
  }

  lemma LastUpTo(epoch: nat, chain: seq<Block>, c: Bytes, answer: int -> Amounts, listed: Block -> bool)
    requires chain != []
    ensures var b := chain[|chain| - 1];
            UpTo(Credited(epoch, chain, c, answer), b.slot, b.epoch) && UpTo([BlockStep(b, c, listed)], b.slot, b.epoch)
  {
  }

  lemma {:induction false} StepsBounded(base: Snapshot, chain: seq<Block>, c: Bytes, answer: int -> Amounts, listed: Block -> bool)
    requires Answered(base, chain, answer) && Increasing(base.slot, chain)
    ensures UpTo(StepsOf(base.epoch.value, chain, c, answer, listed), if chain == [] then base.slot else chain[|chain| - 1].slot,
                 EpochOf(base.epoch.value, chain))
  {
    hide UpTo, BlockStep, Credited;
    if chain == [] {
      NothingAbove(base.slot, base.epoch.value);
    } else {
      var n := |chain| - 1;
      StepsBounded(base, chain[..n], c, answer, listed);
      LastUpTo(base.epoch.value, chain, c, answer, listed);
      UpToMore(StepsOf(base.epoch.value, chain[..n], c, answer, listed), Credited(base.epoch.value, chain, c, answer),
               BlockStep(chain[n], c, listed), if n == 0 then base.slot else chain[n - 1].slot, EpochOf(base.epoch.value, chain[..n]),
               chain[n].slot, chain[n].epoch);
    }
  }

  lemma NothingAbove(slot: nat, epoch: nat)
    ensures UpTo([], slot, epoch)
  {
  }

  lemma OneMoreInOrder(steps: seq<B.Step>, credited: seq<B.Step>, x: B.Step, slot: nat, epoch: nat, slot': nat, epoch': nat)
    requires B.Chronological(steps) && UpTo(steps, slot, epoch) && slot < slot' && epoch <= epoch'
    requires credited == [] || (|credited| == 1 && credited[0].Reward? && credited[0].epoch == epoch' && epoch < epoch')
    requires (x.Block? && x.slot == slot' && x.epoch == epoch') || (x.Withdrawal? && x.slot == slot')
    ensures B.Chronological(steps + credited + [x])
  {
    var all := steps + credited + [x];
    forall i, j | 0 <= i < j < |all|
      ensures B.InOrder(all[i], all[j])
    {
      if i < |steps| {
        assert steps[i] in steps && all[i] == steps[i];
      }
    }
  }

  /** The history is chronological. */
  lemma {:induction false} HistoryInOrder(base: Snapshot, chain: seq<Block>, c: Bytes, answer: int -> Amounts, listed: Block -> bool)
    requires Answered(base, chain, answer) && Increasing(base.slot, chain)
    ensures B.Chronological(StepsOf(base.epoch.value, chain, c, answer, listed))
  {
    hide Moved, Taken, B.InOrder, UpTo;
    if chain != [] {
      var n := |chain| - 1;
      HistoryInOrder(base, chain[..n], c, answer, listed);
      StepsBounded(base, chain[..n], c, answer, listed);
      OneMoreInOrder(StepsOf(base.epoch.value, chain[..n], c, answer, listed), Credited(base.epoch.value, chain, c, answer),
                     BlockStep(chain[n], c, listed), if n == 0 then base.slot else chain[n - 1].slot, EpochOf(base.epoch.value, chain[..n]),
                     chain[n].slot, chain[n].epoch);
    }
  }

  // ---- What a first page shows ----

  lemma {:induction false} StepsPrefix(epoch: nat, chain: seq<Block>, k: nat, c: Bytes, answer: int -> Amounts, listed: Block -> bool)
    requires k < |chain|
    ensures var before := StepsOf(epoch, chain[..k], c, answer, listed) + Credited(epoch, chain[..k + 1], c, answer);
            before + [BlockStep(chain[k], c, listed)] <= StepsOf(epoch, chain, c, answer, listed)
  {
    hide BlockStep, Credited;
    var n := |chain| - 1;
    if k < n {
      StepsPrefix(epoch, chain[..n], k, c, answer, listed);
      assert chain[..n][..k] == chain[..k] && chain[..n][..k + 1] == chain[..k + 1];
    } else {
      assert chain[..k + 1] == chain;
    }
  }

  /** What block `k` credits to the credential as it enters its epoch. */
  function CreditedAt(base: Snapshot, chain: seq<Block>, k: nat, c: Bytes, answer: int -> Amounts): int
    requires base.epoch.Some? && k < |chain|
  {
    if chain[k].epoch == EpochOf(base.epoch.value, chain[..k]) then 0 else Get(answer(chain[k].epoch), c)
  }

  lemma AnchoredNow(env: Env, base: Snapshot, chain: seq<Block>, c: Bytes, answer: int -> Amounts, listed: Block -> bool)
    requires Answered(base, chain, answer) && Increasing(base.slot, chain) && FeedComplete(chain, c, listed)
    ensures var steps := StepsOf(base.epoch.value, chain, c, answer, listed);
            && B.Chronological(steps)
            && B.Anchored(StakeOf(base, c), steps, |steps|, B.Tip(StakeOf(Fold(env, base, chain), c), EpochOf(base.epoch.value, chain)))
  {
    hide Fold, StakeOf, Moved, Taken, StepsOf, B.Chronological, B.Value, Increasing, Answered, FeedComplete;
    KnownEpoch(base, chain, answer);
    var steps := StepsOf(base.epoch.value, chain, c, answer, listed);
    HistoryInOrder(base, chain, c, answer, listed);
    HistoryIsStake(env, base, chain, c, answer, listed);
    StepsBounded(base, chain, c, answer, listed);
    assert steps[..|steps|] == steps;
  }

  /** The history up to a block is the snapshot before it, with what the block credits. */
  lemma BeforeBlock(env: Env, base: Snapshot, chain: seq<Block>, c: Bytes, answer: int -> Amounts, listed: Block -> bool, k: nat)
    returns (at: nat)
    requires Answered(base, chain, answer) && FeedComplete(chain, c, listed) && k < |chain|
    ensures var steps := StepsOf(base.epoch.value, chain, c, answer, listed);
            && at < |steps| && steps[at] == BlockStep(chain[k], c, listed)
            && B.Value(StakeOf(base, c), steps[..at]) == StakeOf(Fold(env, base, chain[..k]), c) + CreditedAt(base, chain, k, c, answer)
  {
    hide Fold, StakeOf, Moved, Taken, StepsOf, B.Value, Answered, FeedComplete, BlockStep;
    KnownEpoch(base, chain, answer);
    var epoch := base.epoch.value;
    var steps := StepsOf(epoch, chain, c, answer, listed);
    StepsPrefix(epoch, chain, k, c, answer, listed);
    var past, credited := StepsOf(epoch, chain[..k], c, answer, listed), Credited(epoch, chain[..k + 1], c, answer);
    at := |past + credited|;
    assert (past + credited + [BlockStep(chain[k], c, listed)])[at] == BlockStep(chain[k], c, listed);
    assert steps[..at] == past + credited;
    AnsweredPrefix(base, chain, k, c, answer, listed);
    HistoryIsStake(env, base, chain[..k], c, answer, listed);
    assert chain[..k + 1][..k] == chain[..k] && chain[..k + 1][k] == chain[k];
    CreditChange(epoch, chain[..k + 1], c, answer);
    ValueMore(StakeOf(base, c), past, credited, BlockStep(chain[k], c, listed));
  }

  /**
   * Walked back from the current snapshot, every block of a first page gets the live stake of the snapshot
   * before it, with the rewards that block credits.
   */
  lemma FirstPageIsStake(env: Env, base: Snapshot, chain: seq<Block>, c: Bytes, answer: int -> Amounts, listed: Block -> bool, limit: nat,
                         i: nat, k: nat)
    requires Answered(base, chain, answer) && Increasing(base.slot, chain) && FeedComplete(chain, c, listed)
    requires var page := B.Newest(B.BlocksIn(StepsOf(base.epoch.value, chain, c, answer, listed)), limit);
             i < |page| && page[i].Block? && k < |chain| && page[i] == BlockStep(chain[k], c, listed)
    ensures var steps := StepsOf(base.epoch.value, chain, c, answer, listed);
            var now := B.Tip(StakeOf(Fold(env, base, chain), c), EpochOf(base.epoch.value, chain));
            B.Walked(steps, B.Newest(B.BlocksIn(steps), limit), now, i) ==
            StakeOf(Fold(env, base, chain[..k]), c) + CreditedAt(base, chain, k, c, answer)
  {
    hide Fold, StakeOf, StepsOf, B.Chronological, B.Walked, B.Value, B.Newest, B.BlocksIn, Increasing, Answered, FeedComplete, BlockStep,
         B.Anchored, CreditedAt, EpochOf;
    KnownEpoch(base, chain, answer);
    var steps := StepsOf(base.epoch.value, chain, c, answer, listed);
    var now := B.Tip(StakeOf(Fold(env, base, chain), c), EpochOf(base.epoch.value, chain));
    AnchoredNow(env, base, chain, c, answer, listed);
    AllBlocks(B.BlocksIn(steps), now);
    var at := BeforeBlock(env, base, chain, c, answer, listed, k);
    B.PageValue(StakeOf(base, c), steps, |steps|, now, limit, i, at);
  }

  lemma AllBlocks(blocks: seq<B.Step>, a: B.Anchor)
    requires a.Tip?
    ensures B.BlocksBefore(blocks, a) == blocks
  {
  }
}
