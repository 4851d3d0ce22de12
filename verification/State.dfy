/**
 * The versioned chain state: a bounded history of snapshots, the feed index beside it, and the
 * steps by which the sink moves both.
 */
module State {
  import opened Wrappers
  import opened Bytes
  import opened Seqs
  import opened Ledger
  import opened Stakes
  import D = Delegations
  import H = Handles
  import S = Significance
  import opened FeedLog
  import opened Feed
  import opened Chain
  import opened KeptLog

  const MAX_HISTORY: nat := 2160
  const WINDOW: nat := 432000

  function Minus(a: nat, b: nat): nat {
    if a < b then 0 else a - b
  }

  // ---- Building blocks of one block's step ----

  method WithdrawRewards(rewards: Amounts, ws: seq<S.Withdrawal>) returns (r: Amounts)
    ensures r == Withdrawn(rewards, ws)
  {
    r := rewards;
    for i := 0 to |ws|
      invariant r == Withdrawn(rewards, ws[..i])
    {
      assert ws[..i + 1][..i] == ws[..i];
      r := r[ws[i].cred := Get(r, ws[i].cred) - ws[i].amount];
    }
    assert ws[..|ws|] == ws;
  }

  method CreditRewards(rewards: Amounts, deltas: Amounts) returns (r: Amounts)
    ensures r == AddAmounts(rewards, deltas)
  {
    hide Get, AddAmounts;
    r := rewards;
    var todo := deltas.Keys;
    NotYetCredited(rewards, deltas, todo);
    while todo != {}
      invariant todo <= deltas.Keys && r == AddAmounts(rewards, deltas - todo)
      decreases |todo|
    {
      var c :| c in todo;
      OneCredited(rewards, deltas, todo, c);
      r := r[c := Get(r, c) + deltas[c]];
      todo := todo - {c};
    }
    assert deltas - todo == deltas;
  }

  lemma NotYetCredited(rewards: Amounts, deltas: Amounts, todo: set<Bytes>)
    requires todo == deltas.Keys
    ensures AddAmounts(rewards, deltas - todo) == rewards
  {
  }

  lemma OneCredited(rewards: Amounts, deltas: Amounts, todo: set<Bytes>, c: Bytes)
    requires todo <= deltas.Keys && c in todo
    ensures var r := AddAmounts(rewards, deltas - todo);
            r[c := Get(r, c) + deltas[c]] == AddAmounts(rewards, deltas - (todo - {c}))
  {
  }

  method BuildEntries(s: Snapshot, book: D.Book, b: Block, certs: seq<DelegCert>) returns (entries: seq<DelegationEntry>)
    ensures entries == EntriesOf(s, book, b, certs)
  {
    entries := [];
    for i := 0 to |certs|
      invariant entries == EntriesOf(s, book, b, certs[..i])
    {
      assert certs[..i + 1][..i] == certs[..i];
      var c := certs[i];
      var from := if c.cred in book.delegations then Some(book.delegations[c.cred].target) else None;
      if from.Some? && c.target == from {
        continue;
      }
      var liveStake := Get(s.stakes, c.cred) + Get(s.rewards, c.cred);
      entries := entries + [DelegationEntry(b.slot, b.hash, b.number, c.txHash, c.cred, liveStake, from, c.target)];
    }
    assert certs[..|certs|] == certs;
  }

  /** The targets above their thresholds are the significant subjects. */
  lemma AboveIsSignificant(maxima: Amounts, active: map<Bytes, nat>, txs: seq<S.BlockTx>, delegations: map<Bytes, D.Delegation>)
    requires S.AreMaxima(maxima, txs, delegations)
    ensures S.Above(maxima, active) == Significant(txs, delegations, active)
  {
    hide S.MaxNetTo;
    forall t
      ensures t in S.Above(maxima, active) <==> t in Significant(txs, delegations, active)
    {
      S.AboveIs(maxima, active, txs, delegations, t);
      if t in S.Above(maxima, active) {
        S.OnlyTargets(txs, delegations, t);
      }
    }
  }

  // ---- Versions ----

  /** The k-th snapshot from the end is what the chain without its last k blocks leads to. */
  ghost predicate Versions(env: Env, base: Snapshot, chain: seq<Block>, history: seq<Snapshot>) {
    && 0 < |history| <= |chain| + 1
    && forall i | 0 <= i < |history| :: history[i] == Fold(env, base, chain[..|chain| - (|history| - 1 - i)])
  }

  function Trim(history: seq<Snapshot>): seq<Snapshot> {
    if |history| > MAX_HISTORY then history[|history| - MAX_HISTORY..] else history
  }

  lemma TrimLast(before: seq<Snapshot>, x: Snapshot, y: Snapshot)
    ensures var h := Trim(before + [x]);
            && 0 < |h| <= MAX_HISTORY && h[|h| - 1] == x && h[|h| - 1 := y] == Trim(before + [y])
  {
  }

  /** A snapshot the run starts from. */
  lemma Started(env: Env, base: Snapshot, loaded: seq<Event>)
    ensures Versions(env, base, [], [base]) && Increasing(base.slot, []) && Bounded([], [], 0)
    ensures Held(env, base, [], loaded, [], 0) == loaded == Retain(loaded + LogOf(env, base, []), EventSlot, AtLeast(0))
  {
    hide Retain;
    var chain: seq<Block> := [];
    assert chain[..0] == chain;
    RetainAll(loaded, EventSlot, AtLeast(0));
    Nil(loaded);
  }

  lemma VersionsPush(env: Env, base: Snapshot, chain: seq<Block>, history: seq<Snapshot>, b: Block, s: Snapshot)
    requires Versions(env, base, chain, history) && s == Next(env, history[|history| - 1], b)
    ensures Versions(env, base, chain + [b], Trim(history + [s]))
  {
    hide Next, Fold;
    var longer, all := chain + [b], history + [s];
    assert chain[..|chain|] == chain && longer[..|longer|] == longer;
    FoldLast(env, base, chain, b);
    forall i | 0 <= i < |all|
      ensures all[i] == Fold(env, base, longer[..|longer| - (|all| - 1 - i)])
    {
      if i < |history| {
        assert longer[..|longer| - (|all| - 1 - i)] == chain[..|chain| - (|history| - 1 - i)];
      }
    }
    var r := Trim(all);
    forall i | 0 <= i < |r|
      ensures r[i] == Fold(env, base, longer[..|longer| - (|r| - 1 - i)])
    {
      assert r[i] == all[i + (|all| - |r|)];
    }
  }

  lemma VersionsCut(env: Env, base: Snapshot, chain: seq<Block>, history: seq<Snapshot>, keep: nat)
    requires Versions(env, base, chain, history) && 0 < keep <= |history|
    ensures Versions(env, base, chain[..|chain| - (|history| - keep)], history[..keep])
  {
    hide Fold;
    var shorter := chain[..|chain| - (|history| - keep)];
    forall i | 0 <= i < keep
      ensures history[i] == Fold(env, base, shorter[..|shorter| - (keep - 1 - i)])
    {
      assert shorter[..|shorter| - (keep - 1 - i)] == chain[..|chain| - (|history| - 1 - i)];
    }
  }

  /** A retained snapshot carries the slot of the block that made it. */
  lemma VersionSlot(env: Env, base: Snapshot, chain: seq<Block>, history: seq<Snapshot>, i: nat)
    requires Versions(env, base, chain, history) && i < |history|
    ensures var n := |chain| - (|history| - 1 - i);
            history[i].slot == if n == 0 then base.slot else chain[n - 1].slot
  {
    hide Fold;
    FoldSlot(env, base, chain[..|chain| - (|history| - 1 - i)]);
  }

  /** The blocks up to a slot. */
  ghost predicate Survive(chain: seq<Block>, k: nat, slot: nat) {
    k <= |chain| && forall i | 0 <= i < |chain| :: i < k <==> chain[i].slot <= slot
  }

  lemma SurviveIs(chain: seq<Block>, k: nat, slot: nat)
    requires Survive(chain, k, slot)
    ensures k <= |chain| && forall i | 0 <= i < |chain| :: i < k <==> chain[i].slot <= slot
  {
  }

  lemma CutSurvives(env: Env, base: Snapshot, chain: seq<Block>, history: seq<Snapshot>, keep: nat, slot: nat)
    requires Versions(env, base, chain, history) && Increasing(base.slot, chain) && 0 < keep <= |history|
    requires history[keep - 1].slot <= slot && forall i | keep <= i < |history| :: history[i].slot > slot
    ensures Survive(chain, |chain| - (|history| - keep), slot) && base.slot <= slot
  {
    hide Fold;
    var k := |chain| - (|history| - keep);
    VersionSlot(env, base, chain, history, keep - 1);
    if keep < |history| {
      VersionSlot(env, base, chain, history, keep);
    }
  }

  // ---- The feed over a run ----

  /** What one more block does to an index that is the log from `floor` on: exact unless it records below the floor. */
  lemma FeedStep(log: seq<Event>, kept: seq<Event>, es: seq<Event>, slot: nat, floor: nat, boundary: nat)
    requires kept == Retain(log, EventSlot, AtLeast(floor)) && AllAt(es, slot) && boundary <= slot
    ensures Retain(kept + es, EventSlot, AtLeast(boundary)) == Retain(log + es, EventSlot, AtLeast(Larger(floor, boundary))) <==>
            es == [] || slot >= floor
  {
    hide Retain;
    var low, high := AtLeast(boundary), AtLeast(Larger(floor, boundary));
    RetainConcat(kept, es, EventSlot, low);
    RetainConcat(log, es, EventSlot, high);
    RetainTwice(log, EventSlot, AtLeast(floor), low, high);
    RetainAll(es, EventSlot, low);
    if slot >= floor {
      RetainAll(es, EventSlot, high);
    } else {
      RetainNone(es, EventSlot, high);
      Nil(Retain(log, EventSlot, high));
    }
  }

  lemma IncreasingPrefix(from: nat, chain: seq<Block>, k: nat)
    requires Increasing(from, chain) && k <= |chain|
    ensures Increasing(from, chain[..k])
  {
  }

  lemma FeedRollsBack(env: Env, base: Snapshot, chain: seq<Block>, loaded: seq<Event>, floor: nat, k: nat, slot: nat)
    requires Increasing(base.slot, chain) && Survive(chain, k, slot)
    ensures Retain(Retain(loaded + LogOf(env, base, chain), EventSlot, AtLeast(floor)), EventSlot, AtMost(slot)) ==
            Retain(Retain(loaded, EventSlot, AtMost(slot)) + LogOf(env, base, chain[..k]), EventSlot, AtLeast(floor))
  {
    hide Retain, LogOf;
    var log := LogOf(env, base, chain);
    RetainCommutes(loaded + log, EventSlot, AtLeast(floor), AtMost(slot));
    RetainConcat(loaded, log, EventSlot, AtMost(slot));
    LogCut(env, base, chain, k, slot);
  }

  /** Each block's boundary is at least its own, at most the highest, and not below a later block's. */
  ghost predicate Bounded(chain: seq<Block>, floors: seq<nat>, floor: nat) {
    && |floors| == |chain|
    && (forall i | 0 <= i < |chain| :: Minus(chain[i].slot, WINDOW) <= floors[i] <= floor)
    && (forall i, j | 0 <= i < j < |floors| :: floors[j] <= floors[i])
  }

  lemma BoundedGrows(chain: seq<Block>, floors: seq<nat>, floor: nat, b: Block)
    requires Bounded(chain, floors, floor)
    ensures var low := Minus(b.slot, WINDOW);
            Bounded(chain + [b], Raised(floors, low) + [low], Larger(floor, low))
  {
  }

  lemma BoundedCut(chain: seq<Block>, floors: seq<nat>, floor: nat, k: nat)
    requires Bounded(chain, floors, floor) && k <= |chain|
    ensures Bounded(chain[..k], floors[..k], floor)
  {
  }

  // ---- Recording a block's events ----

  method RecordMinted(feed: FeedIndex, b: Block)
    requires feed.Valid() && UpTo(feed.kept, b.slot)
    modifies feed
    ensures feed.Valid() && UpTo(feed.kept, b.slot) && feed.kept == old(feed.kept) + Minted(b)
  {
    MintedAt(b);
    if b.issuer.Some? {
      feed.AddPoolMinted(b.issuer.value, b.Ref());
    } else {
      Nil(feed.kept);
    }
  }

  method RecordRefs(feed: FeedIndex, kind: Kind, keys: set<Bytes>, b: Block)
    requires feed.Valid() && UpTo(feed.kept, b.slot) && kind != PoolMinted
    modifies feed
    ensures feed.Valid() && UpTo(feed.kept, b.slot) && feed.kept == old(feed.kept) + Recorded(kind, keys, b)
  {
    RecordedAt(kind, keys, b);
    if keys != {} {
      feed.AddRefs(kind, keys, b.Ref());
    } else {
      Nil(feed.kept);
    }
  }

  method RecordEntries(feed: FeedIndex, side: Side, entries: seq<DelegationEntry>, slot: nat)
    requires feed.Valid() && UpTo(feed.kept, slot) && forall i | 0 <= i < |entries| :: entries[i].slot == slot
    modifies feed
    ensures feed.Valid() && UpTo(feed.kept, slot) && feed.kept == old(feed.kept) + DelegEvents(side, entries)
  {
    hide *;
    ghost var was, es := feed.kept, DelegEvents(side, entries);
    Nil(was);
    for i := 0 to |entries|
      invariant feed.Valid() && UpTo(feed.kept, slot) && feed.kept == was + es[..i]
    {
      feed.AddDelegation(side, entries[i]);
      EntryRecorded(was, es, side, entries, i, slot);
    }
    assert es[..|entries|] == es;
  }

  lemma EntryRecorded(was: seq<Event>, es: seq<Event>, side: Side, entries: seq<DelegationEntry>, i: nat, slot: nat)
    requires es == DelegEvents(side, entries) && i < |entries| && entries[i].slot == slot && UpTo(was + es[..i], slot)
    ensures was + es[..i] + [Deleg(side, entries[i])] == was + es[..i + 1] && UpTo(was + es[..i + 1], slot)
  {
    assert es[..i + 1] == es[..i] + [es[i]];
    Assoc(was, es[..i], [es[i]]);
  }

  /** Everything a block records, in order. */
  method Record(feed: FeedIndex, env: Env, s: Snapshot, b: Block, g: Gathered)
    requires feed.Valid() && UpTo(feed.kept, b.slot) && Gathers(g, b.txs)
    modifies feed
    ensures feed.Valid() && feed.kept == old(feed.kept) + EventsOf(env, s, b)
  {
    hide UpTo, S.Above, Significant, S.AreMaxima, EntriesOf, Recorded, DelegEvents, Minted;
    var poolEntries := BuildEntries(s, s.pools, b, g.poolCerts);
    var drepEntries := BuildEntries(s, s.dreps, b, g.drepCerts);
    EntriesSlot(s, s.pools, b, b.Certs(PoolSide));
    EntriesSlot(s, s.dreps, b, b.Certs(DrepSide));
    var poolMax, drepMax := S.BlockMagnitudes(g.shown, s.pools.delegations, s.dreps.delegations);
    var movedPools, movedDreps := S.Above(poolMax, env.poolActive), S.Above(drepMax, env.drepActive);
    AboveIsSignificant(poolMax, env.poolActive, b.Shown(), s.pools.delegations);
    AboveIsSignificant(drepMax, env.drepActive, b.Shown(), s.dreps.delegations);
    RecordMinted(feed, b);
    RecordRefs(feed, PoolStake, movedPools, b);
    RecordEntries(feed, PoolSide, poolEntries, b.slot);
    RecordRefs(feed, DrepStake, movedDreps, b);
    RecordRefs(feed, PoolVote, g.poolVotes, b);
    RecordRefs(feed, DrepVote, g.drepVotes, b);
    RecordEntries(feed, DrepSide, drepEntries, b.slot);
    ghost var was := old(feed.kept);
    ghost var e1, e2, e3 := Minted(b), Recorded(PoolStake, movedPools, b), DelegEvents(PoolSide, poolEntries);
    ghost var e4, e5, e6 := Recorded(DrepStake, movedDreps, b), Recorded(PoolVote, b.Votes(PoolSide), b), Recorded(DrepVote, b.Votes(DrepSide), b);
    Assoc(was, e1, e2);
    Assoc(was, e1 + e2, e3);
    Assoc(was, e1 + e2 + e3, e4);
    Assoc(was, e1 + e2 + e3 + e4, e5);
    Assoc(was, e1 + e2 + e3 + e4 + e5, e6);
    Assoc(was, e1 + e2 + e3 + e4 + e5 + e6, DelegEvents(DrepSide, drepEntries));
  }

  // ---- The state ----

  class State {
    const env: Env
    var history: seq<Snapshot>
    var feed: FeedIndex

    /** The snapshot the current run started from, the surviving blocks since, and the index it started with. */
    ghost var base: Snapshot
    ghost var chain: seq<Block>
    ghost var loaded: seq<Event>
    /** The highest boundary the index was pruned to since each block was recorded, and in the whole run. */
    ghost var floors: seq<nat>
    ghost var floor: nat

    ghost predicate Valid()
      reads this, feed
    {
      && feed.Valid()
      && |history| <= MAX_HISTORY && |floors| == |chain| && Bounded(chain, floors, floor)
      && (history != [] ==>
            && Increasing(base.slot, chain) && Versions(env, base, chain, history)
            && feed.kept == Held(env, base, chain, loaded, floors, floor))
    }

    /** The index the run started with holds nothing above the snapshot it started from. */
    ghost predicate Settled()
      reads this
    {
      UpTo(loaded, base.slot)
    }

    /** The index is the log of the surviving events from the floor on. */
    ghost predicate FeedExact()
      reads this, feed
    {
      feed.kept == Retain(loaded + LogOf(env, base, chain), EventSlot, AtLeast(floor))
    }

    constructor (env: Env)
      ensures Valid() && fresh(feed) && this.env == env && history == []
    {
      this.env := env;
      history := [];
      feed := new FeedIndex();
      loaded, chain, floors, floor := [], [], [], 0;
    }

    /** The index is the whole log of surviving events from the highest boundary on exactly when no recording block was kept below it. */
    lemma ExactWhen()
      requires Valid() && history != []
      ensures FeedExact() <==> NoneBetween(env, base, chain, floors, Constant(|chain|, floor))
    {
      hide Held, LogOf, Retain, NoneBetween, FeedIndex.Valid, Versions, Increasing;
      HeldExact(env, base, chain, loaded, floors, floor);
    }

    /** Start over from a snapshot rebuilt from the database, with an empty index. */
    method Reset(rebuilt: Snapshot)
      modifies this
      ensures Valid() && Settled() && FeedExact() && fresh(feed)
      ensures history == [rebuilt] && base == rebuilt && chain == [] && loaded == [] && floors == [] && floor == 0 && feed.kept == []
    {
      hide Versions, Increasing, Bounded, Held, Retain, LogOf;
      history := [rebuilt];
      feed := new FeedIndex();
      base, chain, loaded, floors, floor := rebuilt, [], [], [], 0;
      Started(env, rebuilt, []);
    }

    /** Fold a block's changes into a new snapshot and keep at most the last 2160. */
    method ApplyBlock(b: Block, g: Gathered)
      requires history != [] && Gathers(g, b.txs)
      modifies this`history
      ensures var s := old(history)[|old(history)| - 1];
              history == Trim(old(history) + [Next(env, s, b).(handles := s.handles)])
    {
      hide ApplyIo, ApplyStakes, D.ApplyAll, D.DeltaOf, D.Live, AddAmounts, Withdrawn, H.Updated, ChangesIn, StakeChangesOf, InputsOf,
           CertsOf, WithdrawalsOf;
      var s := history[|history| - 1];
      var poolChanges, drepChanges := ChangesIn(g.poolCerts), ChangesIn(g.drepCerts);
      var books := ApplyOutputs(s.books, b.produced, g.consumed, b.slot);
      var pools := D.ApplyDelegationChanges(s.pools, poolChanges, b.slot);
      var dreps := D.ApplyDelegationChanges(s.dreps, drepChanges, b.slot);
      var stakes := ApplyStakeChanges(s.stakes, g.changes);
      var rewards := WithdrawRewards(s.rewards, g.withdrawals);
      if s.epoch.Some? && s.epoch != Some(b.epoch) && b.rewardDeltas.Some? {
        rewards := CreditRewards(rewards, b.rewardDeltas.value);
      }
      var delta := D.DelegationStakeDelta(s.pools.delegations, poolChanges, stakes, rewards);
      history := history + [Snapshot(b.slot, Some(b.epoch), pools, dreps, stakes, rewards, books, s.handles, s.totalStaked + delta)];
      if |history| > MAX_HISTORY {
        history := history[|history| - MAX_HISTORY..];
      }
    }

    /** Move and burn handles in the newest snapshot. */
    method UpdateHandles(moves: seq<H.Move>, spent: seq<string>)
      requires history != []
      modifies this`history
      ensures var n := |old(history)| - 1;
              history == old(history)[n := old(history)[n].(handles := H.Updated(old(history)[n].handles, moves, spent, env.credOf))]
    {
      hide H.Updated;
      var n := |history| - 1;
      if moves != [] || spent != [] {
        var handles := H.ApplyHandleUpdates(history[n].handles, moves, spent, env.credOf);
        history := history[n := history[n].(handles := handles)];
      } else {
        H.NothingUpdated(history[n].handles, env.credOf);
      }
    }

    /** The block's snapshot, its handles included. */
    method Store(b: Block, g: Gathered)
      requires 0 < |history| <= MAX_HISTORY && Gathers(g, b.txs)
      modifies this`history
      ensures history == Trim(old(history) + [Next(env, old(history)[|old(history)| - 1], b)])
      ensures 0 < |history| <= MAX_HISTORY
    {
      hide Next, Trim, H.Updated;
      Applied(history, history[|history| - 1], b);
      ApplyBlock(b, g);
      UpdateHandles(g.moves, g.spent);
    }

    /** One block from the source: its events, the prune, the snapshot, the handles. */
    method HandleApply(b: Block)
      requires Valid() && Settled() && history != [] && b.slot > history[|history| - 1].slot && b.Listed()
      modifies this, feed
      ensures Valid() && Settled() && feed == old(feed) && base == old(base) && loaded == old(loaded)
      ensures chain == old(chain) + [b] && history != []
      ensures history == Trim(old(history) + [Next(env, old(history)[|old(history)| - 1], b)])
      ensures floors == Raised(old(floors), Minus(b.slot, WINDOW)) + [Minus(b.slot, WINDOW)]
      ensures floor == Larger(old(floor), Minus(b.slot, WINDOW))
      ensures feed.kept == Retain(old(feed.kept) + EventsOf(env, old(history)[|old(history)| - 1], b), EventSlot, AtLeast(Minus(b.slot, WINDOW)))
      ensures old(FeedExact()) ==>
                (FeedExact() <==> EventsOf(env, old(history)[|old(history)| - 1], b) == [] || b.slot >= old(floor))
    {
      hide Versions, LogOf, Retain, Held, Bounded, Increasing, Next, EventsOf, UpTo, Fold, Trim, FeedIndex.Valid, Gathers;
      ghost var s := history[|history| - 1];
      AboutToApply(b);
      var g := CollectBlock(b.txs);
      Record(feed, env, history[|history| - 1], b, g);
      feed.Prune(Minus(b.slot, WINDOW));
      Store(b, g);
      floors := Raised(floors, Minus(b.slot, WINDOW)) + [Minus(b.slot, WINDOW)];
      floor := Larger(floor, Minus(b.slot, WINDOW));
      chain := chain + [b];
    }

    /** What the block's step rests on, stated of the state before it. */
    lemma AboutToApply(b: Block)
      requires Valid() && Settled() && history != [] && b.slot > history[|history| - 1].slot
      ensures UpTo(feed.kept, b.slot)
      ensures Increasing(base.slot, chain + [b])
      ensures Versions(env, base, chain + [b], Trim(history + [Next(env, history[|history| - 1], b)]))
      ensures history[|history| - 1] == Fold(env, base, chain)
      ensures var es, low := EventsOf(env, history[|history| - 1], b), Minus(b.slot, WINDOW);
              && Bounded(chain + [b], Raised(floors, low) + [low], Larger(floor, low))
              && Retain(feed.kept + es, EventSlot, AtLeast(low)) ==
                 Held(env, base, chain + [b], loaded, Raised(floors, low) + [low], Larger(floor, low))
              && (FeedExact() ==>
                    (Retain(feed.kept + es, EventSlot, AtLeast(low)) ==
                     Retain(loaded + LogOf(env, base, chain + [b]), EventSlot, AtLeast(Larger(floor, low)))
                     <==> es == [] || b.slot >= floor))
    {
      hide LogOf, Retain, Held, Bounded, Next, EventsOf, Fold, Trim;
      var s := history[|history| - 1];
      var es, low := EventsOf(env, s, b), Minus(b.slot, WINDOW);
      assert chain[..|chain|] == chain;
      VersionSlot(env, base, chain, history, |history| - 1);
      VersionsPush(env, base, chain, history, b, Next(env, s, b));
      BoundedGrows(chain, floors, floor, b);
      HeldUpTo(env, base, chain, loaded, floors, floor);
      UpToLater(feed.kept, s.slot, b.slot);
      HeldGrows(env, base, chain, loaded, floors, floor, b, low);
      EventsAt(env, s, b);
      LogLast(env, base, chain, b);
      Assoc(loaded, LogOf(env, base, chain), es);
      if FeedExact() {
        FeedStep(loaded + LogOf(env, base, chain), feed.kept, es, b.slot, floor, low);
      }
    }

    /** The two updates of the history make up one block's snapshot. */
    lemma Applied(before: seq<Snapshot>, s: Snapshot, b: Block)
      requires before != [] && s == before[|before| - 1] && |before| <= MAX_HISTORY
      ensures var h := Trim(before + [Next(env, s, b).(handles := s.handles)]);
              var n := |h| - 1;
              n >= 0 && h[n := h[n].(handles := H.Updated(h[n].handles, b.Moves(), b.HandlesSpent(), env.credOf))] ==
              Trim(before + [Next(env, s, b)])
      ensures |Trim(before + [Next(env, s, b)])| <= MAX_HISTORY
    {
      hide Next, Trim, H.Updated;
      NextHandles(env, s, b);
      TrimLast(before, Next(env, s, b).(handles := s.handles), Next(env, s, b));
    }

    /** The snapshot `depth` blocks behind the tip, or the oldest, with a copy of the index. */
    method CloneForSave(depth: nat) returns (snap: Snapshot, index: FeedIndex)
      requires Valid() && history != [] && depth >= 1
      ensures snap == history[Minus(|history|, depth)]
      ensures fresh(index) && index.Valid() && index.kept == feed.kept
    {
      snap := history[Minus(|history|, depth)];
      index := new FeedIndex.Copy(feed);
    }

    /** Go on from a loaded snapshot, whose derived stake index is built anew, and a loaded feed index. */
    method Restore(snapshot: Snapshot, index: FeedIndex)
      requires index.Valid() && H.Exact(snapshot.handles.byAddress, H.AddressOwner(snapshot.handles.byHandle))
      modifies this
      ensures Valid() && FeedExact() && feed == index
      ensures history == [base] && chain == [] && loaded == index.kept && floors == [] && floor == 0
      ensures base == snapshot.(handles := snapshot.handles.(byStake := base.handles.byStake))
      ensures H.Exact(base.handles.byStake, H.StakeOwner(snapshot.handles.byHandle, env.credOf))
    {
      hide Versions, Increasing, Bounded, Held, LogOf, FeedIndex.Valid, Retain, H.Exact;
      var byStake := H.BuildHandleByStake(snapshot.handles.byAddress, snapshot.handles.byHandle, env.credOf);
      feed := index;
      base, chain, loaded, floors, floor := snapshot.(handles := snapshot.handles.(byStake := byStake)), [], index.kept, [], 0;
      history := [snapshot.(handles := snapshot.handles.(byStake := byStake))];
      Started(env, base, loaded);
    }

    /** Drop every snapshot above the slot; false when none is left. */
    method Rollback(slot: nat) returns (ok: bool)
      requires Valid()
      modifies this, feed
      ensures Valid() && feed == old(feed) && base == old(base) && floor == old(floor)
      ensures ok <==> exists i | 0 <= i < |old(history)| :: old(history)[i].slot <= slot
      ensures ok <==> history != []
      ensures |history| <= |old(history)| && history == old(history)[..|history|]
      ensures feed.kept == Retain(old(feed.kept), EventSlot, AtMost(slot))
      ensures loaded == Retain(old(loaded), EventSlot, AtMost(slot))
      ensures ok ==> Survive(old(chain), |chain|, slot) && chain == old(chain)[..|chain|] && floors == old(floors)[..|chain|]
      ensures ok ==> |old(chain)| - |chain| == |old(history)| - |history|
      ensures ok && old(FeedExact()) ==> FeedExact()
      ensures ok && (old(Settled()) || slot == base.slot) ==> Settled()
    {
      hide Versions, LogOf, Retain, Held, Bounded, Increasing, Survive, FeedIndex.Valid, UpTo;
      var keep := |history|;
      while keep > 0 && history[keep - 1].slot > slot
        invariant 0 <= keep <= |history|
        invariant forall i | keep <= i < |history| :: history[i].slot > slot
      {
        keep := keep - 1;
      }
      if keep > 0 {
        AfterRollback(keep, slot);
        floors := floors[..|chain| - (|history| - keep)];
        chain := chain[..|chain| - (|history| - keep)];
      }
      history := history[..keep];
      loaded := Retain(loaded, EventSlot, AtMost(slot));
      feed.Rollback(slot);
      return keep > 0;
    }

    /** A rollback from the source; one that reaches below the history starts over from the database. */
    method HandleReset(slot: nat, rebuilt: Snapshot)
      requires Valid() && Settled()
      modifies this, feed
      ensures Valid() && Settled() && history != [] && (feed == old(feed) || fresh(feed))
      ensures old(FeedExact()) ==> FeedExact()
      ensures if exists i | 0 <= i < |old(history)| :: old(history)[i].slot <= slot
              then && base == old(base) && Survive(old(chain), |chain|, slot) && chain == old(chain)[..|chain|]
                   && |old(chain)| - |chain| == |old(history)| - |history| && history == old(history)[..|history|]
                   && loaded == Retain(old(loaded), EventSlot, AtMost(slot)) && floors == old(floors)[..|chain|] && floor == old(floor)
              else history == [rebuilt] && base == rebuilt && chain == [] && loaded == [] && floors == [] && floor == 0
    {
      hide Versions, LogOf, Retain, Held, Bounded, Increasing, Survive, FeedIndex.Valid, UpTo;
      var ok := Rollback(slot);
      if !ok {
        Reset(rebuilt);
      }
    }

    lemma AfterRollback(keep: nat, slot: nat)
      requires Valid() && 0 < keep <= |history| && history[keep - 1].slot <= slot
      requires forall i | keep <= i < |history| :: history[i].slot > slot
      ensures |history| - keep <= |chain|
      ensures var k := |chain| - (|history| - keep);
              var shorter := chain[..k];
              && Increasing(base.slot, shorter) && Versions(env, base, shorter, history[..keep]) && Bounded(shorter, floors[..k], floor)
              && Survive(chain, |shorter|, slot) && base.slot <= slot
              && Retain(feed.kept, EventSlot, AtMost(slot)) ==
                 Held(env, base, shorter, Retain(loaded, EventSlot, AtMost(slot)), floors[..k], floor)
              && (FeedExact() ==> Retain(feed.kept, EventSlot, AtMost(slot)) ==
                                  Retain(Retain(loaded, EventSlot, AtMost(slot)) + LogOf(env, base, shorter), EventSlot, AtLeast(floor)))
      ensures UpTo(loaded, base.slot) || slot == base.slot ==> UpTo(Retain(loaded, EventSlot, AtMost(slot)), base.slot)
    {
      hide LogOf, Retain, Held, Bounded, Increasing, Survive, Fold, UpTo;
      var k := |chain| - (|history| - keep);
      CutSurvives(env, base, chain, history, keep, slot);
      VersionsCut(env, base, chain, history, keep);
      IncreasingPrefix(base.slot, chain, k);
      BoundedCut(chain, floors, floor, k);
      FeedRollsBack(env, base, chain, loaded, floor, k, slot);
      SurviveIs(chain, k, slot);
      HeldRollsBack(env, base, chain, loaded, floors, floor, k, slot);
      if UpTo(loaded, base.slot) || slot == base.slot {
        RetainUpTo(loaded, AtMost(slot), base.slot);
      }
    }
  }
}
