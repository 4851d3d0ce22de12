/**
 * What every snapshot of a run agrees with: the unspent outputs, the mint slots and the
 * certificate histories it speeds up, whatever the order in which the outputs of a block are listed.
 */
module Reachable {
  import opened Bytes
  import opened HeldLeaf
  import opened FeedLog
  import opened Ledger
  import opened Unspent
  import opened Stakes
  import opened Rules
  import Sums
  import D = Delegations
  import H = Handles
  import R = RunStarts
  import opened Chain

  /** The unspent outputs, the slot each outstanding asset was minted in, and all certificates so far. */
  datatype Truth = Truth(utxo: Utxo, mint: Bytes -> nat, poolCerts: seq<R.Cert>, drepCerts: seq<R.Cert>)

  /** Every entry of the book is what the run-start query answers for the certificates. */
  ghost predicate Dated(book: D.Book, certs: seq<R.Cert>, slot: nat) {
    && R.Chronological(certs) && (forall i | 0 <= i < |certs| :: certs[i].slot <= slot)
    && forall cred :: R.Agrees(book.delegations, cred, R.Rows(certs, cred))
  }

  ghost predicate Sound(env: Env, s: Snapshot, t: Truth) {
    && Shows(s.books, t.utxo) && AllPositive(t.utxo) && StakesShow(s.stakes, t.utxo)
    && D.Inverse(s.pools) && D.Inverse(s.dreps)
    && Dated(s.pools, t.poolCerts, s.slot) && Dated(s.dreps, t.drepCerts, s.slot)
    && H.Consistent(s.handles, env.credOf)
  }

  /** What the ledger guarantees of a block's transactions, one after the other; the outputs are listed in any order. */
  ghost predicate Proper(s: Snapshot, t: Truth, b: Block) {
    b.Listed() && s.slot < b.slot && Lawful(t.utxo, b.txs) && Fits(AddAll(t.utxo, Gather(b.txs, Produces())))
  }

  ghost function Follow(s: Snapshot, t: Truth, b: Block): Truth {
    Truth(UtxoAfter(t.utxo, b.txs), NextMint(s.books.holdings, t.mint, b.slot),
          t.poolCerts + R.CertsOf(Declared(b.txs, PoolSide), b.slot), t.drepCerts + R.CertsOf(Declared(b.txs, DrepSide), b.slot))
  }

  lemma ListedSame(s: Snapshot, t: Truth, b: Block)
    requires Proper(s, t, b)
    ensures ValidIo(t.utxo, OutputsOf(b.txs), InputsOf(b.txs)) && ValidIo(t.utxo, b.produced, InputsOf(b.txs))
    ensures UtxoAfter(t.utxo, b.txs) == NextUtxo(t.utxo, OutputsOf(b.txs), InputsOf(b.txs)) == NextUtxo(t.utxo, b.produced, InputsOf(b.txs))
  {
    hide Fits, Positive, NextUtxo, OutputsOf, InputsOf, UtxoAfter, Lawful;
    SumsDeclared(b.txs);
    LawfulIsValid(t.utxo, b.txs);
    AddAllHas(map[], OutputsOf(b.txs));
    forall io
      ensures io in b.produced <==> io in OutputsOf(b.txs)
    {
      assert Io(io.ref, io.output) == io;
    }
    Relisted(t.utxo, OutputsOf(b.txs), b.produced, InputsOf(b.txs));
  }

  /** The same outputs listed in another order. */
  lemma Relisted(utxo: Utxo, p: seq<Io>, p': seq<Io>, c: seq<Io>)
    requires ValidIo(utxo, p, c) && DistinctRefs(p') && forall io :: io in p <==> io in p'
    ensures ValidIo(utxo, p', c) && NextUtxo(utxo, p', c) == NextUtxo(utxo, p, c)
  {
    hide Fits, Positive;
    assert forall i | 0 <= i < |p'| :: p'[i] in p;
    AddAllHas(utxo, p);
    AddAllHas(utxo, p');
    AddAllKeys(utxo, p);
    AddAllKeys(utxo, p');
    var a, a' := AddAll(utxo, p), AddAll(utxo, p');
    assert RefsOf(p) == RefsOf(p');
    forall r <- a
      ensures a[r] == a'[r]
    {
      assert Io(r, a[r]) in p || (r in utxo && utxo[r] == a[r]);
    }
    assert a == a';
  }

  lemma DatedNext(book: D.Book, certs: seq<R.Cert>, before: nat, changes: seq<D.Change>, slot: nat)
    requires Dated(book, certs, before) && before < slot
    ensures Dated(D.ApplyAll(book, changes, slot), certs + R.CertsOf(changes, slot), slot)
  {
    hide R.Agrees;
    var more := R.CertsOf(changes, slot);
    assert R.Chronological(certs + more);
    R.BlockAsCerts(book, [], changes, slot);
    assert [] + more == more;
    assert R.ApplyCerts(book, []) == book;
    forall cred
      ensures R.Agrees(D.ApplyAll(book, changes, slot).delegations, cred, R.Rows(certs + more, cred))
    {
      R.RunStartKept(book, certs, more, cred);
    }
  }

  lemma BlockKeeps(env: Env, s: Snapshot, t: Truth, b: Block)
    requires Sound(env, s, t) && Proper(s, t, b)
    ensures Sound(env, Next(env, s, b), Follow(s, t, b))
  {
    hide Shows, AllPositive, StakesShow, D.Inverse, Dated, H.Consistent, ValidIo,
         RewardsAfter, H.Updated, ApplyIo, ApplyStakes, D.ApplyAll, D.DeltaOf, NextUtxo, UtxoAfter, Lawful, NextMint, Declared, ChangesIn;
    var consumed := InputsOf(b.txs);
    ListedSame(s, t, b);
    CertsDeclared(b.txs, PoolSide);
    CertsDeclared(b.txs, DrepSide);
    BlockShows(s.books, t.utxo, b.produced, consumed, b.slot);
    StakesFollow(s.stakes, t.utxo, b.txs);
    D.ChangesKeepInverse(s.pools, ChangesIn(b.Certs(PoolSide)), b.slot);
    D.ChangesKeepInverse(s.dreps, ChangesIn(b.Certs(DrepSide)), b.slot);
    DatedNext(s.pools, t.poolCerts, s.slot, ChangesIn(b.Certs(PoolSide)), b.slot);
    DatedNext(s.dreps, t.drepCerts, s.slot, ChangesIn(b.Certs(DrepSide)), b.slot);
    H.UpdatesKeep(s.handles, b.Moves(), b.HandlesSpent(), env.credOf);
  }

  // ---- Runs ----

  ghost function After(env: Env, base: Snapshot, t: Truth, chain: seq<Block>): Truth {
    if chain == [] then t
    else
      var init := chain[..|chain| - 1];
      Follow(Fold(env, base, init), After(env, base, t, init), chain[|chain| - 1])
  }

  ghost predicate ProperRun(env: Env, base: Snapshot, t: Truth, chain: seq<Block>) {
    chain != [] ==>
      var init := chain[..|chain| - 1];
      ProperRun(env, base, t, init) && Proper(Fold(env, base, init), After(env, base, t, init), chain[|chain| - 1])
  }

  /** Every snapshot a run of blocks reaches is sound. */
  lemma {:induction false} EverySnapshotSound(env: Env, base: Snapshot, t: Truth, chain: seq<Block>)
    requires Sound(env, base, t) && ProperRun(env, base, t, chain)
    ensures Sound(env, Fold(env, base, chain), After(env, base, t, chain))
  {
    hide Sound, Proper, Next, Follow;
    if chain != [] {
      var n := |chain| - 1;
      EverySnapshotSound(env, base, t, chain[..n]);
      BlockKeeps(env, Fold(env, base, chain[..n]), After(env, base, t, chain[..n]), chain[n]);
    }
  }

  /** In a sound snapshot pool stakes add up to the delegated stake, and a credential's stake to its addresses' balances. */
  lemma SoundAddsUp(env: Env, s: Snapshot, t: Truth, c: Bytes)
    requires Sound(env, s, t)
    ensures Sums.Sum(s.pools.delegators.Keys, D.PoolTotal(s.pools, D.Live(s.stakes, s.rewards))) == D.SumDelegated(s.pools, s.stakes, s.rewards)
    ensures Get(s.stakes, c) == Sums.Sum(AddressesOf(s.books.balances, c), (a: Bytes) => Get(s.books.balances, a))
  {
    hide Dated, H.Consistent;
    D.PoolStakesAddUp(s.pools, s.stakes, s.rewards);
    StakeIsBalanceSum(s.stakes, s.books.balances, t.utxo, c);
  }

  /**
   * The live stake of a credential after a run: its unspent lovelace, and its rewards before the run, less
   * what it withdrew, and with the rewards of every epoch entered once.
   */
  lemma LiveStakeIs(env: Env, base: Snapshot, t: Truth, chain: seq<Block>, answer: int -> Amounts, c: Bytes)
    requires Sound(env, base, t) && ProperRun(env, base, t, chain) && Answered(base, chain, answer)
    ensures var s := Fold(env, base, chain);
            D.Live(s.stakes, s.rewards)(c) ==
            Total(After(env, base, t, chain).utxo, StakeAt(c)) + Get(base.rewards, c) - WithdrawnIn(chain, c) +
            Sums.Sum(EpochsEntered(base, chain), (e: int) => Get(answer(e), c))
  {
    hide Fold, After, WithdrawnIn, EpochsEntered, ProperRun, Answered, Total, D.Inverse, Dated, H.Consistent, Shows, AllPositive;
    EverySnapshotSound(env, base, t, chain);
    RewardsOnce(env, base, chain, answer, c);
  }

  /** The same block with its outputs listed in another order. */
  ghost predicate Reordered(b: Block, b': Block) {
    b' == b.(produced := b'.produced)
  }

  /** The order in which a block's outputs are listed leaves no trace in any later snapshot. */
  lemma {:induction false} ListingIrrelevant(env: Env, base: Snapshot, t: Truth, chain: seq<Block>, chain': seq<Block>)
    requires Sound(env, base, t) && ProperRun(env, base, t, chain) && ProperRun(env, base, t, chain')
    requires |chain| == |chain'| && forall i | 0 <= i < |chain| :: Reordered(chain[i], chain'[i])
    ensures Fold(env, base, chain) == Fold(env, base, chain')
    ensures After(env, base, t, chain) == After(env, base, t, chain')
  {
    hide Sound, Next, Follow, Proper;
    if chain != [] {
      var n := |chain| - 1;
      ListingIrrelevant(env, base, t, chain[..n], chain'[..n]);
      EverySnapshotSound(env, base, t, chain[..n]);
      OneReordered(env, Fold(env, base, chain[..n]), After(env, base, t, chain[..n]), chain[n], chain'[n]);
    }
  }

  lemma OneReordered(env: Env, s: Snapshot, t: Truth, b: Block, b': Block)
    requires Sound(env, s, t) && Proper(s, t, b) && Proper(s, t, b') && Reordered(b, b')
    ensures Next(env, s, b) == Next(env, s, b') && Follow(s, t, b) == Follow(s, t, b')
  {
    hide Shows, AllPositive, StakesShow, D.Inverse, Dated, H.Consistent, ValidIo,
         RewardsAfter, H.Updated, ApplyIo, ApplyStakes, D.ApplyAll, D.DeltaOf, NextUtxo, UtxoAfter, Lawful, NextMint, Declared, ChangesIn;
    var consumed := InputsOf(b.txs);
    ListedSame(s, t, b);
    ListedSame(s, t, b');
    OrderIrrelevant(s.books, t.utxo, b.produced, consumed, b'.produced, consumed, b.slot);
    assert RewardsAfter(s, b) == RewardsAfter(s, b') by { SameRewards(s, b, b'); }
  }

  lemma SameRewards(s: Snapshot, b: Block, b': Block)
    requires Reordered(b, b')
    ensures RewardsAfter(s, b) == RewardsAfter(s, b')
  {
  }

  // ---- Mint slots ----

  /** One mint slot per asset, known to the truth, no outstanding asset minted after the snapshot. */
  ghost predicate StampedAs(s: Snapshot, t: Truth) {
    Stamped(s.books.holdings, t.mint) && MintedBy(s.books.holdings, t.mint, s.slot)
  }

  /** Every snapshot of the run carries one mint slot per asset, whichever slot it is. */
  ghost predicate OneSlotRun(env: Env, base: Snapshot, chain: seq<Block>) {
    chain != [] ==>
      OneSlotRun(env, base, chain[..|chain| - 1]) && exists g :: Stamped(Fold(env, base, chain).books.holdings, g)
  }

  ghost predicate CarriedBy(s: Snapshot, t: Truth, b: Block) {
    Carried(s.books.holdings, UtxoAfter(t.utxo, b.txs), Gather(b.txs, Consumes()))
  }

  /** Every block of the run spends from an old leaf of each outstanding asset it leaves a new leaf of. */
  ghost predicate CarriedRun(env: Env, base: Snapshot, t: Truth, chain: seq<Block>) {
    chain != [] ==>
      var init := chain[..|chain| - 1];
      CarriedRun(env, base, t, init) && CarriedBy(Fold(env, base, init), After(env, base, t, init), chain[|chain| - 1])
  }

  lemma BlockKeepsStamps(env: Env, s: Snapshot, t: Truth, b: Block)
    requires Sound(env, s, t) && Proper(s, t, b) && StampedAs(s, t) && b.slot < TWO30
    ensures StampedAs(Next(env, s, b), Follow(s, t, b)) <==> CarriedBy(s, t, b)
    ensures (exists g :: Stamped(Next(env, s, b).books.holdings, g)) <==> CarriedBy(s, t, b)
  {
    hide Shows, AllPositive, StakesShow, Stamped, MintedBy, Carried, D.Inverse, Dated, H.Consistent, ValidIo,
         RewardsAfter, H.Updated, ApplyIo, ApplyStakes, D.ApplyAll, D.DeltaOf, NextUtxo, UtxoAfter, Lawful, NextMint, Declared, ChangesIn;
    ListedSame(s, t, b);
    SumsDeclared(b.txs);
    MintedEarlier(s.books.holdings, t.mint, s.slot, b.slot - 1);
    BlockStamps(s.books, t.utxo, b.produced, InputsOf(b.txs), b.slot, t.mint);
  }

  lemma MintedEarlier(m: Holdings, g: Bytes -> nat, slot: nat, later: nat)
    requires MintedBy(m, g, slot) && slot <= later
    ensures MintedBy(m, g, later)
  {
  }

  /**
   * Every snapshot of a run carries one mint slot per asset exactly when every block carries the
   * outstanding assets it makes new leaves of, and then it is the slot the asset was minted in.
   */
  lemma {:induction false} EverySnapshotStamped(env: Env, base: Snapshot, t: Truth, chain: seq<Block>)
    requires Sound(env, base, t) && ProperRun(env, base, t, chain) && StampedAs(base, t)
    requires forall b <- chain :: b.slot < TWO30
    ensures OneSlotRun(env, base, chain) <==> CarriedRun(env, base, t, chain)
    ensures CarriedRun(env, base, t, chain) ==> StampedAs(Fold(env, base, chain), After(env, base, t, chain))
  {
    hide Sound, Proper, Next, Follow, StampedAs, CarriedBy;
    if chain != [] {
      var n := |chain| - 1;
      assert forall b <- chain[..n] :: b in chain;
      EverySnapshotStamped(env, base, t, chain[..n]);
      if CarriedRun(env, base, t, chain[..n]) {
        EverySnapshotSound(env, base, t, chain[..n]);
        assert chain[n] in chain;
        BlockKeepsStamps(env, Fold(env, base, chain[..n]), After(env, base, t, chain[..n]), chain[n]);
        assert Fold(env, base, chain) == Next(env, Fold(env, base, chain[..n]), chain[n]);
      }
    }
  }

  // ---- Handle owners ----

  /** The owners of the unspent handle tokens after a chain. */
  function HoldersAfter(before: map<string, string>, chain: seq<Block>): map<string, string> {
    if chain == [] then before else H.Holders(HoldersAfter(before, chain[..|chain| - 1]), TokensOf(chain[|chain| - 1].txs))
  }

  /** Every snapshot of the run resolves exactly the unspent handle tokens, each to its owner. */
  ghost predicate HoldersRun(env: Env, base: Snapshot, chain: seq<Block>) {
    chain != [] ==>
      && HoldersRun(env, base, chain[..|chain| - 1])
      && Fold(env, base, chain).handles.byHandle == HoldersAfter(base.handles.byHandle, chain)
  }

  /** All snapshots resolve the unspent handle tokens exactly when no block has a handle arrive and leave for good. */
  lemma {:induction false} HandlesFollow(env: Env, base: Snapshot, chain: seq<Block>)
    ensures HoldersRun(env, base, chain) <==> forall b <- chain :: H.NoneForGood(TokensOf(b.txs))
    ensures HoldersRun(env, base, chain) ==> Fold(env, base, chain).handles.byHandle == HoldersAfter(base.handles.byHandle, chain)
  {
    hide Next, H.Updated, H.Holders, H.NoneForGood, TokensOf;
    if chain != [] {
      var n := |chain| - 1;
      HandlesFollow(env, base, chain[..n]);
      assert forall b :: b in chain <==> b in chain[..n] || b == chain[n];
      NextHandles(env, Fold(env, base, chain[..n]), chain[n]);
      H.OwnersFollow(Fold(env, base, chain[..n]).handles, TokensOf(chain[n].txs), env.credOf);
    }
  }
}
