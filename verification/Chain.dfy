/**
 * One snapshot per block: the function a block applies to the snapshot before it, the feed events
 * it records, and what every snapshot reached by a run of blocks agrees with.
 */
module Chain {
  import opened Wrappers
  import opened Bytes
  import opened Seqs
  import Sums
  import opened Ledger
  import Unspent
  import opened Stakes
  import D = Delegations
  import H = Handles
  import S = Significance
  import opened FeedLog
  import Feed

  /** What does not change over a run: how an address yields its credential, and the active stakes. */
  datatype Env = Env(credOf: H.CredOf, poolActive: map<Bytes, nat>, drepActive: map<Bytes, nat>)

  datatype Snapshot = Snapshot(slot: nat, epoch: Option<nat>, pools: D.Book, dreps: D.Book,
                               stakes: Amounts, rewards: Amounts, books: Books, handles: H.HandleMaps, totalStaked: int)

  /**
   * A decoded block. `produced` lists the outputs it makes in the order the map of them yields;
   * `rewardDeltas` is what the database answers for the block's epoch.
   */
  datatype Block = Block(slot: nat, hash: string, number: nat, epoch: nat, txs: seq<Tx>, produced: seq<Io>,
                         rewardDeltas: Option<Amounts>, issuer: Option<Bytes>)
  {
    function Ref(): BlockRef {
      BlockRef(slot, hash, number)
    }

    function Shown(): seq<S.BlockTx> {
      ShownOf(txs)
    }

    function Certs(side: Side): seq<DelegCert> {
      CertsOf(txs, side)
    }

    function Votes(side: Side): set<Bytes> {
      VotesOf(txs, side)
    }

    function Withdrawals(): seq<S.Withdrawal> {
      WithdrawalsOf(txs)
    }

    function Moves(): seq<H.Move> {
      H.MovesIn(TokensOf(txs))
    }

    function HandlesSpent(): seq<string> {
      H.SpentIn(TokensOf(txs))
    }

    /** The listing is one of the map of outputs gathered from the transactions. */
    ghost predicate Listed() {
      Lists(Unspent.AddAll(map[], OutputsOf(txs)), produced)
    }
  }

  /** A block without transactions. */
  lemma EmptyListed(b: Block)
    requires b.txs == [] && b.produced == []
    ensures b.Listed()
  {
  }

  // ---- The snapshot after a block ----

  function Withdrawn(rewards: Amounts, ws: seq<S.Withdrawal>): Amounts {
    if ws == [] then rewards
    else
      var before, last := Withdrawn(rewards, ws[..|ws| - 1]), ws[|ws| - 1];
      before[last.cred := Get(before, last.cred) - last.amount]
  }

  function AddAmounts(m: Amounts, deltas: Amounts): Amounts {
    map c | c in m.Keys + deltas.Keys :: Get(m, c) + Get(deltas, c)
  }

  /** Epoch rewards are credited with the first block of an epoch. */
  function RewardsAfter(s: Snapshot, b: Block): Amounts {
    var left := Withdrawn(s.rewards, b.Withdrawals());
    if s.epoch.Some? && s.epoch != Some(b.epoch) && b.rewardDeltas.Some? then AddAmounts(left, b.rewardDeltas.value) else left
  }

  function Next(env: Env, s: Snapshot, b: Block): Snapshot {
    var stakes := ApplyStakes(s.stakes, StakeChangesOf(b.txs));
    var rewards := RewardsAfter(s, b);
    Snapshot(b.slot, Some(b.epoch),
             D.ApplyAll(s.pools, ChangesIn(b.Certs(PoolSide)), b.slot),
             D.ApplyAll(s.dreps, ChangesIn(b.Certs(DrepSide)), b.slot),
             stakes, rewards,
             ApplyIo(s.books, b.produced, InputsOf(b.txs), b.slot),
             H.Updated(s.handles, b.Moves(), b.HandlesSpent(), env.credOf),
             s.totalStaked + D.DeltaOf(s.pools.delegations, ChangesIn(b.Certs(PoolSide)), D.Live(stakes, rewards)))
  }

  lemma NextHandles(env: Env, s: Snapshot, b: Block)
    ensures Next(env, s, b).handles == H.Updated(s.handles, b.Moves(), b.HandlesSpent(), env.credOf)
  {
  }

  /** The snapshot a chain of blocks leads to. */
  function Fold(env: Env, base: Snapshot, chain: seq<Block>): Snapshot {
    if chain == [] then base else Next(env, Fold(env, base, chain[..|chain| - 1]), chain[|chain| - 1])
  }

  lemma FoldLast(env: Env, base: Snapshot, chain: seq<Block>, b: Block)
    ensures Fold(env, base, chain + [b]) == Next(env, Fold(env, base, chain), b)
  {
    hide Next;
    assert (chain + [b])[..|chain|] == chain;
  }

  lemma {:induction false} FoldConcat(env: Env, base: Snapshot, a: seq<Block>, b: seq<Block>)
    ensures Fold(env, base, a + b) == Fold(env, Fold(env, base, a), b)
  {
    hide Next;
    if b == [] {
      assert a + b == a;
    } else {
      var n := |b| - 1;
      assert (a + b)[..|a + b| - 1] == a + b[..n];
      FoldConcat(env, base, a, b[..n]);
    }
  }

  lemma {:induction false} FoldSlot(env: Env, base: Snapshot, chain: seq<Block>)
    ensures Fold(env, base, chain).slot == if chain == [] then base.slot else chain[|chain| - 1].slot
  {
  }

  predicate Increasing(from: nat, chain: seq<Block>) {
    && (forall i | 0 <= i < |chain| :: chain[i].slot > from)
    && (forall i, j | 0 <= i < j < |chain| :: chain[i].slot < chain[j].slot)
  }

  // ---- Rewards over a run ----

  function WithdrawnBy(ws: seq<S.Withdrawal>, c: Bytes): int {
    if ws == [] then 0
    else WithdrawnBy(ws[..|ws| - 1], c) + (if ws[|ws| - 1].cred == c then ws[|ws| - 1].amount else 0)
  }

  /** What the transactions that take effect withdraw. */
  function WithdrawnIn(chain: seq<Block>, c: Bytes): int {
    if chain == [] then 0 else WithdrawnIn(chain[..|chain| - 1], c) + WithdrawnBy(Gather(chain[|chain| - 1].txs, Claims()), c)
  }

  lemma {:induction false} WithdrawnGet(rewards: Amounts, ws: seq<S.Withdrawal>, c: Bytes)
    ensures Get(Withdrawn(rewards, ws), c) == Get(rewards, c) - WithdrawnBy(ws, c)
  {
    if ws != [] {
      WithdrawnGet(rewards, ws[..|ws| - 1], c);
    }
  }

  /** Every block comes with the database's answer for its epoch, and epochs do not fall. */
  predicate Answered(base: Snapshot, chain: seq<Block>, answer: int -> Amounts) {
    && base.epoch.Some?
    && (forall i | 0 <= i < |chain| :: chain[i].rewardDeltas == Some(answer(chain[i].epoch)) && chain[i].epoch >= base.epoch.value)
    && (forall i, j | 0 <= i < j < |chain| :: chain[i].epoch <= chain[j].epoch)
  }

  ghost function EpochsEntered(base: Snapshot, chain: seq<Block>): set<int>
    requires base.epoch.Some?
  {
    (set b <- chain :: b.epoch as int) - {base.epoch.value as int}
  }

  lemma AddedGet(m: Amounts, deltas: Amounts, c: Bytes)
    ensures Get(AddAmounts(m, deltas), c) == Get(m, c) + Get(deltas, c)
  {
  }

  lemma NoneEntered(base: Snapshot, chain: seq<Block>, f: int -> int)
    requires chain == [] && base.epoch.Some?
    ensures Sums.Sum(EpochsEntered(base, chain), f) == 0
  {
    Sums.SumZero(EpochsEntered(base, chain), f);
  }

  lemma NextRewards(env: Env, s: Snapshot, b: Block)
    ensures Next(env, s, b).rewards == RewardsAfter(s, b) && Next(env, s, b).epoch == Some(b.epoch)
  {
  }

  /** Along a surviving chain the rewards of every epoch entered are credited exactly once. */
  lemma {:induction false} RewardsOnce(env: Env, base: Snapshot, chain: seq<Block>, answer: int -> Amounts, c: Bytes)
    requires Answered(base, chain, answer)
    ensures Get(Fold(env, base, chain).rewards, c) ==
            Get(base.rewards, c) - WithdrawnIn(chain, c) + Sums.Sum(EpochsEntered(base, chain), (e: int) => Get(answer(e), c))
    ensures Fold(env, base, chain).epoch == if chain == [] then base.epoch else Some(chain[|chain| - 1].epoch)
  {
    hide Next, AddAmounts, Withdrawn, EpochsEntered, WithdrawnBy;
    if chain == [] {
      NoneEntered(base, chain, (e: int) => Get(answer(e), c));
    } else {
      var n := |chain| - 1;
      var b := chain[n];
      RewardsOnce(env, base, chain[..n], answer, c);
      NextRewards(env, Fold(env, base, chain[..n]), b);
      WithdrawnGet(Fold(env, base, chain[..n]).rewards, b.Withdrawals(), c);
      SumsDeclared(b.txs);
      assert forall x :: x in chain <==> x in chain[..n] || x == b;
      EpochStep(base, chain, n, (e: int) => Get(answer(e), c));
      AddedGet(Withdrawn(Fold(env, base, chain[..n]).rewards, b.Withdrawals()), answer(b.epoch), c);
    }
  }

  /** A block enters an epoch when it is not of the epoch of the block before. */
  lemma EpochStep(base: Snapshot, chain: seq<Block>, n: nat, f: int -> int)
    requires base.epoch.Some? && |chain| == n + 1
    requires forall i | 0 <= i < |chain| :: chain[i].epoch >= base.epoch.value
    requires forall i, j | 0 <= i < j < |chain| :: chain[i].epoch <= chain[j].epoch
    ensures var last := if n == 0 then base.epoch.value else chain[n - 1].epoch;
            Sums.Sum(EpochsEntered(base, chain), f) ==
            Sums.Sum(EpochsEntered(base, chain[..n]), f) + (if chain[n].epoch == last then 0 else f(chain[n].epoch))
  {
    var e, before := chain[n].epoch as int, EpochsEntered(base, chain[..n]);
    EpochsGrow(base, chain, n);
    if chain[n].epoch == (if n == 0 then base.epoch.value else chain[n - 1].epoch) {
      assert before + {e} - {base.epoch.value as int} == before by {
        if n > 0 {
          assert chain[..n][n - 1] in chain[..n];
        }
      }
    } else {
      assert before + {e} - {base.epoch.value as int} == before + {e};
      Sums.SumAdd(before, e, f);
    }
  }

  lemma EpochsGrow(base: Snapshot, chain: seq<Block>, n: nat)
    requires base.epoch.Some? && |chain| == n + 1
    requires forall i | 0 <= i < |chain| :: chain[i].epoch >= base.epoch.value
    requires forall i, j | 0 <= i < j < |chain| :: chain[i].epoch <= chain[j].epoch
    ensures EpochsEntered(base, chain) == EpochsEntered(base, chain[..n]) + {chain[n].epoch as int} - {base.epoch.value as int}
    ensures chain[n].epoch != (if n == 0 then base.epoch.value else chain[n - 1].epoch) ==>
              chain[n].epoch as int !in EpochsEntered(base, chain[..n]) && chain[n].epoch > base.epoch.value
  {
    assert forall x :: x in chain <==> x in chain[..n] || x == chain[n];
    forall x | x in chain[..n]
      ensures n > 0 && x.epoch <= chain[n - 1].epoch
    {
      var i :| 0 <= i < n && chain[..n][i] == x;
      assert i == n - 1 || chain[i].epoch <= chain[n - 1].epoch;
    }
  }

  /** With no epoch known yet the first block credits nothing, as if its epoch had been known. */
  lemma {:induction false} FirstBlockCreditsNothing(env: Env, base: Snapshot, chain: seq<Block>)
    requires base.epoch.None? && chain != []
    ensures Fold(env, base, chain) == Fold(env, base.(epoch := Some(chain[0].epoch)), chain)
  {
    hide Next;
    var n := |chain| - 1;
    if n == 0 {
      assert chain[..n] == [];
      FirstCredits(env, base, chain[0]);
    } else {
      FirstBlockCreditsNothing(env, base, chain[..n]);
    }
  }

  lemma FirstCredits(env: Env, base: Snapshot, b: Block)
    requires base.epoch.None?
    ensures Next(env, base, b) == Next(env, base.(epoch := Some(b.epoch)), b)
  {
  }

  /** Without an answer for its epoch a block only takes off what is withdrawn. */
  lemma UnansweredCreditsNothing(s: Snapshot, b: Block, c: Bytes)
    requires b.rewardDeltas.None?
    ensures Get(RewardsAfter(s, b), c) == Get(s.rewards, c) - WithdrawnBy(Gather(b.txs, Claims()), c)
  {
    SumsDeclared(b.txs);
    WithdrawnGet(s.rewards, b.Withdrawals(), c);
  }

  // ---- Targets after a block ----

  /** The last certificate of a credential that takes effect gives its target after the block. */
  lemma BlockTargets(env: Env, s: Snapshot, b: Block, c: Bytes)
    ensures D.TargetOf(Next(env, s, b).pools, c) == D.LastTarget(Declared(b.txs, PoolSide), c, D.TargetOf(s.pools, c))
    ensures D.TargetOf(Next(env, s, b).dreps, c) == D.LastTarget(Declared(b.txs, DrepSide), c, D.TargetOf(s.dreps, c))
  {
    hide Declared, ChangesIn, D.LastTarget, D.ApplyAll, D.TargetOf, ApplyIo, ApplyStakes, H.Updated, RewardsAfter, D.DeltaOf;
    CertsDeclared(b.txs, PoolSide);
    CertsDeclared(b.txs, DrepSide);
    D.LastCertificateWins(s.pools, ChangesIn(b.Certs(PoolSide)), b.slot, c);
    D.LastCertificateWins(s.dreps, ChangesIn(b.Certs(DrepSide)), b.slot, c);
  }

  // ---- The total of delegated stake ----

  ghost function Staked(s: Snapshot): int {
    D.SumDelegated(s.pools, s.stakes, s.rewards)
  }

  /** What the credentials delegated before a block have after it. */
  ghost function StakedStill(s: Snapshot, n: Snapshot): int {
    D.SumDelegated(s.pools, n.stakes, n.rewards)
  }

  /** What the block counts for credentials that did not cross, or not so often. */
  ghost function Missed(s: Snapshot, n: Snapshot, b: Block): int {
    var changes := Declared(b.txs, PoolSide);
    Sums.Sum(D.Creds(changes), D.Miscounted(s.pools, changes, b.slot, D.Live(n.stakes, n.rewards)))
  }

  lemma NextTotal(env: Env, s: Snapshot, b: Block)
    ensures var n, changes := Next(env, s, b), ChangesIn(b.Certs(PoolSide));
            n.pools == D.ApplyAll(s.pools, changes, b.slot) &&
            n.totalStaked == s.totalStaked + D.DeltaOf(s.pools.delegations, changes, D.Live(n.stakes, n.rewards))
  {
  }

  /**
   * A block moves the total by what enters the delegated stake less what leaves it, and by what it
   * miscounts; that is nothing when each credential that crosses is named so once.
   */
  lemma TotalFollows(env: Env, s: Snapshot, b: Block)
    ensures var n := Next(env, s, b);
            n.totalStaked - s.totalStaked == Staked(n) - StakedStill(s, n) + Missed(s, n, b)
    ensures D.FlipsOnce(s.pools, Declared(b.txs, PoolSide), b.slot) ==> Missed(s, Next(env, s, b), b) == 0
    ensures D.DistinctCreds(Declared(b.txs, PoolSide)) ==> D.FlipsOnce(s.pools, Declared(b.txs, PoolSide), b.slot)
  {
    hide Next, ChangesIn, Declared, D.ApplyAll, D.DeltaOf, D.Live, D.SumDelegated, D.FlipsOnce, D.DistinctCreds, D.Creds, D.Miscounted;
    var n, changes := Next(env, s, b), Declared(b.txs, PoolSide);
    CertsDeclared(b.txs, PoolSide);
    NextTotal(env, s, b);
    D.DeltaOff(s.pools, changes, b.slot, n.stakes, n.rewards);
    if D.FlipsOnce(s.pools, changes, b.slot) {
      D.NothingMissed(s.pools, changes, b.slot, D.Live(n.stakes, n.rewards));
    }
    if D.DistinctCreds(changes) {
      D.DistinctFlipOnce(s.pools, changes, b.slot);
    }
  }

  /** What the credentials delegated before each block gained by it, over a chain. */
  ghost function Gains(env: Env, base: Snapshot, chain: seq<Block>): int {
    if chain == [] then 0
    else
      var s := Fold(env, base, chain[..|chain| - 1]);
      Gains(env, base, chain[..|chain| - 1]) + StakedStill(s, Fold(env, base, chain)) - Staked(s)
  }

  ghost function AllMissed(env: Env, base: Snapshot, chain: seq<Block>): int {
    if chain == [] then 0
    else
      AllMissed(env, base, chain[..|chain| - 1]) +
      Missed(Fold(env, base, chain[..|chain| - 1]), Fold(env, base, chain), chain[|chain| - 1])
  }

  /**
   * Over a run the total falls behind the delegated stake by exactly what credentials gained in blocks
   * before which they were delegated; blocks that name each credential once add no other error.
   */
  lemma {:induction false} TotalDrifts(env: Env, base: Snapshot, chain: seq<Block>)
    ensures var s := Fold(env, base, chain);
            Staked(s) - s.totalStaked == Staked(base) - base.totalStaked + Gains(env, base, chain) - AllMissed(env, base, chain)
    ensures (forall b <- chain :: D.DistinctCreds(Declared(b.txs, PoolSide))) ==> AllMissed(env, base, chain) == 0
  {
    hide Next, Missed, Staked, StakedStill, D.DistinctCreds, D.FlipsOnce, Declared;
    if chain != [] {
      var n := |chain| - 1;
      TotalDrifts(env, base, chain[..n]);
      TotalFollows(env, Fold(env, base, chain[..n]), chain[n]);
      assert forall b :: b in chain <==> b in chain[..n] || b == chain[n];
    }
  }

  // ---- The events a block records ----

  /** Nothing is recorded when the certificate leaves the target as it was before the block. */
  function EntryOf(s: Snapshot, book: D.Book, b: Block, c: DelegCert): seq<DelegationEntry> {
    var from := if c.cred in book.delegations then Some(book.delegations[c.cred].target) else None;
    if from.Some? && c.target == from then []
    else [DelegationEntry(b.slot, b.hash, b.number, c.txHash, c.cred, Get(s.stakes, c.cred) + Get(s.rewards, c.cred), from, c.target)]
  }

  function EntriesOf(s: Snapshot, book: D.Book, b: Block, certs: seq<DelegCert>): seq<DelegationEntry> {
    if certs == [] then [] else EntriesOf(s, book, b, certs[..|certs| - 1]) + EntryOf(s, book, b, certs[|certs| - 1])
  }

  /** Entries come in the order of their certificates. */
  lemma {:induction false} EntriesConcat(s: Snapshot, book: D.Book, b: Block, x: seq<DelegCert>, y: seq<DelegCert>)
    ensures EntriesOf(s, book, b, x + y) == EntriesOf(s, book, b, x) + EntriesOf(s, book, b, y)
  {
    hide EntryOf;
    if y == [] {
      assert x + y == x;
    } else {
      var n := |y| - 1;
      assert (x + y)[..|x + y| - 1] == x + y[..n];
      EntriesConcat(s, book, b, x, y[..n]);
    }
  }

  predicate OneEach(certs: seq<DelegCert>) {
    forall i, j | 0 <= i < j < |certs| :: certs[i].cred != certs[j].cred
  }

  lemma {:induction false} EntriesAre(s: Snapshot, book: D.Book, b: Block, certs: seq<DelegCert>)
    ensures forall e :: e in EntriesOf(s, book, b, certs) <==> exists c <- certs :: e in EntryOf(s, book, b, c)
  {
    hide EntryOf;
    if certs != [] {
      var n := |certs| - 1;
      EntriesAre(s, book, b, certs[..n]);
      assert forall c :: c in certs <==> c in certs[..n] || c == certs[n];
    }
  }

  lemma {:induction false} OneTarget(certs: seq<DelegCert>, i: nat, before: Option<Bytes>)
    requires OneEach(certs) && i < |certs|
    ensures D.LastTarget(ChangesIn(certs), certs[i].cred, before) == certs[i].target
  {
    var n := |certs| - 1;
    assert ChangesIn(certs)[..n] == ChangesIn(certs[..n]);
    if i < n {
      OneTarget(certs[..n], i, before);
    }
  }

  /**
   * With one certificate per credential, a credential's entry tells its target before and after the
   * block and its stake before it, and is left out exactly when it is delegated to the same target again.
   */
  lemma EntriesTellChanges(s: Snapshot, book: D.Book, b: Block, certs: seq<DelegCert>, i: nat, e: DelegationEntry)
    requires OneEach(certs) && i < |certs|
    ensures var c := certs[i].cred;
            var before, after := D.TargetOf(book, c), D.TargetOf(D.ApplyAll(book, ChangesIn(certs), b.slot), c);
            e in EntriesOf(s, book, b, certs) && e.cred == c <==>
            && (before != after || after.None?)
            && e == DelegationEntry(b.slot, b.hash, b.number, certs[i].txHash, c, D.Live(s.stakes, s.rewards)(c), before, after)
  {
    hide EntriesOf, D.ApplyAll, D.LastTarget;
    D.LastCertificateWins(book, ChangesIn(certs), b.slot, certs[i].cred);
    OneTarget(certs, i, D.TargetOf(book, certs[i].cred));
    EntriesAre(s, book, b, certs);
    if e in EntriesOf(s, book, b, certs) && e.cred == certs[i].cred {
      var x :| x in certs && e in EntryOf(s, book, b, x);
      var j :| 0 <= j < |certs| && certs[j] == x;
      assert j == i;
    }
    assert certs[i] in certs;
  }

  function DelegEvents(side: Side, entries: seq<DelegationEntry>): (r: seq<Event>)
    ensures |r| == |entries|
  {
    seq(|entries|, i requires 0 <= i < |entries| => Deleg(side, entries[i]))
  }

  ghost function Significant(txs: seq<S.BlockTx>, delegations: map<Bytes, D.Delegation>, active: map<Bytes, nat>): set<Bytes> {
    set c | c in delegations && S.MaxNetTo(txs, delegations, delegations[c].target) > S.Threshold(active, delegations[c].target)
      :: delegations[c].target
  }

  function Minted(b: Block): seq<Event> {
    if b.issuer.Some? then [Event.Ref(PoolMinted, b.issuer.value, b.Ref())] else []
  }

  ghost function Recorded(kind: Kind, keys: set<Bytes>, b: Block): seq<Event> {
    Feed.RefEvents(kind, Listed(keys), b.Ref())
  }

  /** A block's events in the order they are recorded, all told from the snapshot before it. */
  ghost function EventsOf(env: Env, s: Snapshot, b: Block): seq<Event> {
    Minted(b)
    + Recorded(PoolStake, Significant(b.Shown(), s.pools.delegations, env.poolActive), b)
    + DelegEvents(PoolSide, EntriesOf(s, s.pools, b, b.Certs(PoolSide)))
    + Recorded(DrepStake, Significant(b.Shown(), s.dreps.delegations, env.drepActive), b)
    + Recorded(PoolVote, b.Votes(PoolSide), b)
    + Recorded(DrepVote, b.Votes(DrepSide), b)
    + DelegEvents(DrepSide, EntriesOf(s, s.dreps, b, b.Certs(DrepSide)))
  }

  /** The events of a whole chain. */
  ghost function LogOf(env: Env, base: Snapshot, chain: seq<Block>): seq<Event> {
    if chain == [] then []
    else LogOf(env, base, chain[..|chain| - 1]) + EventsOf(env, Fold(env, base, chain[..|chain| - 1]), chain[|chain| - 1])
  }

  lemma LogLast(env: Env, base: Snapshot, chain: seq<Block>, b: Block)
    ensures LogOf(env, base, chain + [b]) == LogOf(env, base, chain) + EventsOf(env, Fold(env, base, chain), b)
  {
    hide EventsOf, Fold;
    assert (chain + [b])[..|chain|] == chain;
  }

  ghost predicate AllAt(es: seq<Event>, slot: nat) {
    forall i | 0 <= i < |es| :: EventSlot(es[i]) == slot
  }

  lemma {:induction false} EntriesSlot(s: Snapshot, book: D.Book, b: Block, certs: seq<DelegCert>)
    ensures forall i | 0 <= i < |EntriesOf(s, book, b, certs)| :: EntriesOf(s, book, b, certs)[i].slot == b.slot
  {
    if certs != [] {
      EntriesSlot(s, book, b, certs[..|certs| - 1]);
    }
  }

  lemma AllAtConcat(x: seq<Event>, y: seq<Event>, slot: nat)
    requires AllAt(x, slot) && AllAt(y, slot)
    ensures AllAt(x + y, slot)
  {
  }

  lemma EventsAt(env: Env, s: Snapshot, b: Block)
    ensures AllAt(EventsOf(env, s, b), b.slot)
  {
    hide AllAt, EntriesOf, Significant;
    var e1, e2 := Minted(b), Recorded(PoolStake, Significant(b.Shown(), s.pools.delegations, env.poolActive), b);
    var e3, e4 := DelegEvents(PoolSide, EntriesOf(s, s.pools, b, b.Certs(PoolSide))),
                  Recorded(DrepStake, Significant(b.Shown(), s.dreps.delegations, env.drepActive), b);
    var e5, e6 := Recorded(PoolVote, b.Votes(PoolSide), b), Recorded(DrepVote, b.Votes(DrepSide), b);
    var e7 := DelegEvents(DrepSide, EntriesOf(s, s.dreps, b, b.Certs(DrepSide)));
    MintedAt(b);
    RecordedAt(PoolStake, Significant(b.Shown(), s.pools.delegations, env.poolActive), b);
    RecordedAt(DrepStake, Significant(b.Shown(), s.dreps.delegations, env.drepActive), b);
    RecordedAt(PoolVote, b.Votes(PoolSide), b);
    RecordedAt(DrepVote, b.Votes(DrepSide), b);
    DelegsAt(PoolSide, s, s.pools, b, b.Certs(PoolSide));
    DelegsAt(DrepSide, s, s.dreps, b, b.Certs(DrepSide));
    AllAtConcat(e1, e2, b.slot);
    AllAtConcat(e1 + e2, e3, b.slot);
    AllAtConcat(e1 + e2 + e3, e4, b.slot);
    AllAtConcat(e1 + e2 + e3 + e4, e5, b.slot);
    AllAtConcat(e1 + e2 + e3 + e4 + e5, e6, b.slot);
    AllAtConcat(e1 + e2 + e3 + e4 + e5 + e6, e7, b.slot);
  }

  lemma MintedAt(b: Block)
    ensures AllAt(Minted(b), b.slot)
  {
  }

  lemma RecordedAt(kind: Kind, keys: set<Bytes>, b: Block)
    ensures AllAt(Recorded(kind, keys, b), b.slot)
  {
  }

  lemma DelegsAt(side: Side, s: Snapshot, book: D.Book, b: Block, certs: seq<DelegCert>)
    ensures AllAt(DelegEvents(side, EntriesOf(s, book, b, certs)), b.slot)
  {
    EntriesSlot(s, book, b, certs);
  }

  /** The event names the block: by slot, hash and number. */
  predicate OfBlock(e: Event, b: Block) {
    match e
    case Ref(_, _, r) => r.slot == b.slot && r.hash == b.hash && r.number == b.number
    case Deleg(_, entry) => entry.slot == b.slot && entry.blockHash == b.hash && entry.blockNo == b.number
  }

  lemma {:induction false} EntriesTellBlock(s: Snapshot, book: D.Book, b: Block, certs: seq<DelegCert>)
    ensures forall e <- EntriesOf(s, book, b, certs) :: e.slot == b.slot && e.blockHash == b.hash && e.blockNo == b.number
  {
    if certs != [] {
      EntriesTellBlock(s, book, b, certs[..|certs| - 1]);
    }
  }

  lemma PartsTellBlock(b: Block, kind: Kind, keys: set<Bytes>, side: Side, entries: seq<DelegationEntry>)
    requires forall e <- entries :: e.slot == b.slot && e.blockHash == b.hash && e.blockNo == b.number
    ensures forall e <- Minted(b) :: OfBlock(e, b)
    ensures forall e <- Recorded(kind, keys, b) :: OfBlock(e, b)
    ensures forall e <- DelegEvents(side, entries) :: OfBlock(e, b)
  {
    forall e | e in DelegEvents(side, entries)
      ensures OfBlock(e, b)
    {
      var i :| 0 <= i < |entries| && DelegEvents(side, entries)[i] == e;
      assert entries[i] in entries;
    }
  }

  /** Every event a block records names the block. */
  lemma EventsTellBlock(env: Env, s: Snapshot, b: Block)
    ensures forall e <- EventsOf(env, s, b) :: OfBlock(e, b)
  {
    hide EntriesOf, Significant, Minted, Recorded, DelegEvents, OfBlock, CertsOf, VotesOf;
    EntriesTellBlock(s, s.pools, b, b.Certs(PoolSide));
    EntriesTellBlock(s, s.dreps, b, b.Certs(DrepSide));
    PartsTellBlock(b, PoolStake, Significant(b.Shown(), s.pools.delegations, env.poolActive), PoolSide, EntriesOf(s, s.pools, b, b.Certs(PoolSide)));
    PartsTellBlock(b, DrepStake, Significant(b.Shown(), s.dreps.delegations, env.drepActive), DrepSide, EntriesOf(s, s.dreps, b, b.Certs(DrepSide)));
    PartsTellBlock(b, PoolVote, b.Votes(PoolSide), PoolSide, []);
    PartsTellBlock(b, DrepVote, b.Votes(DrepSide), PoolSide, []);
  }

  lemma {:induction false} LogBounded(env: Env, base: Snapshot, chain: seq<Block>)
    requires Increasing(base.slot, chain)
    ensures Feed.UpTo(LogOf(env, base, chain), if chain == [] then base.slot else chain[|chain| - 1].slot)
    ensures forall e <- LogOf(env, base, chain) :: EventSlot(e) > base.slot
  {
    hide EventsOf, Fold;
    if chain != [] {
      var n := |chain| - 1;
      LogBounded(env, base, chain[..n]);
      EventsAt(env, Fold(env, base, chain[..n]), chain[n]);
      var es := EventsOf(env, Fold(env, base, chain[..n]), chain[n]);
      assert forall e <- es :: EventSlot(e) == chain[n].slot;
    }
  }

  /** Cutting the log of a chain at a slot is the log of the blocks up to the slot. */
  lemma {:induction false} LogCut(env: Env, base: Snapshot, chain: seq<Block>, k: nat, slot: nat)
    requires Increasing(base.slot, chain) && k <= |chain|
    requires forall i | 0 <= i < |chain| :: i < k <==> chain[i].slot <= slot
    ensures Retain(LogOf(env, base, chain), EventSlot, AtMost(slot)) == LogOf(env, base, chain[..k])
  {
    hide EventsOf, Fold, Retain;
    if chain == [] {
      RetainAll(LogOf(env, base, chain), EventSlot, AtMost(slot));
    } else {
      var n := |chain| - 1;
      var es := EventsOf(env, Fold(env, base, chain[..n]), chain[n]);
      RetainConcat(LogOf(env, base, chain[..n]), es, EventSlot, AtMost(slot));
      EventsAt(env, Fold(env, base, chain[..n]), chain[n]);
      if k <= n {
        LogCut(env, base, chain[..n], k, slot);
        assert chain[..n][..k] == chain[..k];
        RetainNone(es, EventSlot, AtMost(slot));
        Nil(LogOf(env, base, chain[..k]));
      } else {
        LogCut(env, base, chain[..n], n, slot);
        assert chain[..n][..n] == chain[..n] && chain[..k] == chain;
        RetainAll(es, EventSlot, AtMost(slot));
      }
    }
  }

  lemma {:induction false} LogConcat(env: Env, base: Snapshot, a: seq<Block>, b: seq<Block>)
    ensures LogOf(env, base, a + b) == LogOf(env, base, a) + LogOf(env, Fold(env, base, a), b)
  {
    hide EventsOf, Fold;
    if b == [] {
      assert a + b == a;
      Nil(LogOf(env, base, a));
    } else {
      var n := |b| - 1;
      assert (a + b)[..|a + b| - 1] == a + b[..n];
      LogConcat(env, base, a, b[..n]);
      FoldConcat(env, base, a, b[..n]);
    }
  }
}
