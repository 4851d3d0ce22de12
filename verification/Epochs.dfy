/** Epochs and slots, and the count of blocks a pool minted in an epoch read off the feed index. */
module Epochs {
  import opened Wrappers
  import opened Bytes
  import opened Seqs
  import opened FeedLog
  import opened Feed
  import opened Chain
  import opened KeptLog
  import opened State
  import opened Runs
  import opened Stakes

  datatype Genesis = Genesis(knownSlot: nat, byronEpochLength: nat, byronSlotLength: nat, epochLength: nat)
  {
    predicate Valid() {
      byronEpochLength > 0 && epochLength > 0
    }
  }

  function StartEpoch(g: Genesis): nat
    requires g.Valid()
  {
    g.knownSlot * g.byronSlotLength / g.byronEpochLength
  }

  function EpochForSlot(slot: nat, g: Genesis): nat
    requires g.Valid()
  {
    StartEpoch(g) + Minus(slot, g.knownSlot) / g.epochLength
  }

  function SlotForEpoch(epoch: nat, g: Genesis): nat
    requires g.Valid()
  {
    g.knownSlot + Minus(epoch, StartEpoch(g)) * g.epochLength
  }

  lemma QuotientAtMost(n: nat, d: nat, q: nat)
    requires d > 0
    ensures q * d <= n <==> q <= n / d
  {
    var e := n / d;
    assert n == e * d + n % d;
    if q <= e {
      Scaled(q, e, d);
    } else {
      Scaled(e + 1, q, d);
    }
  }

  lemma Scaled(a: nat, b: nat, d: nat)
    requires a <= b
    ensures a * d <= b * d
  {
  }

  /** A slot has reached an epoch's first slot exactly when its epoch is that one or a later one. */
  lemma EpochsMatchSlots(slot: nat, epoch: nat, g: Genesis)
    requires g.Valid()
    ensures (SlotForEpoch(epoch, g) <= slot <==> epoch <= EpochForSlot(slot, g)) <==>
            slot >= g.knownSlot || epoch > StartEpoch(g)
  {
    hide StartEpoch;
    var n, q := Minus(slot, g.knownSlot), Minus(epoch, StartEpoch(g));
    QuotientAtMost(n, g.epochLength, q);
    if slot < g.knownSlot {
      assert n == 0 && 0 / g.epochLength == 0;
    }
    if epoch <= StartEpoch(g) {
      assert q * g.epochLength == 0;
    }
  }

  /** Epochs are whole stretches of the epoch length from the known slot on, numbered from the epoch it starts. */
  lemma EpochHolds(slot: nat, epoch: nat, g: Genesis)
    requires g.Valid() && slot >= g.knownSlot
    ensures EpochForSlot(slot, g) == epoch <==>
            epoch >= StartEpoch(g) && 0 <= slot - g.knownSlot - (epoch - StartEpoch(g)) * g.epochLength < g.epochLength
  {
    hide StartEpoch;
    CountedFrom(slot - g.knownSlot, g.epochLength, StartEpoch(g), epoch);
  }

  lemma CountedFrom(n: nat, d: nat, start: nat, e: nat)
    requires d > 0
    ensures start + n / d == e <==> e >= start && 0 <= n - (e - start) * d < d
  {
    if e >= start {
      QuotientIs(n, d, e - start);
    }
  }

  lemma QuotientIs(n: nat, d: nat, q: nat)
    requires d > 0
    ensures n / d == q <==> 0 <= n - q * d < d
  {
    QuotientAtMost(n, d, q);
    QuotientAtMost(n, d, q + 1);
    NextEpochStart(q, d);
  }

  /** The epoch the known slot starts: Byron epochs are counted in seconds, the slots before it in Byron slots. */
  lemma StartEpochHolds(g: Genesis)
    requires g.Valid()
    ensures StartEpoch(g) * g.byronEpochLength <= g.knownSlot * g.byronSlotLength < (StartEpoch(g) + 1) * g.byronEpochLength
  {
    var seconds := g.knownSlot * g.byronSlotLength;
    QuotientAtMost(seconds, g.byronEpochLength, StartEpoch(g));
    QuotientAtMost(seconds, g.byronEpochLength, StartEpoch(g) + 1);
  }

  const MAINNET := Genesis(4492800, 432000, 20, 432000)
  const PREPROD := Genesis(86400, 432000, 20, 432000)

  lemma Divided(n: nat, d: nat, q: nat)
    requires d > 0 && q * d <= n < q * d + d
    ensures n / d == q
  {
    QuotientIs(n, d, q);
  }

  /** The first Shelley epoch is 208 on the main network and 4 on the pre-production one; the index window is one epoch. */
  lemma KnownNetworks()
    ensures EpochForSlot(4492800, MAINNET) == 208 && EpochForSlot(181914346, MAINNET) == 618
    ensures WINDOW == 5 * 24 * 60 * 60 == MAINNET.epochLength == PREPROD.epochLength
    ensures EpochForSlot(86400, PREPROD) == 4 && EpochForSlot(86400 + 432000 * 200, PREPROD) == 204
  {
    Divided(4492800 * 20, 432000, 208);
    Divided(181914346 - 4492800, 432000, 410);
    Divided(86400 * 20, 432000, 4);
    Divided(432000 * 200, 432000, 200);
  }

  // ---- The count ----

  method PoolEpochBlocks(feed: FeedIndex, pool: Bytes, epoch: nat, g: Genesis) returns (n: nat)
    requires feed.Valid() && g.Valid()
    ensures n == |Retain(Refs(feed.kept, PoolMinted, pool), RefSlot, AtLeast(SlotForEpoch(epoch, g)))|
  {
    hide FeedIndex.Valid, SlotForEpoch;
    var start := SlotForEpoch(epoch, g);
    var blocks := feed.PoolMintedBlocks(pool);
    n := 0;
    for i := 0 to |blocks|
      invariant n == |Retain(blocks[..i], RefSlot, AtLeast(start))|
    {
      assert blocks[..i + 1][..i] == blocks[..i];
      if blocks[i].slot >= start {
        n := n + 1;
      }
    }
    assert blocks[..|blocks|] == blocks;
  }

  /** How many blocks of a chain a pool minted from a slot on. */
  function MintedFrom(chain: seq<Block>, pool: Bytes, start: nat): nat {
    if chain == [] then 0
    else
      var b := chain[|chain| - 1];
      MintedFrom(chain[..|chain| - 1], pool, start) + (if b.issuer == Some(pool) && b.slot >= start then 1 else 0)
  }

  /** How many of them lie at or above their own boundary. */
  function KeptFrom(chain: seq<Block>, floors: seq<nat>, pool: Bytes, start: nat): nat
    requires |floors| == |chain|
  {
    if chain == [] then 0
    else
      var n := |chain| - 1;
      var b := chain[n];
      KeptFrom(chain[..n], floors[..n], pool, start) + (if b.issuer == Some(pool) && b.slot >= start && b.slot >= floors[n] then 1 else 0)
  }

  /** None is missing exactly when none lies below its own boundary. */
  lemma {:induction false} NoneMissing(chain: seq<Block>, floors: seq<nat>, pool: Bytes, start: nat)
    requires |floors| == |chain|
    ensures KeptFrom(chain, floors, pool, start) <= MintedFrom(chain, pool, start)
    ensures KeptFrom(chain, floors, pool, start) == MintedFrom(chain, pool, start) <==>
            forall i | 0 <= i < |chain| :: chain[i].issuer == Some(pool) && chain[i].slot >= start ==> chain[i].slot >= floors[i]
  {
    if chain != [] {
      var n := |chain| - 1;
      NoneMissing(chain[..n], floors[..n], pool, start);
    }
  }

  lemma {:induction false} MintedConcat(a: seq<Block>, b: seq<Block>, pool: Bytes, start: nat)
    ensures MintedFrom(a + b, pool, start) == MintedFrom(a, pool, start) + MintedFrom(b, pool, start)
  {
    if b == [] {
      assert a + b == a;
    } else {
      var n := |b| - 1;
      assert (a + b)[..|a + b| - 1] == a + b[..n];
      MintedConcat(a, b[..n], pool, start);
    }
  }

  lemma {:induction false} MintedBefore(chain: seq<Block>, pool: Bytes, start: nat)
    requires forall i | 0 <= i < |chain| :: chain[i].slot < start
    ensures MintedFrom(chain, pool, start) == 0
  {
    if chain != [] {
      MintedBefore(chain[..|chain| - 1], pool, start);
    }
  }

  // ---- The minted blocks in the log ----

  lemma {:induction false} CollectConcat<T>(a: seq<Event>, b: seq<Event>, f: Event -> seq<T>)
    ensures Collect(a + b, f) == Collect(a, f) + Collect(b, f)
  {
    if b == [] {
      assert a + b == a;
      Nil(Collect(a, f));
    } else {
      var n := |b| - 1;
      CollectConcat(a, b[..n], f);
      JoinLast(a, b, f);
    }
  }

  lemma JoinLast<T>(a: seq<Event>, b: seq<Event>, f: Event -> seq<T>)
    requires b != []
    ensures var n := |b| - 1;
            && Collect(a + b, f) == Collect(a + b[..n], f) + f(b[n])
            && Collect(a, f) + Collect(b, f) == Collect(a, f) + Collect(b[..n], f) + f(b[n])
  {
    hide Collect;
    var n := |b| - 1;
    assert a + b == a + b[..n] + [b[n]] && b == b[..n] + [b[n]];
    CollectLast(a + b[..n], b[n], f);
    CollectLast(b[..n], b[n], f);
    Assoc(Collect(a, f), Collect(b[..n], f), f(b[n]));
  }

  lemma {:induction false} CollectNone<T>(log: seq<Event>, f: Event -> seq<T>)
    requires forall i | 0 <= i < |log| :: f(log[i]) == []
    ensures Collect(log, f) == []
  {
    if log != [] {
      CollectNone(log[..|log| - 1], f);
    }
  }

  lemma EventsMinted(env: Env, s: Snapshot, b: Block, pool: Bytes)
    ensures Refs(EventsOf(env, s, b), PoolMinted, pool) == if b.issuer == Some(pool) then [b.Ref()] else []
  {
    hide Significant, EntriesOf, Collect, Recorded, DelegEvents;
    var f := RefView(PoolMinted, pool);
    var e1, e2 := Minted(b), Recorded(PoolStake, Significant(b.Shown(), s.pools.delegations, env.poolActive), b);
    var e3, e4 := DelegEvents(PoolSide, EntriesOf(s, s.pools, b, b.Certs(PoolSide))),
                  Recorded(DrepStake, Significant(b.Shown(), s.dreps.delegations, env.drepActive), b);
    var e5, e6 := Recorded(PoolVote, b.Votes(PoolSide), b), Recorded(DrepVote, b.Votes(DrepSide), b);
    var e7 := DelegEvents(DrepSide, EntriesOf(s, s.dreps, b, b.Certs(DrepSide)));
    CollectConcat(e1, e2, f);
    CollectConcat(e1 + e2, e3, f);
    CollectConcat(e1 + e2 + e3, e4, f);
    CollectConcat(e1 + e2 + e3 + e4, e5, f);
    CollectConcat(e1 + e2 + e3 + e4 + e5, e6, f);
    CollectConcat(e1 + e2 + e3 + e4 + e5 + e6, e7, f);
    OthersMintNothing(PoolStake, Significant(b.Shown(), s.pools.delegations, env.poolActive), b, pool);
    OthersMintNothing(DrepStake, Significant(b.Shown(), s.dreps.delegations, env.drepActive), b, pool);
    OthersMintNothing(PoolVote, b.Votes(PoolSide), b, pool);
    OthersMintNothing(DrepVote, b.Votes(DrepSide), b, pool);
    DelegsMintNothing(PoolSide, EntriesOf(s, s.pools, b, b.Certs(PoolSide)), pool);
    DelegsMintNothing(DrepSide, EntriesOf(s, s.dreps, b, b.Certs(DrepSide)), pool);
    OneMinted(b, pool);
  }

  lemma OthersMintNothing(kind: Kind, keys: set<Bytes>, b: Block, pool: Bytes)
    requires kind != PoolMinted
    ensures Collect(Recorded(kind, keys, b), RefView(PoolMinted, pool)) == []
  {
    CollectNone(Recorded(kind, keys, b), RefView(PoolMinted, pool));
  }

  lemma DelegsMintNothing(side: Side, entries: seq<DelegationEntry>, pool: Bytes)
    ensures Collect(DelegEvents(side, entries), RefView(PoolMinted, pool)) == []
  {
    CollectNone(DelegEvents(side, entries), RefView(PoolMinted, pool));
  }

  lemma OneMinted(b: Block, pool: Bytes)
    ensures Collect(Minted(b), RefView(PoolMinted, pool)) == if b.issuer == Some(pool) then [b.Ref()] else []
  {
    if b.issuer.Some? {
      CollectLast([], Event.Ref(PoolMinted, b.issuer.value, b.Ref()), RefView(PoolMinted, pool));
      assert [] + Minted(b) == Minted(b);
    }
  }

  /** The pool's blocks among what is kept of a chain. */
  lemma {:induction false} KeptMinted(env: Env, base: Snapshot, chain: seq<Block>, floors: seq<nat>, pool: Bytes, start: nat)
    requires |floors| == |chain|
    ensures |Retain(Refs(Kept(env, base, chain, floors), PoolMinted, pool), RefSlot, AtLeast(start))| == KeptFrom(chain, floors, pool, start)
  {
    hide EventsOf, Fold, Retain, Collect;
    var f := RefView(PoolMinted, pool);
    if chain == [] {
      CollectNone([], f);
      RetainNone<BlockRef>([], RefSlot, AtLeast(start));
    } else {
      var n := |chain| - 1;
      var s, b := Fold(env, base, chain[..n]), chain[n];
      var es := Retain(EventsOf(env, s, b), EventSlot, AtLeast(floors[n]));
      KeptMinted(env, base, chain[..n], floors[..n], pool, start);
      CollectConcat(Kept(env, base, chain[..n], floors[..n]), es, f);
      RetainConcat(Refs(Kept(env, base, chain[..n], floors[..n]), PoolMinted, pool), Collect(es, f), RefSlot, AtLeast(start));
      AllOrNothing(env, s, b, AtLeast(floors[n]));
      EventsMinted(env, s, b, pool);
      CollectNone([], f);
      OneRetained(b.Ref(), start);
    }
  }

  lemma OneRetained(r: BlockRef, start: nat)
    ensures Retain([r], RefSlot, AtLeast(start)) == (if r.slot >= start then [r] else []) && Retain([], RefSlot, AtLeast(start)) == []
  {
    assert [r][..0] == [];
  }

  /**
   * The count of an epoch that began after the base is exact, for the whole chain the base ends and
   * the surviving blocks continue, exactly when no block the pool minted in it lies below the highest
   * boundary the index was pruned to since that block was recorded.
   */
  lemma EpochCountExact(env: Env, base: Snapshot, prior: seq<Block>, chain: seq<Block>, loaded: seq<Event>, floors: seq<nat>,
                        floor: nat, pool: Bytes, start: nat)
    requires |floors| == |chain| && UpTo(loaded, base.slot)
    requires base.slot < start && forall i | 0 <= i < |prior| :: prior[i].slot <= base.slot
    ensures |Retain(Refs(Held(env, base, chain, loaded, floors, floor), PoolMinted, pool), RefSlot, AtLeast(start))| ==
            MintedFrom(prior + chain, pool, start) <==>
            forall i | 0 <= i < |chain| :: chain[i].issuer == Some(pool) && chain[i].slot >= start ==> chain[i].slot >= floors[i]
  {
    hide Kept, Retain, Collect, MintedFrom, KeptFrom, UpTo;
    MintedConcat(prior, chain, pool, start);
    MintedBefore(prior, pool, start);
    var f, before, kept := RefView(PoolMinted, pool), Retain(loaded, EventSlot, AtLeast(floor)), Kept(env, base, chain, floors);
    CollectConcat(before, kept, f);
    RetainConcat(Collect(before, f), Collect(kept, f), RefSlot, AtLeast(start));
    RetainUpTo(loaded, AtLeast(floor), base.slot);
    NoneFrom(before, base.slot, pool, start);
    KeptMinted(env, base, chain, floors, pool, start);
    NoneMissing(chain, floors, pool, start);
  }

  lemma NoneFrom(log: seq<Event>, slot: nat, pool: Bytes, start: nat)
    requires UpTo(log, slot) && slot < start
    ensures Retain(Refs(log, PoolMinted, pool), RefSlot, AtLeast(start)) == []
  {
    hide Retain, Collect;
    CollectMembers(log, RefView(PoolMinted, pool), RefSlot, slot);
    RetainNone(Refs(log, PoolMinted, pool), RefSlot, AtLeast(start));
  }

  // ---- When no block of the epoch can be missing ----

  /** Every block of a run lies at or below a slot. */
  predicate AppliedUpTo(messages: seq<Message>, highest: nat) {
    forall m <- messages :: m.Apply? ==> m.block.slot <= highest
  }

  lemma {:induction false} FloorBound(t: Track, messages: seq<Message>, highest: nat)
    requires |t.floors| == |t.chain| && AppliedUpTo(messages, highest)
    ensures After(t, messages).floor <= Larger(t.floor, Minus(highest, WINDOW))
  {
    if messages != [] {
      FloorBound(t, messages[..|messages| - 1], highest);
      assert messages[|messages| - 1] in messages;
    }
  }

  /** With epochs no longer than the window and no block ever applied beyond the epoch, nothing from its start on is pruned. */
  lemma CurrentEpochKept(t: Track, messages: seq<Message>, highest: nat, epoch: nat, g: Genesis)
    requires |t.floors| == |t.chain| && g.Valid() && g.epochLength <= WINDOW
    requires t.floor <= SlotForEpoch(epoch, g) && AppliedUpTo(messages, highest) && EpochForSlot(highest, g) <= epoch
    ensures After(t, messages).floor <= SlotForEpoch(epoch, g)
  {
    hide StartEpoch, After;
    FloorBound(t, messages, highest);
    EpochsMatchSlots(highest, epoch + 1, g);
    if epoch + 1 > StartEpoch(g) {
      assert Minus(epoch + 1, StartEpoch(g)) == Minus(epoch, StartEpoch(g)) + 1;
      NextEpochStart(Minus(epoch, StartEpoch(g)), g.epochLength);
    }
  }

  lemma NextEpochStart(q: nat, length: nat)
    ensures (q + 1) * length == q * length + length
  {
  }

  /** The first surviving block is of the current epoch and the pool minted it, but it lies below its boundary. */
  ghost predicate MissesBlock(g: Genesis, t: Track, messages: seq<Message>, pool: Bytes) {
    && g.Valid() && g.epochLength <= WINDOW && |t.floors| == |t.chain| && Climbing(t, messages)
    && var r := After(t, messages);
       && r.base == t.base && |r.chain| > 0 && r.chain[0].issuer == Some(pool)
       && var epoch := EpochForSlot(r.chain[|r.chain| - 1].slot, g);
          SlotForEpoch(epoch, g) <= r.chain[0].slot < r.floors[0]
  }

  /**
   * Blocks early and late in an epoch and one early in the next, which prunes; a rollback of a few
   * slots across the boundary makes the first epoch current again, without its first block.
   */
  lemma RollbackAcrossBoundary(pool: Bytes, base: Snapshot)
    requires base.slot == 0
    ensures exists g, messages :: MissesBlock(g, Track(base, [], 1, [], [], 0), messages, pool)
  {
    hide After, Climbing;
    var g, t := Genesis(0, 1, 1, WINDOW), Track(base, [], 1, [], [], 0);
    var early := Block(WINDOW + 5, "", 0, 1, [], [], None, Some(pool));
    var late, next := early.(slot := 2 * WINDOW - 1), early.(slot := 2 * WINDOW + 10, epoch := 2);
    var ms := [Apply(early), Apply(late), Apply(next), Rollback(2 * WINDOW - 1, base)];
    ThereAndBack(t, ms, early, late, next);
    assert EpochForSlot(2 * WINDOW - 1, g) == 1 && SlotForEpoch(1, g) == WINDOW;
    assert MissesBlock(g, t, ms, pool);
  }

  lemma ThereAndBack(t: Track, ms: seq<Message>, early: Block, late: Block, next: Block)
    requires t == Track(t.base, [], 1, [], [], 0) && t.base.slot == 0
    requires ms == [Apply(early), Apply(late), Apply(next), Rollback(2 * WINDOW - 1, t.base)]
    requires early.slot == WINDOW + 5 && late.slot == 2 * WINDOW - 1 && next.slot == 2 * WINDOW + 10
    requires early.txs == late.txs == next.txs == [] && early.produced == late.produced == next.produced == []
    ensures Climbing(t, ms)
    ensures After(t, ms) == Track(t.base, [early, late], 3, [], [WINDOW + 10, WINDOW + 10], WINDOW + 10)
  {
    hide After, Survivors, Lists, Retain;
    var t1, t2 := Track(t.base, [early], 2, [], [5], 5), Track(t.base, [early, late], 3, [], [WINDOW - 1, WINDOW - 1], WINDOW - 1);
    var t3 := Track(t.base, [early, late, next], 4, [], [WINDOW + 10, WINDOW + 10, WINDOW + 10], WINDOW + 10);
    FourSteps(t, ms);
    OneApplied(t, early, t1);
    OneApplied(t1, late, t2);
    OneApplied(t2, next, t3);
    TwoSurvive(early, late, next);
    RetainAll<Event>([], EventSlot, AtMost(2 * WINDOW - 1));
    EmptyListed(early);
    EmptyListed(late);
    EmptyListed(next);
  }

  lemma OneApplied(t: Track, b: Block, r: Track)
    requires |t.floors| == |t.chain| && t.retained < MAX_HISTORY
    requires r == Track(t.base, t.chain + [b], t.retained + 1, t.loaded, Raised(t.floors, Minus(b.slot, WINDOW)) + [Minus(b.slot, WINDOW)],
                        Larger(t.floor, Minus(b.slot, WINDOW)))
    ensures Step(t, Apply(b)) == r
  {
  }

  lemma TwoSurvive(a: Block, b: Block, c: Block)
    requires a.slot < b.slot < c.slot
    ensures Survivors([a, b, c], b.slot) == [a, b]
  {
    assert [a, b, c][..2] == [a, b];
  }

  lemma FourSteps(t: Track, ms: seq<Message>)
    requires |ms| == 4 && |t.floors| == |t.chain|
    ensures After(t, ms[..0]) == t && After(t, ms[..1]) == Step(t, ms[0]) && After(t, ms[..2]) == Step(Step(t, ms[0]), ms[1])
    ensures After(t, ms[..3]) == Step(Step(Step(t, ms[0]), ms[1]), ms[2])
    ensures After(t, ms) == Step(Step(Step(Step(t, ms[0]), ms[1]), ms[2]), ms[3])
  {
    hide *;
    AfterNone(t, ms);
    OneStep(t, ms, 0, t);
    OneStep(t, ms, 1, Step(t, ms[0]));
    OneStep(t, ms, 2, Step(Step(t, ms[0]), ms[1]));
    OneStep(t, ms, 3, Step(Step(Step(t, ms[0]), ms[1]), ms[2]));
    assert ms[..4] == ms;
  }

  lemma OneStep(t: Track, ms: seq<Message>, k: nat, before: Track)
    requires |t.floors| == |t.chain| && k < |ms| && After(t, ms[..k]) == before
    ensures After(t, ms[..k + 1]) == Step(before, ms[k])
  {
    hide *;
    AfterMore(t, ms, k);
  }

  lemma AfterNone(t: Track, ms: seq<Message>)
    requires |t.floors| == |t.chain|
    ensures After(t, ms[..0]) == t
  {
  }
}
