/** The in-memory feed index: per-subject block lists and two delegation logs with position indexes. */
module Feed {
  import opened Wrappers
  import opened Bytes
  import opened Seqs
  import opened FeedLog

  function Lookup<V>(m: map<Bytes, seq<V>>, k: Bytes): seq<V> {
    if k in m then m[k] else []
  }

  type RefMap = map<Bytes, seq<BlockRef>>
  type Index = map<Bytes, seq<nat>>

  ghost predicate NoEmpty<V(!new)>(m: map<Bytes, seq<V>>) {
    forall k <- m :: m[k] != []
  }

  /** The map lists, for every subject, exactly the log's blocks of that subject. */
  ghost predicate Shows(m: RefMap, log: seq<Event>, kind: Kind) {
    NoEmpty(m) && forall k :: Lookup(m, k) == Refs(log, kind, k)
  }

  ghost predicate Indexes(index: Index, es: seq<DelegationEntry>) {
    NoEmpty(index) && forall k :: Lookup(index, k) == Positions(es, k)
  }

  /** The same block recorded for several subjects. */
  function RefEvents(kind: Kind, keys: seq<Bytes>, block: BlockRef): (r: seq<Event>)
    ensures |r| == |keys|
    ensures forall i | 0 <= i < |r| :: r[i] == Ref(kind, keys[i], block)
  {
    seq(|keys|, i requires 0 <= i < |keys| => Ref(kind, keys[i], block))
  }

  lemma RefEventsLast(log: seq<Event>, kind: Kind, keys: seq<Bytes>, block: BlockRef)
    requires keys != []
    ensures var n := |keys| - 1;
            log + RefEvents(kind, keys, block) == log + RefEvents(kind, keys[..n], block) + [Ref(kind, keys[n], block)]
  {
  }

  lemma {:induction false} RefEventsView(log: seq<Event>, kind: Kind, keys: seq<Bytes>, block: BlockRef, kind': Kind, key: Bytes)
    requires forall i, j | 0 <= i < j < |keys| :: keys[i] != keys[j]
    ensures Refs(log + RefEvents(kind, keys, block), kind', key) ==
            Refs(log, kind', key) + (if kind == kind' && key in keys then [block] else [])
  {
    hide Collect;
    if keys == [] {
      assert log + RefEvents(kind, keys, block) == log;
      Nil(Refs(log, kind', key));
    } else {
      var n := |keys| - 1;
      RefEventsView(log, kind, keys[..n], block, kind', key);
      RefEventsLast(log, kind, keys, block);
      CollectLast(log + RefEvents(kind, keys[..n], block), Ref(kind, keys[n], block), RefView(kind', key));
      Nil(Refs(log + RefEvents(kind, keys[..n], block), kind', key));
      Nil(Refs(log, kind', key));
    }
  }

  lemma {:induction false} RefEventsDelegs(log: seq<Event>, kind: Kind, keys: seq<Bytes>, block: BlockRef, side: Side)
    ensures Delegs(log + RefEvents(kind, keys, block), side) == Delegs(log, side)
  {
    hide Collect;
    if keys == [] {
      assert log + RefEvents(kind, keys, block) == log;
    } else {
      var n := |keys| - 1;
      RefEventsDelegs(log, kind, keys[..n], block, side);
      RefEventsLast(log, kind, keys, block);
      CollectLast(log + RefEvents(kind, keys[..n], block), Ref(kind, keys[n], block), DelegView(side));
      Nil(Delegs(log + RefEvents(kind, keys[..n], block), side));
    }
  }

  /** Binary search for the end of the leading run of a sorted list. */
  method PartitionPoint<T>(xs: seq<T>, slot: T -> nat, cut: Cut) returns (k: nat)
    requires Sorted(xs, slot)
    ensures Split(xs, slot, cut, k)
  {
    var lo, hi := 0, |xs|;
    while lo < hi
      invariant 0 <= lo <= hi <= |xs|
      invariant forall i | 0 <= i < lo :: cut.Leads(slot(xs[i]))
      invariant forall i | hi <= i < |xs| :: !cut.Leads(slot(xs[i]))
    {
      var mid := (lo + hi) / 2;
      if cut.Leads(slot(xs[mid])) {
        lo := mid + 1;
      } else {
        hi := mid;
      }
    }
    k := lo;
  }

  /** Cut every subject's list in place, then drop the subjects left with nothing. */
  method CutMap(m: RefMap, ghost log: seq<Event>, ghost kind: Kind, cut: Cut) returns (r: RefMap)
    requires Shows(m, log, kind) && Sorted(log, EventSlot)
    ensures Shows(r, Retain(log, EventSlot, cut), kind)
  {
    hide Shows, Retain;
    ShowsSorted(m, log, kind);
    r := m;
    var todo := m.Keys;
    while todo != {}
      invariant todo <= m.Keys && r.Keys == m.Keys
      invariant forall k <- m :: r[k] == if k in todo then m[k] else Retain(m[k], RefSlot, cut)
      decreases |todo|
    {
      var k :| k in todo;
      var p := PartitionPoint(r[k], RefSlot, cut);
      RetainSplit(r[k], RefSlot, cut, p);
      r := r[k := if cut.AtMost? then r[k][..p] else r[k][p..]];
      todo := todo - {k};
    }
    r := map k | k in r && r[k] != [] :: r[k];
    RetainAll([], RefSlot, cut);
    ShowsCut(m, r, log, kind, cut);
  }

  /** `block` is recorded for each subject of a set and no other. */
  ghost predicate Pushed(m: RefMap, r: RefMap, done: set<Bytes>, block: BlockRef) {
    NoEmpty(r) && forall k :: Lookup(r, k) == Lookup(m, k) + (if k in done then [block] else [])
  }

  lemma NonePushed(m: RefMap, log: seq<Event>, kind: Kind, keys: set<Bytes>, block: BlockRef)
    requires Shows(m, log, kind)
    ensures Pushed(m, m, keys - keys, block)
  {
    hide Collect;
    forall k
      ensures Lookup(m, k) + [] == Lookup(m, k)
    {
      Nil(Lookup(m, k));
    }
  }

  lemma OnePushed(m: RefMap, r: RefMap, done: set<Bytes>, block: BlockRef, k: Bytes)
    requires Pushed(m, r, done, block) && k !in done
    ensures Pushed(m, r[k := Lookup(r, k) + [block]], done + {k}, block)
  {
    assert Lookup(r, k) == Lookup(m, k) + [];
    Nil(Lookup(m, k));
  }

  lemma AllPushed(m: RefMap, r: RefMap, keys: set<Bytes>, block: BlockRef)
    requires Pushed(m, r, keys, block)
    ensures NoEmpty(r) && forall k :: Lookup(r, k) == Lookup(m, k) + (if k in keys then [block] else [])
  {
  }

  /** Record `block` for each subject of a set, in whatever order the set is walked. */
  method PushRefs(m: RefMap, ghost log: seq<Event>, kind: Kind, keys: set<Bytes>, block: BlockRef) returns (r: RefMap)
    requires Shows(m, log, kind)
    ensures Shows(r, log + RefEvents(kind, Listed(keys), block), kind)
  {
    hide Shows, Lookup, NoEmpty, RefEvents, Collect;
    r := m;
    var todo := keys;
    NonePushed(m, log, kind, keys, block);
    while todo != {}
      invariant todo <= keys && Pushed(m, r, keys - todo, block)
      decreases |todo|
    {
      var k :| k in todo;
      OnePushed(m, r, keys - todo, block, k);
      assert keys - (todo - {k}) == keys - todo + {k};
      r := r[k := Lookup(r, k) + [block]];
      todo := todo - {k};
    }
    assert keys - todo == keys;
    AllPushed(m, r, keys, block);
    ShowsRefs(m, r, log, kind, keys, block, kind);
  }

  function PushKey(index: Index, key: Option<Bytes>, idx: nat): Index {
    if key.None? then index else index[key.value := Lookup(index, key.value) + [idx]]
  }

  /** The index entry points of one more delegation. */
  lemma PushKeys(index: Index, es: seq<DelegationEntry>, e: DelegationEntry)
    requires Indexes(index, es)
    ensures Indexes(PushKey(PushKey(index, e.from, |es|), e.to, |es|), es + [e])
  {
    hide PushKey, Positions, NoEmpty;
    var n := |es|;
    var r := PushKey(PushKey(index, e.from, n), e.to, n);
    PushKeyFull(index, e.from, n);
    PushKeyFull(PushKey(index, e.from, n), e.to, n);
    forall k
      ensures Lookup(r, k) == Positions(es + [e], k)
    {
      assert Lookup(index, k) == Positions(es, k);
      PushKeyAt(index, e.from, n, k);
      PushKeyAt(PushKey(index, e.from, n), e.to, n, k);
      PositionsLast(es, e, k);
    }
  }

  lemma PushKeyFull(index: Index, key: Option<Bytes>, idx: nat)
    requires NoEmpty(index)
    ensures NoEmpty(PushKey(index, key, idx))
  {
  }

  lemma PositionsLast(es: seq<DelegationEntry>, e: DelegationEntry, k: Bytes)
    ensures Positions(es + [e], k) ==
            Positions(es, k) + (if e.from == Some(k) then [|es|] else []) + (if e.to == Some(k) then [|es|] else [])
  {
    assert (es + [e])[..|es|] == es;
    NamedIs(e, k, |es|);
    Assoc(Positions(es, k), if e.from == Some(k) then [|es|] else [], if e.to == Some(k) then [|es|] else []);
  }

  lemma NamedIs(e: DelegationEntry, k: Bytes, n: nat)
    ensures Named(e, k, n) == (if e.from == Some(k) then [n] else []) + (if e.to == Some(k) then [n] else [])
  {
  }

  lemma PushKeyAt(index: Index, key: Option<Bytes>, idx: nat, k: Bytes)
    ensures Lookup(PushKey(index, key, idx), k) == Lookup(index, k) + (if key == Some(k) then [idx] else [])
  {
    Nil(Lookup(index, k));
  }

  method Rebuild(es: seq<DelegationEntry>) returns (index: Index)
    ensures Indexes(index, es)
  {
    index := map[];
    for idx := 0 to |es|
      invariant Indexes(index, es[..idx])
    {
      assert es[..idx + 1] == es[..idx] + [es[idx]];
      PushKeys(index, es[..idx], es[idx]);
      index := PushKey(PushKey(index, es[idx].from, idx), es[idx].to, idx);
    }
    assert es[..|es|] == es;
  }

  /** An index kept entry by entry and one rebuilt from scratch are the same map. */
  lemma IncrementalIsRebuilt(kept: Index, rebuilt: Index, es: seq<DelegationEntry>)
    requires Indexes(kept, es) && Indexes(rebuilt, es)
    ensures kept == rebuilt
  {
    forall k
      ensures k in kept <==> k in rebuilt
      ensures k in kept ==> kept[k] == rebuilt[k]
    {
      assert Lookup(kept, k) == Positions(es, k) == Lookup(rebuilt, k);
    }
  }

  /** Cut one delegation log; nothing happens when a prune finds nothing to drop. */
  method CutEntries(es: seq<DelegationEntry>, index: Index, cut: Cut) returns (es': seq<DelegationEntry>, index': Index)
    requires Sorted(es, EntrySlot) && Indexes(index, es)
    ensures es' == Retain(es, EntrySlot, cut) && Indexes(index', es')
  {
    var p := PartitionPoint(es, EntrySlot, cut);
    RetainSplit(es, EntrySlot, cut, p);
    es', index' := es, index;
    if cut.AtMost? || p > 0 {
      es' := if cut.AtMost? then es[..p] else es[p..];
      index' := Rebuild(es');
    }
  }

  method EntriesAt(es: seq<DelegationEntry>, index: Index, key: Bytes) returns (r: seq<DelegationEntry>)
    requires Indexes(index, es)
    ensures r == Touching(es, key)
  {
    var positions := Lookup(index, key);
    PositionsRead(es, key);
    r := [];
    for i := 0 to |positions|
      invariant r == Touching(es, key)[..i]
    {
      r := r + [es[positions[i]]];
    }
  }

  method FilterByCred(es: seq<DelegationEntry>, cred: Bytes) returns (r: seq<DelegationEntry>)
    ensures r == ByCred(es, cred)
  {
    r := [];
    for i := 0 to |es|
      invariant r == ByCred(es[..i], cred)
    {
      assert es[..i + 1][..i] == es[..i];
      if es[i].cred == cred {
        r := r + [es[i]];
      }
    }
    assert es[..|es|] == es;
  }

  /** `log` may be followed by something at `slot`. */
  predicate UpTo(log: seq<Event>, slot: nat) {
    forall i | 0 <= i < |log| :: EventSlot(log[i]) <= slot
  }

  class FeedIndex {
    var poolMinted: RefMap
    var poolStakeChange: RefMap
    var delegationEvents: seq<DelegationEntry>
    var poolDelegationIndex: Index
    var drepStakeChange: RefMap
    var drepDelegationEvents: seq<DelegationEntry>
    var drepDelegationIndex: Index
    var poolVotes: RefMap
    var drepVotes: RefMap

    /** The events the index holds, in slot order. */
    ghost var kept: seq<Event>

    ghost predicate Valid()
      reads this
    {
      && Sorted(kept, EventSlot)
      && Shows(poolMinted, kept, PoolMinted)
      && Shows(poolStakeChange, kept, PoolStake)
      && Shows(drepStakeChange, kept, DrepStake)
      && Shows(poolVotes, kept, PoolVote)
      && Shows(drepVotes, kept, DrepVote)
      && delegationEvents == Delegs(kept, PoolSide) && Indexes(poolDelegationIndex, delegationEvents)
      && drepDelegationEvents == Delegs(kept, DrepSide) && Indexes(drepDelegationIndex, drepDelegationEvents)
    }

    constructor ()
      ensures Valid() && kept == []
    {
      poolMinted, poolStakeChange, drepStakeChange, poolVotes, drepVotes := map[], map[], map[], map[], map[];
      delegationEvents, drepDelegationEvents := [], [];
      poolDelegationIndex, drepDelegationIndex := map[], map[];
      kept := [];
    }

    /** A deep copy, to be written to disk while the index moves on. */
    constructor Copy(other: FeedIndex)
      requires other.Valid()
      ensures Valid() && kept == other.kept
    {
      poolMinted, poolStakeChange, drepStakeChange := other.poolMinted, other.poolStakeChange, other.drepStakeChange;
      poolVotes, drepVotes := other.poolVotes, other.drepVotes;
      delegationEvents, poolDelegationIndex := other.delegationEvents, other.poolDelegationIndex;
      drepDelegationEvents, drepDelegationIndex := other.drepDelegationEvents, other.drepDelegationIndex;
      kept := other.kept;
    }

    method AddPoolMinted(pool: Bytes, block: BlockRef)
      requires Valid() && UpTo(kept, block.slot)
      modifies this
      ensures Valid() && kept == old(kept) + [Ref(PoolMinted, pool, block)]
    {
      hide Shows, Indexes;
      ghost var e := Ref(PoolMinted, pool, block);
      KeepRest(e);
      ShowsRef(poolMinted, kept, PoolMinted, e);
      poolMinted := poolMinted[pool := Lookup(poolMinted, pool) + [block]];
      kept := kept + [e];
    }

    /** What one more event leaves as it was. */
    lemma KeepRest(e: Event)
      requires Valid()
      ensures e.Deleg? ==> Shows(poolMinted, kept + [e], PoolMinted)
      ensures Shows(poolStakeChange, kept + [e], PoolStake) || (e.Ref? && e.kind == PoolStake)
      ensures Shows(drepStakeChange, kept + [e], DrepStake) || (e.Ref? && e.kind == DrepStake)
      ensures Shows(poolVotes, kept + [e], PoolVote) || (e.Ref? && e.kind == PoolVote)
      ensures Shows(drepVotes, kept + [e], DrepVote) || (e.Ref? && e.kind == DrepVote)
      ensures forall side :: !(e.Deleg? && e.side == side) ==> Delegs(kept + [e], side) == Delegs(kept, side)
    {
      hide Shows, Indexes;
      ShowsRef(poolMinted, kept, PoolMinted, e);
      ShowsRef(poolStakeChange, kept, PoolStake, e);
      ShowsRef(drepStakeChange, kept, DrepStake, e);
      ShowsRef(poolVotes, kept, PoolVote, e);
      ShowsRef(drepVotes, kept, DrepVote, e);
      DelegsLast(kept, e, PoolSide);
      DelegsLast(kept, e, DrepSide);
    }

    method AddRefs(kind: Kind, keys: set<Bytes>, block: BlockRef)
      requires Valid() && UpTo(kept, block.slot) && kind != PoolMinted
      modifies this
      ensures Valid() && kept == old(kept) + RefEvents(kind, Listed(keys), block)
    {
      hide Shows, Indexes, RefEvents, Delegs, Sorted, UpTo;
      ghost var more := RefEvents(kind, Listed(keys), block);
      KeepRests(kind, keys, block);
      match kind {
        case PoolStake => poolStakeChange := PushRefs(poolStakeChange, kept, kind, keys, block);
        case DrepStake => drepStakeChange := PushRefs(drepStakeChange, kept, kind, keys, block);
        case PoolVote => poolVotes := PushRefs(poolVotes, kept, kind, keys, block);
        case DrepVote => drepVotes := PushRefs(drepVotes, kept, kind, keys, block);
      }
      kept := kept + more;
    }

    lemma KeepRests(kind: Kind, keys: set<Bytes>, block: BlockRef)
      requires Valid() && UpTo(kept, block.slot)
      ensures var log := kept + RefEvents(kind, Listed(keys), block);
              && Sorted(log, EventSlot)
              && (kind != PoolMinted ==> Shows(poolMinted, log, PoolMinted))
              && (kind != PoolStake ==> Shows(poolStakeChange, log, PoolStake))
              && (kind != DrepStake ==> Shows(drepStakeChange, log, DrepStake))
              && (kind != PoolVote ==> Shows(poolVotes, log, PoolVote))
              && (kind != DrepVote ==> Shows(drepVotes, log, DrepVote))
              && (forall side :: Delegs(log, side) == Delegs(kept, side))
    {
      hide Shows, Indexes;
      ShowsOther(poolMinted, kept, kind, keys, block, PoolMinted);
      ShowsOther(poolStakeChange, kept, kind, keys, block, PoolStake);
      ShowsOther(drepStakeChange, kept, kind, keys, block, DrepStake);
      ShowsOther(poolVotes, kept, kind, keys, block, PoolVote);
      ShowsOther(drepVotes, kept, kind, keys, block, DrepVote);
      forall side
        ensures Delegs(kept + RefEvents(kind, Listed(keys), block), side) == Delegs(kept, side)
      {
        RefEventsDelegs(kept, kind, Listed(keys), block, side);
      }
    }

    method AddDelegation(side: Side, entry: DelegationEntry)
      requires Valid() && UpTo(kept, entry.slot)
      modifies this
      ensures Valid() && kept == old(kept) + [Deleg(side, entry)]
    {
      hide Shows, Indexes, PushKey, Delegs;
      ghost var e := Deleg(side, entry);
      KeepRest(e);
      DelegsLast(kept, e, side);
      if side == PoolSide {
        var idx := |delegationEvents|;
        PushKeys(poolDelegationIndex, delegationEvents, entry);
        poolDelegationIndex := PushKey(PushKey(poolDelegationIndex, entry.from, idx), entry.to, idx);
        delegationEvents := delegationEvents + [entry];
      } else {
        var idx := |drepDelegationEvents|;
        PushKeys(drepDelegationIndex, drepDelegationEvents, entry);
        drepDelegationIndex := PushKey(PushKey(drepDelegationIndex, entry.from, idx), entry.to, idx);
        drepDelegationEvents := drepDelegationEvents + [entry];
      }
      kept := kept + [e];
    }

    method Rollback(slot: nat)
      requires Valid()
      modifies this
      ensures Valid() && kept == Retain(old(kept), EventSlot, AtMost(slot))
    {
      CutAll(AtMost(slot));
    }

    method Prune(boundary: nat)
      requires Valid()
      modifies this
      ensures Valid() && kept == Retain(old(kept), EventSlot, AtLeast(boundary))
    {
      CutAll(AtLeast(boundary));
    }

    /** What rollback and prune share: every list and log is cut, and the position indexes follow. */
    method CutAll(cut: Cut)
      requires Valid()
      modifies this
      ensures Valid() && kept == Retain(old(kept), EventSlot, cut)
    {
      hide Shows, Indexes, Retain, Delegs, Sorted;
      ghost var now := Retain(kept, EventSlot, cut);
      RetainSorted(kept, EventSlot, cut);
      poolMinted := CutMap(poolMinted, kept, PoolMinted, cut);
      poolStakeChange := CutMap(poolStakeChange, kept, PoolStake, cut);
      DelegsCut(kept, PoolSide, cut);
      delegationEvents, poolDelegationIndex := CutEntries(delegationEvents, poolDelegationIndex, cut);
      drepStakeChange := CutMap(drepStakeChange, kept, DrepStake, cut);
      DelegsCut(kept, DrepSide, cut);
      drepDelegationEvents, drepDelegationIndex := CutEntries(drepDelegationEvents, drepDelegationIndex, cut);
      poolVotes := CutMap(poolVotes, kept, PoolVote, cut);
      drepVotes := CutMap(drepVotes, kept, DrepVote, cut);
      kept := now;
    }

    method PoolMintedBlocks(pool: Bytes) returns (r: seq<BlockRef>)
      requires Valid()
      ensures r == Refs(kept, PoolMinted, pool)
    {
      r := Lookup(poolMinted, pool);
    }

    method BlocksOf(kind: Kind, key: Bytes) returns (r: seq<BlockRef>)
      requires Valid()
      ensures r == Refs(kept, kind, key)
    {
      match kind {
        case PoolMinted => r := Lookup(poolMinted, key);
        case PoolStake => r := Lookup(poolStakeChange, key);
        case DrepStake => r := Lookup(drepStakeChange, key);
        case PoolVote => r := Lookup(poolVotes, key);
        case DrepVote => r := Lookup(drepVotes, key);
      }
    }

    method DelegationEntries(side: Side, key: Bytes) returns (r: seq<DelegationEntry>)
      requires Valid()
      ensures r == Touching(Delegs(kept, side), key)
    {
      if side == PoolSide {
        r := EntriesAt(delegationEvents, poolDelegationIndex, key);
      } else {
        r := EntriesAt(drepDelegationEvents, drepDelegationIndex, key);
      }
    }

    method DelegationEntriesByCred(cred: Bytes) returns (pool: seq<DelegationEntry>, drep: seq<DelegationEntry>)
      requires Valid()
      ensures pool == ByCred(Delegs(kept, PoolSide), cred)
      ensures drep == ByCred(Delegs(kept, DrepSide), cred)
    {
      pool := FilterByCred(delegationEvents, cred);
      drep := FilterByCred(drepDelegationEvents, cred);
    }
  }

  // ---- How the views follow a change of the log ----

  lemma ShowsRef(m: RefMap, log: seq<Event>, kind: Kind, e: Event)
    requires Shows(m, log, kind)
    ensures Shows(if e.Ref? && e.kind == kind then m[e.key := Lookup(m, e.key) + [e.block]] else m, log + [e], kind)
  {
    hide Collect;
    var r := if e.Ref? && e.kind == kind then m[e.key := Lookup(m, e.key) + [e.block]] else m;
    forall k
      ensures Lookup(r, k) == Refs(log + [e], kind, k)
    {
      CollectLast(log, e, RefView(kind, k));
      assert Lookup(m, k) == Refs(log, kind, k);
      Nil(Lookup(m, k));
    }
  }

  lemma ShowsRefs(m: RefMap, m': RefMap, log: seq<Event>, kind: Kind, keys: set<Bytes>, block: BlockRef, kind': Kind)
    requires Shows(m, log, kind') && NoEmpty(m')
    requires forall k :: Lookup(m', k) == Lookup(m, k) + (if kind == kind' && k in keys then [block] else [])
    ensures Shows(m', log + RefEvents(kind, Listed(keys), block), kind')
  {
    forall k
      ensures Lookup(m', k) == Refs(log + RefEvents(kind, Listed(keys), block), kind', k)
    {
      RefEventsView(log, kind, Listed(keys), block, kind', k);
    }
  }

  lemma ShowsOther(m: RefMap, log: seq<Event>, kind: Kind, keys: set<Bytes>, block: BlockRef, kind': Kind)
    requires Shows(m, log, kind')
    ensures kind != kind' ==> Shows(m, log + RefEvents(kind, Listed(keys), block), kind')
  {
    if kind != kind' {
      forall k
        ensures Lookup(m, k) == Lookup(m, k) + (if kind == kind' && k in keys then [block] else [])
      {
        Nil(Lookup(m, k));
      }
      ShowsRefs(m, m, log, kind, keys, block, kind');
    }
  }

  lemma ShowsCut(m: RefMap, m': RefMap, log: seq<Event>, kind: Kind, cut: Cut)
    requires Shows(m, log, kind) && NoEmpty(m')
    requires forall k :: Lookup(m', k) == Retain(Lookup(m, k), RefSlot, cut)
    ensures Shows(m', Retain(log, EventSlot, cut), kind)
  {
    forall k
      ensures Lookup(m', k) == Refs(Retain(log, EventSlot, cut), kind, k)
    {
      CollectRetain(log, RefView(kind, k), RefSlot, cut);
    }
  }

  lemma ShowsSorted(m: RefMap, log: seq<Event>, kind: Kind)
    requires Shows(m, log, kind) && Sorted(log, EventSlot)
    ensures forall k <- m :: Sorted(m[k], RefSlot)
  {
    forall k <- m
      ensures Sorted(m[k], RefSlot)
    {
      CollectSorted(log, RefView(kind, k), RefSlot);
      assert Lookup(m, k) == Refs(log, kind, k);
    }
  }

  lemma DelegsLast(log: seq<Event>, e: Event, side: Side)
    ensures Delegs(log + [e], side) == if e.Deleg? && e.side == side then Delegs(log, side) + [e.entry] else Delegs(log, side)
  {
    CollectLast(log, e, DelegView(side));
    Nil(Delegs(log, side));
  }

  lemma DelegsCut(log: seq<Event>, side: Side, cut: Cut)
    requires Sorted(log, EventSlot)
    ensures Delegs(Retain(log, EventSlot, cut), side) == Retain(Delegs(log, side), EntrySlot, cut)
    ensures Sorted(Delegs(log, side), EntrySlot)
  {
    CollectRetain(log, DelegView(side), EntrySlot, cut);
    CollectSorted(log, DelegView(side), EntrySlot);
  }

  // ---- What equal lists say ----

  /** Every list, log and position index of the two is the same. */
  ghost predicate SameLists(a: FeedIndex, b: FeedIndex)
    reads a, b
  {
    && a.poolMinted == b.poolMinted && a.poolStakeChange == b.poolStakeChange && a.drepStakeChange == b.drepStakeChange
    && a.poolVotes == b.poolVotes && a.drepVotes == b.drepVotes
    && a.delegationEvents == b.delegationEvents && a.poolDelegationIndex == b.poolDelegationIndex
    && a.drepDelegationEvents == b.drepDelegationEvents && a.drepDelegationIndex == b.drepDelegationIndex
  }

  lemma ShownOnce(a: RefMap, b: RefMap, log: seq<Event>, kind: Kind)
    requires Shows(a, log, kind) && Shows(b, log, kind)
    ensures a == b
  {
    hide Collect;
    forall k
      ensures k in a <==> k in b
      ensures k in a ==> a[k] == b[k]
    {
      assert Lookup(a, k) == Refs(log, kind, k) == Lookup(b, k);
    }
  }

  /** A view that shows an item for one event alone shows it as often as the event is there. */
  lemma {:induction false} CollectCount<T>(log: seq<Event>, f: Event -> seq<T>, e: Event, item: T)
    requires forall x :: multiset(f(x))[item] == if x == e then 1 else 0
    ensures multiset(Collect(log, f))[item] == multiset(log)[e]
  {
    if log != [] {
      var n := |log| - 1;
      CollectCount(log[..n], f, e, item);
      assert log == log[..n] + [log[n]];
    }
  }

  lemma RefsCount(log: seq<Event>, kind: Kind, key: Bytes, block: BlockRef)
    ensures multiset(Refs(log, kind, key))[block] == multiset(log)[Ref(kind, key, block)]
  {
    hide Collect;
    CollectCount(log, RefView(kind, key), Ref(kind, key, block), block);
  }

  lemma DelegsCount(log: seq<Event>, side: Side, entry: DelegationEntry)
    ensures multiset(Delegs(log, side))[entry] == multiset(log)[Deleg(side, entry)]
  {
    hide Collect;
    CollectCount(log, DelegView(side), Deleg(side, entry), entry);
  }

  /** A list shows as many of each event in both logs. */
  lemma SameRefs(m: RefMap, x: seq<Event>, y: seq<Event>, kind: Kind, key: Bytes, block: BlockRef)
    requires Shows(m, x, kind) && Shows(m, y, kind)
    ensures multiset(x)[Ref(kind, key, block)] == multiset(y)[Ref(kind, key, block)]
  {
    hide Collect;
    RefsCount(x, kind, key, block);
    RefsCount(y, kind, key, block);
    assert Lookup(m, key) == Refs(x, kind, key) == Refs(y, kind, key);
  }

  /** Indexes of the same events have the same lists; with the same lists they hold as many of every event. */
  lemma SameListsSameEvents(a: FeedIndex, b: FeedIndex)
    requires a.Valid() && b.Valid()
    ensures a.kept == b.kept ==> SameLists(a, b)
    ensures SameLists(a, b) ==> multiset(a.kept) == multiset(b.kept) && |a.kept| == |b.kept|
  {
    if a.kept == b.kept {
      EqualLists(a, b);
    }
    if SameLists(a, b) {
      forall e
        ensures multiset(a.kept)[e] == multiset(b.kept)[e]
      {
        EqualCounts(a, b, e);
      }
      assert multiset(a.kept) == multiset(b.kept);
      assert |a.kept| == |multiset(a.kept)|;
    }
  }

  lemma EqualLists(a: FeedIndex, b: FeedIndex)
    requires a.Valid() && b.Valid() && a.kept == b.kept
    ensures SameLists(a, b)
  {
    hide Shows, Indexes, Sorted, Delegs;
    ShownOnce(a.poolMinted, b.poolMinted, a.kept, PoolMinted);
    ShownOnce(a.poolStakeChange, b.poolStakeChange, a.kept, PoolStake);
    ShownOnce(a.drepStakeChange, b.drepStakeChange, a.kept, DrepStake);
    ShownOnce(a.poolVotes, b.poolVotes, a.kept, PoolVote);
    ShownOnce(a.drepVotes, b.drepVotes, a.kept, DrepVote);
    IncrementalIsRebuilt(a.poolDelegationIndex, b.poolDelegationIndex, a.delegationEvents);
    IncrementalIsRebuilt(a.drepDelegationIndex, b.drepDelegationIndex, a.drepDelegationEvents);
  }

  lemma EqualCounts(a: FeedIndex, b: FeedIndex, e: Event)
    requires a.Valid() && b.Valid() && SameLists(a, b)
    ensures multiset(a.kept)[e] == multiset(b.kept)[e]
  {
    hide Shows, Indexes, Sorted, Delegs;
    match e
    case Ref(kind, key, block) =>
      var m := match kind
        case PoolMinted => a.poolMinted
        case PoolStake => a.poolStakeChange
        case DrepStake => a.drepStakeChange
        case PoolVote => a.poolVotes
        case DrepVote => a.drepVotes;
      SameRefs(m, a.kept, b.kept, kind, key, block);
    case Deleg(side, entry) =>
      DelegsCount(a.kept, side, entry);
      DelegsCount(b.kept, side, entry);
      assert side == PoolSide || side == DrepSide;
  }
}
