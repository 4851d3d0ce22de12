/**
 * Stopping and resuming: a snapshot from behind the tip is written beside the tip's feed index,
 * loaded, rolled back to its own slot and brought forward again.
 */
module Restart {
  import opened Wrappers
  import opened Seqs
  import opened KeyOrder
  import W = HoldingsWire
  import H = Handles
  import D = Delegations
  import opened FeedLog
  import opened Feed
  import opened Chain
  import opened KeptLog
  import opened Stakes
  import opened State
  import opened Runs

  const FORMAT: nat := 17

  /** The guards, the snapshot without its holdings and its stake index, the holdings stream, and the index. */
  datatype File = File(format: nat, magic: nat, fields: Snapshot, holdings: W.Toks, index: FeedIndex)

  function Bare(s: Snapshot): Snapshot {
    s.(books := s.books.(holdings := map[]), handles := s.handles.(byStake := map[]))
  }

  /** The file of a snapshot: everything but what is derived, with the holdings as a stream. */
  ghost predicate Holds(f: File, s: Snapshot, magic: nat) {
    && f.format == FORMAT && f.magic == magic && f.fields == Bare(s)
    && exists es :: SortedEntries(es) && MapOf(es) == s.books.holdings && f.holdings == W.WriteHoldings(es)
  }

  method WriteSnapshot(s: Snapshot, index: FeedIndex, magic: nat) returns (f: File)
    ensures Holds(f, s, magic) && f.index == index
  {
    var es := InOrder(s.books.holdings);
    var holdings := W.SerializeHoldings(es);
    f := File(FORMAT, magic, Bare(s), holdings, index);
  }

  /** None for a stale format, a foreign network or a malformed stream; guards first. */
  method LoadSnapshot(f: File, magic: nat) returns (r: Option<Snapshot>)
    ensures var read := W.ReadHoldings(f.holdings);
            r == if f.format != FORMAT || f.magic != magic || read.Malformed? then None
                 else Some(f.fields.(books := f.fields.books.(holdings := read.value.holdings)))
    ensures forall s :: Holds(f, s, f.magic) && f.magic == magic ==> r == Some(s.(handles := s.handles.(byStake := map[])))
  {
    if f.format != FORMAT || f.magic != magic {
      return None;
    }
    var read := W.ReadHoldings(f.holdings);
    forall s | Holds(f, s, magic)
      ensures read.Ok? && read.value.holdings == s.books.holdings
    {
      var es :| SortedEntries(es) && MapOf(es) == s.books.holdings && f.holdings == W.WriteHoldings(es);
      W.StreamRoundTrip(es, []);
      assert W.WriteHoldings(es) + [] == f.holdings;
    }
    match read {
      case Malformed => r := None;
      case Ok(loaded, _) => r := Some(f.fields.(books := f.fields.books.(holdings := loaded.holdings)));
    }
  }

  /** A file whose stream was cut short is not loaded. */
  lemma CutFile(f: File, s: Snapshot, k: nat)
    requires Holds(f, s, f.magic) && k < |f.holdings|
    ensures W.ReadHoldings(f.holdings[..k]).Malformed?
  {
    var es :| SortedEntries(es) && MapOf(es) == s.books.holdings && f.holdings == W.WriteHoldings(es);
    W.CutShort(es, k);
  }

  // ---- Snapshots that differ only in the derived stake index ----

  ghost predicate SameButLists(env: Env, a: Snapshot, b: Snapshot) {
    && b == a.(handles := a.handles.(byStake := b.handles.byStake))
    && H.Consistent(a.handles, env.credOf) && H.Consistent(b.handles, env.credOf)
  }

  lemma {:induction false} MovesApart(a: H.HandleMaps, b: H.HandleMaps, moves: seq<H.Move>, credOf: H.CredOf)
    requires a.byHandle == b.byHandle && a.byAddress == b.byAddress
    ensures var x, y := H.AllMoved(a, moves, credOf), H.AllMoved(b, moves, credOf); x.byHandle == y.byHandle && x.byAddress == y.byAddress
  {
    if moves != [] {
      MovesApart(a, b, moves[..|moves| - 1], credOf);
    }
  }

  lemma {:induction false} BurnsApart(a: H.HandleMaps, b: H.HandleMaps, produced: set<string>, spent: seq<string>, credOf: H.CredOf)
    requires a.byHandle == b.byHandle && a.byAddress == b.byAddress
    ensures var x, y := H.AllBurned(a, produced, spent, credOf), H.AllBurned(b, produced, spent, credOf);
            x.byHandle == y.byHandle && x.byAddress == y.byAddress
  {
    if spent != [] {
      BurnsApart(a, b, produced, spent[..|spent| - 1], credOf);
    }
  }

  /** A block takes such snapshots to such snapshots, and records the same events from either. */
  lemma SameNext(env: Env, a: Snapshot, b: Snapshot, blk: Block)
    requires SameButLists(env, a, b)
    ensures SameButLists(env, Next(env, a, blk), Next(env, b, blk))
    ensures EventsOf(env, a, blk) == EventsOf(env, b, blk)
  {
    hide H.Consistent, H.Updated, EntriesOf;
    H.UpdatesKeep(a.handles, blk.Moves(), blk.HandlesSpent(), env.credOf);
    H.UpdatesKeep(b.handles, blk.Moves(), blk.HandlesSpent(), env.credOf);
    UpdatedApart(a.handles, b.handles, blk, env.credOf);
    SameEntries(a, b, a.pools, blk, blk.Certs(PoolSide));
    SameEntries(a, b, a.dreps, blk, blk.Certs(DrepSide));
  }

  lemma UpdatedApart(a: H.HandleMaps, b: H.HandleMaps, blk: Block, credOf: H.CredOf)
    requires a.byHandle == b.byHandle && a.byAddress == b.byAddress
    ensures var x, y := H.Updated(a, blk.Moves(), blk.HandlesSpent(), credOf), H.Updated(b, blk.Moves(), blk.HandlesSpent(), credOf);
            x.byHandle == y.byHandle && x.byAddress == y.byAddress
  {
    MovesApart(a, b, blk.Moves(), credOf);
    BurnsApart(H.AllMoved(a, blk.Moves(), credOf), H.AllMoved(b, blk.Moves(), credOf), H.HandlesOf(blk.Moves()),
               blk.HandlesSpent(), credOf);
  }

  lemma {:induction false} SameEntries(a: Snapshot, b: Snapshot, book: D.Book, blk: Block, certs: seq<DelegCert>)
    requires a.stakes == b.stakes && a.rewards == b.rewards
    ensures EntriesOf(a, book, blk, certs) == EntriesOf(b, book, blk, certs)
  {
    if certs != [] {
      SameEntries(a, b, book, blk, certs[..|certs| - 1]);
    }
  }

  lemma {:induction false} SameFold(env: Env, a: Snapshot, b: Snapshot, chain: seq<Block>)
    requires SameButLists(env, a, b)
    ensures SameButLists(env, Fold(env, a, chain), Fold(env, b, chain))
    ensures LogOf(env, a, chain) == LogOf(env, b, chain)
  {
    hide SameButLists, Next, EventsOf;
    if chain != [] {
      var n := |chain| - 1;
      SameFold(env, a, b, chain[..n]);
      SameNext(env, Fold(env, a, chain[..n]), Fold(env, b, chain[..n]), chain[n]);
    }
  }

  lemma {:induction false} ConsistentFold(env: Env, base: Snapshot, chain: seq<Block>)
    requires H.Consistent(base.handles, env.credOf)
    ensures H.Consistent(Fold(env, base, chain).handles, env.credOf)
  {
    hide H.Consistent, H.Updated;
    if chain != [] {
      var n := |chain| - 1;
      ConsistentFold(env, base, chain[..n]);
      H.UpdatesKeep(Fold(env, base, chain[..n]).handles, chain[n].Moves(), chain[n].HandlesSpent(), env.credOf);
    }
  }

  lemma {:induction false} SameKept(env: Env, a: Snapshot, b: Snapshot, chain: seq<Block>, floors: seq<nat>)
    requires SameButLists(env, a, b) && |floors| == |chain|
    ensures Kept(env, a, chain, floors) == Kept(env, b, chain, floors)
  {
    hide SameButLists, Next, EventsOf, Retain;
    if chain != [] {
      var n := |chain| - 1;
      SameKept(env, a, b, chain[..n], floors[..n]);
      SameFold(env, a, b, chain[..n]);
      SameNext(env, Fold(env, a, chain[..n]), Fold(env, b, chain[..n]), chain[n]);
    }
  }

  // ---- Running on after the save ----

  /** No rollback reaches below the slot or below the history. */
  ghost predicate StaysAbove(t: Track, slot: nat, messages: seq<Message>)
    requires |t.floors| == |t.chain|
  {
    forall i | 0 <= i < |messages| && messages[i].Rollback? ::
      messages[i].slot >= slot && OldestSlot(After(t, messages[..i])) <= messages[i].slot
  }

  /** The later state still has the first `m` blocks and the loaded index of the earlier one, its boundaries no lower. */
  ghost predicate Extends(t: Track, t': Track, m: nat) {
    && |t.floors| == |t.chain| && |t'.floors| == |t'.chain|
    && t'.base == t.base && t'.loaded == t.loaded && t'.floor >= t.floor
    && m <= |t.chain| && m <= |t'.chain| && t'.chain[..m] == t.chain[..m]
    && forall i | 0 <= i < m :: t'.floors[i] >= t.floors[i]
  }

  lemma {:induction false} SurvivorsKeep(chain: seq<Block>, m: nat, slot: nat)
    requires m <= |chain| && forall i | 0 <= i < m :: chain[i].slot <= slot
    ensures var left := Survivors(chain, slot); m <= |left| && left == chain[..|left|]
  {
    if chain != [] && chain[|chain| - 1].slot > slot {
      SurvivorsKeep(chain[..|chain| - 1], m, slot);
    }
  }

  lemma StepExtends(t: Track, t': Track, m: nat, slot: nat, msg: Message)
    requires Extends(t, t', m) && UpTo(t.loaded, slot) && forall i | 0 <= i < m :: t.chain[i].slot <= slot
    requires msg.Rollback? ==> msg.slot >= slot && OldestSlot(t') <= msg.slot
    ensures Extends(t, Step(t', msg), m)
  {
    hide Retain;
    if msg.Rollback? {
      forall i | 0 <= i < m
        ensures t'.chain[i].slot <= msg.slot
      {
        assert t'.chain[i] == t'.chain[..m][i] == t.chain[..m][i];
      }
      SurvivorsKeep(t'.chain, m, msg.slot);
      RetainAll(t.loaded, EventSlot, AtMost(msg.slot));
    } else {
      assert (t'.chain + [msg.block])[..m] == t'.chain[..m];
    }
  }

  lemma {:induction false} RunExtends(t: Track, messages: seq<Message>, m: nat, slot: nat)
    requires |t.floors| == |t.chain| && m <= |t.chain| && UpTo(t.loaded, slot) && forall i | 0 <= i < m :: t.chain[i].slot <= slot
    requires StaysAbove(t, slot, messages)
    ensures Extends(t, After(t, messages), m)
  {
    hide Step, UpTo;
    if messages != [] {
      var n := |messages| - 1;
      forall i | 0 <= i < n
        ensures messages[..n][..i] == messages[..i]
      {
      }
      RunExtends(t, messages[..n], m, slot);
      StepExtends(t, After(t, messages[..n]), m, slot, messages[n]);
    }
  }

  // ---- The blocks handed over after the saved point ----

  function Applies(blocks: seq<Block>): (r: seq<Message>)
    ensures |r| == |blocks|
  {
    seq(|blocks|, i requires 0 <= i < |blocks| => Apply(blocks[i]))
  }

  function Boundary(blocks: seq<Block>): nat {
    if blocks == [] then 0 else Minus(blocks[|blocks| - 1].slot, WINDOW)
  }

  lemma RaisedConstant(n: nat, low: nat, high: nat)
    requires low <= high
    ensures Raised(Constant(n, low), high) + [high] == Constant(n + 1, high)
  {
  }

  /** Blocks in order prune everything to the last one's boundary. */
  lemma {:induction false} AppliedInOrder(t: Track, blocks: seq<Block>)
    requires t.chain == [] && t.floors == [] && t.floor == 0 && Increasing(t.base.slot, blocks)
    ensures var r := After(t, Applies(blocks));
            && r.base == t.base && r.chain == blocks && r.loaded == t.loaded
            && r.floors == Constant(|blocks|, Boundary(blocks)) && r.floor == Boundary(blocks)
  {
    if blocks == [] {
      assert Constant(0, Boundary(blocks)) == [];
    } else {
      var n := |blocks| - 1;
      assert Applies(blocks)[..n] == Applies(blocks[..n]);
      AppliedInOrder(t, blocks[..n]);
      RaisedConstant(n, Boundary(blocks[..n]), Boundary(blocks));
    }
  }

  lemma AppliesClimb(t: Track, blocks: seq<Block>)
    requires t.chain == [] && t.floors == [] && t.floor == 0 && Increasing(t.base.slot, blocks)
    requires forall b <- blocks :: b.Listed()
    ensures Climbing(t, Applies(blocks))
  {
    hide After;
    forall i | 0 <= i < |blocks|
      ensures Fits(After(t, Applies(blocks)[..i]), Applies(blocks)[i])
    {
      assert Applies(blocks)[..i] == Applies(blocks[..i]);
      AppliedInOrder(t, blocks[..i]);
      assert blocks[i] in blocks;
    }
  }

  // ---- Resuming ----

  /** The boundaries a resumed index has seen: those of the save for the blocks it covers, and the tip's own. */
  function ResumedFloors(t: Track, t': Track, m: nat): (r: seq<nat>)
    requires m <= |t.floors| && m <= |t'.chain|
    ensures |r| == |t'.chain|
  {
    Raised(t.floors[..m], Boundary(t'.chain[m..])) + Constant(|t'.chain| - m, Boundary(t'.chain[m..]))
  }

  /**
   * Nothing recorded lies between the boundaries a resumed index has seen and those of an index that
   * ran on: `t` is the state saved, with `m` blocks covered by the snapshot, and `t'` the state stopped at.
   */
  ghost predicate SameIndex(env: Env, t: Track, t': Track, m: nat)
    requires m <= |t.floors| && m <= |t'.chain| && |t'.floors| == |t'.chain|
  {
    && (forall e <- t.loaded :: !(Larger(t.floor, Boundary(t'.chain[m..])) <= EventSlot(e) < t'.floor))
    && NoneBetween(env, t'.base, t'.chain, ResumedFloors(t, t', m), t'.floors)
  }

  /** What the saved index, cut back to the snapshot's slot and brought forward again, holds. */
  lemma ResumedHeld(env: Env, t: Track, t': Track, m: nat, slot: nat, restored: Snapshot)
    requires Extends(t, t', m) && UpTo(t.loaded, slot) && Survive(t.chain, m, slot)
    requires SameButLists(env, Fold(env, t.base, t.chain[..m]), restored)
    ensures var later := t'.chain[m..];
            var kept := Retain(Held(env, t.base, t.chain, t.loaded, t.floors, t.floor), EventSlot, AtMost(slot));
            Held(env, restored, later, kept, Constant(|later|, Boundary(later)), Boundary(later)) ==
            Held(env, t'.base, t'.chain, t'.loaded, ResumedFloors(t, t', m), Larger(t.floor, Boundary(later)))
  {
    hide Retain, Kept, SameButLists, Fold, UpTo;
    var later, saved := t'.chain[m..], Fold(env, t.base, t.chain[..m]);
    var floors, low := ResumedFloors(t, t', m), Boundary(later);
    RetainLoaded(t.loaded, slot);
    HeldRollsBack(env, t.base, t.chain, t.loaded, t.floors, t.floor, m, slot);
    var a, k := Retain(t.loaded, EventSlot, AtLeast(t.floor)), Kept(env, t.base, t.chain[..m], t.floors[..m]);
    RetainConcat(a, k, EventSlot, AtLeast(low));
    RetainTwice(t.loaded, EventSlot, AtLeast(t.floor), AtLeast(low), AtLeast(Larger(t.floor, low)));
    PruneKept(env, t.base, t.chain[..m], t.floors[..m], low);
    SameKept(env, saved, restored, later, Constant(|later|, low));
    assert t'.chain == t'.chain[..m] + later && floors[..m] == Raised(t.floors[..m], low) && floors[m..] == Constant(|later|, low);
    KeptConcat(env, t.base, t'.chain[..m], later, floors);
    Assoc(Retain(t.loaded, EventSlot, AtLeast(Larger(t.floor, low))), Kept(env, t.base, t.chain[..m], floors[..m]),
          Kept(env, saved, later, floors[m..]));
  }

  lemma RetainLoaded(loaded: seq<Event>, slot: nat)
    requires UpTo(loaded, slot)
    ensures Retain(loaded, EventSlot, AtMost(slot)) == loaded
  {
    RetainAll(loaded, EventSlot, AtMost(slot));
  }

  /** The resumed boundaries are no higher than those of running on. */
  lemma FloorsNoHigher(t: Track, t': Track, m: nat)
    requires Extends(t, t', m) && Bounded(t'.chain, t'.floors, t'.floor)
    ensures forall i | 0 <= i < |t'.chain| :: ResumedFloors(t, t', m)[i] <= t'.floors[i]
    ensures Larger(t.floor, Boundary(t'.chain[m..])) <= t'.floor
  {
    var n := |t'.chain| - 1;
    if m < |t'.chain| {
      assert t'.chain[m..][n - m] == t'.chain[n];
      assert forall i | 0 <= i <= n :: t'.floors[i] >= t'.floors[n] >= Boundary(t'.chain[m..]);
    }
  }

  lemma IndexesCompare(env: Env, t: Track, t': Track, m: nat)
    requires Extends(t, t', m) && Bounded(t'.chain, t'.floors, t'.floor)
    ensures (Held(env, t'.base, t'.chain, t'.loaded, ResumedFloors(t, t', m), Larger(t.floor, Boundary(t'.chain[m..]))) ==
             Held(env, t'.base, t'.chain, t'.loaded, t'.floors, t'.floor)) <==>
            SameIndex(env, t, t', m)
    ensures (|Held(env, t'.base, t'.chain, t'.loaded, ResumedFloors(t, t', m), Larger(t.floor, Boundary(t'.chain[m..])))| ==
             |Held(env, t'.base, t'.chain, t'.loaded, t'.floors, t'.floor)|) ==>
            SameIndex(env, t, t', m)
  {
    hide Held, NoneBetween, ResumedFloors, Boundary, Bounded;
    FloorsNoHigher(t, t', m);
    HeldCompare(env, t'.base, t'.chain, t'.loaded, ResumedFloors(t, t', m), Larger(t.floor, Boundary(t'.chain[m..])), t'.floors, t'.floor);
  }

  /** The tip's own boundary is the highest: whatever the save covered, resuming makes no difference. */
  lemma NeverPrunedAbove(env: Env, t: Track, t': Track, m: nat)
    requires Extends(t, t', m) && Bounded(t'.chain, t'.floors, t'.floor) && t'.floor <= Boundary(t'.chain[m..])
    ensures SameIndex(env, t, t', m)
  {
    hide Records;
    FloorsNoHigher(t, t', m);
    assert forall i | 0 <= i < |t'.chain| :: ResumedFloors(t, t', m)[i] >= Boundary(t'.chain[m..]);
  }

  /** Nor when the state is stopped as saved and was not pruned above the saved slot. */
  lemma StoppedAsSaved(env: Env, t: Track, m: nat)
    requires |t.floors| == |t.chain| && m <= |t.chain| && Bounded(t.chain, t.floors, t.floor)
    requires forall i | m <= i < |t.chain| :: t.chain[i].slot >= t.floor
    ensures SameIndex(env, t, t, m)
  {
    hide Records;
    FloorsNoHigher(t, t, m);
  }

  /** How many blocks the saved snapshot covers. */
  ghost function Saved(st: State, depth: nat): (m: nat)
    reads st, st.feed
    requires st.Valid() && st.history != [] && depth >= 1
    ensures m <= |st.chain|
  {
    |st.chain| - (|st.history| - 1 - Minus(|st.history|, depth))
  }

  ghost function SavedSlot(st: State, depth: nat): nat
    reads st, st.feed
    requires st.Valid() && st.history != [] && depth >= 1
  {
    TipSlot(st.base, st.chain[..Saved(st, depth)])
  }

  lemma SavedIs(st: State, depth: nat)
    requires st.Valid() && st.history != [] && depth >= 1
    ensures st.history[Minus(|st.history|, depth)] == Fold(st.env, st.base, st.chain[..Saved(st, depth)])
    ensures st.history[Minus(|st.history|, depth)].slot == SavedSlot(st, depth)
    ensures Survive(st.chain, Saved(st, depth), SavedSlot(st, depth)) && st.base.slot <= SavedSlot(st, depth)
  {
    hide Fold, Held;
    FoldSlot(st.env, st.base, st.chain[..Saved(st, depth)]);
  }

  lemma ExactAddresses(env: Env, s: Snapshot)
    requires H.Consistent(s.handles, env.credOf)
    ensures H.Exact(s.handles.byAddress, H.AddressOwner(s.handles.byHandle))
  {
  }

  lemma RestoredIs(env: Env, s: Snapshot, restored: Snapshot)
    requires H.Consistent(s.handles, env.credOf)
    requires restored == s.(handles := s.handles.(byStake := restored.handles.byStake))
    requires H.Exact(restored.handles.byStake, H.StakeOwner(s.handles.byHandle, env.credOf))
    ensures SameButLists(env, s, restored)
  {
    hide H.Exact;
  }

  lemma SameStakeLists(env: Env, a: Snapshot, b: Snapshot)
    requires SameButLists(env, a, b)
    ensures H.SameSets(a.handles.byStake, b.handles.byStake)
  {
    hide H.Exact;
    H.ExactUnique(a.handles.byStake, b.handles.byStake, H.StakeOwner(a.handles.byHandle, env.credOf));
  }

  /** Load the file, restore, roll back to the snapshot's slot, and apply the blocks the node hands over after it. */
  method Resume(env: Env, f: File, magic: nat, ghost snap: Snapshot, later: seq<Block>) returns (r: State)
    requires Holds(f, snap, magic) && f.index.Valid() && H.Consistent(snap.handles, env.credOf)
    requires Increasing(snap.slot, later) && forall b <- later :: b.Listed()
    modifies f.index
    ensures fresh(r) && r.Valid() && r.history != [] && r.env == env && r.chain == later
    ensures SameButLists(env, snap, r.base)
    ensures r.feed.kept == Held(env, r.base, later, Retain(old(f.index.kept), EventSlot, AtMost(snap.slot)),
                                Constant(|later|, Boundary(later)), Boundary(later))
  {
    hide SameButLists, Fold, LogOf, Retain, Held, Versions, Increasing, Bounded, UpTo, H.Consistent, Holds, FeedIndex.Valid, H.Exact, Bare,
         After, Climbing, NoneBetween, Constant, Boundary;
    var read := LoadSnapshot(f, magic);
    HoldsGuard(f, snap, magic);
    ExactAddresses(env, snap);
    r := new State(env);
    r.Restore(read.value, f.index);
    RestoredIs(env, snap, r.base);
    assert r.history[0].slot <= snap.slot;
    var ok := r.Rollback(read.value.slot);
    ghost var t := Of(r);
    AppliedInOrder(t, later);
    AppliesClimb(t, later);
    Run(r, Applies(later));
  }

  lemma HoldsGuard(f: File, s: Snapshot, magic: nat)
    requires Holds(f, s, magic)
    ensures f.magic == magic
  {
  }

  /**
   * A state is saved `depth` snapshots behind its tip, runs on, and stops; resuming from the file with
   * the blocks that survive above the saved point gives the current snapshot of never having stopped,
   * handle lists compared as sets, and the same feed index - the same events held, and every list, log
   * and position index the same - exactly when nothing recorded lies between the boundaries the resumed
   * index has seen and those the stopped one has.
   */
  method StopAndResume(st: State, depth: nat, magic: nat, messages: seq<Message>, later: seq<Block>) returns (r: State)
    requires st.Valid() && st.Settled() && st.history != [] && depth >= 1
    requires H.Consistent(st.base.handles, st.env.credOf)
    requires Climbing(Of(st), messages) && StaysAbove(Of(st), SavedSlot(st, depth), messages)
    requires var chain := After(Of(st), messages).chain;
             Saved(st, depth) <= |chain| && later == chain[Saved(st, depth)..] && forall b <- later :: b.Listed()
    modifies st, st.feed
    ensures st.Valid() && st.history != [] && Of(st) == After(old(Of(st)), messages)
    ensures fresh(r) && r.Valid() && r.history != []
    ensures SameButLists(st.env, st.history[|st.history| - 1], r.history[|r.history| - 1])
    ensures H.SameSets(st.history[|st.history| - 1].handles.byStake, r.history[|r.history| - 1].handles.byStake)
    ensures Extends(old(Of(st)), Of(st), old(Saved(st, depth)))
    ensures r.feed.kept == st.feed.kept <==> SameIndex(st.env, old(Of(st)), Of(st), old(Saved(st, depth)))
    ensures SameLists(r.feed, st.feed) <==> SameIndex(st.env, old(Of(st)), Of(st), old(Saved(st, depth)))
  {
    hide SameButLists, SameIndex, Extends, Fold, LogOf, Retain, Held, Versions, Increasing, Bounded, UpTo, Survive, H.Consistent, Holds,
         FeedIndex.Valid, After, Climbing, StaysAbove, NoneBetween, Constant, Boundary, ResumedFloors, SameLists;
    ghost var t, m, slot := Of(st), Saved(st, depth), SavedSlot(st, depth);
    SavedIs(st, depth);
    ConsistentFold(st.env, st.base, st.chain[..m]);
    BeforeRun(st, messages, m, slot);
    var snap, index := st.CloneForSave(depth);
    var f := WriteSnapshot(snap, index, magic);
    Run(st, messages);
    ghost var t' := Of(st);
    Continued(st.env, t, t', m, snap);
    r := Resume(st.env, f, magic, snap, later);
    ResumedHeld(st.env, t, t', m, slot, r.base);
    IndexesCompare(st.env, t, t', m);
    SameListsSameEvents(r.feed, st.feed);
    SameFold(st.env, snap, r.base, later);
    CurrentIs(r);
    CurrentIs(st);
    SameStakeLists(st.env, st.history[|st.history| - 1], r.history[|r.history| - 1]);
  }

  lemma BeforeRun(st: State, messages: seq<Message>, m: nat, slot: nat)
    requires st.Valid() && st.Settled() && st.history != [] && st.base.slot <= slot
    requires Survive(st.chain, m, slot) && StaysAbove(Of(st), slot, messages)
    ensures UpTo(st.loaded, slot) && Extends(Of(st), After(Of(st), messages), m)
  {
    hide StaysAbove, Extends, After, Held, Versions, FeedIndex.Valid;
    RunExtends(Of(st), messages, m, slot);
  }

  /** The later chain continues the saved one. */
  lemma Continued(env: Env, t: Track, t': Track, m: nat, snap: Snapshot)
    requires Extends(t, t', m) && Increasing(t'.base.slot, t'.chain) && snap == Fold(env, t.base, t.chain[..m])
    ensures Increasing(snap.slot, t'.chain[m..])
    ensures Fold(env, t'.base, t'.chain) == Fold(env, snap, t'.chain[m..])
  {
    hide Fold;
    assert t'.chain == t'.chain[..m] + t'.chain[m..];
    FoldConcat(env, t'.base, t'.chain[..m], t'.chain[m..]);
    FoldSlot(env, t.base, t.chain[..m]);
    assert m > 0 ==> t'.chain[..m][m - 1] == t'.chain[m - 1];
  }

  // ---- When the boundaries matter ----

  /** Saved after `m` of its blocks and run on, the resumed index differs from that of never having stopped. */
  ghost predicate Splits(env: Env, t: Track, messages: seq<Message>, m: nat)
    requires |t.floors| == |t.chain| && m <= |t.chain|
  {
    && Climbing(t, messages) && StaysAbove(t, TipSlot(t.base, t.chain[..m]), messages)
    && var t' := After(t, messages);
       m <= |t'.chain| && !SameIndex(env, t, t', m)
  }

  /**
   * Two blocks, both saved; one more block that prunes the first one's events, and a rollback of ten slots
   * that takes it back. The index lost those events, the saved one still has them.
   */
  lemma ShortRollbackSplits(env: Env, base: Snapshot)
    requires base.slot == 0
    ensures exists before, after ::
              var start := Track(base, [], 1, [], [], 0);
              var t := After(start, before);
              Climbing(start, before) && |t.chain| == 2 && Splits(env, t, after, 2)
  {
    hide EventsOf, Next, After, Climbing, StaysAbove, Records;
    var near := Block(5, "", 0, 0, [], [], None, Some([]));
    var mid, far := near.(slot := WINDOW), near.(slot := WINDOW + 10);
    var start, t := Track(base, [], 1, [], [], 0), Track(base, [near, mid], 3, [], [0, 0], 0);
    var before, after := [Apply(near), Apply(mid)], [Apply(far), Rollback(WINDOW, base)];
    TwoApplied(start, before, near, mid);
    OneMoreAndBack(t, after, near, mid, far);
    var t' := After(t, after);
    MintsSomething(env, base, near);
    FirstRecords(env, base, t'.chain);
    assert t'.chain[2..] == [] && ResumedFloors(t, t', 2)[0] == 0;
    assert Splits(env, t, after, 2);
  }

  lemma FirstRecords(env: Env, base: Snapshot, chain: seq<Block>)
    requires chain != [] && EventsOf(env, base, chain[0]) != []
    ensures Records(env, base, chain, 0)
  {
    hide EventsOf;
    assert chain[..0] == [];
  }

  lemma TwoApplied(t: Track, ms: seq<Message>, near: Block, mid: Block)
    requires t == Track(t.base, [], 1, [], [], 0) && t.base.slot == 0
    requires ms == [Apply(near), Apply(mid)] && near.slot == 5 && mid.slot == WINDOW
    requires near.txs == mid.txs == [] && near.produced == mid.produced == []
    ensures Climbing(t, ms) && After(t, ms) == Track(t.base, [near, mid], 3, [], [0, 0], 0)
  {
    hide After, Survivors, Lists, Retain;
    var t1 := Track(t.base, [near], 2, [], [0], 0);
    TwoSteps(t, ms);
    Applied(t, near, t1);
    Applied(t1, mid, Track(t.base, [near, mid], 3, [], [0, 0], 0));
    EmptyListed(near);
    EmptyListed(mid);
  }

  lemma OneMoreAndBack(t: Track, ms: seq<Message>, near: Block, mid: Block, far: Block)
    requires t == Track(t.base, [near, mid], 3, [], [0, 0], 0) && t.base.slot == 0
    requires ms == [Apply(far), Rollback(WINDOW, t.base)] && near.slot == 5 && mid.slot == WINDOW && far.slot == WINDOW + 10
    requires far.txs == [] && far.produced == []
    ensures Climbing(t, ms) && StaysAbove(t, TipSlot(t.base, t.chain[..2]), ms)
    ensures After(t, ms) == Track(t.base, [near, mid], 3, [], [10, 10], 10)
  {
    hide After, Survivors, Lists, Retain;
    var t1 := Track(t.base, [near, mid, far], 4, [], [10, 10, 10], 10);
    TwoSteps(t, ms);
    Applied(t, far, t1);
    LastDropped(near, mid, far);
    assert [10, 10, 10][..2] == [10, 10] && t.chain[..2] == t.chain;
    RetainLoaded([], WINDOW);
    EmptyListed(far);
  }

  lemma Applied(t: Track, b: Block, r: Track)
    requires |t.floors| == |t.chain| && t.retained < MAX_HISTORY
    requires r == Track(t.base, t.chain + [b], t.retained + 1, t.loaded, Raised(t.floors, Minus(b.slot, WINDOW)) + [Minus(b.slot, WINDOW)],
                        Larger(t.floor, Minus(b.slot, WINDOW)))
    ensures Step(t, Apply(b)) == r
  {
  }

  lemma LastDropped(near: Block, mid: Block, far: Block)
    requires near.slot < mid.slot == WINDOW && far.slot == WINDOW + 10
    ensures Survivors([near, mid, far], WINDOW) == [near, mid]
  {
    assert [near, mid, far][..2] == [near, mid];
  }

  lemma TwoSteps(t: Track, ms: seq<Message>)
    requires |ms| == 2 && |t.floors| == |t.chain|
    ensures After(t, ms[..0]) == t && After(t, ms[..1]) == Step(t, ms[0]) && After(t, ms) == Step(Step(t, ms[0]), ms[1])
  {
    hide Step;
    AfterMore(t, ms, 0);
    AfterMore(t, ms, 1);
    assert ms[..2] == ms;
  }

  lemma MintsSomething(env: Env, base: Snapshot, b: Block)
    requires b.issuer.Some?
    ensures EventsOf(env, base, b) != []
  {
  }
}
