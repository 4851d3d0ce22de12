/**
 * What a pool's or DRep's page keeps of a block it fetches again, against what the index recorded of
 * the block: the index is there so that only blocks that show something are fetched.
 */
module Rendered {
  import opened Wrappers
  import opened Bytes
  import D = Delegations
  import S = Significance
  import opened FeedLog
  import opened Stakes
  import opened Chain

  function Subject(side: Side, id: Bytes): (f: S.Filter)
    ensures f.Pool? || f.DRep?
    ensures f.id == id
  {
    if side.PoolSide? then S.Pool(id) else S.DRep(id)
  }

  function BookOf(s: Snapshot, side: Side): D.Book {
    if side.PoolSide? then s.pools else s.dreps
  }

  function ActiveOf(env: Env, side: Side): map<Bytes, nat> {
    if side.PoolSide? then env.poolActive else env.drepActive
  }

  predicate Touches(e: DelegationEntry, id: Bytes) {
    e.from == Some(id) || e.to == Some(id)
  }

  // ---- The index ----

  /** An event that puts its block on the subject's list of blocks to fetch and filter. */
  predicate Concerns(e: Event, side: Side, id: Bytes) {
    match e
    case Ref(kind, key, _) =>
      key == id && (if side.PoolSide? then kind.PoolStake? || kind.PoolVote? else kind.DrepStake? || kind.DrepVote?)
    case Deleg(at, entry) => at == side && Touches(entry, id)
  }

  ghost predicate Indexed(env: Env, s: Snapshot, b: Block, side: Side, id: Bytes) {
    exists e <- EventsOf(env, s, b) :: Concerns(e, side, id)
  }

  // ---- The page ----

  function Info(side: Side, e: DelegationEntry): S.DelegationInfo {
    var none, ends := S.Ends(None, None), S.Ends(e.from, e.to);
    if side.PoolSide? then S.DelegationInfo(ends, none, e.liveStake) else S.DelegationInfo(none, ends, e.liveStake)
  }

  /** The delegations laid over a transaction: the held entries that carry its hash. */
  function Overlay(es: seq<DelegationEntry>, side: Side, hash: string): seq<S.DelegationInfo> {
    if es == [] then []
    else Overlay(es[..|es| - 1], side, hash) + (if es[|es| - 1].txHash == hash then [Info(side, es[|es| - 1])] else [])
  }

  function OnPage(tx: S.BlockTx, held: seq<DelegationEntry>, side: Side, id: Bytes): S.BlockTx {
    tx.(delegations := Overlay(Touching(held, id), side, tx.hash))
  }

  /** The transaction is kept, with the delegators the subject had before the block. */
  predicate Kept(env: Env, s: Snapshot, tx: S.BlockTx, side: Side, id: Bytes, held: seq<DelegationEntry>) {
    S.Renders(OnPage(tx, held, side, id), S.DelegatorsOf(BookOf(s, side), id), Subject(side, id), S.Threshold(ActiveOf(env, side), id))
  }

  /** Some transaction of the block is kept. */
  ghost predicate Renders(env: Env, s: Snapshot, b: Block, side: Side, id: Bytes, held: seq<DelegationEntry>) {
    exists tx <- b.Shown() :: Kept(env, s, tx, side, id, held)
  }

  /** A vote in a transaction that failed its scripts: shown, but of no effect. */
  ghost predicate VoidVote(b: Block, side: Side, id: Bytes) {
    exists tx <- b.txs :: !tx.valid && S.MatchesVote(tx.Shown(), Subject(side, id))
  }

  /** Of the entries held, those that carry a hash of this block's transactions are this block's. */
  ghost predicate HoldsEntries(held: seq<DelegationEntry>, s: Snapshot, b: Block, side: Side) {
    forall tx <- b.txs, e: DelegationEntry | e.txHash == tx.hash :: e in held <==> e in EntriesOf(s, BookOf(s, side), b, b.Certs(side))
  }

  // ---- What is recorded ----

  lemma RecordedHas(kind: Kind, keys: set<Bytes>, b: Block, side: Side, id: Bytes)
    ensures (exists e <- Recorded(kind, keys, b) :: Concerns(e, side, id)) <==>
            id in keys && Concerns(Event.Ref(kind, id, b.Ref()), side, id)
  {
    var es := Recorded(kind, keys, b);
    if id in keys && Concerns(Event.Ref(kind, id, b.Ref()), side, id) {
      var i :| 0 <= i < |Listed(keys)| && Listed(keys)[i] == id;
      assert es[i] in es;
    }
    if e :| e in es && Concerns(e, side, id) {
      var i :| 0 <= i < |es| && es[i] == e;
      assert Listed(keys)[i] in keys;
    }
  }

  lemma EntriesHave(at: Side, entries: seq<DelegationEntry>, side: Side, id: Bytes)
    ensures (exists e <- DelegEvents(at, entries) :: Concerns(e, side, id)) <==> at == side && exists e <- entries :: Touches(e, id)
  {
    var es := DelegEvents(at, entries);
    if e :| e in es && Concerns(e, side, id) {
      var i :| 0 <= i < |es| && es[i] == e;
      assert entries[i] in entries;
    }
    if at == side && exists e <- entries :: Touches(e, id) {
      var e :| e in entries && Touches(e, id);
      var i :| 0 <= i < |entries| && entries[i] == e;
      assert es[i] in es;
    }
  }

  lemma MintedHas(b: Block, side: Side, id: Bytes)
    ensures forall e <- Minted(b) :: !Concerns(e, side, id)
  {
  }

  lemma IndexedBy(env: Env, s: Snapshot, b: Block, side: Side, id: Bytes)
    ensures Indexed(env, s, b, side, id) <==>
            || id in Significant(b.Shown(), BookOf(s, side).delegations, ActiveOf(env, side))
            || (exists e <- EntriesOf(s, BookOf(s, side), b, b.Certs(side)) :: Touches(e, id))
            || id in b.Votes(side)
  {
    hide Significant, EntriesOf, Recorded, DelegEvents, Minted, CertsOf, VotesOf, Touches;
    MintedHas(b, side, id);
    RecordedHas(PoolStake, Significant(b.Shown(), s.pools.delegations, env.poolActive), b, side, id);
    RecordedHas(DrepStake, Significant(b.Shown(), s.dreps.delegations, env.drepActive), b, side, id);
    RecordedHas(PoolVote, b.Votes(PoolSide), b, side, id);
    RecordedHas(DrepVote, b.Votes(DrepSide), b, side, id);
    EntriesHave(PoolSide, EntriesOf(s, s.pools, b, b.Certs(PoolSide)), side, id);
    EntriesHave(DrepSide, EntriesOf(s, s.dreps, b, b.Certs(DrepSide)), side, id);
  }

  // ---- The three reasons, one by one ----

  /** With inverse delegation maps the recorded subjects are those some transaction moves above the threshold. */
  lemma SignificantIs(book: D.Book, txs: seq<S.BlockTx>, active: map<Bytes, nat>, id: Bytes)
    ensures id in Significant(txs, book.delegations, active) <==>
            exists tx <- txs :: S.Abs(S.NetTo(S.Moves(tx), book.delegations, id)) > S.Threshold(active, id)
  {
    hide S.MaxNetTo, S.Threshold, S.Moves, S.NetTo;
    S.AboveSomewhere(txs, book.delegations, id, S.Threshold(active, id));
    if S.MaxNetTo(txs, book.delegations, id) > S.Threshold(active, id) {
      S.OnlyTargets(txs, book.delegations, id);
    }
  }

  lemma {:induction false} VotesAre(txs: seq<Tx>, side: Side, id: Bytes)
    ensures id in VotesOf(txs, side) <==> exists tx <- txs :: tx.valid && S.MatchesVote(tx.Shown(), Subject(side, id))
  {
    if txs != [] {
      var n := |txs| - 1;
      VotesAre(txs[..n], side, id);
      assert forall tx :: tx in txs <==> tx in txs[..n] || tx == txs[n];
    }
  }

  /** Every certificate comes in a transaction of the block. */
  lemma {:induction false} CertsIn(txs: seq<Tx>, side: Side, c: DelegCert)
    requires c in CertsOf(txs, side)
    ensures exists tx <- txs :: tx.hash == c.txHash
  {
    var n := |txs| - 1;
    if c in CertsOf(txs[..n], side) {
      CertsIn(txs[..n], side, c);
    } else {
      assert c in txs[n].Certs(side) && txs[n] in txs;
    }
  }

  lemma EntryIn(s: Snapshot, b: Block, side: Side, e: DelegationEntry)
    requires e in EntriesOf(s, BookOf(s, side), b, b.Certs(side))
    ensures exists tx <- b.txs :: tx.hash == e.txHash
  {
    hide EntriesOf, CertsOf;
    EntriesAre(s, BookOf(s, side), b, b.Certs(side));
    var c :| c in b.Certs(side) && e in EntryOf(s, BookOf(s, side), b, c);
    CertsIn(b.txs, side, c);
  }

  lemma {:induction false} TouchingAre(es: seq<DelegationEntry>, id: Bytes, e: DelegationEntry)
    ensures e in Touching(es, id) <==> e in es && Touches(e, id)
  {
    if es != [] {
      var n := |es| - 1;
      TouchingAre(es[..n], id, e);
      assert e in es <==> e in es[..n] || e == es[n];
    }
  }

  lemma {:induction false} OverlayIs(es: seq<DelegationEntry>, side: Side, hash: string)
    ensures Overlay(es, side, hash) != [] <==> exists e <- es :: e.txHash == hash
  {
    if es != [] {
      var n := |es| - 1;
      OverlayIs(es[..n], side, hash);
      assert forall e :: e in es <==> e in es[..n] || e == es[n];
    }
  }

  /** A transaction of the block shows a delegation of the subject exactly when an entry of the block touches it. */
  lemma OverlaidSomewhere(s: Snapshot, b: Block, side: Side, id: Bytes, held: seq<DelegationEntry>)
    requires HoldsEntries(held, s, b, side)
    ensures (exists tx <- b.txs :: Overlay(Touching(held, id), side, tx.hash) != []) <==>
            exists e <- EntriesOf(s, BookOf(s, side), b, b.Certs(side)) :: Touches(e, id)
  {
    hide EntriesOf, Overlay, Touching, CertsOf, Touches;
    if tx :| tx in b.txs && Overlay(Touching(held, id), side, tx.hash) != [] {
      OverlayIs(Touching(held, id), side, tx.hash);
      var e :| e in Touching(held, id) && e.txHash == tx.hash;
      TouchingAre(held, id, e);
    }
    if e :| e in EntriesOf(s, BookOf(s, side), b, b.Certs(side)) && Touches(e, id) {
      EntryIn(s, b, side, e);
      var tx :| tx in b.txs && tx.hash == e.txHash;
      TouchingAre(held, id, e);
      OverlayIs(Touching(held, id), side, tx.hash);
    }
  }

  /** Without a delegation on show a transaction is kept for its stake change, told as the index tells it, or its vote. */
  lemma PlainKept(env: Env, s: Snapshot, tx: Tx, side: Side, id: Bytes, held: seq<DelegationEntry>)
    requires D.Inverse(BookOf(s, side)) && Overlay(Touching(held, id), side, tx.hash) == []
    ensures Kept(env, s, tx.Shown(), side, id, held) <==>
            || S.Abs(S.NetTo(S.Moves(tx.Shown()), BookOf(s, side).delegations, id)) > S.Threshold(ActiveOf(env, side), id)
            || S.MatchesVote(tx.Shown(), Subject(side, id))
  {
    hide D.Inverse, S.Moves, S.NetTo, S.NetChange, S.DelegatorsOf, S.Threshold, Overlay, Touching;
    var page := OnPage(tx.Shown(), held, side, id);
    assert page == tx.Shown();
    S.WithoutCertificates(page, BookOf(s, side), Subject(side, id));
    S.PassesIs(page, S.DelegatorsOf(BookOf(s, side), id), Subject(side, id), S.Threshold(ActiveOf(env, side), id));
  }

  lemma Keeps(env: Env, s: Snapshot, b: Block, side: Side, id: Bytes, held: seq<DelegationEntry>, tx: Tx)
    requires tx in b.txs
    requires Kept(env, s, tx.Shown(), side, id, held)
    ensures Renders(env, s, b, side, id, held)
  {
    hide Kept;
    var i :| 0 <= i < |b.txs| && b.txs[i] == tx;
    assert b.Shown()[i] in b.Shown();
  }

  lemma KeptOne(env: Env, s: Snapshot, b: Block, side: Side, id: Bytes, held: seq<DelegationEntry>) returns (tx: Tx)
    requires Renders(env, s, b, side, id, held)
    ensures tx in b.txs
    ensures Kept(env, s, tx.Shown(), side, id, held)
  {
    hide Kept;
    var shown :| shown in b.Shown() && Kept(env, s, shown, side, id, held);
    var i :| 0 <= i < |b.Shown()| && b.Shown()[i] == shown;
    tx := b.txs[i];
  }

  lemma ShownIn(b: Block, tx: S.BlockTx)
    ensures tx in b.Shown() <==> exists x <- b.txs :: x.Shown() == tx
  {
    if tx in b.Shown() {
      var i :| 0 <= i < |b.Shown()| && b.Shown()[i] == tx;
      assert b.txs[i] in b.txs;
    }
    if x :| x in b.txs && x.Shown() == tx {
      var i :| 0 <= i < |b.txs| && b.txs[i] == x;
      assert b.Shown()[i] == tx;
    }
  }

  /**
   * A block shows something on the subject's page exactly when the index lists it for the subject,
   * but for votes in transactions that failed their scripts, which the page shows and the index leaves out.
   */
  lemma IndexedIffRendered(env: Env, s: Snapshot, b: Block, side: Side, id: Bytes, held: seq<DelegationEntry>)
    requires D.Inverse(BookOf(s, side)) && HoldsEntries(held, s, b, side)
    ensures Renders(env, s, b, side, id, held) <==> Indexed(env, s, b, side, id) || VoidVote(b, side, id)
  {
    hide D.Inverse, HoldsEntries, EntriesOf, Significant, Overlay, Touching, VotesOf, CertsOf, Touches, Indexed, Kept,
         S.MatchesVote, S.NetTo, S.Moves, S.Threshold, S.DelegatorsOf, Renders, EventsOf;
    IndexedBy(env, s, b, side, id);
    SignificantIs(BookOf(s, side), b.Shown(), ActiveOf(env, side), id);
    VotesAre(b.txs, side, id);
    OverlaidSomewhere(s, b, side, id, held);
    if tx :| tx in b.txs && Overlay(Touching(held, id), side, tx.hash) != [] {
      Overlaid(env, s, b, side, id, held, tx);
    } else {
      PlainBlock(env, s, b, side, id, held);
    }
  }

  lemma Overlaid(env: Env, s: Snapshot, b: Block, side: Side, id: Bytes, held: seq<DelegationEntry>, tx: Tx)
    requires tx in b.txs && Overlay(Touching(held, id), side, tx.hash) != []
    ensures Renders(env, s, b, side, id, held)
  {
    hide Overlay, Touching, Renders;
    Keeps(env, s, b, side, id, held, tx);
  }

  lemma PlainBlock(env: Env, s: Snapshot, b: Block, side: Side, id: Bytes, held: seq<DelegationEntry>)
    requires D.Inverse(BookOf(s, side)) && forall tx <- b.txs :: Overlay(Touching(held, id), side, tx.hash) == []
    ensures Renders(env, s, b, side, id, held) <==>
            || (exists tx <- b.Shown() ::
                  S.Abs(S.NetTo(S.Moves(tx), BookOf(s, side).delegations, id)) > S.Threshold(ActiveOf(env, side), id))
            || (exists tx <- b.txs :: S.MatchesVote(tx.Shown(), Subject(side, id)))
  {
    hide D.Inverse, Overlay, Touching, Kept, S.MatchesVote, S.NetTo, S.Moves, S.Threshold, S.DelegatorsOf, Renders;
    forall tx | tx in b.txs
      ensures tx.Shown() in b.Shown()
      ensures Kept(env, s, tx.Shown(), side, id, held) <==>
              || S.Abs(S.NetTo(S.Moves(tx.Shown()), BookOf(s, side).delegations, id)) > S.Threshold(ActiveOf(env, side), id)
              || S.MatchesVote(tx.Shown(), Subject(side, id))
    {
      ShownIn(b, tx.Shown());
      PlainKept(env, s, tx, side, id, held);
    }
    if Renders(env, s, b, side, id, held) {
      var tx := KeptOne(env, s, b, side, id, held);
    }
    if shown :| shown in b.Shown() && S.Abs(S.NetTo(S.Moves(shown), BookOf(s, side).delegations, id)) > S.Threshold(ActiveOf(env, side), id) {
      ShownIn(b, shown);
      var tx :| tx in b.txs && tx.Shown() == shown;
      Keeps(env, s, b, side, id, held, tx);
    }
    if tx :| tx in b.txs && S.MatchesVote(tx.Shown(), Subject(side, id)) {
      Keeps(env, s, b, side, id, held, tx);
    }
  }

  ghost predicate ShownOnly(env: Env, s: Snapshot, b: Block, id: Bytes) {
    HoldsEntries([], s, b, PoolSide) && Renders(env, s, b, PoolSide, id, []) && !Indexed(env, s, b, PoolSide, id)
  }

  lemma VoteOnly(tx: Tx, txs: seq<Tx>, id: Bytes)
    requires tx == Tx("", false, [], [], [], [], [], [], [], {id}, {}, [], []) && txs == [tx]
    ensures CertsOf(txs, PoolSide) == [] && VotesOf(txs, PoolSide) == {} && S.Moves(tx.Shown()) == []
  {
    assert txs[..0] == [];
  }

  /** A pool's vote in a transaction that failed its scripts is on the page of a block the index does not list. */
  lemma VoidVoteDiffers(env: Env, s: Snapshot, id: Bytes)
    requires D.Inverse(s.pools)
    ensures exists b :: ShownOnly(env, s, b, id)
  {
    hide D.Inverse, Renders, Indexed, Significant, CertsOf, VotesOf, S.Moves, S.Threshold;
    var tx := Tx("", false, [], [], [], [], [], [], [], {id}, {}, [], []);
    var b := Block(0, "", 0, 0, [tx], [], None, None);
    VoteOnly(tx, b.txs, id);
    assert tx in b.txs;
    IndexedIffRendered(env, s, b, PoolSide, id, []);
    IndexedBy(env, s, b, PoolSide, id);
    SignificantIs(s.pools, b.Shown(), env.poolActive, id);
    NothingMoved(s.pools, b, tx, id);
    assert ShownOnly(env, s, b, id);
  }

  lemma NothingMoved(book: D.Book, b: Block, tx: Tx, id: Bytes)
    requires b.txs == [tx] && S.Moves(tx.Shown()) == []
    ensures forall shown <- b.Shown() :: S.NetTo(S.Moves(shown), book.delegations, id) == 0
  {
    hide S.Moves;
  }
}
