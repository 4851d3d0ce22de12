/**
 * Live tiles of an owned-assets page: the tokens a subject gained and lost between two holdings
 * snapshots, and what a page that applies every such change shows.
 */
module Tiles {
  import opened Wrappers
  import opened Bytes
  import opened Seqs
  import opened Sums
  import opened Ledger
  import opened KeyOrder

  datatype Tile = Tile(policy: Bytes, name: Bytes)

  function TileOf(asset: Bytes): Tile
    requires |asset| >= POLICY_LEN
  {
    Tile(asset[..POLICY_LEN], asset[POLICY_LEN..])
  }

  lemma TilesDiffer(a: Bytes, b: Bytes)
    requires |a| >= POLICY_LEN && |b| >= POLICY_LEN && TileOf(a) == TileOf(b)
    ensures a == b
  {
    assert a == a[..POLICY_LEN] + a[POLICY_LEN..] && b == b[..POLICY_LEN] + b[POLICY_LEN..];
  }

  /** A tile's policy is the first 28 bytes of the asset id, its name the rest. */
  lemma TileParts(asset: Bytes, t: Tile)
    requires |asset| >= POLICY_LEN
    ensures t == TileOf(asset) <==> |t.policy| == 28 && t.policy + t.name == asset
  {
    if |t.policy| == 28 && t.policy + t.name == asset {
      assert asset[..28] == t.policy && asset[28..] == t.name;
    }
  }

  /** A holdings map with its entries in key order. */
  datatype Snapshot = Snapshot(held: Holdings, entries: seq<Entry>)
  {
    predicate Valid() {
      && SortedEntries(entries)
      && (forall e <- entries :: e.key in held && held[e.key] == e.held)
      && (forall k <- held :: Entry(k, held[k]) in entries)
      && (forall k <- held :: |k.asset| >= POLICY_LEN)
    }
  }

  // ---- The structural difference of two maps ----

  datatype DiffItem = Add(key: HeldKey) | Remove(key: HeldKey) | Update(key: HeldKey)

  /** Every key whose entry differs, once, told apart by how it differs. */
  ghost predicate IsDiff(prev: Holdings, curr: Holdings, diff: seq<DiffItem>) {
    && (forall i, j | 0 <= i < j < |diff| :: diff[i].key != diff[j].key)
    && (forall k :: Add(k) in diff <==> k in curr && k !in prev)
    && (forall k :: Remove(k) in diff <==> k in prev && k !in curr)
    && (forall k :: Update(k) in diff <==> k in prev && k in curr && prev[k] != curr[k])
  }

  datatype Subject = Address(key: AddrKey) | Stake(cred: Bytes)
  {
    predicate Owns(k: HeldKey) {
      match this
      case Address(addr) => k.addr == addr
      case Stake(cred) => k.addr.cred == Some(cred)
    }
  }

  /** The tokens a subject holds, on any of its addresses. */
  ghost function Grid(m: Holdings, s: Subject): set<Tile> {
    set k | k in m && s.Owns(k) && |k.asset| >= POLICY_LEN :: TileOf(k.asset)
  }

  ghost predicate Held(m: Holdings, s: Subject, asset: Bytes) {
    exists k :: k in m && s.Owns(k) && k.asset == asset
  }

  lemma InGrid(m: Holdings, s: Subject, asset: Bytes)
    requires |asset| >= POLICY_LEN
    ensures TileOf(asset) in Grid(m, s) <==> Held(m, s, asset)
  {
    hide TileOf;
    if TileOf(asset) in Grid(m, s) {
      var k :| k in m && s.Owns(k) && |k.asset| >= POLICY_LEN && TileOf(k.asset) == TileOf(asset);
      TilesDiffer(k.asset, asset);
    }
  }

  /** The tiles shown are exactly those whose policy and name make up an asset the subject holds. */
  lemma GridIs(m: Holdings, s: Subject, t: Tile)
    ensures t in Grid(m, s) <==> |t.policy| == 28 && Held(m, s, t.policy + t.name)
  {
    hide TileOf;
    if t in Grid(m, s) {
      var k :| k in m && s.Owns(k) && |k.asset| >= POLICY_LEN && TileOf(k.asset) == t;
      TileParts(k.asset, t);
    }
    if |t.policy| == 28 {
      TileParts(t.policy + t.name, t);
      InGrid(m, s, t.policy + t.name);
    }
  }

  // ---- One address ----

  /** What a list of tiles has to be: the tiles of the keys that `pick` selects, each once. */
  ghost predicate Lists(tiles: seq<Tile>, diff: seq<DiffItem>, pick: DiffItem -> bool) {
    && Distinct(tiles)
    && (forall d <- diff :: pick(d) && |d.key.asset| >= POLICY_LEN ==> TileOf(d.key.asset) in tiles)
    && (forall t <- tiles :: exists d <- diff :: pick(d) && |d.key.asset| >= POLICY_LEN && t == TileOf(d.key.asset))
  }

  function Adds(target: AddrKey): DiffItem -> bool {
    (d: DiffItem) => d.Add? && d.key.addr == target
  }

  function Removes(target: AddrKey): DiffItem -> bool {
    (d: DiffItem) => d.Remove? && d.key.addr == target
  }

  lemma ListsMore(tiles: seq<Tile>, diff: seq<DiffItem>, n: nat, pick: DiffItem -> bool, target: AddrKey)
    requires n < |diff| && Lists(tiles, diff[..n], pick) && |diff[n].key.asset| >= POLICY_LEN
    requires forall i, j | 0 <= i < j < |diff| :: diff[i].key != diff[j].key
    requires forall d <- diff :: pick(d) ==> d.key.addr == target
    ensures Lists(if pick(diff[n]) then tiles + [TileOf(diff[n].key.asset)] else tiles, diff[..n + 1], pick)
  {
    hide TileOf;
    var e := diff[n];
    assert diff[..n + 1] == diff[..n] + [e];
    forall d | d in diff[..n] && pick(d) && |d.key.asset| >= POLICY_LEN
      ensures pick(e) ==> TileOf(d.key.asset) != TileOf(e.key.asset)
    {
      assert d.key != e.key;
      if TileOf(d.key.asset) == TileOf(e.key.asset) {
        TilesDiffer(d.key.asset, e.key.asset);
      }
    }
    assert e in diff[..n + 1];
    if pick(e) {
      assert TileOf(e.key.asset) !in tiles;
    }
  }

  /** Exactly the tokens the address gained, and exactly those it lost, each once. */
  method AddressTileDiff(prev: Snapshot, curr: Snapshot, diff: seq<DiffItem>, target: AddrKey)
    returns (added: seq<Tile>, removed: seq<Tile>)
    requires prev.Valid() && curr.Valid() && IsDiff(prev.held, curr.held, diff)
    ensures Distinct(added) && Distinct(removed)
    ensures (set t <- added) == Grid(curr.held, Address(target)) - Grid(prev.held, Address(target))
    ensures (set t <- removed) == Grid(prev.held, Address(target)) - Grid(curr.held, Address(target))
  {
    hide TileOf, Grid;
    added, removed := [], [];
    for i := 0 to |diff|
      invariant Lists(added, diff[..i], Adds(target)) && Lists(removed, diff[..i], Removes(target))
    {
      ListsMore(added, diff, i, Adds(target), target);
      ListsMore(removed, diff, i, Removes(target), target);
      var d := diff[i];
      if d.Add? && d.key.addr == target {
        added := added + [TileOf(d.key.asset)];
      } else if d.Remove? && d.key.addr == target {
        removed := removed + [TileOf(d.key.asset)];
      }
    }
    assert diff[..|diff|] == diff;
    GainedTiles(prev.held, curr.held, diff, target, added);
    LostTiles(prev.held, curr.held, diff, target, removed);
  }

  lemma GainedTiles(prev: Holdings, curr: Holdings, diff: seq<DiffItem>, target: AddrKey, added: seq<Tile>)
    requires IsDiff(prev, curr, diff) && Lists(added, diff, Adds(target))
    ensures (set t <- added) == Grid(curr, Address(target)) - Grid(prev, Address(target))
  {
    hide TileOf;
    forall t
      ensures t in added <==> t in Grid(curr, Address(target)) && t !in Grid(prev, Address(target))
    {
      if t in added {
        var d :| d in diff && Adds(target)(d) && |d.key.asset| >= POLICY_LEN && t == TileOf(d.key.asset);
        assert Add(d.key) in diff;
        InGrid(prev, Address(target), d.key.asset);
      } else if t in Grid(curr, Address(target)) {
        var k :| k in curr && k.addr == target && |k.asset| >= POLICY_LEN && t == TileOf(k.asset);
        assert Add(k) !in diff || Adds(target)(Add(k));
        InGrid(prev, Address(target), k.asset);
      }
    }
  }

  lemma LostTiles(prev: Holdings, curr: Holdings, diff: seq<DiffItem>, target: AddrKey, removed: seq<Tile>)
    requires IsDiff(prev, curr, diff) && Lists(removed, diff, Removes(target))
    ensures (set t <- removed) == Grid(prev, Address(target)) - Grid(curr, Address(target))
  {
    hide TileOf;
    forall t
      ensures t in removed <==> t in Grid(prev, Address(target)) && t !in Grid(curr, Address(target))
    {
      if t in removed {
        var d :| d in diff && Removes(target)(d) && |d.key.asset| >= POLICY_LEN && t == TileOf(d.key.asset);
        assert Remove(d.key) in diff;
        InGrid(curr, Address(target), d.key.asset);
      } else if t in Grid(prev, Address(target)) {
        var k :| k in prev && k.addr == target && |k.asset| >= POLICY_LEN && t == TileOf(k.asset);
        assert Remove(k) !in diff || Removes(target)(Remove(k));
        InGrid(curr, Address(target), k.asset);
      }
    }
  }

  // ---- One stake credential ----

  /** The candidates a snapshot holds on any address of the credential. */
  method Present(s: Snapshot, cred: Bytes, candidates: set<Bytes>) returns (held: set<Bytes>)
    requires s.Valid()
    ensures forall a :: a in held <==> a in candidates && Held(s.held, Stake(cred), a)
  {
    hide SortedEntries, CredRange, OfCred;
    var scan := CredRange(s.entries, cred);
    CredRangeIsFilter(s.entries, cred);
    OfCredHas(s.entries, cred);
    held := {};
    for i := 0 to |scan|
      invariant forall a :: a in held <==> a in candidates && exists e <- scan[..i] :: e.key.asset == a
    {
      assert scan[..i + 1] == scan[..i] + [scan[i]];
      if scan[i].key.asset in candidates {
        held := held + {scan[i].key.asset};
      }
    }
    assert scan[..|scan|] == scan;
  }

  lemma {:induction false} OfCredHas(es: seq<Entry>, cred: Bytes)
    ensures forall e :: e in OfCred(es, cred) <==> e in es && e.key.addr.cred == Some(cred)
  {
    if es != [] {
      OfCredHas(es[1..], cred);
      assert es == [es[0]] + es[1..];
    }
  }

  ghost predicate AreCandidates(candidates: set<Bytes>, diff: seq<DiffItem>, cred: Bytes) {
    forall a :: a in candidates <==> exists d <- diff :: d.key.addr.cred == Some(cred) && d.key.asset == a
  }

  /** Every asset with a changed entry on one of the credential's addresses. */
  method Candidates(diff: seq<DiffItem>, cred: Bytes) returns (candidates: set<Bytes>)
    ensures AreCandidates(candidates, diff, cred)
  {
    candidates := {};
    for i := 0 to |diff|
      invariant AreCandidates(candidates, diff[..i], cred)
    {
      assert diff[..i + 1] == diff[..i] + [diff[i]];
      if diff[i].key.addr.cred == Some(cred) {
        candidates := candidates + {diff[i].key.asset};
      }
    }
    assert diff[..|diff|] == diff;
  }

  /** The candidates that entered and those that left, in whatever order the set is walked. */
  method SplitCandidates(candidates: set<Bytes>, inPrev: set<Bytes>, inCurr: set<Bytes>) returns (added: seq<Tile>, removed: seq<Tile>)
    requires forall a <- candidates :: |a| >= POLICY_LEN
    ensures Carries(added, candidates, inCurr - inPrev) && Carries(removed, candidates, inPrev - inCurr)
  {
    hide TileOf, Carries;
    added, removed := [], [];
    var todo := candidates;
    CarriesNone(inCurr - inPrev);
    CarriesNone(inPrev - inCurr);
    assert candidates - todo == {};
    while todo != {}
      invariant todo <= candidates
      invariant Carries(added, candidates - todo, inCurr - inPrev)
      invariant Carries(removed, candidates - todo, inPrev - inCurr)
      decreases |todo|
    {
      var asset :| asset in todo;
      CarriesMore(added, candidates - todo, inCurr - inPrev, asset);
      CarriesMore(removed, candidates - todo, inPrev - inCurr, asset);
      assert candidates - todo + {asset} == candidates - (todo - {asset});
      if asset !in inPrev && asset in inCurr {
        added := added + [TileOf(asset)];
      } else if asset in inPrev && asset !in inCurr {
        removed := removed + [TileOf(asset)];
      }
      todo := todo - {asset};
    }
    assert candidates - todo == candidates;
  }

  /** Exactly the tokens the credential gained over all its addresses, and those it lost, each once. */
  method StakeTileDiff(prev: Snapshot, curr: Snapshot, diff: seq<DiffItem>, cred: Bytes)
    returns (added: seq<Tile>, removed: seq<Tile>)
    requires prev.Valid() && curr.Valid() && IsDiff(prev.held, curr.held, diff)
    ensures Distinct(added) && Distinct(removed)
    ensures (set t <- added) == Grid(curr.held, Stake(cred)) - Grid(prev.held, Stake(cred))
    ensures (set t <- removed) == Grid(prev.held, Stake(cred)) - Grid(curr.held, Stake(cred))
  {
    hide TileOf, IsDiff, Held, Grid, Snapshot.Valid;
    var candidates := Candidates(diff, cred);
    FlipsAreCandidates(prev, curr, diff, cred, candidates);
    if candidates == {} {
      FlippedTiles(prev.held, curr.held, cred, candidates, {}, {}, []);
      FlippedTiles(curr.held, prev.held, cred, candidates, {}, {}, []);
      return [], [];
    }
    var inPrev := Present(prev, cred, candidates);
    var inCurr := Present(curr, cred, candidates);
    added, removed := SplitCandidates(candidates, inPrev, inCurr);
    FlippedTiles(prev.held, curr.held, cred, candidates, inPrev, inCurr, added);
    FlippedTiles(curr.held, prev.held, cred, candidates, inCurr, inPrev, removed);
  }

  /** The tiles of those of `done` that lie in `among`, each once. */
  ghost predicate Carries(tiles: seq<Tile>, done: set<Bytes>, among: set<Bytes>) {
    && Distinct(tiles)
    && (forall t <- tiles :: exists a <- done :: a in among && |a| >= POLICY_LEN && t == TileOf(a))
    && (forall a <- done :: a in among && |a| >= POLICY_LEN ==> TileOf(a) in tiles)
  }

  lemma CarriesMore(tiles: seq<Tile>, done: set<Bytes>, among: set<Bytes>, asset: Bytes)
    requires Carries(tiles, done, among) && asset !in done && |asset| >= POLICY_LEN
    ensures Carries(if asset in among then tiles + [TileOf(asset)] else tiles, done + {asset}, among)
  {
    hide TileOf;
    forall a | a in done && |a| >= POLICY_LEN
      ensures TileOf(a) != TileOf(asset)
    {
      if TileOf(a) == TileOf(asset) {
        TilesDiffer(a, asset);
      }
    }
    assert TileOf(asset) !in tiles && asset in done + {asset};
  }

  lemma CarriesNone(among: set<Bytes>)
    ensures Carries([], {}, among)
  {
  }

  /** A token the credential gains or loses has a changed entry on one of its addresses. */
  lemma FlipsAreCandidates(prev: Snapshot, curr: Snapshot, diff: seq<DiffItem>, cred: Bytes, candidates: set<Bytes>)
    requires prev.Valid() && curr.Valid() && IsDiff(prev.held, curr.held, diff)
    requires AreCandidates(candidates, diff, cred)
    ensures forall a <- candidates :: |a| >= POLICY_LEN
    ensures forall a :: Held(prev.held, Stake(cred), a) != Held(curr.held, Stake(cred), a) ==> a in candidates
  {
    forall a | Held(prev.held, Stake(cred), a) != Held(curr.held, Stake(cred), a)
      ensures a in candidates
    {
      if Held(prev.held, Stake(cred), a) {
        var k :| k in prev.held && Stake(cred).Owns(k) && k.asset == a;
        assert k !in curr.held;
        assert Remove(k) in diff && Remove(k).key == k;
      } else {
        var k :| k in curr.held && Stake(cred).Owns(k) && k.asset == a;
        assert k !in prev.held;
        assert Add(k) in diff && Add(k).key == k;
      }
    }
  }

  /** The candidates held after but not before are exactly the difference of the grids. */
  lemma FlippedTiles(before: Holdings, after: Holdings, cred: Bytes, candidates: set<Bytes>,
                     inBefore: set<Bytes>, inAfter: set<Bytes>, tiles: seq<Tile>)
    requires forall a :: Held(before, Stake(cred), a) != Held(after, Stake(cred), a) ==> a in candidates
    requires forall a :: a in inBefore <==> a in candidates && Held(before, Stake(cred), a)
    requires forall a :: a in inAfter <==> a in candidates && Held(after, Stake(cred), a)
    requires Carries(tiles, candidates, inAfter - inBefore)
    ensures (set t <- tiles) == Grid(after, Stake(cred)) - Grid(before, Stake(cred))
  {
    hide TileOf;
    forall t | t in tiles
      ensures t in Grid(after, Stake(cred)) && t !in Grid(before, Stake(cred))
    {
      var a :| a in candidates && a in inAfter - inBefore && |a| >= POLICY_LEN && t == TileOf(a);
      InGrid(before, Stake(cred), a);
      InGrid(after, Stake(cred), a);
    }
    forall t | t in Grid(after, Stake(cred)) && t !in Grid(before, Stake(cred))
      ensures t in tiles
    {
      var k :| k in after && Stake(cred).Owns(k) && |k.asset| >= POLICY_LEN && t == TileOf(k.asset);
      InGrid(before, Stake(cred), k.asset);
      assert Held(after, Stake(cred), k.asset);
    }
  }

  // ---- The grid read by a scan ----

  lemma {:induction false} OfAddrHas(es: seq<Entry>, addr: AddrKey)
    ensures forall e :: e in OfAddr(es, addr) <==> e in es && e.key.addr == addr
  {
    if es != [] {
      OfAddrHas(es[1..], addr);
      assert es == [es[0]] + es[1..];
    }
  }

  /** The rows of a prefix scan are the subject's grid. */
  lemma ScanIsGrid(s: Snapshot, subject: Subject, scan: seq<Entry>)
    requires s.Valid()
    requires scan == match subject
                     case Address(addr) => AddrRange(s.entries, addr)
                     case Stake(cred) => CredRange(s.entries, cred)
    ensures forall t :: t in Grid(s.held, subject) <==> exists e <- scan :: |e.key.asset| >= POLICY_LEN && t == TileOf(e.key.asset)
  {
    hide TileOf, SortedEntries, AddrRange, CredRange, OfAddr, OfCred;
    match subject {
      case Address(addr) =>
        AddrRangeIsFilter(s.entries, addr);
        OfAddrHas(s.entries, addr);
      case Stake(cred) =>
        CredRangeIsFilter(s.entries, cred);
        OfCredHas(s.entries, cred);
    }
    assert forall e :: e in scan <==> e in s.entries && subject.Owns(e.key);
    forall t | t in Grid(s.held, subject)
      ensures exists e <- scan :: |e.key.asset| >= POLICY_LEN && t == TileOf(e.key.asset)
    {
      var k :| k in s.held && subject.Owns(k) && |k.asset| >= POLICY_LEN && t == TileOf(k.asset);
      assert Entry(k, s.held[k]) in scan;
    }
  }

  // ---- A live page ----

  datatype Delta = Delta(added: set<Tile>, removed: set<Tile>)

  /** A page drops the removed tiles and puts the added ones it does not show yet in front. */
  function Shown(start: set<Tile>, deltas: seq<Delta>): set<Tile> {
    if deltas == [] then start
    else
      var d := deltas[|deltas| - 1];
      Shown(start, deltas[..|deltas| - 1]) - d.removed + d.added
  }

  ghost predicate IsDelta(d: Delta, prev: Holdings, curr: Holdings, s: Subject) {
    d == Delta(Grid(curr, s) - Grid(prev, s), Grid(prev, s) - Grid(curr, s))
  }

  /** The deltas of a run of observed snapshots. */
  ghost predicate Follows(deltas: seq<Delta>, observed: seq<Holdings>, s: Subject) {
    && |deltas| == (if observed == [] then 0 else |observed| - 1)
    && forall i | 0 <= i < |deltas| :: IsDelta(deltas[i], observed[i], observed[i + 1], s)
  }

  // ---- The quantity on a tile ----

  function Quantity(m: Holdings): HeldKey -> int {
    (k: HeldKey) => QtyAt(m, k)
  }

  ghost function KeysOf(m: Holdings, s: Subject, asset: Bytes): set<HeldKey> {
    set k | k in m && s.Owns(k) && k.asset == asset
  }

  /** What a subject owns of an asset, over all its addresses. */
  ghost function Owned(m: Holdings, s: Subject, asset: Bytes): int {
    Sum(KeysOf(m, s, asset), Quantity(m))
  }

  ghost function KeysIn(es: seq<Entry>, asset: Bytes): set<HeldKey> {
    set e | e in es && e.key.asset == asset :: e.key
  }

  lemma ScannedKeys(s: Snapshot, cred: Bytes, asset: Bytes)
    requires s.Valid()
    ensures KeysIn(OfCred(s.entries, cred), asset) == KeysOf(s.held, Stake(cred), asset)
    ensures SortedEntries(OfCred(s.entries, cred)) && forall e <- OfCred(s.entries, cred) :: e.key in s.held && s.held[e.key] == e.held
  {
    hide KeyLess;
    OfCredIs(s.entries, cred);
    forall k | k in KeysOf(s.held, Stake(cred), asset)
      ensures k in KeysIn(OfCred(s.entries, cred), asset)
    {
      assert Entry(k, s.held[k]) in OfCred(s.entries, cred);
    }
  }

  lemma {:induction false} OfCredIs(es: seq<Entry>, cred: Bytes)
    ensures forall e :: e in OfCred(es, cred) <==> e in es && e.key.addr.cred == Some(cred)
    ensures SortedEntries(es) ==> SortedEntries(OfCred(es, cred))
  {
    hide KeyLess;
    if es != [] {
      OfCredIs(es[1..], cred);
      assert es == [es[0]] + es[1..];
    }
  }

  lemma NextKey(es: seq<Entry>, i: nat, asset: Bytes, f: HeldKey -> int)
    requires SortedEntries(es) && i < |es|
    ensures Sum(KeysIn(es[..i + 1], asset), f) == Sum(KeysIn(es[..i], asset), f) + (if es[i].key.asset == asset then f(es[i].key) else 0)
  {
    hide Sum, KeyLess;
    SortedDistinct(es);
    assert es[..i + 1] == es[..i] + [es[i]];
    if es[i].key.asset == asset {
      assert KeysIn(es[..i + 1], asset) == KeysIn(es[..i], asset) + {es[i].key};
      SumAdd(KeysIn(es[..i], asset), es[i].key, f);
    } else {
      assert KeysIn(es[..i + 1], asset) == KeysIn(es[..i], asset);
    }
  }

  lemma OneKey(m: Holdings, addr: AddrKey, asset: Bytes)
    ensures Owned(m, Address(addr), asset) == QtyAt(m, HeldKey(addr, asset))
  {
    var k := HeldKey(addr, asset);
    if k in m {
      assert KeysOf(m, Address(addr), asset) == {} + {k};
      SumAdd({}, k, Quantity(m));
    } else {
      assert KeysOf(m, Address(addr), asset) == {};
    }
  }

  /** A lookup for an address, a sum over the credential's range for a stake key. */
  method OwnedQty(s: Snapshot, subject: Subject, tile: Tile) returns (q: nat)
    requires s.Valid()
    ensures q == Owned(s.held, subject, tile.policy + tile.name)
  {
    hide SortedEntries, CredRange, OfCred, Sum, KeysIn;
    var asset := tile.policy + tile.name;
    match subject {
      case Address(addr) =>
        OneKey(s.held, addr, asset);
        q := QtyAt(s.held, HeldKey(addr, asset));
      case Stake(cred) =>
        CredRangeIsFilter(s.entries, cred);
        ScannedKeys(s, cred, asset);
        var scan := CredRange(s.entries, cred);
        q := 0;
        NoKeys(scan, asset, Quantity(s.held));
        for i := 0 to |scan|
          invariant q == Sum(KeysIn(scan[..i], asset), Quantity(s.held))
        {
          NextKey(scan, i, asset, Quantity(s.held));
          assert scan[i] in scan;
          if scan[i].key.asset == asset {
            q := q + scan[i].held.Qty();
          }
        }
        assert scan[..|scan|] == scan;
    }
  }

  lemma NoKeys(es: seq<Entry>, asset: Bytes, f: HeldKey -> int)
    ensures Sum(KeysIn(es[..0], asset), f) == 0
  {
    SumZero(KeysIn(es[..0], asset), f);
  }

  predicate Positive(m: Holdings) {
    forall k <- m :: m[k].Qty() > 0
  }

  /** With positive leaves a subject owns something of what it holds. */
  lemma HeldIsOwned(m: Holdings, s: Subject, asset: Bytes)
    requires Positive(m) && Held(m, s, asset)
    ensures Owned(m, s, asset) > 0
  {
    var k :| k in m && s.Owns(k) && k.asset == asset;
    SumRemove(KeysOf(m, s, asset), k, Quantity(m));
    NotNegative(KeysOf(m, s, asset) - {k}, m);
  }

  lemma {:induction false} NotNegative(ks: set<HeldKey>, m: Holdings)
    ensures Sum(ks, Quantity(m)) >= 0
  {
    if ks != {} {
      var k :| k in ks;
      SumRemove(ks, k, Quantity(m));
      NotNegative(ks - {k}, m);
    }
  }

  method Quantities(s: Snapshot, subject: Subject, tiles: seq<Tile>) returns (qs: seq<nat>)
    requires s.Valid()
    ensures |qs| == |tiles|
    ensures forall i | 0 <= i < |tiles| :: qs[i] == Owned(s.held, subject, tiles[i].policy + tiles[i].name)
  {
    hide Owned, Snapshot.Valid;
    qs := [];
    for i := 0 to |tiles|
      invariant |qs| == i
      invariant forall j | 0 <= j < i :: qs[j] == Owned(s.held, subject, tiles[j].policy + tiles[j].name)
    {
      var q := OwnedQty(s, subject, tiles[i]);
      qs := qs + [q];
    }
  }

  // ---- The stream ----

  /** Exactly the assets of 28 bytes of policy and a name that are held after and not before, each with what is owned of it. */
  ghost predicate Gains(tiles: seq<Tile>, before: Holdings, after: Holdings, s: Subject) {
    && (forall t :: t in tiles <==> |t.policy| == 28 && Held(after, s, t.policy + t.name) && !Held(before, s, t.policy + t.name))
    && (Positive(after) ==> forall t <- tiles :: Owned(after, s, t.policy + t.name) > 0)
  }

  lemma GridGains(tiles: seq<Tile>, before: Holdings, after: Holdings, s: Subject)
    requires (set t <- tiles) == Grid(after, s) - Grid(before, s)
    ensures Gains(tiles, before, after, s)
  {
    hide Grid, Held, Owned, Positive;
    var gained := set t <- tiles;
    forall t
      ensures t in tiles <==> |t.policy| == 28 && Held(after, s, t.policy + t.name) && !Held(before, s, t.policy + t.name)
      ensures t in tiles && Positive(after) ==> Owned(after, s, t.policy + t.name) > 0
    {
      assert t in tiles <==> t in gained;
      GridIs(after, s, t);
      GridIs(before, s, t);
      if t in tiles && Positive(after) {
        HeldIsOwned(after, s, t.policy + t.name);
      }
    }
  }

  /** One connection's live stream of an owned-assets page. */
  class LiveStream {
    const subject: Subject
    var prevHoldings: Option<Snapshot>
    ghost var observed: seq<Holdings>
    ghost var sent: seq<Delta>

    ghost predicate Valid()
      reads this
    {
      && Follows(sent, observed, subject)
      && (prevHoldings.None? <==> observed == [])
      && (prevHoldings.Some? ==> prevHoldings.value.Valid() && prevHoldings.value.held == observed[|observed| - 1])
    }

    constructor (subject: Subject)
      ensures Valid() && this.subject == subject && observed == [] && sent == []
    {
      this.subject := subject;
      prevHoldings := None;
      observed, sent := [], [];
    }

    /** A block or a rollback arrived: compare the snapshot now current with the one seen last. */
    method OnEvent(curr: Option<Snapshot>, diff: seq<DiffItem>) returns (added: seq<Tile>, quantities: seq<nat>, removed: seq<Tile>)
      requires Valid() && (curr.Some? ==> curr.value.Valid())
      requires prevHoldings.Some? && curr.Some? ==> IsDiff(prevHoldings.value.held, curr.value.held, diff)
      modifies this
      ensures Valid()
      ensures observed == old(observed) + (if curr.Some? then [curr.value.held] else [])
      ensures Distinct(added) && Distinct(removed)
      ensures sent == old(sent) + (if curr.Some? && old(observed) != [] then [Delta(set t <- added, set t <- removed)] else [])
      ensures curr.None? || old(observed) == [] ==> added == [] && removed == []
      ensures curr.Some? && old(observed) != [] ==>
                var prev := old(observed)[|old(observed)| - 1];
                Gains(added, prev, curr.value.held, subject) && Gains(removed, curr.value.held, prev, subject)
      ensures |quantities| == |added|
      ensures forall i | 0 <= i < |added| :: curr.Some? && quantities[i] == Owned(curr.value.held, subject, added[i].policy + added[i].name)
    {
      hide Grid, IsDiff, Owned, Snapshot.Valid, Gains;
      added, quantities, removed := [], [], [];
      if curr.Some? {
        if prevHoldings.Some? {
          match subject {
            case Address(key) =>
              added, removed := AddressTileDiff(prevHoldings.value, curr.value, diff, key);
            case Stake(cred) =>
              added, removed := StakeTileDiff(prevHoldings.value, curr.value, diff, cred);
          }
          GridGains(added, prevHoldings.value.held, curr.value.held, subject);
          GridGains(removed, curr.value.held, prevHoldings.value.held, subject);
          quantities := Quantities(curr.value, subject, added);
          sent := sent + [Delta(set t <- added, set t <- removed)];
        }
        prevHoldings := curr;
        observed := observed + [curr.value.held];
      }
    }
  }

  ghost predicate Steady(observed: seq<Holdings>, s: Subject, t: Tile) {
    forall i | 0 <= i < |observed| :: t in Grid(observed[i], s) <==> t in Grid(observed[0], s)
  }

  /** Applied one after the other, the deltas set every token that ever flipped and touch no other. */
  lemma {:induction false} Telescopes(start: set<Tile>, deltas: seq<Delta>, observed: seq<Holdings>, s: Subject, t: Tile)
    requires observed != [] && Follows(deltas, observed, s)
    ensures t in Shown(start, deltas) <==>
            if Steady(observed, s, t) then t in start else t in Grid(observed[|observed| - 1], s)
  {
    hide Grid;
    if deltas != [] {
      var n := |deltas| - 1;
      var before := observed[..n + 1];
      assert Follows(deltas[..n], before, s);
      Telescopes(start, deltas[..n], before, s, t);
      assert IsDelta(deltas[n], observed[n], observed[n + 1], s);
      assert before[n] == observed[n];
    }
  }

  /**
   * The page ends with the final grid exactly when, among the tokens that never flipped, it
   * started with those of the first observed snapshot.
   */
  lemma LivePageExact(start: set<Tile>, deltas: seq<Delta>, observed: seq<Holdings>, s: Subject)
    requires observed != [] && Follows(deltas, observed, s)
    ensures Shown(start, deltas) == Grid(observed[|observed| - 1], s) <==>
            forall t :: Steady(observed, s, t) ==> (t in start <==> t in Grid(observed[0], s))
  {
    hide Grid, Shown;
    var last := Grid(observed[|observed| - 1], s);
    forall t
      ensures t in Shown(start, deltas) <==> if Steady(observed, s, t) then t in start else t in last
      ensures Steady(observed, s, t) ==> (t in last <==> t in Grid(observed[0], s))
    {
      Telescopes(start, deltas, observed, s, t);
    }
    if forall t :: Steady(observed, s, t) ==> (t in start <==> t in Grid(observed[0], s)) {
      assert forall t :: t in Shown(start, deltas) <==> t in last;
    }
  }

  /** A page loaded from the first observed snapshot ends with the grid of the last, rollbacks or not. */
  lemma PageFollows(deltas: seq<Delta>, observed: seq<Holdings>, s: Subject)
    requires observed != [] && Follows(deltas, observed, s)
    ensures Shown(Grid(observed[0], s), deltas) == Grid(observed[|observed| - 1], s)
  {
    LivePageExact(Grid(observed[0], s), deltas, observed, s);
  }
}
