/** ADA Handle resolution: handle to owner address, and the two reverse indexes kept beside it. */
module Handles {
  import opened Wrappers
  import opened Bytes
  import opened Seqs

  /** The stake credential of a bech32 address, if it has a stake part. */
  type CredOf = string -> Option<Bytes>

  datatype HandleMaps = HandleMaps(byAddress: map<string, seq<string>>, byHandle: map<string, string>,
                                   byStake: map<Bytes, seq<string>>)

  datatype Move = Move(handle: string, owner: string)

  // ---- Lists per key ----

  function Without(list: seq<string>, h: string): (r: seq<string>)
    ensures forall x :: x in r <==> x in list && x != h
  {
    if list == [] then []
    else
      var last := list[|list| - 1];
      Without(list[..|list| - 1], h) + (if last != h then [last] else [])
  }

  function Detach<K>(m: map<K, seq<string>>, k: K, h: string): map<K, seq<string>> {
    if k !in m then m
    else if Without(m[k], h) == [] then m - {k}
    else m[k := Without(m[k], h)]
  }

  function Push<K>(m: map<K, seq<string>>, k: K, h: string): map<K, seq<string>> {
    m[k := (if k in m then m[k] else []) + [h]]
  }

  /** Like Push, unless the handle is already listed. */
  function Attach(m: map<Bytes, seq<string>>, k: Bytes, h: string): map<Bytes, seq<string>> {
    if k in m && h in m[k] then m else Push(m, k, h)
  }

  /** Key `k` lists, once each, exactly the handles whose owner is `k`; no list is empty. */
  ghost predicate Exact<K(!new)>(m: map<K, seq<string>>, owner: string -> Option<K>) {
    && (forall k <- m :: m[k] != [] && Distinct(m[k]))
    && (forall k, h :: k in m && h in m[k] <==> owner(h) == Some(k))
  }

  lemma {:induction false} WithoutDistinct(list: seq<string>, h: string)
    requires Distinct(list)
    ensures Distinct(Without(list, h))
  {
    if list != [] {
      WithoutDistinct(list[..|list| - 1], h);
      var last := list[|list| - 1];
      assert last !in Without(list[..|list| - 1], h);
    }
  }

  lemma DetachExact<K(!new)>(m: map<K, seq<string>>, k: K, h: string, owner: string -> Option<K>, owner': string -> Option<K>)
    requires Exact(m, owner) && owner(h) == Some(k)
    requires owner'(h) == None && forall x :: x != h ==> owner'(x) == owner(x)
    ensures Exact(Detach(m, k, h), owner')
  {
    assert k in m && h in m[k];
    WithoutDistinct(m[k], h);
    forall k', x
      ensures k' in Detach(m, k, h) && x in Detach(m, k, h)[k'] <==> owner'(x) == Some(k')
    {
      assert k' in m && x in m[k'] <==> owner(x) == Some(k');
      assert x in Without(m[k], h) <==> x in m[k] && x != h;
    }
  }

  lemma PushExact<K(!new)>(m: map<K, seq<string>>, k: K, h: string, owner: string -> Option<K>, owner': string -> Option<K>)
    requires Exact(m, owner) && owner(h) == None
    requires owner'(h) == Some(k) && forall x :: x != h ==> owner'(x) == owner(x)
    ensures Exact(Push(m, k, h), owner')
    ensures !(k in m && h in m[k])
  {
    var list := if k in m then m[k] else [];
    assert h !in list;
    forall k', x
      ensures k' in Push(m, k, h) && x in Push(m, k, h)[k'] <==> owner'(x) == Some(k')
    {
      assert k' in m && x in m[k'] <==> owner(x) == Some(k');
      assert x in list + [h] <==> x in list || x == h;
    }
  }

  /** An index that is exact for an owner function is determined up to the order of its lists. */
  ghost predicate SameSets<K(!new)>(a: map<K, seq<string>>, b: map<K, seq<string>>) {
    a.Keys == b.Keys && forall k, h | k in a :: h in a[k] <==> h in b[k]
  }

  lemma ExactUnique<K(!new)>(a: map<K, seq<string>>, b: map<K, seq<string>>, owner: string -> Option<K>)
    requires Exact(a, owner) && Exact(b, owner)
    ensures SameSets(a, b)
  {
    forall k
      ensures k in a <==> k in b
    {
      if k in a { assert a[k][0] in a[k]; assert owner(a[k][0]) == Some(k); }
      if k in b { assert b[k][0] in b[k]; assert owner(b[k][0]) == Some(k); }
    }
    forall k, h | k in a
      ensures h in a[k] <==> h in b[k]
    {
      assert k in a && h in a[k] <==> owner(h) == Some(k);
    }
  }

  // ---- Owners ----

  function AddressOwner(byHandle: map<string, string>): string -> Option<string> {
    (h: string) => if h in byHandle then Some(byHandle[h]) else None
  }

  function StakeOwner(byHandle: map<string, string>, credOf: CredOf): string -> Option<Bytes> {
    (h: string) => if h in byHandle then credOf(byHandle[h]) else None
  }

  ghost predicate Consistent(s: HandleMaps, credOf: CredOf) {
    && Exact(s.byAddress, AddressOwner(s.byHandle))
    && Exact(s.byStake, StakeOwner(s.byHandle, credOf))
  }

  // ---- One block's movements ----

  function Moved(s: HandleMaps, mv: Move, credOf: CredOf): HandleMaps {
    var prior := if mv.handle in s.byHandle then Some(s.byHandle[mv.handle]) else None;
    if prior == Some(mv.owner) then s
    else
      var detached := if prior.Some? then Detach(s.byAddress, prior.value, mv.handle) else s.byAddress;
      var oldCred := if prior.Some? then credOf(prior.value) else None;
      var newCred := credOf(mv.owner);
      var left := if oldCred != newCred && oldCred.Some? then Detach(s.byStake, oldCred.value, mv.handle) else s.byStake;
      HandleMaps(Push(detached, mv.owner, mv.handle), s.byHandle[mv.handle := mv.owner],
                 if oldCred != newCred && newCred.Some? then Attach(left, newCred.value, mv.handle) else left)
  }

  function Burned(s: HandleMaps, h: string, credOf: CredOf): HandleMaps {
    if h !in s.byHandle then s
    else
      var addr := s.byHandle[h];
      HandleMaps(Detach(s.byAddress, addr, h), s.byHandle - {h},
                 if credOf(addr).Some? then Detach(s.byStake, credOf(addr).value, h) else s.byStake)
  }

  function AllMoved(s: HandleMaps, moves: seq<Move>, credOf: CredOf): HandleMaps {
    if moves == [] then s else Moved(AllMoved(s, moves[..|moves| - 1], credOf), moves[|moves| - 1], credOf)
  }

  /** Spent handles that no output of the block carries are burned. */
  function AllBurned(s: HandleMaps, produced: set<string>, consumed: seq<string>, credOf: CredOf): HandleMaps {
    if consumed == [] then s
    else
      var t := AllBurned(s, produced, consumed[..|consumed| - 1], credOf);
      var h := consumed[|consumed| - 1];
      if h in produced then t else Burned(t, h, credOf)
  }

  function HandlesOf(moves: seq<Move>): set<string> {
    set mv <- moves :: mv.handle
  }

  function Updated(s: HandleMaps, moves: seq<Move>, consumed: seq<string>, credOf: CredOf): HandleMaps {
    AllBurned(AllMoved(s, moves, credOf), HandlesOf(moves), consumed, credOf)
  }

  method ApplyHandleUpdates(s: HandleMaps, moves: seq<Move>, consumed: seq<string>, credOf: CredOf) returns (r: HandleMaps)
    ensures r == Updated(s, moves, consumed, credOf)
  {
    var byAddress, byHandle, byStake := s.byAddress, s.byHandle, s.byStake;
    for i := 0 to |moves|
      invariant HandleMaps(byAddress, byHandle, byStake) == AllMoved(s, moves[..i], credOf)
    {
      assert moves[..i + 1][..i] == moves[..i];
      var Move(handle, owner) := moves[i];
      var prior := if handle in byHandle then Some(byHandle[handle]) else None;
      if prior == Some(owner) {
        continue;
      }
      if prior.Some? {
        byAddress := Detach(byAddress, prior.value, handle);
      }
      byAddress := Push(byAddress, owner, handle);
      byHandle := byHandle[handle := owner];
      var oldCred := if prior.Some? then credOf(prior.value) else None;
      var newCred := credOf(owner);
      if oldCred != newCred {
        if oldCred.Some? {
          byStake := Detach(byStake, oldCred.value, handle);
        }
        if newCred.Some? {
          byStake := Attach(byStake, newCred.value, handle);
        }
      }
    }
    assert moves[..|moves|] == moves;
    var produced := HandlesOf(moves);
    ghost var moved := AllMoved(s, moves, credOf);
    for i := 0 to |consumed|
      invariant HandleMaps(byAddress, byHandle, byStake) == AllBurned(moved, produced, consumed[..i], credOf)
    {
      assert consumed[..i + 1][..i] == consumed[..i];
      var h := consumed[i];
      if h in produced {
        continue;
      }
      if h in byHandle {
        var addr := byHandle[h];
        byHandle := byHandle - {h};
        byAddress := Detach(byAddress, addr, h);
        if credOf(addr).Some? {
          byStake := Detach(byStake, credOf(addr).value, h);
        }
      }
    }
    assert consumed[..|consumed|] == consumed;
    r := HandleMaps(byAddress, byHandle, byStake);
  }

  // ---- Consistency over any movements ----

  lemma BurnKeeps(s: HandleMaps, h: string, credOf: CredOf)
    requires Consistent(s, credOf)
    ensures Consistent(Burned(s, h, credOf), credOf)
  {
    hide Exact, Detach;
    if h in s.byHandle {
      var addr := s.byHandle[h];
      var gone := s.byHandle - {h};
      DetachExact(s.byAddress, addr, h, AddressOwner(s.byHandle), AddressOwner(gone));
      if credOf(addr).Some? {
        DetachExact(s.byStake, credOf(addr).value, h, StakeOwner(s.byHandle, credOf), StakeOwner(gone, credOf));
      } else {
        SameOwner(s.byStake, StakeOwner(s.byHandle, credOf), StakeOwner(gone, credOf));
      }
    }
  }

  lemma SameOwner<K(!new)>(m: map<K, seq<string>>, owner: string -> Option<K>, owner': string -> Option<K>)
    requires Exact(m, owner) && forall h :: owner'(h) == owner(h)
    ensures Exact(m, owner')
  {
  }

  /** A move is a burn followed by a mint, except that a shared credential keeps its list. */
  lemma MoveKeeps(s: HandleMaps, mv: Move, credOf: CredOf)
    requires Consistent(s, credOf)
    ensures Consistent(Moved(s, mv, credOf), credOf)
  {
    hide Exact, Detach, Push, Attach;
    var h := mv.handle;
    var r := Moved(s, mv, credOf);
    var prior := if h in s.byHandle then Some(s.byHandle[h]) else None;
    if prior != Some(mv.owner) {
      var gone := s.byHandle - {h};
      var detached := if prior.Some? then Detach(s.byAddress, prior.value, h) else s.byAddress;
      if prior.Some? {
        DetachExact(s.byAddress, prior.value, h, AddressOwner(s.byHandle), AddressOwner(gone));
      } else {
        SameOwner(s.byAddress, AddressOwner(s.byHandle), AddressOwner(gone));
      }
      PushExact(detached, mv.owner, h, AddressOwner(gone), AddressOwner(r.byHandle));
      MoveKeepsStake(s, mv, credOf, prior);
    }
  }

  lemma MoveKeepsStake(s: HandleMaps, mv: Move, credOf: CredOf, prior: Option<string>)
    requires Consistent(s, credOf) && prior != Some(mv.owner)
    requires prior == if mv.handle in s.byHandle then Some(s.byHandle[mv.handle]) else None
    ensures Exact(Moved(s, mv, credOf).byStake, StakeOwner(Moved(s, mv, credOf).byHandle, credOf))
  {
    hide Exact, Detach, Push;
    var h, owner := mv.handle, StakeOwner(s.byHandle, credOf);
    var gone := StakeOwner(s.byHandle - {h}, credOf);
    var now := StakeOwner(s.byHandle[h := mv.owner], credOf);
    var oldCred := if prior.Some? then credOf(prior.value) else None;
    var newCred := credOf(mv.owner);
    if oldCred == newCred {
      SameOwner(s.byStake, owner, now);
    } else {
      var left := if oldCred.Some? then Detach(s.byStake, oldCred.value, h) else s.byStake;
      if oldCred.Some? {
        DetachExact(s.byStake, oldCred.value, h, owner, gone);
      } else {
        SameOwner(s.byStake, owner, gone);
      }
      if newCred.Some? {
        PushExact(left, newCred.value, h, gone, now);
      } else {
        SameOwner(left, gone, now);
      }
    }
  }

  lemma UpdatesKeep(s: HandleMaps, moves: seq<Move>, consumed: seq<string>, credOf: CredOf)
    requires Consistent(s, credOf)
    ensures Consistent(Updated(s, moves, consumed, credOf), credOf)
  {
    MovesKeep(s, moves, credOf);
    BurnsKeep(AllMoved(s, moves, credOf), HandlesOf(moves), consumed, credOf);
  }

  lemma NothingUpdated(s: HandleMaps, credOf: CredOf)
    ensures Updated(s, [], [], credOf) == s
  {
  }

  lemma {:induction false} MovesKeep(s: HandleMaps, moves: seq<Move>, credOf: CredOf)
    requires Consistent(s, credOf)
    ensures Consistent(AllMoved(s, moves, credOf), credOf)
  {
    hide Consistent, Moved;
    if moves != [] {
      MovesKeep(s, moves[..|moves| - 1], credOf);
      MoveKeeps(AllMoved(s, moves[..|moves| - 1], credOf), moves[|moves| - 1], credOf);
    }
  }

  lemma {:induction false} BurnsKeep(s: HandleMaps, produced: set<string>, consumed: seq<string>, credOf: CredOf)
    requires Consistent(s, credOf)
    ensures Consistent(AllBurned(s, produced, consumed, credOf), credOf)
  {
    hide Consistent, Burned;
    if consumed != [] {
      BurnsKeep(s, produced, consumed[..|consumed| - 1], credOf);
      BurnKeeps(AllBurned(s, produced, consumed[..|consumed| - 1], credOf), consumed[|consumed| - 1], credOf);
    }
  }

  // ---- The order of an address's handles ----

  function ListAt(m: map<string, seq<string>>, k: string): seq<string> {
    if k in m then m[k] else []
  }

  /** What is left of a list when a handle leaves it, place by place. */
  lemma {:induction false} WithoutParts(a: seq<string>, b: seq<string>, h: string)
    ensures Without(a + b, h) == Without(a, h) + Without(b, h)
    ensures h !in a ==> Without(a, h) == a
    decreases |a| + |b|
  {
    if b == [] {
      assert a + b == a;
      if a != [] {
        WithoutParts(a[..|a| - 1], [], h);
        assert a[..|a| - 1] + [] == a[..|a| - 1] && a == a[..|a| - 1] + [a[|a| - 1]];
      }
    } else {
      var n := |b| - 1;
      assert (a + b)[..|a + b| - 1] == a + b[..n];
      WithoutParts(a, b[..n], h);
    }
  }

  /** A handle that moves comes last at its new address; everywhere else the others keep their order. */
  lemma ArrivesLast(s: HandleMaps, mv: Move, credOf: CredOf, a: string)
    requires Consistent(s, credOf) && AddressOwner(s.byHandle)(mv.handle) != Some(mv.owner)
    ensures var left := Without(ListAt(s.byAddress, a), mv.handle);
            ListAt(Moved(s, mv, credOf).byAddress, a) == if a == mv.owner then left + [mv.handle] else left
  {
    WithoutParts(ListAt(s.byAddress, a), [], mv.handle);
    assert ListAt(s.byAddress, a) + [] == ListAt(s.byAddress, a);
  }

  /** The first of the shortest handles of a list stands at `i`. */
  predicate FirstShortest(list: seq<string>, i: nat)
    requires i < |list|
  {
    (forall j | 0 <= j < i :: |list[j]| > |list[i]|) && (forall j | i <= j < |list| :: |list[j]| >= |list[i]|)
  }

  /** The handle an address or a stake key is shown with. */
  method HandleFor<K(==)>(m: map<K, seq<string>>, k: K) returns (r: Option<string>)
    ensures r.None? <==> k !in m || m[k] == []
    ensures r.Some? ==> exists i | 0 <= i < |m[k]| :: m[k][i] == r.value && FirstShortest(m[k], i)
  {
    if k !in m || m[k] == [] {
      return None;
    }
    var list := m[k];
    var best := 0;
    for i := 1 to |list|
      invariant best < i
      invariant forall j | 0 <= j < best :: |list[j]| > |list[best]|
      invariant forall j | best <= j < i :: |list[j]| >= |list[best]|
    {
      if |list[i]| < |list[best]| {
        best := i;
      }
    }
    assert FirstShortest(list, best);
    r := Some(list[best]);
  }

  /** Lists of the same handles in different orders show handles of one length, and the same one if only one is that short. */
  lemma ShownAgree(a: seq<string>, i: nat, b: seq<string>, j: nat)
    requires i < |a| && j < |b| && FirstShortest(a, i) && FirstShortest(b, j) && forall h :: h in a <==> h in b
    ensures |a[i]| == |b[j]|
    ensures a[i] == b[j] || exists h, g :: h in a && g in a && h != g && |h| == |g| == |a[i]|
  {
    assert a[i] in b && b[j] in a;
  }

  // ---- The owner of the unspent token ----

  /** A handle's token leaves an output, or arrives in one that resolves to an owner. */
  datatype TokenEvent = Spent(handle: string) | Made(handle: string, owner: string)

  /** The handles whose token lies in an unspent output, with their owners, after some events. */
  function Holders(before: map<string, string>, es: seq<TokenEvent>): map<string, string> {
    if es == [] then before
    else
      var init := Holders(before, es[..|es| - 1]);
      match es[|es| - 1]
      case Spent(h) => init - {h}
      case Made(h, owner) => init[h := owner]
  }

  /** The arrivals, and the departures, without their order among each other. */
  function MovesIn(es: seq<TokenEvent>): seq<Move> {
    if es == [] then []
    else MovesIn(es[..|es| - 1]) + (if es[|es| - 1].Made? then [Move(es[|es| - 1].handle, es[|es| - 1].owner)] else [])
  }

  function SpentIn(es: seq<TokenEvent>): seq<string> {
    if es == [] then [] else SpentIn(es[..|es| - 1]) + (if es[|es| - 1].Spent? then [es[|es| - 1].handle] else [])
  }

  /** The last owner a handle arrives at, and the last event of the handle. */
  function LastOwner(moves: seq<Move>, h: string): Option<string> {
    if moves == [] then None
    else if moves[|moves| - 1].handle == h then Some(moves[|moves| - 1].owner)
    else LastOwner(moves[..|moves| - 1], h)
  }

  function LastEvent(es: seq<TokenEvent>, h: string): Option<TokenEvent> {
    if es == [] then None
    else if es[|es| - 1].handle == h then Some(es[|es| - 1])
    else LastEvent(es[..|es| - 1], h)
  }

  /** No handle arrives and leaves for good. */
  predicate NoneForGood(es: seq<TokenEvent>) {
    forall e <- es :: e.Made? ==> LastEvent(es, e.handle) != Some(Spent(e.handle))
  }

  lemma {:induction false} MovedOwner(s: HandleMaps, moves: seq<Move>, credOf: CredOf, h: string)
    ensures AddressOwner(AllMoved(s, moves, credOf).byHandle)(h) ==
            var last := LastOwner(moves, h); if last.Some? then last else AddressOwner(s.byHandle)(h)
    ensures h in HandlesOf(moves) <==> LastOwner(moves, h).Some?
  {
    if moves != [] {
      var n := |moves| - 1;
      MovedOwner(s, moves[..n], credOf, h);
      assert forall mv :: mv in moves <==> mv in moves[..n] || mv == moves[n];
    }
  }

  lemma {:induction false} BurnedOwner(s: HandleMaps, produced: set<string>, spent: seq<string>, credOf: CredOf, h: string)
    ensures AddressOwner(AllBurned(s, produced, spent, credOf).byHandle)(h) ==
            if h in spent && h !in produced then None else AddressOwner(s.byHandle)(h)
  {
    if spent != [] {
      var n := |spent| - 1;
      BurnedOwner(s, produced, spent[..n], credOf, h);
      assert forall x :: x in spent <==> x in spent[..n] || x == spent[n];
    }
  }

  /** What the events say of one handle. */
  lemma {:induction false} HolderIs(before: map<string, string>, es: seq<TokenEvent>, h: string)
    ensures AddressOwner(Holders(before, es))(h) ==
            var last := LastEvent(es, h);
            if last.None? then AddressOwner(before)(h) else if last.value.Spent? then None else Some(last.value.owner)
  {
    if es != [] {
      HolderIs(before, es[..|es| - 1], h);
    }
  }

  lemma OneMoved(moves: seq<Move>, mv: Move, h: string)
    ensures LastOwner(moves + [mv], h) == if mv.handle == h then Some(mv.owner) else LastOwner(moves, h)
  {
    assert (moves + [mv])[..|moves|] == moves;
  }

  /** What the two lists still tell of the events. */
  lemma {:induction false} ListsTell(es: seq<TokenEvent>, h: string)
    ensures var last, owner := LastEvent(es, h), LastOwner(MovesIn(es), h);
            && (last.Some? ==> last.value.handle == h)
            && (last.None? <==> owner.None? && h !in SpentIn(es))
            && (last.Some? && last.value.Made? ==> owner == Some(last.value.owner))
            && (last.Some? && last.value.Spent? ==> h in SpentIn(es))
    ensures LastOwner(MovesIn(es), h).Some? <==> exists e <- es :: e.Made? && e.handle == h
  {
    hide LastOwner;
    if es == [] {
      NothingMoved(h);
    } else {
      var n := |es| - 1;
      var e := es[n];
      ListsTell(es[..n], h);
      Nil(MovesIn(es[..n]));
      if e.Made? {
        OneMoved(MovesIn(es[..n]), Move(e.handle, e.owner), h);
      }
      assert forall x :: x in es <==> x in es[..n] || x == e;
    }
  }

  lemma NothingMoved(h: string)
    ensures LastOwner([], h) == None
  {
  }

  /**
   * A block takes the owners of the unspent handle tokens to the owners of the unspent handle tokens
   * exactly when none of its handles both arrives in it and leaves for good: such a one stays listed
   * with the owner it last arrived at.
   */
  lemma OwnersFollow(s: HandleMaps, es: seq<TokenEvent>, credOf: CredOf)
    ensures Updated(s, MovesIn(es), SpentIn(es), credOf).byHandle == Holders(s.byHandle, es) <==> NoneForGood(es)
  {
    hide AllMoved, AllBurned, Holders, MovesIn, SpentIn, LastOwner, LastEvent, HandlesOf;
    var r, t := Updated(s, MovesIn(es), SpentIn(es), credOf).byHandle, Holders(s.byHandle, es);
    forall h
      ensures AddressOwner(r)(h) == AddressOwner(t)(h) <==>
              (LastOwner(MovesIn(es), h).Some? ==> LastEvent(es, h) != Some(Spent(h)))
    {
      MovedOwner(s, MovesIn(es), credOf, h);
      BurnedOwner(AllMoved(s, MovesIn(es), credOf), HandlesOf(MovesIn(es)), SpentIn(es), credOf, h);
      HolderIs(s.byHandle, es, h);
      ListsTell(es, h);
    }
    SameOwners(r, t);
    forall h
      ensures LastOwner(MovesIn(es), h).Some? <==> exists e <- es :: e.Made? && e.handle == h
    {
      ListsTell(es, h);
    }
  }

  /** A handle minted and burned in one block stays listed. */
  lemma MintedAndBurnedStays(s: HandleMaps, h: string, owner: string, credOf: CredOf)
    ensures var es := [Made(h, owner), Spent(h)];
            Updated(s, MovesIn(es), SpentIn(es), credOf).byHandle != Holders(s.byHandle, es)
  {
    hide Updated, Holders, MovesIn, SpentIn;
    var es := [Made(h, owner), Spent(h)];
    assert es[0] in es && es[|es| - 1] == Spent(h);
    OwnersFollow(s, es, credOf);
  }

  lemma SameOwners(a: map<string, string>, b: map<string, string>)
    ensures a == b <==> forall h :: AddressOwner(a)(h) == AddressOwner(b)(h)
  {
    if forall h :: AddressOwner(a)(h) == AddressOwner(b)(h) {
      forall h
        ensures h in a <==> h in b
        ensures h in a ==> a[h] == b[h]
      {
        assert AddressOwner(a)(h) == AddressOwner(b)(h);
      }
      assert a == b;
    }
  }

  lemma {:induction false} EventsConcat(a: seq<TokenEvent>, b: seq<TokenEvent>)
    ensures MovesIn(a + b) == MovesIn(a) + MovesIn(b) && SpentIn(a + b) == SpentIn(a) + SpentIn(b)
  {
    if b == [] {
      assert a + b == a;
    } else {
      var n := |b| - 1;
      assert (a + b)[..|a + b| - 1] == a + b[..n];
      EventsConcat(a, b[..n]);
    }
  }

  lemma {:induction false} HoldersConcat(before: map<string, string>, a: seq<TokenEvent>, b: seq<TokenEvent>)
    ensures Holders(before, a + b) == Holders(Holders(before, a), b)
  {
    if b == [] {
      assert a + b == a;
    } else {
      var n := |b| - 1;
      assert (a + b)[..|a + b| - 1] == a + b[..n];
      HoldersConcat(before, a, b[..n]);
    }
  }

  lemma {:induction false} AllLeave(before: map<string, string>, names: seq<string>, es: seq<TokenEvent>, h: string)
    requires |es| == |names| && forall i | 0 <= i < |es| :: es[i] == Spent(names[i])
    ensures AddressOwner(Holders(before, es))(h) == if h in names then None else AddressOwner(before)(h)
  {
    if es != [] {
      var n := |es| - 1;
      AllLeave(before, names[..n], es[..n], h);
      assert names == names[..n] + [names[n]];
    }
  }

  lemma {:induction false} AllArrive(before: map<string, string>, moves: seq<Move>, es: seq<TokenEvent>, h: string)
    requires |es| == |moves| && forall i | 0 <= i < |es| :: es[i] == Made(moves[i].handle, moves[i].owner)
    ensures AddressOwner(Holders(before, es))(h) ==
            if LastOwner(moves, h).Some? then LastOwner(moves, h) else AddressOwner(before)(h)
  {
    if es != [] {
      var n := |es| - 1;
      AllArrive(before, moves[..n], es[..n], h);
    }
  }

  // ---- The rebuild on load ----

  /** The stake index of the addresses walked so far. */
  function PartialOwner(byHandle: map<string, string>, todo: set<string>, credOf: CredOf): string -> Option<Bytes> {
    (h: string) => if h in byHandle && byHandle[h] !in todo then credOf(byHandle[h]) else None
  }

  /** Rebuilt from the address lists in any order, the stake index is exact again. */
  method BuildHandleByStake(byAddress: map<string, seq<string>>, ghost byHandle: map<string, string>, credOf: CredOf)
    returns (out: map<Bytes, seq<string>>)
    requires Exact(byAddress, AddressOwner(byHandle))
    ensures Exact(out, StakeOwner(byHandle, credOf))
  {
    out := map[];
    var todo := byAddress.Keys;
    NothingYet(byAddress, byHandle, credOf);
    while todo != {}
      invariant todo <= byAddress.Keys
      invariant Exact(out, PartialOwner(byHandle, todo, credOf))
      decreases |todo|
    {
      var addr :| addr in todo;
      ExtendExact(byAddress, byHandle, credOf, out, todo, addr);
      if credOf(addr).Some? {
        var cred := credOf(addr).value;
        out := out[cred := (if cred in out then out[cred] else []) + byAddress[addr]];
      }
      todo := todo - {addr};
    }
    SameOwner(out, PartialOwner(byHandle, todo, credOf), StakeOwner(byHandle, credOf));
  }

  lemma NothingYet(byAddress: map<string, seq<string>>, byHandle: map<string, string>, credOf: CredOf)
    requires Exact(byAddress, AddressOwner(byHandle))
    ensures Exact(map[], PartialOwner(byHandle, byAddress.Keys, credOf))
  {
    forall h
      ensures PartialOwner(byHandle, byAddress.Keys, credOf)(h) == None
    {
      if h in byHandle {
        assert AddressOwner(byHandle)(h) == Some(byHandle[h]);
      }
    }
  }

  lemma ExtendExact(byAddress: map<string, seq<string>>, byHandle: map<string, string>, credOf: CredOf,
                    out: map<Bytes, seq<string>>, todo: set<string>, addr: string)
    requires Exact(byAddress, AddressOwner(byHandle)) && addr in todo && todo <= byAddress.Keys
    requires Exact(out, PartialOwner(byHandle, todo, credOf))
    ensures var out' := if credOf(addr).None? then out
                        else out[credOf(addr).value := (if credOf(addr).value in out then out[credOf(addr).value] else []) + byAddress[addr]];
            Exact(out', PartialOwner(byHandle, todo - {addr}, credOf))
  {
    var before, after := PartialOwner(byHandle, todo, credOf), PartialOwner(byHandle, todo - {addr}, credOf);
    forall h
      ensures h in byAddress[addr] <==> h in byHandle && byHandle[h] == addr
      ensures after(h) == if h in byAddress[addr] then credOf(addr) else before(h)
    {
      assert addr in byAddress && h in byAddress[addr] <==> AddressOwner(byHandle)(h) == Some(addr);
    }
    if credOf(addr).None? {
      SameOwner(out, before, after);
    } else {
      AppendExact(out, credOf(addr).value, byAddress[addr], before, after);
    }
  }

  lemma DistinctConcat(a: seq<string>, b: seq<string>)
    requires Distinct(a) && Distinct(b) && forall h <- a :: h !in b
    ensures Distinct(a + b)
  {
    var s := a + b;
    forall i, j | 0 <= i < j < |s|
      ensures s[i] != s[j]
    {
      if i < |a| <= j {
        assert a[i] in a && b[j - |a|] in b;
      }
    }
  }

  lemma AppendExact(m: map<Bytes, seq<string>>, k: Bytes, more: seq<string>, owner: string -> Option<Bytes>, owner': string -> Option<Bytes>)
    requires Exact(m, owner) && more != [] && Distinct(more)
    requires forall h :: h in more ==> owner(h) == None
    requires forall h :: owner'(h) == if h in more then Some(k) else owner(h)
    ensures Exact(m[k := (if k in m then m[k] else []) + more], owner')
  {
    var list := if k in m then m[k] else [];
    assert forall h :: h in list ==> owner(h) == Some(k);
    assert forall h <- list :: h !in more;
    DistinctConcat(list, more);
    forall k', h
      ensures k' in m[k := list + more] && h in m[k := list + more][k'] <==> owner'(h) == Some(k')
    {
      assert k' in m && h in m[k'] <==> owner(h) == Some(k');
      assert h in list + more <==> h in list || h in more;
    }
  }
}
