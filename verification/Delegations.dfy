/**
 * Delegation certificates: the forward map with run starts, the reverse index, the live stake
 * of a pool, and the block's adjustment of the total delegated stake.
 */
module Delegations {
  import opened Wrappers
  import opened Bytes
  import opened Sums

  datatype Delegation = Delegation(target: Bytes, since: nat)

  /** A certificate: a new target, or none for a deregistration. */
  datatype Change = Change(cred: Bytes, target: Option<Bytes>)

  datatype Book = Book(delegations: map<Bytes, Delegation>, delegators: map<Bytes, set<Bytes>>)

  function ApplyOne(b: Book, c: Change, slot: nat): Book {
    var prior := if c.cred in b.delegations then Some(b.delegations[c.cred]) else None;
    var removed := b.delegations - {c.cred};
    var left := if prior.Some? && prior.value.target in b.delegators
                then b.delegators[prior.value.target := b.delegators[prior.value.target] - {c.cred}]
                else b.delegators;
    match c.target
    case None => Book(removed, left)
    case Some(target) =>
      var since := if prior.Some? && prior.value.target == target then prior.value.since else slot;
      Book(removed[c.cred := Delegation(target, since)],
           left[target := (if target in left then left[target] else {}) + {c.cred}])
  }

  function ApplyAll(b: Book, changes: seq<Change>, slot: nat): Book {
    if changes == [] then b else ApplyOne(ApplyAll(b, changes[..|changes| - 1], slot), changes[|changes| - 1], slot)
  }

  method ApplyDelegationChanges(b: Book, changes: seq<Change>, slot: nat) returns (r: Book)
    ensures r == ApplyAll(b, changes, slot)
  {
    if changes == [] {
      return b;
    }
    var delegations, delegators := b.delegations, b.delegators;
    for i := 0 to |changes|
      invariant Book(delegations, delegators) == ApplyAll(b, changes[..i], slot)
    {
      assert changes[..i + 1][..i] == changes[..i];
      var Change(cred, target) := changes[i];
      var prior := if cred in delegations then Some(delegations[cred]) else None;
      delegations := delegations - {cred};
      if prior.Some? && prior.value.target in delegators {
        delegators := delegators[prior.value.target := delegators[prior.value.target] - {cred}];
      }
      if target.Some? {
        var since := if prior.Some? && prior.value.target == target.value then prior.value.since else slot;
        delegations := delegations[cred := Delegation(target.value, since)];
        var set' := if target.value in delegators then delegators[target.value] else {};
        delegators := delegators[target.value := set' + {cred}];
      }
    }
    assert changes[..|changes|] == changes;
    r := Book(delegations, delegators);
  }

  // ---- The two maps are inverse ----

  ghost predicate Inverse(b: Book) {
    forall c, t :: (c in b.delegations && b.delegations[c].target == t) <==> (t in b.delegators && c in b.delegators[t])
  }

  /** The maps stay inverse under any list of certificates, repeated credentials included. */
  lemma {:induction false} ChangesKeepInverse(b: Book, changes: seq<Change>, slot: nat)
    requires Inverse(b)
    ensures Inverse(ApplyAll(b, changes, slot))
  {
    hide Inverse, ApplyOne;
    if changes != [] {
      ChangesKeepInverse(b, changes[..|changes| - 1], slot);
      OneKeepsInverse(ApplyAll(b, changes[..|changes| - 1], slot), changes[|changes| - 1], slot);
    }
  }

  lemma OneKeepsInverse(b: Book, c: Change, slot: nat)
    requires Inverse(b)
    ensures Inverse(ApplyOne(b, c, slot))
  {
  }

  function TargetOf(b: Book, c: Bytes): Option<Bytes> {
    if c in b.delegations then Some(b.delegations[c].target) else None
  }

  /** The target a credential's last certificate names, or the one before if it has none. */
  function LastTarget(changes: seq<Change>, c: Bytes, before: Option<Bytes>): Option<Bytes> {
    if changes == [] then before
    else if changes[|changes| - 1].cred == c then changes[|changes| - 1].target
    else LastTarget(changes[..|changes| - 1], c, before)
  }

  /** Of several certificates of one credential the last one counts. */
  lemma {:induction false} LastCertificateWins(b: Book, changes: seq<Change>, slot: nat, c: Bytes)
    ensures TargetOf(ApplyAll(b, changes, slot), c) == LastTarget(changes, c, TargetOf(b, c))
  {
    if changes != [] {
      LastCertificateWins(b, changes[..|changes| - 1], slot, c);
    }
  }

  /** Who ever had a delegator stays listed, if need be with none. */
  lemma {:induction false} TargetsStay(b: Book, changes: seq<Change>, slot: nat, t: Bytes)
    ensures t in ApplyAll(b, changes, slot).delegators <==> t in b.delegators || exists c <- changes :: c.target == Some(t)
  {
    if changes != [] {
      var n := |changes| - 1;
      TargetsStay(b, changes[..n], slot, t);
      assert forall c :: c in changes <==> c in changes[..n] || c == changes[n];
    }
  }

  // ---- Live stake ----

  function Live(stakes: Amounts, rewards: Amounts): Bytes -> int {
    (c: Bytes) => Get(stakes, c) + Get(rewards, c)
  }

  ghost function SumDelegated(b: Book, stakes: Amounts, rewards: Amounts): int {
    Sum(b.delegations.Keys, Live(stakes, rewards))
  }

  /** A pool's live stake; absent when the pool never had a delegator. */
  method PoolLiveStake(b: Book, stakes: Amounts, rewards: Amounts, pool: Bytes) returns (r: Option<int>)
    ensures r.Some? <==> pool in b.delegators
    ensures r.Some? ==> r.value == Sum(b.delegators[pool], Live(stakes, rewards))
  {
    if pool !in b.delegators {
      return None;
    }
    var todo := b.delegators[pool];
    var utxoTotal, rewardTotal := 0, 0;
    while todo != {}
      invariant todo <= b.delegators[pool]
      invariant utxoTotal + rewardTotal + Sum(todo, Live(stakes, rewards)) == Sum(b.delegators[pool], Live(stakes, rewards))
      decreases |todo|
    {
      var c :| c in todo;
      SumRemove(todo, c, Live(stakes, rewards));
      if c in stakes {
        utxoTotal := utxoTotal + stakes[c];
      }
      if c in rewards {
        rewardTotal := rewardTotal + rewards[c];
      }
      todo := todo - {c};
    }
    r := Some(utxoTotal + rewardTotal);
  }

  ghost function PoolTotal(b: Book, f: Bytes -> int): Bytes -> int {
    (t: Bytes) => if t in b.delegators then Sum(b.delegators[t], f) else 0
  }

  ghost function BackersOf(b: Book, targets: set<Bytes>): set<Bytes> {
    set c | c in b.delegations && b.delegations[c].target in targets
  }

  /** Delegator sets partition the delegated credentials: pool stakes add up to the delegated stake. */
  lemma PoolStakesAddUp(b: Book, stakes: Amounts, rewards: Amounts)
    requires Inverse(b)
    ensures Sum(b.delegators.Keys, PoolTotal(b, Live(stakes, rewards))) == SumDelegated(b, stakes, rewards)
  {
    hide Sum, Live, Inverse, BackersOf;
    PoolStakesOver(b, b.delegators.Keys, Live(stakes, rewards));
    AllBackers(b);
  }

  lemma {:induction false} PoolStakesOver(b: Book, targets: set<Bytes>, f: Bytes -> int)
    requires Inverse(b) && targets <= b.delegators.Keys
    ensures Sum(targets, PoolTotal(b, f)) == Sum(BackersOf(b, targets), f)
    decreases |targets|
  {
    hide Sum, Inverse, BackersOf;
    if targets == {} {
      NoBackers(b, targets);
      SumZero(targets, PoolTotal(b, f));
      SumZero(BackersOf(b, targets), f);
    } else {
      var t :| t in targets;
      PoolStakesOver(b, targets - {t}, f);
      SumRemove(targets, t, PoolTotal(b, f));
      BackersSplit(b, targets, t);
      SumUnion(BackersOf(b, targets - {t}), b.delegators[t], f);
    }
  }

  lemma AllBackers(b: Book)
    requires Inverse(b)
    ensures BackersOf(b, b.delegators.Keys) == b.delegations.Keys
  {
    forall c | c in b.delegations
      ensures b.delegations[c].target in b.delegators
    {
    }
  }

  lemma NoBackers(b: Book, targets: set<Bytes>)
    requires targets == {}
    ensures BackersOf(b, targets) == {}
  {
  }

  lemma BackersSplit(b: Book, targets: set<Bytes>, t: Bytes)
    requires Inverse(b) && t in targets && t in b.delegators
    ensures BackersOf(b, targets) == BackersOf(b, targets - {t}) + b.delegators[t]
    ensures BackersOf(b, targets - {t}) !! b.delegators[t]
  {
  }

  // ---- The per-block adjustment of the delegated total ----

  function DeltaTerm(prev: map<Bytes, Delegation>, c: Change, f: Bytes -> int): int {
    if (c.cred in prev) == c.target.Some? then 0
    else if c.target.Some? then f(c.cred)
    else -f(c.cred)
  }

  function DeltaOf(prev: map<Bytes, Delegation>, changes: seq<Change>, f: Bytes -> int): int {
    if changes == [] then 0
    else DeltaOf(prev, changes[..|changes| - 1], f) + DeltaTerm(prev, changes[|changes| - 1], f)
  }

  method DelegationStakeDelta(prev: map<Bytes, Delegation>, changes: seq<Change>, stakes: Amounts, rewards: Amounts)
    returns (delta: int)
    ensures delta == DeltaOf(prev, changes, Live(stakes, rewards))
  {
    delta := 0;
    for i := 0 to |changes|
      invariant delta == DeltaOf(prev, changes[..i], Live(stakes, rewards))
    {
      assert changes[..i + 1][..i] == changes[..i];
      var Change(cred, target) := changes[i];
      var was, now := cred in prev, target.Some?;
      if was == now {
        continue;
      }
      var val := Get(stakes, cred) + Get(rewards, cred);
      if now {
        delta := delta + val;
      } else {
        delta := delta - val;
      }
    }
    assert changes[..|changes|] == changes;
  }

  /** How many of a credential's certificates differ from its state before the block. */
  function Flips(prev: map<Bytes, Delegation>, changes: seq<Change>, c: Bytes): nat {
    if changes == [] then 0
    else
      var last := changes[|changes| - 1];
      Flips(prev, changes[..|changes| - 1], c) + (if last.cred == c && (c in prev) != last.target.Some? then 1 else 0)
  }

  /** One flip for a credential that enters or leaves the delegated set, none for any other. */
  ghost predicate FlipsOnce(b: Book, changes: seq<Change>, slot: nat) {
    forall c :: Flips(b.delegations, changes, c) ==
                if (c in b.delegations) != (c in ApplyAll(b, changes, slot).delegations) then 1 else 0
  }

  function Sign(prev: map<Bytes, Delegation>, c: Bytes): int {
    if c in prev then -1 else 1
  }

  function Creds(changes: seq<Change>): set<Bytes> {
    set c <- changes :: c.cred
  }

  function Weighted(prev: map<Bytes, Delegation>, changes: seq<Change>, f: Bytes -> int): Bytes -> int {
    (c: Bytes) => Sign(prev, c) * Flips(prev, changes, c) * f(c)
  }

  /** The computed adjustment, credential by credential. */
  lemma {:induction false} DeltaByCredential(prev: map<Bytes, Delegation>, changes: seq<Change>, f: Bytes -> int, s: set<Bytes>)
    requires Creds(changes) <= s
    ensures DeltaOf(prev, changes, f) == Sum(s, Weighted(prev, changes, f))
  {
    if changes == [] {
      SumZero(s, Weighted(prev, changes, f));
    } else {
      var n := |changes| - 1;
      var init, last := changes[..n], changes[n];
      assert forall c <- init :: c in changes;
      DeltaByCredential(prev, init, f, s);
      assert last.cred in Creds(changes);
      WeightStep(prev, changes, f, last.cred);
      SumChange(s, last.cred, Weighted(prev, init, f), Weighted(prev, changes, f));
    }
  }

  lemma WeightStep(prev: map<Bytes, Delegation>, changes: seq<Change>, f: Bytes -> int, c: Bytes)
    requires changes != [] && changes[|changes| - 1].cred == c
    ensures Weighted(prev, changes, f)(c) == Weighted(prev, changes[..|changes| - 1], f)(c) + DeltaTerm(prev, changes[|changes| - 1], f)
  {
    var k := Flips(prev, changes[..|changes| - 1], c);
    if (c in prev) != changes[|changes| - 1].target.Some? {
      assert Sign(prev, c) * (k + 1) * f(c) == Sign(prev, c) * k * f(c) + Sign(prev, c) * f(c);
    }
  }

  function Moved(before: map<Bytes, Delegation>, after: map<Bytes, Delegation>, f: Bytes -> int): Bytes -> int {
    (c: Bytes) => if (c in before) == (c in after) then 0 else Sign(before, c) * f(c)
  }

  /** The true change of the delegated sum, credential by credential. */
  lemma ChangeByCredential(before: map<Bytes, Delegation>, after: map<Bytes, Delegation>, f: Bytes -> int, s: set<Bytes>)
    requires forall c :: (c in before) != (c in after) ==> c in s
    ensures Sum(after.Keys, f) - Sum(before.Keys, f) == Sum(s, Moved(before, after, f))
  {
    var both, left, entered := before.Keys * after.Keys, before.Keys - after.Keys, after.Keys - before.Keys;
    SumUnion(both, entered, f);
    SumUnion(both, left, f);
    assert both + entered == after.Keys && both + left == before.Keys;
    MovedSum(before, after, f, s, left, entered);
  }

  lemma MovedSum(before: map<Bytes, Delegation>, after: map<Bytes, Delegation>, f: Bytes -> int, s: set<Bytes>,
                 left: set<Bytes>, entered: set<Bytes>)
    requires left == before.Keys - after.Keys && entered == after.Keys - before.Keys
    requires left <= s && entered <= s
    ensures Sum(s, Moved(before, after, f)) == Sum(entered, f) - Sum(left, f)
  {
    var g := Moved(before, after, f);
    var rest := s - left - entered;
    SumUnion(left, entered, g);
    SumUnion(left + entered, rest, g);
    assert left + entered + rest == s;
    SumZero(rest, g);
    SumSame(entered, g, f);
    SumNegated(left, g, f);
  }

  lemma {:induction false} SumNegated(s: set<Bytes>, g: Bytes -> int, f: Bytes -> int)
    requires forall c <- s :: g(c) == -f(c)
    ensures Sum(s, g) == -Sum(s, f)
  {
    if s != {} {
      var x :| x in s;
      SumRemove(s, x, f);
      SumRemove(s, x, g);
      SumNegated(s - {x}, g, f);
    }
  }

  lemma {:induction false} OnlyNamedMove(b: Book, changes: seq<Change>, slot: nat, c: Bytes)
    requires c !in Creds(changes)
    ensures (c in b.delegations) == (c in ApplyAll(b, changes, slot).delegations)
    ensures Flips(b.delegations, changes, c) == 0
  {
    if changes != [] {
      var n := |changes| - 1;
      assert changes[n].cred in Creds(changes);
      assert forall x <- changes[..n] :: x in changes;
      OnlyNamedMove(b, changes[..n], slot, c);
    }
  }

  /** Computed adjustment and true change, over the credentials the block names. */
  lemma BothSides(b: Book, changes: seq<Change>, slot: nat, stakes: Amounts, rewards: Amounts)
    ensures DeltaOf(b.delegations, changes, Live(stakes, rewards)) ==
            Sum(Creds(changes), Weighted(b.delegations, changes, Live(stakes, rewards)))
    ensures SumDelegated(ApplyAll(b, changes, slot), stakes, rewards) - SumDelegated(b, stakes, rewards) ==
            Sum(Creds(changes), Moved(b.delegations, ApplyAll(b, changes, slot).delegations, Live(stakes, rewards)))
  {
    DeltaByCredential(b.delegations, changes, Live(stakes, rewards), Creds(changes));
    MovedAreNamed(b, changes, slot);
    ChangeByCredential(b.delegations, ApplyAll(b, changes, slot).delegations, Live(stakes, rewards), Creds(changes));
  }

  /** How much oftener a credential is counted than it crosses. */
  function Excess(b: Book, changes: seq<Change>, slot: nat, c: Bytes): int {
    Flips(b.delegations, changes, c) - (if (c in b.delegations) != (c in ApplyAll(b, changes, slot).delegations) then 1 else 0)
  }

  function Miscounted(b: Book, changes: seq<Change>, slot: nat, f: Bytes -> int): Bytes -> int {
    (c: Bytes) => Sign(b.delegations, c) * Excess(b, changes, slot, c) * f(c)
  }

  /** The computed adjustment is the true change and what is miscounted. */
  lemma DeltaOff(b: Book, changes: seq<Change>, slot: nat, stakes: Amounts, rewards: Amounts)
    ensures DeltaOf(b.delegations, changes, Live(stakes, rewards)) ==
            SumDelegated(ApplyAll(b, changes, slot), stakes, rewards) - SumDelegated(b, stakes, rewards) +
            Sum(Creds(changes), Miscounted(b, changes, slot, Live(stakes, rewards)))
  {
    hide Sum, DeltaOf, ApplyAll, Flips, Creds, Live;
    var f, after := Live(stakes, rewards), ApplyAll(b, changes, slot).delegations;
    var weighted, moved, missed := Weighted(b.delegations, changes, f), Moved(b.delegations, after, f), Miscounted(b, changes, slot, f);
    BothSides(b, changes, slot, stakes, rewards);
    forall c
      ensures weighted(c) == moved(c) + missed(c)
    {
      MissedAt(Sign(b.delegations, c), Flips(b.delegations, changes, c), if (c in b.delegations) != (c in after) then 1 else 0, f(c));
    }
    SumPlus(Creds(changes), weighted, moved, missed);
  }

  lemma MissedAt(sign: int, flips: int, crossed: int, x: int)
    ensures sign * flips * x == sign * crossed * x + sign * (flips - crossed) * x
  {
  }

  lemma NothingMissed(b: Book, changes: seq<Change>, slot: nat, f: Bytes -> int)
    requires FlipsOnce(b, changes, slot)
    ensures Sum(Creds(changes), Miscounted(b, changes, slot, f)) == 0
  {
    forall c
      ensures Excess(b, changes, slot, c) == 0
    {
      assert Flips(b.delegations, changes, c) == if (c in b.delegations) != (c in ApplyAll(b, changes, slot).delegations) then 1 else 0;
    }
    SumZero(Creds(changes), Miscounted(b, changes, slot, f));
  }

  ghost predicate DeltaRight(b: Book, changes: seq<Change>, slot: nat, stakes: Amounts, rewards: Amounts) {
    DeltaOf(b.delegations, changes, Live(stakes, rewards)) ==
    SumDelegated(ApplyAll(b, changes, slot), stakes, rewards) - SumDelegated(b, stakes, rewards)
  }

  /**
   * The adjustment is right for every valuation exactly when no credential is counted twice:
   * a credential that ends as it began must not have flipped, any other must have flipped once.
   */
  lemma DeltaExact(b: Book, changes: seq<Change>, slot: nat)
    ensures (forall stakes, rewards :: DeltaRight(b, changes, slot, stakes, rewards)) <==> FlipsOnce(b, changes, slot)
  {
    if FlipsOnce(b, changes, slot) {
      forall stakes, rewards
        ensures DeltaRight(b, changes, slot, stakes, rewards)
      {
        DeltaWhenOnce(b, changes, slot, stakes, rewards);
      }
    } else {
      var c :| Flips(b.delegations, changes, c) !=
               if (c in b.delegations) != (c in ApplyAll(b, changes, slot).delegations) then 1 else 0;
      DeltaProbe(b, changes, slot, c);
      assert !DeltaRight(b, changes, slot, map[c := 1], map[]);
    }
  }

  lemma DeltaWhenOnce(b: Book, changes: seq<Change>, slot: nat, stakes: Amounts, rewards: Amounts)
    requires FlipsOnce(b, changes, slot)
    ensures DeltaRight(b, changes, slot, stakes, rewards)
  {
    hide Sum, DeltaOf, ApplyAll, Flips, Creds, Live;
    var f, after := Live(stakes, rewards), ApplyAll(b, changes, slot).delegations;
    BothSides(b, changes, slot, stakes, rewards);
    forall c <- Creds(changes)
      ensures Weighted(b.delegations, changes, f)(c) == Moved(b.delegations, after, f)(c)
    {
      assert Flips(b.delegations, changes, c) == if (c in b.delegations) != (c in after) then 1 else 0;
    }
    SumSame(Creds(changes), Weighted(b.delegations, changes, f), Moved(b.delegations, after, f));
  }

  /** One coin on a miscounted credential shows the error. */
  lemma DeltaProbe(b: Book, changes: seq<Change>, slot: nat, c: Bytes)
    requires Flips(b.delegations, changes, c) !=
             if (c in b.delegations) != (c in ApplyAll(b, changes, slot).delegations) then 1 else 0
    ensures !DeltaRight(b, changes, slot, map[c := 1], map[])
  {
    hide Sum, DeltaOf, Flips, ApplyAll;
    var stakes: Amounts, rewards: Amounts := map[c := 1], map[];
    var f, after := Live(stakes, rewards), ApplyAll(b, changes, slot).delegations;
    if c !in Creds(changes) {
      OnlyNamedMove(b, changes, slot, c);
      assert false;
    }
    BothSides(b, changes, slot, stakes, rewards);
    Probe(Creds(changes), c, Weighted(b.delegations, changes, f));
    Probe(Creds(changes), c, Moved(b.delegations, after, f));
    assert f(c) == 1;
  }

  lemma MovedAreNamed(b: Book, changes: seq<Change>, slot: nat)
    ensures forall c :: (c in b.delegations) != (c in ApplyAll(b, changes, slot).delegations) ==> c in Creds(changes)
  {
    forall c | c !in Creds(changes)
      ensures (c in b.delegations) == (c in ApplyAll(b, changes, slot).delegations)
    {
      OnlyNamedMove(b, changes, slot, c);
    }
  }

  lemma Probe(s: set<Bytes>, c: Bytes, g: Bytes -> int)
    requires c in s && forall x <- s :: x != c ==> g(x) == 0
    ensures Sum(s, g) == g(c)
  {
    SumRemove(s, c, g);
    SumZero(s - {c}, g);
  }

  predicate DistinctCreds(changes: seq<Change>) {
    forall i, j | 0 <= i < j < |changes| :: changes[i].cred != changes[j].cred
  }

  /** Blocks that name each credential at most once are adjusted exactly. */
  lemma {:induction false} DistinctFlipOnce(b: Book, changes: seq<Change>, slot: nat)
    requires DistinctCreds(changes)
    ensures FlipsOnce(b, changes, slot)
  {
    if changes != [] {
      var n := |changes| - 1;
      DistinctFlipOnce(b, changes[..n], slot);
      var last := changes[n].cred;
      assert forall x <- changes[..n] :: x.cred != last;
      assert last !in Creds(changes[..n]);
      OnlyNamedMove(b, changes[..n], slot, last);
      forall c
        ensures Flips(b.delegations, changes, c) ==
                if (c in b.delegations) != (c in ApplyAll(b, changes, slot).delegations) then 1 else 0
      {
        assert Flips(b.delegations, changes[..n], c) ==
               if (c in b.delegations) != (c in ApplyAll(b, changes[..n], slot).delegations) then 1 else 0;
      }
    }
  }

  /** Deregistering and delegating again in one block subtracts a stake that never left. */
  lemma ReRegistrationMiscounts()
    ensures exists b, changes, slot :: Inverse(b) && !FlipsOnce(b, changes, slot)
  {
    var c: Bytes, t: Bytes := [1], [2];
    var b := Book(map[c := Delegation(t, 7)], map[t := {c}]);
    var changes := [Change(c, None), Change(c, Some(t))];
    var first := changes[..1];
    assert first[..0] == [] && first == [Change(c, None)];
    assert Flips(b.delegations, first, c) == 1;
    assert Flips(b.delegations, changes, c) == 1;
    assert ApplyAll(b, first, 9) == ApplyOne(b, Change(c, None), 9);
    assert c in ApplyAll(b, changes, 9).delegations;
    assert Inverse(b) && !FlipsOnce(b, changes, 9);
  }
}
