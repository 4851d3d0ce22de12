/** The quantities on a page's tiles against the unspent outputs. */
module Owned {
  import opened Wrappers
  import opened Bytes
  import opened Sums
  import opened HeldLeaf
  import opened Ledger
  import opened Unspent
  import T = Tiles

  /** The output lies at the subject's address, or at one of its addresses. */
  predicate LiesAt(s: T.Subject, o: Output) {
    match s
    case Address(key) => o.address == key.addr
    case Stake(cred) => StakeCredential(o.address) == Some(cred)
  }

  /** What an output holds of an asset for the subject. */
  function HeldFor(s: T.Subject, policy: Bytes, name: Bytes): Output -> int {
    (o: Output) => if LiesAt(s, o) then QtyIn(o.assets, policy, name) else 0
  }

  /** A page's address comes with its own credential. */
  predicate Named(s: T.Subject) {
    s.Address? ==> s.key.cred == StakeCredential(s.key.addr)
  }

  predicate PoliciesFit(utxo: Utxo) {
    forall r <- utxo :: PolicyLengths(utxo[r])
  }

  predicate PolicyLengths(o: Output) {
    forall g <- o.assets :: |g.policy| == 28
  }

  /** Every leaf of the asset the subject owns something in is among the keys. */
  ghost predicate Cover(keys: set<HeldKey>, utxo: Utxo, s: T.Subject, asset: Bytes) {
    && (forall k <- keys :: s.Owns(k) && k.asset == asset)
    && forall r <- utxo :: LiesAt(s, utxo[r]) && QtyOf(Tokens(utxo[r].assets), asset) > 0 ==> HeldKey(AddrKeyOf(utxo[r].address), asset) in keys
  }

  lemma OutputShare(keys: set<HeldKey>, utxo: Utxo, r: OutRef, s: T.Subject, policy: Bytes, name: Bytes)
    requires r in utxo && Named(s) && Cover(keys, utxo, s, policy + name) && |policy| == 28 && PolicyLengths(utxo[r])
    ensures Sum(keys, Totals(utxo)) - Sum(keys, Totals(utxo - {r})) == HeldFor(s, policy, name)(utxo[r])
  {
    hide Total, Sum, StakeCredential, Tokens, QtyOf, QtyIn;
    var o, rest, asset := utxo[r], utxo - {r}, policy + name;
    var k := HeldKey(AddrKeyOf(o.address), asset);
    TokensListed(o.assets, policy, name);
    forall x
      ensures Totals(utxo)(x) == Totals(rest)(x) + TokensAt(x)(o)
    {
      TotalRemove(utxo, r, TokensAt(x));
    }
    if k in keys {
      SumChange(keys, k, Totals(rest), Totals(utxo));
    } else {
      SumSame(keys, Totals(rest), Totals(utxo));
    }
  }

  lemma {:induction false} SharesAddUp(keys: set<HeldKey>, utxo: Utxo, s: T.Subject, policy: Bytes, name: Bytes)
    requires Named(s) && Cover(keys, utxo, s, policy + name) && |policy| == 28 && PoliciesFit(utxo)
    ensures Sum(keys, Totals(utxo)) == Total(utxo, HeldFor(s, policy, name))
    decreases utxo.Keys
  {
    hide Total, Sum, QtyOf, Tokens, StakeCredential, LiesAt;
    if utxo == map[] {
      NothingHeld(keys, utxo, HeldFor(s, policy, name));
    } else {
      var r :| r in utxo;
      var rest := utxo - {r};
      assert rest.Keys == utxo.Keys - {r};
      SharesAddUp(keys, rest, s, policy, name);
      OutputShare(keys, utxo, r, s, policy, name);
      TotalRemove(utxo, r, HeldFor(s, policy, name));
    }
  }

  lemma NothingHeld(keys: set<HeldKey>, utxo: Utxo, f: Output -> int)
    requires utxo == map[]
    ensures Sum(keys, Totals(utxo)) == 0 == Total(utxo, f)
  {
    hide Sum;
    forall k
      ensures Totals(utxo)(k) == 0
    {
      SumZero(utxo.Keys, Weigh(utxo, TokensAt(k)));
    }
    SumZero(keys, Totals(utxo));
    SumZero(utxo.Keys, Weigh(utxo, f));
  }

  lemma LeavesCover(m: Holdings, utxo: Utxo, s: T.Subject, asset: Bytes)
    requires HoldingsShow(m, utxo) && Named(s)
    ensures Cover(T.KeysOf(m, s, asset), utxo, s, asset)
  {
    hide Total, StakeCredential, Tokens, QtyOf;
    forall r | r in utxo && LiesAt(s, utxo[r]) && QtyOf(Tokens(utxo[r].assets), asset) > 0
      ensures HeldKey(AddrKeyOf(utxo[r].address), asset) in T.KeysOf(m, s, asset)
    {
      var k := HeldKey(AddrKeyOf(utxo[r].address), asset);
      TotalRemove(utxo, r, TokensAt(k));
      TotalNonNegative(utxo - {r}, TokensAt(k));
      assert Totals(utxo)(k) > 0;
    }
  }

  /** What a page shows as owned of a token is what the unspent outputs at its address, or at all addresses of its stake key, hold. */
  lemma OwnedIsUnspent(m: Holdings, utxo: Utxo, s: T.Subject, policy: Bytes, name: Bytes)
    requires HoldingsShow(m, utxo) && Named(s) && |policy| == 28 && PoliciesFit(utxo)
    ensures T.Owned(m, s, policy + name) == Total(utxo, HeldFor(s, policy, name))
  {
    hide Total, Sum, StakeCredential, Cover, HeldFor;
    var keys := T.KeysOf(m, s, policy + name);
    LeavesCover(m, utxo, s, policy + name);
    SharesAddUp(keys, utxo, s, policy, name);
    forall k | k in keys
      ensures T.Quantity(m)(k) == Totals(utxo)(k)
    {
      assert QtyAt(m, k) == Totals(utxo)(k);
    }
    SumSame(keys, T.Quantity(m), Totals(utxo));
  }
}
