/**
 * Address balances and token holdings: credited and debited output by output, and equal to the
 * sums over the unspent outputs they speed up.
 */
module Ledger {
  import opened Wrappers
  import opened Bytes
  import opened HeldLeaf

  // ---- Outputs ----

  datatype NamedQty = NamedQty(name: Bytes, qty: nat)

  datatype PolicyGroup = PolicyGroup(policy: Bytes, names: seq<NamedQty>)

  datatype Output = Output(lovelace: int, address: Bytes, assets: seq<PolicyGroup>)

  datatype OutRef = OutRef(txHash: Bytes, index: int)

  /** An output with its reference: produced, or spent and resolved. */
  datatype Io = Io(ref: OutRef, output: Output)

  type Utxo = map<OutRef, Output>

  /** The credential part of an address, if its type carries one. */
  function StakeCredential(addr: Bytes): Option<Bytes> {
    if |addr| == 0 then None
    else
      var kind := addr[0] / 16;
      if kind <= 3 && |addr| >= 57 then Some(addr[29..57])
      else if (kind == 14 || kind == 15) && |addr| >= 29 then Some(addr[1..29])
      else None
  }

  datatype AddrKey = AddrKey(cred: Option<Bytes>, addr: Bytes)

  datatype HeldKey = HeldKey(addr: AddrKey, asset: Bytes)

  type Holdings = map<HeldKey, Held>

  /** The fixed length of a policy id, with which every asset id begins. */
  const POLICY_LEN: nat := 28

  function AddrKeyOf(addr: Bytes): AddrKey {
    AddrKey(StakeCredential(addr), addr)
  }

  // ---- Tokens of an output ----

  datatype Token = Token(asset: Bytes, qty: nat)

  function NameTokens(policy: Bytes, names: seq<NamedQty>): (r: seq<Token>)
    ensures |r| == |names|
  {
    seq(|names|, i requires 0 <= i < |names| => Token(policy + names[i].name, names[i].qty))
  }

  function Tokens(assets: seq<PolicyGroup>): seq<Token> {
    if assets == [] then []
    else
      var last := assets[|assets| - 1];
      Tokens(assets[..|assets| - 1]) + NameTokens(last.policy, last.names)
  }

  function QtyOf(tokens: seq<Token>, asset: Bytes): nat {
    if tokens == [] then 0
    else
      var last := tokens[|tokens| - 1];
      QtyOf(tokens[..|tokens| - 1], asset) + (if last.asset == asset then last.qty else 0)
  }

  lemma {:induction false} QtyOfMember(tokens: seq<Token>, t: Token)
    requires t in tokens
    ensures QtyOf(tokens, t.asset) >= t.qty
  {
    var n := |tokens| - 1;
    if tokens[n] != t {
      assert t in tokens[..n];
      QtyOfMember(tokens[..n], t);
    }
  }

  // ---- One leaf ----

  function QtyAt(m: Holdings, k: HeldKey): nat {
    if k in m then m[k].Qty() else 0
  }

  /** Credit keeps a recorded mint slot; a leaf without one takes `slot`. */
  function Credit(m: Holdings, k: HeldKey, qty: nat, slot: nat): Holdings {
    var h := if k in m then m[k] else DEFAULT;
    var more := h.SetQty(h.Qty() + qty);
    m[k := if more.MintSlot() == 0 then more.SetMintSlot(slot) else more]
  }

  /** Debit saturates at zero and drops an emptied leaf. */
  function Debit(m: Holdings, k: HeldKey, qty: nat): Holdings {
    if k !in m then m
    else
      var h := m[k].SetQty(if m[k].Qty() >= qty then m[k].Qty() - qty else 0);
      if h.Qty() == 0 then m - {k} else m[k := h]
  }

  function BumpOne(m: Holdings, k: HeldKey, qty: nat, add: bool, slot: nat): Holdings {
    if add then Credit(m, k, qty, slot) else Debit(m, k, qty)
  }

  // ---- One output ----

  type Slots = map<Bytes, nat>

  function SlotFor(slots: Slots, asset: Bytes, blockSlot: nat): nat {
    if asset in slots then slots[asset] else blockSlot
  }

  function ApplyTokens(m: Holdings, addr: AddrKey, tokens: seq<Token>, add: bool, slots: Slots, blockSlot: nat): Holdings {
    if tokens == [] then m
    else
      var t := tokens[|tokens| - 1];
      BumpOne(ApplyTokens(m, addr, tokens[..|tokens| - 1], add, slots, blockSlot), HeldKey(addr, t.asset), t.qty, add,
              SlotFor(slots, t.asset, blockSlot))
  }

  lemma {:induction false} ApplyTokensConcat(m: Holdings, addr: AddrKey, a: seq<Token>, b: seq<Token>, add: bool, slots: Slots, blockSlot: nat)
    ensures ApplyTokens(m, addr, a + b, add, slots, blockSlot) ==
            ApplyTokens(ApplyTokens(m, addr, a, add, slots, blockSlot), addr, b, add, slots, blockSlot)
  {
    if b == [] {
      assert a + b == a;
    } else {
      var n := |b| - 1;
      assert (a + b)[..|a + b| - 1] == a + b[..n];
      ApplyTokensConcat(m, addr, a, b[..n], add, slots, blockSlot);
    }
  }

  method ApplyUtxoAssets(address: Bytes, assets: seq<PolicyGroup>, add: bool, m: Holdings, slots: Slots, blockSlot: nat)
    returns (r: Holdings)
    ensures r == ApplyTokens(m, AddrKeyOf(address), Tokens(assets), add, slots, blockSlot)
  {
    hide BumpOne, StakeCredential, SlotFor;
    r := m;
    if assets == [] {
      return;
    }
    var addr := AddrKeyOf(address);
    for i := 0 to |assets|
      invariant r == ApplyTokens(m, addr, Tokens(assets[..i]), add, slots, blockSlot)
    {
      var PolicyGroup(policy, names) := assets[i];
      ghost var before, ts := r, NameTokens(policy, names);
      for j := 0 to |names|
        invariant r == ApplyTokens(before, addr, ts[..j], add, slots, blockSlot)
      {
        assert ts[..j + 1][..j] == ts[..j];
        var asset := policy + names[j].name;
        r := BumpOne(r, HeldKey(addr, asset), names[j].qty, add, SlotFor(slots, asset, blockSlot));
      }
      assert ts[..|names|] == ts;
      assert assets[..i + 1][..i] == assets[..i];
      ApplyTokensConcat(m, addr, Tokens(assets[..i]), ts, add, slots, blockSlot);
    }
    assert assets[..|assets|] == assets;
  }

  // ---- One block ----

  datatype Books = Books(balances: Amounts, holdings: Holdings)

  function CreditOutput(b: Books, o: Output, slots: Slots, blockSlot: nat): Books {
    Books(b.balances[o.address := Get(b.balances, o.address) + o.lovelace],
          ApplyTokens(b.holdings, AddrKeyOf(o.address), Tokens(o.assets), true, slots, blockSlot))
  }

  function DebitBalance(balances: Amounts, address: Bytes, lovelace: int): Amounts {
    if address !in balances then balances
    else if balances[address] - lovelace <= 0 then balances - {address}
    else balances[address := balances[address] - lovelace]
  }

  function DebitOutput(b: Books, o: Output, slots: Slots, blockSlot: nat): Books {
    Books(DebitBalance(b.balances, o.address, o.lovelace),
          ApplyTokens(b.holdings, AddrKeyOf(o.address), Tokens(o.assets), false, slots, blockSlot))
  }

  function CreditAll(b: Books, produced: seq<Io>, slots: Slots, blockSlot: nat): Books {
    if produced == [] then b
    else CreditOutput(CreditAll(b, produced[..|produced| - 1], slots, blockSlot), produced[|produced| - 1].output, slots, blockSlot)
  }

  function DebitAll(b: Books, consumed: seq<Io>, slots: Slots, blockSlot: nat): Books {
    if consumed == [] then b
    else DebitOutput(DebitAll(b, consumed[..|consumed| - 1], slots, blockSlot), consumed[|consumed| - 1].output, slots, blockSlot)
  }

  /** First-mint slots of the assets whose prior leaves this block spends from; the first one found counts. */
  function SeedTokens(slots: Slots, prev: Holdings, addr: AddrKey, tokens: seq<Token>): Slots {
    if tokens == [] then slots
    else
      var s := SeedTokens(slots, prev, addr, tokens[..|tokens| - 1]);
      var asset := tokens[|tokens| - 1].asset;
      var k := HeldKey(addr, asset);
      if k in prev && asset !in s then s[asset := prev[k].MintSlot()] else s
  }

  function SeedSlots(prev: Holdings, consumed: seq<Io>): Slots {
    if consumed == [] then map[]
    else
      var o := consumed[|consumed| - 1].output;
      SeedTokens(SeedSlots(prev, consumed[..|consumed| - 1]), prev, AddrKeyOf(o.address), Tokens(o.assets))
  }

  /** Credits come before debits, so an output made and spent inside the block is there when its debit lands. */
  function ApplyIo(b: Books, produced: seq<Io>, consumed: seq<Io>, slot: nat): Books {
    var slots := SeedSlots(b.holdings, consumed);
    DebitAll(CreditAll(b, produced, slots, slot), consumed, slots, slot)
  }

  method SeedMintSlots(prev: Holdings, consumed: seq<Io>) returns (slots: Slots)
    ensures slots == SeedSlots(prev, consumed)
  {
    slots := map[];
    for i := 0 to |consumed|
      invariant slots == SeedSlots(prev, consumed[..i])
    {
      assert consumed[..i + 1][..i] == consumed[..i];
      var o := consumed[i].output;
      var addr, tokens := AddrKeyOf(o.address), Tokens(o.assets);
      ghost var before := slots;
      for j := 0 to |tokens|
        invariant slots == SeedTokens(before, prev, addr, tokens[..j])
      {
        assert tokens[..j + 1][..j] == tokens[..j];
        var k := HeldKey(addr, tokens[j].asset);
        if k in prev && tokens[j].asset !in slots {
          slots := slots[tokens[j].asset := prev[k].MintSlot()];
        }
      }
      assert tokens[..|tokens|] == tokens;
    }
    assert consumed[..|consumed|] == consumed;
  }

  method ApplyOutputs(b: Books, produced: seq<Io>, consumed: seq<Io>, slot: nat) returns (r: Books)
    ensures r == ApplyIo(b, produced, consumed, slot)
  {
    hide ApplyTokens, Tokens, SeedSlots, AddrKeyOf;
    var balances, holdings := b.balances, b.holdings;
    var slots := SeedMintSlots(holdings, consumed);
    for i := 0 to |produced|
      invariant Books(balances, holdings) == CreditAll(b, produced[..i], slots, slot)
    {
      assert produced[..i + 1][..i] == produced[..i];
      var o := produced[i].output;
      balances := balances[o.address := Get(balances, o.address) + o.lovelace];
      holdings := ApplyUtxoAssets(o.address, o.assets, true, holdings, slots, slot);
    }
    assert produced[..|produced|] == produced;
    ghost var credited := Books(balances, holdings);
    for i := 0 to |consumed|
      invariant Books(balances, holdings) == DebitAll(credited, consumed[..i], slots, slot)
    {
      assert consumed[..i + 1][..i] == consumed[..i];
      var o := consumed[i].output;
      if o.address in balances {
        balances := balances[o.address := balances[o.address] - o.lovelace];
        if balances[o.address] <= 0 {
          balances := balances - {o.address};
        }
      }
      holdings := ApplyUtxoAssets(o.address, o.assets, false, holdings, slots, slot);
    }
    assert consumed[..|consumed|] == consumed;
    r := Books(balances, holdings);
  }

  // ---- Addresses and asset ids as they are built ----

  /** A header of type 0 to 3, a payment part, the credential, and whatever follows. */
  ghost predicate IsBase(addr: Bytes, cred: Bytes) {
    exists header: Byte, payment: Bytes, more: Bytes ::
      header < 64 && |payment| == 28 && |cred| == 28 && addr == [header] + payment + cred + more
  }

  /** A header of type 14 or 15, the credential, and whatever follows. */
  ghost predicate IsReward(addr: Bytes, cred: Bytes) {
    exists header: Byte, more: Bytes :: header >= 224 && |cred| == 28 && addr == [header] + cred + more
  }

  lemma BaseParts(addr: Bytes)
    requires |addr| >= 57
    ensures addr == [addr[0]] + addr[1..29] + addr[29..57] + addr[57..]
  {
  }

  lemma RewardParts(addr: Bytes)
    requires |addr| >= 29
    ensures addr == [addr[0]] + addr[1..29] + addr[29..]
  {
  }

  /** An address yields exactly the credential it was built with. */
  lemma CredentialBack(addr: Bytes, cred: Bytes)
    ensures StakeCredential(addr) == Some(cred) <==> IsBase(addr, cred) || IsReward(addr, cred)
  {
    if StakeCredential(addr) == Some(cred) {
      if addr[0] < 64 {
        BaseParts(addr);
      } else {
        RewardParts(addr);
      }
    }
  }

  /** The quantity of one asset, group by group and name by name. */
  function NamedQtyIn(names: seq<NamedQty>, name: Bytes): nat {
    if names == [] then 0 else (if names[0].name == name then names[0].qty else 0) + NamedQtyIn(names[1..], name)
  }

  function QtyIn(assets: seq<PolicyGroup>, policy: Bytes, name: Bytes): nat {
    if assets == [] then 0
    else (if assets[0].policy == policy then NamedQtyIn(assets[0].names, name) else 0) + QtyIn(assets[1..], policy, name)
  }

  lemma {:induction false} QtyOfConcat(a: seq<Token>, b: seq<Token>, asset: Bytes)
    ensures QtyOf(a + b, asset) == QtyOf(a, asset) + QtyOf(b, asset)
  {
    if b == [] {
      assert a + b == a;
    } else {
      var n := |b| - 1;
      assert (a + b)[..|a + b| - 1] == a + b[..n];
      QtyOfConcat(a, b[..n], asset);
    }
  }

  lemma {:induction false} TokensCons(assets: seq<PolicyGroup>)
    requires assets != []
    ensures Tokens(assets) == NameTokens(assets[0].policy, assets[0].names) + Tokens(assets[1..])
  {
    hide NameTokens;
    var n := |assets| - 1;
    if n > 0 {
      assert assets[..n][0] == assets[0] && assets[..n][1..] == assets[1..][..n - 1];
      TokensCons(assets[..n]);
    }
  }

  lemma {:induction false} NamesQty(policy: Bytes, names: seq<NamedQty>, p: Bytes, name: Bytes)
    requires |policy| == |p|
    ensures QtyOf(NameTokens(policy, names), p + name) == if policy == p then NamedQtyIn(names, name) else 0
  {
    if names != [] {
      var first, rest := [Token(policy + names[0].name, names[0].qty)], NameTokens(policy, names[1..]);
      assert NameTokens(policy, names) == first + rest;
      QtyOfConcat(first, rest, p + name);
      NamesQty(policy, names[1..], p, name);
      assert first[..0] == [];
      SameAsset(policy, names[0].name, p, name);
    }
  }

  /** Policies of one length make asset ids unambiguous. */
  lemma SameAsset(p: Bytes, n: Bytes, q: Bytes, m: Bytes)
    requires |p| == |q|
    ensures p + n == q + m <==> p == q && n == m
  {
    if p + n == q + m {
      assert (p + n)[..|p|] == p && (q + m)[..|q|] == q && (p + n)[|p|..] == n && (q + m)[|q|..] == m;
    }
  }

  /** An output's tokens carry, under policy and then name, exactly the quantities it lists. */
  lemma {:induction false} TokensListed(assets: seq<PolicyGroup>, policy: Bytes, name: Bytes)
    requires |policy| == 28 && forall g <- assets :: |g.policy| == 28
    ensures QtyOf(Tokens(assets), policy + name) == QtyIn(assets, policy, name)
  {
    if assets != [] {
      TokensCons(assets);
      QtyOfConcat(NameTokens(assets[0].policy, assets[0].names), Tokens(assets[1..]), policy + name);
      NamesQty(assets[0].policy, assets[0].names, policy, name);
      TokensListed(assets[1..], policy, name);
    }
  }

  // ---- Debits of more than there is ----

  function LeftOf(before: int, taken: int): nat {
    if before > taken then before - taken else 0
  }

  /** A debit leaves what exceeds it, or nothing; nothing is not listed, and no other leaf changes. */
  lemma DebitLeaves(m: Holdings, k: HeldKey, qty: nat, x: HeldKey)
    ensures QtyAt(Debit(m, k, qty), x) == if x == k then LeftOf(QtyAt(m, k), qty) else QtyAt(m, x)
    ensures x in Debit(m, k, qty) <==> x in m && (x == k ==> QtyAt(m, k) > qty)
  {
    if k in m {
      QtyFields(m[k], LeftOf(QtyAt(m, k), qty));
    }
  }

  lemma BalanceLeaves(balances: Amounts, a: Bytes, taken: int, x: Bytes)
    ensures x in DebitBalance(balances, a, taken) <==> x in balances && (x == a ==> Get(balances, a) > taken)
    ensures x in balances ==>
              Get(DebitBalance(balances, a, taken), x) == if x == a then LeftOf(Get(balances, a), taken) else Get(balances, x)
  {
  }

  // ---- The first leaf found counts ----

  lemma {:induction false} SeedTokensKeep(slots: Slots, prev: Holdings, addr: AddrKey, tokens: seq<Token>, asset: Bytes)
    requires asset in slots
    ensures asset in SeedTokens(slots, prev, addr, tokens) && SeedTokens(slots, prev, addr, tokens)[asset] == slots[asset]
  {
    if tokens != [] {
      SeedTokensKeep(slots, prev, addr, tokens[..|tokens| - 1], asset);
    }
  }

  lemma {:induction false} SeedTokensFirst(slots: Slots, prev: Holdings, addr: AddrKey, tokens: seq<Token>, asset: Bytes)
    requires asset !in slots
    ensures asset in SeedTokens(slots, prev, addr, tokens) ==>
              HeldKey(addr, asset) in prev && SeedTokens(slots, prev, addr, tokens)[asset] == prev[HeldKey(addr, asset)].MintSlot()
  {
    if tokens != [] {
      SeedTokensFirst(slots, prev, addr, tokens[..|tokens| - 1], asset);
    }
  }

  lemma {:induction false} SeedSlotsKeep(prev: Holdings, a: seq<Io>, b: seq<Io>, asset: Bytes)
    requires asset in SeedSlots(prev, a)
    ensures asset in SeedSlots(prev, a + b) && SeedSlots(prev, a + b)[asset] == SeedSlots(prev, a)[asset]
  {
    hide SeedTokens, Tokens;
    if b == [] {
      assert a + b == a;
    } else {
      var n := |b| - 1;
      assert (a + b)[..|a + b| - 1] == a + b[..n];
      SeedSlotsKeep(prev, a, b[..n], asset);
      var o := b[n].output;
      SeedTokensKeep(SeedSlots(prev, a + b[..n]), prev, AddrKeyOf(o.address), Tokens(o.assets), asset);
    }
  }

  /** The first input that names an asset held at its address decides the asset's slot, whatever follows. */
  lemma FirstSeedCounts(prev: Holdings, before: seq<Io>, io: Io, after: seq<Io>, asset: Bytes)
    requires asset !in SeedSlots(prev, before) && asset in SeedSlots(prev, before + [io])
    ensures var k := HeldKey(AddrKeyOf(io.output.address), asset);
            k in prev && asset in SeedSlots(prev, before + [io] + after) && SeedSlots(prev, before + [io] + after)[asset] == prev[k].MintSlot()
  {
    hide SeedTokens, Tokens, AddrKeyOf;
    assert (before + [io])[..|before|] == before;
    SeedTokensFirst(SeedSlots(prev, before), prev, AddrKeyOf(io.output.address), Tokens(io.output.assets), asset);
    SeedSlotsKeep(prev, before + [io], after, asset);
  }
}
