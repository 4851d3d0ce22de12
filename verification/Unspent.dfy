/**
 * The books against the unspent outputs: balances, holdings, mint slots and stakes of every
 * reachable state are functions of the unspent set, so the order of a block's lists is irrelevant.
 */
module Unspent {
  import opened Wrappers
  import opened Bytes
  import opened Sums
  import opened HeldLeaf
  import opened Ledger

  // ---- Totals over the unspent outputs ----

  function Weigh(utxo: Utxo, f: Output -> int): OutRef -> int {
    (r: OutRef) => if r in utxo then f(utxo[r]) else 0
  }

  ghost function Total(utxo: Utxo, f: Output -> int): int {
    Sum(utxo.Keys, Weigh(utxo, f))
  }

  lemma TotalAdd(utxo: Utxo, ref: OutRef, o: Output, f: Output -> int)
    requires ref !in utxo
    ensures Total(utxo[ref := o], f) == Total(utxo, f) + f(o)
  {
    var more := utxo[ref := o];
    assert more.Keys == utxo.Keys + {ref};
    SumAdd(utxo.Keys, ref, Weigh(more, f));
    SumSame(utxo.Keys, Weigh(utxo, f), Weigh(more, f));
  }

  lemma TotalRemove(utxo: Utxo, ref: OutRef, f: Output -> int)
    requires ref in utxo
    ensures Total(utxo - {ref}, f) == Total(utxo, f) - f(utxo[ref])
  {
    var less := utxo - {ref};
    assert less[ref := utxo[ref]] == utxo;
    TotalAdd(less, ref, utxo[ref], f);
  }

  lemma {:induction false} TotalNonNegative(utxo: Utxo, f: Output -> int)
    requires forall r <- utxo :: f(utxo[r]) >= 0
    ensures Total(utxo, f) >= 0
    decreases |utxo|
  {
    if utxo != map[] {
      var r :| r in utxo;
      TotalRemove(utxo, r, f);
      TotalNonNegative(utxo - {r}, f);
    } else {
      SumZero(utxo.Keys, Weigh(utxo, f));
    }
  }

  function BalanceAt(a: Bytes): Output -> int {
    (o: Output) => if o.address == a then o.lovelace else 0
  }

  function StakeAt(c: Bytes): Output -> int {
    (o: Output) => if StakeCredential(o.address) == Some(c) then o.lovelace else 0
  }

  function TokensAt(k: HeldKey): Output -> int {
    (o: Output) => if AddrKeyOf(o.address) == k.addr then QtyOf(Tokens(o.assets), k.asset) else 0
  }

  predicate PositiveTokens(tokens: seq<Token>) {
    forall i | 0 <= i < |tokens| :: tokens[i].qty > 0
  }

  predicate Positive(o: Output) {
    o.lovelace > 0 && PositiveTokens(Tokens(o.assets))
  }

  predicate AllPositive(utxo: Utxo) {
    forall r <- utxo :: Positive(utxo[r])
  }

  /** No leaf total reaches the 98 bits a leaf can hold. */
  ghost predicate Fits(utxo: Utxo) {
    forall k :: Total(utxo, TokensAt(k)) < TWO98
  }

  // ---- What the books show ----

  ghost predicate BalancesShow(balances: Amounts, utxo: Utxo) {
    forall a :: (a in balances <==> Total(utxo, BalanceAt(a)) > 0) && Get(balances, a) == Total(utxo, BalanceAt(a))
  }

  /** Quantities by leaf: a view of the holdings in which credits and debits are additions. */
  ghost predicate Quantities(m: Holdings, q: HeldKey -> int) {
    forall k :: (k in m <==> q(k) > 0) && QtyAt(m, k) == q(k)
  }

  ghost function Totals(utxo: Utxo): HeldKey -> int {
    (k: HeldKey) => Total(utxo, TokensAt(k))
  }

  ghost predicate HoldingsShow(m: Holdings, utxo: Utxo) {
    Quantities(m, Totals(utxo))
  }

  ghost predicate Shows(b: Books, utxo: Utxo) {
    BalancesShow(b.balances, utxo) && HoldingsShow(b.holdings, utxo)
  }

  // ---- One output ----

  function Plus(q: HeldKey -> int, addr: AddrKey, tokens: seq<Token>, sign: int): HeldKey -> int {
    (k: HeldKey) => q(k) + (if k.addr == addr then sign * QtyOf(tokens, k.asset) else 0)
  }

  lemma {:induction false} CreditTokens(m: Holdings, addr: AddrKey, tokens: seq<Token>, slots: Slots, blockSlot: nat, q: HeldKey -> int)
    requires Quantities(m, q) && PositiveTokens(tokens)
    requires forall k :: Plus(q, addr, tokens, 1)(k) < TWO98
    ensures Quantities(ApplyTokens(m, addr, tokens, true, slots, blockSlot), Plus(q, addr, tokens, 1))
  {
    if tokens != [] {
      var n := |tokens| - 1;
      var t, before := tokens[n], ApplyTokens(m, addr, tokens[..n], true, slots, blockSlot);
      var q1 := Plus(q, addr, tokens[..n], 1);
      forall k
        ensures q1(k) <= Plus(q, addr, tokens, 1)(k)
      {
      }
      CreditTokens(m, addr, tokens[..n], slots, blockSlot, q);
      CreditOne(before, HeldKey(addr, t.asset), t.qty, SlotFor(slots, t.asset, blockSlot), q1, Plus(q, addr, tokens, 1));
    }
  }

  lemma CreditOne(m: Holdings, k: HeldKey, qty: nat, slot: nat, q: HeldKey -> int, q': HeldKey -> int)
    requires Quantities(m, q) && qty > 0 && q'(k) == q(k) + qty < TWO98
    requires forall x :: x != k ==> q'(x) == q(x)
    ensures Quantities(Credit(m, k, qty, slot), q')
  {
    var h := if k in m then m[k] else DEFAULT;
    assert h.Qty() == q(k) by { assert QtyAt(m, k) == q(k); }
    CreditLeaf(h, qty, slot);
    var r := Credit(m, k, qty, slot);
    forall x
      ensures (x in r <==> q'(x) > 0) && QtyAt(r, x) == q'(x)
    {
      assert (x in m <==> q(x) > 0) && QtyAt(m, x) == q(x);
    }
  }

  lemma SmallQty(qty: nat)
    requires qty < TWO98
    ensures qty % TWO98 == qty
  {
  }

  lemma CreditLeaf(h: Held, qty: nat, slot: nat)
    requires h.Qty() + qty < TWO98
    ensures var more := h.SetQty(h.Qty() + qty);
            && more.MintSlot() == h.MintSlot() && more.Qty() == h.Qty() + qty
            && more.SetMintSlot(slot).Qty() == h.Qty() + qty && more.SetMintSlot(slot).MintSlot() == slot % TWO30
  {
    hide *;
    Fields(h, h.Qty() + qty, 0);
    SmallQty(h.Qty() + qty);
    Fields(h.SetQty(h.Qty() + qty), 0, slot);
  }

  lemma {:induction false} DebitTokens(m: Holdings, addr: AddrKey, tokens: seq<Token>, slots: Slots, blockSlot: nat, q: HeldKey -> int)
    requires Quantities(m, q) && PositiveTokens(tokens)
    requires forall k :: Plus(q, addr, tokens, -1)(k) >= 0
    ensures Quantities(ApplyTokens(m, addr, tokens, false, slots, blockSlot), Plus(q, addr, tokens, -1))
  {
    if tokens != [] {
      var n := |tokens| - 1;
      var t, before := tokens[n], ApplyTokens(m, addr, tokens[..n], false, slots, blockSlot);
      var q1 := Plus(q, addr, tokens[..n], -1);
      forall k
        ensures q1(k) >= Plus(q, addr, tokens, -1)(k)
      {
      }
      DebitTokens(m, addr, tokens[..n], slots, blockSlot, q);
      DebitOne(before, HeldKey(addr, t.asset), t.qty, q1, Plus(q, addr, tokens, -1));
    }
  }

  lemma DebitOne(m: Holdings, k: HeldKey, qty: nat, q: HeldKey -> int, q': HeldKey -> int)
    requires Quantities(m, q) && qty > 0 && q'(k) == q(k) - qty >= 0
    requires forall x :: x != k ==> q'(x) == q(x)
    ensures Quantities(Debit(m, k, qty), q')
  {
    assert k in m && m[k].Qty() == q(k) by { assert QtyAt(m, k) == q(k); }
    DebitLeaf(m[k], qty);
    var r := Debit(m, k, qty);
    forall x
      ensures (x in r <==> q'(x) > 0) && QtyAt(r, x) == q'(x)
    {
      assert (x in m <==> q(x) > 0) && QtyAt(m, x) == q(x);
    }
  }

  lemma DebitLeaf(h: Held, qty: nat)
    requires h.Qty() >= qty
    ensures h.SetQty(h.Qty() - qty).Qty() == h.Qty() - qty && h.SetQty(h.Qty() - qty).MintSlot() == h.MintSlot()
  {
    hide *;
    Fields(h, h.Qty() - qty, 0);
    SmallQty(h.Qty() - qty);
  }

  // ---- Lists of outputs ----

  function AddAll(utxo: Utxo, ios: seq<Io>): Utxo {
    if ios == [] then utxo
    else AddAll(utxo, ios[..|ios| - 1])[ios[|ios| - 1].ref := ios[|ios| - 1].output]
  }

  function RemoveAll(utxo: Utxo, ios: seq<Io>): Utxo {
    utxo - RefsOf(ios)
  }

  function NextUtxo(utxo: Utxo, produced: seq<Io>, consumed: seq<Io>): Utxo {
    RemoveAll(AddAll(utxo, produced), consumed)
  }

  predicate DistinctRefs(ios: seq<Io>) {
    forall i, j | 0 <= i < j < |ios| :: ios[i].ref != ios[j].ref
  }

  predicate Fresh(utxo: Utxo, ios: seq<Io>) {
    forall i | 0 <= i < |ios| :: ios[i].ref !in utxo && Positive(ios[i].output)
  }

  predicate Spendable(utxo: Utxo, ios: seq<Io>) {
    forall i | 0 <= i < |ios| :: ios[i].ref in utxo && utxo[ios[i].ref] == ios[i].output
  }

  /** What the ledger guarantees of a block: new distinct outputs, and inputs resolved to what they spend. */
  ghost predicate ValidIo(utxo: Utxo, produced: seq<Io>, consumed: seq<Io>) {
    && DistinctRefs(produced) && Fresh(utxo, produced)
    && DistinctRefs(consumed) && Spendable(AddAll(utxo, produced), consumed)
    && Fits(AddAll(utxo, produced))
  }

  lemma {:induction false} AddAllHas(utxo: Utxo, ios: seq<Io>)
    requires DistinctRefs(ios) && Fresh(utxo, ios)
    ensures forall r, o :: r in AddAll(utxo, ios) && AddAll(utxo, ios)[r] == o <==> Io(r, o) in ios || (r in utxo && utxo[r] == o)
  {
    if ios != [] {
      var n := |ios| - 1;
      var init, all := AddAll(utxo, ios[..n]), AddAll(utxo, ios);
      AddAllHas(utxo, ios[..n]);
      forall r, o
        ensures r in all && all[r] == o <==> Io(r, o) in ios || (r in utxo && utxo[r] == o)
      {
        assert r in init && init[r] == o <==> Io(r, o) in ios[..n] || (r in utxo && utxo[r] == o);
        assert Io(r, o) in ios <==> Io(r, o) in ios[..n] || Io(r, o) == ios[n];
      }
    }
  }

  function RefsOf(ios: seq<Io>): set<OutRef> {
    set io <- ios :: io.ref
  }

  lemma {:induction false} AddAllKeys(utxo: Utxo, ios: seq<Io>)
    ensures AddAll(utxo, ios).Keys == utxo.Keys + RefsOf(ios)
  {
    if ios != [] {
      var n := |ios| - 1;
      AddAllKeys(utxo, ios[..n]);
      assert RefsOf(ios) == RefsOf(ios[..n]) + {ios[n].ref};
    }
  }

  lemma NotYetAdded(utxo: Utxo, ios: seq<Io>)
    requires ios != [] && DistinctRefs(ios) && Fresh(utxo, ios)
    ensures ios[|ios| - 1].ref !in AddAll(utxo, ios[..|ios| - 1])
  {
    AddAllKeys(utxo, ios[..|ios| - 1]);
  }

  lemma {:induction false} AllPositiveAdded(utxo: Utxo, ios: seq<Io>)
    requires AllPositive(utxo) && Fresh(utxo, ios)
    ensures AllPositive(AddAll(utxo, ios))
  {
    if ios != [] {
      AllPositiveAdded(utxo, ios[..|ios| - 1]);
    }
  }

  // ---- The books follow the unspent outputs ----

  lemma CreditShows(b: Books, utxo: Utxo, io: Io, slots: Slots, slot: nat)
    requires Shows(b, utxo) && AllPositive(utxo)
    requires io.ref !in utxo && Positive(io.output) && Fits(utxo[io.ref := io.output])
    ensures Shows(CreditOutput(b, io.output, slots, slot), utxo[io.ref := io.output])
  {
    hide ApplyTokens, Total, Quantities, StakeCredential, Tokens, QtyOf;
    var o, utxo' := io.output, utxo[io.ref := io.output];
    var addr, tokens := AddrKeyOf(o.address), Tokens(o.assets);
    forall k
      ensures Plus(Totals(utxo), addr, tokens, 1)(k) == Totals(utxo')(k)
    {
      TotalAdd(utxo, io.ref, o, TokensAt(k));
    }
    CreditTokens(b.holdings, addr, tokens, slots, slot, Totals(utxo));
    QuantitiesSame(ApplyTokens(b.holdings, addr, tokens, true, slots, slot), Plus(Totals(utxo), addr, tokens, 1), Totals(utxo'));
    CreditBalance(b.balances, utxo, io);
  }

  lemma QuantitiesSame(m: Holdings, q: HeldKey -> int, q': HeldKey -> int)
    requires Quantities(m, q) && forall k :: q(k) == q'(k)
    ensures Quantities(m, q')
  {
  }

  lemma CreditBalance(balances: Amounts, utxo: Utxo, io: Io)
    requires BalancesShow(balances, utxo) && AllPositive(utxo) && io.ref !in utxo && Positive(io.output)
    ensures BalancesShow(balances[io.output.address := Get(balances, io.output.address) + io.output.lovelace], utxo[io.ref := io.output])
  {
    hide Total;
    var o, utxo' := io.output, utxo[io.ref := io.output];
    var r := balances[o.address := Get(balances, o.address) + o.lovelace];
    forall a
      ensures (a in r <==> Total(utxo', BalanceAt(a)) > 0) && Get(r, a) == Total(utxo', BalanceAt(a))
    {
      TotalAdd(utxo, io.ref, o, BalanceAt(a));
      TotalNonNegative(utxo, BalanceAt(a));
      assert (a in balances <==> Total(utxo, BalanceAt(a)) > 0) && Get(balances, a) == Total(utxo, BalanceAt(a));
    }
  }

  lemma DebitShows(b: Books, utxo: Utxo, io: Io, slots: Slots, slot: nat)
    requires Shows(b, utxo) && AllPositive(utxo)
    requires io.ref in utxo && utxo[io.ref] == io.output
    ensures Shows(DebitOutput(b, io.output, slots, slot), utxo - {io.ref})
  {
    hide ApplyTokens, Total, Quantities, StakeCredential, Tokens, QtyOf;
    var o, utxo' := io.output, utxo - {io.ref};
    var addr, tokens := AddrKeyOf(o.address), Tokens(o.assets);
    forall k
      ensures Plus(Totals(utxo), addr, tokens, -1)(k) == Totals(utxo')(k) >= 0
    {
      TotalRemove(utxo, io.ref, TokensAt(k));
      TotalNonNegative(utxo', TokensAt(k));
    }
    DebitTokens(b.holdings, addr, tokens, slots, slot, Totals(utxo));
    QuantitiesSame(ApplyTokens(b.holdings, addr, tokens, false, slots, slot), Plus(Totals(utxo), addr, tokens, -1), Totals(utxo'));
    DebitBalanceShows(b.balances, utxo, io);
  }

  lemma DebitBalanceShows(balances: Amounts, utxo: Utxo, io: Io)
    requires BalancesShow(balances, utxo) && AllPositive(utxo) && io.ref in utxo && utxo[io.ref] == io.output
    ensures BalancesShow(DebitBalance(balances, io.output.address, io.output.lovelace), utxo - {io.ref})
  {
    hide Total;
    var o, utxo' := io.output, utxo - {io.ref};
    var r := DebitBalance(balances, o.address, o.lovelace);
    forall a
      ensures (a in r <==> Total(utxo', BalanceAt(a)) > 0) && Get(r, a) == Total(utxo', BalanceAt(a))
    {
      TotalRemove(utxo, io.ref, BalanceAt(a));
      TotalNonNegative(utxo', BalanceAt(a));
      assert (a in balances <==> Total(utxo, BalanceAt(a)) > 0) && Get(balances, a) == Total(utxo, BalanceAt(a));
    }
  }

  lemma {:induction false} FitsBefore(utxo: Utxo, ios: seq<Io>)
    requires ios != [] && DistinctRefs(ios) && Fresh(utxo, ios) && Fits(AddAll(utxo, ios))
    ensures Fits(AddAll(utxo, ios[..|ios| - 1]))
  {
    hide Total;
    var n := |ios| - 1;
    NotYetAdded(utxo, ios);
    forall k
      ensures Total(AddAll(utxo, ios[..n]), TokensAt(k)) < TWO98
    {
      TotalAdd(AddAll(utxo, ios[..n]), ios[n].ref, ios[n].output, TokensAt(k));
    }
  }

  lemma {:induction false} CreditsShow(b: Books, utxo: Utxo, produced: seq<Io>, slots: Slots, slot: nat)
    requires Shows(b, utxo) && AllPositive(utxo)
    requires DistinctRefs(produced) && Fresh(utxo, produced) && Fits(AddAll(utxo, produced))
    ensures Shows(CreditAll(b, produced, slots, slot), AddAll(utxo, produced))
  {
    hide Shows, Fits, Positive;
    if produced != [] {
      var n := |produced| - 1;
      FitsBefore(utxo, produced);
      CreditsShow(b, utxo, produced[..n], slots, slot);
      NotYetAdded(utxo, produced);
      AllPositiveAdded(utxo, produced[..n]);
      CreditShows(CreditAll(b, produced[..n], slots, slot), AddAll(utxo, produced[..n]), produced[n], slots, slot);
    }
  }

  lemma {:induction false} DebitsShow(b: Books, utxo: Utxo, consumed: seq<Io>, slots: Slots, slot: nat)
    requires Shows(b, utxo) && AllPositive(utxo)
    requires DistinctRefs(consumed) && Spendable(utxo, consumed)
    ensures Shows(DebitAll(b, consumed, slots, slot), RemoveAll(utxo, consumed))
  {
    hide Shows, Positive;
    if consumed == [] {
      assert RemoveAll(utxo, consumed) == utxo;
    } else {
      var n := |consumed| - 1;
      DebitsShow(b, utxo, consumed[..n], slots, slot);
      var rest := RemoveAll(utxo, consumed[..n]);
      assert RemoveAll(utxo, consumed) == rest - {consumed[n].ref};
      DebitShows(DebitAll(b, consumed[..n], slots, slot), rest, consumed[n], slots, slot);
    }
  }

  /** A block takes books that show the unspent outputs to books that show the next unspent outputs. */
  lemma BlockShows(b: Books, utxo: Utxo, produced: seq<Io>, consumed: seq<Io>, slot: nat)
    requires Shows(b, utxo) && AllPositive(utxo) && ValidIo(utxo, produced, consumed)
    ensures Shows(ApplyIo(b, produced, consumed, slot), NextUtxo(utxo, produced, consumed))
    ensures AllPositive(NextUtxo(utxo, produced, consumed))
  {
    hide Shows, Fits;
    var slots := SeedSlots(b.holdings, consumed);
    CreditsShow(b, utxo, produced, slots, slot);
    AllPositiveAdded(utxo, produced);
    DebitsShow(CreditAll(b, produced, slots, slot), AddAll(utxo, produced), consumed, slots, slot);
  }

  // ---- Mint slots ----

  /** Every leaf of an asset carries the asset's mint slot. */
  ghost predicate Stamped(m: Holdings, g: Bytes -> nat) {
    forall k <- m :: m[k].MintSlot() == g(k.asset) && 0 < g(k.asset) < TWO30
  }

  ghost predicate Outstanding(m: Holdings, asset: Bytes) {
    exists k <- m :: k.asset == asset
  }

  /** An asset already held keeps its mint slot; one that was not is minted in this block. */
  ghost function NextMint(m: Holdings, g: Bytes -> nat, slot: nat): Bytes -> nat {
    (asset: Bytes) => if Outstanding(m, asset) then g(asset) else slot
  }

  predicate Has(o: Output, asset: Bytes) {
    exists t <- Tokens(o.assets) :: t.asset == asset
  }

  function SlotAt(m: Holdings, k: HeldKey): nat {
    if k in m then m[k].MintSlot() else 0
  }

  /** Whether the block credits a leaf, or debits one. */
  predicate Touches(ios: seq<Io>, k: HeldKey) {
    exists io <- ios :: AddrKeyOf(io.output.address) == k.addr && Has(io.output, k.asset)
  }

  /** A leaf keeps the slot it has; one without a slot takes the slot it is credited with. */
  function SlotAfter(before: nat, credited: bool, slot: nat): nat {
    if before == 0 && credited then slot % TWO30 else before
  }

  lemma StampLeaf(h: Held, qty: nat, slot: nat)
    ensures var more := h.SetQty(qty);
            more.MintSlot() == h.MintSlot() && more.SetMintSlot(slot).MintSlot() == slot % TWO30
  {
    hide *;
    Fields(h, qty, 0);
    Fields(h.SetQty(qty), 0, slot);
  }

  lemma CreditSlot(m: Holdings, k: HeldKey, qty: nat, slot: nat, x: HeldKey)
    ensures x in Credit(m, k, qty, slot) <==> x in m || x == k
    ensures SlotAt(Credit(m, k, qty, slot), x) == SlotAfter(SlotAt(m, x), x == k, slot)
  {
    var h := if k in m then m[k] else DEFAULT;
    StampLeaf(h, h.Qty() + qty, slot);
  }

  lemma DebitSlot(m: Holdings, k: HeldKey, qty: nat, x: HeldKey)
    ensures x in Debit(m, k, qty) ==> x in m && SlotAt(Debit(m, k, qty), x) == SlotAt(m, x)
    ensures x in m && x != k ==> x in Debit(m, k, qty)
  {
    if k in m {
      Fields(m[k], if m[k].Qty() >= qty then m[k].Qty() - qty else 0, 0);
    }
  }

  predicate Among(tokens: seq<Token>, asset: Bytes) {
    exists t <- tokens :: t.asset == asset
  }

  lemma {:induction false} TokensSlot(m: Holdings, addr: AddrKey, tokens: seq<Token>, slots: Slots, slot: nat, x: HeldKey)
    ensures var r := ApplyTokens(m, addr, tokens, true, slots, slot);
            var credited := x.addr == addr && Among(tokens, x.asset);
            && (x in r <==> x in m || credited)
            && SlotAt(r, x) == SlotAfter(SlotAt(m, x), credited, SlotFor(slots, x.asset, slot))
  {
    hide Credit, Debit, SlotAt;
    if tokens == [] {
    } else {
      var n := |tokens| - 1;
      var t := tokens[n];
      TokensSlot(m, addr, tokens[..n], slots, slot, x);
      CreditSlot(ApplyTokens(m, addr, tokens[..n], true, slots, slot), HeldKey(addr, t.asset), t.qty, SlotFor(slots, t.asset, slot), x);
      assert forall y :: y in tokens <==> y in tokens[..n] || y == t;
    }
  }

  lemma {:induction false} TokensTaken(m: Holdings, addr: AddrKey, tokens: seq<Token>, slots: Slots, slot: nat, x: HeldKey)
    ensures var r := ApplyTokens(m, addr, tokens, false, slots, slot);
            && (x in r ==> x in m && SlotAt(r, x) == SlotAt(m, x))
            && (x in m && !(x.addr == addr && Among(tokens, x.asset)) ==> x in r)
  {
    hide Credit, Debit, SlotAt;
    if tokens == [] {
    } else {
      var n := |tokens| - 1;
      var t := tokens[n];
      TokensTaken(m, addr, tokens[..n], slots, slot, x);
      DebitSlot(ApplyTokens(m, addr, tokens[..n], false, slots, slot), HeldKey(addr, t.asset), t.qty, x);
      assert forall y :: y in tokens <==> y in tokens[..n] || y == t;
    }
  }

  lemma TouchesMore(ios: seq<Io>, k: HeldKey)
    requires ios != []
    ensures var n := |ios| - 1;
            var o := ios[n].output;
            Touches(ios, k) <==> Touches(ios[..n], k) || (k.addr == AddrKeyOf(o.address) && Among(Tokens(o.assets), k.asset))
  {
    hide Tokens, AddrKeyOf;
    var n := |ios| - 1;
    assert forall io :: io in ios <==> io in ios[..n] || io == ios[n];
  }

  lemma {:induction false} CreditedSlots(b: Books, produced: seq<Io>, slots: Slots, slot: nat, x: HeldKey)
    ensures var r := CreditAll(b, produced, slots, slot).holdings;
            && (x in r <==> x in b.holdings || Touches(produced, x))
            && SlotAt(r, x) == SlotAfter(SlotAt(b.holdings, x), Touches(produced, x), SlotFor(slots, x.asset, slot))
  {
    hide ApplyTokens, Tokens, AddrKeyOf, Touches, Among, SlotAt;
    if produced == [] {
      NothingTouched(x);
    } else {
      var n := |produced| - 1;
      CreditedSlots(b, produced[..n], slots, slot, x);
      TouchesMore(produced, x);
      var o := produced[n].output;
      TokensSlot(CreditAll(b, produced[..n], slots, slot).holdings, AddrKeyOf(o.address), Tokens(o.assets), slots, slot, x);
    }
  }

  lemma NothingTouched(x: HeldKey)
    ensures !Touches([], x)
  {
  }

  lemma {:induction false} DebitedSlots(b: Books, consumed: seq<Io>, slots: Slots, slot: nat, x: HeldKey)
    ensures var r := DebitAll(b, consumed, slots, slot).holdings;
            && (x in r ==> x in b.holdings && SlotAt(r, x) == SlotAt(b.holdings, x))
            && (x in b.holdings && !Touches(consumed, x) ==> x in r)
  {
    hide ApplyTokens, Tokens, AddrKeyOf, Touches, Among, SlotAt;
    if consumed != [] {
      var n := |consumed| - 1;
      DebitedSlots(b, consumed[..n], slots, slot, x);
      TouchesMore(consumed, x);
      var o := consumed[n].output;
      TokensTaken(DebitAll(b, consumed[..n], slots, slot).holdings, AddrKeyOf(o.address), Tokens(o.assets), slots, slot, x);
    }
  }

  /** The slot of every leaf a block leaves: its own, or, for one that had none, the seeded slot or the block's. */
  lemma BlockSlots(b: Books, produced: seq<Io>, consumed: seq<Io>, slot: nat, x: HeldKey)
    ensures var r := ApplyIo(b, produced, consumed, slot).holdings;
            && (x in r ==>
                  && (x in b.holdings || Touches(produced, x))
                  && SlotAt(r, x) == SlotAfter(SlotAt(b.holdings, x), Touches(produced, x),
                                               SlotFor(SeedSlots(b.holdings, consumed), x.asset, slot)))
            && (x in b.holdings && !Touches(consumed, x) ==> x in r)
  {
    hide Touches, SlotAt, SeedSlots, CreditAll, DebitAll;
    var slots := SeedSlots(b.holdings, consumed);
    CreditedSlots(b, produced, slots, slot, x);
    DebitedSlots(CreditAll(b, produced, slots, slot), consumed, slots, slot, x);
  }

  /** The seeded slots: right for every asset they name, and naming each asset of a leaf spent from. */
  ghost predicate Seeded(slots: Slots, prev: Holdings, g: Bytes -> nat) {
    forall a <- slots :: slots[a] == g(a) && Outstanding(prev, a)
  }

  lemma {:induction false} SeedTokensRight(slots: Slots, prev: Holdings, addr: AddrKey, tokens: seq<Token>, g: Bytes -> nat)
    requires Stamped(prev, g) && Seeded(slots, prev, g)
    ensures Seeded(SeedTokens(slots, prev, addr, tokens), prev, g)
    ensures slots.Keys <= SeedTokens(slots, prev, addr, tokens).Keys
    ensures forall t <- tokens :: HeldKey(addr, t.asset) in prev ==> t.asset in SeedTokens(slots, prev, addr, tokens)
  {
    if tokens != [] {
      var n := |tokens| - 1;
      SeedTokensRight(slots, prev, addr, tokens[..n], g);
      assert forall t <- tokens :: t in tokens[..n] || t == tokens[n];
    }
  }

  lemma {:induction false} SeedRight(prev: Holdings, consumed: seq<Io>, g: Bytes -> nat)
    requires Stamped(prev, g)
    ensures Seeded(SeedSlots(prev, consumed), prev, g)
    ensures forall c <- consumed, t <- Tokens(c.output.assets) ::
              HeldKey(AddrKeyOf(c.output.address), t.asset) in prev ==> t.asset in SeedSlots(prev, consumed)
  {
    hide Seeded, Stamped, Tokens, AddrKeyOf;
    if consumed == [] {
      NothingSeeded(prev, g);
    } else {
      var n := |consumed| - 1;
      SeedRight(prev, consumed[..n], g);
      var o := consumed[n].output;
      SeedTokensRight(SeedSlots(prev, consumed[..n]), prev, AddrKeyOf(o.address), Tokens(o.assets), g);
      assert forall c <- consumed :: c in consumed[..n] || c == consumed[n];
    }
  }

  lemma NothingSeeded(prev: Holdings, g: Bytes -> nat)
    ensures Seeded(map[], prev, g)
  {
  }

  /** The asset is spent from a leaf that existed before the block. */
  predicate SpentFrom(prev: Holdings, consumed: seq<Io>, asset: Bytes) {
    exists c <- consumed :: HeldKey(AddrKeyOf(c.output.address), asset) in prev && Has(c.output, asset)
  }

  /**
   * Every leaf the block leaves that did not exist before, of an asset that was outstanding, has its
   * asset spent from a leaf that existed before.
   */
  ghost predicate Carried(prev: Holdings, next: Utxo, consumed: seq<Io>) {
    forall k | Totals(next)(k) > 0 && k !in prev && Outstanding(prev, k.asset) :: SpentFrom(prev, consumed, k.asset)
  }

  /** The block seeds exactly the assets it spends from existing leaves. */
  lemma {:induction false} SeedsAre(prev: Holdings, consumed: seq<Io>, asset: Bytes)
    ensures asset in SeedSlots(prev, consumed) <==> SpentFrom(prev, consumed, asset)
  {
    hide Tokens, AddrKeyOf;
    if consumed != [] {
      var n := |consumed| - 1;
      var o := consumed[n].output;
      SeedsAre(prev, consumed[..n], asset);
      SeededTokens(SeedSlots(prev, consumed[..n]), prev, AddrKeyOf(o.address), Tokens(o.assets), asset);
      assert forall c :: c in consumed <==> c in consumed[..n] || c == consumed[n];
    }
  }

  lemma {:induction false} SeededTokens(slots: Slots, prev: Holdings, addr: AddrKey, tokens: seq<Token>, asset: Bytes)
    ensures asset in SeedTokens(slots, prev, addr, tokens) <==>
            asset in slots || (HeldKey(addr, asset) in prev && Among(tokens, asset))
  {
    if tokens != [] {
      var n := |tokens| - 1;
      SeededTokens(slots, prev, addr, tokens[..n], asset);
      assert forall t :: t in tokens <==> t in tokens[..n] || t == tokens[n];
    }
  }

  /** Every outstanding asset came into existence at or below the slot. */
  ghost predicate MintedBy(m: Holdings, g: Bytes -> nat, slot: nat) {
    forall k <- m :: g(k.asset) <= slot
  }

  /** The slot of one leaf a block leaves, from books with one slot per asset. */
  lemma LeafStamp(b: Books, produced: seq<Io>, consumed: seq<Io>, slot: nat, g: Bytes -> nat, k: HeldKey)
    requires Stamped(b.holdings, g) && k in ApplyIo(b, produced, consumed, slot).holdings && slot < TWO30
    ensures SlotAt(ApplyIo(b, produced, consumed, slot).holdings, k) ==
            if k in b.holdings || SpentFrom(b.holdings, consumed, k.asset) then g(k.asset) else slot
    ensures SpentFrom(b.holdings, consumed, k.asset) ==> Outstanding(b.holdings, k.asset)
    ensures Outstanding(b.holdings, k.asset) ==> 0 < g(k.asset) < TWO30
  {
    hide SeedSlots, ApplyIo, SpentFrom, Touches;
    BlockSlots(b, produced, consumed, slot, k);
    SeedsAre(b.holdings, consumed, k.asset);
    SeedRight(b.holdings, consumed, g);
  }

  /** A leaf whose asset is not spent from any existing leaf stays. */
  lemma UnspentStays(b: Books, produced: seq<Io>, consumed: seq<Io>, slot: nat, k: HeldKey)
    requires k in b.holdings && !SpentFrom(b.holdings, consumed, k.asset)
    ensures k in ApplyIo(b, produced, consumed, slot).holdings
  {
    hide ApplyIo, Tokens, AddrKeyOf;
    BlockSlots(b, produced, consumed, slot, k);
    assert !Touches(consumed, k);
  }

  /** From books with one slot per asset the leaf is stamped right unless it is new and its asset outstanding and not spent. */
  lemma LeafRight(b: Books, produced: seq<Io>, consumed: seq<Io>, slot: nat, g: Bytes -> nat, k: HeldKey)
    requires 0 < slot < TWO30 && k in ApplyIo(b, produced, consumed, slot).holdings
    requires Stamped(b.holdings, g) && MintedBy(b.holdings, g, slot - 1)
    ensures var n := NextMint(b.holdings, g, slot)(k.asset);
            SlotAt(ApplyIo(b, produced, consumed, slot).holdings, k) == n && 0 < n < TWO30 <==>
            (k !in b.holdings && Outstanding(b.holdings, k.asset) ==> SpentFrom(b.holdings, consumed, k.asset))
  {
    hide ApplyIo, SpentFrom;
    LeafStamp(b, produced, consumed, slot, g, k);
  }

  /** A new leaf stamped wrong lies beside an old one stamped right: no slot fits both. */
  lemma LeafApart(b: Books, produced: seq<Io>, consumed: seq<Io>, slot: nat, g: Bytes -> nat, k: HeldKey)
    requires 0 < slot < TWO30 && k in ApplyIo(b, produced, consumed, slot).holdings
    requires Stamped(b.holdings, g) && MintedBy(b.holdings, g, slot - 1)
    requires k !in b.holdings && Outstanding(b.holdings, k.asset) && !SpentFrom(b.holdings, consumed, k.asset)
    ensures forall g' :: !Stamped(ApplyIo(b, produced, consumed, slot).holdings, g')
  {
    hide ApplyIo, SpentFrom;
    var r := ApplyIo(b, produced, consumed, slot).holdings;
    var held :| held in b.holdings && held.asset == k.asset;
    UnspentStays(b, produced, consumed, slot, held);
    LeafStamp(b, produced, consumed, slot, g, k);
    LeafStamp(b, produced, consumed, slot, g, held);
    forall g'
      ensures !Stamped(r, g')
    {
      assert r[k].MintSlot() == SlotAt(r, k) && r[held].MintSlot() == SlotAt(r, held);
    }
  }

  /**
   * All leaves of one asset carry one mint slot, that of the block that brought it into existence,
   * exactly when no leaf of an outstanding asset is new without the block spending from an old one;
   * otherwise no one slot fits all leaves of the asset.
   */
  lemma BlockStamps(b: Books, utxo: Utxo, produced: seq<Io>, consumed: seq<Io>, slot: nat, g: Bytes -> nat)
    requires Shows(b, utxo) && AllPositive(utxo) && ValidIo(utxo, produced, consumed)
    requires 0 < slot < TWO30 && Stamped(b.holdings, g) && MintedBy(b.holdings, g, slot - 1)
    ensures Stamped(ApplyIo(b, produced, consumed, slot).holdings, NextMint(b.holdings, g, slot)) <==>
            Carried(b.holdings, NextUtxo(utxo, produced, consumed), consumed)
    ensures (exists g' :: Stamped(ApplyIo(b, produced, consumed, slot).holdings, g')) <==>
            Carried(b.holdings, NextUtxo(utxo, produced, consumed), consumed)
    ensures MintedBy(ApplyIo(b, produced, consumed, slot).holdings, NextMint(b.holdings, g, slot), slot)
  {
    hide Shows, Fits, Positive, SpentFrom, ApplyIo, NextUtxo;
    var r, g', next := ApplyIo(b, produced, consumed, slot).holdings, NextMint(b.holdings, g, slot), NextUtxo(utxo, produced, consumed);
    BlockShows(b, utxo, produced, consumed, slot);
    Leaves(ApplyIo(b, produced, consumed, slot), next);
    forall k <- r
      ensures r[k].MintSlot() == g'(k.asset) && 0 < g'(k.asset) < TWO30 <==>
              (k !in b.holdings && Outstanding(b.holdings, k.asset) ==> SpentFrom(b.holdings, consumed, k.asset))
    {
      LeafRight(b, produced, consumed, slot, g, k);
    }
    if Carried(b.holdings, next, consumed) {
      assert Stamped(r, g');
    } else {
      var k :| k in r && k !in b.holdings && Outstanding(b.holdings, k.asset) && !SpentFrom(b.holdings, consumed, k.asset);
      LeafApart(b, produced, consumed, slot, g, k);
    }
  }

  lemma Leaves(b: Books, utxo: Utxo)
    requires Shows(b, utxo)
    ensures forall k :: k in b.holdings <==> Totals(utxo)(k) > 0
  {
  }

  // ---- Order ----

  /** Books are determined by the balances and quantities they show and the slots of their leaves. */
  lemma SameSlots(a: Books, b: Books, utxo: Utxo)
    requires Shows(a, utxo) && Shows(b, utxo)
    ensures a == b <==> forall k <- a.holdings :: SlotAt(a.holdings, k) == SlotAt(b.holdings, k)
  {
    hide Total;
    forall x
      ensures x in a.balances <==> x in b.balances
      ensures x in a.balances ==> a.balances[x] == b.balances[x]
    {
      assert Get(a.balances, x) == Total(utxo, BalanceAt(x)) == Get(b.balances, x);
    }
    assert a.balances == b.balances;
    if forall k <- a.holdings :: SlotAt(a.holdings, k) == SlotAt(b.holdings, k) {
      forall k
        ensures k in a.holdings <==> k in b.holdings
        ensures k in a.holdings ==> a.holdings[k] == b.holdings[k]
      {
        assert QtyAt(a.holdings, k) == Totals(utxo)(k) == QtyAt(b.holdings, k);
        assert (k in a.holdings <==> Totals(utxo)(k) > 0) && (k in b.holdings <==> Totals(utxo)(k) > 0);
        if k in a.holdings {
          FieldsDetermine(a.holdings[k], b.holdings[k]);
        }
      }
      assert a.holdings == b.holdings;
    }
  }

  /** Books with one mint slot per asset are determined by what they show. */
  lemma BooksDetermined(a: Books, b: Books, utxo: Utxo, g: Bytes -> nat)
    requires Shows(a, utxo) && Shows(b, utxo) && Stamped(a.holdings, g) && Stamped(b.holdings, g)
    ensures a == b
  {
    hide Shows;
    Leaves(a, utxo);
    Leaves(b, utxo);
    SameSlots(a, b, utxo);
  }

  /** A leaf without a slot that the block credits and leaves takes the same slot whichever way the inputs are listed. */
  ghost predicate SeedsAgree(m: Holdings, next: Utxo, p: seq<Io>, c: seq<Io>, c': seq<Io>, slot: nat) {
    forall k | Totals(next)(k) > 0 && SlotAt(m, k) == 0 && Touches(p, k) ::
      SlotFor(SeedSlots(m, c), k.asset, slot) % TWO30 == SlotFor(SeedSlots(m, c'), k.asset, slot) % TWO30
  }

  /**
   * Outputs are collected from a hash map: whatever order it yields, the block's result is the same.
   * The order of the inputs shows exactly in the slots seeded for the leaves that had none.
   */
  lemma OrderIrrelevant(b: Books, utxo: Utxo, p: seq<Io>, c: seq<Io>, p': seq<Io>, c': seq<Io>, slot: nat)
    requires Shows(b, utxo) && AllPositive(utxo) && ValidIo(utxo, p, c) && ValidIo(utxo, p', c')
    requires (forall x :: x in p <==> x in p') && (forall x :: x in c <==> x in c')
    ensures ApplyIo(b, p, c, slot) == ApplyIo(b, p', c', slot) <==> SeedsAgree(b.holdings, NextUtxo(utxo, p, c), p, c, c', slot)
    ensures c == c' ==> ApplyIo(b, p, c, slot) == ApplyIo(b, p', c', slot)
    ensures (exists g :: Stamped(b.holdings, g)) ==> ApplyIo(b, p, c, slot) == ApplyIo(b, p', c', slot)
  {
    hide Shows, Fits, Positive, ApplyIo, SeedSlots, NextUtxo, Stamped;
    var r, r', next := ApplyIo(b, p, c, slot), ApplyIo(b, p', c', slot), NextUtxo(utxo, p, c);
    BlockShows(b, utxo, p, c, slot);
    BlockShows(b, utxo, p', c', slot);
    SameUtxo(utxo, p, c, p', c');
    SameSlots(r, r', next);
    Leaves(r, next);
    Leaves(r', next);
    forall k <- r.holdings
      ensures SlotAt(r.holdings, k) == SlotAt(r'.holdings, k) <==>
              (SlotAt(b.holdings, k) == 0 && Touches(p, k) ==>
                 SlotFor(SeedSlots(b.holdings, c), k.asset, slot) % TWO30 == SlotFor(SeedSlots(b.holdings, c'), k.asset, slot) % TWO30)
    {
      BlockSlots(b, p, c, slot, k);
      BlockSlots(b, p', c', slot, k);
    }
    if g :| Stamped(b.holdings, g) {
      SameSeeds(b.holdings, c, c', g);
    }
  }

  /** With one slot per asset the seeds do not depend on the order of the inputs. */
  lemma SameSeeds(m: Holdings, c: seq<Io>, c': seq<Io>, g: Bytes -> nat)
    requires Stamped(m, g) && forall x :: x in c <==> x in c'
    ensures SeedSlots(m, c) == SeedSlots(m, c')
  {
    hide SeedSlots, Stamped, AddrKeyOf, Has;
    SeedRight(m, c, g);
    SeedRight(m, c', g);
    forall a
      ensures a in SeedSlots(m, c) <==> a in SeedSlots(m, c')
    {
      SeedsAre(m, c, a);
      SeedsAre(m, c', a);
    }
  }

  lemma SameUtxo(utxo: Utxo, p: seq<Io>, c: seq<Io>, p': seq<Io>, c': seq<Io>)
    requires ValidIo(utxo, p, c) && ValidIo(utxo, p', c')
    requires (forall x :: x in p <==> x in p') && (forall x :: x in c <==> x in c')
    ensures NextUtxo(utxo, p, c) == NextUtxo(utxo, p', c')
  {
    hide Fits, Positive;
    AddAllHas(utxo, p);
    AddAllHas(utxo, p');
    AddAllKeys(utxo, p);
    AddAllKeys(utxo, p');
    assert RefsOf(p) == RefsOf(p') && RefsOf(c) == RefsOf(c');
    var a, a' := AddAll(utxo, p), AddAll(utxo, p');
    forall r <- a
      ensures a[r] == a'[r]
    {
      assert Io(r, a[r]) in p || (r in utxo && utxo[r] == a[r]);
    }
    assert a == a';
  }

  // ---- Why credits come first, and why an asset must be carried ----

  /** Debiting before crediting leaves a phantom balance for an output made and spent in one block. */
  lemma DebitsFirstMiscounts()
    ensures exists produced, consumed, slot ::
              && ValidIo(map[], produced, consumed)
              && !BalancesShow(CreditAll(DebitAll(Books(map[], map[]), consumed, map[], slot), produced, map[], slot).balances,
                               NextUtxo(map[], produced, consumed))
  {
    var o := Output(5, [], []);
    var io := Io(OutRef([], 0), o);
    var ios := [io];
    var empty: Utxo := map[];
    assert ios[..0] == [];
    assert AddAll(empty, ios) == map[io.ref := o];
    forall k
      ensures Total(AddAll(empty, ios), TokensAt(k)) < TWO98
    {
      SumZero(AddAll(empty, ios).Keys, Weigh(AddAll(empty, ios), TokensAt(k)));
    }
    assert ValidIo(empty, ios, ios);
    var next := NextUtxo(empty, ios, ios);
    assert next == map[];
    SumZero(next.Keys, Weigh(next, BalanceAt([])));
    assert Total(next, BalanceAt([])) == 0;
    assert DebitAll(Books(map[], map[]), ios, map[], 1) == Books(map[], map[]);
    var b := CreditAll(Books(map[], map[]), ios, map[], 1);
    assert [] in b.balances;
    assert !BalancesShow(b.balances, next);
  }

  /** An output holding one unit of one asset. */
  function OneToken(address: Bytes, asset: Bytes): Output {
    Output(1, address, [PolicyGroup(asset, [NamedQty([], 1)])])
  }

  lemma OneTokenIs(address: Bytes, asset: Bytes)
    ensures Tokens(OneToken(address, asset).assets) == [Token(asset, 1)]
    ensures forall x :: QtyOf([Token(asset, 1)], x) == if x == asset then 1 else 0
  {
    var assets := OneToken(address, asset).assets;
    assert assets[..0] == [] && asset + [] == asset;
    assert Tokens(assets) == [] + NameTokens(asset, [NamedQty([], 1)]);
    forall x ensures QtyOf([Token(asset, 1)], x) == if x == asset then 1 else 0 {
      assert [Token(asset, 1)][..0] == [];
    }
  }

  lemma TotalOne(ref: OutRef, o: Output, f: Output -> int)
    ensures Total(map[ref := o], f) == f(o)
  {
    var none: Utxo := map[];
    SumZero(none.Keys, Weigh(none, f));
    TotalAdd(none, ref, o, f);
    assert none[ref := o] == map[ref := o];
  }

  /** A block meeting every other condition of BlockStamps, after which no stamp fits all leaves of an asset. */
  ghost predicate MintsApart(b: Books, utxo: Utxo, produced: seq<Io>, g: Bytes -> nat, slot: nat) {
    && Shows(b, utxo) && AllPositive(utxo) && Stamped(b.holdings, g) && 0 < slot < TWO30
    && ValidIo(utxo, produced, [])
    && forall g' :: !Stamped(ApplyIo(b, produced, [], slot).holdings, g')
  }

  /** Minting more of an asset without spending any of it stamps the new leaf with its own slot. */
  lemma UncarriedMintDiffers()
    ensures exists b, utxo, produced, g, slot :: MintsApart(b, utxo, produced, g, slot)
  {
    hide Shows, ValidIo, Stamped, AllPositive;
    var asset: Bytes, here: Bytes, there: Bytes := [9], [], [200];
    var r1, r2 := OutRef([], 0), OutRef([], 1);
    var k1, k2 := HeldKey(AddrKeyOf(here), asset), HeldKey(AddrKeyOf(there), asset);
    var b := Books(map[here := 1], map[k1 := New(1, 5)]);
    var utxo, produced, g := map[r1 := OneToken(here, asset)], [Io(r2, OneToken(there, asset))], (a: Bytes) => 5;
    OneShows(b, utxo, r1, here, asset);
    SecondValid(utxo, r1, r2, here, there, asset);
    TwoLeaves(b, k1, there, asset, r2);
    StampedFive(b.holdings, k1, g);
    assert MintsApart(b, utxo, produced, g, 6);
  }

  lemma StampedFive(m: Holdings, k: HeldKey, g: Bytes -> nat)
    requires m == map[k := New(1, 5)] && g(k.asset) == 5
    ensures Stamped(m, g)
  {
    Fields(DEFAULT, 1, 5);
  }

  lemma SecondValid(utxo: Utxo, r1: OutRef, r2: OutRef, here: Bytes, there: Bytes, asset: Bytes)
    requires utxo == map[r1 := OneToken(here, asset)] && r1 != r2
    ensures ValidIo(utxo, [Io(r2, OneToken(there, asset))], []) && AllPositive(utxo)
  {
    hide Total;
    var produced := [Io(r2, OneToken(there, asset))];
    OneTokenIs(here, asset);
    OneTokenIs(there, asset);
    assert produced[..0] == [] && AddAll(utxo, produced) == utxo[r2 := OneToken(there, asset)];
    forall k
      ensures Total(AddAll(utxo, produced), TokensAt(k)) < TWO98
    {
      TotalOne(r1, OneToken(here, asset), TokensAt(k));
      TotalAdd(utxo, r2, OneToken(there, asset), TokensAt(k));
    }
  }

  lemma OneCredit(b: Books, ref: OutRef, address: Bytes, asset: Bytes, ts: seq<Token>, produced: seq<Io>)
    requires ts == [Token(asset, 1)] && produced == [Io(ref, OneToken(address, asset))]
    requires Tokens(OneToken(address, asset).assets) == ts
    ensures ApplyIo(b, produced, [], 6).holdings == Credit(b.holdings, HeldKey(AddrKeyOf(address), asset), 1, 6)
  {
    hide Credit, Tokens, StakeCredential;
    var slots := SeedSlots(b.holdings, []);
    assert produced[..0] == [] && ts[..0] == [];
    assert CreditAll(b, produced[..0], slots, 6) == b;
    assert ApplyTokens(b.holdings, AddrKeyOf(address), ts[..0], true, slots, 6) == b.holdings;
    assert CreditAll(b, produced, slots, 6) == CreditOutput(b, produced[0].output, slots, 6);
  }

  lemma TwoLeaves(b: Books, k1: HeldKey, there: Bytes, asset: Bytes, r2: OutRef)
    requires b.holdings == map[k1 := New(1, 5)] && k1.asset == asset && k1.addr != AddrKeyOf(there)
    ensures forall g' :: !Stamped(ApplyIo(b, [Io(r2, OneToken(there, asset))], [], 6).holdings, g')
  {
    hide ApplyIo, Tokens, StakeCredential;
    var produced, k2 := [Io(r2, OneToken(there, asset))], HeldKey(AddrKeyOf(there), asset);
    var r := ApplyIo(b, produced, [], 6).holdings;
    var ts := [Token(asset, 1)];
    OneTokenIs(there, asset);
    OneCredit(b, r2, there, asset, ts, produced);
    Fields(DEFAULT, 1, 5);
    StampLeaf(DEFAULT, 1, 6);
    assert r[k1].MintSlot() == 5 && r[k2].MintSlot() == 6;
    forall g'
      ensures !Stamped(r, g')
    {
      assert g'(k1.asset) == g'(k2.asset);
    }
  }

  lemma OneShows(b: Books, utxo: Utxo, ref: OutRef, address: Bytes, asset: Bytes)
    requires utxo == map[ref := OneToken(address, asset)]
    requires b == Books(map[address := 1], map[HeldKey(AddrKeyOf(address), asset) := New(1, 5)])
    ensures Shows(b, utxo)
  {
    hide Total;
    var o := OneToken(address, asset);
    OneTokenIs(address, asset);
    Fields(DEFAULT, 1, 5);
    forall a
      ensures (a in b.balances <==> Total(utxo, BalanceAt(a)) > 0) && Get(b.balances, a) == Total(utxo, BalanceAt(a))
    {
      TotalOne(ref, o, BalanceAt(a));
    }
    forall k
      ensures (k in b.holdings <==> Totals(utxo)(k) > 0) && QtyAt(b.holdings, k) == Totals(utxo)(k)
    {
      TotalOne(ref, o, TokensAt(k));
    }
  }
}
