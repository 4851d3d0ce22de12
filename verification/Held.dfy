/** The packed holdings leaf: a 98-bit quantity and a 30-bit first-mint slot in two 64-bit halves. */
module HeldLeaf {

  const TWO64: nat := 0x1_0000_0000_0000_0000
  const TWO98: nat := 0x4_0000_0000_0000_0000_0000_0000
  const TWO30: nat := 0x4000_0000
  const TWO128: nat := 0x1_0000_0000_0000_0000_0000_0000_0000_0000

  type U64 = x: nat | x < TWO64

  datatype Held = Held(lo: U64, hi: U64)
  {
    function Packed(): (p: nat)
      ensures p < TWO128
    {
      hi * TWO64 + lo
    }

    function Qty(): (q: nat)
      ensures q < TWO98
    {
      Packed() % TWO98
    }

    function MintSlot(): (s: nat)
      ensures s < TWO30
    {
      Packed() / TWO98
    }

    function SetQty(qty: nat): Held {
      FromPacked(Packed() - Packed() % TWO98 + qty % TWO98)
    }

    function SetMintSlot(slot: nat): Held {
      FromPacked(Packed() % TWO98 + slot % TWO30 * TWO98)
    }
  }

  const DEFAULT := Held(0, 0)

  /** The two halves of a 128-bit value. */
  function FromPacked(p: nat): (h: Held)
    requires p < TWO128
    ensures h.Packed() == p
  {
    Held(p % TWO64, p / TWO64)
  }

  function New(qty: nat, slot: nat): Held {
    FromPacked(qty % TWO98 + slot % TWO30 * TWO98)
  }

  lemma NewFields(qty: nat, slot: nat)
    ensures New(qty, slot).Qty() == qty % TWO98 && New(qty, slot).MintSlot() == slot % TWO30
  {
  }

  lemma QtyFields(h: Held, qty: nat)
    ensures h.SetQty(qty).Qty() == qty % TWO98 && h.SetQty(qty).MintSlot() == h.MintSlot()
  {
  }

  lemma SlotFields(h: Held, slot: nat)
    ensures h.SetMintSlot(slot).Qty() == h.Qty() && h.SetMintSlot(slot).MintSlot() == slot % TWO30
  {
  }

  lemma NewAgain(h: Held)
    ensures New(h.Qty(), h.MintSlot()) == h
  {
    assert FromPacked(h.Packed()) == h;
  }

  /** Quantity and slot do not disturb each other across the 64-bit boundary, and determine the leaf. */
  lemma Fields(h: Held, qty: nat, slot: nat)
    ensures New(qty, slot).Qty() == qty % TWO98 && New(qty, slot).MintSlot() == slot % TWO30
    ensures h.SetQty(qty).Qty() == qty % TWO98 && h.SetQty(qty).MintSlot() == h.MintSlot()
    ensures h.SetMintSlot(slot).Qty() == h.Qty() && h.SetMintSlot(slot).MintSlot() == slot % TWO30
    ensures New(h.Qty(), h.MintSlot()) == h
  {
    hide *;
    NewFields(qty, slot);
    QtyFields(h, qty);
    SlotFields(h, slot);
    NewAgain(h);
  }

  lemma FieldsDetermine(a: Held, b: Held)
    requires a.Qty() == b.Qty() && a.MintSlot() == b.MintSlot()
    ensures a == b
  {
    Fields(a, 0, 0);
    Fields(b, 0, 0);
  }

  /** Where the two lie: the slot is the top 30 bits of the high half, the quantity all below. */
  lemma Halves(h: Held)
    ensures h.Qty() == h.hi % 0x4_0000_0000 * TWO64 + h.lo && h.MintSlot() == h.hi / 0x4_0000_0000
  {
    var top, below := h.hi / 0x4_0000_0000, h.hi % 0x4_0000_0000;
    assert h.hi == top * 0x4_0000_0000 + below;
    assert h.Packed() == top * TWO98 + (below * TWO64 + h.lo);
  }
}
