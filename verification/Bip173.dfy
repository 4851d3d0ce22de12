/**
 * The checksum as BIP-173 defines it: each step divides by the generator polynomial over the field of
 * 32 elements, and strings the standard lists as valid are accepted.
 */
module Bip173 {
  import opened Wrappers
  import opened Seqs
  import opened Words
  import opened Polymod
  import opened Bech32

  // ---- The field of 32 elements ----

  /** Twice an element, reduced by a^5 + a^3 + 1. */
  function Twice(a: bv5): bv5 {
    if a & 16 == 0 then a << 1 else (a << 1) ^ 9
  }

  function Plus(a: bv5, b: bv5): bv5 {
    a ^ b
  }

  function When(bit: bool, a: bv5): bv5 {
    if bit then a else 0
  }

  /** The bits of an element, highest first. */
  predicate BitAt(a: bv5, i: nat) {
    (if i == 0 then a & 16 else if i == 1 then a & 8 else if i == 2 then a & 4 else if i == 3 then a & 2 else a & 1) != 0
  }

  /** `b` doubled `k` times. */
  function Multiple(b: bv5, k: nat): bv5 {
    if k == 0 then b else Twice(Multiple(b, k - 1))
  }

  /** The multiples of `b` by the powers of two that make up the low `k` bits of `a`. */
  function Part(a: bv5, b: bv5, k: nat): bv5
    requires k <= 5
  {
    if k == 0 then 0 else Plus(Part(a, b, k - 1), When(BitAt(a, 5 - k), Multiple(b, k - 1)))
  }

  function Times(a: bv5, b: bv5): bv5 {
    Part(a, b, 5)
  }

  /** A remainder, highest power first. */
  datatype Rest = Rest(c5: bv5, c4: bv5, c3: bv5, c2: bv5, c1: bv5, c0: bv5)
  {
    /** Times x, plus the next value, modulo x^6 + {29}x^5 + {22}x^4 + {20}x^3 + {21}x^2 + {29}x + {18}. */
    function Next(v: bv5): Rest {
      Rest(Plus(c4, Times(c5, 29)), Plus(c3, Times(c5, 22)), Plus(c2, Times(c5, 20)), Plus(c1, Times(c5, 21)), Plus(c0, Times(c5, 29)),
           Plus(v, Times(c5, 18)))
    }

    function Coefficient(j: nat): bv5
      requires j < 6
    {
      if j == 0 then c5 else if j == 1 then c4 else if j == 2 then c3 else if j == 3 then c2 else if j == 4 then c1 else c0
    }
  }

  const ONE := Rest(0, 0, 0, 0, 0, 1)

  function Divide(r: Rest, values: seq<bv5>): Rest
    decreases |values|
  {
    if values == [] then r else Divide(r.Next(values[0]), values[1..])
  }

  lemma {:induction false} DivideLast(r: Rest, values: seq<bv5>, v: bv5)
    ensures Divide(r, values + [v]) == Divide(r, values).Next(v)
    decreases |values|
  {
    hide Rest.Next;
    if values == [] {
      assert ([] + [v])[1..] == [];
    } else {
      assert (values + [v])[1..] == values[1..] + [v];
      DivideLast(r.Next(values[0]), values[1..], v);
    }
  }

  // ---- Elements as bits ----

  function BitsOf(a: bv5): (s: Bits)
    ensures |s| == 5
  {
    seq(5, i requires 0 <= i < 5 => BitAt(a, i))
  }

  lemma XorAt(a: bv5, b: bv5, i: nat)
    ensures BitAt(Plus(a, b), i) == (BitAt(a, i) != BitAt(b, i))
  {
  }

  lemma XorBits(a: bv5, b: bv5)
    ensures BitsOf(Plus(a, b)) == Xor(BitsOf(a), BitsOf(b))
  {
    hide BitAt, Plus;
    forall i | 0 <= i < 5
      ensures BitsOf(Plus(a, b))[i] == Xor(BitsOf(a), BitsOf(b))[i]
    {
      XorAt(a, b, i);
    }
  }

  function Coefficient(w: Word, j: nat): (s: Bits)
    requires j < 6
    ensures |s| == 5
  {
    w[2 + 5 * j..7 + 5 * j]
  }

  /** The word carries the coefficients, below two clear bits. */
  predicate Spells(w: Word, r: Rest) {
    Is30(w) && forall j | 0 <= j < 6 :: Coefficient(w, j) == BitsOf(r.Coefficient(j))
  }

  // ---- Numbers as words ----

  function Number(s: seq<nat>): nat {
    if s == [] then 0 else 32 * Number(s[..|s| - 1]) + s[|s| - 1]
  }

  lemma {:induction false} LowSplit(x: nat, n: nat, v: nat, k: nat)
    requires v < Pow2(k)
    ensures Low(x * Pow2(k) + v, n + k) == Low(x, n) + Low(v, k)
  {
    if k != 0 {
      var p := x * Pow2(k - 1);
      assert x * Pow2(k) + v == 2 * p + v;
      LowSplit(x, n, v / 2, k - 1);
    }
  }

  lemma {:induction false} LowNumber(s: seq<nat>, n: nat)
    requires Below(s, 32)
    ensures Low(Number(s), n + 5 * |s|) == Low(0, n) + Spell(s, 5)
  {
    hide Low;
    if s == [] {
      assert Low(0, n) + [] == Low(0, n);
    } else {
      var k := |s| - 1;
      LowNumber(s[..k], n);
      Pow2Values();
      LowSplit(Number(s[..k]), n + 5 * k, s[k], 5);
      Assoc(Low(0, n), Spell(s[..k], 5), Low(s[k], 5));
    }
  }

  lemma {:induction false} SpellAt(s: seq<nat>, j: nat)
    requires j < |s|
    ensures |Spell(s, 5)| == 5 * |s| && Spell(s, 5)[5 * j..5 * j + 5] == Low(s[j], 5)
  {
    hide Low;
    SpellLength(s, 5);
    var n := |s| - 1;
    SpellLength(s[..n], 5);
    if j < n {
      SpellAt(s[..n], j);
      assert Spell(s, 5)[5 * j..5 * j + 5] == Spell(s[..n], 5)[5 * j..5 * j + 5];
    }
  }

  lemma NumberCoefficient(s: seq<nat>, j: nat)
    requires |s| == 6 && Below(s, 32) && j < 6
    ensures Coefficient(W(Number(s)), j) == Low(s[j], 5)
  {
    hide Low, Number, Spell;
    LowNumber(s, 2);
    SpellAt(s, j);
    var w := Low(0, 2) + Spell(s, 5);
    assert w[2 + 5 * j..7 + 5 * j] == Spell(s, 5)[5 * j..5 * j + 5];
  }

  // ---- The generators ----

  /** What is left of x^6. */
  const GENERATOR := Rest(29, 22, 20, 21, 29, 18)

  /** Its multiples by the powers of two. */
  function Row(t: nat): Rest {
    Rest(Multiple(GENERATOR.c5, t), Multiple(GENERATOR.c4, t), Multiple(GENERATOR.c3, t), Multiple(GENERATOR.c2, t),
         Multiple(GENERATOR.c1, t), Multiple(GENERATOR.c0, t))
  }

  /** The number an element is written as. */
  function Value(a: bv5): (v: nat)
    ensures v < 32
  {
    (if a & 16 != 0 then 16 else 0) + (if a & 8 != 0 then 8 else 0) + (if a & 4 != 0 then 4 else 0) + (if a & 2 != 0 then 2 else 0)
    + (if a & 1 != 0 then 1 else 0)
  }

  function Values(r: Rest): (s: seq<nat>)
    ensures |s| == 6 && Below(s, 32)
  {
    [Value(r.c5), Value(r.c4), Value(r.c3), Value(r.c2), Value(r.c1), Value(r.c0)]
  }

  lemma NumberOfSix(a: nat, b: nat, c: nat, d: nat, e: nat, f: nat)
    ensures Number([a, b, c, d, e, f]) == ((((a * 32 + b) * 32 + c) * 32 + d) * 32 + e) * 32 + f
  {
    assert [a, b, c, d, e, f][..5] == [a, b, c, d, e] && [a, b, c, d, e][..4] == [a, b, c, d] && [a, b, c, d][..3] == [a, b, c];
    assert [a, b, c][..2] == [a, b] && [a, b][..1] == [a] && [a][..0] == [];
    assert Number([a, b, c]) == (a * 32 + b) * 32 + c by {
      assert Number([a]) == a;
      assert Number([a, b]) == a * 32 + b;
    }
    assert Number([a, b, c, d, e]) == (((a * 32 + b) * 32 + c) * 32 + d) * 32 + e by {
      assert Number([a, b, c, d]) == ((a * 32 + b) * 32 + c) * 32 + d;
    }
  }

  /** The five constants are the multiples of the generator. */
  lemma RowsAre()
    ensures Number(Values(Row(0))) == GEN[0] && Number(Values(Row(1))) == GEN[1] && Number(Values(Row(2))) == GEN[2]
    ensures Number(Values(Row(3))) == GEN[3] && Number(Values(Row(4))) == GEN[4]
  {
    hide Number;
    assert Row(1) == Rest(19, 5, 1, 3, 19, 13);
    assert Row(2) == Rest(15, 10, 2, 6, 15, 26);
    assert Row(3) == Rest(30, 20, 4, 12, 30, 29);
    assert Row(4) == Rest(21, 1, 8, 24, 21, 19);
    NumberOfSix(29, 22, 20, 21, 29, 18);
    NumberOfSix(19, 5, 1, 3, 19, 13);
    NumberOfSix(15, 10, 2, 6, 15, 26);
    NumberOfSix(30, 20, 4, 12, 30, 29);
    NumberOfSix(21, 1, 8, 24, 21, 19);
  }

  function Digit(bit: bool): nat {
    if bit then 1 else 0
  }

  lemma OneMoreDigit(v: nat, n: nat, bit: bool)
    ensures Low(2 * v + Digit(bit), n + 1) == Low(v, n) + [bit] && Low(v, 0) == []
  {
  }

  lemma LowOfBits(b4: bool, b3: bool, b2: bool, b1: bool, b0: bool)
    ensures Low(16 * Digit(b4) + 8 * Digit(b3) + 4 * Digit(b2) + 2 * Digit(b1) + Digit(b0), 5) == [b4, b3, b2, b1, b0]
  {
    hide Low, Digit;
    var v3 := 2 * Digit(b4) + Digit(b3);
    var v2 := 2 * v3 + Digit(b2);
    OneMoreDigit(0, 0, b4);
    OneMoreDigit(Digit(b4), 1, b3);
    OneMoreDigit(v3, 2, b2);
    OneMoreDigit(v2, 3, b1);
    OneMoreDigit(2 * v2 + Digit(b1), 4, b0);
  }

  lemma ValueBits(a: bv5)
    ensures Low(Value(a), 5) == BitsOf(a)
  {
    hide Low;
    LowOfBits(a & 16 != 0, a & 8 != 0, a & 4 != 0, a & 2 != 0, a & 1 != 0);
  }

  lemma GeneratorNumber(t: nat)
    requires t < 5
    ensures GEN[t] == Number(Values(Row(t)))
  {
    hide Number, Row, Values;
    RowsAre();
  }

  lemma GeneratorRow(t: nat, j: nat)
    requires t < 5 && j < 6
    ensures Coefficient(Gens()[t], j) == BitsOf(Row(t).Coefficient(j))
  {
    hide Low, Number, Coefficient, W, BitsOf, Value, Row;
    GeneratorNumber(t);
    NumberCoefficient(Values(Row(t)), j);
    ValueBits(Row(t).Coefficient(j));
  }

  // ---- One step ----

  lemma WhenAt(bit: bool, a: bv5, i: nat)
    ensures BitAt(When(bit, a), i) == (bit && BitAt(a, i))
  {
  }

  lemma PartAt(a: bv5, b: bv5, k: nat, i: nat)
    requires k < 5
    ensures BitAt(Part(a, b, k + 1), i) == (BitAt(Part(a, b, k), i) != (BitAt(a, 4 - k) && BitAt(Multiple(b, k), i)))
  {
    hide BitAt, When, Plus, Multiple;
    WhenAt(BitAt(a, 4 - k), Multiple(b, k), i);
    XorAt(Part(a, b, k), When(BitAt(a, 4 - k), Multiple(b, k)), i);
  }

  lemma NoPart(a: bv5, b: bv5, i: nat)
    ensures !BitAt(Part(a, b, 0), i)
  {
  }

  lemma TimesAt(a: bv5, b: bv5, i: nat)
    ensures BitAt(Times(a, b), i) ==
            ((BitAt(a, 4) && BitAt(Multiple(b, 0), i)) != ((BitAt(a, 3) && BitAt(Multiple(b, 1), i)) !=
            ((BitAt(a, 2) && BitAt(Multiple(b, 2), i)) != ((BitAt(a, 1) && BitAt(Multiple(b, 3), i)) != (BitAt(a, 0) && BitAt(Multiple(b, 4), i))))))
  {
    hide BitAt, Part, Multiple;
    NoPart(a, b, i);
    PartAt(a, b, 0, i);
    PartAt(a, b, 1, i);
    PartAt(a, b, 2, i);
    PartAt(a, b, 3, i);
    PartAt(a, b, 4, i);
  }

  /** The bit the selected generators contribute is the bit of a product. */
  lemma SelectedIsProduct(chk: Word, r: Rest, j: nat, i: nat)
    requires Spells(chk, r) && j < 6 && i < 5
    ensures Selected(Gens(), chk, 2 + 5 * j + i) == BitAt(Times(r.c5, GENERATOR.Coefficient(j)), i)
  {
    hide Gens, Times, Multiple, BitAt;
    TimesAt(r.c5, GENERATOR.Coefficient(j), i);
    assert Coefficient(chk, 0) == BitsOf(r.Coefficient(0));
    forall k | 0 <= k < 5
      ensures chk[2 + k] == BitAt(r.c5, k)
    {
      assert Coefficient(chk, 0)[k] == chk[2 + k];
    }
    forall t | 0 <= t < 5
      ensures Gens()[t][2 + 5 * j + i] == BitAt(Row(t).Coefficient(j), i)
    {
      GeneratorRow(t, j);
      assert Coefficient(Gens()[t], j)[i] == Gens()[t][2 + 5 * j + i];
    }
  }

  function Symbol(v: bv5): Word {
    Zeros(27) + BitsOf(v)
  }

  lemma NextCoefficient(r: Rest, v: bv5, j: nat)
    requires j < 6
    ensures r.Next(v).Coefficient(j) == Plus(if j < 5 then r.Coefficient(j + 1) else v, Times(r.c5, GENERATOR.Coefficient(j)))
  {
    hide Times, Plus;
  }

  /** A step of the checksum divides by the generator: the word of a remainder becomes the word of the next. */
  lemma StepDivides(chk: Word, r: Rest, v: bv5)
    requires Spells(chk, r)
    ensures Spells(Step(chk, Symbol(v)), r.Next(v))
  {
    hide Step, Gens, Times, BitAt, Selected, Rest.Next, Plus;
    var w := Step(chk, Symbol(v));
    StepIs(chk, Symbol(v));
    StepIs30(chk, Symbol(v));
    forall j | 0 <= j < 6
      ensures Coefficient(w, j) == BitsOf(r.Next(v).Coefficient(j))
    {
      NextCoefficient(r, v, j);
      var before, product := if j < 5 then r.Coefficient(j + 1) else v, Times(r.c5, GENERATOR.Coefficient(j));
      XorBits(before, product);
      forall i | 0 <= i < 5
        ensures Coefficient(w, j)[i] == Xor(BitsOf(before), BitsOf(product))[i]
      {
        assert Coefficient(w, j)[i] == w[2 + 5 * j + i];
        SelectedIsProduct(chk, r, j, i);
        if j < 5 {
          assert Coefficient(chk, j + 1) == BitsOf(before) && Coefficient(chk, j + 1)[i] == chk[2 + 5 * j + i + 5];
        }
      }
      assert Coefficient(w, j) == Xor(BitsOf(before), BitsOf(product));
    }
  }

  lemma SymbolIs(v: bv5)
    ensures W(Value(v)) == Symbol(v)
  {
    hide Low, Value, BitAt;
    Pow2Values();
    LowExtends(Value(v), WIDTH, 5);
    ValueBits(v);
  }

  function ValuesOf(values: seq<bv5>): (r: seq<nat>)
    ensures |r| == |values| && Below(r, 32)
  {
    seq(|values|, i requires 0 <= i < |values| => Value(values[i]))
  }

  lemma OneSpells()
    ensures Spells(Mask(1), ONE)
  {
  }

  /** The checksum is the remainder of the values, after a leading one, by the generator polynomial. */
  lemma {:induction false} PolymodDivides(values: seq<bv5>)
    ensures Spells(PolymodOf(ValuesOf(values)), Divide(ONE, values))
  {
    hide Step, Spells, Value, W, Rest.Next;
    if values == [] {
      OneSpells();
    } else {
      var n := |values| - 1;
      PolymodDivides(values[..n]);
      DivideLast(ONE, values[..n], values[n]);
      assert values == values[..n] + [values[n]];
      assert ValuesOf(values)[..n] == ValuesOf(values[..n]);
      SymbolIs(values[n]);
      StepDivides(PolymodOf(ValuesOf(values[..n])), Divide(ONE, values[..n]), values[n]);
    }
  }

  lemma SpellsOnce(a: Word, b: Word, r: Rest)
    requires Spells(a, r) && Spells(b, r)
    ensures a == b
  {
    hide BitsOf;
    forall i | 2 <= i < WIDTH
      ensures a[i] == b[i]
    {
      var j, k := (i - 2) / 5, (i - 2) % 5;
      assert i == 2 + 5 * j + k && 0 <= j < 6;
      assert Coefficient(a, j) == Coefficient(b, j);
      assert Coefficient(a, j)[k] == a[2 + 5 * j + k];
      assert Coefficient(b, j)[k] == b[2 + 5 * j + k];
    }
  }

  // ---- Strings the standard lists as valid ----

  /** The multiple of an element whose doubles are given. */
  function Chosen(a: bv5, b: bv5, b2: bv5, b4: bv5, b8: bv5, b16: bv5): bv5 {
    Picked(a & 1 != 0, b, a & 2 != 0, b2, a & 4 != 0, b4, a & 8 != 0, b8, a & 16 != 0, b16)
  }

  function Picked(p: bool, b: bv5, p2: bool, b2: bv5, p4: bool, b4: bv5, p8: bool, b8: bv5, p16: bool, b16: bv5): bv5 {
    When(p, b) ^ When(p2, b2) ^ When(p4, b4) ^ When(p8, b8) ^ When(p16, b16)
  }

  function Mixed(r: Rest, v: bv5, m5: bv5, m4: bv5, m3: bv5, m2: bv5, m0: bv5): Rest {
    Rest(r.c4 ^ m5, r.c3 ^ m4, r.c2 ^ m3, r.c1 ^ m2, r.c0 ^ m5, v ^ m0)
  }

  function Following(r: Rest, v: bv5): Rest {
    Mixed(r, v, Chosen(r.c5, 29, 19, 15, 30, 21), Chosen(r.c5, 22, 5, 10, 20, 1), Chosen(r.c5, 20, 1, 2, 4, 8),
          Chosen(r.c5, 21, 3, 6, 12, 24), Chosen(r.c5, 18, 13, 26, 29, 19))
  }

  function Dividing(r: Rest, values: seq<bv5>): Rest
    decreases |values|
  {
    if values == [] then r else Dividing(Following(r, values[0]), values[1..])
  }

  lemma MaskBits(a: bv5)
    ensures BitAt(a, 0) == (a & 16 != 0) && BitAt(a, 1) == (a & 8 != 0) && BitAt(a, 2) == (a & 4 != 0)
    ensures BitAt(a, 3) == (a & 2 != 0) && BitAt(a, 4) == (a & 1 != 0)
  {
  }

  lemma FivePlus(a: bv5, b: bv5, c: bv5, d: bv5, e: bv5)
    ensures a ^ b ^ c ^ d ^ e == Plus(Plus(Plus(Plus(a, b), c), d), e)
  {
  }

  lemma PickedIs(p: bool, b: bv5, p2: bool, b2: bv5, p4: bool, b4: bv5, p8: bool, b8: bv5, p16: bool, b16: bv5)
    ensures Picked(p, b, p2, b2, p4, b4, p8, b8, p16, b16) ==
            Plus(Plus(Plus(Plus(When(p, b), When(p2, b2)), When(p4, b4)), When(p8, b8)), When(p16, b16))
  {
    hide When, Plus;
    FivePlus(When(p, b), When(p2, b2), When(p4, b4), When(p8, b8), When(p16, b16));
  }

  lemma ChosenIs(b: bv5, b2: bv5, b4: bv5, b8: bv5, b16: bv5, a: bv5)
    ensures Chosen(a, b, b2, b4, b8, b16) ==
            Plus(Plus(Plus(Plus(When(BitAt(a, 4), b), When(BitAt(a, 3), b2)), When(BitAt(a, 2), b4)), When(BitAt(a, 1), b8)), When(BitAt(a, 0), b16))
  {
    hide When, Plus, BitAt, Picked;
    MaskBits(a);
    PickedIs(BitAt(a, 4), b, BitAt(a, 3), b2, BitAt(a, 2), b4, BitAt(a, 1), b8, BitAt(a, 0), b16);
  }

  lemma DoublesOf(b: bv5, b2: bv5, b4: bv5, b8: bv5, b16: bv5, a: bv5)
    requires b2 == Twice(b) && b4 == Twice(b2) && b8 == Twice(b4) && b16 == Twice(b8)
    ensures Times(a, b) == Chosen(a, b, b2, b4, b8, b16)
  {
    hide BitAt, When, Twice, Part, Multiple, Plus, Chosen;
    ChosenIs(b, b2, b4, b8, b16, a);
    PartIs(a, b, 0);
    PartIs(a, b, 1);
    PartIs(a, b, 2);
    PartIs(a, b, 3);
    PartIs(a, b, 4);
    PlusNothing(When(BitAt(a, 4), b));
  }

  lemma PartIs(a: bv5, b: bv5, k: nat)
    requires k < 5
    ensures Part(a, b, k + 1) == Plus(Part(a, b, k), When(BitAt(a, 4 - k), Multiple(b, k))) && Multiple(b, k + 1) == Twice(Multiple(b, k))
    ensures Part(a, b, 0) == 0 && Multiple(b, 0) == b
  {
    hide BitAt, When, Plus, Twice;
  }

  lemma PlusNothing(a: bv5)
    ensures Plus(0, a) == a
  {
  }

  lemma TimesGenerator(a: bv5)
    ensures Times(a, 29) == Chosen(a, 29, 19, 15, 30, 21) && Times(a, 22) == Chosen(a, 22, 5, 10, 20, 1)
    ensures Times(a, 20) == Chosen(a, 20, 1, 2, 4, 8) && Times(a, 21) == Chosen(a, 21, 3, 6, 12, 24)
    ensures Times(a, 18) == Chosen(a, 18, 13, 26, 29, 19)
  {
    hide Times, Chosen;
    DoublesOf(29, 19, 15, 30, 21, a);
    DoublesOf(22, 5, 10, 20, 1, a);
    DoublesOf(20, 1, 2, 4, 8, a);
    DoublesOf(21, 3, 6, 12, 24, a);
    DoublesOf(18, 13, 26, 29, 19, a);
  }

  lemma MixedIs(r: Rest, v: bv5, m5: bv5, m4: bv5, m3: bv5, m2: bv5, m0: bv5)
    ensures Mixed(r, v, m5, m4, m3, m2, m0) ==
            Rest(Plus(r.c4, m5), Plus(r.c3, m4), Plus(r.c2, m3), Plus(r.c1, m2), Plus(r.c0, m5), Plus(v, m0))
  {
  }

  lemma FollowingIs(r: Rest, v: bv5)
    ensures Following(r, v) == r.Next(v)
  {
    hide Times, Chosen, Plus, Mixed;
    TimesGenerator(r.c5);
    MixedIs(r, v, Times(r.c5, 29), Times(r.c5, 22), Times(r.c5, 20), Times(r.c5, 21), Times(r.c5, 18));
  }

  lemma {:induction false} DividingIs(r: Rest, values: seq<bv5>)
    ensures Dividing(r, values) == Divide(r, values)
    decreases |values|
  {
    hide Following, Rest.Next;
    if values != [] {
      FollowingIs(r, values[0]);
      DividingIs(r.Next(values[0]), values[1..]);
    }
  }

  lemma {:induction false} DividingConcat(r: Rest, a: seq<bv5>, b: seq<bv5>)
    ensures Dividing(r, a + b) == Dividing(Dividing(r, a), b)
    decreases |a|
  {
    hide Following;
    if a == [] {
      assert a + b == b;
    } else {
      assert (a + b)[1..] == a[1..] + b;
      DividingConcat(Following(r, a[0]), a[1..], b);
    }
  }

  lemma RemainderOne(values: seq<bv5>)
    requires Dividing(Rest(0, 0, 0, 0, 0, 1), values) == Rest(0, 0, 0, 0, 0, 1)
    ensures PolymodOf(ValuesOf(values)) == Mask(1)
  {
    hide Divide, Dividing, Value, PolymodOf, Mask, Spells;
    DividingIs(Rest(0, 0, 0, 0, 0, 1), values);
    PolymodDivides(values);
    OneSpells();
    SpellsOnce(PolymodOf(ValuesOf(values)), Mask(1), ONE);
  }

  /** A string is accepted when the remainder of its expanded prefix and its data is one. */
  lemma Accepted(hrp: string, expanded: seq<bv5>, data: seq<bv5>)
    requires hrp != "" && |data| >= 6 && ExpandOf(hrp) == ValuesOf(expanded)
    requires Dividing(Rest(0, 0, 0, 0, 0, 1), expanded + data) == Rest(0, 0, 0, 0, 0, 1)
    ensures HrpOf(Join(hrp, Letters(ValuesOf(data)))) == Some(hrp)
  {
    hide Dividing, Value, PolymodOf, Mask, HrpOf, ExpandOf, Letters;
    RemainderOne(expanded + data);
    assert ValuesOf(expanded + data) == ExpandOf(hrp) + ValuesOf(data);
    ClosedAccepted(hrp, ValuesOf(data));
  }

  lemma ShortData()
    ensures Dividing(Rest(0, 0, 0, 0, 0, 1), [3, 0, 1, 10, 28, 25, 31, 20, 31]) == Rest(0, 0, 0, 0, 0, 1)
  {
  }

  lemma ShortParts()
    ensures ExpandOf("a") == [3, 0, 1] == ValuesOf([3, 0, 1]) && ValuesOf([10, 28, 25, 31, 20, 31]) == [10, 28, 25, 31, 20, 31]
  {
  }

  lemma ShortString()
    ensures HrpOf("a12uel5l") == Some("a")
  {
    hide HrpOf, Dividing, ValuesOf, ExpandOf;
    var expanded: seq<bv5>, data: seq<bv5> := [3, 0, 1], [10, 28, 25, 31, 20, 31];
    ShortData();
    ShortParts();
    assert expanded + data == [3, 0, 1, 10, 28, 25, 31, 20, 31];
    assert Join("a", Letters([10, 28, 25, 31, 20, 31])) == "a12uel5l";
    Accepted("a", expanded, data);
  }

  lemma Numbers()
    ensures Value(0) == 0 && Value(1) == 1 && Value(2) == 2 && Value(3) == 3
    ensures Value(4) == 4 && Value(5) == 5 && Value(6) == 6 && Value(7) == 7
    ensures Value(8) == 8 && Value(9) == 9 && Value(10) == 10 && Value(11) == 11
    ensures Value(12) == 12 && Value(13) == 13 && Value(14) == 14 && Value(15) == 15
    ensures Value(16) == 16 && Value(17) == 17 && Value(18) == 18 && Value(19) == 19
    ensures Value(20) == 20 && Value(21) == 21 && Value(22) == 22 && Value(23) == 23
    ensures Value(24) == 24 && Value(25) == 25 && Value(26) == 26 && Value(27) == 27
    ensures Value(28) == 28 && Value(29) == 29 && Value(30) == 30 && Value(31) == 31
  {
  }

  lemma Run0()
    ensures Dividing(Rest(0, 0, 0, 0, 0, 1), [3, 3, 3, 3, 3, 3, 0, 1, 2, 3, 4, 5, 6]) == Rest(29, 30, 16, 3, 19, 10)
  {
  }

  lemma PrefixParts()
    ensures ExpandOf("abcdef") == [3, 3, 3, 3, 3, 3, 0, 1, 2, 3, 4, 5, 6] == ValuesOf([3, 3, 3, 3, 3, 3, 0, 1, 2, 3, 4, 5, 6])
  {
  }

  lemma Run1()
    ensures Dividing(Rest(29, 30, 16, 3, 19, 10), [0, 1, 2, 3, 4]) == Rest(20, 13, 22, 25, 29, 19)
  {
  }

  lemma Values1()
    ensures ValuesOf([0, 1, 2, 3, 4]) == [0, 1, 2, 3, 4]
  {
    hide Value;
    Numbers();
  }

  lemma Letters1()
    ensures Letters([0, 1, 2, 3, 4]) == "qpzry"
  {
  }

  lemma Run2()
    ensures Dividing(Rest(20, 13, 22, 25, 29, 19), [5, 6, 7, 8, 9, 10, 11, 12, 13, 14, 15, 16]) == Rest(25, 17, 3, 8, 1, 30)
  {
  }

  lemma Values2()
    ensures ValuesOf([5, 6, 7, 8, 9, 10, 11, 12, 13, 14, 15, 16]) == [5, 6, 7, 8, 9, 10, 11, 12, 13, 14, 15, 16]
  {
    hide Value;
    Numbers();
  }

  lemma Letters2()
    ensures Letters([5, 6, 7, 8, 9, 10, 11, 12, 13, 14, 15, 16]) == "9x8gf2tvdw0s"
  {
  }

  lemma Run3()
    ensures Dividing(Rest(25, 17, 3, 8, 1, 30), [17, 18, 19, 20, 21, 22, 23, 24, 25, 26, 27, 28]) == Rest(4, 24, 10, 13, 18, 23)
  {
  }

  lemma Values3()
    ensures ValuesOf([17, 18, 19, 20, 21, 22, 23, 24, 25, 26, 27, 28]) == [17, 18, 19, 20, 21, 22, 23, 24, 25, 26, 27, 28]
  {
    hide Value;
    Numbers();
  }

  lemma Letters3()
    ensures Letters([17, 18, 19, 20, 21, 22, 23, 24, 25, 26, 27, 28]) == "3jn54khce6mu"
  {
  }

  lemma Run4()
    ensures Dividing(Rest(4, 24, 10, 13, 18, 23), [29, 30, 31, 27, 0, 0, 0, 6, 14]) == Rest(0, 0, 0, 0, 0, 1)
  {
  }

  lemma Values4()
    ensures ValuesOf([29, 30, 31, 27, 0, 0, 0, 6, 14]) == [29, 30, 31, 27, 0, 0, 0, 6, 14]
  {
    hide Value;
    Numbers();
  }

  lemma Letters4()
    ensures Letters([29, 30, 31, 27, 0, 0, 0, 6, 14]) == "a7lmqqqxw"
  {
  }

  lemma LettersConcat(a: seq<bv5>, b: seq<bv5>)
    ensures Letters(ValuesOf(a + b)) == Letters(ValuesOf(a)) + Letters(ValuesOf(b))
  {
    assert ValuesOf(a + b) == ValuesOf(a) + ValuesOf(b);
  }

  lemma AlphabetRuns(h: seq<bv5>, a: seq<bv5>, b: seq<bv5>, c: seq<bv5>, d: seq<bv5>)
    requires h == [3, 3, 3, 3, 3, 3, 0, 1, 2, 3, 4, 5, 6] && a == [0, 1, 2, 3, 4] && b == [5, 6, 7, 8, 9, 10, 11, 12, 13, 14, 15, 16]
    requires c == [17, 18, 19, 20, 21, 22, 23, 24, 25, 26, 27, 28] && d == [29, 30, 31, 27, 0, 0, 0, 6, 14]
    ensures Dividing(Rest(0, 0, 0, 0, 0, 1), h + (a + b + c + d)) == Rest(0, 0, 0, 0, 0, 1)
    ensures Letters(ValuesOf(a + b + c + d)) == "qpzry" + "9x8gf2tvdw0s" + "3jn54khce6mu" + "a7lmqqqxw"
  {
    hide Dividing, Letters, ValuesOf, ExpandOf;
    Run0();
    Run1();
    Run2();
    Run3();
    Run4();
    var one := Rest(0, 0, 0, 0, 0, 1);
    DividingConcat(one, h, a);
    DividingConcat(one, h + a, b);
    DividingConcat(one, h + a + b, c);
    DividingConcat(one, h + a + b + c, d);
    assert h + (a + b + c + d) == h + a + b + c + d;
    Values1();
    Letters1();
    Values2();
    Letters2();
    Values3();
    Letters3();
    Values4();
    Letters4();
    LettersConcat(a, b);
    LettersConcat(a + b, c);
    LettersConcat(a + b + c, d);
  }

  /** A valid string with every letter of the alphabet, in order. */
  lemma AlphabetString()
    ensures HrpOf(Join("abcdef", "qpzry" + "9x8gf2tvdw0s" + "3jn54khce6mu" + "a7lmqqqxw")) == Some("abcdef")
  {
    hide HrpOf, Dividing, ValuesOf, ExpandOf, Letters, Join;
    var h: seq<bv5>, a: seq<bv5> := [3, 3, 3, 3, 3, 3, 0, 1, 2, 3, 4, 5, 6], [0, 1, 2, 3, 4];
    var b: seq<bv5> := [5, 6, 7, 8, 9, 10, 11, 12, 13, 14, 15, 16];
    var c: seq<bv5>, d: seq<bv5> := [17, 18, 19, 20, 21, 22, 23, 24, 25, 26, 27, 28], [29, 30, 31, 27, 0, 0, 0, 6, 14];
    PrefixParts();
    AlphabetRuns(h, a, b, c, d);
    Accepted("abcdef", h, a + b + c + d);
  }
}
