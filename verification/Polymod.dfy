/** The BCH checksum of BIP-173 over 32-bit words, and the errors it is sure to catch. */
module Polymod {
  import opened Words

  const GEN: seq<nat> := [0x3b6a57b2, 0x26508e6d, 0x1ea119fa, 0x3d4233dd, 0x2a1462b3]

  /** `chk` after the first `i` rounds of the generator loop. */
  function Generated(chk: Word, top: Word, i: nat): Word
    requires i <= 5
  {
    if i == 0 then chk
    else
      var c := Generated(chk, top, i - 1);
      if Shr(top, i - 1)[WIDTH - 1] then Xor(c, W(GEN[i - 1])) else c
  }

  lemma NoRounds(chk: Word, top: Word)
    ensures Generated(chk, top, 0) == chk
  {
  }

  lemma OneRound(chk: Word, top: Word, i: nat)
    requires i < 5
    ensures var c := Generated(chk, top, i);
            Generated(chk, top, i + 1) == if Shr(top, i)[WIDTH - 1] then Xor(c, W(GEN[i])) else c
  {
    hide Low;
  }

  function Step(chk: Word, v: Word): Word {
    Generated(Xor(Shl(And(chk, Mask(25)), 5), v), Shr(chk, 25), 5)
  }

  function Fold(chk: Word, values: seq<nat>): Word {
    if values == [] then chk else Step(Fold(chk, values[..|values| - 1]), W(values[|values| - 1]))
  }

  function PolymodOf(values: seq<nat>): Word {
    Fold(Mask(1), values)
  }

  method Polymod(values: seq<nat>) returns (chk: Word)
    ensures chk == PolymodOf(values)
  {
    hide Low, Mask, Generated;
    Literals();
    chk := W(1);
    for n := 0 to |values|
      invariant chk == Fold(Mask(1), values[..n])
    {
      assert values[..n + 1][..n] == values[..n];
      var top := Shr(chk, 25);
      chk := Xor(Shl(And(chk, W(0x1ffffff)), 5), W(values[n]));
      ghost var base := chk;
      NoRounds(base, top);
      for i := 0 to 5
        invariant chk == Generated(base, top, i)
      {
        OneRound(base, top, i);
        if Shr(top, i)[WIDTH - 1] {
          chk := Xor(chk, W(GEN[i]));
        }
      }
    }
    assert values[..|values|] == values;
  }

  /** The checksum lives in 30 bits. */
  predicate Is30(w: Word) {
    !w[0] && !w[1]
  }

  function WordsOf(xs: seq<nat>): seq<Word> {
    seq(|xs|, i requires 0 <= i < |xs| => W(xs[i]))
  }

  /** The generators as words. */
  function Gens(): (gs: seq<Word>)
    ensures |gs| == 5
  {
    WordsOf(GEN)
  }

  /** The bit that the generators selected by the top five bits of `chk` contribute at `i`. */
  predicate Selected(gs: seq<Word>, chk: Word, i: nat)
    requires |gs| == 5 && i < WIDTH
  {
    (chk[6] && gs[0][i]) != ((chk[5] && gs[1][i]) != ((chk[4] && gs[2][i]) != ((chk[3] && gs[3][i]) != (chk[2] && gs[4][i]))))
  }

  /** `r` is a step of `chk` with `v`: shifted word, symbol and selected generators, bit by bit. */
  predicate IsStep(gs: seq<Word>, chk: Word, v: Word, r: Word)
    requires |gs| == 5
  {
    forall i | 0 <= i < WIDTH :: r[i] == ((2 <= i < 27 && chk[i + 5]) != (v[i] != Selected(gs, chk, i)))
  }

  lemma GeneratedAt(c: Word, top: Word, n: nat, i: nat)
    requires 0 < n <= 5 && i < WIDTH
    ensures Generated(c, top, n)[i] == (Generated(c, top, n - 1)[i] != (top[WIDTH - n] && Gens()[n - 1][i]))
  {
  }

  lemma GeneratedNone(c: Word, top: Word)
    ensures Generated(c, top, 0) == c
  {
  }

  lemma StepIs(chk: Word, v: Word)
    ensures IsStep(Gens(), chk, v, Step(chk, v))
  {
    hide Generated, Gens;
    Pow2Values();
    var top := Shr(chk, 25);
    var base := Xor(Shl(And(chk, Mask(25)), 5), v);
    GeneratedNone(base, top);
    forall i | 0 <= i < WIDTH
      ensures Generated(base, top, 5)[i] == ((2 <= i < 27 && chk[i + 5]) != (v[i] != Selected(Gens(), chk, i)))
    {
      assert base[i] == ((2 <= i < 27 && chk[i + 5]) != v[i]);
      GeneratedAt(base, top, 1, i);
      GeneratedAt(base, top, 2, i);
      GeneratedAt(base, top, 3, i);
      GeneratedAt(base, top, 4, i);
      GeneratedAt(base, top, 5, i);
    }
  }

  lemma SelectedLinear(gs: seq<Word>, a: Word, b: Word, i: nat)
    requires |gs| == 5 && i < WIDTH
    ensures Selected(gs, Xor(a, b), i) == (Selected(gs, a, i) != Selected(gs, b, i))
  {
  }

  lemma LinearBits(gs: seq<Word>, a: Word, v: Word, b: Word, w: Word, ra: Word, rb: Word, r: Word)
    requires |gs| == 5
    requires IsStep(gs, a, v, ra) && IsStep(gs, b, w, rb) && IsStep(gs, Xor(a, b), Xor(v, w), r)
    ensures r == Xor(ra, rb)
  {
    forall i | 0 <= i < WIDTH
      ensures r[i] == Xor(ra, rb)[i]
    {
      SelectedLinear(gs, a, b, i);
    }
  }

  lemma StepLinear(a: Word, v: Word, b: Word, w: Word)
    ensures Step(Xor(a, b), Xor(v, w)) == Xor(Step(a, v), Step(b, w))
  {
    StepIs(a, v);
    StepIs(b, w);
    StepIs(Xor(a, b), Xor(v, w));
    LinearBits(Gens(), a, v, b, w, Step(a, v), Step(b, w), Step(Xor(a, b), Xor(v, w)));
  }

  /** Every generator fits 30 bits, and their last five bits are independent. */
  predicate GoodGens(gs: seq<Word>) {
    && |gs| == 5
    && (forall j | 0 <= j < 5 :: Is30(gs[j]))
    && gs[0][27..] == [true, false, false, true, false]
    && gs[1][27..] == [false, true, true, false, true]
    && gs[2][27..] == [true, true, false, true, false]
    && gs[3][27..] == [true, true, true, false, true]
    && gs[4][27..] == [true, false, false, true, true]
  }

  lemma GensGood()
    ensures GoodGens(Gens())
  {
    GoodNumbers(GEN);
  }

  lemma GoodNumbers(xs: seq<nat>)
    requires |xs| == 5 && Below(xs, 0x40000000)
    requires xs[0] % 32 == 0x12 && xs[1] % 32 == 0x0d && xs[2] % 32 == 0x1a && xs[3] % 32 == 0x1d && xs[4] % 32 == 0x13
    ensures GoodGens(WordsOf(xs))
  {
    hide W;
    forall j | 0 <= j < 5
      ensures Is30(W(xs[j])) && W(xs[j])[27..] == Low(xs[j] % 32, 5)
    {
      GoodNumber(xs[j]);
    }
  }

  lemma GoodNumber(x: nat)
    requires x < 0x40000000
    ensures Is30(W(x)) && W(x)[27..] == Low(x % 32, 5)
  {
    hide Low;
    Pow2Values();
    LowExtends(x, WIDTH, 30);
    LastFive(x);
  }

  lemma LastFive(x: nat)
    ensures W(x)[27..] == Low(x % 32, 5)
  {
    LowTail(x, WIDTH, 5);
    Pow2Values();
    LowPlus(x % 32, x / 32, 5);
  }

  lemma StepIs30(chk: Word, v: Word)
    requires Is30(v)
    ensures Is30(Step(chk, v))
  {
    GensGood();
    StepIs(chk, v);
  }

  lemma {:induction false} FoldIs30(chk: Word, values: seq<nat>)
    requires Is30(chk) && Below(values, 0x40000000)
    ensures Is30(Fold(chk, values))
  {
    if values != [] {
      var n := |values| - 1;
      FoldIs30(chk, values[..n]);
      Pow2Values();
      LowExtends(values[n], WIDTH, 30);
      StepIs30(Fold(chk, values[..n]), W(values[n]));
    }
  }

  /** A step loses nothing: only the zero word steps to zero. */
  lemma StepInjective(gs: seq<Word>, a: Word)
    requires GoodGens(gs) && Is30(a) && IsStep(gs, a, Zeros(WIDTH), Zeros(WIDTH))
    ensures a == Zeros(WIDTH)
  {
    forall i | 27 <= i < WIDTH
      ensures !Selected(gs, a, i)
    {
    }
    assert gs[0][27] && gs[0][30] && gs[1][28] && gs[1][29] && gs[1][31];
    assert forall j, i | 0 <= j < 5 && 27 <= i < WIDTH :: gs[j][i] == gs[j][27..][i - 27];
    TopClear(gs, a);
    forall i {:trigger a[i]} | 7 <= i < WIDTH
      ensures !a[i]
    {
      assert !Selected(gs, a, i - 5);
    }
  }

  lemma TopClear(gs: seq<Word>, a: Word)
    requires GoodGens(gs) && forall i | 27 <= i < WIDTH :: !Selected(gs, a, i)
    ensures !a[2] && !a[3] && !a[4] && !a[5] && !a[6]
  {
    assert !Selected(gs, a, 27) && !Selected(gs, a, 28) && !Selected(gs, a, 29) && !Selected(gs, a, 30) && !Selected(gs, a, 31);
    forall j, i | 0 <= j < 5 && 27 <= i < WIDTH ensures gs[j][i] == gs[j][27..][i - 27] {}
  }

  lemma StepSeparates(a: Word, b: Word, v: Word)
    requires Is30(a) && Is30(b) && a != b
    ensures Step(a, v) != Step(b, v)
  {
    if Step(a, v) == Step(b, v) {
      StepIs(a, v);
      StepIs(b, v);
      StepIs(Xor(a, b), Xor(v, v));
      LinearBits(Gens(), a, v, b, v, Step(a, v), Step(b, v), Step(Xor(a, b), Xor(v, v)));
      assert Xor(v, v) == Zeros(WIDTH) && Xor(Step(a, v), Step(b, v)) == Zeros(WIDTH);
      GensGood();
      StepInjective(Gens(), Xor(a, b));
      XorZero(a, b);
      assert false;
    }
  }

  lemma XorSame(z: Bits, a: Bits, b: Bits)
    requires |z| == |a| == |b| && Xor(z, a) == Xor(z, b)
    ensures a == b
  {
    forall i {:trigger a[i]} | 0 <= i < |a| ensures a[i] == b[i] {
      assert Xor(z, a)[i] == Xor(z, b)[i];
    }
  }

  lemma XorZero(a: Bits, b: Bits)
    requires |a| == |b| && Xor(a, b) == Zeros(|a|)
    ensures a == b
  {
    forall i {:trigger a[i]} | 0 <= i < |a| ensures a[i] == b[i] {
      assert Xor(a, b)[i] == Zeros(|a|)[i];
    }
  }

  predicate Symbols5(values: seq<nat>) {
    Below(values, 32)
  }

  lemma {:induction false} FoldConcat(chk: Word, u: seq<nat>, v: seq<nat>)
    ensures Fold(chk, u + v) == Fold(Fold(chk, u), v)
  {
    if v == [] {
      assert u + v == u;
    } else {
      var n := |v| - 1;
      assert (u + v)[..|u + v| - 1] == u + v[..n];
      FoldConcat(chk, u, v[..n]);
    }
  }

  lemma {:induction false} FoldSeparates(a: Word, b: Word, values: seq<nat>)
    requires Is30(a) && Is30(b) && a != b && Symbols5(values)
    ensures Fold(a, values) != Fold(b, values)
  {
    if values != [] {
      var n := |values| - 1;
      FoldSeparates(a, b, values[..n]);
      FoldIs30(a, values[..n]);
      FoldIs30(b, values[..n]);
      StepSeparates(Fold(a, values[..n]), Fold(b, values[..n]), W(values[n]));
    }
  }

  function Nulls(n: nat): (r: seq<nat>)
    ensures |r| == n
  {
    seq(n, _ => 0)
  }

  /** A short symbol sequence as a word. */
  function SpellWord(values: seq<nat>): Word
    requires |values| <= 6
  {
    SpellLength(values, 5);
    Zeros(WIDTH - 5 * |values|) + Spell(values, 5)
  }

  /** Folding a short window from `chk` adds its spelling to folding zeros. */
  lemma {:induction false} FoldWindow(chk: Word, values: seq<nat>)
    requires |values| <= 6 && Symbols5(values)
    ensures Fold(chk, values) == Xor(Fold(chk, Nulls(|values|)), SpellWord(values))
  {
    hide Step, Xor, Low;
    var n := |values| - 1;
    if values == [] {
      XorNone(chk, SpellWord([]));
    } else {
      var s, c, v := SpellWord(values[..n]), Fold(chk, Nulls(n)), values[n];
      FoldWindow(chk, values[..n]);
      assert Nulls(n + 1)[..n] == Nulls(n);
      AddSymbol(c, s, v);
      assert s[5..] + Low(v, 5) == SpellWord(values);
    }
  }

  lemma AddSymbol(c: Word, s: Word, v: nat)
    requires v < 32 && forall i | 0 <= i < 7 :: !s[i]
    ensures Step(Xor(c, s), W(v)) == Xor(Step(c, W(0)), s[5..] + Low(v, 5))
  {
    LowZero(WIDTH);
    XorNone(W(v), W(0));
    StepLinear(c, W(0), s, W(v));
    StepShort(s, v);
  }

  lemma XorNone(a: Bits, z: Bits)
    requires |a| == |z| && z == Zeros(|a|)
    ensures Xor(a, z) == a && Xor(z, a) == a
  {
  }

  /** A step on a word whose top seven bits are clear only shifts the symbol in. */
  lemma StepShort(s: Word, v: nat)
    requires v < 32 && forall i | 0 <= i < 7 :: !s[i]
    ensures Step(s, W(v)) == s[5..] + Low(v, 5)
  {
    LowExtends(v, WIDTH, 5);
    StepIs(s, W(v));
  }

  /**
   * Burst detection: two value lists that differ only inside a window of six consecutive
   * symbols never share a checksum, whatever their length.
   */
  lemma BurstDetected(pre: seq<nat>, u: seq<nat>, v: seq<nat>, post: seq<nat>)
    requires Below(pre, 0x40000000)
    requires Symbols5(u) && Symbols5(v) && Symbols5(post)
    requires |u| == |v| <= 6 && u != v
    ensures PolymodOf(pre + u + post) != PolymodOf(pre + v + post)
  {
    hide Fold, Is30, Mask, Symbols5;
    var c := PolymodOf(pre);
    MaskIs30();
    FoldIs30(Mask(1), pre);
    FoldConcat(Mask(1), pre + u, post);
    FoldConcat(Mask(1), pre, u);
    FoldConcat(Mask(1), pre + v, post);
    FoldConcat(Mask(1), pre, v);
    SymbolsSmall(u);
    SymbolsSmall(v);
    FoldIs30(c, u);
    FoldIs30(c, v);
    WindowSeparates(c, u, v);
    FoldSeparates(Fold(c, u), Fold(c, v), post);
  }

  lemma MaskIs30()
    ensures Is30(Mask(1))
  {
  }

  lemma SymbolsSmall(u: seq<nat>)
    requires Symbols5(u)
    ensures Below(u, 0x40000000) && Below(u, 32)
  {
  }

  /** Inside the window the symbols stand side by side in the state. */
  lemma WindowSeparates(c: Word, u: seq<nat>, v: seq<nat>)
    requires Is30(c) && Symbols5(u) && Symbols5(v) && |u| == |v| <= 6 && u != v
    ensures Fold(c, u) != Fold(c, v)
  {
    hide Fold, Is30, Symbols5, Spell;
    if Fold(c, u) == Fold(c, v) {
      FoldWindow(c, u);
      FoldWindow(c, v);
      XorSame(Fold(c, Nulls(|u|)), SpellWord(u), SpellWord(v));
      SpellWordSame(u, v);
      assert false;
    }
  }

  lemma SpellWordSame(u: seq<nat>, v: seq<nat>)
    requires Symbols5(u) && Symbols5(v) && |u| == |v| <= 6 && SpellWord(u) == SpellWord(v)
    ensures u == v
  {
    hide Spell;
    SpellLength(u, 5);
    SpellLength(v, 5);
    SplitEqual(Zeros(WIDTH - 5 * |u|), Spell(u, 5), Zeros(WIDTH - 5 * |u|), Spell(v, 5));
    Pow2Values();
    var k := 5;
    SpellInjective(u, v, k);
  }

  /** The six checksum symbols of a folded state: the state's 30 bits with the last one flipped. */
  function SymbolsOf(mod: Word): (r: seq<nat>)
    ensures |r| == 6
  {
    seq(6, i requires 0 <= i < 6 => Field(mod, 5 * (5 - i), 5))
  }

  lemma SymbolAt(mod: Word, i: nat)
    requires i < 6
    ensures SymbolsOf(mod)[i] < 32 && Low(SymbolsOf(mod)[i], 5) == mod[2 + 5 * i..7 + 5 * i]
  {
    hide Low, Field;
    var n := 5 * (5 - i);
    Field5(mod, n);
    assert WIDTH - n - 5 == 2 + 5 * i;
  }

  /** Spelling the checksum symbols gives the state back. */
  lemma SymbolsSpell(mod: Word)
    requires Is30(mod)
    ensures Symbols5(SymbolsOf(mod)) && SpellWord(SymbolsOf(mod)) == mod
  {
    hide Low, Field;
    var s := SymbolsOf(mod);
    forall i {:trigger s[i]} | 0 <= i < 6
      ensures s[i] < 32 && Low(s[i], 5) == mod[2 + 5 * i..7 + 5 * i]
    {
      SymbolAt(mod, i);
    }
    SpellPrefix(s, mod, 6);
    assert s[..6] == s;
    assert Zeros(2) + mod[2..] == mod;
  }

  /** Appending the checksum symbols drives the fold to one. */
  lemma ChecksumCloses(values: seq<nat>)
    requires Below(values, 0x40000000)
    ensures var mod := Xor(PolymodOf(values + Nulls(6)), Mask(1));
            Symbols5(SymbolsOf(mod)) && PolymodOf(values + SymbolsOf(mod)) == Mask(1)
  {
    hide Fold, SymbolsOf, SpellWord, Symbols5;
    var full := PolymodOf(values + Nulls(6));
    var mod := Xor(full, Mask(1));
    MaskIs30();
    FoldIs30(Mask(1), values + Nulls(6));
    SymbolsSpell(mod);
    FoldConcat(Mask(1), values, Nulls(6));
    FoldConcat(Mask(1), values, SymbolsOf(mod));
    FoldWindow(PolymodOf(values), SymbolsOf(mod));
    assert Xor(full, mod) == Mask(1);
  }

  lemma SpellNext(s: seq<nat>, n: nat)
    requires n < |s|
    ensures Spell(s[..n + 1], 5) == Spell(s[..n], 5) + Low(s[n], 5)
  {
    hide Low;
    assert s[..n + 1][..n] == s[..n];
  }

  lemma {:induction false} SpellPrefix(s: seq<nat>, mod: Word, n: nat)
    requires |s| == 6 && n <= 6 && forall i | 0 <= i < 6 :: Low(s[i], 5) == mod[2 + 5 * i..7 + 5 * i]
    ensures Spell(s[..n], 5) == mod[2..2 + 5 * n]
  {
    hide Low;
    if n != 0 {
      SpellPrefix(s, mod, n - 1);
      var m := 2 + 5 * (n - 1);
      SpellNext(s, n - 1);
      assert Low(s[n - 1], 5) == mod[2 + 5 * (n - 1)..7 + 5 * (n - 1)];
      assert mod[2..m] + mod[m..m + 5] == mod[2..m + 5];
    }
  }
}
