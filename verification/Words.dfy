/**
 * Machine words as bit sequences, most significant bit first: the 32-bit shifts, masks and
 * exclusive or of JavaScript and Rust, wrap-around included (a left shift drops the high bits).
 */
module Words {
  import opened Seqs

  type Bits = seq<bool>

  const WIDTH: nat := 32

  type Word = w: Bits | |w| == WIDTH witness seq(WIDTH, _ => false)

  function Zeros(n: nat): (r: Bits)
    ensures |r| == n
  {
    seq(n, _ => false)
  }

  function Pow2(k: nat): (r: nat)
    ensures r > 0
  {
    if k == 0 then 1 else 2 * Pow2(k - 1)
  }

  lemma Pow2Values()
    ensures Pow2(5) == 32 && Pow2(8) == 256 && Pow2(25) == 0x2000000 && Pow2(30) == 0x40000000
  {
    assert Pow2(5) == 32;
    assert Pow2(8) == 8 * Pow2(5);
    assert Pow2(11) == 8 * Pow2(8);
    assert Pow2(14) == 8 * Pow2(11);
    assert Pow2(17) == 8 * Pow2(14);
    assert Pow2(20) == 8 * Pow2(17);
    assert Pow2(23) == 8 * Pow2(20);
    assert Pow2(25) == 4 * Pow2(23);
    assert Pow2(28) == 8 * Pow2(25);
    assert Pow2(30) == 4 * Pow2(28);
  }

  /** The low `n` bits of the number `x`. */
  function Low(x: nat, n: nat): (r: Bits)
    ensures |r| == n
  {
    if n == 0 then [] else Low(x / 2, n - 1) + [x % 2 == 1]
  }

  /** The number a bit sequence spells. */
  function Val(s: Bits): (r: nat)
    ensures r < Pow2(|s|)
  {
    if s == [] then 0 else 2 * Val(s[..|s| - 1]) + (if s[|s| - 1] then 1 else 0)
  }

  lemma {:induction false} ValLow(x: nat, n: nat)
    requires x < Pow2(n)
    ensures Val(Low(x, n)) == x
  {
    if n != 0 {
      ValLow(x / 2, n - 1);
      assert Low(x, n)[..n - 1] == Low(x / 2, n - 1);
    }
  }

  lemma {:induction false} LowVal(s: Bits)
    ensures Low(Val(s), |s|) == s
  {
    if s != [] {
      LowVal(s[..|s| - 1]);
    }
  }

  /** Zero extension does not change the low bits. */
  lemma {:induction false} LowExtends(x: nat, n: nat, k: nat)
    requires x < Pow2(k) && k <= n
    ensures Low(x, n) == Zeros(n - k) + Low(x, k)
  {
    if k == 0 {
      LowZero(n);
    } else {
      LowExtends(x / 2, n - 1, k - 1);
    }
  }

  /** Bits above the `k`-th do not matter to `Low(_, k)`. */
  lemma {:induction false} LowPlus(x: nat, q: nat, k: nat)
    ensures Low(q * Pow2(k) + x, k) == Low(x, k)
  {
    if k != 0 {
      var p := q * Pow2(k - 1);
      assert q * Pow2(k) + x == 2 * p + x;
      LowPlus(x / 2, q, k - 1);
    }
  }

  lemma {:induction false} LowTail(x: nat, n: nat, k: nat)
    requires k <= n
    ensures Low(x, n)[n - k..] == Low(x, k)
  {
    if k != 0 {
      LowTail(x / 2, n - 1, k - 1);
    }
  }

  lemma {:induction false} LowZero(n: nat)
    ensures Low(0, n) == Zeros(n)
  {
    if n != 0 { LowZero(n - 1); }
  }

  function W(x: nat): Word {
    Low(x, WIDTH)
  }

  function Shl(w: Word, k: nat): Word
    requires k <= WIDTH
  {
    w[k..] + Zeros(k)
  }

  function Shr(w: Word, k: nat): Word
    requires k <= WIDTH
  {
    Zeros(k) + w[..WIDTH - k]
  }

  function Xor(a: Bits, b: Bits): (r: Bits)
    requires |a| == |b|
    ensures |r| == |a|
  {
    seq(|a|, i requires 0 <= i < |a| => a[i] != b[i])
  }

  function And(a: Word, b: Word): Word {
    seq(WIDTH, i requires 0 <= i < WIDTH => a[i] && b[i])
  }

  function Or(a: Word, b: Word): Word {
    seq(WIDTH, i requires 0 <= i < WIDTH => a[i] || b[i])
  }

  lemma {:induction false} LowOnes(x: nat, k: nat)
    requires x == Pow2(k) - 1
    ensures Low(x, k) == seq(k, _ => true)
  {
    if k != 0 {
      assert x == 2 * (Pow2(k - 1) - 1) + 1;
      LowOnes(x / 2, k - 1);
    }
  }

  /** The word 2^k - 1. */
  function Mask(k: nat): Word
    requires k <= WIDTH
  {
    seq(WIDTH, i requires 0 <= i < WIDTH => i >= WIDTH - k)
  }

  lemma MaskIsNumber(x: nat, k: nat)
    requires x == Pow2(k) - 1 && k <= WIDTH
    ensures Mask(k) == W(x)
  {
    LowExtends(x, WIDTH, k);
    LowOnes(x, k);
  }

  /** The masks as the source writes them. */
  lemma Literals()
    ensures W(1) == Mask(1) && W(31) == Mask(5) && W(0xff) == Mask(8) && W(0x1ffffff) == Mask(25)
  {
    hide Low, Mask;
    Pow2Values();
    var k1, k5, k8, k25 := 1, 5, 8, 25;
    assert Pow2(k1) == 2 * Pow2(0);
    MaskIsNumber(1, k1);
    MaskIsNumber(31, k5);
    MaskIsNumber(0xff, k8);
    MaskIsNumber(0x1ffffff, k25);
  }

  /** Shifting in `v` below the accumulator: the last `n + k` bits are the last `n` and then `v`. */
  lemma ShiftIn(acc: Word, v: nat, n: nat, k: nat)
    requires v < Pow2(k) && n + k <= WIDTH
    ensures Or(Shl(acc, k), W(v))[WIDTH - n - k..] == acc[WIDTH - n..] + Low(v, k)
  {
    hide Low;
    LowExtends(v, WIDTH, k);
  }

  /** `(w >>> n) & (2^k - 1)`, as a number. */
  function Field(w: Word, n: nat, k: nat): nat
    requires n + k <= WIDTH
  {
    Val(And(Shr(w, n), Mask(k)))
  }

  /** A field is the `k` bits that stand `n` places above the bottom. */
  lemma FieldOf(w: Word, n: nat, k: nat, s: Bits)
    requires n + k <= WIDTH && s == w[WIDTH - n - k..WIDTH - n]
    ensures Field(w, n, k) == Val(s)
  {
    MaskShr(w, n, k, s);
    ValZeros(WIDTH - k, s);
  }

  lemma FieldIs(w: Word, n: nat, k: nat)
    requires n + k <= WIDTH
    ensures Field(w, n, k) < Pow2(k)
    ensures Low(Field(w, n, k), k) == w[WIDTH - n - k..WIDTH - n]
  {
    hide Field, Val, Low;
    var s := w[WIDTH - n - k..WIDTH - n];
    FieldOf(w, n, k, s);
    LowVal(s);
  }

  lemma MaskShr(w: Word, n: nat, k: nat, s: Bits)
    requires n + k <= WIDTH && s == w[WIDTH - n - k..WIDTH - n]
    ensures And(Shr(w, n), Mask(k)) == Zeros(WIDTH - k) + s
  {
    var a := And(Shr(w, n), Mask(k));
    forall i {:trigger a[i]} | 0 <= i < WIDTH
      ensures a[i] == (i >= WIDTH - k && s[i - (WIDTH - k)])
    {
      if i >= WIDTH - k {
        assert Shr(w, n)[i] == w[i - n];
      }
    }
  }

  lemma Field5(w: Word, n: nat)
    requires n + 5 <= WIDTH
    ensures Field(w, n, 5) < 32 && Low(Field(w, n, 5), 5) == w[WIDTH - n - 5..WIDTH - n]
  {
    var k := 5;
    FieldIs(w, n, k);
    Pow2Values();
  }

  lemma Field8(w: Word, n: nat)
    requires n + 8 <= WIDTH
    ensures Field(w, n, 8) < 256 && Low(Field(w, n, 8), 8) == w[WIDTH - n - 8..WIDTH - n]
  {
    var k := 8;
    FieldIs(w, n, k);
    Pow2Values();
  }

  lemma {:induction false} ValZeros(n: nat, s: Bits)
    ensures Val(Zeros(n) + s) == Val(s)
  {
    var t := Zeros(n) + s;
    if s != [] {
      assert t[..|t| - 1] == Zeros(n) + s[..|s| - 1];
      ValZeros(n, s[..|s| - 1]);
    } else if n != 0 {
      assert t[..|t| - 1] == Zeros(n - 1) + [];
      ValZeros(n - 1, []);
    } else {
      assert t == s;
    }
  }

  /** The bits of a list of `k`-bit numbers. */
  function Spell(values: seq<nat>, k: nat): Bits {
    if values == [] then [] else Spell(values[..|values| - 1], k) + Low(values[|values| - 1], k)
  }

  lemma {:induction false} SpellLength(values: seq<nat>, k: nat)
    ensures |Spell(values, k)| == k * |values|
  {
    if values != [] {
      var n := |values| - 1;
      SpellLength(values[..n], k);
      assert k * n + k == k * (n + 1);
    }
  }

  predicate Below(values: seq<nat>, bound: nat) {
    forall i | 0 <= i < |values| :: values[i] < bound
  }

  /** The whole `k`-bit groups of a bit sequence, the remainder dropped. */
  function Groups(s: Bits, k: nat): seq<nat>
    requires k > 0
  {
    if |s| < k then [] else [Val(s[..k])] + Groups(s[k..], k)
  }

  lemma {:induction false} SpellCons(values: seq<nat>, k: nat)
    requires values != []
    ensures Spell(values, k) == Low(values[0], k) + Spell(values[1..], k)
  {
    hide Low;
    var n := |values| - 1;
    if n == 0 {
      assert values[..0] == [] && values[1..] == [];
    } else {
      var init, rest := values[..n], values[1..];
      SpellCons(init, k);
      assert init[1..] == rest[..n - 1] && rest[n - 1] == values[n];
      Assoc(Low(values[0], k), Spell(rest[..n - 1], k), Low(values[n], k));
    }
  }

  lemma {:induction false} SpellConcat(a: seq<nat>, b: seq<nat>, k: nat)
    ensures Spell(a + b, k) == Spell(a, k) + Spell(b, k)
  {
    if b == [] {
      assert a + b == a;
    } else {
      var n := |b| - 1;
      assert (a + b)[..|a + b| - 1] == a + b[..n];
      SpellConcat(a, b[..n], k);
      Assoc(Spell(a, k), Spell(b[..n], k), Low(b[n], k));
    }
  }

  lemma TakeDrop(a: Bits, b: Bits)
    ensures (a + b)[..|a|] == a && (a + b)[|a|..] == b
  {
  }

  /** Grouping undoes spelling, whatever incomplete group follows. */
  lemma {:induction false} GroupsOfSpell(values: seq<nat>, rest: Bits, k: nat)
    requires k > 0 && |rest| < k && Below(values, Pow2(k))
    ensures Groups(Spell(values, k) + rest, k) == values
  {
    if values == [] {
      assert Spell(values, k) + rest == rest;
    } else {
      hide Spell, Low, Groups, Val;
      SpellCons(values, k);
      var a, t := Low(values[0], k), Spell(values[1..], k) + rest;
      Assoc(a, Spell(values[1..], k), rest);
      GroupsStep(a, t, k);
      ValLow(values[0], k);
      GroupsOfSpell(values[1..], rest, k);
      assert values == [values[0]] + values[1..];
    }
  }

  lemma GroupsStep(a: Bits, t: Bits, k: nat)
    requires k > 0 && |a| == k
    ensures Groups(a + t, k) == [Val(a)] + Groups(t, k)
  {
    TakeDrop(a, t);
  }

  lemma SpellInjective(u: seq<nat>, v: seq<nat>, k: nat)
    requires k > 0 && Below(u, Pow2(k)) && Below(v, Pow2(k)) && Spell(u, k) == Spell(v, k)
    ensures u == v
  {
    GroupsOfSpell(u, [], k);
    GroupsOfSpell(v, [], k);
  }

  lemma SplitEqual(a: Bits, b: Bits, c: Bits, d: Bits)
    requires |a| == |c| && a + b == c + d
    ensures a == c && b == d
  {
    TakeDrop(a, b);
    TakeDrop(c, d);
  }
}
