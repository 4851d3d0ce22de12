/**
 * The delegator search's address filter: a typed bech32 prefix is decoded to bits and compared
 * with the bits of a reward payload, in place of encoding every address and comparing strings.
 */
module BitPrefix {
  import opened Wrappers
  import opened Seqs
  import opened Words
  import opened Bech32

  /** Decoded prefix: whole bytes (the last one zero-filled) and the number of bits that count. */
  datatype Prefix = Prefix(bytes: seq<nat>, bits: nat)

  /** The bytes spell the symbols and then zeros, in as few bytes as possible. */
  predicate Fits(prefix: Prefix, values: seq<nat>) {
    && prefix.bits == 5 * |values|
    && 8 * |prefix.bytes| - 8 < prefix.bits <= 8 * |prefix.bytes|
    && Below(prefix.bytes, 256)
    && Spell(prefix.bytes, 8) == Spell(values, 5) + Zeros(8 * |prefix.bytes| - prefix.bits)
  }

  /** The u32 accumulator shifts its old bits out; only the last `accBits` are ever read. */
  method Bech32BitPrefix(data: string) returns (r: Option<Prefix>)
    ensures r.Some? <==> Symbols(data, AlphabetMap()).Some?
    ensures r.Some? ==> Fits(r.value, Symbols(data, AlphabetMap()).value)
  {
    hide Spell, Field, Symbols, Low, Or, Shl, AlphabetMap, Fits;
    var m := AlphabetMap();
    var acc: Word, accBits, out, bits := Zeros(WIDTH), 0, [], 0;
    ghost var values: seq<nat> := [];
    NothingTaken(m);
    for i := 0 to |data|
      invariant Symbols(data[..i], m) == Some(values)
      invariant 0 <= accBits < 8 && bits == 5 * i && Below(out, 256)
      invariant Spell(out, 8) + acc[WIDTH - accBits..] == Spell(values, 5)
    {
      NextSymbol(data, i, m);
      if data[i] !in m {
        return None;
      }
      TakeSymbol(Spell(out, 8), acc, accBits, values, m[data[i]]);
      values := values + [m[data[i]]];
      acc := Or(Shl(acc, 5), W(m[data[i]]));
      accBits := accBits + 5;
      bits := bits + 5;
      out, accBits := Flush(out, acc, accBits, Spell(values, 5));
    }
    assert data[..|data|] == data;
    FillLast(out, acc, accBits, values);
    if accBits > 0 {
      out := out + [Field(Shl(acc, 8 - accBits), 0, 8)];
    }
    r := Some(Prefix(out, bits));
  }

  lemma NothingTaken(m: SymbolMap)
    ensures Symbols("", m) == Some([]) && Spell([], 8) + Zeros(WIDTH)[WIDTH - 0..] == Spell([], 5)
  {
  }

  /** The inner loop: whole bytes leave the accumulator. */
  method Flush(bytes: seq<nat>, acc: Word, accBits: nat, ghost done: Bits) returns (out: seq<nat>, n: nat)
    requires accBits < 13 && Below(bytes, 256) && Spell(bytes, 8) + acc[WIDTH - accBits..] == done
    ensures n < 8 && Below(out, 256) && Spell(out, 8) + acc[WIDTH - n..] == done
  {
    out, n := bytes, accBits;
    while n >= 8
      invariant n < 13 && Below(out, 256)
      invariant Spell(out, 8) + acc[WIDTH - n..] == done
    {
      n := n - 8;
      PushByte(out, acc, n);
      out := out + [Field(acc, n, 8)];
    }
  }

  lemma NextSymbol(data: string, i: nat, m: SymbolMap)
    requires i < |data| && Symbols(data[..i], m).Some?
    ensures data[i] in m ==> Symbols(data[..i + 1], m) == Some(Symbols(data[..i], m).value + [m[data[i]]])
    ensures data[i] !in m ==> Symbols(data, m) == None
  {
    assert data[..i + 1] == data[..i] + [data[i]];
    SymbolsConcat(data[..i + 1], data[i + 1..], m);
    assert data == data[..i + 1] + data[i + 1..];
  }

  lemma TakeSymbol(done: Bits, acc: Word, n: nat, values: seq<nat>, v: nat)
    requires n < 8 && v < 32 && done + acc[WIDTH - n..] == Spell(values, 5)
    ensures done + Or(Shl(acc, 5), W(v))[WIDTH - n - 5..] == Spell(values + [v], 5)
  {
    assert (values + [v])[..|values|] == values;
    Pow2Values();
    var k := 5;
    ShiftIn(acc, v, n, k);
    Assoc(done, acc[WIDTH - n..], Low(v, 5));
  }

  lemma FillLast(out: seq<nat>, acc: Word, n: nat, values: seq<nat>)
    requires n < 8 && Below(out, 256) && Spell(out, 8) + acc[WIDTH - n..] == Spell(values, 5)
    ensures Fits(Prefix(if n > 0 then out + [Field(Shl(acc, 8 - n), 0, 8)] else out, 5 * |values|), values)
  {
    hide Spell, Field;
    SpellLength(out, 8);
    SpellLength(values, 5);
    assert |acc[WIDTH - n..]| == n;
    assert 8 * |out| + n == 5 * |values|;
    if n > 0 {
      FillPart(out, acc, n, Spell(values, 5));
      MakeFits(out + [Field(Shl(acc, 8 - n), 0, 8)], values);
    } else {
      assert acc[WIDTH..] == [] && Spell(out, 8) + [] == Spell(out, 8) && Zeros(0) == [];
      MakeFits(out, values);
    }
  }

  lemma MakeFits(d: seq<nat>, values: seq<nat>)
    requires Below(d, 256) && 8 * |d| - 8 < 5 * |values| <= 8 * |d|
    requires Spell(d, 8) == Spell(values, 5) + Zeros(8 * |d| - 5 * |values|)
    ensures Fits(Prefix(d, 5 * |values|), values)
  {
  }

  lemma FillPart(out: seq<nat>, acc: Word, n: nat, done: Bits)
    requires 0 < n < 8 && Below(out, 256) && Spell(out, 8) + acc[WIDTH - n..] == done
    ensures var d := out + [Field(Shl(acc, 8 - n), 0, 8)];
            Below(d, 256) && Spell(d, 8) == done + Zeros(8 - n)
  {
    hide Spell, Field;
    var shifted := Shl(acc, 8 - n);
    PushByte(out, shifted, 0);
    ShiftedTail(acc, n);
    Nil(Spell(out + [Field(shifted, 0, 8)], 8));
    Assoc(Spell(out, 8), acc[WIDTH - n..], Zeros(8 - n));
  }

  lemma ShiftedTail(acc: Word, n: nat)
    requires n < 8
    ensures Shl(acc, 8 - n)[WIDTH - 8..] == acc[WIDTH - n..] + Zeros(8 - n)
    ensures Shl(acc, 8 - n)[WIDTH..] == []
  {
  }

  /** A byte with all but its first `rest` bits cleared. */
  function MaskedHigh(b: nat, rest: nat): Bits
    requires rest <= 8
  {
    Low(b, 8)[..rest] + Zeros(8 - rest)
  }

  predicate HasBitPrefix(payload: seq<nat>, prefix: seq<nat>, bits: nat)
    requires 8 * |prefix| - 8 < bits <= 8 * |prefix|
  {
    SameBytesThenBits(payload, prefix, bits / 8, bits % 8)
  }

  predicate SameBytesThenBits(payload: seq<nat>, prefix: seq<nat>, full: nat, rest: nat)
    requires rest < 8 && |prefix| == full + (if rest > 0 then 1 else 0)
  {
    if |payload| < full + (if rest > 0 then 1 else 0) then false
    else if payload[..full] != prefix[..full] then false
    else if rest == 0 then true
    else MaskedHigh(payload[full], rest) == MaskedHigh(prefix[full], rest)
  }

  /** Byte comparison with a masked last byte is comparison of bits. */
  lemma HasBitPrefixBits(payload: seq<nat>, prefix: seq<nat>, bits: nat)
    requires 8 * |prefix| - 8 < bits <= 8 * |prefix| && Below(payload, 256) && Below(prefix, 256)
    ensures |Spell(prefix, 8)| >= bits && |Spell(payload, 8)| == 8 * |payload|
    ensures HasBitPrefix(payload, prefix, bits) <==>
              bits <= 8 * |payload| && Spell(payload, 8)[..bits] == Spell(prefix, 8)[..bits]
  {
    assert bits == 8 * (bits / 8) + bits % 8;
    SameBytesBits(payload, prefix, bits / 8, bits % 8);
  }

  lemma SameBytesBits(payload: seq<nat>, prefix: seq<nat>, full: nat, rest: nat)
    requires rest < 8 && |prefix| == full + (if rest > 0 then 1 else 0) && Below(payload, 256) && Below(prefix, 256)
    ensures |Spell(prefix, 8)| >= 8 * full + rest && |Spell(payload, 8)| == 8 * |payload|
    ensures SameBytesThenBits(payload, prefix, full, rest) <==>
              8 * full + rest <= 8 * |payload| && Spell(payload, 8)[..8 * full + rest] == Spell(prefix, 8)[..8 * full + rest]
  {
    SpellLength(payload, 8);
    SpellLength(prefix, 8);
    if rest == 0 && full <= |payload| {
      WholeBytes(payload, prefix, full);
    } else if full < |payload| {
      PartByte(payload, prefix, full, rest);
    }
  }

  lemma WholeBytes(a: seq<nat>, b: seq<nat>, n: nat)
    requires n <= |a| && n <= |b| && Below(a, 256) && Below(b, 256)
    ensures |Spell(a, 8)| == 8 * |a| && |Spell(b, 8)| == 8 * |b|
    ensures a[..n] == b[..n] <==> Spell(a, 8)[..8 * n] == Spell(b, 8)[..8 * n]
  {
    SpellSplit(a, n);
    SpellSplit(b, n);
    BytesEqual(a[..n], b[..n]);
  }

  lemma PartByte(a: seq<nat>, b: seq<nat>, n: nat, rest: nat)
    requires n < |a| && n < |b| && rest <= 8 && Below(a, 256) && Below(b, 256)
    ensures |Spell(a, 8)| == 8 * |a| && |Spell(b, 8)| == 8 * |b|
    ensures a[..n] == b[..n] && MaskedHigh(a[n], rest) == MaskedHigh(b[n], rest)
            <==> Spell(a, 8)[..8 * n + rest] == Spell(b, 8)[..8 * n + rest]
  {
    NextByte(a, n, rest);
    NextByte(b, n, rest);
    SpellSplit(a, n);
    SpellSplit(b, n);
    BytesEqual(a[..n], b[..n]);
    var x, y := Low(a[n], 8)[..rest], Low(b[n], 8)[..rest];
    CutEqual(Spell(a[..n], 8), x, Spell(b[..n], 8), y);
    CutEqual(x, Zeros(8 - rest), y, Zeros(8 - rest));
  }

  lemma CutEqual(a: Bits, b: Bits, c: Bits, d: Bits)
    requires |a| == |c|
    ensures a + b == c + d <==> a == c && b == d
  {
    if a + b == c + d { SplitEqual(a, b, c, d); }
  }

  lemma SpellSplit(values: seq<nat>, n: nat)
    requires n <= |values|
    ensures |Spell(values[..n], 8)| == 8 * n && |Spell(values, 8)| == 8 * |values|
    ensures Spell(values, 8)[..8 * n] == Spell(values[..n], 8)
  {
    SpellConcat(values[..n], values[n..], 8);
    assert values == values[..n] + values[n..];
    SpellLength(values[..n], 8);
    SpellLength(values, 8);
  }

  lemma SpellByte(values: seq<nat>, n: nat)
    requires n < |values|
    ensures Spell(values[..n + 1], 8) == Spell(values[..n], 8) + Low(values[n], 8)
  {
    hide Low;
    assert values[..n + 1][..n] == values[..n];
  }

  lemma NextByte(values: seq<nat>, n: nat, rest: nat)
    requires n < |values| && rest <= 8
    ensures |Spell(values, 8)| == 8 * |values|
    ensures Spell(values, 8)[..8 * n + rest] == Spell(values[..n], 8) + Low(values[n], 8)[..rest]
  {
    hide Spell, Low;
    SpellSplit(values, n + 1);
    SpellSplit(values, n);
    SpellByte(values, n);
    CutInside(Spell(values, 8), Spell(values[..n], 8), Low(values[n], 8), rest);
  }

  lemma CutInside(s: Bits, h: Bits, t: Bits, rest: nat)
    requires rest <= |t| && |h| + |t| <= |s| && s[..|h| + |t|] == h + t
    ensures s[..|h| + rest] == h + t[..rest]
  {
    assert s[..|h| + rest] == s[..|h| + |t|][..|h| + rest];
  }

  lemma BytesEqual(a: seq<nat>, b: seq<nat>)
    requires Below(a, 256) && Below(b, 256)
    ensures a == b <==> Spell(a, 8) == Spell(b, 8)
  {
    if Spell(a, 8) == Spell(b, 8) {
      Pow2Values();
      var k := 8;
      SpellInjective(a, b, k);
    }
  }

  /** A payload's bits begin with some symbols exactly when its symbols do. */
  lemma PayloadBits(payload: seq<nat>, values: seq<nat>)
    requires Below(payload, 256) && Below(values, 32) && 5 * |values| <= 8 * |payload|
    ensures |Spell(payload, 8)| == 8 * |payload|
    ensures Spell(values, 5) == Spell(payload, 8)[..5 * |values|] <==> values <= ToSymbols(payload)
  {
    var all, syms, n := Spell(payload, 8), ToSymbols(payload), |values|;
    SpellLength(payload, 8);
    ToSymbolsBelow(payload);
    SpellOfGroups(Padded(all));
    SpellLength(syms, 5);
    SymbolsCut(syms, n);
    assert Spell(syms[..n], 5) == all[..5 * n];
    SymbolsEqual(values, syms[..n]);
  }

  lemma SymbolsCut(syms: seq<nat>, n: nat)
    requires n <= |syms|
    ensures |Spell(syms, 5)| == 5 * |syms| && Spell(syms[..n], 5) == Spell(syms, 5)[..5 * n]
  {
    SpellConcat(syms[..n], syms[n..], 5);
    assert syms == syms[..n] + syms[n..];
    SpellLength(syms[..n], 5);
    SpellLength(syms, 5);
  }

  lemma SymbolsEqual(a: seq<nat>, b: seq<nat>)
    requires Below(a, 32) && Below(b, 32)
    ensures a == b <==> Spell(a, 5) == Spell(b, 5)
  {
    if Spell(a, 5) == Spell(b, 5) {
      Pow2Values();
      var k := 5;
      SpellInjective(a, b, k);
    }
  }

  /**
   * The search filter is exact: a decodable prefix matches a 29-byte reward payload if and only
   * if it has at most 46 characters and the payload's bech32 address continues with it.
   */
  lemma FilterExact(payload: seq<nat>, data: string, prefix: Prefix, hrp: string)
    requires |payload| == 29 && Below(payload, 256)
    requires Symbols(data, AlphabetMap()).Some? && Fits(prefix, Symbols(data, AlphabetMap()).value)
    ensures HasBitPrefix(payload, prefix.bytes, prefix.bits) <==>
              |data| <= 46 && data <= EncodeOf(hrp, payload)[|hrp| + 1..]
  {
    var values := Symbols(data, AlphabetMap()).value;
    var letters := EncodeOf(hrp, payload)[|hrp| + 1..];
    EncodedParts(hrp, payload);
    PrefixOfLetters(data, letters, AlphabetMap());
    SymbolCount(payload);
    FilterBits(payload, values, prefix, ChecksumOf(hrp, ToSymbols(payload)));
  }

  lemma FilterBits(payload: seq<nat>, values: seq<nat>, prefix: Prefix, sum: seq<nat>)
    requires |payload| == 29 && Below(payload, 256) && Below(values, 32) && Fits(prefix, values)
    requires |ToSymbols(payload)| == 47
    ensures HasBitPrefix(payload, prefix.bytes, prefix.bits) <==>
              |values| <= 46 && values <= ToSymbols(payload) + sum
  {
    HasBitPrefixBits(payload, prefix.bytes, prefix.bits);
    SpellLength(values, 5);
    assert Spell(prefix.bytes, 8)[..prefix.bits] == Spell(values, 5);
    if |values| <= 46 {
      PayloadBits(payload, values);
      var syms := ToSymbols(payload);
      assert (syms + sum)[..|values|] == syms[..|values|];
    }
  }

  lemma SymbolCount(payload: seq<nat>)
    requires |payload| == 29
    ensures |ToSymbols(payload)| == 47
  {
    SpellLength(payload, 8);
    SpellOfGroups(Padded(Spell(payload, 8)));
    SpellLength(ToSymbols(payload), 5);
  }

  lemma PrefixOfLetters(s: string, t: string, m: SymbolMap)
    requires m == AlphabetMap() && Symbols(s, m).Some? && Symbols(t, m).Some?
    ensures s <= t <==> Symbols(s, m).value <= Symbols(t, m).value
  {
    hide Symbols;
    var n := |s|;
    if n <= |t| {
      SymbolsConcat(t[..n], t[n..], m);
      assert t == t[..n] + t[n..];
      assert Symbols(t[..n], m).value == Symbols(t, m).value[..n];
      if s <= t {
        assert t[..n] == s;
      }
      if Symbols(s, m).value == Symbols(t, m).value[..n] {
        SymbolsInjective(s, t[..n], m, ALPHABET);
      }
    }
  }
}
