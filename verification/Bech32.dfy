/** Bech32 as the web client encodes, decodes and validates it. */
module Bech32 {
  import opened Wrappers
  import opened Seqs
  import opened Words
  import opened Polymod

  const ALPHABET: string := "qpzry9x8gf2tvdw0s3jn54khce6mua7l"

  // ---- Characters ----

  /** Each character of an alphabet mapped to its position. */
  function MapOf(alphabet: string): (m: map<char, nat>)
    ensures forall c <- m :: m[c] < |alphabet| && alphabet[m[c]] == c
  {
    if alphabet == "" then map[] else MapOf(alphabet[..|alphabet| - 1])[alphabet[|alphabet| - 1] := |alphabet| - 1]
  }

  type SymbolMap = m: map<char, nat> | forall c <- m :: m[c] < 32

  function AlphabetMap(): SymbolMap {
    MapOf(ALPHABET)
  }

  function Lower(c: char): char {
    if 'A' <= c <= 'Z' then (c as int + 32) as char else c
  }

  function LowerAll(s: string): string {
    seq(|s|, i requires 0 <= i < |s| => Lower(s[i]))
  }

  /** All characters mapped to symbols; nothing if one is outside the alphabet. */
  function Symbols(s: string, m: SymbolMap): (r: Option<seq<nat>>)
    ensures r.Some? ==> |r.value| == |s| && Below(r.value, 32)
  {
    if s == [] then Some([])
    else
      var init, c := Symbols(s[..|s| - 1], m), s[|s| - 1];
      if init.Some? && c in m then Some(init.value + [m[c]]) else None
  }

  function Letters(values: seq<nat>): (r: string)
    requires Below(values, 32)
    ensures |r| == |values|
  {
    seq(|values|, i requires 0 <= i < |values| => ALPHABET[values[i]])
  }

  /** Position of the last separator, or -1. */
  function LastOne(s: string): (r: int)
    ensures -1 <= r < |s|
    ensures r >= 0 ==> s[r] == '1'
    ensures forall i | r < i < |s| :: s[i] != '1'
  {
    if s == [] then -1
    else if s[|s| - 1] == '1' then |s| - 1
    else LastOne(s[..|s| - 1])
  }

  // ---- Specification ----

  function Highs(hrp: string): (r: seq<nat>)
    ensures |r| == |hrp|
  {
    seq(|hrp|, i requires 0 <= i < |hrp| => hrp[i] as int / 32)
  }

  function Lows(hrp: string): (r: seq<nat>)
    ensures |r| == |hrp|
  {
    seq(|hrp|, i requires 0 <= i < |hrp| => hrp[i] as int % 32)
  }

  function ExpandOf(hrp: string): seq<nat> {
    Highs(hrp) + [0] + Lows(hrp)
  }

  function ChecksumOf(hrp: string, data: seq<nat>): seq<nat> {
    SymbolsOf(Xor(PolymodOf(ExpandOf(hrp) + data + Nulls(6)), Mask(1)))
  }

  /** Bits padded with zeros to a whole number of five-bit groups. */
  function Padded(s: Bits): (r: Bits)
    ensures s <= r && |r| < |s| + 5 && |r| % 5 == 0
  {
    s + Zeros((5 - |s| % 5) % 5)
  }

  function ToSymbols(bytes: seq<nat>): seq<nat> {
    Groups(Padded(Spell(bytes, 8)), 5)
  }

  function ToBytes(values: seq<nat>): seq<nat> {
    Groups(Spell(values, 5), 8)
  }

  function EncodeOf(hrp: string, bytes: seq<nat>): string
    requires Below(bytes, 256)
  {
    var data := ToSymbols(bytes);
    ToSymbolsBelow(bytes);
    ChecksumBelow(hrp, data);
    Join(hrp, Letters(data + ChecksumOf(hrp, data)))
  }

  function HrpOf(addr: string): Option<string> {
    var sep := LastOne(addr);
    if sep < 1 || |addr| - sep - 1 < 6 then None
    else match Symbols(addr[sep + 1..], AlphabetMap())
      case None => None
      case Some(values) =>
        if PolymodOf(ExpandOf(addr[..sep]) + values) == Mask(1) then Some(addr[..sep]) else None
  }

  /** All but the six checksum symbols (nothing when there are fewer). */
  function Payload(values: seq<nat>): seq<nat> {
    if |values| < 6 then [] else values[..|values| - 6]
  }

  function DecodeOf(addr: string): Option<seq<nat>> {
    var sep := LastOne(addr);
    if sep < 1 then None
    else match Symbols(LowerAll(addr[sep + 1..]), AlphabetMap())
      case None => None
      case Some(values) => Some(ToBytes(Payload(values)))
  }

  // ---- Facts the specification needs ----

  lemma GroupsBelow(s: Bits, k: nat)
    requires k > 0
    ensures Below(Groups(s, k), Pow2(k))
  {
    if |s| >= k {
      GroupsBelow(s[k..], k);
      var g := Groups(s, k);
      assert g[0] < Pow2(k) && g[1..] == Groups(s[k..], k);
    }
  }

  lemma ToSymbolsBelow(bytes: seq<nat>)
    ensures Below(ToSymbols(bytes), 32)
  {
    var k := 5;
    GroupsBelow(Padded(Spell(bytes, 8)), k);
    Pow2Values();
  }

  /** A character's high bits stand before the zero at `n`, its low five bits as far behind it. */
  predicate Halves(e: seq<nat>, n: nat, i: nat, c: char)
    requires i < n && |e| == 2 * n + 1
  {
    e[n + 1 + i] < 32 && 32 * e[i] + e[n + 1 + i] == c as int
  }

  lemma ExpandIs(hrp: string)
    ensures var e, n := ExpandOf(hrp), |hrp|;
            && |e| == 2 * n + 1 && e[n] == 0
            && forall i | 0 <= i < n :: Halves(e, n, i, hrp[i])
  {
    var n := |hrp|;
    forall i | 0 <= i < n
      ensures ExpandOf(hrp)[n + 1 + i] == Lows(hrp)[i] && ExpandOf(hrp)[i] == Highs(hrp)[i]
    {
    }
  }

  lemma ExpandBelow(hrp: string)
    ensures Below(ExpandOf(hrp), 0x40000000)
  {
  }

  lemma ChecksumBelow(hrp: string, data: seq<nat>)
    requires Below(data, 32)
    ensures Below(ChecksumOf(hrp, data), 32)
  {
    ExpandBelow(hrp);
    ChecksumCloses(ExpandOf(hrp) + data);
  }

  lemma {:induction false} SymbolsAreGroups(data: seq<nat>, s: Bits)
    requires Below(data, 32) && Spell(data, 5) == s
    ensures Groups(s, 5) == data
  {
    var k := 5;
    Pow2Values();
    GroupsOfSpell(data, [], k);
    assert s + [] == s;
  }

  // ---- The loops ----

  /** The high bits of every character, a zero, and the low five bits of every character. */
  method HrpExpand(hrp: string) returns (out: seq<nat>)
    ensures out == ExpandOf(hrp)
    ensures |out| == 2 * |hrp| + 1 && out[|hrp|] == 0
    ensures forall i | 0 <= i < |hrp| :: Halves(out, |hrp|, i, hrp[i])
  {
    ExpandIs(hrp);
    out := [];
    for i := 0 to |hrp|
      invariant out == Highs(hrp)[..i]
    {
      out := out + [hrp[i] as int / 32];
    }
    out := out + [0];
    for i := 0 to |hrp|
      invariant out == Highs(hrp) + [0] + Lows(hrp)[..i]
    {
      out := out + [hrp[i] as int % 32];
    }
  }

  method Checksum(hrp: string, data: seq<nat>) returns (out: seq<nat>)
    ensures out == ChecksumOf(hrp, data)
  {
    hide Low, Mask, Xor, Field, PolymodOf, ExpandOf;
    var expanded := HrpExpand(hrp);
    var mod := Polymod.Polymod(expanded + data + [0, 0, 0, 0, 0, 0]);
    assert [0, 0, 0, 0, 0, 0] == Nulls(6);
    Literals();
    mod := Xor(mod, W(1));
    out := [];
    for i := 0 to 6
      invariant out == SymbolsOf(mod)[..i]
    {
      out := out + [Field(mod, 5 * (5 - i), 5)];
    }
  }

  /** Regrouping 8-bit bytes into 5-bit symbols; the accumulator is never masked. */
  method Regroup8(bytes: seq<nat>) returns (data: seq<nat>)
    requires Below(bytes, 256)
    ensures data == ToSymbols(bytes)
    ensures Below(data, 32)
  {
    data := [];
    var acc: Word, bits := Zeros(WIDTH), 0;
    for i := 0 to |bytes|
      invariant 0 <= bits < 5 && Below(data, 32)
      invariant Spell(data, 5) + acc[WIDTH - bits..] == Spell(bytes[..i], 8)
    {
      TakeByte(Spell(data, 5), acc, bits, bytes, i);
      acc := Or(Shl(acc, 8), W(bytes[i]));
      bits := bits + 8;
      while bits >= 5
        invariant 0 <= bits < 13 && Below(data, 32)
        invariant Spell(data, 5) + acc[WIDTH - bits..] == Spell(bytes[..i + 1], 8)
      {
        bits := bits - 5;
        PushField(data, acc, bits);
        data := data + [Field(acc, bits, 5)];
      }
    }
    assert bytes[..|bytes|] == bytes;
    PadLast(data, acc, bits, bytes);
    if bits > 0 {
      data := data + [Field(Shl(acc, 5 - bits), 0, 5)];
    }
  }

  lemma TakeByte(done: Bits, acc: Word, bits: nat, bytes: seq<nat>, i: nat)
    requires bits < 5 && i < |bytes| && bytes[i] < 256 && done + acc[WIDTH - bits..] == Spell(bytes[..i], 8)
    ensures done + Or(Shl(acc, 8), W(bytes[i]))[WIDTH - bits - 8..] == Spell(bytes[..i + 1], 8)
  {
    assert bytes[..i + 1][..i] == bytes[..i];
    Pow2Values();
    var k := 8;
    ShiftIn(acc, bytes[i], bits, k);
    Assoc(done, acc[WIDTH - bits..], Low(bytes[i], 8));
  }

  /** The last, incomplete group is padded with zeros. */
  lemma PadLast(data: seq<nat>, acc: Word, bits: nat, bytes: seq<nat>)
    requires bits < 5 && Below(data, 32) && Spell(data, 5) + acc[WIDTH - bits..] == Spell(bytes, 8)
    ensures var d := if bits > 0 then data + [Field(Shl(acc, 5 - bits), 0, 5)] else data;
            Below(d, 32) && d == ToSymbols(bytes)
  {
    hide Spell, Field, Groups, Padded;
    if bits > 0 {
      PadSome(data, acc, bits, Spell(bytes, 8));
    } else {
      assert acc[WIDTH..] == [] && Zeros(0) == [];
      Nil(Spell(data, 5));
      Nil(Spell(bytes, 8));
      Closes(data, Spell(bytes, 8), Spell(bytes, 8));
    }
  }

  lemma PadSome(data: seq<nat>, acc: Word, bits: nat, all: Bits)
    requires 0 < bits < 5 && Below(data, 32) && Spell(data, 5) + acc[WIDTH - bits..] == all
    ensures var d := data + [Field(Shl(acc, 5 - bits), 0, 5)];
            Below(d, 32) && d == Groups(Padded(all), 5)
  {
    hide Spell, Field, Groups, Padded;
    var n := 5 - bits;
    var shifted := Shl(acc, n);
    var d := data + [Field(shifted, 0, 5)];
    PushField(data, shifted, 0);
    assert shifted[WIDTH - 5..] == acc[WIDTH - bits..] + Zeros(n) && shifted[WIDTH..] == [];
    Assoc(Spell(data, 5), acc[WIDTH - bits..], Zeros(n));
    Closes(d, all, all + Zeros(n));
  }

  lemma Closes(d: seq<nat>, all: Bits, padded: Bits)
    requires Below(d, 32) && Spell(d, 5) + [] == padded && all <= padded && |padded| < |all| + 5
    requires padded == all + Zeros(|padded| - |all|)
    ensures padded == Padded(all) && Groups(Padded(all), 5) == d
  {
    hide Spell, Groups;
    SpellLength(d, 5);
    var n := |padded| - |all|;
    assert n == (5 - |all| % 5) % 5;
    Nil(Spell(d, 5));
    SymbolsAreGroups(d, padded);
  }

  lemma PushField(data: seq<nat>, acc: Word, bits: nat)
    requires bits + 5 <= WIDTH && Below(data, 32)
    ensures Below(data + [Field(acc, bits, 5)], 32)
    ensures Spell(data + [Field(acc, bits, 5)], 5) + acc[WIDTH - bits..] == Spell(data, 5) + acc[WIDTH - bits - 5..]
  {
    hide Field, Low;
    Field5(acc, bits);
    var d := data + [Field(acc, bits, 5)];
    assert d[..|data|] == data;
    assert acc[WIDTH - bits - 5..WIDTH - bits] + acc[WIDTH - bits..] == acc[WIDTH - bits - 5..];
    Assoc(Spell(data, 5), acc[WIDTH - bits - 5..WIDTH - bits], acc[WIDTH - bits..]);
  }

  method Encode(hrp: string, bytes: seq<nat>) returns (addr: string)
    requires Below(bytes, 256)
    ensures addr == EncodeOf(hrp, bytes)
  {
    var data := Regroup8(bytes);
    var checksum := Checksum(hrp, data);
    ChecksumBelow(hrp, data);
    addr := hrp + "1";
    var combined := data + checksum;
    for i := 0 to |combined|
      invariant addr == hrp + "1" + Letters(combined)[..i]
    {
      LettersNext(hrp + "1", Letters(combined), i);
      addr := addr + [ALPHABET[combined[i]]];
    }
    assert Letters(combined)[..|combined|] == Letters(combined);
  }

  lemma LettersNext(prefix: string, letters: string, i: nat)
    requires i < |letters|
    ensures prefix + letters[..i] + [letters[i]] == prefix + letters[..i + 1]
  {
  }

  method ReadSymbols(s: string, m: SymbolMap) returns (values: Option<seq<nat>>)
    ensures values == Symbols(s, m)
  {
    var vs := [];
    for i := 0 to |s|
      invariant Symbols(s[..i], m) == Some(vs)
    {
      SymbolsLast(s[..i], s[i], m);
      assert s[..i + 1] == s[..i] + [s[i]];
      if s[i] !in m {
        SymbolsConcat(s[..i + 1], s[i + 1..], m);
        assert s == s[..i + 1] + s[i + 1..];
        return None;
      }
      vs := vs + [m[s[i]]];
    }
    assert s[..|s|] == s;
    values := Some(vs);
  }

  lemma SymbolsLast(s: string, c: char, m: SymbolMap)
    ensures Symbols(s + [c], m) == if Symbols(s, m).Some? && c in m then Some(Symbols(s, m).value + [m[c]]) else None
  {
    var t := s + [c];
    assert t[..|t| - 1] == s;
  }

  lemma {:induction false} SymbolsConcat(s: string, t: string, m: SymbolMap)
    ensures var a, b := Symbols(s, m), Symbols(t, m);
            Symbols(s + t, m) == if a.Some? && b.Some? then Some(a.value + b.value) else None
  {
    if t == [] {
      assert s + t == s;
      if Symbols(s, m).Some? {
        Nil(Symbols(s, m).value);
      }
    } else {
      hide Symbols;
      var n := |t| - 1;
      SymbolsConcat(s, t[..n], m);
      SymbolsLast(t[..n], t[n], m);
      SymbolsLast(s + t[..n], t[n], m);
      assert t == t[..n] + [t[n]] && s + t == s + t[..n] + [t[n]];
      if Symbols(s, m).Some? && Symbols(t, m).Some? {
        Assoc(Symbols(s, m).value, Symbols(t[..n], m).value, [m[t[n]]]);
      }
    }
  }

  method Hrp(addr: string) returns (hrp: Option<string>)
    ensures hrp == HrpOf(addr)
  {
    var sep := LastOne(addr);
    if sep < 1 || |addr| - sep - 1 < 6 {
      return None;
    }
    var values := ReadSymbols(addr[sep + 1..], AlphabetMap());
    if values.None? {
      return None;
    }
    var expanded := HrpExpand(addr[..sep]);
    var chk := Polymod.Polymod(expanded + values.value);
    Literals();
    hrp := if chk == W(1) then Some(addr[..sep]) else None;
  }

  /** Regrouping 5-bit symbols into 8-bit bytes; the accumulator is never masked. */
  method Regroup5(values: seq<nat>) returns (bytes: seq<nat>)
    requires Below(values, 32)
    ensures bytes == ToBytes(values)
  {
    bytes := [];
    var acc: Word, bits := Zeros(WIDTH), 0;
    for i := 0 to |values|
      invariant 0 <= bits < 8 && Below(bytes, 256)
      invariant Spell(bytes, 8) + acc[WIDTH - bits..] == Spell(values[..i], 5)
    {
      assert values[..i + 1][..i] == values[..i];
      Pow2Values();
      ghost var k := 5;
      ShiftIn(acc, values[i], bits, k);
      Assoc(Spell(bytes, 8), acc[WIDTH - bits..], Low(values[i], 5));
      acc := Or(Shl(acc, 5), W(values[i]));
      bits := bits + 5;
      if bits >= 8 {
        bits := bits - 8;
        PushByte(bytes, acc, bits);
        bytes := bytes + [Field(acc, bits, 8)];
      }
    }
    assert values[..|values|] == values;
    Pow2Values();
    ghost var k := 8;
    GroupsOfSpell(bytes, acc[WIDTH - bits..], k);
  }

  lemma PushByte(bytes: seq<nat>, acc: Word, bits: nat)
    requires bits + 8 <= WIDTH && Below(bytes, 256)
    ensures Below(bytes + [Field(acc, bits, 8)], 256)
    ensures Spell(bytes + [Field(acc, bits, 8)], 8) + acc[WIDTH - bits..] == Spell(bytes, 8) + acc[WIDTH - bits - 8..]
  {
    hide Field, Low;
    Field8(acc, bits);
    var d := bytes + [Field(acc, bits, 8)];
    assert d[..|bytes|] == bytes;
    assert acc[WIDTH - bits - 8..WIDTH - bits] + acc[WIDTH - bits..] == acc[WIDTH - bits - 8..];
    Assoc(Spell(bytes, 8), acc[WIDTH - bits - 8..WIDTH - bits], acc[WIDTH - bits..]);
  }

  method Decode(addr: string) returns (bytes: Option<seq<nat>>)
    ensures bytes == DecodeOf(addr)
  {
    var sep := LastOne(addr);
    if sep < 1 {
      return None;
    }
    var values := ReadSymbols(LowerAll(addr[sep + 1..]), AlphabetMap());
    if values.None? {
      return None;
    }
    var data := Regroup5(Payload(values.value));
    bytes := Some(data);
  }

  // ---- Round trip ----

  lemma AlphabetDistinct()
    ensures forall i, j | 0 <= i < j < 32 :: ALPHABET[i] != ALPHABET[j]
  {
  }

  lemma AlphabetPlain()
    ensures forall i | 0 <= i < 32 :: ALPHABET[i] != '1' && Lower(ALPHABET[i]) == ALPHABET[i]
  {
  }

  lemma {:induction false} MapOfPositions(alphabet: string)
    requires forall i, j | 0 <= i < j < |alphabet| :: alphabet[i] != alphabet[j]
    ensures forall i | 0 <= i < |alphabet| :: alphabet[i] in MapOf(alphabet) && MapOf(alphabet)[alphabet[i]] == i
  {
    if alphabet != "" {
      MapOfPositions(alphabet[..|alphabet| - 1]);
    }
  }

  lemma {:induction false} SymbolsOfLetters(values: seq<nat>, m: SymbolMap)
    requires Below(values, 32) && forall i | 0 <= i < 32 :: ALPHABET[i] in m && m[ALPHABET[i]] == i
    ensures Symbols(Letters(values), m) == Some(values)
  {
    if values == [] {
      assert Letters(values) == [];
    } else {
      var n := |values| - 1;
      hide Symbols, Letters;
      SymbolsOfLetters(values[..n], m);
      LettersLast(values);
      SymbolsLast(Letters(values[..n]), ALPHABET[values[n]], m);
      assert values == values[..n] + [values[n]];
    }
  }

  lemma LettersLast(values: seq<nat>)
    requires Below(values, 32) && values != []
    ensures var n := |values| - 1; Letters(values) == Letters(values[..n]) + [ALPHABET[values[n]]]
  {
  }

  /** An address: prefix, separator, data. */
  function Join(hrp: string, data: string): string {
    hrp + "1" + data
  }

  lemma JoinParts(hrp: string, data: string)
    ensures var s := Join(hrp, data);
            |s| == |hrp| + 1 + |data| && s[|hrp|] == '1' && s[..|hrp|] == hrp && s[|hrp| + 1..] == data
  {
  }

  /** The separator is found again, since no data letter is a separator. */
  lemma SeparatorFound(hrp: string, data: string)
    requires '1' !in data
    ensures LastOne(Join(hrp, data)) == |hrp|
  {
    JoinParts(hrp, data);
    TailPlain(Join(hrp, data), |hrp| + 1, data);
    LastOneIs(Join(hrp, data), |hrp|);
  }

  lemma TailPlain(s: string, k: nat, data: string)
    requires k <= |s| && s[k..] == data && '1' !in data
    ensures forall i | k <= i < |s| :: s[i] != '1'
  {
    forall i | k <= i < |s|
      ensures s[i] != '1'
    {
      assert s[i] == data[i - k];
    }
  }

  lemma LastOneIs(s: string, k: nat)
    requires k < |s| && s[k] == '1' && forall i | k < i < |s| :: s[i] != '1'
    ensures LastOne(s) == k
  {
  }

  /**
   * For every byte string and every prefix, validation returns the prefix and decoding returns
   * the bytes, exactly when the prefix is not empty.
   */
  lemma RoundTrip(hrp: string, bytes: seq<nat>)
    requires Below(bytes, 256)
    ensures HrpOf(EncodeOf(hrp, bytes)) == if hrp == "" then None else Some(hrp)
    ensures DecodeOf(EncodeOf(hrp, bytes)) == if hrp == "" then None else Some(bytes)
  {
    ToSymbolsBelow(bytes);
    ExpandBelow(hrp);
    var data := ToSymbols(bytes);
    var sum := ChecksumOf(hrp, data);
    EncodedParts(hrp, bytes);
    Validates(ExpandOf(hrp), data, sum);
    assert Payload(data + sum) == data;
    BytesBack(bytes);
  }

  lemma EncodedParts(hrp: string, bytes: seq<nat>)
    requires Below(bytes, 256)
    ensures var data, addr := ToSymbols(bytes), EncodeOf(hrp, bytes);
            var letters := addr[|hrp| + 1..];
            && LastOne(addr) == |hrp| && addr[..|hrp|] == hrp
            && LowerAll(letters) == letters
            && Symbols(letters, AlphabetMap()) == Some(data + ChecksumOf(hrp, data))
  {
    hide Symbols, LastOne, ChecksumOf, ToSymbols, LowerAll, Letters;
    var data := ToSymbols(bytes);
    ToSymbolsBelow(bytes);
    ChecksumBelow(hrp, data);
    var values := data + ChecksumOf(hrp, data);
    LettersPlain(values);
    SeparatorFound(hrp, Letters(values));
    JoinParts(hrp, Letters(values));
    AlphabetDistinct();
    MapOfPositions(ALPHABET);
    SymbolsOfLetters(values, AlphabetMap());
  }

  lemma LettersPlain(values: seq<nat>)
    requires Below(values, 32)
    ensures '1' !in Letters(values) && LowerAll(Letters(values)) == Letters(values)
  {
    AlphabetPlain();
  }

  lemma Validates(expanded: seq<nat>, data: seq<nat>, sum: seq<nat>)
    requires Below(expanded, 0x40000000)
    requires Below(data, 32) && sum == SymbolsOf(Xor(PolymodOf(expanded + data + Nulls(6)), Mask(1)))
    ensures PolymodOf(expanded + (data + sum)) == Mask(1)
  {
    ChecksumCloses(expanded + data);
    Assoc3(expanded, data, sum);
  }

  lemma Assoc3(a: seq<nat>, b: seq<nat>, c: seq<nat>)
    ensures a + (b + c) == a + b + c
  {
  }

  /** Padding to symbols loses nothing: fewer than five zero bits never complete a byte. */
  lemma BytesBack(bytes: seq<nat>)
    requires Below(bytes, 256)
    ensures ToBytes(ToSymbols(bytes)) == bytes
  {
    var all := Spell(bytes, 8);
    var n := (5 - |all| % 5) % 5;
    SpellOfGroups(Padded(all));
    Pow2Values();
    var k := 8;
    GroupsOfSpell(bytes, Zeros(n), k);
  }

  lemma {:induction false} SpellOfGroups(s: Bits)
    requires |s| % 5 == 0
    ensures Spell(Groups(s, 5), 5) == s
  {
    if |s| == 0 {
      assert s == [];
    } else {
      var head, tail := s[..5], s[5..];
      SpellOfGroups(tail);
      SpellOneMore(head, tail);
      assert s == head + tail;
    }
  }

  lemma SpellOneMore(head: Bits, tail: Bits)
    requires |head| == 5
    ensures Spell(Groups(head + tail, 5), 5) == head + Spell(Groups(tail, 5), 5)
  {
    var k := 5;
    GroupsStep(head, tail, k);
    LowVal(head);
    var g := Groups(head + tail, k);
    SpellCons(g, k);
    assert g[1..] == Groups(tail, k);
  }

  /**
   * A validated address stops validating when up to six neighbouring data characters are
   * replaced by any other alphabet characters.
   */
  lemma TypoDetected(hrp: string, pre: string, u: string, v: string, post: string)
    requires |u| == |v| <= 6 && u != v && '1' !in pre && '1' !in u && '1' !in v && '1' !in post
    requires HrpOf(Join(hrp, pre + u + post)) == Some(hrp)
    ensures HrpOf(Join(hrp, pre + v + post)) == None
  {
    var good, bad := pre + u + post, pre + v + post;
    SeparatorFound(hrp, good);
    SeparatorFound(hrp, bad);
    JoinParts(hrp, good);
    JoinParts(hrp, bad);
    var m := AlphabetMap();
    if Symbols(bad, m).Some? {
      ThreeParts(pre, u, post, m);
      ThreeParts(pre, v, post, m);
      var x, y := Symbols(u, m).value, Symbols(v, m).value;
      if x == y {
        SymbolsInjective(u, v, m, ALPHABET);
        assert false;
      }
      ExpandBelow(hrp);
      Detected(ExpandOf(hrp), Symbols(pre, m).value, x, y, Symbols(post, m).value);
    }
  }

  lemma ThreeParts(pre: string, u: string, post: string, m: SymbolMap)
    requires Symbols(pre + u + post, m).Some?
    ensures Symbols(pre, m).Some? && Symbols(u, m).Some? && Symbols(post, m).Some?
    ensures Symbols(pre + u + post, m).value == Symbols(pre, m).value + Symbols(u, m).value + Symbols(post, m).value
  {
    SymbolsConcat(pre + u, post, m);
    SymbolsConcat(pre, u, m);
  }

  lemma Detected(expanded: seq<nat>, p: seq<nat>, x: seq<nat>, y: seq<nat>, q: seq<nat>)
    requires Below(expanded, 0x40000000) && Symbols5(p) && Symbols5(x) && Symbols5(y) && Symbols5(q)
    requires |x| == |y| <= 6 && x != y
    ensures PolymodOf(expanded + (p + x + q)) != PolymodOf(expanded + (p + y + q))
  {
    hide PolymodOf;
    BurstDetected(expanded + p, x, y, q);
    assert expanded + (p + x + q) == expanded + p + x + q;
    assert expanded + (p + y + q) == expanded + p + y + q;
  }

  // ---- What is accepted ----

  lemma ClosedAccepted(hrp: string, values: seq<nat>)
    requires hrp != "" && |values| >= 6 && Below(values, 32) && PolymodOf(ExpandOf(hrp) + values) == Mask(1)
    ensures HrpOf(Join(hrp, Letters(values))) == Some(hrp)
  {
    hide PolymodOf, Mask, Letters, ExpandOf, LastOne, Symbols, AlphabetMap;
    LettersPlain(values);
    SeparatorFound(hrp, Letters(values));
    JoinParts(hrp, Letters(values));
    LettersBack(values);
  }

  lemma LettersBack(values: seq<nat>)
    requires Below(values, 32)
    ensures Symbols(Letters(values), AlphabetMap()) == Some(values)
  {
    AlphabetDistinct();
    MapOfPositions(ALPHABET);
    SymbolsOfLetters(values, AlphabetMap());
  }

  lemma {:induction false} LettersOfSymbols(s: string, m: SymbolMap)
    requires Symbols(s, m).Some? && forall c <- m :: ALPHABET[m[c]] == c
    ensures Letters(Symbols(s, m).value) == s
  {
    if s != [] {
      var n := |s| - 1;
      LettersOfSymbols(s[..n], m);
      var v := Symbols(s[..n], m).value;
      LettersLast(v + [m[s[n]]]);
      assert (v + [m[s[n]]])[..n] == v;
    }
  }

  lemma MapIsAlphabet()
    ensures forall c <- AlphabetMap() :: ALPHABET[AlphabetMap()[c]] == c
  {
  }

  /** No other six symbols close the same data. */
  lemma ChecksumUnique(hrp: string, data: seq<nat>, sum: seq<nat>)
    requires Below(data, 32) && Below(sum, 32) && |sum| == 6 && PolymodOf(ExpandOf(hrp) + (data + sum)) == Mask(1)
    ensures sum == ChecksumOf(hrp, data)
  {
    hide PolymodOf, Mask, ExpandOf;
    var right := ChecksumOf(hrp, data);
    ExpandBelow(hrp);
    ChecksumBelow(hrp, data);
    Validates(ExpandOf(hrp), data, right);
    if sum != right {
      Detected(ExpandOf(hrp), data, sum, right, []);
      Nil(data + sum);
      Nil(data + right);
    }
  }

  /** Data with its checksum. */
  function Closed(hrp: string, data: seq<nat>): (r: seq<nat>)
    requires Below(data, 32)
    ensures Below(r, 32)
  {
    ChecksumBelow(hrp, data);
    data + ChecksumOf(hrp, data)
  }

  lemma AcceptedIsClosed(addr: string, hrp: string) returns (data: seq<nat>)
    requires HrpOf(addr) == Some(hrp)
    ensures hrp != "" && Below(data, 32) && addr == Join(hrp, Letters(Closed(hrp, data)))
  {
    hide PolymodOf, Mask, Letters, ExpandOf, LastOne, Symbols, AlphabetMap, ChecksumOf;
    var sep := LastOne(addr);
    var values := Symbols(addr[sep + 1..], AlphabetMap()).value;
    var n := |values| - 6;
    data := values[..n];
    assert values == data + values[n..];
    ChecksumUnique(hrp, data, values[n..]);
    MapIsAlphabet();
    LettersOfSymbols(addr[sep + 1..], AlphabetMap());
    assert addr == addr[..sep] + [addr[sep]] + addr[sep + 1..];
  }

  lemma ClosedIsAccepted(hrp: string, data: seq<nat>)
    requires hrp != "" && Below(data, 32)
    ensures HrpOf(Join(hrp, Letters(Closed(hrp, data)))) == Some(hrp)
  {
    hide PolymodOf, Mask, Letters, ExpandOf, HrpOf;
    ExpandBelow(hrp);
    ChecksumBelow(hrp, data);
    Validates(ExpandOf(hrp), data, ChecksumOf(hrp, data));
    ClosedAccepted(hrp, Closed(hrp, data));
  }

  /** A string is accepted exactly when it is its prefix, a separator, and data with the checksum of both. */
  lemma AcceptsExactly(addr: string, hrp: string)
    ensures HrpOf(addr) == Some(hrp) <==>
            hrp != "" && exists data :: Below(data, 32) && addr == Join(hrp, Letters(Closed(hrp, data)))
  {
    hide Letters, Closed, HrpOf, Join;
    if HrpOf(addr) == Some(hrp) {
      var data := AcceptedIsClosed(addr, hrp);
    }
    if hrp != "" && exists data :: Below(data, 32) && addr == Join(hrp, Letters(Closed(hrp, data))) {
      var data :| Below(data, 32) && addr == Join(hrp, Letters(Closed(hrp, data)));
      ClosedIsAccepted(hrp, data);
    }
  }

  /** The reader does not look at the last six symbols, and finds nothing in fewer. */
  lemma ReadsAnyChecksum(hrp: string, bytes: seq<nat>, sum: seq<nat>)
    requires hrp != "" && Below(bytes, 256) && Below(sum, 32) && |sum| <= 6
    ensures |sum| == 6 ==> Below(ToSymbols(bytes), 32) && DecodeOf(Join(hrp, Letters(ToSymbols(bytes) + sum))) == Some(bytes)
    ensures |sum| < 6 ==> DecodeOf(Join(hrp, Letters(sum))) == Some([])
  {
    hide Symbols, LastOne, Letters, ToSymbols, ToBytes, LowerAll;
    ToSymbolsBelow(bytes);
    ReadsLetters(hrp, sum);
    ReadsLetters(hrp, ToSymbols(bytes) + sum);
    BytesBack(bytes);
    NoBytes();
  }

  lemma NoBytes()
    ensures ToBytes([]) == []
  {
  }

  lemma ReadsLetters(hrp: string, values: seq<nat>)
    requires hrp != "" && Below(values, 32)
    ensures DecodeOf(Join(hrp, Letters(values))) == Some(ToBytes(Payload(values)))
  {
    hide Symbols, LastOne, Letters, ToBytes, LowerAll, Payload, AlphabetMap;
    LettersPlain(values);
    SeparatorFound(hrp, Letters(values));
    JoinParts(hrp, Letters(values));
    LettersBack(values);
  }

  /** The reader takes capitals for small letters; the validator accepts no capital. */
  lemma Capitals(hrp: string, data: string)
    requires '1' !in data
    ensures DecodeOf(Join(hrp, data)) == DecodeOf(Join(hrp, LowerAll(data)))
    ensures (exists c <- data :: 'A' <= c <= 'Z') ==> HrpOf(Join(hrp, data)) == None
  {
    hide Symbols, LastOne, PolymodOf;
    assert LowerAll(LowerAll(data)) == LowerAll(data);
    assert '1' !in LowerAll(data);
    SeparatorFound(hrp, data);
    SeparatorFound(hrp, LowerAll(data));
    JoinParts(hrp, data);
    JoinParts(hrp, LowerAll(data));
    if Symbols(data, AlphabetMap()).Some? {
      MapIsAlphabet();
      LettersOfSymbols(data, AlphabetMap());
      AlphabetPlain();
      forall i | 0 <= i < |data|
        ensures Lower(data[i]) == data[i]
      {
        assert data[i] == ALPHABET[Symbols(data, AlphabetMap()).value[i]];
      }
    }
  }

  lemma {:induction false} SymbolsInjective(s: string, t: string, m: SymbolMap, alphabet: string)
    requires m == MapOf(alphabet)
    requires Symbols(s, m).Some? && Symbols(s, m) == Symbols(t, m)
    ensures s == t
  {
    assert |s| == |Symbols(s, m).value| == |t|;
    if s != [] {
      var n := |s| - 1;
      var x, y := Symbols(s[..n], m).value, Symbols(t[..n], m).value;
      assert (x + [m[s[n]]])[..n] == x && (y + [m[t[n]]])[..n] == y;
      assert (x + [m[s[n]]])[n] == m[s[n]] && (y + [m[t[n]]])[n] == m[t[n]];
      SymbolsInjective(s[..n], t[..n], m, alphabet);
      assert s == s[..n] + [s[n]] && t == t[..n] + [t[n]];
    }
  }
}
