/**
 * The holdings map on the wire: grouped by address and policy, every group length-prefixed, and
 * read back by a streaming reader that inserts as it goes.
 */
module HoldingsWire {
  import opened Wrappers
  import opened Bytes
  import opened HeldLeaf
  import opened Ledger
  import opened KeyOrder

  /** A MessagePack value or the header of a compound one. */
  datatype Tok = MapStart(n: nat) | SeqStart(n: nat) | Bin(bytes: Bytes) | Num(n: nat) | Nil

  type Toks = seq<Tok>

  const TWO32: nat := 0x1_0000_0000

  // ---- Grouping ----

  function PolicyOf(e: Entry): Bytes {
    e.key.asset[..if |e.key.asset| < POLICY_LEN then |e.key.asset| else POLICY_LEN]
  }

  function NameOf(e: Entry): Bytes {
    e.key.asset[|PolicyOf(e)|..]
  }

  function AddrOf(e: Entry): AddrKey {
    e.key.addr
  }

  /** One more entry: in the last run, or in a run of its own. */
  function Grow(runs: seq<seq<Entry>>, e: Entry, same: bool): seq<seq<Entry>> {
    if same && runs != [] then runs[..|runs| - 1] + [runs[|runs| - 1] + [e]] else runs + [[e]]
  }

  predicate Continues<K(==)>(es: seq<Entry>, i: nat, group: Entry -> K)
    requires i < |es|
  {
    i > 0 && group(es[i - 1]) == group(es[i])
  }

  /** Maximal runs of entries with the same group key. */
  function Runs<K(==)>(es: seq<Entry>, group: Entry -> K): seq<seq<Entry>> {
    if es == [] then []
    else Grow(Runs(es[..|es| - 1], group), es[|es| - 1], Continues(es, |es| - 1, group))
  }

  function Concat(runs: seq<seq<Entry>>): seq<Entry> {
    if runs == [] then [] else Concat(runs[..|runs| - 1]) + runs[|runs| - 1]
  }

  ghost predicate Uniform<K>(run: seq<Entry>, group: Entry -> K) {
    run != [] && forall e <- run :: group(e) == group(run[0])
  }

  lemma RunsStep<K>(es: seq<Entry>, i: nat, group: Entry -> K)
    requires i < |es|
    ensures Runs(es[..i + 1], group) == Grow(Runs(es[..i], group), es[i], Continues(es, i, group))
  {
    hide Grow;
    assert es[..i + 1][..i] == es[..i];
  }

  lemma ConcatLast(runs: seq<seq<Entry>>, run: seq<Entry>)
    ensures Concat(runs + [run]) == Concat(runs) + run
  {
    assert (runs + [run])[..|runs|] == runs;
  }

  lemma GrowConcat(runs: seq<seq<Entry>>, e: Entry, same: bool)
    ensures Concat(Grow(runs, e, same)) == Concat(runs) + [e]
  {
    if same && runs != [] {
      var m := |runs| - 1;
      ConcatLast(runs[..m], runs[m] + [e]);
      assert Concat(runs) == Concat(runs[..m]) + runs[m];
    } else {
      ConcatLast(runs, [e]);
    }
  }

  /** The runs are uniform, together they are the list, and the last one ends it. */
  ghost predicate AreRuns<K(!new)>(runs: seq<seq<Entry>>, es: seq<Entry>, group: Entry -> K) {
    && Concat(runs) == es
    && (forall i | 0 <= i < |runs| :: Uniform(runs[i], group))
    && (es != [] ==> runs != [] && group(runs[|runs| - 1][0]) == group(es[|es| - 1]))
  }

  lemma {:induction false} RunsAre<K(!new)>(es: seq<Entry>, group: Entry -> K)
    ensures AreRuns(Runs(es, group), es, group)
  {
    hide AreRuns, Grow;
    if es == [] {
      NoRuns(group);
    } else {
      var n := |es| - 1;
      RunsAre(es[..n], group);
      GrowRuns(Runs(es[..n], group), es[..n], es[n], group, Continues(es, n, group));
      assert es == es[..n] + [es[n]];
    }
  }

  lemma NoRuns<K(!new)>(group: Entry -> K)
    ensures AreRuns([], [], group)
  {
  }

  lemma GrowRuns<K(!new)>(runs: seq<seq<Entry>>, es: seq<Entry>, e: Entry, group: Entry -> K, same: bool)
    requires AreRuns(runs, es, group) && same == (es != [] && group(es[|es| - 1]) == group(e))
    ensures AreRuns(Grow(runs, e, same), es + [e], group)
  {
    hide Concat;
    GrowConcat(runs, e, same);
    if same {
      var last := runs[|runs| - 1];
      assert Uniform(last, group);
      assert (last + [e])[0] == last[0];
      assert Uniform(last + [e], group);
    } else {
      assert Uniform([e], group);
    }
  }

  // ---- Writing ----

  function Flat<A>(xs: seq<A>, f: A -> Toks): Toks {
    if xs == [] then [] else Flat(xs[..|xs| - 1], f) + f(xs[|xs| - 1])
  }

  lemma {:induction false} FlatCons<A>(xs: seq<A>, f: A -> Toks, rest: Toks)
    requires xs != []
    ensures Flat(xs, f) + rest == f(xs[0]) + (Flat(xs[1..], f) + rest)
  {
    var n := |xs| - 1;
    if n == 0 {
      assert xs[..0] == [] && xs[1..] == [];
    } else {
      FlatCons(xs[..n], f, f(xs[n]) + rest);
      assert xs[..n][1..] == xs[1..][..n - 1] && xs[1..][n - 1] == xs[n];
      assert Flat(xs, f) + rest == Flat(xs[..n], f) + (f(xs[n]) + rest);
      assert Flat(xs[1..], f) + rest == Flat(xs[1..][..n - 1], f) + (f(xs[n]) + rest);
    }
  }

  function Ints(b: Bytes): (r: Toks)
    ensures |r| == |b|
  {
    seq(|b|, i requires 0 <= i < |b| => Num(b[i]))
  }

  /** A boxed byte slice goes out as an integer array. */
  function WriteInts(b: Bytes): Toks {
    [SeqStart(|b|)] + Ints(b)
  }

  function WriteAddr(k: AddrKey): Toks {
    [SeqStart(2)] + (if k.cred.None? then [Nil] else WriteInts(k.cred.value)) + WriteInts(k.addr)
  }

  /** A plain integer when it fits 64 bits, else a (low, high) pair. */
  function WriteQty(q: nat): Toks {
    if q < TWO64 then [Num(q)] else [SeqStart(2), Num(q % TWO64), Num(q / TWO64 % TWO64)]
  }

  function WriteHeld(h: Held): Toks {
    [SeqStart(2), Num(h.MintSlot())] + WriteQty(h.Qty())
  }

  function WriteName(e: Entry): Toks {
    [SeqStart(2), Bin(NameOf(e))] + WriteHeld(e.held)
  }

  function WritePolicyRun(run: seq<Entry>): Toks {
    if run == [] then [] else [SeqStart(2), Bin(PolicyOf(run[0])), SeqStart(|run|)] + Flat(run, WriteName)
  }

  function WritePolicies(tokens: seq<Entry>): Toks {
    [SeqStart(|Runs(tokens, PolicyOf)|)] + Flat(Runs(tokens, PolicyOf), WritePolicyRun)
  }

  function WriteAddrRun(run: seq<Entry>): Toks {
    if run == [] then [] else WriteAddr(AddrOf(run[0])) + WritePolicies(run)
  }

  function WriteHoldings(es: seq<Entry>): Toks {
    [MapStart(|Runs(es, AddrOf)|)] + Flat(Runs(es, AddrOf), WriteAddrRun)
  }

  /** The counting pass: how often the group changes. */
  method CountRuns<K(==)>(es: seq<Entry>, group: Entry -> K) returns (n: nat)
    ensures n == |Runs(es, group)|
  {
    hide Runs;
    n := 0;
    var last: Option<K> := None;
    RunsNone(group);
    for i := 0 to |es|
      invariant n == |Runs(es[..i], group)| && (i > 0 ==> n > 0)
      invariant last == if i == 0 then None else Some(group(es[i - 1]))
    {
      RunsStep(es, i, group);
      if last != Some(group(es[i])) {
        n := n + 1;
        last := Some(group(es[i]));
      }
    }
    assert es[..|es|] == es;
  }

  lemma RunsNone<K>(group: Entry -> K)
    ensures Runs([], group) == []
  {
  }

  method SerializeNames(run: seq<Entry>) returns (out: Toks)
    ensures out == [SeqStart(|run|)] + Flat(run, WriteName)
  {
    hide WriteName;
    out := [SeqStart(|run|)];
    for i := 0 to |run|
      invariant out == [SeqStart(|run|)] + Flat(run[..i], WriteName)
    {
      assert run[..i + 1][..i] == run[..i];
      out := out + WriteName(run[i]);
    }
    assert run[..|run|] == run;
  }

  method SerializePolicies(tokens: seq<Entry>) returns (out: Toks)
    ensures out == WritePolicies(tokens)
  {
    hide WriteName, Runs, WritePolicyRun, PolicyOf, Flat;
    var runs := CountRuns(tokens, PolicyOf);
    out := [SeqStart(runs)];
    ghost var done: seq<seq<Entry>> := [];
    var i := 0;
    RunsNone(PolicyOf);
    FlatNone(WritePolicyRun);
    while i < |tokens|
      invariant 0 <= i <= |tokens| && done == Runs(tokens[..i], PolicyOf)
      invariant out == [SeqStart(runs)] + Flat(done, WritePolicyRun)
      invariant 0 < i < |tokens| ==> PolicyOf(tokens[i - 1]) != PolicyOf(tokens[i])
    {
      var policy, start := PolicyOf(tokens[i]), i;
      i := PolicyEnd(tokens, policy, done, i);
      var names := SerializeNames(tokens[start..i]);
      RunDone(done, tokens[start..i], names);
      out := out + ([SeqStart(2), Bin(policy)] + names);
      done := done + [tokens[start..i]];
    }
    assert tokens[..i] == tokens;
  }

  /** The inner walk to the end of one policy's run. */
  method PolicyEnd(tokens: seq<Entry>, policy: Bytes, ghost done: seq<seq<Entry>>, start: nat) returns (i: nat)
    requires start < |tokens| && policy == PolicyOf(tokens[start]) && done == Runs(tokens[..start], PolicyOf)
    requires start > 0 ==> PolicyOf(tokens[start - 1]) != policy
    ensures start < i <= |tokens| && (i < |tokens| ==> PolicyOf(tokens[i]) != policy)
    ensures PolicyOf(tokens[i - 1]) == policy
    ensures Runs(tokens[..i], PolicyOf) == done + [tokens[start..i]]
  {
    hide PolicyOf, Runs;
    i := start;
    while i < |tokens| && PolicyOf(tokens[i]) == policy
      invariant start <= i <= |tokens|
      invariant i > start ==> PolicyOf(tokens[i - 1]) == policy
      invariant Runs(tokens[..i], PolicyOf) == if i == start then done else done + [tokens[start..i]]
      decreases |tokens| - i
    {
      ExtendRun(tokens, PolicyOf, done, start, i);
      i := i + 1;
    }
  }

  lemma ExtendRun<K>(es: seq<Entry>, group: Entry -> K, done: seq<seq<Entry>>, start: nat, i: nat)
    requires start <= i < |es| && Runs(es[..i], group) == if i == start then done else done + [es[start..i]]
    requires Continues(es, i, group) == (i > start)
    ensures Runs(es[..i + 1], group) == done + [es[start..i + 1]]
  {
    hide Runs;
    RunsStep(es, i, group);
    assert es[start..i + 1] == es[start..i] + [es[i]];
    if i > start {
    } else {
      assert es[start..i + 1] == [es[i]];
    }
  }

  lemma FlatNone<A>(f: A -> Toks)
    ensures Flat([], f) == []
  {
  }

  lemma FlatLast<A>(xs: seq<A>, x: A, f: A -> Toks)
    ensures Flat(xs + [x], f) == Flat(xs, f) + f(x)
  {
    assert (xs + [x])[..|xs|] == xs;
  }

  lemma RunDone(done: seq<seq<Entry>>, run: seq<Entry>, names: Toks)
    requires run != [] && names == [SeqStart(|run|)] + Flat(run, WriteName)
    ensures Flat(done + [run], WritePolicyRun) == Flat(done, WritePolicyRun) + ([SeqStart(2), Bin(PolicyOf(run[0]))] + names)
  {
    hide WriteName, Flat;
    FlatLast(done, run, WritePolicyRun);
    assert WritePolicyRun(run) == [SeqStart(2), Bin(PolicyOf(run[0]))] + names;
  }

  method SerializeHoldings(es: seq<Entry>) returns (out: Toks)
    ensures out == WriteHoldings(es)
  {
    hide WritePolicies, WriteAddr, Runs, Flat, Grow;
    var addresses := CountRuns(es, AddrOf);
    out := [MapStart(addresses)];
    var addr: Option<AddrKey>, tokens := None, [];
    ghost var done: seq<seq<Entry>> := [];
    RunsNone(AddrOf);
    FlatNone(WriteAddrRun);
    for i := 0 to |es|
      invariant addr == if i == 0 then None else Some(AddrOf(es[i - 1]))
      invariant i > 0 ==> tokens != [] && AddrOf(tokens[0]) == AddrOf(es[i - 1])
      invariant Runs(es[..i], AddrOf) == if i == 0 then [] else done + [tokens]
      invariant out == [MapStart(addresses)] + Flat(done, WriteAddrRun)
      invariant i == 0 ==> done == [] && tokens == []
    {
      OneMore(es, i, done, tokens);
      if addr != Some(AddrOf(es[i])) {
        if addr.Some? {
          var policies := SerializePolicies(tokens);
          FlatLast(done, tokens, WriteAddrRun);
          out := out + (WriteAddr(addr.value) + policies);
          done := done + [tokens];
        }
        addr := Some(AddrOf(es[i]));
        tokens := [];
      }
      assert [] + [es[i]] == [es[i]];
      tokens := tokens + [es[i]];
      assert i == 0 ==> done + [tokens] == [[es[0]]];
    }
    assert es[..|es|] == es;
    if addr.Some? {
      var policies := SerializePolicies(tokens);
      FlatLast(done, tokens, WriteAddrRun);
      out := out + (WriteAddr(addr.value) + policies);
    }
  }

  lemma OneMore(es: seq<Entry>, i: nat, done: seq<seq<Entry>>, tokens: seq<Entry>)
    requires i < |es| && Runs(es[..i], AddrOf) == if i == 0 then [] else done + [tokens]
    ensures Runs(es[..i + 1], AddrOf) ==
            if i == 0 then [[es[0]]]
            else if AddrOf(es[i - 1]) == AddrOf(es[i]) then done + [tokens + [es[i]]]
            else done + [tokens] + [[es[i]]]
  {
    hide Runs;
    RunsStep(es, i, AddrOf);
    if i > 0 {
    }
  }

  // ---- Reading ----

  /** A value and the tokens after it, or a malformed stream. */
  datatype Read<+T> = Ok(value: T, rest: Toks) | Malformed

  function ReadBytes(n: nat, ts: Toks): Read<Bytes> {
    if n == 0 then Ok([], ts)
    else if ts == [] || !ts[0].Num? || ts[0].n >= 256 then Malformed
    else match ReadBytes(n - 1, ts[1..])
      case Ok(bytes, rest) => Ok([ts[0].n as Byte] + bytes, rest)
      case Malformed => Malformed
  }

  function ReadInts(ts: Toks): Read<Bytes> {
    if ts == [] || !ts[0].SeqStart? then Malformed else ReadBytes(ts[0].n, ts[1..])
  }

  function ReadCred(ts: Toks): Read<Option<Bytes>> {
    if ts != [] && ts[0].Nil? then Ok(None, ts[1..])
    else match ReadInts(ts)
      case Ok(bytes, rest) => Ok(Some(bytes), rest)
      case Malformed => Malformed
  }

  function ReadAddr(ts: Toks): Read<AddrKey> {
    if ts == [] || ts[0] != SeqStart(2) then Malformed
    else match ReadCred(ts[1..])
      case Malformed => Malformed
      case Ok(cred, more) =>
        match ReadInts(more)
        case Malformed => Malformed
        case Ok(addr, rest) => Ok(AddrKey(cred, addr), rest)
  }

  function ReadQty(ts: Toks): Read<nat> {
    if ts != [] && ts[0].Num? && ts[0].n < TWO64 then Ok(ts[0].n, ts[1..])
    else if |ts| >= 3 && ts[0] == SeqStart(2) && ts[1].Num? && ts[1].n < TWO64 && ts[2].Num? && ts[2].n < TWO64
    then Ok(ts[2].n * TWO64 + ts[1].n, ts[3..])
    else Malformed
  }

  function ReadHeld(ts: Toks): Read<Held> {
    if |ts| < 2 || ts[0] != SeqStart(2) || !ts[1].Num? || ts[1].n >= TWO32 then Malformed
    else match ReadQty(ts[2..])
      case Ok(q, rest) => Ok(New(q, ts[1].n), rest)
      case Malformed => Malformed
  }

  /** `n` names of one policy run, inserted as they arrive. */
  function ReadNames(n: nat, addr: AddrKey, policy: Bytes, out: Holdings, ts: Toks): Read<Holdings>
    decreases n
  {
    if n == 0 then Ok(out, ts)
    else if |ts| < 2 || ts[0] != SeqStart(2) || !ts[1].Bin? then Malformed
    else match ReadHeld(ts[2..])
      case Ok(held, rest) => ReadNames(n - 1, addr, policy, out[HeldKey(addr, policy + ts[1].bytes) := held], rest)
      case Malformed => Malformed
  }

  function ReadPolicies(n: nat, addr: AddrKey, out: Holdings, ts: Toks): Read<Holdings>
    decreases n
  {
    if n == 0 then Ok(out, ts)
    else if |ts| < 3 || ts[0] != SeqStart(2) || !ts[1].Bin? || !ts[2].SeqStart? then Malformed
    else match ReadNames(ts[2].n, addr, ts[1].bytes, out, ts[3..])
      case Ok(more, rest) => ReadPolicies(n - 1, addr, more, rest)
      case Malformed => Malformed
  }

  /** The map read so far and the address keys interned so far, in order. */
  datatype Loaded = Loaded(holdings: Holdings, interned: seq<AddrKey>)

  function ReadAddrs(n: nat, acc: Loaded, ts: Toks): Read<Loaded>
    decreases n
  {
    if n == 0 then Ok(acc, ts)
    else match ReadAddr(ts)
      case Malformed => Malformed
      case Ok(addr, more) =>
        if more == [] || !more[0].SeqStart? then Malformed
        else match ReadPolicies(more[0].n, addr, acc.holdings, more[1..])
          case Malformed => Malformed
          case Ok(holdings, rest) => ReadAddrs(n - 1, Loaded(holdings, acc.interned + [addr]), rest)
  }

  function ReadHoldings(ts: Toks): Read<Loaded> {
    if ts == [] || !ts[0].MapStart? then Malformed else ReadAddrs(ts[0].n, Loaded(map[], []), ts[1..])
  }

  // ---- Reading what was written ----

  lemma {:induction false} BytesBack(b: Bytes, rest: Toks)
    ensures ReadBytes(|b|, Ints(b) + rest) == Ok(b, rest)
  {
    if b == [] {
      assert Ints(b) + rest == rest;
    } else {
      BytesBack(b[1..], rest);
      assert (Ints(b) + rest)[1..] == Ints(b[1..]) + rest;
      assert b == [b[0]] + b[1..];
    }
  }

  lemma IntsBack(b: Bytes, rest: Toks)
    ensures ReadInts(WriteInts(b) + rest) == Ok(b, rest)
  {
    BytesBack(b, rest);
    assert (WriteInts(b) + rest)[1..] == Ints(b) + rest;
  }

  lemma AddrBack(k: AddrKey, rest: Toks)
    ensures ReadAddr(WriteAddr(k) + rest) == Ok(k, rest)
  {
    hide ReadInts, WriteInts;
    var ts, more := WriteAddr(k) + rest, WriteInts(k.addr) + rest;
    IntsBack(k.addr, rest);
    if k.cred.None? {
      assert ts[1..] == [Nil] + more;
    } else {
      assert ts[1..] == WriteInts(k.cred.value) + more;
      IntsBack(k.cred.value, more);
      IntsHead(k.cred.value);
    }
  }

  lemma IntsHead(b: Bytes)
    ensures |WriteInts(b)| > 0 && !WriteInts(b)[0].Nil?
  {
  }

  lemma HeldBack(h: Held, rest: Toks)
    ensures ReadHeld(WriteHeld(h) + rest) == Ok(h, rest)
  {
    var q := h.Qty();
    var ts := WriteHeld(h) + rest;
    assert ts[2..] == WriteQty(q) + rest;
    NewAgain(h);
  }

  lemma {:induction false} NamesBack(run: seq<Entry>, addr: AddrKey, policy: Bytes, out: Holdings, rest: Toks)
    requires forall e <- run :: AddrOf(e) == addr && PolicyOf(e) == policy
    ensures ReadNames(|run|, addr, policy, out, Flat(run, WriteName) + rest) == Ok(InsertAll(out, run), rest)
  {
    hide ReadHeld, WriteHeld;
    if run == [] {
      assert Flat(run, WriteName) + rest == rest;
    } else {
      var e, tail := run[0], Flat(run[1..], WriteName) + rest;
      FlatCons(run, WriteName, rest);
      var ts := WriteName(e) + tail;
      assert ts[2..] == WriteHeld(e.held) + tail;
      HeldBack(e.held, tail);
      assert e in run && policy + NameOf(e) == e.key.asset;
      NamesBack(run[1..], addr, policy, out[e.key := e.held], rest);
      InsertFirst(out, run);
    }
  }

  lemma InsertFirst(m: Holdings, es: seq<Entry>)
    requires es != []
    ensures InsertAll(m, es) == InsertAll(m[es[0].key := es[0].held], es[1..])
  {
    var first := [es[0]];
    assert first[..0] == [] && es == first + es[1..];
    InsertAllConcat(m, first, es[1..]);
  }

  lemma {:induction false} PoliciesBack(runs: seq<seq<Entry>>, addr: AddrKey, out: Holdings, rest: Toks)
    requires forall i | 0 <= i < |runs| :: Uniform(runs[i], PolicyOf) && forall e <- runs[i] :: AddrOf(e) == addr
    ensures ReadPolicies(|runs|, addr, out, Flat(runs, WritePolicyRun) + rest) == Ok(InsertAll(out, Concat(runs)), rest)
  {
    hide ReadNames, WriteName, WritePolicyRun, Flat, InsertAll, Concat, Uniform, PolicyOf;
    if runs == [] {
      FlatNone(WritePolicyRun);
      InsertNone(out);
      assert Flat(runs, WritePolicyRun) + rest == rest;
    } else {
      var run, tail := runs[0], Flat(runs[1..], WritePolicyRun) + rest;
      FlatCons(runs, WritePolicyRun, rest);
      PolicyRunBack(run, addr, out, tail);
      PoliciesBack(runs[1..], addr, InsertAll(out, run), rest);
      InsertRuns(out, runs);
    }
  }

  lemma PolicyRunBack(run: seq<Entry>, addr: AddrKey, out: Holdings, tail: Toks)
    requires Uniform(run, PolicyOf) && forall e <- run :: AddrOf(e) == addr
    ensures var ts := WritePolicyRun(run) + tail;
            && |ts| >= 3 && ts[0] == SeqStart(2) && ts[1].Bin? && ts[2].SeqStart?
            && ReadNames(ts[2].n, addr, ts[1].bytes, out, ts[3..]) == Ok(InsertAll(out, run), tail)
  {
    hide ReadNames, WriteName, Flat, InsertAll, PolicyOf;
    var ts := WritePolicyRun(run) + tail;
    assert ts[3..] == Flat(run, WriteName) + tail;
    NamesBack(run, addr, PolicyOf(run[0]), out, tail);
  }

  lemma {:induction false} ConcatCons(runs: seq<seq<Entry>>)
    requires runs != []
    ensures Concat(runs) == runs[0] + Concat(runs[1..])
  {
    hide Concat;
    var n := |runs| - 1;
    assert runs == runs[..n] + [runs[n]];
    ConcatLast(runs[..n], runs[n]);
    if n == 0 {
      ConcatOne(runs[0]);
      assert runs[..0] == [] && runs[1..] == [];
    } else {
      ConcatCons(runs[..n]);
      assert runs[..n][0] == runs[0] && runs[..n][1..] == runs[1..n];
      assert runs[1..] == runs[1..n] + [runs[n]];
      ConcatAssoc(runs[0], runs[1..n], runs[n]);
    }
  }

  lemma ConcatOne(run: seq<Entry>)
    ensures Concat([]) == [] && [] + run == run == run + []
  {
  }

  lemma ConcatAssoc(first: seq<Entry>, runs: seq<seq<Entry>>, last: seq<Entry>)
    ensures first + Concat(runs) + last == first + Concat(runs + [last])
  {
    hide Concat;
    ConcatLast(runs, last);
  }

  lemma InsertRuns(m: Holdings, runs: seq<seq<Entry>>)
    requires runs != []
    ensures InsertAll(m, Concat(runs)) == InsertAll(InsertAll(m, runs[0]), Concat(runs[1..]))
  {
    ConcatCons(runs);
    InsertAllConcat(m, runs[0], Concat(runs[1..]));
  }

  function Lead(run: seq<Entry>): AddrKey {
    if run == [] then AddrKey(None, []) else AddrOf(run[0])
  }

  function RunAddrs(runs: seq<seq<Entry>>): (r: seq<AddrKey>)
    ensures |r| == |runs|
  {
    seq(|runs|, i requires 0 <= i < |runs| => Lead(runs[i]))
  }

  lemma {:induction false} AddrsBack(runs: seq<seq<Entry>>, acc: Loaded, rest: Toks)
    requires forall i | 0 <= i < |runs| :: Uniform(runs[i], AddrOf)
    ensures ReadAddrs(|runs|, acc, Flat(runs, WriteAddrRun) + rest) ==
            Ok(Loaded(InsertAll(acc.holdings, Concat(runs)), acc.interned + RunAddrs(runs)), rest)
  {
    hide ReadAddr, WriteAddr, ReadPolicies, WritePolicies, WriteAddrRun, Flat, InsertAll, Concat, Uniform;
    if runs == [] {
      FlatNone(WriteAddrRun);
      assert Flat(runs, WriteAddrRun) + rest == rest;
      assert acc.interned + RunAddrs(runs) == acc.interned;
      InsertNone(acc.holdings);
    } else {
      var run, tail := runs[0], Flat(runs[1..], WriteAddrRun) + rest;
      FlatCons(runs, WriteAddrRun, rest);
      AddrRunBack(run, acc.holdings, tail);
      AddrsBack(runs[1..], Loaded(InsertAll(acc.holdings, run), acc.interned + [Lead(run)]), rest);
      InsertRuns(acc.holdings, runs);
      assert acc.interned + RunAddrs(runs) == acc.interned + [Lead(run)] + RunAddrs(runs[1..]);
    }
  }

  lemma InsertNone(m: Holdings)
    ensures InsertAll(m, Concat([])) == m
  {
  }

  lemma AddrRunBack(run: seq<Entry>, out: Holdings, tail: Toks)
    requires Uniform(run, AddrOf)
    ensures ReadAddr(WriteAddrRun(run) + tail) == Ok(Lead(run), WritePolicies(run) + tail)
    ensures var more := WritePolicies(run) + tail;
            more != [] && more[0].SeqStart? && ReadPolicies(more[0].n, Lead(run), out, more[1..]) == Ok(InsertAll(out, run), tail)
  {
    hide ReadAddr, WriteAddr, ReadPolicies, WritePolicyRun, Runs, Flat, InsertAll, Concat;
    var addr, more := AddrOf(run[0]), WritePolicies(run) + tail;
    assert WriteAddrRun(run) + tail == WriteAddr(addr) + more;
    AddrBack(addr, more);
    var policies := Runs(run, PolicyOf);
    RunsAre(run, PolicyOf);
    forall i | 0 <= i < |policies|
      ensures forall e <- policies[i] :: AddrOf(e) == addr
    {
      InConcat(policies, i);
    }
    assert more[1..] == Flat(policies, WritePolicyRun) + tail;
    PoliciesBack(policies, addr, out, tail);
  }

  lemma {:induction false} InConcat(runs: seq<seq<Entry>>, i: nat)
    requires i < |runs|
    ensures forall e <- runs[i] :: e in Concat(runs)
  {
    var n := |runs| - 1;
    if i < n {
      InConcat(runs[..n], i);
    }
  }

  /** In key order an address never comes back, so each address is emitted once. */
  ghost predicate Increasing(a: seq<AddrKey>) {
    forall i, j | 0 <= i < j < |a| :: AddrLess(a[i], a[j])
  }

  lemma {:induction false} RunAddrsIncrease(es: seq<Entry>)
    requires SortedEntries(es)
    ensures Increasing(RunAddrs(Runs(es, AddrOf)))
  {
    hide KeyLess, Grow, Increasing, AddrLess;
    if es == [] {
      NoneIncrease();
    } else {
      var n := |es| - 1;
      RunAddrsIncrease(es[..n]);
      RunsAre(es[..n], AddrOf);
      if n > 0 {
        StepUp(es[n - 1].key, es[n].key);
      }
      GrowIncreases(Runs(es[..n], AddrOf), es[..n], es[n], Continues(es, n, AddrOf));
    }
  }

  lemma NoneIncrease()
    ensures Increasing(RunAddrs([]))
  {
  }

  lemma GrowIncreases(runs: seq<seq<Entry>>, es: seq<Entry>, e: Entry, same: bool)
    requires AreRuns(runs, es, AddrOf) && Increasing(RunAddrs(runs)) && (es == [] ==> runs == [])
    requires same == (es != [] && AddrOf(es[|es| - 1]) == AddrOf(e))
    requires es != [] && !same ==> AddrLess(AddrOf(es[|es| - 1]), AddrOf(e))
    ensures Increasing(RunAddrs(Grow(runs, e, same)))
  {
    hide AddrLess, Concat;
    var a, r := RunAddrs(runs), RunAddrs(Grow(runs, e, same));
    assert forall i | 0 <= i < |runs| :: Uniform(runs[i], AddrOf);
    if same {
      assert (runs[|runs| - 1] + [e])[0] == runs[|runs| - 1][0];
      assert r == a;
    } else {
      assert r == a + [AddrOf(e)];
      forall i | 0 <= i < |a|
        ensures AddrLess(a[i], AddrOf(e))
      {
        assert a[|a| - 1] == AddrOf(es[|es| - 1]);
        if i < |a| - 1 {
          AddrTransitive(a[i], a[|a| - 1], AddrOf(e));
        }
      }
    }
  }

  lemma StepUp(a: HeldKey, b: HeldKey)
    requires KeyLess(a, b)
    ensures a.addr == b.addr || AddrLess(a.addr, b.addr)
  {
  }

  lemma IncreasingDistinct(a: seq<AddrKey>)
    requires Increasing(a)
    ensures forall i, j | 0 <= i < j < |a| :: a[i] != a[j]
  {
    hide AddrLess;
    forall i, j | 0 <= i < j < |a|
      ensures a[i] != a[j]
    {
      AddrOrder(a[i], a[j]);
    }
  }

  /**
   * Reading what was written gives the map back and leaves the rest of the stream untouched, and
   * in key order every address is interned exactly once, as many as announced.
   */
  lemma StreamRoundTrip(es: seq<Entry>, rest: Toks)
    requires SortedEntries(es)
    ensures var interned := RunAddrs(Runs(es, AddrOf));
            && ReadHoldings(WriteHoldings(es) + rest) == Ok(Loaded(MapOf(es), interned), rest)
            && WriteHoldings(es)[0] == MapStart(|interned|)
            && (forall i, j | 0 <= i < j < |interned| :: interned[i] != interned[j])
            && (forall k :: k in interned <==> exists e <- es :: AddrOf(e) == k)
  {
    hide Runs, Flat, WriteAddrRun, ReadAddrs, Concat, InsertAll, SortedEntries, Uniform;
    var runs := Runs(es, AddrOf);
    RunsAre(es, AddrOf);
    AddrsBack(runs, Loaded(map[], []), rest);
    assert (WriteHoldings(es) + rest)[1..] == Flat(runs, WriteAddrRun) + rest;
    assert [] + RunAddrs(runs) == RunAddrs(runs);
    RunAddrsIncrease(es);
    IncreasingDistinct(RunAddrs(runs));
    EveryAddress(runs);
  }

  lemma {:induction false} EveryAddress(runs: seq<seq<Entry>>)
    requires forall i | 0 <= i < |runs| :: Uniform(runs[i], AddrOf)
    ensures forall k :: k in RunAddrs(runs) <==> exists e <- Concat(runs) :: AddrOf(e) == k
  {
    if runs != [] {
      var n := |runs| - 1;
      EveryAddress(runs[..n]);
      assert RunAddrs(runs) == RunAddrs(runs[..n]) + [Lead(runs[n])];
      assert Uniform(runs[n], AddrOf) && runs[n][0] in runs[n];
      assert forall e :: e in Concat(runs) <==> e in Concat(runs[..n]) || e in runs[n];
    }
  }

  // ---- Streams cut short ----

  /** One read is another with `more` left behind it. */
  predicate Longer<T(==)>(a: Read<T>, b: Read<T>, more: Toks) {
    a.Ok? ==> b == Ok(a.value, a.rest + more)
  }

  lemma {:induction false} MoreBytes(n: nat, ts: Toks, more: Toks)
    ensures Longer(ReadBytes(n, ts), ReadBytes(n, ts + more), more)
  {
    if n > 0 && ts != [] {
      assert (ts + more)[1..] == ts[1..] + more;
      MoreBytes(n - 1, ts[1..], more);
    }
  }

  lemma MoreInts(ts: Toks, more: Toks)
    ensures Longer(ReadInts(ts), ReadInts(ts + more), more)
  {
    if ts != [] && ts[0].SeqStart? {
      assert (ts + more)[1..] == ts[1..] + more;
      MoreBytes(ts[0].n, ts[1..], more);
    }
  }

  lemma MoreCred(ts: Toks, more: Toks)
    ensures Longer(ReadCred(ts), ReadCred(ts + more), more)
  {
    if ts != [] {
      assert (ts + more)[1..] == ts[1..] + more;
      MoreInts(ts, more);
    }
  }

  lemma MoreAddr(ts: Toks, more: Toks)
    ensures Longer(ReadAddr(ts), ReadAddr(ts + more), more)
  {
    hide ReadCred, ReadInts;
    if ts != [] {
      assert (ts + more)[1..] == ts[1..] + more;
      MoreCred(ts[1..], more);
      var cred := ReadCred(ts[1..]);
      if cred.Ok? {
        MoreInts(cred.rest, more);
      }
    }
  }

  lemma MoreQty(ts: Toks, more: Toks)
    ensures Longer(ReadQty(ts), ReadQty(ts + more), more)
  {
    if |ts| >= 1 {
      assert (ts + more)[1..] == ts[1..] + more;
    }
    if |ts| >= 3 {
      assert (ts + more)[3..] == ts[3..] + more;
    }
  }

  lemma MoreHeld(ts: Toks, more: Toks)
    ensures Longer(ReadHeld(ts), ReadHeld(ts + more), more)
  {
    hide ReadQty, New;
    if |ts| >= 2 {
      assert (ts + more)[2..] == ts[2..] + more;
      MoreQty(ts[2..], more);
    }
  }

  lemma {:induction false} MoreNames(n: nat, addr: AddrKey, policy: Bytes, out: Holdings, ts: Toks, more: Toks)
    ensures Longer(ReadNames(n, addr, policy, out, ts), ReadNames(n, addr, policy, out, ts + more), more)
    decreases n
  {
    hide ReadHeld;
    if n > 0 && |ts| >= 2 && ts[1].Bin? {
      assert (ts + more)[2..] == ts[2..] + more;
      MoreHeld(ts[2..], more);
      var held := ReadHeld(ts[2..]);
      if held.Ok? {
        MoreNames(n - 1, addr, policy, out[HeldKey(addr, policy + ts[1].bytes) := held.value], held.rest, more);
      }
    }
  }

  lemma {:induction false} MorePolicies(n: nat, addr: AddrKey, out: Holdings, ts: Toks, more: Toks)
    ensures Longer(ReadPolicies(n, addr, out, ts), ReadPolicies(n, addr, out, ts + more), more)
    decreases n
  {
    hide ReadNames;
    if n > 0 && |ts| >= 3 && ts[1].Bin? && ts[2].SeqStart? {
      assert (ts + more)[3..] == ts[3..] + more;
      MoreNames(ts[2].n, addr, ts[1].bytes, out, ts[3..], more);
      var names := ReadNames(ts[2].n, addr, ts[1].bytes, out, ts[3..]);
      if names.Ok? {
        MorePolicies(n - 1, addr, names.value, names.rest, more);
      }
    }
  }

  lemma {:induction false} MoreAddrs(n: nat, acc: Loaded, ts: Toks, more: Toks)
    ensures Longer(ReadAddrs(n, acc, ts), ReadAddrs(n, acc, ts + more), more)
    decreases n
  {
    hide ReadAddr, ReadPolicies;
    if n > 0 {
      MoreAddr(ts, more);
      var addr := ReadAddr(ts);
      if addr.Ok? && addr.rest != [] && addr.rest[0].SeqStart? {
        assert (addr.rest + more)[1..] == addr.rest[1..] + more;
        MorePolicies(addr.rest[0].n, addr.value, acc.holdings, addr.rest[1..], more);
        var policies := ReadPolicies(addr.rest[0].n, addr.value, acc.holdings, addr.rest[1..]);
        if policies.Ok? {
          MoreAddrs(n - 1, Loaded(policies.value, acc.interned + [addr.value]), policies.rest, more);
        }
      }
    }
  }

  /** A stream cut short anywhere is malformed. */
  lemma CutShort(es: seq<Entry>, k: nat)
    requires SortedEntries(es) && k < |WriteHoldings(es)|
    ensures ReadHoldings(WriteHoldings(es)[..k]) == Malformed
  {
    hide SortedEntries, WriteHoldings, ReadAddrs, Runs;
    var all := WriteHoldings(es);
    var ts, more := all[..k], all[k..];
    assert ts + more == all == all + [];
    StreamRoundTrip(es, []);
    if ReadHoldings(ts).Ok? {
      assert (ts + more)[1..] == ts[1..] + more;
      MoreAddrs(ts[0].n, Loaded(map[], []), ts[1..], more);
      assert false;
    }
  }

  /** Quantities above 64 bits come as their low and their high half; a slot of more than 32 bits is refused. */
  lemma PairRead(low: nat, high: nat, slot: nat, rest: Toks)
    requires low < TWO64 && high < TWO64
    ensures ReadQty([SeqStart(2), Num(low), Num(high)] + rest) == Ok(high * TWO64 + low, rest)
    ensures var held := ReadHeld([SeqStart(2), Num(slot), Num(low)] + rest);
            if slot < TWO32 then held.Ok? && held.value.Qty() == low && held.value.MintSlot() == slot % TWO30 && held.rest == rest
            else held == Malformed
  {
    hide New, Held.Qty, Held.MintSlot;
    var pair, leaf := [SeqStart(2), Num(low), Num(high)] + rest, [SeqStart(2), Num(slot), Num(low)] + rest;
    assert pair[3..] == rest && leaf[2..] == [Num(low)] + rest && leaf[2..][1..] == rest;
    NewFields(low, slot);
    assert low % TWO98 == low;
  }

  /** One token of one address on the wire. */
  lemma OneEntry(cred: Byte, addr: Byte, policy: Bytes, name: Bytes, slot: nat, qty: nat)
    requires |policy| == 28 && slot < TWO30 && qty < TWO64
    ensures WriteHoldings([Entry(HeldKey(AddrKey(Some([cred]), [addr]), policy + name), New(qty, slot))]) ==
            [MapStart(1), SeqStart(2), SeqStart(1), Num(cred), SeqStart(1), Num(addr),
             SeqStart(1), SeqStart(2), Bin(policy), SeqStart(1), SeqStart(2), Bin(name), SeqStart(2), Num(slot), Num(qty)]
  {
    hide WriteName, WriteAddr, Runs, Flat, PolicyOf, New;
    var e := Entry(HeldKey(AddrKey(Some([cred]), [addr]), policy + name), New(qty, slot));
    OneRun(e, AddrOf);
    OneRun(e, PolicyOf);
    OneFlat([e], WriteAddrRun);
    OneFlat([e], WritePolicyRun);
    OneFlat(e, WriteName);
    OneName(e, policy, name, slot, qty);
    OneAddr(cred, addr);
  }

  lemma OneName(e: Entry, policy: Bytes, name: Bytes, slot: nat, qty: nat)
    requires |policy| == 28 && slot < TWO30 && qty < TWO64 && e.key.asset == policy + name && e.held == New(qty, slot)
    ensures PolicyOf(e) == policy && WriteName(e) == [SeqStart(2), Bin(name), SeqStart(2), Num(slot), Num(qty)]
  {
    hide New, Held.Qty, Held.MintSlot;
    NewFields(qty, slot);
    assert qty % TWO98 == qty && slot % TWO30 == slot;
  }

  lemma OneAddr(cred: Byte, addr: Byte)
    ensures WriteAddr(AddrKey(Some([cred]), [addr])) == [SeqStart(2), SeqStart(1), Num(cred), SeqStart(1), Num(addr)]
  {
  }

  lemma OneRun<K>(e: Entry, group: Entry -> K)
    ensures Runs([e], group) == [[e]]
  {
    assert [e][..0] == [];
  }

  lemma OneFlat<A>(x: A, f: A -> Toks)
    ensures Flat([x], f) == f(x)
  {
    assert [x][..0] == [];
  }
}
