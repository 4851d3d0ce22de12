/**
 * What the stake change shown of a transaction means, against what its subject has before and after
 * it, and what it takes for a block to be recorded for a subject.
 */
module PageChange {
  import opened Wrappers
  import opened Bytes
  import opened Sums
  import opened FeedLog
  import opened Ledger
  import opened Unspent
  import opened Stakes
  import opened Rules
  import D = Delegations
  import H = Handles
  import S = Significance
  import opened Chain
  import opened Rendered

  // ---- What one credential moves ----

  function MoveSum(moves: seq<S.Move>, c: Bytes): int {
    if moves == [] then 0
    else MoveSum(moves[..|moves| - 1], c) + (if moves[|moves| - 1].cred == c then moves[|moves| - 1].amount else 0)
  }

  lemma {:induction false} MoveSumConcat(a: seq<S.Move>, b: seq<S.Move>, c: Bytes)
    ensures MoveSum(a + b, c) == MoveSum(a, c) + MoveSum(b, c)
  {
    if b == [] {
      assert a + b == a;
    } else {
      var n := |b| - 1;
      assert (a + b)[..|a + b| - 1] == a + b[..n];
      MoveSumConcat(a, b[..n], c);
    }
  }

  lemma LegSum(io: Io, sign: int, c: Bytes)
    ensures MoveSum(S.LegMove(S.Leg(Some(io.output.address), io.output.lovelace), sign), c) == sign * StakeAt(c)(io.output)
  {
    var one := S.LegMove(S.Leg(Some(io.output.address), io.output.lovelace), sign);
    if one != [] {
      assert one[..0] == [];
    }
  }

  lemma {:induction false} LegsSum(ios: seq<Io>, sign: int, c: Bytes)
    ensures MoveSum(S.LegMoves(Legs(ios), sign), c) == sign * ListTotal(ios, StakeAt(c))
  {
    hide S.LegMove, StakeAt;
    if ios != [] {
      var n := |ios| - 1;
      assert Legs(ios)[..n] == Legs(ios[..n]);
      LegsSum(ios[..n], sign, c);
      LegSum(ios[n], sign, c);
      MoveSumConcat(S.LegMoves(Legs(ios[..n]), sign), S.LegMove(Legs(ios)[n], sign), c);
      Scaled(sign, ListTotal(ios[..n], StakeAt(c)), StakeAt(c)(ios[n].output));
    }
  }

  lemma Scaled(k: int, a: int, b: int)
    ensures k * (a + b) == k * a + k * b
  {
  }

  lemma {:induction false} WithdrawalsSum(ws: seq<S.Withdrawal>, c: Bytes)
    ensures MoveSum(S.WithdrawalMoves(ws), c) == -WithdrawnBy(ws, c)
  {
    if ws != [] {
      var n := |ws| - 1;
      assert S.WithdrawalMoves(ws)[..n] == S.WithdrawalMoves(ws[..n]);
      WithdrawalsSum(ws[..n], c);
    }
  }

  /** What a transaction says a credential gains: what it receives, less what it spends and withdraws. */
  function GainOf(tx: Tx): Bytes -> int {
    (c: Bytes) => ListTotal(tx.outputs, StakeAt(c)) - ListTotal(tx.inputs, StakeAt(c)) - WithdrawnBy(tx.withdrawals, c)
  }

  lemma ShownMoves(tx: Tx, c: Bytes)
    ensures MoveSum(S.Moves(tx.Shown()), c) == GainOf(tx)(c)
  {
    hide S.LegMoves, S.WithdrawalMoves, ListTotal, Legs;
    var outs, ins := S.LegMoves(Legs(tx.outputs), 1), S.LegMoves(Legs(tx.inputs), -1);
    MoveSumConcat(outs + ins, S.WithdrawalMoves(tx.withdrawals), c);
    MoveSumConcat(outs, ins, c);
    LegsSum(tx.outputs, 1, c);
    LegsSum(tx.inputs, -1, c);
    WithdrawalsSum(tx.withdrawals, c);
  }

  function MovedBy(moves: seq<S.Move>): Bytes -> int {
    (c: Bytes) => MoveSum(moves, c)
  }

  lemma {:induction false} NetSums(moves: seq<S.Move>, delegators: set<Bytes>)
    ensures S.Net(moves, delegators) == Sum(delegators, MovedBy(moves))
  {
    if moves == [] {
      SumZero(delegators, MovedBy(moves));
    } else {
      var n := |moves| - 1;
      NetSums(moves[..n], delegators);
      if moves[n].cred in delegators {
        SumChange(delegators, moves[n].cred, MovedBy(moves[..n]), MovedBy(moves));
      } else {
        SumSame(delegators, MovedBy(moves[..n]), MovedBy(moves));
      }
    }
  }

  /** The net shown is what the delegators together are declared to gain. */
  lemma NetDeclared(tx: Tx, delegators: set<Bytes>)
    ensures S.Net(S.Moves(tx.Shown()), delegators) == Sum(delegators, GainOf(tx))
  {
    hide S.Moves, S.Net, MoveSum, Sum, GainOf;
    var moves := S.Moves(tx.Shown());
    NetSums(moves, delegators);
    forall c | c in delegators
      ensures MovedBy(moves)(c) == GainOf(tx)(c)
    {
      ShownMoves(tx, c);
    }
    SumSame(delegators, MovedBy(moves), GainOf(tx));
  }

  // ---- Live stake before and after a transaction ----

  function StakesAfter(stakes: Amounts, tx: Tx): Amounts {
    ApplyStakes(stakes, StakeChangesOf([tx]))
  }

  function RewardsLeft(rewards: Amounts, tx: Tx): Amounts {
    Withdrawn(rewards, WithdrawalsOf([tx]))
  }

  lemma OneTx(tx: Tx)
    ensures OutputsOf([tx]) == Produces()(tx) && InputsOf([tx]) == Consumes()(tx) && WithdrawalsOf([tx]) == Claims()(tx)
  {
    assert [tx][..0] == [];
  }

  /** A transaction that takes effect moves each credential's live stake by what it declares. */
  lemma LiveAfter(tx: Tx, stakes: Amounts, rewards: Amounts, c: Bytes)
    requires tx.valid
    ensures D.Live(StakesAfter(stakes, tx), RewardsLeft(rewards, tx))(c) == D.Live(stakes, rewards)(c) + GainOf(tx)(c)
  {
    hide ApplyStakes, StakeChangesOf, Withdrawn, ListTotal, InputsOf, OutputsOf, WithdrawalsOf, SumFor;
    OneTx(tx);
    ApplyStakesGet(stakes, StakeChangesOf([tx]), c);
    DeltasAreNet([tx], c);
    WithdrawnGet(rewards, WithdrawalsOf([tx]), c);
  }

  /** The net shown of a transaction that takes effect is what its delegators' live stake changes by, whatever it was. */
  lemma NetIsLive(tx: Tx, stakes: Amounts, rewards: Amounts, delegators: set<Bytes>)
    requires tx.valid
    ensures S.Net(S.Moves(tx.Shown()), delegators) ==
            Sum(delegators, D.Live(StakesAfter(stakes, tx), RewardsLeft(rewards, tx))) - Sum(delegators, D.Live(stakes, rewards))
  {
    hide S.Net, S.Moves, Sum, GainOf, StakesAfter, RewardsLeft, D.Live;
    NetDeclared(tx, delegators);
    forall c {
      LiveAfter(tx, stakes, rewards, c);
    }
    SumPlus(delegators, D.Live(StakesAfter(stakes, tx), RewardsLeft(rewards, tx)), D.Live(stakes, rewards), GainOf(tx));
  }

  lemma {:induction false} LegsAtIs(ios: seq<Io>, a: Bytes)
    ensures S.LegsAt(Legs(ios), a) == ListTotal(ios, BalanceAt(a))
  {
    if ios != [] {
      var n := |ios| - 1;
      assert Legs(ios)[..n] == Legs(ios[..n]);
      LegsAtIs(ios[..n], a);
    }
  }

  /** On an address's page a transaction shows what it changes the address's unspent lovelace by. */
  lemma AddressNetIs(utxo: Utxo, tx: Tx, a: Bytes, delegators: set<Bytes>)
    requires tx.valid && Lawful(utxo, [tx])
    ensures S.NetChange(tx.Shown(), delegators, S.Address(a)) == Total(UtxoAfter(utxo, [tx]), BalanceAt(a)) - Total(utxo, BalanceAt(a))
  {
    hide Total, ListTotal, Legs, S.LegsAt, UtxoAfter, Lawful, InputsOf, OutputsOf, AddAll, Spendable, Fresh;
    OneTx(tx);
    LegsAtIs(tx.outputs, a);
    LegsAtIs(tx.inputs, a);
    AtOnce(utxo, [tx]);
    TotalAddAll(utxo, tx.outputs, BalanceAt(a));
    TotalRemoveAll(AddAll(utxo, tx.outputs), tx.inputs, BalanceAt(a));
  }

  // ---- What is recorded ----

  lemma OneInThousand(active: map<Bytes, nat>, id: Bytes, n: nat)
    ensures n > S.Threshold(active, id) <==> 1000 * n > if id in active then active[id] else 0
  {
  }

  /**
   * A block is recorded for a subject exactly when one of its transactions declares to move the
   * subject's delegators, together, by more than a thousandth of its active stake.
   */
  lemma RecordedMeans(txs: seq<Tx>, book: D.Book, active: map<Bytes, nat>, id: Bytes)
    requires D.Inverse(book)
    ensures id in Significant(ShownOf(txs), book.delegations, active) <==>
            exists tx <- txs :: 1000 * S.Abs(Sum(S.DelegatorsOf(book, id), GainOf(tx))) > if id in active then active[id] else 0
  {
    hide Significant, S.Moves, S.NetTo, S.Net, Sum, GainOf, S.DelegatorsOf, D.Inverse, S.Threshold;
    SignificantIs(book, ShownOf(txs), active, id);
    forall tx | tx in txs
      ensures S.Abs(S.NetTo(S.Moves(tx.Shown()), book.delegations, id)) > S.Threshold(active, id) <==>
              1000 * S.Abs(Sum(S.DelegatorsOf(book, id), GainOf(tx))) > if id in active then active[id] else 0
    {
      S.NetToIsNet(S.Moves(tx.Shown()), book, id);
      NetDeclared(tx, S.DelegatorsOf(book, id));
      OneInThousand(active, id, S.Abs(S.NetTo(S.Moves(tx.Shown()), book.delegations, id)));
    }
    ShownEach(txs);
  }

  lemma ShownEach(txs: seq<Tx>)
    ensures forall x :: x in ShownOf(txs) <==> exists tx <- txs :: tx.Shown() == x
  {
    forall tx | tx in txs
      ensures tx.Shown() in ShownOf(txs)
    {
      var i :| 0 <= i < |txs| && txs[i] == tx;
      assert ShownOf(txs)[i] == tx.Shown();
    }
  }

  // ---- What certificates move ----

  function Infos(side: Side, es: seq<DelegationEntry>): (r: seq<S.DelegationInfo>)
    ensures |r| == |es|
  {
    seq(|es|, i requires 0 <= i < |es| => Info(side, es[i]))
  }

  function Led(target: Option<Bytes>, id: Bytes): int {
    if target == Some(id) then 1 else 0
  }

  /** How often a credential's certificates lead to the subject, less how often away from it, each told from before the block. */
  function Turns(book: D.Book, changes: seq<D.Change>, id: Bytes, c: Bytes): int {
    if changes == [] then 0
    else
      var last := changes[|changes| - 1];
      Turns(book, changes[..|changes| - 1], id, c) + (if last.cred == c then Led(last.target, id) - Led(D.TargetOf(book, c), id) else 0)
  }

  /** What the block as a whole does: 1 for a credential that joins the subject, -1 for one that leaves it. */
  function Turn(book: D.Book, after: D.Book, id: Bytes, c: Bytes): int {
    Led(D.TargetOf(after, c), id) - Led(D.TargetOf(book, c), id)
  }

  function AllTurns(book: D.Book, changes: seq<D.Change>, id: Bytes, f: Bytes -> int): Bytes -> int {
    (c: Bytes) => Turns(book, changes, id, c) * f(c)
  }

  function NetTurn(book: D.Book, after: D.Book, id: Bytes, f: Bytes -> int): Bytes -> int {
    (c: Bytes) => Turn(book, after, id, c) * f(c)
  }

  lemma {:induction false} ImpactConcat(a: seq<S.DelegationInfo>, b: seq<S.DelegationInfo>, f: S.Filter)
    ensures S.Impact(a + b, f) == S.Impact(a, f) + S.Impact(b, f)
  {
    if b == [] {
      assert a + b == a;
    } else {
      var n := |b| - 1;
      assert (a + b)[..|a + b| - 1] == a + b[..n];
      ImpactConcat(a, b[..n], f);
    }
  }

  lemma EntryImpact(s: Snapshot, book: D.Book, b: Block, cert: DelegCert, side: Side, id: Bytes)
    ensures S.Impact(Infos(side, EntryOf(s, book, b, cert)), Subject(side, id)) ==
            (Led(cert.target, id) - Led(D.TargetOf(book, cert.cred), id)) * D.Live(s.stakes, s.rewards)(cert.cred)
  {
    var one := Infos(side, EntryOf(s, book, b, cert));
    if one != [] {
      assert one[..0] == [];
    }
  }

  lemma {:induction false} ImpactTurns(s: Snapshot, book: D.Book, b: Block, certs: seq<DelegCert>, side: Side, id: Bytes, creds: set<Bytes>)
    requires D.Creds(ChangesIn(certs)) <= creds
    ensures S.Impact(Infos(side, EntriesOf(s, book, b, certs)), Subject(side, id)) ==
            Sum(creds, AllTurns(book, ChangesIn(certs), id, D.Live(s.stakes, s.rewards)))
  {
    hide S.Impact, EntryOf, Led, D.Live;
    var f := D.Live(s.stakes, s.rewards);
    if certs == [] {
      SumZero(creds, AllTurns(book, ChangesIn(certs), id, f));
      NoImpact(side, Subject(side, id));
    } else {
      var n := |certs| - 1;
      var init, last := certs[..n], certs[n];
      LastChange(certs);
      ImpactTurns(s, book, b, init, side, id, creds);
      EntryImpact(s, book, b, last, side, id);
      var before, more := EntriesOf(s, book, b, init), EntryOf(s, book, b, last);
      assert Infos(side, before + more) == Infos(side, before) + Infos(side, more);
      ImpactConcat(Infos(side, before), Infos(side, more), Subject(side, id));
      TurnsStep(book, ChangesIn(certs), id, f);
      SumChange(creds, last.cred, AllTurns(book, ChangesIn(init), id, f), AllTurns(book, ChangesIn(certs), id, f));
    }
  }

  lemma NoImpact(side: Side, f: S.Filter)
    ensures S.Impact(Infos(side, []), f) == 0
  {
  }

  lemma LastChange(certs: seq<DelegCert>)
    requires certs != []
    ensures var n := |certs| - 1;
            && ChangesIn(certs)[..n] == ChangesIn(certs[..n]) && ChangesIn(certs)[n] == D.Change(certs[n].cred, certs[n].target)
            && D.Creds(ChangesIn(certs[..n])) <= D.Creds(ChangesIn(certs)) && certs[n].cred in D.Creds(ChangesIn(certs))
  {
    var n, all := |certs| - 1, ChangesIn(certs);
    assert all[..n] == ChangesIn(certs[..n]);
    assert all[n] in all && forall x <- all[..n] :: x in all;
  }

  lemma TurnsStep(book: D.Book, changes: seq<D.Change>, id: Bytes, f: Bytes -> int)
    requires changes != []
    ensures var n := |changes| - 1;
            var last := changes[n];
            && AllTurns(book, changes, id, f)(last.cred) == AllTurns(book, changes[..n], id, f)(last.cred) +
                                                         (Led(last.target, id) - Led(D.TargetOf(book, last.cred), id)) * f(last.cred)
            && forall c :: c != last.cred ==> AllTurns(book, changes, id, f)(c) == AllTurns(book, changes[..n], id, f)(c)
  {
    hide Led;
    var n := |changes| - 1;
    var last := changes[n];
    var k, d := Turns(book, changes[..n], id, last.cred), Led(last.target, id) - Led(D.TargetOf(book, last.cred), id);
    assert Turns(book, changes, id, last.cred) == k + d;
    Distribute(k, d, f(last.cred));
    forall c | c != last.cred
      ensures AllTurns(book, changes, id, f)(c) == AllTurns(book, changes[..n], id, f)(c)
    {
      assert Turns(book, changes, id, c) == Turns(book, changes[..n], id, c);
    }
  }

  lemma Distribute(k: int, d: int, x: int)
    ensures (k + d) * x == k * x + d * x
  {
  }

  /** The delegators a subject gains and loses, credential by credential. */
  lemma DelegatorsTurn(book: D.Book, after: D.Book, id: Bytes, f: Bytes -> int, creds: set<Bytes>)
    requires D.Inverse(book) && D.Inverse(after) && forall c :: c !in creds ==> D.TargetOf(after, c) == D.TargetOf(book, c)
    ensures Sum(S.DelegatorsOf(after, id), f) - Sum(S.DelegatorsOf(book, id), f) == Sum(creds, NetTurn(book, after, id, f))
  {
    hide D.Inverse, Sum, S.DelegatorsOf, D.TargetOf, Crossing, NetTurn;
    var before, now := S.DelegatorsOf(book, id), S.DelegatorsOf(after, id);
    DelegatorsAre(book, id);
    DelegatorsAre(after, id);
    SetsDiffer(before, now, creds, f);
    forall c | c in creds
      ensures NetTurn(book, after, id, f)(c) == Crossing(before, now, f)(c)
    {
      TurnIsCrossing(book, after, id, f, c);
    }
    SumSame(creds, NetTurn(book, after, id, f), Crossing(before, now, f));
  }

  lemma DelegatorsAre(book: D.Book, id: Bytes)
    requires D.Inverse(book)
    ensures forall c :: c in S.DelegatorsOf(book, id) <==> D.TargetOf(book, c) == Some(id)
  {
  }

  lemma TurnIsCrossing(book: D.Book, after: D.Book, id: Bytes, f: Bytes -> int, c: Bytes)
    requires c in S.DelegatorsOf(book, id) <==> D.TargetOf(book, c) == Some(id)
    requires c in S.DelegatorsOf(after, id) <==> D.TargetOf(after, c) == Some(id)
    ensures NetTurn(book, after, id, f)(c) == Crossing(S.DelegatorsOf(book, id), S.DelegatorsOf(after, id), f)(c)
  {
    hide D.TargetOf, S.DelegatorsOf;
    Units(D.TargetOf(after, c) == Some(id), D.TargetOf(book, c) == Some(id), f(c));
  }

  lemma Units(a: bool, b: bool, x: int)
    ensures ((if a then 1 else 0) - (if b then 1 else 0)) * x == (if a then x else 0) - (if b then x else 0)
  {
  }

  function Crossing(before: set<Bytes>, now: set<Bytes>, f: Bytes -> int): Bytes -> int {
    (c: Bytes) => (if c in now then f(c) else 0) - (if c in before then f(c) else 0)
  }

  function Within(s: set<Bytes>, f: Bytes -> int): Bytes -> int {
    (c: Bytes) => if c in s then f(c) else 0
  }

  lemma SumWithin(creds: set<Bytes>, s: set<Bytes>, f: Bytes -> int)
    ensures Sum(creds, Within(s, f)) == Sum(s * creds, f)
  {
    assert creds == s * creds + (creds - s);
    SumUnion(s * creds, creds - s, Within(s, f));
    SumSame(s * creds, Within(s, f), f);
    SumZero(creds - s, Within(s, f));
  }

  lemma SetsDiffer(before: set<Bytes>, now: set<Bytes>, creds: set<Bytes>, f: Bytes -> int)
    requires forall c :: c !in creds ==> (c in before <==> c in now)
    ensures Sum(now, f) - Sum(before, f) == Sum(creds, Crossing(before, now, f))
  {
    hide Sum;
    SumWithin(creds, before, f);
    SumWithin(creds, now, f);
    assert now == now * creds + (now - creds) && before == before * creds + (before - creds) && now - creds == before - creds;
    SumUnion(now * creds, now - creds, f);
    SumUnion(before * creds, before - creds, f);
    SumPlus(creds, Within(now, f), Within(before, f), Crossing(before, now, f));
  }

  /** The certificates together move for the subject what its delegators before and after differ by, at the stake before the block. */
  ghost predicate ImpactRight(s: Snapshot, book: D.Book, b: Block, certs: seq<DelegCert>, side: Side, id: Bytes) {
    var f := D.Live(s.stakes, s.rewards);
    S.Impact(Infos(side, EntriesOf(s, book, b, certs)), Subject(side, id)) ==
    Sum(S.DelegatorsOf(D.ApplyAll(book, ChangesIn(certs), b.slot), id), f) - Sum(S.DelegatorsOf(book, id), f)
  }

  /** Each credential's certificates lead to and from the subject as the block as a whole does. */
  ghost predicate TurnsOnce(book: D.Book, changes: seq<D.Change>, slot: nat, id: Bytes) {
    forall c :: Turns(book, changes, id, c) == Turn(book, D.ApplyAll(book, changes, slot), id, c)
  }

  lemma {:induction false} OnlyNamedTurn(book: D.Book, changes: seq<D.Change>, slot: nat, id: Bytes, c: Bytes)
    requires c !in D.Creds(changes)
    ensures Turns(book, changes, id, c) == 0 && D.TargetOf(D.ApplyAll(book, changes, slot), c) == D.TargetOf(book, c)
  {
    if changes != [] {
      var n := |changes| - 1;
      assert changes[n].cred in D.Creds(changes);
      assert forall x <- changes[..n] :: x in changes;
      OnlyNamedTurn(book, changes[..n], slot, id, c);
    }
  }

  lemma ImpactSides(s: Snapshot, book: D.Book, b: Block, certs: seq<DelegCert>, side: Side, id: Bytes)
    requires D.Inverse(book)
    ensures var changes, f := ChangesIn(certs), D.Live(s.stakes, s.rewards);
            ImpactRight(s, book, b, certs, side, id) <==>
            Sum(D.Creds(changes), AllTurns(book, changes, id, f)) ==
            Sum(D.Creds(changes), NetTurn(book, D.ApplyAll(book, changes, b.slot), id, f))
  {
    hide D.Inverse, Turns, D.Live, D.ApplyAll, S.Impact, EntriesOf, AllTurns, NetTurn, ChangesIn, D.TargetOf;
    var changes, f := ChangesIn(certs), D.Live(s.stakes, s.rewards);
    ImpactTurns(s, book, b, certs, side, id, D.Creds(changes));
    D.ChangesKeepInverse(book, changes, b.slot);
    forall c | c !in D.Creds(changes)
      ensures D.TargetOf(D.ApplyAll(book, changes, b.slot), c) == D.TargetOf(book, c)
    {
      OnlyNamedTurn(book, changes, b.slot, id, c);
    }
    DelegatorsTurn(book, D.ApplyAll(book, changes, b.slot), id, f, D.Creds(changes));
  }

  /** The certificates count right whatever the stakes exactly when each credential's turns add up. */
  lemma CertificatesExact(book: D.Book, b: Block, certs: seq<DelegCert>, side: Side, id: Bytes)
    requires D.Inverse(book)
    ensures (forall s :: ImpactRight(s, book, b, certs, side, id)) <==> TurnsOnce(book, ChangesIn(certs), b.slot, id)
  {
    hide D.Inverse, Turns, Turn, D.Live, D.ApplyAll, S.Impact, EntriesOf, ChangesIn, ImpactRight;
    var changes := ChangesIn(certs);
    if TurnsOnce(book, changes, b.slot, id) {
      forall s
        ensures ImpactRight(s, book, b, certs, side, id)
      {
        RightWhenOnce(s, book, b, certs, side, id);
      }
    } else {
      var c :| Turns(book, changes, id, c) != Turn(book, D.ApplyAll(book, changes, b.slot), id, c);
      ImpactProbe(book, b, certs, side, id, c);
      assert !ImpactRight(OnlyStake(book, c), book, b, certs, side, id);
    }
  }

  lemma RightWhenOnce(s: Snapshot, book: D.Book, b: Block, certs: seq<DelegCert>, side: Side, id: Bytes)
    requires D.Inverse(book) && TurnsOnce(book, ChangesIn(certs), b.slot, id)
    ensures ImpactRight(s, book, b, certs, side, id)
  {
    hide D.Inverse, Turns, Turn, D.Live, D.ApplyAll, ImpactRight, ChangesIn, Sum;
    var changes, f := ChangesIn(certs), D.Live(s.stakes, s.rewards);
    var after := D.ApplyAll(book, changes, b.slot);
    ImpactSides(s, book, b, certs, side, id);
    forall c
      ensures AllTurns(book, changes, id, f)(c) == NetTurn(book, after, id, f)(c)
    {
      assert Turns(book, changes, id, c) == Turn(book, after, id, c);
    }
    SumSame(D.Creds(changes), AllTurns(book, changes, id, f), NetTurn(book, after, id, f));
  }

  /** A snapshot in which one credential has one coin. */
  function OnlyStake(book: D.Book, c: Bytes): Snapshot {
    Snapshot(0, None, book, book, map[c := 1], map[], Books(map[], map[]), H.HandleMaps(map[], map[], map[]), 0)
  }

  lemma ImpactProbe(book: D.Book, b: Block, certs: seq<DelegCert>, side: Side, id: Bytes, c: Bytes)
    requires D.Inverse(book) && Turns(book, ChangesIn(certs), id, c) != Turn(book, D.ApplyAll(book, ChangesIn(certs), b.slot), id, c)
    ensures !ImpactRight(OnlyStake(book, c), book, b, certs, side, id)
  {
    hide D.Inverse, Turns, D.ApplyAll, ImpactRight, ChangesIn, Sum;
    var s := OnlyStake(book, c);
    var changes, f := ChangesIn(certs), D.Live(s.stakes, s.rewards);
    var after := D.ApplyAll(book, changes, b.slot);
    if c !in D.Creds(changes) {
      OnlyNamedTurn(book, changes, b.slot, id, c);
      assert false;
    }
    ImpactSides(s, book, b, certs, side, id);
    assert f(c) == 1 && forall x :: x != c ==> f(x) == 0;
    D.Probe(D.Creds(changes), c, AllTurns(book, changes, id, f));
    D.Probe(D.Creds(changes), c, NetTurn(book, after, id, f));
  }

  lemma {:induction false} DistinctTurnOnce(book: D.Book, changes: seq<D.Change>, slot: nat, id: Bytes)
    requires D.DistinctCreds(changes)
    ensures TurnsOnce(book, changes, slot, id)
  {
    if changes != [] {
      var n := |changes| - 1;
      DistinctTurnOnce(book, changes[..n], slot, id);
      var last := changes[n].cred;
      assert forall x <- changes[..n] :: x.cred != last;
      OnlyNamedTurn(book, changes[..n], slot, id, last);
      forall c
        ensures Turns(book, changes, id, c) == Turn(book, D.ApplyAll(book, changes, slot), id, c)
      {
        assert Turns(book, changes[..n], id, c) == Turn(book, D.ApplyAll(book, changes[..n], slot), id, c);
      }
    }
  }

  // ---- A transaction with certificates ----

  /** The transaction with its block's entries laid over it. */
  function Overlaid(s: Snapshot, b: Block, tx: Tx, side: Side): S.BlockTx {
    tx.Shown().(delegations := Infos(side, EntriesOf(s, BookOf(s, side), b, b.Certs(side))))
  }

  /** What the subject's delegators together gain by the transaction: those after it at the stake after it, less those before at the stake before. */
  ghost function TrueChange(s: Snapshot, b: Block, tx: Tx, side: Side, id: Bytes): int {
    Sum(S.DelegatorsOf(BookAfter(s, b, side), id), D.Live(StakesAfter(s.stakes, tx), RewardsLeft(s.rewards, tx)))
    - Sum(S.DelegatorsOf(BookOf(s, side), id), D.Live(s.stakes, s.rewards))
  }

  function BookAfter(s: Snapshot, b: Block, side: Side): D.Book {
    D.ApplyAll(BookOf(s, side), Declared(b.txs, side), b.slot)
  }

  /**
   * For a block of one transaction that names each credential once, the change a pool's or DRep's page
   * shows is the true one exactly when what its joining delegators gain equals what its leaving ones do.
   */
  lemma ShownChangeExact(s: Snapshot, b: Block, tx: Tx, side: Side, id: Bytes)
    requires D.Inverse(BookOf(s, side)) && tx.valid && b.txs == [tx] && D.DistinctCreds(Declared(b.txs, side))
    ensures var before, after := S.DelegatorsOf(BookOf(s, side), id), S.DelegatorsOf(BookAfter(s, b, side), id);
            S.NetChange(Overlaid(s, b, tx, side), before, Subject(side, id)) ==
            TrueChange(s, b, tx, side, id) - Sum(after - before, GainOf(tx)) + Sum(before - after, GainOf(tx))
  {
    hide D.Inverse, D.Live, D.ApplyAll, EntriesOf, ChangesIn, Sum, GainOf, StakesAfter, RewardsLeft, S.Net, S.Moves, S.Impact, S.DelegatorsOf,
         Declared, Turns, Turn, D.DistinctCreds, CertsOf;
    var before, after := S.DelegatorsOf(BookOf(s, side), id), S.DelegatorsOf(BookAfter(s, b, side), id);
    CertsDeclared(b.txs, side);
    DistinctTurnOnce(BookOf(s, side), Declared(b.txs, side), b.slot, id);
    RightWhenOnce(s, BookOf(s, side), b, b.Certs(side), side, id);
    assert S.Moves(Overlaid(s, b, tx, side)) == S.Moves(tx.Shown()) by { SameMoves(s, b, tx, side); }
    NetIsLive(tx, s.stakes, s.rewards, before);
    GainsOf(tx, s.stakes, s.rewards, before);
    GainsOf(tx, s.stakes, s.rewards, after);
    SumSplit(before, after, GainOf(tx));
  }

  lemma SameMoves(s: Snapshot, b: Block, tx: Tx, side: Side)
    ensures S.Moves(Overlaid(s, b, tx, side)) == S.Moves(tx.Shown())
  {
  }

  lemma GainsOf(tx: Tx, stakes: Amounts, rewards: Amounts, creds: set<Bytes>)
    requires tx.valid
    ensures Sum(creds, D.Live(StakesAfter(stakes, tx), RewardsLeft(rewards, tx))) == Sum(creds, D.Live(stakes, rewards)) + Sum(creds, GainOf(tx))
  {
    hide D.Live, StakesAfter, RewardsLeft, GainOf, Sum;
    forall c {
      LiveAfter(tx, stakes, rewards, c);
    }
    SumPlus(creds, D.Live(StakesAfter(stakes, tx), RewardsLeft(rewards, tx)), D.Live(stakes, rewards), GainOf(tx));
  }

  lemma SumSplit(a: set<Bytes>, b: set<Bytes>, f: Bytes -> int)
    ensures Sum(b, f) - Sum(a, f) == Sum(b - a, f) - Sum(a - b, f)
  {
    hide Sum;
    assert a == a * b + (a - b) && b == a * b + (b - a);
    SumUnion(a * b, a - b, f);
    SumUnion(a * b, b - a, f);
  }

  ghost predicate ShownWrong(s: Snapshot, b: Block, tx: Tx, side: Side, id: Bytes) {
    && D.Inverse(BookOf(s, side)) && tx.valid && b.txs == [tx] && D.DistinctCreds(Declared(b.txs, side))
    && S.NetChange(Overlaid(s, b, tx, side), S.DelegatorsOf(BookOf(s, side), id), Subject(side, id)) != TrueChange(s, b, tx, side, id)
  }

  /** A base address with the credential as its stake part. */
  function PaidTo(cred: Bytes): (a: Bytes)
    requires |cred| == 28
    ensures StakeCredential(a) == Some(cred)
  {
    var a: Bytes := [1] + seq(28, _ => 7) + cred;
    assert a[29..57] == cred;
    a
  }

  /** A credential that delegates and pays the fee of doing so is counted with its stake before the fee. */
  lemma FeeOfJoiningMissed(cred: Bytes, pool: Bytes)
    requires |cred| == 28
    ensures exists s, b, tx :: ShownWrong(s, b, tx, PoolSide, pool)
  {
    hide S.NetChange, TrueChange, Sum, StakeCredential, Lists, Overlaid, PaidTo;
    var s := OnlyStake(D.Book(map[], map[]), cred);
    var before, after := Io(OutRef([], 0), Output(10, PaidTo(cred), [])), Io(OutRef([], 1), Output(9, PaidTo(cred), []));
    var tx := Tx("", true, [before], [after], [], [], [], [D.Change(cred, Some(pool))], [], {}, {}, [], []);
    var b := Block(1, "", 1, 0, [tx], [after], None, None);
    var changes := Declared(b.txs, PoolSide);
    OneDeclared(tx);
    var was, now := S.DelegatorsOf(BookOf(s, PoolSide), pool), S.DelegatorsOf(BookAfter(s, b, PoolSide), pool);
    Joined(cred, pool, b.slot);
    assert was == {} && now == {cred};
    Fee(tx, before, after, cred);
    ShownChangeExact(s, b, tx, PoolSide, pool);
    assert now - was == {cred} && was - now == {};
    OneSum(cred, GainOf(tx));
    assert ShownWrong(s, b, tx, PoolSide, pool);
  }

  lemma Joined(cred: Bytes, pool: Bytes, slot: nat)
    ensures D.ApplyAll(D.Book(map[], map[]), [D.Change(cred, Some(pool))], slot) ==
            D.Book(map[cred := D.Delegation(pool, slot)], map[pool := {cred}])
  {
    var changes, none := [D.Change(cred, Some(pool))], D.Book(map[], map[]);
    assert changes[..0] == [];
    assert D.ApplyAll(none, changes, slot) == D.ApplyOne(none, changes[0], slot);
    var r := D.ApplyOne(none, changes[0], slot);
    assert r.delegations == map[cred := D.Delegation(pool, slot)];
    var nobody: set<Bytes> := {};
    assert nobody + {cred} == {cred};
    assert r.delegators == map[pool := {cred}];
  }

  lemma OneDeclared(tx: Tx)
    requires tx.valid
    ensures Declared([tx], PoolSide) == tx.poolCerts
  {
    GatherLast([], tx, Declares(PoolSide));
    assert [] + [tx] == [tx] && [] + tx.poolCerts == tx.poolCerts;
  }

  lemma Fee(tx: Tx, before: Io, after: Io, cred: Bytes)
    requires tx.inputs == [before] && tx.outputs == [after] && tx.withdrawals == []
    requires StakeCredential(before.output.address) == StakeCredential(after.output.address) == Some(cred)
    ensures GainOf(tx)(cred) == after.output.lovelace - before.output.lovelace
  {
    assert [before][..0] == [] && [after][..0] == [];
  }

  lemma OneSum(c: Bytes, f: Bytes -> int)
    ensures Sum({c}, f) == f(c) && Sum({}, f) == 0
  {
    SumAdd({}, c, f);
    assert {} + {c} == {c};
  }
}
