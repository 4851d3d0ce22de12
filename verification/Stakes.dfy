/**
 * How the sink reads a block's transactions: what they produce and consume, the stake they move,
 * their certificates, votes and handles, and the transactions as they are shown.
 */
module Stakes {
  import opened Wrappers
  import opened Bytes
  import opened FeedLog
  import opened Ledger
  import opened Sums
  import opened Unspent
  import D = Delegations
  import H = Handles
  import S = Significance

  /**
   * A transaction, its inputs and collateral resolved to the outputs they spend. One that fails its
   * scripts takes effect only by its collateral.
   */
  datatype Tx = Tx(hash: string, valid: bool, inputs: seq<Io>, outputs: seq<Io>, collateral: seq<Io>, refund: seq<Io>,
                   withdrawals: seq<S.Withdrawal>, poolCerts: seq<D.Change>, drepCerts: seq<D.Change>,
                   poolVotes: set<Bytes>, drepVotes: set<Bytes>, handlesSpent: seq<string>, handlesMade: seq<H.Move>)
  {
    function Spends(): seq<Io> {
      if valid then inputs else collateral
    }

    function Makes(): seq<Io> {
      if valid then outputs else refund
    }

    function Withdrawals(): seq<S.Withdrawal> {
      if valid then withdrawals else []
    }

    function Certs(side: Side): seq<DelegCert> {
      if valid then Tagged(hash, if side.PoolSide? then poolCerts else drepCerts) else []
    }

    function Votes(side: Side): set<Bytes> {
      if !valid then {} else if side.PoolSide? then poolVotes else drepVotes
    }

    /** The handle tokens among what it spends, then those among what it makes. */
    function TokenEvents(): seq<H.TokenEvent> {
      seq(|handlesSpent|, i requires 0 <= i < |handlesSpent| => H.Spent(handlesSpent[i])) +
      seq(|handlesMade|, i requires 0 <= i < |handlesMade| => H.Made(handlesMade[i].handle, handlesMade[i].owner))
    }

    /** What it says, valid or not; certificates are laid over it later. */
    function Shown(): S.BlockTx {
      S.BlockTx(hash, Legs(outputs), Legs(inputs), withdrawals, [], poolVotes, drepVotes)
    }
  }

  /** A delegation certificate with the transaction it came in. */
  datatype DelegCert = DelegCert(txHash: string, cred: Bytes, target: Option<Bytes>)

  function Tagged(hash: string, changes: seq<D.Change>): (r: seq<DelegCert>)
    ensures |r| == |changes|
  {
    seq(|changes|, i requires 0 <= i < |changes| => DelegCert(hash, changes[i].cred, changes[i].target))
  }

  function Legs(ios: seq<Io>): (r: seq<S.Leg>)
    ensures |r| == |ios|
  {
    seq(|ios|, i requires 0 <= i < |ios| => S.Leg(Some(ios[i].output.address), ios[i].output.lovelace))
  }

  datatype StakeChange = StakeChange(cred: Bytes, amount: int)

  function Signed(spent: bool, amount: int): int {
    if spent then -amount else amount
  }

  function ChangeOf(o: Output, spent: bool): seq<StakeChange> {
    match StakeCredential(o.address)
    case None => []
    case Some(cred) => [StakeChange(cred, Signed(spent, o.lovelace))]
  }

  function ChangesOf(ios: seq<Io>, spent: bool): seq<StakeChange> {
    if ios == [] then [] else ChangesOf(ios[..|ios| - 1], spent) + ChangeOf(ios[|ios| - 1].output, spent)
  }

  function StakeChangesOf(txs: seq<Tx>): seq<StakeChange> {
    if txs == [] then []
    else
      var tx := txs[|txs| - 1];
      StakeChangesOf(txs[..|txs| - 1]) + ChangesOf(tx.Spends(), true) + ChangesOf(tx.Makes(), false)
  }

  function InputsOf(txs: seq<Tx>): seq<Io> {
    if txs == [] then [] else InputsOf(txs[..|txs| - 1]) + txs[|txs| - 1].Spends()
  }

  function OutputsOf(txs: seq<Tx>): seq<Io> {
    if txs == [] then [] else OutputsOf(txs[..|txs| - 1]) + txs[|txs| - 1].Makes()
  }

  function WithdrawalsOf(txs: seq<Tx>): seq<S.Withdrawal> {
    if txs == [] then [] else WithdrawalsOf(txs[..|txs| - 1]) + txs[|txs| - 1].Withdrawals()
  }

  function CertsOf(txs: seq<Tx>, side: Side): seq<DelegCert> {
    if txs == [] then [] else CertsOf(txs[..|txs| - 1], side) + txs[|txs| - 1].Certs(side)
  }

  function VotesOf(txs: seq<Tx>, side: Side): set<Bytes> {
    if txs == [] then {} else VotesOf(txs[..|txs| - 1], side) + txs[|txs| - 1].Votes(side)
  }

  function TokensOf(txs: seq<Tx>): seq<H.TokenEvent> {
    if txs == [] then [] else TokensOf(txs[..|txs| - 1]) + txs[|txs| - 1].TokenEvents()
  }

  function ShownOf(txs: seq<Tx>): (r: seq<S.BlockTx>)
    ensures |r| == |txs|
  {
    seq(|txs|, i requires 0 <= i < |txs| => txs[i].Shown())
  }

  /** A listing of a map of outputs. */
  ghost predicate Lists(produced: Utxo, listing: seq<Io>) {
    DistinctRefs(listing) && forall io :: io in listing <==> io.ref in produced && produced[io.ref] == io.output
  }

  lemma {:induction false} AddAllConcat(utxo: Utxo, a: seq<Io>, b: seq<Io>)
    ensures AddAll(utxo, a + b) == AddAll(AddAll(utxo, a), b)
  {
    if b == [] {
      assert a + b == a;
    } else {
      var n := |b| - 1;
      assert (a + b)[..|a + b| - 1] == a + b[..n];
      AddAllConcat(utxo, a, b[..n]);
    }
  }

  /** What the sink gathers from a block in one pass over its transactions. */
  datatype Gathered = Gathered(produced: Utxo, consumed: seq<Io>, changes: seq<StakeChange>, withdrawals: seq<S.Withdrawal>,
                               poolCerts: seq<DelegCert>, drepCerts: seq<DelegCert>, poolVotes: set<Bytes>, drepVotes: set<Bytes>,
                               moves: seq<H.Move>, spent: seq<string>, shown: seq<S.BlockTx>)

  ghost predicate Gathers(g: Gathered, txs: seq<Tx>) {
    && g.produced == AddAll(map[], OutputsOf(txs)) && g.consumed == InputsOf(txs) && g.changes == StakeChangesOf(txs)
    && g.withdrawals == WithdrawalsOf(txs)
    && g.poolCerts == CertsOf(txs, PoolSide) && g.drepCerts == CertsOf(txs, DrepSide)
    && g.poolVotes == VotesOf(txs, PoolSide) && g.drepVotes == VotesOf(txs, DrepSide)
    && g.moves == H.MovesIn(TokensOf(txs)) && g.spent == H.SpentIn(TokensOf(txs))
    && g.shown == ShownOf(txs)
  }

  // ---- What the transactions declare ----

  /** What each transaction contributes, in their order. */
  function Gather<T>(txs: seq<Tx>, f: Tx -> seq<T>): seq<T> {
    if txs == [] then [] else f(txs[0]) + Gather(txs[1..], f)
  }

  lemma {:induction false} GatherLast<T>(txs: seq<Tx>, tx: Tx, f: Tx -> seq<T>)
    ensures Gather(txs + [tx], f) == Gather(txs, f) + f(tx)
  {
    if txs == [] {
      assert [tx][1..] == [] && [] + [tx] == [tx];
    } else {
      assert (txs + [tx])[1..] == txs[1..] + [tx];
      GatherLast(txs[1..], tx, f);
    }
  }

  /** A transaction's certificates of one side, if they take effect. */
  function Declares(side: Side): Tx -> seq<D.Change> {
    (tx: Tx) => if !tx.valid then [] else if side.PoolSide? then tx.poolCerts else tx.drepCerts
  }

  /** The transaction of each of them. */
  function Declarers(side: Side): Tx -> seq<string> {
    (tx: Tx) => seq(|Declares(side)(tx)|, _ => tx.hash)
  }

  function Claims(): Tx -> seq<S.Withdrawal> {
    (tx: Tx) => if tx.valid then tx.withdrawals else []
  }

  /** Inputs of a transaction that takes effect, collateral of one that does not. */
  function Consumes(): Tx -> seq<Io> {
    (tx: Tx) => if tx.valid then tx.inputs else tx.collateral
  }

  function Produces(): Tx -> seq<Io> {
    (tx: Tx) => if tx.valid then tx.outputs else tx.refund
  }

  function Declared(txs: seq<Tx>, side: Side): seq<D.Change> {
    Gather(txs, Declares(side))
  }

  function ChangesIn(certs: seq<DelegCert>): (r: seq<D.Change>)
    ensures |r| == |certs|
  {
    seq(|certs|, i requires 0 <= i < |certs| => D.Change(certs[i].cred, certs[i].target))
  }

  function HashesIn(certs: seq<DelegCert>): (r: seq<string>)
    ensures |r| == |certs|
  {
    seq(|certs|, i requires 0 <= i < |certs| => certs[i].txHash)
  }

  lemma TxCerts(tx: Tx, side: Side)
    ensures ChangesIn(tx.Certs(side)) == Declares(side)(tx) && HashesIn(tx.Certs(side)) == Declarers(side)(tx)
  {
  }

  lemma ReadConcat(a: seq<DelegCert>, b: seq<DelegCert>)
    ensures ChangesIn(a + b) == ChangesIn(a) + ChangesIn(b) && HashesIn(a + b) == HashesIn(a) + HashesIn(b)
  {
  }

  lemma NothingRead(side: Side)
    ensures ChangesIn([]) == [] == Gather([], Declares(side)) && HashesIn([]) == [] == Gather([], Declarers(side))
  {
  }

  /** The certificates read are those declared, each with its transaction. */
  lemma {:induction false} CertsDeclared(txs: seq<Tx>, side: Side)
    ensures ChangesIn(CertsOf(txs, side)) == Declared(txs, side) && HashesIn(CertsOf(txs, side)) == Gather(txs, Declarers(side))
  {
    hide Gather, ChangesIn, HashesIn, Declares, Declarers;
    if txs == [] {
      NothingRead(side);
    } else {
      var n := |txs| - 1;
      var tx := txs[n];
      CertsDeclared(txs[..n], side);
      assert txs == txs[..n] + [tx];
      GatherLast(txs[..n], tx, Declares(side));
      GatherLast(txs[..n], tx, Declarers(side));
      TxCerts(tx, side);
      ReadConcat(CertsOf(txs[..n], side), tx.Certs(side));
    }
  }

  lemma TxSums(tx: Tx)
    ensures tx.Spends() == Consumes()(tx) && tx.Makes() == Produces()(tx) && tx.Withdrawals() == Claims()(tx)
  {
  }

  lemma NothingSummed()
    ensures Gather([], Consumes()) == [] && Gather([], Produces()) == [] && Gather([], Claims()) == []
  {
  }

  lemma {:induction false} SumsDeclared(txs: seq<Tx>)
    ensures InputsOf(txs) == Gather(txs, Consumes()) && OutputsOf(txs) == Gather(txs, Produces()) && WithdrawalsOf(txs) == Gather(txs, Claims())
  {
    hide Gather, Consumes, Produces, Claims;
    if txs == [] {
      NothingSummed();
    } else {
      var n := |txs| - 1;
      SumsDeclared(txs[..n]);
      assert txs == txs[..n] + [txs[n]];
      TxSums(txs[n]);
      GatherLast(txs[..n], txs[n], Consumes());
      GatherLast(txs[..n], txs[n], Produces());
      GatherLast(txs[..n], txs[n], Claims());
    }
  }

  lemma {:induction false} HandlesDeclared(txs: seq<Tx>)
    ensures H.MovesIn(TokensOf(txs)) == Gather(txs, (tx: Tx) => tx.handlesMade)
    ensures H.SpentIn(TokensOf(txs)) == Gather(txs, (tx: Tx) => tx.handlesSpent)
  {
    if txs != [] {
      var n := |txs| - 1;
      HandlesDeclared(txs[..n]);
      assert txs == txs[..n] + [txs[n]];
      GatherLast(txs[..n], txs[n], (tx: Tx) => tx.handlesMade);
      GatherLast(txs[..n], txs[n], (tx: Tx) => tx.handlesSpent);
      H.EventsConcat(TokensOf(txs[..n]), txs[n].TokenEvents());
      TokensTell(txs[n]);
    }
  }

  lemma {:induction false} VotesDeclared(txs: seq<Tx>, id: Bytes)
    ensures id in VotesOf(txs, PoolSide) <==> exists tx <- txs :: tx.valid && id in tx.poolVotes
    ensures id in VotesOf(txs, DrepSide) <==> exists tx <- txs :: tx.valid && id in tx.drepVotes
  {
    if txs != [] {
      var n := |txs| - 1;
      VotesDeclared(txs[..n], id);
      assert forall tx :: tx in txs <==> tx in txs[..n] || tx == txs[n];
    }
  }

  /** What is gathered, told from what each transaction declares. */
  ghost predicate Reads(g: Gathered, txs: seq<Tx>) {
    && g.produced == AddAll(map[], Gather(txs, Produces())) && g.consumed == Gather(txs, Consumes()) && g.withdrawals == Gather(txs, Claims())
    && ChangesIn(g.poolCerts) == Declared(txs, PoolSide) && HashesIn(g.poolCerts) == Gather(txs, Declarers(PoolSide))
    && ChangesIn(g.drepCerts) == Declared(txs, DrepSide) && HashesIn(g.drepCerts) == Gather(txs, Declarers(DrepSide))
    && (forall id :: id in g.poolVotes <==> exists tx <- txs :: tx.valid && id in tx.poolVotes)
    && (forall id :: id in g.drepVotes <==> exists tx <- txs :: tx.valid && id in tx.drepVotes)
    && g.moves == Gather(txs, (tx: Tx) => tx.handlesMade) && g.spent == Gather(txs, (tx: Tx) => tx.handlesSpent)
  }

  lemma GathersReads(g: Gathered, txs: seq<Tx>)
    requires Gathers(g, txs)
    ensures Reads(g, txs)
  {
    hide InputsOf, OutputsOf, WithdrawalsOf, CertsOf, VotesOf, TokensOf, Gather, Declared, StakeChangesOf, AddAll, ChangesIn, HashesIn;
    SumsDeclared(txs);
    CertsDeclared(txs, PoolSide);
    CertsDeclared(txs, DrepSide);
    HandlesDeclared(txs);
    forall id {
      VotesDeclared(txs, id);
    }
  }

  method CollectBlock(txs: seq<Tx>) returns (g: Gathered)
    ensures Gathers(g, txs) && Reads(g, txs)
  {
    hide Gathers, Reads;
    g := Gathered(map[], [], [], [], [], [], {}, {}, [], [], []);
    NothingGathered(g);
    for n := 0 to |txs|
      invariant Gathers(g, txs[..n])
    {
      var tx := txs[n];
      var consumed, changes := SpendInputs(g.consumed, g.changes, tx.Spends());
      var produced, changes' := MakeOutputs(g.produced, changes, tx.Makes());
      ghost var was := g;
      g := g.(produced := produced, consumed := consumed, changes := changes', shown := g.shown + [tx.Shown()],
              moves := g.moves + tx.handlesMade, spent := g.spent + tx.handlesSpent);
      if tx.valid {
        g := g.(withdrawals := g.withdrawals + tx.withdrawals,
                poolCerts := g.poolCerts + Tagged(tx.hash, tx.poolCerts), drepCerts := g.drepCerts + Tagged(tx.hash, tx.drepCerts),
                poolVotes := g.poolVotes + tx.poolVotes, drepVotes := g.drepVotes + tx.drepVotes);
      }
      assert txs[..n + 1] == txs[..n] + [tx];
      OneGathered(was, g, txs[..n], tx, changes);
    }
    assert txs[..|txs|] == txs;
    GathersReads(g, txs);
  }

  lemma NothingGathered(g: Gathered)
    requires g == Gathered(map[], [], [], [], [], [], {}, {}, [], [], [])
    ensures Gathers(g, [])
  {
  }

  lemma OneGathered(was: Gathered, g: Gathered, txs: seq<Tx>, tx: Tx, changes: seq<StakeChange>)
    requires Gathers(was, txs)
    requires g.produced == AddAll(was.produced, tx.Makes()) && g.consumed == was.consumed + tx.Spends()
    requires changes == was.changes + ChangesOf(tx.Spends(), true) && g.changes == changes + ChangesOf(tx.Makes(), false)
    requires g.withdrawals == was.withdrawals + tx.Withdrawals()
    requires g.poolCerts == was.poolCerts + tx.Certs(PoolSide) && g.drepCerts == was.drepCerts + tx.Certs(DrepSide)
    requires g.poolVotes == was.poolVotes + tx.Votes(PoolSide) && g.drepVotes == was.drepVotes + tx.Votes(DrepSide)
    requires g.moves == was.moves + tx.handlesMade && g.spent == was.spent + tx.handlesSpent
    requires g.shown == was.shown + [tx.Shown()]
    ensures Gathers(g, txs + [tx])
  {
    hide ChangesOf, AddAll, H.MovesIn, H.SpentIn;
    assert (txs + [tx])[..|txs|] == txs;
    AddAllConcat(map[], OutputsOf(txs), tx.Makes());
    H.EventsConcat(TokensOf(txs), tx.TokenEvents());
    TokensTell(tx);
  }

  lemma TokensTell(tx: Tx)
    ensures H.MovesIn(tx.TokenEvents()) == tx.handlesMade && H.SpentIn(tx.TokenEvents()) == tx.handlesSpent
  {
    var out := seq(|tx.handlesSpent|, i requires 0 <= i < |tx.handlesSpent| => H.Spent(tx.handlesSpent[i]));
    var made := seq(|tx.handlesMade|, i requires 0 <= i < |tx.handlesMade| => H.Made(tx.handlesMade[i].handle, tx.handlesMade[i].owner));
    H.EventsConcat(out, made);
    AllSpent(tx.handlesSpent, out);
    AllMade(tx.handlesMade, made);
  }

  lemma {:induction false} AllSpent(names: seq<string>, es: seq<H.TokenEvent>)
    requires |es| == |names| && forall i | 0 <= i < |es| :: es[i] == H.Spent(names[i])
    ensures H.SpentIn(es) == names && H.MovesIn(es) == []
  {
    if es != [] {
      var n := |es| - 1;
      AllSpent(names[..n], es[..n]);
      assert names == names[..n] + [names[n]];
    }
  }

  lemma {:induction false} AllMade(moves: seq<H.Move>, es: seq<H.TokenEvent>)
    requires |es| == |moves| && forall i | 0 <= i < |es| :: es[i] == H.Made(moves[i].handle, moves[i].owner)
    ensures H.MovesIn(es) == moves && H.SpentIn(es) == []
  {
    if es != [] {
      var n := |es| - 1;
      AllMade(moves[..n], es[..n]);
      assert moves == moves[..n] + [moves[n]];
    }
  }

  /** A transaction spends before it makes: a handle ends at the last output that carries it, or nowhere when it was only spent. */
  lemma TxHolders(before: map<string, string>, tx: Tx, h: string)
    ensures H.AddressOwner(H.Holders(before, tx.TokenEvents()))(h) ==
            if H.LastOwner(tx.handlesMade, h).Some? then H.LastOwner(tx.handlesMade, h)
            else if h in tx.handlesSpent then None
            else H.AddressOwner(before)(h)
  {
    var out := seq(|tx.handlesSpent|, i requires 0 <= i < |tx.handlesSpent| => H.Spent(tx.handlesSpent[i]));
    var made := seq(|tx.handlesMade|, i requires 0 <= i < |tx.handlesMade| => H.Made(tx.handlesMade[i].handle, tx.handlesMade[i].owner));
    H.HoldersConcat(before, out, made);
    H.AllLeave(before, tx.handlesSpent, out, h);
    H.AllArrive(H.Holders(before, out), tx.handlesMade, made, h);
  }

  method SpendInputs(consumed: seq<Io>, changes: seq<StakeChange>, inputs: seq<Io>)
    returns (consumed': seq<Io>, changes': seq<StakeChange>)
    ensures consumed' == consumed + inputs
    ensures changes' == changes + ChangesOf(inputs, true)
  {
    hide ChangeOf;
    consumed', changes' := consumed, changes;
    for i := 0 to |inputs|
      invariant consumed' == consumed + inputs[..i]
      invariant changes' == changes + ChangesOf(inputs[..i], true)
    {
      assert inputs[..i + 1][..i] == inputs[..i];
      changes' := changes' + ChangeOf(inputs[i].output, true);
      consumed' := consumed' + [inputs[i]];
    }
    assert inputs[..|inputs|] == inputs;
  }

  method MakeOutputs(produced: Utxo, changes: seq<StakeChange>, outputs: seq<Io>)
    returns (produced': Utxo, changes': seq<StakeChange>)
    ensures produced' == AddAll(produced, outputs)
    ensures changes' == changes + ChangesOf(outputs, false)
  {
    hide ChangeOf;
    produced', changes' := produced, changes;
    for i := 0 to |outputs|
      invariant produced' == AddAll(produced, outputs[..i])
      invariant changes' == changes + ChangesOf(outputs[..i], false)
    {
      assert outputs[..i + 1][..i] == outputs[..i];
      changes' := changes' + ChangeOf(outputs[i].output, false);
      produced' := produced'[outputs[i].ref := outputs[i].output];
    }
    assert outputs[..|outputs|] == outputs;
  }

  // ---- Applying the deltas ----

  function ApplyStakes(stakes: Amounts, changes: seq<StakeChange>): Amounts {
    if changes == [] then stakes
    else
      var last := changes[|changes| - 1];
      var before := ApplyStakes(stakes, changes[..|changes| - 1]);
      before[last.cred := Get(before, last.cred) + last.amount]
  }

  method ApplyStakeChanges(stakes: Amounts, changes: seq<StakeChange>) returns (r: Amounts)
    ensures r == ApplyStakes(stakes, changes)
  {
    r := stakes;
    for i := 0 to |changes|
      invariant r == ApplyStakes(stakes, changes[..i])
    {
      assert changes[..i + 1][..i] == changes[..i];
      r := r[changes[i].cred := Get(r, changes[i].cred) + changes[i].amount];
    }
    assert changes[..|changes|] == changes;
  }

  function SumFor(changes: seq<StakeChange>, c: Bytes): int {
    if changes == [] then 0
    else SumFor(changes[..|changes| - 1], c) + (if changes[|changes| - 1].cred == c then changes[|changes| - 1].amount else 0)
  }

  lemma {:induction false} SumForConcat(a: seq<StakeChange>, b: seq<StakeChange>, c: Bytes)
    ensures SumFor(a + b, c) == SumFor(a, c) + SumFor(b, c)
  {
    if b == [] {
      assert a + b == a;
    } else {
      var n := |b| - 1;
      assert (a + b)[..|a + b| - 1] == a + b[..n];
      SumForConcat(a, b[..n], c);
    }
  }

  lemma {:induction false} ApplyStakesGet(stakes: Amounts, changes: seq<StakeChange>, c: Bytes)
    ensures Get(ApplyStakes(stakes, changes), c) == Get(stakes, c) + SumFor(changes, c)
  {
    if changes != [] {
      ApplyStakesGet(stakes, changes[..|changes| - 1], c);
    }
  }

  function ListTotal(ios: seq<Io>, f: Output -> int): int {
    if ios == [] then 0 else ListTotal(ios[..|ios| - 1], f) + f(ios[|ios| - 1].output)
  }

  lemma {:induction false} ListTotalConcat(a: seq<Io>, b: seq<Io>, f: Output -> int)
    ensures ListTotal(a + b, f) == ListTotal(a, f) + ListTotal(b, f)
  {
    if b == [] {
      assert a + b == a;
    } else {
      var n := |b| - 1;
      assert (a + b)[..|a + b| - 1] == a + b[..n];
      ListTotalConcat(a, b[..n], f);
    }
  }

  lemma ChangeSum(o: Output, spent: bool, c: Bytes)
    ensures SumFor(ChangeOf(o, spent), c) == Signed(spent, StakeAt(c)(o))
  {
    var one := ChangeOf(o, spent);
    if one != [] {
      assert one[..0] == [];
    }
  }

  lemma {:induction false} ChangesSum(ios: seq<Io>, spent: bool, c: Bytes)
    ensures SumFor(ChangesOf(ios, spent), c) == Signed(spent, ListTotal(ios, StakeAt(c)))
  {
    hide ChangeOf, StakeCredential;
    if ios != [] {
      var n := |ios| - 1;
      var o := ios[n].output;
      ChangesSum(ios[..n], spent, c);
      SumForConcat(ChangesOf(ios[..n], spent), ChangeOf(o, spent), c);
      ChangeSum(o, spent, c);
    }
  }

  /** A credential's deltas are what it gained less what it spent. */
  lemma {:induction false} DeltasAreNet(txs: seq<Tx>, c: Bytes)
    ensures SumFor(StakeChangesOf(txs), c) == ListTotal(OutputsOf(txs), StakeAt(c)) - ListTotal(InputsOf(txs), StakeAt(c))
  {
    if txs != [] {
      var n := |txs| - 1;
      var tx := txs[n];
      DeltasAreNet(txs[..n], c);
      SumForConcat(StakeChangesOf(txs[..n]) + ChangesOf(tx.Spends(), true), ChangesOf(tx.Makes(), false), c);
      SumForConcat(StakeChangesOf(txs[..n]), ChangesOf(tx.Spends(), true), c);
      ChangesSum(tx.Spends(), true, c);
      ChangesSum(tx.Makes(), false, c);
      ListTotalConcat(InputsOf(txs[..n]), tx.Spends(), StakeAt(c));
      ListTotalConcat(OutputsOf(txs[..n]), tx.Makes(), StakeAt(c));
    }
  }

  // ---- Totals over a block ----

  lemma {:induction false} TotalAddAll(utxo: Utxo, ios: seq<Io>, f: Output -> int)
    requires DistinctRefs(ios) && Fresh(utxo, ios)
    ensures Total(AddAll(utxo, ios), f) == Total(utxo, f) + ListTotal(ios, f)
  {
    hide Total;
    if ios != [] {
      var n := |ios| - 1;
      TotalAddAll(utxo, ios[..n], f);
      NotYetAdded(utxo, ios);
      TotalAdd(AddAll(utxo, ios[..n]), ios[n].ref, ios[n].output, f);
    }
  }

  lemma {:induction false} TotalRemoveAll(utxo: Utxo, ios: seq<Io>, f: Output -> int)
    requires DistinctRefs(ios) && Spendable(utxo, ios)
    ensures Total(RemoveAll(utxo, ios), f) == Total(utxo, f) - ListTotal(ios, f)
  {
    hide Total;
    if ios == [] {
      assert RemoveAll(utxo, ios) == utxo;
    } else {
      var n := |ios| - 1;
      TotalRemoveAll(utxo, ios[..n], f);
      var rest := RemoveAll(utxo, ios[..n]);
      assert RemoveAll(utxo, ios) == rest - {ios[n].ref};
      TotalRemove(rest, ios[n].ref, f);
    }
  }

  ghost predicate StakesShow(stakes: Amounts, utxo: Utxo) {
    forall c :: Get(stakes, c) == Total(utxo, StakeAt(c))
  }

  /** The deltas keep each credential's stake equal to its unspent lovelace. */
  lemma StakesFollow(stakes: Amounts, utxo: Utxo, txs: seq<Tx>)
    requires StakesShow(stakes, utxo) && ValidIo(utxo, OutputsOf(txs), InputsOf(txs))
    ensures StakesShow(ApplyStakes(stakes, StakeChangesOf(txs)), NextUtxo(utxo, OutputsOf(txs), InputsOf(txs)))
  {
    hide Total, Fits;
    forall c
      ensures Get(ApplyStakes(stakes, StakeChangesOf(txs)), c) ==
              Total(NextUtxo(utxo, OutputsOf(txs), InputsOf(txs)), StakeAt(c))
    {
      ApplyStakesGet(stakes, StakeChangesOf(txs), c);
      DeltasAreNet(txs, c);
      TotalAddAll(utxo, OutputsOf(txs), StakeAt(c));
      TotalRemoveAll(AddAll(utxo, OutputsOf(txs)), InputsOf(txs), StakeAt(c));
    }
  }

  // ---- Stakes are sums of balances ----

  ghost function BalanceTotals(utxo: Utxo): Bytes -> int {
    (a: Bytes) => Total(utxo, BalanceAt(a))
  }

  lemma {:induction false} SumOverAddresses(utxo: Utxo, c: Bytes, addrs: set<Bytes>)
    requires forall a <- addrs :: StakeCredential(a) == Some(c)
    requires forall r <- utxo :: StakeCredential(utxo[r].address) == Some(c) ==> utxo[r].address in addrs
    ensures Sum(addrs, BalanceTotals(utxo)) == Total(utxo, StakeAt(c))
    decreases utxo.Keys
  {
    hide StakeCredential, Total, Sum;
    if utxo == map[] {
      NothingUnspent(utxo, c, addrs);
    } else {
      var r :| r in utxo;
      var rest := utxo - {r};
      assert rest.Keys == utxo.Keys - {r};
      SumOverAddresses(rest, c, addrs);
      SumOneMore(utxo, r, c, addrs);
    }
  }

  lemma NothingUnspent(utxo: Utxo, c: Bytes, addrs: set<Bytes>)
    requires utxo == map[]
    ensures Sum(addrs, BalanceTotals(utxo)) == 0 == Total(utxo, StakeAt(c))
  {
    hide Total, Sum;
    forall a
      ensures BalanceTotals(utxo)(a) == 0
    {
      TotalNone(utxo, BalanceAt(a));
    }
    SumZero(addrs, BalanceTotals(utxo));
    TotalNone(utxo, StakeAt(c));
  }

  lemma TotalNone(utxo: Utxo, f: Output -> int)
    requires utxo == map[]
    ensures Total(utxo, f) == 0
  {
    SumZero(utxo.Keys, Weigh(utxo, f));
  }

  lemma SumOneMore(utxo: Utxo, r: OutRef, c: Bytes, addrs: set<Bytes>)
    requires r in utxo && forall a <- addrs :: StakeCredential(a) == Some(c)
    requires StakeCredential(utxo[r].address) == Some(c) ==> utxo[r].address in addrs
    ensures Sum(addrs, BalanceTotals(utxo)) - Sum(addrs, BalanceTotals(utxo - {r})) ==
            Total(utxo, StakeAt(c)) - Total(utxo - {r}, StakeAt(c))
  {
    hide StakeCredential, Total, Sum;
    var o, rest := utxo[r], utxo - {r};
    TotalRemove(utxo, r, StakeAt(c));
    forall a
      ensures BalanceTotals(utxo)(a) == BalanceTotals(rest)(a) + BalanceAt(a)(o)
    {
      TotalRemove(utxo, r, BalanceAt(a));
    }
    if StakeCredential(o.address) == Some(c) {
      SumChange(addrs, o.address, BalanceTotals(rest), BalanceTotals(utxo));
    } else {
      SumSame(addrs, BalanceTotals(rest), BalanceTotals(utxo));
    }
  }

  ghost function AddressesOf(balances: Amounts, c: Bytes): set<Bytes> {
    set a | a in balances && StakeCredential(a) == Some(c)
  }

  /** A credential's stake is the sum of the balances of its addresses. */
  lemma StakeIsBalanceSum(stakes: Amounts, balances: Amounts, utxo: Utxo, c: Bytes)
    requires StakesShow(stakes, utxo) && BalancesShow(balances, utxo) && AllPositive(utxo)
    ensures Get(stakes, c) == Sum(AddressesOf(balances, c), (a: Bytes) => Get(balances, a))
  {
    hide Total, StakeCredential;
    var addrs := AddressesOf(balances, c);
    forall r <- utxo
      ensures utxo[r].address in balances
    {
      var a := utxo[r].address;
      TotalRemove(utxo, r, BalanceAt(a));
      TotalNonNegative(utxo - {r}, BalanceAt(a));
    }
    SumOverAddresses(utxo, c, addrs);
    SumSame(addrs, BalanceTotals(utxo), (a: Bytes) => Get(balances, a));
  }
}
