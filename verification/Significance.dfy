/**
 * Which pools and DReps a block moves significantly: one pass over the block, attributing every
 * moved credential to its delegation target, against the per-feed computation that a page runs
 * with one subject's delegators.
 */
module Significance {
  import opened Wrappers
  import opened Bytes
  import opened Seqs
  import opened Ledger
  import opened Delegations

  /** An output, or an input with the address it spends from when that is known. */
  datatype Leg = Leg(address: Option<Bytes>, lovelace: int)

  datatype Withdrawal = Withdrawal(cred: Bytes, amount: int)

  /** What a certificate leads from and to, on one side of the delegations. */
  datatype Ends = Ends(from: Option<Bytes>, to: Option<Bytes>)

  datatype DelegationInfo = DelegationInfo(pool: Ends, drep: Ends, liveStake: int)

  /** A transaction as it is shown: what it says, whether or not it took effect. */
  datatype BlockTx = BlockTx(hash: string, outputs: seq<Leg>, inputs: seq<Leg>, withdrawals: seq<Withdrawal>,
                             delegations: seq<DelegationInfo>, poolVotes: set<Bytes>, drepVotes: set<Bytes>)

  /** What a feed is about. */
  datatype Filter = Pool(id: Bytes) | DRep(id: Bytes) | Stake(cred: Bytes) | Address(address: Bytes)

  const DIVISOR: nat := 1000

  /** One credential's gain or loss. */
  datatype Move = Move(cred: Bytes, amount: int)

  function LegMove(l: Leg, sign: int): seq<Move> {
    if l.address.None? || StakeCredential(l.address.value).None? then []
    else [Move(StakeCredential(l.address.value).value, sign * l.lovelace)]
  }

  function LegMoves(ls: seq<Leg>, sign: int): seq<Move> {
    if ls == [] then [] else LegMoves(ls[..|ls| - 1], sign) + LegMove(ls[|ls| - 1], sign)
  }

  function WithdrawalMoves(ws: seq<Withdrawal>): (r: seq<Move>)
    ensures |r| == |ws|
  {
    seq(|ws|, i requires 0 <= i < |ws| => Move(ws[i].cred, -ws[i].amount))
  }

  /** A transaction's moves in the order both computations visit them. */
  function Moves(tx: BlockTx): seq<Move> {
    LegMoves(tx.outputs, 1) + LegMoves(tx.inputs, -1) + WithdrawalMoves(tx.withdrawals)
  }

  // ---- Per feed ----

  function Net(moves: seq<Move>, delegators: set<Bytes>): int {
    if moves == [] then 0
    else
      var m := moves[|moves| - 1];
      Net(moves[..|moves| - 1], delegators) + (if m.cred in delegators then m.amount else 0)
  }

  function EndsImpact(e: Ends, id: Bytes, stake: int): int {
    if e.to == Some(id) && e.from != Some(id) then stake
    else if e.from == Some(id) && e.to != Some(id) then -stake
    else 0
  }

  /** Only pool and DRep feeds count what a certificate moves. */
  function ImpactOf(d: DelegationInfo, filter: Filter): int {
    match filter
    case Pool(id) => EndsImpact(d.pool, id, d.liveStake)
    case DRep(id) => EndsImpact(d.drep, id, d.liveStake)
    case _ => 0
  }

  function Impact(ds: seq<DelegationInfo>, filter: Filter): int {
    if ds == [] then 0 else Impact(ds[..|ds| - 1], filter) + ImpactOf(ds[|ds| - 1], filter)
  }

  function LegsAt(ls: seq<Leg>, address: Bytes): int {
    if ls == [] then 0
    else LegsAt(ls[..|ls| - 1], address) + (if ls[|ls| - 1].address == Some(address) then ls[|ls| - 1].lovelace else 0)
  }

  function NetChange(tx: BlockTx, delegators: set<Bytes>, filter: Filter): int {
    if filter.Address? then LegsAt(tx.outputs, filter.address) - LegsAt(tx.inputs, filter.address)
    else Net(Moves(tx), delegators) + Impact(tx.delegations, filter)
  }

  function StakeChange(tx: BlockTx, delegators: set<Bytes>, filter: Filter): Option<int> {
    var net := NetChange(tx, delegators, filter);
    if net == 0 then None else Some(net)
  }

  /** `moved` names each delegator the moves touch, once. */
  ghost predicate Names(moved: seq<Bytes>, moves: seq<Move>, delegators: set<Bytes>) {
    && Distinct(moved)
    && forall c :: c in moved <==> c in delegators && exists m <- moves :: m.cred == c
  }

  lemma NamesMore(moved: seq<Bytes>, moves: seq<Move>, m: Move, delegators: set<Bytes>)
    requires Names(moved, moves, delegators)
    ensures Names(if m.cred in delegators && m.cred !in moved then moved + [m.cred] else moved, moves + [m], delegators)
    ensures Net(moves + [m], delegators) == Net(moves, delegators) + (if m.cred in delegators then m.amount else 0)
  {
    assert (moves + [m])[..|moves|] == moves;
    assert forall x :: x in moves + [m] <==> x in moves || x == m;
  }

  /** The net change of an address: what its outputs bring less what its inputs take. */
  method AddressChange(tx: BlockTx, address: Bytes) returns (net: int)
    ensures net == LegsAt(tx.outputs, address) - LegsAt(tx.inputs, address)
  {
    net := 0;
    for i := 0 to |tx.outputs|
      invariant net == LegsAt(tx.outputs[..i], address)
    {
      assert tx.outputs[..i + 1][..i] == tx.outputs[..i];
      if tx.outputs[i].address == Some(address) {
        net := net + tx.outputs[i].lovelace;
      }
    }
    assert tx.outputs[..|tx.outputs|] == tx.outputs;
    for i := 0 to |tx.inputs|
      invariant net == LegsAt(tx.outputs, address) - LegsAt(tx.inputs[..i], address)
    {
      assert tx.inputs[..i + 1][..i] == tx.inputs[..i];
      if tx.inputs[i].address == Some(address) {
        net := net - tx.inputs[i].lovelace;
      }
    }
    assert tx.inputs[..|tx.inputs|] == tx.inputs;
  }

  /** The net change of the delegators one transaction moves, and who they are. */
  method DelegatorsChange(tx: BlockTx, delegators: set<Bytes>) returns (net: int, moved: seq<Bytes>)
    ensures net == Net(Moves(tx), delegators) && Names(moved, Moves(tx), delegators)
  {
    hide Names, Net, LegMove;
    net, moved := 0, [];
    ghost var seen: seq<Move> := [];
    NothingNamed(delegators);
    for i := 0 to |tx.outputs|
      invariant seen == LegMoves(tx.outputs[..i], 1)
      invariant net == Net(seen, delegators) && Names(moved, seen, delegators)
    {
      assert tx.outputs[..i + 1][..i] == tx.outputs[..i];
      net, moved := AddLeg(net, moved, seen, tx.outputs[i], 1, delegators);
      seen := seen + LegMove(tx.outputs[i], 1);
    }
    assert tx.outputs[..|tx.outputs|] == tx.outputs;
    ghost var outs := seen;
    Nil(outs);
    for i := 0 to |tx.inputs|
      invariant seen == outs + LegMoves(tx.inputs[..i], -1)
      invariant net == Net(seen, delegators) && Names(moved, seen, delegators)
    {
      assert tx.inputs[..i + 1][..i] == tx.inputs[..i];
      net, moved := AddLeg(net, moved, seen, tx.inputs[i], -1, delegators);
      seen := seen + LegMove(tx.inputs[i], -1);
    }
    assert tx.inputs[..|tx.inputs|] == tx.inputs;
    ghost var legs := seen;
    for i := 0 to |tx.withdrawals|
      invariant seen == legs + WithdrawalMoves(tx.withdrawals)[..i]
      invariant net == Net(seen, delegators) && Names(moved, seen, delegators)
    {
      var w := tx.withdrawals[i];
      NamesMore(moved, seen, Move(w.cred, -w.amount), delegators);
      if w.cred in delegators {
        net := net - w.amount;
        if w.cred !in moved {
          moved := moved + [w.cred];
        }
      }
      seen := seen + [Move(w.cred, -w.amount)];
    }
    assert seen == Moves(tx);
  }

  /** What a transaction changes for a feed, and the delegators it moves where the feed shows them. */
  method ApplyStakeChange(tx: BlockTx, delegators: set<Bytes>, filter: Filter)
    returns (stakeChange: Option<int>, moved: seq<Bytes>)
    ensures stakeChange == if NetChange(tx, delegators, filter) == 0 then None else Some(NetChange(tx, delegators, filter))
    ensures if filter.Pool? || filter.DRep? then Names(moved, Moves(tx), delegators) else moved == []
  {
    hide Names, Net, Moves, LegsAt;
    if filter.Address? {
      var change := AddressChange(tx, filter.address);
      return if change != 0 then Some(change) else None, [];
    }
    var own, who := DelegatorsChange(tx, delegators);
    var net := own;
    moved := [];
    if filter.Pool? || filter.DRep? {
      moved := who;
      for i := 0 to |tx.delegations|
        invariant net == own + Impact(tx.delegations[..i], filter)
      {
        assert tx.delegations[..i + 1][..i] == tx.delegations[..i];
        var ends := if filter.Pool? then tx.delegations[i].pool else tx.delegations[i].drep;
        if ends.to == Some(filter.id) && ends.from != Some(filter.id) {
          net := net + tx.delegations[i].liveStake;
        } else if ends.from == Some(filter.id) && ends.to != Some(filter.id) {
          net := net - tx.delegations[i].liveStake;
        }
      }
      assert tx.delegations[..|tx.delegations|] == tx.delegations;
    } else {
      OwnBalance(tx.delegations, filter);
    }
    stakeChange := if net != 0 then Some(net) else None;
  }

  lemma {:induction false} OwnBalance(ds: seq<DelegationInfo>, filter: Filter)
    requires filter.Stake? || filter.Address?
    ensures Impact(ds, filter) == 0
  {
    if ds != [] {
      OwnBalance(ds[..|ds| - 1], filter);
    }
  }

  lemma NothingNamed(delegators: set<Bytes>)
    ensures Names([], [], delegators) && Net([], delegators) == 0
  {
  }

  method AddLeg(net: int, moved: seq<Bytes>, ghost seen: seq<Move>, leg: Leg, sign: int, delegators: set<Bytes>)
    returns (net': int, moved': seq<Bytes>)
    requires net == Net(seen, delegators) && Names(moved, seen, delegators)
    ensures net' == Net(seen + LegMove(leg, sign), delegators) && Names(moved', seen + LegMove(leg, sign), delegators)
  {
    hide Names, Net, StakeCredential;
    net', moved' := net, moved;
    if leg.address.Some? {
      var cred := StakeCredential(leg.address.value);
      if cred.Some? {
        NamesMore(moved, seen, Move(cred.value, sign * leg.lovelace), delegators);
        if cred.value in delegators {
          net' := net + sign * leg.lovelace;
          if cred.value !in moved {
            moved' := moved + [cred.value];
          }
        }
      } else {
        Nil(seen);
      }
    } else {
      Nil(seen);
    }
  }

  // ---- One pass ----

  /** What the moves add up to for one delegation target. */
  function NetTo(moves: seq<Move>, delegations: map<Bytes, Delegation>, target: Bytes): int {
    if moves == [] then 0
    else
      var m := moves[|moves| - 1];
      NetTo(moves[..|moves| - 1], delegations, target) +
      (if m.cred in delegations && delegations[m.cred].target == target then m.amount else 0)
  }

  function Abs(x: int): nat {
    if x < 0 then -x else x
  }

  function Max(a: nat, b: nat): nat {
    if a < b then b else a
  }

  function MaxNetTo(txs: seq<BlockTx>, delegations: map<Bytes, Delegation>, target: Bytes): nat {
    if txs == [] then 0
    else Max(MaxNetTo(txs[..|txs| - 1], delegations, target), Abs(NetTo(Moves(txs[|txs| - 1]), delegations, target)))
  }

  /** The per-target nets so far: a target is present once something was added to it. */
  ghost predicate IsNets(nets: Amounts, moves: seq<Move>, delegations: map<Bytes, Delegation>) {
    && (forall t :: Get(nets, t) == NetTo(moves, delegations, t))
  }

  function AddTo(nets: Amounts, delegations: map<Bytes, Delegation>, m: Move): Amounts {
    if m.cred in delegations
    then nets[delegations[m.cred].target := Get(nets, delegations[m.cred].target) + m.amount]
    else nets
  }

  lemma AddToNets(nets: Amounts, moves: seq<Move>, delegations: map<Bytes, Delegation>, m: Move)
    requires IsNets(nets, moves, delegations)
    ensures IsNets(AddTo(nets, delegations, m), moves + [m], delegations)
  {
    assert (moves + [m])[..|moves|] == moves;
    forall t
      ensures Get(AddTo(nets, delegations, m), t) == NetTo(moves + [m], delegations, t)
    {
      assert Get(nets, t) == NetTo(moves, delegations, t);
    }
  }

  /** The nets of one transaction for every pool and every DRep it touches. */
  method TxNets(tx: BlockTx, pools: map<Bytes, Delegation>, dreps: map<Bytes, Delegation>)
    returns (poolNet: Amounts, drepNet: Amounts)
    ensures IsNets(poolNet, Moves(tx), pools) && IsNets(drepNet, Moves(tx), dreps)
  {
    hide IsNets, AddTo, LegMove;
    poolNet, drepNet := map[], map[];
    ghost var seen: seq<Move> := [];
    NoNets(pools);
    NoNets(dreps);
    for i := 0 to |tx.outputs|
      invariant seen == LegMoves(tx.outputs[..i], 1)
      invariant IsNets(poolNet, seen, pools) && IsNets(drepNet, seen, dreps)
    {
      assert tx.outputs[..i + 1][..i] == tx.outputs[..i];
      poolNet, drepNet := AddLegNets(poolNet, drepNet, seen, tx.outputs[i], 1, pools, dreps);
      seen := seen + LegMove(tx.outputs[i], 1);
    }
    assert tx.outputs[..|tx.outputs|] == tx.outputs;
    ghost var outs := seen;
    Nil(outs);
    for i := 0 to |tx.inputs|
      invariant seen == outs + LegMoves(tx.inputs[..i], -1)
      invariant IsNets(poolNet, seen, pools) && IsNets(drepNet, seen, dreps)
    {
      assert tx.inputs[..i + 1][..i] == tx.inputs[..i];
      poolNet, drepNet := AddLegNets(poolNet, drepNet, seen, tx.inputs[i], -1, pools, dreps);
      seen := seen + LegMove(tx.inputs[i], -1);
    }
    assert tx.inputs[..|tx.inputs|] == tx.inputs;
    ghost var legs := seen;
    for i := 0 to |tx.withdrawals|
      invariant seen == legs + WithdrawalMoves(tx.withdrawals)[..i]
      invariant IsNets(poolNet, seen, pools) && IsNets(drepNet, seen, dreps)
    {
      var m := Move(tx.withdrawals[i].cred, -tx.withdrawals[i].amount);
      AddToNets(poolNet, seen, pools, m);
      AddToNets(drepNet, seen, dreps, m);
      poolNet, drepNet := AddTo(poolNet, pools, m), AddTo(drepNet, dreps, m);
      seen := seen + [m];
    }
    assert seen == Moves(tx);
  }

  lemma NoNets(delegations: map<Bytes, Delegation>)
    ensures IsNets(map[], [], delegations)
  {
  }

  method AddLegNets(poolNet: Amounts, drepNet: Amounts, ghost seen: seq<Move>, leg: Leg, sign: int,
                    pools: map<Bytes, Delegation>, dreps: map<Bytes, Delegation>)
    returns (poolNet': Amounts, drepNet': Amounts)
    requires IsNets(poolNet, seen, pools) && IsNets(drepNet, seen, dreps)
    ensures IsNets(poolNet', seen + LegMove(leg, sign), pools) && IsNets(drepNet', seen + LegMove(leg, sign), dreps)
  {
    hide IsNets, AddTo, StakeCredential;
    poolNet', drepNet' := poolNet, drepNet;
    Nil(seen);
    if leg.address.Some? {
      var cred := StakeCredential(leg.address.value);
      if cred.Some? {
        var m := Move(cred.value, sign * leg.lovelace);
        AddToNets(poolNet, seen, pools, m);
        AddToNets(drepNet, seen, dreps, m);
        poolNet', drepNet' := AddTo(poolNet, pools, m), AddTo(drepNet, dreps, m);
      }
    }
  }

  /** Raise the recorded maxima by one transaction's nets. */
  method RaiseMaxima(maxima: Amounts, nets: Amounts) returns (r: Amounts)
    requires forall t :: Get(maxima, t) >= 0
    ensures forall t :: Get(r, t) == Max(Get(maxima, t), Abs(Get(nets, t)))
  {
    hide Max, Abs;
    r := maxima;
    var todo := nets.Keys;
    while todo != {}
      invariant todo <= nets.Keys
      invariant forall t :: Get(r, t) == if t in nets && t !in todo then Max(Get(maxima, t), Abs(nets[t])) else Get(maxima, t)
      decreases |todo|
    {
      var t :| t in todo;
      r := r[t := Max(Get(r, t), Abs(nets[t]))];
      todo := todo - {t};
    }
    forall t
      ensures Get(r, t) == Max(Get(maxima, t), Abs(Get(nets, t)))
    {
      if t !in nets {
        MaxZero(Get(maxima, t));
      }
    }
  }

  lemma MaxZero(n: nat)
    ensures Max(n, Abs(0)) == n
  {
  }

  ghost predicate AreMaxima(maxima: Amounts, txs: seq<BlockTx>, delegations: map<Bytes, Delegation>) {
    && (forall t :: Get(maxima, t) == MaxNetTo(txs, delegations, t))
  }

  lemma Raised(maxima: Amounts, r: Amounts, nets: Amounts, txs: seq<BlockTx>, tx: BlockTx, delegations: map<Bytes, Delegation>)
    requires AreMaxima(maxima, txs, delegations) && IsNets(nets, Moves(tx), delegations)
    requires forall t :: Get(maxima, t) >= 0 && Get(r, t) == Max(Get(maxima, t), Abs(Get(nets, t)))
    ensures AreMaxima(r, txs + [tx], delegations)
  {
    assert (txs + [tx])[..|txs|] == txs;
    forall t
      ensures Get(r, t) == MaxNetTo(txs + [tx], delegations, t)
    {
      assert Get(maxima, t) == MaxNetTo(txs, delegations, t);
      assert Get(nets, t) == NetTo(Moves(tx), delegations, t);
    }
  }

  lemma MaximaPositive(maxima: Amounts, txs: seq<BlockTx>, delegations: map<Bytes, Delegation>)
    requires AreMaxima(maxima, txs, delegations)
    ensures forall t :: Get(maxima, t) >= 0
  {
    forall t
      ensures Get(maxima, t) >= 0
    {
      assert Get(maxima, t) == MaxNetTo(txs, delegations, t);
    }
  }

  /** The largest net of any transaction of the block, for every pool and every DRep. */
  method BlockMagnitudes(txs: seq<BlockTx>, pools: map<Bytes, Delegation>, dreps: map<Bytes, Delegation>)
    returns (poolMax: Amounts, drepMax: Amounts)
    ensures AreMaxima(poolMax, txs, pools) && AreMaxima(drepMax, txs, dreps)
  {
    hide IsNets, AreMaxima;
    poolMax, drepMax := map[], map[];
    NoMaxima(pools);
    NoMaxima(dreps);
    for i := 0 to |txs|
      invariant AreMaxima(poolMax, txs[..i], pools) && AreMaxima(drepMax, txs[..i], dreps)
    {
      var poolNet, drepNet := TxNets(txs[i], pools, dreps);
      MaximaPositive(poolMax, txs[..i], pools);
      MaximaPositive(drepMax, txs[..i], dreps);
      var p := RaiseMaxima(poolMax, poolNet);
      var d := RaiseMaxima(drepMax, drepNet);
      Raised(poolMax, p, poolNet, txs[..i], txs[i], pools);
      Raised(drepMax, d, drepNet, txs[..i], txs[i], dreps);
      assert txs[..i + 1] == txs[..i] + [txs[i]];
      poolMax, drepMax := p, d;
    }
    assert txs[..|txs|] == txs;
  }

  lemma NoMaxima(delegations: map<Bytes, Delegation>)
    ensures AreMaxima(map[], [], delegations)
  {
  }

  // ---- Agreement ----

  function DelegatorsOf(b: Book, target: Bytes): set<Bytes> {
    if target in b.delegators then b.delegators[target] else {}
  }

  /** Attributing by target is summing over the target's delegators, as the two maps are inverse. */
  lemma {:induction false} NetToIsNet(moves: seq<Move>, b: Book, target: Bytes)
    requires Inverse(b)
    ensures NetTo(moves, b.delegations, target) == Net(moves, DelegatorsOf(b, target))
  {
    if moves != [] {
      NetToIsNet(moves[..|moves| - 1], b, target);
      var c := moves[|moves| - 1].cred;
      assert (c in b.delegations && b.delegations[c].target == target) <==> (target in b.delegators && c in b.delegators[target]);
    }
  }

  function Threshold(active: map<Bytes, nat>, subject: Bytes): nat {
    (if subject in active then active[subject] else 0) / DIVISOR
  }

  /** The stake change alone passes the render filter's threshold. */
  predicate Passes(tx: BlockTx, delegators: set<Bytes>, filter: Filter, threshold: nat) {
    var change := StakeChange(tx, delegators, filter);
    change.Some? && Abs(change.value) > threshold
  }

  predicate MatchesVote(tx: BlockTx, filter: Filter) {
    match filter
    case Pool(id) => id in tx.poolVotes
    case DRep(id) => id in tx.drepVotes
    case _ => false
  }

  /** The transaction is kept on a pool's or DRep's page. */
  predicate Renders(tx: BlockTx, delegators: set<Bytes>, filter: Filter, threshold: nat)
    requires filter.Pool? || filter.DRep?
  {
    tx.delegations != [] || Passes(tx, delegators, filter, threshold) || MatchesVote(tx, filter)
  }

  /** The largest change a page computes for any transaction, certificates included. */
  function MaxChange(txs: seq<BlockTx>, delegators: set<Bytes>, filter: Filter): nat {
    if txs == [] then 0
    else Max(MaxChange(txs[..|txs| - 1], delegators, filter), Abs(NetChange(txs[|txs| - 1], delegators, filter)))
  }

  lemma PassesIs(tx: BlockTx, delegators: set<Bytes>, filter: Filter, threshold: nat)
    ensures Passes(tx, delegators, filter, threshold) <==> Abs(NetChange(tx, delegators, filter)) > threshold
  {
  }

  lemma {:induction false} ChangedSomewhere(txs: seq<BlockTx>, delegators: set<Bytes>, filter: Filter, threshold: nat)
    ensures MaxChange(txs, delegators, filter) > threshold <==> exists tx <- txs :: Passes(tx, delegators, filter, threshold)
  {
    hide NetChange, Passes;
    if txs != [] {
      var n := |txs| - 1;
      ChangedSomewhere(txs[..n], delegators, filter, threshold);
      PassesIs(txs[n], delegators, filter, threshold);
      assert forall tx :: tx in txs <==> tx in txs[..n] || tx == txs[n];
    }
  }

  lemma {:induction false} AboveSomewhere(txs: seq<BlockTx>, delegations: map<Bytes, Delegation>, target: Bytes, threshold: nat)
    ensures MaxNetTo(txs, delegations, target) > threshold <==>
            exists tx <- txs :: Abs(NetTo(Moves(tx), delegations, target)) > threshold
  {
    hide Moves, NetTo;
    if txs != [] {
      var n := |txs| - 1;
      AboveSomewhere(txs[..n], delegations, target, threshold);
      assert forall tx :: tx in txs <==> tx in txs[..n] || tx == txs[n];
    }
  }

  /** The threshold decisions of the index and of a page, for one table of active stakes. */
  ghost predicate SameDecision(txs: seq<BlockTx>, b: Book, filter: Filter, active: map<Bytes, nat>)
    requires filter.Pool? || filter.DRep?
  {
    MaxNetTo(txs, b.delegations, filter.id) > Threshold(active, filter.id) <==>
    exists tx <- txs :: Passes(tx, DelegatorsOf(b, filter.id), filter, Threshold(active, filter.id))
  }

  /**
   * The threshold decides alike in the index and on a page, whatever the active stakes, exactly when
   * the certificates a page counts do not change the largest net of the block.
   */
  lemma DecisionsAgree(txs: seq<BlockTx>, b: Book, filter: Filter)
    requires filter.Pool? || filter.DRep?
    ensures (forall active :: SameDecision(txs, b, filter, active)) <==>
            MaxNetTo(txs, b.delegations, filter.id) == MaxChange(txs, DelegatorsOf(b, filter.id), filter)
  {
    hide MaxNetTo, MaxChange, Passes, DelegatorsOf;
    var x, y := MaxNetTo(txs, b.delegations, filter.id), MaxChange(txs, DelegatorsOf(b, filter.id), filter);
    forall active
      ensures SameDecision(txs, b, filter, active) <==> (x > Threshold(active, filter.id) <==> y > Threshold(active, filter.id))
    {
      ChangedSomewhere(txs, DelegatorsOf(b, filter.id), filter, Threshold(active, filter.id));
    }
    if x != y {
      var active := map[filter.id := (if x < y then x else y) * DIVISOR];
      assert Threshold(active, filter.id) == if x < y then x else y;
      assert !SameDecision(txs, b, filter, active);
    }
  }

  /** Without certificates on show a page computes what the index computed. */
  lemma WithoutCertificates(tx: BlockTx, b: Book, filter: Filter)
    requires Inverse(b) && (filter.Pool? || filter.DRep?) && tx.delegations == []
    ensures NetChange(tx, DelegatorsOf(b, filter.id), filter) == NetTo(Moves(tx), b.delegations, filter.id)
  {
    hide Moves, Inverse, DelegatorsOf;
    NetToIsNet(Moves(tx), b, filter.id);
  }

  /** A certificate naming the subject counts on the page but not for the index. */
  lemma CertificateDiffers()
    ensures exists txs, b, filter: Filter, active :: Inverse(b) && filter.Pool? && !SameDecision(txs, b, filter, active)
  {
    var id: Bytes := [1];
    var info := DelegationInfo(Ends(None, Some(id)), Ends(None, None), 5);
    var tx := BlockTx("", [], [], [], [info], {}, {});
    var b, filter := Book(map[], map[]), Pool(id);
    assert tx.delegations[..0] == [] && [tx][..0] == [];
    assert Moves(tx) == [];
    assert Impact([info], filter) == 5 by { assert [info][..0] == []; }
    assert NetChange(tx, DelegatorsOf(b, id), filter) == 5;
    assert MaxNetTo([tx], b.delegations, id) == 0;
    assert MaxChange([tx], DelegatorsOf(b, id), filter) == 5;
    DecisionsAgree([tx], b, filter);
    var active :| !SameDecision([tx], b, filter, active);
    assert Inverse(b) && filter.Pool? && !SameDecision([tx], b, filter, active);
  }

  lemma {:induction false} NothingTo(moves: seq<Move>, delegations: map<Bytes, Delegation>, target: Bytes)
    requires forall c <- delegations :: delegations[c].target != target
    ensures NetTo(moves, delegations, target) == 0
  {
    if moves != [] {
      NothingTo(moves[..|moves| - 1], delegations, target);
    }
  }

  /** Only delegation targets are moved. */
  lemma {:induction false} OnlyTargets(txs: seq<BlockTx>, delegations: map<Bytes, Delegation>, target: Bytes)
    requires MaxNetTo(txs, delegations, target) > 0
    ensures exists c <- delegations :: delegations[c].target == target
  {
    hide Moves, NetTo;
    var n := |txs| - 1;
    if MaxNetTo(txs[..n], delegations, target) > 0 {
      OnlyTargets(txs[..n], delegations, target);
    } else if forall c <- delegations :: delegations[c].target != target {
      NothingTo(Moves(txs[n]), delegations, target);
    }
  }

  /** The subjects above their thresholds. */
  function Above(maxima: Amounts, active: map<Bytes, nat>): set<Bytes> {
    set t | t in maxima && maxima[t] > Threshold(active, t)
  }

  lemma AboveIs(maxima: Amounts, active: map<Bytes, nat>, txs: seq<BlockTx>, delegations: map<Bytes, Delegation>, t: Bytes)
    requires AreMaxima(maxima, txs, delegations)
    ensures t in Above(maxima, active) <==> MaxNetTo(txs, delegations, t) > Threshold(active, t)
  {
    assert Get(maxima, t) == MaxNetTo(txs, delegations, t);
  }
}
