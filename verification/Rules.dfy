/**
 * The ledger's own rules, one transaction after the other: each spends what is unspent when its turn
 * comes. The sink applies a block at once, all outputs before all inputs.
 */
module Rules {
  import opened Wrappers
  import opened Bytes
  import opened Ledger
  import opened Unspent
  import opened Stakes

  /** The unspent outputs after one transaction; one that fails its scripts gives up its collateral instead. */
  function TxUtxo(utxo: Utxo, tx: Tx): Utxo {
    if tx.valid then AddAll(utxo - RefsOf(tx.inputs), tx.outputs) else AddAll(utxo - RefsOf(tx.collateral), tx.refund)
  }

  function UtxoAfter(utxo: Utxo, txs: seq<Tx>): Utxo {
    if txs == [] then utxo else TxUtxo(UtxoAfter(utxo, txs[..|txs| - 1]), txs[|txs| - 1])
  }

  /** It spends unspent outputs, each once. */
  predicate Payable(utxo: Utxo, tx: Tx) {
    DistinctRefs(Consumes()(tx)) && Spendable(utxo, Consumes()(tx))
  }

  /** Every transaction is payable when its turn comes, and no reference of an output was ever used before. */
  ghost predicate Lawful(utxo: Utxo, txs: seq<Tx>) {
    && (forall k | 0 <= k < |txs| :: Payable(UtxoAfter(utxo, txs[..k]), txs[k]))
    && DistinctRefs(Gather(txs, Produces())) && Fresh(utxo, Gather(txs, Produces()))
  }

  lemma LawfulPrefix(utxo: Utxo, txs: seq<Tx>, tx: Tx)
    requires Lawful(utxo, txs + [tx])
    ensures Lawful(utxo, txs) && Payable(UtxoAfter(utxo, txs), tx)
    ensures var made := Gather(txs, Produces()) + Produces()(tx); DistinctRefs(made) && Fresh(utxo, made)
  {
    hide Payable, UtxoAfter, DistinctRefs, Fresh, Gather;
    GatherLast(txs, tx, Produces());
    NewPrefix(utxo, Gather(txs, Produces()), Produces()(tx));
    var all := txs + [tx];
    assert all[..|txs|] == txs && all[|txs|] == tx;
    forall k | 0 <= k < |txs|
      ensures Payable(UtxoAfter(utxo, txs[..k]), txs[k])
    {
      assert all[..k] == txs[..k] && all[k] == txs[k];
    }
  }

  lemma NewPrefix(utxo: Utxo, made: seq<Io>, more: seq<Io>)
    requires DistinctRefs(made + more) && Fresh(utxo, made + more)
    ensures DistinctRefs(made) && Fresh(utxo, made)
  {
    hide Positive;
    assert forall i | 0 <= i < |made| :: (made + more)[i] == made[i];
  }

  /** One more transaction, on top of a block applied at once. */
  lemma OneMore(utxo: Utxo, made: seq<Io>, taken: seq<Io>, takes: seq<Io>, leaves: seq<Io>)
    requires DistinctRefs(made + leaves) && Fresh(utxo, made + leaves)
    requires DistinctRefs(taken) && Spendable(AddAll(utxo, made), taken)
    requires DistinctRefs(takes) && Spendable(NextUtxo(utxo, made, taken), takes)
    ensures DistinctRefs(taken + takes) && Spendable(AddAll(utxo, made + leaves), taken + takes)
    ensures AddAll(NextUtxo(utxo, made, taken) - RefsOf(takes), leaves) == NextUtxo(utxo, made + leaves, taken + takes)
  {
    hide AddAll, Positive;
    var a := AddAll(utxo, made);
    AddAllConcat(utxo, made, leaves);
    AddAllKeys(utxo, made);
    NotMadeYet(utxo, made, leaves);
    Untouched(a, leaves);
    forall i | 0 <= i < |takes|
      ensures takes[i].ref in a && a[takes[i].ref] == takes[i].output && takes[i].ref !in RefsOf(taken)
    {
    }
    forall i, j | 0 <= i < |taken| && 0 <= j < |takes|
      ensures taken[i].ref != takes[j].ref
    {
      assert taken[i] in taken;
    }
    var all := taken + takes;
    assert RefsOf(all) == RefsOf(taken) + RefsOf(takes);
    AddApart(a, RefsOf(all), leaves);
    assert a - RefsOf(taken) - RefsOf(takes) == a - RefsOf(all);
  }

  lemma NotMadeYet(utxo: Utxo, made: seq<Io>, leaves: seq<Io>)
    requires DistinctRefs(made + leaves) && Fresh(utxo, made + leaves)
    ensures forall r <- RefsOf(leaves) :: r !in AddAll(utxo, made)
  {
    hide Positive;
    AddAllKeys(utxo, made);
    forall r | r in RefsOf(leaves)
      ensures r !in utxo && r !in RefsOf(made)
    {
      var j :| 0 <= j < |leaves| && leaves[j].ref == r;
      assert (made + leaves)[|made| + j] == leaves[j];
      forall i | 0 <= i < |made|
        ensures made[i].ref != r
      {
        assert (made + leaves)[i] == made[i];
      }
    }
  }

  lemma {:induction false} Untouched(a: Utxo, leaves: seq<Io>)
    ensures forall r :: r in a && r !in RefsOf(leaves) ==> r in AddAll(a, leaves) && AddAll(a, leaves)[r] == a[r]
  {
    if leaves != [] {
      var n := |leaves| - 1;
      Untouched(a, leaves[..n]);
      assert leaves[n] in leaves && forall x <- leaves[..n] :: x in leaves;
    }
  }

  /** Removing what is not added commutes with adding. */
  lemma {:induction false} AddApart(a: Utxo, gone: set<OutRef>, leaves: seq<Io>)
    requires forall io <- leaves :: io.ref !in gone
    ensures AddAll(a - gone, leaves) == AddAll(a, leaves) - gone
  {
    if leaves != [] {
      var n := |leaves| - 1;
      assert leaves[n] in leaves && forall x <- leaves[..n] :: x in leaves;
      AddApart(a, gone, leaves[..n]);
    }
  }

  /**
   * A block of lawful transactions applied at once, all outputs first, leads to the unspent outputs
   * that its transactions lead to one after the other.
   */
  lemma {:induction false} AtOnce(utxo: Utxo, txs: seq<Tx>)
    requires Lawful(utxo, txs)
    ensures NextUtxo(utxo, OutputsOf(txs), InputsOf(txs)) == UtxoAfter(utxo, txs)
    ensures DistinctRefs(OutputsOf(txs)) && Fresh(utxo, OutputsOf(txs))
    ensures DistinctRefs(InputsOf(txs)) && Spendable(AddAll(utxo, OutputsOf(txs)), InputsOf(txs))
  {
    hide Lawful, Positive, AddAll, Spendable, Fresh, DistinctRefs, OutputsOf, InputsOf;
    SumsDeclared(txs);
    if txs == [] {
      NothingApplied(utxo);
    } else {
      var n := |txs| - 1;
      var tx := txs[n];
      assert txs == txs[..n] + [tx];
      LawfulPrefix(utxo, txs[..n], tx);
      AtOnce(utxo, txs[..n]);
      SumsDeclared(txs[..n]);
      GatherLast(txs[..n], tx, Consumes());
      GatherLast(txs[..n], tx, Produces());
      OneMore(utxo, OutputsOf(txs[..n]), InputsOf(txs[..n]), Consumes()(tx), Produces()(tx));
    }
  }

  lemma NothingApplied(utxo: Utxo)
    ensures NextUtxo(utxo, [], []) == utxo && DistinctRefs([]) && Fresh(utxo, []) && Spendable(utxo, []) && AddAll(utxo, []) == utxo
  {
  }

  /** What the ledger guarantees of a block at once follows from its transactions one by one. */
  lemma LawfulIsValid(utxo: Utxo, txs: seq<Tx>)
    requires Lawful(utxo, txs) && Fits(AddAll(utxo, OutputsOf(txs)))
    ensures ValidIo(utxo, OutputsOf(txs), InputsOf(txs))
    ensures NextUtxo(utxo, OutputsOf(txs), InputsOf(txs)) == UtxoAfter(utxo, txs)
  {
    hide Lawful, Fits, Spendable, Fresh, DistinctRefs, NextUtxo, UtxoAfter;
    AtOnce(utxo, txs);
  }
}
