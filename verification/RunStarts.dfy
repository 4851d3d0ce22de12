/**
 * When a delegation's current run began: the value kept per block against the query that
 * numbers the runs of a credential's whole certificate history.
 */
module RunStarts {
  import opened Wrappers
  import opened Bytes
  import opened Delegations

  /** A certificate and the slot of its block. */
  datatype Cert = Cert(slot: nat, change: Change)

  /** One row of a credential's history; a deregistration has no target. */
  datatype Row = Row(slot: nat, target: Option<Bytes>)

  function ApplyCerts(b: Book, certs: seq<Cert>): Book {
    if certs == [] then b
    else
      var last := certs[|certs| - 1];
      ApplyOne(ApplyCerts(b, certs[..|certs| - 1]), last.change, last.slot)
  }

  function Rows(certs: seq<Cert>, cred: Bytes): seq<Row> {
    if certs == [] then []
    else
      var last := certs[|certs| - 1];
      Rows(certs[..|certs| - 1], cred) + (if last.change.cred == cred then [Row(last.slot, last.change.target)] else [])
  }

  // ---- The query ----

  /** A row breaks the run when its target differs from the previous row's (none before the first). */
  function Break(rows: seq<Row>, i: nat): nat
    requires i < |rows|
  {
    var before := if i == 0 then None else rows[i - 1].target;
    if rows[i].target != before then 1 else 0
  }

  /** Running sum of the breaks: the number of the row's run. */
  function Group(rows: seq<Row>, i: nat): nat
    requires i < |rows|
  {
    Break(rows, i) + if i == 0 then 0 else Group(rows, i - 1)
  }

  predicate InLastRun(rows: seq<Row>, i: nat)
    requires i < |rows|
  {
    Group(rows, i) == Group(rows, |rows| - 1) && rows[i].target == rows[|rows| - 1].target
  }

  /** The least slot of the last run. */
  ghost predicate IsRunStart(rows: seq<Row>, since: nat) {
    && (exists i | 0 <= i < |rows| :: InLastRun(rows, i) && rows[i].slot == since)
    && (forall i | 0 <= i < |rows| :: InLastRun(rows, i) ==> since <= rows[i].slot)
  }

  /** What the query answers for a credential, compared with its entry in the map. */
  ghost predicate Agrees(delegations: map<Bytes, Delegation>, cred: Bytes, rows: seq<Row>) {
    && (cred in delegations <==> rows != [] && rows[|rows| - 1].target.Some?)
    && (cred in delegations ==>
          rows[|rows| - 1].target == Some(delegations[cred].target) && IsRunStart(rows, delegations[cred].since))
  }

  // ---- The map kept per block agrees ----

  predicate Chronological(certs: seq<Cert>) {
    forall i, j | 0 <= i < j < |certs| :: certs[i].slot <= certs[j].slot
  }

  /**
   * From maps loaded with the query's answer for a past, after any further certificates, several of
   * one block included, the kept entry is the query's answer for the whole history.
   */
  lemma {:induction false} RunStartKept(b: Book, past: seq<Cert>, certs: seq<Cert>, cred: Bytes)
    requires Agrees(b.delegations, cred, Rows(past, cred)) && Chronological(past + certs)
    ensures Agrees(ApplyCerts(b, certs).delegations, cred, Rows(past + certs, cred))
  {
    hide Agrees, Rows, ApplyOne, Chronological;
    if certs == [] {
      assert past + certs == past;
    } else {
      var n := |certs| - 1;
      var before := past + certs[..n];
      assert past + certs == before + [certs[n]];
      ChronologicalPrefix(before, certs[n]);
      RunStartKept(b, past, certs[..n], cred);
      OneMoreCert(ApplyCerts(b, certs[..n]), before, certs[n], cred);
    }
  }

  lemma ChronologicalPrefix(before: seq<Cert>, cert: Cert)
    requires Chronological(before + [cert])
    ensures Chronological(before)
  {
    var all := before + [cert];
    forall i, j | 0 <= i < j < |before|
      ensures before[i].slot <= before[j].slot
    {
      assert all[i].slot <= all[j].slot;
    }
  }

  /** One certificate takes an entry that agrees with the history to one that agrees with the longer history. */
  lemma OneMoreCert(b: Book, before: seq<Cert>, cert: Cert, cred: Bytes)
    requires Agrees(b.delegations, cred, Rows(before, cred)) && Chronological(before + [cert])
    ensures Agrees(ApplyOne(b, cert.change, cert.slot).delegations, cred, Rows(before + [cert], cred))
  {
    hide Agrees, ApplyOne;
    var rows := Rows(before, cred);
    assert (before + [cert])[..|before|] == before;
    LastIsLatest(before, cert);
    RowsBounded(before, cred, cert.slot);
    if cert.change.cred == cred {
      OneMoreRow(b, cert, rows, Row(cert.slot, cert.change.target));
    } else {
      assert rows + [] == rows;
      OtherCert(b, cert, cred, rows);
    }
  }

  lemma LastIsLatest(before: seq<Cert>, cert: Cert)
    requires Chronological(before + [cert])
    ensures forall i | 0 <= i < |before| :: before[i].slot <= cert.slot
  {
    var all := before + [cert];
    forall i | 0 <= i < |before|
      ensures before[i].slot <= cert.slot
    {
      assert all[i].slot <= all[|before|].slot;
    }
  }

  lemma OtherCert(b: Book, cert: Cert, cred: Bytes, rows: seq<Row>)
    requires Agrees(b.delegations, cred, rows) && cert.change.cred != cred
    ensures Agrees(ApplyOne(b, cert.change, cert.slot).delegations, cred, rows)
  {
    hide IsRunStart;
  }

  /** The maps kept from the first certificate on. */
  lemma FromTheStart(certs: seq<Cert>, cred: Bytes)
    requires Chronological(certs)
    ensures Agrees(ApplyCerts(Book(map[], map[]), certs).delegations, cred, Rows(certs, cred))
  {
    assert [] + certs == certs;
    RunStartKept(Book(map[], map[]), [], certs, cred);
  }

  lemma {:induction false} RowsBounded(certs: seq<Cert>, cred: Bytes, slot: nat)
    requires forall i | 0 <= i < |certs| :: certs[i].slot <= slot
    ensures forall i | 0 <= i < |Rows(certs, cred)| :: Rows(certs, cred)[i].slot <= slot
  {
    if certs != [] {
      RowsBounded(certs[..|certs| - 1], cred, slot);
    }
  }

  lemma {:induction false} GroupPrefix(rows: seq<Row>, row: Row, i: nat)
    requires i < |rows|
    ensures Group(rows + [row], i) == Group(rows, i)
    ensures Group(rows, i) <= Group(rows, |rows| - 1)
    decreases |rows| - i
  {
    GroupSame(rows, row, i);
    if i < |rows| - 1 {
      GroupPrefix(rows, row, i + 1);
    }
  }

  lemma {:induction false} GroupSame(rows: seq<Row>, row: Row, i: nat)
    requires i < |rows|
    ensures Group(rows + [row], i) == Group(rows, i)
  {
    if i > 0 {
      GroupSame(rows, row, i - 1);
    }
  }

  /** A certificate of the credential itself: the run goes on, or a new one starts. */
  lemma OneMoreRow(b: Book, cert: Cert, rows: seq<Row>, row: Row)
    requires row == Row(cert.slot, cert.change.target)
    requires Agrees(b.delegations, cert.change.cred, rows)
    requires forall i | 0 <= i < |rows| :: rows[i].slot <= row.slot
    ensures Agrees(ApplyOne(b, cert.change, cert.slot).delegations, cert.change.cred, rows + [row])
  {
    var all, n := rows + [row], |rows|;
    if row.target.Some? {
      forall i | 0 <= i < n
        ensures Group(all, i) == Group(rows, i) && Group(rows, i) <= Group(rows, n - 1)
      {
        GroupPrefix(rows, row, i);
      }
      if rows != [] && rows[n - 1].target == row.target {
        assert Break(all, n) == 0 && Group(all, n) == Group(rows, n - 1);
        var since := b.delegations[cert.change.cred].since;
        var i :| 0 <= i < n && InLastRun(rows, i) && rows[i].slot == since;
        assert InLastRun(all, i) && all[i].slot == since;
        forall j | 0 <= j < |all| && InLastRun(all, j)
          ensures since <= all[j].slot
        {
          if j < n {
            assert InLastRun(rows, j);
          }
        }
      } else {
        assert Break(all, n) == 1;
        assert InLastRun(all, n) && all[n].slot == cert.slot;
        forall j | 0 <= j < |all| && InLastRun(all, j)
          ensures j == n
        {
        }
      }
    }
  }

  // ---- Blocks ----

  /** A block's certificates all carry the block's slot. */
  function CertsOf(changes: seq<Change>, slot: nat): (r: seq<Cert>)
    ensures |r| == |changes|
  {
    seq(|changes|, i requires 0 <= i < |changes| => Cert(slot, changes[i]))
  }

  lemma {:induction false} BlockAsCerts(b: Book, certs: seq<Cert>, changes: seq<Change>, slot: nat)
    ensures ApplyCerts(b, certs + CertsOf(changes, slot)) == ApplyAll(ApplyCerts(b, certs), changes, slot)
  {
    hide ApplyOne;
    if changes == [] {
      assert certs + CertsOf(changes, slot) == certs;
    } else {
      var n := |changes| - 1;
      BlockAsCerts(b, certs, changes[..n], slot);
      var all := certs + CertsOf(changes, slot);
      assert all[..|all| - 1] == certs + CertsOf(changes[..n], slot) && all[|all| - 1] == Cert(slot, changes[n]);
    }
  }
}
