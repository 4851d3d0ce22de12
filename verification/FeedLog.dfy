/**
 * The events a feed index stands for, as one slot-ordered log, and the two ways a log is cut:
 * a rollback keeps what is at or below a slot, a prune keeps what is at or above a boundary.
 */
module FeedLog {
  import opened Wrappers
  import opened Bytes
  import opened Seqs

  datatype BlockRef = BlockRef(slot: nat, hash: string, number: nat)

  datatype DelegationEntry = DelegationEntry(slot: nat, blockHash: string, blockNo: nat, txHash: string,
                                             cred: Bytes, liveStake: int, from: Option<Bytes>, to: Option<Bytes>)

  /** The five per-subject block lists. */
  datatype Kind = PoolMinted | PoolStake | DrepStake | PoolVote | DrepVote

  /** The two delegation logs. */
  datatype Side = PoolSide | DrepSide

  datatype Event = Ref(kind: Kind, key: Bytes, block: BlockRef) | Deleg(side: Side, entry: DelegationEntry)

  function EventSlot(e: Event): nat {
    match e
    case Ref(_, _, block) => block.slot
    case Deleg(_, entry) => entry.slot
  }

  function RefSlot(r: BlockRef): nat {
    r.slot
  }

  function EntrySlot(e: DelegationEntry): nat {
    e.slot
  }

  datatype Cut = AtMost(slot: nat) | AtLeast(boundary: nat)
  {
    predicate Keeps(s: nat) {
      match this
      case AtMost(slot) => s <= slot
      case AtLeast(boundary) => s >= boundary
    }

    /** The predicate the binary search runs on: what lies before the split. */
    predicate Leads(s: nat) {
      match this
      case AtMost(slot) => s <= slot
      case AtLeast(boundary) => s < boundary
    }
  }

  // ---- Lists with slots ----

  predicate Sorted<T>(xs: seq<T>, slot: T -> nat) {
    forall i, j | 0 <= i < j < |xs| :: slot(xs[i]) <= slot(xs[j])
  }

  function Retain<T>(xs: seq<T>, slot: T -> nat, cut: Cut): seq<T> {
    if xs == [] then []
    else
      var n := |xs| - 1;
      Retain(xs[..n], slot, cut) + (if cut.Keeps(slot(xs[n])) then [xs[n]] else [])
  }

  lemma RetainLast<T>(xs: seq<T>, x: T, slot: T -> nat, cut: Cut)
    ensures Retain(xs + [x], slot, cut) == Retain(xs, slot, cut) + (if cut.Keeps(slot(x)) then [x] else [])
  {
    assert (xs + [x])[..|xs|] == xs;
  }

  lemma {:induction false} RetainConcat<T>(a: seq<T>, b: seq<T>, slot: T -> nat, cut: Cut)
    ensures Retain(a + b, slot, cut) == Retain(a, slot, cut) + Retain(b, slot, cut)
  {
    if b == [] {
      assert a + b == a;
    } else {
      var n := |b| - 1;
      RetainConcat(a, b[..n], slot, cut);
      RetainLast(a + b[..n], b[n], slot, cut);
      assert a + b == a + b[..n] + [b[n]];
    }
  }

  /** Retaining is monotone: it keeps members and order. */
  lemma {:induction false} RetainSorted<T>(xs: seq<T>, slot: T -> nat, cut: Cut)
    requires Sorted(xs, slot)
    ensures Sorted(Retain(xs, slot, cut), slot)
    ensures forall x <- Retain(xs, slot, cut) :: x in xs && cut.Keeps(slot(x))
  {
    if xs != [] {
      RetainSorted(xs[..|xs| - 1], slot, cut);
    }
  }

  lemma {:induction false} RetainTwice<T>(xs: seq<T>, slot: T -> nat, a: Cut, b: Cut, c: Cut)
    requires forall i | 0 <= i < |xs| :: a.Keeps(slot(xs[i])) && b.Keeps(slot(xs[i])) <==> c.Keeps(slot(xs[i]))
    ensures Retain(Retain(xs, slot, a), slot, b) == Retain(xs, slot, c)
  {
    if xs != [] {
      var n := |xs| - 1;
      RetainTwice(xs[..n], slot, a, b, c);
      Nil(Retain(xs[..n], slot, a));
      RetainLast(Retain(xs[..n], slot, a), xs[n], slot, b);
    }
  }

  lemma {:induction false} RetainCommutes<T>(xs: seq<T>, slot: T -> nat, a: Cut, b: Cut)
    ensures Retain(Retain(xs, slot, a), slot, b) == Retain(Retain(xs, slot, b), slot, a)
  {
    if xs != [] {
      var n := |xs| - 1;
      RetainCommutes(xs[..n], slot, a, b);
      Nil(Retain(xs[..n], slot, a));
      Nil(Retain(xs[..n], slot, b));
      RetainLast(Retain(xs[..n], slot, a), xs[n], slot, b);
      RetainLast(Retain(xs[..n], slot, b), xs[n], slot, a);
    }
  }

  lemma {:induction false} RetainAll<T>(xs: seq<T>, slot: T -> nat, cut: Cut)
    requires forall i | 0 <= i < |xs| :: cut.Keeps(slot(xs[i]))
    ensures Retain(xs, slot, cut) == xs
  {
    if xs != [] {
      var n := |xs| - 1;
      RetainAll(xs[..n], slot, cut);
      assert xs == xs[..n] + [xs[n]];
    }
  }

  lemma {:induction false} RetainNone<T>(xs: seq<T>, slot: T -> nat, cut: Cut)
    requires forall i | 0 <= i < |xs| :: !cut.Keeps(slot(xs[i]))
    ensures Retain(xs, slot, cut) == []
  {
    if xs != [] {
      RetainNone(xs[..|xs| - 1], slot, cut);
    }
  }

  /** On a sorted list a cut is a prefix or a suffix, split where the leading run ends. */
  predicate Split<T>(xs: seq<T>, slot: T -> nat, cut: Cut, k: nat) {
    && k <= |xs|
    && (forall i | 0 <= i < |xs| :: i < k <==> cut.Leads(slot(xs[i])))
  }

  lemma {:induction false} RetainSplit<T>(xs: seq<T>, slot: T -> nat, cut: Cut, k: nat)
    requires Split(xs, slot, cut, k)
    ensures Retain(xs, slot, cut) == if cut.AtMost? then xs[..k] else xs[k..]
  {
    var a, b := xs[..k], xs[k..];
    assert xs == a + b;
    RetainConcat(a, b, slot, cut);
    forall i | 0 <= i < |b|
      ensures !cut.Leads(slot(b[i]))
    {
      assert b[i] == xs[k + i];
    }
    if cut.AtMost? {
      RetainAll(a, slot, cut);
      RetainNone(b, slot, cut);
    } else {
      RetainNone(a, slot, cut);
      RetainAll(b, slot, cut);
    }
  }

  // ---- Views of the log ----

  function Collect<T>(log: seq<Event>, f: Event -> seq<T>): seq<T> {
    if log == [] then [] else Collect(log[..|log| - 1], f) + f(log[|log| - 1])
  }

  lemma CollectLast<T>(log: seq<Event>, e: Event, f: Event -> seq<T>)
    ensures Collect(log + [e], f) == Collect(log, f) + f(e)
  {
    assert (log + [e])[..|log|] == log;
  }

  /** A view takes at most one item from an event, with the event's slot. */
  ghost predicate IsView<T>(f: Event -> seq<T>, slot: T -> nat) {
    forall e :: |f(e)| <= 1 && (f(e) != [] ==> slot(f(e)[0]) == EventSlot(e))
  }

  lemma {:induction false} CollectRetain<T>(log: seq<Event>, f: Event -> seq<T>, slot: T -> nat, cut: Cut)
    requires IsView(f, slot)
    ensures Collect(Retain(log, EventSlot, cut), f) == Retain(Collect(log, f), slot, cut)
  {
    if log != [] {
      var n := |log| - 1;
      var e := log[n];
      var init, kept := Collect(log[..n], f), Retain(log[..n], EventSlot, cut);
      CollectRetain(log[..n], f, slot, cut);
      CollectLast(kept, e, f);
      Nil(init);
      Nil(Retain(init, slot, cut));
      Nil(kept);
      if f(e) != [] {
        assert f(e) == [f(e)[0]];
        RetainLast(init, f(e)[0], slot, cut);
      }
    }
  }

  lemma {:induction false} CollectMembers<T>(log: seq<Event>, f: Event -> seq<T>, slot: T -> nat, bound: nat)
    requires IsView(f, slot) && forall i | 0 <= i < |log| :: EventSlot(log[i]) <= bound
    ensures forall i | 0 <= i < |Collect(log, f)| :: slot(Collect(log, f)[i]) <= bound
  {
    if log != [] {
      var n := |log| - 1;
      CollectMembers(log[..n], f, slot, bound);
      assert f(log[n]) == [] || f(log[n]) == [f(log[n])[0]];
    }
  }

  lemma {:induction false} CollectSorted<T>(log: seq<Event>, f: Event -> seq<T>, slot: T -> nat)
    requires IsView(f, slot) && Sorted(log, EventSlot)
    ensures Sorted(Collect(log, f), slot)
  {
    if log != [] {
      var n := |log| - 1;
      var e := log[n];
      CollectSorted(log[..n], f, slot);
      CollectMembers(log[..n], f, slot, EventSlot(e));
      assert f(e) == [] || f(e) == [f(e)[0]];
    }
  }

  function RefView(kind: Kind, key: Bytes): Event -> seq<BlockRef> {
    (e: Event) => if e.Ref? && e.kind == kind && e.key == key then [e.block] else []
  }

  function DelegView(side: Side): Event -> seq<DelegationEntry> {
    (e: Event) => if e.Deleg? && e.side == side then [e.entry] else []
  }

  /** The block list of one subject. */
  function Refs(log: seq<Event>, kind: Kind, key: Bytes): seq<BlockRef> {
    Collect(log, RefView(kind, key))
  }

  function Delegs(log: seq<Event>, side: Side): seq<DelegationEntry> {
    Collect(log, DelegView(side))
  }

  // ---- Position indexes ----

  /** How often an entry names a subject: as source, as target, or both. */
  function Named<T>(e: DelegationEntry, key: Bytes, x: T): seq<T> {
    (if e.from == Some(key) then [x] else []) + (if e.to == Some(key) then [x] else [])
  }

  function Positions(es: seq<DelegationEntry>, key: Bytes): (r: seq<nat>)
    ensures forall i | 0 <= i < |r| :: r[i] < |es|
  {
    if es == [] then []
    else
      var n := |es| - 1;
      Positions(es[..n], key) + Named(es[n], key, n)
  }

  /** The entries that touch `key`: an entry that names it on both sides appears twice. */
  function Touching(es: seq<DelegationEntry>, key: Bytes): seq<DelegationEntry> {
    if es == [] then []
    else
      var n := |es| - 1;
      Touching(es[..n], key) + Named(es[n], key, es[n])
  }

  function At(es: seq<DelegationEntry>, ps: seq<nat>): (r: seq<DelegationEntry>)
    requires forall i | 0 <= i < |ps| :: ps[i] < |es|
  {
    seq(|ps|, i requires 0 <= i < |ps| => es[ps[i]])
  }

  /** Reading the log through the positions gives the entries that touch the key. */
  lemma {:induction false} PositionsRead(es: seq<DelegationEntry>, key: Bytes)
    ensures At(es, Positions(es, key)) == Touching(es, key)
  {
    if es != [] {
      var n := |es| - 1;
      PositionsRead(es[..n], key);
      var ps := Positions(es[..n], key);
      assert At(es, ps) == At(es[..n], ps);
      assert At(es, Positions(es, key)) == At(es, ps) + Named(es[n], key, es[n]);
    }
  }

  function ByCred(es: seq<DelegationEntry>, cred: Bytes): seq<DelegationEntry> {
    if es == [] then []
    else
      var n := |es| - 1;
      ByCred(es[..n], cred) + (if es[n].cred == cred then [es[n]] else [])
  }

  /** Exactly the entries of the credential, whatever they lead to, as often as they are there. */
  lemma {:induction false} ByCredCount(es: seq<DelegationEntry>, cred: Bytes, e: DelegationEntry)
    ensures multiset(ByCred(es, cred))[e] == if e.cred == cred then multiset(es)[e] else 0
  {
    if es != [] {
      var n := |es| - 1;
      ByCredCount(es[..n], cred, e);
      assert es == es[..n] + [es[n]];
      CountLast(es[..n], es[n], e);
      CountLast(ByCred(es[..n], cred), es[n], e);
      Nil(ByCred(es[..n], cred));
    }
  }

  lemma CountLast(xs: seq<DelegationEntry>, x: DelegationEntry, e: DelegationEntry)
    ensures multiset(xs + [x])[e] == multiset(xs)[e] + (if x == e then 1 else 0)
  {
  }

  /** In the order of the log. */
  lemma {:induction false} ByCredConcat(a: seq<DelegationEntry>, b: seq<DelegationEntry>, cred: Bytes)
    ensures ByCred(a + b, cred) == ByCred(a, cred) + ByCred(b, cred)
  {
    if b == [] {
      assert a + b == a;
    } else {
      var n := |b| - 1;
      assert (a + b)[..|a + b| - 1] == a + b[..n] && (a + b)[|a + b| - 1] == b[n];
      ByCredConcat(a, b[..n], cred);
      Assoc(ByCred(a, cred), ByCred(b[..n], cred), if b[n].cred == cred then [b[n]] else []);
    }
  }

  function Sides(e: DelegationEntry, key: Bytes): nat {
    (if e.from == Some(key) then 1 else 0) + (if e.to == Some(key) then 1 else 0)
  }

  /** Every entry once for each side on which it names the subject. */
  lemma {:induction false} TouchingCount(es: seq<DelegationEntry>, key: Bytes, e: DelegationEntry)
    ensures multiset(Touching(es, key))[e] == Sides(e, key) * multiset(es)[e]
  {
    hide Named, Sides;
    if es != [] {
      var n := |es| - 1;
      TouchingCount(es[..n], key, e);
      assert es == es[..n] + [es[n]];
      NamedCount(es[n], key, e);
      CountLast(es[..n], es[n], e);
      Times(Sides(e, key), multiset(es[..n])[e]);
    }
  }

  lemma NamedCount(x: DelegationEntry, key: Bytes, e: DelegationEntry)
    ensures multiset(Named(x, key, x))[e] == if x == e then Sides(e, key) else 0
  {
  }

  lemma Times(a: nat, b: nat)
    ensures a * (b + 1) == a * b + a
  {
  }

  lemma {:induction false} TouchingConcat(a: seq<DelegationEntry>, b: seq<DelegationEntry>, key: Bytes)
    ensures Touching(a + b, key) == Touching(a, key) + Touching(b, key)
  {
    hide Named;
    if b == [] {
      assert a + b == a;
      Nil(Touching(a, key));
    } else {
      var n := |b| - 1;
      assert (a + b)[..|a + b| - 1] == a + b[..n] && (a + b)[|a + b| - 1] == b[n];
      TouchingConcat(a, b[..n], key);
      Assoc(Touching(a, key), Touching(b[..n], key), Named(b[n], key, b[n]));
    }
  }
}
