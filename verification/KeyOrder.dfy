/** The order of holdings keys: credential, address, asset; and the ordered map as a sorted list. */
module KeyOrder {
  import opened Wrappers
  import opened Bytes
  import opened HeldLeaf
  import opened Ledger

  predicate BytesLess(a: Bytes, b: Bytes) {
    b != [] && (a == [] || a[0] < b[0] || (a[0] == b[0] && BytesLess(a[1..], b[1..])))
  }

  lemma {:induction false} BytesOrder(a: Bytes, b: Bytes)
    ensures !(BytesLess(a, b) && BytesLess(b, a)) && !BytesLess(a, a)
    ensures a == b || BytesLess(a, b) || BytesLess(b, a)
  {
    if a != [] && b != [] {
      BytesOrder(a[1..], b[1..]);
      BytesOrder(a[1..], a[1..]);
      assert a == [a[0]] + a[1..] && b == [b[0]] + b[1..];
    } else if a != [] {
      BytesOrder(a[1..], a[1..]);
    }
  }

  lemma {:induction false} BytesTransitive(a: Bytes, b: Bytes, c: Bytes)
    requires BytesLess(a, b) && BytesLess(b, c)
    ensures BytesLess(a, c)
  {
    if a != [] && a[0] == b[0] == c[0] {
      BytesTransitive(a[1..], b[1..], c[1..]);
    }
  }

  /** No credential sorts before every credential. */
  predicate CredLess(a: Option<Bytes>, b: Option<Bytes>) {
    b.Some? && (a.None? || BytesLess(a.value, b.value))
  }

  predicate AddrLess(a: AddrKey, b: AddrKey) {
    CredLess(a.cred, b.cred) || (a.cred == b.cred && BytesLess(a.addr, b.addr))
  }

  predicate KeyLess(a: HeldKey, b: HeldKey) {
    AddrLess(a.addr, b.addr) || (a.addr == b.addr && BytesLess(a.asset, b.asset))
  }

  /** Byte strings are ordered by the first byte in which they differ, a beginning before what it begins. */
  lemma {:induction false} BytesLessAt(a: Bytes, b: Bytes)
    ensures BytesLess(a, b) <==> exists k :: 0 <= k <= |a| && k < |b| && a[..k] == b[..k] && (k == |a| || a[k] < b[k])
  {
    if a != [] && b != [] && a[0] == b[0] {
      BytesLessAt(a[1..], b[1..]);
      if BytesLess(a[1..], b[1..]) {
        var k :| 0 <= k <= |a[1..]| && k < |b[1..]| && a[1..][..k] == b[1..][..k] && (k == |a[1..]| || a[1..][k] < b[1..][k]);
        assert a[..k + 1] == [a[0]] + a[1..][..k] && b[..k + 1] == [b[0]] + b[1..][..k];
        assert k + 1 == |a| || a[k + 1] < b[k + 1];
      }
      if k :| 0 <= k <= |a| && k < |b| && a[..k] == b[..k] && (k == |a| || a[k] < b[k]) {
        assert k > 0;
        assert a[1..][..k - 1] == a[..k][1..] && b[1..][..k - 1] == b[..k][1..];
      }
    } else if b != [] {
      assert a[..0] == b[..0];
      assert forall k | 0 < k <= |a| && k < |b| :: a[..k][0] == a[0] && b[..k][0] == b[0];
    }
  }

  /** Keys without a credential come before all others, then credentials, addresses and assets decide in this order. */
  lemma KeysOrdered(a: HeldKey, b: HeldKey)
    ensures a.addr.cred.None? && b.addr.cred.Some? ==> KeyLess(a, b)
    ensures a.addr.cred.Some? && b.addr.cred.Some? && BytesLess(a.addr.cred.value, b.addr.cred.value) ==> KeyLess(a, b)
    ensures a.addr.cred == b.addr.cred && BytesLess(a.addr.addr, b.addr.addr) ==> KeyLess(a, b)
    ensures a.addr == b.addr ==> (KeyLess(a, b) <==> BytesLess(a.asset, b.asset))
  {
    if a.addr == b.addr {
      CredOrder(a.addr.cred, a.addr.cred);
      BytesOrder(a.addr.addr, a.addr.addr);
    }
  }

  lemma CredOrder(a: Option<Bytes>, b: Option<Bytes>)
    ensures !(CredLess(a, b) && CredLess(b, a)) && !CredLess(a, a)
    ensures a == b || CredLess(a, b) || CredLess(b, a)
  {
    hide BytesLess;
    if a.Some? { BytesOrder(a.value, a.value); }
    if a.Some? && b.Some? { BytesOrder(a.value, b.value); }
  }

  lemma CredTransitive(a: Option<Bytes>, b: Option<Bytes>, c: Option<Bytes>)
    requires CredLess(a, b) && CredLess(b, c)
    ensures CredLess(a, c)
  {
    hide BytesLess;
    if a.Some? { BytesTransitive(a.value, b.value, c.value); }
  }

  lemma AddrOrder(a: AddrKey, b: AddrKey)
    ensures !(AddrLess(a, b) && AddrLess(b, a)) && !AddrLess(a, a)
    ensures a == b || AddrLess(a, b) || AddrLess(b, a)
  {
    hide BytesLess, CredLess;
    CredOrder(a.cred, b.cred);
    CredOrder(a.cred, a.cred);
    BytesOrder(a.addr, b.addr);
    BytesOrder(a.addr, a.addr);
  }

  lemma AddrTransitive(a: AddrKey, b: AddrKey, c: AddrKey)
    requires AddrLess(a, b) && AddrLess(b, c)
    ensures AddrLess(a, c)
  {
    hide BytesLess, CredLess;
    if CredLess(a.cred, b.cred) && CredLess(b.cred, c.cred) {
      CredTransitive(a.cred, b.cred, c.cred);
    } else if a.cred == b.cred == c.cred {
      BytesTransitive(a.addr, b.addr, c.addr);
    }
  }

  lemma KeyOrderTotal(a: HeldKey, b: HeldKey)
    ensures !(KeyLess(a, b) && KeyLess(b, a)) && !KeyLess(a, a)
    ensures a == b || KeyLess(a, b) || KeyLess(b, a)
  {
    hide BytesLess, AddrLess;
    AddrOrder(a.addr, b.addr);
    AddrOrder(a.addr, a.addr);
    BytesOrder(a.asset, b.asset);
    BytesOrder(a.asset, a.asset);
  }

  lemma KeyTransitive(a: HeldKey, b: HeldKey, c: HeldKey)
    requires KeyLess(a, b) && KeyLess(b, c)
    ensures KeyLess(a, c)
  {
    hide BytesLess, AddrLess;
    if AddrLess(a.addr, b.addr) && AddrLess(b.addr, c.addr) {
      AddrTransitive(a.addr, b.addr, c.addr);
    } else if a.addr == b.addr == c.addr {
      BytesTransitive(a.asset, b.asset, c.asset);
    }
  }

  // ---- The ordered map as a list ----

  datatype Entry = Entry(key: HeldKey, held: Held)

  predicate SortedEntries(es: seq<Entry>) {
    forall i, j | 0 <= i < j < |es| :: KeyLess(es[i].key, es[j].key)
  }

  function InsertAll(m: Holdings, es: seq<Entry>): Holdings {
    if es == [] then m
    else InsertAll(m, es[..|es| - 1])[es[|es| - 1].key := es[|es| - 1].held]
  }

  function MapOf(es: seq<Entry>): Holdings {
    InsertAll(map[], es)
  }

  lemma {:induction false} InsertAllConcat(m: Holdings, a: seq<Entry>, b: seq<Entry>)
    ensures InsertAll(m, a + b) == InsertAll(InsertAll(m, a), b)
  {
    if b == [] {
      assert a + b == a;
    } else {
      var n := |b| - 1;
      assert (a + b)[..|a + b| - 1] == a + b[..n];
      InsertAllConcat(m, a, b[..n]);
    }
  }

  lemma {:induction false} MapOfHas(es: seq<Entry>)
    requires forall i, j | 0 <= i < j < |es| :: es[i].key != es[j].key
    ensures forall k, h :: k in MapOf(es) && MapOf(es)[k] == h <==> Entry(k, h) in es
    ensures forall k :: k in MapOf(es) <==> exists e <- es :: e.key == k
  {
    if es != [] {
      var n := |es| - 1;
      MapOfHas(es[..n]);
      assert forall e :: e in es <==> e in es[..n] || e == es[n];
    }
  }

  lemma SortedDistinct(es: seq<Entry>)
    requires SortedEntries(es)
    ensures forall i, j | 0 <= i < j < |es| :: es[i].key != es[j].key
  {
    hide KeyLess;
    forall i, j | 0 <= i < j < |es|
      ensures es[i].key != es[j].key
    {
      KeyOrderTotal(es[i].key, es[j].key);
    }
  }

  /** A new entry goes before the first greater one. */
  function Place(es: seq<Entry>, e: Entry): seq<Entry> {
    if es == [] then [e]
    else if KeyLess(e.key, es[|es| - 1].key) then Place(es[..|es| - 1], e) + [es[|es| - 1]]
    else es + [e]
  }

  lemma {:induction false} PlaceSorted(es: seq<Entry>, e: Entry)
    requires SortedEntries(es) && forall x <- es :: x.key != e.key
    ensures SortedEntries(Place(es, e))
    ensures forall x :: x in Place(es, e) <==> x in es || x == e
  {
    hide KeyLess;
    if es != [] {
      var n := |es| - 1;
      var last := es[n];
      assert last in es;
      KeyOrderTotal(e.key, last.key);
      if KeyLess(e.key, last.key) {
        PlaceSorted(es[..n], e);
        var p := Place(es[..n], e);
        forall i | 0 <= i < |p|
          ensures KeyLess(p[i].key, last.key)
        {
          assert p[i] in p;
        }
        assert forall x :: x in es <==> x in es[..n] || x == last;
      } else {
        forall i | 0 <= i < |es|
          ensures KeyLess(es[i].key, e.key)
        {
          if i < n {
            KeyTransitive(es[i].key, last.key, e.key);
          }
        }
      }
    }
  }

  /** The entries of a holdings map in key order. */
  method InOrder(m: Holdings) returns (es: seq<Entry>)
    ensures SortedEntries(es) && MapOf(es) == m
  {
    hide SortedEntries, Place, InsertAll;
    es := [];
    var todo := m.Keys;
    NothingPlaced(m);
    while todo != {}
      invariant todo <= m.Keys && SortedEntries(es)
      invariant forall x :: x in es <==> x.key in m && x.key !in todo && m[x.key] == x.held
      decreases |todo|
    {
      var k :| k in todo;
      PlaceSorted(es, Entry(k, m[k]));
      es := Place(es, Entry(k, m[k]));
      todo := todo - {k};
    }
    ListedMap(m, es);
  }

  lemma NothingPlaced(m: Holdings)
    ensures SortedEntries([])
  {
  }

  lemma ListedMap(m: Holdings, es: seq<Entry>)
    requires SortedEntries(es) && forall x :: x in es <==> x.key in m && m[x.key] == x.held
    ensures MapOf(es) == m
  {
    hide SortedEntries, KeyLess, InsertAll;
    SortedDistinct(es);
    MapOfHas(es);
    var r := MapOf(es);
    forall k
      ensures k in r <==> k in m
      ensures k in m ==> r[k] == m[k]
    {
      if k in m { assert Entry(k, m[k]) in es; }
      if k in r { assert Entry(k, r[k]) in es; }
    }
  }

  // ---- Prefix scans ----

  /** `range(start..)`: everything from the first key that is not below `start`. */
  function From(es: seq<Entry>, start: HeldKey): seq<Entry> {
    if es == [] || !KeyLess(es[0].key, start) then es else From(es[1..], start)
  }

  function WhileCred(es: seq<Entry>, cred: Bytes): seq<Entry> {
    if es == [] || es[0].key.addr.cred != Some(cred) then [] else [es[0]] + WhileCred(es[1..], cred)
  }

  function WhileAddr(es: seq<Entry>, addr: AddrKey): seq<Entry> {
    if es == [] || es[0].key.addr != addr then [] else [es[0]] + WhileAddr(es[1..], addr)
  }

  function CredRange(es: seq<Entry>, cred: Bytes): seq<Entry> {
    WhileCred(From(es, HeldKey(AddrKey(Some(cred), []), [])), cred)
  }

  function AddrRange(es: seq<Entry>, addr: AddrKey): seq<Entry> {
    WhileAddr(From(es, HeldKey(addr, [])), addr)
  }

  function OfCred(es: seq<Entry>, cred: Bytes): seq<Entry> {
    if es == [] then [] else (if es[0].key.addr.cred == Some(cred) then [es[0]] else []) + OfCred(es[1..], cred)
  }

  function OfAddr(es: seq<Entry>, addr: AddrKey): seq<Entry> {
    if es == [] then [] else (if es[0].key.addr == addr then [es[0]] else []) + OfAddr(es[1..], addr)
  }

  /** Scanning the prefix of a credential yields exactly its entries. */
  lemma {:induction false} CredRangeIsFilter(es: seq<Entry>, cred: Bytes)
    requires SortedEntries(es)
    ensures CredRange(es, cred) == OfCred(es, cred)
  {
    hide KeyLess;
    var start := HeldKey(AddrKey(Some(cred), []), []);
    if es != [] {
      var k := es[0].key;
      if KeyLess(k, start) {
        BelowCred(k, cred);
        CredRangeIsFilter(es[1..], cred);
      } else {
        WhileCredIsFilter(es, cred);
      }
    }
  }

  lemma BelowCred(k: HeldKey, cred: Bytes)
    requires KeyLess(k, HeldKey(AddrKey(Some(cred), []), []))
    ensures k.addr.cred != Some(cred)
  {
    BytesOrder(cred, cred);
  }

  /** Above the start, the credential's entries come first. */
  lemma {:induction false} WhileCredIsFilter(es: seq<Entry>, cred: Bytes)
    requires SortedEntries(es) && (es != [] ==> !KeyLess(es[0].key, HeldKey(AddrKey(Some(cred), []), [])))
    ensures WhileCred(es, cred) == OfCred(es, cred)
  {
    hide KeyLess;
    var start := HeldKey(AddrKey(Some(cred), []), []);
    if es != [] {
      if |es| > 1 {
        KeyOrderTotal(es[0].key, start);
        if KeyLess(es[1].key, start) {
          KeyTransitive(es[0].key, es[1].key, start);
        }
      }
      if es[0].key.addr.cred == Some(cred) {
        WhileCredIsFilter(es[1..], cred);
      } else {
        PastCred(es, cred);
      }
    }
  }

  lemma {:induction false} PastCred(es: seq<Entry>, cred: Bytes)
    requires SortedEntries(es) && es != []
    requires !KeyLess(es[0].key, HeldKey(AddrKey(Some(cred), []), [])) && es[0].key.addr.cred != Some(cred)
    ensures OfCred(es, cred) == []
  {
    hide KeyLess;
    forall i | 0 <= i < |es|
      ensures es[i].key.addr.cred != Some(cred)
    {
      AboveCred(es[0].key, es[i].key, cred);
    }
    NoneOfCred(es, cred);
  }

  lemma AboveCred(a: HeldKey, b: HeldKey, cred: Bytes)
    requires !KeyLess(a, HeldKey(AddrKey(Some(cred), []), [])) && a.addr.cred != Some(cred)
    requires a == b || KeyLess(a, b)
    ensures b.addr.cred != Some(cred)
  {
    hide BytesLess;
    CredOrder(a.addr.cred, Some(cred));
    CredOrder(a.addr.cred, b.addr.cred);
  }

  lemma {:induction false} NoneOfCred(es: seq<Entry>, cred: Bytes)
    requires forall i | 0 <= i < |es| :: es[i].key.addr.cred != Some(cred)
    ensures OfCred(es, cred) == []
  {
    if es != [] {
      NoneOfCred(es[1..], cred);
    }
  }

  /** Scanning the prefix of an address yields exactly its entries. */
  lemma {:induction false} AddrRangeIsFilter(es: seq<Entry>, addr: AddrKey)
    requires SortedEntries(es)
    ensures AddrRange(es, addr) == OfAddr(es, addr)
  {
    hide KeyLess;
    var start := HeldKey(addr, []);
    if es != [] {
      var k := es[0].key;
      if KeyLess(k, start) {
        BelowAddr(k, addr);
        AddrRangeIsFilter(es[1..], addr);
      } else {
        WhileAddrIsFilter(es, addr);
      }
    }
  }

  lemma BelowAddr(k: HeldKey, addr: AddrKey)
    requires KeyLess(k, HeldKey(addr, []))
    ensures k.addr != addr
  {
    hide AddrLess;
    AddrOrder(addr, addr);
  }

  lemma {:induction false} WhileAddrIsFilter(es: seq<Entry>, addr: AddrKey)
    requires SortedEntries(es) && (es != [] ==> !KeyLess(es[0].key, HeldKey(addr, [])))
    ensures WhileAddr(es, addr) == OfAddr(es, addr)
  {
    hide KeyLess;
    var start := HeldKey(addr, []);
    if es != [] {
      if |es| > 1 && KeyLess(es[1].key, start) {
        KeyTransitive(es[0].key, es[1].key, start);
      }
      if es[0].key.addr == addr {
        WhileAddrIsFilter(es[1..], addr);
      } else {
        forall i | 0 <= i < |es|
          ensures es[i].key.addr != addr
        {
          AboveAddr(es[0].key, es[i].key, addr);
        }
        NoneOfAddr(es, addr);
      }
    }
  }

  lemma AboveAddr(a: HeldKey, b: HeldKey, addr: AddrKey)
    requires !KeyLess(a, HeldKey(addr, [])) && a.addr != addr && (a == b || KeyLess(a, b))
    ensures b.addr != addr
  {
    hide BytesLess, AddrLess;
    AddrOrder(a.addr, addr);
    AddrOrder(a.addr, b.addr);
  }

  lemma {:induction false} NoneOfAddr(es: seq<Entry>, addr: AddrKey)
    requires forall i | 0 <= i < |es| :: es[i].key.addr != addr
    ensures OfAddr(es, addr) == []
  {
    if es != [] {
      NoneOfAddr(es[1..], addr);
    }
  }
}
