/** Raw byte strings: credentials, pool and DRep ids, addresses, policies and names. */
module Bytes {
  type Byte = x: int | 0 <= x < 256
  type Bytes = seq<Byte>

  /** Amounts per credential or address; an absent key stands for nothing. */
  type Amounts = map<Bytes, int>

  function Get(m: Amounts, k: Bytes): int {
    if k in m then m[k] else 0
  }

  /** The elements of a set in some fixed order. */
  ghost function Listed<T(!new)>(s: set<T>): (r: seq<T>)
    ensures forall x :: x in r <==> x in s
    ensures forall i, j | 0 <= i < j < |r| :: r[i] != r[j]
  {
    if s == {} then [] else
      var x :| x in s;
      [x] + Listed(s - {x})
  }
}
