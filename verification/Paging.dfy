/** Infinite scroll of a pool or DRep feed: three keyset-paged sources merged into pages by slot. */
module Paging {
  import opened Wrappers

  /** A row of one source: 0 a block, 1 a vote, 2 a delegation. */
  datatype Row = Row(slot: nat, id: int, src: nat)

  const MAX: int := 0x7fff_ffff_ffff_ffff

  /** The order of the feed: newest slot first, then highest id, then the source listed first. */
  predicate Newer(a: Row, b: Row) {
    a.slot > b.slot || (a.slot == b.slot && (a.id > b.id || (a.id == b.id && a.src < b.src)))
  }

  predicate Feed(rows: seq<Row>) {
    forall i, j | 0 <= i < j < |rows| :: Newer(rows[i], rows[j])
  }

  /** A source newest first: ids strictly falling, slots not rising. */
  predicate Source(rows: seq<Row>, src: nat) {
    && (forall i | 0 <= i < |rows| :: rows[i].src == src && rows[i].id < MAX)
    && (forall i, j | 0 <= i < j < |rows| :: rows[i].id > rows[j].id && rows[i].slot >= rows[j].slot)
  }

  datatype Tables = Tables(blocks: seq<Row>, votes: seq<Row>, delegs: seq<Row>)
  {
    predicate Valid() {
      Source(blocks, 0) && Source(votes, 1) && Source(delegs, 2)
    }

    predicate Has(r: Row) {
      r in blocks || r in votes || r in delegs
    }
  }

  /** A request or response cursor; an absent id stands for the tip. */
  datatype Cursor = Cursor(block: Option<int>, vote: Option<int>, deleg: Option<int>)
  {
    function Before(src: nat): int {
      var id := if src == 0 then block else if src == 1 then vote else deleg;
      if id.Some? then id.value else MAX
    }
  }

  /** The query of one source: the rows with `id < before`, newest first, at most `limit`. */
  function Below(rows: seq<Row>, before: int): seq<Row> {
    if rows == [] || rows[0].id < before then rows else Below(rows[1..], before)
  }

  function Take(rows: seq<Row>, limit: nat): seq<Row> {
    if |rows| <= limit then rows else rows[..limit]
  }

  function Recent(rows: seq<Row>, before: int, limit: nat): seq<Row> {
    Take(Below(rows, before), limit)
  }

  // ---- The stable sort by slot, then id, both falling ----

  predicate Above(a: Row, b: Row) {
    a.slot > b.slot || (a.slot == b.slot && a.id > b.id)
  }

  function Place(rows: seq<Row>, r: Row): (out: seq<Row>)
    ensures |out| == |rows| + 1
  {
    if rows == [] then [r]
    else if Above(r, rows[|rows| - 1]) then Place(rows[..|rows| - 1], r) + [rows[|rows| - 1]]
    else rows + [r]
  }

  function SortRows(rows: seq<Row>): (out: seq<Row>)
    ensures |out| == |rows|
  {
    if rows == [] then [] else Place(SortRows(rows[..|rows| - 1]), rows[|rows| - 1])
  }

  /** No two rows agree in slot and id unless the earlier one's source is listed first. */
  predicate Tagged(rows: seq<Row>) {
    forall i, j | 0 <= i < j < |rows| :: rows[i].slot == rows[j].slot && rows[i].id == rows[j].id ==> rows[i].src < rows[j].src
  }

  lemma {:induction false} PlaceFeed(rows: seq<Row>, r: Row)
    requires Feed(rows)
    requires forall x <- rows :: x.slot == r.slot && x.id == r.id ==> x.src < r.src
    ensures Feed(Place(rows, r)) && forall x :: x in Place(rows, r) <==> x in rows || x == r
  {
    if rows != [] {
      var n := |rows| - 1;
      var last := rows[n];
      assert last in rows && forall x :: x in rows <==> x in rows[..n] || x == last;
      if Above(r, last) {
        PlaceFeed(rows[..n], r);
        var p := Place(rows[..n], r);
        forall i | 0 <= i < |p|
          ensures Newer(p[i], last)
        {
          assert p[i] in p;
        }
      } else {
        forall i | 0 <= i < |rows|
          ensures Newer(rows[i], r)
        {
          assert i == n || Newer(rows[i], last);
        }
      }
    }
  }

  /** Sorting gives the feed order and keeps the rows. */
  lemma {:induction false} SortFeed(rows: seq<Row>)
    requires Tagged(rows)
    ensures Feed(SortRows(rows)) && forall x :: x in SortRows(rows) <==> x in rows
  {
    hide Feed, Place;
    if rows == [] {
      NoFeed();
    } else {
      var n := |rows| - 1;
      SortFeed(rows[..n]);
      PlaceFeed(SortRows(rows[..n]), rows[n]);
      assert forall x :: x in rows <==> x in rows[..n] || x == rows[n];
    }
  }

  lemma NoFeed()
    ensures Feed([])
  {
  }

  lemma StandsBefore(feed: seq<Row>, k: nat, i: nat)
    requires Feed(feed) && k < |feed| && i < |feed| && Newer(feed[k], feed[i])
    ensures k < i
  {
  }

  /** An element of a part of a feed stands no later in the part than in the feed. */
  lemma {:induction false} PartIndex(part: seq<Row>, feed: seq<Row>, j: nat, i: nat)
    requires Feed(part) && Feed(feed) && (forall x <- part :: x in feed)
    requires j < |part| && i < |feed| && part[j] == feed[i]
    ensures j <= i
    decreases j
  {
    if j > 0 {
      assert part[j - 1] in feed;
      var k :| 0 <= k < |feed| && feed[k] == part[j - 1];
      assert Newer(part[j - 1], part[j]);
      StandsBefore(feed, k, i);
      PartIndex(part, feed, j - 1, k);
    }
  }

  lemma PartAt(part: seq<Row>, feed: seq<Row>, m: nat, i: nat)
    requires Feed(part) && Feed(feed) && (forall x <- part :: x in feed) && i < m <= |feed|
    requires forall k | 0 <= k < m :: feed[k] in part
    ensures i < |part| && part[i] == feed[i]
  {
    assert feed[i] in part;
    var j :| 0 <= j < |part| && part[j] == feed[i];
    PartIndex(part, feed, j, i);
    assert forall x <- feed[..m] :: x in part;
    PartIndex(feed[..m], part, i, j);
  }

  /** A part of a feed that contains its first `m` rows begins with them. */
  lemma PartPrefix(part: seq<Row>, feed: seq<Row>, m: nat)
    requires Feed(part) && Feed(feed) && (forall x <- part :: x in feed) && m <= |feed|
    requires forall k | 0 <= k < m :: feed[k] in part
    ensures m <= |part| && part[..m] == feed[..m]
  {
    hide Feed;
    if m > 0 {
      PartAt(part, feed, m, m - 1);
      forall i | 0 <= i < m
        ensures part[i] == feed[i]
      {
        PartAt(part, feed, m, i);
      }
    }
  }

  // ---- The queries ----

  lemma {:induction false} BelowIs(rows: seq<Row>, src: nat, before: int)
    requires Source(rows, src)
    ensures Source(Below(rows, before), src)
    ensures forall x :: x in Below(rows, before) <==> x in rows && x.id < before
  {
    if rows != [] && rows[0].id >= before {
      BelowIs(rows[1..], src, before);
      assert rows == [rows[0]] + rows[1..];
    }
  }

  /** What is left of the feed: its rows with ids below their sources' cursors. */
  predicate At(all: seq<Row>, p: nat, c: Cursor) {
    forall i | 0 <= i < |all| :: all[i].id < c.Before(all[i].src) <==> i >= p
  }

  ghost predicate IsFeed(all: seq<Row>, t: Tables) {
    Feed(all) && forall r :: r in all <==> t.Has(r)
  }

  function Fetched(t: Tables, c: Cursor, limit: nat): seq<Row> {
    Recent(t.blocks, c.Before(0), limit) + Recent(t.votes, c.Before(1), limit) + Recent(t.delegs, c.Before(2), limit)
  }

  lemma SourceTagged(rows: seq<Row>, src: nat, before: int, limit: nat)
    requires Source(rows, src)
    ensures Source(Recent(rows, before, limit), src)
    ensures forall x <- Recent(rows, before, limit) :: x in rows && x.id < before
  {
    BelowIs(rows, src, before);
    var b := Below(rows, before);
    assert forall x <- Take(b, limit) :: x in b;
  }

  lemma FetchedTagged(t: Tables, c: Cursor, limit: nat)
    requires t.Valid()
    ensures Tagged(Fetched(t, c, limit))
    ensures forall x <- Fetched(t, c, limit) :: t.Has(x) && x.id < c.Before(x.src)
  {
    hide Recent;
    SourceTagged(t.blocks, 0, c.Before(0), limit);
    SourceTagged(t.votes, 1, c.Before(1), limit);
    SourceTagged(t.delegs, 2, c.Before(2), limit);
    var f := Fetched(t, c, limit);
    forall i | 0 <= i < |f|
      ensures t.Has(f[i]) && f[i].id < c.Before(f[i].src)
    {
      assert f[i] in f;
    }
  }

  /** A row among the first `limit` of what is left was fetched. */
  lemma FirstRowsFetched(rows: seq<Row>, src: nat, rest: seq<Row>, before: int, limit: nat, i: nat)
    requires Source(rows, src) && Feed(rest) && i < |rest| && i < limit
    requires rest[i] in rows && rest[i].id < before
    requires forall x <- rows :: x.id < before ==> x in rest
    ensures rest[i] in Recent(rows, before, limit)
  {
    BelowIs(rows, src, before);
    var b := Below(rows, before);
    var j :| 0 <= j < |b| && b[j] == rest[i];
    PartIndex(b, rest, j, i);
    assert Take(b, limit)[j] == b[j];
  }

  lemma FirstFetched(t: Tables, all: seq<Row>, p: nat, c: Cursor, limit: nat, i: nat)
    requires t.Valid() && IsFeed(all, t) && At(all, p, c) && p <= |all| && i < |all| - p && i < limit
    ensures all[p + i] in Fetched(t, c, limit)
  {
    hide Recent, Source;
    var rest, r := all[p..], all[p + i];
    RestHas(t, all, p, c);
    assert r in all && rest[i] == r && Feed(rest);
    TagOf(t, r);
    if r in t.blocks {
      FirstRowsFetched(t.blocks, 0, rest, c.Before(0), limit, i);
    } else if r in t.votes {
      FirstRowsFetched(t.votes, 1, rest, c.Before(1), limit, i);
    } else {
      FirstRowsFetched(t.delegs, 2, rest, c.Before(2), limit, i);
    }
  }

  lemma TagOf(t: Tables, r: Row)
    requires t.Valid()
    ensures (r in t.blocks ==> r.src == 0) && (r in t.votes ==> r.src == 1) && (r in t.delegs ==> r.src == 2)
  {
  }

  lemma RestHas(t: Tables, all: seq<Row>, p: nat, c: Cursor)
    requires t.Valid() && IsFeed(all, t) && At(all, p, c) && p <= |all|
    ensures forall x :: x in all[p..] <==> t.Has(x) && x.id < c.Before(x.src)
    ensures forall x <- t.blocks :: x.id < c.Before(0) ==> x in all[p..]
    ensures forall x <- t.votes :: x.id < c.Before(1) ==> x in all[p..]
    ensures forall x <- t.delegs :: x.id < c.Before(2) ==> x in all[p..]
  {
    hide Feed;
    forall x | x in all[p..]
      ensures t.Has(x) && x.id < c.Before(x.src)
    {
      var i :| p <= i < |all| && all[i] == x;
    }
    forall x | t.Has(x) && x.id < c.Before(x.src)
      ensures x in all[p..]
    {
      assert x in all;
      var i :| 0 <= i < |all| && all[i] == x;
      assert all[p..][i - p] == x;
    }
    forall x | t.Has(x)
      ensures (x in t.blocks ==> x.src == 0) && (x in t.votes ==> x.src == 1) && (x in t.delegs ==> x.src == 2)
    {
      TagOf(t, x);
    }
  }

  /** A part is no longer than the feed. */
  lemma NoMore(part: seq<Row>, feed: seq<Row>)
    requires Feed(part) && Feed(feed) && forall x <- part :: x in feed
    ensures |part| <= |feed|
  {
    if part != [] {
      var n := |part| - 1;
      assert part[n] in feed;
      var k :| 0 <= k < |feed| && feed[k] == part[n];
      PartIndex(part, feed, n, k);
    }
  }

  /** The sorted rows, truncated, are the next rows of the feed. */
  lemma PageIsNext(t: Tables, all: seq<Row>, p: nat, c: Cursor, limit: nat)
    requires t.Valid() && IsFeed(all, t) && At(all, p, c) && p <= |all|
    ensures var rows := SortRows(Fetched(t, c, limit));
            Take(rows, limit) == Take(all[p..], limit)
  {
    hide Fetched, SortRows, At, Feed, Tables.Valid;
    var rows, rest := SortRows(Fetched(t, c, limit)), all[p..];
    FeedSuffix(all, p);
    FetchedTagged(t, c, limit);
    SortFeed(Fetched(t, c, limit));
    RestHas(t, all, p, c);
    var m := |Take(rest, limit)|;
    forall i | 0 <= i < m
      ensures rest[i] in rows
    {
      FirstFetched(t, all, p, c, limit, i);
    }
    PartPrefix(rows, rest, m);
    if |rest| <= limit {
      NoMore(rows, rest);
    }
  }

  lemma FeedSuffix(all: seq<Row>, p: nat)
    requires Feed(all) && p <= |all|
    ensures Feed(all[p..])
  {
  }

  // ---- One page ----

  /** The least displayed id of a source, or the cursor it came with when it shows nothing. */
  ghost predicate IsCursor(rows: seq<Row>, src: nat, incoming: int, id: int) {
    && ((exists r <- rows :: r.src == src && r.id == id) || (id == incoming && forall r <- rows :: r.src != src))
    && forall r <- rows :: r.src == src ==> id <= r.id
  }

  method MinId(rows: seq<Row>, src: nat, incoming: int) returns (id: int)
    ensures IsCursor(rows, src, incoming, id)
  {
    var least: Option<int> := None;
    for i := 0 to |rows|
      invariant least.None? ==> forall r <- rows[..i] :: r.src != src
      invariant least.Some? ==> exists r <- rows[..i] :: r.src == src && r.id == least.value
      invariant least.Some? ==> forall r <- rows[..i] :: r.src == src ==> least.value <= r.id
    {
      assert rows[..i + 1] == rows[..i] + [rows[i]];
      if rows[i].src == src && (least.None? || rows[i].id < least.value) {
        least := Some(rows[i].id);
      }
    }
    assert rows[..|rows|] == rows;
    id := if least.Some? then least.value else incoming;
  }

  /** An id still at the tip is left out of the response. */
  function Keyset(id: int): Option<int> {
    if id != MAX then Some(id) else None
  }

  ghost predicate AreCursors(page: seq<Row>, query: Cursor, c: Cursor) {
    && IsCursor(page, 0, query.Before(0), c.Before(0))
    && IsCursor(page, 1, query.Before(1), c.Before(1))
    && IsCursor(page, 2, query.Before(2), c.Before(2))
  }

  method NextCursor(page: seq<Row>, query: Cursor) returns (c: Cursor)
    ensures AreCursors(page, query, c)
  {
    hide IsCursor;
    var block := MinId(page, 0, query.Before(0));
    var vote := MinId(page, 1, query.Before(1));
    var deleg := MinId(page, 2, query.Before(2));
    c := Cursor(Keyset(block), Keyset(vote), Keyset(deleg));
  }

  /** Rows of one source are ordered by id as they are in the feed. */
  lemma SameSource(t: Tables, all: seq<Row>, i: nat, j: nat)
    requires t.Valid() && IsFeed(all, t) && i < j < |all| && all[i].src == all[j].src
    ensures all[i].id > all[j].id
  {
    var a, b := all[i], all[j];
    assert a in all && b in all && Newer(a, b);
    TagOf(t, a);
    TagOf(t, b);
    if a.src == 0 {
    } else if a.src == 1 {
    } else {
    }
  }

  /** Three sources' cursors after a page. */
  lemma CursorsAdvance(t: Tables, all: seq<Row>, p: nat, c: Cursor, n: nat, c': Cursor)
    requires t.Valid() && IsFeed(all, t) && At(all, p, c) && p + n <= |all|
    requires AreCursors(all[p..p + n], c, c')
    ensures At(all, p + n, c')
  {
    hide Feed, Tables.Valid;
    var page := all[p..p + n];
    forall i | 0 <= i < |all|
      ensures all[i].id < c'.Before(all[i].src) <==> i >= p + n
    {
      var src := all[i].src;
      assert all[i] in all;
      SourceBound(t, all[i]);
      var id := c'.Before(src);
      assert IsCursor(page, src, c.Before(src), id) by {
        assert src == 0 || src == 1 || src == 2;
      }
      if p <= i < p + n {
        assert all[i] in page;
      }
      if exists r <- page :: r.src == src && r.id == id {
        var r :| r in page && r.src == src && r.id == id;
        var k :| p <= k < p + n && all[k] == r;
        if i > k {
          SameSource(t, all, k, i);
        } else if i < k {
          SameSource(t, all, i, k);
        }
      }
    }
  }

  lemma SourceBound(t: Tables, r: Row)
    requires t.Valid() && t.Has(r)
    ensures r.src < 3 && r.id < MAX
  {
    TagOf(t, r);
  }

  /** All rows are of one source. */
  predicate OneSource(rows: seq<Row>) {
    forall i, j | 0 <= i < j < |rows| :: rows[i].src == rows[j].src
  }

  /** How many rows each source has left; together they are what is left of the feed. */
  lemma LeftOver(t: Tables, all: seq<Row>, p: nat, c: Cursor)
    requires t.Valid() && IsFeed(all, t) && At(all, p, c) && p <= |all|
    ensures |all| - p == |Below(t.blocks, c.Before(0))| + |Below(t.votes, c.Before(1))| + |Below(t.delegs, c.Before(2))|
  {
    hide Below, SortRows, At, Feed, Tables.Valid;
    var limit := |all| + |Below(t.blocks, c.Before(0))| + |Below(t.votes, c.Before(1))| + |Below(t.delegs, c.Before(2))|;
    PageIsNext(t, all, p, c, limit);
  }

  /** A source has rows left exactly when some of what is left is of it. */
  lemma LeftOf(t: Tables, all: seq<Row>, p: nat, c: Cursor)
    requires t.Valid() && IsFeed(all, t) && At(all, p, c) && p <= |all|
    ensures Below(t.blocks, c.Before(0)) != [] <==> exists x <- all[p..] :: x.src == 0
    ensures Below(t.votes, c.Before(1)) != [] <==> exists x <- all[p..] :: x.src == 1
    ensures Below(t.delegs, c.Before(2)) != [] <==> exists x <- all[p..] :: x.src == 2
  {
    hide Below, At, Feed, Source, IsFeed;
    RestHas(t, all, p, c);
    Sources(t);
    SomeLeft(t, all, p, c, t.blocks, 0);
    SomeLeft(t, all, p, c, t.votes, 1);
    SomeLeft(t, all, p, c, t.delegs, 2);
  }

  lemma Sources(t: Tables)
    requires t.Valid()
    ensures Source(t.blocks, 0) && Source(t.votes, 1) && Source(t.delegs, 2)
    ensures forall x :: t.Has(x) ==> (x.src == 0 && x in t.blocks) || (x.src == 1 && x in t.votes) || (x.src == 2 && x in t.delegs)
  {
    forall x | t.Has(x)
      ensures (x.src == 0 && x in t.blocks) || (x.src == 1 && x in t.votes) || (x.src == 2 && x in t.delegs)
    {
      TagOf(t, x);
    }
  }

  lemma SomeLeft(t: Tables, all: seq<Row>, p: nat, c: Cursor, rows: seq<Row>, src: nat)
    requires p <= |all| && Source(rows, src)
    requires forall x :: x in all[p..] <==> t.Has(x) && x.id < c.Before(x.src)
    requires forall x :: x in rows ==> t.Has(x)
    requires forall x :: t.Has(x) && x.src == src ==> x in rows
    ensures Below(rows, c.Before(src)) != [] <==> exists x <- all[p..] :: x.src == src
  {
    hide Tables.Has, Below;
    BelowIs(rows, src, c.Before(src));
    var b := Below(rows, c.Before(src));
    if b != [] {
      assert b[0] in b;
      assert b[0].src == src by { InSource(b, src, b[0]); }
      assert b[0] in all[p..];
    }
  }

  lemma InSource(rows: seq<Row>, src: nat, x: Row)
    requires Source(rows, src) && x in rows
    ensures x.src == src
  {
  }

  /** A page is capped by a source or cut off exactly when more than the limit is left, or just the limit, all of one source. */
  lemma WhenMore(t: Tables, all: seq<Row>, p: nat, c: Cursor, limit: nat)
    requires t.Valid() && IsFeed(all, t) && At(all, p, c) && p <= |all| && limit > 0
    ensures var rows := SortRows(Fetched(t, c, limit));
            var shown := |Take(rows, limit)|;
            (shown != 0 && (|Recent(t.blocks, c.Before(0), limit)| == limit || |Recent(t.votes, c.Before(1), limit)| == limit
                            || |Recent(t.delegs, c.Before(2), limit)| == limit || |rows| > shown)) <==>
            |all| - p > limit || (|all| - p == limit && OneSource(all[p..]))
  {
    hide Below, At, Feed, Source, SortRows, IsFeed, Tables.Valid, OneSource;
    LeftOver(t, all, p, c);
    LeftOf(t, all, p, c);
    AloneLeft(all[p..]);
    PageIsNext(t, all, p, c, limit);
    LeftSources(t, all, p);
  }

  lemma LeftSources(t: Tables, all: seq<Row>, p: nat)
    requires t.Valid() && IsFeed(all, t) && p <= |all|
    ensures forall x <- all[p..] :: x.src == 0 || x.src == 1 || x.src == 2
  {
    Sources(t);
    assert forall x <- all[p..] :: x in all;
  }

  lemma AloneLeft(rest: seq<Row>)
    ensures OneSource(rest) <==> forall x <- rest, y <- rest :: x.src == y.src
  {
    if OneSource(rest) {
      forall x, y | x in rest && y in rest
        ensures x.src == y.src
      {
        var i :| 0 <= i < |rest| && rest[i] == x;
        var j :| 0 <= j < |rest| && rest[j] == y;
      }
    }
  }

  /** One request: the next rows of the feed, and a cursor behind them unless nothing is left. */
  method OlderPage(t: Tables, query: Cursor, limit: nat, ghost all: seq<Row>, ghost p: nat)
    returns (page: seq<Row>, cursor: Option<Cursor>)
    requires t.Valid() && limit > 0 && IsFeed(all, t) && p <= |all| && At(all, p, query)
    ensures page == Take(all[p..], limit)
    ensures cursor.None? ==> p + |page| == |all|
    ensures cursor.Some? ==> page != [] && At(all, p + |page|, cursor.value)
    ensures cursor.Some? <==> |all| - p > limit || (|all| - p == limit && OneSource(all[p..]))
  {
    hide Source, Feed, Recent, SortRows, At, AreCursors, Tables.Valid, OneSource;
    var blocks := Recent(t.blocks, query.Before(0), limit);
    var votes := Recent(t.votes, query.Before(1), limit);
    var delegs := Recent(t.delegs, query.Before(2), limit);
    var rows := SortRows(blocks + votes + delegs);
    PageIsNext(t, all, p, query, limit);
    page := Take(rows, limit);
    var hasMore := |blocks| == limit || |votes| == limit || |delegs| == limit || |rows| > |page|;
    WhenMore(t, all, p, query, limit);
    var c := NextCursor(page, query);
    if page == [] || !hasMore {
      Finished(t, all, p, query, limit);
      cursor := None;
    } else {
      assert page == all[p..p + |page|];
      CursorsAdvance(t, all, p, query, |page|, c);
      cursor := Some(c);
    }
  }

  /** With no source capped and nothing cut off, the page shows all that was left. */
  lemma Finished(t: Tables, all: seq<Row>, p: nat, c: Cursor, limit: nat)
    requires t.Valid() && IsFeed(all, t) && At(all, p, c) && p <= |all| && limit > 0
    requires var rows := SortRows(Fetched(t, c, limit));
             rows == [] || (|Recent(t.blocks, c.Before(0), limit)| < limit && |Recent(t.votes, c.Before(1), limit)| < limit
                            && |Recent(t.delegs, c.Before(2), limit)| < limit && |rows| <= limit)
    ensures |Take(SortRows(Fetched(t, c, limit)), limit)| == |all| - p
  {
    hide Below, SortRows, At;
    var rows, rest := SortRows(Fetched(t, c, limit)), all[p..];
    PageIsNext(t, all, p, c, limit);
    if rows != [] {
      RestHas(t, all, p, c);
      BelowIs(t.blocks, 0, c.Before(0));
      BelowIs(t.votes, 1, c.Before(1));
      BelowIs(t.delegs, 2, c.Before(2));
      FetchedTagged(t, c, limit);
      SortFeed(Fetched(t, c, limit));
      forall x | x in rest
        ensures x in rows
      {
        TagOf(t, x);
      }
      NoMore(rest, rows);
    }
  }

  // ---- Scrolling to the end ----

  lemma SortedTables(t: Tables)
    requires t.Valid()
    ensures IsFeed(SortRows(t.blocks + t.votes + t.delegs), t)
    ensures At(SortRows(t.blocks + t.votes + t.delegs), 0, Cursor(None, None, None))
  {
    var rows := t.blocks + t.votes + t.delegs;
    forall i, j | 0 <= i < j < |rows| && rows[i].slot == rows[j].slot && rows[i].id == rows[j].id
      ensures rows[i].src < rows[j].src
    {
    }
    SortFeed(rows);
    var all := SortRows(rows);
    forall i | 0 <= i < |all|
      ensures all[i].id < MAX
    {
      assert all[i] in all;
      SourceBound(t, all[i]);
    }
  }

  /**
   * Following the cursors from the tip ends, and shows every row of the three sources exactly once,
   * newest first across all pages.
   */
  method FollowAll(t: Tables, limit: nat) returns (shown: seq<Row>)
    requires t.Valid() && limit > 0
    ensures IsFeed(shown, t)
  {
    hide Feed, SortRows, At, Tables.Valid;
    ghost var all := SortRows(t.blocks + t.votes + t.delegs);
    SortedTables(t);
    shown := [];
    var cursor := Some(Cursor(None, None, None));
    while cursor.Some?
      invariant |shown| <= |all| && shown == all[..|shown|]
      invariant cursor.None? ==> |shown| == |all|
      invariant cursor.Some? ==> At(all, |shown|, cursor.value)
      decreases cursor.Some?, |all| - |shown|
    {
      var page, next := OlderPage(t, cursor.value, limit, all, |shown|);
      shown := shown + page;
      cursor := next;
    }
    assert all[..|all|] == all;
  }
}
