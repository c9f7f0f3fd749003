/**
 Paging through a line scan (`search.rs`): following `next_offset` from page to page gives
 exactly the hits of one unbounded scan, because stored offsets strictly increase.
 */
module Search {
  import opened Bytes
  import opened Options
  import opened Sequences
  import L = LineSplit
  import LT = LineSplitTheorems

  datatype Row = Row(id: nat, session: int, boot: Option<int>, offset: nat, bytes: seq<byte>)

  datatype Query = Query(session: Option<int>, boot: Option<int>, afterOffset: Option<nat>, maxResults: nat)

  datatype Page = Page(hits: seq<Row>, rowsScanned: nat, bytesScanned: nat, capped: bool, nextOffset: Option<nat>)

  /** Does the query's pattern occur in this text? */
  type Matcher = seq<byte> -> bool

  predicate InScope(q: Query, r: Row)
  {
    && (q.session.Some? ==> r.session == q.session.value)
    && (q.boot.Some? ==> r.boot == q.boot)
    && (q.afterOffset.Some? ==> r.offset >= q.afterOffset.value)
  }

  /** The rows a scan reads, in id order. */
  function ScanLines(rows: seq<Row>, q: Query): seq<Row>
  {
    if rows == [] then []
    else ScanLines(rows[..|rows| - 1], q) + if InScope(q, rows[|rows| - 1]) then [rows[|rows| - 1]] else []
  }

  function Matching(rows: seq<Row>, finds: Matcher): seq<Row>
  {
    if rows == [] then []
    else Matching(rows[..|rows| - 1], finds) + if finds(rows[|rows| - 1].bytes) then [rows[|rows| - 1]] else []
  }

  /** Every hit of the query, page size ignored. */
  function Hits(rows: seq<Row>, q: Query, finds: Matcher): seq<Row>
  {
    Matching(ScanLines(rows, q), finds)
  }

  function ByteCount(rows: seq<Row>): nat
  {
    if rows == [] then 0 else ByteCount(rows[..|rows| - 1]) + |rows[|rows| - 1].bytes|
  }

  /** A page is the first hits, and if there is one more, the offset it starts at. */
  ghost predicate IsPage(p: Page, rows: seq<Row>, q: Query, finds: Matcher) {
    var all := Hits(rows, q, finds);
    && p.capped == (|all| > q.maxResults)
    && p.hits == (if p.capped then all[..q.maxResults] else all)
    && p.nextOffset == (if p.capped then Some(all[q.maxResults].offset) else None)
    && ScannedUpTo(p, ScanLines(rows, q), finds)
  }

  /** The scan went through all rows, or up to and including the first hit that did not fit. */
  ghost predicate ScannedUpTo(p: Page, lines: seq<Row>, finds: Matcher) {
    && p.rowsScanned <= |lines|
    && p.bytesScanned == ByteCount(lines[..p.rowsScanned])
    && (if p.capped
        then p.rowsScanned >= 1 && finds(lines[p.rowsScanned - 1].bytes)
             && Matching(lines[..p.rowsScanned - 1], finds) == p.hits
        else p.rowsScanned == |lines|)
  }

  lemma {:induction false} MatchingPrefix(rows: seq<Row>, i: nat, finds: Matcher)
    requires i <= |rows|
    ensures Matching(rows[..i], finds) <= Matching(rows, finds)
  {
    if i < |rows| {
      var n := |rows| - 1;
      assert rows[..n][..i] == rows[..i];
      MatchingPrefix(rows[..n], i, finds);
    } else {
      assert rows[..i] == rows;
    }
  }

  /** The scan stops at the first hit that does not fit. */
  method DegradedScan(rows: seq<Row>, q: Query, finds: Matcher) returns (p: Page)
    ensures IsPage(p, rows, q, finds)
  {
    var lines := ScanLines(rows, q);
    var hits: seq<Row> := [];
    var scanned, bytes := 0, 0;
    while scanned < |lines|
      invariant 0 <= scanned <= |lines|
      invariant hits == Matching(lines[..scanned], finds) && |hits| <= q.maxResults
      invariant bytes == ByteCount(lines[..scanned])
    {
      var l := lines[scanned];
      assert lines[..scanned + 1][..scanned] == lines[..scanned];
      scanned := scanned + 1;
      bytes := bytes + |l.bytes|;
      if finds(l.bytes) {
        if |hits| >= q.maxResults {
          MatchingPrefix(lines, scanned, finds);
          ghost var all := Matching(lines, finds);
          assert hits + [l] <= all;
          assert all[..q.maxResults] == hits && all[q.maxResults] == l;
          return Page(hits, scanned, bytes, true, Some(l.offset));
        }
        hits := hits + [l];
      } else {
        Unit(hits);
      }
    }
    assert lines[..scanned] == lines;
    p := Page(hits, scanned, bytes, false, None);
  }

  /** The rows a scan reads: those of the session and boot asked for, if any, from the offset asked for on. */
  lemma {:induction false} ScanIs(rows: seq<Row>, q: Query, r: Row)
    ensures r in ScanLines(rows, q) <==>
            && r in rows
            && (q.session == None || q.session == Some(r.session))
            && (q.boot == None || r.boot == q.boot)
            && (q.afterOffset == None || q.afterOffset.value <= r.offset)
  {
    if rows != [] {
      var n := |rows| - 1;
      ScanIs(rows[..n], q, r);
      assert rows == rows[..n] + [rows[n]];
    }
  }

  /** The hits among them: exactly those whose text matches. */
  lemma {:induction false} MatchingIs(rows: seq<Row>, finds: Matcher, r: Row)
    ensures r in Matching(rows, finds) <==> r in rows && finds(r.bytes)
  {
    if rows != [] {
      var n := |rows| - 1;
      MatchingIs(rows[..n], finds, r);
      assert rows == rows[..n] + [rows[n]];
    }
  }

  // ------------------------------------------------------------------ following the pages

  ghost predicate Increasing(rows: seq<Row>) {
    forall i, j :: 0 <= i < j < |rows| ==> rows[i].offset < rows[j].offset
  }

  ghost function Resumed(q: Query, offset: nat): Query {
    q.(afterOffset := Some(offset))
  }

  /** The hits of `all` from one offset on. */
  ghost function From(all: seq<Row>, offset: nat): seq<Row> {
    if all == [] then []
    else From(all[..|all| - 1], offset) + if all[|all| - 1].offset >= offset then [all[|all| - 1]] else []
  }

  lemma {:induction false} MatchingFrom(rows: seq<Row>, finds: Matcher, offset: nat)
    ensures Matching(From(rows, offset), finds) == From(Matching(rows, finds), offset)
  {
    if rows != [] {
      var n := |rows| - 1;
      MatchingFrom(rows[..n], finds, offset);
      assert rows == rows[..n] + [rows[n]];
      FilterOneMore(rows[..n], rows[n], finds, offset);
    }
  }

  lemma FilterOneMore(front: seq<Row>, r: Row, finds: Matcher, offset: nat)
    requires Matching(From(front, offset), finds) == From(Matching(front, finds), offset)
    ensures Matching(From(front + [r], offset), finds) == From(Matching(front + [r], finds), offset)
  {
    hide Matching, From;
    MatchingMore(front, r, finds);
    FromMore(front, r, offset);
    MatchingMore(From(front, offset), r, finds);
    FromMore(Matching(front, finds), r, offset);
    Unit(From(front, offset));
    Unit(Matching(front, finds));
    Unit(Matching(From(front, offset), finds));
  }

  lemma MatchingMore(rows: seq<Row>, r: Row, finds: Matcher)
    ensures Matching(rows + [r], finds) == Matching(rows, finds) + if finds(r.bytes) then [r] else []
  {
    assert (rows + [r])[..|rows|] == rows;
  }

  lemma FromMore(rows: seq<Row>, r: Row, offset: nat)
    ensures From(rows + [r], offset) == From(rows, offset) + if r.offset >= offset then [r] else []
  {
    assert (rows + [r])[..|rows|] == rows;
  }

  /** Resuming at a later offset drops exactly the earlier rows. */
  lemma {:induction false} ScanResumed(rows: seq<Row>, q: Query, offset: nat)
    requires q.afterOffset.Some? ==> q.afterOffset.value <= offset
    ensures ScanLines(rows, Resumed(q, offset)) == From(ScanLines(rows, q), offset)
  {
    if rows != [] {
      var n := |rows| - 1;
      ScanResumed(rows[..n], q, offset);
      FromMore(ScanLines(rows[..n], q), rows[n], offset);
      Unit(ScanLines(rows[..n], q));
      Unit(From(ScanLines(rows[..n], q), offset));
    }
  }

  lemma {:induction false} ScanIncreasing(rows: seq<Row>, q: Query)
    requires Increasing(rows)
    ensures Increasing(ScanLines(rows, q))
    ensures forall r :: r in ScanLines(rows, q) ==> r in rows
  {
    if rows != [] {
      var n := |rows| - 1;
      ScanIncreasing(rows[..n], q);
      AppendIncreasing(ScanLines(rows[..n], q), rows);
    }
  }

  lemma AppendIncreasing(front: seq<Row>, rows: seq<Row>)
    requires rows != [] && Increasing(rows) && Increasing(front)
    requires forall r :: r in front ==> r in rows[..|rows| - 1]
    ensures Increasing(front + [rows[|rows| - 1]])
  {
    var all := front + [rows[|rows| - 1]];
    forall i, j | 0 <= i < j < |all| ensures all[i].offset < all[j].offset {
      if j == |front| {
        assert front[i] in front;
        var k :| 0 <= k < |rows| - 1 && rows[..|rows| - 1][k] == front[i];
        assert rows[k] == front[i];
      }
    }
  }

  lemma {:induction false} MatchingIncreasing(rows: seq<Row>, finds: Matcher)
    requires Increasing(rows)
    ensures Increasing(Matching(rows, finds))
    ensures forall r :: r in Matching(rows, finds) ==> r in rows
  {
    if rows != [] {
      var n := |rows| - 1;
      MatchingIncreasing(rows[..n], finds);
      AppendIncreasing(Matching(rows[..n], finds), rows);
    }
  }

  /** In increasing rows, resuming at row `k` keeps exactly the rows from `k` on. */
  lemma {:induction false} FromIsSuffix(all: seq<Row>, k: nat)
    requires Increasing(all) && k < |all|
    ensures From(all, all[k].offset) == all[k..]
  {
    var n := |all| - 1;
    if k < n {
      FromIsSuffix(all[..n], k);
      assert all[..n][k..] + [all[n]] == all[k..];
    } else {
      FromNone(all[..n], all[k].offset);
    }
  }

  lemma {:induction false} FromNone(rows: seq<Row>, offset: nat)
    requires forall i :: 0 <= i < |rows| ==> rows[i].offset < offset
    ensures From(rows, offset) == []
  {
    if rows != [] {
      FromNone(rows[..|rows| - 1], offset);
    }
  }

  lemma HitsResumed(rows: seq<Row>, q: Query, finds: Matcher, k: nat)
    requires Increasing(rows) && k < |Hits(rows, q, finds)|
    ensures var all := Hits(rows, q, finds);
            Hits(rows, Resumed(q, all[k].offset), finds) == all[k..]
  {
    hide ScanLines, Matching, From;
    var scan := ScanLines(rows, q);
    var all := Hits(rows, q, finds);
    ScanIncreasing(rows, q);
    MatchingIncreasing(scan, finds);
    assert all[k] in scan;
    ScanInScope(rows, q, all[k]);
    ScanResumed(rows, q, all[k].offset);
    MatchingFrom(scan, finds, all[k].offset);
    FromIsSuffix(all, k);
  }

  lemma {:induction false} ScanInScope(rows: seq<Row>, q: Query, r: Row)
    requires r in ScanLines(rows, q)
    ensures InScope(q, r)
  {
    var n := |rows| - 1;
    if r in ScanLines(rows[..n], q) {
      ScanInScope(rows[..n], q, r);
    }
  }

  /** Pages fetched one after the other, each resuming where the one before left off. */
  ghost predicate Chain(rows: seq<Row>, q: Query, finds: Matcher, pages: seq<Page>)
    decreases |pages|
  {
    pages == []
    || (&& IsPage(pages[0], rows, q, finds)
        && if pages[0].nextOffset.None? then |pages| == 1
           else Chain(rows, Resumed(q, pages[0].nextOffset.value), finds, pages[1..]))
  }

  ghost function Collected(pages: seq<Page>): seq<Row> {
    if pages == [] then [] else pages[0].hits + Collected(pages[1..])
  }

  /**
   With any page size of at least one, following the pages never repeats or skips a hit, needs
   at most one page per hit and one more, and once no next offset is given the pages together
   are the unbounded scan.
   */
  lemma {:induction false} PagesAreTheWholeScan(rows: seq<Row>, q: Query, finds: Matcher, pages: seq<Page>)
    requires Increasing(rows) && q.maxResults >= 1
    requires pages != [] && Chain(rows, q, finds, pages)
    ensures Collected(pages) <= Hits(rows, q, finds)
    ensures |pages| <= |Hits(rows, q, finds)| + 1
    ensures pages[|pages| - 1].nextOffset.None? ==> Collected(pages) == Hits(rows, q, finds)
    decreases |pages|
  {
    hide ScanLines, Matching;
    var all := Hits(rows, q, finds);
    var p, rest := pages[0], pages[1..];
    if p.nextOffset.None? {
      Unit(p.hits);
    } else {
      HitsResumed(rows, q, finds, q.maxResults);
      assert all[..q.maxResults] + all[q.maxResults..] == all;
      if rest == [] {
        Unit(p.hits);
      } else {
        PagesAreTheWholeScan(rows, Resumed(q, p.nextOffset.value), finds, rest);
      }
    }
  }

  /** A page size of zero never gets past the first hit. */
  lemma ZeroNeverAdvances(rows: seq<Row>, q: Query, finds: Matcher, p: Page, p': Page)
    requires Increasing(rows) && q.maxResults == 0 && Hits(rows, q, finds) != []
    requires IsPage(p, rows, q, finds)
    requires p.nextOffset.Some? ==> IsPage(p', rows, Resumed(q, p.nextOffset.value), finds)
    ensures p.nextOffset.Some? && p.hits == [] && p'.hits == [] && p'.nextOffset == p.nextOffset
  {
    HitsResumed(rows, q, finds, 0);
  }

  // ------------------------------------------------------------------ why offsets increase

  /** The rows one capture writes: line after line, each at its own stream offset. */
  ghost predicate WrittenFrom(rows: seq<Row>, base: nat, lines: seq<L.Line>) {
    && |rows| == |lines|
    && forall i :: 0 <= i < |rows| ==> rows[i].offset == base + LT.Offset(lines, i)
  }

  /** Whatever the stream, the rows of its lines have strictly increasing offsets. */
  lemma SplitRowsIncrease(lim: L.Limits, mode: L.Mode, stream: seq<byte>, base: nat, rows: seq<Row>)
    requires lim.Valid() && WrittenFrom(rows, base, L.Split(lim, mode, stream))
    ensures Increasing(rows)
  {
    hide L.Split;
    var lines := L.Split(lim, mode, stream);
    LT.SplitExact(lim, mode, stream);
    forall i, j | 0 <= i < j < |rows| ensures rows[i].offset < rows[j].offset {
      LT.OffsetsIncrease(lim, lines, i, j);
    }
  }
}
