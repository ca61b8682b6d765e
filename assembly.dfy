/** `filterAndSortContext`: the critical rows with the top score, then at
    most five of the other rows chosen by score, then (when some item is a
    chunk of a document) whole documents in place of their chunks, without
    repeated locations. The rows of the chunk query are an input. */
module Assembly {
  import opened Wrappers
  import opened Text
  import opened Numbers
  import opened Types
  import opened Sorting
  import opened Scoring

  const TopCount: nat := 5
  const MinRelevance: int := 4
  const ChunkMarker: string := "#chunk"
  const DefaultKind: string := "component"
  /** The sort key of a row of the chunk query whose location is not a chunk. */
  const NotAChunk: nat := 999999

  // ---------------------------------------------------------------------
  // Positions

  /** The positions below `n` that `keep` accepts, ascending: the shape of
      `xs.filter((_, index) => keep(index))`. */
  function Positions(n: nat, keep: nat -> bool): (r: seq<nat>)
    ensures forall k :: 0 <= k < |r| ==> r[k] < n && keep(r[k])
    ensures forall j, k :: 0 <= j < k < |r| ==> r[j] < r[k]
    ensures forall i :: 0 <= i < n && keep(i) ==> i in r
  {
    if n == 0 then [] else Positions(n - 1, keep) + (if keep(n - 1) then [n - 1] else [])
  }

  /** An ascending list of positions below `n` has at most `n` entries. */
  lemma {:induction false} AscendingBelow(p: seq<nat>, n: nat)
    requires forall j, k :: 0 <= j < k < |p| ==> p[j] < p[k]
    requires forall k :: 0 <= k < |p| ==> p[k] < n
    ensures |p| <= n
    decreases |p|
  {
    if p != [] {
      var front := p[..|p| - 1];
      assert forall k :: 0 <= k < |front| ==> front[k] == p[k] && p[k] < p[|p| - 1];
      AscendingBelow(front, n - 1);
    }
  }

  /** An ascending list whose entries all occur in `sel` is no longer. */
  lemma {:induction false} AscendingWithin(p: seq<nat>, sel: seq<nat>)
    requires forall j, k :: 0 <= j < k < |p| ==> p[j] < p[k]
    requires forall k :: 0 <= k < |p| ==> p[k] in sel
    ensures |p| <= |sel|
    decreases |p|
  {
    if p != [] {
      var x := p[|p| - 1];
      var i :| 0 <= i < |sel| && sel[i] == x;
      var rest := sel[..i] + sel[i + 1..];
      var front := p[..|p| - 1];
      forall k | 0 <= k < |front| ensures front[k] in rest {
        assert front[k] == p[k] && p[k] < x;
        var m :| 0 <= m < |sel| && sel[m] == front[k];
        if m < i {
          assert rest[m] == sel[m];
        } else {
          assert rest[m - 1] == sel[m];
        }
      }
      AscendingWithin(front, rest);
    }
  }

  /** The positions below `n` that `sel` names, ascending. */
  function Picked(sel: seq<nat>, n: nat): (r: seq<nat>)
    ensures forall k :: 0 <= k < |r| ==> r[k] < n && r[k] in sel
    ensures forall j, k :: 0 <= j < k < |r| ==> r[j] < r[k]
    ensures forall i :: 0 <= i < n && i in sel ==> i in r
  {
    Positions(n, (i: nat) => i in sel)
  }

  /** Picking the positions that a list names gives no more than the list
      holds. */
  lemma PickedInBound(sel: seq<nat>, n: nat)
    ensures |Picked(sel, n)| <= |sel|
  {
    AscendingWithin(Picked(sel, n), sel);
  }

  // ---------------------------------------------------------------------
  // Selection

  /** A context item from a row: `location || ""`, `type || "component"`. */
  function Item(row: Row, score: int): ContextItem {
    ContextItem(row.content, row.name, row.location, if row.kind == "" then DefaultKind else row.kind, score)
  }

  /** Sorting ascending by this key is `sort((a, b) => b.score - a.score)`. */
  function ByScoreDescending(s: Scored): real {
    -(s.score as real)
  }

  /** The scores of non-critical rows. */
  function Candidates(rows: seq<Row>, scored: seq<Scored>): (r: seq<Scored>)
    ensures forall s :: s in r <==> s in scored && s.index in NonCriticalIndices(rows)
  {
    Filter(scored, (s: Scored) => s.index in NonCriticalIndices(rows))
  }

  /** The five highest, ties in input order. */
  function Top(rows: seq<Row>, scored: seq<Scored>): seq<Scored> {
    Take(SortBy(Candidates(rows, scored), ByScoreDescending), TopCount)
  }

  /** `relevantNonCriticalIndices`. */
  function SelectedIndices(rows: seq<Row>, scored: seq<Scored>): seq<nat> {
    IndicesOf(Filter(Top(rows, scored), (s: Scored) => s.score >= MinRelevance))
  }

  /** The top list has at most five scores of non-critical rows, highest
      first, and no score left out is higher than one kept. */
  lemma TopIsBest(rows: seq<Row>, scored: seq<Scored>)
    ensures var t := Top(rows, scored);
            var c := Candidates(rows, scored);
            |t| <= TopCount
            && (forall j, k :: 0 <= j < k < |t| ==> t[j].score >= t[k].score)
            && (forall s :: s in t ==> s in scored && s.index in NonCriticalIndices(rows))
            && (forall x, y :: x in t && y in multiset(c) - multiset(t) ==> y.score <= x.score)
  {
    TopFromCandidates(rows, scored);
    TopOrdered(Top(rows, scored));
    TopAboveRest(Top(rows, scored), Candidates(rows, scored));
  }

  lemma TopFromCandidates(rows: seq<Row>, scored: seq<Scored>)
    ensures var t := Top(rows, scored);
            var c := Candidates(rows, scored);
            |t| <= TopCount
            && SortedBy(t, ByScoreDescending)
            && (forall x, y :: x in t && y in multiset(c) - multiset(t) ==> ByScoreDescending(x) <= ByScoreDescending(y))
            && (forall s :: s in t ==> s in scored && s.index in NonCriticalIndices(rows))
  {
    var c := Candidates(rows, scored);
    SortedTop(c, ByScoreDescending, TopCount);
    var t := Top(rows, scored);
    forall s | s in t ensures s in scored && s.index in NonCriticalIndices(rows) {
      assert s in multiset(c);
    }
  }

  lemma TopOrdered(t: seq<Scored>)
    requires SortedBy(t, ByScoreDescending)
    ensures forall j, k :: 0 <= j < k < |t| ==> t[j].score >= t[k].score
  {
    forall j, k | 0 <= j < k < |t| ensures t[j].score >= t[k].score {
      assert ByScoreDescending(t[j]) <= ByScoreDescending(t[k]);
    }
  }

  lemma TopAboveRest(t: seq<Scored>, c: seq<Scored>)
    requires forall x, y :: x in t && y in multiset(c) - multiset(t) ==> ByScoreDescending(x) <= ByScoreDescending(y)
    ensures forall x, y :: x in t && y in multiset(c) - multiset(t) ==> y.score <= x.score
  {
    forall x, y | x in t && y in multiset(c) - multiset(t) ensures y.score <= x.score {
      assert ByScoreDescending(x) <= ByScoreDescending(y);
    }
  }

  /** The entries with score `v`. */
  function ScoreIs(v: int): Scored -> bool {
    (s: Scored) => s.score == v
  }

  /** `sort` is stable, so ties at the cut are broken by the order of the
      scores list: of the candidates with one score, those in the top five
      are the first of them. */
  lemma TopTiesInOrder(rows: seq<Row>, scored: seq<Scored>, v: int)
    ensures Filter(Top(rows, scored), ScoreIs(v)) <= Filter(Candidates(rows, scored), ScoreIs(v))
  {
    var c := Candidates(rows, scored);
    var sorted := SortBy(c, ByScoreDescending);
    assert forall y: Scored :: ScoreIs(v)(y) <==> ByScoreDescending(y) == -(v as real);
    SortByStable(c, ByScoreDescending, ScoreIs(v), -(v as real));
    var t := Take(sorted, TopCount);
    FilterPrefix(sorted, |t|, ScoreIs(v));
  }

  /** A row position is selected exactly when one of the top five scores
      names it and is at least 4. */
  lemma SelectedIff(rows: seq<Row>, scored: seq<Scored>, i: nat)
    ensures i in SelectedIndices(rows, scored)
            <==> exists s :: s in Top(rows, scored) && s.index == i && s.score >= MinRelevance
  {
    var f := Filter(Top(rows, scored), (s: Scored) => s.score >= MinRelevance);
    if i in SelectedIndices(rows, scored) {
      var k :| 0 <= k < |f| && IndicesOf(f)[k] == i;
      assert f[k] in f;
    }
    if exists s :: s in Top(rows, scored) && s.index == i && s.score >= MinRelevance {
      var s :| s in Top(rows, scored) && s.index == i && s.score >= MinRelevance;
      assert s in f;
      var k :| 0 <= k < |f| && f[k] == s;
      assert IndicesOf(f)[k] == i;
    }
  }

  /** The critical rows, score 10, in input order. */
  function CriticalItems(rows: seq<Row>): seq<ContextItem> {
    var c := CriticalIndices(rows);
    seq(|c|, k requires 0 <= k < |c| => Item(rows[c[k]], CriticalScore))
  }

  /** The selected rows in input order, each with the score `score` gives
      its position. */
  function NonCriticalItems(rows: seq<Row>, sel: seq<nat>, score: nat -> int): (r: seq<ContextItem>)
    ensures |r| <= |sel|
  {
    var p := Picked(sel, |rows|);
    PickedInBound(sel, |rows|);
    seq(|p|, k requires 0 <= k < |p| => Item(rows[p[k]], score(p[k])))
  }

  function Combined(rows: seq<Row>, scored: seq<Scored>, score: nat -> int): (r: seq<ContextItem>)
    ensures |r| <= |CriticalIndices(rows)| + TopCount
  {
    var sel := SelectedIndices(rows, scored);
    assert |sel| <= TopCount;
    CriticalItems(rows) + NonCriticalItems(rows, sel, score)
  }

  /** The items are the critical rows with score 10 followed by the picked
      rows in input order, each with the score `score` gives it. */
  lemma CombinedShape(rows: seq<Row>, scored: seq<Scored>, score: nat -> int)
    ensures var r := Combined(rows, scored, score);
            var c := CriticalIndices(rows);
            var p := Picked(SelectedIndices(rows, scored), |rows|);
            |r| == |c| + |p|
            && (forall k :: 0 <= k < |c| ==> r[k] == Item(rows[c[k]], CriticalScore))
            && (forall k :: 0 <= k < |p| ==> r[|c| + k] == Item(rows[p[k]], score(p[k])))
  {
    var sel := SelectedIndices(rows, scored);
    var front := CriticalItems(rows);
    var back := NonCriticalItems(rows, sel, score);
    var r := front + back;
    assert Combined(rows, scored, score) == r;
    assert forall k :: 0 <= k < |back| ==> r[|front| + k] == back[k];
  }

  /** The rows picked after the critical ones are exactly the non-critical
      rows named by one of the top five scores with a score of at least 4. */
  lemma PickedIff(rows: seq<Row>, scored: seq<Scored>, i: nat)
    requires i < |rows|
    ensures i in Picked(SelectedIndices(rows, scored), |rows|)
            <==> !rows[i].isCritical
                 && exists s :: s in Top(rows, scored) && s.index == i && s.score >= MinRelevance
  {
    var p := Picked(SelectedIndices(rows, scored), |rows|);
    SelectedIff(rows, scored, i);
    if exists s :: s in Top(rows, scored) && s.index == i && s.score >= MinRelevance {
      var s :| s in Top(rows, scored) && s.index == i && s.score >= MinRelevance;
      TopIsBest(rows, scored);
      var nc := NonCriticalIndices(rows);
      var k :| 0 <= k < |nc| && nc[k] == i;
    }
  }

  // ---------------------------------------------------------------------
  // The score of a non-critical item

  /** `relevantEmbeddings.find(({ index }) => index === index)?.score || 0`
      as written: the callback compares its own parameter with itself, so
      every row gets the first entry's score. */
  function FirstEntryScore(scored: seq<Scored>): int {
    if scored == [] then 0 else scored[0].score
  }

  /** The score of the entry for row `i`, 0 when there is none. */
  function ScoreOf(scored: seq<Scored>, i: nat): (r: int)
    ensures (exists k :: 0 <= k < |scored| && scored[k].index == i && scored[k].score == r)
            || (r == 0 && forall k :: 0 <= k < |scored| ==> scored[k].index != i)
  {
    if scored == [] then 0
    else if scored[0].index == i then scored[0].score
    else
      var r := ScoreOf(scored[1..], i);
      assert forall k :: 1 <= k < |scored| ==> scored[1..][k - 1] == scored[k];
      r
  }

  predicate DistinctIndices(scored: seq<Scored>) {
    forall j, k :: 0 <= j < k < |scored| ==> scored[j].index != scored[k].index
  }

  lemma {:induction false} ScoreOfEntry(scored: seq<Scored>, s: Scored)
    requires DistinctIndices(scored)
    requires s in scored
    ensures ScoreOf(scored, s.index) == s.score
    decreases |scored|
  {
    if scored[0] != s {
      var k :| 0 < k < |scored| && scored[k] == s;
      assert scored[1..][k - 1] == s;
      assert DistinctIndices(scored[1..]) by {
        assert forall i :: 0 <= i < |scored| - 1 ==> scored[1..][i] == scored[i + 1];
      }
      ScoreOfEntry(scored[1..], s);
    }
  }

  /** With the corrected lookup, and one score per row as the scorer gives,
      every non-critical item carries its own row's score, which is at
      least 4. */
  lemma SelectedCarryOwnScore(rows: seq<Row>, scored: seq<Scored>)
    requires DistinctIndices(scored)
    ensures var p := Picked(SelectedIndices(rows, scored), |rows|);
            forall k :: 0 <= k < |p| ==> ScoreOf(scored, p[k]) >= MinRelevance
  {
    var p := Picked(SelectedIndices(rows, scored), |rows|);
    TopIsBest(rows, scored);
    forall k | 0 <= k < |p| ensures ScoreOf(scored, p[k]) >= MinRelevance {
      assert p[k] in SelectedIndices(rows, scored);
      SelectedIff(rows, scored, p[k]);
      var s :| s in Top(rows, scored) && s.index == p[k] && s.score >= MinRelevance;
      assert s in scored;
      ScoreOfEntry(scored, s);
    }
  }

  // ---------------------------------------------------------------------
  // Whole documents in place of chunks

  /** A row of the chunk query. */
  datatype ChunkRow = ChunkRow(content: string, name: string, location: string, kind: string, originalLocation: string)

  /** The text after the first `#chunk` of `s`. */
  function AfterMarker(s: string): string
    decreases |s|
  {
    if StartsWith(s, ChunkMarker) then s[|ChunkMarker|..]
    else if s == [] then []
    else AfterMarker(s[1..])
  }

  /** The chunk number the query orders by: the digits after `#chunk`, or
      999999 for a location that is not a chunk. */
  function ChunkNumber(location: string): nat {
    if Contains(location, ChunkMarker) then
      var t := AfterMarker(location);
      ValueOf(t[..LeadingDigits(t, false)], false)
    else NotAChunk
  }

  /** The rows of one document come in ascending chunk number. */
  ghost predicate ChunksInOrder(rows: seq<ChunkRow>) {
    forall j, k :: 0 <= j < k < |rows| && rows[j].originalLocation == rows[k].originalLocation
      ==> ChunkNumber(rows[j].location) <= ChunkNumber(rows[k].location)
  }

  /** Ascending chunk numbers. */
  ghost predicate Ascending(d: seq<ChunkRow>) {
    forall j, k :: 0 <= j < k < |d| ==> ChunkNumber(d[j].location) <= ChunkNumber(d[k].location)
  }

  /** The rows of document `doc`, in query order. */
  function DocumentRows(rows: seq<ChunkRow>, doc: string): (r: seq<ChunkRow>)
    ensures forall x :: x in r <==> x in rows && x.originalLocation == doc
    ensures (forall k :: 0 <= k < |rows| ==> rows[k].originalLocation != doc) ==> r == []
  {
    if rows == [] then []
    else
      var front := rows[..|rows| - 1];
      var last := rows[|rows| - 1];
      assert rows == front + [last];
      DocumentRows(front, doc) + (if last.originalLocation == doc then [last] else [])
  }

  /** The reduce that collects the rows per `original_location`, preserving
      their order. */
  function GroupBy(rows: seq<ChunkRow>): (m: map<string, seq<ChunkRow>>)
    ensures forall doc :: doc in m ==> m[doc] != []
  {
    if rows == [] then map[]
    else
      var m := GroupBy(rows[..|rows| - 1]);
      var last := rows[|rows| - 1];
      var doc := last.originalLocation;
      m[doc := (if doc in m then m[doc] else []) + [last]]
  }

  /** A document has a group exactly when some row names it, and its group
      is its rows in query order. */
  lemma {:induction false} GroupByIff(rows: seq<ChunkRow>, doc: string)
    ensures doc in GroupBy(rows) <==> exists k :: 0 <= k < |rows| && rows[k].originalLocation == doc
    ensures doc in GroupBy(rows) ==> GroupBy(rows)[doc] == DocumentRows(rows, doc)
    decreases |rows|
  {
    if rows != [] {
      var front := rows[..|rows| - 1];
      GroupByIff(front, doc);
      assert forall k :: 0 <= k < |front| ==> front[k] == rows[k];
    }
  }

  /** Within an ordered query result, a document's rows are in ascending
      chunk number. */
  lemma {:induction false} DocumentRowsInOrder(rows: seq<ChunkRow>, doc: string)
    requires ChunksInOrder(rows)
    ensures Ascending(DocumentRows(rows, doc))
    decreases |rows|
  {
    if rows != [] {
      var front := rows[..|rows| - 1];
      var last := rows[|rows| - 1];
      assert ChunksInOrder(front) by {
        assert forall k :: 0 <= k < |front| ==> front[k] == rows[k];
      }
      DocumentRowsInOrder(front, doc);
      if last.originalLocation == doc {
        NoLaterChunk(rows, doc);
        AppendAscending(DocumentRows(front, doc), last);
      }
    }
  }

  /** The earlier rows of the last row's document have no larger number. */
  lemma NoLaterChunk(rows: seq<ChunkRow>, doc: string)
    requires ChunksInOrder(rows)
    requires rows != [] && rows[|rows| - 1].originalLocation == doc
    ensures var last := rows[|rows| - 1];
            forall x :: x in DocumentRows(rows[..|rows| - 1], doc) ==> ChunkNumber(x.location) <= ChunkNumber(last.location)
  {
    var front := rows[..|rows| - 1];
    forall x | x in DocumentRows(front, doc) ensures ChunkNumber(x.location) <= ChunkNumber(rows[|rows| - 1].location) {
      var i :| 0 <= i < |front| && front[i] == x;
      assert rows[i] == x;
    }
  }

  lemma AppendAscending(e: seq<ChunkRow>, last: ChunkRow)
    requires Ascending(e)
    requires forall x :: x in e ==> ChunkNumber(x.location) <= ChunkNumber(last.location)
    ensures Ascending(e + [last])
  {
    var d := e + [last];
    forall j, k | 0 <= j < k < |d| ensures ChunkNumber(d[j].location) <= ChunkNumber(d[k].location) {
      assert d[j] == e[j];
      if k < |e| {
        assert d[k] == e[k];
      } else {
        assert e[j] in e;
      }
    }
  }

  function Contents(rows: seq<ChunkRow>): seq<string> {
    seq(|rows|, k requires 0 <= k < |rows| => rows[k].content)
  }

  /** A chunk whose document has rows becomes the whole document: the
      contents joined by blank lines, the first row's name and type, the
      document's location and the chunk's score. */
  function Reassemble(ctx: ContextItem, groups: map<string, seq<ChunkRow>>): ContextItem
    requires forall doc :: doc in groups ==> groups[doc] != []
  {
    if Contains(ctx.location, ChunkMarker) then
      var doc := Before(ctx.location, '#');
      if doc in groups then
        var g := groups[doc];
        ContextItem(Join(Contents(g), "\n\n"), g[0].name, doc, g[0].kind, ctx.score)
      else ctx
    else ctx
  }

  function ReassembleAll(items: seq<ContextItem>, chunkRows: seq<ChunkRow>): (r: seq<ContextItem>)
    ensures |r| == |items|
  {
    var groups := GroupBy(chunkRows);
    seq(|items|, k requires 0 <= k < |items| => Reassemble(items[k], groups))
  }

  /** A reassembled chunk holds every row of its document, in chunk order,
      and keeps the chunk's score; other items are unchanged. */
  lemma ReassembledDocument(items: seq<ContextItem>, chunkRows: seq<ChunkRow>, k: nat)
    requires ChunksInOrder(chunkRows)
    requires k < |items|
    ensures var ctx := items[k];
            var out := ReassembleAll(items, chunkRows)[k];
            var doc := Before(ctx.location, '#');
            var d := DocumentRows(chunkRows, doc);
            out.score == ctx.score
            && (Contains(ctx.location, ChunkMarker) && d != [] ==>
                  out.content == Join(Contents(d), "\n\n") && out.location == doc
                  && out.name == d[0].name && out.kind == d[0].kind
                  && Ascending(d))
            && (!Contains(ctx.location, ChunkMarker) || d == [] ==> out == ctx)
  {
    var ctx := items[k];
    var doc := Before(ctx.location, '#');
    GroupByIff(chunkRows, doc);
    DocumentRowsInOrder(chunkRows, doc);
    var d := DocumentRows(chunkRows, doc);
    if d != [] {
      assert d[0] in chunkRows;
      var i :| 0 <= i < |chunkRows| && chunkRows[i] == d[0];
    }
  }

  // ---------------------------------------------------------------------
  // Removing repeated locations

  /** `self.findIndex((t) => t.location === loc)`: the first position with
      that location, -1 when there is none. */
  function FindIndex(items: seq<ContextItem>, loc: string): (r: int)
    ensures -1 <= r < |items|
    ensures r >= 0 ==> items[r].location == loc
    ensures forall j :: 0 <= j < |items| && (r == -1 || j < r) ==> items[j].location != loc
  {
    if items == [] then -1
    else if items[0].location == loc then 0
    else
      var t := FindIndex(items[1..], loc);
      assert forall j :: 1 <= j < |items| ==> items[1..][j - 1] == items[j];
      if t == -1 then -1 else t + 1
  }

  /** `self.filter((ctx, index) => index === self.findIndex(...))`. */
  function Dedup(items: seq<ContextItem>): (r: seq<ContextItem>)
    ensures |r| <= |items|
  {
    var p := FirstPositions(items);
    AscendingBelow(p, |items|);
    seq(|p|, k requires 0 <= k < |p| => items[p[k]])
  }

  function FirstPositions(items: seq<ContextItem>): seq<nat> {
    Positions(|items|, (k: nat) => k < |items| && FindIndex(items, items[k].location) == k)
  }

  lemma DedupAt(items: seq<ContextItem>)
    ensures var p := FirstPositions(items);
            var r := Dedup(items);
            |r| == |p|
            && forall k :: 0 <= k < |r| ==> r[k] == items[p[k]] && FindIndex(items, items[p[k]].location) == p[k]
  {
  }

  /** After removing repeats no two items share a location. */
  lemma DedupDistinct(items: seq<ContextItem>)
    ensures var r := Dedup(items);
            forall j, k :: 0 <= j < k < |r| ==> r[j].location != r[k].location
  {
    DedupAt(items);
  }

  /** Every location of the input is still there. */
  lemma DedupKeepsLocations(items: seq<ContextItem>)
    ensures var r := Dedup(items);
            forall i :: 0 <= i < |items| ==> exists k :: 0 <= k < |r| && r[k].location == items[i].location
  {
    var p := FirstPositions(items);
    var r := Dedup(items);
    DedupAt(items);
    forall i | 0 <= i < |items| ensures exists k :: 0 <= k < |r| && r[k].location == items[i].location {
      var f := FindIndex(items, items[i].location);
      assert f in p;
      var k :| 0 <= k < |p| && p[k] == f;
      assert r[k].location == items[i].location;
    }
  }

  /** Each kept item is the first of the input with its location, and they
      come in the order of those first occurrences. */
  lemma DedupKeepsFirst(items: seq<ContextItem>)
    ensures var r := Dedup(items);
            (forall k :: 0 <= k < |r| ==> r[k] == items[FindIndex(items, r[k].location)])
            && (forall j, k :: 0 <= j < k < |r| ==> FindIndex(items, r[j].location) < FindIndex(items, r[k].location))
  {
    DedupAt(items);
  }

  // ---------------------------------------------------------------------
  // The whole step

  predicate HasChunks(items: seq<ContextItem>) {
    exists k :: 0 <= k < |items| && Contains(items[k].location, ChunkMarker)
  }

  /** The pipeline after the scores: select, reassemble when there are
      chunks, then `slice(0, criticalCount + 5)`. The last sort compares
      a field the items do not have; every comparison is `NaN`, which counts
      as equal, so the stable sort keeps the order and is left out here. */
  function Assemble(rows: seq<Row>, scored: seq<Scored>, chunkRows: seq<ChunkRow>, score: nat -> int): seq<ContextItem> {
    var items := Combined(rows, scored, score);
    var out := if HasChunks(items) then Dedup(ReassembleAll(items, chunkRows)) else items;
    Take(out, |CriticalIndices(rows)| + TopCount)
  }

  /** `filterAndSortContext` as written, with the self-comparing lookup:
      the step the pipeline runs. */
  function FilterAndSortContextAsWritten(rows: seq<Row>, scored: seq<Scored>, chunkRows: seq<ChunkRow>): (r: seq<ContextItem>)
    ensures |r| <= |CriticalIndices(rows)| + TopCount
  {
    var score := (i: nat) => FirstEntryScore(scored);
    AssembleShape(rows, scored, chunkRows, score);
    Assemble(rows, scored, chunkRows, score)
  }

  /** The step with each row's own score. */
  function FilterAndSortContext(rows: seq<Row>, scored: seq<Scored>, chunkRows: seq<ChunkRow>): (r: seq<ContextItem>)
    ensures |r| <= |CriticalIndices(rows)| + TopCount
  {
    var score := (i: nat) => ScoreOf(scored, i);
    AssembleShape(rows, scored, chunkRows, score);
    Assemble(rows, scored, chunkRows, score)
  }

  /** The final slice never cuts: there are at most the critical rows and
      five others. Without chunks the result is the selection itself; with
      chunks it is the reassembled selection without repeated locations. */
  lemma AssembleShape(rows: seq<Row>, scored: seq<Scored>, chunkRows: seq<ChunkRow>, score: nat -> int)
    ensures var items := Combined(rows, scored, score);
            var r := Assemble(rows, scored, chunkRows, score);
            |r| <= |CriticalIndices(rows)| + TopCount
            && (!HasChunks(items) ==> r == items)
            && (HasChunks(items) ==> r == Dedup(ReassembleAll(items, chunkRows)))
  {
  }

  /** With chunks, no two results share a location. */
  lemma AssembledLocationsDistinct(rows: seq<Row>, scored: seq<Scored>, chunkRows: seq<ChunkRow>, score: nat -> int)
    requires HasChunks(Combined(rows, scored, score))
    ensures var r := Assemble(rows, scored, chunkRows, score);
            forall j, k :: 0 <= j < k < |r| ==> r[j].location != r[k].location
  {
    DedupDistinct(ReassembleAll(Combined(rows, scored, score), chunkRows));
  }

  /** The lookup as written gives every non-critical item the first entry's
      score. */
  lemma AsWrittenScoresAlike(rows: seq<Row>, scored: seq<Scored>)
    ensures var items := Combined(rows, scored, (i: nat) => FirstEntryScore(scored));
            forall k :: |CriticalIndices(rows)| <= k < |items| ==> items[k].score == FirstEntryScore(scored)
  {
    var score := (i: nat) => FirstEntryScore(scored);
    CombinedShape(rows, scored, score);
  }

  /** Every item carries score `a` or score `b`. */
  predicate ScoredEither(items: seq<ContextItem>, a: int, b: int) {
    forall k :: 0 <= k < |items| ==> items[k].score == a || items[k].score == b
  }

  /** With a constant lookup `v`, the items are scored 10 or `v`. */
  lemma CombinedScoredEither(rows: seq<Row>, scored: seq<Scored>, score: nat -> int, v: int)
    requires forall i :: score(i) == v
    ensures ScoredEither(Combined(rows, scored, score), CriticalScore, v)
  {
    var items := Combined(rows, scored, score);
    var c := CriticalIndices(rows);
    var p := Picked(SelectedIndices(rows, scored), |rows|);
    CombinedShape(rows, scored, score);
    forall k | 0 <= k < |items|
      ensures items[k].score == CriticalScore || items[k].score == v
    {
      if k >= |c| {
        assert items[|c| + (k - |c|)] == Item(rows[p[k - |c|]], score(p[k - |c|]));
      }
    }
  }

  /** Reassembly and de-duplication keep each item's score. */
  lemma DedupReassembledScoredEither(items: seq<ContextItem>, chunkRows: seq<ChunkRow>, a: int, b: int)
    requires ScoredEither(items, a, b)
    ensures ScoredEither(Dedup(ReassembleAll(items, chunkRows)), a, b)
  {
    var re := ReassembleAll(items, chunkRows);
    assert forall k :: 0 <= k < |re| ==> re[k].score == items[k].score;
    DedupAt(re);
  }

  /** As written, every item the step returns carries either the critical
      score 10 or the score of the first entry of the scores list, whatever
      the chunk reassembly does. */
  lemma AsWrittenContextScores(rows: seq<Row>, scored: seq<Scored>, chunkRows: seq<ChunkRow>)
    ensures var r := FilterAndSortContextAsWritten(rows, scored, chunkRows);
            forall k :: 0 <= k < |r| ==> r[k].score == CriticalScore || r[k].score == FirstEntryScore(scored)
  {
    var score := (i: nat) => FirstEntryScore(scored);
    var items := Combined(rows, scored, score);
    CombinedScoredEither(rows, scored, score, FirstEntryScore(scored));
    AssembleShape(rows, scored, chunkRows, score);
    if HasChunks(items) {
      DedupReassembledScoredEither(items, chunkRows, CriticalScore, FirstEntryScore(scored));
    }
  }

  /** One critical row and one scored 7: as written the second item is
      reported with the critical row's 10, corrected with its own 7. */
  lemma AsWrittenMisreportsScore()
    ensures var rows := [Row("a", "x", "", "", "", "", 0.1, true), Row("b", "y", "", "", "", "", 0.2, false)];
            var scored := [Scored(10, 0), Scored(7, 1)];
            var asWritten := FilterAndSortContextAsWritten(rows, scored, []);
            var corrected := FilterAndSortContext(rows, scored, []);
            |asWritten| == 2 && asWritten[1].score == 10
            && |corrected| == 2 && corrected[1].score == 7
  {
    var rows := [Row("a", "x", "", "", "", "", 0.1, true), Row("b", "y", "", "", "", "", 0.2, false)];
    var scored := [Scored(10, 0), Scored(7, 1)];
    ExampleSelection(rows, scored);
    ExampleAsWritten(rows, scored);
    ExampleCorrected(rows, scored);
  }

  lemma ExampleAsWritten(rows: seq<Row>, scored: seq<Scored>)
    requires |rows| == 2 && rows[0].location == "" && rows[1].location == ""
    requires CriticalIndices(rows) == [0] && SelectedIndices(rows, scored) == [1]
    requires scored == [Scored(10, 0), Scored(7, 1)]
    ensures var r := FilterAndSortContextAsWritten(rows, scored, []);
            |r| == 2 && r[1].score == 10
  {
    var score := (i: nat) => FirstEntryScore(scored);
    ExampleAssembly(rows, scored, score);
    assert score(1) == 10;
  }

  lemma ExampleCorrected(rows: seq<Row>, scored: seq<Scored>)
    requires |rows| == 2 && rows[0].location == "" && rows[1].location == ""
    requires CriticalIndices(rows) == [0] && SelectedIndices(rows, scored) == [1]
    requires scored == [Scored(10, 0), Scored(7, 1)]
    ensures var r := FilterAndSortContext(rows, scored, []);
            |r| == 2 && r[1].score == 7
  {
    var score := (i: nat) => ScoreOf(scored, i);
    assert FilterAndSortContext(rows, scored, []) == Assemble(rows, scored, [], score);
    ExampleAssembly(rows, scored, score);
    ExampleScore(scored);
  }

  lemma ExampleScore(scored: seq<Scored>)
    requires scored == [Scored(10, 0), Scored(7, 1)]
    ensures ScoreOf(scored, 1) == 7
  {
    assert scored[1..] == [Scored(7, 1)];
  }

  lemma ExampleSelection(rows: seq<Row>, scored: seq<Scored>)
    requires rows == [Row("a", "x", "", "", "", "", 0.1, true), Row("b", "y", "", "", "", "", 0.2, false)]
    requires scored == [Scored(10, 0), Scored(7, 1)]
    ensures CriticalIndices(rows) == [0]
    ensures SelectedIndices(rows, scored) == [1]
  {
    ExampleIndices(rows);
    ExampleTop(rows, scored);
    FilterCons(Scored(7, 1), [], (s: Scored) => s.score >= MinRelevance);
  }

  lemma ExampleTop(rows: seq<Row>, scored: seq<Scored>)
    requires NonCriticalIndices(rows) == [1]
    requires scored == [Scored(10, 0), Scored(7, 1)]
    ensures Top(rows, scored) == [Scored(7, 1)]
  {
    var keep := (s: Scored) => s.index in NonCriticalIndices(rows);
    FilterCons(Scored(10, 0), [Scored(7, 1)], keep);
    FilterCons(Scored(7, 1), [], keep);
    var top := [Scored(7, 1)];
    assert Candidates(rows, scored) == top;
    assert SortBy(top, ByScoreDescending) == top;
  }

  lemma ExampleIndices(rows: seq<Row>)
    requires rows == [Row("a", "x", "", "", "", "", 0.1, true), Row("b", "y", "", "", "", "", 0.2, false)]
    ensures CriticalIndices(rows) == [0] && NonCriticalIndices(rows) == [1]
  {
    var front := rows[..1];
    assert front[..0] == [];
    assert IndicesWhere(front, true) == [0];
    assert IndicesWhere(front, false) == [];
  }

  lemma ExampleAssembly(rows: seq<Row>, scored: seq<Scored>, score: nat -> int)
    requires |rows| == 2 && rows[0].location == "" && rows[1].location == ""
    requires CriticalIndices(rows) == [0]
    requires SelectedIndices(rows, scored) == [1]
    ensures var r := Assemble(rows, scored, [], score);
            |r| == 2 && r[1].score == score(1)
  {
    ExampleItems(rows, scored, score);
    ExampleNoChunks(rows, scored, score);
    AssembleShape(rows, scored, [], score);
  }

  lemma ExampleNoChunks(rows: seq<Row>, scored: seq<Scored>, score: nat -> int)
    requires |rows| == 2 && rows[0].location == "" && rows[1].location == ""
    requires CriticalIndices(rows) == [0]
    requires SelectedIndices(rows, scored) == [1]
    ensures !HasChunks(Combined(rows, scored, score))
  {
    ExampleItems(rows, scored, score);
    WithoutLocations(Combined(rows, scored, score));
  }

  lemma WithoutLocations(items: seq<ContextItem>)
    requires forall k :: 0 <= k < |items| ==> items[k].location == ""
    ensures !HasChunks(items)
  {
    assert !Contains("", ChunkMarker);
  }

  lemma ExampleItems(rows: seq<Row>, scored: seq<Scored>, score: nat -> int)
    requires |rows| == 2 && rows[0].location == "" && rows[1].location == ""
    requires CriticalIndices(rows) == [0]
    requires SelectedIndices(rows, scored) == [1]
    ensures var items := Combined(rows, scored, score);
            |items| == 2 && items[0].location == "" && items[1].location == "" && items[1].score == score(1)
  {
    ExamplePicked(SelectedIndices(rows, scored));
    CombinedShape(rows, scored, score);
  }

  lemma ExamplePicked(sel: seq<nat>)
    requires sel == [1]
    ensures Picked(sel, 2) == [1]
  {
    assert Picked(sel, 0) == [];
    assert Picked(sel, 1) == [];
  }
}
