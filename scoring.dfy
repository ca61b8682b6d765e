/** `scoreEmbeddings`: critical rows get the top score, the others are rated
    by the scoring model five at a time. The model's replies are inputs:
    `replies[b]` lists the replies the retry wrapper obtained for batch `b`,
    in order (`None` is a reply without content). */
module Scoring {
  import opened Wrappers
  import opened Text
  import opened Numbers
  import opened Types
  import opened Batching

  const BatchSize: nat := 5
  const CriticalScore: int := 10

  /** `{ score, index }`: a score for the row at `index` of the input. */
  datatype Scored = Scored(score: int, index: nat)

  /** A message around the question, as the conversation passes it. */
  datatype Message = Message(content: string, author: string, isReplyTo: bool)

  predicate IsScore(v: int) {
    0 <= v <= 10
  }

  // ---------------------------------------------------------------------
  // Prompt text

  /** `${author}: ${content}` with ` (replied to)` for the message replied to. */
  function MessageLine(m: Message): string {
    m.author + ": " + m.content + (if m.isReplyTo then " (replied to)" else "")
  }

  const ContextHeader: string := "\n\nConversation Context:\n"

  /** The conversation context appended to every item of a batch prompt.
      Only an absent list gives the empty string: an empty list is truthy
      and still yields the header. */
  function ConversationContext(messages: Option<seq<Message>>): string {
    match messages
    case None => ""
    case Some(ms) => ContextHeader + Join(seq(|ms|, k requires 0 <= k < |ms| => MessageLine(ms[k])), "\n")
  }

  /** The label in front of the `number`-th item of a batch prompt. */
  function ItemLabel(number: nat, content: string): string {
    "Context " + NatToString(number) + ":\n" + content
  }

  /** One item: the label, the row's content, the question and the context. */
  function PromptItem(number: nat, content: string, question: string, context: string): string {
    ItemLabel(number, content) + "\n\nQuestion: \"" + question + "\"" + context + "\nRate 0-10:"
  }

  /** The user message sent for one batch: its items, numbered from 1, joined
      by blank lines. */
  function BatchPrompt(contents: seq<string>, question: string, context: string): string {
    Join(seq(|contents|, k requires 0 <= k < |contents| => PromptItem(k + 1, contents[k], question, context)), "\n\n")
  }

  /** The context lists the messages one per line after its header, as long
      as no message spans several lines. */
  lemma ContextLines(ms: seq<Message>)
    requires |ms| >= 1
    requires forall k :: 0 <= k < |ms| ==> '\n' !in MessageLine(ms[k])
    ensures StartsWith(ConversationContext(Some(ms)), ContextHeader)
    ensures Split(ConversationContext(Some(ms))[|ContextHeader|..], '\n')
            == seq(|ms|, k requires 0 <= k < |ms| => MessageLine(ms[k]))
  {
    var lines := seq(|ms|, k requires 0 <= k < |ms| => MessageLine(ms[k]));
    var body := Join(lines, "\n");
    assert ConversationContext(Some(ms)) == ContextHeader + body;
    assert (ContextHeader + body)[|ContextHeader|..] == body;
    SplitJoin(lines, '\n');
  }

  /** Every row of a batch appears in its prompt, labelled with its 1-based
      position in the batch. */
  lemma PromptNamesEveryItem(contents: seq<string>, question: string, context: string, k: nat)
    requires k < |contents|
    ensures Contains(BatchPrompt(contents, question, context), ItemLabel(k + 1, contents[k]))
  {
    var items := seq(|contents|, j requires 0 <= j < |contents| => PromptItem(j + 1, contents[j], question, context));
    var heading := ItemLabel(k + 1, contents[k]);
    var tail := "\n\nQuestion: \"" + question + "\"" + context + "\nRate 0-10:";
    assert items[k] == heading + tail;
    JoinContainsPrefix(items, "\n\n", k, heading, tail);
  }

  // ---------------------------------------------------------------------
  // Reading a reply

  /** `parseInt(token.trim())`, `None` for `NaN`. */
  function Reading(token: string): Option<int> {
    ParseInt(Trim(token))
  }

  /** The readings the filter keeps: numbers from 0 to 10, in order. */
  function Kept(readings: seq<Option<int>>): (r: seq<int>)
    ensures |r| <= |readings|
    ensures forall k :: 0 <= k < |r| ==> IsScore(r[k])
  {
    if readings == [] then []
    else
      var p := readings[0];
      (if p.Some? && IsScore(p.value) then [p.value] else []) + Kept(readings[1..])
  }

  /** `content.split(",").map(s => parseInt(s.trim())).filter(...)`. */
  function ReplyScores(reply: string): (r: seq<int>)
  {
    var tokens := Split(reply, ',');
    Kept(seq(|tokens|, k requires 0 <= k < |tokens| => Reading(tokens[k])))
  }

  /** A value is kept exactly when some token reads as it and it is a score. */
  lemma {:induction false} KeptMembership(readings: seq<Option<int>>, v: int)
    ensures v in Kept(readings) <==> exists k :: 0 <= k < |readings| && readings[k] == Some(v) && IsScore(v)
    decreases |readings|
  {
    if readings != [] {
      var tail := readings[1..];
      KeptMembership(tail, v);
      if v in Kept(tail) {
        var k :| 0 <= k < |tail| && tail[k] == Some(v) && IsScore(v);
        assert readings[k + 1] == tail[k];
      }
      if exists k :: 0 <= k < |readings| && readings[k] == Some(v) && IsScore(v) {
        var k :| 0 <= k < |readings| && readings[k] == Some(v) && IsScore(v);
        if k > 0 {
          assert tail[k - 1] == readings[k];
        }
      }
    }
  }

  /** Kept values keep their order: the filter only drops. */
  lemma {:induction false} KeptAppend(a: seq<Option<int>>, b: seq<Option<int>>)
    ensures Kept(a + b) == Kept(a) + Kept(b)
    decreases |a|
  {
    if a == [] {
      assert a + b == b;
    } else {
      assert (a + b)[1..] == a[1..] + b;
      KeptAppend(a[1..], b);
    }
  }

  /** One score in decimal. */
  function ScoreText(v: int): string {
    NatToString(if v < 0 then 0 else v)
  }

  /** Scores written as the scoring instructions ask (`0,3,7,0,4`). */
  function RenderScores(scores: seq<int>): string
    requires forall k :: 0 <= k < |scores| ==> IsScore(scores[k])
  {
    Join(seq(|scores|, k requires 0 <= k < |scores| => ScoreText(scores[k])), ",")
  }

  /** A number in its decimal form reads as itself. */
  lemma ReadingNatToString(v: nat)
    ensures Reading(NatToString(v)) == Some(v as int)
  {
    var d := NatToString(v);
    DigitNotSpace(d[0]);
    DigitNotSpace(d[|d| - 1]);
    assert TrimStart(d) == d;
    assert TrimEnd(d) == d;
    ParseIntNatToString("", "", v, "");
    assert "" + "" + d + "" == d;
  }

  lemma DigitNotSpace(c: char)
    requires IsDigit(c)
    ensures !IsJsSpace(c)
  {
  }

  lemma {:induction false} KeepRendered(readings: seq<Option<int>>, scores: seq<int>)
    requires |readings| == |scores|
    requires forall k :: 0 <= k < |scores| ==> IsScore(scores[k]) && readings[k] == Some(scores[k])
    ensures Kept(readings) == scores
    decreases |readings|
  {
    if readings != [] {
      KeepRendered(readings[1..], scores[1..]);
      assert scores == [scores[0]] + scores[1..];
    }
  }

  /** A reply in the requested format reads back as the scores it lists. */
  lemma ReplyScoresRender(scores: seq<int>)
    requires forall k :: 0 <= k < |scores| ==> IsScore(scores[k])
    ensures ReplyScores(RenderScores(scores)) == scores
  {
    var parts := seq(|scores|, k requires 0 <= k < |scores| => ScoreText(scores[k]));
    if scores == [] {
      assert RenderScores(scores) == "";
      assert ParseInt(Trim("")) == None;
    } else {
      assert RenderScores(scores) == Join(parts, ",");
      SplitJoin(parts, ',');
      ReadParts(parts, scores);
    }
  }

  /** The decimal forms of the scores read back as the scores. */
  lemma ReadParts(parts: seq<string>, scores: seq<int>)
    requires |parts| == |scores|
    requires forall k :: 0 <= k < |scores| ==> IsScore(scores[k]) && parts[k] == ScoreText(scores[k])
    ensures Kept(seq(|parts|, k requires 0 <= k < |parts| => Reading(parts[k]))) == scores
  {
    var readings := seq(|parts|, k requires 0 <= k < |parts| => Reading(parts[k]));
    forall k | 0 <= k < |scores| ensures readings[k] == Some(scores[k]) {
      assert parts[k] == NatToString(scores[k]);
      ReadingNatToString(scores[k]);
    }
    KeepRendered(readings, scores);
  }

  // ---------------------------------------------------------------------
  // One batch under the retry wrapper

  /** What one attempt yields: the kept scores of the reply, `None` for a
      reply without content. */
  function Parsed(reply: Option<string>): Option<seq<int>> {
    match reply
    case None => None
    case Some(text) => Some(ReplyScores(text))
  }

  /** Whether an attempt is accepted for a batch of `size` rows; otherwise
      it throws and pushes nothing. */
  predicate Fits(parsed: Option<seq<int>>, size: nat) {
    parsed.Some? && |parsed.value| == size
  }

  /** Every score of every attempt lies between 0 and 10. */
  predicate AllScores(parsed: seq<Option<seq<int>>>) {
    forall k, j :: 0 <= k < |parsed| && parsed[k].Some? && 0 <= j < |parsed[k].value| ==> IsScore(parsed[k].value[j])
  }

  /** The scores the retry wrapper settles on for a batch of `size` rows:
      the first attempt that fits; `None` when it ran out of attempts (it
      then rethrows and scoring fails). */
  function FirstFit(parsed: seq<Option<seq<int>>>, size: nat): (r: Option<seq<int>>)
    ensures r.Some? ==> |r.value| == size
    ensures r.Some? && AllScores(parsed) ==> forall j :: 0 <= j < size ==> IsScore(r.value[j])
  {
    if parsed == [] then None
    else if Fits(parsed[0], size) then parsed[0]
    else FirstFit(parsed[1..], size)
  }

  predicate NoneFits(parsed: seq<Option<seq<int>>>, size: nat) {
    forall k :: 0 <= k < |parsed| ==> !Fits(parsed[k], size)
  }

  /** A batch succeeds exactly when some attempt fits, and then it takes the
      first attempt that fits. */
  lemma {:induction false} FirstFitIsFirst(parsed: seq<Option<seq<int>>>, size: nat)
    ensures FirstFit(parsed, size).None? <==> NoneFits(parsed, size)
    ensures FirstFit(parsed, size).Some? ==>
              exists k :: 0 <= k < |parsed| && Fits(parsed[k], size)
                && (forall j :: 0 <= j < k ==> !Fits(parsed[j], size))
                && FirstFit(parsed, size) == parsed[k]
    decreases |parsed|
  {
    if parsed != [] && !Fits(parsed[0], size) {
      var tail := parsed[1..];
      FirstFitIsFirst(tail, size);
      if FirstFit(tail, size).Some? {
        var k :| 0 <= k < |tail| && Fits(tail[k], size) && (forall j :: 0 <= j < k ==> !Fits(tail[j], size))
                 && FirstFit(tail, size) == tail[k];
        assert parsed[k + 1] == tail[k];
        forall j | 0 <= j < k + 1 ensures !Fits(parsed[j], size) {
          if j > 0 {
            assert parsed[j] == tail[j - 1];
          }
        }
      } else {
        forall k | 0 <= k < |parsed| ensures !Fits(parsed[k], size) {
          if k > 0 {
            assert parsed[k] == tail[k - 1];
          }
        }
      }
    }
  }

  // ---------------------------------------------------------------------
  // The specification of the whole scoring

  /** The indices of the rows whose `is_critical` flag is `critical`, ascending. */
  function IndicesWhere(rows: seq<Row>, critical: bool): (r: seq<nat>)
    ensures forall k :: 0 <= k < |r| ==> r[k] < |rows| && rows[r[k]].isCritical == critical
    ensures forall j, k :: 0 <= j < k < |r| ==> r[j] < r[k]
    ensures forall i :: 0 <= i < |rows| && rows[i].isCritical == critical ==> i in r
    decreases |rows|
  {
    if rows == [] then []
    else
      var front := rows[..|rows| - 1];
      var r := IndicesWhere(front, critical);
      assert forall k :: 0 <= k < |r| ==> rows[r[k]] == front[r[k]];
      r + (if rows[|rows| - 1].isCritical == critical then [|rows| - 1] else [])
  }

  function CriticalIndices(rows: seq<Row>): seq<nat> {
    IndicesWhere(rows, true)
  }

  function NonCriticalIndices(rows: seq<Row>): seq<nat> {
    IndicesWhere(rows, false)
  }

  /** `{score: 10, index}` for every critical row, in index order. */
  function CriticalScores(rows: seq<Row>): (r: seq<Scored>)
    ensures |r| == |CriticalIndices(rows)|
  {
    var c := CriticalIndices(rows);
    seq(|c|, k requires 0 <= k < |c| => Scored(CriticalScore, c[k]))
  }

  /** The replies of batch `b`, none when there are fewer lists. */
  function Attempts(replies: seq<seq<Option<string>>>, b: nat): seq<Option<string>> {
    if b < |replies| then replies[b] else []
  }

  /** What the attempts for batch `b` yield. */
  function ParsedAttempts(replies: seq<seq<Option<string>>>, b: nat): (r: seq<Option<seq<int>>>)
    ensures |r| == |Attempts(replies, b)|
    ensures AllScores(r)
  {
    var attempts := Attempts(replies, b);
    seq(|attempts|, k requires 0 <= k < |attempts| => Parsed(attempts[k]))
  }

  /** Pairs a batch's scores with the batch's row indices. */
  function Label(scores: seq<int>, batch: seq<nat>): (r: seq<Scored>)
    requires |scores| == |batch|
    ensures |r| == |batch|
    ensures forall k :: 0 <= k < |r| ==> r[k] == Scored(scores[k], batch[k])
  {
    seq(|batch|, k requires 0 <= k < |batch| => Scored(scores[k], batch[k]))
  }

  /** The scores of the batches `batches`, the first using the replies of batch `b`. */
  function ScoreBatches(batches: seq<seq<nat>>, replies: seq<seq<Option<string>>>, b: nat): (r: Option<seq<Scored>>)
    ensures r.Some? ==> |r.value| == |Concat(batches)|
    ensures r.Some? ==> forall k :: 0 <= k < |r.value| ==>
              r.value[k].index == Concat(batches)[k] && IsScore(r.value[k].score)
    decreases |batches|
  {
    if batches == [] then Some([])
    else
      match FirstFit(ParsedAttempts(replies, b), |batches[0]|)
      case None => None
      case Some(s) =>
        match ScoreBatches(batches[1..], replies, b + 1)
        case None => None
        case Some(more) => Some(Label(s, batches[0]) + more)
  }

  /** `acc` in front of a result, if there is one. */
  function Then(acc: seq<Scored>, r: Option<seq<Scored>>): Option<seq<Scored>> {
    match r
    case None => None
    case Some(more) => Some(acc + more)
  }

  /** What `scoreEmbeddings` returns (`None`: it throws). */
  function ScoreSpec(rows: seq<Row>, replies: seq<seq<Option<string>>>): Option<seq<Scored>> {
    Then(CriticalScores(rows), ScoreBatches(Chunks(NonCriticalIndices(rows), BatchSize), replies, 0))
  }

  function Min(a: nat, b: nat): nat {
    if a <= b then a else b
  }

  /** The first `forEach`: `{score: 10, index}` for each critical row. */
  method PushCritical(rows: seq<Row>) returns (results: seq<Scored>)
    ensures results == CriticalScores(rows)
  {
    results := [];
    for i := 0 to |rows|
      invariant results == CriticalScores(rows[..i])
    {
      assert rows[..i + 1][..i] == rows[..i];
      if rows[i].isCritical {
        results := results + [Scored(CriticalScore, i)];
      }
    }
    assert rows[..|rows|] == rows;
  }

  /** `scores.forEach(...)`: one push per row of the batch. */
  method PushBatch(results: seq<Scored>, scores: seq<int>, batch: seq<nat>) returns (out: seq<Scored>)
    requires |scores| == |batch|
    ensures out == results + Label(scores, batch)
  {
    out := results;
    for k := 0 to |batch|
      invariant out == results + Label(scores[..k], batch[..k])
    {
      out := out + [Scored(scores[k], batch[k])];
    }
    assert scores[..|batch|] == scores && batch[..|batch|] == batch;
  }

  /** One accepted batch moves its scores from the rest into the results. */
  lemma ThenStep(results: seq<Scored>, batch: seq<nat>, later: seq<seq<nat>>,
                 replies: seq<seq<Option<string>>>, b: nat, s: seq<int>)
    requires FirstFit(ParsedAttempts(replies, b), |batch|) == Some(s)
    ensures Then(results, ScoreBatches([batch] + later, replies, b))
            == Then(results + Label(s, batch), ScoreBatches(later, replies, b + 1))
  {
    assert ([batch] + later)[0] == batch && ([batch] + later)[1..] == later;
    match ScoreBatches(later, replies, b + 1)
    case None =>
    case Some(more) =>
      assert results + (Label(s, batch) + more) == results + Label(s, batch) + more;
  }

  /** `scoreEmbeddings`: first the critical rows, then each batch of five
      non-critical rows, pushing each score with the row's position in the
      input (`findIndex` by identity finds the row itself). */
  method ScoreEmbeddings(rows: seq<Row>, replies: seq<seq<Option<string>>>) returns (r: Option<seq<Scored>>)
    ensures r == ScoreSpec(rows, replies)
  {
    var results := PushCritical(rows);
    var nonCritical := NonCriticalIndices(rows);
    var i: nat := 0;
    var b: nat := 0;
    while i < |nonCritical|
      invariant Then(results, ScoreBatches(Chunks(nonCritical[Min(i, |nonCritical|)..], BatchSize), replies, b))
                == ScoreSpec(rows, replies)
      decreases |nonCritical| - i
    {
      var end := Min(i + BatchSize, |nonCritical|);
      var batch := nonCritical[i..end];
      var later := Chunks(nonCritical[end..], BatchSize);
      ChunksStep(nonCritical, i, BatchSize);
      assert Min(i, |nonCritical|) == i;
      assert Chunks(nonCritical[i..], BatchSize) == [batch] + later;
      var scores := FirstFit(ParsedAttempts(replies, b), |batch|);
      if scores.None? {
        assert ([batch] + later)[0] == batch;
        return None;
      }
      ThenStep(results, batch, later, replies, b, scores.value);
      results := PushBatch(results, scores.value, batch);
      i := i + BatchSize;
      b := b + 1;
      assert Min(i, |nonCritical|) == end;
    }
    assert nonCritical[Min(i, |nonCritical|)..] == [];
    assert results + [] == results;
    r := Some(results);
  }

  // ---------------------------------------------------------------------
  // What the specification promises

  /** The two index lists split the rows between them. */
  lemma {:induction false} IndicesPartition(rows: seq<Row>)
    ensures |CriticalIndices(rows)| + |NonCriticalIndices(rows)| == |rows|
    decreases |rows|
  {
    if rows != [] {
      IndicesPartition(rows[..|rows| - 1]);
    }
  }

  /** Batch `j` of `batches`, whose replies are those of batch `b + j`, gets
      no attempt that fits. */
  predicate BatchFailsAt(batches: seq<seq<nat>>, replies: seq<seq<Option<string>>>, b: nat, j: nat) {
    j < |batches| && FirstFit(ParsedAttempts(replies, b + j), |batches[j]|).None?
  }

  lemma BatchFailsShift(batches: seq<seq<nat>>, replies: seq<seq<Option<string>>>, b: nat, j: nat)
    requires batches != []
    ensures BatchFailsAt(batches[1..], replies, b + 1, j) == BatchFailsAt(batches, replies, b, j + 1)
  {
    if j < |batches[1..]| {
      assert batches[1..][j] == batches[j + 1];
      assert b + 1 + j == b + (j + 1);
    }
  }

  /** Scoring succeeds exactly when every batch gets a reply that fits. */
  lemma {:induction false} ScoreBatchesFails(batches: seq<seq<nat>>, replies: seq<seq<Option<string>>>, b: nat)
    ensures ScoreBatches(batches, replies, b).None? <==> exists j: nat :: BatchFailsAt(batches, replies, b, j)
    decreases |batches|
  {
    if batches != [] {
      var tail := batches[1..];
      var next := b + 1;
      ScoreBatchesFails(tail, replies, next);
      if exists j: nat :: BatchFailsAt(tail, replies, next, j) {
        var j: nat :| BatchFailsAt(tail, replies, next, j);
        BatchFailsShift(batches, replies, b, j);
      }
      if exists j: nat :: BatchFailsAt(batches, replies, b, j) {
        var j: nat :| BatchFailsAt(batches, replies, b, j);
        if j > 0 {
          BatchFailsShift(batches, replies, b, j - 1);
        } else {
          assert b + 0 == b;
        }
      }
      if FirstFit(ParsedAttempts(replies, b), |batches[0]|).None? {
        assert b + 0 == b;
        assert BatchFailsAt(batches, replies, b, 0);
      }
    }
  }

  /** `scoreEmbeddings` throws exactly when some batch of five non-critical
      rows gets no reply whose kept scores match the batch's length. */
  lemma ScoreFailsIff(rows: seq<Row>, replies: seq<seq<Option<string>>>)
    ensures ScoreSpec(rows, replies).None?
            <==> exists j: nat :: j < |Chunks(NonCriticalIndices(rows), BatchSize)|
                   && NoneFits(ParsedAttempts(replies, j), |Chunks(NonCriticalIndices(rows), BatchSize)[j]|)
  {
    var batches := Chunks(NonCriticalIndices(rows), BatchSize);
    ScoreBatchesFails(batches, replies, 0);
    forall j: nat | j < |batches|
      ensures BatchFailsAt(batches, replies, 0, j) <==> NoneFits(ParsedAttempts(replies, j), |batches[j]|)
    {
      assert 0 + j == j;
      FirstFitIsFirst(ParsedAttempts(replies, j), |batches[j]|);
    }
  }

  /** The row indices of a score list, in order. */
  function IndicesOf(r: seq<Scored>): (ix: seq<nat>)
    ensures |ix| == |r|
    ensures forall k :: 0 <= k < |r| ==> ix[k] == r[k].index
  {
    seq(|r|, k requires 0 <= k < |r| => r[k].index)
  }

  /** On success: the critical rows come first with score 10 in index order,
      then the non-critical rows in input order; every score is between 0
      and 10. */
  lemma ScoreSuccessShape(rows: seq<Row>, replies: seq<seq<Option<string>>>)
    requires ScoreSpec(rows, replies).Some?
    ensures var r := ScoreSpec(rows, replies).value;
            IndicesOf(r) == CriticalIndices(rows) + NonCriticalIndices(rows)
            && r[..|CriticalIndices(rows)|] == CriticalScores(rows)
            && forall k :: 0 <= k < |r| ==> IsScore(r[k].score)
  {
    var nc := NonCriticalIndices(rows);
    var c := CriticalScores(rows);
    var batches := Chunks(nc, BatchSize);
    ChunksConcat(nc, BatchSize);
    var more := ScoreBatches(batches, replies, 0).value;
    var r := c + more;
    assert r == ScoreSpec(rows, replies).value;
    assert r[..|c|] == c;
    IndicesAppend(c, more);
    assert IndicesOf(c) == CriticalIndices(rows);
    assert IndicesOf(more) == nc;
    forall k | 0 <= k < |r| ensures IsScore(r[k].score) {
      if k >= |c| {
        assert r[k] == more[k - |c|];
      }
    }
  }

  lemma IndicesAppend(a: seq<Scored>, b: seq<Scored>)
    ensures IndicesOf(a + b) == IndicesOf(a) + IndicesOf(b)
  {
  }

  /** The critical indices followed by the others name every row once. */
  lemma IndicesCoverOnce(rows: seq<Row>)
    ensures var ix := CriticalIndices(rows) + NonCriticalIndices(rows);
            |ix| == |rows|
            && (forall j, k :: 0 <= j < k < |ix| ==> ix[j] != ix[k])
            && (forall i :: 0 <= i < |rows| ==> i in ix)
  {
    IndicesPartition(rows);
    var c := CriticalIndices(rows);
    var nc := NonCriticalIndices(rows);
    var ix := c + nc;
    forall j, k | 0 <= j < k < |ix| ensures ix[j] != ix[k] {
      if k < |c| {
        assert ix[j] == c[j] && ix[k] == c[k];
      } else if j >= |c| {
        assert ix[j] == nc[j - |c|] && ix[k] == nc[k - |c|];
      } else {
        assert ix[j] == c[j] && ix[k] == nc[k - |c|];
        assert rows[ix[j]].isCritical && !rows[ix[k]].isCritical;
      }
    }
    forall i | 0 <= i < |rows| ensures i in ix {
      if rows[i].isCritical {
        assert i in c;
      } else {
        assert i in nc;
      }
    }
  }

  /** On success every row's index occurs exactly once: there are as many
      scores as rows, their indices are pairwise different and each row has
      one. */
  lemma ScoreEachIndexOnce(rows: seq<Row>, replies: seq<seq<Option<string>>>)
    requires ScoreSpec(rows, replies).Some?
    ensures var ix := IndicesOf(ScoreSpec(rows, replies).value);
            |ix| == |rows|
            && (forall j, k :: 0 <= j < k < |ix| ==> ix[j] != ix[k])
            && (forall i :: 0 <= i < |rows| ==> i in ix)
  {
    ScoreSuccessShape(rows, replies);
    IndicesCoverOnce(rows);
  }
}
