/** `POST /conversation`: the checks on the request body, and the loop
    that writes the answer stream to the client and stores the assistant's
    messages. */
module ConversationRoute {
  import opened Wrappers
  import opened Text
  import opened Types
  import Generator

  const InvalidType := "Invalid type. Must be either 'general' or 'agent'."
  const QuestionRequired := "question is required."
  const TeamNotFound := "Team not found"
  const InternalError := "Internal server error"

  /** The fields of the body the checks read; `None` is a missing field. */
  datatype Body = Body(question: Option<string>, kind: Option<string>, instance: Option<string>)

  /** The outcome of the checks: the request to answer, or the status and
      message of the refusal. */
  datatype Validation =
    | Accepted(question: string, promptType: PromptType, instance: Option<string>)
    | Rejected(status: nat, message: string)

  /** `type` defaults to `"general"`; only `"general"` and `"agent"` pass,
      and the type is checked before the question. A truthy `instance` is
      lower-cased. */
  function Validate(body: Body): (v: Validation)
  {
    var instance := if body.instance.Some? && body.instance.value != "" then Some(ToLower(body.instance.value)) else body.instance;
    var kind := body.kind.GetOr("general");
    if kind != "general" && kind != "agent" then Rejected(400, InvalidType)
    else if OrElse(body.question, "") == "" then Rejected(400, QuestionRequired)
    else Accepted(body.question.value, if kind == "agent" then Agent else General, instance)
  }

  /** A request is accepted exactly when its type is general or agent and it
      has a question; a bad type is reported whatever the question; the
      accepted request carries the question, the type and the lower-cased
      instance. */
  lemma ValidateSpec(body: Body)
    ensures var kind := body.kind.GetOr("general");
            var v := Validate(body);
            (v.Accepted? <==> (kind == "general" || kind == "agent") && body.question.Some? && body.question.value != "")
            && (kind != "general" && kind != "agent" ==> v == Rejected(400, InvalidType))
            && (v.Accepted? ==>
                  v.question == body.question.value
                  && v.promptType.Name() == kind
                  && (body.instance.Some? && body.instance.value != "" ==> v.instance == Some(ToLower(body.instance.value)))
                  && (body.instance.None? || body.instance.value == "" ==> v.instance == body.instance))
  {
  }

  /** Code mode is not offered here, whatever else the body holds. */
  lemma CodeRejected(question: Option<string>, instance: Option<string>)
    ensures Validate(Body(question, Some("code"), instance)) == Rejected(400, InvalidType)
  {
  }

  /** The instance is lower-cased once: lower-casing it again changes
      nothing. */
  lemma InstanceLowered(body: Body)
    requires Validate(body).Accepted? && Validate(body).instance.Some?
    ensures ToLower(Validate(body).instance.value) == Validate(body).instance.value
  {
    ToLowerIdempotent(OrElse(body.instance, ""));
  }

  /** The `catch` of the handler: the missing team is a 404, anything else
      a 500. */
  function FailureReply(message: string): (r: Validation)
    ensures r.Rejected? && (r.status == 404 <==> message == TeamNotFound)
    ensures r.status == 404 ==> r.message == TeamNotFound
    ensures r.status != 404 ==> r == Rejected(500, InternalError)
  {
    if message == TeamNotFound then Rejected(404, TeamNotFound) else Rejected(500, InternalError)
  }

  /** Every failure other than the missing team gets the same reply: the
      client never sees the underlying message. */
  lemma FailureReplyHidesDetails(m1: string, m2: string)
    requires m1 != TeamNotFound && m2 != TeamNotFound
    ensures FailureReply(m1) == FailureReply(m2) && FailureReply(m1).status == 500
  {
  }

  // ---------------------------------------------------------------------
  // The consumer loop

  /** What goes to the client: the session frame, then the records. */
  datatype Frame = SessionFrame(sessionId: string) | RecordFrame(record: ChatResponse)

  /** `response.error` is truthy. */
  predicate HasError(r: ChatResponse) {
    r.error.Some? && r.error.value != ""
  }

  /** The position of the first record with an error, or the length. */
  function FirstError(records: seq<ChatResponse>): (n: nat)
    ensures n <= |records|
    ensures n < |records| ==> HasError(records[n])
    ensures forall j :: 0 <= j < n ==> !HasError(records[j])
  {
    if records == [] then 0
    else if HasError(records[0]) then 0
    else
      var n := FirstError(records[1..]);
      assert forall j :: 1 <= j < |records| ==> records[1..][j - 1] == records[j];
      n + 1
  }

  /** The records written: all of them up to and including the first with
      an error. */
  function Delivered(records: seq<ChatResponse>): seq<ChatResponse> {
    var n := FirstError(records);
    if n < |records| then records[..n + 1] else records
  }

  function RecordFrames(records: seq<ChatResponse>): (r: seq<Frame>)
    ensures |r| == |records|
    ensures forall k :: 0 <= k < |r| ==> r[k] == RecordFrame(records[k])
  {
    seq(|records|, k requires 0 <= k < |records| => RecordFrame(records[k]))
  }

  /** The non-empty contents of a list of records, in order. */
  function Contents(records: seq<ChatResponse>): (r: seq<string>)
    ensures forall k :: 0 <= k < |r| ==> r[k] != ""
    ensures |r| <= |records|
  {
    if records == [] then []
    else
      var last := records[|records| - 1];
      Contents(records[..|records| - 1]) + (if last.content != "" then [last.content] else [])
  }

  /** The assistant messages stored: the non-empty contents of the records
      before the first with an error. */
  function Persisted(records: seq<ChatResponse>): seq<string> {
    Contents(records[..FirstError(records)])
  }

  /** The `for await` loop: write every record, stop right after the first
      with an error, store each other record's non-empty content. */
  method Consume(sessionId: string, records: seq<ChatResponse>) returns (frames: seq<Frame>, persisted: seq<string>)
    ensures frames == [SessionFrame(sessionId)] + RecordFrames(Delivered(records))
    ensures persisted == Persisted(records)
  {
    frames := [SessionFrame(sessionId)];
    persisted := [];
    var stop := FirstError(records);
    var i := 0;
    while i < |records|
      invariant i <= stop
      invariant frames == [SessionFrame(sessionId)] + RecordFrames(records[..i])
      invariant persisted == Contents(records[..i])
    {
      var response := records[i];
      frames := frames + [RecordFrame(response)];
      if HasError(response) {
        assert records[..i + 1] == Delivered(records);
        assert records[..i] == records[..stop];
        return;
      }
      if response.content != "" {
        persisted := persisted + [response.content];
      }
      assert records[..i + 1][..i] == records[..i];
      i := i + 1;
    }
    assert records[..i] == records;
  }

  /** Nothing after the first error reaches the client: the delivered
      records are a prefix of the stream, only their last may carry an
      error, and they are the whole stream when none does. */
  lemma DeliveredSpec(records: seq<ChatResponse>)
    ensures var d := Delivered(records);
            d == records[..|d|]
            && (forall k :: 0 <= k < |d| - 1 ==> !HasError(d[k]))
            && (|d| < |records| ==> HasError(d[|d| - 1]))
            && ((forall k :: 0 <= k < |records| ==> !HasError(records[k])) ==> d == records)
  {
  }

  /** Every stored message is the non-empty content of one of the records:
      `done` records, which carry no content, are never stored. */
  lemma {:induction false} ContentsFrom(records: seq<ChatResponse>, k: nat)
    requires k < |Contents(records)|
    ensures exists j :: 0 <= j < |records| && records[j].content == Contents(records)[k] && records[j].content != ""
    decreases |records|
  {
    var front := records[..|records| - 1];
    if k < |Contents(front)| {
      ContentsFrom(front, k);
      var j :| 0 <= j < |front| && front[j].content == Contents(front)[k] && front[j].content != "";
      assert records[j] == front[j];
    } else {
      assert Contents(records)[k] == records[|records| - 1].content;
    }
  }

  /** What a full stream of contents and one `done` record stores: exactly
      the non-empty chunks. */
  lemma {:induction false} ContentsOfChunks(chunks: seq<string>)
    ensures Contents(Generator.ContentRecords(chunks) + [DoneRecord]) == NonEmpty(chunks)
    decreases |chunks|
  {
    var r := Generator.ContentRecords(chunks) + [DoneRecord];
    assert r[..|r| - 1] == Generator.ContentRecords(chunks);
    ContentsOfRecords(chunks);
  }

  lemma {:induction false} ContentsOfRecords(chunks: seq<string>)
    ensures Contents(Generator.ContentRecords(chunks)) == NonEmpty(chunks)
    decreases |chunks|
  {
    if chunks != [] {
      var front := chunks[..|chunks| - 1];
      assert Generator.ContentRecords(chunks)[..|chunks| - 1] == Generator.ContentRecords(front);
      ContentsOfRecords(front);
    }
  }

  function NonEmpty(chunks: seq<string>): seq<string> {
    if chunks == [] then []
    else
      var last := chunks[|chunks| - 1];
      NonEmpty(chunks[..|chunks| - 1]) + (if last != "" then [last] else [])
  }

  /** Served to the route, a failed read of the answer cache ends the
      response: the client gets the session frame and the cache error, and
      nothing is stored. */
  lemma CacheErrorEndsResponse(sessionId: string, req: Generator.Request, w: Generator.World)
    requires req.question.Some?
    requires w.answerRead.GetFails? || (DeploymentId(req.env) != "local" && w.answerRead.Garbled?)
    ensures var records := Generator.Conversation(req, w).records;
            Delivered(records) == [ErrorRecord(Generator.CacheErrorOccurred)]
            && Persisted(records) == []
  {
    Generator.CacheErrorContinues(req, w);
    var records := Generator.Conversation(req, w).records;
    assert HasError(records[0]);
    assert records[..0] == [];
  }

  /** Served to the route, a live answer that streams to the end reaches the
      client whole, and every non-empty chunk is stored once, in order. */
  lemma LiveAnswerDelivered(sessionId: string, req: Generator.Request, w: Generator.World)
    requires req.question.Some? && w.answerRead == Generator.Absent
    requires Generator.AgentOf(req, w).Some? && !w.streamFails
    requires var a := Generator.AgentOf(req, w).value;
             Generator.FindRelevantContext(DeploymentId(req.env), req.question.value, req.team.name, req.promptType,
                                           a.agentId, a.txs, w.contextRead, w.store, w.replies).result.Some?
    ensures var records := Generator.Conversation(req, w).records;
            Delivered(records) == Generator.ContentRecords(w.stream) + [DoneRecord]
            && Persisted(records) == NonEmpty(w.stream)
  {
    Generator.LiveSuccessPath(req, w);
    var records := Generator.Conversation(req, w).records;
    assert records == records[0..];
    DeliveredWhole(w.stream);
  }

  /** A stream of contents and one `done` record reaches the client whole
      and stores its non-empty chunks. */
  lemma DeliveredWhole(chunks: seq<string>)
    ensures var records := Generator.ContentRecords(chunks) + [DoneRecord];
            Delivered(records) == records && Persisted(records) == NonEmpty(chunks)
  {
    var records := Generator.ContentRecords(chunks) + [DoneRecord];
    assert forall k :: 0 <= k < |records| ==> !HasError(records[k]);
    assert FirstError(records) == |records|;
    assert records[..|records|] == records;
    ContentsOfChunks(chunks);
  }
}
