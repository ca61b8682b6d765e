/** `findRelevantContext` and `generateConversationResponse`: the context
    lookup with its cache, and the stream of `ChatResponse` records an
    answer produces. The store's rows, the scorer's replies, the cache's
    answers and the answer model's chunks are inputs. */
module Generator {
  import opened Wrappers
  import opened Types
  import opened CacheKeys
  import opened Retrieval
  import opened Scoring
  import opened Assembly

  const CacheErrorOccurred := "Cache error occurred"
  const StreamingFailed := "Streaming failed"
  const GenerateFailed := "Failed to generate response"

  /** What the store answers for one request. `matches` are the team's
      `adev` rows with their distances to the question; the code-mode
      queries and the chunk query have their own rows. */
  datatype Store = Store(
    matches: seq<Row>,
    agentQueryFails: bool,
    commandsRead: CacheRead<seq<Row>>,
    criticalDocs: seq<Row>,
    adevDocs: seq<Row>,
    chunkRows: seq<ChunkRow>)

  /** The outcome of the context lookup: the context (`None` when it
      throws) and the cache writes it attempts, in order. */
  datatype ContextLookup = ContextLookup(result: Option<seq<ContextItem>>, writes: seq<CacheWrite>)

  /** The rows each prompt type retrieves, and the write of the code-mode
      command cache. General and agent rows carry no `is_critical`. */
  function Retrieved(deployment: string, teamName: string, promptType: PromptType, question: string,
                     agentId: Option<string>, txs: seq<AgentTx>, store: Store): (r: (seq<Row>, seq<CacheWrite>))
    ensures forall k :: 0 <= k < |r.1| ==> r.1[k] == CacheWrite(CommandsKey(teamName), RowsValue(r.0), CommandsCacheTtl)
  {
    match promptType
    case Agent =>
      (MarkCritical(AgentCandidates(store.matches, question, agentId, txs, store.agentQueryFails), false), [])
    case Code =>
      var (rows, w) := CodeCandidates(deployment, teamName, store.commandsRead, store.criticalDocs, store.adevDocs);
      (rows, if w.Some? then [w.value] else [])
    case General =>
      (MarkCritical(GeneralCandidates(store.matches, question), false), [])
  }

  /** `findRelevantContext`. Outside the local deployment a cached context
      is used as it is and a read error is only logged; a scoring failure
      throws; the result is cached outside the local deployment. */
  function FindRelevantContext(deployment: string, question: string, teamName: string, promptType: PromptType,
                               agentId: Option<string>, txs: seq<AgentTx>,
                               contextRead: CacheRead<seq<ContextItem>>, store: Store,
                               replies: seq<seq<Option<string>>>): (l: ContextLookup)
    ensures forall k :: 0 <= k < |l.writes| ==> l.writes[k].value.RowsValue? || l.writes[k].value.ContextValue?
  {
    if deployment != "local" && contextRead.Hit? then ContextLookup(Some(contextRead.value), [])
    else
      var (rows, written) := Retrieved(deployment, teamName, promptType, question, agentId, txs, store);
      match ScoreSpec(rows, replies)
      case None => ContextLookup(None, written)
      case Some(scored) =>
        var items := FilterAndSortContextAsWritten(rows, scored, store.chunkRows);
        var key := ContextKey(deployment, teamName, promptType, agentId, question);
        ContextLookup(Some(items), written + (if deployment != "local" then [CacheWrite(key, ContextValue(items), ContextCacheTtl)] else []))
  }

  /** A cached context outside the local deployment is the answer, and
      nothing else is consulted or written. */
  lemma CachedContextServed(deployment: string, question: string, teamName: string, promptType: PromptType,
                            agentId: Option<string>, txs: seq<AgentTx>, items: seq<ContextItem>,
                            store: Store, replies: seq<seq<Option<string>>>, store2: Store, replies2: seq<seq<Option<string>>>)
    requires deployment != "local"
    ensures var l := FindRelevantContext(deployment, question, teamName, promptType, agentId, txs, Hit(items), store, replies);
            l == ContextLookup(Some(items), [])
            && l == FindRelevantContext(deployment, question, teamName, promptType, agentId, txs, Hit(items), store2, replies2)
  {
  }

  /** In the local deployment the context cache is neither read nor
      written. */
  lemma LocalIgnoresContextCache(question: string, teamName: string, promptType: PromptType,
                                 agentId: Option<string>, txs: seq<AgentTx>,
                                 read: CacheRead<seq<ContextItem>>, store: Store, replies: seq<seq<Option<string>>>)
    ensures var l := FindRelevantContext("local", question, teamName, promptType, agentId, txs, read, store, replies);
            l == FindRelevantContext("local", question, teamName, promptType, agentId, txs, Miss, store, replies)
            && forall k :: 0 <= k < |l.writes| ==> !l.writes[k].value.ContextValue?
  {
  }

  /** Without a cached context, each item of the context carries either the
      critical score or the first entry's score (the lookup as written). */
  lemma ContextLookupScores(deployment: string, question: string, teamName: string, promptType: PromptType,
                            agentId: Option<string>, txs: seq<AgentTx>,
                            read: CacheRead<seq<ContextItem>>, store: Store, replies: seq<seq<Option<string>>>)
    requires !(deployment != "local" && read.Hit?)
    ensures var l := FindRelevantContext(deployment, question, teamName, promptType, agentId, txs, read, store, replies);
            var rows := Retrieved(deployment, teamName, promptType, question, agentId, txs, store).0;
            l.result.Some? ==> forall k :: 0 <= k < |l.result.value| ==>
              l.result.value[k].score == CriticalScore
              || l.result.value[k].score == FirstEntryScore(ScoreSpec(rows, replies).value)
  {
    var rows := Retrieved(deployment, teamName, promptType, question, agentId, txs, store).0;
    var s := ScoreSpec(rows, replies);
    if s.Some? {
      AsWrittenContextScores(rows, s.value, store.chunkRows);
    }
  }

  /** Without a cached context the lookup throws exactly when the scoring
      does; otherwise it holds the critical rows and at most five others,
      and outside the local deployment it is cached under the context key
      so that the next lookup serves the same context. */
  lemma ContextLookupSpec(deployment: string, question: string, teamName: string, promptType: PromptType,
                          agentId: Option<string>, txs: seq<AgentTx>,
                          read: CacheRead<seq<ContextItem>>, store: Store, replies: seq<seq<Option<string>>>)
    requires !(deployment != "local" && read.Hit?)
    ensures var l := FindRelevantContext(deployment, question, teamName, promptType, agentId, txs, read, store, replies);
            var rows := Retrieved(deployment, teamName, promptType, question, agentId, txs, store).0;
            (l.result.None? <==> ScoreSpec(rows, replies).None?)
            && (l.result.Some? ==> |l.result.value| <= |CriticalIndices(rows)| + TopCount)
            && (l.result.Some? ==> forall k :: 0 <= k < |l.result.value| ==>
                  l.result.value[k].score == CriticalScore
                  || l.result.value[k].score == FirstEntryScore(ScoreSpec(rows, replies).value))
            && (l.result.Some? && deployment != "local" ==>
                  l.writes[|l.writes| - 1] == CacheWrite(ContextKey(deployment, teamName, promptType, agentId, question),
                                                        ContextValue(l.result.value), ContextCacheTtl)
                  && FindRelevantContext(deployment, question, teamName, promptType, agentId, txs,
                                         Hit(l.result.value), store, replies).result == l.result)
  {
    ContextLookupScores(deployment, question, teamName, promptType, agentId, txs, read, store, replies);
    var (rows, written) := Retrieved(deployment, teamName, promptType, question, agentId, txs, store);
    var s := ScoreSpec(rows, replies);
    var l := FindRelevantContext(deployment, question, teamName, promptType, agentId, txs, read, store, replies);
    if s.Some? {
      var items := FilterAndSortContextAsWritten(rows, s.value, store.chunkRows);
      assert l.result == Some(items);
      if deployment != "local" {
        var key := ContextKey(deployment, teamName, promptType, agentId, question);
        assert l.writes == written + [CacheWrite(key, ContextValue(items), ContextCacheTtl)];
        CachedContextServed(deployment, question, teamName, promptType, agentId, txs, items, store, replies, store, replies);
      }
    } else {
      assert l.result == None;
    }
  }

  // ---------------------------------------------------------------------
  // The answer stream

  /** What `redis.get` of the answer key gives: the stored chunks, a value
      that does not parse as a list, nothing, or an exception. */
  datatype StoredAnswer = Stored(chunks: seq<string>) | Garbled | Absent | GetFails

  /** What the agent lookups give: the agent's id (if it has one) and its
      transactions. */
  datatype AgentLookup = AgentLookup(agentId: Option<string>, txs: seq<AgentTx>)

  /** The arguments of `generateConversationResponse`. `question` is what
      `decodeURIComponent` gives (`None`: it throws). */
  datatype Request = Request(
    question: Option<string>,
    team: Team,
    promptType: PromptType,
    agentInstance: Option<string>,
    env: Option<string>)

  /** Everything the services answer during one call. `agent` is `None`
      when the instance or transaction lookup throws; `stream` holds the
      chunks the answer model yields, and `streamFails` says whether it
      throws after them. */
  datatype World = World(
    answerRead: StoredAnswer,
    agent: Option<AgentLookup>,
    contextRead: CacheRead<seq<ContextItem>>,
    store: Store,
    replies: seq<seq<Option<string>>>,
    stream: seq<string>,
    streamFails: bool)

  /** The records a call yields and the cache writes it attempts. */
  datatype Trace = Trace(records: seq<ChatResponse>, writes: seq<CacheWrite>)

  function ContentRecords(chunks: seq<string>): (r: seq<ChatResponse>)
    ensures |r| == |chunks|
    ensures forall k :: 0 <= k < |r| ==> r[k] == ContentRecord(chunks[k])
  {
    seq(|chunks|, k requires 0 <= k < |chunks| => ContentRecord(chunks[k]))
  }

  /** The answer is replayed from the cache only outside the local
      deployment. */
  predicate Replays(deployment: string, read: StoredAnswer) {
    deployment != "local" && read.Stored?
  }

  /** A read exception, or a value that does not parse (parsing is only
      attempted outside the local deployment), gives an error record. */
  predicate CacheFault(deployment: string, read: StoredAnswer) {
    read.GetFails? || (deployment != "local" && read.Garbled?)
  }

  /** The agent asked about, when the request names an instance in agent
      mode: `None` when its lookup throws. */
  function AgentOf(req: Request, w: World): Option<AgentLookup> {
    if OrElse(req.agentInstance, "") != "" && req.promptType == Agent then w.agent
    else Some(AgentLookup(None, []))
  }

  /** The live path after the answer cache: agent lookup, context lookup,
      then the model's stream. */
  function LiveAnswer(req: Request, w: World, question: string, deployment: string): Trace {
    match AgentOf(req, w)
    case None => Trace([ErrorRecord(GenerateFailed)], [])
    case Some(agent) =>
      var lookup := FindRelevantContext(deployment, question, req.team.name, req.promptType, agent.agentId, agent.txs,
                                        w.contextRead, w.store, w.replies);
      if lookup.result.None? then Trace([ErrorRecord(GenerateFailed)], lookup.writes)
      else if w.streamFails then Trace(ContentRecords(w.stream) + [ErrorRecord(StreamingFailed)], lookup.writes)
      else
        var key := ConversationKey(deployment, req.team.id, req.promptType, req.agentInstance, question);
        Trace(ContentRecords(w.stream) + [DoneRecord], lookup.writes + [CacheWrite(key, ChunksValue(w.stream), AnswerCacheTtl)])
  }

  /** The whole call: the records in the order they are yielded. */
  function Conversation(req: Request, w: World): Trace {
    match req.question
    case None => Trace([ErrorRecord(GenerateFailed)], [])
    case Some(q) =>
      var deployment := DeploymentId(req.env);
      if Replays(deployment, w.answerRead) then Trace(ContentRecords(w.answerRead.chunks) + [DoneRecord], [])
      else
        var live := LiveAnswer(req, w, q, deployment);
        Trace((if CacheFault(deployment, w.answerRead) then [ErrorRecord(CacheErrorOccurred)] else []) + live.records,
              live.writes)
  }

  /** The replay loop: one content record per stored chunk. */
  method Replay(chunks: seq<string>) returns (records: seq<ChatResponse>)
    ensures records == ContentRecords(chunks)
  {
    records := [];
    for i := 0 to |chunks|
      invariant records == ContentRecords(chunks[..i])
    {
      records := records + [ContentRecord(chunks[i])];
    }
    assert chunks[..|chunks|] == chunks;
  }

  /** The `for await` loop over the answer model: yields every chunk and
      collects them in `responseChunks`. */
  method Relay(stream: seq<string>) returns (records: seq<ChatResponse>, responseChunks: seq<string>)
    ensures records == ContentRecords(stream)
    ensures responseChunks == stream
  {
    records := [];
    responseChunks := [];
    for i := 0 to |stream|
      invariant responseChunks == stream[..i]
      invariant records == ContentRecords(responseChunks)
    {
      responseChunks := responseChunks + [stream[i]];
      records := records + [ContentRecord(stream[i])];
    }
    assert stream[..|stream|] == stream;
  }

  /** The live part, after the answer cache was consulted. */
  method Live(req: Request, w: World, question: string, deployment: string)
    returns (records: seq<ChatResponse>, writes: seq<CacheWrite>)
    ensures Trace(records, writes) == LiveAnswer(req, w, question, deployment)
  {
    writes := [];
    var agent := AgentOf(req, w);
    if agent.None? {
      records := [ErrorRecord(GenerateFailed)];
      return;
    }
    var lookup := FindRelevantContext(deployment, question, req.team.name, req.promptType,
                                      agent.value.agentId, agent.value.txs, w.contextRead, w.store, w.replies);
    writes := lookup.writes;
    if lookup.result.None? {
      records := [ErrorRecord(GenerateFailed)];
      return;
    }
    var responseChunks;
    records, responseChunks := Relay(w.stream);
    if w.streamFails {
      records := records + [ErrorRecord(StreamingFailed)];
      return;
    }
    var key := ConversationKey(deployment, req.team.id, req.promptType, req.agentInstance, question);
    writes := writes + [CacheWrite(key, ChunksValue(responseChunks), AnswerCacheTtl)];
    records := records + [DoneRecord];
  }

  /** `generateConversationResponse`: yields by appending to `records`. */
  method GenerateConversationResponse(req: Request, w: World) returns (records: seq<ChatResponse>, writes: seq<CacheWrite>)
    ensures Trace(records, writes) == Conversation(req, w)
  {
    records := [];
    writes := [];
    if req.question.None? {
      records := [ErrorRecord(GenerateFailed)];
      return;
    }
    var question := req.question.value;
    var deployment := DeploymentId(req.env);
    if Replays(deployment, w.answerRead) {
      records := Replay(w.answerRead.chunks);
      records := records + [DoneRecord];
      return;
    }
    if CacheFault(deployment, w.answerRead) {
      records := records + [ErrorRecord(CacheErrorOccurred)];
    }
    var more;
    more, writes := Live(req, w, question, deployment);
    records := records + more;
  }

  // ---------------------------------------------------------------------
  // Properties of the stream

  /** Outside the local deployment a stored answer is replayed: its chunks,
      then one `done` record, with nothing written and nothing else
      consulted. */
  lemma ReplayPath(req: Request, w: World, chunks: seq<string>)
    requires req.question.Some? && DeploymentId(req.env) != "local" && w.answerRead == Stored(chunks)
    ensures Conversation(req, w) == Trace(ContentRecords(chunks) + [DoneRecord], [])
  {
  }

  /** A live answer that streams to the end yields its chunks in order and
      one `done` record, and its last write stores exactly those chunks under
      the conversation key; before them there is at most the cache error. */
  lemma LiveSuccessPath(req: Request, w: World)
    requires req.question.Some? && !Replays(DeploymentId(req.env), w.answerRead)
    requires AgentOf(req, w).Some? && !w.streamFails
    requires var a := AgentOf(req, w).value;
             FindRelevantContext(DeploymentId(req.env), req.question.value, req.team.name, req.promptType, a.agentId, a.txs,
                                 w.contextRead, w.store, w.replies).result.Some?
    ensures var t := Conversation(req, w);
            var skip := if CacheFault(DeploymentId(req.env), w.answerRead) then 1 else 0;
            |t.records| == skip + |w.stream| + 1
            && t.records[skip..] == ContentRecords(w.stream) + [DoneRecord]
            && t.writes != []
            && t.writes[|t.writes| - 1]
               == CacheWrite(ConversationKey(DeploymentId(req.env), req.team.id, req.promptType, req.agentInstance, req.question.value),
                             ChunksValue(w.stream), AnswerCacheTtl)
  {
  }

  /** A stream that throws ends with `Streaming failed`, no record is `done`
      and the answer is not cached. */
  lemma StreamFailurePath(req: Request, w: World)
    requires req.question.Some? && !Replays(DeploymentId(req.env), w.answerRead)
    requires AgentOf(req, w).Some? && w.streamFails
    requires var a := AgentOf(req, w).value;
             FindRelevantContext(DeploymentId(req.env), req.question.value, req.team.name, req.promptType, a.agentId, a.txs,
                                 w.contextRead, w.store, w.replies).result.Some?
    ensures var t := Conversation(req, w);
            t.records[|t.records| - 1] == ErrorRecord(StreamingFailed)
            && (forall k :: 0 <= k < |t.records| ==> !t.records[k].done)
            && (forall k :: 0 <= k < |t.writes| ==> !t.writes[k].value.ChunksValue?)
  {
    var deployment := DeploymentId(req.env);
    var live := LiveAnswer(req, w, req.question.value, deployment);
    var prefix := if CacheFault(deployment, w.answerRead) then [ErrorRecord(CacheErrorOccurred)] else [];
    assert live.records == ContentRecords(w.stream) + [ErrorRecord(StreamingFailed)];
    assert Conversation(req, w) == Trace(prefix + live.records, live.writes);
    NoneDone(prefix, ContentRecords(w.stream), ErrorRecord(StreamingFailed));
  }

  lemma NoneDone(prefix: seq<ChatResponse>, body: seq<ChatResponse>, last: ChatResponse)
    requires forall k :: 0 <= k < |prefix| ==> !prefix[k].done
    requires forall k :: 0 <= k < |body| ==> !body[k].done
    requires !last.done
    ensures forall k :: 0 <= k < |prefix + (body + [last])| ==> !(prefix + (body + [last]))[k].done
  {
  }

  /** A failed read of the answer cache yields `Cache error occurred` and
      then exactly what the call yields when the cache holds nothing. */
  lemma CacheErrorContinues(req: Request, w: World)
    requires req.question.Some?
    requires w.answerRead.GetFails? || (DeploymentId(req.env) != "local" && w.answerRead.Garbled?)
    ensures var t := Conversation(req, w);
            var clean := Conversation(req, w.(answerRead := Absent));
            t.records == [ErrorRecord(CacheErrorOccurred)] + clean.records
            && t.writes == clean.writes
  {
    var d := DeploymentId(req.env);
    var q := req.question.value;
    var w0 := w.(answerRead := Absent);
    LiveIgnoresAnswerRead(req, w, w0, q, d);
    var live := LiveAnswer(req, w, q, d);
    assert Conversation(req, w) == Trace([ErrorRecord(CacheErrorOccurred)] + live.records, live.writes);
    assert Conversation(req, w0) == Trace([] + live.records, live.writes);
  }

  /** The live part does not look at the answer cache. */
  lemma LiveIgnoresAnswerRead(req: Request, w: World, w0: World, question: string, deployment: string)
    requires w0 == w.(answerRead := w0.answerRead)
    ensures LiveAnswer(req, w, question, deployment) == LiveAnswer(req, w0, question, deployment)
  {
    assert AgentOf(req, w) == AgentOf(req, w0);
  }

  /** What a call caches replays as what it streamed: with the stored
      chunks, the next call outside the local deployment yields the same
      records and writes nothing. */
  lemma AnswerCacheRoundTrip(req: Request, w: World)
    requires req.question.Some? && DeploymentId(req.env) != "local" && w.answerRead == Absent
    requires AgentOf(req, w).Some? && !w.streamFails
    requires var a := AgentOf(req, w).value;
             FindRelevantContext(DeploymentId(req.env), req.question.value, req.team.name, req.promptType, a.agentId, a.txs,
                                 w.contextRead, w.store, w.replies).result.Some?
    ensures var t := Conversation(req, w);
            var stored := t.writes[|t.writes| - 1].value;
            stored.ChunksValue?
            && Conversation(req, w.(answerRead := Stored(stored.chunks))) == Trace(t.records, [])
  {
    LiveSuccessPath(req, w);
  }

  /** The live part yields exactly one terminal record, at its end. */
  lemma LiveEndsWithTerminal(req: Request, w: World, question: string, deployment: string)
    ensures var r := LiveAnswer(req, w, question, deployment).records;
            |r| >= 1 && r[|r| - 1].IsTerminal()
            && forall k :: 0 <= k < |r| - 1 ==> !r[k].IsTerminal()
  {
    var r := LiveAnswer(req, w, question, deployment).records;
    if r != [ErrorRecord(GenerateFailed)] {
      var last := if w.streamFails then ErrorRecord(StreamingFailed) else DoneRecord;
      assert r == ContentRecords(w.stream) + [last];
      ContentsThenTerminal(w.stream, last);
    }
  }

  /** Content records and one terminal record: the terminal record is the
      only one, at the end. */
  lemma ContentsThenTerminal(chunks: seq<string>, last: ChatResponse)
    requires last.IsTerminal()
    ensures var r := ContentRecords(chunks) + [last];
            |r| >= 1 && r[|r| - 1].IsTerminal()
            && forall k :: 0 <= k < |r| - 1 ==> !r[k].IsTerminal()
  {
    var r := ContentRecords(chunks) + [last];
    assert forall k :: 0 <= k < |r| - 1 ==> r[k] == ContentRecord(chunks[k]);
  }

  /** Every call ends with a terminal record, and only the cache error may
      stand before the end as another one. */
  lemma EndsWithOneTerminal(req: Request, w: World)
    ensures var r := Conversation(req, w).records;
            |r| >= 1 && r[|r| - 1].IsTerminal()
            && forall k :: 1 <= k < |r| - 1 ==> !r[k].IsTerminal()
  {
    if req.question.None? {
      NoQuestionEndsOnce(req, w);
    } else if Replays(DeploymentId(req.env), w.answerRead) {
      ReplayEndsOnce(req, w);
    } else {
      LiveEndsOnce(req, w);
    }
  }

  /** The records end with a terminal record, and no record between the
      first and the last is terminal. */
  ghost predicate EndsOnce(r: seq<ChatResponse>) {
    |r| >= 1 && r[|r| - 1].IsTerminal() && forall k :: 1 <= k < |r| - 1 ==> !r[k].IsTerminal()
  }

  lemma NoQuestionEndsOnce(req: Request, w: World)
    requires req.question.None?
    ensures EndsOnce(Conversation(req, w).records)
  {
    OneTerminalAfter([], [ErrorRecord(GenerateFailed)]);
    assert Conversation(req, w).records == [] + [ErrorRecord(GenerateFailed)];
  }

  lemma ReplayEndsOnce(req: Request, w: World)
    requires req.question.Some? && Replays(DeploymentId(req.env), w.answerRead)
    ensures EndsOnce(Conversation(req, w).records)
  {
    var body := ContentRecords(w.answerRead.chunks) + [DoneRecord];
    ContentsThenTerminal(w.answerRead.chunks, DoneRecord);
    OneTerminalAfter([], body);
    assert Conversation(req, w).records == [] + body;
  }

  lemma LiveEndsOnce(req: Request, w: World)
    requires req.question.Some? && !Replays(DeploymentId(req.env), w.answerRead)
    ensures EndsOnce(Conversation(req, w).records)
  {
    var deployment := DeploymentId(req.env);
    var prefix := if CacheFault(deployment, w.answerRead) then [ErrorRecord(CacheErrorOccurred)] else [];
    var body := LiveAnswer(req, w, req.question.value, deployment).records;
    LiveEndsWithTerminal(req, w, req.question.value, deployment);
    OneTerminalAfter(prefix, body);
  }

  lemma OneTerminalAfter(prefix: seq<ChatResponse>, live: seq<ChatResponse>)
    requires |prefix| <= 1
    requires |live| >= 1 && live[|live| - 1].IsTerminal()
    requires forall k :: 0 <= k < |live| - 1 ==> !live[k].IsTerminal()
    ensures EndsOnce(prefix + live)
  {
    var r := prefix + live;
    forall k | 1 <= k < |r| - 1 ensures !r[k].IsTerminal() {
      assert r[k] == live[k - |prefix|];
    }
  }
}
