/** The records of the conversation service (`src/services/conversation.ts`)
    that several parts of the pipeline share. */
module Types {
  import opened Wrappers

  /** `PromptType`: which retrieval shape and answer style a request uses. */
  datatype PromptType = General | Agent | Code {
    function Name(): string {
      match this
      case General => "general"
      case Agent => "agent"
      case Code => "code"
    }
  }

  /** A row of `context_embeddings` as the similarity queries return it.
      `similarity` is the cosine distance `embedding <=> $1` (smaller is
      closer); a NULL text column is the empty string. */
  datatype Row = Row(
    id: string,
    content: string,
    name: string,
    location: string,
    originalLocation: string,
    kind: string,
    similarity: real,
    isCritical: bool)

  /** A `RelevantContext` entry handed to the answer model. */
  datatype ContextItem = ContextItem(
    content: string,
    name: string,
    location: string,
    kind: string,
    score: int)

  /** `ChatResponse`: one record the answer stream yields. */
  datatype ChatResponse = ChatResponse(content: string, done: bool, error: Option<string>) {
    /** A record that ends a stream (`done` or `error`). */
    predicate IsTerminal() { done || error.Some? }
  }

  function ContentRecord(chunk: string): ChatResponse {
    ChatResponse(chunk, false, None)
  }

  const DoneRecord := ChatResponse("", true, None)

  function ErrorRecord(message: string): ChatResponse {
    ChatResponse("", false, Some(message))
  }

  /** What one `redis.get` gives: a stored (and parsed) value, nothing
      (including the empty string, which is falsy), or an exception from the
      client or from `JSON.parse`. */
  datatype CacheRead<T> = Hit(value: T) | Miss | ReadFails

  /** A team row of `teams` (only the fields the pipeline reads). */
  datatype Team = Team(id: string, name: string, systemPromptName: string)

  /** A value written with `redis.set(key, JSON.stringify(value), {EX: ttl})`. */
  datatype CachedValue =
    | ContextValue(items: seq<ContextItem>)
    | RowsValue(rows: seq<Row>)
    | ChunksValue(chunks: seq<string>)
    | TeamValue(team: Team)

  datatype CacheWrite = CacheWrite(key: string, value: CachedValue, ttlSeconds: nat)

  /** `process.env.RAILWAY_DEPLOYMENT_ID || "local"`. */
  function DeploymentId(env: Option<string>): string {
    OrElse(env, "local")
  }
}
