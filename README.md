# agentscan-express: the conversation pipeline and three routes, in Dafny

This project models the retrieval-and-answer pipeline of the agentscan-express
backend (`src/services/conversation.ts`) and the request-side logic of three of
its Express routes: `POST /conversation`, `POST /crawl` and `GET /transactions`.
The outside services do not appear in the model. What they answer is an input:

- the rows the vector store returns;
- the replies of the scoring model;
- the outcome of each Redis read (hit, miss or exception);
- the chunks the answer model streams.

Modules, one per file:

| file | module | what it holds |
|---|---|---|
| wrappers.dfy | Wrappers | `Option`, `Result`, JavaScript's `x \|\| fallback` |
| text.dfy | Text | `includes`/`LIKE '%x%'`, ASCII `toLowerCase`, JavaScript `trim`, `split`, `join` |
| numbers.dfy | Numbers | decimal rendering and ECMAScript `parseInt` |
| utf8.dfy, base64.dfy | Utf8, Base64 | `Buffer.from(s).toString("base64")` (UTF-8 per RFC 3629, base 64 per section 4 of RFC 4648) and their inverses |
| batching.dfy, sorting.dfy | Batching, Sorting | slicing into batches, `filter`, a stable sort, `slice(0, n)` |
| types.dfy | Types | rows, context items, `ChatResponse` records, cache reads and writes |
| cache_keys.dfy | CacheKeys | the Redis keys and their TTLs |
| team_cache.dfy | TeamCache | `getTeamData`, a cache-aside lookup |
| retrieval.dfy | Retrieval | staking phrases, the adjusted-similarity ranking, the agent address set, code-mode rows |
| scoring.dfy | Scoring | `scoreEmbeddings`, as a method proved against a specification function |
| assembly.dfy | Assembly | `filterAndSortContext`: selection, chunk reassembly, de-duplication |
| generator.dfy | Generator | `findRelevantContext` and the `generateConversationResponse` stream |
| conversation_route.dfy | ConversationRoute | body validation and the consumer loop of `POST /conversation` |
| crawl_route.dfy | CrawlRoute | URL entries, batches, concurrency groups, and the progress counters (a `CrawlJob` class) |
| transactions_route.dfy | TransactionsRoute | chain check, explorer links, and shaping the reply |

The imperative parts are `method`s with loop invariants, each proved against a
function of its inputs:

- the scoring loop, the address collection, and the replay and relay loops of
  the generator;
- the route's consumer loop;
- the crawl's batch split, concurrency grouping and counters.

The properties are proved as lemmas about those functions.

Where the repository's written description and its code differ, the model
follows the code:

- A token of a scoring reply that does not read as a score between 0 and 10
  is dropped, not treated as a failure. The batch fails only when the
  scores left over do not match its length.
- An exception while reading the answer cache yields `Cache error occurred`
  and then goes on to the live answer. Such a stream can carry an error
  record before its final record. The route stops at that first error.
- An empty hostname gives an empty organisation rather than `unknown`, so
  its entry is kept.
- `POST /conversation` checks `type` before `question`.

## Model

| member | source | states |
|---|---|---|
| Text.ContainsIffOccurs | src/services/conversation.ts:213-216 | `includes` holds exactly when the pattern occurs at some position of the text |
| Text.ToLowerIdempotent | src/routes/conversation/index.ts:82-84 | lower-casing a lower-cased string changes nothing |
| Text.TrimSpec | src/routes/crawl/index.ts:100 | `trim` keeps one contiguous piece of the string, cuts only white space on either side, and the piece neither starts nor ends with white space |
| Text.TrimStart | src/services/conversation.ts:543 | the result is a suffix, everything cut is white space, and it does not start with white space |
| Text.TrimEnd | src/services/conversation.ts:543 | the result is a prefix, everything cut is white space, and it does not end with white space |
| Text.Split | src/routes/crawl/index.ts:67 | there is always at least one piece, and no piece holds the separator |
| Text.JoinSplit | src/services/conversation.ts:541-542 | joining the pieces of a split with the same separator gives back the string |
| Text.SplitJoin | src/services/conversation.ts:498-506 | splitting the join of separator-free pieces gives back the pieces |
| Text.BeforeIsPrefix | src/services/conversation.ts:657 | `split("#")[0]` is the prefix before the first `#`, and it holds no `#` |
| Numbers.NatToString | src/services/conversation.ts:519 | the decimal form is non-empty, made of digits and without a leading zero |
| Numbers.ValueOfNatToString | src/services/conversation.ts:519 | those digits denote the number |
| Numbers.LeadingDigits | src/services/conversation.ts:543 | the longest run of digits (hex digits with an `0x` prefix) at the start |
| Numbers.ParseIntNatToString | src/services/conversation.ts:543 | `parseInt` reads back a decimal number after white space and a sign, and stops at the first non-digit |
| Utf8.Encode | src/services/conversation.ts:147 | the encoding is at least as long as the string, and empty only for the empty string |
| Utf8.DecodeFirstEncodeChar | src/services/conversation.ts:147 | decoding the first character of an encoding gives back that character and its byte length |
| Utf8.DecodeEncode | src/services/conversation.ts:147 | decoding the UTF-8 encoding of a string gives back the string |
| Base64.SextetRoundTrip | src/services/conversation.ts:147 | every 6-bit value has an alphabet character that decodes back to it and is not the pad |
| Base64.Encode | src/services/conversation.ts:147 | the encoding has 4 characters per started group of 3 bytes |
| Base64.DecodeEncode | src/services/conversation.ts:147 | decoding the encoding gives back the bytes, for every length and padding |
| Base64.EncodeAlphabet | src/services/conversation.ts:147 | every character of an encoding is from the alphabet or the pad, so none is `:` |
| Base64.DecodeEncodeString | src/services/conversation.ts:698-700 | the question segment decodes back to the question and holds no `:` |
| CacheKeys.QuestionRecoverable | src/services/conversation.ts:145-147 | the text after the last `:` of a key is the question's base 64, and it decodes back to the question, whatever the other segments hold |
| CacheKeys.Segments | src/services/conversation.ts:696-700 | when no segment before the question holds a `:`, the key splits back into its six segments, with `none` for a missing agent |
| CacheKeys.KeySeparatesQuestions | src/services/conversation.ts:145-147 | two keys with the same scope are equal only for the same question |
| TeamCache.GetTeamData | src/services/conversation.ts:100-132 | a cached team is returned with no database query and nothing written; otherwise the answer is the database's, whether the cache missed, failed or the write failed; the only error modelled is `Team not found`, for a team the database does not have (a failing teams query is not modelled) |
| TeamCache.CacheIsTransparent | src/services/conversation.ts:100-132 | while the cache holds nothing or what the database holds, every call answers what the database does, and what a miss writes makes the next call answer the same |
| Retrieval.PhrasesHaveNoPercent | src/services/conversation.ts:11-66 | no fixed phrase contains `%` |
| Retrieval.StripPattern | src/services/conversation.ts:214-216 | removing every `%` from a pattern gives back its phrase |
| Retrieval.SomeIncludedIff | src/services/conversation.ts:214-216 | `some(...)` holds exactly when some pattern, stripped of `%`, is in the text |
| Retrieval.HasStakingPatternIff | src/services/conversation.ts:213-216 | a question matches exactly when one of the fixed phrases occurs in its lower-cased text |
| Retrieval.SqlStakingAgrees | src/services/conversation.ts:236-251 | the SQL test `LOWER($3) LIKE ANY($4)` agrees with the JavaScript test, so whenever the 0.3 branch is in the query its staking condition holds |
| Retrieval.MultiplierPrecedence | src/services/conversation.ts:234-243 | the first matching branch wins: 0.3 for a `pearl` row when a staking phrase matched, else 0.7 when the content holds the question, else 0.8 when the name does, else 1 |
| Retrieval.RankSpec | src/services/conversation.ts:244-246 | at most 15 of the eligible rows (exactly `min(n, 15)`), in ascending adjusted similarity, and none left out ranks better than one kept |
| Retrieval.CloseEnough | src/services/conversation.ts:230 | every row kept has a distance below 0.8 |
| Retrieval.LogAddressesIff | src/services/conversation.ts:275-277 | an address is collected from the logs exactly when some log has it, non-empty, case ignored |
| Retrieval.AddressSetIff | src/services/conversation.ts:271-279 | an address is in the set exactly when some transaction has it as its `to` or as one of its logs' addresses |
| Retrieval.CollectAddresses | src/services/conversation.ts:271-279 | the `forEach` loop builds exactly that set, and every address in it is lower-case |
| Retrieval.AddLogAddresses | src/services/conversation.ts:275-277 | the inner loop adds exactly the logs' addresses to the set so far |
| Retrieval.AddressesLowered | src/services/conversation.ts:274-276 | every collected address is lower-case |
| Retrieval.AgentCandidates | src/services/conversation.ts:258-322 | no agent id gives no rows; a failing query gives the basic query's rows; otherwise at most 15 rows, each a query row whose lowered id starts with the lowered agent id or whose lowered name is one of the agent's transaction addresses, and they are the best-ranked such rows in ranking order |
| Retrieval.AgentRowsMatch | src/services/conversation.ts:282-296 | rows drawn from the matching rows each satisfy the id-prefix or address condition |
| Retrieval.CodeCandidates | src/services/conversation.ts:353-459 | a non-empty cached list outside the local deployment is used as it is; otherwise the critical documents come first, then the `adev` rows, and they are cached under `adev_commands:<team>` exactly when there are any and the deployment is not local |
| Scoring.ContextLines | src/services/conversation.ts:498-506 | the context is its header followed by one line per message, as long as no message spans several lines |
| Scoring.PromptNamesEveryItem | src/services/conversation.ts:513-525 | every row of a batch appears in the prompt under `Context <k+1>:` |
| Scoring.Kept | src/services/conversation.ts:544 | the kept values are all scores between 0 and 10, and there are no more of them than tokens |
| Scoring.KeptMembership | src/services/conversation.ts:541-544 | a value is kept exactly when some token reads as it and it lies between 0 and 10 |
| Scoring.KeptAppend | src/services/conversation.ts:544 | the filter only drops tokens: the kept values keep their order |
| Scoring.ReadingNatToString | src/services/conversation.ts:543 | a number in decimal reads back as itself after `trim` and `parseInt` |
| Scoring.ReplyScoresRender | src/services/conversation.ts:533-544 | a reply in the requested `0,3,7,0,4` format reads back as exactly the scores it lists |
| Scoring.FirstFit | src/services/conversation.ts:546-548 | an accepted attempt has exactly as many scores as the batch has rows, all between 0 and 10 |
| Scoring.FirstFitIsFirst | src/services/conversation.ts:511-561 | a batch fails exactly when no attempt fits; otherwise it takes the first attempt that fits |
| Scoring.IndicesWhere | src/services/conversation.ts:489-496 | exactly the positions with the given `is_critical` flag, ascending |
| Scoring.CriticalScores | src/services/conversation.ts:489-493 | one entry per critical row |
| Scoring.ParsedAttempts | src/services/conversation.ts:541-544 | one reading per attempt, every score between 0 and 10 |
| Scoring.ScoreBatches | src/services/conversation.ts:508-562 | on success, one score per row of the batches, in order, labelled with that row's index, each between 0 and 10 |
| Scoring.PushCritical | src/services/conversation.ts:489-493 | the first loop pushes `{score: 10, index}` for each critical row, in index order |
| Scoring.PushBatch | src/services/conversation.ts:550-558 | the inner loop appends the batch's labelled scores to the results |
| Scoring.ScoreEmbeddings | src/services/conversation.ts:476-565 | the batch loop returns what the specification gives: the critical scores, then the batches of five; it fails when a batch fails |
| Scoring.IndicesPartition | src/services/conversation.ts:489-496 | there are as many critical and non-critical positions together as there are rows |
| Scoring.ScoreFailsIff | src/services/conversation.ts:508-562 | scoring throws exactly when some batch of five gets no reply whose kept scores match the batch's length |
| Scoring.ScoreSuccessShape | src/services/conversation.ts:486-564 | on success: critical rows first with score 10 in index order, then the non-critical rows in input order; every score is between 0 and 10 |
| Scoring.IndicesCoverOnce | src/services/conversation.ts:489-496 | the critical positions followed by the others name every row exactly once |
| Scoring.ScoreEachIndexOnce | src/services/conversation.ts:550-558 | on success, every row's index occurs exactly once among the results |
| Assembly.Positions | src/services/conversation.ts:597-598 | exactly the accepted positions below the bound, ascending |
| Assembly.Picked | src/services/conversation.ts:597-598 | the positions of the rows that the selection names, ascending |
| Assembly.Candidates | src/services/conversation.ts:579-580 | exactly the scores of non-critical rows |
| Assembly.TopIsBest | src/services/conversation.ts:579-584 | at most five scores of non-critical rows, highest first, and none left out is higher than one kept |
| Assembly.SelectedIff | src/services/conversation.ts:583-586 | a position is selected exactly when one of the top five scores names it and is at least 4 |
| Assembly.NonCriticalItems | src/services/conversation.ts:597-606 | no more items than selected positions |
| Assembly.Combined | src/services/conversation.ts:589-607 | at most the critical rows and five others |
| Assembly.CombinedShape | src/services/conversation.ts:589-607 | the critical rows come first with score 10, then the picked rows in input order; empty `location` and `type` take their defaults |
| Assembly.PickedIff | src/services/conversation.ts:572-606 | a row follows the critical ones exactly when it is non-critical and among the top five with score at least 4 |
| Assembly.ScoreOf | src/services/conversation.ts:605 | the score of some entry for the row, or 0 when there is none |
| Assembly.ScoreOfEntry | src/services/conversation.ts:605 | with distinct indices, each entry's row gets that entry's score |
| Assembly.SelectedCarryOwnScore | src/services/conversation.ts:597-606 | corrected lookup: every picked row is reported with its own score, at least 4 |
| Assembly.DocumentRows | src/services/conversation.ts:646-652 | a chunk row is among a document's rows exactly when it names that document; none when no row does |
| Assembly.GroupBy | src/services/conversation.ts:646-652 | no group is empty |
| Assembly.GroupByIff | src/services/conversation.ts:646-652 | a document has a group exactly when some row names it, and its group is that document's rows |
| Assembly.DocumentRowsInOrder | src/services/conversation.ts:635-641 | in the ordered query result, a document's rows come in ascending chunk number |
| Assembly.ReassembleAll | src/services/conversation.ts:655-670 | one item per item |
| Assembly.ReassembledDocument | src/services/conversation.ts:655-670 | a chunk whose document has rows becomes the document: the rows' contents joined by blank lines, in ascending chunk order, the location before `#`, the first row's name and type, and the chunk's score; any other item is unchanged |
| Assembly.FindIndex | src/services/conversation.ts:675 | the first position with that location, or -1 |
| Assembly.Dedup | src/services/conversation.ts:673-676 | never longer than the input |
| Assembly.DedupDistinct | src/services/conversation.ts:673-676 | afterwards no two items share a location |
| Assembly.DedupKeepsLocations | src/services/conversation.ts:673-676 | every location of the input is still there |
| Assembly.DedupKeepsFirst | src/services/conversation.ts:673-676 | each kept item is the first with its location, and they come in the order of those first occurrences |
| Assembly.FilterAndSortContextAsWritten | src/services/conversation.ts:567-682 | the step the pipeline runs, as written: at most the critical rows plus five others |
| Assembly.AsWrittenContextScores | src/services/conversation.ts:598-607 | as written, every returned item carries either the critical score 10 or the first entry's score, also after chunk reassembly |
| Assembly.CombinedScoredEither | src/services/conversation.ts:589-607 | with a lookup that gives every row the same score, each combined item is scored 10 or that score |
| Assembly.DedupReassembledScoredEither | src/services/conversation.ts:655-676 | chunk reassembly and removal of repeats introduce no new score |
| Assembly.TopTiesInOrder | src/services/conversation.ts:579-584 | among the rows that share one score, those kept by the top-five cut are a prefix of them in their original order, so ties at the cut fall to the earlier rows |
| Assembly.FilterAndSortContext | src/services/conversation.ts:567-682 | the corrected step, in which each row takes its own score: at most the critical rows plus five others |
| Assembly.AssembleShape | src/services/conversation.ts:609-681 | the final slice never cuts; without chunks the result is the selection; with chunks it is the reassembled selection without repeats |
| Assembly.AssembledLocationsDistinct | src/services/conversation.ts:672-676 | with chunks, no two results share a location |
| Assembly.AsWrittenScoresAlike | src/services/conversation.ts:604-605 | as written, every non-critical item carries the first entry's score |
| Assembly.AsWrittenMisreportsScore | src/services/conversation.ts:604-605 | one critical row and one row scored 7: as written the second item is reported with 10, corrected with 7 |
| Generator.Retrieved | src/services/conversation.ts:164-184 | the only cache write of the retrieval is the row list stored under `adev_commands:<team>` for one day |
| Generator.FindRelevantContext | src/services/conversation.ts:134-206 | the lookup, with the step as written, writes only row lists and contexts |
| Generator.CachedContextServed | src/services/conversation.ts:150-159 | outside the local deployment a cached context is the answer, whatever the store and the scorer would give, and nothing is written |
| Generator.LocalIgnoresContextCache | src/services/conversation.ts:150-203 | in the local deployment the context cache is neither read nor written |
| Generator.ContextLookupScores | src/services/conversation.ts:160-205 | without a cached context, every item of the context is scored 10 or with the first entry's score |
| Generator.ContextLookupSpec | src/services/conversation.ts:160-205 | without a cached context the lookup fails exactly when the scoring does (query and embedding failures are not modelled); otherwise it holds the critical rows and at most five more, each scored 10 or with the first entry's score, and outside the local deployment it is cached so that the next lookup serves the same context |
| Generator.Replay | src/services/conversation.ts:709-714 | the replay loop yields one content record per stored chunk, in order |
| Generator.Relay | src/services/conversation.ts:744-768 | the stream loop yields each chunk and collects exactly the stream in `responseChunks` |
| Generator.Live | src/services/conversation.ts:723-783 | the live part yields and writes what the live specification gives |
| Generator.GenerateConversationResponse | src/services/conversation.ts:684-788 | the generator yields the records and attempts the writes of the specification, in order |
| Generator.ReplayPath | src/services/conversation.ts:702-717 | outside the local deployment a stored answer is replayed (its chunks, then one `done` record), and nothing is written |
| Generator.LiveSuccessPath | src/services/conversation.ts:740-779 | a stream that ends yields its chunks in order and one `done` record, after at most the cache error; its last write stores exactly those chunks under the conversation key for two days |
| Generator.StreamFailurePath | src/services/conversation.ts:780-783 | a stream that throws ends with `Streaming failed`; no record is `done` and no answer is cached |
| Generator.CacheErrorContinues | src/services/conversation.ts:718-721 | a failed read of the answer cache yields `Cache error occurred`, then exactly what the call yields with an empty cache |
| Generator.LiveIgnoresAnswerRead | src/services/conversation.ts:723-783 | the live part does not depend on the answer cache |
| Generator.AnswerCacheRoundTrip | src/services/conversation.ts:702-779 | what a call caches replays as what it streamed: the next call outside the local deployment yields the same records and writes nothing |
| Generator.LiveEndsWithTerminal | src/services/conversation.ts:723-787 | the live part yields exactly one terminal record (`done` or error), at its end |
| Generator.EndsWithOneTerminal | src/services/conversation.ts:684-788 | every call ends with a terminal record, and only the leading cache error can be another |
| ConversationRoute.ValidateSpec | src/routes/conversation/index.ts:70-94 | accepted exactly when the type (default `general`) is `general` or `agent` and there is a question; a bad type is reported whatever the question; an accepted request carries the question, the type and the lower-cased instance |
| ConversationRoute.CodeRejected | src/routes/conversation/index.ts:86-90 | `code` is refused with 400, whatever else the body holds |
| ConversationRoute.InstanceLowered | src/routes/conversation/index.ts:82-84 | the instance passed on is lower-case |
| ConversationRoute.FailureReplyHidesDetails | src/routes/conversation/index.ts:165-171 | every failure other than the missing team gets the same 500 reply, whatever its message |
| ConversationRoute.FirstError | src/routes/conversation/index.ts:149-151 | the position of the first record with an error, none before it; the length when there is none |
| ConversationRoute.Contents | src/routes/conversation/index.ts:154-161 | no stored message is empty |
| ConversationRoute.Consume | src/routes/conversation/index.ts:138-162 | the loop writes the session frame, then every record up to and including the first with an error; it stores the non-empty contents before that record |
| ConversationRoute.DeliveredSpec | src/routes/conversation/index.ts:147-151 | only a prefix of the stream is written; of it, only the last record may carry an error; it is the whole stream when no record does |
| ConversationRoute.ContentsFrom | src/routes/conversation/index.ts:154-161 | every stored message is the non-empty content of one of the records |
| ConversationRoute.ContentsOfChunks | src/routes/conversation/index.ts:154-161 | a stream of contents and a `done` record stores exactly the non-empty chunks, in order |
| ConversationRoute.CacheErrorEndsResponse | src/routes/conversation/index.ts:140-151 | a failed answer-cache read ends the response after the cache error, and nothing is stored |
| ConversationRoute.LiveAnswerDelivered | src/routes/conversation/index.ts:140-162 | an answer that streams to the end reaches the client whole, and each non-empty chunk is stored once, in order |
| ConversationRoute.DeliveredWhole | src/routes/conversation/index.ts:147-161 | contents followed by a `done` record are written whole, and their non-empty chunks are stored |
| CrawlRoute.GitHubIndex | src/routes/crawl/index.ts:68 | the first segment naming GitHub, or -1 when no segment does |
| CrawlRoute.ExtractRepoName | src/routes/crawl/index.ts:66-72 | the name is `unknown` or one non-blank `/`-piece of the URL |
| CrawlRoute.SegmentsOfUrl | src/routes/crawl/index.ts:67 | the non-blank pieces of `scheme//host/...` are the scheme, the host and the rest |
| CrawlRoute.RepoNameOfGitHubUrl | src/routes/crawl/index.ts:66-72 | for `https://github.com/owner/repo/...` the name is `repo`; a URL that stops at the owner gives `unknown` |
| CrawlRoute.DomainName | src/routes/crawl/index.ts:74-82 | the name is `unknown` or a label of the hostname other than `www` |
| CrawlRoute.DomainNameSkipsWww | src/routes/crawl/index.ts:77-78 | the name is the first label once every `www` label is dropped |
| CrawlRoute.DomainNameOfWwwOnly | src/routes/crawl/index.ts:77-78 | a host made only of `www` labels gives `unknown` |
| CrawlRoute.DomainNameOfEmptyHost | src/routes/crawl/index.ts:76-78 | an empty hostname gives the empty name, not `unknown` |
| CrawlRoute.NormalizeUrlSpec | src/routes/crawl/index.ts:100 | the trimmed URL with one trailing `/` removed when there is one; a missing URL is the empty string |
| CrawlRoute.MapEntry | src/routes/crawl/index.ts:99-118 | an entry is dropped exactly when it has no type and the derived one is `unknown`; a kept entry has its type as both organisation and type; a given type is kept as it is |
| CrawlRoute.MapEntries | src/routes/crawl/index.ts:98-119 | no more entries than input entries |
| CrawlRoute.MapEntriesFrom | src/routes/crawl/index.ts:98-119 | every kept entry comes from an input entry and has its type as its organisation |
| CrawlRoute.MapEntriesKeepTyped | src/routes/crawl/index.ts:101-117 | an entry with a type is always kept, with that type |
| CrawlRoute.PrepareEntriesBounds | src/routes/crawl/index.ts:98-125 | when every entry has a type, all are kept; when every entry is dropped, the request is refused |
| CrawlRoute.SplitBatches | src/routes/crawl/index.ts:164-167 | the loop yields the consecutive slices of `batchSize` entries |
| CrawlRoute.Magnitude | src/routes/crawl/index.ts:239 | the positive group size for a non-zero concurrency of either sign |
| CrawlRoute.GroupByConcurrency | src/routes/crawl/index.ts:233-246 | a new group starts at every index divisible by `concurrency` (groups of at most that many, in order); with 0 the first push throws |
| CrawlRoute.Successes | src/routes/crawl/index.ts:183-187 | no more successes than crawls |
| CrawlRoute.Updates | src/routes/crawl/index.ts:181-227 | one update per settled crawl |
| CrawlRoute.CrawlJob.constructor | src/routes/crawl/index.ts:147-171 | the counters start at 0, nothing is published, and the started status is stored |
| CrawlRoute.CrawlJob.Settle | src/routes/crawl/index.ts:181-227 | one settled crawl adds 1 to processed and 1 to either succeeded or failed, and publishes the counters with its URL and its error when it threw |
| CrawlRoute.CrawlJob.Complete | src/routes/crawl/index.ts:252-264 | the completion with the final counters is published and stored |
| CrawlRoute.CrawlJob.Fail | src/routes/crawl/index.ts:266-277 | the failure is published and stored |
| CrawlRoute.CrawlJob.SettleAll | src/routes/crawl/index.ts:173-228 | settling a batch publishes its updates in order and keeps processed = succeeded + failed |
| CrawlRoute.CrawlJob.RunBatch | src/routes/crawl/index.ts:173-249 | after a batch, the updates published are those of every crawl so far |
| CrawlRoute.CrawlJob.RunBatches | src/routes/crawl/index.ts:173-249 | the batch loop throws exactly for concurrency 0; otherwise it publishes every crawl's update and counts all of them; when it throws, only the first batch has been counted |
| CrawlRoute.CrawlJob.Abort | src/routes/crawl/index.ts:239-277 | the failure is published and stored first, then the first batch's crawls report, and the counters then hold exactly the first batch's crawls and successes |
| CrawlRoute.UpdatesSplit | src/routes/crawl/index.ts:173-249 | the updates of a longer run extend those of a shorter one |
| CrawlRoute.Crawl | src/routes/crawl/index.ts:162-279 | the background task publishes and stores what the crawl specification gives |
| CrawlRoute.UpdatesAt | src/routes/crawl/index.ts:181-227 | the k-th update is the one the k-th crawl publishes after the k before it |
| CrawlRoute.ProgressCounts | src/routes/crawl/index.ts:181-227 | every update has processed = succeeded + failed, counts one crawl more than the one before, names its URL, and carries an error exactly when the crawl threw |
| CrawlRoute.CompletionCounts | src/routes/crawl/index.ts:252-264 | with a non-zero concurrency the crawl ends with the completion, where processed = total = succeeded + failed and the successes are the crawls that returned pages |
| CrawlRoute.ZeroConcurrencyFails | src/routes/crawl/index.ts:233-277 | with concurrency 0, the failure is published first and stored; the first batch's crawls still report after it |
| CrawlRoute.SuccessesAppend | src/routes/crawl/index.ts:183-187 | successes add up over any split of the crawls |
| TransactionsRoute.TransactionLink | src/routes/transactions/index.ts:6-17 | the link is empty exactly for a chain outside base/gnosis/mainnet, in any letter case, and otherwise ends with the hash |
| TransactionsRoute.TransactionLinkHosts | src/routes/transactions/index.ts:6-17 | each supported chain links to its explorer's `/tx/<hash>`, whatever the letter case |
| TransactionsRoute.TransactionLinkInjective | src/routes/transactions/index.ts:6-17 | two non-empty links for the same chain are equal only for the same hash |
| TransactionsRoute.CheckChain | src/routes/transactions/index.ts:25-30 | refused with 400 exactly when a non-empty chain, lower-cased, is not one of the three; otherwise the lower-cased chain, if any |
| TransactionsRoute.AllowedChainHasLinks | src/routes/transactions/index.ts:6-30 | a chain let through by name gets a link for every transaction |
| TransactionsRoute.RespondSpec | src/routes/transactions/index.ts:64-88 | no items give an empty list and no cursor; otherwise one mapped transaction per item, and the cursor is the page's non-empty `endCursor` |
| TransactionsRoute.HandleChecksChainFirst | src/routes/transactions/index.ts:19-95 | a bad chain gets the 400 whatever the indexer would return; an accepted chain gets the reply to the indexer's result |
| TransactionsRoute.RespondFailures | src/routes/transactions/index.ts:78-95 | a missing page gives the empty reply; a page without items is a 500; only `No transactions found` is a 404 |
| TransactionsRoute.ChainParameterCases | src/__tests__/transactionsRoute.test.ts:18-28 | `invalidChain` is refused with 400; no chain and `BASE` reach the indexer |
| Batching.ChunksConcat | src/services/conversation.ts:508-509 | the slices, put back together, are the list |
| Batching.ChunksSizes | src/routes/crawl/index.ts:164-167 | every slice is non-empty and at most the batch size; all but the last are exactly that size |
| Batching.ChunksAppend | src/routes/crawl/index.ts:239-242 | one more item joins the last slice, or starts a new one when the slices are full |
| Batching.ChunksAt | src/routes/crawl/index.ts:239-242 | item `q*n + r` is item `r` of slice `q`: slices start exactly at the indices divisible by `n` |
| Sorting.Filter | src/services/conversation.ts:579-580 | exactly the elements that pass, no more often than in the input |
| Sorting.SortBy | src/services/conversation.ts:581 | a permutation of the input |
| Sorting.SortBySorted | src/services/conversation.ts:581 | the result is in ascending key order |
| Sorting.SortByStable | src/services/conversation.ts:581 | the sort is stable: the elements of one key keep their input order |
| Sorting.InsertStable | src/services/conversation.ts:581 | the new element goes in front of the elements that share its key, which keep their order |
| Sorting.InsertPastSmaller | src/services/conversation.ts:581 | moving past an element with a smaller key leaves the new element ahead of the elements sharing its key |
| Sorting.FilterPrefix | src/services/conversation.ts:584 | filtering a prefix gives a prefix of the filtered list |
| Sorting.TakeKeepsSmallest | src/services/conversation.ts:584 | cutting a sorted list keeps the smallest keys, in order |
| Sorting.SortedTop | src/services/conversation.ts:579-584 | the first `n` after sorting are at most `n` of the list's elements, in key order, and none left out has a smaller key |

## Left out

- SQL execution, pgvector distances, embeddings, the OpenAI calls and the Redis client are not modelled: their results are inputs (rows, replies, cache reads, stream chunks). Cache writes are recorded but may fail silently, as the source ignores their errors.
- `withRetry` is defined in `src/services/crawler`, which is not part of this model. Each batch gets the sequence of replies the attempts obtained; the first one that fits is used, and when none fits, scoring fails. Delays and the retry bound are not modelled.
- Sleeps, `Math.random` pacing, logging and the chunk-count logging are left out: they have no effect on what is yielded.
- `LIKE '%x%'` is modelled as a substring test. A `%` or `_` inside the question is not treated as a wildcard.
- `toLowerCase` and SQL `LOWER` are modelled for ASCII letters only.
- `decodeURIComponent` is not modelled: the decoded question is an input, and a failed decode leads to the outer error record.
- `new URL(url)` is replaced by a hostname input, which is absent when the URL does not parse.
- The chunk query's `ORDER BY` is not modelled. Its rows come in as an input already ordered by document and chunk number. The `SUBSTRING ... FOR '#'` form is not checked against PostgreSQL.
- ChunkNumber reads the digits after the first `#chunk` of a location, and gives 0 when there are none. It gives 999999 when the location has no `#chunk`, as the query does. The query's `SUBSTRING` differs in two ways:
  - it takes the first `#chunk<digits>` match anywhere in the location, so `a#chunkx#chunk5` gives 5 there and 0 in the model;
  - it gives NULL when no digits follow any `#chunk`, which PostgreSQL sorts after every number, while the model's 0 sorts first.

  These cases affect only the row order, which comes in as an input.
- NULL text columns are modelled as the empty string.
- The final `sort` of `filterAndSortContext` compares a field the items lack, so every comparison is `NaN`. The model treats it as the identity, which a stable sort gives.
- Similarities are `real`, not IEEE doubles.
- Exceptions from the queries themselves are not modelled:
  - the teams query (`src/services/conversation.ts:122`);
  - `generateEmbeddingWithRetry` (`src/services/conversation.ts:160`);
  - the general, code and chunk queries (`src/services/conversation.ts:249`, `:373`, `:414`, `:616`).

  The agent query's failure is modelled, because the source catches it. In the source, each of these failures propagates: to the route's 500 for the teams query, and otherwise to the "Failed to generate response" record (`src/services/conversation.ts:784-787`). The model treats these queries as always answering.
- Strings are sequences of characters. A lone UTF-16 surrogate, which `Buffer.from` encodes as EF BF BD, cannot be represented. JavaScript string lengths count UTF-16 code units, while the model counts characters.
- Nothing after the consumer's `break` is modelled. That includes what the generator would still do once the route stops reading.
- `null` values of `type`, `instance` or `question`, and non-string bodies, are not modelled. A missing field is the only absence.
- Sessions, message inserts and the GET routes of `src/routes/conversation/index.ts` are left out. The `response.loading` test is left out too: generator records never carry the field.
- The crawl route's team check and insert loop (`src/routes/crawl/index.ts:127-144`) is left out. So are timestamps, ids, `startTime`, `duration`, `progressPercentage` (float division), `process.nextTick` and the pub/sub channel. Published statuses are a list.
- CrawlRoute.Crawl: crawls settle in input order. The source's `Promise.all` may interleave them within a batch. The counters promise the same totals in any order, but the model does not show that.
- CrawlRoute.SplitBatches: requires `batchSize > 0`, because the source's loop never ends for a non-positive size. A non-integer `batchSize` or `concurrency` is not modelled.
- A non-array `urls` and `null` entries of `urls` are not modelled.
- The transactions route's GraphQL request is left out, and its body is not modelled. The indexer's answer is an input. An array-valued `chain` query parameter and a `null` chain on an item are not modelled.
- ConversationRoute.DeliveredSpec: its last conjunct says only that an error-free stream is written whole. It is one direction; the delivered prefix is also the whole stream when the only error is on the last record.

## Findings

| source | as written | input that shows it | evidently intended | confidence | as-written member | corrected member |
|---|---|---|---|---|---|---|
| src/services/conversation.ts:605 | `relevantEmbeddings.find(({ index }) => index === index)` compares the destructured `index` with itself, so it always finds the first entry, and every non-critical item is reported with the first entry's score | one critical row and one non-critical row scored 7, with scores `[{score: 10, index: 0}, {score: 7, index: 1}]`: the second item is reported with score 10 | each selected row carries its own score, compared against the row's position | not executed | Assembly.AsWrittenMisreportsScore | Assembly.SelectedCarryOwnScore |

The generator runs the step as written (`Assembly.FilterAndSortContextAsWritten`), so the context it yields has the scores `Assembly.AsWrittenContextScores` describes. The corrected step (`Assembly.FilterAndSortContext`) is modelled beside it, and `Assembly.SelectedCarryOwnScore` is proved about it.
