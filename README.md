# GEORGE: retrieval path and HTTP edge, modelled in Dafny

GEORGE is a question-answering API about a podcast. Its answers draw on a
knowledge base of transcript segments and on a web search engine. This project
models and verifies the deterministic logic around that retrieval path and the
HTTP edge:

- **Memory plugin** (`memory_plugin.dfy`). This is `recall`: parse the recomposed
  queries, search once per query, de-duplicate, and dump the result. The
  de-duplication filter keys each result on its (podcast title, time stamp) pair
  and keeps the first occurrence. It is written as the source's loop over a
  `seen` set and proved equal to a reference definition, `FirstOccurrences`.
  Uniqueness, subsequence, first-wins, no lost keys, idempotence and the length
  law are proved about that reference definition.
- **SerpApi Bing connector** (`bing_serapi_connector.dfy`). This is `search` with
  the engine's `organic_results` given as input. It covers:
  - the argument checks
  - numbering of the first `num_results` results from 1
  - the regular-expression substitution `\[\d+\](\s*\.)?`, modelled as a
    left-to-right scan
  - the answer: each cleaned snippet followed by a fresh `[no]` marker, joined
    with spaces
- **Knowledge-base service** (`knowledge_base_service.dfy`). This is transcript
  ingestion, one record per segment with id `title-i`. Transcripts are handled
  one after another and the first refused save ends the run. It also covers
  `search_kb_async`, which delegates to the repository.
- **Knowledge-base repository** (`knowledge_base_repository.dfy`). This covers:
  - `save_memory`, which packs the time stamp into the metadata
  - `search_memory`, which maps the top hit, or gives an all-empty record
  - `initialize_knowledge_base`, which checks for collection `georgekb` and
    creates it if missing

  The store is an abstract state: a map from collection name to its list of
  records.
- **Request edge**. This covers:
  - `get_client_ip` (`client_ip.dfy`), over case-insensitive header lookup
    (`headers.dfy`)
  - `get_api_key` (`security.dfy`)
  - the `singleton` decorator (`singleton.dfy`)
  - the CORS origin list and the `check_origin` middleware (`cors.dfy`)

Shared pieces:
- `wrappers.dfy` holds the Option, Result and Outcome types.
- `text.dfy` holds Python's `str.strip`, `str.split`, `str.join` and integer
  formatting, with their round trips.
- `models.dfy` holds the record types of `app/models`.

Facts and effects the model takes as parameters instead of computing them:
- the store's failure behaviour, `rejects`
- the store's relevance search
- the knowledge-base search used by `recall`
- the outcome of the query-recomposition step
- the environment variables
- the request headers and peer address

## Model

| member | source | states |
|---|---|---|
| MemoryPlugin.FilterUniqueByTitleAndTimestamp | app/plugins/memory_plugin.py:72-81 | the loop with its `seen` set returns exactly the reference filter `FirstOccurrences` of the input |
| MemoryPlugin.FirstOccurrences | app/plugins/memory_plugin.py:72-81 | the reference filter keeps only input items, and a non-empty input keeps its first item first |
| MemoryPlugin.FirstOccurrencesUnique | app/plugins/memory_plugin.py:72-79 | no two output items share a (title, time stamp) key |
| MemoryPlugin.FirstOccurrencesKeys | app/plugins/memory_plugin.py:75-79 | the set of keys of the output equals the set of keys of the input: nothing is lost beyond duplicates |
| MemoryPlugin.KeptPositions | app/plugins/memory_plugin.py:75-79 | the output is the input read at strictly increasing positions, and those positions are exactly the ones holding the first item of their key |
| MemoryPlugin.FirstOccurrencesSubsequence | app/plugins/memory_plugin.py:75-79 | the output is a subsequence of the input, so relative order is preserved |
| MemoryPlugin.FirstOccurrenceWins | app/plugins/memory_plugin.py:76-79 | every output item is an input item that no earlier item shares a key with, and every such input item is in the output |
| MemoryPlugin.FirstOccurrencesOfUnique | app/plugins/memory_plugin.py:72-81 | a key-unique input comes back unchanged |
| MemoryPlugin.FirstOccurrencesIdempotent | app/plugins/memory_plugin.py:72-81 | filtering twice is filtering once |
| MemoryPlugin.FirstOccurrencesLength | app/plugins/memory_plugin.py:72-81 | the output is no longer than the input, and has the same length if and only if the input was key-unique |
| MemoryPlugin.Gather | app/plugins/memory_plugin.py:48 | one search per query in list order: a result exists if and only if no search raises, and then its i-th item is the record of the i-th query |
| MemoryPlugin.Recall | app/plugins/memory_plugin.py:39-57 | the empty list comes back if and only if parsing failed, `recomposed_queries` is missing, or some search raised; otherwise the records dumped are exactly the de-duplicated gathered results |
| BingSerApiConnector.MarkerLength | app/connectors/search_engine/bing_serapi_connector.py:76 | a match of the marker pattern starts with `[` and is at least three characters long |
| BingSerApiConnector.MarkerLengthIsLongestMatch | app/connectors/search_engine/bing_serapi_connector.py:76 | a positive `MarkerLength` is a match of `\[\d+\](\s*\.)?` at the start (`[`, digits, `]`, then nothing or whitespace and a dot), and no match there is longer; so 0 means that nothing matches |
| BingSerApiConnector.RemoveMarkers | app/connectors/search_engine/bing_serapi_connector.py:76 | the substitution never lengthens the snippet and only keeps characters of it |
| BingSerApiConnector.RemoveMarkersKeepsPlainText | app/connectors/search_engine/bing_serapi_connector.py:76 | text without `[` before the rest is kept unchanged, in order, and only the rest is scanned for markers |
| BingSerApiConnector.CleanSnippet | app/connectors/search_engine/bing_serapi_connector.py:75-76 | the cleaned snippet has no whitespace at either end, is no longer than the snippet, and holds only its characters |
| BingSerApiConnector.CleanSnippetWithoutBracket | app/connectors/search_engine/bing_serapi_connector.py:75-76 | a snippet without `[` is only stripped |
| BingSerApiConnector.CleanSnippetEveryBracketCites | app/connectors/search_engine/bing_serapi_connector.py:75-76 | when every `[` opens a marker, the cleaned snippet holds no marker and cleaning is idempotent on it |
| BingSerApiConnector.CleanSnippetCanLeaveMarker | app/connectors/search_engine/bing_serapi_connector.py:75-76 | `[[1]1]` cleans to `[1]`, which still holds a marker and cleans to the empty string: in general cleaning is neither marker-free nor idempotent |
| BingSerApiConnector.Enumerate | app/connectors/search_engine/bing_serapi_connector.py:55-63 | each item becomes a reference numbered `start + k` whose title, link and snippet are copied unchanged |
| BingSerApiConnector.Citations | app/connectors/search_engine/bing_serapi_connector.py:65 | one citation per reference, in order: its cleaned snippet followed by `[no]` |
| BingSerApiConnector.Answer | app/connectors/search_engine/bing_serapi_connector.py:65 | the answer is empty exactly when there are no references, and every reference's citation occurs in it |
| BingSerApiConnector.Search | app/connectors/search_engine/bing_serapi_connector.py:31-73 | an empty query, `num_results <= 0` and `num_results >= 50` are each refused with their own message, and success holds exactly for a non-empty query and 1..49; the references are `min(num_results, len(organic_results))` copies of the organic results numbered 1, 2, …, and the answer is built from them |
| BingSerApiConnector.AnswerWithoutReferences | app/connectors/search_engine/bing_serapi_connector.py:65 | with no references the answer is the empty string |
| BingSerApiConnector.AnswerCites | app/connectors/search_engine/bing_serapi_connector.py:65 | the marker `[k+1]` of the reference numbered k+1 occurs in the answer |
| BingSerApiConnector.AnswerCitesEveryReference | app/connectors/search_engine/bing_serapi_connector.py:55-65 | every reference number 1..k of a successful search occurs as a marker in its answer |
| KnowledgeBaseService.EnumerateSegments | app/services/knowledge_base_service.py:44-50 | one record per segment, the k-th with id `title-(start+k)`, the transcript's title, and the segment's content and time stamp |
| KnowledgeBaseService.SegmentId | app/services/knowledge_base_service.py:46 | the id starts with the title and `-`, and the rest is decimal digits that read back as the segment number |
| KnowledgeBaseService.TranscriptRecords | app/services/knowledge_base_service.py:44-50 | one record per segment of the transcript, the k-th (from 0) with id `SegmentId(title, k+1)`, the title, and the segment's content and time stamp |
| KnowledgeBaseService.FirstRejected | app/services/knowledge_base_service.py:53-56 | the position of the first save the store refuses: every save before it is accepted and the one at it is refused |
| KnowledgeBaseService.IngestRecords | app/services/knowledge_base_service.py:42-52 | ingestion produces exactly one record per segment of the corpus |
| KnowledgeBaseService.TranscriptRecordAt | app/services/knowledge_base_service.py:44-50 | the i-th segment (from 1) becomes the record with id `title-i`, the transcript's title, and the segment's content and time stamp |
| KnowledgeBaseService.SegmentIdInjective | app/services/knowledge_base_service.py:46 | two segment numbers give the same id only when they are equal |
| KnowledgeBaseService.TranscriptIdsDistinct | app/services/knowledge_base_service.py:44-46 | the ids within one transcript are pairwise distinct |
| KnowledgeBaseService.IngestRecordsAppend | app/services/knowledge_base_service.py:42-53 | ingesting two lists of transcripts one after the other gives the records of their concatenation |
| KnowledgeBaseService.IngestOrder | app/services/knowledge_base_service.py:42-53 | the records of transcript k come after those of every earlier transcript and before those of every later one |
| KnowledgeBaseService.IngestStepFails | app/services/knowledge_base_service.py:53-56 | when every earlier save was accepted, the first refusal in a transcript's batch is the first refusal of the whole run |
| KnowledgeBaseService.KnowledgeBaseService.IngestTranscripts | app/services/knowledge_base_service.py:37-56 | `georgekb` gains, in order, the records of the corpus up to the first refused save; no other collection changes; the result is success when nothing was refused, and otherwise the error of the first refused record |
| KnowledgeBaseService.KnowledgeBaseService.BuildTasks | app/services/knowledge_base_service.py:43-52 | the inner loop builds exactly the records of the transcript, numbered from 1 |
| KnowledgeBaseService.KnowledgeBaseService.SaveBatch | app/services/knowledge_base_service.py:26-35 | the saves of one batch, one after the other: the records before the first refusal are appended to `georgekb` and that refusal is raised |
| KnowledgeBaseService.KnowledgeBaseService.SearchKb | app/services/knowledge_base_service.py:58-68 | the result is exactly what the repository's search returns for the query |
| KnowledgeBaseRepository.TopHit | app/repository/knowledge_base_repository.py:79-91 | no hits give title, content and time stamp all `""`; otherwise title and content come from the first hit's description and text, and the time stamp from its metadata, defaulting to `""` |
| KnowledgeBaseRepository.ToMemoryRecord | app/repository/knowledge_base_repository.py:67-75 | the written record carries the id, the title as description and the content as text; its metadata has only the key `time_stamp`, which reads back as the record's time stamp |
| KnowledgeBaseRepository.TopHitIgnoresRest | app/repository/knowledge_base_repository.py:79-85 | hits after the first never change the result |
| KnowledgeBaseRepository.SavedMetadataHoldsOnlyTimeStamp | app/repository/knowledge_base_repository.py:68-70 | the metadata written holds the key `time_stamp` and nothing else |
| KnowledgeBaseRepository.SaveThenSearchRoundTrip | app/repository/knowledge_base_repository.py:67-85 | a record written by `save_memory` that comes back as the top hit maps back to its own title, content and time stamp |
| KnowledgeBaseRepository.MemoryStore.DoesCollectionExist | app/repository/knowledge_base_repository.py:94 | true exactly when the collection is in the store |
| KnowledgeBaseRepository.MemoryStore.CreateCollection | app/repository/knowledge_base_repository.py:96 | a missing collection is added, empty, and nothing else changes |
| KnowledgeBaseRepository.MemoryStore.Save | app/repository/knowledge_base_repository.py:71-75 | a write the store refuses raises and changes nothing; otherwise the record is appended to the collection and nothing else changes |
| KnowledgeBaseRepository.KnowledgeBaseRepository.SaveMemory | app/repository/knowledge_base_repository.py:67-75 | writes id, title as description, content as text and the time stamp as metadata to `georgekb`, or raises with no change |
| KnowledgeBaseRepository.KnowledgeBaseRepository.SearchMemory | app/repository/knowledge_base_repository.py:77-91 | searches `georgekb` at minimum relevance 0.6; no hits give an all-empty record, otherwise the first hit's description, text and metadata time stamp |
| KnowledgeBaseRepository.SearchMemoryUsesIndex | app/repository/knowledge_base_repository.py:77-78 | search depends only on what the store returns for `georgekb` at minimum relevance 0.6 |
| KnowledgeBaseRepository.KnowledgeBaseRepository.InitializeKnowledgeBase | app/repository/knowledge_base_repository.py:92-96 | `georgekb` exists afterwards; it is created empty only when it was absent, and otherwise nothing changes |
| KnowledgeBaseRepository.InitializeTwice | app/repository/knowledge_base_repository.py:92-96 | initialising twice leaves `georgekb` as initialising once: existing records are kept |
| Headers.Find | app/utils/get_client_ip.py:19 | the position of the first header whose name matches regardless of ASCII case |
| Headers.Get | app/utils/get_client_ip.py:19 | no value if and only if no header is so named; otherwise the value of the first such header |
| Headers.GetFront | app/utils/get_client_ip.py:19 | a header in front wins a lookup of its name, whatever its spelling |
| Headers.GetSkips | app/utils/get_client_ip.py:19 | headers with other names do not affect a lookup |
| ClientIp.ClientIpFrom | app/utils/get_client_ip.py:19-28 | a non-empty `X-Client-IP` gives that value with whitespace cut from both ends; otherwise a non-empty `X-Forwarded-For` gives the text before its first comma; otherwise the peer address |
| ClientIp.GetClientIp | app/utils/get_client_ip.py:19-28 | when the first `X-Client-IP` header is non-empty, its stripped value; otherwise when the first `X-Forwarded-For` is non-empty, its first entry; otherwise the peer address; header names matched regardless of case |
| ClientIp.FirstEntryUnique | app/utils/get_client_ip.py:27 | the first entry of a forwarded-for list is determined uniquely |
| ClientIp.ClientIpPrecedence | app/utils/get_client_ip.py:19-22 | a non-empty `X-Client-IP` decides alone, whatever the other header and the peer |
| ClientIp.EmptyHeaderIsAbsent | app/utils/get_client_ip.py:19-27 | an empty header value counts as a missing header |
| ClientIp.ForwardedWithoutComma | app/utils/get_client_ip.py:24-27 | a forwarded-for value without a comma is returned whole, unstripped |
| ClientIp.ForwardedListFirst | app/utils/get_client_ip.py:24-27 | a comma-joined list of comma-free entries yields its first entry |
| ClientIp.WhitespaceClientIp | app/utils/get_client_ip.py:19-22 | an `X-Client-IP` of whitespace only is truthy and gives the empty string |
| ClientIp.GetClientIpLowerCase | app/utils/get_client_ip.py:19-22 | a lower-case `x-client-ip` header is found like `X-Client-IP` |
| Security.ApiKeys | app/utils/security.py:16 | two configured keys, each the value of its variable, an unset variable giving `""` |
| Security.CheckApiKey | app/utils/security.py:26-33 | a key is accepted if and only if it is present, non-empty and one of the keys; a refusal is 403 "Could not validate API key" |
| Security.GetApiKey | app/utils/security.py:23-39 | a key is accepted if and only if it is present, non-empty and one of the keys, and then it is returned; every refusal is 403 "API key validation error" |
| Security.EmptyKeyRejected | app/utils/security.py:26 | a missing or empty key is refused even when an unset configured key equals `""` |
| Security.OneKeyConfigured | app/utils/security.py:16-27 | with one key unset, exactly the other key is accepted |
| Security.TwoKeysConfigured | app/utils/security.py:16-27 | with both keys set and non-empty, a key is accepted exactly when it is one of them |
| Security.InnerDetailNeverSurfaces | app/utils/security.py:30-39 | the inner detail never reaches the caller |
| Singleton.SingletonFactory.constructor | app/utils/singleton_decorator.py:11 | decorating starts with an empty cache and no construction |
| Singleton.SingletonFactory.GetInstance | app/utils/singleton_decorator.py:13-17 | a miss builds one instance with its arguments and caches it; a constructor that raises caches nothing, so the next call builds again; a hit returns the cached object and changes nothing; the class is built to completion at most once |
| Singleton.RepositorySingletons | app/main.py:52-53 | each decorated repository class gets its own instance, a second call returns the first object, and its arguments are ignored |
| Singleton.RetryAfterFailedBuild | app/utils/singleton_decorator.py:15-17 | after a raising build the next call builds with its own arguments, and a later call returns that instance |
| Cors.StripAll | app/main.py:37 | every piece of the split, stripped, in order; the stripped form of every piece is present |
| Cors.NonEmpty | app/main.py:37 | a string is kept if and only if it is a non-empty element of the input |
| Cors.KeptPieces | app/main.py:37 | the output is the input read at increasing positions, and those are exactly the positions of non-empty strings: order is kept |
| Cors.AllowedOrigins | app/main.py:37 | development allows exactly `["*"]`; otherwise every entry is non-empty and free of whitespace at both ends, and every piece of `CORS_ORIGINS` that is not blank is in the list, stripped |
| Cors.AllowedOriginsOrder | app/main.py:37 | outside development the list is the stripped pieces at increasing positions of the split, and those positions are exactly the pieces that are not blank |
| Cors.AllowedOriginsFromEnv | app/main.py:29-37 | `ENVIRONMENT=development` gives `["*"]`; an unset `ENVIRONMENT` reads the pieces as in production; an unset `CORS_ORIGINS` outside development gives no origin |
| Cors.OriginEntriesFromPieces | app/main.py:37 | every allowed origin is some comma-separated piece of `CORS_ORIGINS`, stripped |
| Cors.OriginEntriesAppend | app/main.py:37 | the list of two concatenated piece lists is the concatenation of their lists |
| Cors.OriginEntriesOfClean | app/main.py:37 | pieces that are already clean are all kept, in order |
| Cors.AllowedOriginsJoin | app/main.py:37 | outside development, a comma-joined list of clean, comma-free origins is read back exactly |
| Cors.UnsetCorsOriginsAllowsNone | app/main.py:29-37 | outside development an unset `CORS_ORIGINS` allows no origin |
| Cors.UnsetEnvironmentIsProduction | app/main.py:29 | an unset `ENVIRONMENT` reads as production |
| Cors.CheckOrigin | app/main.py:76-81 | a request passes if and only if its origin is missing, empty or in the list; otherwise it gets 403 "Invalid origin" |
| Cors.CheckRequestOrigin | app/main.py:76-81 | a request passes exactly when its first `origin` header is empty or allowed, or there is none; otherwise 403 "Invalid origin" |
| Cors.NoOriginPasses | app/main.py:77-78 | a request without a non-empty `origin` header always passes |
| Cors.DevelopmentRejectsRealOrigins | app/main.py:76-79 | in development every non-empty origin other than the literal `*` is refused, because membership is exact |
| Cors.EmptyListRejects | app/main.py:78-79 | when no origin is allowed, every non-empty origin is refused with 403 |
| Text.Strip | app/utils/get_client_ip.py:22 | the result has no whitespace at either end and is a slice of the input |
| Text.StripTrimmed | app/utils/get_client_ip.py:22 | everything `strip()` cuts off is whitespace |
| Text.StripIdempotent | app/connectors/search_engine/bing_serapi_connector.py:76 | stripping twice is stripping once |
| Text.Split | app/utils/get_client_ip.py:27 | at least one part, none holding the separator, the first part being the text before the first separator |
| Text.JoinSplit | app/main.py:37 | joining the parts of a split with the separator gives back the string |
| Text.SplitJoin | app/main.py:37 | splitting a join of separator-free parts gives back the parts |
| Text.NatToStringInjective | app/services/knowledge_base_service.py:46 | distinct numbers print distinctly |

## Left out

- I/O is replaced by parameters, as listed above. This covers the web search HTTP call, the semantic memory store, the kernel's query recomposition, `.env` loading and the FastAPI request.
- Logging is not modelled anywhere; no modelled decision depends on it.
- Concurrency is modelled sequentially. The `asyncio.gather` calls and the `Semaphore(5)` bound (app/services/knowledge_base_service.py:9, 24, 33) are not captured. Searches run one after another in query order. Saves run one after another, and the first refused save ends ingestion. With real concurrency, saves after a refused one inside the same batch may still land.
- KnowledgeBaseService.KnowledgeBaseService.IngestTranscripts: the corpus `TRANSCRIPTS` is a parameter. `app/utils/transcripts.py` is not part of this model.
- MemoryPlugin.FilterUniqueByTitleAndTimestamp: the time stamp is modelled as a string. So the source's `item.time_stamp or ""`, which makes `None` and `""` the same key, is not a separate case here.
- MemoryPlugin.Recall: the returned value is a structure, not the JSON text of `json.dumps`. An error gives the empty list (not the text "[]"), and the model keeps that distinction.
- MemoryPlugin.Recall: the recomposition result is either an error or an object whose `recomposed_queries` is a list of strings or missing. Two further cases are not represented. If `recomposed_queries` decodes to a string, Python iterates it and makes one search per character. A top-level JSON value that is not an object raises `TypeError`, and so gives `[]`; the model folds it into the error case.
- MemoryPlugin.Recall: the search is the declared `PodCastKnowledgeBaseModel` search. At app/plugins/memory_plugin.py:48 the source calls `search_kb`, which does not exist (only `search_kb_async` does). The repository also returns dictionaries keyed `title`, not `podcast_title`. The end-to-end request flow is therefore not modelled.
- BingSerApiConnector.Search: the result is the structure that `json.dumps` encodes, not its text.
- BingSerApiConnector.Search: a missing organic field (`result.get` returning `None`) is not modelled. Neither is the `TypeError` that a `None` snippet raises in the substitution.
- BingSerApiConnector.CleanSnippet: does not promise that the result is marker-free or idempotent for every snippet. One substitution pass can join text into a new marker, as `CleanSnippetCanLeaveMarker` proves on `[[1]1]`. Both properties are proved under the condition of `CleanSnippetEveryBracketCites`.
- BingSerApiConnector.MarkerLength: `\d` and `\s` are read as ASCII digits and Python's whitespace set. Unicode digits that `\d` also matches are not modelled.
- KnowledgeBaseService.KnowledgeBaseService.SearchKb: the service calls the repository's `search_memory_async` (app/services/knowledge_base_service.py:68) and `save_memory_async` (line 35). These are the names declared by `MemoryRepositoryBase` (app/contract/memory_repository_base.py:11, 21). `KnowledgeBaseRepository` (app/repository/knowledge_base_repository.py:61) does not derive from that base and defines only `search_memory` and `save_memory`. As written, both calls therefore raise `AttributeError`. The model connects the service to `SearchMemory` and `SaveMemory`, which is the evidently intended behaviour.
- KnowledgeBaseRepository.KnowledgeBaseRepository.SearchMemory: the relevance search is an abstract function of (collection, query, minimum relevance). Embeddings and scoring are not modelled. The metadata is held already decoded, so the JSON encode/decode pair is the identity.
- KnowledgeBaseRepository.MemoryStore.Save: the store is modelled as append-only, so saving the same id twice leaves two records. The semantic memory store writes by id, replacing an existing record, and that upsert is not modelled.
- KnowledgeBaseRepository.KnowledgeBaseRepository.InitializeKnowledgeBase: the `async with` context of the store is not modelled.
- ClientIp.GetClientIp: `request.client` being `None` is not modelled; the peer address is a string.
- Headers.Lower: header names are compared with ASCII lower-casing only.
- Security.GetApiKey: a logging failure inside the `try` would also become the outer 403, and this is not modelled separately.
- Singleton.SingletonFactory.GetInstance: keyword arguments are folded into `args`. Class identity is modelled by the class name.
- Cors.CheckRequestOrigin: the response is the decision `Reject(403, "Invalid origin")`, not a `JSONResponse`. Passing on to `call_next` is `PassThrough`.
- The other parts of the repository are not part of this model. These are the kernel repository, the QA, OpenAI, chat-history and memory-store services, the prompt configuration, the endpoints and dependency wiring, rate limiting, `log_request` and the global exception handler. They forward to libraries whose behaviour is not visible.
