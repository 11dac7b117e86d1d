# Health Chatbot core in Dafny

This project models the core of a Vietnamese health chatbot and proves properties of that model. The chatbot retrieves articles by RAG fusion, crawls and chunks health articles, and streams answers to a browser over Server-Sent Events.

The modules follow the repository's files:

- `Rag` (`rag.py`): the retrieval side.
  - The line split of the query-expansion output.
  - The two-stage `health_retriever`. The top 3 article summaries give a set of document ids, and the top 10 detail chunks are searched among those ids only. The vector store is abstract.
  - `reciprocal_rank_fusion`, an imperative method. It is proved equal to a functional specification `Fuse`. That is a stable, descending sort by score of every document seen, with each document's score being the sum of 1/(rank + k).
  - The tool facade `run_retrieval_only`, which turns every failure into an error text.
- `Crawling` (`data/crawling.py`): `process_html_to_documents` and `extract_text_between_tags`.
  - A fetched article becomes a full document plus one chunk per h2/h3/h4 heading whose section has text.
  - Each chunk carries the heading path in force at that heading (`section_h1` … `section_h4`), the URL and the document id.
  - The loops are methods proved against functional specifications.
- `Wire`: the four stream events and their `data: …` framing, shared by server and client.
- `Server` (`main.py`):
  - The event sequence `generate_response` yields on each path: LLM answer, LLM failure falling back to the canned text, no LLM, and an unexpected exception.
  - The `gemini_status` rule of `/health`.
- `Client` (`static/script-minimal.js`):
  - The `streamResponse` fold over received text.
  - `formatMessage`, `getToastIcon` and `getErrorMessage`.
  - The send-button rule and the character counter.
  - The page state `sendMessage` changes: input, `isLoading` and `messageCount`. This is a class.
- `RoundTrip`: what the server sends is exactly what the client's fold sees, and the bubble it ends with on each server path.
- `Strings` and `Common`: the text primitives of both languages and shared datatypes. Python's `split` and `strip`, JavaScript's `trim`, the two different whitespace sets, and UTF-16 length are each written out.

Two behaviours of the code are modelled as written and stated as lemmas:

- When the LLM stream raises after it has started, the server sends two `metadata` events: `ai_powered` true, then false. The client does not reset its text on the second one, so the fallback words are appended to the partial AI text (`Server.MetadataEvents`, `RoundTrip.FailedLlmKeepsPartialText`).
- The client's read loop stops at `end` only within one read. Lines cut across two reads are not buffered. The round-trip results hold when every read carries whole frames.

## Model

| member | source | states |
|---|---|---|
| Rag.ReciprocalRankFusion | rag.py:83-102 | the loop over lists and ranks with the score map and insertion-ordered keys, then the descending sort, returns exactly `Fuse(results, k)` |
| Rag.AccumulateStep | rag.py:91-95 | one inner iteration adds `1/(rank + k)` to the current document only; the document is new to the keys exactly when its score so far is 0 |
| Rag.NextList | rag.py:91-95 | finishing one list extends the keys seen and adds that list's contribution to every score |
| Rag.ItemsAreScored | rag.py:97-99 | the `(doc, score)` items read from the map in key order are the scored keys of the specification |
| Rag.ListScoreSign | rag.py:92-95 | one list's contribution is never negative and is positive exactly when the document occurs in it |
| Rag.ScoreSign | rag.py:91-95 | a fused score is never negative and is positive exactly when the document occurs in some list |
| Rag.ScoreAppend | rag.py:91-95 | the score over two groups of lists is the sum of the two scores |
| Rag.ScoreOrderFree | rag.py:91-95 | reordering the result lists does not change any score |
| Rag.SelfFusionDoubles | rag.py:91-95 | fusing a list with itself doubles every score |
| Rag.AddKeysProps | rag.py:88-95 | the keys of `fused_scores` stay distinct and are exactly the documents seen |
| Rag.AddKeysAbsorbs | rag.py:93-95 | documents already keyed add no key |
| Rag.SeenProps | rag.py:88-95 | the keys after all lists are distinct and are exactly the documents occurring in some list |
| Rag.InsertProps | rag.py:97-100 | inserting into a descending list keeps it descending and is a permutation of list plus item |
| Rag.InsertSorted | rag.py:97-100 | insertion keeps the order descending |
| Rag.InsertPermutes | rag.py:97-100 | insertion adds exactly the item (multiset) |
| Rag.InsertElements | rag.py:97-100 | an item is in the result exactly when it is the inserted one or was there before |
| Rag.SortProps | rag.py:97-100 | `sorted(..., reverse=True)` yields a descending permutation of its input |
| Rag.InsertKeepsTies | rag.py:97-100 | among items of equal score, insertion keeps the new item first, as a stable sort of it placed in front would |
| Rag.SortKeepsTies | rag.py:97-100 | the sort is stable: items of equal score keep their input order |
| Rag.InsertKeepsDistinct | rag.py:97-100 | inserting a document not yet present keeps documents distinct |
| Rag.SortKeepsDistinct | rag.py:97-100 | sorting keeps documents distinct |
| Rag.Fuse | rag.py:83-102 | the fused ranking is in non-increasing score order, with one entry per distinct document seen |
| Rag.FuseScores | rag.py:83-102 | every entry's score is the document's RRF score, and it is positive |
| Rag.FuseEntries | rag.py:83-102 | each document appears at most once, and a document appears exactly when it occurs in some list |
| Rag.FuseTiesFirstSeen | rag.py:83-102 | documents with equal scores come in the order they were first seen |
| Rag.FuseEmpty | rag.py:83-102 | lists with no documents fuse to nothing |
| Rag.InsertDoubled | rag.py:97-100 | doubling every score commutes with insertion |
| Rag.SortDoubled | rag.py:97-100 | doubling every score commutes with the sort |
| Rag.FuseSelfDoubles | rag.py:83-102 | fusing a list with itself gives the same ranking as the list alone, with scores doubled |
| Rag.ConsensusRanksFirst | rag.py:83-102 | with k = 60, a document ranked first and third scores 1/60 + 1/62 and ranks above a document ranked first once |
| Rag.HealthRetriever | rag.py:65-79 | one or two requests, the first being the 3 unfiltered summaries; with one request the retriever raises; with two, the second is a filtered detail search whose answer is the result |
| Rag.RetrieverRequests | rag.py:65-79 | the retriever first asks for 3 unfiltered summaries; it makes a second, detail request (k = 10, filtered to the summary ids) exactly when that search and the id extraction succeeded; otherwise it raises |
| Rag.DocIdsOfHits | rag.py:71 | the id set holds exactly the `doc_id`s of the hits and is no larger than the hit list |
| Rag.IdSetSize | rag.py:71 | the id set is no larger than the hit list |
| Rag.RetrieverBounds | rag.py:68-78 | against a store that returns at most `k` results, at most 3 ids and at most 10 chunks come back |
| Rag.RetrieverTraceable | rag.py:65-79 | against a store that honours the `$in` filter, every returned chunk's `doc_id` is that of a top-3 summary hit, and no summary hits means no chunks |
| Rag.GenerateQueries | rag.py:58-63 | the expansion succeeds exactly when the model call does, passes its failure on unchanged, and yields one query more than the newlines in the text |
| Rag.QueriesAreLines | rag.py:58-63 | the expansion yields one query per line (newline count + 1), none contains a newline, and joining them with newlines gives back the text |
| Rag.RetrieveAll | rag.py:105 | a successful `map()` yields one result list per query; an empty query list never fails |
| Rag.RetrieveAllProps | rag.py:105 | retrieval of all queries succeeds exactly when each query's retrieval does, and then yields their results in query order |
| Rag.RetrieveAllFirstError | rag.py:105 | when `map()` raises, it raises the failure of the first query whose retrieval failed, every earlier query having succeeded |
| Rag.RunRetrievalOnly | rag.py:111-116 | a ranking comes back only after a successful expansion and is in descending score order; any error text starts with the error prefix |
| Rag.FacadeTotal | rag.py:105-116 | the tool returns a ranking exactly when expansion and every retrieval succeed, and that ranking is the fusion of the retrieved lists with k = 60; otherwise it returns the error prefix followed by the text of the expansion failure or of the first failing query's retrieval, never raising |
| Rag.FacadeTraceable | rag.py:105-116 | every ranked chunk traces back to a top-3 summary hit of one of the expanded queries |
| Strings.Split | rag.py:62 | `split` on one character gives at least one part, one more than the separator count |
| Strings.SplitJoin | rag.py:62 | joining the parts with the separator gives back the text, and no part contains it |
| Strings.JoinSplit | rag.py:62 | splitting a join of separator-free parts gives back the parts |
| Strings.TrimStartProps | data/crawling.py:78 | left trimming removes exactly the leading whitespace run |
| Strings.TrimEndProps | data/crawling.py:78 | right trimming removes exactly the trailing whitespace run |
| Strings.TrimNonEmpty | data/crawling.py:78 | a stripped text is non-empty exactly when the text has a non-whitespace character |
| Strings.Words | main.py:125 | `str.split()` yields non-empty words containing no whitespace |
| Strings.WordsKeepText | main.py:125 | the words of `split()` concatenated give the text with its whitespace removed |
| Strings.WithoutSpacesAppend | main.py:125 | removing whitespace distributes over concatenation |
| Strings.WordsOfSpaces | main.py:125 | a text of whitespace only has no words |
| Strings.WordsOfWord | main.py:125 | a non-empty text without whitespace is one word |
| Strings.WordsAtSpace | main.py:125 | splitting at a whitespace character gives the words before it followed by the words after it, so every maximal whitespace-free run is one word |
| Strings.NatToStringRoundTrip | static/script-minimal.js:42 | the decimal rendering of a length reads back as that length |
| Crawling.StrippedStrings | data/crawling.py:28 | `strip=True` keeps at most the given strings, each non-empty |
| Crawling.StrippedInOrder | data/crawling.py:28 | `strip=True` keeps, in order, the stripped form of exactly the strings whose strip is non-empty |
| Crawling.ExtractTextBetweenTags | data/crawling.py:21-29 | the sibling loop returns the paragraph and list texts before the end tag, joined by newlines |
| Crawling.CollectedToEnd | data/crawling.py:21-29 | with no end tag, every paragraph or list sibling up to the end is collected |
| Crawling.CollectedUpTo | data/crawling.py:24-28 | with an end tag that first occurs at `stop`, exactly the content siblings before it are collected |
| Crawling.HeadingPositions | data/crawling.py:56 | the headings found are positions within the article |
| Crawling.HeadingPositionsProps | data/crawling.py:56 | the positions found are exactly the h2/h3/h4 children, in document order |
| Crawling.Step | data/crawling.py:65-73 | a heading adds no key beyond the h2/h3/h4 keys, never changes `section_h1`, and a tag other than h2/h3/h4 changes nothing |
| Crawling.StepEffect | data/crawling.py:65-73 | an h2 sets `section_h2` and drops h3 and h4; an h3 sets `section_h3` and drops h4; an h4 sets `section_h4`; all other keys are kept |
| Crawling.StepUnfolds | data/crawling.py:65-73 | each heading level's map update written as set-then-pop |
| Crawling.EnterHeading | data/crawling.py:65-73 | the in-place `context_map` update equals the context step |
| Crawling.ContextNext | data/crawling.py:61-73 | the context after heading `i` is one step from the context before it |
| Crawling.ContextAtIsAfter | data/crawling.py:57-73 | the context at heading `n` is the h1 context stepped through the first `n` headings |
| Crawling.ContextIsPath | data/crawling.py:57-73 | after any headings, the context is their path: h1 text, the last h2, the last h3 after it, and the last h4 after that |
| Crawling.ContextH1 | data/crawling.py:57-58 | `section_h1` is always the h1 text, or `N/A` when there is no h1 |
| Crawling.ContextH2 | data/crawling.py:65-68 | `section_h2` is present exactly when some h2 was seen, and it is the last one |
| Crawling.ContextH3 | data/crawling.py:65-71 | `section_h3` is present exactly when an h3 came after the last h2, and it is the last such |
| Crawling.ContextH4 | data/crawling.py:65-73 | `section_h4` is present exactly when an h4 came after the last h2 or h3, and it is the last such |
| Crawling.PathOfContextAt | data/crawling.py:61-73 | the context at heading `n` is the path of the first `n` headings |
| Crawling.NothingEqualsNextHeading | data/crawling.py:25 | no sibling between two consecutive headings equals the later one, so the break happens at the next heading |
| Crawling.SectionBetweenHeadings | data/crawling.py:75-76 | a heading's section is the content between it and the next heading, or up to the end for the last heading |
| Crawling.ChunkEmitted | data/crawling.py:78-84 | a chunk is emitted exactly when the section has a non-whitespace character, and its text is heading, `": "`, section |
| Crawling.ChunkMetadata | data/crawling.py:79-85 | a chunk's metadata is the heading path at its heading plus `url` and `doc_id`, and nothing else |
| Crawling.AddIds | data/crawling.py:80-82 | adding `url` and `doc_id` to a copied context keeps the context intact |
| Crawling.ChunksNext | data/crawling.py:75-86 | one loop iteration appends the chunk for that heading, or nothing when its section is blank |
| Crawling.ChunkHeading | data/crawling.py:62-86 | one pass of the loop body moves the context to the next heading and the chunks to those of one more heading |
| Crawling.ChunkByHeadings | data/crawling.py:60-86 | the heading loop returns the chunks of all headings in order |
| Crawling.ChunksArePresent | data/crawling.py:60-86 | the chunks are the emitted candidates, one per heading, in order |
| Crawling.ChunksInHeadingOrder | data/crawling.py:60-86 | chunk `j` comes from heading `origins[j]`, the origins increase, and a heading yields a chunk exactly when its section is non-blank |
| Crawling.ChunksArePrefixes | data/crawling.py:60-86 | the chunks of fewer headings are a prefix of the chunks of more |
| Crawling.Process | data/crawling.py:31-88 | a full document comes back exactly when the page was fetched and has the article; without it there are no chunks either |
| Crawling.ProcessHtmlToDocuments | data/crawling.py:31-88 | the method returns exactly `Process(url, page, docId)` |
| Crawling.ProcessProps | data/crawling.py:31-88 | a failed fetch or missing article gives nothing; otherwise the full document has the newline-joined text with `url` and `doc_id`; there are at most as many chunks as headings; every chunk carries the URL, the document id and the h1 text |
| Server.StartupLlm | main.py:33-42 | an LLM is created exactly when the key is set and non-empty |
| Server.GeminiStatus | main.py:64 | `available` exactly when an LLM exists and the key is non-empty, else `not_configured` |
| Server.StatusFollowsKey | main.py:33-64 | with the start-up LLM, the status depends on the key alone |
| Server.NonEmpty | main.py:103-106 | the chunks forwarded are the non-empty ones |
| Server.NonEmptyInOrder | main.py:103-106 | the forwarded chunks are, in order, exactly the non-empty chunks: chunk `j` forwarded is chunk `at[j]` received, the positions increase, and a chunk is forwarded exactly when it is non-empty |
| Server.NonEmptyKeepsText | main.py:103-106 | skipping empty chunks loses no text |
| Server.Response | main.py:76-143 | every stream has at least two events, starts with metadata, and ends with `end(success)` when no exception reached the outer handler and `end(limited)` when one did |
| Server.GenerateResponse | main.py:76-143 | the generator yields exactly the event sequence `Response` |
| Server.TryBlock | main.py:77-130 | the outer `try` yields the LLM events, the fallback events, or both after an LLM error |
| Server.StreamWords | main.py:121-130 | the word loop yields metadata, the words numbered from 0, and end |
| Server.WordStreamShape | main.py:121-130 | a word stream is `metadata(false)`, word `i` at position `i + 1`, and a final `end`, with no other `end` and no AI metadata |
| Server.TryEventsShape | main.py:77-130 | without an outer exception the stream starts with metadata saying whether an LLM is configured, ends with `end(success)`, has no earlier `end`, and has no later AI metadata |
| Server.Framed | main.py:76-143 | every response starts with metadata and ends with its only `end` |
| Server.StatusTellsFault | main.py:110-143 | the final status is `limited` exactly when an exception reached the outer handler, and `success` exactly when none did |
| Server.AiPoweredOnlyFromLlm | main.py:79-100 | `ai_powered: true` is only ever the first event, and only when an LLM is configured |
| Server.MetadataEvents | main.py:79-130 | without an outer exception there is one metadata event, or two when the configured LLM raised |
| Server.LlmChunksForwarded | main.py:99-110 | on the LLM path the events after metadata are the non-empty chunks in order, carrying all the LLM's text |
| Server.FallbackWordsIndexed | main.py:119-130 | without an LLM the stream is metadata, the fallback text's words with indices 0, 1, …, and `end(success)` |
| Server.ErrorWordsIndexed | main.py:132-143 | after an outer exception the stream ends with metadata, the error text's words numbered from 0, and `end(limited)` |
| Client.StreamResponse | static/script-minimal.js:115-157 | the read loop leaves the bubble state `Replay(Start, received, decode)` |
| Client.ReadChunk | static/script-minimal.js:120-156 | the line loop over one read folds in the decoded events up to the first `end` |
| Client.ReadLinesApplies | static/script-minimal.js:121-151 | folding one read's lines is applying its decoded events up to and including the first `end` |
| Client.ReplayApplies | static/script-minimal.js:116-157 | the read loop is applying the events of all reads in order |
| Client.Apply | static/script-minimal.js:128-151 | `metadata` opens one more bubble, takes its `ai_powered` and keeps the text; other events only extend the text and render the open bubble, and change nothing while no bubble is open |
| Client.IgnoredBeforeMetadata | static/script-minimal.js:132-137 | chunks and words before any metadata change nothing |
| Client.ChunksAppend | static/script-minimal.js:132-134 | chunk events append their contents verbatim to the open bubble |
| Client.WordsAppend | static/script-minimal.js:135-137 | word events append their words separated by single spaces |
| Client.ReplaceNewlines | static/script-minimal.js:252 | no newline is left after the first replacement |
| Client.NewlinesBecomeBreaks | static/script-minimal.js:252 | the result is the content's lines joined by `<br>` |
| Client.ReplaceNewlinesUnchanged | static/script-minimal.js:252 | text without a newline is unchanged |
| Client.CloseAt | static/script-minimal.js:253-255 | the lazy group ends at the first delimiter after its start, with no line terminator before it; when it finds none, no delimiter occurs before the first line terminator |
| Client.CloseWithin | static/script-minimal.js:253-255 | the lazy group stops at the first delimiter when nothing earlier ends or starts one |
| Client.ReplacePairs | static/script-minimal.js:253-255 | every character of the output comes from the text or from one of the two tags |
| Client.ReplacePairsNoMatch | static/script-minimal.js:253-255 | text where the delimiter never occurs is unchanged |
| Client.ReplacePairsUnchanged | static/script-minimal.js:253-255 | text without the delimiter's first character is unchanged |
| Client.ReplaceOnePair | static/script-minimal.js:253-255 | `DxD` with `x` on one line and free of `D` becomes `open x close` |
| Client.FormatMessage | static/script-minimal.js:250-256 | formatted text holds no raw newline |
| Client.PlainTextUnchanged | static/script-minimal.js:250-256 | text without newlines, stars or backquotes is shown as is |
| Client.BoldMarkup | static/script-minimal.js:253-254 | `**x**` becomes `<strong>x</strong>`, not italics |
| Client.NoDoubleStar | static/script-minimal.js:253 | `*x*` has no bold match |
| Client.ItalicMarkup | static/script-minimal.js:253-254 | `*x*` with non-empty `x` becomes `<em>x</em>` |
| Client.ToastIcon | static/script-minimal.js:282-290 | a known type gets its icon; any other type gets `info-circle` |
| Client.ErrorMessage | static/script-minimal.js:293-306 | a failed fetch gives the connection help; else a `500` gives the server-trouble text; else the generic text around the message |
| Client.UnknownErrorQuoted | static/script-minimal.js:301-304 | the generic text contains the error message |
| Client.CanSend | static/script-minimal.js:47-49 | sending is allowed exactly when the input has a non-whitespace character and nothing is loading |
| Client.NoSendWhileLoading | static/script-minimal.js:49 | nothing can be sent while a reply is loading |
| Client.Utf16Length | static/script-minimal.js:41 | `length` is between the character count and twice it, and equals it when every character is in the BMP |
| Client.CounterShowsLength | static/script-minimal.js:40-44 | the counter reads `length/500`, its digits read back as the length, and it turns red exactly from 451 |
| Client.ChatPage.constructor | static/script-minimal.js:2-3 | the page starts with an empty input, not loading, and no messages counted |
| Client.ChatPage.Type | static/script-minimal.js:31-36 | typing replaces the input and changes nothing else |
| Client.ChatPage.BeginSend | static/script-minimal.js:58-73 | when sending is enabled, it takes the trimmed input, clears the box and starts loading; otherwise nothing changes |
| Client.ChatPage.FinishSend | static/script-minimal.js:84-89 | loading ends and one more message is counted, however the stream ended |
| RoundTrip.FramesDecode | static/script-minimal.js:121-126 | the lines of framed events decode back to exactly those events |
| RoundTrip.ThroughEndKeepsAll | static/script-minimal.js:138-150 | when `end` is only last, stopping at it loses nothing |
| RoundTrip.ReadsDeliverAll | static/script-minimal.js:116-157 | reads of whole frames deliver every event sent, in order |
| RoundTrip.ClientSeesResponse | static/script-minimal.js:116-157 | the client's fold over any whole-frame split of the response equals applying the server's events in order |
| RoundTrip.AiAnswerRebuilt | main.py:99-110 | an answered LLM run leaves one AI bubble showing all the chunks' text |
| RoundTrip.FallbackRebuilt | main.py:119-130 | without an LLM the bubble shows the fallback text's words separated by single spaces |
| RoundTrip.FailedLlmKeepsPartialText | main.py:113-130 | a failed LLM run leaves two bubbles, the last one not AI, showing the partial AI text followed by the fallback words |
| RoundTrip.WordStreamApplies | static/script-minimal.js:128-137 | a word stream opens a non-AI bubble and appends its words |
| RoundTrip.FallbackHasWords | main.py:119-125 | the fallback text has at least one word |
| Common.PresentInOrder | data/crawling.py:78-86 | the kept entries are exactly the present ones, in their original order |

## Left out

- The vector store (Chroma, embeddings, similarity) is an abstract function from request to result. Its behaviour is assumed only where a lemma says so: `Bounded` (at most `k` results) and `HonoursFilter` (the `$in` filter is obeyed).
- The LLM calls: query expansion and the chat model are inputs. They are the generated text, or what the stream delivered and whether it raised.
- `retriever.map()` is modelled as retrieval of each query in turn, with the first failure raised. Parallelism is not modelled.
- `dumps`/`loads` of documents are left out: a document is identified by its text and metadata.
- Scores are exact reals, not floating point. Ties therefore compare exactly.
- `get_doc_id` (MD5) is an uninterpreted function supplied by the caller.
- HTML parsing and `clean_html`: the article is given as its text strings and the flat sequence of its children after cleaning. Nested headings inside other elements are not modelled. `sibling == end_tag` is structural equality of name and text.
- `requests`, link discovery, the module-level crawl and the JSON dump at data/crawling.py:90-128 are left out, as I/O.
- data/indexing.py and model.py are not part of this model.
- FastAPI routing, `time.sleep`, printing and the ChromaDB probe of `/health` are left out. Only the Gemini status rule is modelled.
- JSON is abstract. The server's encoder and the client's parse-and-dispatch are parameters, related only by `OneLine` (no raw newline in an encoding) and `Inverts` (parsing reads back what was encoded).
- Where an exception reaches the outer handler of `generate_response` is a parameter (`Fault`), not derived from code.
- The DOM, timers, toast rendering, scrolling, `fetch` and HTTP errors, and `TextDecoder` are left out. The client receives the decoded text of each read.
- Client.ToastIcon: prototype property names (`toString` and the like) are not modelled. The page only passes the four known types.
- Client.ChatPage.BeginSend: the asynchronous interleaving of `sendMessage` is cut into `BeginSend` and `FinishSend`. Rendering the messages is not modelled.
- Rag.ReciprocalRankFusion: `k` is a natural number greater than 0 here. The source accepts any number and raises `ZeroDivisionError` when `rank + k == 0`. Its only caller, the chain at rag.py:105, uses the default `k = 60`.
- RoundTrip.ClientSeesResponse: holds only when every read carries whole frames. The client does not buffer partial lines across reads.
