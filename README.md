# RAGify core in Dafny

A model of the retrieval pipeline of RAGify, an API documentation explorer. The model covers:

- the text normaliser and chunker (`clean_text`, `chunk_text`);
- the embeddings manager that turns scraped documents into stored records and formats search results (`add_documents`, `search_similar`);
- the assistant that builds the prompt context, the message list and the answer (`_prepare_context`, `generate_response`, `search_and_respond`);
- the scraper's decisions on a fetched page (`_get_source`, `_get_title`, `_get_content`, `scrape_url`).

Files:

- `wrappers.dfy` — `Option` and `Min`.
- `text.dfy` — Python's `str.strip`, `str.split`, `str.join` and `str.rfind`, and `clean_text` with its normal form.
- `chunker.dfy` — `chunk_text`. The imperative loop (`ChunkText`) is proved equal to a specification built from the list of windows the loop visits (`WindowsFrom`, `Pieces`, `Chunking`).
- `records.dfy` — the dictionaries passed between the components, as datatypes with optional fields. A `.get(key, default)` becomes `GetOr(default)`.
- `embeddings.dfy` — `EmbeddingsManager`.
  - A class whose store is an append-only sequence field, `collection`.
  - The embedder is an opaque function `embed`. The store's nearest-neighbour query is an opaque function `nearest`. `uuid4` is a draw function `uuid` indexed by a counter.
  - `add_documents` is proved to append exactly the records of a specification function, `BuildEntries`, in batches of 50.
- `rag.dfy` — `SmartApiAssistant`. The language-model call is a parameter `complete`, from the message list to a completion or a failure.
- `scraper.dfy` — the scraper over the parser's findings (`ParsedPage`). It includes the part of Python's `urllib.parse.urlparse` that `_get_source` and `_get_title` rely on.

The model follows the code on these points:

- Search results are not deduplicated by URL.
- No more candidates than `n_results` are requested from the store.
- A text that fits in one window is returned as it is, not trimmed. So `chunk_text("")` is `[""]`.
- Similarity is `1 - distance` as the store reports it. It is not clamped to `[0, 1]`.

## Model

| member | source | states |
|---|---|---|
| Text.Strip | src/utils.py:30 | `str.strip()`: the result has no whitespace at either end, and it is empty exactly when the text is whitespace only |
| Text.StripTrims | src/utils.py:30 | `str.strip()` removes whitespace only, and only at the ends: the result is a slice `s[lo:hi]` with whitespace only before `lo` and after `hi` |
| Text.StripKeepsStripped | src/utils.py:48 | stripping a string that has no whitespace at its ends returns it unchanged |
| Text.Split | src/utils.py:30 | `str.split()`: every word is non-empty and free of whitespace; there are no words exactly when the text is whitespace only |
| Text.Join | src/utils.py:30 | `sep.join(parts)`: `""` for no parts, otherwise the parts in order with `sep` between each two, as `JoinPlacesParts` states |
| Text.JoinPlacesParts | src/utils.py:30 | in `sep.join(parts)`, part k sits at the offset given by the lengths of the parts before it plus one `sep` each, a `sep` follows every part but the last, and the last part ends the string |
| Text.SplitWord | src/utils.py:30 | a non-empty text without whitespace splits into itself alone |
| Text.SplitAtSpace | src/utils.py:30 | splitting at any whitespace character: the words of `a + c + b` are the words of `a` followed by the words of `b` |
| Text.SplitJoinWords | src/utils.py:30 | joining words with single spaces and splitting again gives the same words back |
| Text.Replace | src/utils.py:30 | `str.replace` of one character: the same length, each occurrence of the old character replaced, every other character kept |
| Text.VisibleOfSplit | src/utils.py:30 | the words of a text, concatenated, are exactly its non-whitespace characters in order |
| Text.JoinSplitNormalized | src/utils.py:30 | joining the words of a normalised text with single spaces gives that text back |
| Text.CleanText | src/utils.py:28-30 | `clean_text`: the result has no whitespace at either end; its normal form, contents and fixed points are stated by the lemmas below |
| Text.CleanTextJoinsWords | src/utils.py:28-30 | for a non-empty text, `clean_text` is `" ".join(text.split())`: the no-break-space replacement and the final strip change nothing |
| Text.CleanTextNormalForm | src/utils.py:28-30 | the result has no whitespace at the ends, no whitespace other than `' '` and no two adjacent spaces; it is `""` exactly when the input is whitespace only, the empty text included |
| Text.CleanTextKeepsVisible | src/utils.py:28-30 | every non-whitespace character of the input is kept, in order, and nothing else is |
| Text.CleanTextFixedPoints | src/utils.py:28-30 | `clean_text` returns its input unchanged exactly when the input is already in normal form |
| Text.CleanTextIdempotent | src/utils.py:28-30 | cleaning twice is cleaning once |
| Text.SplitCleanText | src/utils.py:28-30 | `clean_text` keeps the words: the words of the cleaned text are the words of the input |
| Text.RFind | src/utils.py:40 | `str.rfind(c, lo, hi)`: -1, or a position in `[lo, hi)` that holds `c` |
| Text.RFindIsLast | src/utils.py:40-44 | no occurrence of `c` lies after the returned position within `[lo, hi)`, and none at all when -1 is returned |
| Chunker.CutPoint | src/utils.py:37-46 | a window's cut lies strictly past `start + chunk_size // 2` and at most at `start + chunk_size`; it is `start + chunk_size` when the window reaches the end of the text |
| Chunker.CutPointCases | src/utils.py:38-46 | the cut priority: just after the last `.` strictly inside the window past the midpoint, else at the last space strictly inside the window past the midpoint, else at `start + chunk_size` |
| Chunker.ChunkText | src/utils.py:32-53 | the loop returns the stripped, non-blank slices of the windows it visits, in order; a text no longer than `chunk_size` is returned as `[text]`, unstripped |
| Chunker.Chunking | src/utils.py:32-53 | what `chunk_text` returns: `[text]` for a text that fits one window, else the stripped non-blank slices of the visited windows; its properties are stated by `WindowsCut`, `PiecesSound`, `ChunksAreStrippedPieces`, `ChunkingEmptyIff` and `TrailingChunkRepeats`, and `ChunkText` is proved equal to it |
| Chunker.WindowsCut | src/utils.py:36-51 | each visited window starts inside the text and ends at the cut point of its start; only the last one meets the stop test `end - overlap >= len(text)` |
| Chunker.WindowsOverlap | src/utils.py:50 | each window after the first starts `overlap` characters before the previous window's end |
| Chunker.StartsAdvance | src/utils.py:36-51 | with `0 <= overlap <= chunk_size // 2`, each next start is strictly greater than the previous start and no later than the previous end, so the loop progresses and leaves no gap |
| Chunker.WindowsCoverText | src/utils.py:36-51 | with a non-negative overlap, every position of the text lies in some visited window |
| Chunker.PiecesSound | src/utils.py:48-49 | every kept piece is non-empty, has no whitespace at its ends, is a contiguous substring of the text and is at most `chunk_size` long |
| Chunker.ChunksAreStrippedPieces | src/utils.py:36-51 | for a text longer than a window, every chunk is non-empty, stripped, a substring of the text, and at most `chunk_size` long |
| Chunker.ChunkShowsText | src/utils.py:48-49 | a long text that yields any chunk has a non-whitespace character |
| Chunker.BlankTextNoChunks | src/utils.py:48-49 | a whitespace-only text longer than a window yields no chunk |
| Chunker.ChunkingEmptyIff | src/utils.py:36-53 | with `0 <= overlap <= chunk_size // 2`, a text longer than a window yields no chunk exactly when it is whitespace only |
| Chunker.TrailingChunkRepeats | src/utils.py:50-51 | the loop stops only on `end - overlap >= len(text)`: `"abcdef"` cut by 4 with overlap 2 gives `["abcd", "cdef", "ef"]`, and the last chunk lies inside the previous one |
| Embeddings.EmbeddingsManager.constructor | src/embeddings.py:8-21 | the manager starts over an existing collection, with no ids drawn |
| Embeddings.EmbeddingsManager.AddDocuments | src/embeddings.py:32-70 | returns the number of records built and appends exactly those records, each under a freshly drawn id, to the collection, in document then chunk order; the additions are the consecutive batches of at most 50 |
| Embeddings.EmbeddingsManager.AddChunks | src/embeddings.py:39-49 | the inner loop appends one entry per non-blank chunk, with its position in the chunk list, and keeps the three lists parallel and the ids consecutive draws |
| Embeddings.EmbeddingsManager.ParallelAppend | src/embeddings.py:42-49 | appending a text, its metadata and the next drawn id keeps the documents, metadatas and ids lists the same length and aligned with the built entries |
| Embeddings.EmbeddingsManager.StoreInBatches | src/embeddings.py:51-70 | the batch loop adds every built record exactly once, in order, in consecutive batches of at most 50, and returns their count |
| Embeddings.EmbeddingsManager.StoreBatch | src/embeddings.py:56-68 | the records added for `documents[i:i + 50]` are the next slice of the records, and they form the first of the remaining batches |
| Embeddings.EmbeddingsManager.SearchSimilar | src/embeddings.py:72-92 | the search formats the store's answer to the query's embedding: one result per returned document, and `[]` when the answer is empty or the query failed |
| Embeddings.EntryFor | src/embeddings.py:42-48 | the record of one chunk: `"Title: {title}\n\nContent: {chunk}"` with source, URL, title and chunk index; stated by `ChunkEntriesSound` |
| Embeddings.ChunkEntries | src/embeddings.py:39-48 | one record per chunk that is not whitespace only, in chunk order; stated by `ChunkEntriesSound`, `ChunkEntriesComplete` and `ChunkEntriesOrdered` |
| Embeddings.DocumentEntries | src/embeddings.py:35-48 | the records of one document: none for an error document, else those of the chunks of its content; stated by `DocumentEntriesEmptyIff` |
| Embeddings.BuildEntries | src/embeddings.py:35-49 | the records of all documents, in document order; stated by `FailedDocumentsIgnored` and by `AddDocuments`, which appends exactly these |
| Embeddings.ChunkEntriesSound | src/embeddings.py:38-48 | every entry comes from a chunk that is not whitespace only, with that chunk's position as its `chunk_index`, its text `"Title: …\n\nContent: …"` and the metadata defaults `'Unknown'` and `''` |
| Embeddings.ChunkEntriesComplete | src/embeddings.py:39-48 | every chunk that is not whitespace only has its entry |
| Embeddings.ChunkEntriesOrdered | src/embeddings.py:39-47 | the entries of a document are in strictly increasing `chunk_index` order |
| Embeddings.FailedDocumentsIgnored | src/embeddings.py:35-36 | documents carrying an error contribute no record: building from all documents equals building from the successful ones |
| Embeddings.DocumentEntriesEmptyIff | src/embeddings.py:36-40 | a document yields no record exactly when it carries an error or its content is whitespace only |
| Embeddings.Batches | src/embeddings.py:54-59 | the slices `documents[i:i + 50]` for `i` in `range(0, len, 50)`; stated by `BatchesPartition` |
| Embeddings.BatchesPartition | src/embeddings.py:54-59 | the batches, concatenated, are the whole sequence; each holds between 1 and 50 items, and all but the last hold exactly 50 |
| Embeddings.SearchResults | src/embeddings.py:81-92 | the formatted first result list of the store's answer, or nothing; stated by `SearchResultsShape` and `SimilarityFollowsDistance` |
| Embeddings.SearchResultsShape | src/embeddings.py:81-92 | no results exactly when the store's answer is a failure, is empty, or has metadata or distance lists too short to index (the `IndexError` the handler catches); otherwise one result per document in the store's order, carrying its content, its metadata and `similarity = 1 - distance` |
| Embeddings.SimilarityFollowsDistance | src/embeddings.py:87 | when the store orders its answer by increasing distance, the results are in non-increasing similarity |
| Rag.Truncate | src/rag.py:47 | `s[:n]`: a prefix of `s` of length `min(n, len(s))` |
| Rag.NumberText | src/rag.py:50 | the entry number is written as a non-empty run of decimal digits, with no leading zero |
| Rag.NumberTextRoundTrip | src/rag.py:50 | the digits written for a number denote that number |
| Rag.PrepareContext | src/rag.py:42-52 | the context is `"No relevant documentation found."` exactly when there are no results; otherwise it is laid out as `ContextJoinsEntries` states |
| Rag.ContextJoinsEntries | src/rag.py:46-52 | a non-empty context is the entries of the first three results joined by `"\n"`: entry k at its offset, a newline after every entry but the last, and the last entry ending the context |
| Rag.ContextStartsWithBestResult | src/rag.py:46-52 | the context opens with the entry of the first result |
| Rag.ContextQuotesContent | src/rag.py:46-52 | the first 400 characters of each of the first three results appear in the context, right after that entry's header |
| Rag.ContextIgnoresLaterResults | src/rag.py:46 | only the first three results reach the context |
| Rag.SourcesMatchContext | src/rag.py:46-73 | there are `min(3, len(docs))` context entries and sources; entry k is `"Source {k+1} ({source}):\nURL: {url}\nContent: "` with the k-th source's label and URL (defaults `'Unknown'`, `''`), then the first 400 characters of the k-th result, then a newline; source k carries the k-th result's title (default `''`) and similarity |
| Rag.Recent | src/rag.py:24 | `history[-4:]`: the last `min(4, len(history))` messages, in their original order |
| Rag.UserTurn | src/rag.py:26-29 | the question turn is a `user` message whose content starts with `"Question: {query}\n\nDocumentation:\n"` followed by the context |
| Rag.Conversation | src/rag.py:23-29 | the message list: system prompt, recent history, question turn; stated by `ConversationShape` |
| Rag.ConversationShape | src/rag.py:23-29 | the message list has `2 + min(4, len(history))` messages: the system prompt, then the most recent history in order, then the question turn |
| Rag.Reply | src/rag.py:38-40 | the reply text of a completed call, or the reported error of a failed one; stated by `FailedCallReported` |
| Rag.FailedCallReported | src/rag.py:39-40 | a failed model call is returned as text: `"Error generating response: "` followed by the error |
| Rag.Sources | src/rag.py:65-73 | the sources of the first three results, with label, URL, title and similarity stated by `SourcesMatchContext` |
| Rag.SmartApiAssistant.constructor | src/rag.py:8-18 | the assistant holds its manager and the fixed system prompt |
| Rag.SmartApiAssistant.GenerateResponse | src/rag.py:20-40 | the response is the model's reply, or the reported error, for the message list of the system prompt, the recent history and the question with its context |
| Rag.SmartApiAssistant.SearchAndRespond | src/rag.py:54-75 | with no search results, the fixed no-documentation answer and no sources; otherwise the generated response and the sources of the top three results |
| Scraper.Lower | src/scraper.py:57 | lower-casing keeps the length, turns each ASCII capital into the same letter in lower case, and changes no other character |
| Scraper.NetlocEnd | src/scraper.py:57 | a network location ends at the first `/`, `?` or `#` after `//`, or at the end of the URL |
| Scraper.ParseSimpleUrl | src/scraper.py:57 | `urlparse("scheme://host/path")` has `host` as its network location and `/path` as its path |
| Scraper.UrlSplit | src/scraper.py:57 | `urlsplit(url)`: scheme, network location, path, query and fragment; the network location ends as `NetlocEnd` states, and `ParseSimpleUrl` and `ParseFullUrl` give the parts back |
| Scraper.UrlParse | src/scraper.py:57 | `urlparse(url)`: `urlsplit` with `;params` cut off the path; `ParseSimpleUrl` and `ParseFullUrl` give the parts of URLs without `;params` back |
| Scraper.ParseFullUrl | src/scraper.py:57 | `urlparse("scheme://host/path?query#fragment")` has `host` as its network location, `/path` as its path, no params, and `query` and `fragment` as its query and fragment |
| Scraper.GetSource | src/scraper.py:56-61 | `_get_source`: the label of the lower-cased network location; stated by `SourcePriority`, `SimpleUrlSource`, `AnthropicDocsSource` and `UpperCaseHostSource` |
| Scraper.SourcePriority | src/scraper.py:56-61 | the label is `'Claude API'` exactly when the lower-cased domain contains `anthropic`; `'Gemini API'` exactly when it does not but contains `google`; `'GitHub API'` exactly when it contains neither but contains `github`; otherwise the domain itself |
| Scraper.GoogleClauseSubsumed | src/scraper.py:59 | any domain containing `ai.google.dev` contains `google`, so the second test never decides |
| Scraper.SimpleUrlSource | src/scraper.py:56-61 | for a URL `scheme://host/path`, the label is decided by the lower-cased host |
| Scraper.AnthropicDocsSource | src/scraper.py:58 | the host `docs.anthropic.com` of the configured Anthropic pages is labelled `'Claude API'` |
| Scraper.UpperCaseHostSource | src/scraper.py:57-58 | the domain is lower-cased before the test: the host `DOCS.ANTHROPIC.COM` is labelled `'Claude API'` |
| Scraper.LastSegment | src/scraper.py:43 | `path.split('/')[-1]`: a suffix of the path with no `/`, preceded by a `/` unless it is the whole path |
| Scraper.PathTitle | src/scraper.py:43 | the fallback title is never empty and has no `/`; it is the last path segment when that is non-empty, and `"API Documentation"` when it is empty |
| Scraper.GetTitle | src/scraper.py:38-43 | `_get_title`: the cleaned `<title>`, else the cleaned `<h1>`, else the path title; stated by `TitleChain`, `TitleFromTags` and `PathTitle` |
| Scraper.TitleChain | src/scraper.py:38-43 | the `<title>` text wins, cleaned; without it the `<h1>` text, cleaned; without either, the title of the URL's path |
| Scraper.TitleFromTags | src/scraper.py:38-42 | a title taken from `<title>` or `<h1>` is in `clean_text`'s normal form |
| Scraper.KeptSound | src/scraper.py:52 | every kept text is stripped, longer than ten characters, and the stripped form of some element text |
| Scraper.KeptSingle | src/scraper.py:52 | one element text gives its stripped form when that is longer than ten characters, and nothing otherwise |
| Scraper.KeptComplete | src/scraper.py:52 | every element text whose stripped form is longer than ten characters is kept |
| Scraper.KeptAppend | src/scraper.py:51-52 | the filter keeps element order |
| Scraper.GetContent | src/scraper.py:45-54 | `_get_content`: `""` without a main element or body, else the kept texts joined by blank lines; stated by `GetContentEmpty`, `GetContentLayout`, `GetContentBlankLines` and the `Kept` lemmas |
| Scraper.GetContentEmpty | src/scraper.py:47-54 | the content is `""` without a main element or body, and otherwise exactly when no element text is kept |
| Scraper.GetContentLayout | src/scraper.py:52-54 | the k-th kept text sits in the content at its offset, after the kept texts before it, each followed by a blank line; the last kept text ends the content |
| Scraper.GetContentBlankLines | src/scraper.py:54 | two newlines separate each kept text from the next |
| Scraper.ScrapeUrl | src/scraper.py:16-36 | the result always carries the URL; it is a scraped document exactly when the fetch succeeded and an error document, carrying the error text, exactly when it failed |
| Scraper.ScrapedContentNormalized | src/scraper.py:31 | a scraped document's content is in `clean_text`'s normal form and has no newline, although the element texts were joined with blank lines |

## Left out

- The Streamlit interface and session state (`app.py`, `app_controller.py`, `ui_components.py`) are not part of this model.
- HTTP fetching, BeautifulSoup parsing, the removal of script, style and navigation tags, and the CSS selection of the main element are left out; a fetch is a parameter holding the parser's findings or the exception's text.
- The scraper's unused `delay` and its session headers are left out; they decide nothing.
- SentenceTransformer encoding, the chromadb client, its persistent-to-in-memory fallback and get-or-create are left out. The embedder and the store's nearest-neighbour query are opaque functions, and the collection is an append-only sequence.
- The embedder is assumed to embed each text independently of the batch it is sent in.
- `uuid.uuid4()` is a draw function indexed by a counter. Uniqueness of the ids is not modelled.
- `get_collection_stats` only wraps a foreign count and is left out.
- Logging is left out.
- The Groq client and the model call are an oracle parameter `complete`. That no call happens on an empty search is visible only in that the answer does not depend on `complete`.
- `round(similarity, 3)` is float rounding and is left out: similarity is a real, and a source carries it unrounded.
- `history=None` is modelled as the empty history, which `if history:` treats the same way.
- `_get_content` is modelled as `GetContent` over the texts of the selected elements; which elements the CSS selection picks is the parser's and is left out.
- Scraper.Lower: only ASCII capitals are lower-cased; Python's Unicode case mapping is not modelled.
- Scraper.UrlParse: models Python 3.11's `urlsplit` as far as the scheme, the network location, the path, the query, the fragment and `;params` go. Not modelled: the `ValueError` on unbalanced IPv6 brackets, and the NFKC check of the network location. No lemma states how the path of a URL that carries `;params` is cut.
- Chunker.ChunkText: requires `chunk_size >= 1` and `overlap <= chunk_size // 2` for texts longer than a window. The source demands nothing, but without this the loop of src/utils.py may never stop.
- Chunker.ChunkingEmptyIff: stated for texts longer than a window. A shorter one is returned as `[text]`, whitespace or not.
- Embeddings.EmbeddingsManager.AddDocuments: `add_documents` is written as three methods, `AddDocuments`, `AddChunks` for the inner chunk loop and `StoreInBatches` for the batch loop, with the same effect as the single Python function.
- Embeddings.EmbeddingsManager.SearchSimilar: `embed` is a total function, so an exception while embedding the query is not a separate case. Any failure of the embedder or the store is folded into the store's `QueryFailed` answer, which gives the same `[]`.
- Rag.SmartApiAssistant.SearchAndRespond: a result's missing `similarity` (the `0` default) cannot arise, since every search result carries one.
