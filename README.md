# Virtual TA: the data handling of a retrieval-augmented teaching assistant

Virtual TA answers students' questions from two corpora: course notes written in markdown and posts scraped from the course's Discourse forum. This project models the parts of it that handle plain data, and proves what they do.

- **Ingestion** (embedding.py). Each markdown file and each forum topic becomes one text.
  - The text is cut into overlapping word windows by `chunk_by_words`.
  - Every chunk gets a numbered metadata record.
  - Forum posts are first grouped by topic, in the order each topic is first seen. Within a topic, posts are sorted by post number.
  - All chunks are embedded in batches of 100 into a vector index. The index's vectors stay in step with the metadata list.
- **Retrieval** (app.py). `search_similar` works on the raw hits of a nearest-neighbour search:
  - it drops ids outside the metadata list;
  - it keeps scores at or above an inclusive threshold;
  - it sorts stably by descending score and keeps the first `top_k`.
  
  `generate_answer` does the following:
  - With no chunks, it returns a fixed answer and no links.
  - Otherwise it builds a context in which the sources are numbered from 1 and prompts the model.
  - It returns one link per chunk: the chunk's source, with the first 150 characters of its content.
- **Scraping** (python_script.py).
  - Saved cookies are filtered by domain into a name-to-value map.
  - The category's topic list is read page by page, up to the first empty page or the first failed fetch.
  - Topics created inside an inclusive date window are fetched.
  - Every post of a fetched topic becomes a record. The record carries the post's reply count and whether it is the topic's accepted answer.

## How the model is built

- Foreign services become parameters:
  - the embedding service is a function fixed for the index (`VectorIndex.embed`);
  - the vector search is a function `search(k)` giving the hits for the question;
  - the language model is a function `generate(prompt)`;
  - the network fetches are a sequence of page results and a function from topic to `Option<TopicData>`;
  - the HTML-to-text step is a function `extract`.
- Missing files are `None`.
- Python's `str.split()`, `sep.join`, `in`, `str.replace(p, "")`, `str.endswith` and `str(int)` are written out in `Text`.
- Python's stable `sorted`/`list.sort` is an insertion sort proved sorted, a permutation, and stable (`Sorting`).
- `reverse=True` keeps stability in Python, so a descending sort is the ascending sort on the negated key.
- Loops in the source are methods with loops in the model. Each loop method is proved equal to a specification function, and the properties are proved about those functions as lemmas. `Retrieval.QueryKnowledgeBase` only chains two such methods, and its contract gives its result in terms of the ranked results.
- The vector index and the metadata list that `index_batch` extends in place are fields of the class `Ingestion.VectorIndex`.

Files:
- `util.dfy`: option, minimum, list prefix, concatenation.
- `text.dfy`: string operations.
- `sorting.dfy`: the stable sort.
- `chunking.dfy`: `chunk_by_words`.
- `ingestion.dfy`: the rest of embedding.py.
- `retrieval.dfy`: app.py.
- `scraper.dfy`: python_script.py.

Two facts about the search order:
- Equal scores are not re-ordered by chunk id. The stable sort keeps them in the order the search returned them.
- The index is asked for `2 * top_k` hits.

## Model

| member | source | states |
|---|---|---|
| Text.Words | embedding.py:31 | `text.split()` yields only non-empty pieces without whitespace |
| Text.WordsEmptyIffBlank | embedding.py:31-34 | splitting gives no words exactly when the text is empty or all whitespace |
| Text.WordsOfJoin | embedding.py:36 | joining words with single spaces and splitting again gives the same words back |
| Text.JoinContains | app.py:157 | every part joined into the context occurs in it |
| Sorting.SortBy | embedding.py:143 | `sorted(key=...)` returns a permutation of its input, ordered by the key |
| Sorting.SortByStable | app.py:125 | the sort is stable: elements with equal keys keep their relative order |
| Sorting.KeyClassOfPrefix | app.py:128 | a prefix of the sorted list keeps the order of equal-key elements of the whole |
| Chunking.ChunkByWords | embedding.py:29-39 | the while loop returns exactly the chunk list `Chunks(text, maxWords, overlap)`; it terminates because each round advances by `maxWords - overlap > 0` |
| Chunking.ChunksEmptyIffBlank | embedding.py:31-34 | empty or whitespace-only text gives no chunks, and any other text gives at least one |
| Chunking.OffsetIsProduct | embedding.py:32-38 | after i rounds of `start += max_words - overlap`, `start` is i*s, with s = maxWords - overlap |
| Chunking.ChunkWindow | embedding.py:35-38 | chunk i is words `[i*s, min(i*s+maxWords, n))` joined by single spaces (i*s written `Offset(i, s)`) |
| Chunking.ChunkWords | embedding.py:35-36 | splitting chunk i gives back exactly the words of its window |
| Chunking.ChunkSize | embedding.py:35-36 | every chunk holds between 1 and maxWords words |
| Chunking.ChunkCount | embedding.py:34-38 | the chunk count c is ceil(n/s), i.e. c*s >= n and (c-1)*s < n, and the last chunk ends at word n |
| Chunking.ChunksCoverWords | embedding.py:34-38 | every word of the text lies in the window of some chunk |
| Ingestion.AppendChunks | embedding.py:101-109 | the enumerate loop appends the chunks and, for them, metadata numbered 0..k-1 with total k, so both lists grow by the same amount |
| Ingestion.MarkdownOnly | embedding.py:91 | a file is kept exactly when it is in the listing and its name ends in ".md": kept files all end in ".md", and no ".md" entry is dropped |
| Ingestion.IngestMarkdownFiles | embedding.py:81-112 | a missing folder gives nothing; otherwise the chunks of each ".md" file in listing order, with equally many metadata entries |
| Ingestion.CourseNumbering | embedding.py:101-107 | the markdown side has one metadata entry per chunk, each `chunk_id` below its `total_chunks` |
| Ingestion.Distinct | embedding.py:129-136 | the topic key order holds every topic id that occurs, once each |
| Ingestion.DistinctFirstSeen | embedding.py:129-142 | topics are processed in the order their first post appears |
| Ingestion.PostsOf | embedding.py:137 | a group holds exactly the posts with that topic id |
| Ingestion.GroupMapIsGroupOf | embedding.py:129-137 | the dict built by the loop has exactly the occurring topics; each entry is the first post's title (default "N/A") and all posts of the topic, in order |
| Ingestion.GroupByTopic | embedding.py:128-137 | the grouping loop yields the first-seen topic order and, per topic, its first title and all its posts |
| Ingestion.IngestDiscourseJson | embedding.py:115-168 | a missing file gives nothing; otherwise each topic in first-seen order contributes the chunks of its text (posts sorted by number) with equally many metadata entries |
| Ingestion.DiscourseNumbering | embedding.py:155-163 | the forum side has one metadata entry per chunk, each `chunk_id` below its `total_chunks` |
| Ingestion.Entries | embedding.py:183 | `zip` pairs texts and metadata up to the shorter list |
| Ingestion.VectorIndex.constructor | embedding.py:25-26 | the index and the metadata list start empty and in step |
| Ingestion.VectorIndex.IndexBatch | embedding.py:171-184 | adds one embedding per text and one entry per (text, meta) pair that `zip` forms; `ntotal` grows by `len(texts)`; when the two lists have equal length and the index was in step, it stays in step |
| Ingestion.VectorIndex.IndexInBatches | embedding.py:218-221 | the batches are consecutive, in order, each of 1..100 texts, and together cover all texts; index and metadata stay in step |
| Ingestion.VectorIndex.RunIngestion | embedding.py:187-221 | markdown chunks then forum chunks are indexed; with nothing to index the index is unchanged |
| Retrieval.Candidates | app.py:108-123 | the loop's results all have similarity at or above the threshold, and there are at most as many as hit pairs |
| Retrieval.CandidatesOfZipped | app.py:109 | only the pairs `zip` forms are looked at |
| Retrieval.CandidatesMembers | app.py:109-123 | a result is collected exactly when some hit has an id inside the metadata list and a score >= 0; its content, source and type are that entry's, and its chunk id is the entry's or 0 |
| Retrieval.Ranked | app.py:125-128 | the first top_k of the descending sort are at or above the threshold, in non-increasing score order, drawn from the candidates, and keep the hit order among equal scores |
| Retrieval.SearchSimilar | app.py:98-128 | asks for 2*top_k hits and returns the top_k prefix of the stably sorted candidates: min(top_k, #candidates) results with the properties of `Ranked` |
| Retrieval.ContextCarries | app.py:149-157 | chunk i appears in the context under "[Source i+1]", so sources are numbered from 1 in chunk order |
| Retrieval.PromptCarries | app.py:160-173 | the prompt contains the question and everything the context contains |
| Retrieval.GenerateAnswer | app.py:134-196 | no chunks give the fixed answer, no links and no model call; otherwise the model answers the numbered prompt, and there is one link per chunk in order, with its source and its first 150 characters |
| Retrieval.QueryKnowledgeBase | app.py:203-219 | when no hit survives the filter the answer is the fixed one with no links; otherwise the answer is the model's reply to the prompt built from the top 5 ranked results, and the links are exactly those results' sources and first 150 characters, in rank order (so at most 5), each from a metadata entry a kept hit named |
| Scraper.StripScheme | python_script.py:75 | removing "https://" and then "http://" from "https://" plus a host name leaves the host |
| Scraper.HostOfBaseUrl | python_script.py:75 | the text a cookie's domain must contain is "discourse.onlinedegree.iitm.ac.in" |
| Scraper.CookieJarKeys | python_script.py:72-76 | the map's keys are exactly the names of the kept cookies, those whose domain (missing: "") contains the host |
| Scraper.MissingDomainDropped | python_script.py:75 | a cookie with no domain is never kept, since the host does not occur in `''` |
| Scraper.CookieJarLastWins | python_script.py:72-76 | for every name, the value kept is that of the last kept cookie with the name |
| Scraper.LoadCookiesForRequests | python_script.py:63-78 | a missing file gives an empty map; otherwise the loop yields the map of the kept cookies |
| Scraper.NotAfterTotal | python_script.py:148 | datetimes compared field by field form a total order |
| Scraper.WindowIsInterval | python_script.py:148 | a date between two dates of the window lies in the window |
| Scraper.WindowEnds | python_script.py:15-16 | 2025-01-01 00:00 and 2025-04-14 00:00 are inside the window; one microsecond later or earlier is outside |
| Scraper.FirstStop | python_script.py:124-141 | the stop page is the first failed or empty page, or the end of the given pages; every page before it has topics |
| Scraper.FirstStopUnique | python_script.py:124-141 | no other page number has the stop property |
| Scraper.FetchAllTopics | python_script.py:121-141 | the loop stops at the stop page and `all_topics` is the topics of the pages before it, in page order |
| Scraper.PagesTopicsFrom | python_script.py:140 | every topic gathered comes from one of the pages read |
| Scraper.ReplyCountPositive | python_script.py:163-167 | a post number has a positive reply count exactly when some post replies to it |
| Scraper.BuildReplyCounter | python_script.py:162-167 | `reply_counter` has an entry exactly for the post numbers replied to, holding the number of posts replying to it |
| Scraper.AcceptedAnswerFallback | python_script.py:160 | a post is the accepted answer iff `accepted_answer` is its id, or `accepted_answer` is absent and `accepted_answer_post_id` is its id |
| Scraper.TopicRecords | python_script.py:169-188 | a fetched topic gives one record per post |
| Scraper.AppendTopicRecords | python_script.py:162-188 | the inner loop appends the topic's records, each reply count read from the counter with default 0 |
| Scraper.ScrapedHasEveryPost | python_script.py:146-188 | every post of every in-window, successfully fetched topic has its record in the output |
| Scraper.ScrapedOnlyProcessed | python_script.py:146-188 | every output record belongs to a post of an in-window topic whose fetch succeeded; failed fetches are skipped |
| Scraper.ScrapePosts | python_script.py:93-188 | no cookies or a failed test request give nothing; otherwise the records of the processed topics of the pages read, in topic-then-post order |

## Left out

- FAISS itself (`IndexFlatIP`, inner-product search, `read_index`, `write_index`): the search is the parameter `search`, and the index is the sequence of its vectors.
- The Gemini calls (`embed_content`, `generate_content`): they are the function parameters `embed` and `generate`.
- Vector normalisation and the averaging of half embeddings in `safe_embed`: floating point.
- `safe_embed`'s retry after sleeping: timing and foreign calls.
- `load_markdown` (markdown to HTML to text) and BeautifulSoup's `get_text`: the text of a markdown file is given, and post HTML goes through the parameter `extract`.
- `parse_date`: topic creation dates are given already parsed.
- Reading and writing `metadata.json`, `discourse_posts.json`, the index file, `auth.json` and `cookies.json`: file I/O. A missing file is `None`.
- The Playwright login, `extract_cookies_from_storage_state`, the session headers and `main` of python_script.py: browser and network I/O. The test request of `is_authenticated_with_cookies` is the parameter `authenticated`.
- FastAPI routes, CORS, the pydantic models, `/health`, logging and the progress prints: I/O plumbing.
- Exceptions turned into HTTP 500 responses, and the `KeyError`/`TypeError` a malformed JSON value would raise: every JSON field is assumed present with the type it normally has.
- Retrieval.SearchSimilar: scores are integers rather than float32. They are only compared, never combined. A negative `top_k` is not modelled.
- Scraper.AcceptedAnswerFallback: JSON values other than integers and null are one value `JOther`, so Python's `1 == True` and `5 == 5.0` equalities are not modelled.
- Chunking.ChunkByWords: requires `0 <= overlap < maxWords`. With `maxWords <= overlap` the `while` loop of `chunk_by_words` never ends on text with at least one word, and negative arguments are not modelled. The callers use 2000 and 200.
- Scraper.FetchAllTopics: the pages are a given finite sequence, and asking past its end counts as an empty page.

