# Document indexer and request dispatch: a Dafny model

This project models the deterministic core of a retrieval-augmented chat
back end. The back end has two halves.

The **indexer** turns an uploaded document into search-index records:

- it joins the page texts into one string and records each page's offset;
- it cuts that string into overlapping sections of about 1000 characters,
  with a special rule for unclosed HTML tables;
- it numbers the sections, names each one's source blob, and uploads the
  records in batches of 1000;
- before every embedding request, it refreshes an Azure AD token that is
  older than 300 seconds.

The **web back end** serves `/ask`, `/chat` and `/content/<index_name>/<path>`:

- it picks an approach object from a table keyed by index name and approach
  name;
- it answers with status 200, 400, 415 or 500;
- it refreshes its OpenAI token when the token expires within 60 seconds.

The modules follow the source:

| module | file | models |
|---|---|---|
| `Segmenter` | `segmenter.dfy` | the page map of `get_document_text`, `find_page`, `split_text` (imperative methods with the source's loops, proved against specification functions) |
| `Sections` | `sections.dfy` | `filename_to_id` (with UTF-8 and base-16 encoding), `os.path.basename`/`splitext`, `blob_name_from_file_page`, `create_sections` |
| `TableHtml` | `table_html.dfy` | `table_to_html`, `html.escape`, the stable sort by column |
| `Batching` | `batching.dfy` | `index_sections` against a search client that records its uploads |
| `EmbeddingToken` | `embedding_token.dfy` | the token cache and `refresh_openai_token`, and its use in `compute_embedding` under the retry policy |
| `App` | `app.dfy` | the request handling of `ask`, `chat` and `content_file`, `ensure_openai_token`, and the clients and approach tables built by `setup_clients` |
| `TextUtil`, `Wrappers` | `text_util.dfy`, `wrappers.dfy` | `str.rfind`, integer formatting, `Option` |

Clock readings, credentials, the tokens they hand out, the replies of the
embeddings API and the behaviour of an approach's `run` are all parameters
of the model. No operation reads a clock or performs I/O.

Main results:

- **Sections of `split_text`.** The sections are slices `[start, end)` of
  the joined text, at most 1200 characters long. Consecutive sections
  overlap. The first section starts at 0 and the last ends at the end of the
  text. Together they cover every character. A text of at most 100
  characters gives no section. A short text with no table gives exactly one
  section.
- **Page lookup.** Each section's page is the page its first character
  falls on.
- **Loop exit.** The loop of `split_text` exits on every text without
  `<table`. There is also a concrete 900-character text with an unclosed
  table on which the loop never exits: it yields the same section forever
  (`UnclosedTableLoopsForever`). The guard that skips tables in the first
  200 characters of a section does not prevent this. When the section is
  clamped to the end of the text, the rewound start can lead straight back
  to the same section.
- **Record ids.** Ids are unique: distinct `(file, section)` pairs get
  distinct ids, because `filename_to_id` is injective.
- **Blob names.** They contain no `/`, do not depend on the page for
  non-PDF files, and differ for different pages of a PDF.
- **Tables as HTML.** `table_to_html` puts each cell in exactly its row,
  ordered by column and stable within a column. Escaping can be undone, and
  the only `<` characters in the output are those of the tags.
- **Batching.** `index_sections` uploads `ceil(n / 1000)` batches. All but
  the last hold exactly 1000 sections. Concatenated, the batches give back
  the sections in order.
- **Token refresh.** The indexer's refresh is idempotent at a fixed
  instant. An embedding is only ever obtained with a key at most 300
  seconds old.
- **Dispatch.** With the tables of `setup_clients`, `/ask` finds an approach
  exactly for the seven indices × `rtr`/`rrr`/`rda`, and `/chat` exactly
  for `rrr`. A status 200 answer is exactly what the approach returned. A
  request that is not JSON gets 415. An exception escapes the handler
  exactly when reading `approach` or `overrides` fails.

Notes on the code, which the model follows as written:

- **Table rewind guard.** The test at indexer.py:240 is
  `last_table_start > 2 * SENTENCE_SEARCH_LIMIT`: it asks whether `<table`
  lies past the first 200 characters of the section. The comment at
  indexer.py:242 says a table starting inside `SENTENCE_SEARCH_LIMIT`
  (100 characters) is ignored; the code ignores one starting anywhere in
  the first 200 (`NextLoopStartRewind`). The comment's aim, avoiding an
  infinite loop, is not met either way (`UnclosedTableLoopsForever`).
- **Trailing section.** The `yield` after the loop (indexer.py:249-250)
  never fires. The loop exits with `start + SECTION_OVERLAP >= len >= end`,
  and `SplitText` asserts this.
- **Upload counts.** `index_sections` returns nothing. The per-batch
  success count is only printed.

## Model

| member | source | states |
|---|---|---|
| `TextUtil.RFind` | app/backend/indexer.py:239-240 | the result is -1 or an index where the pattern occurs, and the pattern occurs at no later index |
| `Segmenter.GetDocumentText` | app/backend/indexer.py:136-148 | one entry per page, in order. Entry `k` has page number `k` and page `k`'s text. Its offset equals the total length of the texts of pages `0..k-1` |
| `Segmenter.PrefixLengthsSorted` | app/backend/indexer.py:145-148 | offsets built this way start at 0 and never decrease |
| `Segmenter.PageTextAtOffset` | app/backend/indexer.py:136-148 | in the joined text, each page's text sits exactly at that page's offset |
| `Segmenter.FindPage` | app/backend/indexer.py:197-202 | the result is a page index, or the last page when no range matches. When it is not the last page, the offset lies in that page's range `[offset_i, offset_{i+1})`, and in no earlier page's range |
| `Segmenter.FindPageIsGreatest` | app/backend/indexer.py:197-202 | for non-decreasing offsets, `find_page` returns the greatest page whose offset is at most the given offset; the last page for offsets past the final one |
| `Segmenter.FindPageLocatesCharacter` | app/backend/indexer.py:197-202 | for a page map from `get_document_text`, an offset inside page `k`'s text is looked up as page `k` |
| `Segmenter.ScanForward` | app/backend/indexer.py:216-219 | the forward scan stops only at the end of the text, at the search limit or on a sentence ending. It skips no sentence ending. The remembered word break is a word break inside the scanned range |
| `Segmenter.ScanBackward` | app/backend/indexer.py:227-230 | the backward scan stops only at 0, at `end - 1200` or on a sentence ending. It skips no sentence ending. The remembered word break lies inside the scanned range |
| `Segmenter.SectionEnd` | app/backend/indexer.py:209-223 | a section's end lies past `start + 100`, within the text, and at most 1101 characters past `start`. It is at least `start + 1000` when that fits in the text, and the end of the text otherwise |
| `Segmenter.SectionEndAtBreak` | app/backend/indexer.py:209-223 | a section ends at the end of the text, at `start + 1101` (the search limit), or just after a sentence ending or a word break |
| `Segmenter.SectionStart` | app/backend/indexer.py:226-234 | a section's start is at most one past the loop start. When the loop start lies within 1200 of the end, so does the section's start |
| `Segmenter.SectionStartAtBreak` | app/backend/indexer.py:226-234 | a section starts at 0, at `end - 1199` (the search limit), or just after a sentence ending or a word break |
| `Segmenter.CurrentSpanBounds` | app/backend/indexer.py:208-236 | each yielded section is a non-empty slice of the text, at most 1200 characters long |
| `Segmenter.NextLoopStartBounds` | app/backend/indexer.py:239-247 | the next loop start lies at most at the section's end minus 100 and within 1000 of that end. It moves forward whenever the nominal end `start + 1000` fits in the text |
| `Segmenter.NextLoopStartRewind` | app/backend/indexer.py:239-247 | the next loop start is `end - 100` unless it is rewound. A rewound start lies past the section's first 200 characters, at an occurrence of `<table` with no `</table` after it in the section. Without `<table` past those 200 characters, there is no rewind |
| `Segmenter.TableInSection` | app/backend/indexer.py:239-240 | the last `<table` of a section, when it lies past the first 200 characters and after the last `</table`, is an unclosed table start |
| `Segmenter.SectionEndGrows` | app/backend/indexer.py:208-247 | when a section ends before the end of the text, the loop runs again and the next section ends strictly later |
| `Segmenter.SplitSpansShape` | app/backend/indexer.py:191-250 | the sections are in bounds, at most 1200 long, and consecutive ones overlap. There are none exactly when the text has at most 100 characters. Otherwise the first starts at 0 and the last ends at the end of the text |
| `Segmenter.SplitSpansCover` | app/backend/indexer.py:191-250 | every character of a text with more than 100 characters lies in some section |
| `Segmenter.NoTableHalts` | app/backend/indexer.py:208-247 | on a text without `<table` the loop start strictly grows, so the loop exits |
| `Segmenter.ShortTextIsOneSection` | app/backend/indexer.py:191-250 | a table-free text of 101 to 1000 characters is split into exactly one section, the whole text |
| `Segmenter.ShortTextHalts` | app/backend/indexer.py:203-208 | on a text of at most 100 characters the loop body never runs, so there are no sections |
| `Segmenter.UnclosedTableLoopsForever` | app/backend/indexer.py:239-247 | on 300 letters, then `<table`, then 594 letters, the loop never exits |
| `Segmenter.FindSectionEnd` | app/backend/indexer.py:209-223 | the loop and fallbacks that compute a section's end produce `SectionEnd` |
| `Segmenter.FindSectionStart` | app/backend/indexer.py:226-234 | the loop and fallbacks that compute a section's start produce `SectionStart` |
| `Segmenter.SectionAt` | app/backend/indexer.py:208-247 | one pass of the loop body yields the specified section and the specified next loop start, including the table rewind |
| `Segmenter.SplitText` | app/backend/indexer.py:191-250 | on a text where the loop exits, the method yields the specified sections in order, each paired with `find_page` of its start |
| `Sections.Sanitize` | app/backend/indexer.py:253 | same length as the input. Characters in `[0-9a-zA-Z_-]` are kept and every other character becomes `_` |
| `Sections.UnhexHex` | app/backend/indexer.py:254 | base-16 encoding of bytes can be decoded back |
| `Sections.Utf8Injective` | app/backend/indexer.py:254 | distinct strings have distinct UTF-8 encodings |
| `Sections.FilenameToId` | app/backend/indexer.py:252-255 | an id is `file-`, then the sanitised name (one id character per character of the name), then `-`, then a dash-free hex tail |
| `Sections.FilenameToIdInjective` | app/backend/indexer.py:252-255 | distinct file names get distinct ids |
| `Sections.Basename` | app/backend/indexer.py:58 | a base name is a suffix of the path with no `/`, and it is the whole path or is preceded by a `/` |
| `Sections.SplitExt` | app/backend/indexer.py:57 | the root and the extension concatenate to the path. The extension is empty, or starts at the last `.` and holds no other `.` and no `/`. It is non-empty exactly when the last `.` follows the last `/` and some character between them is not a dot, so leading dots stay in the root |
| `Sections.ExtensionOfBasename` | app/backend/indexer.py:56-58 | the extension of the base name is the extension of the whole path |
| `Sections.BlobNameFromFilePage` | app/backend/indexer.py:56-60 | a blob name is a single path component. For a PDF it starts with the root of the base name and ends with `.pdf`; otherwise it is the base name |
| `Sections.PageNameShape` | app/backend/indexer.py:58 | `<stem>-<page>.pdf` begins with the stem, ends with `.pdf`, and has no `/` when the stem has none |
| `Sections.PageNameInjective` | app/backend/indexer.py:58 | one stem with two distinct pages gives two distinct names |
| `Sections.NonPdfIgnoresPage` | app/backend/indexer.py:59-60 | a non-PDF file has one blob name, its base name, whatever the page |
| `Sections.PdfPageNamesDistinct` | app/backend/indexer.py:57-58 | distinct pages of a PDF get distinct blob names |
| `Sections.DocsOfIndex` | app/backend/indexer.py:258-271 | record `j` is section `j`: id `filename_to_id(f)-page-j`, the section's text, no category, the blob of the section's page, and the file name |
| `Sections.NumberSections` | app/backend/indexer.py:261-271 | the loop over `enumerate` builds exactly those records, in order |
| `Sections.CreateSections` | app/backend/indexer.py:258-271 | `create_sections`, without embeddings, yields the numbered records of `split_text`'s sections |
| `Sections.SectionIdInjective` | app/backend/indexer.py:260-263 | a section id determines the file name and the section number |
| `Sections.DocIdsDistinct` | app/backend/indexer.py:258-271 | no two records, of one file or of two files, share an id |
| `TableHtml.CellsInRow` | app/backend/indexer.py:122 | the filter keeps exactly the cells with the given row index, each as many times as the table holds it, and no other cell |
| `TableHtml.SortByColumn` | app/backend/indexer.py:122 | the sort is a permutation of its input |
| `TableHtml.SortByColumnSorted` | app/backend/indexer.py:122 | the sort's result is ordered by column index |
| `TableHtml.SortByColumnStable` | app/backend/indexer.py:122 | the sort is stable: within each column, cells keep their input order |
| `TableHtml.RowsAreSortedRows` | app/backend/indexer.py:122 | row `i` is a permutation of the table's cells with row index `i`, sorted by column and stable |
| `TableHtml.UnescapeEscape` | app/backend/indexer.py:130 | `html.escape` loses nothing: unescaping gives the content back |
| `TableHtml.Escape` | app/backend/indexer.py:130 | escaped content contains no `<`, `>`, `"` or `'`, and is at least as long as the input |
| `TableHtml.TableHtmlAngles` | app/backend/indexer.py:120-133 | the output has exactly `2 + 2·rows + 2·cells` occurrences of `<`, one per opening or closing tag |
| `TableHtml.CellToHtml` | app/backend/indexer.py:126-130 | one cell's HTML: `th` for header cells, `td` otherwise, span attributes only for spans above 1, escaped content |
| `TableHtml.AppendRow` | app/backend/indexer.py:123-131 | one pass of the outer loop appends `<tr>`, the cells' HTML in order, then `</tr>` |
| `TableHtml.TableToHtml` | app/backend/indexer.py:120-133 | the `+=` loops build the table's specified HTML |
| `Batching.SearchClient.UploadDocuments` | app/backend/indexer.py:342 | an upload records exactly the batch passed, after the earlier ones |
| `Batching.IndexSections` | app/backend/indexer.py:336-350 | the client receives exactly the batches of the sections: full batches of 1000, then any non-empty remainder |
| `Batching.BatchCount` | app/backend/indexer.py:336-350 | there are `ceil(n / 1000)` uploads, so none for no sections |
| `Batching.BatchesFlatten` | app/backend/indexer.py:336-350 | concatenated, the uploads are the sections in their original order |
| `Batching.Batches` | app/backend/indexer.py:336-350 | every upload holds 1 to 1000 sections, and every upload but the last holds exactly 1000 |
| `EmbeddingToken.RefreshSpec` | app/backend/indexer.py:376-380 | `KeyError('token_type')` exactly when no token type is cached; `KeyError('created_time')` exactly for an Azure AD token without a creation time; `KeyError('openai_token_cred')` exactly for a stale Azure AD token without a credential. The fetch fails exactly when a stale token with a credential gets no new token. Otherwise a stale token is replaced, with a new creation time. Nothing else changes |
| `EmbeddingToken.RefreshIdempotent` | app/backend/indexer.py:376-380 | a second refresh at the same instant changes nothing |
| `EmbeddingToken.RefreshLeavesFreshKey` | app/backend/indexer.py:376-380 | after a refresh that raised nothing, an Azure AD key is at most 300 seconds old at the time of the check |
| `EmbeddingToken.TokenCache.Empty` | app/backend/indexer.py:39 | the cache starts with no token type, creation time or credential, and the configured key |
| `EmbeddingToken.TokenCache.RefreshOpenAiToken` | app/backend/indexer.py:376-380 | the cache and the key change as `RefreshSpec` says, including the failed fetch |
| `EmbeddingToken.TokenCache.AddFile` | app/backend/indexer.py:391-397 | with the fetched token of the awaited `get_token` call, `add_file` leaves an Azure AD key created now, with its credential |
| `EmbeddingToken.Retry` | app/backend/indexer.py:277-280 | an embedding obtained is one attempt's reply. Retrying keeps the token type and the credential, and the key is the original one or a token some attempt fetched |
| `EmbeddingToken.FailedFetchNeverEmbeds` | app/backend/indexer.py:277-280 | when every attempt finds the token stale and its fetch fails, no embedding is obtained and the cache is unchanged |
| `EmbeddingToken.RetryUsesFreshKey` | app/backend/indexer.py:277-280 | an embedding that is obtained comes from an attempt in which the key was at most 300 seconds old |
| `EmbeddingToken.ComputeEmbedding` | app/backend/indexer.py:277-280 | 15 attempts, each a refresh then a request; the first attempt in which neither raises gives the result, and the cache ends as `Retry` says |
| `App.SearchClients` | app/backend/app.py:243-249 | the loop builds exactly those clients |
| `App.ContainerClients` | app/backend/app.py:231-233 | the loop builds one container client per container name, and no other |
| `App.ParseRequest` | app/backend/app.py:96-100 | parsing succeeds exactly for an object with `approach` whose `overrides` is falsy or an object. A missing `approach` is a `KeyError('approach')`. The overrides become `{}` when falsy. The index name is the given one when truthy and `natural-capital` otherwise, so it is always truthy and the branches for a falsy name never run |
| `App.LookupApproach` | app/backend/app.py:107 | an approach is found exactly when the index name and approach are strings present in the table. The found approach is the table's entry. A `TypeError` is raised exactly when the index name or the approach is unhashable |
| `App.Dispatch` | app/backend/app.py:91-125 | a non-JSON request gets 415. An exception escapes exactly when reading `approach` or `overrides` fails. Every answer is 200, 400, 415 or 500. 400 "unknown approach or index_name" comes exactly when no approach is found. 500 comes exactly when the lookup raises, the `question` key is missing, or `run` raises, with the exception's text as the error. When `run` returns, the answer is 200 with `run`'s value as its body. Dispatch never reads storage. `chat` (app.py:147-176) is the same with `history` |
| `App.DispatchSucceeds` | app/backend/app.py:115-122 | status 200 comes exactly when the approach is found, the input key is present and `run` returns. The body of a 200 answer is the value `run` returned for that approach, input and overrides |
| `App.SetupTablesResolve` | app/backend/app.py:266-306 | with the start-up tables, `ask` resolves exactly the seven indices × `rtr`/`rrr`/`rda`, and `chat` only `rrr` |
| `App.SetupTablesBindIndex` | app/backend/app.py:266-306 | for each of the seven indices, `ask` finds `rtr`, `rrr` and `rda` as retrieve-then-read, read-retrieve-read and read-decompose-ask, and `chat` finds `rrr` as chat-read-retrieve-read, each holding that index's search client |
| `App.AskWithoutOverrides` | app/backend/app.py:91-116 | without overrides `/ask` uses `natural-capital` and answers 400 exactly for an unknown approach name |
| `App.ContentFile` | app/backend/app.py:54-60 | 400 "unknown index_name for blob container" exactly when the index has no container client, and no other response; otherwise the blob is fetched from that index's container under the given path |
| `App.ContentFileNeedsContainer` | app/backend/app.py:54-60 | after start-up, `/content` answers 400 exactly for a name outside the seven containers |
| `App.EnsureTokenSettles` | app/backend/app.py:198-204 | after a check whose fetch succeeds, the token is valid for at least another minute when the fetched one is, and a second check at the same instant changes nothing and fetches nothing, so it cannot fail |
| `App.AppConfig.EnsureOpenAiToken` | app/backend/app.py:198-204 | when the token expires within 60 seconds, replaces the token and key with the fetched token, or, when `get_token` raises, stores nothing and stops the request. A token valid for another minute is kept and the request goes on. The client maps and approach tables are left unchanged |
| `App.AppConfig.SetupClients` | app/backend/app.py:206-306 | one container client per storage container, the ask and chat tables over one search client per index, and the fetched token stored as the key |

## Left out

- PDF text extraction, blob upload and removal, index removal,
  `upload_blobs`, `remove_blobs`, `remove_from_index` and `add_file`'s
  wiring: storage and search I/O. Page texts come in as a sequence of
  strings, and the search client is a recorder of uploads.
- The embedding field that `create_sections` adds when `use_vectors` is
  set: the embeddings call is foreign. `ComputeEmbedding` models only the
  refresh, the retry and the result.
- The random exponential wait between retries, the `before_sleep` message,
  printing and logging, `async`, telemetry, and the static file routes.
- Three calls in the indexer do not match their callees' signatures:
  - `create_sections` calls `split_text(page_map)` without the file argument
    (indexer.py:261 against 191);
  - `add_file` passes `storageaccount=` to `upload_blobs` (indexer.py:402
    against 63);
  - `add_file` calls `index_sections` without `searchService` (indexer.py:406
    against 330).

  Each of these would raise a `TypeError` at the call. The model follows
  the evidently intended call.
- `refresh_openai_token` (indexer.py:379) and `add_file` (indexer.py:393)
  call `get_token` of the `azure.identity.aio` credential without `await`,
  so `.token` is read from a coroutine and raises `AttributeError`. The
  model passes the fetched token in as an `Option`. `None` is the failed
  fetch: the cache is unchanged and the attempt is retried
  (`FailedFetchNeverEmbeds`). `Some` is the evidently intended awaited
  call, which `AddFile` and the refresh then store.
- `filename.encode('utf-8')` in `filename_to_id` raises
  `UnicodeEncodeError` on a lone surrogate. Dafny strings cannot hold one,
  so that error is not represented.
- `SplitText`: requires that the loop exits on the text (`Halts`), because
  it does not on every text (`UnclosedTableLoopsForever`). `NoTableHalts`
  discharges this for table-free texts.
- `CreateSections`: inherits the same requirement from `SplitText`.
- `ComputeEmbedding`: requires exactly 15 attempt environments, one per
  attempt tenacity may make. Giving up with `RetryError` is modelled as
  `None`.
- `ContentFile`: stops where the blob download begins. The 404 for missing
  properties and the MIME type guess depend on storage replies.
- `Dispatch`: the text of an uncaught exception's message is approximate.
  `get_json` failures on malformed bodies are not modelled. JSON numbers are
  integers, so floats are left out.
- Clock readings are integer seconds, where the source uses the float from
  `time.time()`.
- `os.path.basename` and `splitext` follow POSIX semantics, with `/` as the
  only separator. `.lower()` in `blob_name_from_file_page` is modelled as
  ASCII lower-casing.
- The per-batch `succeeded` count of `index_sections` is only printed, so
  the model does not keep it.
- The approaches' `run` methods are not part of this model. They are an
  opaque function parameter.
