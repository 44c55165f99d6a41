# paper-scraping refresh pipeline, modelled in Dafny

This project models the refresh pipeline of the paper-scraping service. It fetches the arXiv
RSS listings of the configured categories and normalises each feed entry into a scraped
paper. It merges the categories, dropping failed ones, deduplicating by arXiv identifier and
putting the newest publication first. It then upserts every paper into the `papers` table and
enriches rows that have no summary through the language-model summarizer. The summarizer cuts
long documents into overlapping windows, asks for one note per leading chunk, and then sends a
fallback request or a consolidation request. The project also models the read side:
`list_papers`, `distinct_categories`, the API schema's list decoders, the settings validator,
and the best-effort PDF full-text fetcher.

One Dafny module stands for each core source file. The helper modules are:

- `Wrappers`: an `Option` type, for Python's `X | None`.
- `Text`: `str.strip`, `str.split`, `str.join` and the strip-and-filter list comprehension the
  code uses everywhere.
- `LexOrder`: Python's string ordering and `sorted(set)`.
- `Sorting`: the stable `sorted(..., reverse=True)` by an integer key.

Code that works step by step is imperative Dafny. Each such method is proved equal to a
specification function, and the promised properties are lemmas about that function.

- `Paper` is a class whose fields the service updates in place.
- `RefreshStats` is a class holding the counters.
- `PaperService` owns the session's table as a `map` from identifier to `Paper` object.
- The loops of `_parse_entry`, `_build_candidate_urls`, `fetch_full_text`,
  `_pdf_bytes_to_text`, `_chunk_text`, `summarize`, `fetch_all_categories`, `refresh` and
  `distinct_categories` are `while`/`for` loops with invariants.

The outside world is passed in as parameters:

- the feed: the result of fetching one category;
- the HTTP GET and the PDF reader;
- the language model: `ask`, the outcome of `_call_llm` for a prompt;
- the clock: `now`, as seconds since the epoch;
- the progress reporter: whether it raised.

Where the specification of the system and the code disagree, the model follows the code. The one
exception is the `mktime` defect listed under "## Findings": the parsed timestamps use the
corrected reading (see `Scraper.EntryToPaper` under "## Left out"). The points where the model
follows the code are:

- `refresh` calls `summarize(title, abstract)` and never fetches the full text
  (backend/service.py:143-144). The full-text fetcher is modelled on its own, and
  `Service.DefaultSummarizer` is the summarizer with no full text.
- `_call_llm` re-raises after its retries, and `summarize` has no `try`. So a part call that
  raises ends `summarize` with an exception (`SummaryFailed`); it does not add an empty note.
  The service turns that into `"llm-failed"`.
- The API decoders drop empty affiliation slots, so stored alignment between authors and
  affiliations is not kept on read. `Schemas.AffiliationsLoseAlignment` shows an input where
  this happens.

## Model

| member | source | states |
|---|---|---|
| Config.SplitCategories | backend/config.py:45-52 | `None` gives the three default categories; a list passes through unchanged; a string gives only non-empty, stripped codes without commas; a blank string gives no codes |
| Config.CategoriesSettingRoundTrip | backend/config.py:50-51 | writing clean codes comma-separated into the environment reads back exactly those codes |
| Models.Paper.constructor | backend/models.py:10-28 | the new object holds exactly the given column values |
| Models.Paper.CategoryList | backend/models.py:30-31 | every code is non-empty, stripped and comma-free; a blank column gives no codes |
| Models.Paper.AuthorList | backend/models.py:33-34 | every name is non-empty, stripped and free of `;`; a blank column gives no names |
| Models.Paper.AffiliationList | backend/models.py:36-38 | a NULL column reads as no affiliations; every entry is non-empty, stripped and free of `;` |
| Models.Paper.MarkSummarized | backend/models.py:40-44 | sets summary, model, language and the summarization time; every other column is unchanged |
| Schemas.ParseDelimited | backend/schemas.py:31-56 | the common rule of the three validators: a list passes through, a falsy value gives `[]`, a string gives clean separator-free pieces |
| Schemas.ParseAuthors | backend/schemas.py:31-38 | list passthrough, falsy gives `[]`, text gives clean `;`-free names |
| Schemas.ParseCategories | backend/schemas.py:40-47 | list passthrough, falsy gives `[]`, text gives clean comma-free codes |
| Schemas.ParseAffiliations | backend/schemas.py:49-56 | list passthrough, falsy gives `[]`, text gives clean `;`-free affiliations |
| Schemas.DelimitedRoundTrip | backend/schemas.py:31-56 | decoding the separator-join of clean pieces gives back the same pieces, in order |
| Schemas.AuthorsRoundTrip | backend/schemas.py:31-38 | authors stored as `";".join(names)` decode to the same names |
| Schemas.CategoriesRoundTrip | backend/schemas.py:40-47 | categories stored as `",".join(codes)` decode to the same codes |
| Schemas.AffiliationsLoseAlignment | backend/schemas.py:49-56 | the stored slots `[known, ""]` for two authors decode to the one-element list `[known]` |
| Text.Strip | backend/models.py:30-31 | the result has no whitespace at either end, is empty exactly when the input is blank, and is no longer than the input |
| Text.StripIsTrimmedInfix | backend/models.py:30-31 | a non-empty stripped text is an infix of the input with only whitespace before and after it, and it uses no character absent from the input |
| Text.StripIdempotent | backend/scraper.py:54-55 | stripping twice is stripping once |
| Text.Split | backend/models.py:30-31 | `split` gives at least one piece, no piece contains the separator, and joining the pieces with the separator restores the input |
| Text.SplitJoin | backend/service.py:63-70 | splitting a join of separator-free pieces gives the pieces back |
| Text.SplitClean | backend/models.py:30-31 | `[x.strip() for x in s.split(sep) if x.strip()]`: clean, separator-free pieces; none for a blank string |
| Text.CleanPiecesAppend | backend/models.py:30-31 | the strip-and-filter comprehension distributes over list concatenation |
| Text.CleanPiecesOfClean | backend/models.py:30-31 | the comprehension leaves an already clean list unchanged |
| Text.RStripChar | backend/full_text.py:47 | `rstrip(c)` keeps the longest prefix not ending in `c`; everything removed is `c` |
| Text.BeforeFirst | backend/full_text.py:52 | `split(c, 1)[0]` is the prefix before the first `c`, or the whole string when there is no `c` |
| LexOrder.LessTransitive | backend/service.py:110 | Python's string order is transitive |
| LexOrder.LessTotal | backend/service.py:110 | any two different strings are ordered one way or the other |
| LexOrder.LessAsymmetric | backend/service.py:110 | never both `a < b` and `b < a` |
| LexOrder.Insert | backend/service.py:109 | adding a code to the ascending list of a set keeps it strictly ascending, with exactly the old members plus the code |
| LexOrder.SortedSet | backend/service.py:110 | `sorted(set)` is strictly ascending and has exactly the members of the set |
| Sorting.InsertDesc | backend/scraper.py:132 | inserting into a key-descending list keeps it descending and adds exactly that element |
| Sorting.SortDesc | backend/scraper.py:132 | the result is descending by key and is a permutation of the input |
| Sorting.SortDescStable | backend/scraper.py:132 | elements with equal keys keep their input order, as Python's stable sort does |
| Scraper.ParseDatetime | backend/scraper.py:33-37 | the published time when present, else the updated time, else the fallback, else now |
| Scraper.ParseDatetimeAsWritten | backend/scraper.py:33-37 | with `mktime`, a dated entry's instant is shifted by the host's UTC offset |
| Scraper.MktimeAgreesAtUtc | backend/scraper.py:36 | on a host whose UTC offset is zero, the `mktime` reading and the corrected reading give the same instant |
| Scraper.MktimeShiftsInstant | backend/scraper.py:36 | on any host whose UTC offset is not zero, the as-written timestamp differs from the feed's instant |
| Scraper.PdfLink | backend/scraper.py:43-49 | the href of the first link typed `application/pdf` that has an href; `None` exactly when there is no such link |
| Scraper.CleanAffiliation | backend/scraper.py:56-60 | a non-blank affiliation stripped; `None` exactly when it is missing or blank |
| Scraper.AuthorNames | backend/scraper.py:50-55 | the names are stripped and non-empty, one per named author at most |
| Scraper.AuthorAffiliations | backend/scraper.py:50-60 | exactly one slot per kept author name, each slot either `None` or a clean affiliation |
| Scraper.TagTerms | backend/scraper.py:61-65 | the category terms are stripped and non-empty, at most one per tag |
| Scraper.LastSegment | backend/scraper.py:80 | the identifier is the suffix after the last `/`, and contains no `/` |
| Scraper.EntryToPaper | backend/scraper.py:40-90 | the title is the stripped feed title, or "Untitled" when it is absent or blank. The identifier is the last `/` segment of `id` or `link`. Affiliations are aligned with authors, authors and categories are clean, the PDF link is the first typed one, the abstract is stripped, and the updated time equals the published time |
| Scraper.FindPdfLink | backend/scraper.py:43-49 | the loop stops at the first PDF link and returns what `PdfLink` specifies |
| Scraper.CollectAuthors | backend/scraper.py:50-60 | the loop builds the names and their aligned affiliation slots together |
| Scraper.CollectTerms | backend/scraper.py:61-65 | the loop collects exactly the clean tag terms, in feed order |
| Scraper.ParseEntry | backend/scraper.py:40-90 | `_parse_entry` yields exactly `EntryToPaper`, including the `affiliations or [None] * len(authors)` case |
| Scraper.PyPrefix | backend/scraper.py:111 | `s[:n]` is a prefix of `s`, for a negative `n` too |
| Scraper.FetchCategory | backend/scraper.py:93-114 | fails exactly when the fetch fails; otherwise it parses the first `max_results` entries in feed order, with Python's slice length for a negative limit |
| Scraper.CategoryResults | backend/scraper.py:122-124 | one result per requested category, in category order |
| Scraper.Collected | backend/scraper.py:126-130 | every collected paper comes from a successful category |
| Scraper.CollectedComplete | backend/scraper.py:126-130 | every paper of every successful category is collected |
| Scraper.IndexById | backend/scraper.py:131 | the dict's keys are exactly the collected identifiers, each listed once, ordered by the position at which the collected list first mentions them |
| Scraper.IndexByIdLastWins | backend/scraper.py:131 | the dict maps each identifier to the last paper collected with it |
| Scraper.Deduped | backend/scraper.py:131 | identifiers are pairwise distinct, no identifier is lost, each carries its last collected paper, and the papers come in the order in which their identifiers were first collected |
| Scraper.FetchAllCategories | backend/scraper.py:117-132 | the loop over gathered results gives the skip-failures, dedup and newest-first merge |
| Scraper.DistinctIdsPermuted | backend/scraper.py:132 | sorting cannot create a repeated identifier |
| Scraper.MergeSameElements | backend/scraper.py:131-132 | sorting neither adds nor drops a deduplicated paper |
| Scraper.MergePapersProperties | backend/scraper.py:126-132 | the merged list has distinct identifiers and descending publication times. It holds every collected identifier, and each entry is the last paper collected for its identifier |
| Scraper.WithKeyKeepsFirstSeen | backend/scraper.py:131-132 | keeping only the papers with one publication time keeps their first-collected order |
| Scraper.MergeTiesFirstSeen | backend/scraper.py:131-132 | papers with equal publication times leave the merge in the order in which their identifiers were first collected: the dict's key order, kept by the stable sort |
| Scraper.MergeKeepsEverySuccessfulId | backend/scraper.py:124-131 | a failed category does not hide any paper of a successful one: each of its identifiers is in the merged list |
| FullText.LinkCandidates | backend/full_text.py:44-47 | a truthy PDF link comes first, followed by its `rstrip('/') + ".pdf"` variant when it does not end in `.pdf` (any case); no link gives no URLs |
| FullText.IdCandidates | backend/full_text.py:48-54 | a blank identifier gives no URLs. A non-blank one with a `v` after a non-empty prefix gives exactly its canonical PDF URL followed by the base's URL; any other non-blank one gives exactly its canonical PDF URL |
| FullText.DedupKeepFirst | backend/full_text.py:55-62 | the result has no repeats and exactly the input's URLs |
| FullText.DedupKeepsFirstOrder | backend/full_text.py:55-62 | the kept URLs are in the order of their first occurrence |
| FullText.DropRepeats | backend/full_text.py:55-62 | the loop with its `seen` set computes `DedupKeepFirst` |
| FullText.IdUrls | backend/full_text.py:48-54 | the identifier branch appends exactly `IdCandidates` |
| FullText.BuildCandidateUrls | backend/full_text.py:42-62 | at most four distinct URLs. The explicit link comes first and its `.pdf` variant second; the list is empty exactly when there is neither a link nor a non-blank identifier |
| FullText.DedupFirstTwo | backend/full_text.py:55-62 | deduplication keeps the first URL first, and a different second URL second |
| FullText.EndsWithOwnSuffix | backend/full_text.py:47 | the `.pdf` variant does end in `.pdf` |
| FullText.CandidateOrder | backend/full_text.py:42-62 | the explicit link is tried first and its `.pdf` variant second, whatever the identifier adds |
| FullText.PageTexts | backend/full_text.py:73 | each page gives its extracted text, or "" for `None` |
| FullText.NonEmptyOfStripped | backend/full_text.py:74-77 | filtering the stripped page texts equals the strip-and-filter of the raw texts |
| FullText.StripPages | backend/full_text.py:72-74 | the page loop strips each page's text, one fragment per page |
| FullText.PdfBytesToText | backend/full_text.py:65-77 | an empty payload or a failed reader gives ""; otherwise the non-empty stripped pages joined by a blank line |
| FullText.PdfTextShape | backend/full_text.py:65-77 | the text has no surrounding whitespace, and is empty exactly when there is no payload, the reader failed, or every page is blank |
| FullText.JoinOfCleanIsStripped | backend/full_text.py:77 | joining clean page texts gives a stripped text, empty only for no pages |
| FullText.TextFromNoneUsable | backend/full_text.py:35-36 | with no usable response the fetch returns "" |
| FullText.TextFromFirstUsable | backend/full_text.py:22-33 | the first usable candidate decides the text; later candidates do not matter |
| FullText.FirstUsableText | backend/full_text.py:19-36 | the download loop skips errors, non-PDF responses and empty bodies, and extracts from the first usable body |
| FullText.FetchFullText | backend/full_text.py:15-39 | the text of the first usable candidate, in candidate order, or "" |
| Summarizer.ChunkSize | backend/summarizer.py:136 | the window is at least 1000 characters and at least the configured size |
| Summarizer.ChunkOverlap | backend/summarizer.py:137 | the overlap is at most half a window (so less than a window), and is either within the configured overlap or zero |
| Summarizer.MaxChunks | backend/summarizer.py:64 | at least one part is always processed |
| Summarizer.DefaultChunking | backend/config.py:24-34 | the default settings chunk by 6000 characters with an overlap of 500 and 6 parts, and configure no model |
| Summarizer.Windows | backend/summarizer.py:141-148 | the walk yields no window exactly when it starts at or past the end |
| Summarizer.WindowsLast | backend/summarizer.py:142-147 | a window that reaches the end is the last one |
| Summarizer.WindowsStep | backend/summarizer.py:142-148 | after a full window the next starts `overlap` before its end |
| Summarizer.WindowsShape | backend/summarizer.py:141-148 | every window is non-empty, at most one window long and inside the text; the first starts at 0 and the last ends the text |
| Summarizer.WindowsChain | backend/summarizer.py:141-148 | every window but the last is full length and ends before the text does, and the next starts `overlap` before its end |
| Summarizer.WindowsCover | backend/summarizer.py:141-148 | every character lies in some window: the overlap leaves no gap |
| Summarizer.ChunksShape | backend/summarizer.py:132-149 | every chunk is non-empty, stripped and at most one window long |
| Summarizer.ChunksLast | backend/summarizer.py:142-147 | the last window contributes its stripped slice when non-blank |
| Summarizer.ChunksStep | backend/summarizer.py:142-148 | a full window contributes its stripped slice when non-blank, then the walk continues |
| Summarizer.ChunkText | backend/summarizer.py:132-149 | `_chunk_text` returns exactly `Chunks` |
| Summarizer.WalkWindows | backend/summarizer.py:138-149 | the `while` loop returns the stripped non-blank window slices, in order |
| Summarizer.WalkStep | backend/summarizer.py:141-148 | one iteration cuts `text[start:min(length, start + size)]`. It ends the loop exactly at the end of the text, and otherwise moves `start` back by `overlap` |
| Summarizer.ShortDocument | backend/summarizer.py:52-58 | a stripped document that fits one window is its own single chunk |
| Summarizer.LongDocument | backend/summarizer.py:52 | a stripped document longer than one window gives at least two chunks |
| Summarizer.SingleChunkIff | backend/summarizer.py:52 | a non-empty stripped document gives at least one chunk, and only one exactly when it fits one window |
| Summarizer.ChunksFromWindows | backend/summarizer.py:143-145 | every chunk is the stripped slice of one of the windows |
| Summarizer.ChunksCoverText | backend/summarizer.py:141-148 | the windows together cover the whole document |
| Summarizer.PartTextsAppend | backend/summarizer.py:121 | segment texts concatenate in segment order |
| Summarizer.FirstTruthyIsFirst | backend/summarizer.py:123-129 | the `or` chain gives "" exactly when every present key maps to "", and otherwise gives the first non-empty value in key order |
| Summarizer.ExtractTextShapes | backend/summarizer.py:107-121 | no payload gives "". A string content of the first choice is returned as is. A non-empty segment list gives the concatenated `text` of its dictionary segments, and non-dictionary segments add nothing |
| Summarizer.DictReplyPriority | backend/summarizer.py:123-129 | a dictionary reply yields `text`, else `summary`, else `output`, else "" |
| Summarizer.CallLlm | backend/summarizer.py:151-178 | `_call_llm` raises exactly when the client call fails; otherwise it returns the stripped extracted text |
| Summarizer.ResultOf | backend/summarizer.py:61 | `summarize` raises exactly when the call it returns through raised |
| Summarizer.Document | backend/summarizer.py:40-43 | the stripped full text when it has content, else the stripped abstract; always stripped |
| Summarizer.PromptsUpTo | backend/summarizer.py:66-79 | one prompt per segment handled |
| Summarizer.PartPrompts | backend/summarizer.py:64-66 | one prompt per segment, up to the part limit |
| Summarizer.PromptsUpToAt | backend/summarizer.py:66-74 | prompt `i` carries segment `i`, the 1-based index `i + 1`, the segment count and the limit |
| Summarizer.PartPromptsAt | backend/summarizer.py:66-74 | every part prompt is numbered from 1 and carries its own segment |
| Summarizer.NotesAfter | backend/summarizer.py:66-81 | no more calls are made than prompts handled, and no more notes kept than calls made; without a failure every prompt was sent |
| Summarizer.PartNotes | backend/summarizer.py:66-81 | the same bounds over all the part prompts |
| Summarizer.NotesAfterStays | backend/summarizer.py:79 | after a call raises, nothing more is sent or kept |
| Summarizer.NotesAfterStopAtFailure | backend/summarizer.py:79 | the run stops at the first call that raises, and every earlier call returned text |
| Summarizer.NotesAfterKept | backend/summarizer.py:79-81 | every note is the stripped text of a non-empty reply to an earlier part call |
| Summarizer.NotesAfterEmpty | backend/summarizer.py:80-83 | when no call raised, no note is kept exactly when every reply was empty |
| Summarizer.PartNotesOfStrippedReplies | backend/summarizer.py:175-177 | since `_call_llm` returns stripped text, every note is a non-empty reply unchanged |
| Summarizer.SummarizationCalls | backend/summarizer.py:39-105 | with no document or no model nothing is sent and "" is returned; otherwise between one and `max_chunks + 1` prompts are sent |
| Summarizer.DocumentRunCalls | backend/summarizer.py:49-105 | with a document and a model, at least one and at most `max_chunks + 1` prompts |
| Summarizer.SingleCall | backend/summarizer.py:52-61 | a document that fits one window is sent whole in one call, whose outcome is the result |
| Summarizer.MultiChunkCalls | backend/summarizer.py:63-105 | a long document gets one numbered part call per leading chunk (at most `max_chunks`), stopping with failure at the first call that raises. Otherwise one fallback call follows on the whole document when every note is empty, or one consolidation call on the notes joined by blank lines plus the abstract when it is non-empty |
| Summarizer.SendParts | backend/summarizer.py:63-81 | the part loop sends the leading prompts in order until one raises, keeping the stripped non-empty replies |
| Summarizer.StopAfter | backend/summarizer.py:79 | when call `i` raises, exactly the first `i + 1` prompts were sent |
| Summarizer.PrefixOfPrompts | backend/summarizer.py:66 | the prompts for fewer segments are a prefix of those for more |
| Summarizer.Summarize | backend/summarizer.py:39-105 | `summarize` sends exactly the specified prompts, in order, and returns the specified result |
| Summarizer.SummarizeDocument | backend/summarizer.py:49-105 | the chunk, ask and consolidate part of `summarize` follows its specification |
| Service.RefreshStats.constructor | backend/service.py:51 | the stats start with the fetched count and zero created and summarized |
| Service.EmitProgress | backend/service.py:161-174 | no reporter means no call; a reporter is called exactly once with the event, and its exception is swallowed |
| Service.DefaultSummarizer | backend/summarizer.py:181-182 | the default summarizer uses the model exactly when a key is configured, and summarizes with no full text |
| Service.AffiliationSlots | backend/service.py:64-65 | one stored slot per affiliation, `None` written as "" |
| Service.EnrichOutcomes | backend/service.py:130-159 | only the four summary columns change. A row with a summary, or a paper without an abstract, is untouched. No model gives `"not-run"` and is not counted. With a model, the row is summarized and counted exactly when the summarizer returns text, with the configured model, language and now; otherwise it gets `"llm-failed"` |
| Service.UpsertStepLawful | backend/service.py:54-78 | one iteration adds the paper's identifier and touches no other row. It creates a row exactly when the identifier was absent, and the row then carries the scraped fields. A stored row keeps its identity, origin times and existing summary; a new row takes them from the feed and the clock |
| Service.Tally | backend/service.py:77-78 | `created` and `summarized` grow by one exactly when the iteration created or summarized; `fetched` is unchanged |
| Service.RequestedCategories | backend/service.py:46 | the given categories when non-empty, otherwise the configured ones |
| Service.FetchRequested | backend/service.py:46-50 | the papers fetched are exactly the merged feed of the given categories, or of the configured ones when none are given |
| Service.FetchedDistinct | backend/service.py:47-50 | the list the loop receives never repeats an identifier |
| Service.RunCounts | backend/service.py:51-79 | `fetched` is the scraped count; `created` and `summarized` never exceed the papers handled |
| Service.RunKeys | backend/service.py:54-79 | the table's identifiers afterwards are the old ones plus the scraped ones |
| Service.RunCreated | backend/service.py:55-78 | with distinct identifiers, `created` counts exactly the scraped papers not yet stored |
| Service.RunKeepsStored | backend/service.py:55-58 | a stored row keeps its identifier, publication and creation times, and an existing summary; a row not scraped is untouched |
| Service.RunUntouched | backend/service.py:54-79 | a row is unchanged by iterations for other identifiers |
| Service.RunOverwrites | backend/service.py:56-75 | every handled paper's row carries its scraped fields. A stored row gets the joined affiliations even when there are none; a new row stores `None` for no affiliations, with the feed's publication time and now as creation time |
| Service.RunProgress | backend/service.py:52-79 | the reporter is called once with `(0, total, stats, None)`, then once per paper with its 1-based position and the paper, the last call seeing the final counters; no reporter means no calls |
| Service.RefreshOutcome | backend/service.py:40-81 | for the merged feed: `fetched` is its length, `created` counts exactly the papers not yet stored, neither count exceeds `fetched`, and the table gains exactly the fetched identifiers |
| Service.NewRowReadsBack | backend/service.py:60-75 | a row inserted by `refresh` reads back through the API with the scraped identifier, title, authors, categories and times, and no summary |
| Service.Matching | backend/service.py:84-86 | exactly the table's rows whose categories contain the requested code (all rows when the code is missing or empty), none more often than in the table |
| Service.Window | backend/service.py:95-96 | `offset` rows skipped and at most `limit` kept, in order |
| Service.Newest | backend/service.py:94 | the same number of rows, newest publication first, drawn from the input |
| Service.Page | backend/service.py:91-97 | the page length follows offset and limit, newest first, drawn from the matching rows |
| Service.Views | backend/service.py:98 | one API view per row, in order |
| Service.ListPapers | backend/service.py:83-99 | `total` counts every selected row; the page length follows offset and limit; items are newest first |
| Service.ListedAreSelected | backend/service.py:83-99 | every listed item is the API view of a selected row |
| Service.CodesOfAdd | backend/service.py:104-109 | visiting one more row adds exactly its codes |
| Service.AddCodes | backend/service.py:107-109 | the inner loop adds exactly the clean codes of one column |
| Service.PaperService.constructor | backend/service.py:30-38 | the service holds the session's objects and the settings, and the given summarizer or else the default one |
| Service.PaperService.DistinctCategories | backend/service.py:101-110 | each code of each stored row appears exactly once, in strictly ascending order, and is clean |
| Service.PaperService.GetByArxivId | backend/service.py:112-114 | the object under the identifier exactly when there is one |
| Service.PaperService.UpdateExisting | backend/service.py:116-128 | overwrites the descriptive columns from the feed; the affiliations are always joined |
| Service.PaperService.SummarizeIfNeeded | backend/service.py:130-159 | the object's row becomes the enriched row, and `summarized` grows exactly when it was summarized |
| Service.PaperService.StoreScraped | backend/service.py:55-78 | one loop body: the table and counters become what one upsert step specifies |
| Service.PaperService.StoreExisting | backend/service.py:55-58 | the stored branch of one upsert step |
| Service.PaperService.StoreNew | backend/service.py:59-78 | the new-identifier branch adds one fresh object under its identifier |
| Service.PaperService.Refresh | backend/service.py:40-81 | the table, counters and reporter calls after `refresh` are exactly the run of the loop over the merged feed of the requested categories |
| Service.PaperService.StoreAll | backend/service.py:51-81 | the loop over the scraped list gives the specified run |
| Service.PaperService.Advance | backend/service.py:54-79 | one turn of the loop moves from the state after `i` papers to the state after `i + 1` |

## Left out

- Retries and backoff (tenacity), request timeouts and the `httpx` client are not modelled. Each fetch or model call is a single outcome that either succeeds or fails after its retries.
- Concurrency is not modelled. The `asyncio.gather` fan-out is the list of per-category outcomes in category order, and the PDF extraction offloaded to an executor is a plain call.
- Overlapping refreshes racing on one store are not modelled, because one refresh is one sequential run.
- The SQLAlchemy session is a `map` from identifier to `Paper` object; the surrogate `id` key is not modelled.
- `session.add` and `session.commit` are not modelled: a commit failure aborts the whole refresh and is external to the core.
- The database sets `created_at` by server default; the model takes it from the `now` parameter.
- The clock (`datetime.now`) is the `now` parameter: a single clock reading per refresh. The source reads the clock separately for each undated entry (backend/scraper.py:37) and for each summary (backend/models.py:44), so later ones may get later times. In the model, undated entries of one fetch share one timestamp and tie in the sort. Timestamps are integer seconds since the epoch, not timezone-aware `datetime`s.
- feedparser, pypdf and the OpenAI client are oracles:
  - the feed is a function from category to entries or failure;
  - the PDF reader is a function from bytes to pages or failure;
  - the language model is `ask`, a function from prompt to outcome.
- Scraper.EntryToPaper: takes its timestamps from the corrected `Scraper.ParseDatetime`, not from the `mktime` reading of backend/scraper.py:36. On a host whose UTC offset is zero the two agree (`Scraper.MktimeAgreesAtUtc`). On any other host the code stores every dated entry shifted by the offset (`Scraper.MktimeShiftsInstant`), and the model does not. The same holds for `Scraper.ParseEntry`, `Scraper.FetchCategory`, `Scraper.FetchAllCategories`, `Service.Fetched`, `Service.FetchRequested`, `Service.PaperService.Refresh` and `Service.RefreshOutcome`, which all use these timestamps. None of the proofs depend on the timestamp values except for their order, and shifting every dated entry by the same offset keeps that order. An undated entry takes `now`, which the shift does not move, so its order relative to dated entries can differ.
- Summarizer.Summarize: `ask` is a function of the prompt, so identical prompts get identical replies. A real model may answer them differently.
- Service.SummarizerHandle: `summarize` is a function of the title and abstract. So two fetched papers with the same title and abstract get the same summary outcome within one refresh, although backend/service.py:143-144 calls the summarizer separately for each and a real model may answer differently.
- Prompt wording is not modelled. The dedented Chinese templates, the language and the sentence count appear only through which prompt kind is sent and its variable fields.
- `_get_client`'s `ValueError` for a missing key is not modelled. It cannot be reached from `summarize`, which returns before any call when no key is configured.
- Scraper.EntryToPaper: the `isinstance(..., list)` branches for `id` and `title` are not modelled, because the parser yields strings. A non-string field is modelled as absent; for a title present but not a string, Python would use `str(value)`.
- The SQL `LIKE` pattern is modelled as substring containment. `%` and `_` inside a category code are not treated as wildcards, and case-insensitive matching is not modelled.
- Service.ListPapers: among rows with the same publication time, the model keeps storage order (a stable sort), which SQL leaves unspecified. The contract states the count, the descending order and that each item comes from a selected row. It does not pin which of the equally new rows fill the page.
- Service.Page: does not state that the page is the exact slice of the sorted list; `Newest` and `Window` each state their own part.
- `limit` and `offset` are natural numbers. Negative values, which SQL rejects or treats specially, are not modelled.
- Python's `str.lower()` is modelled for ASCII letters only. Non-ASCII case mapping is not modelled.
- `distinct_categories` builds a Python `set`. The model uses a Dafny `set`; its iteration order is irrelevant because the result is sorted.
- Settings fields the core does not read are not modelled: scheduling, database URL, base URL, admin token, timeouts and SQLite pragmas. The settings come from the environment; the model takes a `Settings` value.
- `Paper.arxiv_id`'s 50-character and `title`'s 500-character column limits are not modelled.
- Service.EmitProgress: whether the reporter raised is the reporter's result, and it is ignored, as in the source.

## Findings

| source | as written | input that shows it | evidently intended | confidence | as-written member | corrected member |
|---|---|---|---|---|---|---|
| backend/scraper.py:33-37 | `datetime.fromtimestamp(time.mktime(struct_time), tz=timezone.utc)` reads the feed's UTC `struct_time` as local time, so the instant moves by the host's UTC offset | any dated entry parsed on a host whose local zone is not UTC, e.g. `published_parsed` = 2024-01-01 00:00 UTC on a UTC+8 host gives 2023-12-31 16:00 UTC | the feed's instant unchanged (`calendar.timegm`) | high, not executed | Scraper.ParseDatetimeAsWritten, Scraper.MktimeShiftsInstant | Scraper.ParseDatetime |
