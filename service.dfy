/**
 * The refresh service (backend/service.py): fetches the merged feed, upserts
 * every scraped paper into the store, fills the summary columns and reports
 * progress. The database session is the in-memory map `store` from
 * identifier to mapped `Paper` object; the summarizer is injected as a value
 * with a `usesLlm` flag and a `summarize` oracle.
 */
module Service {
  import opened Wrappers
  import opened Text
  import opened Config
  import opened Models
  import opened Scraper
  import Schemas
  import Summarizer
  import LexOrder
  import Sorting

  /** The `summary_model` sentinel when no language model is configured. */
  const NotRunModel: string := "not-run"
  /** The `summary_model` sentinel when the summarizer raised or returned nothing. */
  const FailedModel: string := "llm-failed"

  // ---------------------------------------------------------------------------
  // Statistics and progress

  /** `RefreshResponse`: the counters as returned to the caller. */
  datatype RefreshResponse = RefreshResponse(fetched: nat, created: nat, summarized: nat)

  /** `RefreshStats`: the three counters `refresh` bumps in place. */
  class RefreshStats {
    var fetched: nat
    var created: nat
    var summarized: nat

    constructor (fetched: nat)
      ensures ToResponse() == RefreshResponse(fetched, 0, 0)
    {
      this.fetched := fetched;
      created := 0;
      summarized := 0;
    }

    /** `to_response`. */
    function ToResponse(): RefreshResponse
      reads this
    {
      RefreshResponse(fetched, created, summarized)
    }
  }

  /** One call `reporter(current, total, stats, paper)`, with the counters as the reporter sees them. */
  datatype ProgressEvent = ProgressEvent(current: nat, total: nat, stats: RefreshResponse, paper: Option<ScrapedPaper>)

  /** A progress reporter; its result says whether the call raised. */
  type Reporter = ProgressEvent -> bool

  /** `_emit_progress`: the reporter, if any, is called once; whatever it raises is swallowed. */
  method EmitProgress(reporter: Option<Reporter>, event: ProgressEvent) returns (delivered: seq<ProgressEvent>)
    ensures reporter.None? <==> delivered == []
    ensures reporter.Some? ==> delivered == [event]
  {
    if reporter.None? {
      return [];
    }
    var raised := reporter.value(event);
    if raised {
      // the exception is swallowed: the refresh goes on unchanged
    }
    delivered := [event];
  }

  // ---------------------------------------------------------------------------
  // The injected summarizer

  /** The two members of `Summarizer` the service uses. */
  datatype SummarizerHandle = SummarizerHandle(usesLlm: bool, summarize: (string, string) -> Summarizer.SummaryResult)

  /**
   * `get_summarizer(settings)`: the language-model summarizer, asked with the
   * title and abstract only (no full text), with `ask` as its `_call_llm`.
   */
  function DefaultSummarizer(cfg: Settings, ask: Summarizer.Prompt -> Summarizer.LlmOutcome): (h: SummarizerHandle)
    ensures h.usesLlm <==> Summarizer.UsesLlm(cfg)
    ensures forall title, abstractText :: h.summarize(title, abstractText)
              == Summarizer.Summarization(cfg, title, abstractText, None, ask).result
  {
    SummarizerHandle(Summarizer.UsesLlm(cfg),
                     (title, abstractText) => Summarizer.Summarization(cfg, title, abstractText, None, ask).result)
  }

  /** What one refresh consults besides the store: the settings, the summarizer and the clock reading. */
  datatype Context = Context(cfg: Settings, summarizer: SummarizerHandle, now: int)

  // ---------------------------------------------------------------------------
  // Rows written by `refresh`

  /** `affiliation or ""` for each slot. */
  function AffiliationSlots(affs: seq<Option<string>>): (r: seq<string>)
    ensures |r| == |affs|
  {
    if affs == [] then [] else AffiliationSlots(affs[..|affs| - 1]) + [affs[|affs| - 1].GetOr("")]
  }

  /** The affiliations column of a new row: `None` for an empty list. */
  function NewAffiliations(p: ScrapedPaper): Option<string> {
    if p.affiliations != [] then Some(Join(AffiliationSlots(p.affiliations), ";")) else None
  }

  /** The `Paper(...)` that `refresh` adds for an unseen identifier; `now` fills `created_at`. */
  function NewRow(p: ScrapedPaper, now: int): PaperRow {
    PaperRow(p.arxiv_id, p.title, Join(p.authors, ";"), NewAffiliations(p), p.abstract_text,
             None, None, None, Join(p.categories, ","), p.link, p.pdf_url,
             p.published_at, p.updated_at, now, None)
  }

  /** `_update_existing` on a row value. */
  function UpdatedRow(row: PaperRow, p: ScrapedPaper): PaperRow {
    row.(title := p.title,
         authors := Join(p.authors, ";"),
         author_affiliations := Some(Join(AffiliationSlots(p.affiliations), ";")),
         abstract_text := p.abstract_text,
         categories := Join(p.categories, ","),
         link := p.link,
         pdf_url := p.pdf_url,
         updated_at := p.updated_at)
  }

  /** The row carries the scraped paper's descriptive fields, encoded as `refresh` stores them. */
  predicate Refreshed(row: PaperRow, p: ScrapedPaper) {
    && row.title == p.title
    && row.authors == Join(p.authors, ";")
    && row.abstract_text == p.abstract_text
    && row.categories == Join(p.categories, ",")
    && row.link == p.link
    && row.pdf_url == p.pdf_url
    && row.updated_at == p.updated_at
  }

  /** The two rows agree outside the four columns `_summarize_if_needed` may write. */
  predicate SameButSummary(a: PaperRow, b: PaperRow) {
    a.(summary := b.summary, summary_model := b.summary_model,
       summary_language := b.summary_language, last_summarized_at := b.last_summarized_at) == b
  }

  /** The four summary columns agree. */
  predicate SameSummary(a: PaperRow, b: PaperRow) {
    && a.summary == b.summary
    && a.summary_model == b.summary_model
    && a.summary_language == b.summary_language
    && a.last_summarized_at == b.last_summarized_at
  }

  /** `(entity.summary or "").strip()` is non-empty. */
  predicate HasSummary(row: PaperRow) {
    Strip(row.summary.GetOr("")) != ""
  }

  /** The summary columns cleared, with `model` as the sentinel. */
  function Sentinel(row: PaperRow, model: string): PaperRow {
    row.(summary := None, summary_model := Some(model), summary_language := None, last_summarized_at := None)
  }

  /** The text `summarize` produced, with an exception read as `""`. */
  function SummaryText(r: Summarizer.SummaryResult): string {
    match r
    case Summary(t) => t
    case SummaryFailed => ""
  }

  /** The row after enrichment, and whether `summarized` is bumped. */
  datatype Enriched = Enriched(row: PaperRow, summarized: bool)

  /**
   * `_summarize_if_needed` on a row value: keep a row that has a summary or
   * whose paper has no abstract; otherwise record `"not-run"` when no model
   * is configured, the summary when the summarizer returns text, and
   * `"llm-failed"` when it raises or returns `""`.
   */
  function Enrich(row: PaperRow, p: ScrapedPaper, ctx: Context): Enriched
  {
    if HasSummary(row) || p.abstract_text == "" then Enriched(row, false)
    else if !ctx.summarizer.usesLlm then Enriched(Sentinel(row, NotRunModel), false)
    else
      var text := SummaryText(ctx.summarizer.summarize(p.title, p.abstract_text));
      if text != "" then
        Enriched(row.(summary := Some(text), summary_model := Some(ctx.cfg.llm_model),
                      summary_language := Some(ctx.cfg.summary_language), last_summarized_at := Some(ctx.now)),
                 true)
      else Enriched(Sentinel(row, FailedModel), false)
  }

  /**
   * The summary state machine: only the four summary columns change; a row
   * with a summary, or a paper without an abstract, is left alone; without a
   * model the row gets `"not-run"`; with one it gets the summary (and is
   * counted) exactly when the summarizer returns text, else `"llm-failed"`.
   */
  lemma EnrichOutcomes(row: PaperRow, p: ScrapedPaper, ctx: Context)
    ensures var e := Enrich(row, p, ctx);
            var text := SummaryText(ctx.summarizer.summarize(p.title, p.abstract_text));
            && SameButSummary(e.row, row)
            && (HasSummary(row) || p.abstract_text == "" ==> e == Enriched(row, false))
            && (!ctx.summarizer.usesLlm ==> !e.summarized)
            && (!ctx.summarizer.usesLlm && !HasSummary(row) && p.abstract_text != "" ==> e.row == Sentinel(row, NotRunModel))
            && (e.summarized <==> !HasSummary(row) && p.abstract_text != "" && ctx.summarizer.usesLlm && text != "")
            && (e.summarized ==>
                  && e.row.summary == Some(text)
                  && e.row.summary_model == Some(ctx.cfg.llm_model)
                  && e.row.summary_language == Some(ctx.cfg.summary_language)
                  && e.row.last_summarized_at == Some(ctx.now))
            && (!e.summarized && !HasSummary(row) && p.abstract_text != "" && ctx.summarizer.usesLlm ==>
                  e.row == Sentinel(row, FailedModel))
  {
  }

  /** The store after one scraped paper, and which counters it bumps. */
  datatype Upserted = Upserted(rows: map<string, PaperRow>, created: bool, summarized: bool)

  /** One iteration of the loop of `refresh`: update or insert, then enrich. */
  function UpsertRow(rows: map<string, PaperRow>, p: ScrapedPaper, ctx: Context): (u: Upserted)
  {
    var id := p.arxiv_id;
    if id in rows then
      var e := Enrich(UpdatedRow(rows[id], p), p, ctx);
      Upserted(rows[id := e.row], false, e.summarized)
    else
      var e := Enrich(NewRow(p, ctx.now), p, ctx);
      Upserted(rows[id := e.row], true, e.summarized)
  }

  /** The loop body of `refresh` as a value: what one scraped paper does to the store. */
  type Step = (map<string, PaperRow>, ScrapedPaper) -> Upserted

  function UpsertStep(ctx: Context): Step {
    (rows, p) => UpsertRow(rows, p, ctx)
  }

  /**
   * What one iteration guarantees whatever the summarizer does: the paper's
   * identifier is added and no other row changes; a row is created exactly
   * when the identifier was absent; the paper's row carries the scraped
   * fields; a stored row keeps its identity, timestamps of origin and, when
   * it has one, its summary; a new row takes them from the feed and the clock.
   */
  predicate StepLaw(rows: map<string, PaperRow>, p: ScrapedPaper, u: Upserted, now: int) {
    && FrameLaw(rows, p, u)
    && (u.created <==> p.arxiv_id !in rows)
    && Refreshed(u.rows[p.arxiv_id], p)
    && (p.arxiv_id in rows ==>
          var before := rows[p.arxiv_id];
          var after := u.rows[p.arxiv_id];
          && after.arxiv_id == before.arxiv_id
          && after.published_at == before.published_at
          && after.created_at == before.created_at
          && after.author_affiliations == Some(Join(AffiliationSlots(p.affiliations), ";"))
          && (HasSummary(before) ==> SameSummary(after, before)))
    && (p.arxiv_id !in rows ==>
          var after := u.rows[p.arxiv_id];
          && after.arxiv_id == p.arxiv_id
          && after.author_affiliations == NewAffiliations(p)
          && after.published_at == p.published_at
          && after.created_at == now)
  }

  /** The paper's identifier is a key afterwards, and no other key or row changes. */
  predicate FrameLaw(rows: map<string, PaperRow>, p: ScrapedPaper, u: Upserted) {
    p.arxiv_id in u.rows && u.rows == rows[p.arxiv_id := u.rows[p.arxiv_id]]
  }

  /** Every application of `step` writes the paper's own row only. */
  ghost predicate Framed(step: Step) {
    forall rows, p :: FrameLaw(rows, p, step(rows, p))
  }

  lemma LawfulIsFramed(step: Step, now: int)
    requires Lawful(step, now)
    ensures Framed(step)
  {
    forall rows, p ensures FrameLaw(rows, p, step(rows, p)) {
      assert StepLaw(rows, p, step(rows, p), now);
    }
  }

  /** Every application of `step` obeys the law of one iteration. */
  ghost predicate Lawful(step: Step, now: int) {
    forall rows, p :: StepLaw(rows, p, step(rows, p), now)
  }

  /** The loop body of `refresh` obeys the law of one iteration. */
  lemma UpsertStepLawful(ctx: Context)
    ensures Lawful(UpsertStep(ctx), ctx.now)
  {
    forall rows, p ensures StepLaw(rows, p, UpsertStep(ctx)(rows, p), ctx.now) {
      var id := p.arxiv_id;
      if id in rows {
        EnrichOutcomes(UpdatedRow(rows[id], p), p, ctx);
      } else {
        EnrichOutcomes(NewRow(p, ctx.now), p, ctx);
      }
    }
  }

  /** The store, counters and reporter calls of `refresh` after the first `i` scraped papers. */
  datatype RefreshState = RefreshState(rows: map<string, PaperRow>, stats: RefreshResponse, calls: seq<ProgressEvent>)

  function Emitted(reporter: Option<Reporter>, calls: seq<ProgressEvent>, event: ProgressEvent): seq<ProgressEvent> {
    if reporter.Some? then calls + [event] else calls
  }

  /** The counters after one iteration: `created` and `summarized` count what it did. */
  function Tally(stats: RefreshResponse, u: Upserted): (r: RefreshResponse)
    ensures r.fetched == stats.fetched
    ensures r.created == stats.created + (if u.created then 1 else 0)
    ensures r.summarized == stats.summarized + (if u.summarized then 1 else 0)
  {
    stats.(created := stats.created + (if u.created then 1 else 0),
           summarized := stats.summarized + (if u.summarized then 1 else 0))
  }

  function RunUpTo(rows0: map<string, PaperRow>, scraped: seq<ScrapedPaper>, step: Step,
                   reporter: Option<Reporter>, i: nat): (st: RefreshState)
    requires i <= |scraped|
  {
    if i == 0 then
      var stats := RefreshResponse(|scraped|, 0, 0);
      RefreshState(rows0, stats, Emitted(reporter, [], ProgressEvent(0, |scraped|, stats, None)))
    else
      var prev := RunUpTo(rows0, scraped, step, reporter, i - 1);
      var p := scraped[i - 1];
      var u := step(prev.rows, p);
      var stats := Tally(prev.stats, u);
      RefreshState(u.rows, stats, Emitted(reporter, prev.calls, ProgressEvent(i, |scraped|, stats, Some(p))))
  }

  /** The whole loop of `refresh` over the scraped list. */
  function Run(rows0: map<string, PaperRow>, scraped: seq<ScrapedPaper>, step: Step, reporter: Option<Reporter>): RefreshState {
    RunUpTo(rows0, scraped, step, reporter, |scraped|)
  }

  /** `list(categories or self.settings.arxiv_categories)`. */
  function RequestedCategories(cfg: Settings, categories: Option<seq<string>>): (r: seq<string>)
    ensures categories.None? || categories.value == [] ==> r == cfg.arxiv_categories
    ensures categories.Some? && categories.value != [] ==> r == categories.value
  {
    if categories.Some? && categories.value != [] then categories.value else cfg.arxiv_categories
  }

  /** What `fetch_all_categories` hands to the loop. */
  function Fetched(cfg: Settings, categories: Option<seq<string>>, feed: string -> FeedResponse, now: int): seq<ScrapedPaper> {
    MergePapers(CategoryResults(RequestedCategories(cfg, categories), cfg.max_results_per_category, feed, now))
  }

  /** The first half of `refresh`: pick the categories and fetch them. */
  method FetchRequested(cfg: Settings, categories: Option<seq<string>>, feed: string -> FeedResponse, now: int)
    returns (scraped: seq<ScrapedPaper>)
    ensures scraped == Fetched(cfg, categories, feed, now)
  {
    var requested := RequestedCategories(cfg, categories);
    scraped := FetchAllCategories(requested, cfg.max_results_per_category, feed, now);
  }

  /** The merged feed never repeats an identifier. */
  lemma FetchedDistinct(cfg: Settings, categories: Option<seq<string>>, feed: string -> FeedResponse, now: int)
    ensures DistinctIds(Fetched(cfg, categories, feed, now))
  {
    MergePapersProperties(CategoryResults(RequestedCategories(cfg, categories), cfg.max_results_per_category, feed, now));
  }

  // ---------------------------------------------------------------------------
  // Properties of the loop

  /** How many of the first `i` papers have an identifier that is not a key of `rows0`. */
  function AbsentUpTo(rows0: map<string, PaperRow>, ps: seq<ScrapedPaper>, i: nat): (n: nat)
    requires i <= |ps|
    ensures n <= i
  {
    if i == 0 then 0 else AbsentUpTo(rows0, ps, i - 1) + (if ps[i - 1].arxiv_id in rows0 then 0 else 1)
  }

  /** The identifiers of the first `i` papers. */
  function IdsUpTo(ps: seq<ScrapedPaper>, i: nat): set<string>
    requires i <= |ps|
  {
    if i == 0 then {} else IdsUpTo(ps, i - 1) + {ps[i - 1].arxiv_id}
  }

  lemma {:induction false} FreshId(ps: seq<ScrapedPaper>, i: nat, j: nat)
    requires DistinctIds(ps) && i <= j < |ps|
    ensures ps[j].arxiv_id !in IdsUpTo(ps, i)
  {
    if i > 0 {
      FreshId(ps, i - 1, j);
    }
  }

  /**
   * The counters: `fetched` is the length of the scraped list, and `created`
   * and `summarized` grow by at most one per paper.
   */
  lemma {:induction false} RunCounts(rows0: map<string, PaperRow>, scraped: seq<ScrapedPaper>, step: Step,
                                     reporter: Option<Reporter>, i: nat)
    requires i <= |scraped|
    ensures var st := RunUpTo(rows0, scraped, step, reporter, i);
            st.stats.fetched == |scraped| && st.stats.created <= i && st.stats.summarized <= i
  {
    if i > 0 {
      RunCounts(rows0, scraped, step, reporter, i - 1);
    }
  }

  /** The store gains exactly the scraped identifiers. */
  lemma {:induction false} RunKeys(rows0: map<string, PaperRow>, scraped: seq<ScrapedPaper>, step: Step,
                                   reporter: Option<Reporter>, i: nat)
    requires Framed(step) && i <= |scraped|
    ensures var rows := RunUpTo(rows0, scraped, step, reporter, i).rows;
            rows.Keys == rows0.Keys + IdsUpTo(scraped, i)
  {
    if i > 0 {
      RunKeys(rows0, scraped, step, reporter, i - 1);
      var prev := RunUpTo(rows0, scraped, step, reporter, i - 1);
      assert FrameLaw(prev.rows, scraped[i - 1], step(prev.rows, scraped[i - 1]));
    }
  }

  /** With distinct identifiers, `created` counts exactly the papers that were not yet stored. */
  lemma {:induction false} RunCreated(rows0: map<string, PaperRow>, scraped: seq<ScrapedPaper>, step: Step, now: int,
                                      reporter: Option<Reporter>, i: nat)
    requires Lawful(step, now) && DistinctIds(scraped) && i <= |scraped|
    ensures RunUpTo(rows0, scraped, step, reporter, i).stats.created == AbsentUpTo(rows0, scraped, i)
  {
    if i > 0 {
      RunCreated(rows0, scraped, step, now, reporter, i - 1);
      LawfulIsFramed(step, now);
      RunKeys(rows0, scraped, step, reporter, i - 1);
      var prev := RunUpTo(rows0, scraped, step, reporter, i - 1);
      assert StepLaw(prev.rows, scraped[i - 1], step(prev.rows, scraped[i - 1]), now);
      FreshId(scraped, i - 1, i - 1);
    }
  }

  /**
   * A stored row keeps its identifier, `published_at` and `created_at`; a row
   * that already has a summary keeps its four summary columns; and a row
   * whose identifier is not scraped is not touched at all.
   */
  lemma {:induction false} RunKeepsStored(rows0: map<string, PaperRow>, scraped: seq<ScrapedPaper>, step: Step, now: int,
                                          reporter: Option<Reporter>, i: nat, id: string)
    requires Lawful(step, now) && i <= |scraped| && id in rows0
    ensures var rows := RunUpTo(rows0, scraped, step, reporter, i).rows;
            && id in rows
            && rows[id].arxiv_id == rows0[id].arxiv_id
            && rows[id].published_at == rows0[id].published_at
            && rows[id].created_at == rows0[id].created_at
            && (HasSummary(rows0[id]) ==> SameSummary(rows[id], rows0[id]))
            && (id !in IdsUpTo(scraped, i) ==> rows[id] == rows0[id])
  {
    if i > 0 {
      RunKeepsStored(rows0, scraped, step, now, reporter, i - 1, id);
      var prev := RunUpTo(rows0, scraped, step, reporter, i - 1);
      assert StepLaw(prev.rows, scraped[i - 1], step(prev.rows, scraped[i - 1]), now);
    }
  }

  /** A row whose identifier none of papers `j..i` carries is the same after them as before. */
  lemma {:induction false} RunUntouched(rows0: map<string, PaperRow>, scraped: seq<ScrapedPaper>, step: Step,
                                        reporter: Option<Reporter>, j: nat, i: nat, id: string)
    requires Framed(step) && j <= i <= |scraped|
    requires id in RunUpTo(rows0, scraped, step, reporter, j).rows
    requires forall k :: j <= k < i ==> scraped[k].arxiv_id != id
    ensures var rows := RunUpTo(rows0, scraped, step, reporter, i).rows;
            id in rows && rows[id] == RunUpTo(rows0, scraped, step, reporter, j).rows[id]
  {
    if j < i {
      RunUntouched(rows0, scraped, step, reporter, j, i - 1, id);
      var prev := RunUpTo(rows0, scraped, step, reporter, i - 1);
      assert FrameLaw(prev.rows, scraped[i - 1], step(prev.rows, scraped[i - 1]));
    }
  }

  /**
   * With distinct identifiers, every processed paper's row carries its
   * scraped fields. A paper that was already stored gets its affiliations
   * joined even when the list is empty; a new one stores `None` for an empty
   * list, takes its `published_at` from the feed and `created_at` from the clock.
   */
  lemma RunOverwrites(rows0: map<string, PaperRow>, scraped: seq<ScrapedPaper>, step: Step, now: int,
                      reporter: Option<Reporter>, i: nat, j: nat)
    requires Lawful(step, now) && DistinctIds(scraped) && j < i <= |scraped|
    ensures var p := scraped[j];
            var rows := RunUpTo(rows0, scraped, step, reporter, i).rows;
            && p.arxiv_id in rows
            && Refreshed(rows[p.arxiv_id], p)
            && (p.arxiv_id in rows0 ==>
                  rows[p.arxiv_id].author_affiliations == Some(Join(AffiliationSlots(p.affiliations), ";")))
            && (p.arxiv_id !in rows0 ==>
                  && rows[p.arxiv_id].arxiv_id == p.arxiv_id
                  && rows[p.arxiv_id].author_affiliations == NewAffiliations(p)
                  && rows[p.arxiv_id].published_at == p.published_at
                  && rows[p.arxiv_id].created_at == now)
  {
    var p := scraped[j];
    LawfulIsFramed(step, now);
    RunKeys(rows0, scraped, step, reporter, j);
    FreshId(scraped, j, j);
    var before := RunUpTo(rows0, scraped, step, reporter, j).rows;
    assert p.arxiv_id in before <==> p.arxiv_id in rows0;
    assert StepLaw(before, p, step(before, p), now);
    var written := RunUpTo(rows0, scraped, step, reporter, j + 1).rows;
    assert written == step(before, p).rows;
    assert forall k :: j + 1 <= k < i ==> scraped[k].arxiv_id != p.arxiv_id;
    RunUntouched(rows0, scraped, step, reporter, j + 1, i, p.arxiv_id);
  }

  /**
   * The reporter, when there is one, is called once before the loop with
   * `(0, total, stats, None)` and then once per paper with its position and
   * the paper, in order, seeing the counters after that paper.
   */
  lemma {:induction false} RunProgress(rows0: map<string, PaperRow>, scraped: seq<ScrapedPaper>, step: Step,
                                       reporter: Option<Reporter>, i: nat)
    requires i <= |scraped|
    ensures var st := RunUpTo(rows0, scraped, step, reporter, i);
            && (reporter.None? ==> st.calls == [])
            && (reporter.Some? ==>
                  && |st.calls| == i + 1
                  && st.calls[0] == ProgressEvent(0, |scraped|, RefreshResponse(|scraped|, 0, 0), None)
                  && st.calls[i].stats == st.stats
                  && forall k :: 0 < k <= i ==>
                       st.calls[k].current == k && st.calls[k].total == |scraped| && st.calls[k].paper == Some(scraped[k - 1]))
  {
    if i > 0 {
      RunProgress(rows0, scraped, step, reporter, i - 1);
    }
  }

  /**
   * What `refresh` reports and stores for the merged feed of the requested
   * categories: `fetched` is its length, `created` counts exactly its papers
   * that were not stored yet, neither `created` nor `summarized` exceeds
   * `fetched`, and the table gains exactly the fetched identifiers.
   */
  lemma RefreshOutcome(rows0: map<string, PaperRow>, ctx: Context, categories: Option<seq<string>>,
                       feed: string -> FeedResponse, reporter: Option<Reporter>)
    ensures var scraped := Fetched(ctx.cfg, categories, feed, ctx.now);
            var st := Run(rows0, scraped, UpsertStep(ctx), reporter);
            && st.stats.fetched == |scraped|
            && st.stats.created == AbsentUpTo(rows0, scraped, |scraped|)
            && st.stats.created <= st.stats.fetched && st.stats.summarized <= st.stats.fetched
            && st.rows.Keys == rows0.Keys + IdsUpTo(scraped, |scraped|)
  {
    var scraped := Fetched(ctx.cfg, categories, feed, ctx.now);
    var step := UpsertStep(ctx);
    FetchedDistinct(ctx.cfg, categories, feed, ctx.now);
    UpsertStepLawful(ctx);
    RunCounts(rows0, scraped, step, reporter, |scraped|);
    RunCreated(rows0, scraped, step, ctx.now, reporter, |scraped|);
    LawfulIsFramed(step, ctx.now);
    RunKeys(rows0, scraped, step, reporter, |scraped|);
  }

  // ---------------------------------------------------------------------------
  // The service object

  /** `PaperOut.model_validate(paper)`: the API view of a row, with the list columns decoded. */
  datatype PaperOut = PaperOut(arxiv_id: string, title: string, authors: seq<string>, affiliations: seq<string>,
                               abstract_text: string, summary: Option<string>, summary_model: Option<string>,
                               summary_language: Option<string>, categories: seq<string>, link: string,
                               pdf_url: Option<string>, published_at: int, updated_at: int,
                               last_summarized_at: Option<int>)

  datatype PaginatedPapers = PaginatedPapers(items: seq<PaperOut>, total: nat)

  /** A nullable text column as the validators receive it. */
  function Column(v: Option<string>): Schemas.FieldValue {
    if v.Some? then Schemas.TextValue(v.value) else Schemas.NullValue
  }

  function ToPaperOut(row: PaperRow): PaperOut {
    PaperOut(row.arxiv_id, row.title, Schemas.ParseAuthors(Schemas.TextValue(row.authors)),
             Schemas.ParseAffiliations(Column(row.author_affiliations)), row.abstract_text,
             row.summary, row.summary_model, row.summary_language,
             Schemas.ParseCategories(Schemas.TextValue(row.categories)), row.link, row.pdf_url,
             row.published_at, row.updated_at, row.last_summarized_at)
  }

  /**
   * A row inserted by `refresh` reads back through the API with the scraped
   * authors and categories, when those are clean (stripped, non-empty and
   * free of the separator), and with no summary yet.
   */
  lemma NewRowReadsBack(p: ScrapedPaper, now: int)
    requires forall a :: a in p.authors ==> a != "" && IsStripped(a) && ';' !in a
    requires forall c :: c in p.categories ==> c != "" && IsStripped(c) && ',' !in c
    ensures var out := ToPaperOut(NewRow(p, now));
            && out.arxiv_id == p.arxiv_id && out.title == p.title
            && out.authors == p.authors && out.categories == p.categories
            && out.published_at == p.published_at && out.updated_at == p.updated_at
            && out.summary.None? && out.last_summarized_at.None?
  {
    Schemas.AuthorsRoundTrip(p.authors);
    Schemas.CategoriesRoundTrip(p.categories);
  }

  /** The `WHERE` of `list_papers`: a truthy category must occur in the `categories` column. */
  predicate Selected(row: PaperRow, category: Option<string>) {
    category.None? || category.value == "" || Contains(row.categories, category.value)
  }

  /** The selected rows, in table order. */
  function Matching(table: seq<PaperRow>, category: Option<string>): (r: seq<PaperRow>)
    ensures forall row :: row in r <==> row in table && Selected(row, category)
    ensures multiset(r) <= multiset(table)
  {
    if table == [] then []
    else
      assert table == [table[0]] + table[1..];
      (if Selected(table[0], category) then [table[0]] else []) + Matching(table[1..], category)
  }

  function PublishedAt(row: PaperRow): int {
    row.published_at
  }

  /** `.offset(offset).limit(limit)`: skips `offset` elements and keeps at most `limit`. */
  function Window<T>(s: seq<T>, offset: nat, limit: nat): (r: seq<T>)
    ensures |r| == if offset >= |s| then 0 else if limit < |s| - offset then limit else |s| - offset
    ensures forall k :: 0 <= k < |r| ==> r[k] == s[offset + k]
    ensures forall x :: x in r ==> x in s
  {
    if offset >= |s| then []
    else if limit < |s| - offset then s[offset..offset + limit]
    else s[offset..]
  }

  /** `order_by(published_at.desc())`: the same rows, newest publication first. */
  function Newest(rows: seq<PaperRow>): (r: seq<PaperRow>)
    ensures |r| == |rows|
    ensures forall i, j :: 0 <= i < j < |r| ==> r[i].published_at >= r[j].published_at
    ensures forall row :: row in r ==> row in rows
  {
    var ordered := Sorting.SortDesc(rows, PublishedAt);
    assert forall row :: row in ordered ==> row in multiset(rows);
    ordered
  }

  /** The page of selected rows: newest publication first, `offset` skipped, at most `limit` kept. */
  function Page(matching: seq<PaperRow>, limit: nat, offset: nat): (page: seq<PaperRow>)
    ensures |page| == if offset >= |matching| then 0
                      else if limit < |matching| - offset then limit else |matching| - offset
    ensures forall i, j :: 0 <= i < j < |page| ==> page[i].published_at >= page[j].published_at
    ensures forall row :: row in page ==> row in matching
  {
    Window(Newest(matching), offset, limit)
  }

  /** The API view of each row of a page, in order. */
  function Views(page: seq<PaperRow>): (r: seq<PaperOut>)
    ensures |r| == |page|
    ensures forall k :: 0 <= k < |r| ==> r[k] == ToPaperOut(page[k])
  {
    seq(|page|, k requires 0 <= k < |page| => ToPaperOut(page[k]))
  }

  /**
   * `list_papers` over the rows of the table in storage order: the selected
   * rows, newest publication first, `offset` of them skipped and at most
   * `limit` kept; `total` counts every selected row.
   */
  function ListPapers(table: seq<PaperRow>, category: Option<string>, limit: nat, offset: nat): (r: PaginatedPapers)
    ensures r.total == |Matching(table, category)|
    ensures |r.items| == if offset >= r.total then 0 else if limit < r.total - offset then limit else r.total - offset
    ensures forall i, j :: 0 <= i < j < |r.items| ==> r.items[i].published_at >= r.items[j].published_at
  {
    var matching := Matching(table, category);
    var page := Page(matching, limit, offset);
    var items := Views(page);
    assert forall k :: 0 <= k < |items| ==> items[k].published_at == page[k].published_at;
    PaginatedPapers(items, |matching|)
  }

  /** Every listed paper is the view of a selected row of the table. */
  lemma ListedAreSelected(table: seq<PaperRow>, category: Option<string>, limit: nat, offset: nat, k: nat)
    requires k < |ListPapers(table, category, limit, offset).items|
    ensures exists row :: row in table && Selected(row, category)
                          && ListPapers(table, category, limit, offset).items[k] == ToPaperOut(row)
  {
    var matching := Matching(table, category);
    var row := Page(matching, limit, offset)[k];
    assert row in matching;
  }

  /**
   * The category codes found in the rows under `ids`: the stripped,
   * non-empty pieces of each `categories` column split at commas.
   */
  ghost function CodesOf(rows: map<string, PaperRow>, ids: set<string>): set<string> {
    set id, c | id in ids && id in rows && c in SplitClean(rows[id].categories, ',') :: c
  }

  /** Visiting one more row adds exactly that row's codes. */
  lemma CodesOfAdd(rows: map<string, PaperRow>, ids: set<string>, id: string)
    requires id in rows
    ensures CodesOf(rows, ids + {id}) == CodesOf(rows, ids) + set c | c in SplitClean(rows[id].categories, ',')
  {
  }

  /** The inner loop of `distinct_categories`: adds the codes of one `categories` column. */
  method AddCodes(found: set<string>, row: string) returns (found': set<string>)
    ensures forall c :: c in found' <==> c in found || c in SplitClean(row, ',')
  {
    found' := found;
    var items := Split(row, ',');
    for k := 0 to |items|
      invariant forall c :: c in found' <==> c in found || c in CleanPieces(items[..k])
    {
      CleanPiecesTake(items, k);
      var item := Strip(items[k]);
      if item != "" {
        found' := found' + {item};
      }
    }
    assert items[..|items|] == items;
  }

  /** `PaperService`: the session's papers by identifier, the settings and the summarizer. */
  class PaperService {
    var store: map<string, Paper>
    const settings: Settings
    const summarizer: SummarizerHandle

    /** Each mapped object sits under its own identifier (the column is unique). */
    ghost predicate Valid()
      reads this
    {
      forall id :: id in store ==> store[id].arxiv_id == id
    }

    /** The content of the table. */
    function Rows(): map<string, PaperRow>
      reads this, store.Values
    {
      map id | id in store :: store[id].Row()
    }

    function Ctx(now: int): Context {
      Context(settings, summarizer, now)
    }

    /** `__init__`: the given settings, and the given summarizer or the default one over them. */
    constructor (session: map<string, Paper>, configuration: Settings, summarizer: Option<SummarizerHandle>,
                 ask: Summarizer.Prompt -> Summarizer.LlmOutcome)
      requires forall id :: id in session ==> session[id].arxiv_id == id
      ensures Valid() && store == session && settings == configuration
      ensures summarizer.Some? ==> this.summarizer == summarizer.value
      ensures summarizer.None? ==> this.summarizer == DefaultSummarizer(configuration, ask)
    {
      store := session;
      settings := configuration;
      this.summarizer := if summarizer.Some? then summarizer.value else DefaultSummarizer(configuration, ask);
    }

    /**
     * `distinct_categories`: every code of every stored row, once each, in
     * ascending order; a row whose column is empty is skipped.
     */
    method DistinctCategories() returns (codes: seq<string>)
      ensures LexOrder.StrictlyAscending(codes)
      ensures forall c :: c in codes <==> c in CodesOf(Rows(), Rows().Keys)
      ensures forall c :: c in codes ==> c != "" && IsStripped(c) && ',' !in c
    {
      var found: set<string> := {};
      var ids := store.Keys;
      ghost var done: set<string> := {};
      while ids != {}
        invariant ids <= store.Keys && done == store.Keys - ids
        invariant found == CodesOf(Rows(), done)
        decreases ids
      {
        var id :| id in ids;
        var row := store[id].categories;
        if row != "" {
          found := AddCodes(found, row);
        }
        CodesOfAdd(Rows(), done, id);
        ids := ids - {id};
        done := done + {id};
      }
      codes := LexOrder.SortedSet(found);
    }

    /** `_get_by_arxiv_id`. */
    function GetByArxivId(id: string): (p: Paper?)
      reads this
      requires Valid()
      ensures p != null <==> id in store
      ensures p != null ==> p.arxiv_id == id && p in store.Values
    {
      if id in store then store[id] else null
    }

    /** `_update_existing`: overwrites the descriptive columns from the feed. */
    method UpdateExisting(entity: Paper, scraped: ScrapedPaper)
      modifies entity
      ensures entity.Row() == UpdatedRow(old(entity.Row()), scraped)
    {
      entity.title := scraped.title;
      entity.authors := Join(scraped.authors, ";");
      entity.author_affiliations := Some(Join(AffiliationSlots(scraped.affiliations), ";"));
      entity.abstract_text := scraped.abstract_text;
      entity.categories := Join(scraped.categories, ",");
      entity.link := scraped.link;
      entity.pdf_url := scraped.pdf_url;
      entity.updated_at := scraped.updated_at;
    }

    /** `_summarize_if_needed`; `now` is the clock reading `mark_summarized` takes. */
    method SummarizeIfNeeded(entity: Paper, paper: ScrapedPaper, stats: RefreshStats, now: int)
      modifies entity, stats
      ensures var e := Enrich(old(entity.Row()), paper, Ctx(now));
              && entity.Row() == e.row
              && stats.ToResponse() == old(stats.ToResponse()).(summarized := old(stats.summarized) + if e.summarized then 1 else 0)
    {
      var existingSummary := Strip(entity.summary.GetOr(""));
      if existingSummary != "" {
        return;
      }
      if paper.abstract_text == "" {
        return;
      }
      if !summarizer.usesLlm {
        entity.summary := None;
        entity.summary_model := Some(NotRunModel);
        entity.summary_language := None;
        entity.last_summarized_at := None;
        return;
      }
      var summaryText := SummaryText(summarizer.summarize(paper.title, paper.abstract_text));
      if summaryText != "" {
        entity.MarkSummarized(summaryText, settings.llm_model, Some(settings.summary_language), now);
        stats.summarized := stats.summarized + 1;
      } else {
        entity.summary := None;
        entity.summary_model := Some(FailedModel);
        entity.summary_language := None;
        entity.last_summarized_at := None;
      }
    }

    /** When only the object under `id` may have changed, only the row under `id` may have changed. */
    twostate lemma RowsAfterWrite(id: string, new e: Paper)
      requires store == old(store)[id := e]
      requires forall k :: k in old(store) && k != id ==> unchanged(old(store[k]))
      ensures Rows() == old(Rows())[id := e.Row()]
    {
    }

    /** The body of the loop of `refresh` for one scraped paper, before the progress report. */
    method StoreScraped(paper: ScrapedPaper, stats: RefreshStats, now: int)
      requires Valid()
      modifies this, store.Values, stats
      ensures Valid()
      ensures forall p :: p in store.Values ==> p in old(store.Values) || fresh(p)
      ensures var u := UpsertRow(old(Rows()), paper, Ctx(now));
              Rows() == u.rows && stats.ToResponse() == Tally(old(stats.ToResponse()), u)
    {
      var persisted := GetByArxivId(paper.arxiv_id);
      if persisted != null {
        StoreExisting(persisted, paper, stats, now);
      } else {
        StoreNew(paper, stats, now);
      }
    }

    /** The branch of the loop body for an identifier already in the table. */
    method StoreExisting(persisted: Paper, paper: ScrapedPaper, stats: RefreshStats, now: int)
      requires Valid() && paper.arxiv_id in store && persisted == store[paper.arxiv_id]
      modifies persisted, stats
      ensures var u := UpsertRow(old(Rows()), paper, Ctx(now));
              Rows() == u.rows && stats.ToResponse() == Tally(old(stats.ToResponse()), u)
    {
      UpdateExisting(persisted, paper);
      SummarizeIfNeeded(persisted, paper, stats, now);
      RowsAfterWrite(paper.arxiv_id, persisted);
    }

    /** The branch of the loop body for a new identifier: a fresh object is added. */
    method StoreNew(paper: ScrapedPaper, stats: RefreshStats, now: int)
      requires Valid() && paper.arxiv_id !in store
      modifies this, stats
      ensures Valid() && paper.arxiv_id in store && fresh(store[paper.arxiv_id])
      ensures store == old(store)[paper.arxiv_id := store[paper.arxiv_id]]
      ensures var u := UpsertRow(old(Rows()), paper, Ctx(now));
              Rows() == u.rows && stats.ToResponse() == Tally(old(stats.ToResponse()), u)
    {
      var id := paper.arxiv_id;
      var entity := new Paper(NewRow(paper, now));
      store := store[id := entity];
      SummarizeIfNeeded(entity, paper, stats, now);
      stats.created := stats.created + 1;
      RowsAfterWrite(id, entity);
    }

    /**
     * `refresh`: fetches the requested categories (the configured ones when
     * none are given), then stores and enriches each scraped paper in order,
     * reporting progress before the loop and after each paper.
     */
    method Refresh(categories: Option<seq<string>>, reporter: Option<Reporter>, feed: string -> FeedResponse, now: int)
      returns (stats: RefreshStats, calls: seq<ProgressEvent>)
      requires Valid()
      modifies this, store.Values
      ensures Valid() && fresh(stats)
      ensures var st := Run(old(Rows()), Fetched(settings, categories, feed, now), UpsertStep(Ctx(now)), reporter);
              Rows() == st.rows && stats.ToResponse() == st.stats && calls == st.calls
    {
      var scraped := FetchRequested(settings, categories, feed, now);
      assert Rows() == old(Rows());
      stats, calls := StoreAll(scraped, reporter, now);
    }

    /** The part of `refresh` after the fetch: the counters, the loop and the progress calls. */
    method StoreAll(scraped: seq<ScrapedPaper>, reporter: Option<Reporter>, now: int)
      returns (stats: RefreshStats, calls: seq<ProgressEvent>)
      requires Valid()
      modifies this, store.Values
      ensures Valid() && fresh(stats)
      ensures var st := Run(old(Rows()), scraped, UpsertStep(Ctx(now)), reporter);
              Rows() == st.rows && stats.ToResponse() == st.stats && calls == st.calls
    {
      stats := new RefreshStats(|scraped|);
      calls := EmitProgress(reporter, ProgressEvent(0, |scraped|, stats.ToResponse(), None));
      for i := 0 to |scraped|
        invariant Valid()
        invariant forall p :: p in store.Values ==> p in old(store.Values) || fresh(p)
        invariant var st := RunUpTo(old(Rows()), scraped, UpsertStep(Ctx(now)), reporter, i);
                  Rows() == st.rows && stats.ToResponse() == st.stats && calls == st.calls
      {
        calls := Advance(scraped, reporter, now, old(Rows()), i, stats, calls);
      }
    }

    /** One turn of the loop of `refresh`: store the `i`-th paper, then report progress. */
    method Advance(scraped: seq<ScrapedPaper>, reporter: Option<Reporter>, now: int, ghost rows0: map<string, PaperRow>,
                   i: nat, stats: RefreshStats, calls: seq<ProgressEvent>) returns (calls': seq<ProgressEvent>)
      requires Valid() && i < |scraped|
      requires var st := RunUpTo(rows0, scraped, UpsertStep(Ctx(now)), reporter, i);
               Rows() == st.rows && stats.ToResponse() == st.stats && calls == st.calls
      modifies this, store.Values, stats
      ensures Valid()
      ensures forall p :: p in store.Values ==> p in old(store.Values) || fresh(p)
      ensures var st := RunUpTo(rows0, scraped, UpsertStep(Ctx(now)), reporter, i + 1);
              Rows() == st.rows && stats.ToResponse() == st.stats && calls' == st.calls
    {
      var paper := scraped[i];
      StoreScraped(paper, stats, now);
      var delivered := EmitProgress(reporter, ProgressEvent(i + 1, |scraped|, stats.ToResponse(), Some(paper)));
      calls' := calls + delivered;
    }
  }
}
