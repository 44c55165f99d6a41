/**
 * Feed entry normalisation and the per-category / all-category merge of the
 * feed fetcher (backend/scraper.py). The feed parser's output is modelled as a
 * typed entry whose fields are `None` when absent or not strings; the network
 * fetch of one category is an oracle that yields entries or fails.
 */
module Scraper {
  import opened Wrappers
  import opened Text
  import Sorting

  const PdfType: string := "application/pdf"
  const UntitledTitle: string := "Untitled"

  datatype AuthorEntry = AuthorEntry(name: Option<string>, affiliation: Option<string>)

  datatype LinkEntry = LinkEntry(link_type: Option<string>, href: Option<string>)

  /**
   * One feed entry. Timestamps are the parser's UTC `struct_time`s, written as
   * the seconds since the epoch that `calendar.timegm` would give.
   */
  datatype FeedEntry = FeedEntry(
    id: Option<string>,
    link: Option<string>,
    title: Option<string>,
    summary: Option<string>,
    links: seq<LinkEntry>,
    authors: seq<AuthorEntry>,
    tags: seq<Option<string>>,
    published_parsed: Option<int>,
    updated_parsed: Option<int>)

  /** `ScrapedPaper`; timestamps are seconds since the epoch. */
  datatype ScrapedPaper = ScrapedPaper(
    arxiv_id: string,
    title: string,
    authors: seq<string>,
    affiliations: seq<Option<string>>,
    abstract_text: string,
    categories: seq<string>,
    link: string,
    pdf_url: Option<string>,
    published_at: int,
    updated_at: int)

  function PublishedAt(p: ScrapedPaper): int {
    p.published_at
  }

  /** Python truthiness of an optional string. */
  predicate Truthy(o: Option<string>) {
    o.Some? && o.value != ""
  }

  // ---------------------------------------------------------------------------
  // Timestamps

  /** `_parse_datetime`, reading the parser's UTC struct_time as UTC. */
  function ParseDatetime(e: FeedEntry, fallback: Option<int>, now: int): (t: int)
    ensures e.published_parsed.None? && e.updated_parsed.None? ==> t == fallback.GetOr(now)
    ensures e.published_parsed.Some? ==> t == e.published_parsed.value
    ensures e.published_parsed.None? && e.updated_parsed.Some? ==> t == e.updated_parsed.value
  {
    if e.published_parsed.Some? then e.published_parsed.value
    else if e.updated_parsed.Some? then e.updated_parsed.value
    else fallback.GetOr(now)
  }

  /**
   * `_parse_datetime` as written: `time.mktime` interprets the UTC struct_time
   * in the host's local zone, so the instant moves by the host's UTC offset
   * (`utcOffset` seconds east of UTC).
   */
  function ParseDatetimeAsWritten(e: FeedEntry, fallback: Option<int>, now: int, utcOffset: int): (t: int)
    ensures e.published_parsed.Some? || e.updated_parsed.Some? ==>
              t == ParseDatetime(e, fallback, now) - utcOffset
  {
    if e.published_parsed.Some? then e.published_parsed.value - utcOffset
    else if e.updated_parsed.Some? then e.updated_parsed.value - utcOffset
    else fallback.GetOr(now)
  }

  /** On a host whose UTC offset is zero, the `mktime` reading and the corrected reading agree. */
  lemma MktimeAgreesAtUtc(e: FeedEntry, fallback: Option<int>, now: int)
    ensures ParseDatetimeAsWritten(e, fallback, now, 0) == ParseDatetime(e, fallback, now)
  {
  }

  /** On any host east or west of UTC, a dated entry gets the wrong instant. */
  lemma MktimeShiftsInstant(e: FeedEntry, now: int, utcOffset: int)
    requires e.published_parsed.Some? || e.updated_parsed.Some?
    requires utcOffset != 0
    ensures ParseDatetimeAsWritten(e, None, now, utcOffset) != ParseDatetime(e, None, now)
  {
  }

  // ---------------------------------------------------------------------------
  // Entry fields

  predicate IsPdfLink(l: LinkEntry) {
    l.link_type == Some(PdfType) && l.href.Some?
  }

  /** The href of the first link typed exactly `application/pdf`. */
  function PdfLink(links: seq<LinkEntry>): (r: Option<string>)
    ensures r.None? <==> forall i :: 0 <= i < |links| ==> !IsPdfLink(links[i])
    ensures r.Some? ==> exists i :: 0 <= i < |links| && IsPdfLink(links[i]) && links[i].href == r
                                    && forall j :: 0 <= j < i ==> !IsPdfLink(links[j])
  {
    if links == [] then None
    else if IsPdfLink(links[0]) then
      assert IsPdfLink(links[0]) && links[0].href == links[0].href;
      links[0].href
    else
      var r := PdfLink(links[1..]);
      assert r.Some? ==> exists i :: 0 < i < |links| && IsPdfLink(links[i]) && links[i].href == r
                                     && forall j :: 0 <= j < i ==> !IsPdfLink(links[j]) by {
        if r.Some? {
          var i :| 0 <= i < |links| - 1 && IsPdfLink(links[1..][i]) && links[1..][i].href == r
                   && forall j :: 0 <= j < i ==> !IsPdfLink(links[1..][j]);
          assert IsPdfLink(links[i + 1]) && links[i + 1].href == r;
          assert forall j :: 0 <= j < i + 1 ==> !IsPdfLink(links[j]) by {
            forall j | 0 <= j < i + 1 ensures !IsPdfLink(links[j]) {
              if j > 0 { assert links[j] == links[1..][j - 1]; }
            }
          }
        }
      }
      r
  }

  predicate HasName(a: AuthorEntry) {
    a.name.Some? && !IsBlank(a.name.value)
  }

  /** A non-blank affiliation, stripped; otherwise `None`. */
  function CleanAffiliation(o: Option<string>): (r: Option<string>)
    ensures r.Some? ==> r.value != "" && IsStripped(r.value)
    ensures r.None? <==> o.None? || IsBlank(o.value)
  {
    if o.Some? && !IsBlank(o.value) then Some(Strip(o.value)) else None
  }

  /** The stripped names of the authors that have a non-blank name, in feed order. */
  function AuthorNames(authors: seq<AuthorEntry>): (r: seq<string>)
    ensures |r| <= |authors|
    ensures forall a :: a in r ==> a != "" && IsStripped(a)
  {
    if authors == [] then []
    else
      var last := authors[|authors| - 1];
      AuthorNames(authors[..|authors| - 1]) + (if HasName(last) then [Strip(last.name.value)] else [])
  }

  /** One slot per named author: its cleaned affiliation or `None`. */
  function AuthorAffiliations(authors: seq<AuthorEntry>): (r: seq<Option<string>>)
    ensures |r| == |AuthorNames(authors)|
    ensures forall o :: o in r ==> o.None? || (o.value != "" && IsStripped(o.value))
  {
    if authors == [] then []
    else
      var last := authors[|authors| - 1];
      AuthorAffiliations(authors[..|authors| - 1])
        + (if HasName(last) then [CleanAffiliation(last.affiliation)] else [])
  }

  /** What one tag contributes: its stripped term when it is a non-blank string. */
  function TermOf(tag: Option<string>): seq<string> {
    if tag.Some? && !IsBlank(tag.value) then [Strip(tag.value)] else []
  }

  /** The stripped, non-blank string terms of the tags, in feed order. */
  function TagTerms(tags: seq<Option<string>>): (r: seq<string>)
    ensures |r| <= |tags|
    ensures forall c :: c in r ==> c != "" && IsStripped(c)
  {
    if tags == [] then []
    else TagTerms(tags[..|tags| - 1]) + TermOf(tags[|tags| - 1])
  }

  /** The last `/`-separated segment of `s` (`s.split("/")[-1]`). */
  function LastSegment(s: string): (r: string)
    ensures '/' !in r
    ensures |r| <= |s| && s[|s| - |r|..] == r
    ensures |r| < |s| ==> s[|s| - |r| - 1] == '/'
  {
    var parts := Split(s, '/');
    LastSplitPiece(s, '/');
    parts[|parts| - 1]
  }

  lemma LastSplitPiece(s: string, c: char)
    ensures var parts := Split(s, c);
            var r := parts[|parts| - 1];
            |r| <= |s| && s[|s| - |r|..] == r && (|r| < |s| ==> s[|s| - |r| - 1] == c)
  {
    var parts := Split(s, c);
    var n := |parts|;
    if n > 1 {
      JoinLast(parts, [c]);
      var front := Join(parts[..n - 1], [c]);
      assert s == front + [c] + parts[n - 1];
      assert s[|s| - |parts[n - 1]|..] == parts[n - 1];
      assert s[|s| - |parts[n - 1]| - 1] == c;
    }
  }

  /** The identifier source: `entry.get("id") or entry.get("link") or ""`. */
  function IdentifierSource(e: FeedEntry): string {
    if Truthy(e.id) then e.id.value else if Truthy(e.link) then e.link.value else ""
  }

  /** `_parse_entry` as a value: the specification of `ParseEntry`. */
  function EntryToPaper(e: FeedEntry, now: int): (p: ScrapedPaper)
    ensures '/' !in p.arxiv_id
    ensures p.title != "" && IsStripped(p.title)
    ensures |p.affiliations| == |p.authors|
    ensures forall a :: a in p.authors ==> a != "" && IsStripped(a)
    ensures forall c :: c in p.categories ==> c != "" && IsStripped(c)
    ensures IsStripped(p.abstract_text)
    ensures p.updated_at == p.published_at
    ensures e.title.Some? && !IsBlank(e.title.value) ==> p.title == Strip(e.title.value)
    ensures e.title.None? || IsBlank(e.title.value) ==> p.title == UntitledTitle
    ensures p.arxiv_id == LastSegment(IdentifierSource(e))
    ensures p.authors == AuthorNames(e.authors) && p.affiliations == AuthorAffiliations(e.authors)
    ensures p.categories == TagTerms(e.tags) && p.pdf_url == PdfLink(e.links)
  {
    var published := ParseDatetime(e, None, now);
    var title := Strip(e.title.GetOr(UntitledTitle));
    assert IsStripped(UntitledTitle);
    StripOfStripped(UntitledTitle);
    ScrapedPaper(
      LastSegment(IdentifierSource(e)),
      if title == "" then UntitledTitle else title,
      AuthorNames(e.authors),
      AuthorAffiliations(e.authors),
      if e.summary.Some? then Strip(e.summary.value) else "",
      TagTerms(e.tags),
      if Truthy(e.link) then e.link.value else "",
      PdfLink(e.links),
      published,
      ParseDatetime(e, Some(published), now))
  }

  /** The link loop of `_parse_entry`: stops at the first PDF link. */
  method FindPdfLink(links: seq<LinkEntry>) returns (pdfUrl: Option<string>)
    ensures pdfUrl == PdfLink(links)
  {
    pdfUrl := None;
    var k := 0;
    while k < |links|
      invariant 0 <= k <= |links|
      invariant PdfLink(links) == PdfLink(links[k..])
    {
      if IsPdfLink(links[k]) {
        pdfUrl := links[k].href;
        return;
      }
      assert links[k..][1..] == links[k + 1..];
      k := k + 1;
    }
  }

  /** The author loop of `_parse_entry`: names and affiliations grow together. */
  method CollectAuthors(entries: seq<AuthorEntry>) returns (authors: seq<string>, affiliations: seq<Option<string>>)
    ensures authors == AuthorNames(entries)
    ensures affiliations == AuthorAffiliations(entries)
  {
    authors, affiliations := [], [];
    var i := 0;
    while i < |entries|
      invariant 0 <= i <= |entries|
      invariant authors == AuthorNames(entries[..i])
      invariant affiliations == AuthorAffiliations(entries[..i])
    {
      var author := entries[i];
      assert entries[..i + 1][..i] == entries[..i];
      if HasName(author) {
        authors := authors + [Strip(author.name.value)];
        affiliations := affiliations + [CleanAffiliation(author.affiliation)];
      }
      i := i + 1;
    }
    assert entries[..i] == entries;
  }

  /** One more tag adds its clean term, if it has one. */
  lemma TagTermsSnoc(tags: seq<Option<string>>, j: nat)
    requires j < |tags|
    ensures TagTerms(tags[..j + 1]) == TagTerms(tags[..j]) + TermOf(tags[j])
  {
    assert tags[..j + 1][..j] == tags[..j];
  }

  /** The tag loop of `_parse_entry`. */
  method CollectTerms(tags: seq<Option<string>>) returns (categories: seq<string>)
    ensures categories == TagTerms(tags)
  {
    categories := [];
    for j := 0 to |tags|
      invariant categories == TagTerms(tags[..j])
    {
      TagTermsSnoc(tags, j);
      categories := categories + TermOf(tags[j]);
    }
    assert tags[..|tags|] == tags;
  }

  /** `_parse_entry`. */
  method ParseEntry(e: FeedEntry, now: int) returns (p: ScrapedPaper)
    ensures p == EntryToPaper(e, now)
  {
    var pdfUrl := FindPdfLink(e.links);
    var authors, affiliations := CollectAuthors(e.authors);
    var categories := CollectTerms(e.tags);
    var abstractText := if e.summary.Some? then Strip(e.summary.value) else "";
    var publishedAt := ParseDatetime(e, None, now);
    var updatedAt := ParseDatetime(e, Some(publishedAt), now);
    var title := Strip(e.title.GetOr(UntitledTitle));
    // `affiliations or [None] * len(authors)`: both lists are empty together
    var slots := if affiliations != [] then affiliations else seq(|authors|, _ => None);
    assert slots == affiliations;
    p := ScrapedPaper(
      LastSegment(IdentifierSource(e)),
      if title == "" then UntitledTitle else title,
      authors,
      slots,
      abstractText,
      categories,
      if Truthy(e.link) then e.link.value else "",
      pdfUrl,
      publishedAt,
      updatedAt);
  }

  // ---------------------------------------------------------------------------
  // Fetching one category and merging all of them

  /** What the network fetch of one category yields: parsed entries, or an error after retries. */
  datatype FeedResponse = FeedEntries(entries: seq<FeedEntry>) | FeedError

  /** One element of `asyncio.gather(..., return_exceptions=True)`. */
  datatype CategoryResult = CategoryPapers(papers: seq<ScrapedPaper>) | CategoryFailed

  /** Python's `s[:n]`, including a negative `n`. */
  function PyPrefix<T>(s: seq<T>, n: int): (r: seq<T>)
    ensures |r| <= |s| && r == s[..|r|]
  {
    if n >= 0 then (if n < |s| then s[..n] else s)
    else if |s| + n > 0 then s[..|s| + n]
    else []
  }

  /** `fetch_category`: the first `max_results` entries, parsed, in feed order. */
  function FetchCategory(response: FeedResponse, maxResults: int, now: int): (r: CategoryResult)
    ensures r.CategoryFailed? <==> response.FeedError?
    ensures r.CategoryPapers? ==>
              && |r.papers| <= |response.entries|
              && (maxResults >= 0 ==> |r.papers| == if maxResults < |response.entries| then maxResults else |response.entries|)
              && (maxResults < 0 ==> |r.papers| == if |response.entries| + maxResults > 0 then |response.entries| + maxResults else 0)
              && forall i :: 0 <= i < |r.papers| ==> r.papers[i] == EntryToPaper(response.entries[i], now)
  {
    match response
    case FeedError => CategoryFailed
    case FeedEntries(entries) =>
      var kept := PyPrefix(entries, maxResults);
      CategoryPapers(seq(|kept|, i requires 0 <= i < |kept| => EntryToPaper(kept[i], now)))
  }

  /** The gathered results, one per category, in category order. */
  function CategoryResults(categories: seq<string>, maxResults: int, feed: string -> FeedResponse, now: int): (rs: seq<CategoryResult>)
    ensures |rs| == |categories|
    ensures forall i :: 0 <= i < |rs| ==> rs[i] == FetchCategory(feed(categories[i]), maxResults, now)
  {
    seq(|categories|, i requires 0 <= i < |categories| => FetchCategory(feed(categories[i]), maxResults, now))
  }

  /** The papers of the successful categories, concatenated in category order. */
  function Collected(results: seq<CategoryResult>): (ps: seq<ScrapedPaper>)
    ensures forall p :: p in ps ==> exists i :: 0 <= i < |results| && results[i].CategoryPapers? && p in results[i].papers
  {
    if results == [] then []
    else
      var last := results[|results| - 1];
      var front := Collected(results[..|results| - 1]);
      assert forall p :: p in front ==> exists i :: 0 <= i < |results| && results[i].CategoryPapers? && p in results[i].papers by {
        forall p | p in front ensures exists i :: 0 <= i < |results| && results[i].CategoryPapers? && p in results[i].papers {
          var i :| 0 <= i < |results| - 1 && results[..|results| - 1][i].CategoryPapers? && p in results[..|results| - 1][i].papers;
          assert results[i] == results[..|results| - 1][i];
        }
      }
      front + (if last.CategoryPapers? then last.papers else [])
  }

  /** Every paper of every successful category is collected. */
  lemma {:induction false} CollectedComplete(results: seq<CategoryResult>, i: nat, p: ScrapedPaper)
    requires i < |results| && results[i].CategoryPapers? && p in results[i].papers
    ensures p in Collected(results)
  {
    if i < |results| - 1 {
      CollectedComplete(results[..|results| - 1], i, p);
    }
  }

  function IdsOf(ps: seq<ScrapedPaper>): set<string> {
    set p | p in ps :: p.arxiv_id
  }

  predicate DistinctIds(ps: seq<ScrapedPaper>) {
    forall i, j :: 0 <= i < j < |ps| ==> ps[i].arxiv_id != ps[j].arxiv_id
  }

  predicate DistinctStrings(xs: seq<string>) {
    forall i, j :: 0 <= i < j < |xs| ==> xs[i] != xs[j]
  }

  /** The position of the last paper with identifier `id`. */
  function LastIndexWithId(ps: seq<ScrapedPaper>, id: string): (i: nat)
    requires id in IdsOf(ps)
    ensures i < |ps| && ps[i].arxiv_id == id
    ensures forall j :: i < j < |ps| ==> ps[j].arxiv_id != id
  {
    var n := |ps| - 1;
    if ps[n].arxiv_id == id then n
    else
      assert id in IdsOf(ps[..n]) by {
        var p :| p in ps && p.arxiv_id == id;
        var k :| 0 <= k < |ps| && ps[k] == p;
        assert ps[..n][k] == p;
      }
      LastIndexWithId(ps[..n], id)
  }

  /** The position of the first paper with identifier `id`, or `|ps|` when there is none. */
  function FirstIndexWithId(ps: seq<ScrapedPaper>, id: string): (i: nat)
    ensures i <= |ps|
    ensures i < |ps| ==> ps[i].arxiv_id == id
    ensures forall j :: 0 <= j < i ==> ps[j].arxiv_id != id
  {
    if ps == [] then 0
    else
      var n := |ps| - 1;
      var f := FirstIndexWithId(ps[..n], id);
      if f < n || ps[n].arxiv_id == id then f else n + 1
  }

  /** An identifier already seen keeps its first index; a new one is first seen at the end. */
  lemma FirstIndexOfSnoc(ps: seq<ScrapedPaper>)
    requires ps != []
    ensures forall id :: id in IdsOf(ps[..|ps| - 1]) ==> FirstIndexWithId(ps, id) == FirstIndexWithId(ps[..|ps| - 1], id) < |ps| - 1
    ensures ps[|ps| - 1].arxiv_id !in IdsOf(ps[..|ps| - 1]) ==> FirstIndexWithId(ps, ps[|ps| - 1].arxiv_id) == |ps| - 1
  {
    var front := ps[..|ps| - 1];
    forall id | id in IdsOf(front)
      ensures FirstIndexWithId(ps, id) == FirstIndexWithId(front, id) < |front|
    {
      var q :| q in front && q.arxiv_id == id;
      var k :| 0 <= k < |front| && front[k] == q;
      assert FirstIndexWithId(front, id) <= k;
    }
  }

  /** The papers' identifiers appear in the order in which `ps` first mentions them. */
  predicate FirstSeenOrder(ps: seq<ScrapedPaper>, xs: seq<ScrapedPaper>) {
    forall i, j :: 0 <= i < j < |xs| ==> FirstIndexWithId(ps, xs[i].arxiv_id) < FirstIndexWithId(ps, xs[j].arxiv_id)
  }

  lemma IdsOfSnoc(ps: seq<ScrapedPaper>)
    requires ps != []
    ensures IdsOf(ps) == IdsOf(ps[..|ps| - 1]) + {ps[|ps| - 1].arxiv_id}
  {
    assert ps == ps[..|ps| - 1] + [ps[|ps| - 1]];
  }

  /** The dict `{p.arxiv_id: p for p in papers}`: keys in first-insertion order, with values. */
  datatype IdIndex = IdIndex(order: seq<string>, latest: map<string, ScrapedPaper>)

  /** The dict after `d[p.arxiv_id] = p`: a new key goes to the end, an old one keeps its place. */
  function Inserted(d: IdIndex, p: ScrapedPaper): IdIndex {
    IdIndex(if p.arxiv_id in d.latest then d.order else d.order + [p.arxiv_id],
            d.latest[p.arxiv_id := p])
  }

  /** What the dict promises about the papers it has seen. */
  ghost predicate IndexOf(d: IdIndex, ps: seq<ScrapedPaper>) {
    && DistinctStrings(d.order)
    && (forall id :: id in d.order <==> id in d.latest)
    && d.latest.Keys == IdsOf(ps)
    && forall i, j :: 0 <= i < j < |d.order| ==> FirstIndexWithId(ps, d.order[i]) < FirstIndexWithId(ps, d.order[j])
  }

  /** Appending an identifier not yet seen keeps the keys distinct and in first-seen order. */
  lemma IndexOrderStep(ps: seq<ScrapedPaper>, order: seq<string>, keys: set<string>)
    requires ps != []
    requires keys == IdsOf(ps[..|ps| - 1]) && forall id :: id in order <==> id in keys
    requires forall i, j :: 0 <= i < j < |order| ==>
               FirstIndexWithId(ps[..|ps| - 1], order[i]) < FirstIndexWithId(ps[..|ps| - 1], order[j])
    ensures var id := ps[|ps| - 1].arxiv_id;
            var o := if id in keys then order else order + [id];
            DistinctStrings(o) &&
            forall i, j :: 0 <= i < j < |o| ==> FirstIndexWithId(ps, o[i]) < FirstIndexWithId(ps, o[j])
  {
    var id := ps[|ps| - 1].arxiv_id;
    var o := if id in keys then order else order + [id];
    FirstIndexOfSnoc(ps);
    forall i, j | 0 <= i < j < |o| ensures FirstIndexWithId(ps, o[i]) < FirstIndexWithId(ps, o[j]) {
      assert o[i] == order[i] && o[i] in keys;
      if j < |order| {
        assert o[j] == order[j] && o[j] in keys;
      }
    }
  }

  /** Inserting the next paper makes its identifier a key, in the order exactly when in the map. */
  lemma InsertedKeys(ps: seq<ScrapedPaper>, d: IdIndex)
    requires ps != [] && d.latest.Keys == IdsOf(ps[..|ps| - 1])
    requires forall id :: id in d.order <==> id in d.latest
    ensures var e := Inserted(d, ps[|ps| - 1]);
            (forall id :: id in e.order <==> id in e.latest) && e.latest.Keys == IdsOf(ps)
  {
    var p := ps[|ps| - 1];
    var e := Inserted(d, p);
    forall id ensures id in e.order <==> id in e.latest {
      assert id in d.order + [p.arxiv_id] <==> id in d.order || id == p.arxiv_id;
    }
    IdsOfSnoc(ps);
  }

  /** Inserting the next paper keeps the dict's promises. */
  lemma InsertedStep(ps: seq<ScrapedPaper>, d: IdIndex)
    requires ps != [] && IndexOf(d, ps[..|ps| - 1])
    ensures IndexOf(Inserted(d, ps[|ps| - 1]), ps)
  {
    IndexOrderStep(ps, d.order, d.latest.Keys);
    InsertedKeys(ps, d);
  }

  function IndexById(ps: seq<ScrapedPaper>): (d: IdIndex)
    ensures DistinctStrings(d.order)
    ensures forall id :: id in d.order <==> id in d.latest
    ensures d.latest.Keys == IdsOf(ps)
    ensures forall i, j :: 0 <= i < j < |d.order| ==> FirstIndexWithId(ps, d.order[i]) < FirstIndexWithId(ps, d.order[j])
  {
    if ps == [] then IdIndex([], map[])
    else
      var n := |ps| - 1;
      var d := IndexById(ps[..n]);
      InsertedStep(ps, d);
      Inserted(d, ps[n])
  }

  /** A later paper with the same identifier replaces the stored value. */
  lemma {:induction false} IndexByIdLastWins(ps: seq<ScrapedPaper>, id: string)
    requires id in IndexById(ps).latest
    ensures IndexById(ps).latest[id] == ps[LastIndexWithId(ps, id)]
  {
    var n := |ps| - 1;
    if ps[n].arxiv_id != id {
      IndexByIdLastWins(ps[..n], id);
    }
  }

  /** The dict's values, listed in the order of its keys. */
  function Values(d: IdIndex): seq<ScrapedPaper>
    requires forall id :: id in d.order ==> id in d.latest
  {
    seq(|d.order|, i requires 0 <= i < |d.order| => d.latest[d.order[i]])
  }

  /** The value stored under each key is the last paper with that identifier, so it carries the key. */
  lemma ValuesCarryKeys(ps: seq<ScrapedPaper>)
    ensures var d := IndexById(ps);
            forall i :: 0 <= i < |d.order| ==>
              Values(d)[i] == ps[LastIndexWithId(ps, d.order[i])] && Values(d)[i].arxiv_id == d.order[i]
  {
    var d := IndexById(ps);
    forall i | 0 <= i < |d.order|
      ensures Values(d)[i] == ps[LastIndexWithId(ps, d.order[i])]
    {
      IndexByIdLastWins(ps, d.order[i]);
    }
  }

  lemma ValuesKeys(ps: seq<ScrapedPaper>)
    ensures var d := IndexById(ps);
            |Values(d)| == |d.order| && forall i :: 0 <= i < |d.order| ==> Values(d)[i].arxiv_id == d.order[i]
  {
    ValuesCarryKeys(ps);
  }

  /** When each value carries its key, the values' identifiers are the keys. */
  lemma ValuesIdsAreKeys(d: IdIndex)
    requires forall id :: id in d.order <==> id in d.latest
    requires forall i :: 0 <= i < |d.order| ==> Values(d)[i].arxiv_id == d.order[i]
    ensures IdsOf(Values(d)) == d.latest.Keys
  {
    var r := Values(d);
    forall id | id in d.latest ensures id in IdsOf(r) {
      var k :| 0 <= k < |d.order| && d.order[k] == id;
      assert r[k] in r && r[k].arxiv_id == id;
    }
    forall id | id in IdsOf(r) ensures id in d.latest {
      var q :| q in r && q.arxiv_id == id;
      var k :| 0 <= k < |r| && r[k] == q;
      assert d.order[k] == id;
    }
  }

  lemma ValuesIds(ps: seq<ScrapedPaper>)
    ensures IdsOf(Values(IndexById(ps))) == IdsOf(ps)
  {
    ValuesKeys(ps);
    ValuesIdsAreKeys(IndexById(ps));
  }

  lemma ValuesInFirstSeenOrder(ps: seq<ScrapedPaper>)
    ensures DistinctIds(Values(IndexById(ps)))
    ensures FirstSeenOrder(ps, Values(IndexById(ps)))
  {
    var d := IndexById(ps);
    var r := Values(d);
    ValuesKeys(ps);
    forall i, j | 0 <= i < j < |r|
      ensures r[i].arxiv_id != r[j].arxiv_id
      ensures FirstIndexWithId(ps, r[i].arxiv_id) < FirstIndexWithId(ps, r[j].arxiv_id)
    {
      assert r[i].arxiv_id == d.order[i] && r[j].arxiv_id == d.order[j];
    }
  }

  /** `list(deduped.values())`: one paper per identifier, the last one seen. */
  function Deduped(ps: seq<ScrapedPaper>): (r: seq<ScrapedPaper>)
    ensures DistinctIds(r)
    ensures IdsOf(r) == IdsOf(ps)
    ensures forall i :: 0 <= i < |r| ==> r[i] == ps[LastIndexWithId(ps, r[i].arxiv_id)]
    ensures FirstSeenOrder(ps, r)
  {
    ValuesCarryKeys(ps);
    ValuesIds(ps);
    ValuesInFirstSeenOrder(ps);
    Values(IndexById(ps))
  }

  /** `fetch_all_categories` after the gather: skip failures, dedup by id, newest first. */
  function MergePapers(results: seq<CategoryResult>): seq<ScrapedPaper> {
    Sorting.SortDesc(Deduped(Collected(results)), PublishedAt)
  }

  /** `fetch_all_categories`: extends one list with every successful category's papers. */
  method FetchAllCategories(categories: seq<string>, maxResults: int, feed: string -> FeedResponse, now: int)
    returns (papers: seq<ScrapedPaper>)
    ensures papers == MergePapers(CategoryResults(categories, maxResults, feed, now))
  {
    var results := CategoryResults(categories, maxResults, feed, now);
    var collected: seq<ScrapedPaper> := [];
    for i := 0 to |results|
      invariant collected == Collected(results[..i])
    {
      assert results[..i + 1][..i] == results[..i];
      if results[i].CategoryPapers? {
        collected := collected + results[i].papers;
      }
    }
    assert results[..|results|] == results;
    papers := Sorting.SortDesc(Deduped(collected), PublishedAt);
  }

  lemma {:induction false} CountAtMostOne(ps: seq<ScrapedPaper>, x: ScrapedPaper)
    requires DistinctIds(ps)
    ensures multiset(ps)[x] <= 1
  {
    if ps != [] {
      CountAtMostOne(ps[1..], x);
      assert ps == [ps[0]] + ps[1..];
      if x == ps[0] {
        assert x !in ps[1..];
      }
    }
  }

  lemma CountAtLeastTwo(ps: seq<ScrapedPaper>, i: nat, j: nat)
    requires i < j < |ps| && ps[i] == ps[j]
    ensures multiset(ps)[ps[i]] >= 2
  {
    assert ps == ps[..j] + [ps[j]] + ps[j + 1..];
    assert ps[i] in ps[..j];
  }

  /** Reordering keeps identifiers pairwise distinct. */
  lemma DistinctIdsPermuted(a: seq<ScrapedPaper>, b: seq<ScrapedPaper>)
    requires multiset(a) == multiset(b) && DistinctIds(a)
    ensures DistinctIds(b)
  {
    forall i, j | 0 <= i < j < |b| ensures b[i].arxiv_id != b[j].arxiv_id {
      if b[i].arxiv_id == b[j].arxiv_id {
        assert b[i] in multiset(a) && b[j] in multiset(a);
        var k :| 0 <= k < |a| && a[k] == b[i];
        var l :| 0 <= l < |a| && a[l] == b[j];
        assert k == l;
        CountAtLeastTwo(b, i, j);
        CountAtMostOne(a, b[i]);
      }
    }
  }

  /** Sorting reorders the deduplicated papers without adding or losing any. */
  lemma MergeSameElements(results: seq<CategoryResult>)
    ensures forall x :: x in MergePapers(results) <==> x in Deduped(Collected(results))
  {
    var d := Deduped(Collected(results));
    var m := MergePapers(results);
    assert multiset(m) == multiset(d);
    forall x ensures x in m <==> x in d {
      assert x in m <==> x in multiset(m);
      assert x in d <==> x in multiset(d);
    }
  }

  /**
   * The merged list: identifiers are pairwise distinct, publication times
   * never increase, every identifier of a successful category appears, and
   * each identifier carries the last paper collected for it.
   */
  lemma MergePapersProperties(results: seq<CategoryResult>)
    ensures DistinctIds(MergePapers(results))
    ensures Sorting.Descending(MergePapers(results), PublishedAt)
    ensures IdsOf(MergePapers(results)) == IdsOf(Collected(results))
    ensures forall i :: 0 <= i < |MergePapers(results)| ==>
              MergePapers(results)[i] == Collected(results)[LastIndexWithId(Collected(results), MergePapers(results)[i].arxiv_id)]
  {
    var c := Collected(results);
    var d := Deduped(c);
    var m := MergePapers(results);
    DistinctIdsPermuted(d, m);
    MergeSameElements(results);
    assert IdsOf(m) == IdsOf(d);
    forall i | 0 <= i < |m| ensures m[i] == c[LastIndexWithId(c, m[i].arxiv_id)] {
      assert m[i] in d;
    }
  }

  lemma {:induction false} WithKeyWithin(xs: seq<ScrapedPaper>, k: int)
    ensures forall x :: x in Sorting.WithKey(xs, PublishedAt, k) ==> x in xs
  {
    if xs != [] {
      WithKeyWithin(xs[1..], k);
    }
  }

  lemma FirstSeenTail(ps: seq<ScrapedPaper>, xs: seq<ScrapedPaper>)
    requires xs != [] && FirstSeenOrder(ps, xs)
    ensures FirstSeenOrder(ps, xs[1..])
    ensures forall y :: y in xs[1..] ==> FirstIndexWithId(ps, xs[0].arxiv_id) < FirstIndexWithId(ps, y.arxiv_id)
  {
    var tail := xs[1..];
    forall i, j | 0 <= i < j < |tail|
      ensures FirstIndexWithId(ps, tail[i].arxiv_id) < FirstIndexWithId(ps, tail[j].arxiv_id)
    {
      assert tail[i] == xs[i + 1] && tail[j] == xs[j + 1];
    }
    forall y | y in tail ensures FirstIndexWithId(ps, xs[0].arxiv_id) < FirstIndexWithId(ps, y.arxiv_id) {
      var m :| 0 <= m < |tail| && tail[m] == y;
      assert xs[m + 1] == y;
    }
  }

  lemma FirstSeenCons(ps: seq<ScrapedPaper>, x: ScrapedPaper, rest: seq<ScrapedPaper>)
    requires FirstSeenOrder(ps, rest)
    requires forall y :: y in rest ==> FirstIndexWithId(ps, x.arxiv_id) < FirstIndexWithId(ps, y.arxiv_id)
    ensures FirstSeenOrder(ps, [x] + rest)
  {
    var r := [x] + rest;
    forall i, j | 0 <= i < j < |r|
      ensures FirstIndexWithId(ps, r[i].arxiv_id) < FirstIndexWithId(ps, r[j].arxiv_id)
    {
      assert r[j] == rest[j - 1];
      if i > 0 {
        assert r[i] == rest[i - 1];
      }
    }
  }

  /** Keeping only the papers published at `k` keeps their first-seen order. */
  lemma {:induction false} WithKeyKeepsFirstSeen(ps: seq<ScrapedPaper>, xs: seq<ScrapedPaper>, k: int)
    requires FirstSeenOrder(ps, xs)
    ensures FirstSeenOrder(ps, Sorting.WithKey(xs, PublishedAt, k))
  {
    if xs != [] {
      FirstSeenTail(ps, xs);
      WithKeyKeepsFirstSeen(ps, xs[1..], k);
      WithKeyWithin(xs[1..], k);
      var rest := Sorting.WithKey(xs[1..], PublishedAt, k);
      if PublishedAt(xs[0]) == k {
        FirstSeenCons(ps, xs[0], rest);
      }
    }
  }

  /**
   * Papers with equal publication times come out of the merge in the order
   * in which the collected list first mentions their identifiers, the order
   * of the dict's keys that the stable sort keeps.
   */
  lemma MergeTiesFirstSeen(results: seq<CategoryResult>, k: int)
    ensures FirstSeenOrder(Collected(results), Sorting.WithKey(MergePapers(results), PublishedAt, k))
  {
    var c := Collected(results);
    Sorting.SortDescStable(Deduped(c), PublishedAt, k);
    WithKeyKeepsFirstSeen(c, Deduped(c), k);
  }

  /** A paper of a successful category has its identifier in the merged list. */
  lemma MergeKeepsEverySuccessfulId(results: seq<CategoryResult>, i: nat, p: ScrapedPaper)
    requires i < |results| && results[i].CategoryPapers? && p in results[i].papers
    ensures exists q :: q in MergePapers(results) && q.arxiv_id == p.arxiv_id
  {
    CollectedComplete(results, i, p);
    MergePapersProperties(results);
    assert p.arxiv_id in IdsOf(Collected(results));
  }
}
