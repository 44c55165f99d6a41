/**
 * Best-effort PDF download and text extraction (backend/full_text.py). The
 * HTTP GET of a candidate URL and the PDF reader are oracles.
 */
module FullText {
  import opened Wrappers
  import opened Text

  const ArxivPdfBase: string := "https://arxiv.org/pdf"
  const PdfSuffix: string := ".pdf"
  const PageSeparator: string := "\n\n"

  newtype byte = b: int | 0 <= b < 256

  /** `f"{ARXIV_PDF_BASE}/{identifier}.pdf"`. */
  function ArxivPdfUrl(identifier: string): string {
    ArxivPdfBase + "/" + identifier + PdfSuffix
  }

  /** Python truthiness of an optional string. */
  predicate Truthy(o: Option<string>) {
    o.Some? && o.value != ""
  }

  // ---------------------------------------------------------------------------
  // Candidate URLs

  /** The URLs `_build_candidate_urls` derives from the feed's PDF link. */
  function LinkCandidates(pdfUrl: Option<string>): (urls: seq<string>)
    ensures |urls| <= 2
    ensures Truthy(pdfUrl) <==> urls != []
    ensures Truthy(pdfUrl) ==> urls[0] == pdfUrl.value
    ensures Truthy(pdfUrl) && !EndsWithIgnoreCase(pdfUrl.value, PdfSuffix) ==>
              |urls| == 2 && urls[1] == RStripChar(pdfUrl.value, '/') + PdfSuffix
  {
    if !Truthy(pdfUrl) then []
    else if EndsWithIgnoreCase(pdfUrl.value, PdfSuffix) then [pdfUrl.value]
    else [pdfUrl.value, RStripChar(pdfUrl.value, '/') + PdfSuffix]
  }

  /** The URLs `_build_candidate_urls` derives from the identifier and its unversioned base. */
  function IdCandidates(arxivId: string): (urls: seq<string>)
    ensures |urls| <= 2
    ensures Strip(arxivId) == "" <==> urls == []
    ensures Strip(arxivId) != "" ==> urls[0] == ArxivPdfUrl(Strip(arxivId))
    ensures var cleaned := Strip(arxivId);
            var base := BeforeFirst(cleaned, 'v');
            cleaned != "" && 'v' in cleaned && base != "" ==> urls == [ArxivPdfUrl(cleaned), ArxivPdfUrl(base)]
    ensures var cleaned := Strip(arxivId);
            var base := BeforeFirst(cleaned, 'v');
            cleaned != "" && !('v' in cleaned && base != "") ==> urls == [ArxivPdfUrl(cleaned)]
  {
    var cleaned := Strip(arxivId);
    var base := BeforeFirst(cleaned, 'v');
    if cleaned == "" then []
    else if 'v' in cleaned && base != "" && base != cleaned then [ArxivPdfUrl(cleaned), ArxivPdfUrl(base)]
    else [ArxivPdfUrl(cleaned)]
  }

  /** All URLs `_build_candidate_urls` appends, in order, before removing repeats. */
  function RawCandidates(arxivId: string, pdfUrl: Option<string>): seq<string> {
    LinkCandidates(pdfUrl) + IdCandidates(arxivId)
  }

  predicate NoRepeats(xs: seq<string>) {
    forall i, j :: 0 <= i < j < |xs| ==> xs[i] != xs[j]
  }

  /** Where `x` first occurs in `xs`. */
  function FirstIndex(xs: seq<string>, x: string): (i: nat)
    requires x in xs
    ensures i < |xs| && xs[i] == x
    ensures forall j :: 0 <= j < i ==> xs[j] != x
  {
    if xs[0] == x then 0 else 1 + FirstIndex(xs[1..], x)
  }

  /** The dedup loop: the first occurrence of each URL, in order of first occurrence. */
  function DedupKeepFirst(xs: seq<string>): (r: seq<string>)
    ensures NoRepeats(r)
    ensures forall x :: x in r <==> x in xs
    ensures |r| <= |xs|
  {
    if xs == [] then []
    else
      var n := |xs| - 1;
      var front := DedupKeepFirst(xs[..n]);
      assert xs == xs[..n] + [xs[n]];
      if xs[n] in front then front else front + [xs[n]]
  }

  /** Every element of `r` occurs in `xs`, and `r` lists them in the order they first occur there. */
  predicate InFirstOrder(xs: seq<string>, r: seq<string>) {
    (forall x :: x in r ==> x in xs)
    && forall i, j :: 0 <= i < j < |r| ==> FirstIndex(xs, r[i]) < FirstIndex(xs, r[j])
  }

  /** The kept URLs appear in the order of their first occurrence. */
  lemma {:induction false} DedupKeepsFirstOrder(xs: seq<string>)
    ensures InFirstOrder(xs, DedupKeepFirst(xs))
  {
    if xs != [] {
      var n := |xs| - 1;
      var front := DedupKeepFirst(xs[..n]);
      DedupKeepsFirstOrder(xs[..n]);
      assert xs == xs[..n] + [xs[n]];
      var r := DedupKeepFirst(xs);
      if xs[n] !in front {
        FirstIndexAtEnd(xs, n);
        assert r == front + [xs[n]];
      } else {
        assert r == front;
      }
      forall i, j | 0 <= i < j < |r| ensures FirstIndex(xs, r[i]) < FirstIndex(xs, r[j]) {
        assert r[i] == front[i] && r[i] in xs[..n];
        FirstIndexOfPrefix(xs, n, r[i]);
        if j < |front| {
          assert r[j] == front[j] && r[j] in xs[..n];
          FirstIndexOfPrefix(xs, n, r[j]);
          assert InFirstOrder(xs[..n], front);
        } else {
          assert r[j] == xs[n];
        }
      }
    }
  }

  lemma {:induction false} FirstIndexOfPrefix(xs: seq<string>, n: nat, y: string)
    requires n <= |xs| && y in xs[..n]
    ensures FirstIndex(xs, y) == FirstIndex(xs[..n], y)
  {
    if xs[0] != y {
      assert xs[1..][..n - 1] == xs[..n][1..];
      FirstIndexOfPrefix(xs[1..], n - 1, y);
    }
  }

  lemma {:induction false} FirstIndexAtEnd(xs: seq<string>, n: nat)
    requires n < |xs| && xs[n] !in xs[..n]
    ensures FirstIndex(xs, xs[n]) == n
  {
    if n > 0 {
      assert xs[0] != xs[n] by { assert xs[0] == xs[..n][0]; }
      assert xs[1..][..n - 1] == xs[..n][1..];
      assert xs[1..][n - 1] == xs[n];
      FirstIndexAtEnd(xs[1..], n - 1);
    }
  }

  /** The candidate list `fetch_full_text` tries. */
  function Candidates(arxivId: string, pdfUrl: Option<string>): seq<string> {
    DedupKeepFirst(RawCandidates(arxivId, pdfUrl))
  }

  /** The repeat-dropping loop of `_build_candidate_urls`, with its `seen` set. */
  method DropRepeats(urls: seq<string>) returns (unique: seq<string>)
    ensures unique == DedupKeepFirst(urls)
  {
    var seen: set<string> := {};
    unique := [];
    for i := 0 to |urls|
      invariant unique == DedupKeepFirst(urls[..i])
      invariant forall u :: u in seen <==> u in unique
    {
      assert urls[..i + 1][..i] == urls[..i];
      if urls[i] !in seen {
        unique := unique + [urls[i]];
        seen := seen + {urls[i]};
      }
    }
    assert urls[..|urls|] == urls;
  }

  /** The identifier half of `_build_candidate_urls`. */
  method IdUrls(arxivId: string) returns (fromId: seq<string>)
    ensures fromId == IdCandidates(arxivId)
  {
    var cleaned := Strip(arxivId);
    fromId := [];
    if cleaned != "" {
      fromId := fromId + [ArxivPdfUrl(cleaned)];
      if 'v' in cleaned {
        var base := BeforeFirst(cleaned, 'v');
        if base != "" && base != cleaned {
          fromId := fromId + [ArxivPdfUrl(base)];
        }
      }
    }
  }

  /** `_build_candidate_urls`: appends the candidates, then drops repeats. */
  method BuildCandidateUrls(arxivId: string, pdfUrl: Option<string>) returns (unique: seq<string>)
    ensures unique == Candidates(arxivId, pdfUrl)
    ensures NoRepeats(unique) && |unique| <= 4
    ensures Truthy(pdfUrl) ==> |unique| >= 1 && unique[0] == pdfUrl.value
    ensures Truthy(pdfUrl) && !EndsWithIgnoreCase(pdfUrl.value, PdfSuffix) ==>
              |unique| >= 2 && unique[1] == RStripChar(pdfUrl.value, '/') + PdfSuffix
    ensures !Truthy(pdfUrl) && Strip(arxivId) == "" <==> unique == []
  {
    var urls: seq<string> := [];
    if Truthy(pdfUrl) {
      urls := urls + [pdfUrl.value];
      if !EndsWithIgnoreCase(pdfUrl.value, PdfSuffix) {
        urls := urls + [RStripChar(pdfUrl.value, '/') + PdfSuffix];
      }
    }
    assert urls == LinkCandidates(pdfUrl);
    var fromId := IdUrls(arxivId);
    urls := urls + fromId;
    unique := DropRepeats(urls);
    CandidateOrder(arxivId, pdfUrl);
  }

  /** Repeats are dropped after their first occurrence, so a distinct first pair survives in place. */
  lemma DedupFirstTwo(xs: seq<string>)
    requires |xs| >= 1
    ensures |DedupKeepFirst(xs)| >= 1 && DedupKeepFirst(xs)[0] == xs[0]
    ensures |xs| >= 2 && xs[0] != xs[1] ==> |DedupKeepFirst(xs)| >= 2 && DedupKeepFirst(xs)[1] == xs[1]
  {
    var d := DedupKeepFirst(xs);
    DedupKeepsFirstOrder(xs);
    assert xs[0] in d;
    var k :| 0 <= k < |d| && d[k] == xs[0];
    if |xs| >= 2 && xs[0] != xs[1] {
      assert FirstIndex(xs, xs[1]) == 1;
      assert xs[1] in d;
      var m :| 0 <= m < |d| && d[m] == xs[1];
    }
  }

  /** Appending `.pdf` gives a URL that ends in `.pdf`. */
  lemma EndsWithOwnSuffix(s: string)
    ensures EndsWithIgnoreCase(s + PdfSuffix, PdfSuffix)
  {
    var u := s + PdfSuffix;
    forall i | 0 <= i < |PdfSuffix| ensures LowerAscii(u[|u| - |PdfSuffix| + i]) == PdfSuffix[i] {
      assert u[|u| - |PdfSuffix| + i] == PdfSuffix[i];
    }
  }

  /** Deduplication keeps the explicit link first and its `.pdf` variant second. */
  lemma CandidateOrder(arxivId: string, pdfUrl: Option<string>)
    ensures var c := Candidates(arxivId, pdfUrl);
            && (Truthy(pdfUrl) ==> |c| >= 1 && c[0] == pdfUrl.value)
            && (Truthy(pdfUrl) && !EndsWithIgnoreCase(pdfUrl.value, PdfSuffix) ==>
                  |c| >= 2 && c[1] == RStripChar(pdfUrl.value, '/') + PdfSuffix)
  {
    var raw := RawCandidates(arxivId, pdfUrl);
    if Truthy(pdfUrl) {
      if !EndsWithIgnoreCase(pdfUrl.value, PdfSuffix) {
        EndsWithOwnSuffix(RStripChar(pdfUrl.value, '/'));
        assert raw[0] != raw[1];
      }
      DedupFirstTwo(raw);
    }
  }

  // ---------------------------------------------------------------------------
  // Download and extraction

  /** The outcome of one GET: a transport or status error, or a response. */
  datatype HttpReply = HttpError | HttpOk(content_type: string, body: seq<byte>)

  /** What the PDF reader yields: it raised, or each page's `extract_text()` (`None` allowed). */
  datatype Extraction = ExtractionFailed | Pages(pages: seq<Option<string>>)

  /** A response `fetch_full_text` takes as the PDF: no error, a PDF type or `.pdf` URL, a body. */
  predicate Usable(url: string, reply: HttpReply) {
    && reply.HttpOk?
    && (Contains(reply.content_type, "pdf") || EndsWithIgnoreCase(url, PdfSuffix))
    && reply.body != []
  }

  /** `page.extract_text() or ""` for each page. */
  function PageTexts(pages: seq<Option<string>>): (r: seq<string>)
    ensures |r| == |pages|
    ensures forall i :: 0 <= i < |r| ==> r[i] == pages[i].GetOr("")
  {
    seq(|pages|, i requires 0 <= i < |pages| => pages[i].GetOr(""))
  }

  /** `[f for f in fragments if f]`. */
  function NonEmpty(fragments: seq<string>): seq<string> {
    if fragments == [] then []
    else (if fragments[0] == "" then [] else [fragments[0]]) + NonEmpty(fragments[1..])
  }

  /** Filtering stripped texts is the same as cleaning the raw texts. */
  lemma {:induction false} NonEmptyOfStripped(fragments: seq<string>, texts: seq<string>)
    requires |fragments| == |texts|
    requires forall k :: 0 <= k < |texts| ==> fragments[k] == Strip(texts[k])
    ensures NonEmpty(fragments) == CleanPieces(texts)
  {
    if fragments != [] {
      NonEmptyOfStripped(fragments[1..], texts[1..]);
    }
  }

  /** The stripped non-empty page texts, in page order. */
  function PageFragments(pages: seq<Option<string>>): seq<string> {
    CleanPieces(PageTexts(pages))
  }

  /** The text `_pdf_bytes_to_text` yields for a payload the reader handled as given. */
  function PdfText(payload: seq<byte>, extraction: Extraction): string {
    if payload == [] || extraction.ExtractionFailed? then ""
    else Join(PageFragments(extraction.pages), PageSeparator)
  }

  /** The page loop of `_pdf_bytes_to_text`: each page's text, stripped. */
  method StripPages(texts: seq<string>) returns (fragments: seq<string>)
    ensures |fragments| == |texts|
    ensures forall k :: 0 <= k < |texts| ==> fragments[k] == Strip(texts[k])
  {
    fragments := [];
    for i := 0 to |texts|
      invariant |fragments| == i
      invariant forall k :: 0 <= k < i ==> fragments[k] == Strip(texts[k])
    {
      fragments := fragments + [Strip(texts[i])];
    }
  }

  /** `_pdf_bytes_to_text`: collects stripped page texts, then joins the non-empty ones. */
  method PdfBytesToText(payload: seq<byte>, extraction: Extraction) returns (text: string)
    ensures text == PdfText(payload, extraction)
  {
    if payload == [] || extraction.ExtractionFailed? {
      return "";
    }
    var texts := PageTexts(extraction.pages);
    var fragments := StripPages(texts);
    NonEmptyOfStripped(fragments, texts);
    text := Join(NonEmpty(fragments), PageSeparator);
  }

  /**
   * The extracted text never starts or ends with whitespace, and it is empty
   * exactly when there is no payload, the reader failed, or every page is blank.
   */
  lemma PdfTextShape(payload: seq<byte>, extraction: Extraction)
    ensures IsStripped(PdfText(payload, extraction))
    ensures PdfText(payload, extraction) == "" <==>
              payload == [] || extraction.ExtractionFailed? || PageFragments(extraction.pages) == []
  {
    if payload != [] && extraction.Pages? {
      JoinOfCleanIsStripped(PageFragments(extraction.pages));
    }
  }

  lemma {:induction false} JoinOfCleanIsStripped(xs: seq<string>)
    requires forall x :: x in xs ==> x != "" && IsStripped(x)
    ensures IsStripped(Join(xs, PageSeparator))
    ensures Join(xs, PageSeparator) == "" <==> xs == []
  {
    if |xs| == 1 {
      assert xs[0] in xs;
    } else if |xs| > 1 {
      assert xs[0] in xs;
      assert forall x :: x in xs[1..] ==> x in xs;
      JoinOfCleanIsStripped(xs[1..]);
      var rest := Join(xs[1..], PageSeparator);
      var j := Join(xs, PageSeparator);
      assert j == xs[0] + PageSeparator + rest;
      assert j[0] == xs[0][0];
      assert j[|j| - 1] == rest[|rest| - 1];
    }
  }

  /** What `fetch_full_text` returns after trying `urls` in order: the first usable response's text. */
  function TextFrom(urls: seq<string>, get: string -> HttpReply, extract: seq<byte> -> Extraction): string {
    if urls == [] then ""
    else if Usable(urls[0], get(urls[0])) then PdfText(get(urls[0]).body, extract(get(urls[0]).body))
    else TextFrom(urls[1..], get, extract)
  }

  /** With no usable URL, `fetch_full_text` yields the empty string. */
  lemma {:induction false} TextFromNoneUsable(urls: seq<string>, get: string -> HttpReply,
                                              extract: seq<byte> -> Extraction)
    requires forall i :: 0 <= i < |urls| ==> !Usable(urls[i], get(urls[i]))
    ensures TextFrom(urls, get, extract) == ""
  {
    if urls != [] {
      assert forall i :: 0 <= i < |urls| - 1 ==> urls[1..][i] == urls[i + 1];
      TextFromNoneUsable(urls[1..], get, extract);
    }
  }

  /** The first usable URL decides what `fetch_full_text` yields; later ones are never fetched. */
  lemma {:induction false} TextFromFirstUsable(urls: seq<string>, get: string -> HttpReply,
                                               extract: seq<byte> -> Extraction, i: nat)
    requires i < |urls| && Usable(urls[i], get(urls[i]))
    requires forall j :: 0 <= j < i ==> !Usable(urls[j], get(urls[j]))
    ensures TextFrom(urls, get, extract) == PdfText(get(urls[i]).body, extract(get(urls[i]).body))
  {
    if i > 0 {
      assert !Usable(urls[0], get(urls[0]));
      assert urls[1..][i - 1] == urls[i];
      assert forall j :: 0 <= j < i - 1 ==> urls[1..][j] == urls[j + 1];
      TextFromFirstUsable(urls[1..], get, extract, i - 1);
    }
  }

  /** The download loop of `fetch_full_text`: tries each URL in order and extracts the first usable PDF. */
  method FirstUsableText(candidates: seq<string>, get: string -> HttpReply, extract: seq<byte> -> Extraction)
    returns (text: string)
    ensures text == TextFrom(candidates, get, extract)
  {
    var pdfBytes: seq<byte> := [];
    var i := 0;
    while i < |candidates|
      invariant 0 <= i <= |candidates|
      invariant TextFrom(candidates[i..], get, extract) == TextFrom(candidates, get, extract)
      invariant pdfBytes == []
    {
      var url := candidates[i];
      var reply := get(url);
      assert candidates[i..][0] == url && candidates[i..][1..] == candidates[i + 1..];
      if reply.HttpError? {
        i := i + 1;
        continue;
      }
      if !Contains(reply.content_type, "pdf") && !EndsWithIgnoreCase(url, PdfSuffix) {
        i := i + 1;
        continue;
      }
      pdfBytes := reply.body;
      if pdfBytes != [] {
        break;
      }
      i := i + 1;
    }
    if pdfBytes == [] {
      assert candidates[i..] == [];
      return "";
    }
    text := PdfBytesToText(pdfBytes, extract(pdfBytes));
  }

  /** `fetch_full_text`: builds the candidate URLs, then downloads from the first usable one. */
  method FetchFullText(arxivId: string, pdfUrl: Option<string>, get: string -> HttpReply,
                       extract: seq<byte> -> Extraction)
    returns (text: string)
    ensures text == TextFrom(Candidates(arxivId, pdfUrl), get, extract)
  {
    var candidates := BuildCandidateUrls(arxivId, pdfUrl);
    text := FirstUsableText(candidates, get, extract);
  }
}
