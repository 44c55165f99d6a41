/**
 * The summarizer (backend/summarizer.py): chooses the document, cuts it into
 * overlapping windows, asks the language model about each part and then
 * consolidates the notes. The chat-completion call is an oracle that maps
 * each prompt to a reply.
 */
module Summarizer {
  import opened Wrappers
  import opened Text
  import opened Config

  /** `uses_llm`: a non-empty API key is configured. */
  predicate UsesLlm(cfg: Settings) {
    cfg.llm_api_key.Some? && cfg.llm_api_key.value != ""
  }

  // ---------------------------------------------------------------------------
  // Chunking

  /** `max(1000, full_text_chunk_chars)`. */
  function ChunkSize(cfg: Settings): (n: nat)
    ensures n >= 1000 && n >= cfg.full_text_chunk_chars
    ensures n == 1000 || n == cfg.full_text_chunk_chars
  {
    if cfg.full_text_chunk_chars > 1000 then cfg.full_text_chunk_chars else 1000
  }

  /** `max(0, min(full_text_chunk_overlap, chunk_size // 2))`. */
  function ChunkOverlap(cfg: Settings): (n: nat)
    ensures n <= ChunkSize(cfg) / 2 && n < ChunkSize(cfg)
    ensures n <= cfg.full_text_chunk_overlap || n == 0
  {
    var half := ChunkSize(cfg) / 2;
    var m := if cfg.full_text_chunk_overlap < half then cfg.full_text_chunk_overlap else half;
    if m > 0 then m else 0
  }

  /** `max(1, full_text_max_chunks)`. */
  function MaxChunks(cfg: Settings): (n: nat)
    ensures n >= 1 && n >= cfg.full_text_max_chunks
  {
    if cfg.full_text_max_chunks > 1 then cfg.full_text_max_chunks else 1
  }

  /** The default settings are inside the clamps, so they apply unchanged. */
  lemma DefaultChunking()
    ensures ChunkSize(DefaultSettings) == 6000
    ensures ChunkOverlap(DefaultSettings) == 500
    ensures MaxChunks(DefaultSettings) == 6
    ensures !UsesLlm(DefaultSettings)
  {
  }

  /** The half-open character range `[lo, hi)` one iteration of `_chunk_text` cuts. */
  datatype Window = Window(lo: nat, hi: nat)

  /** The windows `_chunk_text` visits from `start` on, up to the end of a text of `length`. */
  function Windows(length: nat, start: nat, size: nat, overlap: nat): (ws: seq<Window>)
    requires overlap < size
    decreases length - start
    ensures start >= length <==> ws == []
  {
    if start >= length then []
    else
      var end := if length < start + size then length else start + size;
      if end >= length then [Window(start, end)]
      else [Window(start, end)] + Windows(length, end - overlap, size, overlap)
  }

  /** A window that reaches the end of the text is the last one. */
  lemma WindowsLast(length: nat, start: nat, size: nat, overlap: nat)
    requires overlap < size && start < length <= start + size
    ensures Windows(length, start, size, overlap) == [Window(start, length)]
  {
  }

  /** A full window is followed by the windows from `overlap` before its end. */
  lemma WindowsStep(length: nat, start: nat, size: nat, overlap: nat)
    requires overlap < size && start + size < length
    ensures Windows(length, start, size, overlap)
            == [Window(start, start + size)] + Windows(length, start + size - overlap, size, overlap)
  {
  }

  /** Every window is non-empty, at most `size` long and inside `[start, length)`. */
  predicate InRange(ws: seq<Window>, start: nat, length: nat, size: nat) {
    forall i :: 0 <= i < |ws| ==> start <= ws[i].lo < ws[i].hi <= length && ws[i].hi - ws[i].lo <= size
  }

  /** The windows stay inside the text; the first starts at `start` and the last ends the text. */
  lemma {:induction false} WindowsShape(length: nat, start: nat, size: nat, overlap: nat)
    requires overlap < size
    ensures InRange(Windows(length, start, size, overlap), start, length, size)
    ensures var ws := Windows(length, start, size, overlap);
            ws != [] ==> ws[0].lo == start && ws[|ws| - 1].hi == length
    decreases length - start
  {
    if start >= length {
    } else if length <= start + size {
      WindowsLast(length, start, size, overlap);
    } else {
      WindowsStep(length, start, size, overlap);
      WindowsShape(length, start + size - overlap, size, overlap);
      var ws := Windows(length, start, size, overlap);
      var rest := Windows(length, start + size - overlap, size, overlap);
      forall i | 0 <= i < |ws|
        ensures start <= ws[i].lo < ws[i].hi <= length && ws[i].hi - ws[i].lo <= size
      {
        if i > 0 {
          assert ws[i] == rest[i - 1];
        }
      }
    }
  }

  /**
   * Every window but the last is a full `size` long and ends before the
   * text does; the next window starts `overlap` before it ends.
   */
  lemma {:induction false} WindowsChain(length: nat, start: nat, size: nat, overlap: nat, k: nat)
    requires overlap < size && k + 1 < |Windows(length, start, size, overlap)|
    ensures var ws := Windows(length, start, size, overlap);
            ws[k].hi - ws[k].lo == size && ws[k].hi < length && ws[k + 1].lo == ws[k].hi - overlap
    decreases length - start
  {
    var ws := Windows(length, start, size, overlap);
    if length <= start + size {
      WindowsLast(length, start, size, overlap);
    } else {
      WindowsStep(length, start, size, overlap);
      var rest := Windows(length, start + size - overlap, size, overlap);
      assert ws[k + 1] == rest[k];
      if k == 0 {
        assert rest[0].lo == start + size - overlap;
      } else {
        WindowsChain(length, start + size - overlap, size, overlap, k - 1);
        assert ws[k] == rest[k - 1];
      }
    }
  }

  /** Character position `p` lies inside one of the windows. */
  predicate Covered(ws: seq<Window>, p: nat) {
    exists i :: 0 <= i < |ws| && ws[i].lo <= p < ws[i].hi
  }

  /** Every character from `start` on lies in some window: the overlap leaves no gap. */
  lemma {:induction false} WindowsCover(length: nat, start: nat, size: nat, overlap: nat, p: nat)
    requires overlap < size && start <= p < length
    ensures Covered(Windows(length, start, size, overlap), p)
    decreases length - start
  {
    if length <= start + size {
      WindowsLast(length, start, size, overlap);
      assert Windows(length, start, size, overlap)[0] == Window(start, length);
    } else {
      WindowsStep(length, start, size, overlap);
      var ws := Windows(length, start, size, overlap);
      if p < start + size {
        assert ws[0] == Window(start, start + size);
      } else {
        var rest := Windows(length, start + size - overlap, size, overlap);
        WindowsCover(length, start + size - overlap, size, overlap, p);
        var i :| 0 <= i < |rest| && rest[i].lo <= p < rest[i].hi;
        assert ws[i + 1] == rest[i];
      }
    }
  }

  /** The slice `t[w.lo:w.hi]` of a window inside the text (windows outside it select nothing). */
  function Cut(t: string, w: Window): string {
    if w.lo <= w.hi <= |t| then t[w.lo..w.hi] else ""
  }

  /** The slices of `t` the windows select. */
  function Slices(t: string, ws: seq<Window>): (r: seq<string>)
    ensures |r| == |ws|
  {
    if ws == [] then [] else [Cut(t, ws[0])] + Slices(t, ws[1..])
  }

  lemma {:induction false} SlicesAt(t: string, ws: seq<Window>, i: nat)
    requires i < |ws|
    ensures Slices(t, ws)[i] == Cut(t, ws[i])
  {
    if i > 0 {
      SlicesAt(t, ws[1..], i - 1);
    }
  }

  /** The stripped, non-blank slices of `t` under the windows from `start` on. */
  function ChunksFrom(t: string, start: nat, size: nat, overlap: nat): seq<string>
    requires overlap < size
  {
    CleanPieces(Slices(t, Windows(|t|, start, size, overlap)))
  }

  /** What `_chunk_text` returns: the stripped, non-blank window slices of the stripped text. */
  function Chunks(cfg: Settings, text: string): seq<string> {
    var t := Strip(text);
    if t == "" then [] else ChunksFrom(t, 0, ChunkSize(cfg), ChunkOverlap(cfg))
  }

  /** Every chunk is non-empty, has no surrounding whitespace and fits one window. */
  lemma ChunksShape(cfg: Settings, text: string)
    ensures forall c :: c in Chunks(cfg, text) ==> c != "" && IsStripped(c) && |c| <= ChunkSize(cfg)
  {
    var t := Strip(text);
    if t != "" {
      var ws := DocumentWindows(cfg, t);
      WindowsShape(|t|, 0, ChunkSize(cfg), ChunkOverlap(cfg));
      SlicesWithin(t, ws, ChunkSize(cfg));
      CleanPiecesBounded(Slices(t, ws), ChunkSize(cfg));
    }
  }

  /** Windows no longer than `n` select slices no longer than `n`. */
  lemma {:induction false} SlicesWithin(t: string, ws: seq<Window>, n: nat)
    requires forall i :: 0 <= i < |ws| ==> ws[i].hi - ws[i].lo <= n
    ensures forall x :: x in Slices(t, ws) ==> |x| <= n
  {
    if ws != [] {
      assert ws[0].hi - ws[0].lo <= n;
      SlicesWithin(t, ws[1..], n);
    }
  }

  /** The last step of the walk: the window reaching the end of the text. */
  lemma ChunksLast(t: string, start: nat, size: nat, overlap: nat)
    requires overlap < size && start < |t| <= start + size
    ensures var c := Strip(t[start..]);
            ChunksFrom(t, start, size, overlap) == (if c != "" then [c] else [])
  {
    WindowsLast(|t|, start, size, overlap);
    var xs := Slices(t, [Window(start, |t|)]);
    assert xs[0] == t[start..] && xs[1..] == [];
  }

  /** An inner step of the walk: a full window's slice, then the windows after it. */
  lemma ChunksStep(t: string, start: nat, size: nat, overlap: nat)
    requires overlap < size && start + size < |t|
    ensures var c := Strip(t[start..start + size]);
            ChunksFrom(t, start, size, overlap)
              == (if c != "" then [c] else []) + ChunksFrom(t, start + size - overlap, size, overlap)
  {
    WindowsStep(|t|, start, size, overlap);
    var rest := Windows(|t|, start + size - overlap, size, overlap);
    WindowsShape(|t|, start + size - overlap, size, overlap);
    var xs := Slices(t, [Window(start, start + size)] + rest);
    assert xs[0] == t[start..start + size];
    assert xs[1..] == Slices(t, rest);
  }

  lemma {:induction false} CleanPiecesBounded(xs: seq<string>, n: nat)
    requires forall x :: x in xs ==> |x| <= n
    ensures forall p :: p in CleanPieces(xs) ==> |p| <= n
  {
    if xs != [] {
      assert xs[0] in xs;
      assert forall x :: x in xs[1..] ==> x in xs;
      CleanPiecesBounded(xs[1..], n);
    }
  }

  /** `_chunk_text`: strips the text, then walks its windows. */
  method ChunkText(cfg: Settings, text: string) returns (chunks: seq<string>)
    ensures chunks == Chunks(cfg, text)
  {
    var t := Strip(text);
    if t == "" {
      return [];
    }
    chunks := WalkWindows(t, ChunkSize(cfg), ChunkOverlap(cfg));
  }

  /** The loop of `_chunk_text`: keeps each stripped non-blank window slice, in order. */
  method WalkWindows(t: string, size: nat, overlap: nat) returns (chunks: seq<string>)
    requires overlap < size
    ensures chunks == ChunksFrom(t, 0, size, overlap)
  {
    ghost var ws := Windows(|t|, 0, size, overlap);
    ghost var slices := Slices(t, ws);
    assert ws != [] ==> ws[0].lo == 0;
    chunks := [];
    var start := 0;
    var length := |t|;
    ghost var k := 0;
    while start < length
      invariant k <= |ws|
      invariant k < |ws| ==> ws[k].lo == start && start < length
      invariant start < length ==> k < |ws|
      invariant chunks == CleanPieces(slices[..k])
      decreases length - start
    {
      var end := if length < start + size then length else start + size;
      WalkStep(t, size, overlap, k);
      CleanPiecesTake(slices, k);
      assert start == ws[k].lo;
      assert end == ws[k].hi;
      assert t[start..end] == slices[k];
      var chunk := Strip(t[start..end]);
      assert chunk == Strip(slices[k]);
      ghost var before := chunks;
      if chunk != "" {
        chunks := chunks + [chunk];
      }
      assert chunks == before + (if chunk != "" then [chunk] else []);
      assert chunks == CleanPieces(slices[..k + 1]);
      k := k + 1;
      if end >= length {
        break;
      }
      start := end - overlap;
    }
    assert slices[..k] == slices;
  }

  /** One iteration of the walk visits window `k`: its slice joins the chunks when non-blank. */
  lemma WalkStep(t: string, size: nat, overlap: nat, k: nat)
    requires overlap < size && k < |Windows(|t|, 0, size, overlap)|
    ensures var w := Windows(|t|, 0, size, overlap)[k]; w.lo < w.hi <= |t|
    ensures var ws := Windows(|t|, 0, size, overlap);
            var w := ws[k];
            && w.hi == (if |t| < w.lo + size then |t| else w.lo + size)
            && (w.hi >= |t| ==> k + 1 == |ws|)
            && (w.hi < |t| ==> k + 1 < |ws| && ws[k + 1].lo == w.hi - overlap && w.hi - overlap < |t|)
            && Slices(t, ws)[k] == t[w.lo..w.hi]
  {
    var ws := Windows(|t|, 0, size, overlap);
    WindowsShape(|t|, 0, size, overlap);
    if k + 1 < |ws| {
      WindowsChain(|t|, 0, size, overlap, k);
    }
    SlicesAt(t, ws, k);
  }

  /** The windows over a whole stripped document. */
  function DocumentWindows(cfg: Settings, t: string): seq<Window> {
    Windows(|t|, 0, ChunkSize(cfg), ChunkOverlap(cfg))
  }

  /** A stripped text no longer than one window is its own single chunk. */
  lemma ShortDocument(cfg: Settings, t: string)
    requires t != "" && IsStripped(t) && |t| <= ChunkSize(cfg)
    ensures Chunks(cfg, t) == [t]
  {
    StripOfStripped(t);
    WindowsLast(|t|, 0, ChunkSize(cfg), ChunkOverlap(cfg));
    var ws := DocumentWindows(cfg, t);
    assert t[0..|t|] == t;
    assert Slices(t, ws) == [t];
  }

  /** A stripped text longer than one window gives at least two chunks. */
  lemma LongDocument(cfg: Settings, t: string)
    requires IsStripped(t) && |t| > ChunkSize(cfg)
    ensures |Chunks(cfg, t)| >= 2
  {
    StripOfStripped(t);
    var size := ChunkSize(cfg);
    var overlap := ChunkOverlap(cfg);
    WindowsStep(|t|, 0, size, overlap);
    WindowsShape(|t|, 0, size, overlap);
    var ws := DocumentWindows(cfg, t);
    var n := |ws|;
    assert n >= 2;
    var slices := Slices(t, ws);
    SlicesAt(t, ws, 0);
    SlicesAt(t, ws, n - 1);
    assert slices[0] == t[0..size];
    assert slices[0][0] == t[0];
    var last := slices[n - 1];
    assert last == t[ws[n - 1].lo..|t|];
    assert last[|last| - 1] == t[|t| - 1];
    CleanPiecesEnds(slices);
  }

  lemma {:induction false} CleanPiecesEnds(xs: seq<string>)
    requires |xs| >= 2 && !IsBlank(xs[0]) && !IsBlank(xs[|xs| - 1])
    ensures |CleanPieces(xs)| >= 2
  {
    assert xs == [xs[0]] + xs[1..];
    CleanPiecesAppend([xs[0]], xs[1..]);
    CleanPiecesKeepsNonBlank(xs[1..], |xs| - 2);
  }

  lemma {:induction false} CleanPiecesKeepsNonBlank(xs: seq<string>, k: nat)
    requires k < |xs| && !IsBlank(xs[k])
    ensures CleanPieces(xs) != []
  {
    if k > 0 && IsBlank(xs[0]) {
      CleanPiecesKeepsNonBlank(xs[1..], k - 1);
    }
  }

  /** A non-empty stripped document is cut into one chunk exactly when it fits one window. */
  lemma SingleChunkIff(cfg: Settings, t: string)
    requires t != "" && IsStripped(t)
    ensures |Chunks(cfg, t)| <= 1 <==> |t| <= ChunkSize(cfg)
    ensures |Chunks(cfg, t)| >= 1
  {
    if |t| <= ChunkSize(cfg) {
      ShortDocument(cfg, t);
    } else {
      LongDocument(cfg, t);
    }
  }

  /** `c` is the stripped text of one of the windows. */
  predicate CutFrom(t: string, ws: seq<Window>, c: string) {
    exists i :: 0 <= i < |ws| && ws[i].lo <= ws[i].hi <= |t| && c == Strip(t[ws[i].lo..ws[i].hi])
  }

  /** Every chunk is the stripped slice of some window. */
  lemma ChunksFromWindows(cfg: Settings, t: string)
    requires IsStripped(t)
    ensures forall c :: c in Chunks(cfg, t) ==> CutFrom(t, DocumentWindows(cfg, t), c)
  {
    StripOfStripped(t);
    if t != "" {
      var ws := DocumentWindows(cfg, t);
      WindowsShape(|t|, 0, ChunkSize(cfg), ChunkOverlap(cfg));
      var slices := Slices(t, ws);
      forall c | c in CleanPieces(slices)
        ensures CutFrom(t, ws, c)
      {
        CleanPiecesOrigin(slices, c);
        var i :| 0 <= i < |slices| && c == Strip(slices[i]);
        SlicesAt(t, ws, i);
        assert ws[i].lo <= ws[i].hi <= |t|;
      }
    }
  }

  /** Together the windows cover every character of the document: no text is skipped. */
  lemma ChunksCoverText(cfg: Settings, t: string)
    ensures forall p :: 0 <= p < |t| ==> Covered(DocumentWindows(cfg, t), p)
  {
    forall p | 0 <= p < |t|
      ensures Covered(DocumentWindows(cfg, t), p)
    {
      WindowsCover(|t|, 0, ChunkSize(cfg), ChunkOverlap(cfg), p);
    }
  }

  lemma {:induction false} CleanPiecesOrigin(xs: seq<string>, c: string)
    requires c in CleanPieces(xs)
    ensures exists i :: 0 <= i < |xs| && c == Strip(xs[i])
  {
    if Strip(xs[0]) == [] || c != Strip(xs[0]) {
      CleanPiecesOrigin(xs[1..], c);
      var i :| 0 <= i < |xs[1..]| && c == Strip(xs[1..][i]);
      assert xs[i + 1] == xs[1..][i];
    }
  }

  // ---------------------------------------------------------------------------
  // Reading a completion

  /** A structured content segment: a dictionary, or anything else. */
  datatype Part = DictPart(fields: map<string, string>) | OtherPart

  /** A message's `content`: a string, a list of segments, or anything else (including `None`). */
  datatype Content = TextContent(text: string) | PartsContent(parts: seq<Part>) | OtherContent

  /**
   * What the client returned: nothing, a completion object (its `choices`,
   * each with an optional message, and its `str()`), a dictionary, or any
   * other object with its `str()`.
   */
  datatype Payload =
    | NoPayload
    | Completion(choices: seq<Option<Content>>, repr: string)
    | DictPayload(fields: map<string, string>)
    | OtherPayload(repr: string)

  /** `part.get("text", "")` for dictionary parts. */
  function PartText(p: Part): string {
    match p
    case DictPart(f) => if "text" in f then f["text"] else ""
    case OtherPart => ""
  }

  /** `"".join(part.get("text", "") for part in content if isinstance(part, dict))`. */
  function PartTexts(parts: seq<Part>): string {
    if parts == [] then "" else PartText(parts[0]) + PartTexts(parts[1..])
  }

  /** Segment texts are concatenated in order. */
  lemma {:induction false} PartTextsAppend(a: seq<Part>, b: seq<Part>)
    ensures PartTexts(a + b) == PartTexts(a) + PartTexts(b)
  {
    if a == [] {
      assert a + b == b;
    } else {
      assert (a + b)[0] == a[0];
      assert (a + b)[1..] == a[1..] + b;
      PartTextsAppend(a[1..], b);
    }
  }

  /** The dictionary keys `_extract_text` consults, in order. */
  const ReplyKeys: seq<string> := ["text", "summary", "output"]

  /** `d.get(k1) or d.get(k2) or … or ""`: the first non-empty value among `keys`. */
  function FirstTruthy(f: map<string, string>, keys: seq<string>): string {
    if keys == [] then ""
    else if keys[0] in f && f[keys[0]] != "" then f[keys[0]]
    else FirstTruthy(f, keys[1..])
  }

  /** The result is empty exactly when every present key maps to "", and otherwise is the first non-empty value. */
  lemma {:induction false} FirstTruthyIsFirst(f: map<string, string>, keys: seq<string>)
    ensures var r := FirstTruthy(f, keys);
            r == "" <==> forall k :: k in keys && k in f ==> f[k] == ""
    ensures var r := FirstTruthy(f, keys);
            r != "" ==> exists i :: 0 <= i < |keys| && keys[i] in f && f[keys[i]] == r
                                    && forall j :: 0 <= j < i ==> keys[j] !in f || f[keys[j]] == ""
  {
    if keys != [] && !(keys[0] in f && f[keys[0]] != "") {
      FirstTruthyIsFirst(f, keys[1..]);
      var r := FirstTruthy(f, keys);
      assert forall k :: k in keys ==> k == keys[0] || k in keys[1..];
      if r != "" {
        var i :| 0 <= i < |keys[1..]| && keys[1..][i] in f && f[keys[1..][i]] == r
                 && forall j :: 0 <= j < i ==> keys[1..][j] !in f || f[keys[1..][j]] == "";
        assert keys[i + 1] == keys[1..][i];
        assert forall j :: 1 <= j < i + 1 ==> keys[j] == keys[1..][j - 1];
      }
    }
  }

  /** `_extract_text`. */
  function ExtractText(p: Payload): string {
    match p
    case NoPayload => ""
    case Completion(choices, repr) =>
      if choices != [] && choices[0].Some? then
        match choices[0].value
        case TextContent(t) => t
        case PartsContent(parts) => if parts != [] then PartTexts(parts) else repr
        case OtherContent => repr
      else repr
    case DictPayload(f) => FirstTruthy(f, ReplyKeys)
    case OtherPayload(repr) => repr
  }

  /**
   * A completion's string content is returned unchanged and a list of
   * segments gives the `text` of its dictionary segments, concatenated in
   * order (other segments add nothing); no payload gives "".
   */
  lemma {:induction false} ExtractTextShapes(t: string, parts: seq<Part>, more: seq<Option<Content>>, repr: string)
    ensures ExtractText(NoPayload) == ""
    ensures ExtractText(Completion([Some(TextContent(t))] + more, repr)) == t
    ensures parts != [] ==> ExtractText(Completion([Some(PartsContent(parts))] + more, repr)) == PartTexts(parts)
    ensures (forall i :: 0 <= i < |parts| ==> parts[i].OtherPart?) ==> PartTexts(parts) == ""
    ensures forall f :: PartTexts(parts + [DictPart(f)]) == PartTexts(parts) + (if "text" in f then f["text"] else "")
  {
    forall f ensures PartTexts(parts + [DictPart(f)]) == PartTexts(parts) + (if "text" in f then f["text"] else "") {
      PartTextsAppend(parts, [DictPart(f)]);
      assert PartTexts([DictPart(f)]) == PartText(DictPart(f)) + PartTexts([]);
    }
    if parts != [] && forall i :: 0 <= i < |parts| ==> parts[i].OtherPart? {
      NoDictParts(parts);
    }
  }

  lemma {:induction false} NoDictParts(parts: seq<Part>)
    requires forall i :: 0 <= i < |parts| ==> parts[i].OtherPart?
    ensures PartTexts(parts) == ""
  {
    if parts != [] {
      assert forall i :: 0 <= i < |parts| - 1 ==> parts[1..][i] == parts[i + 1];
      NoDictParts(parts[1..]);
    }
  }

  /** A dictionary reply yields its `text`, else its `summary`, else its `output`, else "". */
  lemma DictReplyPriority(f: map<string, string>)
    ensures "text" in f && f["text"] != "" ==> ExtractText(DictPayload(f)) == f["text"]
    ensures ("text" !in f || f["text"] == "") && "summary" in f && f["summary"] != "" ==>
              ExtractText(DictPayload(f)) == f["summary"]
    ensures ("text" !in f || f["text"] == "") && ("summary" !in f || f["summary"] == "") ==>
              ExtractText(DictPayload(f)) == (if "output" in f then f["output"] else "")
  {
    var r := ExtractText(DictPayload(f));
    FirstTruthyIsFirst(f, ReplyKeys);
    if r != "" {
      var i :| 0 <= i < |ReplyKeys| && ReplyKeys[i] in f && f[ReplyKeys[i]] == r
               && forall j :: 0 <= j < i ==> ReplyKeys[j] !in f || f[ReplyKeys[j]] == "";
      assert ReplyKeys[0] == "text" && ReplyKeys[1] == "summary" && ReplyKeys[2] == "output";
    } else {
      assert "output" in ReplyKeys && "text" in ReplyKeys && "summary" in ReplyKeys;
    }
  }

  /** The outcome of one `_call_llm`, retries included: it raised, or it produced a reply. */
  datatype LlmReply = CallFailed | Replied(payload: Payload)

  datatype LlmOutcome = LlmFailed | LlmText(text: string)

  /** `_call_llm` after the client call: the extracted text, stripped when non-empty. */
  function CallLlm(reply: LlmReply): (o: LlmOutcome)
    ensures reply.CallFailed? <==> o.LlmFailed?
    ensures o.LlmText? ==> o.text == Strip(ExtractText(reply.payload)) && IsStripped(o.text)
  {
    match reply
    case CallFailed => LlmFailed
    case Replied(payload) =>
      var text := ExtractText(payload);
      if text != "" then LlmText(Strip(text)) else LlmText("")
  }

  // ---------------------------------------------------------------------------
  // Summarizing

  /**
   * The variable content of each prompt `summarize` sends; the instruction
   * wording, language and sentence count come from the settings.
   */
  datatype Prompt =
    | WholePrompt(title: string, body: string)
    | PartPrompt(title: string, index: nat, total: nat, limit: nat, segment: string)
    | FallbackPrompt(title: string, document: string)
    | MergePrompt(title: string, combined: string, abstractNote: Option<string>)

  /** `summarize`'s result: the text it returns, or the exception it lets through. */
  datatype SummaryResult = Summary(text: string) | SummaryFailed

  /** The prompts `summarize` sent and what it returned. */
  datatype SummaryRun = SummaryRun(result: SummaryResult, prompts: seq<Prompt>)

  function ResultOf(o: LlmOutcome): (r: SummaryResult)
    ensures r.SummaryFailed? <==> o.LlmFailed?
  {
    match o
    case LlmFailed => SummaryFailed
    case LlmText(t) => Summary(t)
  }

  /** The stripped full text when it has content, otherwise the stripped abstract. */
  function Document(fullText: Option<string>, abstractText: string): (d: string)
    ensures IsStripped(d)
    ensures Strip(fullText.GetOr("")) != "" ==> d == Strip(fullText.GetOr(""))
    ensures Strip(fullText.GetOr("")) == "" ==> d == Strip(abstractText)
  {
    var document := Strip(fullText.GetOr(""));
    if document != "" then document else Strip(abstractText)
  }

  /** The part prompts for the first `k` segments, numbered from 1. */
  function PromptsUpTo(title: string, segments: seq<string>, limit: nat, k: nat): (ps: seq<Prompt>)
    requires k <= |segments|
    ensures |ps| == k
  {
    if k == 0 then []
    else PromptsUpTo(title, segments, limit, k - 1) + [PartPrompt(title, k, |segments|, limit, segments[k - 1])]
  }

  /** One prompt per segment, for at most `limit` leading segments. */
  function PartPrompts(title: string, segments: seq<string>, limit: nat): (ps: seq<Prompt>)
    ensures |ps| <= limit && |ps| <= |segments|
    ensures |ps| == |segments| || |ps| == limit
  {
    PromptsUpTo(title, segments, limit, if |segments| < limit then |segments| else limit)
  }

  /** Prompt `i` carries segment `i`, its 1-based position, the segment count and the limit. */
  lemma {:induction false} PromptsUpToAt(title: string, segments: seq<string>, limit: nat, k: nat, i: nat)
    requires i < k <= |segments|
    ensures PromptsUpTo(title, segments, limit, k)[i] == PartPrompt(title, i + 1, |segments|, limit, segments[i])
  {
    if i < k - 1 {
      PromptsUpToAt(title, segments, limit, k - 1, i);
    }
  }

  lemma PartPromptsAt(title: string, segments: seq<string>, limit: nat)
    ensures var ps := PartPrompts(title, segments, limit);
            forall i :: 0 <= i < |ps| ==> ps[i] == PartPrompt(title, i + 1, |segments|, limit, segments[i])
  {
    var n := if |segments| < limit then |segments| else limit;
    forall i | 0 <= i < n
      ensures PartPrompts(title, segments, limit)[i] == PartPrompt(title, i + 1, |segments|, limit, segments[i])
    {
      PromptsUpToAt(title, segments, limit, n, i);
    }
  }

  /** The notes kept from the part calls, whether one raised, and how many calls were made. */
  datatype NotesRun = NotesRun(notes: seq<string>, failed: bool, sent: nat)

  /**
   * The state after the first `i` part calls: each non-empty reply is kept
   * stripped, and the first call that raises ends the run.
   */
  function NotesAfter(ps: seq<Prompt>, ask: Prompt -> LlmOutcome, i: nat): (r: NotesRun)
    requires i <= |ps|
    ensures r.sent <= i && |r.notes| <= r.sent
    ensures !r.failed ==> r.sent == i
  {
    if i == 0 then NotesRun([], false, 0)
    else
      var r := NotesAfter(ps, ask, i - 1);
      if r.failed then r
      else
        match ask(ps[i - 1])
        case LlmFailed => NotesRun(r.notes, true, i)
        case LlmText(t) => NotesRun(r.notes + (if t != "" then [Strip(t)] else []), false, i)
  }

  /** All the part calls. */
  function PartNotes(ps: seq<Prompt>, ask: Prompt -> LlmOutcome): (r: NotesRun)
    ensures r.sent <= |ps| && |r.notes| <= r.sent
    ensures !r.failed ==> r.sent == |ps|
  {
    NotesAfter(ps, ask, |ps|)
  }

  /** Once a call has raised, no further prompt is sent and nothing changes. */
  lemma {:induction false} NotesAfterStays(ps: seq<Prompt>, ask: Prompt -> LlmOutcome, i: nat, j: nat)
    requires i <= j <= |ps| && NotesAfter(ps, ask, i).failed
    ensures NotesAfter(ps, ask, j) == NotesAfter(ps, ask, i)
    decreases j
  {
    if j > i {
      NotesAfterStays(ps, ask, i, j - 1);
    }
  }

  /** Each of the first `n` calls returned text rather than raising. */
  predicate AllAnswered(ps: seq<Prompt>, ask: Prompt -> LlmOutcome, n: nat) {
    n <= |ps| && forall j :: 0 <= j < n ==> ask(ps[j]).LlmText?
  }

  /** The calls stop at the first one that raises; every earlier call (every call, when none raised) returned text. */
  lemma {:induction false} NotesAfterStopAtFailure(ps: seq<Prompt>, ask: Prompt -> LlmOutcome, i: nat)
    requires i <= |ps|
    ensures var r := NotesAfter(ps, ask, i);
            r.failed ==> 1 <= r.sent && ask(ps[r.sent - 1]).LlmFailed? && AllAnswered(ps, ask, r.sent - 1)
    ensures var r := NotesAfter(ps, ask, i);
            !r.failed ==> AllAnswered(ps, ask, i)
  {
    if i > 0 {
      NotesAfterStopAtFailure(ps, ask, i - 1);
      var prev := NotesAfter(ps, ask, i - 1);
      if prev.failed {
        assert NotesAfter(ps, ask, i) == prev;
      } else if ask(ps[i - 1]).LlmFailed? {
        assert NotesAfter(ps, ask, i).sent == i;
      } else {
        forall j | 0 <= j < i ensures ask(ps[j]).LlmText? {
          if j < i - 1 { assert AllAnswered(ps, ask, i - 1); }
        }
      }
    }
  }

  /** The reply to call `j` is the non-empty text `t`. */
  predicate RepliedWith(ps: seq<Prompt>, ask: Prompt -> LlmOutcome, j: nat, t: string) {
    j < |ps| && ask(ps[j]) == LlmText(t) && t != ""
  }

  /** Every kept note is the stripped text of a non-empty reply to one of the first `i` calls. */
  lemma {:induction false} NotesAfterKept(ps: seq<Prompt>, ask: Prompt -> LlmOutcome, i: nat)
    requires i <= |ps|
    ensures forall n :: n in NotesAfter(ps, ask, i).notes ==>
              IsStripped(n) && exists j: nat, t :: j < i && RepliedWith(ps, ask, j, t) && n == Strip(t)
  {
    if i > 0 {
      NotesAfterKept(ps, ask, i - 1);
      var r := NotesAfter(ps, ask, i - 1);
      var o := ask(ps[i - 1]);
      var notes := NotesAfter(ps, ask, i).notes;
      forall n | n in notes
        ensures IsStripped(n) && exists j: nat, t :: j < i && RepliedWith(ps, ask, j, t) && n == Strip(t)
      {
        if n !in r.notes {
          assert RepliedWith(ps, ask, i - 1, o.text) && n == Strip(o.text);
        }
      }
    }
  }

  /** While no call has raised, no note is kept exactly when every reply so far was empty. */
  lemma {:induction false} NotesAfterEmpty(ps: seq<Prompt>, ask: Prompt -> LlmOutcome, i: nat)
    requires i <= |ps|
    ensures var r := NotesAfter(ps, ask, i);
            !r.failed ==> (r.notes == [] <==> forall j :: 0 <= j < i ==> ask(ps[j]) == LlmText(""))
  {
    if i > 0 {
      NotesAfterEmpty(ps, ask, i - 1);
    }
  }

  /**
   * When every text the calls return is already stripped, as `_call_llm`
   * guarantees, every kept note is non-empty and is a reply unchanged.
   */
  lemma PartNotesOfStrippedReplies(ps: seq<Prompt>, ask: Prompt -> LlmOutcome)
    requires forall j :: 0 <= j < |ps| && ask(ps[j]).LlmText? ==> IsStripped(ask(ps[j]).text)
    ensures forall n :: n in PartNotes(ps, ask).notes ==>
              n != "" && IsStripped(n) && exists j :: 0 <= j < |ps| && ask(ps[j]) == LlmText(n)
  {
    NotesAfterKept(ps, ask, |ps|);
    forall n | n in PartNotes(ps, ask).notes
      ensures n != "" && exists j :: 0 <= j < |ps| && ask(ps[j]) == LlmText(n)
    {
      var j: nat, t :| j < |ps| && RepliedWith(ps, ask, j, t) && n == Strip(t);
      StripOfStripped(t);
    }
  }

  /**
   * The whole of `summarize`: the prompts sent, in order, and the result.
   * `ask` is `_call_llm`: for each prompt it raises or returns a text.
   */
  function Summarization(cfg: Settings, title: string, abstractText: string, fullText: Option<string>,
                         ask: Prompt -> LlmOutcome): SummaryRun
  {
    var document := Document(fullText, abstractText);
    if document == "" || !UsesLlm(cfg) then SummaryRun(Summary(""), [])
    else DocumentRun(cfg, title, Strip(abstractText), document, ask)
  }

  /** `summarize` once it has a non-empty document and a configured model. */
  function DocumentRun(cfg: Settings, title: string, abstractText: string, document: string,
                       ask: Prompt -> LlmOutcome): SummaryRun
  {
    var segments := Chunks(cfg, document);
    if |segments| <= 1 then
      var p := WholePrompt(title, if segments != [] then segments[0] else document);
      SummaryRun(ResultOf(ask(p)), [p])
    else
      var parts := PartPrompts(title, segments, MaxChunks(cfg));
      var run := PartNotes(parts, ask);
      if run.failed then SummaryRun(SummaryFailed, parts[..run.sent])
      else if run.notes == [] then
        var p := FallbackPrompt(title, document);
        SummaryRun(ResultOf(ask(p)), parts + [p])
      else
        var abstractNote := if abstractText != "" then Some(abstractText) else None;
        var p := MergePrompt(title, Join(run.notes, "\n\n"), abstractNote);
        SummaryRun(ResultOf(ask(p)), parts + [p])
  }

  /**
   * `summarize` sends nothing and returns "" exactly when there is no
   * document or no configured model; otherwise it sends at least one prompt
   * and at most one more than the part limit.
   */
  lemma SummarizationCalls(cfg: Settings, title: string, abstractText: string, fullText: Option<string>,
                           ask: Prompt -> LlmOutcome)
    ensures var run := Summarization(cfg, title, abstractText, fullText, ask);
            var d := Document(fullText, abstractText);
            && (d == "" || !UsesLlm(cfg) ==> run.result == Summary(""))
            && (run.prompts == [] <==> d == "" || !UsesLlm(cfg))
            && |run.prompts| <= MaxChunks(cfg) + 1
  {
    var d := Document(fullText, abstractText);
    if d != "" && UsesLlm(cfg) {
      DocumentRunCalls(cfg, title, Strip(abstractText), d, ask);
    }
  }

  /** Once there is a document and a model, between one and `MaxChunks + 1` prompts are sent. */
  lemma DocumentRunCalls(cfg: Settings, title: string, abstractText: string, document: string,
                         ask: Prompt -> LlmOutcome)
    ensures var run := DocumentRun(cfg, title, abstractText, document, ask);
            1 <= |run.prompts| <= MaxChunks(cfg) + 1
  {
    var segments := Chunks(cfg, document);
    if |segments| > 1 {
      var parts := PartPrompts(title, segments, MaxChunks(cfg));
      NotesAfterStopAtFailure(parts, ask, |parts|);
    }
  }

  /** A document that fits one window is sent whole, in a single call. */
  lemma SingleCall(cfg: Settings, title: string, abstractText: string, fullText: Option<string>,
                   ask: Prompt -> LlmOutcome)
    requires UsesLlm(cfg)
    requires var d := Document(fullText, abstractText); d != "" && |d| <= ChunkSize(cfg)
    ensures var d := Document(fullText, abstractText);
            var run := Summarization(cfg, title, abstractText, fullText, ask);
            run.prompts == [WholePrompt(title, d)] && run.result == ResultOf(ask(WholePrompt(title, d)))
  {
    ShortDocument(cfg, Document(fullText, abstractText));
  }

  /**
   * A document longer than one window: one part call per leading chunk, in
   * chunk order and at most `MaxChunks` of them, until a call raises; then
   * one fallback call on the whole document when every part reply was empty,
   * and otherwise one consolidation call on the stripped notes.
   */
  lemma MultiChunkCalls(cfg: Settings, title: string, abstractText: string, document: string,
                        ask: Prompt -> LlmOutcome)
    requires IsStripped(document) && |document| > ChunkSize(cfg)
    ensures var segments := Chunks(cfg, document);
            var parts := PartPrompts(title, segments, MaxChunks(cfg));
            var notes := PartNotes(parts, ask);
            var run := DocumentRun(cfg, title, abstractText, document, ask);
            var allEmpty := forall j :: 0 <= j < |parts| ==> ask(parts[j]) == LlmText("");
            && |segments| >= 2 && 1 <= |parts| <= MaxChunks(cfg)
            && (forall i :: 0 <= i < |parts| ==> parts[i] == PartPrompt(title, i + 1, |segments|, MaxChunks(cfg), segments[i]))
            && (notes.failed ==>
                  && run.result == SummaryFailed
                  && 1 <= |run.prompts| <= |parts| && run.prompts == parts[..|run.prompts|]
                  && ask(run.prompts[|run.prompts| - 1]).LlmFailed?)
            && (!notes.failed && allEmpty ==> run.prompts == parts + [FallbackPrompt(title, document)])
            && (!notes.failed && !allEmpty ==>
                  run.prompts == parts + [MergePrompt(title, Join(notes.notes, "\n\n"),
                                                      if abstractText != "" then Some(abstractText) else None)])
  {
    var segments := Chunks(cfg, document);
    LongDocument(cfg, document);
    var parts := PartPrompts(title, segments, MaxChunks(cfg));
    PartPromptsAt(title, segments, MaxChunks(cfg));
    NotesAfterStopAtFailure(parts, ask, |parts|);
    NotesAfterEmpty(parts, ask, |parts|);
  }

  /**
   * The loop of `summarize` over the leading `limit` segments: one prompt per
   * segment, keeping each non-empty reply stripped, until a call raises.
   */
  method SendParts(title: string, segments: seq<string>, limit: nat, ask: Prompt -> LlmOutcome)
    returns (notes: seq<string>, failed: bool, sent: seq<Prompt>)
    ensures var parts := PartPrompts(title, segments, limit);
            var run := PartNotes(parts, ask);
            notes == run.notes && failed == run.failed && sent == parts[..run.sent]
  {
    var total := |segments|;
    var limited := segments[..if total < limit then total else limit];
    ghost var parts := PartPrompts(title, segments, limit);
    notes := [];
    sent := [];
    for i := 0 to |limited|
      invariant sent == PromptsUpTo(title, segments, limit, i)
      invariant NotesAfter(parts, ask, i) == NotesRun(notes, false, i)
    {
      var p := PartPrompt(title, i + 1, total, limit, limited[i]);
      sent := sent + [p];
      PromptsUpToAt(title, segments, limit, |parts|, i);
      var summary := ask(p);
      if summary.LlmFailed? {
        StopAfter(title, segments, limit, ask, i);
        return notes, true, sent;
      }
      if summary.text != "" {
        notes := notes + [Strip(summary.text)];
      }
    }
    failed := false;
  }

  /** When call `i` raises, the run ends there, having sent the first `i + 1` prompts. */
  lemma StopAfter(title: string, segments: seq<string>, limit: nat, ask: Prompt -> LlmOutcome, i: nat)
    requires i < |PartPrompts(title, segments, limit)|
    requires NotesAfter(PartPrompts(title, segments, limit), ask, i + 1).failed
    ensures var parts := PartPrompts(title, segments, limit);
            && PartNotes(parts, ask) == NotesAfter(parts, ask, i + 1)
            && parts[..i + 1] == PromptsUpTo(title, segments, limit, i + 1)
  {
    var parts := PartPrompts(title, segments, limit);
    NotesAfterStays(parts, ask, i + 1, |parts|);
    PrefixOfPrompts(title, segments, limit, i + 1, |parts|);
  }

  /** The prompts for fewer segments are a prefix of those for more. */
  lemma {:induction false} PrefixOfPrompts(title: string, segments: seq<string>, limit: nat, j: nat, k: nat)
    requires j <= k <= |segments|
    ensures PromptsUpTo(title, segments, limit, k)[..j] == PromptsUpTo(title, segments, limit, j)
    decreases k
  {
    if j < k {
      PrefixOfPrompts(title, segments, limit, j, k - 1);
      var ps := PromptsUpTo(title, segments, limit, k);
      assert ps[..k - 1] == PromptsUpTo(title, segments, limit, k - 1);
      assert ps[..j] == ps[..k - 1][..j];
    } else {
      assert PromptsUpTo(title, segments, limit, k)[..k] == PromptsUpTo(title, segments, limit, k);
    }
  }

  /** `summarize`. */
  method Summarize(cfg: Settings, title: string, abstractText: string, fullText: Option<string>,
                   ask: Prompt -> LlmOutcome)
    returns (result: SummaryResult, prompts: seq<Prompt>)
    ensures SummaryRun(result, prompts) == Summarization(cfg, title, abstractText, fullText, ask)
  {
    var document := Strip(fullText.GetOr(""));
    var abstractStripped := Strip(abstractText);
    if document == "" {
      document := abstractStripped;
    }
    if document == "" {
      return Summary(""), [];
    }
    if !UsesLlm(cfg) {
      return Summary(""), [];
    }
    result, prompts := SummarizeDocument(cfg, title, abstractStripped, document, ask);
  }

  /** The part of `summarize` after the early returns: chunk, ask, consolidate. */
  method SummarizeDocument(cfg: Settings, title: string, abstractText: string, document: string,
                           ask: Prompt -> LlmOutcome)
    returns (result: SummaryResult, prompts: seq<Prompt>)
    ensures SummaryRun(result, prompts) == DocumentRun(cfg, title, abstractText, document, ask)
  {
    var segments := ChunkText(cfg, document);
    if |segments| <= 1 {
      var p := WholePrompt(title, if segments != [] then segments[0] else document);
      return ResultOf(ask(p)), [p];
    }
    var summaries, failed;
    summaries, failed, prompts := SendParts(title, segments, MaxChunks(cfg), ask);
    if failed {
      return SummaryFailed, prompts;
    }
    if summaries == [] {
      var p := FallbackPrompt(title, document);
      return ResultOf(ask(p)), prompts + [p];
    }
    var combined := Join(summaries, "\n\n");
    var p := MergePrompt(title, combined, if abstractText != "" then Some(abstractText) else None);
    return ResultOf(ask(p)), prompts + [p];
  }
}
