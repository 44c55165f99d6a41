/** The persisted paper entity (backend/models.py). */
module Models {
  import opened Wrappers
  import opened Text

  /** The content of one row of the `papers` table, minus its surrogate key. */
  datatype PaperRow = PaperRow(
    arxiv_id: string,
    title: string,
    authors: string,
    author_affiliations: Option<string>,
    abstract_text: string,
    summary: Option<string>,
    summary_model: Option<string>,
    summary_language: Option<string>,
    categories: string,
    link: string,
    pdf_url: Option<string>,
    published_at: int,
    updated_at: int,
    created_at: int,
    last_summarized_at: Option<int>)

  /** A mapped `Paper` object; the unique `arxiv_id` is fixed at construction. */
  class Paper {
    const arxiv_id: string
    var title: string
    var authors: string
    var author_affiliations: Option<string>
    var abstract_text: string
    var summary: Option<string>
    var summary_model: Option<string>
    var summary_language: Option<string>
    var categories: string
    var link: string
    var pdf_url: Option<string>
    var published_at: int
    var updated_at: int
    var created_at: int
    var last_summarized_at: Option<int>

    function Row(): PaperRow
      reads this
    {
      PaperRow(arxiv_id, title, authors, author_affiliations, abstract_text, summary, summary_model,
               summary_language, categories, link, pdf_url, published_at, updated_at, created_at,
               last_summarized_at)
    }

    constructor (row: PaperRow)
      ensures Row() == row
    {
      arxiv_id := row.arxiv_id;
      title := row.title;
      authors := row.authors;
      author_affiliations := row.author_affiliations;
      abstract_text := row.abstract_text;
      summary := row.summary;
      summary_model := row.summary_model;
      summary_language := row.summary_language;
      categories := row.categories;
      link := row.link;
      pdf_url := row.pdf_url;
      published_at := row.published_at;
      updated_at := row.updated_at;
      created_at := row.created_at;
      last_summarized_at := row.last_summarized_at;
    }

    /** `category_list()`: the codes stored comma-separated. */
    function CategoryList(): (r: seq<string>)
      reads this
      ensures forall c :: c in r ==> c != "" && IsStripped(c) && ',' !in c
      ensures IsBlank(categories) ==> r == []
    {
      SplitClean(categories, ',')
    }

    /** `author_list()`: the names stored semicolon-separated. */
    function AuthorList(): (r: seq<string>)
      reads this
      ensures forall a :: a in r ==> a != "" && IsStripped(a) && ';' !in a
      ensures IsBlank(authors) ==> r == []
    {
      SplitClean(authors, ';')
    }

    /** `affiliation_list()`: a missing column reads as the empty string. */
    function AffiliationList(): (r: seq<string>)
      reads this
      ensures author_affiliations.None? ==> r == []
      ensures forall a :: a in r ==> a != "" && IsStripped(a) && ';' !in a
    {
      BlankSplitClean("", ';');
      SplitClean(author_affiliations.GetOr(""), ';')
    }

    /** `mark_summarized`: records a successful summary; `now` is the clock reading. */
    method MarkSummarized(text: string, model: string, language: Option<string>, now: int)
      modifies this
      ensures Row() == old(Row()).(summary := Some(text), summary_model := Some(model),
                                   summary_language := language, last_summarized_at := Some(now))
    {
      summary := Some(text);
      summary_model := Some(model);
      summary_language := language;
      last_summarized_at := Some(now);
    }
  }
}
