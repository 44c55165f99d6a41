/** The application settings the pipeline reads (backend/config.py). */
module Config {
  import opened Wrappers
  import opened Text

  /** The subset of `Settings` that the modelled components consult. */
  datatype Settings = Settings(
    arxiv_categories: seq<string>,
    max_results_per_category: int,
    llm_api_key: Option<string>,
    llm_model: string,
    summary_sentence_count: int,
    summary_language: string,
    full_text_chunk_chars: int,
    full_text_chunk_overlap: int,
    full_text_max_chunks: int)

  const DefaultCategories: seq<string> := ["cs.DC", "cs.OS", "cs.AR"]

  /** The field defaults, with no environment overrides. */
  const DefaultSettings: Settings :=
    Settings(DefaultCategories, 25, None, "qwen-plus", 5, "zh", 6000, 500, 6)

  /** The raw value the `arxiv_categories` validator receives. */
  datatype CategoriesSetting = Unset | CommaSeparated(text: string) | CodeList(codes: seq<string>)

  /** `Settings._split_categories`. */
  function SplitCategories(v: CategoriesSetting): (r: seq<string>)
    ensures v.Unset? ==> r == DefaultCategories
    ensures v.CodeList? ==> r == v.codes
    ensures v.CommaSeparated? ==> forall c :: c in r ==> c != "" && IsStripped(c) && ',' !in c
    ensures v.CommaSeparated? && IsBlank(v.text) ==> r == []
  {
    match v
    case Unset => DefaultCategories
    case CommaSeparated(s) => SplitClean(s, ',')
    case CodeList(codes) => codes
  }

  /** Writing clean codes comma-separated in the environment gives them back. */
  lemma CategoriesSettingRoundTrip(codes: seq<string>)
    requires forall c :: c in codes ==> c != "" && IsStripped(c) && ',' !in c
    ensures SplitCategories(CommaSeparated(Join(codes, ","))) == codes
  {
    if codes == [] {
      assert Split("", ',') == [""];
      assert CleanPieces([""]) == [];
    } else {
      SplitJoin(codes, ',');
      CleanPiecesOfClean(codes);
    }
  }
}
