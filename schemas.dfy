/** The list-field validators of the API schema `PaperOut` (backend/schemas.py). */
module Schemas {
  import opened Text

  /** What a validator receives: a list (already decoded), a stored string, or `None`. */
  datatype FieldValue = ListValue(items: seq<string>) | TextValue(text: string) | NullValue

  /** Python truthiness of the value when it is not a list. */
  predicate Falsy(v: FieldValue) {
    v.NullValue? || v == TextValue("")
  }

  /** The shared shape of the three validators: lists pass through, falsy is empty, text is split. */
  function ParseDelimited(v: FieldValue, sep: char): (r: seq<string>)
    ensures v.ListValue? ==> r == v.items
    ensures Falsy(v) ==> r == []
    ensures v.TextValue? ==> forall p :: p in r ==> p != "" && IsStripped(p) && sep !in p
  {
    match v
    case ListValue(items) => items
    case NullValue => []
    case TextValue(s) => if s == "" then [] else SplitClean(s, sep)
  }

  /** `PaperOut._parse_authors`. */
  function ParseAuthors(v: FieldValue): (r: seq<string>)
    ensures v.ListValue? ==> r == v.items
    ensures Falsy(v) ==> r == []
    ensures v.TextValue? ==> forall a :: a in r ==> a != "" && IsStripped(a) && ';' !in a
  {
    ParseDelimited(v, ';')
  }

  /** `PaperOut._parse_categories`. */
  function ParseCategories(v: FieldValue): (r: seq<string>)
    ensures v.ListValue? ==> r == v.items
    ensures Falsy(v) ==> r == []
    ensures v.TextValue? ==> forall c :: c in r ==> c != "" && IsStripped(c) && ',' !in c
  {
    ParseDelimited(v, ',')
  }

  /**
   * `PaperOut._parse_affiliations`. The source writes this validator with the
   * same code as `_parse_authors`, so the two members are deliberately alike.
   */
  function ParseAffiliations(v: FieldValue): (r: seq<string>)
    ensures v.ListValue? ==> r == v.items
    ensures Falsy(v) ==> r == []
    ensures v.TextValue? ==> forall a :: a in r ==> a != "" && IsStripped(a) && ';' !in a
  {
    ParseDelimited(v, ';')
  }

  /** Decoding a stored `sep`-join of clean pieces gives the pieces back. */
  lemma DelimitedRoundTrip(xs: seq<string>, sep: char)
    requires forall x :: x in xs ==> x != "" && IsStripped(x) && sep !in x
    ensures ParseDelimited(TextValue(Join(xs, [sep])), sep) == xs
  {
    if xs != [] {
      SplitJoin(xs, sep);
      CleanPiecesOfClean(xs);
    }
  }

  /** Authors stored as `";".join(names)` read back as the same names. */
  lemma AuthorsRoundTrip(names: seq<string>)
    requires forall a :: a in names ==> a != "" && IsStripped(a) && ';' !in a
    ensures ParseAuthors(TextValue(Join(names, ";"))) == names
  {
    DelimitedRoundTrip(names, ';');
  }

  /** Categories stored as `",".join(codes)` read back as the same codes. */
  lemma CategoriesRoundTrip(codes: seq<string>)
    requires forall c :: c in codes ==> c != "" && IsStripped(c) && ',' !in c
    ensures ParseCategories(TextValue(Join(codes, ","))) == codes
  {
    DelimitedRoundTrip(codes, ',');
  }

  /**
   * Affiliations are stored positionally (an author without one leaves an
   * empty slot), but decoding drops empty slots: two authors, the second
   * without affiliation, read back as a one-element list.
   */
  lemma AffiliationsLoseAlignment(known: string)
    requires known != "" && IsStripped(known) && ';' !in known
    ensures ParseAffiliations(TextValue(Join([known, ""], ";"))) == [known]
  {
    var stored := Join([known, ""], ";");
    assert [known, ""][1..] == [""];
    assert Join([""], ";") == "";
    assert ";" == [';'];
    assert stored == known + [';'] + "";
    SplitAfterSep(known, "", ';');
    CleanPiecesOfClean([known]);
    CleanPiecesAppend([known], [""]);
    assert [known] + [""] == [known, ""];
  }
}
