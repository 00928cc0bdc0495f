/**
  `parse_pubmed_xml`: every `PubmedArticle` element of every fetched page becomes one
  flat record of nine fields. The pages arrive already parsed into element trees.
*/
module Normalize {
  import opened Wrappers
  import opened Strings
  import opened Filters
  import opened ElementTree

  /** One output row; the fields are the CSV columns, in order. `None` stands for a
      missing value (a lookup that found no element). */
  datatype Record = Record(
    pmid: Option<string>,
    title: Option<string>,
    abstractText: string,
    authors: string,
    affiliation: string,
    year: string,
    keywords: string,
    journal: Option<string>,
    doi: Option<string>)

  // ------------------------------------------------------------ the fields

  /** The author has a non-empty `LastName` text. */
  predicate KeepsAuthor(a: Elem) {
    Truthy(FindText(a, Child("LastName")))
  }

  /** An author's name: the given name, one blank and the family name (each `""` when
      missing), with surrounding whitespace removed by `strip()`. */
  function AuthorName(a: Elem): string {
    Strip(FindTextOr(a, Child("ForeName"), "") + " " + FindTextOr(a, Child("LastName"), ""))
  }

  /** The names of the kept authors, in document order. */
  function AuthorNames(article: Elem): seq<string> {
    var kept := Filter(FindAll(article, Descendant("Author")), KeepsAuthor);
    seq(|kept|, i requires 0 <= i < |kept| => AuthorName(kept[i]))
  }

  /** The text of every `AbstractText`, in document order, `""` for one without text. */
  function AbstractParts(article: Elem): seq<string> {
    var parts := FindAll(article, Descendant("AbstractText"));
    seq(|parts|, i requires 0 <= i < |parts| => parts[i].text.GetOr(""))
  }

  predicate HasAffiliation(a: Elem) {
    Truthy(FindText(a, Child("Affiliation")))
  }

  /** The non-empty `Affiliation` texts of the `AffiliationInfo` elements, in document order. */
  function Affiliations(article: Elem): seq<string> {
    var kept := Filter(FindAll(article, Descendant("AffiliationInfo")), HasAffiliation);
    seq(|kept|, i requires 0 <= i < |kept| => FindTextOr(kept[i], Child("Affiliation"), ""))
  }

  predicate HasText(e: Elem) {
    Truthy(e.text)
  }

  /** The non-empty texts of the `Keyword` elements, in document order. */
  function Keywords(article: Elem): seq<string> {
    var kept := Filter(FindAll(article, Descendant("Keyword")), HasText);
    seq(|kept|, i requires 0 <= i < |kept| => kept[i].text.GetOr(""))
  }

  /** The publication date text: the `PubDate/Year` text when it is non-empty, else the
      `PubDate/MedlineDate` text when that is non-empty, else `""`. */
  function PubDate(article: Elem): string {
    var year := FindText(article, DescendantChild("PubDate", "Year"));
    var medline := FindText(article, DescendantChild("PubDate", "MedlineDate"));
    if Truthy(year) then year.value else if Truthy(medline) then medline.value else ""
  }

  /** The year: the first four characters of the publication date, `""` when it is empty. */
  function Year(article: Elem): string {
    var pubDate := PubDate(article);
    if pubDate != "" then Prefix(pubDate, 4) else ""
  }

  /** An `ArticleId` whose `IdType` attribute is present and equal to "doi". */
  predicate IsDoiId(e: Elem) {
    "IdType" in e.attrs && e.attrs["IdType"] == "doi"
  }

  /** The value the DOI loop leaves behind: the text of the last doi-typed element,
      `Some("")` when there is none. */
  function LastDoi(ids: seq<Elem>): Option<string> {
    if ids == [] then Some("")
    else if IsDoiId(ids[|ids| - 1]) then ids[|ids| - 1].text
    else LastDoi(ids[..|ids| - 1])
  }

  /** The whole record of one article. */
  function RecordOf(article: Elem): Record {
    Record(
      FindText(article, Descendant("PMID")),
      FindText(article, Descendant("ArticleTitle")),
      Join(AbstractParts(article), " "),
      Join(AuthorNames(article), ", "),
      Join(Affiliations(article), "; "),
      Year(article),
      Join(Keywords(article), ", "),
      FindText(article, DescendantChild("Journal", "Title")),
      LastDoi(FindAll(article, Descendant("ArticleId"))))
  }

  /** The articles of one page: its `PubmedArticle` descendants, in document order. */
  function Articles(root: Elem): seq<Elem> {
    FindAll(root, Descendant("PubmedArticle"))
  }

  /** The records of one page, one per article. */
  function PageRecords(root: Elem): seq<Record> {
    var articles := Articles(root);
    seq(|articles|, i requires 0 <= i < |articles| => RecordOf(articles[i]))
  }

  /** The records of all pages, page after page. */
  function RecordsOf(pages: seq<Elem>): seq<Record> {
    if pages == [] then [] else PageRecords(pages[0]) + RecordsOf(pages[1..])
  }

  /** The number of articles in all pages together. */
  function ArticleCount(pages: seq<Elem>): nat {
    if pages == [] then 0 else |Articles(pages[0])| + ArticleCount(pages[1..])
  }

  // ------------------------------------------------------------ the loops

  /** The DOI loop of `parse_pubmed_xml`: start from `""` and overwrite with the text of
      every doi-typed `ArticleId`. */
  method SelectDoi(ids: seq<Elem>) returns (doi: Option<string>)
    ensures doi == LastDoi(ids)
  {
    doi := Some("");
    for i := 0 to |ids|
      invariant doi == LastDoi(ids[..i])
    {
      assert ids[..i + 1][..i] == ids[..i];
      if IsDoiId(ids[i]) {
        doi := ids[i].text;
      }
    }
    assert ids[..|ids|] == ids;
  }

  /** The body of the article loop of `parse_pubmed_xml`: the nine fields of one article. */
  method ExtractRecord(article: Elem) returns (rec: Record)
    ensures rec == RecordOf(article)
  {
    var doi := SelectDoi(FindAll(article, Descendant("ArticleId")));
    rec := Record(
      FindText(article, Descendant("PMID")),
      FindText(article, Descendant("ArticleTitle")),
      Join(AbstractParts(article), " "),
      Join(AuthorNames(article), ", "),
      Join(Affiliations(article), "; "),
      Year(article),
      Join(Keywords(article), ", "),
      FindText(article, DescendantChild("Journal", "Title")),
      doi);
  }

  lemma {:induction false} RecordsOfAppend(xs: seq<Elem>, ys: seq<Elem>)
    ensures RecordsOf(xs + ys) == RecordsOf(xs) + RecordsOf(ys)
  {
    if xs == [] {
      assert xs + ys == ys;
    } else {
      assert (xs + ys)[0] == xs[0];
      assert (xs + ys)[1..] == xs[1..] + ys;
      RecordsOfAppend(xs[1..], ys);
    }
  }

  lemma RecordsOfSnoc(pages: seq<Elem>, page: Elem)
    ensures RecordsOf(pages + [page]) == RecordsOf(pages) + PageRecords(page)
  {
    RecordsOfAppend(pages, [page]);
    assert [page][1..] == [];
    assert PageRecords(page) + [] == PageRecords(page);
  }

  /** The inner loop of `parse_pubmed_xml`: the records of one page's articles, in
      document order. */
  method ParsePage(page: Elem) returns (recs: seq<Record>)
    ensures recs == PageRecords(page)
  {
    var articles := FindAll(page, Descendant("PubmedArticle"));
    ghost var expected := PageRecords(page);
    recs := [];
    for a := 0 to |articles|
      invariant |expected| == |articles|
      invariant recs == expected[..a]
    {
      var rec := ExtractRecord(articles[a]);
      TakeOneMore(expected, a);
      recs := recs + [rec];
    }
    TakeAll(expected);
  }

  /** `parse_pubmed_xml`: for every page in order, for every article in document order,
      append the article's record. */
  method ParsePubmedXml(pages: seq<Elem>) returns (records: seq<Record>)
    ensures records == RecordsOf(pages)
  {
    records := [];
    for c := 0 to |pages|
      invariant records == RecordsOf(pages[..c])
    {
      var pageRecords := ParsePage(pages[c]);
      TakeOneMore(pages, c);
      RecordsOfSnoc(pages[..c], pages[c]);
      records := records + pageRecords;
    }
    TakeAll(pages);
  }

  lemma TakeOneMore<T>(s: seq<T>, n: nat)
    requires n < |s|
    ensures s[..n + 1] == s[..n] + [s[n]]
  {
  }

  lemma TakeAll<T>(s: seq<T>)
    ensures s[..|s|] == s
  {
  }

  // ------------------------------------------------------------ properties

  /** Exactly one record per article, ordered by page and then by document order within
      the page: the `a`-th article of page `c` gives the record at position
      (articles in the pages before `c`) + `a`. */
  lemma RecordCountAndOrder(pages: seq<Elem>, c: nat, a: nat)
    requires c < |pages| && a < |Articles(pages[c])|
    ensures |RecordsOf(pages)| == ArticleCount(pages)
    ensures ArticleCount(pages[..c]) + a < |RecordsOf(pages)|
    ensures RecordsOf(pages)[ArticleCount(pages[..c]) + a] == RecordOf(Articles(pages[c])[a])
  {
    RecordCount(pages);
    PageRecordsInPlace(pages, c, a);
  }

  lemma PageRecordsInPlace(pages: seq<Elem>, c: nat, a: nat)
    requires c < |pages| && a < |PageRecords(pages[c])|
    ensures ArticleCount(pages[..c]) + a < |RecordsOf(pages)|
    ensures RecordsOf(pages)[ArticleCount(pages[..c]) + a] == PageRecords(pages[c])[a]
  {
    var before, after := pages[..c], pages[c + 1..];
    var x, y, z := RecordsOf(before), PageRecords(pages[c]), RecordsOf(after);
    assert RecordsOf(pages) == x + y + z by {
      SplitAround(pages, c);
      RecordsOfAppend(before + [pages[c]], after);
      RecordsOfSnoc(before, pages[c]);
    }
    RecordCount(before);
    IndexInMiddle(x, y, z, a);
  }

  lemma SplitAround<T>(s: seq<T>, n: nat)
    requires n < |s|
    ensures s == s[..n] + [s[n]] + s[n + 1..]
  {
  }

  lemma IndexInMiddle<T>(x: seq<T>, y: seq<T>, z: seq<T>, k: nat)
    requires k < |y|
    ensures |x| + k < |x + y + z| && (x + y + z)[|x| + k] == y[k]
  {
  }

  lemma {:induction false} RecordCount(pages: seq<Elem>)
    ensures |RecordsOf(pages)| == ArticleCount(pages)
  {
    if pages != [] {
      RecordCount(pages[1..]);
    }
  }

  /** Authors: an `Author` counts only when its `LastName` text is non-empty; the kept
      authors' names appear once each, in document order, joined with ", ". */
  lemma AuthorsRule(article: Elem)
    ensures RecordOf(article).authors == Join(AuthorNames(article), ", ")
    ensures var authors := FindAll(article, Descendant("Author"));
      var idx := KeptIndices(authors, KeepsAuthor);
      |AuthorNames(article)| == |idx| && StrictlyIncreasing(idx) &&
      (forall i :: 0 <= i < |idx| ==> idx[i] < |authors| && AuthorNames(article)[i] == AuthorName(authors[idx[i]])) &&
      (forall j :: 0 <= j < |authors| ==> (j in idx <==> KeepsAuthor(authors[j])))
  {
    FilterKeepsAcceptedInOrder(FindAll(article, Descendant("Author")), KeepsAuthor);
  }

  /** Affiliations: the non-empty `Affiliation` texts, in document order, joined with "; ". */
  lemma AffiliationsRule(article: Elem)
    ensures RecordOf(article).affiliation == Join(Affiliations(article), "; ")
    ensures var infos := FindAll(article, Descendant("AffiliationInfo"));
      var idx := KeptIndices(infos, HasAffiliation);
      |Affiliations(article)| == |idx| && StrictlyIncreasing(idx) &&
      (forall i :: 0 <= i < |idx| ==>
        idx[i] < |infos| && Some(Affiliations(article)[i]) == FindText(infos[idx[i]], Child("Affiliation"))) &&
      (forall j :: 0 <= j < |infos| ==> (j in idx <==> HasAffiliation(infos[j])))
  {
    var infos := FindAll(article, Descendant("AffiliationInfo"));
    FilterKeepsAcceptedInOrder(infos, HasAffiliation);
    forall i | 0 <= i < |KeptIndices(infos, HasAffiliation)|
      ensures HasAffiliation(infos[KeptIndices(infos, HasAffiliation)[i]])
    {
      assert KeptIndices(infos, HasAffiliation)[i] in KeptIndices(infos, HasAffiliation);
    }
  }

  /** Keywords: the non-empty `Keyword` texts, in document order, joined with ", ". */
  lemma KeywordsRule(article: Elem)
    ensures RecordOf(article).keywords == Join(Keywords(article), ", ")
    ensures var words := FindAll(article, Descendant("Keyword"));
      var idx := KeptIndices(words, HasText);
      |Keywords(article)| == |idx| && StrictlyIncreasing(idx) &&
      (forall i :: 0 <= i < |idx| ==>
        idx[i] < |words| && Some(Keywords(article)[i]) == words[idx[i]].text && Keywords(article)[i] != "") &&
      (forall j :: 0 <= j < |words| ==> (j in idx <==> HasText(words[j])))
  {
    var words := FindAll(article, Descendant("Keyword"));
    FilterKeepsAcceptedInOrder(words, HasText);
    forall i | 0 <= i < |KeptIndices(words, HasText)|
      ensures HasText(words[KeptIndices(words, HasText)[i]])
    {
      assert KeptIndices(words, HasText)[i] in KeptIndices(words, HasText);
    }
  }

  /** Year: at most four characters, taken from the start of the `PubDate/Year` text, or
      of the `PubDate/MedlineDate` text when the year is missing or empty, or empty when
      both are. The characters are not checked to be digits. */
  lemma YearRule(article: Elem)
    ensures |RecordOf(article).year| <= 4
    ensures var year := FindText(article, DescendantChild("PubDate", "Year"));
      var medline := FindText(article, DescendantChild("PubDate", "MedlineDate"));
      var r := RecordOf(article).year;
      (Truthy(year) ==> r <= year.value && |r| == (if |year.value| < 4 then |year.value| else 4)) &&
      (!Truthy(year) && Truthy(medline) ==> r <= medline.value && |r| == (if |medline.value| < 4 then |medline.value| else 4)) &&
      (!Truthy(year) && !Truthy(medline) ==> r == "")
  {
  }

  /** DOI: the text of the last `ArticleId` whose `IdType` is "doi" (`None` when that element
      has no text), and "" when there is no such element. */
  lemma {:induction false} LastDoiRule(ids: seq<Elem>)
    ensures (forall j :: 0 <= j < |ids| ==> !IsDoiId(ids[j])) ==> LastDoi(ids) == Some("")
    ensures forall k :: 0 <= k < |ids| && IsDoiId(ids[k]) && (forall j :: k < j < |ids| ==> !IsDoiId(ids[j])) ==>
      LastDoi(ids) == ids[k].text
  {
    if ids != [] {
      var init := ids[..|ids| - 1];
      LastDoiRule(init);
      forall k | 0 <= k < |ids| && IsDoiId(ids[k]) && (forall j :: k < j < |ids| ==> !IsDoiId(ids[j]))
        ensures LastDoi(ids) == ids[k].text
      {
        if k < |ids| - 1 {
          assert init[k] == ids[k];
          forall j | k < j < |init| ensures !IsDoiId(init[j]) { assert init[j] == ids[j]; }
        }
      }
      if forall j :: 0 <= j < |ids| ==> !IsDoiId(ids[j]) {
        forall j | 0 <= j < |init| ensures !IsDoiId(init[j]) { assert init[j] == ids[j]; }
      }
    }
  }

  /** Abstract: two segments "Background." and "Methods." give "Background. Methods.". */
  lemma AbstractOfTwoSegments(article: Elem, first: Elem, second: Elem)
    requires FindAll(article, Descendant("AbstractText")) == [first, second]
    requires first.text == Some("Background.") && second.text == Some("Methods.")
    ensures RecordOf(article).abstractText == "Background. Methods."
  {
    TwoParts(article, first, second);
    JoinTwo("Background.", "Methods.", " ");
    assert "Background." + " " + "Methods." == "Background. Methods.";
  }

  /** A missing `AbstractText` text counts as an empty segment, so the separator stays. */
  lemma AbstractKeepsEmptySegments(article: Elem, first: Elem, second: Elem)
    requires FindAll(article, Descendant("AbstractText")) == [first, second]
    requires first.text == None
    ensures RecordOf(article).abstractText == " " + second.text.GetOr("")
  {
    TwoParts(article, first, second);
    JoinTwo("", second.text.GetOr(""), " ");
    assert "" + " " == " ";
  }

  lemma TwoParts(article: Elem, first: Elem, second: Elem)
    requires FindAll(article, Descendant("AbstractText")) == [first, second]
    ensures AbstractParts(article) == [first.text.GetOr(""), second.text.GetOr("")]
  {
  }

  /** DOI: with a "pmc" id followed by a "doi" id "10.1/x", the DOI is "10.1/x". */
  lemma DoiAmongOtherIds(article: Elem, pmc: Elem, doi: Elem)
    requires FindAll(article, Descendant("ArticleId")) == [pmc, doi]
    requires pmc.attrs == map["IdType" := "pmc"] && doi.attrs == map["IdType" := "doi"]
    requires doi.text == Some("10.1/x")
    ensures RecordOf(article).doi == Some("10.1/x")
  {
  }

  /** Author names: "<given> <family>" with the surrounding whitespace stripped; an author
      without a given name is just the family name. */
  lemma AuthorNameFormat(a: Elem, given: string, family: string)
    requires FindText(a, Child("LastName")) == Some(family) && family != ""
    requires FindTextOr(a, Child("ForeName"), "") == given
    requires Unpadded(given) && Unpadded(family)
    ensures KeepsAuthor(a)
    ensures AuthorName(a) == if given == "" then family else given + " " + family
  {
    StripSpaced(given, family);
  }

  /** The example author: ForeName "Jane" and LastName "Doe" give "Jane Doe". */
  lemma JaneDoe(a: Elem)
    requires FindText(a, Child("ForeName")) == Some("Jane")
    requires FindText(a, Child("LastName")) == Some("Doe")
    ensures KeepsAuthor(a) && AuthorName(a) == "Jane Doe"
  {
    var given: string, family: string := "Jane", "Doe";
    assert FindTextOr(a, Child("ForeName"), "") == given;
    SpacedLiteral(given, family, "Jane Doe");
    AuthorNameFormat(a, given, family);
  }
}
