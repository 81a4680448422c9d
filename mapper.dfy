/** Projecting a `<PubmedArticle>` element onto an `Article` record
    (pubmed_mapper.py:60-122, 488-857) and fetching one by PMID
    (pubmed_mapper.py:859-875).

    Every builder is an expression over the element tree. The only failures
    are the ones Python raises: `xs[0]` on an empty XPath result
    (`IndexError`) and whatever `parse_pubdate` raises. */
module Mapper {
  import opened Wrappers
  import opened PyBuiltins
  import opened Calendar
  import opened Xml
  import opened Pubdate

  /** An `<ArticleId IdType="doi">10.1/x</ArticleId>`. */
  datatype ArticleId = ArticleId(idType: Option<string>, idValue: Option<string>)

  /** A MeSH descriptor or a publication type: the `UI` attribute and the
      element's text. */
  datatype Descriptor = Descriptor(ui: Option<string>, name: Option<string>)

  datatype Journal = Journal(issn: Option<string>, issnType: Option<string>, title: string, abbr: string)

  datatype Reference = Reference(citation: string, ids: seq<ArticleId>)

  datatype Author = Author(
    lastName: Option<string>,
    forename: Option<string>,
    initials: Option<string>,
    affiliation: Option<string>)

  datatype Article = Article(
    pmid: string,
    ids: seq<ArticleId>,
    title: string,
    abstractText: string,
    keywords: seq<string>,
    meshHeadings: seq<Descriptor>,
    authors: seq<Author>,
    journal: Journal,
    publications: seq<Descriptor>,
    volume: Option<string>,
    issue: Option<string>,
    references: seq<Reference>,
    pubdate: Date,
    page: string,
    language: string,
    country: string)

  /** `ArticleId.parse_element` */
  function ArticleIdOf(e: Element): ArticleId {
    ArticleId(Attr(e, "IdType"), e.text)
  }

  /** `Mesh.parse_element` and `Publication.parse_element`, which read the
      same two things. */
  function DescriptorOf(e: Element): Descriptor {
    Descriptor(Attr(e, "UI"), e.text)
  }

  /** `[ArticleId.parse_element(x) for x in es]` */
  function ArticleIdsOf(es: seq<Element>): (r: seq<ArticleId>)
    ensures |r| == |es|
    ensures forall i :: 0 <= i < |es| ==> r[i] == ArticleIdOf(es[i])
  {
    seq(|es|, i requires 0 <= i < |es| => ArticleIdOf(es[i]))
  }

  function DescriptorsOf(es: seq<Element>): (r: seq<Descriptor>)
    ensures |r| == |es|
    ensures forall i :: 0 <= i < |es| ==> r[i] == DescriptorOf(es[i])
  {
    seq(|es|, i requires 0 <= i < |es| => DescriptorOf(es[i]))
  }

  /** `Journal.parse_element`: ISSN and its type are optional, Title and
      ISOAbbreviation are read with `[0]`. */
  function JournalOf(e: Element): (r: Result<Journal, PyError>)
    ensures r.Ok? <==> TextAt(e, ["Title"]) != [] && TextAt(e, ["ISOAbbreviation"]) != []
    ensures r.Err? ==> r.error == IndexError
    ensures r.Ok? ==> r.value.issnType.Some? ==> Select(e, ["ISSN"]) != []
  {
    var issn := FirstTextAt(e, ["ISSN"]);
    var issnElement := FirstAt(e, ["ISSN"]);
    var issnType := if issnElement.None? then None else Attr(issnElement.value, "IssnType");
    var title :- Index0(TextAt(e, ["Title"]));
    var abbr :- Index0(TextAt(e, ["ISOAbbreviation"]));
    Ok(Journal(issn, issnType, title, abbr))
  }

  /** `Reference.parse_element`: the citation is read with `[0]`. */
  function ReferenceOf(e: Element): (r: Result<Reference, PyError>)
    ensures r.Ok? <==> TextAt(e, ["Citation"]) != []
    ensures r.Err? ==> r.error == IndexError
    ensures r.Ok? ==> r.value.citation == TextAt(e, ["Citation"])[0]
  {
    var citation :- Index0(TextAt(e, ["Citation"]));
    Ok(Reference(citation, ArticleIdsOf(Select(e, ["ArticleIdList", "ArticleId"]))))
  }

  /** `[Reference.parse_element(x) for x in es]`: the first reference
      without a citation raises. */
  function ReferencesOf(es: seq<Element>): (r: Result<seq<Reference>, PyError>)
    ensures r.Ok? <==> forall i :: 0 <= i < |es| ==> ReferenceOf(es[i]).Ok?
    ensures r.Err? ==> r.error == IndexError
    ensures r.Ok? ==> |r.value| == |es| && forall i :: 0 <= i < |es| ==> r.value[i] == ReferenceOf(es[i]).value
    decreases |es|
  {
    if es == [] then Ok([])
    else
      match ReferenceOf(es[0])
      case Err(x) => Err(x)
      case Ok(first) =>
        match ReferencesOf(es[1..])
        case Err(x) =>
          ShiftedIndex(es);
          Err(x)
        case Ok(rest) =>
          ShiftedIndex(es);
          ShiftedIndex([first] + rest);
          Ok([first] + rest)
  }

  /** Position `i` of a non-empty sequence's tail is position `i + 1` of
      the sequence. */
  lemma ShiftedIndex<T>(s: seq<T>)
    requires s != []
    ensures forall i :: 1 <= i < |s| ==> s[i] == s[1..][i - 1]
  {
  }

  /** `Author.parse_element`: every field is optional. */
  function AuthorOf(e: Element): Author {
    Author(
      FirstTextAt(e, ["LastName"]),
      FirstTextAt(e, ["ForeName"]),
      FirstTextAt(e, ["Initials"]),
      FirstTextAt(e, ["AffiliationInfo", "Affiliation"]))
  }

  function AuthorsOf(es: seq<Element>): (r: seq<Author>)
    ensures |r| == |es|
    ensures forall i :: 0 <= i < |es| ==> r[i] == AuthorOf(es[i])
  {
    seq(|es|, i requires 0 <= i < |es| => AuthorOf(es[i]))
  }

  /** The sub-title of an abstract paragraph: the capitalised label and a
      colon, or nothing when the label is missing or empty. */
  function SubTitle(heading: Option<string>): (r: string)
    ensures r == "" <==> heading.None? || heading.value == ""
    ensures r != "" ==> |r| == |heading.value| + 1 && r[0] == UpperChar(heading.value[0]) && r[|r| - 1] == ':'
  {
    if heading.Some? && heading.value != "" then Capitalize(heading.value) + ":" else ""
  }

  /** One `<AbstractText>` as `parse_abstract` renders it. */
  function Paragraph(x: Element): string {
    SubTitle(Attr(x, "Label")) + InnerHtml(Some(x), true)
  }

  function Paragraphs(xs: seq<Element>): seq<string> {
    seq(|xs|, i requires 0 <= i < |xs| => Paragraph(xs[i]))
  }

  const ABSTRACT_PATH := ["MedlineCitation", "Article", "Abstract", "AbstractText"]

  /** `parse_abstract(element)` */
  function AbstractOf(e: Element): string {
    Join(Paragraphs(Select(e, ABSTRACT_PATH)))
  }

  /** The body of the loop of `parse_abstract`: sub-title, then the
      paragraph's inner html. */
  method RenderParagraph(x: Element) returns (p: string)
    ensures p == Paragraph(x)
  {
    var heading := Attr(x, "Label");
    var subTitle := "";
    if heading.Some? && heading.value != "" {
      subTitle := Capitalize(heading.value) + ":";
    }
    var body := GetInnerHtml(Some(x), true);
    p := subTitle + body;
  }

  /** `parse_abstract(element)`: the paragraphs under
      Abstract/AbstractText, rendered and concatenated. */
  method ParseAbstract(e: Element) returns (r: string)
    ensures r == AbstractOf(e)
  {
    r := RenderParagraphs(Select(e, ABSTRACT_PATH));
  }

  /** The loop of `parse_abstract`, appending one paragraph per
      `<AbstractText>`. */
  method RenderParagraphs(xs: seq<Element>) returns (r: string)
    ensures r == Join(Paragraphs(xs))
  {
    var paragraphs: seq<string> := [];
    for i := 0 to |xs|
      invariant paragraphs == Paragraphs(xs)[..i]
    {
      var p := RenderParagraph(xs[i]);
      paragraphs := paragraphs + [p];
      PrefixStep(Paragraphs(xs), i);
    }
    assert Paragraphs(xs)[..|xs|] == Paragraphs(xs);
    r := Join(paragraphs);
  }

  lemma PrefixStep<T>(s: seq<T>, i: nat)
    requires i < |s|
    ensures s[..i + 1] == s[..i] + [s[i]]
  {
  }

  /** Each element gives its paragraph in document order. */
  lemma ParagraphsAppend(xs: seq<Element>, ys: seq<Element>)
    ensures Paragraphs(xs + ys) == Paragraphs(xs) + Paragraphs(ys)
  {
    var ps := Paragraphs(xs + ys);
    var qs := Paragraphs(xs) + Paragraphs(ys);
    assert |ps| == |qs|;
    forall i | 0 <= i < |ps|
      ensures ps[i] == qs[i]
    {
      if i < |xs| {
        assert (xs + ys)[i] == xs[i];
      } else {
        assert (xs + ys)[i] == ys[i - |xs|];
      }
    }
  }

  /** Paragraphs follow document order and are joined with no separator:
      the abstract of a split list is the two abstracts one after the
      other. */
  lemma AbstractSplits(xs: seq<Element>, ys: seq<Element>)
    ensures Join(Paragraphs(xs + ys)) == Join(Paragraphs(xs)) + Join(Paragraphs(ys))
  {
    ParagraphsAppend(xs, ys);
    JoinAppend(Paragraphs(xs), Paragraphs(ys));
  }

  /** A labelled paragraph starts with the capitalised label and a colon;
      an unlabelled one is the element's stripped text alone. */
  lemma ParagraphHead(x: Element)
    ensures Attr(x, "Label").Some? && Attr(x, "Label").value != "" ==>
      var l := Attr(x, "Label").value;
      |Paragraph(x)| > |l| && Paragraph(x)[..|l| + 1] == Capitalize(l) + ":"
    ensures Attr(x, "Label").None? || Attr(x, "Label").value == "" ==>
      Paragraph(x) == InnerHtml(Some(x), true)
  {
    if Attr(x, "Label").Some? && Attr(x, "Label").value != "" {
      var l := Attr(x, "Label").value;
      var head := Capitalize(l) + ":";
      assert Paragraph(x) == head + InnerHtml(Some(x), true);
      assert Paragraph(x)[..|l| + 1] == head;
    }
  }

  const PMID_PATH := ["MedlineCitation", "PMID"]
  const IDS_PATH := ["PubmedData", "ArticleIdList", "ArticleId"]
  const TITLE_PATH := ["MedlineCitation", "Article", "ArticleTitle"]
  const KEYWORDS_PATH := ["MedlineCitation", "KeywordList", "Keyword"]
  const MESH_PATH := ["MedlineCitation", "MeshHeadingList", "MeshHeading", "DescriptorName"]
  const AUTHORS_PATH := ["MedlineCitation", "Article", "AuthorList", "Author"]
  const JOURNAL_PATH := ["MedlineCitation", "Article", "Journal"]
  const PUBLICATION_PATH := ["MedlineCitation", "Article", "PublicationTypeList", "PublicationType"]
  const VOLUME_PATH := ["MedlineCitation", "Article", "Journal", "JournalIssue", "Volume"]
  const ISSUE_PATH := ["MedlineCitation", "Article", "Journal", "JournalIssue", "Issue"]
  const REFERENCES_PATH := ["PubmedData", "ReferenceList", "Reference"]
  const PAGE_PATH := ["MedlineCitation", "Article", "Pagination", "MedlinePgn"]
  const LANGUAGE_PATH := ["MedlineCitation", "Article", "Language"]
  const COUNTRY_PATH := ["MedlineCitation", "MedlineJournalInfo", "Country"]

  /** `Article.parse_element`: the fields in the order the source reads
      them, so that the first failing read decides the exception. */
  function ArticleOf(e: Element): Result<Article, PyError> {
    var pmid :- Index0(TextAt(e, PMID_PATH));
    var ids := ArticleIdsOf(Select(e, IDS_PATH));
    var title := InnerHtml(FirstAt(e, TITLE_PATH), true);
    var abstractText := AbstractOf(e);
    var keywords := TextAt(e, KEYWORDS_PATH);
    var meshHeadings := DescriptorsOf(Select(e, MESH_PATH));
    var authors := AuthorsOf(Select(e, AUTHORS_PATH));
    var journalElement :- Index0(Select(e, JOURNAL_PATH));
    var journal :- JournalOf(journalElement);
    var publications := DescriptorsOf(Select(e, PUBLICATION_PATH));
    var volume := FirstTextAt(e, VOLUME_PATH);
    var issue := FirstTextAt(e, ISSUE_PATH);
    var references :- ReferencesOf(Select(e, REFERENCES_PATH));
    var pubdate :- PubdateOf(e);
    var page := InnerHtml(FirstAt(e, PAGE_PATH), true);
    var language := InnerHtml(FirstAt(e, LANGUAGE_PATH), true);
    var country := InnerHtml(FirstAt(e, COUNTRY_PATH), true);
    Ok(Article(pmid, ids, title, abstractText, keywords, meshHeadings, authors, journal,
               publications, volume, issue, references, pubdate, page, language, country))
  }

  /** An article parses exactly when it has a PMID, a journal with a title
      and an abbreviation, a citation in every reference and a date some
      strategy recognises; the exceptions are the ones named. */
  lemma ArticleParses(e: Element)
    ensures ArticleOf(e).Ok? <==>
      && TextAt(e, PMID_PATH) != []
      && Select(e, JOURNAL_PATH) != []
      && JournalOf(Select(e, JOURNAL_PATH)[0]).Ok?
      && ReferencesOf(Select(e, REFERENCES_PATH)).Ok?
      && PubdateOf(e).Ok?
    ensures TextAt(e, PMID_PATH) == [] ==> ArticleOf(e) == Err(IndexError)
    ensures ArticleOf(e).Err? ==> ArticleOf(e).error in {IndexError, KeyError, ValueError, OverflowError, PubmedMapperError}
    ensures ArticleOf(e).Ok? ==>
      && ArticleOf(e).value.pmid == TextAt(e, PMID_PATH)[0]
      && ArticleOf(e).value.pubdate == PubdateOf(e).value
      && |ArticleOf(e).value.references| == |Select(e, REFERENCES_PATH)|
  {
    var es := Select(e, PUBDATE_PATH);
    if es != [] {
      NormalizeRaises(TextsOf(es[0]));
    }
  }

  /** What the registry answered: nothing (`URLError`/`HTTPError`), a
      document lxml cannot parse, or a document. */
  datatype Reply = Unreachable | Malformed | Document(root: Element)

  /** `efetch` request for one PMID. */
  function EfetchUrl(pmid: string): string {
    "https://eutils.ncbi.nlm.nih.gov/entrez/eutils/efetch.fcgi?db=pubmed&id=" + pmid + "&retmode=xml"
  }

  /** `/PubmedArticleSet/PubmedArticle` on a parsed document. */
  function PubmedArticles(root: Element): seq<Element> {
    if root.tag == "PubmedArticleSet" then Tagged(root.children, "PubmedArticle") else []
  }

  /** `Article.parse_pmid(pmid)` with the registry as an oracle from URL to
      reply: None when it cannot be reached or holds no article, otherwise
      the first article, whose parse errors propagate. */
  function ParsePmid(pmid: string, fetch: string -> Reply): (r: Result<Option<Article>, PyError>)
    ensures fetch(EfetchUrl(pmid)).Unreachable? ==> r == Ok(None)
    ensures fetch(EfetchUrl(pmid)).Malformed? ==> r == Err(XMLSyntaxError)
    ensures fetch(EfetchUrl(pmid)).Document? ==>
      var articles := PubmedArticles(fetch(EfetchUrl(pmid)).root);
      && (articles == [] ==> r == Ok(None))
      && (articles != [] && ArticleOf(articles[0]).Ok? ==> r == Ok(Some(ArticleOf(articles[0]).value)))
      && (articles != [] && ArticleOf(articles[0]).Err? ==> r == Err(ArticleOf(articles[0]).error))
  {
    match fetch(EfetchUrl(pmid))
    case Unreachable => Ok(None)
    case Malformed => Err(XMLSyntaxError)
    case Document(root) =>
      var articles := PubmedArticles(root);
      if articles == [] then Ok(None)
      else
        var article :- ArticleOf(articles[0]);
        Ok(Some(article))
  }

  /** A leaf element carrying one optional text. */
  function Leaf(tag: string, text: Option<string>): Element {
    Element(tag, map[], text, None, [])
  }

  /** A text that `extract_first(...text())` gives back: absent, or not
      empty (an empty text has no text node). */
  predicate Readable(s: Option<string>) {
    s.None? || s.value != ""
  }

  /** `<ArticleId IdType=...>value</ArticleId>` */
  function ArticleIdElement(a: ArticleId): Element {
    var attrs := if a.idType.Some? then map["IdType" := a.idType.value] else map[];
    Element("ArticleId", attrs, a.idValue, None, [])
  }

  /** Writing an identifier as an element and parsing it gives it back. */
  lemma ArticleIdRoundTrip(a: ArticleId)
    ensures ArticleIdOf(ArticleIdElement(a)) == a
  {
  }

  /** `<DescriptorName UI=...>name</DescriptorName>`, or the same under
      `PublicationType`. */
  function DescriptorElement(tag: string, d: Descriptor): Element {
    var attrs := if d.ui.Some? then map["UI" := d.ui.value] else map[];
    Element(tag, attrs, d.name, None, [])
  }

  /** Writing a heading or a publication type as an element and parsing it
      gives it back, whatever the element's tag. */
  lemma DescriptorRoundTrip(tag: string, d: Descriptor)
    ensures DescriptorOf(DescriptorElement(tag, d)) == d
  {
  }

  lemma LeafText(tag: string, text: Option<string>)
    requires Readable(text)
    ensures ExtractFirst(TextNodes(Leaf(tag, text))) == text
  {
    assert TailPieces([]) == [];
  }

  /** `Tagged` on a list of four children, written out. */
  lemma TaggedOfFour(cs: seq<Element>, tag: string)
    requires |cs| == 4
    ensures Tagged(cs, tag) ==
      (if cs[0].tag == tag then [cs[0]] else []) + (if cs[1].tag == tag then [cs[1]] else []) +
      (if cs[2].tag == tag then [cs[2]] else []) + (if cs[3].tag == tag then [cs[3]] else [])
  {
    var p1, p2, p3 := cs[..1], cs[..2], cs[..3];
    assert p1[..0] == [] && p2[..1] == p1 && p3[..2] == p2 && cs[..3] == p3;
    assert Tagged(p1, tag) == if cs[0].tag == tag then [cs[0]] else [];
    assert Tagged(p2, tag) == Tagged(p1, tag) + if cs[1].tag == tag then [cs[1]] else [];
    assert Tagged(p3, tag) == Tagged(p2, tag) + if cs[2].tag == tag then [cs[2]] else [];
  }

  /** The text of the one child called `tag`. */
  lemma ChildText(e: Element, tag: string, text: Option<string>)
    requires Tagged(e.children, tag) == [Leaf(tag, text)] && Readable(text)
    ensures FirstTextAt(e, [tag]) == text
  {
    var c := Leaf(tag, text);
    assert [tag][1..] == [];
    assert Select(e, [tag]) == SelectAll([c], []);
    assert SelectAll([c], []) == SelectAll([], []) + Select(c, []);
    assert AllTextNodes([c]) == AllTextNodes([]) + TextNodes(c);
    LeafText(tag, text);
  }

  /** The affiliation is read through the one `AffiliationInfo` child. */
  lemma AffiliationText(e: Element, text: Option<string>)
    requires Tagged(e.children, "AffiliationInfo") == [Element("AffiliationInfo", map[], None, None, [Leaf("Affiliation", text)])]
    requires Readable(text)
    ensures FirstTextAt(e, ["AffiliationInfo", "Affiliation"]) == text
  {
    var info := Element("AffiliationInfo", map[], None, None, [Leaf("Affiliation", text)]);
    assert ["AffiliationInfo", "Affiliation"][1..] == ["Affiliation"];
    assert Select(e, ["AffiliationInfo", "Affiliation"]) == SelectAll([info], ["Affiliation"]);
    assert SelectAll([info], ["Affiliation"]) == SelectAll([], ["Affiliation"]) + Select(info, ["Affiliation"]);
    assert Tagged(info.children, "Affiliation") == [Leaf("Affiliation", text)] by {
      assert info.children[..0] == [];
    }
    assert Select(e, ["AffiliationInfo", "Affiliation"]) == Select(info, ["Affiliation"]);
    ChildText(info, "Affiliation", text);
  }

  /** An author element whose children are LastName, ForeName, Initials
      and AffiliationInfo/Affiliation, in that order, parses back to the
      author those children hold, for fields that are absent or not
      empty. */
  lemma AuthorRoundTrip(e: Element, a: Author)
    requires Readable(a.lastName) && Readable(a.forename)
    requires Readable(a.initials) && Readable(a.affiliation)
    requires |e.children| == 4
    requires e.children[0] == Leaf("LastName", a.lastName)
    requires e.children[1] == Leaf("ForeName", a.forename)
    requires e.children[2] == Leaf("Initials", a.initials)
    requires e.children[3] == Element("AffiliationInfo", map[], None, None, [Leaf("Affiliation", a.affiliation)])
    ensures AuthorOf(e) == a
  {
    var cs := e.children;
    // The three name tags have the same length; their first letters differ.
    assert "LastName"[0] == 'L' && "ForeName"[0] == 'F' && "Initials"[0] == 'I';
    assert Tagged(cs, "LastName") == [cs[0]] by {
      TaggedOfFour(cs, "LastName");
    }
    assert Tagged(cs, "ForeName") == [cs[1]] by {
      TaggedOfFour(cs, "ForeName");
    }
    assert Tagged(cs, "Initials") == [cs[2]] by {
      TaggedOfFour(cs, "Initials");
    }
    assert Tagged(cs, "AffiliationInfo") == [cs[3]] by {
      TaggedOfFour(cs, "AffiliationInfo");
    }
    ChildText(e, "LastName", a.lastName);
    ChildText(e, "ForeName", a.forename);
    ChildText(e, "Initials", a.initials);
    AffiliationText(e, a.affiliation);
    AuthorFromFields(e, a);
  }

  lemma AuthorFromFields(e: Element, a: Author)
    requires FirstTextAt(e, ["LastName"]) == a.lastName
    requires FirstTextAt(e, ["ForeName"]) == a.forename
    requires FirstTextAt(e, ["Initials"]) == a.initials
    requires FirstTextAt(e, ["AffiliationInfo", "Affiliation"]) == a.affiliation
    ensures AuthorOf(e) == a
  {
  }
}
