/** The legacy DOC and PPT extractors (api/custom/extractors/doc_extractor.py
    and ppt_extractor.py): the elements a partitioner returns are grouped
    into one document per page or slide. The two files differ only in the
    metadata key and the message texts, so both are one function over a
    `Format`. The partitioner itself is the input: either the elements it
    produced, a missing library, or an exception with its message. */
module PageGrouping {
  import opened Base
  import opened Text

  datatype Format = DocFormat | PptFormat

  /** The metadata key the page number is stored under. */
  function PageKey(f: Format): string {
    match f
    case DocFormat => "page"
    case PptFormat => "slide"
  }

  /** One partitioned element: its text (`None` for a missing attribute)
      and its page number, if the metadata has one. */
  datatype Element = Element(text: Option<string>, page: Option<int>)

  /** What the partitioner did. */
  datatype Partition = Elements(elements: seq<Element>) | ImportFailed | Raised(message: string)

  /** One extracted document; `page` is absent for text without a page. */
  datatype PageDoc = PageDoc(content: string, page: Option<int>)

  /** The page entry of a document's metadata: the page number under the
      format's key, or nothing for text without a page. The `source` entry
      is not modelled. */
  function PageMetadata(f: Format, d: PageDoc): (m: map<string, int>)
    ensures PageKey(f) in m <==> d.page.Some?
    ensures d.page.Some? ==> m[PageKey(f)] == d.page.value
    ensures forall k :: k in m ==> k == PageKey(f)
  {
    if d.page.Some? then map[PageKey(f) := d.page.value] else map[]
  }

  datatype ExtractResult = Documents(docs: seq<PageDoc>) | ExtractError(message: string)

  /** The element carries text that is not all whitespace. */
  predicate HasText(e: Element) {
    e.text.Some? && !IsPyBlank(e.text.value)
  }

  /** The stripped texts of the elements on page `p`, in element order. */
  function TextsOnPage(elements: seq<Element>, p: Option<int>): (r: seq<string>)
    ensures forall i :: 0 <= i < |r| ==> IsTrimmedWith(r[i], IsPySpace)
    ensures |r| > 0 <==> exists e :: e in elements && HasText(e) && e.page == p
  {
    if |elements| == 0 then []
    else
      var e := elements[0];
      var rest := TextsOnPage(elements[1..], p);
      assert forall x :: x in elements <==> x == e || x in elements[1..];
      if HasText(e) && e.page == p then
        TrimNonBlank(e.text.value, IsPySpace);
        [Strip(e.text.value)] + rest
      else rest
  }

  /** The loop over the elements appends: one more element adds its
      stripped text at the end of its page's list when it has text, and
      changes no list otherwise. */
  lemma {:induction false} TextsOnPageSnoc(elements: seq<Element>, e: Element, p: Option<int>)
    ensures TextsOnPage(elements + [e], p)
            == TextsOnPage(elements, p) + (if HasText(e) && e.page == p then [Strip(e.text.value)] else [])
  {
    if |elements| == 0 {
      assert elements + [e] == [e];
      assert [e][1..] == [];
    } else {
      assert (elements + [e])[1..] == elements[1..] + [e];
      TextsOnPageSnoc(elements[1..], e, p);
    }
  }

  /** The page numbers that carry text, in element order, repeats kept. */
  function PagesWithText(elements: seq<Element>): (r: seq<int>)
    ensures forall p :: p in r <==> exists e :: e in elements && HasText(e) && e.page == Some(p)
  {
    if |elements| == 0 then []
    else
      var e := elements[0];
      var rest := PagesWithText(elements[1..]);
      assert forall x :: x in elements <==> x == e || x in elements[1..];
      if HasText(e) && e.page.Some? then [e.page.value] + rest else rest
  }

  /** The least element of a non-empty sequence. */
  function Least(xs: seq<int>): (m: int)
    requires |xs| > 0
    ensures m in xs && forall x :: x in xs ==> m <= x
  {
    if |xs| == 1 then xs[0]
    else
      var m := Least(xs[1..]);
      assert forall x :: x in xs ==> x == xs[0] || x in xs[1..];
      if xs[0] < m then xs[0] else m
  }

  /** `xs` without any occurrence of `v`. */
  function Without(xs: seq<int>, v: int): (r: seq<int>)
    ensures forall x :: x in r <==> x in xs && x != v
    ensures |r| <= |xs| && (v in xs ==> |r| < |xs|)
  {
    if |xs| == 0 then []
    else
      var rest := Without(xs[1..], v);
      assert forall x :: x in xs <==> x == xs[0] || x in xs[1..];
      if xs[0] == v then rest else [xs[0]] + rest
  }

  /** The distinct values of `xs` in ascending order: `sorted()` of the page
      dictionary's keys. */
  function Ascending(xs: seq<int>): (r: seq<int>)
    ensures forall i, j :: 0 <= i < j < |r| ==> r[i] < r[j]
    ensures forall x :: x in r <==> x in xs
    decreases |xs|
  {
    if |xs| == 0 then []
    else
      var m := Least(xs);
      var rest := Ascending(Without(xs, m));
      assert forall x :: x in rest ==> m < x;
      [m] + rest
  }

  /** One document per page with text, in ascending page order. */
  function PageDocs(elements: seq<Element>, pages: seq<int>): (r: seq<PageDoc>)
    requires forall i :: 0 <= i < |pages| ==> |TextsOnPage(elements, Some(pages[i]))| > 0
    ensures |r| == |pages|
    ensures forall i :: 0 <= i < |r| ==>
              r[i] == PageDoc(Join("\n", TextsOnPage(elements, Some(pages[i]))), Some(pages[i]))
    ensures forall i :: 0 <= i < |r| ==> r[i].page == Some(pages[i])
    ensures forall i :: 0 <= i < |r| ==> IsTrimmedWith(r[i].content, IsPySpace)
  {
    seq(|pages|, i requires 0 <= i < |pages| => PageDocOf(elements, pages[i]))
  }

  /** The document of one page that carries text. */
  function PageDocOf(elements: seq<Element>, p: int): (d: PageDoc)
    requires |TextsOnPage(elements, Some(p))| > 0
    ensures d.page == Some(p) && IsTrimmedWith(d.content, IsPySpace)
  {
    var texts := TextsOnPage(elements, Some(p));
    JoinOfTrimmed(IsPySpace, "\n", texts);
    PageDoc(Join("\n", texts), Some(p))
  }

  /** The ascending page numbers that carry text; each has texts. */
  function TextPages(elements: seq<Element>): (r: seq<int>)
    ensures forall i, j :: 0 <= i < j < |r| ==> r[i] < r[j]
    ensures forall p :: p in r <==> |TextsOnPage(elements, Some(p))| > 0
  {
    Ascending(PagesWithText(elements))
  }

  /** The text without a page, appended to the last document after a
      blank line, or a document of its own when there is none. */
  function AppendLoose(docs: seq<PageDoc>, loose: seq<string>): (r: seq<PageDoc>)
    requires forall i :: 0 <= i < |docs| ==> IsTrimmedWith(docs[i].content, IsPySpace)
    requires forall i :: 0 <= i < |loose| ==> IsTrimmedWith(loose[i], IsPySpace)
    ensures |r| == 0 <==> |docs| == 0 && |loose| == 0
    ensures |docs| > 0 ==> |r| == |docs| && forall i :: 0 <= i < |r| ==> r[i].page == docs[i].page
    ensures |docs| == 0 ==> forall i :: 0 <= i < |r| ==> r[i].page.None?
    ensures forall i :: 0 <= i < |r| ==> IsTrimmedWith(r[i].content, IsPySpace)
    ensures |loose| == 0 ==> r == docs
    ensures |docs| == 0 && |loose| > 0 ==> r == [PageDoc(Join("\n", loose), None)]
    ensures |docs| > 0 && |loose| > 0 ==>
              r[..|docs| - 1] == docs[..|docs| - 1]
              && r[|docs| - 1].content == docs[|docs| - 1].content + "\n\n" + Join("\n", loose)
  {
    if |loose| == 0 then docs
    else
      var extra := Join("\n", loose);
      JoinOfTrimmed(IsPySpace, "\n", loose);
      if |docs| == 0 then [PageDoc(extra, None)]
      else
        var last := docs[|docs| - 1];
        TrimmedConcat(last.content, "\n\n", extra, IsPySpace);
        docs[..|docs| - 1] + [last.(content := last.content + "\n\n" + extra)]
  }

  /** The documents built from the elements, before the fallback: per-page
      documents in ascending page order, then the text without a page. */
  function GroupByPage(elements: seq<Element>): (r: seq<PageDoc>)
    ensures |r| == 0 <==> forall e :: e in elements ==> !HasText(e)
    ensures forall i :: 0 <= i < |r| ==> IsTrimmedWith(r[i].content, IsPySpace)
  {
    NoTextWithoutPagesOrLoose(elements);
    AppendLoose(PageDocs(elements, TextPages(elements)), TextsOnPage(elements, None))
  }

  /** What each grouped document holds: page by page in ascending order,
      that page's stripped texts joined by newlines; the text without a
      page goes after a blank line at the end of the last page's document,
      or forms the only document when no page has text. */
  lemma GroupedContent(elements: seq<Element>)
    ensures |TextPages(elements)| > 0 ==> |GroupByPage(elements)| == |TextPages(elements)|
    ensures forall i :: 0 <= i < |TextPages(elements)| ==>
              GroupByPage(elements)[i].page == Some(TextPages(elements)[i])
    ensures forall i :: 0 <= i < |TextPages(elements)| - 1 ==>
              GroupByPage(elements)[i].content == PageText(elements, TextPages(elements)[i])
    ensures |TextPages(elements)| > 0 ==>
              GroupByPage(elements)[|TextPages(elements)| - 1].content
              == PageText(elements, TextPages(elements)[|TextPages(elements)| - 1])
                 + LooseSuffix(TextsOnPage(elements, None))
    ensures |TextPages(elements)| == 0 && |TextsOnPage(elements, None)| > 0 ==>
              GroupByPage(elements) == [PageDoc(Join("\n", TextsOnPage(elements, None)), None)]
  {
    GroupedPages(elements);
    GroupedFrontContent(elements);
    GroupedLastContent(elements);
  }

  /** One grouped document per page that carries text, tagged with it. */
  lemma GroupedPages(elements: seq<Element>)
    ensures |TextPages(elements)| > 0 ==> |GroupByPage(elements)| == |TextPages(elements)|
    ensures forall i :: 0 <= i < |TextPages(elements)| ==>
              GroupByPage(elements)[i].page == Some(TextPages(elements)[i])
    ensures |TextPages(elements)| == 0 && |TextsOnPage(elements, None)| > 0 ==>
              GroupByPage(elements) == [PageDoc(Join("\n", TextsOnPage(elements, None)), None)]
  {
    var docs := PageDocs(elements, TextPages(elements));
    assert GroupByPage(elements) == AppendLoose(docs, TextsOnPage(elements, None));
  }

  /** Every page's document but the last holds exactly that page's text. */
  lemma GroupedFrontContent(elements: seq<Element>)
    ensures forall i :: 0 <= i < |TextPages(elements)| - 1 ==>
              GroupByPage(elements)[i].content == PageText(elements, TextPages(elements)[i])
  {
    var docs := PageDocs(elements, TextPages(elements));
    assert GroupByPage(elements) == AppendLoose(docs, TextsOnPage(elements, None));
    AppendLooseKeepsFront(docs, TextsOnPage(elements, None));
  }

  /** The last page's document holds that page's text and then the text
      without a page. */
  lemma GroupedLastContent(elements: seq<Element>)
    ensures |TextPages(elements)| > 0 ==>
              GroupByPage(elements)[|TextPages(elements)| - 1].content
              == PageText(elements, TextPages(elements)[|TextPages(elements)| - 1])
                 + LooseSuffix(TextsOnPage(elements, None))
  {
    var docs := PageDocs(elements, TextPages(elements));
    assert GroupByPage(elements) == AppendLoose(docs, TextsOnPage(elements, None));
    AppendLooseExtendsLast(docs, TextsOnPage(elements, None));
  }

  /** The texts of page `p` joined by newlines. */
  function PageText(elements: seq<Element>, p: int): string {
    Join("\n", TextsOnPage(elements, Some(p)))
  }

  /** What the text without a page adds to the last document. */
  function LooseSuffix(loose: seq<string>): string {
    if |loose| > 0 then "\n\n" + Join("\n", loose) else ""
  }

  /** Appending the loose text keeps every document but the last. */
  lemma AppendLooseKeepsFront(docs: seq<PageDoc>, loose: seq<string>)
    requires forall i :: 0 <= i < |docs| ==> IsTrimmedWith(docs[i].content, IsPySpace)
    requires forall i :: 0 <= i < |loose| ==> IsTrimmedWith(loose[i], IsPySpace)
    ensures forall i :: 0 <= i < |docs| - 1 ==> AppendLoose(docs, loose)[i] == docs[i]
  {
    var r := AppendLoose(docs, loose);
    if |docs| > 0 && |loose| > 0 {
      forall i | 0 <= i < |docs| - 1 ensures r[i] == docs[i] {
        assert r[i] == r[..|docs| - 1][i];
      }
    }
  }

  /** Appending the loose text extends the last document by the loose
      suffix. */
  lemma AppendLooseExtendsLast(docs: seq<PageDoc>, loose: seq<string>)
    requires forall i :: 0 <= i < |docs| ==> IsTrimmedWith(docs[i].content, IsPySpace)
    requires forall i :: 0 <= i < |loose| ==> IsTrimmedWith(loose[i], IsPySpace)
    ensures |docs| > 0 ==>
              AppendLoose(docs, loose)[|docs| - 1].content == docs[|docs| - 1].content + LooseSuffix(loose)
  {
    if |loose| > 0 {
      assert LooseSuffix(loose) == "\n\n" + Join("\n", loose);
    }
  }

  /** Some element has text exactly when some page has texts or some text
      has no page. */
  lemma NoTextWithoutPagesOrLoose(elements: seq<Element>)
    ensures (forall e :: e in elements ==> !HasText(e))
            <==> |TextPages(elements)| == 0 && |TextsOnPage(elements, None)| == 0
  {
    if exists e :: e in elements && HasText(e) {
      var e :| e in elements && HasText(e);
      if e.page.Some? {
        assert |TextsOnPage(elements, e.page)| > 0;
        assert e.page.value in TextPages(elements);
      }
    }
  }

  /** The fallback's text: every element whose text is non-empty, joined
      with newlines and not stripped first. */
  function AllText(elements: seq<Element>): seq<string> {
    if |elements| == 0 then []
    else
      var e := elements[0];
      (if e.text.Some? && e.text.value != "" then [e.text.value] else []) + AllText(elements[1..])
  }

  /** `extract()` of both extractors. */
  function Extract(f: Format, p: Partition): (r: ExtractResult)
    ensures p.ImportFailed? ==> r == ExtractError(ImportMessage(f))
    ensures p.Raised? ==> r.ExtractError? && r.message == FailureMessage(f, p.message)
    ensures p.Elements? ==> r.Documents?
    ensures p.Elements? ==> forall d :: d in r.docs ==> !IsPyBlank(d.content)
  {
    match p
    case ImportFailed => ExtractError(ImportMessage(f))
    case Raised(message) => ExtractError(FailureMessage(f, message))
    case Elements(elements) =>
      var docs := GroupByPage(elements);
      if |docs| > 0 then Documents(docs)
      else
        var all := Join("\n", AllText(elements));
        if IsPyBlank(all) then Documents([])
        else
          TrimNonBlank(all, IsPySpace);
          TrimmedNotBlank(Strip(all), IsPySpace);
          Documents([PageDoc(Strip(all), None)])
  }

  /** The fallback never adds a document: when grouping found nothing,
      every element's text is blank, and so is their concatenation. */
  lemma FallbackNeverFires(f: Format, elements: seq<Element>)
    ensures Extract(f, Elements(elements)) == Documents(GroupByPage(elements))
  {
    if |GroupByPage(elements)| == 0 {
      AllTextBlank(elements);
      assert IsBlankWith("\n", IsPySpace);
      JoinBlank(IsPySpace, "\n", AllText(elements));
    }
  }

  lemma {:induction false} AllTextBlank(elements: seq<Element>)
    requires forall e :: e in elements ==> !HasText(e)
    ensures forall i :: 0 <= i < |AllText(elements)| ==> IsPyBlank(AllText(elements)[i])
  {
    if |elements| > 0 {
      assert elements[0] in elements;
      assert forall e :: e in elements[1..] ==> e in elements;
      AllTextBlank(elements[1..]);
    }
  }

  /** Pages come out in ascending order, whatever order the elements
      arrived in. */
  lemma GroupedPagesAscend(elements: seq<Element>)
    ensures var docs := GroupByPage(elements);
            forall i, j :: 0 <= i < j < |docs| && docs[i].page.Some? && docs[j].page.Some? ==>
              docs[i].page.value < docs[j].page.value
  {
    var pages := TextPages(elements);
    var docs := PageDocs(elements, pages);
    var r := GroupByPage(elements);
    forall i, j | 0 <= i < j < |r| && r[i].page.Some? && r[j].page.Some?
      ensures r[i].page.value < r[j].page.value
    {
      assert r[i].page == docs[i].page == Some(pages[i]);
      assert r[j].page == docs[j].page == Some(pages[j]);
    }
  }

  /** Every page that carries text gets a document. */
  lemma GroupedPagesComplete(elements: seq<Element>, e: Element)
    requires e in elements && HasText(e) && e.page.Some?
    ensures exists d :: d in GroupByPage(elements) && d.page == e.page
  {
    var pages := TextPages(elements);
    var docs := PageDocs(elements, pages);
    assert |TextsOnPage(elements, e.page)| > 0;
    assert e.page.value in pages;
    var k :| 0 <= k < |pages| && pages[k] == e.page.value;
    var r := GroupByPage(elements);
    assert r == AppendLoose(docs, TextsOnPage(elements, None));
    assert r[k].page == docs[k].page == e.page;
    assert r[k] in r;
  }

  /** The message for a missing partition library. */
  function ImportMessage(f: Format): string {
    match f
    case DocFormat =>
      "DOC extraction requires the 'unstructured' library with DOC support. "
      + "Please ensure 'unstructured[doc]' is installed."
    case PptFormat =>
      "PPT extraction requires the 'unstructured' library with PPT support. "
      + "Please ensure 'unstructured[ppt]' is installed."
  }

  /** The guidance given when LibreOffice is missing. */
  function LibreOfficeMessage(f: Format): string {
    match f
    case DocFormat =>
      "DOC extraction requires LibreOffice to be installed.\n"
      + "Please either:\n"
      + "1. Install LibreOffice in your environment (apt-get install libreoffice-writer-nogui), or\n"
      + "2. Use the custom API Docker image with LibreOffice pre-installed, or\n"
      + "3. Configure UNSTRUCTURED_API_URL and set ETL_TYPE=Unstructured"
    case PptFormat =>
      "PPT extraction requires LibreOffice to be installed.\n"
      + "Please either:\n"
      + "1. Install LibreOffice in your environment (apt-get install libreoffice-impress-nogui), or\n"
      + "2. Use the custom API Docker image with LibreOffice pre-installed, or\n"
      + "3. Configure UNSTRUCTURED_API_URL and set ETL_TYPE=Unstructured"
  }

  /** An exception is blamed on LibreOffice when its lower-cased message
      mentions it. */
  predicate BlamesLibreOffice(message: string) {
    var m := Lower(message);
    Contains(m, "libreoffice") || Contains(m, "soffice") || Contains(m, "libre")
  }

  /** The message for any other exception. */
  function FailureMessage(f: Format, message: string): (r: string)
    ensures BlamesLibreOffice(message) ==> r == LibreOfficeMessage(f)
    ensures !BlamesLibreOffice(message) ==>
              r == (if f == DocFormat then "Failed to extract text from DOC: "
                    else "Failed to extract text from PPT: ") + message
  {
    if BlamesLibreOffice(message) then LibreOfficeMessage(f)
    else (if f == DocFormat then "Failed to extract text from DOC: "
          else "Failed to extract text from PPT: ") + message
  }

  /** A string containing `sub` contains every prefix of `sub`. */
  lemma {:induction false} ContainsPrefix(s: string, sub: string, pre: string)
    requires pre <= sub && Contains(s, sub)
    ensures Contains(s, pre)
    decreases |s|
  {
    if !(sub <= s) {
      ContainsPrefix(s[1..], sub, pre);
    } else {
      assert pre == s[..|pre|];
    }
  }

  /** Of the three markers only "libre" matters: a message blames
      LibreOffice exactly when it mentions "libre" or "soffice". */
  lemma LibreCoversLibreOffice(message: string)
    ensures BlamesLibreOffice(message) <==>
              Contains(Lower(message), "libre") || Contains(Lower(message), "soffice")
  {
    if Contains(Lower(message), "libreoffice") {
      ContainsPrefix(Lower(message), "libreoffice", "libre");
    }
  }
}
