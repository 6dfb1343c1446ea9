/**
 * Text extraction from an uploaded PDF: every page's text items joined by a
 * space, each page followed by a blank line, pages in increasing order.
 *
 * The pdf.js library, the FileReader and the document parser are foreign;
 * what they deliver is given as data: whether the library is loaded, whether
 * the file could be read, whether the bytes parse, and for every page either
 * its text items (`item.str`) or the failure of `getPage`/`getTextContent`.
 */
module PdfProcessor {
  import opened Types
  import JsText

  /** What `pdf.getPage(i)` followed by `page.getTextContent()` yields. */
  datatype PageFetch = Fetched(items: seq<string>) | Unavailable

  /** What `pdfjsLib.getDocument(bytes)` yields: its pages, or a rejection. */
  datatype Parse = Parsed(pages: seq<PageFetch>) | Unparseable

  /** What the FileReader yields: the file's bytes (as their parse), or `onerror`. */
  datatype FileRead = Read(parse: Parse) | ReadError

  /** The errors the extraction promise rejects with. */
  datatype ExtractError = LibraryNotLoaded | CouldNotExtract | ReadFailed

  function Message(e: ExtractError): string {
    match e
    case LibraryNotLoaded => "pdf.js library is not loaded."
    case CouldNotExtract => "Could not extract text from the PDF."
    case ReadFailed => "Failed to read the file."
  }

  const PageSeparator := "\n\n"

  /**
   * One page's text: its items joined by single spaces, so one character
   * longer than the items for each pair of neighbours.
   */
  function PageText(items: seq<string>): (r: string)
    ensures |r| == JsText.TotalLength(items) + (if items == [] then 0 else |items| - 1)
  {
    JsText.JoinLength(items, " ");
    JsText.Join(items, " ")
  }

  /**
   * The document text of pages whose items were all fetched, in page order:
   * every page contributes at least its separator.
   */
  function FullText(pages: seq<seq<string>>): (r: string)
    ensures |r| >= 2 * |pages|
  {
    if pages == [] then ""
    else FullText(pages[..|pages| - 1]) + PageText(pages[|pages| - 1]) + PageSeparator
  }

  predicate AllFetched(pages: seq<PageFetch>) {
    forall i :: 0 <= i < |pages| ==> pages[i].Fetched?
  }

  function ItemsOf(pages: seq<PageFetch>): (r: seq<seq<string>>)
    requires AllFetched(pages)
    ensures |r| == |pages| && forall i :: 0 <= i < |pages| ==> r[i] == pages[i].items
  {
    seq(|pages|, i requires 0 <= i < |pages| => pages[i].items)
  }

  /**
   * The settled extraction: the library check comes first, then the file
   * read, then the parse; any page that cannot be fetched fails the whole
   * extraction.
   */
  function Extraction(libraryLoaded: bool, file: FileRead): (r: Result<string, ExtractError>)
    ensures !libraryLoaded ==> r == Failure(LibraryNotLoaded)
    ensures r.Success? ==> file.Read? && file.parse.Parsed? && AllFetched(file.parse.pages)
    ensures r.Success? ==> |r.value| >= 2 * |file.parse.pages|
  {
    if !libraryLoaded then Failure(LibraryNotLoaded)
    else match file
      case ReadError => Failure(ReadFailed)
      case Read(Unparseable) => Failure(CouldNotExtract)
      case Read(Parsed(pages)) =>
        if AllFetched(pages) then
          FullTextLength(ItemsOf(pages));
          Success(FullText(ItemsOf(pages)))
        else Failure(CouldNotExtract)
  }

  /** `extractTextFromPdf`: the page loop accumulating `fullText`. */
  method ExtractTextFromPdf(libraryLoaded: bool, file: FileRead) returns (r: Result<string, ExtractError>)
    ensures r == Extraction(libraryLoaded, file)
  {
    if !libraryLoaded {
      return Failure(LibraryNotLoaded);
    }
    if file.ReadError? {
      return Failure(ReadFailed);
    }
    if file.parse.Unparseable? {
      return Failure(CouldNotExtract);
    }
    var pages := file.parse.pages;
    var fullText := "";
    for i := 1 to |pages| + 1
      invariant AllFetched(pages[..i - 1])
      invariant fullText == FullText(ItemsOf(pages[..i - 1]))
    {
      if pages[i - 1].Unavailable? {
        return Failure(CouldNotExtract);
      }
      var pageText := PageText(pages[i - 1].items);
      assert ItemsOf(pages[..i]) == ItemsOf(pages[..i - 1]) + [pages[i - 1].items];
      fullText := fullText + pageText + PageSeparator;
    }
    assert pages[..|pages|] == pages;
    r := Success(fullText);
  }

  // ---------------------------------------------------------------------------
  // What the extraction promises

  /** Without the library nothing else is looked at: the file is never read. */
  lemma LibraryCheckFirst(file1: FileRead, file2: FileRead)
    ensures Extraction(false, file1) == Extraction(false, file2) == Failure(LibraryNotLoaded)
    ensures Message(Extraction(false, file1).error) == "pdf.js library is not loaded."
  {
  }

  /** All or nothing: a result carries text only if every page was fetched, and then it is the full text. */
  lemma AllOrNothing(libraryLoaded: bool, file: FileRead)
    ensures Extraction(libraryLoaded, file).Success? <==>
      libraryLoaded && file.Read? && file.parse.Parsed? && AllFetched(file.parse.pages)
    ensures Extraction(libraryLoaded, file).Success? ==>
      Extraction(libraryLoaded, file).value == FullText(ItemsOf(file.parse.pages))
    ensures libraryLoaded && file.ReadError? ==>
      Message(Extraction(libraryLoaded, file).error) == "Failed to read the file."
    ensures Extraction(libraryLoaded, file).Failure? && libraryLoaded && file.Read? ==>
      Message(Extraction(libraryLoaded, file).error) == "Could not extract text from the PDF."
  {
  }

  /** A document without pages yields the empty text, not an error. */
  lemma ZeroPages()
    ensures Extraction(true, Read(Parsed([]))) == Success("")
  {
  }

  /** The text of consecutive runs of pages is the concatenation of their texts. */
  lemma {:induction false} FullTextAppend(a: seq<seq<string>>, b: seq<seq<string>>)
    ensures FullText(a + b) == FullText(a) + FullText(b)
  {
    if b != [] {
      var init, last := b[..|b| - 1], b[|b| - 1];
      assert (a + b)[..|a + b| - 1] == a + init;
      assert (a + b)[|a + b| - 1] == last;
      FullTextAppend(a, init);
      calc {
        FullText(a + b);
        FullText(a + init) + PageText(last) + PageSeparator;
        FullText(a) + FullText(init) + PageText(last) + PageSeparator;
        FullText(a) + (FullText(init) + PageText(last) + PageSeparator);
      }
    } else {
      assert a + b == a;
    }
  }

  /** One page alone contributes its joined items and the separator. */
  lemma SinglePage(items: seq<string>)
    ensures FullText([items]) == PageText(items) + PageSeparator
  {
  }

  /**
   * Page order is kept: page k's text and separator sit right after the text of
   * the pages before it.
   */
  lemma PageInPlace(pages: seq<seq<string>>, k: nat)
    requires k < |pages|
    ensures var start := |FullText(pages[..k])|;
      var page := PageText(pages[k]) + PageSeparator;
      start + |page| <= |FullText(pages)| &&
      FullText(pages)[start..start + |page|] == page
  {
    assert pages == pages[..k] + [pages[k]] + pages[k + 1..];
    FullTextAppend(pages[..k] + [pages[k]], pages[k + 1..]);
    FullTextAppend(pages[..k], [pages[k]]);
    SinglePage(pages[k]);
  }

  function SumPageLengths(pages: seq<seq<string>>): nat {
    if pages == [] then 0 else SumPageLengths(pages[..|pages| - 1]) + |PageText(pages[|pages| - 1])|
  }

  /** The text is as long as the page texts together plus two characters per page. */
  lemma {:induction false} FullTextLength(pages: seq<seq<string>>)
    ensures |FullText(pages)| == SumPageLengths(pages) + 2 * |pages|
  {
    if pages != [] {
      FullTextLength(pages[..|pages| - 1]);
    }
  }

  /** A page without items contributes exactly the separator. */
  lemma EmptyPage(pages: seq<seq<string>>)
    ensures FullText(pages + [[]]) == FullText(pages) + "\n\n"
  {
  }

  /** The two-page document "Hello" / "World". */
  lemma TwoPages()
    ensures Extraction(true, Read(Parsed([Fetched(["Hello"]), Fetched(["World"])]))) == Success("Hello\n\nWorld\n\n")
  {
    var pages := [Fetched(["Hello"]), Fetched(["World"])];
    assert ItemsOf(pages) == [["Hello"], ["World"]];
    assert [["Hello"], ["World"]][..1] == [["Hello"]];
    SinglePage(["Hello"]);
    assert PageText(["Hello"]) == "Hello" && PageText(["World"]) == "World";
    assert FullText([["Hello"], ["World"]]) == "Hello" + "\n\n" + "World" + "\n\n";
    assert "Hello" + "\n\n" + "World" + "\n\n" == "Hello\n\nWorld\n\n";
    assert AllFetched(pages);
  }
}
