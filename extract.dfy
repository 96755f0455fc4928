/**
 * Choosing and running a text extractor for an uploaded file (backend/main.py,
 * `extract_text_from_pdf`, `extract_text_from_docx` and the suffix dispatch of `/analyze`).
 * The PDF and DOCX readers are outside the model: an upload carries what each reader
 * would produce from its bytes.
 */
module Extract {
  import opened Wrappers
  import opened PyText

  /** An uploaded file. `pdfPages` is the text PyPDF2 extracts from each page, in page
      order (None when the bytes are not a readable PDF); `docxParagraphs` the text of each
      paragraph python-docx finds (None when not a readable DOCX); `decoded` the text a
      text-mode read gives: the bytes read as UTF-8 with undecodable sequences dropped, and
      every "\r\n" and lone "\r" turned into "\n". */
  datatype Upload = Upload(
    filename: string,
    pdfPages: Option<seq<string>>,
    docxParagraphs: Option<seq<string>>,
    decoded: string)

  predicate AllDots(s: string) {
    forall i :: 0 <= i < |s| ==> s[i] == '.'
  }

  /** `os.path.splitext` with '/' as the separator: the extension starts at the last dot of
      the last path component, unless everything before that dot in the component is dots. */
  function SplitExt(p: string): (r: (string, string))
    ensures r.0 + r.1 == p
    ensures r.1 != "" ==> r.1[0] == '.' && forall k :: 1 <= k < |r.1| ==> r.1[k] != '.' && r.1[k] != '/'
    ensures r.1 != "" ==> RFind(p, '/') < |r.0| && !AllDots(r.0[RFind(p, '/') + 1..])
  {
    var sep := RFind(p, '/');
    var dot := RFind(p, '.');
    if dot > sep && !AllDots(p[sep + 1..dot]) then (p[..dot], p[dot..]) else (p, "")
  }

  lemma {:induction false} RFindAppend(a: string, b: string, c: char)
    requires c !in b
    ensures RFind(a + b, c) == RFind(a, c)
  {
    if b != [] {
      assert (a + b)[..|a + b| - 1] == a + b[..|b| - 1];
      RFindAppend(a, b[..|b| - 1], c);
    } else {
      assert a + b == a;
    }
  }

  /** Every way of writing a path as a stem with a non-dot character in its last component
      followed by '.' and a dot- and slash-free tail is the split `splitext` makes. */
  lemma SplitExtUnique(root: string, ext: string)
    requires |ext| > 0 && ext[0] == '.'
    requires forall k :: 1 <= k < |ext| ==> ext[k] != '.' && ext[k] != '/'
    requires !AllDots(root[RFind(root, '/') + 1..])
    ensures SplitExt(root + ext) == (root, ext)
  {
    var p := root + ext;
    assert ext == [ext[0]] + ext[1..];
    assert p == (root + [ext[0]]) + ext[1..];
    RFindAppend(root + [ext[0]], ext[1..], '.');
    RFindAppend(root + [ext[0]], ext[1..], '/');
    RFindAppend(root, [ext[0]], '/');
    var sep, dot := RFind(p, '/'), RFind(p, '.');
    assert dot == |root|;
    assert sep == RFind(root, '/');
    assert p[sep + 1..dot] == root[sep + 1..];
    assert p[..dot] == root && p[dot..] == ext;
  }

  /** The suffix `/analyze` dispatches on: the extension, lower-cased, so empty or led by
      a dot. */
  function Suffix(filename: string): (r: string)
    ensures |r| == |SplitExt(filename).1|
    ensures r != "" ==> r[0] == '.'
  {
    Lower(SplitExt(filename).1)
  }

  datatype Kind = Pdf | Docx | Plain

  /** ".pdf" reads pages, ".docx" and ".doc" read paragraphs, anything else is plain text. */
  function KindOf(suffix: string): (k: Kind)
    ensures k == Pdf <==> suffix == ".pdf"
    ensures k == Docx <==> suffix == ".docx" || suffix == ".doc"
  {
    if suffix == ".pdf" then Pdf
    else if suffix in [".docx", ".doc"] then Docx
    else Plain
  }

  /** A stem with no '/' whose first character is not a dot is a valid root for a split. */
  lemma PlainStem(stem: string)
    requires stem != "" && stem[0] != '.' && '/' !in stem
    ensures !AllDots(stem[RFind(stem, '/') + 1..])
  {
    assert RFind(stem, '/') == -1;
    assert stem[0..] == stem;
  }

  /** The letter case of the extension does not matter: "CV.PDF" is read as a PDF. */
  lemma UpperCasePdf(stem: string)
    requires stem != "" && '.' !in stem && '/' !in stem
    ensures KindOf(Suffix(stem + ".PDF")) == Pdf
  {
    PlainStem(stem);
    SplitExtUnique(stem, ".PDF");
    var lower := Lower(".PDF");
    assert lower[0] == '.' && lower[1] == 'p' && lower[2] == 'd' && lower[3] == 'f';
    assert lower == ".pdf";
  }

  /** Only the last extension counts: "cv.pdf.txt" is read as plain text. */
  lemma LastExtensionCounts(stem: string)
    requires stem != "" && stem[0] != '.' && '/' !in stem
    ensures KindOf(Suffix(stem + ".pdf" + ".txt")) == Plain
  {
    assert (stem + ".pdf")[0] == stem[0] && '/' !in ".pdf";
    PlainStem(stem + ".pdf");
    SplitExtUnique(stem + ".pdf", ".txt");
    assert Lower(".txt") == ".txt";
  }

  /** A name made of one leading dot and no other dot or slash has no extension, so ".pdf"
      is read as plain text. */
  lemma LeadingDotIsNoExtension(name: string)
    requires |name| > 0 && name[0] == '.' && '.' !in name[1..] && '/' !in name
    ensures SplitExt(name) == (name, "")
  {
    assert RFind(name, '.') == 0;
  }

  /** The page texts that are kept: the non-empty ones, in page order. */
  function NonEmpty(pages: seq<string>): (r: seq<string>)
    ensures |r| <= |pages|
    ensures forall k :: 0 <= k < |r| ==> r[k] != "" && r[k] in pages
  {
    if pages == [] then []
    else
      var last := pages[|pages| - 1];
      NonEmpty(pages[..|pages| - 1]) + if last != "" then [last] else []
  }

  /** One page is kept exactly when it has text. */
  lemma NonEmptyOne(page: string)
    ensures NonEmpty([page]) == if page != "" then [page] else []
  {
    assert [page][..0] == [];
  }

  /** Pages are kept independently and in order: the kept pages of two consecutive runs of
      pages are those of the first run followed by those of the second. */
  lemma {:induction false} NonEmptyAppend(a: seq<string>, b: seq<string>)
    ensures NonEmpty(a + b) == NonEmpty(a) + NonEmpty(b)
  {
    if b == [] {
      assert a + b == a;
    } else {
      var init, last := b[..|b| - 1], b[|b| - 1];
      assert (a + b)[..|a + b| - 1] == a + init && (a + b)[|a + b| - 1] == last;
      NonEmptyAppend(a, init);
    }
  }

  /** Nothing is dropped when every page has text. */
  lemma {:induction false} NonEmptyKeepsAll(pages: seq<string>)
    requires forall k :: 0 <= k < |pages| ==> pages[k] != ""
    ensures NonEmpty(pages) == pages
  {
    if pages != [] {
      NonEmptyKeepsAll(pages[..|pages| - 1]);
    }
  }

  /** Everything is dropped exactly when no page has text. */
  lemma {:induction false} NonEmptyEmpty(pages: seq<string>)
    ensures NonEmpty(pages) == [] <==> forall k :: 0 <= k < |pages| ==> pages[k] == ""
  {
    if pages != [] {
      var init, last := pages[..|pages| - 1], pages[|pages| - 1];
      NonEmptyEmpty(init);
      assert NonEmpty(pages) == NonEmpty(init) + if last != "" then [last] else [];
      assert forall k :: 0 <= k < |init| ==> init[k] == pages[k];
    }
  }

  /** The text `extract_text_from_pdf` returns: the non-empty page texts joined by newlines,
      empty exactly when no page is kept. */
  function PdfText(pages: seq<string>): (r: string)
    ensures r == "" <==> NonEmpty(pages) == []
  {
    Join("\n", NonEmpty(pages))
  }

  /** `extract_text_from_pdf`: collects the non-empty page texts in a list, then joins them. */
  method ExtractPdf(pages: seq<string>) returns (text: string)
    ensures text == PdfText(pages)
  {
    var parts: seq<string> := [];
    for i := 0 to |pages|
      invariant parts == NonEmpty(pages[..i])
    {
      assert pages[..i + 1][..i] == pages[..i];
      if pages[i] != "" {
        parts := parts + [pages[i]];
      }
    }
    assert pages[..|pages|] == pages;
    text := Join("\n", parts);
  }

  /** A PDF yields the empty text exactly when none of its pages has text. */
  lemma PdfTextEmpty(pages: seq<string>)
    ensures PdfText(pages) == "" <==> forall k :: 0 <= k < |pages| ==> pages[k] == ""
  {
    NonEmptyEmpty(pages);
  }

  /** When page texts hold no newline, the lines of the PDF text are exactly the pages that
      have text, in page order. */
  lemma PdfTextLines(pages: seq<string>)
    requires forall k :: 0 <= k < |pages| ==> '\n' !in pages[k]
    requires exists k :: 0 <= k < |pages| && pages[k] != ""
    ensures Split(PdfText(pages), '\n') == NonEmpty(pages)
  {
    NonEmptyEmpty(pages);
    SplitJoin(NonEmpty(pages), '\n');
  }

  /** The text `extract_text_from_docx` returns: every paragraph, empty ones included, so
      the text is empty only for no paragraphs or a single empty one. */
  function DocxText(paragraphs: seq<string>): (r: string)
    ensures r == "" <==> paragraphs == [] || paragraphs == [""]
  {
    Join("\n", paragraphs)
  }

  /** When paragraphs hold no newline, the lines of the DOCX text are the paragraphs. */
  lemma DocxTextLines(paragraphs: seq<string>)
    requires |paragraphs| > 0
    requires forall k :: 0 <= k < |paragraphs| ==> '\n' !in paragraphs[k]
    ensures Split(DocxText(paragraphs), '\n') == paragraphs
  {
    SplitJoin(paragraphs, '\n');
  }

  /** The text `/analyze` extracts from an upload, or None when the reader its suffix
      selects raises (the bytes are not a readable PDF or DOCX). */
  function UploadText(u: Upload): (r: Option<string>)
    ensures KindOf(Suffix(u.filename)) == Plain ==> r == Some(u.decoded)
    ensures KindOf(Suffix(u.filename)) == Pdf && u.pdfPages.Some? ==> r == Some(PdfText(u.pdfPages.value))
    ensures KindOf(Suffix(u.filename)) == Docx && u.docxParagraphs.Some? ==>
      r == Some(DocxText(u.docxParagraphs.value))
    ensures r.None? <==> match KindOf(Suffix(u.filename))
                         case Pdf => u.pdfPages.None?
                         case Docx => u.docxParagraphs.None?
                         case Plain => false
  {
    match KindOf(Suffix(u.filename))
    case Pdf => if u.pdfPages.Some? then Some(PdfText(u.pdfPages.value)) else None
    case Docx => if u.docxParagraphs.Some? then Some(DocxText(u.docxParagraphs.value)) else None
    case Plain => Some(u.decoded)
  }
}
