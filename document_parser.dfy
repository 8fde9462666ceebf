/**
 * Resume upload: picks a parser from the file's MIME type and name, and turns
 * what the PDF, Word or plain-text reader returns into the resume text.  The
 * readers themselves (pdf.js, mammoth, `File.text`) are given as their results.
 */
module DocumentParser {
  import opened Wrappers
  import opened Strings

  const LegacyDocMessage := "Legacy .doc files are not supported. Please save your document as .docx and try again."
  const UnsupportedMessage := "Unsupported file type. Please upload a PDF, DOCX, or TXT file."
  const PdfFailure := "Failed to parse PDF file"
  const DocxFailure := "Failed to parse DOCX file. Make sure the file is not corrupted."
  const TextFailure := "Failed to parse text file"

  /** The `type` and `name` of the uploaded `File`. */
  datatype FileInfo = FileInfo(mimeType: string, name: string)

  /** The parsers, in the order they are tried. */
  datatype DocKind = Pdf | Docx | LegacyDoc | PlainText | Unsupported

  predicate PdfLike(mimeType: string, name: string) {
    Contains(mimeType, "pdf") || EndsWith(name, ".pdf")
  }

  predicate DocxLike(mimeType: string, name: string) {
    Contains(mimeType, "officedocument.wordprocessingml") || EndsWith(name, ".docx")
  }

  predicate DocLike(mimeType: string, name: string) {
    Contains(mimeType, "msword") || EndsWith(name, ".doc")
  }

  predicate TextLike(mimeType: string, name: string) {
    Contains(mimeType, "text") || EndsWith(name, ".txt")
  }

  /** The dispatch: the MIME type as given, the name lowercased, and the first test
      that holds decides. */
  function Classify(file: FileInfo): (k: DocKind)
    ensures var n := ToLower(file.name);
            && (k == Pdf <==> PdfLike(file.mimeType, n))
            && (k == Docx <==> !PdfLike(file.mimeType, n) && DocxLike(file.mimeType, n))
            && (k == LegacyDoc <==> !PdfLike(file.mimeType, n) && !DocxLike(file.mimeType, n) && DocLike(file.mimeType, n))
            && (k == PlainText <==> !PdfLike(file.mimeType, n) && !DocxLike(file.mimeType, n) && !DocLike(file.mimeType, n)
                                    && TextLike(file.mimeType, n))
  {
    var t := file.mimeType;
    var n := ToLower(file.name);
    if PdfLike(t, n) then Pdf
    else if DocxLike(t, n) then Docx
    else if DocLike(t, n) then LegacyDoc
    else if TextLike(t, n) then PlainText
    else Unsupported
  }

  /** Names that differ only in letter case are classified alike. */
  lemma ClassifyIgnoresNameCase(mimeType: string, a: string, b: string)
    requires ToLower(a) == ToLower(b)
    ensures Classify(FileInfo(mimeType, a)) == Classify(FileInfo(mimeType, b))
  {
  }

  /** An upper-case `.PDF` extension is still a PDF. */
  lemma UpperCaseExtension(base: string)
    ensures Classify(FileInfo("", base + ".PDF")) == Pdf
  {
    var n := ToLower(base + ".PDF");
    assert n[|n| - 4..] == ".pdf";
  }

  /** A bare name such as `resume` carries none of the four extensions. */
  lemma ResumeHasNoExtension()
    ensures var n := ToLower("resume");
            !EndsWith(n, ".pdf") && !EndsWith(n, ".docx") && !EndsWith(n, ".doc") && !EndsWith(n, ".txt")
  {
    assert ToLower("resume") == "resume";
  }

  lemma UpperMimeNoPdf()
    ensures !Contains("application/PDF", "pdf")
  {
    MissingChar("application/PDF", "pdf", 1);
  }

  lemma UpperMimeNoDocx()
    ensures !Contains("application/PDF", "officedocument.wordprocessingml")
  {
    MissingChar("application/PDF", "officedocument.wordprocessingml", 1);
  }

  lemma UpperMimeNoDoc()
    ensures !Contains("application/PDF", "msword")
  {
    MissingChar("application/PDF", "msword", 0);
  }

  lemma UpperMimeNoText()
    ensures !Contains("application/PDF", "text")
  {
    MissingChar("application/PDF", "text", 2);
  }

  lemma LowerMimeMatchesPdf()
    ensures Contains("application/pdf", "pdf")
  {
    assert OccursAt("application/pdf", "pdf", 12);
    ContainsIff("application/pdf", "pdf");
  }

  /** The MIME type is compared as given: an upper-case `PDF` in it does not count. */
  lemma MimeTypeCaseMatters()
    ensures Classify(FileInfo("application/PDF", "resume")) == Unsupported
    ensures Classify(FileInfo("application/pdf", "resume")) == Pdf
  {
    ResumeHasNoExtension();
    UpperMimeNoPdf();
    UpperMimeNoDocx();
    UpperMimeNoDoc();
    UpperMimeNoText();
    LowerMimeMatchesPdf();
  }

  // -------------------------------------------------------------- PDF text

  /** One page's line: its item strings joined by spaces, then a newline. */
  function PageLine(items: seq<string>): string {
    Join(items, " ") + "\n"
  }

  /** The text accumulated over the given pages, or `None` if one of them could not
      be read; `None` for a page is a failed `getPage` or `getTextContent`. */
  function PagesText(pages: seq<Option<seq<string>>>): Option<string>
    decreases |pages|
  {
    if pages == [] then Some("")
    else
      match PagesText(pages[..|pages| - 1])
      case None => None
      case Some(text) =>
        match pages[|pages| - 1]
        case None => None
        case Some(items) => Some(text + PageLine(items))
  }

  /** A reference reading page by page from the first: each page's line in order. */
  function PageLines(pages: seq<seq<string>>): string {
    if pages == [] then "" else PageLine(pages[0]) + PageLines(pages[1..])
  }

  lemma {:induction false} PageLinesAppend(pages: seq<seq<string>>, last: seq<string>)
    ensures PageLines(pages + [last]) == PageLines(pages) + PageLine(last)
  {
    if pages != [] {
      assert (pages + [last])[1..] == pages[1..] + [last];
      PageLinesAppend(pages[1..], last);
    }
  }

  /** The accumulated text fails exactly when some page fails, and otherwise is every
      page's line, first page first. */
  lemma {:induction false} PagesTextSpec(pages: seq<Option<seq<string>>>)
    ensures PagesText(pages).None? <==> exists k :: 0 <= k < |pages| && pages[k].None?
    ensures PagesText(pages).Some? ==>
              PagesText(pages).value == PageLines(seq(|pages|, k requires 0 <= k < |pages| => pages[k].value))
    decreases |pages|
  {
    if pages != [] {
      var init := pages[..|pages| - 1];
      PagesTextSpec(init);
      if (exists k :: 0 <= k < |init| && init[k].None?) {
        var k :| 0 <= k < |init| && init[k].None?;
        assert pages[k].None?;
      }
      if PagesText(pages).Some? {
        var all := seq(|pages|, k requires 0 <= k < |pages| => pages[k].value);
        var front := seq(|init|, k requires 0 <= k < |init| => init[k].value);
        assert all == front + [pages[|pages| - 1].value];
        PageLinesAppend(front, pages[|pages| - 1].value);
      }
    }
  }

  /** `parsePDF` given the pages pdf.js delivers, or `None` if the document could
      not be loaded. */
  function PdfText(document: Option<seq<Option<seq<string>>>>): Result<string, string> {
    if document.None? then Err(PdfFailure)
    else
      match PagesText(document.value)
      case None => Err(PdfFailure)
      case Some(text) => Ok(Trim(text))
  }

  lemma PdfTrimmed(document: Option<seq<Option<seq<string>>>>)
    ensures PdfText(document).Err? ==> PdfText(document) == Err(PdfFailure)
    ensures PdfText(document).Ok? ==>
              var t := PdfText(document).value;
              t == [] || (!IsSpace(t[0]) && !IsSpace(t[|t| - 1]))
  {
  }

  /** A prefix of the pages that fails makes the whole document fail. */
  lemma FailedPrefix(pages: seq<Option<seq<string>>>, i: nat)
    requires i <= |pages| && PagesText(pages[..i]).None?
    ensures PagesText(pages).None?
  {
    PagesTextSpec(pages[..i]);
    var k :| 0 <= k < i && pages[..i][k].None?;
    assert pages[k].None?;
    PagesTextSpec(pages);
  }

  /** `parsePDF`: the page loop. */
  method ParsePdf(document: Option<seq<Option<seq<string>>>>) returns (r: Result<string, string>)
    ensures r == PdfText(document)
  {
    if document.None? {
      return Err(PdfFailure);
    }
    var pages := document.value;
    var textContent := "";
    for i := 0 to |pages|
      invariant PagesText(pages[..i]) == Some(textContent)
    {
      assert pages[..i + 1][..i] == pages[..i];
      if pages[i].None? {
        FailedPrefix(pages, i + 1);
        return Err(PdfFailure);
      }
      textContent := textContent + (Join(pages[i].value, " ") + "\n");
    }
    assert pages[..|pages|] == pages;
    return Ok(Trim(textContent));
  }

  // ------------------------------------------------------ the whole upload

  /** What each reader would deliver for the file: the PDF pages, mammoth's raw
      text and `File.text()`, each `None` when that reader fails. */
  datatype Readers = Readers(pdf: Option<seq<Option<seq<string>>>>, docx: Option<string>, text: Option<string>)

  /** `parseDocx`: mammoth's raw text, trimmed, or the DOCX failure message. */
  function DocxText(raw: Option<string>): (r: Result<string, string>)
    ensures r.Ok? <==> raw.Some?
    ensures r.Err? ==> r.error == DocxFailure
    ensures r.Ok? ==> r.value == Trim(raw.value)
    ensures r.Ok? ==> NonSpace(r.value) == NonSpace(raw.value)
    ensures r.Ok? ==> r.value == [] || (!IsSpace(r.value[0]) && !IsSpace(r.value[|r.value| - 1]))
  {
    if raw.None? then Err(DocxFailure) else Ok(Trim(raw.value))
  }

  /** `parseText`: the file's text, unchanged, or the text failure message. */
  function PlainTextOf(raw: Option<string>): (r: Result<string, string>)
    ensures r.Ok? <==> raw.Some?
    ensures r.Ok? ==> r.value == raw.value
    ensures r.Err? ==> r.error == TextFailure
  {
    if raw.None? then Err(TextFailure) else Ok(raw.value)
  }

  /** Reading the DOCX text back in gives the same text: it is already trimmed. */
  lemma DocxReparse(raw: Option<string>)
    requires DocxText(raw).Ok?
    ensures DocxText(Some(DocxText(raw).value)) == DocxText(raw)
  {
    TrimIdempotent(raw.value);
  }

  /** Of the same text, the DOCX reader keeps the trimmed form and the plain-text
      reader the whole of it, surrounding whitespace included. */
  lemma DocxTrimsPlainText(raw: Option<string>)
    ensures DocxText(raw).Ok? <==> PlainTextOf(raw).Ok?
    ensures DocxText(raw).Ok? ==> DocxText(raw).value == Trim(PlainTextOf(raw).value)
  {
  }

  /** Every failure of an upload carries the message of the reader its kind
      selects, or the legacy or unsupported message. */
  lemma DocumentFailures(file: FileInfo, readers: Readers)
    ensures var r := DocumentText(file, readers);
            && (Classify(file) == Pdf ==> (r.Err? <==> PdfText(readers.pdf).Err?) && (r.Err? ==> r.error == PdfFailure))
            && (Classify(file) == Docx ==> (r.Err? <==> readers.docx.None?) && (r.Err? ==> r.error == DocxFailure))
            && (Classify(file) == PlainText ==> (r.Err? <==> readers.text.None?) && (r.Err? ==> r.error == TextFailure))
            && (Classify(file) == LegacyDoc ==> r == Err(LegacyDocMessage))
            && (Classify(file) == Unsupported ==> r == Err(UnsupportedMessage))
  {
    PdfTrimmed(readers.pdf);
  }

  /** `parseDocument(file)`. */
  function DocumentText(file: FileInfo, readers: Readers): Result<string, string> {
    match Classify(file)
    case Pdf => PdfText(readers.pdf)
    case Docx => DocxText(readers.docx)
    case LegacyDoc => Err(LegacyDocMessage)
    case PlainText => PlainTextOf(readers.text)
    case Unsupported => Err(UnsupportedMessage)
  }

  /** A `.doc` or `msword` file that is not also a PDF or DOCX always fails with the
      legacy message, whatever the readers would deliver. */
  lemma LegacyNeverParsed(file: FileInfo, readers: Readers)
    requires Classify(file) == LegacyDoc
    ensures DocumentText(file, readers) == Err(LegacyDocMessage)
  {
  }

  /** The result of an upload depends only on the reader its kind selects. */
  lemma OnlySelectedReader(file: FileInfo, a: Readers, b: Readers)
    requires Classify(file) == Pdf ==> a.pdf == b.pdf
    requires Classify(file) == Docx ==> a.docx == b.docx
    requires Classify(file) == PlainText ==> a.text == b.text
    ensures DocumentText(file, a) == DocumentText(file, b)
  {
  }

  /** `parseDocument`. */
  method ParseDocument(file: FileInfo, readers: Readers) returns (r: Result<string, string>)
    ensures r == DocumentText(file, readers)
  {
    var kind := Classify(file);
    if kind == Pdf {
      r := ParsePdf(readers.pdf);
    } else if kind == Docx {
      r := DocxText(readers.docx);
    } else if kind == LegacyDoc {
      r := Err(LegacyDocMessage);
    } else if kind == PlainText {
      r := PlainTextOf(readers.text);
    } else {
      r := Err(UnsupportedMessage);
    }
  }
}
