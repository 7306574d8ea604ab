/**
 * Resume text extraction: dispatch on the upload's content type to the PDF
 * or DOCX extractor, join and strip the text, and wrap every failure of an
 * extractor (its own "could not extract" included) into a 500.
 */
module FileParser {
  import opened Wrappers
  import Text
  import PyRuntime

  type Bytes = seq<bv8>

  /** What a call into pdfminer or python-docx does: return a value or raise. */
  type Lib<T> = PyRuntime.Raises<T>

  /** The two extractors, left uninterpreted: pdfminer's extract_text, and the paragraph texts python-docx reads. */
  datatype Extractors = Extractors(
    pdfText: Bytes -> Lib<string>,
    docxParagraphs: Bytes -> Lib<seq<string>>)

  const PdfType := "application/pdf"
  const DocxType := "application/vnd.openxmlformats-officedocument.wordprocessingml.document"

  const PdfErrorPrefix := "PDF parsing error: "
  const DocxErrorPrefix := "DOCX parsing error: "
  const NoPdfText := "Could not extract text from PDF. The file might be empty or corrupted."
  const NoDocxText := "Could not extract text from DOCX. The file might be empty or corrupted."
  const UnsupportedType := "Unsupported file type. Only PDF and DOCX files are supported."

  /** A successful parse: stripped and non-empty. */
  predicate StrippedText(s: string) {
    s != [] && Text.Trim(Text.Py, s) == s
  }

  /** A failed parse as the caller sees it: a 500 whose detail starts with the parser's prefix. */
  predicate ParseFailure(e: PyRuntime.PyExc, prefix: string) {
    e.HTTPException? && e.status == 500 && prefix <= e.detail
  }

  /** Trimming a non-blank string gives a stripped, non-empty string. */
  lemma TrimmedIsStripped(s: string)
    requires !Text.Blank(Text.Py, s)
    ensures StrippedText(Text.Trim(Text.Py, s))
  {
    Text.TrimEmptyIffBlank(Text.Py, s);
    Text.TrimIdempotent(Text.Py, s);
  }

  /** The `except Exception` around an extractor: whatever was raised becomes a 500 with the prefix. */
  function Wrap(prefix: string, e: PyRuntime.PyExc): (w: PyRuntime.PyExc)
    ensures ParseFailure(w, prefix)
  {
    PyRuntime.HTTPException(500, prefix + PyRuntime.Str(e))
  }

  /**
   * parse_pdf: the stripped text when pdfminer returns non-blank text. A
   * blank text raises the 400 "could not extract", which the catch-all turns
   * into a 500 like any library failure.
   */
  function ParsePdf(bytes: Bytes, ex: Extractors): (r: Lib<string>)
    ensures r.Ok? <==> ex.pdfText(bytes).Ok? && !Text.Blank(Text.Py, ex.pdfText(bytes).value)
    ensures r.Ok? ==> StrippedText(r.value) && r.value == Text.Trim(Text.Py, ex.pdfText(bytes).value)
    ensures r.Err? ==> ParseFailure(r.error, PdfErrorPrefix)
    ensures ex.pdfText(bytes).Ok? && Text.Blank(Text.Py, ex.pdfText(bytes).value) ==>
              r == Err(Wrap(PdfErrorPrefix, PyRuntime.HTTPException(400, NoPdfText)))
  {
    match ex.pdfText(bytes)
    case Err(e) => Err(Wrap(PdfErrorPrefix, e))
    case Ok(text) =>
      Text.TrimEmptyIffBlank(Text.Py, text);
      if Text.Trim(Text.Py, text) == [] then Err(Wrap(PdfErrorPrefix, PyRuntime.HTTPException(400, NoPdfText)))
      else
        TrimmedIsStripped(text);
        Ok(Text.Trim(Text.Py, text))
  }

  /** The paragraphs whose stripped text is non-empty, in document order. */
  function NonBlankParagraphs(paragraphs: seq<string>): (kept: seq<string>)
    ensures paragraphs == [] ==> kept == []
    ensures |kept| <= |paragraphs|
    ensures forall p :: p in kept <==> p in paragraphs && !Text.Blank(Text.Py, p)
  {
    Text.TrimEmptyIffBlank(Text.Py, if paragraphs == [] then "" else paragraphs[0]);
    if paragraphs == [] then []
    else if Text.Trim(Text.Py, paragraphs[0]) != [] then [paragraphs[0]] + NonBlankParagraphs(paragraphs[1..])
    else NonBlankParagraphs(paragraphs[1..])
  }

  /**
   * One more paragraph at the end of the document adds itself at the end of
   * what is kept unless it is blank: together with the empty case this fixes
   * the order and the repetitions of what the loop collects.
   */
  lemma {:induction false} NonBlankParagraphsSnoc(paragraphs: seq<string>, p: string)
    ensures NonBlankParagraphs(paragraphs + [p]) ==
            NonBlankParagraphs(paragraphs) + (if Text.Blank(Text.Py, p) then [] else [p])
    decreases |paragraphs|
  {
    if paragraphs == [] {
      assert paragraphs + [p] == [p] && [p][1..] == [];
      Text.TrimEmptyIffBlank(Text.Py, p);
    } else {
      assert (paragraphs + [p])[0] == paragraphs[0];
      assert (paragraphs + [p])[1..] == paragraphs[1..] + [p];
      NonBlankParagraphsSnoc(paragraphs[1..], p);
    }
  }

  /** `"\n".join(...)` of the non-blank paragraphs is blank exactly when there are none. */
  lemma JoinedParagraphsBlank(paragraphs: seq<string>)
    ensures Text.Blank(Text.Py, Text.Join(NonBlankParagraphs(paragraphs), "\n")) <==> NonBlankParagraphs(paragraphs) == []
  {
    var kept := NonBlankParagraphs(paragraphs);
    Text.JoinBlankIff(Text.Py, kept, "\n");
    if kept != [] {
      assert kept[0] in kept;
    }
  }

  /**
   * parse_docx: the non-blank paragraphs joined with newlines, stripped; no
   * such paragraph raises the 400, which the catch-all turns into a 500 like
   * any library failure.
   */
  function ParseDocx(bytes: Bytes, ex: Extractors): (r: Lib<string>)
    ensures r.Ok? <==> ex.docxParagraphs(bytes).Ok? && NonBlankParagraphs(ex.docxParagraphs(bytes).value) != []
    ensures r.Ok? ==>
              StrippedText(r.value) &&
              r.value == Text.Trim(Text.Py, Text.Join(NonBlankParagraphs(ex.docxParagraphs(bytes).value), "\n"))
    ensures r.Err? ==> ParseFailure(r.error, DocxErrorPrefix)
    ensures ex.docxParagraphs(bytes).Ok? && NonBlankParagraphs(ex.docxParagraphs(bytes).value) == [] ==>
              r == Err(Wrap(DocxErrorPrefix, PyRuntime.HTTPException(400, NoDocxText)))
  {
    match ex.docxParagraphs(bytes)
    case Err(e) => Err(Wrap(DocxErrorPrefix, e))
    case Ok(paragraphs) =>
      var text := Text.Join(NonBlankParagraphs(paragraphs), "\n");
      JoinedParagraphsBlank(paragraphs);
      Text.TrimEmptyIffBlank(Text.Py, text);
      if Text.Trim(Text.Py, text) == [] then Err(Wrap(DocxErrorPrefix, PyRuntime.HTTPException(400, NoDocxText)))
      else
        TrimmedIsStripped(text);
        Ok(Text.Trim(Text.Py, text))
  }

  /**
   * extract_text_from_file: PDF to parse_pdf, DOCX to parse_docx, anything
   * else a 400. Success is always stripped, non-empty text.
   */
  function ExtractText(bytes: Bytes, contentType: string, ex: Extractors): (r: Lib<string>)
    ensures contentType == PdfType ==> r == ParsePdf(bytes, ex)
    ensures contentType == DocxType ==> r == ParseDocx(bytes, ex)
    ensures contentType != PdfType && contentType != DocxType ==>
              r == Err(PyRuntime.HTTPException(400, UnsupportedType))
    ensures r.Ok? ==> StrippedText(r.value)
    ensures r.Err? ==> r.error.HTTPException? && (r.error.status == 400 || r.error.status == 500)
  {
    if contentType == PdfType then ParsePdf(bytes, ex)
    else if contentType == DocxType then ParseDocx(bytes, ex)
    else Err(PyRuntime.HTTPException(400, UnsupportedType))
  }

  /**
   * The catch-all swallows the parsers' own 400: a PDF with no text reaches
   * the caller as a 500 whose detail embeds "400: " and the original message.
   */
  lemma BlankPdfBecomes500(bytes: Bytes, ex: Extractors)
    requires ex.pdfText(bytes).Ok? && Text.Blank(Text.Py, ex.pdfText(bytes).value)
    ensures ExtractText(bytes, PdfType, ex) ==
              Err(PyRuntime.HTTPException(500, PdfErrorPrefix + "400: " + NoPdfText))
  {
    assert Text.NatToString(4) == "4";
    assert Text.NatToString(40) == "40";
    assert Text.NatToString(400) == "400";
    var e := PyRuntime.HTTPException(400, NoPdfText);
    assert PyRuntime.Str(e) == "400: " + NoPdfText;
    assert PdfErrorPrefix + ("400: " + NoPdfText) == PdfErrorPrefix + "400: " + NoPdfText;
    assert Wrap(PdfErrorPrefix, e) == PyRuntime.HTTPException(500, PdfErrorPrefix + "400: " + NoPdfText);
    assert ExtractText(bytes, PdfType, ex) == ParsePdf(bytes, ex);
  }
}
