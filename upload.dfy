/**
 * The `/upload-resume` handler: choose a text extractor from the filename
 * suffix, run it, and refuse a document whose text is blank.
 *
 * The extractors themselves (PyMuPDF, python-docx) are foreign code: each is
 * represented by the outcome it would have on the uploaded bytes, either the
 * text or the message of the exception it raised.
 */
module Upload {
  import opened Wrappers
  import opened Text

  datatype Extractor = Pdf | Docx

  datatype UploadResponse = UploadResponse(filename: string, text: string, textLength: nat)

  const UnsupportedType := "Unsupported file type. Please upload PDF or DOCX file."
  const NoText := "No text found in the document"

  /** The suffix dispatch: `.pdf` first, then `.doc` or `.docx`, otherwise 400. */
  function SelectExtractor(filename: string): (r: Result<Extractor, HttpError>)
    ensures r == Success(Pdf) <==> EndsWith(filename, ".pdf")
    ensures r == Success(Docx) <==>
      !EndsWith(filename, ".pdf") && (EndsWith(filename, ".doc") || EndsWith(filename, ".docx"))
    ensures r.Failure? ==> r.error == HttpError(BadRequest, UnsupportedType)
  {
    if EndsWith(filename, ".pdf") then Success(Pdf)
    else if EndsWith(filename, ".doc") || EndsWith(filename, ".docx") then Success(Docx)
    else Failure(HttpError(BadRequest, UnsupportedType))
  }

  /** Only the suffix decides, and it is matched case-sensitively. */
  lemma SuffixDecides(stem: string)
    ensures SelectExtractor(stem + ".pdf") == Success(Pdf)
    ensures SelectExtractor(stem + ".docx") == Success(Docx)
    ensures SelectExtractor(stem + ".doc") == Success(Docx)
    ensures SelectExtractor(stem + ".PDF").Failure?
    ensures SelectExtractor(stem + ".txt").Failure?
  {
    assert (stem + ".pdf")[|stem + ".pdf"| - 4..] == ".pdf";
    assert (stem + ".docx")[|stem + ".docx"| - 5..] == ".docx";
    assert (stem + ".docx")[|stem + ".docx"| - 4..] == "docx";
    assert (stem + ".doc")[|stem + ".doc"| - 4..] == ".doc";
    assert (stem + ".PDF")[|stem + ".PDF"| - 4..] == ".PDF";
    assert (stem + ".txt")[|stem + ".txt"| - 4..] == ".txt";
  }

  /** The text of the uploaded file, or the 400 its extractor raised. */
  function ExtractText(filename: string, pdf: Result<string, string>, docx: Result<string, string>)
    : (r: Result<string, HttpError>)
    ensures r.Failure? ==> r.error.status == BadRequest
    ensures r.Success? <==>
      (SelectExtractor(filename) == Success(Pdf) && pdf.Success?)
      || (SelectExtractor(filename) == Success(Docx) && docx.Success?)
    ensures SelectExtractor(filename).Failure? ==> r == Failure(HttpError(BadRequest, UnsupportedType))
    ensures SelectExtractor(filename) == Success(Pdf) && r.Success? ==> pdf == Success(r.value)
    ensures SelectExtractor(filename) == Success(Docx) && r.Success? ==> docx == Success(r.value)
    ensures SelectExtractor(filename) == Success(Pdf) && pdf.Failure? ==>
      r.error.detail == "Error reading PDF: " + pdf.error
    ensures SelectExtractor(filename) == Success(Docx) && docx.Failure? ==>
      r.error.detail == "Error reading DOCX: " + docx.error
  {
    match SelectExtractor(filename)
    case Failure(e) => Failure(e)
    case Success(Pdf) =>
      (match pdf
       case Success(text) => Success(text)
       case Failure(msg) => Failure(HttpError(BadRequest, "Error reading PDF: " + msg)))
    case Success(Docx) =>
      (match docx
       case Success(text) => Success(text)
       case Failure(msg) => Failure(HttpError(BadRequest, "Error reading DOCX: " + msg)))
  }

  /** `upload_resume`: the extracted text, refused with 400 when it strips to nothing. */
  function UploadResume(filename: string, pdf: Result<string, string>, docx: Result<string, string>)
    : (r: Result<UploadResponse, HttpError>)
    ensures r.Failure? ==> r.error.status == BadRequest
    ensures SelectExtractor(filename).Failure? ==> r == Failure(HttpError(BadRequest, UnsupportedType))
    ensures ExtractText(filename, pdf, docx).Failure? ==> r == Failure(ExtractText(filename, pdf, docx).error)
    ensures ExtractText(filename, pdf, docx).Success? && IsBlank(ExtractText(filename, pdf, docx).value) ==>
      r == Failure(HttpError(BadRequest, NoText))
    ensures r.Success? <==>
      ExtractText(filename, pdf, docx).Success? && !IsBlank(ExtractText(filename, pdf, docx).value)
    ensures r.Success? ==>
      && r.value.filename == filename
      && r.value.text == ExtractText(filename, pdf, docx).value
      && r.value.textLength == |r.value.text|
      && (EndsWith(filename, ".pdf") ==> pdf == Success(r.value.text))
      && (!EndsWith(filename, ".pdf") ==> docx == Success(r.value.text))
  {
    match ExtractText(filename, pdf, docx)
    case Failure(e) => Failure(e)
    case Success(text) =>
      StripEmptyIffBlank(text);
      if Strip(text) == [] then Failure(HttpError(BadRequest, NoText))
      else Success(UploadResponse(filename, text, |text|))
  }
}
