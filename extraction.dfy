/**
 * Text extraction and the QR signal, over what the PDF libraries report per
 * page: the text layer of each page (`page.extract_text()`), the OCR reading
 * of each rasterised page (`pytesseract.image_to_string`), and whether the QR
 * decoder finds a code on each rasterised page (`pyzbar` `decode`).
 */
module Extraction {
  import opened PyText

  /** Every page's text layer strips to the empty string. */
  predicate AllPagesBlank(pageTexts: seq<string>) {
    forall i :: 0 <= i < |pageTexts| ==> AllSpace(pageTexts[i])
  }

  /**
   * `is_scanned_pdf`: scans the pages in order and answers "not scanned" at
   * the first page whose text layer is not blank.
   */
  method IsScannedPdf(pageTexts: seq<string>) returns (scanned: bool)
    ensures scanned <==> AllPagesBlank(pageTexts)
  {
    for i := 0 to |pageTexts|
      invariant forall j :: 0 <= j < i ==> AllSpace(pageTexts[j])
    {
      if Strip(pageTexts[i]) != "" {
        return false;
      }
    }
    return true;
  }

  /** The OCR text of the pages: each page's reading followed by one space. */
  function OcrText(ocrTexts: seq<string>): string
    decreases |ocrTexts|
  {
    if ocrTexts == [] then ""
    else OcrText(ocrTexts[..|ocrTexts| - 1]) + ocrTexts[|ocrTexts| - 1] + " "
  }

  /** `extract_text_with_ocr`: appends each page's reading and a space to `full_text`. */
  method ExtractTextWithOcr(ocrTexts: seq<string>) returns (fullText: string)
    ensures fullText == OcrText(ocrTexts)
  {
    fullText := "";
    for i := 0 to |ocrTexts|
      invariant fullText == OcrText(ocrTexts[..i])
    {
      assert ocrTexts[..i + 1][..i] == ocrTexts[..i];
      fullText := fullText + ocrTexts[i] + " ";
    }
    assert ocrTexts[..|ocrTexts|] == ocrTexts;
  }

  /**
   * The two concatenation rules differ only in the final space: the OCR text
   * is the space-joined text with one more space, and empty for no pages.
   */
  lemma {:induction false} OcrTextIsJoinedPlusSpace(ocrTexts: seq<string>)
    ensures ocrTexts == [] ==> OcrText(ocrTexts) == ""
    ensures ocrTexts != [] ==> OcrText(ocrTexts) == JoinSpaced(ocrTexts) + " "
    ensures |OcrText(ocrTexts)| == TotalLength(ocrTexts) + |ocrTexts|
    decreases |ocrTexts|
  {
    if ocrTexts != [] {
      var init := ocrTexts[..|ocrTexts| - 1];
      OcrTextIsJoinedPlusSpace(init);
      if init == [] {
        assert |ocrTexts| == 1;
      }
    }
  }

  /** `extract_text_from_pdf`: the text layers joined with single spaces, in page order. */
  function ExtractTextFromPdf(pageTexts: seq<string>): (text: string)
    ensures pageTexts == [] ==> text == ""
    ensures pageTexts != [] ==> |text| == TotalLength(pageTexts) + |pageTexts| - 1
    ensures forall a, b :: a != [] && b != [] && pageTexts == a + b ==>
              text == JoinSpaced(a) + " " + JoinSpaced(b)
  {
    JoinSpacedLength(pageTexts);
    JoinSpacedAppendAll(pageTexts);
    JoinSpaced(pageTexts)
  }

  lemma JoinSpacedAppendAll(parts: seq<string>)
    ensures forall a, b :: a != [] && b != [] && parts == a + b ==>
              JoinSpaced(parts) == JoinSpaced(a) + " " + JoinSpaced(b)
  {
    forall a, b | a != [] && b != [] && parts == a + b
      ensures JoinSpaced(parts) == JoinSpaced(a) + " " + JoinSpaced(b)
    {
      JoinSpacedAppend(a, b);
    }
  }

  /** The text `get_text_from_pdf` yields: OCR for a scanned document, the text layers otherwise. */
  function DocumentText(pageTexts: seq<string>, ocrTexts: seq<string>): string {
    if AllPagesBlank(pageTexts) then OcrText(ocrTexts) else ExtractTextFromPdf(pageTexts)
  }

  /** `get_text_from_pdf`: the scanned check decides which extractor runs. */
  method GetTextFromPdf(pageTexts: seq<string>, ocrTexts: seq<string>) returns (text: string, scanned: bool)
    ensures scanned <==> AllPagesBlank(pageTexts)
    ensures scanned ==> text == OcrText(ocrTexts)
    ensures !scanned ==> text == ExtractTextFromPdf(pageTexts)
    ensures text == DocumentText(pageTexts, ocrTexts)
  {
    scanned := IsScannedPdf(pageTexts);
    if scanned {
      text := ExtractTextWithOcr(ocrTexts);
    } else {
      text := ExtractTextFromPdf(pageTexts);
    }
  }

  /** Some rasterised page carries a QR code the decoder reads. */
  predicate HasQrCode(qrPages: seq<bool>) {
    true in qrPages
  }

  /** `detect_qr_in_pdf`: true at the first page with a decoded code, false for none or no pages. */
  method DetectQrInPdf(qrPages: seq<bool>) returns (found: bool)
    ensures found <==> exists i :: 0 <= i < |qrPages| && qrPages[i]
    ensures found == HasQrCode(qrPages)
  {
    for i := 0 to |qrPages|
      invariant forall j :: 0 <= j < i ==> !qrPages[j]
    {
      if qrPages[i] {
        return true;
      }
    }
    return false;
  }
}
