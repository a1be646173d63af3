/**
 * The two classification routes without their HTTP plumbing: an uploaded
 * document goes through text extraction, the keyword scorer and the threshold
 * comparison, and its metadata through the tamper check.
 */
module Classify {
  import opened Wrappers
  import PyText
  import Extraction
  import Scoring
  import opened Metadata

  const THRESHOLD_BANK: nat := 8
  const THRESHOLD_SALARY: nat := 7

  const BANK_LABEL: string := "Bank Statement"
  const SALARY_LABEL: string := "Salary Slip"
  const OTHER_LABEL: string := "Other"

  /** The fixed path the upload is saved to; the bank route hands it to the QR check. */
  const TEMP_PATH: string := "temp_input.pdf"

  const NO_FILE_STATUS: nat := 400
  const NO_FILE_ERROR: string := "No file uploaded"

  /**
   * An uploaded document, as the PDF libraries see it: the text layer of each
   * page, the OCR reading of each rasterised page, the QR decoder's verdict on
   * each rasterised page, and its metadata.
   */
  datatype Pdf = Pdf(pageTexts: seq<string>, ocrTexts: seq<string>, qrPages: seq<bool>, metadata: MetadataSource)

  /** The JSON body a route returns (with its status on the error path). */
  datatype Response =
    | Rejected(status: nat, error: string)
    | Classified(classification: string, matchCount: nat, scanned: bool, pdfModified: bool,
                 creationDate: Option<string>, modificationDate: Option<string>)

  /** The bank route's label: "Bank Statement" from 8 points on, "Other" below. */
  function BankClassification(matchCount: nat): (verdict: string)
    ensures verdict == BANK_LABEL <==> matchCount >= THRESHOLD_BANK
    ensures verdict == OTHER_LABEL <==> matchCount < THRESHOLD_BANK
  {
    if matchCount >= THRESHOLD_BANK then BANK_LABEL else OTHER_LABEL
  }

  /** The salary route's label: "Salary Slip" from 7 points on, "Other" below. */
  function SalaryClassification(matchCount: nat): (verdict: string)
    ensures verdict == SALARY_LABEL <==> matchCount >= THRESHOLD_SALARY
    ensures verdict == OTHER_LABEL <==> matchCount < THRESHOLD_SALARY
  {
    if matchCount >= THRESHOLD_SALARY then SALARY_LABEL else OTHER_LABEL
  }

  /** The score the bank route computes for a document. */
  function BankScore(pdf: Pdf, fuzz: Scoring.Similarity): nat {
    Scoring.MatchCount(Extraction.DocumentText(pdf.pageTexts, pdf.ocrTexts), Scoring.BANK_KEYWORDS,
                       true, Some(TEMP_PATH), pdf.qrPages, fuzz)
  }

  /** The score the salary route computes for a document: no QR point is asked for. */
  function SalaryScore(pdf: Pdf, fuzz: Scoring.Similarity): nat {
    Scoring.MatchCount(Extraction.DocumentText(pdf.pageTexts, pdf.ocrTexts), Scoring.SALARY_KEYWORDS,
                       false, None, pdf.qrPages, fuzz)
  }

  /** `classify_bank_statement`, after the upload is saved and before it is removed. */
  method ClassifyBankStatement(upload: Option<Pdf>, fuzz: Scoring.Similarity) returns (response: Response)
    ensures upload.None? <==> response == Rejected(NO_FILE_STATUS, NO_FILE_ERROR)
    ensures upload.Some? ==>
              var pdf := upload.value;
              var evidence := IsPdfModified(pdf.metadata);
              && response.Classified?
              && response.matchCount == BankScore(pdf, fuzz)
              && (response.classification == BANK_LABEL <==> response.matchCount >= THRESHOLD_BANK)
              && (response.classification == OTHER_LABEL <==> response.matchCount < THRESHOLD_BANK)
              && (response.scanned <==> Extraction.AllPagesBlank(pdf.pageTexts))
              && response.pdfModified == evidence.pdfModified
              && response.creationDate == evidence.creationDate
              && response.modificationDate == evidence.modificationDate
  {
    if upload.None? {
      return Rejected(NO_FILE_STATUS, NO_FILE_ERROR);
    }
    var pdf := upload.value;
    var text, scanned := Extraction.GetTextFromPdf(pdf.pageTexts, pdf.ocrTexts);
    var matchCount := Scoring.KeywordMatchCount(text, Scoring.BANK_KEYWORDS, true, Some(TEMP_PATH), pdf.qrPages, fuzz);
    var classification := BankClassification(matchCount);
    var evidence := IsPdfModified(pdf.metadata);
    response := Classified(classification, matchCount, scanned, evidence.pdfModified,
                           evidence.creationDate, evidence.modificationDate);
  }

  /** `classify_salary_slip`, after the upload is saved and before it is removed. */
  method ClassifySalarySlip(upload: Option<Pdf>, fuzz: Scoring.Similarity) returns (response: Response)
    ensures upload.None? <==> response == Rejected(NO_FILE_STATUS, NO_FILE_ERROR)
    ensures upload.Some? ==>
              var pdf := upload.value;
              var evidence := IsPdfModified(pdf.metadata);
              && response.Classified?
              && response.matchCount == SalaryScore(pdf, fuzz)
              && (response.classification == SALARY_LABEL <==> response.matchCount >= THRESHOLD_SALARY)
              && (response.classification == OTHER_LABEL <==> response.matchCount < THRESHOLD_SALARY)
              && (response.scanned <==> Extraction.AllPagesBlank(pdf.pageTexts))
              && response.pdfModified == evidence.pdfModified
              && response.creationDate == evidence.creationDate
              && response.modificationDate == evidence.modificationDate
  {
    if upload.None? {
      return Rejected(NO_FILE_STATUS, NO_FILE_ERROR);
    }
    var pdf := upload.value;
    var text, scanned := Extraction.GetTextFromPdf(pdf.pageTexts, pdf.ocrTexts);
    var matchCount := Scoring.KeywordMatchCount(text, Scoring.SALARY_KEYWORDS, false, None, pdf.qrPages, fuzz);
    var classification := SalaryClassification(matchCount);
    var evidence := IsPdfModified(pdf.metadata);
    response := Classified(classification, matchCount, scanned, evidence.pdfModified,
                           evidence.creationDate, evidence.modificationDate);
  }

  /**
   * A document whose extracted text is empty is "Other" on both routes: the salary score is exactly 3, from the
   * unconditional "Salary Slip" bonus, and the bank score is at most 1.
   */
  lemma EmptyDocumentIsOther(pdf: Pdf, fuzz: Scoring.Similarity)
    requires Extraction.DocumentText(pdf.pageTexts, pdf.ocrTexts) == ""
    ensures SalaryScore(pdf, fuzz) == 3
    ensures BankScore(pdf, fuzz) <= 1
    ensures SalaryClassification(SalaryScore(pdf, fuzz)) == OTHER_LABEL
    ensures BankClassification(BankScore(pdf, fuzz)) == OTHER_LABEL
  {
    Scoring.EmptyTextCounts(true, Some(TEMP_PATH), pdf.qrPages, fuzz);
    Scoring.EmptyTextCounts(false, None, pdf.qrPages, fuzz);
  }

  /**
   * The salary route reports between 3 and 16 points, the bank route at most
   * 17, and the bank route says "Bank Statement" only when at least 7 of its 16
   * keywords pass the match rule.
   */
  lemma RouteScoreFacts(pdf: Pdf, fuzz: Scoring.Similarity)
    ensures 3 <= SalaryScore(pdf, fuzz) <= 16
    ensures BankScore(pdf, fuzz) <= 17
    ensures BankClassification(BankScore(pdf, fuzz)) == BANK_LABEL
            ==> Scoring.MatchedCount(Scoring.BANK_KEYWORDS,
                                     PyText.Lower(Extraction.DocumentText(pdf.pageTexts, pdf.ocrTexts)), fuzz) >= 7
  {
    var lowered := PyText.Lower(Extraction.DocumentText(pdf.pageTexts, pdf.ocrTexts));
    Scoring.ListScoreBounds(lowered, fuzz);
    assert Scoring.QrPoint(false, None, pdf.qrPages) == 0;
  }
}
