# Financial document validator: the scoring and decision core in Dafny

This project models the decision logic of a small service. The service classifies an uploaded PDF as a bank statement, as a salary slip, or as "Other".

- It extracts the document's text. It uses the native text layer, or OCR when every page's text layer is blank.
- It scores the text against a fixed keyword list per document type.
- It compares the score with a threshold: 8 for bank statements, 7 for salary slips.
- It reports metadata evidence of tampering: whether the creation and modification dates differ.

The PDF reader, the rasteriser, the OCR engine, the QR decoder and the fuzzy matcher are external libraries. The model takes what they report as inputs:

- the text layer of each page;
- the OCR reading of each page;
- the QR decoder's verdict on each page;
- the metadata dictionary, or the reason it could not be read;
- a similarity function `(string, string) -> 0..100`, which stands for `fuzz.token_set_ratio`.

Modules, one per component:

- `PyText` models the Python string builtins the code uses: `lower`, `strip`, `split`, `splitlines`, `in` and `" ".join`. The whitespace and line-break tables are CPython's.
- `Extraction` models the scanned check, the two extractors, `get_text_from_pdf` and the QR detector.
- `Scoring` holds the two keyword lists and models `keyword_match_count`. The scorer is a method whose loop over the keywords runs the loop over the lines (`BestLineScore`) for each keyword. It is proved equal to the recursive function `MatchCount`.
- `Metadata` models `is_pdf_modified`.
- `Classify` models the two route bodies without their HTTP plumbing, and the threshold comparisons.

Points where this model follows the code rather than the written description of the system:

- An empty text does not score 0 against the salary list. "Salary Slip" is in that list, and its +3 bonus does not depend on a match, so the score is exactly 3 (`Scoring.EmptyTextCounts`).
- The bank list has no "Bank Statement" entry, so the +3 bonus never applies to bank scoring (`Scoring.BankKeywordsHaveNoBonus`). A bank text therefore reaches 8 only when at least 7 keywords match (`Classify.RouteScoreFacts`).
- A document without an information dictionary makes `reader.metadata` `None`. The `.get` call then raises, so the error path runs. The result is `(False, None, "Metadata error: 'NoneType' object has no attribute 'get'")`, not `(False, None, None)` (`Metadata.MetadataScenarios`).

## Model

| member | source | states |
|---|---|---|
| `PyText.Lower` | api.py:72 | the result has the input's length, changes only the upper-case ASCII letters, and contains no upper-case letter |
| `PyText.LowerIdempotent` | api.py:77 | lower-casing twice gives the same string as lower-casing once |
| `PyText.Strip` | api.py:47 | the result is a contiguous part of the input with only whitespace cut from both ends; it is empty exactly when the input is all whitespace |
| `PyText.Split` | api.py:74 | every word is non-empty and contains no whitespace |
| `PyText.SplitHasLayout` | api.py:74 | the words of `split()` come with whitespace separators that rebuild the input: all separators are whitespace and the ones between two words are non-empty |
| `PyText.LayoutWordsAreSplit` | api.py:74 | any such layout of the input into non-empty whitespace-free words has exactly the words `split()` returns |
| `PyText.SplitCharacterised` | api.py:74 | a word list is the result of `split()` exactly when the input lays it out between whitespace separators, so the words are the maximal whitespace-free runs in order |
| `PyText.SplitEmptyIffBlank` | api.py:78 | a string has no words exactly when it is all whitespace |
| `PyText.WordSetSubsetIff` | api.py:88 | the word-set subset test holds exactly when each word of the keyword is a word of the text |
| `PyText.SplitLines` | api.py:73 | no line contains a line boundary; there are no lines exactly when the text is empty |
| `PyText.BoundaryLength` | api.py:73 | a boundary is two characters exactly when it is `\r` followed by `\n`, and one otherwise |
| `PyText.SplitLinesHasLayout` | api.py:73 | the lines of `splitlines()`, each followed by its boundary, rebuild the input; each inner boundary is one line-break character or `\r\n`; the last boundary may be absent only after a non-empty line; a lone `\r` boundary is never followed by `\n` |
| `PyText.LayoutLinesAreSplitLines` | api.py:73 | any such layout of the input into lines and boundaries has exactly the lines `splitlines()` returns |
| `PyText.SplitLinesCharacterised` | api.py:73 | a line list is the result of `splitlines()` exactly when the input lays it out between boundaries, with `\r\n` one boundary and no empty line after a final boundary |
| `PyText.ContainsIffOccurs` | api.py:87 | the recursive `k in t` test holds exactly when `k` occurs at some position of `t` |
| `PyText.JoinSpacedLength` | api.py:67 | joining n parts with spaces gives their total length plus n - 1 characters |
| `PyText.JoinSpacedAppend` | api.py:67 | joining a concatenation equals joining the two halves with one space between them |
| `Extraction.IsScannedPdf` | api.py:44-49 | the early-return loop answers "scanned" exactly when every page's text layer is all whitespace |
| `Extraction.ExtractTextWithOcr` | api.py:52-62 | the accumulated text is each page's reading followed by one space, in page order |
| `Extraction.OcrTextIsJoinedPlusSpace` | api.py:55-67 | the OCR text is empty for no pages; otherwise it is the space-joined text plus one trailing space, one character longer than the native join |
| `Extraction.ExtractTextFromPdf` | api.py:65-67 | the native text is empty for no pages; otherwise its length is the total page length plus the separators, and any split of the pages gives the two joins with one space between |
| `Extraction.GetTextFromPdf` | api.py:117-120 | the scanned flag is "all pages blank"; the text comes from OCR when scanned and from the native join otherwise |
| `Extraction.DetectQrInPdf` | api.py:34-41 | true exactly when some page's decoder verdict is true; false for no pages |
| `Scoring.BestScore` | api.py:79-83 | the best score is at least every line's score and is 0 or one line's score, so it is the maximum with 0 for no lines |
| `Scoring.BestLineScore` | api.py:80-83 | the running maximum over the lines, started at 0, ends at `BestScore`: the largest line score, 0 for no lines |
| `Scoring.KeywordPoints` | api.py:85-93 | a bonus phrase contributes 3 or 4, any other keyword 0 or 1; the extra 1 is there exactly when the keyword passes the match rule |
| `Scoring.KeywordMatchCount` | api.py:70-98 | the keyword loop, with the line loop inside it, returns `MatchCount`: the sum of the keywords' points plus the QR point |
| `Scoring.KeywordTotalDecomposes` | api.py:76-93 | the keyword total is the number of matched keywords plus 3 per bonus phrase |
| `Scoring.MatchCountBounds` | api.py:76-96 | 3 per bonus phrase is at most the count, which is at most the number of keywords + 3 per bonus phrase + 1; the count exceeds the keyword total exactly when `check_qr` is set, the path is truthy and some page has a QR code |
| `Scoring.KeywordTotalAppend` | api.py:76-93 | the total of a concatenated list is the sum of the totals of its parts |
| `Scoring.KeywordTotalPermutation` | api.py:76-93 | two keyword lists with the same elements give the same total, whatever their order |
| `Scoring.AddingKeywordNeverLowers` | api.py:76-96 | inserting a keyword anywhere in the list never lowers the count |
| `Scoring.MatchedIff` | api.py:81-90 | a keyword matches exactly when some line scores at least 80, or the keyword occurs in the text, or each of its words is a word of the text |
| `Scoring.OccurrenceEarnsPoint` | api.py:85-90 | a keyword that occurs in the text, or whose words are all words of the text, earns 1 point on top of any bonus |
| `Scoring.MatchCountIgnoresCase` | api.py:72-88 | scoring the lower-cased text, or the lower-cased keyword list, gives the same count |
| `Scoring.BonusPhraseShape` | api.py:92-93 | a bonus phrase has 11 characters and starts with s, or 14 characters and starts with b |
| `Scoring.BankKeywordsHaveNoBonus` | api.py:20-25 | no bank keyword is a bonus phrase, so the bank list's bonus count is 0 |
| `Scoring.SalaryKeywordsHaveOneBonus` | api.py:27-31 | "Salary Slip" is a bonus phrase and it is the salary list's only one |
| `Scoring.ListScoreBounds` | api.py:20-31 | on any text, the salary keywords score between 3 and 16; the bank keywords score their matched count, at most 16 |
| `Scoring.NothingMatchesEmptyText` | api.py:72-90 | against an empty text, no keyword with a non-whitespace character passes the match rule |
| `Scoring.EmptyTextScoresOnlyBonus` | api.py:76-93 | on an empty text, a list of non-blank keywords scores exactly 3 per bonus phrase |
| `Scoring.EmptyTextCounts` | api.py:20-98 | on an empty text the salary list scores exactly 3 plus any QR point, and the bank list scores only its QR point |
| `Metadata.IsPdfModified` | api.py:101-114 | modified exactly when both dates are present, non-empty and different; the dates are passed through unchanged; on failure the result is (false, None, "Metadata error: " + the reason) |
| `Metadata.MetadataScenarios` | api.py:106-114 | differing dates are reported as modified with both dates; equal dates and an empty dictionary are not; a missing dictionary takes the error path |
| `Classify.BankClassification` | api.py:135 | the label is "Bank Statement" exactly when the count is at least 8, and "Other" exactly when it is below 8 |
| `Classify.SalaryClassification` | api.py:163 | the label is "Salary Slip" exactly when the count is at least 7, and "Other" exactly when it is below 7 |
| `Classify.ClassifyBankStatement` | api.py:124-146 | no upload gives status 400 "No file uploaded"; otherwise the report has the bank score of the extracted text with the QR check on the temp path, the thresholded label, the scanned flag and the metadata evidence |
| `Classify.ClassifySalarySlip` | api.py:152-174 | no upload gives status 400 "No file uploaded"; otherwise the report has the salary score without a QR point, the thresholded label, the scanned flag and the metadata evidence |
| `Classify.EmptyDocumentIsOther` | api.py:133-163 | a document whose extracted text is empty scores exactly 3 on the salary route and at most 1 on the bank route, so both routes say "Other" |
| `Classify.RouteScoreFacts` | api.py:133-163 | the salary route scores between 3 and 16 and the bank route at most 17; "Bank Statement" needs at least 7 matched bank keywords |

## Left out

- HTTP routing, `file.save` to `temp_input.pdf`, the `finally` that removes it, and JSON serialisation are not modelled. They are I/O. The routes are modelled from the missing-file check to the assembled report.
- PDF parsing is not modelled. Per-page text layers and the metadata dictionary are inputs. A malformed PDF, and a page whose `extract_text()` returns `None`, raise in the source; the model has no such failure.
- Rasterisation, OCR and the scratch directory are not modelled. They are foreign calls and filesystem effects. Each page's OCR reading is an input, and only the concatenation rule is modelled. Exceptions from the OCR and QR backends are left out.
- QR decoding is not modelled. It is a foreign library. Each page's decoder verdict is an input.
- `fuzz.token_set_ratio` is a parameter whose only property is its result range of 0 to 100. Its algorithm belongs to an external library.
- PyText.Lower: lower-cases only the ASCII letters. Python's `str.lower` also lower-cases other Unicode letters, and sometimes changes the length.
- Classify.EmptyDocumentIsOther: holds only when the extracted text is the empty string. A scanned document with blank OCR pages yields " ", which has one line. The model does not constrain that line's fuzzy score.
- Races on the fixed temp and scratch paths between concurrent requests are out of scope. The model is sequential.
