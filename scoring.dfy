/**
 * The keyword scorer `keyword_match_count` and the two keyword lists.
 *
 * A keyword earns 1 when its best fuzzy score over the text's lines reaches
 * 80, when it occurs in the text, or when all its words are words of the
 * text (all of this after lower-casing). A keyword that reads "salary slip"
 * or "bank statement" earns 3 more, whatever the text. A QR code found in the
 * document earns 1 at the end when the caller asks for it.
 */
module Scoring {
  import opened Wrappers
  import opened PyText
  import Extraction

  /** A similarity score in the range of `fuzz.token_set_ratio`. */
  type Ratio = r: int | 0 <= r <= 100

  /**
   * `fuzz.token_set_ratio(keyword, line)`: kept uninterpreted, so every
   * property below holds for any similarity function with results in 0..100.
   */
  type Similarity = (string, string) -> Ratio

  const FUZZY_CUTOFF: int := 80
  const BONUS_POINTS: nat := 3

  const BANK_KEYWORDS: seq<string> := [
    "Statement of Account", "Account Number", "Account No.", "Account #",
    "Debit", "Credit", "Deposit", "Withdrawal",
    "Account Title", "Account Name", "Customer Name", "Cust. Name",
    "Description", "Transaction Detail", "Voucher Narration", "IBAN"
  ]

  const SALARY_KEYWORDS: seq<string> := [
    "Wages", "Pay Slip", "Salary Slip", "Earning", "Deduction",
    "Account Number", "Account No.", "Account #",
    "Net Amount", "Basic Salary", "Allowances", "Payment Date", "IBAN"
  ]

  /** The two phrases that earn the unconditional bonus. */
  predicate IsBonusPhrase(keyword: string) {
    var k := Lower(keyword);
    k == "salary slip" || k == "bank statement"
  }

  /** `best_score`: the largest similarity of the keyword to any line, 0 when there are no lines. */
  function BestScore(keywordLower: string, lines: seq<string>, fuzz: Similarity): (best: Ratio)
    ensures forall i :: 0 <= i < |lines| ==> fuzz(keywordLower, lines[i]) <= best
    ensures best == 0 || exists i :: 0 <= i < |lines| && best == fuzz(keywordLower, lines[i])
    decreases |lines|
  {
    if lines == [] then 0
    else
      var init := lines[..|lines| - 1];
      var best := BestScore(keywordLower, init, fuzz);
      var score := fuzz(keywordLower, lines[|lines| - 1]);
      assert forall i :: 0 <= i < |init| ==> init[i] == lines[i];
      if best < score then score else best
  }

  /** The three tests of the match rule, on the lower-cased keyword and text. */
  predicate Matched(keywordLower: string, loweredText: string, fuzz: Similarity) {
    || BestScore(keywordLower, SplitLines(loweredText), fuzz) >= FUZZY_CUTOFF
    || Contains(loweredText, keywordLower)
    || WordSet(keywordLower) <= WordSet(loweredText)
  }

  /** What one keyword adds to the count. */
  function KeywordPoints(keyword: string, loweredText: string, fuzz: Similarity): (points: nat)
    ensures IsBonusPhrase(keyword) ==> points == 3 || points == 4
    ensures !IsBonusPhrase(keyword) ==> points <= 1
    ensures points % 3 == 1 <==> Matched(Lower(keyword), loweredText, fuzz)
  {
    (if Matched(Lower(keyword), loweredText, fuzz) then 1 else 0)
    + (if IsBonusPhrase(keyword) then BONUS_POINTS else 0)
  }

  /** The sum of the keywords' points. */
  function KeywordTotal(keywords: seq<string>, loweredText: string, fuzz: Similarity): nat
    decreases |keywords|
  {
    if keywords == [] then 0
    else
      KeywordTotal(keywords[..|keywords| - 1], loweredText, fuzz)
      + KeywordPoints(keywords[|keywords| - 1], loweredText, fuzz)
  }

  /** The final point: asked for, a truthy path, and a QR code in the document. */
  function QrPoint(checkQr: bool, pdfPath: Option<string>, qrPages: seq<bool>): nat {
    if checkQr && Truthy(pdfPath) && Extraction.HasQrCode(qrPages) then 1 else 0
  }

  /** The value `keyword_match_count` returns. */
  function MatchCount(text: string, keywords: seq<string>, checkQr: bool, pdfPath: Option<string>,
                      qrPages: seq<bool>, fuzz: Similarity): nat
  {
    KeywordTotal(keywords, Lower(text), fuzz) + QrPoint(checkQr, pdfPath, qrPages)
  }

  /** The inner loop of `keyword_match_count`: the running maximum of the line scores, from 0. */
  method BestLineScore(keywordLower: string, lines: seq<string>, fuzz: Similarity) returns (bestScore: Ratio)
    ensures bestScore == BestScore(keywordLower, lines, fuzz)
  {
    bestScore := 0;
    for j := 0 to |lines|
      invariant bestScore == BestScore(keywordLower, lines[..j], fuzz)
    {
      var score := fuzz(keywordLower, lines[j]);
      assert lines[..j + 1][..j] == lines[..j];
      bestScore := if bestScore < score then score else bestScore;
    }
    assert lines[..|lines|] == lines;
  }

  /**
   * `keyword_match_count`: one pass over the keywords, an inner pass over the
   * lines for the best fuzzy score, then the optional QR point. `qrPages` is
   * what the QR decoder reports for the document stored at `pdfPath`.
   */
  method KeywordMatchCount(text: string, keywordList: seq<string>, checkQr: bool, pdfPath: Option<string>,
                           qrPages: seq<bool>, fuzz: Similarity)
    returns (matched: nat)
    ensures matched == MatchCount(text, keywordList, checkQr, pdfPath, qrPages, fuzz)
  {
    matched := 0;
    var loweredText := Lower(text);
    var lines := SplitLines(loweredText);
    var textWords := WordSet(loweredText);

    for k := 0 to |keywordList|
      invariant matched == KeywordTotal(keywordList[..k], loweredText, fuzz)
    {
      var keyword := keywordList[k];
      var keywordLower := Lower(keyword);
      var keywordWords := WordSet(keywordLower);
      var bestScore := BestLineScore(keywordLower, lines, fuzz);
      assert Matched(keywordLower, loweredText, fuzz)
        <==> bestScore >= FUZZY_CUTOFF || Contains(loweredText, keywordLower) || keywordWords <= textWords;
      ghost var before := matched;

      if bestScore >= FUZZY_CUTOFF || Contains(loweredText, keywordLower) || keywordWords <= textWords {
        matched := matched + 1;
      }
      if Lower(keyword) == "salary slip" || Lower(keyword) == "bank statement" {
        matched := matched + BONUS_POINTS;
      }
      assert matched == before + KeywordPoints(keyword, loweredText, fuzz);
      assert keywordList[..k + 1][..k] == keywordList[..k];
    }
    assert keywordList[..|keywordList|] == keywordList;

    if checkQr && Truthy(pdfPath) {
      var found := Extraction.DetectQrInPdf(qrPages);
      if found {
        matched := matched + 1;
      }
    }
  }

  // ---------------------------------------------------------------- the count as a sum

  /** The number of keywords that pass the match rule. */
  function MatchedCount(keywords: seq<string>, loweredText: string, fuzz: Similarity): nat
    decreases |keywords|
  {
    if keywords == [] then 0
    else
      MatchedCount(keywords[..|keywords| - 1], loweredText, fuzz)
      + (if Matched(Lower(keywords[|keywords| - 1]), loweredText, fuzz) then 1 else 0)
  }

  /** The number of bonus phrases in the list. */
  function BonusCount(keywords: seq<string>): nat
    decreases |keywords|
  {
    if keywords == [] then 0
    else BonusCount(keywords[..|keywords| - 1]) + (if IsBonusPhrase(keywords[|keywords| - 1]) then 1 else 0)
  }

  /** The keyword part of the count is one point per matched keyword plus three per bonus phrase. */
  lemma {:induction false} KeywordTotalDecomposes(keywords: seq<string>, loweredText: string, fuzz: Similarity)
    ensures KeywordTotal(keywords, loweredText, fuzz)
            == MatchedCount(keywords, loweredText, fuzz) + BONUS_POINTS * BonusCount(keywords)
    ensures MatchedCount(keywords, loweredText, fuzz) <= |keywords|
    ensures BonusCount(keywords) <= |keywords|
    decreases |keywords|
  {
    if keywords != [] {
      KeywordTotalDecomposes(keywords[..|keywords| - 1], loweredText, fuzz);
    }
  }

  /**
   * Bounds on the whole count: at least three per bonus phrase, at most one
   * per keyword plus three per bonus phrase plus the QR point; the QR point is
   * there only when asked for, with a truthy path and a code in the document.
   */
  lemma MatchCountBounds(text: string, keywords: seq<string>, checkQr: bool, pdfPath: Option<string>,
                         qrPages: seq<bool>, fuzz: Similarity)
    ensures var count := MatchCount(text, keywords, checkQr, pdfPath, qrPages, fuzz);
            BONUS_POINTS * BonusCount(keywords) <= count <= |keywords| + BONUS_POINTS * BonusCount(keywords) + 1
    ensures MatchCount(text, keywords, checkQr, pdfPath, qrPages, fuzz) > KeywordTotal(keywords, Lower(text), fuzz)
            <==> checkQr && Truthy(pdfPath) && exists i :: 0 <= i < |qrPages| && qrPages[i]
  {
    KeywordTotalDecomposes(keywords, Lower(text), fuzz);
  }

  /** The count of a concatenated list is the sum of the counts of its parts. */
  lemma {:induction false} KeywordTotalAppend(a: seq<string>, b: seq<string>, loweredText: string, fuzz: Similarity)
    ensures KeywordTotal(a + b, loweredText, fuzz) == KeywordTotal(a, loweredText, fuzz) + KeywordTotal(b, loweredText, fuzz)
    decreases |b|
  {
    if b == [] {
      assert a + b == a;
    } else {
      assert (a + b)[..|a + b| - 1] == a + b[..|b| - 1];
      KeywordTotalAppend(a, b[..|b| - 1], loweredText, fuzz);
    }
  }

  /** Removing the `j`-th keyword subtracts exactly that keyword's points. */
  lemma KeywordTotalRemoveAt(b: seq<string>, j: nat, loweredText: string, fuzz: Similarity)
    requires j < |b|
    ensures KeywordTotal(b, loweredText, fuzz)
            == KeywordTotal(b[..j] + b[j + 1..], loweredText, fuzz) + KeywordPoints(b[j], loweredText, fuzz)
  {
    var x := b[j];
    assert b == (b[..j] + [x]) + b[j + 1..];
    KeywordTotalAppend(b[..j] + [x], b[j + 1..], loweredText, fuzz);
    KeywordTotalAppend(b[..j], [x], loweredText, fuzz);
    KeywordTotalAppend(b[..j], b[j + 1..], loweredText, fuzz);
    assert [x][..0] == [];
  }

  lemma MultisetRemoveAt(a: seq<string>, b: seq<string>, j: nat)
    requires multiset(a) == multiset(b) && a != [] && j < |b| && b[j] == a[|a| - 1]
    ensures multiset(a[..|a| - 1]) == multiset(b[..j] + b[j + 1..])
  {
    var x := b[j];
    assert a == a[..|a| - 1] + [x];
    assert b == b[..j] + [x] + b[j + 1..];
    calc {
      multiset(b[..j] + b[j + 1..]);
      multiset(b[..j]) + multiset(b[j + 1..]);
      multiset(b) - multiset([x]);
      multiset(a) - multiset([x]);
      multiset(a[..|a| - 1]);
    }
  }

  /** Reordering the keyword list leaves the count unchanged. */
  lemma {:induction false} KeywordTotalPermutation(a: seq<string>, b: seq<string>, loweredText: string, fuzz: Similarity)
    requires multiset(a) == multiset(b)
    ensures KeywordTotal(a, loweredText, fuzz) == KeywordTotal(b, loweredText, fuzz)
    decreases |a|
  {
    if a == [] {
      assert |b| == |multiset(b)| == 0;
    } else {
      var x := a[|a| - 1];
      assert x in multiset(b) by {
        assert x in multiset(a);
      }
      var j :| 0 <= j < |b| && b[j] == x;
      MultisetRemoveAt(a, b, j);
      KeywordTotalPermutation(a[..|a| - 1], b[..j] + b[j + 1..], loweredText, fuzz);
      KeywordTotalRemoveAt(b, j, loweredText, fuzz);
    }
  }

  /** Adding a keyword anywhere in the list never lowers the count. */
  lemma AddingKeywordNeverLowers(text: string, a: seq<string>, b: seq<string>, keyword: string, checkQr: bool,
                                 pdfPath: Option<string>, qrPages: seq<bool>, fuzz: Similarity)
    ensures MatchCount(text, a + [keyword] + b, checkQr, pdfPath, qrPages, fuzz)
            >= MatchCount(text, a + b, checkQr, pdfPath, qrPages, fuzz)
  {
    var t := Lower(text);
    KeywordTotalAppend(a + [keyword], b, t, fuzz);
    KeywordTotalAppend(a, b, t, fuzz);
    assert (a + [keyword])[..|a|] == a;
  }

  // ---------------------------------------------------------------- the match rule

  /**
   * A keyword passes the match rule exactly when some line scores at least 80
   * against it, or it occurs at some position of the text, or each of its
   * words is a word of the text.
   */
  lemma MatchedIff(keyword: string, text: string, fuzz: Similarity)
    ensures var k, t := Lower(keyword), Lower(text);
            Matched(k, t, fuzz)
            <==> || (exists line :: line in SplitLines(t) && fuzz(k, line) >= FUZZY_CUTOFF)
                 || (exists i :: OccursAt(k, t, i))
                 || (forall w :: w in Split(k) ==> w in Split(t))
  {
    var k, t := Lower(keyword), Lower(text);
    ContainsIffOccurs(t, k);
    var lines := SplitLines(t);
    var best := BestScore(k, lines, fuzz);
    if best >= FUZZY_CUTOFF {
      var i :| 0 <= i < |lines| && best == fuzz(k, lines[i]);
      assert lines[i] in lines;
    }
    if line :| line in lines && fuzz(k, line) >= FUZZY_CUTOFF {
      var i :| 0 <= i < |lines| && lines[i] == line;
    }
    WordSetSubsetIff(k, t);
    assert Matched(k, t, fuzz) <==> best >= FUZZY_CUTOFF || Contains(t, k) || WordSet(k) <= WordSet(t);
  }

  /** The consequence for the count: such a keyword earns its point on top of any bonus. */
  lemma OccurrenceEarnsPoint(keyword: string, text: string, fuzz: Similarity)
    requires || (exists i :: OccursAt(Lower(keyword), Lower(text), i))
             || WordSet(Lower(keyword)) <= WordSet(Lower(text))
    ensures KeywordPoints(keyword, Lower(text), fuzz) == 1 + (if IsBonusPhrase(keyword) then BONUS_POINTS else 0)
  {
    ContainsIffOccurs(Lower(text), Lower(keyword));
  }

  // ---------------------------------------------------------------- case

  function LowerAll(keywords: seq<string>): (lowered: seq<string>)
    ensures |lowered| == |keywords|
    ensures forall i :: 0 <= i < |keywords| ==> lowered[i] == Lower(keywords[i])
  {
    seq(|keywords|, i requires 0 <= i < |keywords| => Lower(keywords[i]))
  }

  /** The count does not see the case of the text nor of the keywords. */
  lemma {:induction false} MatchCountIgnoresCase(text: string, keywords: seq<string>, checkQr: bool,
                                                 pdfPath: Option<string>, qrPages: seq<bool>, fuzz: Similarity)
    ensures MatchCount(Lower(text), keywords, checkQr, pdfPath, qrPages, fuzz)
            == MatchCount(text, keywords, checkQr, pdfPath, qrPages, fuzz)
    ensures MatchCount(text, LowerAll(keywords), checkQr, pdfPath, qrPages, fuzz)
            == MatchCount(text, keywords, checkQr, pdfPath, qrPages, fuzz)
    decreases |keywords|
  {
    LowerIdempotent(text);
    if keywords != [] {
      var init, last := keywords[..|keywords| - 1], keywords[|keywords| - 1];
      MatchCountIgnoresCase(text, init, checkQr, pdfPath, qrPages, fuzz);
      assert LowerAll(keywords)[..|keywords| - 1] == LowerAll(init);
      LowerIdempotent(last);
    }
  }

  // ---------------------------------------------------------------- the two lists

  lemma {:induction false} BonusCountAppend(a: seq<string>, b: seq<string>)
    ensures BonusCount(a + b) == BonusCount(a) + BonusCount(b)
    decreases |b|
  {
    if b == [] {
      assert a + b == a;
    } else {
      assert (a + b)[..|a + b| - 1] == a + b[..|b| - 1];
      BonusCountAppend(a, b[..|b| - 1]);
    }
  }

  lemma {:induction false} NoBonusPhraseCountsZero(keywords: seq<string>)
    requires forall i :: 0 <= i < |keywords| ==> !IsBonusPhrase(keywords[i])
    ensures BonusCount(keywords) == 0
    decreases |keywords|
  {
    if keywords != [] {
      NoBonusPhraseCountsZero(keywords[..|keywords| - 1]);
    }
  }

  /** A bonus phrase has 11 characters and starts with an s, or 14 and starts with a b. */
  lemma BonusPhraseShape(keyword: string)
    requires IsBonusPhrase(keyword)
    ensures || (|keyword| == 11 && LowerChar(keyword[0]) == 's')
            || (|keyword| == 14 && LowerChar(keyword[0]) == 'b')
  {
    assert Lower(keyword)[0] == LowerChar(keyword[0]);
  }

  /** The bank list holds neither bonus phrase, so its bonus never fires. */
  lemma BankKeywordsHaveNoBonus()
    ensures forall i :: 0 <= i < |BANK_KEYWORDS| ==> !IsBonusPhrase(BANK_KEYWORDS[i])
    ensures BonusCount(BANK_KEYWORDS) == 0
  {
    forall i | 0 <= i < |BANK_KEYWORDS| ensures !IsBonusPhrase(BANK_KEYWORDS[i]) {
      if IsBonusPhrase(BANK_KEYWORDS[i]) {
        BonusPhraseShape(BANK_KEYWORDS[i]);
      }
    }
    NoBonusPhraseCountsZero(BANK_KEYWORDS);
  }

  /** The salary list holds "Salary Slip" once and "bank statement" never. */
  lemma SalaryKeywordsHaveOneBonus()
    ensures IsBonusPhrase(SALARY_KEYWORDS[2])
    ensures BonusCount(SALARY_KEYWORDS) == 1
  {
    var before, after := SALARY_KEYWORDS[..2], SALARY_KEYWORDS[3..];
    assert SALARY_KEYWORDS == before + [SALARY_KEYWORDS[2]] + after;
    assert Lower("Salary Slip") == "salary slip";
    assert before == ["Wages", "Pay Slip"];
    forall i | 0 <= i < |before| ensures !IsBonusPhrase(before[i]) {
      if IsBonusPhrase(before[i]) { BonusPhraseShape(before[i]); }
    }
    forall i | 0 <= i < |after| ensures !IsBonusPhrase(after[i]) {
      if IsBonusPhrase(after[i]) { BonusPhraseShape(after[i]); }
    }
    NoBonusPhraseCountsZero(before);
    NoBonusPhraseCountsZero(after);
    BonusCountAppend(before + [SALARY_KEYWORDS[2]], after);
    BonusCountAppend(before, [SALARY_KEYWORDS[2]]);
    assert [SALARY_KEYWORDS[2]][..0] == [];
  }

  /**
   * On any text, the salary list's keywords score between 3 and 13 + 3, and the
   * bank list's keywords score one point per matched keyword, at most 16.
   */
  lemma ListScoreBounds(loweredText: string, fuzz: Similarity)
    ensures 3 <= KeywordTotal(SALARY_KEYWORDS, loweredText, fuzz) <= 16
    ensures KeywordTotal(BANK_KEYWORDS, loweredText, fuzz) == MatchedCount(BANK_KEYWORDS, loweredText, fuzz) <= 16
  {
    SalaryKeywordsHaveOneBonus();
    BankKeywordsHaveNoBonus();
    KeywordTotalDecomposes(SALARY_KEYWORDS, loweredText, fuzz);
    KeywordTotalDecomposes(BANK_KEYWORDS, loweredText, fuzz);
  }

  // ---------------------------------------------------------------- empty text

  /** On an empty text no keyword with a non-blank spelling passes the match rule. */
  lemma NothingMatchesEmptyText(keyword: string, fuzz: Similarity)
    requires !AllSpace(keyword)
    ensures !Matched(Lower(keyword), "", fuzz)
  {
    var k := Lower(keyword);
    assert !AllSpace(k) by {
      var i :| 0 <= i < |keyword| && !IsSpace(keyword[i]);
      assert k[i] == LowerChar(keyword[i]);
    }
    SplitEmptyIffBlank(k);
    SplitEmptyIffBlank("");
    assert Split(k)[0] in WordSet(k);
  }

  /** With an empty text, a list of non-blank keywords scores 3 per bonus phrase and nothing else. */
  lemma {:induction false} EmptyTextScoresOnlyBonus(keywords: seq<string>, fuzz: Similarity)
    requires forall i :: 0 <= i < |keywords| ==> !AllSpace(keywords[i])
    ensures KeywordTotal(keywords, "", fuzz) == BONUS_POINTS * BonusCount(keywords)
    decreases |keywords|
  {
    if keywords != [] {
      EmptyTextScoresOnlyBonus(keywords[..|keywords| - 1], fuzz);
      NothingMatchesEmptyText(keywords[|keywords| - 1], fuzz);
    }
  }

  /** Empty text: the salary list scores exactly 3, the bank list only its QR point. */
  lemma EmptyTextCounts(checkQr: bool, pdfPath: Option<string>, qrPages: seq<bool>, fuzz: Similarity)
    ensures MatchCount("", SALARY_KEYWORDS, checkQr, pdfPath, qrPages, fuzz) == 3 + QrPoint(checkQr, pdfPath, qrPages)
    ensures MatchCount("", BANK_KEYWORDS, checkQr, pdfPath, qrPages, fuzz) == QrPoint(checkQr, pdfPath, qrPages)
  {
    forall i | 0 <= i < |SALARY_KEYWORDS| ensures !AllSpace(SALARY_KEYWORDS[i]) {
      assert !IsSpace(SALARY_KEYWORDS[i][0]);
    }
    forall i | 0 <= i < |BANK_KEYWORDS| ensures !AllSpace(BANK_KEYWORDS[i]) {
      assert !IsSpace(BANK_KEYWORDS[i][0]);
    }
    assert Lower("") == "";
    EmptyTextScoresOnlyBonus(SALARY_KEYWORDS, fuzz);
    EmptyTextScoresOnlyBonus(BANK_KEYWORDS, fuzz);
    SalaryKeywordsHaveOneBonus();
    BankKeywordsHaveNoBonus();
  }
}
