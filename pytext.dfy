/**
 * The Python `str` builtins that the classifier relies on, over `seq<char>`:
 * the whitespace and line-boundary tables, `lower()`, `strip()`, `split()`,
 * `splitlines()`, the substring test `k in t` and `" ".join(parts)`.
 */
module PyText {

  /** CPython's whitespace table, used by `split()` and `strip()` without arguments. */
  predicate IsSpace(c: char) {
    var n := c as int;
    (0x09 <= n <= 0x0D) || (0x1C <= n <= 0x20) || n == 0x85 || n == 0xA0 || n == 0x1680
    || (0x2000 <= n <= 0x200A) || n == 0x2028 || n == 0x2029 || n == 0x202F
    || n == 0x205F || n == 0x3000
  }

  /** CPython's line boundaries, used by `splitlines()`. */
  predicate IsLineBreak(c: char) {
    var n := c as int;
    (0x0A <= n <= 0x0D) || (0x1C <= n <= 0x1E) || n == 0x85 || n == 0x2028 || n == 0x2029
  }

  predicate AllSpace(s: string) {
    forall i :: 0 <= i < |s| ==> IsSpace(s[i])
  }

  predicate NoSpace(s: string) {
    forall i :: 0 <= i < |s| ==> !IsSpace(s[i])
  }

  predicate NoLineBreak(s: string) {
    forall i :: 0 <= i < |s| ==> !IsLineBreak(s[i])
  }

  predicate IsUpper(c: char) {
    'A' <= c <= 'Z'
  }

  // ---------------------------------------------------------------- lower()

  function LowerChar(c: char): char {
    if IsUpper(c) then (c as int + 32) as char else c
  }

  /** `s.lower()`, restricted to the ASCII letters. */
  function Lower(s: string): (r: string)
    ensures |r| == |s|
    ensures forall i :: 0 <= i < |s| ==> r[i] == LowerChar(s[i])
    ensures forall i :: 0 <= i < |r| ==> !IsUpper(r[i])
    ensures forall i :: 0 <= i < |s| && !IsUpper(s[i]) ==> r[i] == s[i]
  {
    seq(|s|, i requires 0 <= i < |s| => LowerChar(s[i]))
  }

  lemma LowerIdempotent(s: string)
    ensures Lower(Lower(s)) == Lower(s)
  {
  }

  // ---------------------------------------------------------------- strip()

  function LeadingSpaces(s: string): (n: nat)
    ensures n <= |s|
    ensures forall i :: 0 <= i < n ==> IsSpace(s[i])
    ensures n < |s| ==> !IsSpace(s[n])
  {
    if s == [] || !IsSpace(s[0]) then 0 else 1 + LeadingSpaces(s[1..])
  }

  function TrailingSpaces(s: string): (n: nat)
    ensures n <= |s|
    ensures forall i :: |s| - n <= i < |s| ==> IsSpace(s[i])
    ensures n < |s| ==> !IsSpace(s[|s| - 1 - n])
  {
    if s == [] || !IsSpace(s[|s| - 1]) then 0 else 1 + TrailingSpaces(s[..|s| - 1])
  }

  /** `r` is `s` with the whitespace `s[..k]` and `s[k + |r|..]` cut away. */
  ghost predicate StrippedAt(r: string, s: string, k: nat) {
    k + |r| <= |s| && s[k..k + |r|] == r && AllSpace(s[..k]) && AllSpace(s[k + |r|..])
  }

  /** `s.strip()`: drop leading and trailing whitespace. */
  function Strip(s: string): (r: string)
    ensures exists k: nat :: StrippedAt(r, s, k)
    ensures r != [] ==> !IsSpace(r[0]) && !IsSpace(r[|r| - 1])
    ensures r == [] <==> AllSpace(s)
  {
    var k := LeadingSpaces(s);
    var t := s[k..];
    var r := t[..|t| - TrailingSpaces(t)];
    assert StrippedAt(r, s, k) by {
      assert s[k..k + |r|] == r;
      assert s[k + |r|..] == t[|r|..];
    }
    r
  }

  // ---------------------------------------------------------------- split()

  /** Length of the token that starts at `s[0]`. */
  function TokenLength(s: string): (n: nat)
    requires s != [] && !IsSpace(s[0])
    ensures 1 <= n <= |s|
    ensures NoSpace(s[..n])
    ensures n < |s| ==> IsSpace(s[n])
  {
    if |s| == 1 || IsSpace(s[1]) then 1 else 1 + TokenLength(s[1..])
  }

  /** `s.split()`: the maximal runs of non-whitespace characters, in order. */
  function Split(s: string): (words: seq<string>)
    ensures forall w :: w in words ==> w != [] && NoSpace(w)
    decreases |s|
  {
    if s == [] then []
    else if IsSpace(s[0]) then Split(s[1..])
    else
      var n := TokenLength(s);
      [s[..n]] + Split(s[n..])
  }

  /** `set(s.split())`. */
  function WordSet(s: string): (words: set<string>)
    ensures forall w :: w in words <==> w in Split(s)
  {
    set w | w in Split(s)
  }

  /** `set(a.split()).issubset(set(b.split()))` holds exactly when each word of `a` is a word of `b`. */
  lemma WordSetSubsetIff(a: string, b: string)
    ensures WordSet(a) <= WordSet(b) <==> forall w :: w in Split(a) ==> w in Split(b)
  {
    var wa, wb := WordSet(a), WordSet(b);
    if wa <= wb {
      forall w | w in Split(a) ensures w in Split(b) {
        assert w in wa;
      }
    } else {
      var w :| w in wa && w !in wb;
      assert w in Split(a) && w !in Split(b);
    }
  }

  /** A string splits into no words exactly when it is all whitespace. */
  lemma {:induction false} SplitEmptyIffBlank(s: string)
    ensures Split(s) == [] <==> AllSpace(s)
    decreases |s|
  {
    if s != [] && IsSpace(s[0]) {
      SplitEmptyIffBlank(s[1..]);
      assert AllSpace(s) <==> AllSpace(s[1..]) by {
        if AllSpace(s[1..]) {
          forall i | 0 <= i < |s| ensures IsSpace(s[i]) {
            if i > 0 { assert s[i] == s[1..][i - 1]; }
          }
        }
      }
    }
  }

  /** `seps[0] + words[0] + seps[1] + ... + words[n - 1] + seps[n]`. */
  function Interleave(seps: seq<string>, words: seq<string>): string
    requires |seps| == |words| + 1
    decreases |words|
  {
    if words == [] then seps[0] else seps[0] + words[0] + Interleave(seps[1..], words[1..])
  }

  /**
   * `s` is `words` laid out between whitespace separators: every separator is
   * all whitespace, those between two words are not empty, and every word is
   * non-empty and free of whitespace.
   */
  ghost predicate WordLayout(s: string, seps: seq<string>, words: seq<string>) {
    && |seps| == |words| + 1
    && (forall i :: 0 <= i < |seps| ==> AllSpace(seps[i]))
    && (forall i :: 0 < i < |words| ==> seps[i] != [])
    && (forall i :: 0 <= i < |words| ==> words[i] != [] && NoSpace(words[i]))
    && s == Interleave(seps, words)
  }

  /** A whitespace character in front of a layout widens its first separator. */
  lemma PrependSpace(c: char, t: string, seps: seq<string>, words: seq<string>)
    requires IsSpace(c) && WordLayout(t, seps, words)
    ensures WordLayout([c] + t, [[c] + seps[0]] + seps[1..], words)
  {
    var seps' := [[c] + seps[0]] + seps[1..];
    assert seps'[1..] == seps[1..];
    assert AllSpace(seps'[0]) by {
      forall i | 0 <= i < |seps'[0]| ensures IsSpace(seps'[0][i]) {
        if i > 0 { assert seps'[0][i] == seps[0][i - 1]; }
      }
    }
    forall i | 0 <= i < |seps'| ensures AllSpace(seps'[i]) {
      if i > 0 { assert seps'[i] == seps[i]; }
    }
    forall i | 0 < i < |words| ensures seps'[i] != [] {
      assert seps'[i] == seps[i];
    }
  }

  /** A word in front of a layout that starts with whitespace (or is empty) becomes its first word. */
  lemma PrependWord(w: string, t: string, seps: seq<string>, words: seq<string>)
    requires w != [] && NoSpace(w) && WordLayout(t, seps, words)
    requires t != [] ==> IsSpace(t[0])
    ensures WordLayout(w + t, [""] + seps, [w] + words)
  {
    var seps', words' := [""] + seps, [w] + words;
    assert seps'[1..] == seps && words'[1..] == words;
    forall i | 0 <= i < |seps'| ensures AllSpace(seps'[i]) {
      if i > 0 { assert seps'[i] == seps[i - 1]; }
    }
    forall i | 0 < i < |words'| ensures seps'[i] != [] {
      assert seps'[i] == seps[i - 1];
    }
    forall i | 0 <= i < |words'| ensures words'[i] != [] && NoSpace(words'[i]) {
      if i > 0 { assert words'[i] == words[i - 1]; }
    }
  }

  /** The words `Split` returns, with whitespace separators that rebuild `s`. */
  lemma {:induction false} SplitHasLayout(s: string) returns (seps: seq<string>)
    ensures WordLayout(s, seps, Split(s))
    decreases |s|
  {
    if s == [] {
      seps := [""];
    } else if IsSpace(s[0]) {
      var rest := SplitHasLayout(s[1..]);
      PrependSpace(s[0], s[1..], rest, Split(s[1..]));
      seps := [[s[0]] + rest[0]] + rest[1..];
      assert s == [s[0]] + s[1..];
    } else {
      var n := TokenLength(s);
      var rest := SplitHasLayout(s[n..]);
      PrependWord(s[..n], s[n..], rest, Split(s[n..]));
      seps := [""] + rest;
      assert s == s[..n] + s[n..];
    }
  }

  /** Where a token ends is fixed by the text: the first whitespace after it, or the end. */
  lemma {:induction false} TokenLengthUnique(s: string, n: nat)
    requires s != [] && !IsSpace(s[0])
    requires 1 <= n <= |s| && NoSpace(s[..n]) && (n < |s| ==> IsSpace(s[n]))
    ensures TokenLength(s) == n
  {
    if n > 1 {
      assert s[1] == s[..n][1];
      assert s[1..][..n - 1] == s[..n][1..];
      TokenLengthUnique(s[1..], n - 1);
    }
  }

  /** Any whitespace layout of `s` has exactly the words `Split` returns. */
  lemma {:induction false} LayoutWordsAreSplit(s: string, seps: seq<string>, words: seq<string>)
    requires WordLayout(s, seps, words)
    ensures Split(s) == words
    decreases |s|
  {
    if seps[0] != [] {
      var seps' := [seps[0][1..]] + seps[1..];
      assert seps'[1..] == seps[1..];
      assert s == [seps[0][0]] + Interleave(seps', words);
      assert IsSpace(s[0]);
      assert s[1..] == Interleave(seps', words);
      assert AllSpace(seps'[0]) by {
        forall i | 0 <= i < |seps'[0]| ensures IsSpace(seps'[0][i]) {
          assert seps'[0][i] == seps[0][i + 1];
        }
      }
      LayoutWordsAreSplit(s[1..], seps', words);
    } else if words != [] {
      var w := words[0];
      var rest := Interleave(seps[1..], words[1..]);
      assert s == w + rest;
      var n := |w|;
      assert s[..n] == w;
      assert s[n..] == rest;
      if rest != [] {
        if words[1..] != [] {
          assert seps[1] != [];
          assert rest == seps[1] + words[1] + Interleave(seps[2..], words[2..]);
          assert rest[0] == seps[1][0];
        } else {
          assert rest == seps[1];
        }
        assert IsSpace(s[n]);
      }
      assert s[0] == w[0];
      TokenLengthUnique(s, n);
      assert WordLayout(rest, seps[1..], words[1..]) by {
        forall i | 0 < i < |words[1..]| ensures seps[1..][i] != [] {
          assert seps[1..][i] == seps[i + 1];
        }
      }
      LayoutWordsAreSplit(rest, seps[1..], words[1..]);
    } else {
      assert s == seps[0];
    }
  }

  /**
   * `s.split()` is exactly the list of words that `s` lays out between
   * whitespace separators: the maximal whitespace-free runs, in order.
   */
  lemma SplitCharacterised(s: string, words: seq<string>)
    ensures Split(s) == words <==> exists seps :: WordLayout(s, seps, words)
  {
    if Split(s) == words {
      var seps := SplitHasLayout(s);
    }
    if seps :| WordLayout(s, seps, words) {
      LayoutWordsAreSplit(s, seps, words);
    }
  }

  // ---------------------------------------------------------------- splitlines()

  /** Index of the first line boundary in `s`, or `|s|` when there is none. */
  function LineEnd(s: string): (n: nat)
    ensures n <= |s|
    ensures NoLineBreak(s[..n])
    ensures n < |s| ==> IsLineBreak(s[n])
  {
    if s == [] || IsLineBreak(s[0]) then 0 else 1 + LineEnd(s[1..])
  }

  /**
   * `s.splitlines()`: the text between line boundaries, where `\r\n` is one
   * boundary and a boundary at the very end does not open an empty last line.
   */
  function SplitLines(s: string): (lines: seq<string>)
    ensures forall l :: l in lines ==> NoLineBreak(l)
    ensures lines == [] <==> s == []
    decreases |s|
  {
    if s == [] then []
    else
      var n := LineEnd(s);
      if n == |s| then [s] else [s[..n]] + SplitLines(s[n + BoundaryLength(s, n)..])
  }

  /** The length of the line boundary at `s[n]`: 2 for `\r\n`, 1 for any other line break. */
  function BoundaryLength(s: string, n: nat): (k: nat)
    requires n < |s|
    ensures 1 <= k <= 2 && n + k <= |s|
    ensures k == 2 <==> s[n] == '\r' && n + 1 < |s| && s[n + 1] == '\n'
  {
    if s[n] == '\r' && n + 1 < |s| && s[n + 1] == '\n' then 2 else 1
  }

  /** One line boundary: a single line-break character, or `\r\n`. */
  predicate IsBoundary(b: string) {
    (|b| == 1 && IsLineBreak(b[0])) || b == "\r\n"
  }

  /** `lines[0] + breaks[0] + lines[1] + breaks[1] + ...`. */
  function Concat(lines: seq<string>, breaks: seq<string>): string
    requires |lines| == |breaks|
    decreases |lines|
  {
    if lines == [] then "" else lines[0] + breaks[0] + Concat(lines[1..], breaks[1..])
  }

  /**
   * `s` is `lines`, each followed by its boundary: lines hold no line break;
   * every boundary but the last is a real one; the last is a real one or
   * absent, and absent only after a non-empty line; and a lone `\r` is never
   * directly followed by `\n` (that pair is one boundary).
   */
  ghost predicate LineLayout(s: string, lines: seq<string>, breaks: seq<string>) {
    && |breaks| == |lines|
    && (forall i :: 0 <= i < |lines| ==> NoLineBreak(lines[i]))
    && (forall i :: 0 <= i < |lines| - 1 ==> IsBoundary(breaks[i]))
    && (lines != [] ==> IsBoundary(breaks[|lines| - 1]) || (breaks[|lines| - 1] == [] && lines[|lines| - 1] != []))
    && (forall i :: 0 <= i < |lines| - 1 && breaks[i] == "\r" && lines[i + 1] == [] && breaks[i + 1] != [] ==>
          breaks[i + 1][0] != '\n')
    && s == Concat(lines, breaks)
  }

  /** The shifted layout of what follows the first line and its boundary. */
  lemma LineLayoutTail(s: string, lines: seq<string>, breaks: seq<string>)
    requires LineLayout(s, lines, breaks) && lines != []
    ensures LineLayout(Concat(lines[1..], breaks[1..]), lines[1..], breaks[1..])
  {
    var ls, bs := lines[1..], breaks[1..];
    forall i | 0 <= i < |ls| ensures NoLineBreak(ls[i]) {
      assert ls[i] == lines[i + 1];
    }
    forall i | 0 <= i < |ls| - 1 ensures IsBoundary(bs[i]) {
      assert bs[i] == breaks[i + 1];
    }
    forall i | 0 <= i < |ls| - 1 && bs[i] == "\r" && ls[i + 1] == [] && bs[i + 1] != []
      ensures bs[i + 1][0] != '\n'
    {
      assert bs[i] == breaks[i + 1] && ls[i + 1] == lines[i + 2] && bs[i + 1] == breaks[i + 2];
    }
  }

  /** Where a line ends is fixed by the text: the first line break, or the end. */
  lemma {:induction false} LineEndUnique(s: string, n: nat)
    requires n <= |s| && NoLineBreak(s[..n]) && (n < |s| ==> IsLineBreak(s[n]))
    ensures LineEnd(s) == n
  {
    if n > 0 {
      assert s[0] == s[..n][0];
      assert s[1..][..n - 1] == s[..n][1..];
      LineEndUnique(s[1..], n - 1);
    }
  }

  /** A line and a boundary in front of a layout become its first line. */
  lemma PrependLine(l: string, b: string, t: string, lines: seq<string>, breaks: seq<string>)
    requires NoLineBreak(l) && IsBoundary(b) && LineLayout(t, lines, breaks)
    requires b == "\r" && t != [] ==> t[0] != '\n'
    ensures LineLayout(l + b + t, [l] + lines, [b] + breaks)
  {
    var ls, bs := [l] + lines, [b] + breaks;
    assert ls[1..] == lines && bs[1..] == breaks;
    if b == "\r" && lines != [] && lines[0] == [] && breaks[0] != [] {
      assert t == lines[0] + breaks[0] + Concat(lines[1..], breaks[1..]);
      assert t[0] == breaks[0][0];
    }
    forall i | 0 <= i < |ls| ensures NoLineBreak(ls[i]) {
      if i > 0 { assert ls[i] == lines[i - 1]; }
    }
    forall i | 0 <= i < |ls| - 1 ensures IsBoundary(bs[i]) {
      if i > 0 { assert bs[i] == breaks[i - 1]; }
    }
    forall i | 0 <= i < |ls| - 1 && bs[i] == "\r" && ls[i + 1] == [] && bs[i + 1] != []
      ensures bs[i + 1][0] != '\n'
    {
      if i > 0 {
        assert bs[i] == breaks[i - 1] && ls[i + 1] == lines[i] && bs[i + 1] == breaks[i];
      }
    }
    if lines != [] {
      assert bs[|ls| - 1] == breaks[|lines| - 1] && ls[|ls| - 1] == lines[|lines| - 1];
    }
  }

  /** A text without line breaks is one line with no boundary after it. */
  lemma OneLineLayout(s: string)
    requires s != [] && NoLineBreak(s)
    ensures LineLayout(s, [s], [""])
  {
    assert Concat([s], [""]) == s + "" + Concat([], []);
  }

  /** The boundary `SplitLines` cuts at `s[n]`, and what it implies for the next character. */
  lemma BoundaryAt(s: string, n: nat)
    requires n < |s| && IsLineBreak(s[n])
    ensures IsBoundary(s[n..n + BoundaryLength(s, n)])
    ensures s[n..n + BoundaryLength(s, n)] == "\r" && n + 1 < |s| ==> s[n + 1] != '\n'
  {
    if BoundaryLength(s, n) == 2 {
      assert s[n..n + 2] == "\r\n";
    } else {
      assert s[n..n + 1] == [s[n]];
    }
  }

  /** The lines `SplitLines` returns, with boundaries that rebuild `s`. */
  lemma {:induction false} SplitLinesHasLayout(s: string) returns (breaks: seq<string>)
    ensures LineLayout(s, SplitLines(s), breaks)
    decreases |s|
  {
    if s == [] {
      breaks := [];
    } else {
      var n := LineEnd(s);
      if n == |s| {
        assert s[..n] == s;
        OneLineLayout(s);
        breaks := [""];
      } else {
        var k := BoundaryLength(s, n);
        BoundaryAt(s, n);
        assert s == s[..n] + s[n..n + k] + s[n + k..];
        var rest := SplitLinesHasLayout(s[n + k..]);
        PrependLine(s[..n], s[n..n + k], s[n + k..], SplitLines(s[n + k..]), rest);
        breaks := [s[n..n + k]] + rest;
      }
    }
  }

  /** In a layout, the text after a lone `\r` boundary does not start with `\n`. */
  lemma LoneCrNotBeforeLf(s: string, lines: seq<string>, breaks: seq<string>)
    requires LineLayout(s, lines, breaks) && lines != [] && breaks[0] == "\r"
    ensures var rest := Concat(lines[1..], breaks[1..]); rest != [] ==> rest[0] != '\n'
  {
    var rest := Concat(lines[1..], breaks[1..]);
    if rest != [] {
      assert |lines| > 1;
      assert rest == lines[1] + breaks[1] + Concat(lines[2..], breaks[2..]);
      if lines[1] != [] {
        assert rest[0] == lines[1][0];
      } else {
        assert rest[0] == breaks[1][0];
      }
    }
  }

  /** In a layout, the first line ends where `LineEnd` says and its boundary is the one `SplitLines` cuts. */
  lemma LayoutFirstLine(s: string, lines: seq<string>, breaks: seq<string>)
    requires LineLayout(s, lines, breaks) && lines != []
    ensures s != [] && LineEnd(s) == |lines[0]| && s[..|lines[0]|] == lines[0]
    ensures breaks[0] == [] ==> |lines[0]| == |s| && |lines| == 1
    ensures breaks[0] != [] ==>
              && |lines[0]| < |s|
              && BoundaryLength(s, |lines[0]|) == |breaks[0]|
              && s[|lines[0]| + |breaks[0]|..] == Concat(lines[1..], breaks[1..])
  {
    var l, b := lines[0], breaks[0];
    var rest := Concat(lines[1..], breaks[1..]);
    assert s == l + b + rest;
    var n := |l|;
    assert s[..n] == l;
    if b == [] {
      assert |lines| == 1;
      assert s == l;
      LineEndUnique(s, n);
    } else {
      if b == "\r" {
        LoneCrNotBeforeLf(s, lines, breaks);
      }
      BoundaryLengthOf(s, l, b, rest);
      LineEndUnique(s, n);
    }
  }

  /** A boundary `b` between `l` and `rest` is the one `BoundaryLength` measures after `l`. */
  lemma BoundaryLengthOf(s: string, l: string, b: string, rest: string)
    requires s == l + b + rest && IsBoundary(b)
    requires b == "\r" && rest != [] ==> rest[0] != '\n'
    ensures |l| < |s| && s[|l|] == b[0] && s[..|l|] == l
    ensures BoundaryLength(s, |l|) == |b| && s[|l| + |b|..] == rest
  {
    var n := |l|;
    assert s[n] == b[0];
    if b == "\r\n" {
      assert s[n + 1] == b[1];
    } else if n + 1 < |s| {
      assert s[n + 1] == rest[0];
    }
    assert s[n + |b|..] == rest;
  }

  /** Any boundary layout of `s` has exactly the lines `SplitLines` returns. */
  lemma {:induction false} LayoutLinesAreSplitLines(s: string, lines: seq<string>, breaks: seq<string>)
    requires LineLayout(s, lines, breaks)
    ensures SplitLines(s) == lines
    decreases |s|
  {
    if lines != [] {
      LayoutFirstLine(s, lines, breaks);
      if breaks[0] != [] {
        var rest := Concat(lines[1..], breaks[1..]);
        LineLayoutTail(s, lines, breaks);
        LayoutLinesAreSplitLines(rest, lines[1..], breaks[1..]);
        var n, k := |lines[0]|, |breaks[0]|;
        assert SplitLines(s) == [s[..n]] + SplitLines(s[n + k..]);
        assert lines == [lines[0]] + lines[1..];
      } else {
        assert s[..|s|] == s;
      }
    }
  }

  /**
   * `s.splitlines()` is exactly the list of lines that `s` lays out between
   * boundaries, with `\r\n` one boundary and no empty line after a final one.
   */
  lemma SplitLinesCharacterised(s: string, lines: seq<string>)
    ensures SplitLines(s) == lines <==> exists breaks :: LineLayout(s, lines, breaks)
  {
    if SplitLines(s) == lines {
      var breaks := SplitLinesHasLayout(s);
    }
    if breaks :| LineLayout(s, lines, breaks) {
      LayoutLinesAreSplitLines(s, lines, breaks);
    }
  }

  // ---------------------------------------------------------------- k in t

  /** Python's `k in t` on strings: `k` is a contiguous part of `t`. */
  function Contains(t: string, k: string): bool
    decreases |t|
  {
    |k| <= |t| && (t[..|k|] == k || Contains(t[1..], k))
  }

  ghost predicate OccursAt(k: string, t: string, i: int) {
    0 <= i && i + |k| <= |t| && t[i..i + |k|] == k
  }

  /** The recursive test agrees with the positional definition of a substring. */
  lemma {:induction false} ContainsIffOccurs(t: string, k: string)
    ensures Contains(t, k) <==> exists i :: OccursAt(k, t, i)
    decreases |t|
  {
    if |k| <= |t| && t[..|k|] != k {
      ContainsIffOccurs(t[1..], k);
      if i :| OccursAt(k, t[1..], i) {
        assert t[i + 1..i + 1 + |k|] == t[1..][i..i + |k|];
        assert OccursAt(k, t, i + 1);
      }
      if i :| OccursAt(k, t, i) {
        assert i != 0;
        assert t[1..][i - 1..i - 1 + |k|] == t[i..i + |k|];
        assert OccursAt(k, t[1..], i - 1);
      }
    } else if |k| <= |t| {
      assert OccursAt(k, t, 0);
    }
  }

  // ---------------------------------------------------------------- " ".join

  /** `" ".join(parts)`. */
  function JoinSpaced(parts: seq<string>): string
    decreases |parts|
  {
    if parts == [] then ""
    else if |parts| == 1 then parts[0]
    else JoinSpaced(parts[..|parts| - 1]) + " " + parts[|parts| - 1]
  }

  function TotalLength(parts: seq<string>): nat
    decreases |parts|
  {
    if parts == [] then 0 else TotalLength(parts[..|parts| - 1]) + |parts[|parts| - 1]|
  }

  /** Joining with one space adds exactly one character between consecutive parts. */
  lemma {:induction false} JoinSpacedLength(parts: seq<string>)
    ensures parts != [] ==> |JoinSpaced(parts)| == TotalLength(parts) + |parts| - 1
    decreases |parts|
  {
    if |parts| > 1 {
      JoinSpacedLength(parts[..|parts| - 1]);
    } else if |parts| == 1 {
      assert parts[..0] == [];
    }
  }

  /** Joining a concatenation puts one space between the two joined halves. */
  lemma {:induction false} JoinSpacedAppend(a: seq<string>, b: seq<string>)
    requires a != [] && b != []
    ensures JoinSpaced(a + b) == JoinSpaced(a) + " " + JoinSpaced(b)
    decreases |b|
  {
    var ab := a + b;
    var last := b[|b| - 1];
    assert ab[|ab| - 1] == last;
    if |b| == 1 {
      assert ab[..|ab| - 1] == a;
      assert JoinSpaced(b) == last;
    } else {
      var b' := b[..|b| - 1];
      assert ab[..|ab| - 1] == a + b';
      JoinSpacedAppend(a, b');
      calc {
        JoinSpaced(ab);
        JoinSpaced(a + b') + " " + last;
        JoinSpaced(a) + " " + JoinSpaced(b') + " " + last;
        JoinSpaced(a) + " " + (JoinSpaced(b') + " " + last);
      }
    }
  }
}
