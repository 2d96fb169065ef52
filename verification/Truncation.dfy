/** `truncateOutput` of card-format-utils.mjs: a byte budget, then a line budget. */
module Truncation {
  import opened Text
  import opened Utf8

  datatype Truncated = Truncated(text: string, truncated: bool, originalLines: nat, originalBytes: nat)

  /** `s.replace(/\uFFFD+$/, '')`. */
  function StripReplacements(s: string): (r: string)
    ensures r <= s && forall i :: |r| <= i < |s| ==> s[i] == REPLACEMENT
    ensures r == "" || r[|r| - 1] != REPLACEMENT
  {
    if s != "" && s[|s| - 1] == REPLACEMENT then StripReplacements(s[..|s| - 1]) else s
  }

  function ByteBudget(s: string, maxBytes: nat): string {
    if |Encode(s)| > maxBytes then StripReplacements(Decode(Encode(s)[..maxBytes])) else s
  }

  function LineCount(s: string): nat { |Split(s, "\n")| }

  function LineBudget(s: string, maxLines: nat): string {
    var lines := Split(s, "\n");
    if |lines| > maxLines then Join(lines[..maxLines], "\n") else s
  }

  method TruncateOutput(text: string, maxLines: nat, maxBytes: nat) returns (r: Truncated)
    ensures r.text == LineBudget(ByteBudget(text, maxBytes), maxLines) || (text == "" && r.text == "")
    ensures r.truncated <==> text != "" && (|Encode(text)| > maxBytes || LineCount(text) > maxLines)
    ensures !r.truncated ==> r.text == text
    ensures r.originalBytes == |Encode(text)|
    ensures r.originalLines == if text == "" then 0 else LineCount(text)
  {
    if text == "" {
      return Truncated("", false, 0, 0);
    }
    var originalBytes := |Encode(text)|;
    var originalLines := |Split(text, "\n")|;
    var result := text;
    var truncated := false;
    if originalBytes > maxBytes {
      var buf := Encode(text);
      result := StripReplacements(Decode(buf[..maxBytes]));
      truncated := true;
    }
    var resultLines := Split(result, "\n");
    if |resultLines| > maxLines {
      result := Join(resultLines[..maxLines], "\n");
      truncated := true;
    }
    return Truncated(result, truncated, originalLines, originalBytes);
  }

  // ---------------------------------------------------------------------------
  // The byte budget
  // ---------------------------------------------------------------------------

  lemma EncodePrefixLength(p: string, s: string)
    requires p <= s
    ensures |Encode(p)| <= |Encode(s)|
    ensures p != s ==> |Encode(p)| < |Encode(s)|
  {
    assert s == p + s[|p|..];
    EncodeAppend(p, s[|p|..]);
  }

  /** Cutting mid-character and stripping leaves whole characters only: a prefix
      that fits, after which only U+FFFD could have followed within the budget. */
  lemma ByteBudgetPrefix(s: string, maxBytes: nat)
    ensures var r := ByteBudget(s, maxBytes);
            && r <= s && |Encode(r)| <= maxBytes
            && forall p :: p <= s && |Encode(p)| <= maxBytes && |r| <= |p| ==>
                 forall i :: |r| <= i < |p| ==> p[i] == REPLACEMENT
  {
    var r := ByteBudget(s, maxBytes);
    if |Encode(s)| > maxBytes {
      var j := CharsWithin(s, maxBytes);
      var d := Decode(Encode(s)[..maxBytes]);
      DecodePrefix(s, maxBytes);
      assert |r| <= j by { assert |d| > j ==> d[j] == REPLACEMENT && |d| == j + 1; StripLast(d); }
      assert r <= s[..j];
      EncodePrefixLength(r, s[..j]);
      forall p | p <= s && |Encode(p)| <= maxBytes && |r| <= |p|
        ensures forall i :: |r| <= i < |p| ==> p[i] == REPLACEMENT
      {
        assert |p| <= j by {
          if j < |s| && |p| > j { EncodePrefixLength(s[..j + 1], p); }
        }
        assert forall i :: 0 <= i < |p| ==> p[i] == s[i] == d[i];
      }
    }
  }

  lemma StripLast(d: string)
    ensures d != "" && d[|d| - 1] == REPLACEMENT ==> |StripReplacements(d)| < |d|
  {
  }

  // ---------------------------------------------------------------------------
  // The line budget
  // ---------------------------------------------------------------------------

  function Newlines(s: string): nat {
    if s == "" then 0 else (if s[0] == '\n' then 1 else 0) + Newlines(s[1..])
  }

  lemma {:induction false} NewlinesAppend(a: string, b: string)
    ensures Newlines(a + b) == Newlines(a) + Newlines(b)
  {
    if a == "" {
      assert a + b == b;
    } else {
      assert (a + b)[1..] == a[1..] + b;
      NewlinesAppend(a[1..], b);
    }
  }

  lemma {:induction false} NoNewlines(s: string)
    requires '\n' !in s
    ensures Newlines(s) == 0
  {
    if s != "" { NoNewlines(s[1..]); }
  }

  lemma {:induction false} JoinedNewlines(parts: seq<string>)
    requires parts != [] && forall p <- parts :: '\n' !in p
    ensures Newlines(Join(parts, "\n")) == |parts| - 1
  {
    NoNewlines(parts[0]);
    if |parts| > 1 {
      JoinedNewlines(parts[1..]);
      NewlinesAppend(parts[0] + "\n", Join(parts[1..], "\n"));
      NewlinesAppend(parts[0], "\n");
    }
  }

  lemma LineCountIsNewlines(s: string)
    ensures LineCount(s) == Newlines(s) + 1
  {
    JoinOfSplit(s, '\n');
    JoinedNewlines(Split(s, "\n"));
  }

  /** The line budget keeps a prefix of at most `maxLines` lines, and every longer
      prefix has more lines. */
  lemma LineBudgetPrefix(s: string, maxLines: nat)
    requires maxLines >= 1
    ensures var r := LineBudget(s, maxLines);
            && r <= s && LineCount(r) <= maxLines
            && (r != s ==> r + "\n" <= s && LineCount(r) == maxLines)
  {
    var lines := Split(s, "\n");
    if |lines| > maxLines {
      JoinOfSplit(s, '\n');
      assert lines == lines[..maxLines] + lines[maxLines..];
      JoinAppend(lines[..maxLines], lines[maxLines..], "\n");
      SplitOfJoin(lines[..maxLines], '\n');
    }
  }

  lemma LongerPrefixMoreLines(r: string, p: string)
    requires r + "\n" <= p
    ensures LineCount(p) > LineCount(r)
  {
    LineCountIsNewlines(r);
    LineCountIsNewlines(p);
    assert p == r + "\n" + p[|r| + 1..];
    NewlinesAppend(r + "\n", p[|r| + 1..]);
    NewlinesAppend(r, "\n");
  }

  // ---------------------------------------------------------------------------
  // Both budgets
  // ---------------------------------------------------------------------------

  /** The text kept is a prefix of the input within both budgets, so never a
      partial character; and no longer prefix within both budgets exists, except
      one that continues with U+FFFD only. */
  lemma TruncationIsLongestFit(text: string, maxLines: nat, maxBytes: nat, p: string)
    requires maxLines >= 1
    ensures var r := LineBudget(ByteBudget(text, maxBytes), maxLines);
            && r <= text && |Encode(r)| <= maxBytes && LineCount(r) <= maxLines
            && (p <= text && |Encode(p)| <= maxBytes && LineCount(p) <= maxLines ==>
                  |p| <= |r| || forall i :: |r| <= i < |p| ==> p[i] == REPLACEMENT)
  {
    var b := ByteBudget(text, maxBytes);
    var r := LineBudget(b, maxLines);
    ByteBudgetPrefix(text, maxBytes);
    LineBudgetPrefix(b, maxLines);
    EncodePrefixLength(r, b);
    if p <= text && |Encode(p)| <= maxBytes && LineCount(p) <= maxLines && |p| > |r| {
      if r != b {
        assert r + "\n" <= p;
        LongerPrefixMoreLines(r, p);
      }
    }
  }

  // ---------------------------------------------------------------------------
  // When the longest fit is kept
  // ---------------------------------------------------------------------------

  lemma StripIff(s: string)
    ensures StripReplacements(s) == s <==> s == "" || s[|s| - 1] != REPLACEMENT
    ensures StripReplacements(s + [REPLACEMENT]) == StripReplacements(s)
  {
    assert (s + [REPLACEMENT])[..|s|] == s;
  }

  /** A text that is over the byte budget keeps the characters that are within it,
      exactly when the last of them is no genuine U+FFFD; else it keeps fewer. */
  lemma ByteBudgetWholeIff(s: string, maxBytes: nat)
    requires |Encode(s)| > maxBytes
    ensures var j := CharsWithin(s, maxBytes);
            && ByteBudget(s, maxBytes) == StripReplacements(s[..j])
            && (ByteBudget(s, maxBytes) == s[..j] <==> j == 0 || s[j - 1] != REPLACEMENT)
  {
    var j := CharsWithin(s, maxBytes);
    DecodePrefix(s, maxBytes);
    StripIff(s[..j]);
    assert s[..j] + "" == s[..j];
  }

  /** A prefix within both budgets. */
  predicate Fits(p: string, text: string, maxLines: nat, maxBytes: nat) {
    p <= text && |Encode(p)| <= maxBytes && LineCount(p) <= maxLines
  }

  ghost predicate LongestFit(r: string, text: string, maxLines: nat, maxBytes: nat) {
    Fits(r, text, maxLines, maxBytes) && forall p :: Fits(p, text, maxLines, maxBytes) ==> |p| <= |r|
  }

  /** The last character within the byte budget is a U+FFFD, and the line budget cuts
      nothing off the text up to it. */
  predicate LosesReplacement(text: string, maxLines: nat, maxBytes: nat) {
    var j := CharsWithin(text, maxBytes);
    |Encode(text)| > maxBytes && j > 0 && text[j - 1] == REPLACEMENT && LineCount(text[..j]) <= maxLines
  }

  /** Where the line budget cuts, nothing longer fits. */
  lemma CutLinesLongest(text: string, b: string, maxLines: nat, p: string)
    requires maxLines >= 1 && b <= text && p <= text && LineCount(p) <= maxLines
    requires LineBudget(b, maxLines) != b
    ensures |p| <= |LineBudget(b, maxLines)|
  {
    var r := LineBudget(b, maxLines);
    LineBudgetPrefix(b, maxLines);
    if |p| > |r| {
      assert r + "\n" <= p;
      LongerPrefixMoreLines(r, p);
    }
  }

  lemma {:induction false} StrippedLines(s: string)
    ensures LineCount(StripReplacements(s)) == LineCount(s)
  {
    var r := StripReplacements(s);
    LineCountIsNewlines(r);
    LineCountIsNewlines(s);
    assert s == r + s[|r|..];
    NewlinesAppend(r, s[|r|..]);
    NoNewlines(s[|r|..]);
  }

  /** Any prefix that fits the bytes is within the whole characters that do. */
  lemma WithinChars(text: string, maxBytes: nat, p: string)
    requires p <= text && |Encode(p)| <= maxBytes
    ensures |p| <= CharsWithin(text, maxBytes)
  {
    var j := CharsWithin(text, maxBytes);
    if j < |p| {
      EncodePrefixLength(text[..j + 1], p);
    }
  }

  /** The longest prefix within both budgets is kept, except exactly when a genuine
      U+FFFD is lost; no text has no line. */
  lemma LongestFitIff(text: string, maxLines: nat, maxBytes: nat)
    ensures LongestFit(LineBudget(ByteBudget(text, maxBytes), maxLines), text, maxLines, maxBytes)
       <==> maxLines >= 1 && !LosesReplacement(text, maxLines, maxBytes)
  {
    if maxLines >= 1 {
      LongestFitLines(text, maxLines, maxBytes);
    }
  }

  lemma LongestFitLines(text: string, maxLines: nat, maxBytes: nat)
    requires maxLines >= 1
    ensures LongestFit(LineBudget(ByteBudget(text, maxBytes), maxLines), text, maxLines, maxBytes)
       <==> !LosesReplacement(text, maxLines, maxBytes)
  {
    var b := ByteBudget(text, maxBytes);
    var r, j := LineBudget(b, maxLines), CharsWithin(text, maxBytes);
    TruncationIsLongestFit(text, maxLines, maxBytes, text);
    ByteBudgetPrefix(text, maxBytes);
    LineBudgetPrefix(b, maxLines);
    if LosesReplacement(text, maxLines, maxBytes) {
      ByteBudgetWholeIff(text, maxBytes);
      assert Fits(text[..j], text, maxLines, maxBytes);
      assert |r| <= |b| < |text[..j]|;
    } else {
      forall p | Fits(p, text, maxLines, maxBytes) ensures |p| <= |r| {
        FitIsShorter(text, maxLines, maxBytes, p);
      }
    }
  }

  lemma FitIsShorter(text: string, maxLines: nat, maxBytes: nat, p: string)
    requires maxLines >= 1 && !LosesReplacement(text, maxLines, maxBytes) && Fits(p, text, maxLines, maxBytes)
    ensures |p| <= |LineBudget(ByteBudget(text, maxBytes), maxLines)|
  {
    var b, j := ByteBudget(text, maxBytes), CharsWithin(text, maxBytes);
    ByteBudgetPrefix(text, maxBytes);
    if LineBudget(b, maxLines) != b {
      CutLinesLongest(text, b, maxLines, p);
    } else if |Encode(text)| > maxBytes {
      WithinChars(text, maxBytes, p);
      ByteBudgetWholeIff(text, maxBytes);
      StrippedLines(text[..j]);
      LineBudgetPrefix(b, maxLines);
    }
  }

  /** Such an input: a genuine U+FFFD before the cut is stripped with the decoder's own. */
  lemma GenuineReplacementLost()
    ensures ByteBudget([REPLACEMENT, 'a'], 3) == ""
    ensures |Encode([REPLACEMENT])| == 3
  {
    var s := [REPLACEMENT, 'a'];
    assert s[1..] == "a" && "a"[1..] == "" && [REPLACEMENT][1..] == "";
    assert Encode(s) == EncodeChar(REPLACEMENT) + (EncodeChar('a') + []);
    assert CharsWithin(s, 3) == 1 by { assert CharsWithin("a", 0) == 0; }
    assert s[..1] == [REPLACEMENT];
    DecodePrefix(s, 3);
    assert StripReplacements([REPLACEMENT]) == StripReplacements("");
  }
}
