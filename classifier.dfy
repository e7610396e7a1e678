/**
 * The change classifier of the paste flow: a paste is meaningful unless
 * the text before and after it has the same lines, up to the white space
 * around each line.
 */
module Classifier {
  import opened Text

  /**
   * Two lists of lines differ meaningfully: their lengths differ, or some
   * pair of lines at the same position differs once trimmed.
   */
  predicate LinesDiffer(oldLines: seq<string>, newLines: seq<string>) {
    |oldLines| != |newLines| ||
    exists i :: 0 <= i < |oldLines| && Trim(oldLines[i]) != Trim(newLines[i])
  }

  /** Reference definition of a meaningful change: the texts' lines differ meaningfully. */
  predicate Meaningful(oldText: string, newText: string) {
    LinesDiffer(Split(oldText), Split(newText))
  }

  /** Position of the first pair of lines that differ once trimmed, or the line count if there is none. */
  function FirstDifference(oldLines: seq<string>, newLines: seq<string>): (k: nat)
    requires |oldLines| == |newLines|
    ensures k <= |oldLines|
    ensures forall j :: 0 <= j < k ==> Trim(oldLines[j]) == Trim(newLines[j])
    ensures k < |oldLines| ==> Trim(oldLines[k]) != Trim(newLines[k])
  {
    if oldLines == [] || Trim(oldLines[0]) != Trim(newLines[0]) then 0
    else 1 + FirstDifference(oldLines[1..], newLines[1..])
  }

  /** The first difference is the one position that differs after a run of equal ones. */
  lemma FirstDifferenceAt(oldLines: seq<string>, newLines: seq<string>, i: nat)
    requires |oldLines| == |newLines| && i <= |oldLines|
    requires forall j :: 0 <= j < i ==> Trim(oldLines[j]) == Trim(newLines[j])
    requires i < |oldLines| ==> Trim(oldLines[i]) != Trim(newLines[i])
    ensures FirstDifference(oldLines, newLines) == i
  {
  }

  /**
   * `textChangedMeaningfully`: compares the line counts, then the trimmed
   * lines position by position, returning at the first mismatch. The ghost
   * result `compared` is the number of line pairs the loop looked at.
   */
  method TextChangedMeaningfully(oldText: string, newText: string) returns (changed: bool, ghost compared: nat)
    ensures changed == Meaningful(oldText, newText)
    ensures |Split(oldText)| != |Split(newText)| ==> compared == 0
    ensures |Split(oldText)| == |Split(newText)| ==>
      compared == if changed then FirstDifference(Split(oldText), Split(newText)) + 1 else |Split(oldText)|
  {
    var oldLines := Split(oldText);
    var newLines := Split(newText);
    compared := 0;
    if |oldLines| != |newLines| {
      return true, compared;
    }
    for i := 0 to |oldLines|
      invariant compared == i
      invariant forall j :: 0 <= j < i ==> Trim(oldLines[j]) == Trim(newLines[j])
    {
      compared := compared + 1;
      if Trim(oldLines[i]) != Trim(newLines[i]) {
        FirstDifferenceAt(oldLines, newLines, i);
        return true, compared;
      }
    }
    FirstDifferenceAt(oldLines, newLines, |oldLines|);
    return false, compared;
  }

  /** A line added or removed is always meaningful. */
  lemma LineCountsDiffer(oldText: string, newText: string)
    requires NewlineCount(oldText) != NewlineCount(newText)
    ensures Meaningful(oldText, newText)
  {
  }

  /** Same line count and every pair of lines equal once trimmed: not meaningful. */
  lemma SameAfterTrim(oldText: string, newText: string)
    requires |Split(oldText)| == |Split(newText)|
    requires forall i :: 0 <= i < |Split(oldText)| ==> Trim(Split(oldText)[i]) == Trim(Split(newText)[i])
    ensures !Meaningful(oldText, newText)
  {
  }

  /** Same line count and one pair of lines that differs once trimmed: meaningful. */
  lemma MismatchIsMeaningful(oldText: string, newText: string, i: nat)
    requires |Split(oldText)| == |Split(newText)|
    requires i < |Split(oldText)| && Trim(Split(oldText)[i]) != Trim(Split(newText)[i])
    ensures Meaningful(oldText, newText)
    ensures FirstDifference(Split(oldText), Split(newText)) <= i
  {
  }

  /** Equal line counts: meaningful exactly when some position differs, the first one being `FirstDifference`. */
  lemma MeaningfulIffDifference(oldText: string, newText: string)
    requires |Split(oldText)| == |Split(newText)|
    ensures Meaningful(oldText, newText) <==> FirstDifference(Split(oldText), Split(newText)) < |Split(oldText)|
  {
    var k := FirstDifference(Split(oldText), Split(newText));
    if k < |Split(oldText)| {
      assert Trim(Split(oldText)[k]) != Trim(Split(newText)[k]);
    }
  }

  /** Nothing changed: not meaningful. */
  lemma Reflexive(text: string)
    ensures !Meaningful(text, text)
  {
  }

  /** The order of the two texts does not matter. */
  lemma Symmetric(oldText: string, newText: string)
    ensures Meaningful(oldText, newText) == Meaningful(newText, oldText)
  {
  }

  /** A line and the same line with the ending a CRLF conversion gives it trim alike. */
  lemma CrlfLineTrim(line: string, crlfLine: string, i: nat, count: nat)
    requires crlfLine == line + LineEnd(i, count)
    ensures Trim(line) == Trim(crlfLine)
  {
    if i + 1 < count {
      TrimAppendWhiteSpace(line, '\r');
    } else {
      assert crlfLine == line;
    }
  }

  /** Converting LF line breaks to CRLF is not a meaningful change: `trim` strips the '\r'. */
  lemma CrlfNotMeaningful(text: string)
    ensures !Meaningful(text, ToCrlf(text))
  {
    var lines, crlfLines := Split(text), Split(ToCrlf(text));
    SplitToCrlf(text);
    WithCrAt(lines, 0);
    forall i | 0 <= i < |lines| ensures Trim(lines[i]) == Trim(crlfLines[i]) {
      WithCrAt(lines, i);
      CrlfLineTrim(lines[i], crlfLines[i], i, |lines|);
    }
    SameAfterTrim(text, ToCrlf(text));
  }

  /** Surrounding a line with more white space does not change its trim. */
  lemma TrimIndented(line: string, before: string, after: string)
    requires AllWhiteSpace(before) && AllWhiteSpace(after)
    ensures Trim(before + line + after) == Trim(line)
  {
    TrimDecomposes(line);
    var i, core := LeadingWhiteSpace(line), Trim(line);
    var lead, trail := line[..i], line[i + |core|..];
    assert line == lead + core + trail;
    assert before + line + after == (before + lead) + core + (trail + after);
    AllWhiteSpaceConcat(before, lead);
    AllWhiteSpaceConcat(trail, after);
    TrimUnique(before + lead, core, trail + after);
  }

  /** Re-indenting the second line of a two-line text is not meaningful. */
  lemma ReindentedSecondLine(first: string, second: string, before: string, after: string)
    requires '\n' !in first && '\n' !in second && '\n' !in before && '\n' !in after
    requires AllWhiteSpace(before) && AllWhiteSpace(after)
    ensures !Meaningful(first + "\n" + second, first + "\n" + (before + second + after))
  {
    var indented := before + second + after;
    assert '\n' !in indented;
    SplitTwoLines(first, second);
    SplitTwoLines(first, indented);
    TrimIndented(second, before, after);
    SameAfterTrim(first + "\n" + second, first + "\n" + indented);
  }

  lemma AllWhiteSpaceConcat(x: string, y: string)
    requires AllWhiteSpace(x) && AllWhiteSpace(y)
    ensures AllWhiteSpace(x + y)
  {
    forall k | 0 <= k < |x + y| ensures IsWhiteSpace((x + y)[k]) {
      if k < |x| { assert (x + y)[k] == x[k]; } else { assert (x + y)[k] == y[k - |x|]; }
    }
  }

  /** Replacing the second line of a two-line text by one that trims differently is meaningful. */
  lemma ChangedSecondLine(first: string, second: string, replacement: string)
    requires '\n' !in first && '\n' !in second && '\n' !in replacement
    requires Trim(second) != Trim(replacement)
    ensures Meaningful(first + "\n" + second, first + "\n" + replacement)
  {
    SplitTwoLines(first, second);
    SplitTwoLines(first, replacement);
    MismatchIsMeaningful(first + "\n" + second, first + "\n" + replacement, 1);
  }

  /** Scenario: re-indenting "bar" is not meaningful. */
  lemma IndentationOnly()
    ensures !Meaningful("foo\nbar", "foo\n  bar  ")
  {
    ReindentedSecondLine("foo", "bar", "  ", "  ");
    assert "foo" + "\n" + "bar" == "foo\nbar";
    assert "foo" + "\n" + ("  " + "bar" + "  ") == "foo\n  bar  ";
  }

  /** Scenario: changing "bar" to "baz" is meaningful. */
  lemma ChangedWord()
    ensures Meaningful("foo\nbar", "foo\nbaz")
  {
    TrimNoSurroundingWhiteSpace("bar");
    TrimNoSurroundingWhiteSpace("baz");
    ChangedSecondLine("foo", "bar", "baz");
    assert "foo" + "\n" + "bar" == "foo\nbar";
    assert "foo" + "\n" + "baz" == "foo\nbaz";
  }

  /** A removed line is meaningful. */
  lemma RemovedLine()
    ensures Meaningful("foo\nbar", "foo")
  {
    assert NewlineCount("foo") == 0;
    assert NewlineCount("foo\nbar") == 1;
  }

  /** The comparison is positional: swapping two distinct lines is meaningful. */
  lemma SwappedLines()
    ensures Meaningful("a\nb", "b\na")
  {
    SplitTwoLines("a", "b");
    SplitTwoLines("b", "a");
    TrimNoSurroundingWhiteSpace("a");
    TrimNoSurroundingWhiteSpace("b");
    assert Trim(Split("a\nb")[0]) != Trim(Split("b\na")[0]);
  }
}
