/**
 * The size gate of the automatic paste command: a paste whose clipboard
 * text and replaced text are both below the configured minimum is left to
 * the editor's plain paste; any other goes through the diff flow.
 */
module PasteGate {
  import opened Wrappers

  /** Default of the `diffPaste.minPasteSize` setting. */
  const DefaultMinPasteSize: int := 100

  /** The threshold in force: the setting when it is set, the default otherwise. */
  function MinPasteSize(setting: Option<int>): (minSize: int)
    ensures setting.None? ==> minSize == DefaultMinPasteSize
    ensures setting.Some? ==> minSize == setting.value
  {
    setting.GetOr(DefaultMinPasteSize)
  }

  /**
   * Total length of the text covered by the selections, one text per
   * selection: the left-to-right sum the `reduce` over the selections
   * computes, starting from 0.
   */
  function ReplacedLength(selections: seq<string>): (len: nat)
    ensures len == 0 <==> forall i :: 0 <= i < |selections| ==> selections[i] == []
    ensures forall i :: 0 <= i < |selections| ==> |selections[i]| <= len
  {
    if selections == [] then 0
    else ReplacedLength(selections[..|selections| - 1]) + |selections[|selections| - 1]|
  }

  /** All the selected texts one after the other. */
  function Concat(selections: seq<string>): string {
    if selections == [] then [] else selections[0] + Concat(selections[1..])
  }

  /** The replaced length is the length of all the selected text put together. */
  lemma {:induction false} ReplacedLengthIsConcatLength(selections: seq<string>)
    ensures ReplacedLength(selections) == |Concat(selections)|
  {
    if selections != [] {
      var n := |selections|;
      ReplacedLengthIsConcatLength(selections[..n - 1]);
      ConcatAppend(selections[..n - 1], selections[n - 1]);
      assert selections[..n - 1] + [selections[n - 1]] == selections;
    }
  }

  lemma {:induction false} ConcatAppend(selections: seq<string>, last: string)
    ensures Concat(selections + [last]) == Concat(selections) + last
  {
    if selections == [] {
      assert [] + [last] == [last];
      assert Concat([last]) == last + Concat([]);
    } else {
      assert (selections + [last])[1..] == selections[1..] + [last];
      ConcatAppend(selections[1..], last);
    }
  }

  /** The replaced length of two groups of selections is the sum of theirs. */
  lemma {:induction false} ReplacedLengthConcat(a: seq<string>, b: seq<string>)
    ensures ReplacedLength(a + b) == ReplacedLength(a) + ReplacedLength(b)
  {
    if b == [] {
      assert a + b == a;
    } else {
      var n := |b|;
      assert (a + b)[..|a + b| - 1] == a + b[..n - 1];
      ReplacedLengthConcat(a, b[..n - 1]);
    }
  }

  /**
   * The early-exit condition of the automatic paste: both lengths strictly
   * below the threshold. Then the clipboard text and every single selection
   * are shorter than the threshold, and the threshold is positive.
   */
  function PlainPasteSuffices(clipText: string, selections: seq<string>, minSize: int): (plain: bool)
    ensures plain ==> 0 < minSize && |clipText| < minSize
    ensures plain ==> forall i :: 0 <= i < |selections| ==> |selections[i]| < minSize
  {
    |clipText| < minSize && ReplacedLength(selections) < minSize
  }

  /** The diff flow runs exactly when either length reaches the threshold, equality included. */
  lemma DiffFlowWhenEitherReaches(clipText: string, selections: seq<string>, minSize: int)
    ensures !PlainPasteSuffices(clipText, selections, minSize) <==>
      (|clipText| >= minSize || ReplacedLength(selections) >= minSize)
  {
  }

  /** Selecting more text never turns a diff-flow paste into a plain one. */
  lemma MoreSelectionsStayInDiffFlow(clipText: string, selections: seq<string>, more: seq<string>, minSize: int)
    requires !PlainPasteSuffices(clipText, selections, minSize)
    ensures !PlainPasteSuffices(clipText, selections + more, minSize)
  {
    ReplacedLengthConcat(selections, more);
  }

  /** A long enough single selection sends even an empty clipboard to the diff flow. */
  lemma LongSelectionReachesDiffFlow(clipText: string, selections: seq<string>, i: nat, minSize: int)
    requires i < |selections| && |selections[i]| >= minSize
    ensures !PlainPasteSuffices(clipText, selections, minSize)
  {
  }

  /** Scenario: 50 characters pasted over a 150-character selection with the default threshold. */
  lemma ShortClipOverLongSelection(clipText: string, selected: string)
    requires |clipText| == 50 && |selected| == 150
    ensures !PlainPasteSuffices(clipText, [selected], MinPasteSize(None))
  {
    assert ReplacedLength([selected]) == ReplacedLength([]) + |selected|;
  }
}
