/** Difference navigation and block copy in the main window
    (FileDiff/MainWindow.xaml.cs). After a compare the two sides are two
    parallel line lists; the window keeps the first and last block start
    for its buttons, the current block and its length, and dirty flags,
    and copies the current block from one side onto the other in place. */
module Navigation {
  import opened Wrappers
  import opened TextStates
  import opened Lines
  import opened FolderItems
  import opened FileEncodings
  import opened Saving

  /** The classifications of a list of lines, slot by slot. */
  function TypesOf(lines: seq<Line>): (r: seq<TextState>)
    reads lines
    ensures |r| == |lines|
    ensures forall i :: 0 <= i < |lines| ==> r[i] == lines[i].state
  {
    seq(|lines|, i reads lines requires 0 <= i < |lines| => lines[i].state)
  }

  /** Slot i opens a block: it is the first slot or follows a full match. */
  predicate OpensBlock(left: seq<TextState>, i: int) {
    0 <= i < |left| && (i == 0 || left[i - 1] == FullMatch)
  }

  /** A block start for the navigation buttons: an opening slot whose left
      line differs. */
  predicate DiffStart(left: seq<TextState>, i: int) {
    OpensBlock(left, i) && left[i] != FullMatch
  }

  /** A stop for next/previous: an opening slot where either side differs. */
  predicate NavStop(left: seq<TextState>, right: seq<TextState>, i: int) {
    OpensBlock(left, i) && i < |right| && (left[i] != FullMatch || right[i] != FullMatch)
  }

  /** `len` is the length of the block that starts at slot i: slot i and
      the differing left lines that follow it, up to the next full match or
      the end. */
  predicate IsDiffLength(left: seq<TextState>, i: int, len: int) {
    && -1 <= i
    && 1 <= len
    && (forall k :: i < k < i + len ==> 0 <= k < |left| && left[k] != FullMatch)
    && (i + len < |left| ==> left[i + len] == FullMatch)
  }

  /** `first` and `last` are the smallest and largest block starts, both -1
      when there is none. */
  predicate FirstAndLastDiff(left: seq<TextState>, first: int, last: int) {
    && (first == -1 <==> last == -1)
    && (first == -1 ==> forall i :: 0 <= i < |left| ==> !DiffStart(left, i))
    && (first != -1 ==> DiffStart(left, first) && forall i :: 0 <= i < first ==> !DiffStart(left, i))
    && (last != -1 ==> DiffStart(left, last) && forall i :: last < i < |left| ==> !DiffStart(left, i))
  }

  /** The two sides agree on which slots fully match, as a compare result
      with filler lines does. */
  predicate Aligned(left: seq<TextState>, right: seq<TextState>) {
    |left| == |right| && forall i :: 0 <= i < |left| ==> (left[i] == FullMatch <==> right[i] == FullMatch)
  }

  /** Every differing line lies in a block that begins at a block start at
      or before it, with no full match in between. */
  lemma {:induction false} DiffStartAtOrBefore(left: seq<TextState>, k: int)
    requires 0 <= k < |left| && left[k] != FullMatch
    ensures exists i :: 0 <= i <= k && DiffStart(left, i) && forall j :: i <= j <= k ==> left[j] != FullMatch
  {
    if k > 0 && left[k - 1] != FullMatch {
      DiffStartAtOrBefore(left, k - 1);
      var i :| 0 <= i <= k - 1 && DiffStart(left, i) && forall j :: i <= j <= k - 1 ==> left[j] != FullMatch;
      assert forall j :: i <= j <= k ==> left[j] != FullMatch;
    } else {
      assert DiffStart(left, k);
    }
  }

  /** There is a block start exactly when some left line differs. */
  lemma DiffStartExistsIff(left: seq<TextState>)
    ensures (exists i :: DiffStart(left, i)) <==> (exists k :: 0 <= k < |left| && left[k] != FullMatch)
  {
    if k :| 0 <= k < |left| && left[k] != FullMatch {
      DiffStartAtOrBefore(left, k);
    }
  }

  /** The button marks are determined by the classifications. */
  lemma FirstAndLastDiffUnique(left: seq<TextState>, f1: int, l1: int, f2: int, l2: int)
    requires FirstAndLastDiff(left, f1, l1) && FirstAndLastDiff(left, f2, l2)
    ensures f1 == f2 && l1 == l2
  {
    if f1 != -1 && f2 != -1 {
      assert !(f1 < f2) && !(f2 < f1);
      assert !(l1 < l2) && !(l2 < l1);
    }
  }

  /** The first slot at or after j that fully matches, or the end of the
      list. */
  function RunEnd(left: seq<TextState>, j: nat): (e: nat)
    decreases |left| - j
  {
    if j < |left| && left[j] != FullMatch then RunEnd(left, j + 1) else j
  }

  /** Every slot inside a block reaches the same end. */
  lemma {:induction false} RunEndWithin(left: seq<TextState>, i: int, len: int, m: int)
    requires IsDiffLength(left, i, len) && i < m <= i + len
    ensures RunEnd(left, m) == i + len
    decreases i + len - m
  {
    if m < i + len {
      RunEndWithin(left, i, len, m + 1);
    }
  }

  /** A block ends at the first full match after its start: its length is
      determined, and so it has one length. */
  lemma DiffLengthUnique(left: seq<TextState>, i: int, a: int, b: int)
    requires IsDiffLength(left, i, a) && IsDiffLength(left, i, b)
    ensures a == b && i + a == RunEnd(left, i + 1)
  {
    RunEndWithin(left, i, a, i + 1);
    RunEndWithin(left, i, b, i + 1);
  }

  /** The next block start after a block lies beyond its end: blocks do not
      overlap. */
  lemma BlocksDisjoint(left: seq<TextState>, i: int, len: int, j: int)
    requires DiffStart(left, i) && IsDiffLength(left, i, len)
    requires i < j && DiffStart(left, j)
    ensures i + len < j
  {
    forall k | i < k <= i + len
      ensures !DiffStart(left, k)
    {
      if k == i + len {
        assert k < |left| ==> left[k] == FullMatch;
      } else {
        assert k - 1 == i || left[k - 1] != FullMatch;
      }
    }
  }

  /** On aligned sides the next/previous stops are exactly the block starts
      the buttons use. */
  lemma AlignedStopsAreDiffStarts(left: seq<TextState>, right: seq<TextState>)
    requires Aligned(left, right)
    ensures forall i :: NavStop(left, right, i) <==> DiffStart(left, i)
  {
  }

  /** Copying a block of the left classifications onto the right keeps the
      sides aligned. */
  lemma CopyKeepsAligned(left: seq<TextState>, right: seq<TextState>, right': seq<TextState>, lo: int, hi: int)
    requires Aligned(left, right) && |right'| == |right|
    requires forall k :: 0 <= k < |right| && lo <= k < hi ==> right'[k] == left[k]
    requires forall k :: 0 <= k < |right| && !(lo <= k < hi) ==> right'[k] == right[k]
    ensures Aligned(left, right')
  {
  }

  /** Line `dst` now holds the text and type of `src`, with the single
      segment the setters build. */
  ghost predicate CopiedLine(dst: Line, src: Line)
    reads dst, src
  {
    && dst.Valid()
    && dst.text == src.text
    && dst.state == src.state
    && dst.textSegments == [TextSegment(src.text, src.state)]
  }

  /** A copy leaves a line's own position and its partner's position as
      they were. */
  twostate predicate IndicesKept(l: Line)
    reads l
  {
    l.lineIndex == old(l.lineIndex) && l.matchingLineIndex == old(l.matchingLineIndex)
  }

  /** The loop shared by the two copy commands: the lines of `dst` in
      slots `lo` to `hi` take the text and type of the lines of `src` in
      the same slots; nothing else changes. */
  method CopyLines(src: seq<Line>, dst: seq<Line>, lo: int, hi: int)
    requires hi <= lo || (0 <= lo && hi <= |src| && hi <= |dst|)
    requires forall i, j :: 0 <= i < j < |dst| ==> dst[i] != dst[j]
    requires forall i, j :: 0 <= i < |src| && 0 <= j < |dst| ==> src[i] != dst[j]
    modifies dst
    ensures forall k :: 0 <= k < |dst| && lo <= k < hi ==> CopiedLine(dst[k], src[k]) && IndicesKept(dst[k])
    ensures forall k :: 0 <= k < |dst| && !(lo <= k < hi) ==> unchanged(dst[k])
    ensures forall k :: 0 <= k < |src| ==> unchanged(src[k])
  {
    var i := lo;
    while i < hi
      invariant lo <= i <= if lo < hi then hi else lo
      invariant forall k :: 0 <= k < |dst| && lo <= k < i ==> CopiedLine(dst[k], src[k]) && IndicesKept(dst[k])
      invariant forall k :: 0 <= k < |dst| && !(lo <= k < i) ==> unchanged(dst[k])
      invariant forall k :: 0 <= k < |src| ==> unchanged(src[k])
      decreases hi - i
    {
      CopyLine(dst[i], src[i]);
      i := i + 1;
    }
  }

  /** One step of the copy: `dst` takes the text and then the type of
      `src`. */
  method CopyLine(dst: Line, src: Line)
    requires dst != src
    modifies dst
    ensures CopiedLine(dst, src) && IndicesKept(dst)
    ensures unchanged(src)
  {
    dst.SetText(src.text);
    dst.SetType(src.state);
  }

  class MainWindow {
    const leftFile: seq<Line>
    const rightFile: seq<Line>
    var firstDiff: int
    var lastDiff: int
    var currentDiff: int
    var currentDiffLength: int
    var leftFileDirty: bool
    var rightFileDirty: bool
    var leftFileEdited: bool
    var rightFileEdited: bool
    var folderDiffItems: seq<FileItem>
    var rightSelected: Option<FileItem>

    /** Every line is its own object. The line lists never change, so this
        depends on no mutable state. */
    ghost predicate DistinctLines() {
      && (forall i, j :: 0 <= i < j < |leftFile| ==> leftFile[i] != leftFile[j])
      && (forall i, j :: 0 <= i < j < |rightFile| ==> rightFile[i] != rightFile[j])
      && (forall i, j :: 0 <= i < |leftFile| && 0 <= j < |rightFile| ==> leftFile[i] != rightFile[j])
    }

    /** Every line is its own object, and the current block is a slot or
        one of the two sentinels -1 and Count. */
    ghost predicate Valid()
      reads this
    {
      DistinctLines() && -1 <= currentDiff <= |leftFile|
    }

    /** The lines' derived values agree with their texts. */
    ghost predicate LinesValid()
      reads leftFile, rightFile
    {
      && (forall i :: 0 <= i < |leftFile| ==> leftFile[i].Valid())
      && (forall i :: 0 <= i < |rightFile| ==> rightFile[i].Valid())
    }

    function LeftTypes(): seq<TextState>
      reads leftFile
    {
      TypesOf(leftFile)
    }

    function RightTypes(): seq<TextState>
      reads rightFile
    {
      TypesOf(rightFile)
    }

    /** A window showing a compare result, before its navigation state is
        initialised: no marks, no current block, nothing edited. The folder
        list and the right-hand selection are carried over from the window's
        earlier state, as a file re-compare keeps them. */
    constructor (left: seq<Line>, right: seq<Line>, items: seq<FileItem>, selected: Option<FileItem>)
      requires forall i, j :: 0 <= i < j < |left| ==> left[i] != left[j]
      requires forall i, j :: 0 <= i < j < |right| ==> right[i] != right[j]
      requires forall i, j :: 0 <= i < |left| && 0 <= j < |right| ==> left[i] != right[j]
      requires forall i :: 0 <= i < |left| ==> left[i].Valid()
      requires forall i :: 0 <= i < |right| ==> right[i].Valid()
      ensures Valid() && LinesValid()
      ensures leftFile == left && rightFile == right
      ensures firstDiff == -1 && lastDiff == -1 && currentDiff == -1 && currentDiffLength == 0
      ensures !leftFileDirty && !rightFileDirty && !leftFileEdited && !rightFileEdited
      ensures folderDiffItems == items && rightSelected == selected
    {
      leftFile, rightFile := left, right;
      firstDiff, lastDiff := -1, -1;
      currentDiff, currentDiffLength := -1, 0;
      leftFileDirty, rightFileDirty := false, false;
      leftFileEdited, rightFileEdited := false, false;
      folderDiffItems, rightSelected := items, selected;
    }

    /** `UpdateNavigationButtons`: recomputes the first and last block
        starts; when there is none the current block is cleared to -1. */
    method UpdateNavigationButtons()
      requires Valid()
      modifies this`firstDiff, this`lastDiff, this`currentDiff, this`currentDiffLength
      ensures Valid()
      ensures FirstAndLastDiff(LeftTypes(), firstDiff, lastDiff)
      ensures firstDiff == -1 <==> forall k :: 0 <= k < |leftFile| ==> leftFile[k].state == FullMatch
      ensures lastDiff == -1 ==> currentDiff == -1 && currentDiffLength == -1
      ensures lastDiff != -1 ==> currentDiff == old(currentDiff) && currentDiffLength == old(currentDiffLength)
      ensures LeftTypes() == old(LeftTypes())
    {
      ghost var left := LeftTypes();
      firstDiff := -1;
      lastDiff := -1;
      for i := 0 to |leftFile|
        invariant currentDiff == old(currentDiff) && currentDiffLength == old(currentDiffLength)
        invariant firstDiff == -1 <==> lastDiff == -1
        invariant firstDiff == -1 ==> forall j :: 0 <= j < i ==> !DiffStart(left, j)
        invariant firstDiff != -1 ==> 0 <= firstDiff < i && DiffStart(left, firstDiff)
        invariant firstDiff != -1 ==> forall j :: 0 <= j < firstDiff ==> !DiffStart(left, j)
        invariant lastDiff != -1 ==> 0 <= lastDiff < i && DiffStart(left, lastDiff)
        invariant lastDiff != -1 ==> forall j :: lastDiff < j < i ==> !DiffStart(left, j)
      {
        if i == 0 || leftFile[i - 1].state == FullMatch {
          if firstDiff == -1 && leftFile[i].state != FullMatch {
            firstDiff := i;
          }
          if leftFile[i].state != FullMatch {
            lastDiff := i;
          }
        }
      }
      assert FirstAndLastDiff(left, firstDiff, lastDiff);
      if lastDiff == -1 {
        currentDiff := -1;
        currentDiffLength := -1;
      }
      assert LeftTypes() == left;
      DiffStartExistsIff(left);
    }

    /** `MoveToDiffLine`: makes slot i current and measures its block. */
    method MoveToDiffLine(i: int)
      requires Valid()
      requires -1 <= i <= |leftFile|
      modifies this`currentDiff, this`currentDiffLength
      ensures Valid()
      ensures currentDiff == i
      ensures IsDiffLength(old(LeftTypes()), i, currentDiffLength)
      ensures i < |leftFile| ==> i + currentDiffLength <= |leftFile|
      ensures LeftTypes() == old(LeftTypes())
    {
      ghost var left := LeftTypes();
      var diffLength := 1;
      while i + diffLength < |leftFile| && leftFile[i + diffLength].state != FullMatch
        invariant 1 <= diffLength
        invariant i + diffLength <= |leftFile| || diffLength == 1
        invariant forall k :: i < k < i + diffLength ==> 0 <= k < |left| && left[k] != FullMatch
        decreases |leftFile| - (i + diffLength)
      {
        assert left[i + diffLength] == leftFile[i + diffLength].state;
        diffLength := diffLength + 1;
      }
      if i + diffLength < |leftFile| {
        assert left[i + diffLength] == leftFile[i + diffLength].state;
      }
      currentDiff := i;
      currentDiffLength := diffLength;
      assert LeftTypes() == left;
    }

    /** `InitNavigationState`: resets the marks, the current block and the
        four save flags; when both sides have lines the marks are computed,
        and when there is a first block it becomes current with its length.
        The assignment of `firstDiff` to the current block that follows
        `MoveToDiffLine(firstDiff)` stores the value that call has just
        stored, so it is not repeated here. */
    method InitNavigationState()
      requires Valid()
      modifies this`firstDiff, this`lastDiff, this`currentDiff, this`currentDiffLength
      modifies this`leftFileDirty, this`rightFileDirty, this`leftFileEdited, this`rightFileEdited
      ensures Valid()
      ensures !leftFileDirty && !rightFileDirty && !leftFileEdited && !rightFileEdited
      ensures |leftFile| > 0 && |rightFile| > 0 ==> FirstAndLastDiff(LeftTypes(), firstDiff, lastDiff)
      ensures !(|leftFile| > 0 && |rightFile| > 0) ==>
        firstDiff == -1 && lastDiff == -1 && currentDiff == -1 && currentDiffLength == 1
      ensures firstDiff != -1 ==>
        currentDiff == firstDiff && IsDiffLength(LeftTypes(), firstDiff, currentDiffLength)
      ensures firstDiff == -1 && |leftFile| > 0 && |rightFile| > 0 ==>
        currentDiff == -1 && currentDiffLength == -1
    {
      currentDiff, currentDiffLength, firstDiff, lastDiff := -1, 1, -1, -1;
      leftFileDirty, leftFileEdited, rightFileDirty, rightFileEdited := false, false, false, false;
      if |leftFile| > 0 && |rightFile| > 0 {
        UpdateNavigationButtons();
      }
      if firstDiff != -1 {
        MoveToDiffLine(firstDiff);
      }
    }

    /** `MoveToNextDiff`: moves to the first stop after the current block,
        or stays put when there is none. */
    method MoveToNextDiff()
      requires Valid() && |leftFile| == |rightFile|
      modifies this`currentDiff, this`currentDiffLength
      ensures Valid()
      ensures currentDiff == old(currentDiff) ==>
        currentDiffLength == old(currentDiffLength)
        && forall i :: old(currentDiff) < i ==> !NavStop(LeftTypes(), RightTypes(), i)
      ensures currentDiff != old(currentDiff) ==>
        && old(currentDiff) < currentDiff
        && NavStop(LeftTypes(), RightTypes(), currentDiff)
        && (forall i :: old(currentDiff) < i < currentDiff ==> !NavStop(LeftTypes(), RightTypes(), i))
        && IsDiffLength(LeftTypes(), currentDiff, currentDiffLength)
    {
      ghost var left, right := LeftTypes(), RightTypes();
      var i := currentDiff + 1;
      while i < |leftFile|
        invariant old(currentDiff) < i
        invariant currentDiff == old(currentDiff) && currentDiffLength == old(currentDiffLength)
        invariant forall j :: old(currentDiff) < j < i ==> !NavStop(left, right, j)
        decreases |leftFile| - i
      {
        if i == 0 || leftFile[i - 1].state == FullMatch {
          if leftFile[i].state != FullMatch || rightFile[i].state != FullMatch {
            currentDiff := i;
            MoveToDiffLine(i);
            return;
          }
        }
        i := i + 1;
      }
    }

    /** `MoveToPrevoiusDiff`: moves to the last stop before the current
        block, or stays put when there is none. */
    method MoveToPreviousDiff()
      requires Valid() && |leftFile| == |rightFile|
      modifies this`currentDiff, this`currentDiffLength
      ensures Valid()
      ensures currentDiff == old(currentDiff) ==>
        currentDiffLength == old(currentDiffLength)
        && forall i :: i < old(currentDiff) ==> !NavStop(LeftTypes(), RightTypes(), i)
      ensures currentDiff != old(currentDiff) ==>
        && currentDiff < old(currentDiff)
        && NavStop(LeftTypes(), RightTypes(), currentDiff)
        && (forall i :: currentDiff < i < old(currentDiff) ==> !NavStop(LeftTypes(), RightTypes(), i))
        && IsDiffLength(LeftTypes(), currentDiff, currentDiffLength)
    {
      ghost var left, right := LeftTypes(), RightTypes();
      var i := currentDiff - 1;
      while i >= 0
        invariant i < old(currentDiff)
        invariant currentDiff == old(currentDiff) && currentDiffLength == old(currentDiffLength)
        invariant forall j :: i < j < old(currentDiff) ==> !NavStop(left, right, j)
        decreases i
      {
        if i == 0 || leftFile[i - 1].state == FullMatch {
          if leftFile[i].state != FullMatch || rightFile[i].state != FullMatch {
            currentDiff := i;
            MoveToDiffLine(i);
            return;
          }
        }
        i := i - 1;
      }
    }

    /** `MoveToFirstDiff`: the next stop starting from the sentinel -1. */
    method MoveToFirstDiff()
      requires Valid() && |leftFile| == |rightFile|
      modifies this`currentDiff, this`currentDiffLength
      ensures Valid()
      ensures currentDiff == -1 ==>
        currentDiffLength == old(currentDiffLength) && forall i :: !NavStop(LeftTypes(), RightTypes(), i)
      ensures currentDiff != -1 ==>
        && NavStop(LeftTypes(), RightTypes(), currentDiff)
        && (forall i :: i < currentDiff ==> !NavStop(LeftTypes(), RightTypes(), i))
        && IsDiffLength(LeftTypes(), currentDiff, currentDiffLength)
      ensures Aligned(LeftTypes(), RightTypes()) && FirstAndLastDiff(LeftTypes(), firstDiff, lastDiff) ==>
        currentDiff == firstDiff
    {
      currentDiff := -1;
      MoveToNextDiff();
      if Aligned(LeftTypes(), RightTypes()) {
        AlignedStopsAreDiffStarts(LeftTypes(), RightTypes());
      }
    }

    /** `MoveToLastDiff`: the previous stop starting from the sentinel
        Count; with no stop the current block stays at Count. */
    method MoveToLastDiff()
      requires Valid() && |leftFile| == |rightFile|
      modifies this`currentDiff, this`currentDiffLength
      ensures Valid()
      ensures currentDiff == |leftFile| ==>
        currentDiffLength == old(currentDiffLength) && forall i :: !NavStop(LeftTypes(), RightTypes(), i)
      ensures currentDiff != |leftFile| ==>
        && NavStop(LeftTypes(), RightTypes(), currentDiff)
        && (forall i :: currentDiff < i ==> !NavStop(LeftTypes(), RightTypes(), i))
        && IsDiffLength(LeftTypes(), currentDiff, currentDiffLength)
      ensures Aligned(LeftTypes(), RightTypes()) && FirstAndLastDiff(LeftTypes(), firstDiff, lastDiff) ==>
        currentDiff == if lastDiff == -1 then |leftFile| else lastDiff
    {
      currentDiff := |leftFile|;
      MoveToPreviousDiff();
      if Aligned(LeftTypes(), RightTypes()) {
        AlignedStopsAreDiffStarts(LeftTypes(), RightTypes());
      }
    }

    /** The slots of the current block. */
    predicate InBlock(k: int)
      reads this
    {
      currentDiff <= k < currentDiff + currentDiffLength
    }

    /** `CommandCopyLeftDiff_Executed`: in every slot of the current block
        the right line takes the left line's text and type; the right side
        becomes dirty, the block length drops to 0 and the marks are
        recomputed. */
    method CopyLeftDiff()
      requires Valid()
      requires currentDiffLength <= 0
        || (0 <= currentDiff && currentDiff + currentDiffLength <= |leftFile| && currentDiff + currentDiffLength <= |rightFile|)
      modifies this`rightFileDirty, this`currentDiffLength, this`firstDiff, this`lastDiff, this`currentDiff, rightFile
      ensures Valid()
      ensures forall k :: 0 <= k < |rightFile| && old(InBlock(k)) ==> CopiedLine(rightFile[k], leftFile[k]) && IndicesKept(rightFile[k])
      ensures forall k :: 0 <= k < |rightFile| && !old(InBlock(k)) ==> unchanged(rightFile[k])
      ensures forall k :: 0 <= k < |leftFile| ==> unchanged(leftFile[k])
      ensures rightFileDirty
      ensures FirstAndLastDiff(LeftTypes(), firstDiff, lastDiff)
      ensures lastDiff == -1 ==> currentDiff == -1 && currentDiffLength == -1
      ensures lastDiff != -1 ==> currentDiff == old(currentDiff) && currentDiffLength == 0
    {
      var lo, hi := currentDiff, currentDiff + currentDiffLength;
      CopyLines(leftFile, rightFile, lo, hi);
      rightFileDirty := true;
      currentDiffLength := 0;
      UpdateNavigationButtons();
    }

    /** `CommandCopyRightDiff_Executed`: the mirror image of
        `CopyLeftDiff`. */
    method CopyRightDiff()
      requires Valid()
      requires currentDiffLength <= 0
        || (0 <= currentDiff && currentDiff + currentDiffLength <= |leftFile| && currentDiff + currentDiffLength <= |rightFile|)
      modifies this`leftFileDirty, this`currentDiffLength, this`firstDiff, this`lastDiff, this`currentDiff, leftFile
      ensures Valid()
      ensures forall k :: 0 <= k < |leftFile| && old(InBlock(k)) ==> CopiedLine(leftFile[k], rightFile[k]) && IndicesKept(leftFile[k])
      ensures forall k :: 0 <= k < |leftFile| && !old(InBlock(k)) ==> unchanged(leftFile[k])
      ensures forall k :: 0 <= k < |rightFile| ==> unchanged(rightFile[k])
      ensures leftFileDirty
      ensures FirstAndLastDiff(LeftTypes(), firstDiff, lastDiff)
      ensures lastDiff == -1 ==> currentDiff == -1 && currentDiffLength == -1
      ensures lastDiff != -1 ==> currentDiff == old(currentDiff) && currentDiffLength == 0
    {
      var lo, hi := currentDiff, currentDiff + currentDiffLength;
      CopyLines(rightFile, leftFile, lo, hi);
      leftFileDirty := true;
      currentDiffLength := 0;
      UpdateNavigationButtons();
    }

    /** Lines 242-243 of the folder compare's completion: the list of files
        to step through is rebuilt from the right-hand tree. */
    method RebuildFolderDiffItems(rightFolder: seq<FileItem>, leftSelected: Option<FileItem>)
      modifies this`folderDiffItems
      ensures folderDiffItems == Filter(PreOrder(rightFolder), leftSelected)
    {
      folderDiffItems := [];
      folderDiffItems := GetFolderDiffItems(rightFolder, folderDiffItems, leftSelected);
    }

    /** `CommandNextFile_Executed`. */
    method NextFile()
      modifies this`rightSelected
      ensures rightSelected == NextFileTarget(folderDiffItems, old(rightSelected))
      ensures |folderDiffItems| > 0 && IndexOf(folderDiffItems, old(rightSelected)) == -1 ==>
        rightSelected == Some(folderDiffItems[0])
      ensures var k := IndexOf(folderDiffItems, old(rightSelected));
        0 <= k < |folderDiffItems| - 1 ==> rightSelected == Some(folderDiffItems[k + 1])
      ensures var k := IndexOf(folderDiffItems, old(rightSelected));
        (|folderDiffItems| == 0 || k == |folderDiffItems| - 1) ==> rightSelected == old(rightSelected)
    {
      if |folderDiffItems| > 0 {
        var currentIndex := IndexOf(folderDiffItems, rightSelected);
        if currentIndex == -1 {
          rightSelected := Some(folderDiffItems[0]);
        } else if currentIndex < |folderDiffItems| - 1 {
          rightSelected := Some(folderDiffItems[currentIndex + 1]);
        }
      }
    }

    /** `CommandPreviousFile_Executed`. */
    method PreviousFile()
      modifies this`rightSelected
      ensures rightSelected == PreviousFileTarget(folderDiffItems, old(rightSelected))
      ensures |folderDiffItems| > 0 && IndexOf(folderDiffItems, old(rightSelected)) == -1 ==>
        rightSelected == Some(folderDiffItems[|folderDiffItems| - 1])
      ensures var k := IndexOf(folderDiffItems, old(rightSelected));
        0 < k ==> rightSelected == Some(folderDiffItems[k - 1])
      ensures |folderDiffItems| == 0 || IndexOf(folderDiffItems, old(rightSelected)) == 0 ==>
        rightSelected == old(rightSelected)
    {
      if |folderDiffItems| > 0 {
        var currentIndex := IndexOf(folderDiffItems, rightSelected);
        if currentIndex == -1 {
          rightSelected := Some(folderDiffItems[|folderDiffItems| - 1]);
        } else if currentIndex > 0 {
          rightSelected := Some(folderDiffItems[currentIndex - 1]);
        }
      }
    }
    /** `CommandSaveLeftFile_Executed`: when the file exists and the left
        side is dirty, the non-filler lines are written with the encoding's
        newline string and both flags are cleared. Whether the file exists
        and whether the write succeeds come from outside; a failed write
        writes nothing here and keeps the flags. */
    method SaveLeftFile(fileExists: bool, encoding: FileEncoding, writeSucceeds: bool) returns (written: Option<string>)
      modifies this`leftFileDirty, this`leftFileEdited
      ensures fileExists && old(leftFileDirty) && writeSucceeds ==>
        && written == Some(Written(SavedLines(leftFile), GetNewLineString(encoding)))
        && !leftFileDirty && !leftFileEdited
      ensures !(fileExists && old(leftFileDirty) && writeSucceeds) ==>
        && written == None
        && leftFileDirty == old(leftFileDirty) && leftFileEdited == old(leftFileEdited)
    {
      written := None;
      if fileExists && leftFileDirty {
        if writeSucceeds {
          var content := WriteLines(leftFile, GetNewLineString(encoding));
          written := Some(content);
          leftFileDirty := false;
          leftFileEdited := false;
        }
      }
    }

    /** `CommandSaveRightFile_Executed`: the mirror image of
        `SaveLeftFile`. */
    method SaveRightFile(fileExists: bool, encoding: FileEncoding, writeSucceeds: bool) returns (written: Option<string>)
      modifies this`rightFileDirty, this`rightFileEdited
      ensures fileExists && old(rightFileDirty) && writeSucceeds ==>
        && written == Some(Written(SavedLines(rightFile), GetNewLineString(encoding)))
        && !rightFileDirty && !rightFileEdited
      ensures !(fileExists && old(rightFileDirty) && writeSucceeds) ==>
        && written == None
        && rightFileDirty == old(rightFileDirty) && rightFileEdited == old(rightFileEdited)
    {
      written := None;
      if fileExists && rightFileDirty {
        if writeSucceeds {
          var content := WriteLines(rightFile, GetNewLineString(encoding));
          written := Some(content);
          rightFileDirty := false;
          rightFileEdited := false;
        }
      }
    }
  }
}
