/** One displayed line of a compared file (FileDiff/Line.cs). Setting the
    text recomputes every value derived from it; setting the type resets
    the highlight segments. */
module Lines {
  import opened Wrappers
  import opened TextStates
  import opened Text

  /** A highlighted piece of a line. */
  datatype TextSegment = TextSegment(text: string, state: TextState)

  /** The text the segments cover, in order. */
  function SegmentsText(segments: seq<TextSegment>): string {
    if segments == [] then [] else segments[0].text + SegmentsText(segments[1..])
  }

  /** A single segment covers exactly its own text. */
  lemma SingleSegmentText(s: TextSegment)
    ensures SegmentsText([s]) == s.text
  {
    assert [s][1..] == [];
    assert s.text + [] == s.text;
  }

  class Line {
    var text: string
    var trimmedText: string
    var hash: int
    var hashNoWhitespace: int
    var textSegments: seq<TextSegment>
    var lineIndex: Option<int>
    var state: TextState
    var matchingLineIndex: Option<int>

    /** The values derived from the text agree with it. */
    ghost predicate Valid()
      reads this
    {
      && trimmedText == Trim(text)
      && hash == Hash(text)
      && hashNoWhitespace == Hash(StripWhiteSpace(text))
    }

    /** The segments cover the whole text with no gaps. */
    ghost predicate SegmentsCoverText()
      reads this
    {
      SegmentsText(textSegments) == text
    }

    /** `new Line() { Type = state0, Text = text0, LineIndex = index }`, the
        way the application creates the lines of a file read from disk. A
        fresh line's text (null in the application) is the empty string. */
    constructor (state0: TextState, text0: string, index: Option<int>)
      ensures Valid() && SegmentsCoverText()
      ensures text == text0 && state == state0 && lineIndex == index
      ensures textSegments == [TextSegment(text0, state0)]
      ensures matchingLineIndex == None
    {
      text := "";
      trimmedText := Trim("");
      hash := Hash("");
      hashNoWhitespace := Hash(StripWhiteSpace(""));
      textSegments := [];
      lineIndex := None;
      state := state0;
      matchingLineIndex := None;
      new;
      SetType(state0);
      SetText(text0);
      SetLineIndex(index);
    }

    /** The `Text` setter. */
    method SetText(value: string)
      modifies this`text, this`trimmedText, this`hash, this`hashNoWhitespace, this`textSegments
      ensures Valid() && SegmentsCoverText()
      ensures text == value
      ensures trimmedText == Trim(value)
      ensures hash == Hash(value) && hashNoWhitespace == Hash(StripWhiteSpace(value))
      ensures textSegments == [TextSegment(value, state)]
    {
      text := value;
      trimmedText := Trim(value);
      hash := Hash(value);
      hashNoWhitespace := Hash(StripWhiteSpace(value));
      // TextSegments.Clear() followed by one Add
      textSegments := [TextSegment(value, state)];
      SingleSegmentText(textSegments[0]);
    }

    /** The `Type` setter. */
    method SetType(value: TextState)
      modifies this`state, this`textSegments
      ensures state == value
      ensures textSegments == [TextSegment(text, value)]
      ensures SegmentsCoverText()
      ensures text == old(text)
      ensures Valid() == old(Valid())
    {
      state := value;
      textSegments := [TextSegment(text, value)];
      SingleSegmentText(textSegments[0]);
    }

    /** The `LineIndex` setter. */
    method SetLineIndex(value: Option<int>)
      modifies this`lineIndex
      ensures lineIndex == value
      ensures text == old(text) && state == old(state) && textSegments == old(textSegments)
    {
      lineIndex := value;
    }

    /** The `MatchingLineIndex` setter. */
    method SetMatchingLineIndex(value: Option<int>)
      modifies this`matchingLineIndex
      ensures matchingLineIndex == value
      ensures text == old(text) && state == old(state) && textSegments == old(textSegments)
    {
      matchingLineIndex := value;
    }

    /** The `TrimmedText` getter: the trimmed text when white space is
        ignored, the raw text otherwise. */
    function TrimmedText(ignoreWhiteSpace: bool): (r: string)
      reads this
      requires Valid()
      ensures ignoreWhiteSpace ==> r == Trim(text)
      ensures ignoreWhiteSpace ==> r == [] || (!IsWhiteSpace(r[0]) && !IsWhiteSpace(r[|r| - 1]))
      ensures !ignoreWhiteSpace ==> r == text
    {
      TrimHasNoEdgeWhiteSpace(text);
      if ignoreWhiteSpace then trimmedText else text
    }

    /** `GetHashCode()`: the hash of the white-space-free text when white
        space is ignored, the hash of the exact text otherwise. */
    function GetHashCode(ignoreWhiteSpace: bool): (r: int)
      reads this
      requires Valid()
      ensures ignoreWhiteSpace ==> r == Hash(StripWhiteSpace(text))
      ensures !ignoreWhiteSpace ==> r == Hash(text)
    {
      if ignoreWhiteSpace then hashNoWhitespace else hash
    }

    /** `Characters`: the characters of the text, in order. */
    method Characters() returns (list: seq<char>)
      ensures |list| == |text|
      ensures forall i :: 0 <= i < |text| ==> list[i] == text[i]
    {
      list := [];
      for i := 0 to |text|
        invariant list == text[..i]
      {
        list := list + [text[i]];
      }
    }

    /** `TrimmedCharacters`: the characters of `TrimmedText`, in order. */
    method TrimmedCharacters(ignoreWhiteSpace: bool) returns (list: seq<char>)
      requires Valid()
      ensures list == TrimmedText(ignoreWhiteSpace)
      ensures ignoreWhiteSpace ==> list == Trim(text)
    {
      var t := if ignoreWhiteSpace then trimmedText else text;
      list := [];
      for i := 0 to |t|
        invariant list == t[..i]
      {
        list := list + [t[i]];
      }
    }
  }

  /** Lines with equal texts have equal hash codes in either mode. */
  lemma EqualTextsHashEqual(a: Line, b: Line, ignoreWhiteSpace: bool)
    requires a.Valid() && b.Valid()
    requires a.text == b.text
    ensures a.GetHashCode(ignoreWhiteSpace) == b.GetHashCode(ignoreWhiteSpace)
  {
  }

  /** Lines whose texts are equal once all white space is removed have
      equal hash codes when white space is ignored. */
  lemma StrippedTextsHashEqual(a: Line, b: Line)
    requires a.Valid() && b.Valid()
    requires StripWhiteSpace(a.text) == StripWhiteSpace(b.text)
    ensures a.GetHashCode(true) == b.GetHashCode(true)
  {
  }

  /** Two lines that differ only by a run of white space somewhere in the
      text hash alike when white space is ignored. */
  lemma WhiteSpaceRunHashEqual(a: Line, b: Line, p: string, w: string, q: string)
    requires a.Valid() && b.Valid()
    requires a.text == p + w + q && b.text == p + q
    requires AllWhiteSpace(w)
    ensures a.GetHashCode(true) == b.GetHashCode(true)
  {
    StripIgnoresWhiteSpaceRun(p, w, q);
  }

  /** Lines whose trimmed texts are equal hash alike when white space is
      ignored: leading and trailing white space never matters. */
  lemma TrimmedTextsHashEqual(a: Line, b: Line)
    requires a.Valid() && b.Valid()
    requires a.TrimmedText(true) == b.TrimmedText(true)
    ensures a.GetHashCode(true) == b.GetHashCode(true)
  {
    StripOfTrim(a.text);
    StripOfTrim(b.text);
  }
}
