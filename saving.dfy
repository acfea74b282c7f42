/** What a save writes (FileDiff/MainWindow.xaml.cs, the two save
    commands): every line of one side except the fillers the compare
    inserted for alignment, each followed by the newline string of the
    file's encoding. */
module Saving {
  import opened TextStates
  import opened Lines

  /** The texts a save writes, in order. */
  function SavedLines(lines: seq<Line>): seq<string>
    reads lines
  {
    if lines == [] then []
    else
      var last := lines[|lines| - 1];
      SavedLines(lines[..|lines| - 1]) + (if last.state == Filler then [] else [last.text])
  }

  /** The number of lines that are not fillers. */
  function NonFillerCount(lines: seq<Line>): nat
    reads lines
  {
    if lines == [] then 0
    else NonFillerCount(lines[..|lines| - 1]) + (if lines[|lines| - 1].state == Filler then 0 else 1)
  }

  /** `sw.WriteLine` for each text in turn: the text, then the newline. */
  function Written(texts: seq<string>, newline: string): string {
    if texts == [] then [] else Written(texts[..|texts| - 1], newline) + texts[|texts| - 1] + newline
  }

  /** One text is written for every line that is not a filler. */
  lemma {:induction false} SavedLinesCount(lines: seq<Line>)
    ensures |SavedLines(lines)| == NonFillerCount(lines) <= |lines|
    decreases |lines|
  {
    if lines != [] {
      SavedLinesCount(lines[..|lines| - 1]);
    }
  }

  /** Saving two runs of lines one after the other writes the texts of
      the first run, then those of the second. */
  lemma {:induction false} SavedLinesConcat(a: seq<Line>, b: seq<Line>)
    ensures SavedLines(a + b) == SavedLines(a) + SavedLines(b)
    decreases |b|
  {
    if b == [] {
      assert a + b == a;
    } else {
      var b' := b[..|b| - 1];
      assert (a + b)[..|a + b| - 1] == a + b';
      assert (a + b)[|a + b| - 1] == b[|b| - 1];
      SavedLinesConcat(a, b');
    }
  }

  /** The text of the line in slot i, when it is not a filler, is written
      at the place given by the non-filler lines before it. */
  lemma SavedLinesIndex(lines: seq<Line>, i: int)
    requires 0 <= i < |lines| && lines[i].state != Filler
    ensures var n := NonFillerCount(lines[..i]);
      n < |SavedLines(lines)| && SavedLines(lines)[n] == lines[i].text
  {
    var n := NonFillerCount(lines[..i]);
    assert lines == lines[..i + 1] + lines[i + 1..];
    assert lines[..i + 1][..i] == lines[..i];
    SavedLinesConcat(lines[..i + 1], lines[i + 1..]);
    SavedLinesCount(lines[..i]);
    assert SavedLines(lines[..i + 1]) == SavedLines(lines[..i]) + [lines[i].text];
  }

  /** A filler line, wherever it sits, changes nothing in the saved file. */
  lemma FillerNotSaved(a: seq<Line>, f: Line, b: seq<Line>)
    requires f.state == Filler
    ensures SavedLines(a + [f] + b) == SavedLines(a + b)
  {
    SavedLinesConcat(a + [f], b);
    SavedLinesConcat(a, [f]);
    SavedLinesConcat(a, b);
    assert [f][..0] == [];
  }

  /** A side without fillers is saved line for line. */
  lemma {:induction false} SavedWithoutFillers(lines: seq<Line>)
    requires forall i :: 0 <= i < |lines| ==> lines[i].state != Filler
    ensures |SavedLines(lines)| == |lines|
    ensures forall i :: 0 <= i < |lines| ==> SavedLines(lines)[i] == lines[i].text
    decreases |lines|
  {
    if lines != [] {
      SavedWithoutFillers(lines[..|lines| - 1]);
    }
  }

  /** Writing two runs of texts one after the other. */
  lemma {:induction false} WrittenConcat(a: seq<string>, b: seq<string>, newline: string)
    ensures Written(a + b, newline) == Written(a, newline) + Written(b, newline)
    decreases |b|
  {
    if b == [] {
      assert a + b == a;
    } else {
      var b' := b[..|b| - 1];
      assert (a + b)[..|a + b| - 1] == a + b';
      assert (a + b)[|a + b| - 1] == b[|b| - 1];
      WrittenConcat(a, b', newline);
    }
  }

  /** Every written line, the last included, is terminated by the
      newline string. */
  lemma WrittenEndsWithNewline(texts: seq<string>, newline: string)
    requires texts != []
    ensures var w := Written(texts, newline);
      |newline| <= |w| && w[|w| - |newline|..] == newline
  {
  }

  /** The loop of a save command: the texts of the non-filler lines, each
      followed by the newline string, are appended to the output in order. */
  method WriteLines(lines: seq<Line>, newline: string) returns (content: string)
    ensures content == Written(SavedLines(lines), newline)
  {
    content := [];
    for i := 0 to |lines|
      invariant content == Written(SavedLines(lines[..i]), newline)
    {
      assert lines[..i + 1][..i] == lines[..i];
      if lines[i].state != Filler {
        content := content + lines[i].text + newline;
        assert SavedLines(lines[..i + 1]) == SavedLines(lines[..i]) + [lines[i].text];
      } else {
        assert SavedLines(lines[..i + 1]) == SavedLines(lines[..i]);
      }
    }
    assert lines[..|lines|] == lines;
  }
}
