# FileDiff: line model, diff navigation, block copy and save

FileDiff is a side-by-side file and folder compare tool. This project
models the logic that runs on top of a compare result that is already
aligned, and proves what that logic promises.

- **Lines** (`Lines`, with the text helpers in `Text`). `Line` is a class.
  - Setting its text recomputes the trimmed text, the exact hash and the
    white-space-free hash, and resets the highlight segments to one
    whole-line segment.
  - Setting its type resets the segments too.
  - When white space is ignored, `TrimmedText` and `GetHashCode` show the
    trimmed text and the white-space-free hash instead.
- **Navigation and block copy** (`Navigation`). `MainWindow` is a class over
  two parallel line lists and the fields `firstDiff`, `lastDiff`,
  `currentDiff` and `currentDiffLength`.
  - Block starts: a slot whose left line differs and which is the first slot
    or follows a full match.
  - Moving to the next, previous, first or last stop, and measuring the length
    of the current block.
  - Copying the current block from one side onto the other, in place.
  - The next-file and previous-file commands and the two save commands.
- **Folder list** (`FolderItems`). The right-hand tree is walked in
  pre-order to collect the files worth visiting, and the commands step
  through that list.
- **Save** (`Saving`). A save writes the texts of every line except the
  fillers, each followed by the newline string of the file's encoding.
- **Encoding descriptor** (`FileEncodings`). The newline terminator and the
  display name.
- **Elapsed-time text** (`ElapsedTime`). `TimeSpanToShortString`.

Where the source changes state, the model is imperative:
- the `Line` setters and `MainWindow`'s commands are methods with
  `modifies` frames;
- the loops in `UpdateNavigationButtons`, the move commands,
  `MoveToDiffLine`, the copy commands, `GetFolderDiffItems`, `Characters` and
  the save loop keep their loops.

Each of these methods is proved against predicates or functions:
- `FirstAndLastDiff`, `DiffStart`, `NavStop` and `IsDiffLength` describe
  the navigation state;
- `PreOrder` and `Filter` describe the folder walk;
- `SavedLines` and `Written` describe a save.

The lemmas then relate those definitions to each other.

Modelling choices:
- The compare engine is called but is not part of this model.
- The two line lists are taken as given. A window object stands for one
  compare result: the lists are `const` fields, and the lines inside them
  change in place.
- The view-model file in the repository names the line lists
  `LeftSide`/`RightSide` (FileDiff/MainWindowViewModel.cs), while the window
  code uses `LeftFile`/`RightFile`. The two files come from different
  versions. The model follows the window code.
- The window code indexes `RightFile[i]` for every `i < LeftFile.Count`.
  That needs only a right list at least as long as the left one, but
  `MoveToNextDiff` and `MoveToPreviousDiff` require equal lengths. Their
  guards do not test lengths; equal length comes from the compare, which
  gives both sides the same number of lines. The copy commands require the current
  block to lie inside both lists (see "## Left out").
  - Equal length is not an invariant of the window.
  - When either file is empty, the compare stores both lists unmatched,
    whatever their lengths (FileDiff/MainWindow.xaml.cs:164-168).
- `IgnoreWhiteSpace`, a global setting, is a parameter.
  - The application's `null` initial text is the empty string.
  - `IsWhiteSpace` is the character set of .NET's `char.IsWhiteSpace`,
    which is also what `\s` matches: `string.Trim` and `Regex.Replace(…, @"\s+", "")`
    both use it.
- `Hash` is a concrete stand-in for `string.GetHashCode`: a polynomial
  hash reduced to a signed 32-bit value. The proofs use only that it is a
  function of the text.
- No compare or save inputs are read from disk. Whether the file exists and
  whether the write succeeds are parameters of the save commands.
- `TimeSpan` is a non-negative number of ticks.
- Folder-tree nodes are values, so the folder walk compares a right-tree
  node with the left selection by value (see "Left out").

## Model

| member | source | states |
|---|---|---|
| Text.IsWhiteSpace | FileDiff/Line.cs:50-53 | among ASCII characters, exactly tab, line feed, vertical tab, form feed, carriage return and space are white space |
| Text.Trim | FileDiff/Line.cs:50 | the trimmed text is never longer than the text (its shape is stated by the lemmas below) |
| Text.LeadingWhiteSpaceMaximal | FileDiff/Line.cs:50 | the leading white space `Trim` removes is the longest all-white-space prefix |
| Text.TrailingWhiteSpaceMaximal | FileDiff/Line.cs:50 | the trailing white space `Trim` removes is the longest all-white-space suffix |
| Text.WhiteSpaceRunsMeet | FileDiff/Line.cs:50 | when the leading and trailing white-space runs overlap, the whole text is white space |
| Text.TrimIsInfix | FileDiff/Line.cs:50 | the trimmed text is one contiguous piece of the text with only white space cut at each end |
| Text.TrimHasNoEdgeWhiteSpace | FileDiff/Line.cs:50 | the trimmed text is empty or starts and ends with a non-white-space character |
| Text.TrimIdempotent | FileDiff/Line.cs:50 | trimming twice is trimming once |
| Text.StripWhiteSpace | FileDiff/Line.cs:53 | the `\s+` removal leaves no white space and never lengthens the text |
| Text.StripConcat | FileDiff/Line.cs:53 | removing white space distributes over concatenation |
| Text.StripAllWhiteSpace | FileDiff/Line.cs:53 | an all-white-space text strips to nothing |
| Text.StripNoWhiteSpace | FileDiff/Line.cs:53 | a text without white space is stripped to itself |
| Text.StripIdempotent | FileDiff/Line.cs:53 | stripping twice is stripping once |
| Text.StripIgnoresWhiteSpaceRun | FileDiff/Line.cs:53 | inserting a run of white space anywhere does not change the stripped text |
| Text.StripOfTrim | FileDiff/Line.cs:50-53 | trimming before stripping changes nothing |
| Text.Hash | FileDiff/Line.cs:52-53 | the hash is a signed 32-bit value |
| Lines.Line.constructor | FileDiff/MainWindow.xaml.cs:128 | a new line has the given type, text and index, consistent derived values, one segment (text, type) and no matching index |
| Lines.Line.SetText | FileDiff/Line.cs:44-60 | after setting the text: trimmed text is `Trim(value)`, both hashes are recomputed, segments are exactly [(value, type)], type and indices unchanged |
| Lines.Line.SetType | FileDiff/Line.cs:111-122 | after setting the type: segments are exactly [(text, value)], text and derived values unchanged |
| Lines.Line.SetLineIndex | FileDiff/Line.cs:104-109 | only the line index changes; text, type and segments are kept |
| Lines.Line.SetMatchingLineIndex | FileDiff/Line.cs:124 | only the matching index changes; text, type and segments are kept |
| Lines.Line.TrimmedText | FileDiff/Line.cs:62-67 | the trimmed text (without edge white space) when white space is ignored, the raw text otherwise |
| Lines.Line.GetHashCode | FileDiff/Line.cs:34-37 | the hash of the white-space-free text exactly when white space is ignored, the exact hash otherwise |
| Lines.Line.Characters | FileDiff/Line.cs:76-88 | the characters of the text, in order, same length |
| Lines.Line.TrimmedCharacters | FileDiff/Line.cs:90-102 | the characters of `TrimmedText`, in order |
| Lines.EqualTextsHashEqual | FileDiff/Line.cs:36 | equal texts give equal hash codes in both modes |
| Lines.StrippedTextsHashEqual | FileDiff/Line.cs:36-53 | texts equal after removing all white space hash alike when white space is ignored |
| Lines.WhiteSpaceRunHashEqual | FileDiff/Line.cs:36-53 | texts differing by one run of white space hash alike when white space is ignored |
| Lines.TrimmedTextsHashEqual | FileDiff/Line.cs:36-53 | lines with equal trimmed texts hash alike when white space is ignored |
| FileEncodings.GetNewLineString | FileDiff/FileEncoding.cs:99-113 | "\r" exactly for Mac, "\n" exactly for Unix, "\r\n" exactly for every other mode |
| FileEncodings.NewLineStringsDistinct | FileDiff/FileEncoding.cs:99-113 | the terminator is never empty, and two descriptors share it exactly when their modes are equal or both are neither Mac nor Unix |
| FileEncodings.ToString | FileDiff/FileEncoding.cs:21-58 | the display name is at least as long as the newline suffix |
| FileEncodings.ToStringShape | FileDiff/FileEncoding.cs:50-55 | the name ends with " (" + mode + ")", preceded by the encoding name and " BOM" exactly when there is a byte-order mark |
| FileEncodings.ToStringBomIff | FileDiff/FileEncoding.cs:50-55 | unless the encoding is a default one whose web name itself ends in " BOM", " BOM" sits right before the suffix if and only if the mark is present |
| FileEncodings.ToStringPrefix | FileDiff/FileEncoding.cs:23-48 | UTF-7, UTF-8, UTF-16 LE, UTF-16 BE, UTF-32 prefixes; the web name for the default encoding; no prefix for any other |
| ElapsedTime.TimeSpanToShortString | FileDiff/MainWindow.xaml.cs:256-267 | the text has at least five characters and ends in "m" exactly in the hours form, in "s" otherwise |
| ElapsedTime.NatToString | FileDiff/MainWindow.xaml.cs:260-266 | the decimal rendering of an integer is digits with no leading zero |
| ElapsedTime.ParseNatToString | FileDiff/MainWindow.xaml.cs:260-266 | reading the rendered digits back gives the number |
| ElapsedTime.NatToStringShort | FileDiff/MainWindow.xaml.cs:266 | milliseconds render in at most three digits |
| ElapsedTime.ParseNatLeadingZeros | FileDiff/MainWindow.xaml.cs:266 | the zeros `PadLeft` adds do not change the value read |
| ElapsedTime.ZerosParseToZero | FileDiff/MainWindow.xaml.cs:266 | a run of zeros reads as 0 |
| ElapsedTime.PadLeft | FileDiff/MainWindow.xaml.cs:266 | the padded text has the requested width unless it was already longer, ends with the original text, and every character before it is the fill character |
| ElapsedTime.ShortStringLongForms | FileDiff/MainWindow.xaml.cs:256-264 | with whole hours ≥ 1 the text is "Hh Mm" with H and M canonical decimals (no leading zero) reading back as hours and minutes; otherwise, with minutes > 0, "Mm Ss" with M and S canonical decimals reading back as minutes and seconds |
| ElapsedTime.ShortStringSecondsForm | FileDiff/MainWindow.xaml.cs:265-266 | below a minute the text is "S.mmms" with S a canonical decimal (no leading zero) and exactly three millisecond digits, both reading back as seconds and milliseconds |
| FolderItems.FilterConcat | FileDiff/MainWindow.xaml.cs:461-471 | keeping the wanted items distributes over concatenation |
| FolderItems.FilterMembers | FileDiff/MainWindow.xaml.cs:465-468 | an item is kept if and only if it occurs and is a differing file or the left selection |
| FolderItems.PreOrderConcat | FileDiff/MainWindow.xaml.cs:463-470 | the pre-order of two forests is the pre-order of the first, then of the second |
| FolderItems.PreOrderSnoc | FileDiff/MainWindow.xaml.cs:463-470 | one more root adds itself, then its subtree |
| FolderItems.FilterSingleton | FileDiff/MainWindow.xaml.cs:465-468 | a single node is kept exactly when it is a differing file or the left selection |
| FolderItems.FilterPreOrderSnoc | FileDiff/MainWindow.xaml.cs:463-470 | one more root adds itself when wanted, then the wanted items of its subtree |
| FolderItems.GatherStep | FileDiff/MainWindow.xaml.cs:463-470 | one pass of the walk's loop (own entry, then the recursive call) extends the result by the next root's gathered items |
| FolderItems.GetFolderDiffItems | FileDiff/MainWindow.xaml.cs:461-471 | the result is the list passed in followed by the wanted items of the forest in pre-order |
| FolderItems.GatheredItems | FileDiff/MainWindow.xaml.cs:461-471 | a node is gathered if and only if it is in the tree and is a differing file or the left selection |
| FolderItems.IndexOf | FileDiff/MainWindow.xaml.cs:965 | -1 exactly when the selection is absent; otherwise the first position holding it |
| FolderItems.IndexOfDistinct | FileDiff/MainWindow.xaml.cs:965 | in a list without repeats the position of the k-th item is k |
| FolderItems.NextFromIndex | FileDiff/MainWindow.xaml.cs:961-976 | from the k-th item of a list without repeats, next-file selects item k+1, or stays on the last |
| FolderItems.PreviousFromIndex | FileDiff/MainWindow.xaml.cs:983-998 | from the k-th item of a list without repeats, previous-file selects item k-1, or stays on the first |
| FolderItems.NextFileTarget | FileDiff/MainWindow.xaml.cs:961-976 | the new selection is the old one or an item of the list |
| FolderItems.PreviousFileTarget | FileDiff/MainWindow.xaml.cs:983-998 | the new selection is the old one or an item of the list |
| FolderItems.NextThenPrevious | FileDiff/MainWindow.xaml.cs:961-998 | a step forward from item k lands on k+1, and a step back from there lands on k |
| FolderItems.NextStepsVisitInOrder | FileDiff/MainWindow.xaml.cs:961-976 | from outside the list, n next-file steps select item n-1, then stay on the last |
| FolderItems.PreviousStepsVisitInOrder | FileDiff/MainWindow.xaml.cs:983-998 | from outside the list, n previous-file steps select the n-th from the end, then stay on the first |
| Navigation.DiffStartAtOrBefore | FileDiff/MainWindow.xaml.cs:299-325 | every differing left line lies in a block that starts at or before it |
| Navigation.DiffStartExistsIff | FileDiff/MainWindow.xaml.cs:299-325 | a block start exists if and only if some left line differs |
| Navigation.FirstAndLastDiffUnique | FileDiff/MainWindow.xaml.cs:299-325 | the first/last marks are determined by the classifications |
| Navigation.RunEndWithin | FileDiff/MainWindow.xaml.cs:371-379 | every slot inside a block runs to the same end |
| Navigation.DiffLengthUnique | FileDiff/MainWindow.xaml.cs:371-379 | the block length is determined: the block ends at the first full match after its start, or the end |
| Navigation.BlocksDisjoint | FileDiff/MainWindow.xaml.cs:355-379 | the next block start lies beyond the end of the current block |
| Navigation.AlignedStopsAreDiffStarts | FileDiff/MainWindow.xaml.cs:299-369 | when the sides agree on full matches, the next/previous stops are exactly the button block starts |
| Navigation.CopyKeepsAligned | FileDiff/MainWindow.xaml.cs:1089-1093 | copying a block's classifications onto the other side keeps the sides aligned |
| Navigation.CopyLines | FileDiff/MainWindow.xaml.cs:1089-1093 | each target line in the block takes the source line's text and type (with consistent derived values and one segment), indices kept; every other line is unchanged |
| Navigation.CopyLine | FileDiff/MainWindow.xaml.cs:1091-1092 | one step of the copy loop: the target line takes the source line's text and type, indices kept, source unchanged |
| Navigation.MainWindow.constructor | FileDiff/MainWindow.xaml.cs:166-167 | a window over the two given line lists before `InitNavigationState` runs: current block -1 and length 0 (the view model's field defaults, FileDiff/MainWindowViewModel.cs:42-49), no marks, nothing dirty, and the given folder list and right-hand selection kept unchanged, as a file re-compare keeps them |
| Navigation.MainWindow.InitNavigationState | FileDiff/MainWindow.xaml.cs:269-297 | the four save flags are clear; with two non-empty sides the marks are the first and last block starts; with a first block it is current with its length, without one the block is -1/-1; with an empty side the marks are -1 and the block is -1/1 |
| Navigation.MainWindow.UpdateNavigationButtons | FileDiff/MainWindow.xaml.cs:299-325 | firstDiff/lastDiff are the smallest/largest block start, both -1 exactly when every left line fully matches, and then the current block is set to -1/-1; otherwise it is kept |
| Navigation.MainWindow.MoveToDiffLine | FileDiff/MainWindow.xaml.cs:371-384 | the current block is slot i and its length runs over differing left lines up to the next full match or the end |
| Navigation.MainWindow.MoveToNextDiff | FileDiff/MainWindow.xaml.cs:355-369 | moves to the smallest stop after the current one, with its length, or keeps the block when there is none |
| Navigation.MainWindow.MoveToPreviousDiff | FileDiff/MainWindow.xaml.cs:339-353 | moves to the largest stop before the current one, with its length, or keeps the block when there is none |
| Navigation.MainWindow.MoveToFirstDiff | FileDiff/MainWindow.xaml.cs:327-331 | the first stop with its length, or -1 with the length unchanged when there is none; on aligned sides it is firstDiff |
| Navigation.MainWindow.MoveToLastDiff | FileDiff/MainWindow.xaml.cs:333-337 | the last stop with its length, or Count with the length unchanged when there is none; on aligned sides it is lastDiff |
| Navigation.MainWindow.CopyLeftDiff | FileDiff/MainWindow.xaml.cs:1087-1100 | every right line in the block takes the left line's text and type, other right lines and all left lines unchanged, right side dirty, block length 0, marks recomputed |
| Navigation.MainWindow.CopyRightDiff | FileDiff/MainWindow.xaml.cs:1107-1120 | the mirror image onto the left side |
| Navigation.MainWindow.RebuildFolderDiffItems | FileDiff/MainWindow.xaml.cs:242-243 | the file list becomes the wanted items of the right tree in pre-order |
| Navigation.MainWindow.NextFile | FileDiff/MainWindow.xaml.cs:961-976 | the first item when the selection is absent, the following item when there is one, otherwise no change |
| Navigation.MainWindow.PreviousFile | FileDiff/MainWindow.xaml.cs:983-998 | the last item when the selection is absent, the preceding item when there is one, otherwise no change |
| Navigation.MainWindow.SaveLeftFile | FileDiff/MainWindow.xaml.cs:811-837 | when the file exists, the side is dirty and the write succeeds, exactly the non-filler texts are written with the encoding's terminator and both flags clear; otherwise nothing is written and the flags stay |
| Navigation.MainWindow.SaveRightFile | FileDiff/MainWindow.xaml.cs:845-871 | the mirror image for the right side |
| Saving.SavedLinesCount | FileDiff/MainWindow.xaml.cs:822-828 | one text is written per non-filler line |
| Saving.SavedLinesConcat | FileDiff/MainWindow.xaml.cs:822-828 | saving two runs of lines writes the first run's texts, then the second's |
| Saving.SavedLinesIndex | FileDiff/MainWindow.xaml.cs:822-828 | the text of a non-filler line is written at the position counted by the non-filler lines before it |
| Saving.FillerNotSaved | FileDiff/MainWindow.xaml.cs:824 | a filler line anywhere changes nothing in the saved file |
| Saving.SavedWithoutFillers | FileDiff/MainWindow.xaml.cs:822-828 | a side without fillers is saved line for line |
| Saving.WrittenConcat | FileDiff/MainWindow.xaml.cs:820-828 | writing two runs of texts writes the first, then the second |
| Saving.WrittenEndsWithNewline | FileDiff/MainWindow.xaml.cs:820-828 | every written line, the last included, ends with the terminator |
| Saving.WriteLines | FileDiff/MainWindow.xaml.cs:818-828 | the loop writes each non-filler text followed by the terminator, in order |

## Left out

- Several pieces are not part of this model: the compare engine
  (`BackgroundCompare`: the line matcher, the segment differ, the folder-tree
  differ), its progress reporting and cancellation, and the task
  continuations that deliver its results (FileDiff/MainWindow.xaml.cs:159-162,
  220-223). The line lists and trees are therefore inputs.
- File reading (`File.ReadAllLines`), encoding detection
  (`Unicode.GetEncoding`), the `StreamWriter` and its exceptions are I/O.
  - The save commands take "file exists" and "write succeeds" as parameters.
  - A failing write is modelled as writing nothing, though a real one may have
    written part of the file.
  - The choice of path by compare mode is not modelled.
- `FileEncoding.GetEncoding` builds .NET encoder objects
  (FileDiff/FileEncoding.cs:70-97); it is a foreign call.
- `CenterOnLine` (scrolling), the `UpdateTrigger` counter,
  `PropertyChanged` notifications and `Line.ToString` (debug text) are not
  modelled: they are UI and debugging plumbing.
- Navigation.MainWindow.InitNavigationState: the reset of `EditMode` and the
  re-initialisation of the two diff controls and the scroll bars are not
  modelled. `EditMode` only switches the view, and the view model in the
  repository has neither it nor the four dirty and edited flags (another
  version of that file).
- The commands' `CanExecute` guards are not modelled.
  - The copy commands require the block to lie inside both lists. Their
    guards (FileDiff/MainWindow.xaml.cs:1104, 1124) test only that there is
    a current block and no manual edit. What keeps the block inside both
    lists is that the compare gives both sides equal length and that
    `MoveToDiffLine` sets the block inside the left list. The source's copy
    loop would throw `ArgumentOutOfRangeException` on a block outside a
    list; that path is not modelled.
  - `MoveToNextDiff` and `MoveToPreviousDiff` require equal lengths,
    which is more than their loops need (a right list at least as long as
    the left one).
- Settings persistence, the view model, the diff and map controls, and the
  value converters are WPF glue, floating-point layout or rendering.
- Text: a Dafny `char` is a Unicode scalar value, not a UTF-16 code unit.
  A character outside the Basic Multilingual Plane is one `char` here, but
  two in .NET's `Characters` and `TrimmedCharacters` lists
  (FileDiff/Line.cs:82, 96). A lone surrogate, which a .NET string may hold,
  cannot be represented.
- FileEncodings.NewlineMode: the enum's declaration is not part of this
  model. `Unix` and `Mac` are the members the code names
  (FileDiff/FileEncoding.cs:103-107); `Windows` and the open case
  `OtherMode`, which carries the name `ToString` would show, are assumed.
  The proofs hold for any other members, which all take the CR LF branch.
- `string.GetHashCode` is replaced by a fixed deterministic hash. No
  property depends on its actual values.
- Text.Hash: the stand-in is not .NET's hash, whose values may differ
  between runs and platforms.
- ElapsedTime.TimeSpanToShortString: `(int)TotalHours` is computed on
  whole ticks and not through a double, and negative spans are not
  modelled. A stopwatch's elapsed time is never negative.
- FileEncodings.Encoding: in the application, `Encoding.Default` is compared
  by reference and would equal UTF-8 on runtimes where the default is UTF-8.
  The model keeps it as a separate case that carries its web name.
- FolderItems.Wanted: the source compares a right-tree node with the left
  tree's selected node by reference (FileDiff/MainWindow.xaml.cs:465); the
  model compares by value. The two differ when a right node equals the left
  selection as a value without being that object. For example, when a folder
  is compared with itself, the selected left node and its right twin are
  equal values; the model keeps the twin, the source does not.
- FolderItems.FileItem: tree nodes are compared by value, not by reference.
  The tree view's reaction to a new selection, which opens that file's
  compare, is not modelled; `rightSelected` simply receives the item.
- Navigation.MainWindow: a re-compare replaces the line lists, which here
  are `const`; that is modelled as a new window, built from the earlier
  window's folder list and selection. The block kept from an earlier
  compare is not carried over: the new window starts with none, which is
  harmless because `InitNavigationState` overwrites it before reading it.
- Navigation.MainWindow.CopyLeftDiff: does not state that the whole window
  keeps consistent line values. It states that the copied lines have
  consistent derived values, and that every other line is unchanged.
- Navigation.MainWindow.CopyLeftDiff: alignment of the two sides after the
  copy is stated on the classifications by `CopyKeepsAligned`, and not in the
  method's own contract.
- Navigation.MainWindow.CopyRightDiff: the same two limits as
  `CopyLeftDiff`.
