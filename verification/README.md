# Diff replay of ago's gofmt step, in Dafny

ago is an acme helper for Go. When a Go file is saved, its `gofmt` routine
runs `goimports` on the file and diffs the old text against the formatted
text. It then replays that diff on the open acme window as a few
line-range edits, so the window's cursor and undo history survive.

This project models the replay:

- `parseSpan`, which reads `"N"` or `"N,M"`;
- `findLines`, which cuts lines `start..end` out of the new text;
- the loop in `gofmt` that walks the diff's summary lines from last to first and edits the window.

The acme window is an abstract buffer: a byte string (`string`) with an
address `q0..q1` and a log of the writes made to it.

Modules:

- `Text`: `strings.Index` for one character, `strings.Split` on `"\n"` and its inverse, newline counting, the text made of a list of lines.
- `Span`: `strconv.Atoi`/`strconv.Itoa` over unbounded integers, and `parseSpan`.
- `Lines`:
  - `LineOffset`, where line k + 1 begins;
  - `LineSlice`, the specification of `findLines`;
  - the two-loop `FindLines` method proved against `LineSlice`.
- `Window`: the buffer.
  - The `View` value and the functions for the two address forms the replay writes (`"s,e"` and `"s+#0"`) and for a write to the data file.
  - The `Buffer` class, whose `AddrLines`, `AddrAfter` and `Write` methods update its fields as those functions say.
- `Replay`:
  - `ParseLine`, one diff line as a `Summary`: `Skip`, `Malformed` or `Do(directive)`;
  - `Step`, one directive on the window;
  - `ReplaySummaries`, the whole diff, last line first;
  - `Reformat`, the routine after `goimports`;
  - the imperative `ParseDirective`, `ApplyDirective` and `Gofmt` methods, each proved to compute what its function says.
- `RoundTrip`: why the replay works.
  - A list of hunks `Describes` how the old lines become the new ones. The printed diff `Lists` those hunks.
  - When every line ends in a newline and no hunk starts at line 0, the replay leaves the window holding exactly the new text (`RoundTrip`).

## Model

| member | source | states |
|---|---|---|
| Text.Index | gofmt.go:109 | the result is -1 when the character does not occur, otherwise the index of its first occurrence |
| Text.IndexUnique | gofmt.go:109 | a position holding the character with none before it is the one `Index` returns |
| Text.Split | gofmt.go:59 | the text splits into one more piece than it has newlines |
| Text.JoinSplit | gofmt.go:59 | joining the pieces of `Split(s)` with newlines gives `s` back |
| Text.SplitJoin | gofmt.go:59 | splitting newline-free pieces joined with newlines gives the pieces back |
| Text.SplitPieces | gofmt.go:59 | no piece of a split contains a newline |
| Span.Atoi | gofmt.go:111 | a text is accepted exactly when it is one or more digits after an optional '+' or '-' |
| Span.AtoiExamples | gofmt.go:111 | leading zeros and signed zeros are read as the number they spell ("007" is 7, "+0" and "-0" are 0); the empty text, a bare sign and trailing junk are refused |
| Span.AtoiItoa | gofmt.go:111 | Atoi reads back every integer Itoa writes |
| Span.AtoiPlus | gofmt.go:111 | a leading '+' is accepted and does not change the value |
| Span.ParseSpan | gofmt.go:109-116 | without a comma, the span is (n, n) when the text parses as n and (0, 0) otherwise; the empty text gives (0, 0) |
| Span.ParseSpanNumber | gofmt.go:109-116 | every printed integer N reads as the span (N, N) |
| Span.ParseSpanPair | gofmt.go:118-124 | "N,M" reads as (N, M) for all N and M, with no check that N <= M |
| Span.ParseSpanHalves | gofmt.go:118-124 | with a comma, the span is the two halves' values when Atoi accepts both, and (0, 0) when it refuses either |
| Span.ParseSpanMalformed | gofmt.go:118-124 | an empty half, or a second comma in the right half, gives the sentinel (0, 0) |
| Span.ParseSpanExamples | gofmt.go:108-125 | "5" is (5, 5), "5,6" is (5, 6), "0" and "x1" are (0, 0) |
| Lines.LineOffset | gofmt.go:130-137 | where the first loop stops is never past the end of the text |
| Lines.LineOffsetSpec | gofmt.go:130-137 | where line k + 1 begins is the shortest prefix holding k newlines, ending with the k-th one, or the whole text when there are fewer |
| Lines.LineOffsetMono | gofmt.go:138-143 | later lines begin no earlier |
| Lines.FindLines | gofmt.go:127-145 | the two counting loops return exactly `LineSlice(text, start, end)`, with no index past the end of the text |
| Lines.LineSlice | gofmt.go:127-145 | the result is always one contiguous piece of the text, starting where line start begins |
| Lines.LineSliceEmpty | gofmt.go:137-144 | when end < start the result is empty |
| Lines.LineSliceCounts | gofmt.go:130-144 | for 1 <= start <= end <= the number of newlines, the bytes before the result hold start - 1 newlines, and the result holds end - start + 1 newlines and ends with one |
| Lines.LineSliceConcat | gofmt.go:127-145 | in a text made of newline-terminated lines, the result is exactly lines start..end |
| Lines.LineSliceLast | gofmt.go:138-144 | when the text ends in a line without a newline, the slice from line start through that last line is the newline-terminated lines from start on, then the unterminated line ("a\nb" gives "b" for (2, 2)) |
| Lines.LineSliceExamples | gofmt.go:127-145 | "a\nb\nc\n" gives "b\n" for (2, 2), the whole text for (1, 3) and "b\nc\n" for (2, 3) |
| Window.SelectLines | gofmt.go:90 | the address "s,e" is accepted exactly when 1 <= s <= e <= NumLines + 1; it changes only the address |
| Window.SelectLinesRange | gofmt.go:90 | the accepted range "s,e" holds the same bytes `findLines` returns for lines s..e |
| Window.SelectAfter | gofmt.go:83 | the address "s+#0" is accepted exactly when 0 <= s <= NumLines + 1, and selects an empty range |
| Window.SelectAfterPoint | gofmt.go:83 | the point "s+#0" selects has lines 1..s before it |
| Window.WriteData | gofmt.go:88 | a write puts the address just past the data, changes the length by the size difference and logs one edit |
| Window.WriteDataSplice | gofmt.go:88 | after a write, the text is the text before the range, then the data, then the text after the range |
| Window.Buffer.AddrLines | gofmt.go:90-94 | writing "s,e" to the addr file succeeds exactly when `SelectLines` does and otherwise leaves the window unchanged |
| Window.Buffer.AddrAfter | gofmt.go:83-87 | writing "s+#0" to the addr file succeeds exactly when `SelectAfter` does and otherwise leaves the window unchanged |
| Window.Buffer.Write | gofmt.go:102 | writing to the data file turns the window into `WriteData` of its old state |
| Replay.OpIndex | gofmt.go:68-71 | the scan stops at the first 'a', 'c' or 'd', or at the end when there is none |
| Replay.ParseLine | gofmt.go:61-80 | blank and detail lines are skipped; a line is malformed exactly when it is neither and has no operation character; a directive has non-zero starts and the operation of the first operation character |
| Replay.ParseDirective | gofmt.go:61-80 | the skip test, the scan loop and the span parsing compute `ParseLine` |
| Replay.ParseLineDetail | gofmt.go:65-67 | "< old", "---" and "> new" are skipped |
| Replay.ParseLineMalformed | gofmt.go:68-75 | "7", which has no operation character, is malformed |
| Replay.ParseLineZeroOldStart | gofmt.go:78-80 | "0a1,2" is skipped |
| Replay.ParseLineZeroNewStart | gofmt.go:78-80 | "1,2d0" is skipped |
| Replay.ParseLineMissingSpan | gofmt.go:77-80 | "5a" is skipped |
| Replay.ParseLineJunkSpan | gofmt.go:76-80 | "x1a2", with an unparsable old span, is skipped and not refused |
| Replay.Step | gofmt.go:81-103 | one directive keeps the window valid and adds exactly one write to its log |
| Replay.ReplaySummaries | gofmt.go:60-104 | the replay keeps the window valid and only appends to its log of writes |
| Replay.Reformat | gofmt.go:40-42 | identical old and new texts give true and leave the window as it was, with no write |
| Replay.ApplyDirective | gofmt.go:81-103 | the switch succeeds exactly when the window accepts the address, and then leaves the window as `Step` says; otherwise the window is unchanged |
| Replay.Gofmt | gofmt.go:59-105 | the descending loop returns and leaves the window exactly as `Reformat` says |
| Replay.ReplayAppend | gofmt.go:60 | replaying a + b replays b first and, unless that failed, then a on the window b left |
| Replay.MalformedFails | gofmt.go:72-75 | a malformed line anywhere makes the replay return false |
| Replay.MalformedStops | gofmt.go:72-75 | at a malformed line the replay stops: the edits of the lines after it stay made, and no line before it is read |
| Replay.SkippedLinesChangeNothing | gofmt.go:62-67 | a diff of skipped lines returns true and leaves the window unchanged |
| Replay.StepAccepted | gofmt.go:83-101 | a step goes through exactly when its address is within the window's lines |
| Replay.StepEffect | gofmt.go:81-103 | a step replaces the old lines EditLine + 1 .. EditEnd with the new lines it names (nothing for 'd', no old line for 'a') and logs that write |
| Replay.StepKeepsPrefix | gofmt.go:81-103 | a step leaves the text before its edit point unchanged |
| Replay.StepKeepsEarlierLines | gofmt.go:60 | after a step, every line before the edit point begins where it did, which is why the replay runs from the bottom |
| RoundTrip.ParseSpanRender | gofmt.go:108-125 | every printed span reads back as itself |
| RoundTrip.ParseLineParts | gofmt.go:68-80 | a line of a span without an operation character, one operation character and a second span reads as that operation with `ParseSpan` of each half, and is skipped when either start is zero |
| RoundTrip.ParseLineRender | gofmt.go:68-80 | the summary line of a well-formed hunk reads back as that hunk |
| RoundTrip.HunkAddress | gofmt.go:81-101 | on a text that starts with the old lines, the window accepts a hunk's address and selects exactly the lines it replaces |
| RoundTrip.HunkData | gofmt.go:88-102 | what a hunk writes is exactly the new lines it names |
| RoundTrip.StepHunk | gofmt.go:81-103 | one hunk turns old lines then a tail into the old lines before it, then the new lines from it on, then the tail |
| RoundTrip.ListsDetail | gofmt.go:62-67 | blank and detail lines may stand anywhere in a printed diff |
| RoundTrip.ReplayHunks | gofmt.go:59-105 | replaying a printed diff on old lines followed by any tail succeeds and leaves the new lines followed by the same tail |
| RoundTrip.ReplayLastHunk | gofmt.go:60-103 | the same, when the last diff line is a hunk's summary line |
| RoundTrip.RoundTrip | gofmt.go:40-105 | a window holding the old text ends up holding the new text and gofmt returns true, whenever the diff lists hunks that describe the change |
| RoundTrip.RoundTripExample | gofmt.go:40-105 | the diff "2c2,3 ..." turns "a\nb\n" into "a\nB\nc\n" |

## Left out

- main.go is not part of this model: the acme event loop, the goroutine and the mutex-guarded output sink, the `go test`, `go install` and `rc` runs, `relativePackage` and `stripTerminal`.
- gofmt.go:19-38 and 44-55 are I/O and subprocesses, so `Gofmt` takes the old text, the new text and the diff output as parameters. This covers opening the window, reading the file, running `goimports` (and classifying its "fatal error" output), the temporary file and the `9 diff` run.
- The `mark`/`nomark` control writes (gofmt.go:57-58) and every `log` call are left out; they do not change the body.
- The diff algorithm is not modelled. `RoundTrip.Describes` is a relation between old lines, new lines and hunks, not a diff.
- Window: acme's own address evaluation is an assumption of this model.
  - The buffer is a byte string addressed by newline-delimited lines, not runes.
  - It accepts "s,e" for 1 <= s <= e <= NumLines + 1 and "s+#0" for 0 <= s <= NumLines + 1. Acme's error messages are not modelled.
  - A reversed range is reachable from the diff text: "5,4c1" gives the address "5,4". The model refuses it by assumption, so the replay returns false at that line. This is not a claim about what acme does with such an address.
- Window.Buffer.Write: never fails, because gofmt.go discards the result of `w.Write` (lines 88, 95 and 102). One could expect a failed write to abort the replay; the model follows the code.
- Span.Atoi: integers are unbounded. It does not model `strconv.Atoi`'s range error for values outside 64 bits, which the source would turn into the sentinel (0, 0).
- Lines.FindLines: integers are unbounded, so it does not model the 64-bit wrap-around of `start--` (gofmt.go:130) or of `end--` (gofmt.go:134, 140) at the smallest 64-bit integer. For example, the summary line "1c2,-9223372036854775808" makes Go's `end` wrap to the largest integer at the first newline. `findLines` then returns everything from line 2 on, where `LineSlice` returns nothing.
- RoundTrip.RoundTrip: assumes every line of both texts ends in a newline and no hunk has a zero start.
  - gofmt.go:78-80 skips directives such as "0a1,2" and "1,2d0", so the replay does not reproduce the new text for those diffs.
  - `Replay.ParseLineZeroOldStart` and `Replay.ParseLineZeroNewStart` state the skip.
