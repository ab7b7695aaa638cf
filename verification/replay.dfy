/**
 * The replay loop of gofmt.go: after the reformatter has produced new text
 * for a window whose body is the old text, the summary lines of a diff of
 * old against new are replayed on the window, last first, so that no edit
 * moves the lines an earlier summary line addresses. Each summary line is
 * "<old span><op><new span>" with op one of 'a' (append), 'c' (change) or
 * 'd' (delete); blank lines and the diff's detail lines ('<', '-', '>')
 * are skipped.
 */
module Replay {
  import opened Optional
  import opened Text
  import opened Span
  import opened Lines
  import opened Window

  datatype Op = Append | Change | Delete

  /** A parsed summary line: the operation and both spans. */
  datatype Directive = Directive(op: Op, oldStart: int, oldEnd: int, newStart: int, newEnd: int)

  /** What the replay makes of one line of the diff. */
  datatype Summary = Skip | Malformed | Do(d: Directive)

  predicate IsOp(c: char)
  {
    c == 'a' || c == 'c' || c == 'd'
  }

  function OpOf(c: char): Op
    requires IsOp(c)
  {
    if c == 'a' then Append else if c == 'c' then Change else Delete
  }

  /** The diff's own detail lines: removed text, the separator, added text. */
  predicate IsDetail(line: string)
  {
    line != [] && (line[0] == '<' || line[0] == '-' || line[0] == '>')
  }

  /** Where the first operation character stands, or |line| when there is none. */
  function OpIndex(line: string): (j: nat)
    ensures j <= |line|
    ensures j < |line| ==> IsOp(line[j])
    ensures forall k :: 0 <= k < j ==> !IsOp(line[k])
    decreases |line|
  {
    if line == [] then 0
    else if IsOp(line[0]) then 0
    else
      var j := 1 + OpIndex(line[1..]);
      assert forall k :: 1 <= k < j ==> line[k] == line[1..][k - 1];
      j
  }

  /** A position with no operation character before it, at an operation character or the end, is OpIndex. */
  lemma {:induction false} OpIndexFirst(line: string, j: nat)
    requires j <= |line|
    requires forall k :: 0 <= k < j ==> !IsOp(line[k])
    requires j < |line| ==> IsOp(line[j])
    ensures OpIndex(line) == j
  {
  }

  /**
   * One diff line: blank and detail lines are skipped; a line without an
   * operation character is malformed; otherwise the spans either side of
   * the first one are parsed, and a zero start (which is also what an
   * unparsable span gives) skips the line.
   */
  function ParseLine(line: string): (s: Summary)
    ensures line == [] || IsDetail(line) ==> s == Skip
    ensures s == Malformed <==> line != [] && !IsDetail(line) && forall k :: 0 <= k < |line| ==> !IsOp(line[k])
    ensures s.Do? ==> s.d.oldStart != 0 && s.d.newStart != 0
    ensures s.Do? ==> OpIndex(line) < |line| && s.d.op == OpOf(line[OpIndex(line)])
  {
    if line == [] || IsDetail(line) then Skip
    else
      var j := OpIndex(line);
      if j == |line| then Malformed
      else
        var oldSpan := ParseSpan(line[..j]);
        var newSpan := ParseSpan(line[j + 1..]);
        if oldSpan.0 == 0 || newSpan.0 == 0 then Skip
        else Do(Directive(OpOf(line[j]), oldSpan.0, oldSpan.1, newSpan.0, newSpan.1))
  }

  /** The line before which an edit happens, counted in the window as it is before the edit. */
  function EditLine(d: Directive): int
  {
    if d.op == Append then d.oldStart else d.oldStart - 1
  }

  /** The line after which the lines an edit replaces end: the old lines it replaces are EditLine(d) + 1 .. EditEnd(d). */
  function EditEnd(d: Directive): int
  {
    if d.op == Append then d.oldStart else d.oldEnd
  }

  /**
   * The address a directive writes: "s+#0" (the empty range at the end of
   * line s) for an append, "s,e" for a change or a delete.
   */
  function Address(v: View, d: Directive): (r: Option<View>)
    ensures r.Some? ==> r.value.Valid() && r.value.text == v.text && r.value.log == v.log
  {
    if d.op == Append then SelectAfter(v, d.oldStart) else SelectLines(v, d.oldStart, d.oldEnd)
  }

  /** The bytes a directive writes: the new lines it names, or nothing for a delete. */
  function Data(d: Directive, newText: string): string
  {
    if d.op == Delete then [] else LineSlice(newText, d.newStart, d.newEnd)
  }

  /** One directive on the window; None when the window refuses the address. */
  function Step(v: View, d: Directive, newText: string): (r: Option<View>)
    requires v.Valid()
    ensures r.Some? ==> r.value.Valid() && |r.value.log| == |v.log| + 1 && v.log <= r.value.log
  {
    match Address(v, d)
    case None => None
    case Some(w) => Some(WriteData(w, Data(d, newText)))
  }

  /** Each line of the diff as the replay reads it. */
  function ParseLines(ls: seq<string>): seq<Summary>
  {
    seq(|ls|, k requires 0 <= k < |ls| => ParseLine(ls[k]))
  }

  /**
   * Replaying the parsed lines `ss` of a diff on the window v, the last one
   * first. The result says whether the replay went through and gives the
   * window afterwards; on a malformed line or a refused address the replay
   * stops there, keeping the edits already made.
   */
  function ReplaySummaries(ss: seq<Summary>, newText: string, v: View): (r: (bool, View))
    requires v.Valid()
    ensures r.1.Valid() && v.log <= r.1.log
    decreases |ss|
  {
    if ss == [] then (true, v)
    else
      var rest := ss[..|ss| - 1];
      match ss[|ss| - 1]
      case Skip => ReplaySummaries(rest, newText, v)
      case Malformed => (false, v)
      case Do(d) =>
        match Step(v, d, newText)
        case None => (false, v)
        case Some(w) => ReplaySummaries(rest, newText, w)
  }

  /** gofmt after the reformatter ran: nothing to do when the text did not change, otherwise replay the diff. */
  function Reformat(oldText: string, newText: string, diff: string, v: View): (r: (bool, View))
    requires v.Valid()
    ensures r.1.Valid() && v.log <= r.1.log
    ensures oldText == newText ==> r == (true, v)
  {
    if oldText == newText then (true, v) else ReplaySummaries(ParseLines(Split(diff)), newText, v)
  }

  /**
   * The body of the replay loop up to the switch: skip blank and detail
   * lines, scan for the operation character, parse the spans either side.
   */
  method ParseDirective(line: string) returns (s: Summary)
    ensures s == ParseLine(line)
  {
    if line == [] || line[0] == '<' || line[0] == '-' || line[0] == '>' {
      return Skip;
    }
    var j := 0;
    while j < |line| && line[j] != 'a' && line[j] != 'c' && line[j] != 'd'
      invariant 0 <= j <= |line|
      invariant forall k :: 0 <= k < j ==> !IsOp(line[k])
    {
      j := j + 1;
    }
    OpIndexFirst(line, j);
    if j >= |line| {
      return Malformed;
    }
    var oldSpan := ParseSpan(line[..j]);
    var newSpan := ParseSpan(line[j + 1..]);
    if oldSpan.0 == 0 || newSpan.0 == 0 {
      return Skip;
    }
    var op := if line[j] == 'a' then Append else if line[j] == 'c' then Change else Delete;
    return Do(Directive(op, oldSpan.0, oldSpan.1, newSpan.0, newSpan.1));
  }

  /**
   * The switch of the replay loop: address the window, and when it accepts
   * the address, write the new lines (nothing for a delete).
   */
  method ApplyDirective(buf: Buffer, d: Directive, newText: string) returns (ok: bool)
    requires buf.Valid()
    modifies buf
    ensures buf.Valid()
    ensures ok == Step(old(buf.State()), d, newText).Some?
    ensures buf.State() == if ok then Step(old(buf.State()), d, newText).value else old(buf.State())
  {
    match d.op
    case Append =>
      ok := buf.AddrAfter(d.oldStart);
      if ok {
        var data := FindLines(newText, d.newStart, d.newEnd);
        buf.Write(data);
      }
    case Change =>
      ok := buf.AddrLines(d.oldStart, d.oldEnd);
      if ok {
        var data := FindLines(newText, d.newStart, d.newEnd);
        buf.Write(data);
      }
    case Delete =>
      ok := buf.AddrLines(d.oldStart, d.oldEnd);
      if ok {
        buf.Write([]);
      }
  }

  /**
   * The replay as gofmt.go runs it: split the diff into lines and walk them
   * from the last to the first, skipping, failing or applying each.
   */
  method Gofmt(buf: Buffer, oldText: string, newText: string, diff: string) returns (ok: bool)
    requires buf.Valid()
    modifies buf
    ensures buf.Valid()
    ensures (ok, buf.State()) == Reformat(oldText, newText, diff, old(buf.State()))
  {
    if oldText == newText {
      return true;
    }
    var diffLines := Split(diff);
    ghost var ss := ParseLines(diffLines);
    var i := |diffLines| - 1;
    assert ss[..i + 1] == ss;
    while i >= 0
      invariant -1 <= i < |diffLines|
      invariant buf.Valid()
      invariant ReplaySummaries(ss[..i + 1], newText, buf.State())
        == ReplaySummaries(ss, newText, old(buf.State()))
      decreases i
    {
      assert ss[..i + 1][..i] == ss[..i];
      var s := ParseDirective(diffLines[i]);
      match s {
        case Skip =>
        case Malformed =>
          return false;
        case Do(d) =>
          var applied := ApplyDirective(buf, d, newText);
          if !applied {
            return false;
          }
      }
      i := i - 1;
    }
    return true;
  }

  /**
   * The replay walks the diff from its end: replaying a + b replays b
   * first and, unless that failed, then a on the window b left.
   */
  lemma {:induction false} ReplayAppend(a: seq<Summary>, b: seq<Summary>, newText: string, v: View)
    requires v.Valid()
    ensures ReplaySummaries(a + b, newText, v)
      == (var r := ReplaySummaries(b, newText, v); if r.0 then ReplaySummaries(a, newText, r.1) else r)
    decreases |b|
  {
    if b == [] {
      assert a + b == a;
    } else {
      var ab := a + b;
      var front := b[..|b| - 1];
      assert ab[..|ab| - 1] == a + front;
      assert ab[|ab| - 1] == b[|b| - 1];
      match b[|b| - 1]
      case Skip =>
        ReplayAppend(a, front, newText, v);
      case Malformed =>
      case Do(d) =>
        match Step(v, d, newText)
        case None =>
        case Some(w) =>
          ReplayAppend(a, front, newText, w);
    }
  }

  /** A line with no operation character makes the replay fail, wherever it stands. */
  lemma {:induction false} MalformedFails(ss: seq<Summary>, newText: string, v: View, k: int)
    requires v.Valid() && 0 <= k < |ss| && ss[k] == Malformed
    ensures !ReplaySummaries(ss, newText, v).0
    decreases |ss|
  {
    var n := |ss| - 1;
    if k < n {
      var front := ss[..n];
      assert front[k] == ss[k];
      match ss[n]
      case Skip =>
        MalformedFails(front, newText, v, k);
      case Malformed =>
      case Do(d) =>
        match Step(v, d, newText)
        case None =>
        case Some(w) =>
          MalformedFails(front, newText, w, k);
    }
  }

  /**
   * A malformed line stops the replay there: the edits of the lines after it
   * stay made, and no line before it is looked at.
   */
  lemma {:induction false} MalformedStops(a: seq<Summary>, b: seq<Summary>, newText: string, v: View)
    requires v.Valid()
    ensures ReplaySummaries(a + [Malformed] + b, newText, v) == (false, ReplaySummaries(b, newText, v).1)
  {
    ReplayAppend(a + [Malformed], b, newText, v);
    var r := ReplaySummaries(b, newText, v);
    assert (a + [Malformed])[|a|] == Malformed;
  }

  /** A diff made only of blank, detail and skipped lines succeeds and leaves the window alone. */
  lemma {:induction false} SkippedLinesChangeNothing(ss: seq<Summary>, newText: string, v: View)
    requires v.Valid()
    requires forall k :: 0 <= k < |ss| ==> ss[k] == Skip
    ensures ReplaySummaries(ss, newText, v) == (true, v)
    decreases |ss|
  {
    if ss != [] {
      var front := ss[..|ss| - 1];
      assert forall k :: 0 <= k < |front| ==> front[k] == ss[k];
      SkippedLinesChangeNothing(front, newText, v);
    }
  }

  /** The diff's detail lines and its separator are skipped. */
  lemma {:induction false} ParseLineDetail()
    ensures ParseLine("< old") == Skip && ParseLine("---") == Skip && ParseLine("> new") == Skip
  {
  }

  /** A line with no operation character is malformed. */
  lemma {:induction false} ParseLineMalformed()
    ensures ParseLine("7") == Malformed
  {
    OpIndexFirst("7", 1);
  }

  /**
   * An append after line 0 has a zero start and is skipped: the replay never
   * inserts at the very top of the window.
   */
  lemma {:induction false} ParseLineZeroOldStart()
    ensures ParseLine("0a1,2") == Skip
  {
    OpIndexFirst("0a1,2", 1);
    assert "0a1,2"[..1] == "0";
    ParseSpanExamples();
  }

  /** A delete whose new position is line 0 ("1,2d0") has a zero start and is skipped too. */
  lemma {:induction false} ParseLineZeroNewStart()
    ensures ParseLine("1,2d0") == Skip
  {
    OpIndexFirst("1,2d0", 3);
    assert "1,2d0"[4..] == "0";
    ParseSpanExamples();
  }

  /** An append whose new span is missing ("5a") reads as new line 0 and is skipped. */
  lemma {:induction false} ParseLineMissingSpan()
    ensures ParseLine("5a") == Skip
  {
    OpIndexFirst("5a", 1);
    assert "5a"[2..] == [];
  }

  /** A line whose first operation character has an unparsable span before it is skipped, not refused. */
  lemma {:induction false} ParseLineJunkSpan()
    ensures ParseLine("x1a2") == Skip
  {
    OpIndexFirst("x1a2", 2);
    assert "x1a2"[..2] == "x1";
    ParseSpanExamples();
  }

  /** A step goes through exactly when the window accepts its address. */
  lemma {:induction false} StepAccepted(v: View, d: Directive, newText: string)
    requires v.Valid()
    ensures Step(v, d, newText).Some? <==>
      if d.op == Append then 0 <= d.oldStart <= NumLines(v.text) + 1
      else 1 <= d.oldStart <= d.oldEnd <= NumLines(v.text) + 1
  {
  }

  /**
   * What a step does to the text: the old lines EditLine(d) + 1 .. EditEnd(d)
   * give way to the new lines the directive names (nothing for a delete, no
   * old line for an append), and the address ends up just past what was
   * written.
   */
  lemma {:induction false} StepEffect(v: View, d: Directive, newText: string)
    requires v.Valid() && Step(v, d, newText).Some?
    ensures var w := Step(v, d, newText).value;
      var p, q := LineOffset(v.text, EditLine(d)), LineOffset(v.text, EditEnd(d));
      && p <= q
      && w.text == v.text[..p] + Data(d, newText) + v.text[q..]
      && w.q0 == w.q1 == p + |Data(d, newText)|
      && w.log == v.log + [Edit(p, q, Data(d, newText))]
  {
    var a := Address(v, d).value;
    assert a.q0 == LineOffset(v.text, EditLine(d)) && a.q1 == LineOffset(v.text, EditEnd(d));
  }

  /** A step leaves the text before the point where its address begins as it was. */
  lemma {:induction false} StepKeepsPrefix(v: View, d: Directive, newText: string)
    requires v.Valid() && Step(v, d, newText).Some?
    ensures var w := Step(v, d, newText).value;
      var q := LineOffset(v.text, EditLine(d));
      q <= |w.text| && w.text[..q] == v.text[..q]
  {
    var a := Address(v, d).value;
    assert a.q0 == LineOffset(v.text, EditLine(d));
    WriteDataSplice(a, Data(d, newText));
  }

  /**
   * Why the replay runs backwards: a step leaves the window's text before
   * the line it edits as it was, so every line an earlier summary line
   * names still begins where the diff expects.
   */
  lemma {:induction false} StepKeepsEarlierLines(v: View, d: Directive, newText: string, k: int)
    requires v.Valid() && Step(v, d, newText).Some?
    requires k <= EditLine(d) && k <= CountNL(v.text)
    ensures var w := Step(v, d, newText).value;
      var p := LineOffset(v.text, k);
      p <= |w.text| && w.text[..p] == v.text[..p] && LineOffset(w.text, k) == p
  {
    var w := Step(v, d, newText).value;
    var q := LineOffset(v.text, EditLine(d));
    StepKeepsPrefix(v, d, newText);
    var p := LineOffset(v.text, k);
    LineOffsetMono(v.text, k, EditLine(d));
    assert w.text[..p] == v.text[..p] by {
      assert w.text[..p] == w.text[..q][..p];
      assert v.text[..p] == v.text[..q][..p];
    }
    if k > 0 {
      assert k <= CountNL(v.text[..q]) by { LineOffsetSpec(v.text, EditLine(d)); }
      LineOffsetPrefix(v.text, w.text, q, k);
    }
  }
}
