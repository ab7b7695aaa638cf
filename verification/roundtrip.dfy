/**
 * Why replaying a diff turns the old text into the new one. A line diff is
 * a list of hunks; the diff prints each as one summary line
 * "<old span><op><new span>" followed by its detail lines, and the hunks,
 * read in order, rewrite the old lines into the new ones. When every line
 * of both texts ends in a newline and no hunk starts at line 0, gofmt's
 * replay of the printed diff (last hunk first) leaves the window holding
 * exactly the new text.
 */
module RoundTrip {
  import opened Optional
  import opened Text
  import opened Span
  import opened Lines
  import opened Window
  import opened Replay

  function OpChar(op: Op): (c: char)
    ensures IsOp(c) && OpOf(c) == op
  {
    match op
    case Append => 'a'
    case Change => 'c'
    case Delete => 'd'
  }

  /** A span as the diff prints it: "N" when it starts and ends on one line, "N,M" otherwise. */
  function RenderSpan(start: int, end: int): string
  {
    if start == end then Itoa(start) else Itoa(start) + "," + Itoa(end)
  }

  /** The summary line of a hunk. */
  function Render(d: Directive): string
  {
    RenderSpan(d.oldStart, d.oldEnd) + [OpChar(d.op)] + RenderSpan(d.newStart, d.newEnd)
  }

  /**
   * The hunks the diff prints, with the restriction the replay needs: no
   * start is 0. "NaM,K" adds new lines M..K after old line N; "N,McK,L"
   * replaces old lines N..M by new lines K..L; "N,MdK" removes old lines
   * N..M, which would have followed new line K.
   */
  predicate WellFormed(d: Directive)
  {
    && d.oldStart >= 1 && d.newStart >= 1
    && (d.op == Append ==> d.oldEnd == d.oldStart && d.newStart <= d.newEnd)
    && (d.op == Change ==> d.oldStart <= d.oldEnd && d.newStart <= d.newEnd)
    && (d.op == Delete ==> d.oldStart <= d.oldEnd && d.newEnd == d.newStart)
  }

  /** The new lines a hunk puts in are those at 0-based indices NewLo(d) .. NewHi(d) - 1. */
  function NewLo(d: Directive): int
  {
    if d.op == Delete then d.newStart else d.newStart - 1
  }

  function NewHi(d: Directive): int
  {
    if d.op == Delete then d.newStart else d.newEnd
  }

  /**
   * The hunks H, in order, rewrite old lines O into new lines N: after the
   * last hunk both texts end alike, and the earlier hunks rewrite what comes
   * before it.
   */
  predicate Describes(O: seq<string>, N: seq<string>, H: seq<Directive>)
    decreases |H|
  {
    if H == [] then O == N
    else
      var d := H[|H| - 1];
      && WellFormed(d)
      && EditEnd(d) <= |O| && NewHi(d) <= |N|
      && O[EditEnd(d)..] == N[NewHi(d)..]
      && Describes(O[..EditLine(d)], N[..NewLo(d)], H[..|H| - 1])
  }

  /**
   * The lines ls of a printed diff list the hunks H: their summary lines in
   * order, with blank and detail lines anywhere between them.
   */
  predicate Lists(ls: seq<string>, H: seq<Directive>)
    decreases |ls|
  {
    if ls == [] then H == []
    else
      var l := ls[|ls| - 1];
      if l == [] || IsDetail(l) then Lists(ls[..|ls| - 1], H)
      else H != [] && l == Render(H[|H| - 1]) && Lists(ls[..|ls| - 1], H[..|H| - 1])
  }

  /** A span of positive numbers is printed as digits and at most a comma, a digit first. */
  lemma {:induction false} RenderSpanChars(start: int, end: int)
    requires start >= 1 && end >= 1
    ensures var t := RenderSpan(start, end);
      && t != [] && !IsDetail(t)
      && forall k :: 0 <= k < |t| ==> !IsOp(t[k])
  {
    var a, b := NatToDecimal(start), NatToDecimal(end);
    assert Itoa(start) == a && Itoa(end) == b;
    if start != end {
      var t := a + "," + b;
      assert forall k :: |a| + 1 <= k < |t| ==> t[k] == b[k - |a| - 1];
    }
  }

  /** Every printed span reads back as itself. */
  lemma {:induction false} ParseSpanRender(start: int, end: int)
    ensures ParseSpan(RenderSpan(start, end)) == (start, end)
  {
    if start == end {
      ParseSpanNumber(start);
    } else {
      ParseSpanPair(start, end);
    }
  }

  /** A line made of a span, an operation character and another span is read at that character. */
  lemma {:induction false} ParseLineParts(a: string, c: char, b: string)
    requires a != [] && !IsDetail(a) && forall k :: 0 <= k < |a| ==> !IsOp(a[k])
    requires IsOp(c)
    ensures var o, n := ParseSpan(a), ParseSpan(b);
      ParseLine(a + [c] + b) == if o.0 == 0 || n.0 == 0 then Skip else Do(Directive(OpOf(c), o.0, o.1, n.0, n.1))
  {
    var line := a + [c] + b;
    assert line[0] == a[0];
    assert forall k :: 0 <= k < |a| ==> line[k] == a[k];
    OpIndexFirst(line, |a|);
    assert line[..|a|] == a;
    assert line[|a| + 1..] == b;
  }

  /** The replay reads a hunk's summary line back as that hunk. */
  lemma {:induction false} ParseLineRender(d: Directive)
    requires WellFormed(d)
    ensures ParseLine(Render(d)) == Do(d)
  {
    RenderSpanChars(d.oldStart, d.oldEnd);
    ParseLineParts(RenderSpan(d.oldStart, d.oldEnd), OpChar(d.op), RenderSpan(d.newStart, d.newEnd));
    ParseSpanRender(d.oldStart, d.oldEnd);
    ParseSpanRender(d.newStart, d.newEnd);
  }

  /** The window accepts a hunk's address on a text that starts with the old lines, selecting them. */
  lemma {:induction false} HunkAddress(d: Directive, O: seq<string>, S: string, v: View)
    requires WellFormed(d) && AllLines(O) && EditEnd(d) <= |O|
    requires v.Valid() && v.text == Concat(O) + S
    ensures Address(v, d) == Some(v.(q0 := |Concat(O[..EditLine(d)])|, q1 := |Concat(O[..EditEnd(d)])|))
  {
    assert NumLines(v.text) >= |O| by {
      ConcatLines(O);
      CountNLAppend(Concat(O), S);
    }
    LineOffsetConcat(O, S, EditLine(d));
    LineOffsetConcat(O, S, EditEnd(d));
  }

  /** What a hunk writes is the new lines it names. */
  lemma {:induction false} HunkData(d: Directive, N: seq<string>, Nf: seq<string>)
    requires WellFormed(d) && AllLines(Nf) && NewHi(d) <= |N| <= |Nf| && N == Nf[..|N|]
    ensures Data(d, Concat(Nf)) == Concat(N[NewLo(d)..NewHi(d)])
  {
    if d.op == Delete {
      assert N[NewLo(d)..NewHi(d)] == [];
    } else {
      LineSliceConcat(Nf, d.newStart, d.newEnd);
      PrefixSlice(N, Nf, d.newStart - 1, d.newEnd);
    }
  }

  /** Writing over the middle part of a text. */
  lemma {:induction false} Splice(a: View, p: string, m: string, rest: string, data: string)
    requires a.Valid() && a.text == p + (m + rest) && a.q0 == |p| && a.q1 == |p| + |m|
    ensures WriteData(a, data).text == p + (data + rest)
  {
    assert a.text[..a.q0] == p;
    assert a.text[a.q1..] == rest;
    AppendAssoc(p, data, rest);
  }

  /** One hunk of the replay: old lines O then S become old lines O[..EditLine] then new lines from NewLo on, then S. */
  lemma {:induction false} StepHunk(d: Directive, O: seq<string>, N: seq<string>, Nf: seq<string>, S: string, v: View)
    requires WellFormed(d) && AllLines(O) && AllLines(Nf) && |N| <= |Nf| && N == Nf[..|N|]
    requires EditEnd(d) <= |O| && NewHi(d) <= |N| && O[EditEnd(d)..] == N[NewHi(d)..]
    requires v.Valid() && v.text == Concat(O) + S
    ensures Step(v, d, Concat(Nf)).Some?
    ensures Step(v, d, Concat(Nf)).value.text == Concat(O[..EditLine(d)]) + (Concat(N[NewLo(d)..]) + S)
  {
    var lo, hi := EditLine(d), EditEnd(d);
    var p, m, q := Concat(O[..lo]), Concat(O[lo..hi]), Concat(O[hi..]);
    HunkAddress(d, O, S, v);
    var a := Address(v, d).value;
    assert a.text == p + (m + (q + S)) by {
      ConcatTake(O, lo, hi);
      ConcatSplit(O, hi);
      AppendAssoc(p, m, q);
      AppendAssoc(p + m, q, S);
      AppendAssoc(p, m + q, S);
      AppendAssoc(m, q, S);
    }
    assert a.q0 == |p| && a.q1 == |p| + |m| by {
      ConcatTake(O, lo, hi);
    }
    var data := Data(d, Concat(Nf));
    HunkData(d, N, Nf);
    Splice(a, p, m, q + S, data);
    assert data + (q + S) == Concat(N[NewLo(d)..]) + S by {
      ConcatDrop(N, NewLo(d), NewHi(d));
      AppendAssoc(data, q, S);
    }
  }

  /** The parsed lines of a diff are the parsed lines before its last one, then that one parsed. */
  lemma {:induction false} ParseLinesLast(ls: seq<string>)
    requires |ls| > 0
    ensures |ParseLines(ls)| == |ls|
    ensures ParseLines(ls)[|ls| - 1] == ParseLine(ls[|ls| - 1])
    ensures ParseLines(ls)[..|ls| - 1] == ParseLines(ls[..|ls| - 1])
  {
    var n := |ls|;
    var front := ls[..n - 1];
    forall k | 0 <= k < n - 1
      ensures ParseLines(ls)[k] == ParseLines(front)[k]
    {
      assert front[k] == ls[k];
    }
  }

  /** Replaying a diff whose last line is skipped is replaying the lines before it. */
  lemma {:induction false} ReplaySkipLast(ls: seq<string>, newText: string, v: View)
    requires |ls| > 0 && ParseLine(ls[|ls| - 1]) == Skip && v.Valid()
    ensures ReplaySummaries(ParseLines(ls), newText, v) == ReplaySummaries(ParseLines(ls[..|ls| - 1]), newText, v)
  {
    ParseLinesLast(ls);
  }

  lemma {:induction false} AllLinesPrefix(ls: seq<string>, k: nat)
    requires AllLines(ls) && k <= |ls|
    ensures AllLines(ls[..k])
  {
    assert forall i :: 0 <= i < k ==> ls[..k][i] == ls[i];
  }

  lemma {:induction false} PrefixPrefix(N: seq<string>, Nf: seq<string>, k: nat)
    requires |N| <= |Nf| && N == Nf[..|N|] && k <= |N|
    ensures N[..k] == Nf[..k]
  {
  }

  lemma {:induction false} PrefixSlice(N: seq<string>, Nf: seq<string>, i: nat, j: nat)
    requires i <= j <= |N| <= |Nf| && N == Nf[..|N|]
    ensures Nf[i..j] == N[i..j]
  {
    assert forall k :: i <= k < j ==> Nf[k] == N[k];
  }

  lemma {:induction false} Regroup(N: seq<string>, k: nat, S: string)
    requires k <= |N|
    ensures Concat(N[..k]) + (Concat(N[k..]) + S) == Concat(N) + S
  {
    ConcatSplit(N, k);
    AppendAssoc(Concat(N[..k]), Concat(N[k..]), S);
  }

  /** Replaying a diff whose last line is a directive the window accepts goes on from the edited window. */
  lemma {:induction false} ReplayDirectiveLast(ls: seq<string>, d: Directive, newText: string, v: View)
    requires |ls| > 0 && ParseLine(ls[|ls| - 1]) == Do(d)
    requires v.Valid() && Step(v, d, newText).Some?
    ensures ReplaySummaries(ParseLines(ls), newText, v)
         == ReplaySummaries(ParseLines(ls[..|ls| - 1]), newText, Step(v, d, newText).value)
  {
    ParseLinesLast(ls);
    ReplayDoLast(ParseLines(ls), d, newText, v, Step(v, d, newText).value);
  }

  /** Replaying lines whose last one is a directive the window accepts goes on from the edited window. */
  lemma {:induction false} ReplayDoLast(ss: seq<Summary>, d: Directive, newText: string, v: View, w: View)
    requires |ss| > 0 && ss[|ss| - 1] == Do(d) && v.Valid() && Step(v, d, newText) == Some(w)
    ensures w.Valid()
    ensures ReplaySummaries(ss, newText, v) == ReplaySummaries(ss[..|ss| - 1], newText, w)
  {
  }

  /**
   * The replay of the lines of a diff listing H on a window holding old
   * lines O followed by any text S succeeds and leaves new lines N followed
   * by S. The new lines are a prefix of the full new text Nf the replay
   * copies from.
   */
  lemma {:induction false} ReplayHunks(ls: seq<string>, H: seq<Directive>, O: seq<string>, N: seq<string>,
                                       Nf: seq<string>, S: string, v: View)
    requires AllLines(O) && AllLines(Nf) && |N| <= |Nf| && N == Nf[..|N|]
    requires Describes(O, N, H) && Lists(ls, H)
    requires v.Valid() && v.text == Concat(O) + S
    ensures var r := ReplaySummaries(ParseLines(ls), Concat(Nf), v); r.0 && r.1.text == Concat(N) + S
    decreases |ls|, 1
  {
    if ls != [] {
      var n := |ls| - 1;
      if ls[n] == [] || IsDetail(ls[n]) {
        ReplaySkipLast(ls, Concat(Nf), v);
        ReplayHunks(ls[..n], H, O, N, Nf, S, v);
      } else {
        ReplayLastHunk(ls, H, O, N, Nf, S, v);
      }
    }
  }

  /** ReplayHunks when the last line of the diff is the summary line of the last hunk. */
  lemma {:induction false} ReplayLastHunk(ls: seq<string>, H: seq<Directive>, O: seq<string>, N: seq<string>,
                                          Nf: seq<string>, S: string, v: View)
    requires AllLines(O) && AllLines(Nf) && |N| <= |Nf| && N == Nf[..|N|]
    requires Describes(O, N, H) && Lists(ls, H)
    requires |ls| > 0 && ls[|ls| - 1] != [] && !IsDetail(ls[|ls| - 1])
    requires v.Valid() && v.text == Concat(O) + S
    ensures var r := ReplaySummaries(ParseLines(ls), Concat(Nf), v); r.0 && r.1.text == Concat(N) + S
    decreases |ls|, 0
  {
    var n := |ls| - 1;
    var d := H[|H| - 1];
    var lo, nlo := EditLine(d), NewLo(d);
    assert WellFormed(d) && ls[n] == Render(d);
    ParseLineRender(d);
    StepHunk(d, O, N, Nf, S, v);
    var w := Step(v, d, Concat(Nf)).value;
    ReplayDirectiveLast(ls, d, Concat(Nf), v);
    var rest := Concat(N[nlo..]) + S;
    AllLinesPrefix(O, lo);
    PrefixPrefix(N, Nf, nlo);
    ReplayHunks(ls[..n], H[..|H| - 1], O[..lo], N[..nlo], Nf, rest, w);
    Regroup(N, nlo, S);
  }

  /**
   * The round trip: a window holding the old text, given the printed diff
   * of old against new, ends up holding the new text, and gofmt reports
   * success.
   */
  lemma {:induction false} RoundTrip(O: seq<string>, N: seq<string>, H: seq<Directive>, diff: string, v: View)
    requires AllLines(O) && AllLines(N)
    requires Describes(O, N, H) && Lists(Split(diff), H)
    requires v.Valid() && v.text == Concat(O)
    ensures var r := Reformat(Concat(O), Concat(N), diff, v); r.0 && r.1.text == Concat(N)
  {
    if Concat(O) != Concat(N) {
      assert v.text == Concat(O) + [];
      assert N == N[..|N|];
      ReplayHunks(Split(diff), H, O, N, N, [], v);
      assert Concat(N) + [] == Concat(N);
    }
  }

  /** A blank or detail line may stand anywhere in a diff. */
  lemma {:induction false} ListsDetail(ls: seq<string>, l: string, H: seq<Directive>)
    requires Lists(ls, H) && (l == [] || IsDetail(l))
    ensures Lists(ls + [l], H)
  {
    assert (ls + [l])[..|ls|] == ls;
  }

  /** A hunk's summary line lists that hunk after the ones before it. */
  lemma {:induction false} ListsHunk(ls: seq<string>, H: seq<Directive>, d: Directive)
    requires Lists(ls, H) && WellFormed(d)
    ensures Lists(ls + [Render(d)], H + [d])
  {
    RenderSpanChars(d.oldStart, d.oldEnd);
    assert Render(d)[0] == RenderSpan(d.oldStart, d.oldEnd)[0];
    assert (ls + [Render(d)])[..|ls|] == ls;
    assert (H + [d])[..|H|] == H;
  }

  /** The diff that turns "a\nb\n" into "a\nB\nc\n", replayed on a window holding the old text. */
  lemma {:induction false} RoundTripExample(v: View)
    requires v.Valid() && v.text == "a\nb\n"
    ensures var r := Reformat("a\nb\n", "a\nB\nc\n", "2c2,3\n< b\n---\n> B\n> c\n", v);
      r.0 && r.1.text == "a\nB\nc\n"
  {
    var O, N := ["a\n", "b\n"], ["a\n", "B\n", "c\n"];
    var d := Directive(Change, 2, 2, 2, 3);
    var diff := "2c2,3\n< b\n---\n> B\n> c\n";
    var lines := ["2c2,3", "< b", "---", "> B", "> c", ""];
    ExampleLists(lines, d);
    ExampleTexts(O, N);
    ExampleDescribes(O, N, d);
    ExampleSplit(diff, lines);
    RoundTrip(O, N, [d], diff, v);
  }

  lemma {:induction false} ExampleTexts(O: seq<string>, N: seq<string>)
    requires O == ["a\n", "b\n"] && N == ["a\n", "B\n", "c\n"]
    ensures AllLines(O) && AllLines(N)
    ensures Concat(O) == "a\nb\n" && Concat(N) == "a\nB\nc\n"
  {
    assert IsLine("a\n") && IsLine("b\n") && IsLine("B\n") && IsLine("c\n");
    assert Concat(O[1..]) == "b\n" by {
      assert O[1..][1..] == [];
    }
    assert Concat(N[1..][1..]) == "c\n" by {
      assert N[1..][1..][1..] == [];
    }
    assert Concat(N[1..]) == "B\nc\n";
  }

  lemma {:induction false} ExampleSplit(diff: string, lines: seq<string>)
    requires diff == "2c2,3\n< b\n---\n> B\n> c\n"
    requires lines == ["2c2,3", "< b", "---", "> B", "> c", ""]
    ensures Split(diff) == lines
  {
    ExampleJoin(diff, lines);
    assert forall k :: 0 <= k < |lines| ==> LacksBefore(lines[k], '\n', |lines[k]|);
    SplitJoin(lines);
  }

  lemma {:induction false} ExampleJoin(diff: string, lines: seq<string>)
    requires diff == "2c2,3\n< b\n---\n> B\n> c\n"
    requires lines == ["2c2,3", "< b", "---", "> B", "> c", ""]
    ensures Join(lines) == diff
  {
    var r5: seq<string> := [""];
    var r4 := ["> c"] + r5;
    JoinCons("> c", r5);
    var r3 := ["> B"] + r4;
    JoinCons("> B", r4);
    var r2 := ["---"] + r3;
    JoinCons("---", r3);
    var r1 := ["< b"] + r2;
    JoinCons("< b", r2);
    JoinCons("2c2,3", r1);
    assert lines == ["2c2,3"] + r1;
  }

  lemma {:induction false} ExampleDescribes(O: seq<string>, N: seq<string>, d: Directive)
    requires O == ["a\n", "b\n"] && N == ["a\n", "B\n", "c\n"] && d == Directive(Change, 2, 2, 2, 3)
    ensures Describes(O, N, [d])
  {
    assert O[..1] == N[..1];
    assert O[2..] == N[3..];
    assert [d][..0] == [];
  }

  lemma {:induction false} ExampleLists(lines: seq<string>, d: Directive)
    requires d == Directive(Change, 2, 2, 2, 3)
    requires lines == ["2c2,3", "< b", "---", "> B", "> c", ""]
    ensures Lists(lines, [d])
  {
    assert Render(d) == "2c2,3" by {
      assert Itoa(2) == "2" && Itoa(3) == "3";
    }
    var l0: seq<string> := [];
    ListsHunk(l0, [], d);
    assert [] + [d] == [d];
    var l1 := l0 + ["2c2,3"];
    ListsDetail(l1, "< b", [d]);
    var l2 := l1 + ["< b"];
    ListsDetail(l2, "---", [d]);
    var l3 := l2 + ["---"];
    ListsDetail(l3, "> B", [d]);
    var l4 := l3 + ["> B"];
    ListsDetail(l4, "> c", [d]);
    var l5 := l4 + ["> c"];
    ListsDetail(l5, "", [d]);
    assert l5 + [""] == lines;
  }
}
