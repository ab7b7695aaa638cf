/**
 * Line extraction (gofmt.go, findLines): the bytes of 1-based lines
 * start..end of the reformatted text, with their newlines. Lines are
 * delimited by '\n' alone; text after the last newline counts as a line.
 */
module Lines {
  import opened Text

  function Min(a: int, b: int): int
  {
    if a <= b then a else b
  }

  /**
   * Where line k + 1 begins: the offset just past the k-th newline. It is 0
   * when k <= 0 and the whole length when the text has fewer than k newlines.
   */
  function LineOffset(text: string, k: int): (p: nat)
    ensures p <= |text|
    decreases |text|
  {
    if k <= 0 then 0
    else if text == [] || CountNL(text[..|text| - 1]) < k then |text|
    else LineOffset(text[..|text| - 1], k)
  }

  /**
   * LineOffset(text, k) is the shortest prefix that holds k newlines (all of
   * them when there are fewer), and it ends with the k-th one.
   */
  lemma {:induction false} LineOffsetSpec(text: string, k: int)
    ensures var p := LineOffset(text, k);
      && (k <= 0 ==> p == 0)
      && CountNL(text[..p]) == (if k <= 0 then 0 else Min(k, CountNL(text)))
      && (0 < k <= CountNL(text) ==> text[p - 1] == '\n')
      && (CountNL(text) < k ==> p == |text|)
      && (forall q :: 0 <= q < p ==> CountNL(text[..q]) < k)
    decreases |text|
  {
    if k <= 0 {
    } else if text == [] || CountNL(text[..|text| - 1]) < k {
      assert text[..|text|] == text;
      forall q | 0 <= q < |text| ensures CountNL(text[..q]) < k {
        CountNLPrefix(text, q, |text| - 1);
      }
    } else {
      var t := text[..|text| - 1];
      LineOffsetSpec(t, k);
      assert forall q :: 0 <= q <= |t| ==> text[..q] == t[..q];
    }
  }

  /** A prefix holding k newlines and ending with one ends exactly where line k + 1 begins. */
  lemma {:induction false} LineOffsetUnique(text: string, k: int, q: nat)
    requires 0 < k && 0 < q <= |text|
    requires CountNL(text[..q]) == k && text[q - 1] == '\n'
    ensures LineOffset(text, k) == q
  {
    var p := LineOffset(text, k);
    LineOffsetSpec(text, k);
    CountNLPrefix(text, q, |text|);
    assert text[..|text|] == text;
    if p < q {
      CountNLPrefix(text, p, q - 1);
      CountNLStep(text, q - 1);
    }
  }

  /** Later lines begin no earlier. */
  lemma {:induction false} LineOffsetMono(text: string, j: int, k: int)
    requires j <= k
    ensures LineOffset(text, j) <= LineOffset(text, k)
  {
    LineOffsetSpec(text, j);
    LineOffsetSpec(text, k);
    assert text[..|text|] == text;
  }

  /**
   * Where line k + 1 begins depends only on the text up to there: two texts
   * that agree on a prefix holding at least k newlines agree on it.
   */
  lemma {:induction false} LineOffsetPrefix(t1: string, t2: string, p: nat, k: int)
    requires p <= |t1| && p <= |t2| && t1[..p] == t2[..p]
    requires k <= CountNL(t1[..p])
    ensures LineOffset(t1, k) == LineOffset(t2, k)
  {
    if k > 0 {
      var q := LineOffset(t1, k);
      assert 0 < q <= p && CountNL(t1[..q]) == k && t1[q - 1] == '\n' by {
        LineOffsetSpec(t1, k);
        CountNLPrefix(t1, p, |t1|);
        assert t1[..|t1|] == t1;
      }
      assert t2[..q] == t1[..q] && t2[q - 1] == t1[q - 1] by {
        assert t1[..q] == t1[..p][..q] && t2[..q] == t2[..p][..q];
      }
      LineOffsetUnique(t2, k, q);
    }
  }

  /** In a text made of whole lines (and any tail), line k + 1 begins after the first k lines. */
  lemma {:induction false} LineOffsetConcat(ls: seq<string>, tail: string, k: nat)
    requires AllLines(ls) && k <= |ls|
    ensures LineOffset(Concat(ls) + tail, k) == |Concat(ls[..k])|
  {
    if k > 0 {
      var text := Concat(ls) + tail;
      assert ls == ls[..k] + ls[k..];
      ConcatAppend(ls[..k], ls[k..]);
      var q := |Concat(ls[..k])|;
      assert text[..q] == Concat(ls[..k]);
      ConcatLines(ls[..k]);
      LineOffsetUnique(text, k, q);
    }
  }

  lemma {:induction false} LineOffsetLines(ls: seq<string>, k: nat)
    requires AllLines(ls) && k <= |ls|
    ensures LineOffset(Concat(ls), k) == |Concat(ls[..k])|
  {
    assert Concat(ls) + [] == Concat(ls);
    LineOffsetConcat(ls, [], k);
  }

  /**
   * The bytes findLines returns: from where line start begins to where line
   * end finishes, or nothing when that end comes first.
   */
  function LineSlice(text: string, start: int, end: int): (r: string)
    ensures LineOffset(text, start - 1) + |r| <= |text|
    ensures text[LineOffset(text, start - 1)..LineOffset(text, start - 1) + |r|] == r
  {
    var s := LineOffset(text, start - 1);
    var e := LineOffset(text, end);
    if s <= e then text[s..e] else []
  }

  /**
   * findLines. The first loop skips start - 1 newlines, counting them off
   * end as well; the second goes on until end reaches 0. Neither indexes
   * past the end of the text.
   */
  method FindLines(text: string, start: int, end: int) returns (r: string)
    ensures r == LineSlice(text, start, end)
  {
    LineOffsetSpec(text, start - 1);
    LineOffsetSpec(text, end);
    var i := 0;
    var s := start - 1;
    var e := end;
    while i < |text| && s > 0
      invariant 0 <= i <= |text|
      invariant s == start - 1 - CountNL(text[..i])
      invariant e == end - CountNL(text[..i])
      invariant start - 1 <= 0 ==> i == 0
      invariant start - 1 > 0 ==> s >= 0
      invariant i <= LineOffset(text, start - 1)
    {
      CountNLStep(text, i);
      if text[i] == '\n' {
        s := s - 1;
        e := e - 1;
      }
      i := i + 1;
    }
    var startByte := i;
    ghost var runs := e > 0;
    while i < |text| && e > 0
      invariant startByte <= i <= |text|
      invariant e == end - CountNL(text[..i])
      invariant runs ==> i <= LineOffset(text, end)
      invariant !runs ==> i == startByte
    {
      CountNLStep(text, i);
      if text[i] == '\n' {
        e := e - 1;
      }
      i := i + 1;
    }
    var endByte := i;
    assert startByte == LineOffset(text, start - 1);
    assert runs ==> endByte == LineOffset(text, end);
    assert !runs ==> endByte == startByte && LineOffset(text, end) <= startByte;
    r := text[startByte..endByte];
  }

  /** A span that ends before it starts selects nothing. */
  lemma {:induction false} LineSliceEmpty(text: string, start: int, end: int)
    requires end < start
    ensures LineSlice(text, start, end) == []
  {
    LineOffsetMono(text, end, start - 1);
  }

  /**
   * For 1 <= start <= end within the text's newlines, the slice starts right
   * after start - 1 newlines and holds exactly end - start + 1 of them, the
   * last as its final byte.
   */
  lemma {:induction false} LineSliceCounts(text: string, start: int, end: int)
    requires 1 <= start <= end <= CountNL(text)
    ensures var s := LineOffset(text, start - 1);
      && CountNL(text[..s]) == start - 1
      && (s == 0 || text[s - 1] == '\n')
      && var r := LineSlice(text, start, end);
      && text[s..s + |r|] == r
      && CountNL(r) == end - start + 1
      && r[|r| - 1] == '\n'
  {
    var s := LineOffset(text, start - 1);
    var e := LineOffset(text, end);
    LineOffsetSpec(text, start - 1);
    LineOffsetSpec(text, end);
    LineOffsetMono(text, start - 1, end);
    assert LineSlice(text, start, end) == text[s..e];
    CountNLRange(text, s, e);
  }

  lemma {:induction false} CountNLRange(text: string, s: nat, e: nat)
    requires s <= e <= |text|
    ensures CountNL(text[s..e]) == CountNL(text[..e]) - CountNL(text[..s])
  {
    assert text[..e] == text[..s] + text[s..e];
    CountNLAppend(text[..s], text[s..e]);
  }

  /** In a text made of whole lines, the slice is exactly lines start..end. */
  lemma {:induction false} LineSliceConcat(ls: seq<string>, start: int, end: int)
    requires AllLines(ls)
    requires 1 <= start && start - 1 <= end <= |ls|
    ensures LineSlice(Concat(ls), start, end) == Concat(ls[start - 1..end])
  {
    LineOffsetLines(ls, start - 1);
    LineOffsetLines(ls, end);
    ConcatTake(ls, start - 1, end);
    ConcatSplit(ls, end);
    SliceMiddle(Concat(ls), Concat(ls[..end]), Concat(ls[end..]), Concat(ls[..start - 1]), Concat(ls[start - 1..end]), start, end);
  }

  /**
   * When the text after the last newline is an unterminated line, the slice
   * through that line is lines start..end followed by that unterminated line.
   */
  lemma {:induction false} LineSliceLast(ls: seq<string>, tail: string, start: int)
    requires AllLines(ls) && LacksBefore(tail, '\n', |tail|)
    requires 1 <= start <= |ls| + 1
    ensures LineSlice(Concat(ls) + tail, start, |ls| + 1) == Concat(ls[start - 1..]) + tail
  {
    LineOffsetConcat(ls, tail, start - 1);
    LineOffsetPastEnd(ls, tail);
    ConcatSplit(ls, start - 1);
    AppendAssoc(Concat(ls[..start - 1]), Concat(ls[start - 1..]), tail);
    SliceRest(Concat(ls) + tail, Concat(ls[..start - 1]), Concat(ls[start - 1..]) + tail, start, |ls| + 1);
  }

  /** Past the last newline of the text there is no further line start: the offset is the whole length. */
  lemma {:induction false} LineOffsetPastEnd(ls: seq<string>, tail: string)
    requires AllLines(ls) && LacksBefore(tail, '\n', |tail|)
    ensures LineOffset(Concat(ls) + tail, |ls| + 1) == |Concat(ls) + tail|
  {
    ConcatLines(ls);
    NoNewline(tail);
    CountNLAppend(Concat(ls), tail);
    LineOffsetSpec(Concat(ls) + tail, |ls| + 1);
  }

  lemma {:induction false} SliceRest(text: string, x: string, y: string, start: int, end: int)
    requires text == x + y
    requires LineOffset(text, start - 1) == |x| && LineOffset(text, end) == |text|
    ensures LineSlice(text, start, end) == y
  {
    assert text[|x|..|text|] == y;
  }

  lemma {:induction false} SliceMiddle(text: string, w: string, z: string, x: string, y: string, start: int, end: int)
    requires text == w + z && w == x + y
    requires LineOffset(text, start - 1) == |x| && LineOffset(text, end) == |w|
    ensures LineSlice(text, start, end) == y
  {
    assert text[|x|..|w|] == y;
  }

  /** The three extractions from "a\nb\nc\n". */
  lemma {:induction false} LineSliceExamples()
    ensures LineSlice("a\nb\nc\n", 2, 2) == "b\n"
    ensures LineSlice("a\nb\nc\n", 1, 3) == "a\nb\nc\n"
    ensures LineSlice("a\nb\nc\n", 2, 3) == "b\nc\n"
  {
    var ls := ["a\n", "b\n", "c\n"];
    assert Concat(ls[2..]) == "c\n";
    assert Concat(ls[1..]) == "b\nc\n";
    assert Concat(ls) == "a\nb\nc\n";
    assert AllLines(ls);
    LineSliceConcat(ls, 2, 2);
    LineSliceConcat(ls, 1, 3);
    LineSliceConcat(ls, 2, 3);
    assert ls[1..2] == ["b\n"] && ls[0..3] == ls && ls[1..3] == ls[1..];
    assert Concat(["b\n"]) == "b\n";
  }
}
