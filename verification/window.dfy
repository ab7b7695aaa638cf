/**
 * The acme window the replay edits, as a line-addressed text buffer. The
 * body is a sequence of bytes; an address selects a range q0..q1 of it and
 * a write to the data file replaces that range. Only the two address forms
 * the replay writes are modelled: "s,e" (lines s through e) and "s+#0" (the
 * empty range at the end of line s). Line l, for 1 <= l <= NumLines + 1, runs
 * from where line l begins to where line l + 1 begins; line NumLines + 1 is
 * the empty range at the end of the body.
 */
module Window {
  import opened Optional
  import opened Text
  import opened Lines

  /** One write to the body: the range it replaced and the bytes put there. */
  datatype Edit = Edit(q0: nat, q1: nat, data: string)

  /** The window's state: its body, its address q0..q1, and every write made so far. */
  datatype View = View(text: string, q0: nat, q1: nat, log: seq<Edit>)
  {
    predicate Valid()
    {
      q0 <= q1 <= |text|
    }
  }

  /** Lines of the body: one per newline, plus an unterminated last line if there is one. */
  function NumLines(text: string): nat
  {
    CountNL(text) + (if text != [] && text[|text| - 1] != '\n' then 1 else 0)
  }

  /** Address "s,e": lines s through e; refused unless 1 <= s <= e <= NumLines + 1. */
  function SelectLines(v: View, s: int, e: int): (r: Option<View>)
    ensures r.Some? <==> 1 <= s <= e <= NumLines(v.text) + 1
    ensures r.Some? ==> r.value.Valid() && r.value.text == v.text && r.value.log == v.log
  {
    if 1 <= s <= e <= NumLines(v.text) + 1 then
      LineOffsetMono(v.text, s - 1, e);
      Some(v.(q0 := LineOffset(v.text, s - 1), q1 := LineOffset(v.text, e)))
    else None
  }

  /** The range "s,e" selects holds exactly the bytes findLines returns for lines s..e. */
  lemma {:induction false} SelectLinesRange(v: View, s: int, e: int)
    requires SelectLines(v, s, e).Some?
    ensures var w := SelectLines(v, s, e).value; w.text[w.q0..w.q1] == LineSlice(v.text, s, e)
  {
  }

  /** Address "s+#0": the empty range where line s ends; refused unless 0 <= s <= NumLines + 1. */
  function SelectAfter(v: View, s: int): (r: Option<View>)
    ensures r.Some? <==> 0 <= s <= NumLines(v.text) + 1
    ensures r.Some? ==> r.value.Valid() && r.value.text == v.text && r.value.log == v.log
    ensures r.Some? ==> r.value.q0 == r.value.q1
  {
    if 0 <= s <= NumLines(v.text) + 1 then
      Some(v.(q0 := LineOffset(v.text, s), q1 := LineOffset(v.text, s)))
    else None
  }

  /** The point "s+#0" selects has lines 1..s before it. */
  lemma {:induction false} SelectAfterPoint(v: View, s: int)
    requires SelectAfter(v, s).Some?
    ensures var w := SelectAfter(v, s).value; w.text[..w.q0] == LineSlice(v.text, 1, s)
  {
  }

  /** A write to the data file: the addressed range becomes `data` and the address moves past it. */
  function WriteData(v: View, data: string): (r: View)
    requires v.Valid()
    ensures r.Valid() && r.q0 == r.q1 == v.q0 + |data|
    ensures |r.text| == |v.text| - (v.q1 - v.q0) + |data|
    ensures r.log == v.log + [Edit(v.q0, v.q1, data)]
  {
    View(v.text[..v.q0] + data + v.text[v.q1..], v.q0 + |data|, v.q0 + |data|, v.log + [Edit(v.q0, v.q1, data)])
  }

  /** What a write leaves: the text before the range, then `data`, then the text after the range. */
  lemma {:induction false} WriteDataSplice(v: View, data: string)
    requires v.Valid()
    ensures var r := WriteData(v, data);
      && r.text[..v.q0] == v.text[..v.q0]
      && r.text[v.q0..r.q1] == data
      && r.text[r.q1..] == v.text[v.q1..]
  {
    var r := WriteData(v, data);
    assert r.text == v.text[..v.q0] + data + v.text[v.q1..];
  }

  /** The open window; State() is its value. */
  class Buffer {
    var text: string
    var q0: nat
    var q1: nat
    var log: seq<Edit>

    function State(): View
      reads this
    {
      View(text, q0, q1, log)
    }

    predicate Valid()
      reads this
    {
      State().Valid()
    }

    constructor (body: string)
      ensures Valid() && State() == View(body, 0, 0, [])
    {
      text, q0, q1, log := body, 0, 0, [];
    }

    /** Writes "s,e" to the addr file; false when the window refuses the address. */
    method AddrLines(s: int, e: int) returns (ok: bool)
      requires Valid()
      modifies this
      ensures Valid()
      ensures ok == SelectLines(old(State()), s, e).Some?
      ensures State() == if ok then SelectLines(old(State()), s, e).value else old(State())
    {
      var r := SelectLines(State(), s, e);
      ok := r.Some?;
      if ok {
        q0, q1 := r.value.q0, r.value.q1;
      }
    }

    /** Writes "s+#0" to the addr file; false when the window refuses the address. */
    method AddrAfter(s: int) returns (ok: bool)
      requires Valid()
      modifies this
      ensures Valid()
      ensures ok == SelectAfter(old(State()), s).Some?
      ensures State() == if ok then SelectAfter(old(State()), s).value else old(State())
    {
      var r := SelectAfter(State(), s);
      ok := r.Some?;
      if ok {
        q0, q1 := r.value.q0, r.value.q1;
      }
    }

    /** Writes `data` to the data file, replacing the addressed range. */
    method Write(data: string)
      requires Valid()
      modifies this
      ensures Valid()
      ensures State() == WriteData(old(State()), data)
    {
      var r := WriteData(State(), data);
      text, q0, q1, log := r.text, r.q0, r.q1, r.log;
    }
  }
}
