/**
 * Byte-string helpers the replay code takes from Go's `strings` package:
 * `strings.Index` for one character, `strings.Split` on "\n" (with its
 * inverse, joining with "\n"), newline counting, and the concatenation of a
 * list of lines. Bytes are modelled as `char`.
 */
module Text {

  /** `s` has no `c` before position n. */
  predicate LacksBefore(s: string, c: char, n: int)
  {
    forall k :: 0 <= k < n && k < |s| ==> s[k] != c
  }

  /** strings.Index(s, string(c)): the index of the first `c`, or -1. */
  function Index(s: string, c: char): (i: int)
    ensures -1 <= i < |s|
    ensures i >= 0 ==> s[i] == c && LacksBefore(s, c, i)
    ensures i < 0 ==> LacksBefore(s, c, |s|)
    decreases |s|
  {
    if s == [] then -1
    else if s[0] == c then 0
    else
      var k := Index(s[1..], c);
      assert forall m :: 1 <= m < |s| ==> s[m] == s[1..][m - 1];
      if k < 0 then -1 else k + 1
  }

  /** Every string has at most one first occurrence of `c`. */
  lemma {:induction false} IndexUnique(s: string, c: char, i: nat)
    requires i < |s| && s[i] == c && LacksBefore(s, c, i)
    ensures Index(s, c) == i
  {
  }

  /** Join(r) == strings.Join(r, "\n"). */
  function Join(r: seq<string>): string
    requires |r| >= 1
  {
    if |r| == 1 then r[0] else r[0] + "\n" + Join(r[1..])
  }

  /** strings.Split(s, "\n"): the pieces between newlines, at least one. */
  function Split(s: string): (r: seq<string>)
    ensures |r| == CountNL(s) + 1
    decreases |s|
  {
    var i := Index(s, '\n');
    if i < 0 then
      NoNewline(s);
      [s]
    else
      SplitCount(s, i);
      [s[..i]] + Split(s[i + 1..])
  }

  /** Splitting at the first newline leaves one newline fewer in the rest. */
  lemma {:induction false} SplitCount(s: string, i: nat)
    requires i < |s| && s[i] == '\n' && LacksBefore(s, '\n', i)
    ensures CountNL(s) == CountNL(s[i + 1..]) + 1
  {
    assert s == s[..i] + [s[i]] + s[i + 1..];
    CountNLAppend(s[..i] + [s[i]], s[i + 1..]);
    CountNLAppend(s[..i], [s[i]]);
    PrefixLacks(s, '\n', i);
    NoNewline(s[..i]);
    assert [s[i]][..0] == [];
  }

  /** No piece of a split holds a newline. */
  lemma {:induction false} SplitPieces(s: string)
    ensures forall k :: 0 <= k < |Split(s)| ==> LacksBefore(Split(s)[k], '\n', |Split(s)[k]|)
    decreases |s|
  {
    var i := Index(s, '\n');
    if i >= 0 {
      SplitPieces(s[i + 1..]);
      PrefixLacks(s, '\n', i);
      PiecesCons(s[..i], Split(s[i + 1..]));
    }
  }

  lemma {:induction false} PrefixLacks(s: string, c: char, i: nat)
    requires i <= |s| && LacksBefore(s, c, i)
    ensures LacksBefore(s[..i], c, i)
  {
    assert forall k :: 0 <= k < i ==> s[..i][k] == s[k];
  }

  lemma {:induction false} PiecesCons(head: string, rest: seq<string>)
    requires LacksBefore(head, '\n', |head|)
    requires forall k :: 0 <= k < |rest| ==> LacksBefore(rest[k], '\n', |rest[k]|)
    ensures forall k :: 0 <= k < |[head] + rest| ==> LacksBefore(([head] + rest)[k], '\n', |([head] + rest)[k]|)
  {
    var r := [head] + rest;
    forall k | 0 <= k < |r|
      ensures LacksBefore(r[k], '\n', |r[k]|)
    {
      if k > 0 {
        assert r[k] == rest[k - 1];
      }
    }
  }

  /** Joining the pieces of a split gives the text back. */
  lemma {:induction false} JoinSplit(s: string)
    ensures Join(Split(s)) == s
    decreases |s|
  {
    var i := Index(s, '\n');
    if i >= 0 {
      var rest := Split(s[i + 1..]);
      JoinSplit(s[i + 1..]);
      assert ([s[..i]] + rest)[1..] == rest;
      assert s == s[..i] + "\n" + s[i + 1..];
    }
  }

  /** Splitting a joined list of newline-free pieces gives the pieces back. */
  lemma {:induction false} SplitJoin(r: seq<string>)
    requires |r| >= 1
    requires forall k :: 0 <= k < |r| ==> LacksBefore(r[k], '\n', |r[k]|)
    ensures Split(Join(r)) == r
    decreases |r|
  {
    if |r| == 1 {
      assert Index(r[0], '\n') == -1;
    } else {
      var s := Join(r);
      assert s == r[0] + "\n" + Join(r[1..]);
      assert s[..|r[0]|] == r[0];
      IndexUnique(s, '\n', |r[0]|);
      assert s[|r[0]| + 1..] == Join(r[1..]);
      SplitJoin(r[1..]);
      assert [r[0]] + r[1..] == r;
    }
  }

  /** Joining a first piece onto at least one more puts a newline between them. */
  lemma {:induction false} JoinCons(head: string, rest: seq<string>)
    requires |rest| >= 1
    ensures Join([head] + rest) == head + "\n" + Join(rest)
  {
    assert ([head] + rest)[1..] == rest;
  }

  /** Number of newline characters in `s`. */
  function CountNL(s: string): nat
    decreases |s|
  {
    if s == [] then 0 else CountNL(s[..|s| - 1]) + (if s[|s| - 1] == '\n' then 1 else 0)
  }

  lemma {:induction false} CountNLAppend(a: string, b: string)
    ensures CountNL(a + b) == CountNL(a) + CountNL(b)
    decreases |b|
  {
    if b != [] {
      var b' := b[..|b| - 1];
      assert (a + b)[..|a + b| - 1] == a + b';
      CountNLAppend(a, b');
    } else {
      assert a + b == a;
    }
  }

  /** Counting over a longer prefix never gives fewer newlines. */
  lemma {:induction false} CountNLPrefix(s: string, i: nat, j: nat)
    requires i <= j <= |s|
    ensures CountNL(s[..i]) <= CountNL(s[..j])
  {
    assert s[..j] == s[..i] + s[i..j];
    CountNLAppend(s[..i], s[i..j]);
  }

  /** Extending a prefix by one character adds one newline exactly when that character is one. */
  lemma {:induction false} CountNLStep(s: string, i: nat)
    requires i < |s|
    ensures CountNL(s[..i + 1]) == CountNL(s[..i]) + (if s[i] == '\n' then 1 else 0)
  {
    assert s[..i + 1][..i] == s[..i];
  }

  /** A line: one or more characters, the last a newline and no other. */
  predicate IsLine(l: string)
  {
    |l| > 0 && l[|l| - 1] == '\n' && LacksBefore(l, '\n', |l| - 1)
  }

  predicate AllLines(ls: seq<string>)
  {
    forall k :: 0 <= k < |ls| ==> IsLine(ls[k])
  }

  /** The text made of the given lines, in order. */
  function Concat(ls: seq<string>): string
    decreases |ls|
  {
    if ls == [] then [] else ls[0] + Concat(ls[1..])
  }

  lemma {:induction false} ConcatAppend(a: seq<string>, b: seq<string>)
    ensures Concat(a + b) == Concat(a) + Concat(b)
    decreases |a|
  {
    if a == [] {
      assert a + b == b;
    } else {
      assert (a + b)[1..] == a[1..] + b;
      ConcatAppend(a[1..], b);
    }
  }

  lemma {:induction false} AppendAssoc(x: string, y: string, z: string)
    ensures (x + y) + z == x + (y + z)
  {
  }

  lemma {:induction false} ConcatSplit(ls: seq<string>, i: nat)
    requires i <= |ls|
    ensures Concat(ls) == Concat(ls[..i]) + Concat(ls[i..])
  {
    assert ls == ls[..i] + ls[i..];
    ConcatAppend(ls[..i], ls[i..]);
  }

  lemma {:induction false} ConcatTake(ls: seq<string>, i: nat, j: nat)
    requires i <= j <= |ls|
    ensures Concat(ls[..j]) == Concat(ls[..i]) + Concat(ls[i..j])
  {
    ConcatSplit(ls[..j], i);
    assert ls[..j][..i] == ls[..i];
    assert ls[..j][i..] == ls[i..j];
  }

  lemma {:induction false} ConcatDrop(ls: seq<string>, i: nat, j: nat)
    requires i <= j <= |ls|
    ensures Concat(ls[i..]) == Concat(ls[i..j]) + Concat(ls[j..])
  {
    ConcatSplit(ls[i..], j - i);
    assert ls[i..][..j - i] == ls[i..j];
    assert ls[i..][j - i..] == ls[j..];
  }

  /** A text made of n lines holds exactly n newlines and, when n > 0, ends with one. */
  lemma {:induction false} ConcatLines(ls: seq<string>)
    requires AllLines(ls)
    ensures CountNL(Concat(ls)) == |ls|
    ensures |ls| > 0 ==> |Concat(ls)| > 0 && Concat(ls)[|Concat(ls)| - 1] == '\n'
    decreases |ls|
  {
    if ls != [] {
      var l := ls[0];
      ConcatLines(ls[1..]);
      CountNLAppend(l, Concat(ls[1..]));
      assert l == l[..|l| - 1] + [l[|l| - 1]];
      CountNLAppend(l[..|l| - 1], [l[|l| - 1]]);
      NoNewline(l[..|l| - 1]);
      assert CountNL([l[|l| - 1]]) == 1 by {
        assert [l[|l| - 1]][..0] == [];
      }
    }
  }

  /** Text without a newline character counts none. */
  lemma {:induction false} NoNewline(s: string)
    requires LacksBefore(s, '\n', |s|)
    ensures CountNL(s) == 0
    decreases |s|
  {
    if s != [] {
      NoNewline(s[..|s| - 1]);
    }
  }
}
