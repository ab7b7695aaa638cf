/**
 * Span parsing (gofmt.go, parseSpan): a diff summary names a range of lines
 * as "N" or "N,M". Integers are read with Go's strconv.Atoi, here over
 * unbounded integers: an optional sign followed by one or more ASCII digits.
 */
module Span {
  import opened Optional
  import opened Text

  predicate IsDigit(c: char)
  {
    '0' <= c <= '9'
  }

  predicate AllDigits(s: string)
  {
    forall i :: 0 <= i < |s| ==> IsDigit(s[i])
  }

  /** The value of a run of decimal digits, most significant first. */
  function DigitsValue(s: string): nat
    requires AllDigits(s)
    decreases |s|
  {
    if s == [] then 0 else DigitsValue(s[..|s| - 1]) * 10 + (s[|s| - 1] as int - '0' as int)
  }

  /** strconv.Atoi: an optional '+' or '-' and then at least one digit; anything else fails. */
  function Atoi(s: string): (r: Option<int>)
    ensures r.Some? ==> |s| > 0 && IsDigit(s[|s| - 1])
    ensures r.Some? ==> forall i :: 0 < i < |s| ==> IsDigit(s[i])
    ensures r.Some? ==> IsDigit(s[0]) || s[0] == '+' || s[0] == '-'
    ensures (|s| > 0 && (IsDigit(s[0]) || ((s[0] == '+' || s[0] == '-') && |s| > 1))
             && (forall i :: 0 < i < |s| ==> IsDigit(s[i]))) ==> r.Some?
  {
    var signed := s != [] && (s[0] == '+' || s[0] == '-');
    var digits := if signed then s[1..] else s;
    assert signed ==> forall i :: 0 <= i < |digits| ==> digits[i] == s[i + 1];
    if digits == [] || !AllDigits(digits) then None
    else
      var v: int := DigitsValue(digits);
      Some(if signed && s[0] == '-' then -v else v)
  }

  /** Decimal digits of a natural number, without leading zeros. */
  function NatToDecimal(n: nat): (s: string)
    ensures |s| >= 1 && AllDigits(s) && DigitsValue(s) == n
    ensures |s| > 1 ==> s[0] != '0'
    decreases n
  {
    var d := ['0' + (n % 10) as char];
    if n < 10 then d
    else
      var s := NatToDecimal(n / 10) + d;
      assert s[..|s| - 1] == NatToDecimal(n / 10);
      s
  }

  /** strconv.Itoa: the decimal text of an integer. */
  function Itoa(n: int): string
  {
    if n < 0 then "-" + NatToDecimal(-n) else NatToDecimal(n)
  }

  /** Atoi reads back exactly what Itoa writes. */
  lemma {:induction false} AtoiItoa(n: int)
    ensures Atoi(Itoa(n)) == Some(n)
  {
    if n < 0 {
      assert ("-" + NatToDecimal(-n))[1..] == NatToDecimal(-n);
    }
  }

  /** A leading '+' is accepted and changes nothing. */
  lemma {:induction false} AtoiPlus(n: nat)
    ensures Atoi("+" + NatToDecimal(n)) == Some(n)
  {
    assert ("+" + NatToDecimal(n))[1..] == NatToDecimal(n);
  }

  /** Leading zeros and signed zeros are read as the number they spell. */
  lemma {:induction false} AtoiExamples()
    ensures Atoi("007") == Some(7)
    ensures Atoi("+0") == Some(0)
    ensures Atoi("-0") == Some(0)
    ensures Atoi("-12") == Some(-12)
    ensures Atoi("") == None && Atoi("+") == None && Atoi("1x") == None
  {
    assert "007"[..2] == "00" && "00"[..1] == "0" && "0"[..0] == [];
    assert DigitsValue("0") == 0;
    assert DigitsValue("00") == 0;
    assert DigitsValue("007") == 7;
    assert "+0"[1..] == "0" && "-0"[1..] == "0";
    assert "-12"[1..] == "12" && "12"[..1] == "1";
    assert "+"[1..] == [];
  }

  /** Itoa never writes a comma, so its text is always one span half. */
  lemma {:induction false} ItoaNoComma(n: int)
    ensures LacksBefore(Itoa(n), ',', |Itoa(n)|)
  {
  }

  /**
   * parseSpan: "N" gives (N, N) and "N,M" gives (N, M), split at the first
   * comma; any half that Atoi refuses gives the sentinel (0, 0).
   */
  function ParseSpan(text: string): (r: (int, int))
    ensures LacksBefore(text, ',', |text|) && Atoi(text).Some? ==> r == (Atoi(text).value, Atoi(text).value)
    ensures LacksBefore(text, ',', |text|) && Atoi(text).None? ==> r == (0, 0)
    ensures text == [] ==> r == (0, 0)
  {
    var i := Index(text, ',');
    if i < 0 then
      match Atoi(text)
      case Some(n) => (n, n)
      case None => (0, 0)
    else
      match (Atoi(text[..i]), Atoi(text[i + 1..]))
      case (Some(start), Some(end)) => (start, end)
      case _ => (0, 0)
  }

  /** A single number N is the span (N, N). */
  lemma {:induction false} ParseSpanNumber(n: int)
    ensures ParseSpan(Itoa(n)) == (n, n)
  {
    ItoaNoComma(n);
    AtoiItoa(n);
  }

  /** "N,M" is the span (N, M) whatever the order of N and M. */
  lemma {:induction false} ParseSpanPair(start: int, end: int)
    ensures ParseSpan(Itoa(start) + "," + Itoa(end)) == (start, end)
  {
    var a, b := Itoa(start), Itoa(end);
    var text := a + "," + b;
    ItoaNoComma(start);
    assert text[..|a|] == a;
    IndexUnique(text, ',', |a|);
    assert text[|a| + 1..] == b;
    AtoiItoa(start);
    AtoiItoa(end);
  }

  /**
   * With a comma, an empty half, or a second comma in the right half, gives
   * the sentinel (0, 0).
   */
  lemma {:induction false} ParseSpanMalformed(left: string, right: string)
    requires LacksBefore(left, ',', |left|)
    requires left == [] || right == [] || ',' in right
    ensures ParseSpan(left + "," + right) == (0, 0)
  {
    var text := left + "," + right;
    assert text[..|left|] == left;
    IndexUnique(text, ',', |left|);
    assert text[|left| + 1..] == right;
  }

  /**
   * With a comma, the span is (N, M) when Atoi accepts both halves as N and
   * M, and the sentinel (0, 0) when it refuses either of them.
   */
  lemma {:induction false} ParseSpanHalves(left: string, right: string)
    requires LacksBefore(left, ',', |left|)
    ensures ParseSpan(left + "," + right) ==
      if Atoi(left).Some? && Atoi(right).Some? then (Atoi(left).value, Atoi(right).value) else (0, 0)
  {
    var text := left + "," + right;
    assert text[..|left|] == left;
    IndexUnique(text, ',', |left|);
    assert text[|left| + 1..] == right;
  }

  /** Spans as the diff prints them, and two that parse to the sentinel. */
  lemma {:induction false} ParseSpanExamples()
    ensures ParseSpan("5") == (5, 5)
    ensures ParseSpan("5,6") == (5, 6)
    ensures ParseSpan("0") == (0, 0)
    ensures ParseSpan("x1") == (0, 0)
  {
    assert Index("5", ',') == -1;
    IndexUnique("5,6", ',', 1);
    assert "5,6"[..1] == "5" && "5,6"[2..] == "6";
    assert Index("0", ',') == -1;
    assert Index("x1", ',') == -1;
  }
}
