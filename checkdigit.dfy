/**
 * The III record-number check digit: the digits after the record-type letter
 * are weighted 2, 3, 4, ... from the rightmost digit leftwards, summed, and the
 * sum taken modulo 11; a remainder of 10 is written `x`.
 */
module CheckDigit {
  import opened Wrappers
  import opened Text

  /** `int(i)` raised ValueError on a character that is not a digit. */
  datatype CheckError = NotADigit

  predicate AllDigits(s: string) {
    forall i :: 0 <= i < |s| ==> IsDigit(s[i])
  }

  /** The weighted sum with weight `m` on the last digit, `m + 1` on the one
      before it, and so on leftwards. */
  function WeightedSum(d: string, m: nat): nat
    requires AllDigits(d)
  {
    if d == [] then 0 else DigitValue(d[|d| - 1]) * m + WeightedSum(d[..|d| - 1], m + 1)
  }

  /** The character the check digit is written as. */
  function CheckChar(total: nat): (c: char)
    ensures c == 'x' <==> total % 11 == 10
    ensures c != 'x' ==> IsDigit(c) && DigitValue(c) == total % 11
  {
    if total % 11 == 10 then 'x' else DigitChar(total % 11)
  }

  /** What `check_digit` gives for a record number: nothing without one, an
      error when a character after the first is not a digit. */
  function CheckDigitOf(bibnumber: Option<string>): (r: Result<Option<char>, CheckError>)
    ensures r == Ok(None) <==> bibnumber.None? || bibnumber.value == []
    ensures r.Err? <==> bibnumber.Some? && bibnumber.value != [] && !AllDigits(bibnumber.value[1..])
    ensures r.Ok? && r.value.Some? ==> r.value.value == 'x' || IsDigit(r.value.value)
  {
    match bibnumber
    case None => Ok(None)
    case Some(b) =>
      if b == [] then Ok(None)
      else if AllDigits(b[1..]) then Ok(Some(CheckChar(WeightedSum(b[1..], 2))))
      else Err(NotADigit)
  }

  /** `Record.check_digit`: the digits are read from the right, the weight
      starting at 2 and growing by one per digit. */
  method ComputeCheckDigit(bibnumber: Option<string>) returns (r: Result<Option<char>, CheckError>)
    ensures r == CheckDigitOf(bibnumber)
  {
    if bibnumber.None? || bibnumber.value == [] {
      return Ok(None);
    }
    var digits := bibnumber.value[1..];
    var n := |digits|;
    var total := 0;
    var multiplier := 2;
    var k := 0;
    while k < n
      invariant 0 <= k <= n
      invariant multiplier == k + 2
      invariant AllDigits(digits[n - k..])
      invariant total == WeightedSum(digits[n - k..], 2)
    {
      var c := digits[n - 1 - k];
      if !IsDigit(c) {
        assert !AllDigits(digits);
        return Err(NotADigit);
      }
      WeightedSumCons(c, digits[n - k..], 2);
      assert digits[n - 1 - k..] == [c] + digits[n - k..];
      total := total + DigitValue(c) * multiplier;
      multiplier := multiplier + 1;
      k := k + 1;
    }
    assert digits[0..] == digits;
    assert CheckDigitOf(bibnumber) == Ok(Some(CheckChar(WeightedSum(digits, 2))));
    return Ok(Some(CheckChar(total)));
  }

  /** Putting a digit in front adds it with the next weight up. */
  lemma {:induction false} WeightedSumCons(c: char, s: string, m: nat)
    requires IsDigit(c) && AllDigits(s)
    ensures AllDigits([c] + s)
    ensures WeightedSum([c] + s, m) == WeightedSum(s, m) + DigitValue(c) * (m + |s|)
    decreases |s|
  {
    var cs := [c] + s;
    if s != [] {
      var init := s[..|s| - 1];
      assert cs[..|cs| - 1] == [c] + init;
      WeightedSumCons(c, init, m + 1);
    }
  }

  /** The weighted sum of a concatenation: the right part keeps its weights, the
      left part's weights are shifted up by the right part's length. */
  lemma {:induction false} WeightedSumAppend(x: string, y: string, m: nat)
    requires AllDigits(x) && AllDigits(y)
    ensures AllDigits(x + y)
    ensures WeightedSum(x + y, m) == WeightedSum(x, m + |y|) + WeightedSum(y, m)
    decreases |y|
  {
    if y != [] {
      var init := y[..|y| - 1];
      assert (x + y)[..|x + y| - 1] == x + init;
      WeightedSumAppend(x, init, m + 1);
    } else {
      assert x + y == x;
    }
  }

  /** The closed form, read left to right: the digit at position `p` of `d`
      carries weight `m + |d| - 1 - p`. */
  function LeftToRight(d: string, m: nat): int
    requires AllDigits(d)
  {
    if d == [] then 0 else DigitValue(d[0]) * (m + |d| - 1) + LeftToRight(d[1..], m)
  }

  lemma {:induction false} WeightedSumClosedForm(d: string, m: nat)
    requires AllDigits(d)
    ensures WeightedSum(d, m) == LeftToRight(d, m)
    decreases |d|
  {
    if d != [] {
      WeightedSumClosedForm(d[1..], m);
      assert d == [d[0]] + d[1..];
      WeightedSumCons(d[0], d[1..], m);
    }
  }

  /** The result is always one of the characters 0 to 9 or x, and follows the
      weighted sum of the digits after the first character. */
  lemma CheckDigitRange(bibnumber: Option<string>)
    ensures CheckDigitOf(bibnumber).Ok? && CheckDigitOf(bibnumber).value.Some? ==>
      CheckDigitOf(bibnumber).value.value in "0123456789x"
    ensures CheckDigitOf(bibnumber) == Ok(None) <==> bibnumber.None? || bibnumber.value == []
    ensures CheckDigitOf(bibnumber).Err? <==>
      bibnumber.Some? && bibnumber.value != [] && !AllDigits(bibnumber.value[1..])
  {
    if CheckDigitOf(bibnumber).Ok? && CheckDigitOf(bibnumber).value.Some? {
      var c := CheckDigitOf(bibnumber).value.value;
      if c != 'x' {
        var v := DigitValue(c);
        assert c == "0123456789x"[v];
      }
    }
  }

  /** Two adjacent digits swapped change their weighted sum by the difference
      of the two digits. */
  lemma SwapPair(a: char, b: char, m: nat)
    requires IsDigit(a) && IsDigit(b)
    ensures AllDigits([a, b]) && AllDigits([b, a])
    ensures WeightedSum([a, b], m) == WeightedSum([b, a], m) + DigitValue(a) - DigitValue(b)
  {
    assert [a, b][..1] == [a] && [b, a][..1] == [b];
    assert [a][..0] == [] && [b][..0] == [];
    assert WeightedSum([a], m + 1) == DigitValue(a) * (m + 1);
    assert WeightedSum([b], m + 1) == DigitValue(b) * (m + 1);
    assert WeightedSum([a, b], m) == DigitValue(b) * m + DigitValue(a) * (m + 1);
    assert WeightedSum([b, a], m) == DigitValue(a) * m + DigitValue(b) * (m + 1);
  }

  /** Shifting a number by 1 to 10 in either direction changes its remainder
      modulo 11. */
  lemma ShiftChangesRemainder(t: int, d: int)
    requires t >= 0 && t + d >= 0 && d != 0 && -11 < d < 11
    ensures (t + d) % 11 != t % 11
  {
    var q1, q2 := (t + d) / 11, t / 11;
    assert t + d == 11 * q1 + (t + d) % 11;
    assert t == 11 * q2 + t % 11;
  }

  /** Swapping two adjacent, different digits always changes the check digit. */
  lemma TranspositionDetected(first: char, x: string, a: char, b: char, z: string)
    requires AllDigits(x) && AllDigits(z) && IsDigit(a) && IsDigit(b) && a != b
    ensures CheckDigitOf(Some([first] + x + [a, b] + z)) != CheckDigitOf(Some([first] + x + [b, a] + z))
  {
    var ab := x + [a, b] + z;
    var ba := x + [b, a] + z;
    assert ([first] + x + [a, b] + z)[1..] == ab;
    assert ([first] + x + [b, a] + z)[1..] == ba;
    SwapPair(a, b, 2 + |z|);
    WeightedSumAppend(x, [a, b], 2 + |z|);
    WeightedSumAppend(x, [b, a], 2 + |z|);
    WeightedSumAppend(x + [a, b], z, 2);
    WeightedSumAppend(x + [b, a], z, 2);
    var d := DigitValue(a) - DigitValue(b);
    assert WeightedSum(ab, 2) == WeightedSum(ba, 2) + d;
    ShiftChangesRemainder(WeightedSum(ba, 2), d);
  }
}
