/**
 * The Python 2 string primitives the catalogue code relies on, over `seq<char>`:
 * `strip`, `split`/`join` on one separator character, `startswith`, `in` on
 * substrings, string ordering, `int()` on text and `str()` on integers.
 */
module Text {
  import opened Wrappers

  /** The characters Python 2's `str.strip()` removes. */
  predicate IsSpace(c: char) {
    c == ' ' || c == '\t' || c == '\n' || c == '\r' || c == '\U{000B}' || c == '\U{000C}'
  }

  predicate IsDigit(c: char) {
    '0' <= c <= '9'
  }

  /** `s.isdigit()`: non-empty and every character an ASCII digit. */
  predicate IsDigits(s: string) {
    |s| > 0 && forall i :: 0 <= i < |s| ==> IsDigit(s[i])
  }

  /** Python slicing `s[n:]`: never fails, empty past the end. */
  function Drop(s: string, n: nat): (r: string)
    ensures |r| == if n <= |s| then |s| - n else 0
  {
    if n <= |s| then s[n..] else []
  }

  /** Python slicing `s[:n]`: never fails, the whole string when it is shorter. */
  function Take(s: string, n: nat): (r: string)
    ensures |r| == if n <= |s| then n else |s|
  {
    if n <= |s| then s[..n] else s
  }

  predicate StartsWith(s: string, prefix: string) {
    |prefix| <= |s| && s[..|prefix|] == prefix
  }

  /** The length of the leading run of white space. */
  function LeadingSpaces(s: string): (n: nat)
    ensures n <= |s| && forall i :: 0 <= i < n ==> IsSpace(s[i])
    ensures n == |s| || !IsSpace(s[n])
  {
    if s != [] && IsSpace(s[0]) then 1 + LeadingSpaces(s[1..]) else 0
  }

  /** The length of the trailing run of white space. */
  function TrailingSpaces(s: string): (n: nat)
    ensures n <= |s| && forall i :: |s| - n <= i < |s| ==> IsSpace(s[i])
    ensures n == |s| || !IsSpace(s[|s| - n - 1])
  {
    if s != [] && IsSpace(s[|s| - 1]) then 1 + TrailingSpaces(s[..|s| - 1]) else 0
  }

  /** `s.lstrip()`: drops the leading run of white space and nothing else. */
  function LStrip(s: string): string {
    s[LeadingSpaces(s)..]
  }

  /** `s.rstrip()`: drops the trailing run of white space and nothing else. */
  function RStrip(s: string): string {
    s[..|s| - TrailingSpaces(s)]
  }

  /** `s.strip()`. */
  function Strip(s: string): (r: string)
    ensures |r| <= |s|
    ensures r == [] || (!IsSpace(r[0]) && !IsSpace(r[|r| - 1]))
  {
    RStrip(LStrip(s))
  }

  /** A string without white space at either end is its own strip. */
  lemma StripUnpadded(s: string)
    requires s == [] || (!IsSpace(s[0]) && !IsSpace(s[|s| - 1]))
    ensures Strip(s) == s
  {
  }

  /** Stripping twice strips no more than stripping once. */
  lemma StripIdempotent(s: string)
    ensures Strip(Strip(s)) == Strip(s)
  {
    StripUnpadded(Strip(s));
  }

  /** A string that starts with a non-space character keeps it as its first character. */
  lemma StripKeepsHead(s: string)
    requires s != [] && !IsSpace(s[0])
    ensures Strip(s) != [] && Strip(s)[0] == s[0]
  {
  }

  /** The position of the first `c` in `s`. */
  function FirstIndex(s: string, c: char): (i: nat)
    requires c in s
    ensures i < |s| && s[i] == c && c !in s[..i]
  {
    if s[0] == c then 0 else 1 + FirstIndex(s[1..], c)
  }

  /** Any position holding the first `c` is the one `FirstIndex` finds. */
  lemma {:induction false} FirstIndexAt(s: string, c: char, j: nat)
    requires j < |s| && s[j] == c && c !in s[..j]
    ensures FirstIndex(s, c) == j
  {
    if j > 0 {
      assert s[0] == s[..j][0];
      assert s[1..][..j - 1] == s[..j][1..];
      FirstIndexAt(s[1..], c, j - 1);
    }
  }

  /** `s.split(c)` for a one-character separator: always at least one part. */
  function Split(s: string, c: char): (parts: seq<string>)
    ensures |parts| >= 1
    ensures forall k :: 0 <= k < |parts| ==> c !in parts[k]
    decreases |s|
  {
    if c !in s then [s]
    else
      var i := FirstIndex(s, c);
      [s[..i]] + Split(s[i + 1..], c)
  }

  /** `c.join(parts)`. */
  function Join(parts: seq<string>, c: char): string
  {
    if |parts| == 0 then []
    else if |parts| == 1 then parts[0]
    else parts[0] + [c] + Join(parts[1..], c)
  }

  /** Joining the parts of a split gives back the original text. */
  lemma {:induction false} JoinSplit(s: string, c: char)
    ensures Join(Split(s, c), c) == s
    decreases |s|
  {
    if c in s {
      var i := FirstIndex(s, c);
      var rest := s[i + 1..];
      JoinSplit(rest, c);
      assert Split(s, c) == [s[..i]] + Split(rest, c);
      assert s == s[..i] + [c] + rest;
    }
  }

  /** A text ending in the separator splits into parts the last of which is empty. */
  lemma {:induction false} SplitTrailingSeparator(s: string, c: char)
    requires s != [] && s[|s| - 1] == c
    ensures Split(s, c)[|Split(s, c)| - 1] == []
    decreases |s|
  {
    assert c in s;
    var i := FirstIndex(s, c);
    var rest := s[i + 1..];
    var tail := Split(rest, c);
    var parts := Split(s, c);
    assert parts == [s[..i]] + tail;
    if rest == [] {
      assert c !in rest;
      assert tail == [rest];
    } else {
      assert rest[|rest| - 1] == c;
      SplitTrailingSeparator(rest, c);
    }
    assert parts[|parts| - 1] == tail[|tail| - 1];
  }


  /** Splitting a join of separator-free parts gives back the parts. */
  lemma {:induction false} SplitJoin(parts: seq<string>, c: char)
    requires |parts| >= 1
    requires forall k :: 0 <= k < |parts| ==> c !in parts[k]
    ensures Split(Join(parts, c), c) == parts
  {
    if |parts| > 1 {
      var s := Join(parts, c);
      var tail := Join(parts[1..], c);
      SplitJoin(parts[1..], c);
      assert s == parts[0] + [c] + tail;
      assert c in s by { assert s[|parts[0]|] == c; }
      assert s[..|parts[0]|] == parts[0];
      FirstIndexAt(s, c, |parts[0]|);
      var i := FirstIndex(s, c);
      assert s[..i] == parts[0];
      assert s[i + 1..] == tail;
    }
  }

  /** `t` occurs in `s` starting at index `i`. */
  ghost predicate OccursAt(s: string, t: string, i: int) {
    0 <= i && i + |t| <= |s| && s[i..i + |t|] == t
  }

  /** `t in s` for strings (also `s.find(t) != -1` and `s.index(t)` not raising). */
  function Contains(s: string, t: string): (b: bool)
    ensures b <==> exists i :: OccursAt(s, t, i)
    decreases |s|
  {
    if |t| > |s| then false
    else if s[..|t|] == t then (assert OccursAt(s, t, 0); true)
    else (OccursShift(s, t); Contains(s[1..], t))
  }

  /** An occurrence past the first position is an occurrence in the tail. */
  lemma OccursShift(s: string, t: string)
    requires |t| <= |s| && s[..|t|] != t
    ensures (exists i :: OccursAt(s, t, i)) <==> (exists i :: OccursAt(s[1..], t, i))
  {
    forall i | OccursAt(s, t, i) ensures i > 0 && OccursAt(s[1..], t, i - 1) {
      assert s[1..][i - 1..i - 1 + |t|] == s[i..i + |t|];
    }
    forall i | OccursAt(s[1..], t, i) ensures OccursAt(s, t, i + 1) {
      assert s[i + 1..i + 1 + |t|] == s[1..][i..i + |t|];
    }
  }

  /** Python's ordering of strings: lexicographic by character, a proper prefix first. */
  predicate Less(a: string, b: string)
  {
    if a == [] then b != []
    else if b == [] then false
    else a[0] < b[0] || (a[0] == b[0] && Less(a[1..], b[1..]))
  }

  function DigitValue(c: char): (d: nat)
    requires IsDigit(c)
    ensures d < 10
  {
    (c as int) - ('0' as int)
  }

  function DigitChar(d: nat): (c: char)
    requires d < 10
    ensures IsDigit(c) && DigitValue(c) == d
  {
    (('0' as int) + d) as char
  }

  /** The number a run of decimal digits denotes, most significant first. */
  function DigitsValue(s: string): nat
    requires forall i :: 0 <= i < |s| ==> IsDigit(s[i])
  {
    if s == [] then 0 else 10 * DigitsValue(s[..|s| - 1]) + DigitValue(s[|s| - 1])
  }

  /** `str(n)` for a natural number: decimal digits, no leading zero. */
  function ShowNat(n: nat): (s: string)
    ensures IsDigits(s)
    ensures |s| > 1 ==> s[0] != '0'
  {
    if n < 10 then [DigitChar(n)] else ShowNat(n / 10) + [DigitChar(n % 10)]
  }

  /** `str(i)`: a minus sign in front of negative numbers. */
  function ShowInt(i: int): string
  {
    if i < 0 then "-" + ShowNat(-i) else ShowNat(i)
  }

  /** Reading the digits `str` writes gives back the number. */
  lemma {:induction false} DigitsValueShowNat(n: nat)
    ensures DigitsValue(ShowNat(n)) == n
  {
    if n >= 10 {
      DigitsValueShowNat(n / 10);
      var s := ShowNat(n);
      assert s[..|s| - 1] == ShowNat(n / 10);
    }
  }

  /** A leading `-` or `+`. */
  predicate HasSign(t: string) {
    t != [] && (t[0] == '-' || t[0] == '+')
  }

  /** What must be the digits of a number: the text after its sign and the white
      space that may follow the sign. */
  function Magnitude(t: string): string {
    if HasSign(t) then LStrip(t[1..]) else t
  }

  /** Python 2 `int(s)` on text: white space around the number, an optional sign,
      white space again after the sign, then one or more ASCII digits; anything
      else raises ValueError (None). */
  function ParseInt(s: string): (r: Option<int>)
    ensures r.Some? ==> Strip(s) != []
    ensures r.Some? <==> IsDigits(Magnitude(Strip(s)))
    ensures r.Some? && Strip(s)[0] == '-' ==> r.value == -(DigitsValue(Magnitude(Strip(s))) as int)
    ensures r.Some? && Strip(s)[0] != '-' ==> r.value == DigitsValue(Magnitude(Strip(s)))
  {
    var t := Strip(s);
    var digits := Magnitude(t);
    if !IsDigits(digits) then None
    else if t[0] == '-' then Some(-(DigitsValue(digits) as int))
    else Some(DigitsValue(digits))
  }

  /** White space followed by text that does not open with white space: the
      leading run is exactly the white space. */
  lemma {:induction false} LeadingSpacesOf(w: string, rest: string)
    requires forall i :: 0 <= i < |w| ==> IsSpace(w[i])
    requires rest != [] && !IsSpace(rest[0])
    ensures LeadingSpaces(w + rest) == |w|
  {
    if w == [] {
      assert w + rest == rest;
    } else {
      assert (w + rest)[0] == w[0] && (w + rest)[1..] == w[1..] + rest;
      LeadingSpacesOf(w[1..], rest);
    }
  }

  /** A sign, white space and digits: the text is already stripped and the
      digits are its magnitude. */
  lemma {:induction false} SignedText(sign: char, w: string, digits: string)
    requires sign == '-' || sign == '+'
    requires forall i :: 0 <= i < |w| ==> IsSpace(w[i])
    requires IsDigits(digits)
    ensures Strip([sign] + w + digits) == [sign] + w + digits
    ensures Magnitude([sign] + w + digits) == digits
  {
    var s := [sign] + w + digits;
    assert s[|s| - 1] == digits[|digits| - 1];
    StripUnpadded(s);
    assert s[1..] == w + digits;
    LeadingSpacesOf(w, digits);
    assert (w + digits)[|w|..] == digits;
  }

  /** `int('- 5') == -5`: a sign, any white space, then digits read as the
      signed value of the digits. */
  lemma {:induction false} SignedWithSpaces(sign: char, w: string, digits: string)
    requires sign == '-' || sign == '+'
    requires forall i :: 0 <= i < |w| ==> IsSpace(w[i])
    requires IsDigits(digits)
    ensures ParseInt([sign] + w + digits) ==
      Some(if sign == '-' then -(DigitsValue(digits) as int) else DigitsValue(digits))
  {
    var s := [sign] + w + digits;
    SignedText(sign, w, digits);
    assert Strip(s)[0] == sign;
  }

  /** `int(c)` of one character: its digit value, and an error for anything else. */
  lemma ParseDigit(c: char)
    ensures ParseInt([c]) == if IsDigit(c) then Some(DigitValue(c)) else None
  {
    var s := [c];
    if IsSpace(c) {
      assert LeadingSpaces(s) == 1;
    } else {
      assert LeadingSpaces(s) == 0 && TrailingSpaces(s) == 0;
      assert Strip(s) == s;
      if IsDigit(c) {
        assert s[..0] == [];
        assert DigitsValue(s) == DigitValue(c);
      } else if c == '-' || c == '+' {
        assert !IsDigits(s[1..]);
      }
    }
  }

  /** Digits alone read as their value. */
  lemma ParseUnsigned(digits: string)
    requires IsDigits(digits)
    ensures ParseInt(digits) == Some(DigitsValue(digits))
  {
    StripUnpadded(digits);
    assert Magnitude(digits) == digits;
  }

  /** `int(str(i)) == i`. */
  lemma {:induction false} ParseShowInt(i: int)
    ensures ParseInt(ShowInt(i)) == Some(i)
  {
    var d := ShowNat(if i < 0 then -i else i);
    DigitsValueShowNat(if i < 0 then -i else i);
    if i < 0 {
      SignedWithSpaces('-', [], d);
      assert ShowInt(i) == ['-'] + [] + d;
    } else {
      ParseUnsigned(d);
      assert ShowInt(i) == d;
    }
  }



}
