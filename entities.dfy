/**
 * `unescape_entities`: every match of the pattern `&#?\w+;`, scanned left to
 * right without overlap, is replaced. A numeric reference becomes its character
 * when the number parses and names a character; `&amp;`, `&gt;` and `&lt;` are
 * re-escaped as `&amp;amp;`, `&amp;gt;` and `&amp;lt;`; any other name is looked
 * up in the HTML entity table (a parameter here); anything that fails is left
 * as it was.
 */
module Entities {
  import opened Wrappers
  import opened Text

  /** The HTML entity-name table: name to character. */
  type EntityTable = map<string, char>

  /** `\w` over ASCII: letters, digits and underscore. */
  predicate IsWordChar(c: char) {
    'a' <= c <= 'z' || 'A' <= c <= 'Z' || IsDigit(c) || c == '_'
  }

  /** The length of the leading run of word characters. */
  function WordRun(s: string): (n: nat)
    ensures n <= |s|
    ensures forall i :: 0 <= i < n ==> IsWordChar(s[i])
    ensures n == |s| || !IsWordChar(s[n])
  {
    if s != [] && IsWordChar(s[0]) then 1 + WordRun(s[1..]) else 0
  }

  /** The length of the match of `&#?\w+;` at the start of `s`, or 0 when the
      pattern does not match there. The optional `#` never needs backtracking:
      without it the word run would have to start at `#`, which is no word character. */
  function MatchLength(s: string): (n: nat)
    ensures n == 0 || (3 <= n <= |s| && s[0] == '&' && s[n - 1] == ';')
  {
    if s == [] || s[0] != '&' then 0
    else
      var k := if |s| > 1 && s[1] == '#' then 2 else 1;
      var w := WordRun(s[k..]);
      if w > 0 && k + w < |s| && s[k + w] == ';' then k + w + 1 else 0
  }

  predicate IsHexDigit(c: char) {
    IsDigit(c) || 'a' <= c <= 'f' || 'A' <= c <= 'F'
  }

  function HexDigitValue(c: char): (d: nat)
    requires IsHexDigit(c)
    ensures d < 16
  {
    if IsDigit(c) then DigitValue(c)
    else if 'a' <= c <= 'f' then (c as int) - ('a' as int) + 10
    else (c as int) - ('A' as int) + 10
  }

  function HexDigitsValue(s: string): nat
    requires forall i :: 0 <= i < |s| ==> IsHexDigit(s[i])
  {
    if s == [] then 0 else 16 * HexDigitsValue(s[..|s| - 1]) + HexDigitValue(s[|s| - 1])
  }

  predicate IsHexDigits(s: string) {
    |s| > 0 && forall i :: 0 <= i < |s| ==> IsHexDigit(s[i])
  }

  /** Python 2 `int(s, 16)` on a run of word characters: an optional `0x` or `0X`
      prefix, then at least one hexadecimal digit. */
  function ParseHex(s: string): (r: Option<nat>)
  {
    if |s| >= 2 && s[0] == '0' && (s[1] == 'x' || s[1] == 'X') then
      if IsHexDigits(s[2..]) then Some(HexDigitsValue(s[2..])) else None
    else if IsHexDigits(s) then Some(HexDigitsValue(s))
    else None
  }

  /** The code points `unichr` turns into a character this model can hold. */
  predicate IsCharCode(n: int) {
    0 <= n < 0xD800 || 0xE000 <= n < 0x11_0000
  }

  /** What `fixup` puts in place of one match `m`. */
  function Replacement(m: string, names: EntityTable): (r: string)
    requires |m| >= 3 && m[0] == '&' && m[|m| - 1] == ';'
    ensures |r| == 1 || r == m || r == "&amp;" + m[1..]
    ensures m[1] != '#' && m[1..|m| - 1] !in ["amp", "gt", "lt"] && m[1..|m| - 1] !in names ==> r == m
  {
    if m[1] == '#' then
      var code := if m[2] == 'x' then ParseHex(m[3..|m| - 1]) else ParseInt(m[2..|m| - 1]);
      if code.Some? && IsCharCode(code.value) then [code.value as char] else m
    else
      var name := m[1..|m| - 1];
      if name == "amp" then "&amp;amp;"
      else if name == "gt" then "&amp;gt;"
      else if name == "lt" then "&amp;lt;"
      else if name in names then [names[name]]
      else m
  }

  /** `unescape_entities(text)`. */
  function Unescape(t: string, names: EntityTable): (r: string)
    decreases |t|
  {
    if t == [] then []
    else
      var n := MatchLength(t);
      if n == 0 then [t[0]] + Unescape(t[1..], names)
      else Replacement(t[..n], names) + Unescape(t[n..], names)
  }

  /** Unescaping leaves nothing only of empty text: every match is replaced by
      at least one character. */
  lemma UnescapeEmpty(t: string, names: EntityTable)
    ensures Unescape(t, names) == [] <==> t == []
  {
    if t != [] {
      var n := MatchLength(t);
      if n > 0 {
        assert |Replacement(t[..n], names)| >= 1;
      }
    }
  }

  /** Text without an ampersand passes through unchanged. */
  lemma {:induction false} UnescapePlain(t: string, names: EntityTable)
    requires '&' !in t
    ensures Unescape(t, names) == t
  {
    if t != [] {
      assert MatchLength(t) == 0;
      UnescapePlain(t[1..], names);
      assert t == [t[0]] + t[1..];
    }
  }

  /** An ampersand-free prefix passes through and the rest is unescaped on its own. */
  lemma {:induction false} UnescapePlainPrefix(a: string, b: string, names: EntityTable)
    requires forall i :: 0 <= i < |a| ==> a[i] != '&'
    ensures Unescape(a + b, names) == a + Unescape(b, names)
  {
    if a == [] {
      assert a + b == b;
    } else {
      assert (a + b)[0] == a[0] && (a + b)[1..] == a[1..] + b;
      UnescapeNoMatch(a + b, names);
      UnescapePlainPrefix(a[1..], b, names);
      assert [a[0]] + (a[1..] + Unescape(b, names)) == a + Unescape(b, names);
    }
  }

  /** A first character other than `&` is copied and the rest is unescaped. */
  lemma UnescapeNoMatch(s: string, names: EntityTable)
    requires s != [] && s[0] != '&'
    ensures Unescape(s, names) == [s[0]] + Unescape(s[1..], names)
  {
  }

  /** A match and the text after it are unescaped separately. */
  lemma UnescapeAtMatch(t: string, names: EntityTable)
    requires MatchLength(t) > 0
    ensures Unescape(t, names) == Replacement(t[..MatchLength(t)], names) + Unescape(t[MatchLength(t)..], names)
  {
  }

  /** A run of word characters followed by a non-word character is the whole run. */
  lemma {:induction false} WordRunUpTo(w: string, rest: string)
    requires forall i :: 0 <= i < |w| ==> IsWordChar(w[i])
    requires rest != [] && !IsWordChar(rest[0])
    ensures WordRun(w + rest) == |w|
  {
    if w != [] {
      assert (w + rest)[0] == w[0] && (w + rest)[1..] == w[1..] + rest;
      WordRunUpTo(w[1..], rest);
    } else {
      assert w + rest == rest;
    }
  }

  /** `&name;` and `&#name;` match as a whole when the name is a run of word characters. */
  lemma ReferenceMatches(prefix: string, w: string)
    requires prefix == "&" || prefix == "&#"
    requires |w| > 0 && forall i :: 0 <= i < |w| ==> IsWordChar(w[i])
    ensures MatchLength(prefix + w + ";") == |prefix| + |w| + 1
  {
    var t := prefix + w + ";";
    assert t[0] == '&';
    assert |prefix| == 2 ==> t[1] == '#';
    assert |prefix| == 1 ==> t[1] == w[0];
    assert t[|prefix|..] == w + ";";
    WordRunUpTo(w, ";");
    assert t[|prefix| + |w|] == ';';
  }

  /** A text that is one whole match is replaced as a whole. */
  lemma UnescapeWhole(t: string, names: EntityTable)
    requires t != [] && MatchLength(t) == |t|
    ensures |t| >= 3 && Unescape(t, names) == Replacement(t, names)
  {
    assert t[..|t|] == t && t[|t|..] == [];
  }

  /** A decimal character reference `&#N;` written for any character gives that
      character back. */
  lemma DecimalReference(c: char, names: EntityTable)
    ensures Unescape("&#" + ShowNat(c as int) + ";", names) == [c]
  {
    var digits := ShowNat(c as int);
    var t := "&#" + digits + ";";
    ReferenceMatches("&#", digits);
    UnescapeWhole(t, names);
    assert t[2] == digits[0] && t[2] != 'x';
    assert t[2..|t| - 1] == digits;
    ParseShowInt(c as int);
    assert ParseInt(digits) == Some(c as int);
  }

  /** `&amp;`, `&gt;` and `&lt;` are re-escaped, not resolved. */
  lemma ReescapedNames(name: string, names: EntityTable)
    requires name == "amp" || name == "gt" || name == "lt"
    ensures Unescape("&" + name + ";", names) == "&amp;" + name + ";"
  {
    ReferenceMatches("&", name);
    UnescapeWhole("&" + name + ";", names);
    ReescapedReplacement(name, names);
  }

  /** The replacement `fixup` gives a re-escaped name. */
  lemma ReescapedReplacement(name: string, names: EntityTable)
    requires name == "amp" || name == "gt" || name == "lt"
    ensures Replacement("&" + name + ";", names) == "&amp;" + name + ";"
  {
    var t := "&" + name + ";";
    assert t[1] == name[0] && t[1] != '#';
    assert t[1..|t| - 1] == name;
  }

  /** The hexadecimal digit for a value below sixteen, lower case. */
  function HexChar(d: nat): (c: char)
    requires d < 16
    ensures IsHexDigit(c) && IsWordChar(c) && HexDigitValue(c) == d
  {
    if d < 10 then DigitChar(d) else (('a' as int) + d - 10) as char
  }

  /** `'%x' % n`: the hexadecimal digits of a natural number. */
  function ShowHex(n: nat): (s: string)
    ensures IsHexDigits(s)
    ensures forall i :: 0 <= i < |s| ==> IsWordChar(s[i])
  {
    if n < 16 then [HexChar(n)] else ShowHex(n / 16) + [HexChar(n % 16)]
  }

  /** Reading back the digits `ShowHex` writes gives the number. */
  lemma {:induction false} HexDigitsValueShowHex(n: nat)
    ensures HexDigitsValue(ShowHex(n)) == n
  {
    if n >= 16 {
      HexDigitsValueShowHex(n / 16);
      var s := ShowHex(n);
      assert s[..|s| - 1] == ShowHex(n / 16);
    }
  }

  /** `int(h, 16)` of the digits `ShowHex` writes, with or without a `0x`
      prefix, is the number. */
  lemma {:induction false} ParseShowHex(n: nat, prefix: string)
    requires prefix == "" || prefix == "0x"
    ensures ParseHex(prefix + ShowHex(n)) == Some(n)
  {
    var h := ShowHex(n);
    HexDigitsValueShowHex(n);
    if prefix == "" {
      assert prefix + h == h;
      assert |h| >= 2 ==> h[1] != 'x' && h[1] != 'X';
    } else {
      assert (prefix + h)[2..] == h;
    }
  }

  /** `&#x`, then a prefix and digits made of word characters, then `;`: one
      whole match, whose hexadecimal text is the prefix and the digits. */
  lemma HexText(prefix: string, h: string)
    requires forall i :: 0 <= i < |prefix| ==> IsWordChar(prefix[i])
    requires forall i :: 0 <= i < |h| ==> IsWordChar(h[i])
    ensures var t := "&#x" + prefix + h + ";";
      MatchLength(t) == |t| && t[1] == '#' && t[2] == 'x' && t[3..|t| - 1] == prefix + h
  {
    var body := prefix + h;
    var w := "x" + body;
    assert forall i :: 0 <= i < |w| ==> IsWordChar(w[i]) by {
      forall i | 0 <= i < |w| ensures IsWordChar(w[i]) {
        if i >= 1 {
          assert w[i] == body[i - 1];
          if i - 1 >= |prefix| {
            assert body[i - 1] == h[i - 1 - |prefix|];
          }
        }
      }
    }
    ReferenceMatches("&#", w);
    var t := "&#" + w + ";";
    assert t == "&#x" + prefix + h + ";";
    assert t[3..|t| - 1] == body;
  }

  /** A hexadecimal character reference `&#xH;` written for any character,
      with or without a `0x` after the `x`, gives that character back. */
  lemma HexReference(c: char, prefix: string, names: EntityTable)
    requires prefix == "" || prefix == "0x"
    ensures Unescape("&#x" + prefix + ShowHex(c as int) + ";", names) == [c]
  {
    var t := "&#x" + prefix + ShowHex(c as int) + ";";
    HexText(prefix, ShowHex(c as int));
    UnescapeWhole(t, names);
    ParseShowHex(c as int, prefix);
  }

  /** A reference naming a surrogate code point is left as it was. */
  lemma SurrogateReferenceKept(names: EntityTable)
    ensures Unescape("&#xD800;", names) == "&#xD800;"
  {
    var t := "&#xD800;";
    ReferenceMatches("&#", "xD800");
    assert "&#" + "xD800" + ";" == t;
    UnescapeWhole(t, names);
    assert t[1] == '#' && t[2] == 'x' && t[3..|t| - 1] == "D800";
    SurrogateCode();
    assert !IsCharCode(0xD800);
  }

  /** `int("D800", 16)` is the first high surrogate. */
  lemma SurrogateCode()
    ensures ParseHex("D800") == Some(0xD800)
  {
    var h := "D800";
    assert h[..3] == "D80" && "D80"[..2] == "D8" && "D8"[..1] == "D" && "D"[..0] == [];
    assert HexDigitsValue("D") == 13;
    assert HexDigitsValue("D8") == 13 * 16 + 8;
    assert HexDigitsValue("D80") == (13 * 16 + 8) * 16;
    assert IsHexDigits(h) && HexDigitsValue(h) == 0xD800;
    assert !(h[0] == '0');
  }

  /** `fixup` as written in iii.py and experiments/opacsucker.py: the name table
      module is never imported there, so a named reference other than the three
      re-escaped ones raises NameError (None) instead of being looked up. */
  function ReplacementAsWritten(m: string): (r: Option<string>)
    requires |m| >= 3 && m[0] == '&' && m[|m| - 1] == ';'
    ensures r.None? <==> m[1] != '#' && m[1..|m| - 1] !in ["amp", "gt", "lt"]
  {
    if m[1] == '#' then Some(Replacement(m, map[]))
    else
      var name := m[1..|m| - 1];
      if name == "amp" || name == "gt" || name == "lt" then Some(Replacement(m, map[]))
      else None
  }

  /** `unescape_entities` / `_unescape` as written in iii.py and experiments/opacsucker.py. */
  function UnescapeAsWritten(t: string): (r: Option<string>)
    ensures '&' !in t ==> r == Some(t)
    ensures r.Some? ==> (r.value == [] <==> t == [])
    decreases |t|
  {
    if t == [] then Some([])
    else
      var n := MatchLength(t);
      if n == 0 then
        assert [t[0]] + t[1..] == t;
        assert '&' !in t ==> '&' !in t[1..];
        match UnescapeAsWritten(t[1..])
        case None => None
        case Some(rest) => Some([t[0]] + rest)
      else
        match ReplacementAsWritten(t[..n])
        case None => None
        case Some(here) =>
          match UnescapeAsWritten(t[n..])
          case None => None
          case Some(rest) => Some(here + rest)
  }

  /** Wherever the written variant does not raise, it agrees with the corrected
      one, whatever entity table the corrected one is given. */
  lemma {:induction false} AsWrittenAgrees(t: string, names: EntityTable)
    requires UnescapeAsWritten(t).Some?
    ensures UnescapeAsWritten(t).value == Unescape(t, names)
    decreases |t|
  {
    if t != [] {
      var n := MatchLength(t);
      if n == 0 {
        AsWrittenAgrees(t[1..], names);
      } else {
        AsWrittenAgrees(t[n..], names);
      }
    }
  }

  /** The module docstring's own example: the written variant raises on
      `&raquo;`, the corrected one resolves it through the table. */
  lemma AsWrittenRaisesOnNamedEntity()
    ensures UnescapeAsWritten("&raquo;").None?
    ensures Unescape("&raquo;", map["raquo" := '»']) == "»"
  {
    ReferenceMatches("&", "raquo");
    assert "&" + "raquo" + ";" == "&raquo;";
    UnescapeWhole("&raquo;", map["raquo" := '»']);
    var t := "&raquo;";
    assert t[..7] == t && t[7..] == [] && t[1..6] == "raquo";
  }
}
