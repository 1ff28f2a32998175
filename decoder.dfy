/**
 * `Reader.decode_record`: the WebPac "MARC display" text of one record turned
 * into a MARC record. The first line must begin with `LEADER`; every further
 * line either opens a field (a three-character tag, two indicator characters
 * at columns 3 and 4, the field text from column 6) or, when its tag begins
 * with a space, continues the field opened last. Field text is unescaped line
 * by line; a tag that is numeric and below `010` gives a control field, any
 * other tag a data field whose text, prefixed with the implicit subfield code
 * `a`, is split into subfields on `|`. The leader is then classified.
 */
module Decoder {
  import opened Wrappers
  import opened Text
  import opened Marc
  import opened Leader
  import opened Entities

  /** One entry of the intermediate `raw_fields` list. */
  datatype Token = Token(tag: string, indicator1: char, indicator2: char, value: string, raw: string)

  /** Why decoding stopped. Line numbers count the lines after the leader line, from 0. */
  datatype DecodeError =
    | OrphanContinuation(line: nat)  // IndexError: `raw_fields[-1]` with no field opened yet
    | ShortLine(line: nat)           // IndexError: a field line too short to hold both indicators
    | BadLeader(error: LeaderError)  // raised by `parse_leader`
    | UndefinedName(line: nat)       // NameError: iii.py's unescaper met a named entity

  /** The decoded record: its leader text, its fields in order and the leader's material type. */
  datatype MarcRecord = MarcRecord(leader: string, fields: seq<Field>, kind: MaterialType)

  datatype Decoded =
    | NotARecord          // `None`: the first line does not start with `LEADER`
    | Failed(error: DecodeError)
    | Parsed(record: MarcRecord)

  /** A line whose tag begins with a space carries more text for the previous field. */
  predicate IsContinuation(line: string) {
    |line| > 0 && line[0] == ' '
  }

  /** The unescaped text of a line, from column 6. */
  function Body(line: string, names: EntityTable): string {
    Unescape(Drop(line, 6), names)
  }

  /** The token a field line opens. */
  function StartToken(line: string, names: EntityTable): (t: Token)
    requires |line| >= 5
    ensures t.tag == line[..3] && t.indicator1 == line[3] && t.indicator2 == line[4]
    ensures t.value == (if IsControlTag(line[..3]) then [] else "a") + Body(line, names)
  {
    var tag := line[..3];
    var data := Body(line, names);
    Token(tag, line[3], line[4], if IsControlTag(tag) then data else "a" + data, Strip(line))
  }

  /** A continuation line appends its text to the value and its stripped self to the raw text. */
  function Extend(t: Token, line: string, names: EntityTable): (t': Token)
    ensures t'.tag == t.tag && t'.indicator1 == t.indicator1 && t'.indicator2 == t.indicator2
    ensures t'.value == t.value + Body(line, names) && t'.raw == t.raw + Strip(line)
  {
    t.(value := t.value + Body(line, names), raw := t.raw + Strip(line))
  }

  /** The effect of line `i` on the tokens read so far. */
  function AddLine(toks: seq<Token>, line: string, i: nat, names: EntityTable): (r: Result<seq<Token>, DecodeError>)
    ensures r.Ok? ==> |r.value| == |toks| + (if IsContinuation(line) then 0 else 1)
    ensures r.Ok? ==> |r.value| >= 1 && r.value[..|r.value| - 1] == toks[..|r.value| - 1]
  {
    if IsContinuation(line) then
      if toks == [] then Err(OrphanContinuation(i))
      else Ok(toks[..|toks| - 1] + [Extend(toks[|toks| - 1], line, names)])
    else if |line| < 5 then Err(ShortLine(i))
    else Ok(toks + [StartToken(line, names)])
  }

  /** The first loop of `decode_record`: the body lines folded left to right into tokens. */
  function Tokenize(lines: seq<string>, names: EntityTable): (r: Result<seq<Token>, DecodeError>)
    ensures r.Ok? ==> |r.value| <= |lines|
    ensures r.Err? ==> r.error.OrphanContinuation? || r.error.ShortLine?
  {
    if lines == [] then Ok([])
    else
      match Tokenize(lines[..|lines| - 1], names)
      case Err(e) => Err(e)
      case Ok(toks) => AddLine(toks, lines[|lines| - 1], |lines| - 1, names)
  }

  /** One segment of a data field's text: its stripped first character is the
      code, the stripped rest the value. */
  function SubfieldOf(segment: string): (s: Subfield)
    requires segment != []
    ensures |s.code| <= 1
  {
    Subfield(Strip(segment[..1]), Strip(segment[1..]))
  }

  /** The subfields of the `|`-separated segments, empty segments skipped. */
  function KeepSubfields(segments: seq<string>): (subs: seq<Subfield>)
    ensures |subs| <= |segments|
  {
    if segments == [] then []
    else
      var last := segments[|segments| - 1];
      KeepSubfields(segments[..|segments| - 1]) + (if last == [] then [] else [SubfieldOf(last)])
  }

  /** The field a token becomes. */
  function MakeField(t: Token): (f: Field)
    ensures WellFormed(f) && f.tag == t.tag
    ensures f.ControlField? ==> f.data == Strip(t.value)
    ensures f.DataField? ==> f.indicator1 == t.indicator1 && f.indicator2 == t.indicator2
  {
    var data := Strip(t.value);
    if IsControlTag(t.tag) then ControlField(t.tag, data)
    else DataField(t.tag, t.indicator1, t.indicator2, KeepSubfields(Split(data, '|')))
  }

  function MakeFields(toks: seq<Token>): (fs: seq<Field>)
    ensures |fs| == |toks| && forall k :: 0 <= k < |toks| ==> fs[k] == MakeField(toks[k])
  {
    if toks == [] then [] else MakeFields(toks[..|toks| - 1]) + [MakeField(toks[|toks| - 1])]
  }

  /** The lines of the record text: stripped as a whole, then split at line breaks. */
  function Lines(text: string): (lines: seq<string>)
    ensures |lines| >= 1
  {
    Split(Strip(text), '\n')
  }

  predicate IsLeaderLine(line: string) {
    Take(line, 6) == "LEADER"
  }

  /** `decode_record(text)`. */
  function Decode(text: string, names: EntityTable): (r: Decoded)
    ensures r == NotARecord <==> !IsLeaderLine(Lines(text)[0])
    ensures r.Parsed? ==> r.record.leader == Strip(Drop(Lines(text)[0], 7))
    ensures r.Parsed? ==> Type(r.record.leader) == Ok(r.record.kind)
    ensures r.Parsed? ==> forall k :: 0 <= k < |r.record.fields| ==> WellFormed(r.record.fields[k])
  {
    var lines := Lines(text);
    if !IsLeaderLine(lines[0]) then NotARecord
    else
      var leader := Strip(Drop(lines[0], 7));
      match Tokenize(lines[1..], names)
      case Err(e) => Failed(e)
      case Ok(toks) =>
        match Type(leader)
        case Err(e) => Failed(BadLeader(e))
        case Ok(kind) => Parsed(MarcRecord(leader, MakeFields(toks), kind))
  }

  // ---------------------------------------------------------------------------
  // The imperative decoder, proved against `Decode`.
  // ---------------------------------------------------------------------------

  /** The second loop's body: one token made into a field, subfield by subfield. */
  method BuildField(raw: Token) returns (f: Field)
    ensures f == MakeField(raw)
  {
    var data := Strip(raw.value);
    if IsControlTag(raw.tag) {
      f := ControlField(raw.tag, data);
    } else {
      var subs := BuildSubfields(data);
      f := DataField(raw.tag, raw.indicator1, raw.indicator2, subs);
    }
  }

  /** The inner loop: one subfield per non-empty `|`-separated segment. */
  method BuildSubfields(data: string) returns (subs: seq<Subfield>)
    ensures subs == KeepSubfields(Split(data, '|'))
  {
    var segments := Split(data, '|');
    subs := [];
    for k := 0 to |segments|
      invariant subs == KeepSubfields(segments[..k])
    {
      var segment := segments[k];
      assert segments[..k + 1][..k] == segments[..k];
      if segment != [] {
        subs := subs + [SubfieldOf(segment)];
      }
    }
    TakeAll(segments);
  }

  /** The first loop of `decode_record`: the token list is grown line by line
      and, for a continuation line, its last entry rewritten. */
  method ReadTokens(body: seq<string>, names: EntityTable) returns (r: Result<seq<Token>, DecodeError>)
    ensures r == Tokenize(body, names)
  {
    var rawFields: seq<Token> := [];
    var i := 0;
    while i < |body|
      invariant 0 <= i <= |body|
      invariant Tokenize(body[..i], names) == Ok(rawFields)
    {
      var line := body[i];
      AddLineCases(rawFields, line, i, names);
      if IsContinuation(line) {
        if rawFields == [] {
          TokenizeStopsAt(body, i, rawFields, names);
          return Err(OrphanContinuation(i));
        }
        TokenizeStep(body, i, names);
        rawFields := rawFields[..|rawFields| - 1] + [Extend(rawFields[|rawFields| - 1], line, names)];
      } else {
        if |line| < 5 {
          TokenizeStopsAt(body, i, rawFields, names);
          return Err(ShortLine(i));
        }
        TokenizeStep(body, i, names);
        rawFields := rawFields + [StartToken(line, names)];
      }
      i := i + 1;
    }
    TakeAll(body);
    r := Ok(rawFields);
  }

  /** The second loop of `decode_record`: every token built into a field. */
  method BuildFields(rawFields: seq<Token>) returns (fields: seq<Field>)
    ensures fields == MakeFields(rawFields)
  {
    fields := [];
    for j := 0 to |rawFields|
      invariant fields == MakeFields(rawFields[..j])
    {
      var field := BuildField(rawFields[j]);
      MakeFieldsStep(rawFields, j);
      fields := fields + [field];
    }
    TakeAll(rawFields);
  }

  /** `decode_record` as the source runs it. */
  method DecodeRecord(text: string, names: EntityTable) returns (r: Decoded)
    ensures r == Decode(text, names)
  {
    var pseudoMarc := Lines(text);
    if !IsLeaderLine(pseudoMarc[0]) {
      return NotARecord;
    }
    var leader := Strip(Drop(pseudoMarc[0], 7));
    var tokens := ReadTokens(pseudoMarc[1..], names);
    if tokens.Err? {
      return Failed(tokens.error);
    }
    var fields := BuildFields(tokens.value);
    match Type(leader)
    case Err(e) => r := Failed(BadLeader(e));
    case Ok(kind) => r := Parsed(MarcRecord(leader, fields, kind));
  }

  lemma TakeAll<T>(s: seq<T>)
    ensures s[..|s|] == s
  {
  }

  /** One more line read: the fold takes one step. */
  lemma TokenizeStep(lines: seq<string>, i: nat, names: EntityTable)
    requires i < |lines|
    ensures Tokenize(lines[..i + 1], names) ==
      if Tokenize(lines[..i], names).Err? then Tokenize(lines[..i], names)
      else AddLine(Tokenize(lines[..i], names).value, lines[i], i, names)
  {
    assert lines[..i + 1][..i] == lines[..i];
  }

  lemma MakeFieldsStep(toks: seq<Token>, j: nat)
    requires j < |toks|
    ensures MakeFields(toks[..j + 1]) == MakeFields(toks[..j]) + [MakeField(toks[j])]
  {
    assert toks[..j + 1][..j] == toks[..j];
  }

  /** The four cases of one line's effect. */
  lemma AddLineCases(toks: seq<Token>, line: string, i: nat, names: EntityTable)
    ensures IsContinuation(line) && toks == [] ==> AddLine(toks, line, i, names) == Err(OrphanContinuation(i))
    ensures IsContinuation(line) && toks != [] ==>
      AddLine(toks, line, i, names) == Ok(toks[..|toks| - 1] + [Extend(toks[|toks| - 1], line, names)])
    ensures !IsContinuation(line) && |line| < 5 ==> AddLine(toks, line, i, names) == Err(ShortLine(i))
    ensures !IsContinuation(line) && |line| >= 5 ==> AddLine(toks, line, i, names) == Ok(toks + [StartToken(line, names)])
  {
  }

  /** A line that fails after a successful prefix is the error of the whole. */
  lemma TokenizeStopsAt(lines: seq<string>, i: nat, toks: seq<Token>, names: EntityTable)
    requires i < |lines| && Tokenize(lines[..i], names) == Ok(toks)
    requires AddLine(toks, lines[i], i, names).Err?
    ensures Tokenize(lines, names) == AddLine(toks, lines[i], i, names)
  {
    TokenizeStep(lines, i, names);
    TokenizeErrPersists(lines, i + 1, names);
  }

  /** Once a prefix of the lines fails, the whole fails with the same error. */
  lemma {:induction false} TokenizeErrPersists(lines: seq<string>, n: nat, names: EntityTable)
    requires n <= |lines| && Tokenize(lines[..n], names).Err?
    ensures Tokenize(lines, names) == Tokenize(lines[..n], names)
    decreases |lines| - n
  {
    if n < |lines| {
      assert lines[..n + 1][..n] == lines[..n];
      TokenizeErrPersists(lines, n + 1, names);
    } else {
      assert lines[..n] == lines;
    }
  }

  // ---------------------------------------------------------------------------
  // What the tokens are, stated line by line.
  // ---------------------------------------------------------------------------

  /** Every line that opens a field is long enough to hold its indicators. */
  predicate StartsLongEnough(lines: seq<string>) {
    forall i :: 0 <= i < |lines| && !IsContinuation(lines[i]) ==> |lines[i]| >= 5
  }

  /** Decoding the body succeeds exactly when the first line opens a field and
      every line that opens a field holds both indicators. */
  lemma {:induction false} TokenizeOutcome(lines: seq<string>, names: EntityTable)
    ensures Tokenize(lines, names).Ok? <==>
      (lines == [] || !IsContinuation(lines[0])) && StartsLongEnough(lines)
    ensures Tokenize(lines, names).Ok? && lines != [] ==> |Tokenize(lines, names).value| >= 1
  {
    if lines != [] {
      var n := |lines| - 1;
      var init := lines[..n];
      var l := lines[n];
      var r := Tokenize(init, names);
      assert Tokenize(lines, names) == if r.Err? then r else AddLine(r.value, l, n, names);
      TokenizeOutcome(init, names);
      assert StartsLongEnough(lines) <==> StartsLongEnough(init) && (IsContinuation(l) || |l| >= 5) by {
        assert forall k :: 0 <= k < n ==> lines[k] == init[k];
      }
      if n > 0 {
        assert lines[0] == init[0];
      }
    }
  }

  /** Which error decoding the body fails with: only a first line can continue
      nothing, and a short field line fails at the first such line. */
  lemma {:induction false} TokenizeErrors(lines: seq<string>, names: EntityTable)
    ensures Tokenize(lines, names).Err? && Tokenize(lines, names).error.OrphanContinuation? ==>
      Tokenize(lines, names).error.line == 0 && IsContinuation(lines[0])
    ensures Tokenize(lines, names).Err? && Tokenize(lines, names).error.ShortLine? ==>
      var i := Tokenize(lines, names).error.line;
      i < |lines| && !IsContinuation(lines[i]) && |lines[i]| < 5 &&
      StartsLongEnough(lines[..i]) && (i == 0 || !IsContinuation(lines[0]))
  {
    if lines != [] {
      var n := |lines| - 1;
      var init := lines[..n];
      var r := Tokenize(init, names);
      assert Tokenize(lines, names) == if r.Err? then r else AddLine(r.value, lines[n], n, names);
      TokenizeErrors(init, names);
      if r.Err? {
        if r.error.ShortLine? {
          assert init[..r.error.line] == lines[..r.error.line];
          assert lines[r.error.line] == init[r.error.line];
        } else {
          assert lines[0] == init[0];
        }
      } else {
        TokenizeOutcome(init, names);
        if n > 0 {
          assert lines[0] == init[0];
        }
      }
    }
  }


  /** The tag and indicators of each token. */
  function Heads(toks: seq<Token>): seq<(string, char, char)>
  {
    if toks == [] then []
    else
      var t := toks[|toks| - 1];
      Heads(toks[..|toks| - 1]) + [(t.tag, t.indicator1, t.indicator2)]
  }

  /** The tag and indicators of each line that opens a field, in order. */
  function StartHeads(lines: seq<string>): (heads: seq<(string, char, char)>)
    requires StartsLongEnough(lines)
    ensures |heads| == CountStarts(lines)
  {
    if lines == [] then []
    else
      var l := lines[|lines| - 1];
      StartHeads(lines[..|lines| - 1]) + (if IsContinuation(l) then [] else [(l[..3], l[3], l[4])])
  }

  /** Everything the lines contribute to field text: the unescaped body of each
      line, behind an `a` for a line that opens a data field. */
  function Contributions(lines: seq<string>, names: EntityTable): string
  {
    if lines == [] then []
    else
      var l := lines[|lines| - 1];
      var prefix := if IsContinuation(l) || IsControlTag(Take(l, 3)) then [] else "a";
      Contributions(lines[..|lines| - 1], names) + prefix + Body(l, names)
  }

  /** The token values one after another. */
  function Values(toks: seq<Token>): string
  {
    if toks == [] then [] else Values(toks[..|toks| - 1]) + toks[|toks| - 1].value
  }

  /** The stripped lines one after another. */
  function StrippedLines(lines: seq<string>): string
  {
    if lines == [] then [] else StrippedLines(lines[..|lines| - 1]) + Strip(lines[|lines| - 1])
  }

  /** The token raw texts one after another. */
  function Raws(toks: seq<Token>): string
  {
    if toks == [] then [] else Raws(toks[..|toks| - 1]) + toks[|toks| - 1].raw
  }

  lemma AppendAssoc(a: string, b: string, c: string)
    ensures a + b + c == a + (b + c)
  {
  }

  lemma ValuesSnoc(toks: seq<Token>, t: Token)
    ensures Values(toks + [t]) == Values(toks) + t.value
    ensures Raws(toks + [t]) == Raws(toks) + t.raw
    ensures Heads(toks + [t]) == Heads(toks) + [(t.tag, t.indicator1, t.indicator2)]
  {
    assert (toks + [t])[..|toks|] == toks;
  }

  /** One line read: what it adds to the text, the raw text and the heads of the tokens. */
  lemma AddLineEffect(toks: seq<Token>, l: string, i: nat, names: EntityTable)
    requires AddLine(toks, l, i, names).Ok?
    ensures var toks' := AddLine(toks, l, i, names).value;
      Values(toks') == Values(toks) + (if IsContinuation(l) || IsControlTag(Take(l, 3)) then [] else "a") + Body(l, names) &&
      Raws(toks') == Raws(toks) + Strip(l) &&
      Heads(toks') == Heads(toks) + (if IsContinuation(l) then [] else [(l[..3], l[3], l[4])])
  {
    if IsContinuation(l) {
      ContinuationEffect(toks, l, names);
    } else {
      StartEffect(toks, l, names);
    }
  }

  /** A continuation line extends the last token's text and raw text. */
  lemma ContinuationEffect(toks: seq<Token>, l: string, names: EntityTable)
    requires toks != []
    ensures var toks' := toks[..|toks| - 1] + [Extend(toks[|toks| - 1], l, names)];
      Values(toks') == Values(toks) + Body(l, names) &&
      Raws(toks') == Raws(toks) + Strip(l) &&
      Heads(toks') == Heads(toks)
  {
    var n := |toks|;
    var init := toks[..n - 1];
    var last := toks[n - 1];
    assert toks == init + [last];
    ValuesSnoc(init, last);
    ValuesSnoc(init, Extend(last, l, names));
    AppendAssoc(Values(init), last.value, Body(l, names));
    AppendAssoc(Raws(init), last.raw, Strip(l));
  }

  /** A line that opens a field appends one token. */
  lemma StartEffect(toks: seq<Token>, l: string, names: EntityTable)
    requires |l| >= 5
    ensures var toks' := toks + [StartToken(l, names)];
      Values(toks') == Values(toks) + (if IsControlTag(Take(l, 3)) then [] else "a") + Body(l, names) &&
      Raws(toks') == Raws(toks) + Strip(l) &&
      Heads(toks') == Heads(toks) + [(l[..3], l[3], l[4])]
  {
    assert Take(l, 3) == l[..3];
    var t := StartToken(l, names);
    ValuesSnoc(toks, t);
    var prefix: string := if IsControlTag(l[..3]) then [] else "a";
    assert t.value == prefix + Body(l, names);
    AppendAssoc(Values(toks), prefix, Body(l, names));
  }

  /** A decoded body has one token per line that opens a field, in line order,
      carrying that line's tag and indicators; continuation lines add text and
      no token. The text of all tokens together is exactly what the lines
      contribute, so a continuation adds its unescaped text from column 6 and
      nothing else, and the raw texts are the stripped lines. */
  lemma {:induction false} TokensFollowLines(lines: seq<string>, names: EntityTable)
    requires Tokenize(lines, names).Ok?
    ensures StartsLongEnough(lines)
    ensures Heads(Tokenize(lines, names).value) == StartHeads(lines)
    ensures Values(Tokenize(lines, names).value) == Contributions(lines, names)
    ensures Raws(Tokenize(lines, names).value) == StrippedLines(lines)
  {
    TokenizeOutcome(lines, names);
    if lines != [] {
      var n := |lines| - 1;
      var init := lines[..n];
      var l := lines[n];
      var r := Tokenize(init, names);
      assert r.Ok? && Tokenize(lines, names) == AddLine(r.value, l, n, names);
      TokenizeOutcome(init, names);
      TokensFollowLines(init, names);
      AddLineEffect(r.value, l, n, names);
    }
  }

  /** The number of lines that open a field. */
  function CountStarts(lines: seq<string>): nat
  {
    if lines == [] then 0
    else CountStarts(lines[..|lines| - 1]) + (if IsContinuation(lines[|lines| - 1]) then 0 else 1)
  }

  /** A parsed record has exactly one field per line after the leader that opens
      a field, and field `k` has the tag (and, for a data field, the indicators)
      of the `k`-th such line. */
  lemma FieldPerStartLine(text: string, names: EntityTable)
    requires Decode(text, names).Parsed?
    ensures StartsLongEnough(Lines(text)[1..])
    ensures |Decode(text, names).record.fields| == CountStarts(Lines(text)[1..])
    ensures forall k :: 0 <= k < CountStarts(Lines(text)[1..]) ==>
      var f := Decode(text, names).record.fields[k];
      var h := StartHeads(Lines(text)[1..])[k];
      f.tag == h.0 && (f.DataField? ==> f.indicator1 == h.1 && f.indicator2 == h.2)
  {
    var lines := Lines(text)[1..];
    var toks := Tokenize(lines, names).value;
    var fields := Decode(text, names).record.fields;
    assert fields == MakeFields(toks);
    TokensFollowLines(lines, names);
    HeadsAt(toks);
    forall k | 0 <= k < CountStarts(lines)
      ensures fields[k].tag == StartHeads(lines)[k].0
      ensures fields[k].DataField? ==> fields[k].indicator1 == StartHeads(lines)[k].1 && fields[k].indicator2 == StartHeads(lines)[k].2
    {
      assert fields[k] == MakeField(toks[k]);
      assert Heads(toks)[k] == (toks[k].tag, toks[k].indicator1, toks[k].indicator2);
    }
  }

  lemma {:induction false} HeadsAt(toks: seq<Token>)
    ensures |Heads(toks)| == |toks|
    ensures forall k :: 0 <= k < |toks| ==> Heads(toks)[k] == (toks[k].tag, toks[k].indicator1, toks[k].indicator2)
  {
    if toks != [] {
      HeadsAt(toks[..|toks| - 1]);
    }
  }

  // ---------------------------------------------------------------------------
  // Subfields.
  // ---------------------------------------------------------------------------

  /** A data token's value begins with the implicit code `a`. */
  predicate ValueOpensWithA(t: Token) {
    IsControlTag(t.tag) || (|t.value| > 0 && t.value[0] == 'a')
  }

  /** Extending or opening tokens keeps every data token's value led by `a`. */
  lemma {:induction false} TokensOpenWithA(lines: seq<string>, names: EntityTable)
    requires Tokenize(lines, names).Ok?
    ensures forall k :: 0 <= k < |Tokenize(lines, names).value| ==> ValueOpensWithA(Tokenize(lines, names).value[k])
  {
    if lines != [] {
      var n := |lines| - 1;
      var init := lines[..n];
      var l := lines[n];
      var r := Tokenize(init, names);
      assert r.Ok? && Tokenize(lines, names) == AddLine(r.value, l, n, names);
      TokensOpenWithA(init, names);
      var toks := r.value;
      var out := Tokenize(lines, names).value;
      forall k | 0 <= k < |out| ensures ValueOpensWithA(out[k]) {
        if k < |out| - 1 {
          assert out[k] == out[..|out| - 1][k] == toks[k];
        }
      }
    }
  }

  /** The first kept segment gives the first subfield. */
  lemma {:induction false} KeepSubfieldsHead(segments: seq<string>)
    requires segments != [] && segments[0] != []
    ensures KeepSubfields(segments) != [] && KeepSubfields(segments)[0] == SubfieldOf(segments[0])
  {
    if |segments| > 1 {
      KeepSubfieldsHead(segments[..|segments| - 1]);
    }
  }

  /** Every data field the decoder builds begins with a subfield coded `a`. */
  lemma FirstSubfieldIsA(text: string, names: EntityTable)
    requires Decode(text, names).Parsed?
    ensures forall f :: f in Decode(text, names).record.fields && f.DataField? ==>
      f.subfields != [] && f.subfields[0].code == "a"
  {
    var toks := Tokenize(Lines(text)[1..], names).value;
    TokensOpenWithA(Lines(text)[1..], names);
    forall f | f in Decode(text, names).record.fields && f.DataField?
      ensures f.subfields != [] && f.subfields[0].code == "a"
    {
      var k :| 0 <= k < |toks| && f == MakeField(toks[k]);
      DataFieldOpensWithA(toks[k]);
    }
  }

  lemma DataFieldOpensWithA(t: Token)
    requires ValueOpensWithA(t) && !IsControlTag(t.tag)
    ensures MakeField(t).subfields != [] && MakeField(t).subfields[0].code == "a"
  {
    var data := Strip(t.value);
    StripKeepsHead(t.value);
    var segments := Split(data, '|');
    assert segments[0][0] == 'a' by {
      if '|' in data {
        var i := FirstIndex(data, '|');
        assert i > 0;
      }
    }
    KeepSubfieldsHead(segments);
    assert segments[0][..1] == "a";
  }

  /** A subfield written back as its segment: code then value. */
  function SegmentOf(s: Subfield): string {
    s.code + s.value
  }

  function Segments(subs: seq<Subfield>): (segs: seq<string>)
    ensures |segs| == |subs| && forall k :: 0 <= k < |subs| ==> segs[k] == SegmentOf(subs[k])
  {
    if subs == [] then [] else Segments(subs[..|subs| - 1]) + [SegmentOf(subs[|subs| - 1])]
  }

  /** A subfield the splitter can give back unchanged: a one-character code that
      is neither space nor separator, and a value free of the separator and of
      surrounding space. */
  predicate Representable(s: Subfield) {
    |s.code| == 1 && !IsSpace(s.code[0]) && s.code[0] != '|' && '|' !in s.value &&
    (s.value == [] || (!IsSpace(s.value[0]) && !IsSpace(s.value[|s.value| - 1])))
  }

  lemma SubfieldOfSegment(s: Subfield)
    requires Representable(s)
    ensures SegmentOf(s) != [] && SubfieldOf(SegmentOf(s)) == s
  {
    var seg := SegmentOf(s);
    assert seg[..1] == s.code && seg[1..] == s.value;
    StripUnpadded(s.code);
    StripUnpadded(s.value);
  }

  /** Appending a non-empty segment appends its subfield. */
  lemma KeepSubfieldsSnoc(segments: seq<string>, segment: string)
    requires segment != []
    ensures KeepSubfields(segments + [segment]) == KeepSubfields(segments) + [SubfieldOf(segment)]
  {
    assert (segments + [segment])[..|segments|] == segments;
  }

  lemma {:induction false} KeepSubfieldsOfSegments(subs: seq<Subfield>)
    requires forall k :: 0 <= k < |subs| ==> Representable(subs[k])
    ensures KeepSubfields(Segments(subs)) == subs
  {
    if subs != [] {
      var init := subs[..|subs| - 1];
      var last := subs[|subs| - 1];
      assert subs == init + [last];
      KeepSubfieldsOfSegments(init);
      SubfieldOfSegment(last);
      KeepSubfieldsSnoc(Segments(init), SegmentOf(last));
    }
  }

  /** A representable subfield is written without a separator. */
  lemma SegmentWithoutBar(s: Subfield)
    requires Representable(s)
    ensures '|' !in SegmentOf(s)
  {
    var seg := SegmentOf(s);
    forall i | 0 <= i < |seg| ensures seg[i] != '|' {
      if i > 0 {
        assert seg[i] == s.value[i - 1];
      }
    }
  }

  /** Subfield splitting inverts writing the subfields out joined by `|`. */
  lemma SubfieldsRoundTrip(subs: seq<Subfield>)
    requires forall k :: 0 <= k < |subs| ==> Representable(subs[k])
    ensures KeepSubfields(Split(Join(Segments(subs), '|'), '|')) == subs
  {
    if subs == [] {
      var empty: seq<string> := [[]];
      assert Split([], '|') == empty;
      assert empty[..0] == [];
    } else {
      var segs := Segments(subs);
      forall k | 0 <= k < |segs| ensures '|' !in segs[k] {
        SegmentWithoutBar(subs[k]);
      }
      SplitJoin(segs, '|');
      KeepSubfieldsOfSegments(subs);
    }
  }

  /** An empty segment (a doubled or trailing separator) adds no subfield. */
  lemma EmptySegmentSkipped(segments: seq<string>)
    ensures KeepSubfields(segments + [[]]) == KeepSubfields(segments)
  {
    assert (segments + [[]])[..|segments|] == segments;
  }

  /** A one-character segment is kept, as a subfield with an empty value. */
  lemma SingleCharacterSegmentKept(segments: seq<string>, c: char)
    requires !IsSpace(c)
    ensures KeepSubfields(segments + [[c]]) == KeepSubfields(segments) + [Subfield([c], [])]
  {
    KeepSubfieldsSnoc(segments, [c]);
    assert [c][..1] == [c] && [c][1..] == [];
    StripUnpadded([c]);
  }
}
