/**
 * The earlier, dictionary-based parser of experiments/opacsucker.py. A record
 * keeps one raw text per tag (a later line with the same tag replaces the
 * earlier one) plus the leader under the key `leader`; each raw text is then
 * parsed into two indicators and a map from subfield code to value (a later
 * code replaces an earlier one). Its unescaper is the one of iii.py, which
 * raises on a named entity other than `amp`, `gt` and `lt`.
 */
module Opac {
  import opened Wrappers
  import opened Text
  import opened Entities
  import Decoder
  import Crawl

  /** What stops the parser. */
  datatype OpacError =
    | EmptyLine                                  // IndexError: `fnum[0]` of an empty line
    | NoOpenField                                // KeyError: a continuation before any field
    | UndefinedName                              // NameError: the unescaper met a named entity
    | ShortField                                 // IndexError: `raw[1]` of a one-character text
    | EmptySubfield                              // IndexError: `sub[0]` of an empty segment
    | BadField(tag: string, error: OpacError)    // a field text that failed to parse

  // ---------------------------------------------------------------------------
  // `IIIDataField.process_raw_string`.
  // ---------------------------------------------------------------------------

  /** The `|`-separated segments of a field text: `'a' + raw[3:]`. */
  function Segments(raw: string): (segs: seq<string>)
    ensures |segs| >= 1 && segs[0] != [] && segs[0][0] == 'a'
  {
    var segs := Split("a" + Drop(raw, 3), '|');
    assert segs[0] != [] && segs[0][0] == 'a' by {
      FirstSegmentOfLeadingA(Drop(raw, 3));
    }
    segs
  }

  lemma FirstSegmentOfLeadingA(s: string)
    ensures Split("a" + s, '|')[0] != [] && Split("a" + s, '|')[0][0] == 'a'
  {
    var t := "a" + s;
    if '|' in t {
      var i := FirstIndex(t, '|');
      assert i > 0 by { assert t[0] == 'a'; }
      assert Split(t, '|')[0] == t[..i];
    }
  }

  /** The subfield map of the segments: each segment's first character maps to
      the rest of it, later segments replacing earlier ones. */
  function SubfieldMap(segments: seq<string>): (r: Result<map<char, string>, OpacError>)
    ensures r.Ok? <==> forall k :: 0 <= k < |segments| ==> segments[k] != []
  {
    if segments == [] then Ok(map[])
    else
      var last := segments[|segments| - 1];
      match SubfieldMap(segments[..|segments| - 1])
      case Err(e) => Err(e)
      case Ok(m) => if last == [] then Err(EmptySubfield) else Ok(m[last[0] := last[1..]])
  }

  /** The map holds exactly the segments' codes, each with the value of the last
      segment that carries it. */
  lemma {:induction false} SubfieldMapLastWins(segments: seq<string>)
    requires SubfieldMap(segments).Ok?
    ensures forall c :: c in SubfieldMap(segments).value <==>
      exists k :: 0 <= k < |segments| && segments[k][0] == c
    ensures forall k ::
      (0 <= k < |segments| && forall j :: k < j < |segments| ==> segments[j][0] != segments[k][0]) ==>
      SubfieldMap(segments).value[segments[k][0]] == segments[k][1..]
  {
    if segments != [] {
      var init := segments[..|segments| - 1];
      var last := segments[|segments| - 1];
      assert segments == init + [last];
      SubfieldMapLastWins(init);
    }
  }

  /** A field's parsed contents: the two indicator texts and the subfield map. */
  datatype FieldValue = FieldValue(indicator1: string, indicator2: string, subfields: map<char, string>)

  /** What `process_raw_string` leaves: the indicators are the first two
      characters of the text, the subfields come from its segments. */
  function ParseRaw(raw: string): (r: Result<FieldValue, OpacError>)
    ensures r.Ok? <==> |raw| >= 2 && forall k :: 0 <= k < |Segments(raw)| ==> Segments(raw)[k] != []
    ensures r.Ok? ==> r.value.indicator1 == [raw[0]] && r.value.indicator2 == [raw[1]]
    ensures r.Ok? ==> 'a' in r.value.subfields
  {
    if |raw| < 2 then Err(ShortField)
    else match SubfieldMap(Segments(raw))
      case Err(e) => Err(e)
      case Ok(m) =>
        SubfieldMapLastWins(Segments(raw));
        Ok(FieldValue([raw[0]], [raw[1]], m))
  }

  /** `IIIDataField(tag, raw)`: an empty text is left unprocessed. */
  function FieldContents(raw: string): (r: Result<FieldValue, OpacError>)
    ensures raw == [] ==> r == Ok(FieldValue("", "", map[]))
    ensures raw != [] ==> r == ParseRaw(raw)
  {
    if raw == [] then Ok(FieldValue("", "", map[])) else ParseRaw(raw)
  }

  /** A segment left empty by `||` or a trailing `|` makes the field fail. */
  lemma TrailingBarFails(raw: string)
    requires |raw| >= 4 && raw[|raw| - 1] == '|'
    ensures ParseRaw(raw).Err?
  {
    var s := "a" + Drop(raw, 3);
    assert s[|s| - 1] == '|';
    SplitTrailingSeparator(s, '|');
  }

  /** Innovative leaves out the code of the first subfield: a text without `|`
      after its indicators is all subfield a. */
  lemma ImplicitSubfieldA(raw: string)
    requires |raw| >= 2 && '|' !in Drop(raw, 3)
    ensures ParseRaw(raw) == Ok(FieldValue([raw[0]], [raw[1]], map['a' := Drop(raw, 3)]))
  {
    var t := "a" + Drop(raw, 3);
    assert '|' !in t;
    var segs: seq<string> := [t];
    assert Segments(raw) == segs;
    assert segs[..0] == [];
    assert SubfieldMap(segs) == Ok(map[][t[0] := t[1..]]);
    assert t[0] == 'a' && t[1..] == Drop(raw, 3);
  }

  /** The character after the indicators is skipped. */
  lemma ThirdCharacterSkipped(raw: string, c: char)
    requires |raw| >= 3
    ensures ParseRaw(raw[..2] + [c] + raw[3..]) == ParseRaw(raw)
  {
    var other := raw[..2] + [c] + raw[3..];
    assert Drop(other, 3) == Drop(raw, 3);
    assert other[0] == raw[0] && other[1] == raw[1];
  }

  class OpacDataField {
    var tag: string
    var raw: string
    var indicators: map<string, string>
    var subfields: map<char, string>

    /** Both indicators are present. */
    predicate Valid()
      reads this
    {
      "1" in indicators && "2" in indicators
    }

    /** The field's contents as a value. */
    function Contents(): FieldValue
      requires Valid()
      reads this
    {
      FieldValue(indicators["1"], indicators["2"], subfields)
    }

    /** `IIIDataField.__init__` before the text is processed. */
    constructor (tag: string, raw: string)
      ensures Valid() && this.tag == tag && this.raw == raw
      ensures Contents() == FieldValue("", "", map[])
    {
      this.tag := tag;
      this.raw := raw;
      indicators := map["1" := "", "2" := ""];
      subfields := map[];
    }

    /** `process_raw_string`: sets both indicators and adds one entry per
        segment to the subfields, a later code replacing an earlier one. */
    method ProcessRawString() returns (r: Result<(), OpacError>)
      requires Valid()
      modifies this
      ensures Valid() && tag == old(tag) && raw == old(raw)
      ensures r.Ok? <==> ParseRaw(raw).Ok?
      ensures r.Ok? ==> indicators == old(indicators)["1" := [raw[0]]]["2" := [raw[1]]]
      ensures r.Ok? ==> subfields == old(subfields) + ParseRaw(raw).value.subfields
    {
      if |raw| < 1 {
        return Err(ShortField);
      }
      indicators := indicators["1" := [raw[0]]];
      if |raw| < 2 {
        return Err(ShortField);
      }
      indicators := indicators["2" := [raw[1]]];
      var segments := Segments(raw);
      var added := AddSegments(segments);
      if added.Err? {
        return Err(added.error);
      }
      return Ok(());
    }

    /** The loop of `process_raw_string` over the segments. */
    method AddSegments(segments: seq<string>) returns (r: Result<(), OpacError>)
      modifies this
      ensures tag == old(tag) && raw == old(raw) && indicators == old(indicators)
      ensures r.Ok? <==> SubfieldMap(segments).Ok?
      ensures r.Ok? ==> subfields == old(subfields) + SubfieldMap(segments).value
    {
      for k := 0 to |segments|
        invariant tag == old(tag) && raw == old(raw) && indicators == old(indicators)
        invariant SubfieldMap(segments[..k]).Ok?
        invariant subfields == old(subfields) + SubfieldMap(segments[..k]).value
      {
        var sub := segments[k];
        assert segments[..k + 1][..k] == segments[..k];
        if sub == [] {
          SubfieldMapErrPersists(segments, k + 1);
          return Err(EmptySubfield);
        }
        subfields := subfields[sub[0] := sub[1..]];
      }
      assert segments[..|segments|] == segments;
      return Ok(());
    }
  }

  /** Once a segment has failed, the whole list fails. */
  lemma {:induction false} SubfieldMapErrPersists(segments: seq<string>, n: nat)
    requires 0 < n <= |segments| && SubfieldMap(segments[..n]).Err?
    ensures SubfieldMap(segments).Err?
  {
    assert segments[n - 1] == segments[..n][n - 1];
  }

  /** `IIIDataField(tag, raw)`: construct, then process a non-empty text. */
  method NewDataField(tag: string, raw: string) returns (f: OpacDataField, r: Result<(), OpacError>)
    ensures fresh(f) && f.Valid() && f.tag == tag && f.raw == raw
    ensures r.Ok? <==> FieldContents(raw).Ok?
    ensures r.Ok? ==> f.Contents() == FieldContents(raw).value
  {
    f := new OpacDataField(tag, raw);
    r := Ok(());
    if raw != [] {
      r := f.ProcessRawString();
    }
  }

  // ---------------------------------------------------------------------------
  // `IIIOpacRecord.process_raw`.
  // ---------------------------------------------------------------------------

  /** The state of the first loop: raw text per tag and the last tag opened. */
  datatype Gathered = Gathered(rawFields: map<string, string>, lastTag: string)

  predicate IsContinuationTag(line: string)
    requires line != []
  {
    line[0] == ' '
  }

  /** The first loop's step for one line. A continuation appends the unescaped
      text from column 6 to the last tag's text; any other line stores the
      unescaped text from column 4 under its tag, replacing what was there. */
  function Step(g: Gathered, line: string, unescape: string -> Option<string>): (r: Result<Gathered, OpacError>)
    ensures r.Ok? ==> line != []
    ensures r.Ok? && !IsContinuationTag(line) ==>
      (r.value.lastTag == Take(line, 3) && unescape(Drop(line, 4)).Some? &&
       r.value.rawFields == g.rawFields[Take(line, 3) := unescape(Drop(line, 4)).value])
    ensures r.Ok? && IsContinuationTag(line) ==>
      (r.value.lastTag == g.lastTag && g.lastTag in g.rawFields && unescape(Drop(line, 6)).Some? &&
       r.value.rawFields == g.rawFields[g.lastTag := g.rawFields[g.lastTag] + unescape(Drop(line, 6)).value])
  {
    if line == [] then Err(EmptyLine)
    else if IsContinuationTag(line) then
      if g.lastTag !in g.rawFields then Err(NoOpenField)
      else match unescape(Drop(line, 6))
        case None => Err(UndefinedName)
        case Some(text) => Ok(Gathered(g.rawFields[g.lastTag := g.rawFields[g.lastTag] + text], g.lastTag))
    else
      match unescape(Drop(line, 4))
      case None => Err(UndefinedName)
      case Some(text) => Ok(Gathered(g.rawFields[Take(line, 3) := text], Take(line, 3)))
  }

  /** The tags the lines open: the first three characters of each line that is
      not a continuation. */
  function OpenedTags(lines: seq<string>): set<string> {
    set l | l in lines && l != [] && !IsContinuationTag(l) :: Take(l, 3)
  }

  /** The first loop of `process_raw` over the lines after the leader line. */
  function Gather(lines: seq<string>, leader: string, unescape: string -> Option<string>): (r: Result<Gathered, OpacError>)
    ensures r.Ok? ==> "leader" in r.value.rawFields
    ensures r.Ok? ==> r.value.lastTag == "" || (1 <= |r.value.lastTag| <= 3 && r.value.lastTag in r.value.rawFields)
  {
    if lines == [] then Ok(Gathered(map["leader" := leader], ""))
    else
      var init := lines[..|lines| - 1];
      var line := lines[|lines| - 1];
      match Gather(init, leader, unescape)
      case Err(e) => Err(e)
      case Ok(g) => Step(g, line, unescape)
  }

  /** The gathered map holds the leader and exactly the tags the lines open. */
  lemma {:induction false} GatherKeys(lines: seq<string>, leader: string, unescape: string -> Option<string>)
    requires Gather(lines, leader, unescape).Ok?
    ensures Gather(lines, leader, unescape).value.rawFields.Keys == {"leader"} + OpenedTags(lines)
  {
    if lines != [] {
      var init := lines[..|lines| - 1];
      var line := lines[|lines| - 1];
      assert lines == init + [line];
      assert OpenedTags(lines) == OpenedTags(init) +
        (if line != [] && !IsContinuationTag(line) then {Take(line, 3)} else {});
      GatherKeys(init, leader, unescape);
    }
  }

  /** The leader is the first line from column 7 as it is; no line can replace it. */
  lemma {:induction false} LeaderKept(lines: seq<string>, leader: string, unescape: string -> Option<string>)
    requires Gather(lines, leader, unescape).Ok?
    ensures Gather(lines, leader, unescape).value.rawFields["leader"] == leader
  {
    if lines != [] {
      var init := lines[..|lines| - 1];
      LeaderKept(init, leader, unescape);
    }
  }

  /** A tag's text is the one its last line stored, as long as the lines after it
      open other tags. */
  lemma {:induction false} LaterLinesOfOtherTags(front: seq<string>, line: string, back: seq<string>, leader: string,
                                                    unescape: string -> Option<string>)
    requires line != [] && !IsContinuationTag(line)
    requires forall k :: 0 <= k < |back| ==>
      (back[k] != [] && !IsContinuationTag(back[k]) && Take(back[k], 3) != Take(line, 3))
    requires Gather(front + [line] + back, leader, unescape).Ok?
    ensures unescape(Drop(line, 4)).Some?
    ensures Take(line, 3) in Gather(front + [line] + back, leader, unescape).value.rawFields
    ensures Gather(front + [line] + back, leader, unescape).value.rawFields[Take(line, 3)] ==
      unescape(Drop(line, 4)).value
    decreases |back|
  {
    var all := front + [line] + back;
    var last := all[|all| - 1];
    var before := Gather(all[..|all| - 1], leader, unescape);
    assert before.Ok? && Gather(all, leader, unescape) == Step(before.value, last, unescape) by {
      assert all == all[..|all| - 1] + [last];
    }
    if back == [] {
      assert all[..|all| - 1] == front && last == line;
    } else {
      var init := back[..|back| - 1];
      assert all[..|all| - 1] == front + [line] + init;
      assert forall k :: 0 <= k < |init| ==>
        (init[k] != [] && !IsContinuationTag(init[k]) && Take(init[k], 3) != Take(line, 3)) by {
        forall k | 0 <= k < |init|
          ensures init[k] != [] && !IsContinuationTag(init[k]) && Take(init[k], 3) != Take(line, 3)
        {
          assert init[k] == back[k];
        }
      }
      LaterLinesOfOtherTags(front, line, init, leader, unescape);
      assert last == back[|back| - 1];
    }
  }

  /** A continuation line before any field line is a KeyError. */
  lemma ContinuationFirstFails(line: string, rest: seq<string>, leader: string, unescape: string -> Option<string>)
    requires line != [] && IsContinuationTag(line)
    ensures Gather([line] + rest, leader, unescape).Err?
  {
    var lines := [line] + rest;
    assert lines[..1] == [line] && [line][..0] == [];
    GatherErrPersists(lines, 1, leader, unescape);
  }

  lemma {:induction false} GatherErrPersists(lines: seq<string>, n: nat, leader: string, unescape: string -> Option<string>)
    requires 0 < n <= |lines| && Gather(lines[..n], leader, unescape).Err?
    ensures Gather(lines, leader, unescape) == Gather(lines[..n], leader, unescape)
    decreases |lines| - n
  {
    if n < |lines| {
      assert lines[..n + 1][..n] == lines[..n];
      GatherErrPersists(lines, n + 1, leader, unescape);
    } else {
      assert lines[..n] == lines;
    }
  }

  /** The first loop written as `process_raw` runs it. */
  method GatherRawFields(lines: seq<string>, leader: string) returns (r: Result<Gathered, OpacError>)
    ensures r == Gather(lines, leader, UnescapeAsWritten)
  {
    var rawFields := map["leader" := leader];
    var lastTag := "";
    for i := 0 to |lines|
      invariant Gather(lines[..i], leader, UnescapeAsWritten) == Ok(Gathered(rawFields, lastTag))
    {
      var field := lines[i];
      assert lines[..i + 1][..i] == lines[..i] && lines[..i + 1][i] == field;
      if field == [] {
        GatherErrPersists(lines, i + 1, leader, UnescapeAsWritten);
        return Err(EmptyLine);
      }
      var fnum := Take(field, 3);
      if fnum[0] == ' ' {
        if lastTag !in rawFields {
          GatherErrPersists(lines, i + 1, leader, UnescapeAsWritten);
          return Err(NoOpenField);
        }
        var text := UnescapeAsWritten(Drop(field, 6));
        if text.None? {
          GatherErrPersists(lines, i + 1, leader, UnescapeAsWritten);
          return Err(UndefinedName);
        }
        rawFields := rawFields[lastTag := rawFields[lastTag] + text.value];
      } else {
        var text := UnescapeAsWritten(Drop(field, 4));
        if text.None? {
          GatherErrPersists(lines, i + 1, leader, UnescapeAsWritten);
          return Err(UndefinedName);
        }
        rawFields := rawFields[fnum := text.value];
        lastTag := fnum;
      }
    }
    assert lines[..|lines|] == lines;
    return Ok(Gathered(rawFields, lastTag));
  }

  /** Every raw text of the gathered map parses. */
  predicate AllParse(rawFields: map<string, string>) {
    forall t :: t in rawFields ==> FieldContents(rawFields[t]).Ok?
  }

  /** The parsed fields of a gathered map whose texts all parse. */
  function ParsedFields(rawFields: map<string, string>): (fields: map<string, FieldValue>)
    requires AllParse(rawFields)
    ensures fields.Keys == rawFields.Keys
  {
    map t | t in rawFields :: FieldContents(rawFields[t]).value
  }

  /** The parsed fields of the tags in `done`, all of which parse. */
  function ParsedSome(rawFields: map<string, string>, done: set<string>): (fields: map<string, FieldValue>)
    requires done <= rawFields.Keys && forall t :: t in done ==> FieldContents(rawFields[t]).Ok?
    ensures fields.Keys == done
  {
    map t | t in done :: FieldContents(rawFields[t]).value
  }

  /** Parsing one more tag stores its field on top of what is there. */
  lemma ParsedSomeGrows(base: map<string, FieldValue>, rawFields: map<string, string>, done: set<string>, tag: string)
    requires done <= rawFields.Keys && tag in rawFields
    requires forall t :: t in done + {tag} ==> FieldContents(rawFields[t]).Ok?
    ensures (base + ParsedSome(rawFields, done))[tag := FieldContents(rawFields[tag]).value] ==
      base + ParsedSome(rawFields, done + {tag})
  {
  }

  /** The lines of the record text and the leader taken from the first of them. */
  function RawLines(raw: string): seq<string> {
    Decoder.Lines(raw)
  }

  function LeaderText(raw: string): string {
    Drop(RawLines(raw)[0], 7)
  }

  /** The first loop of `process_raw` over a record text. */
  function GatherRecord(raw: string): Result<Gathered, OpacError> {
    Gather(RawLines(raw)[1..], LeaderText(raw), UnescapeAsWritten)
  }

  class OpacRecord {
    var raw: string
    var fields: map<string, FieldValue>

    /** `IIIOpacRecord.__init__` before the text is processed. */
    constructor (raw: string)
      ensures this.raw == raw && fields == map[]
    {
      this.raw := raw;
      fields := map[];
    }

    /** `process_raw`: gathers the raw texts, then parses each of them. */
    method ProcessRaw() returns (r: Result<(), OpacError>)
      modifies this
      ensures raw == old(raw)
      ensures GatherRecord(raw).Err? ==> r == Err(GatherRecord(raw).error)
      ensures GatherRecord(raw).Ok? ==> (r.Ok? <==> AllParse(GatherRecord(raw).value.rawFields))
      ensures r.Ok? ==> fields == old(fields) + ParsedFields(GatherRecord(raw).value.rawFields)
      ensures r.Err? && GatherRecord(raw).Ok? ==>
        (r.error.BadField? && r.error.tag in GatherRecord(raw).value.rawFields &&
         FieldContents(GatherRecord(raw).value.rawFields[r.error.tag]) == Err(r.error.error))
    {
      var lines := RawLines(raw);
      var gathered := GatherRawFields(lines[1..], LeaderText(raw));
      if gathered.Err? {
        return Err(gathered.error);
      }
      r := AddFields(gathered.value.rawFields);
    }

    /** The second loop of `process_raw`: one field per raw text, in the
        dictionary's order, which is not fixed; a text that fails to parse
        stops it. */
    method AddFields(rawFields: map<string, string>) returns (r: Result<(), OpacError>)
      modifies this
      ensures raw == old(raw)
      ensures r.Ok? <==> AllParse(rawFields)
      ensures r.Ok? ==> fields == old(fields) + ParsedFields(rawFields)
      ensures r.Err? ==> (r.error.BadField? && r.error.tag in rawFields &&
                          FieldContents(rawFields[r.error.tag]) == Err(r.error.error))
    {
      var todo := rawFields.Keys;
      ghost var done: set<string> := {};
      while todo != {}
        invariant todo + done == rawFields.Keys && todo !! done
        invariant raw == old(raw)
        invariant forall t :: t in done ==> FieldContents(rawFields[t]).Ok?
        invariant fields == old(fields) + ParsedSome(rawFields, done)
        decreases todo
      {
        var tag :| tag in todo;
        var field, made := NewDataField(tag, rawFields[tag]);
        if made.Err? {
          return Err(BadField(tag, FieldContents(rawFields[tag]).error));
        }
        ParsedSomeGrows(old(fields), rawFields, done, tag);
        fields := fields[tag := field.Contents()];
        todo := todo - {tag};
        done := done + {tag};
      }
      assert done == rawFields.Keys;
      assert ParsedSome(rawFields, done) == ParsedFields(rawFields);
      return Ok(());
    }
  }

  /** `IIIOpacRecord(raw)`: an empty text is left unprocessed. */
  method NewRecord(raw: string) returns (rec: OpacRecord, r: Result<(), OpacError>)
    ensures fresh(rec) && rec.raw == raw
    ensures raw == [] ==> r.Ok? && rec.fields == map[]
    ensures raw != [] ==>
      (r.Ok? <==> GatherRecord(raw).Ok? && AllParse(GatherRecord(raw).value.rawFields))
    ensures raw != [] && r.Ok? ==> rec.fields == ParsedFields(GatherRecord(raw).value.rawFields)
  {
    rec := new OpacRecord(raw);
    r := Ok(());
    if raw != [] {
      r := rec.ProcessRaw();
    }
  }

  /** `get_record` of experiments/opacsucker.py: nothing when the record page is
      missing; otherwise the `<pre>` text of the MARC page (none raises
      IndexError) is parsed into a record. */
  method GetRecord(recordPage: Option<string>, marcText: Option<string>) returns (r: Crawl.Fetched<OpacRecord>)
    ensures r.Absent? <==> !Crawl.RecordExists(recordPage)
    ensures r.Found? ==> marcText.Some? && fresh(r.record) && r.record.raw == marcText.value
    ensures r.Found? && marcText.value != [] ==>
      GatherRecord(marcText.value).Ok? && AllParse(GatherRecord(marcText.value).value.rawFields) &&
      r.record.fields == ParsedFields(GatherRecord(marcText.value).value.rawFields)
    ensures r.Raised? <==> (Crawl.RecordExists(recordPage) &&
      (marcText.None? || (marcText.value != [] &&
        !(GatherRecord(marcText.value).Ok? && AllParse(GatherRecord(marcText.value).value.rawFields)))))
  {
    if !Crawl.RecordExists(recordPage) {
      return Crawl.Absent;
    }
    if marcText.None? {
      return Crawl.Raised;
    }
    var rec, made := NewRecord(marcText.value);
    if made.Err? {
      return Crawl.Raised;
    }
    return Crawl.Found(rec);
  }
}
