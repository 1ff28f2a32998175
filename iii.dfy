/**
 * iii.py: `IIIReader.decode` and the `IIIRecord` accessors that differ from
 * iiitools.py. The leader classes, the check digit, `notes`, `urls` (the same
 * as `links`), `series`, `entry_preceding_is_union`, `record_exists` and the
 * crawl loop are the same code and use the modules of iiitools.py.
 */
module III {
  import opened Wrappers
  import opened Text
  import opened Marc
  import opened Entities
  import opened Decoder
  import opened Accessors
  import Crawl

  // ---------------------------------------------------------------------------
  // `IIIReader.decode`: the decoder of iiitools.py over iii.py's unescaper.
  // ---------------------------------------------------------------------------

  /** The unescaper of iii.py raises on this line's text from column 6. */
  predicate Raises(line: string) {
    UnescapeAsWritten(Drop(line, 6)).None?
  }

  /** The position of the first line `p` holds of. */
  function FirstWhere(lines: seq<string>, p: string -> bool): (r: Option<nat>)
    ensures r.None? <==> forall j :: 0 <= j < |lines| ==> !p(lines[j])
    ensures r.Some? ==> r.value < |lines| && p(lines[r.value]) &&
                        forall j :: 0 <= j < r.value ==> !p(lines[j])
  {
    if lines == [] then None
    else if p(lines[0]) then Some(0)
    else match FirstWhere(lines[1..], p)
      case None => None
      case Some(i) => Some(i + 1)
  }

  /** `IIIReader.decode(text)`. Each line is unescaped before it is looked at,
      so the first raising line stops the decoder unless an earlier line already
      did. Up to that line the text is the same as iiitools.py would read. */
  function Decode(text: string): (r: Decoded)
    ensures r == NotARecord <==> !IsLeaderLine(Lines(text)[0])
  {
    var lines := Lines(text);
    if !IsLeaderLine(lines[0]) then NotARecord
    else
      var body := lines[1..];
      match FirstWhere(body, Raises)
      case None => Decoder.Decode(text, map[])
      case Some(i) =>
        match Tokenize(body[..i], map[])
        case Err(e) => Failed(e)
        case Ok(_) => Failed(UndefinedName(i))
  }

  /** Lines whose bodies unescape alike under two tables tokenize alike. */
  lemma {:induction false} TokenizeSameBodies(lines: seq<string>, n1: EntityTable, n2: EntityTable)
    requires forall j :: 0 <= j < |lines| ==> Body(lines[j], n1) == Body(lines[j], n2)
    ensures Tokenize(lines, n1) == Tokenize(lines, n2)
  {
    if lines != [] {
      var init := lines[..|lines| - 1];
      TokenizeSameBodies(init, n1, n2);
    }
  }

  /** Where no line names an entity other than `amp`, `gt` and `lt`, iii.py
      decodes exactly as iiitools.py does, whatever entity table the latter uses. */
  lemma DecodeAgrees(text: string, names: EntityTable)
    requires forall j :: 1 <= j < |Lines(text)| ==> !Raises(Lines(text)[j])
    ensures Decode(text) == Decoder.Decode(text, names)
  {
    var lines := Lines(text);
    if IsLeaderLine(lines[0]) {
      var body := lines[1..];
      forall j | 0 <= j < |body| ensures Body(body[j], map[]) == Body(body[j], names) {
        assert body[j] == lines[j + 1];
        AsWrittenAgrees(Drop(body[j], 6), map[]);
        AsWrittenAgrees(Drop(body[j], 6), names);
      }
      TokenizeSameBodies(body, map[], names);
    }
  }

  /** A line naming such an entity stops the decoder with NameError when the
      lines before it decode without error. */
  lemma DecodeRaises(text: string, i: nat)
    requires IsLeaderLine(Lines(text)[0]) && 1 <= i < |Lines(text)|
    requires Raises(Lines(text)[i]) && forall j :: 1 <= j < i ==> !Raises(Lines(text)[j])
    requires Tokenize(Lines(text)[1..i], map[]).Ok?
    ensures Decode(text) == Failed(UndefinedName(i - 1))
  {
    FirstWhereAfterHead(Lines(text), i, Raises);
    TailPrefix(Lines(text), i);
    DecodeAtRaise(text, i - 1);
  }

  /** With the first raising body line at `k`, decoding raises there once the
      body lines before it have tokenized. */
  lemma DecodeAtRaise(text: string, k: nat)
    requires IsLeaderLine(Lines(text)[0]) && FirstWhere(Lines(text)[1..], Raises) == Some(k)
    requires k <= |Lines(text)[1..]| && Tokenize(Lines(text)[1..][..k], map[]).Ok?
    ensures Decode(text) == Failed(UndefinedName(k))
  {
  }

  lemma TailPrefix(lines: seq<string>, i: nat)
    requires 1 <= i <= |lines|
    ensures lines[1..][..i - 1] == lines[1..i]
  {
  }

  /** The first line of `lines` after line 0 that `p` holds of. */
  lemma FirstWhereAfterHead(lines: seq<string>, i: nat, p: string -> bool)
    requires 1 <= i < |lines|
    requires p(lines[i]) && forall j :: 1 <= j < i ==> !p(lines[j])
    ensures FirstWhere(lines[1..], p) == Some(i - 1)
  {
    var body := lines[1..];
    assert body[i - 1] == lines[i];
    forall j | 0 <= j < i - 1 ensures !p(body[j]) {
      assert body[j] == lines[j + 1];
    }
  }

  /** `get_record` of iii.py: as in iiitools.py, over this decoder. */
  function GetRecord(bibnumber: string, recordPage: Option<string>, marcText: Option<string>)
    : (r: Crawl.Fetched<MarcRecord>)
    ensures r.Found? ==> StartsWith(bibnumber, "b") && Crawl.RecordExists(recordPage)
    ensures r.Found? ==> marcText.Some? && Decode(marcText.value) == Parsed(r.record)
  {
    if !StartsWith(bibnumber, "b") then Crawl.Raised
    else if !Crawl.RecordExists(recordPage) then Crawl.Absent
    else match marcText
      case None => Crawl.Raised
      case Some(text) =>
        match Decode(text)
        case NotARecord => Crawl.Absent
        case Failed(_) => Crawl.Raised
        case Parsed(record) => Crawl.Found(record)
  }

  // ---------------------------------------------------------------------------
  // `IIIRecord` accessors that differ.
  // ---------------------------------------------------------------------------

  /** An entry whose ISSN is `f['x']` as it is, None when absent. */
  datatype IIIEntry = IIIEntry(title: string, issn: Option<string>, relation: string)

  /** One entry per field; the second indicator always indexes the labels, blank
      or not. */
  function EntriesOf(fs: seq<Field>, labels: seq<string>): (r: Result<seq<IIIEntry>, AccessError>)
    ensures r.Ok? <==> forall k :: 0 <= k < |fs| ==>
      fs[k].DataField? && IsDigit(fs[k].indicator2) && DigitValue(fs[k].indicator2) < |labels|
    ensures r.Ok? ==> |r.value| == |fs| && forall k :: 0 <= k < |fs| ==>
      r.value[k] == IIIEntry(EntryTitle(fs[k]), Sub(fs[k], "x"), labels[DigitValue(fs[k].indicator2)])
  {
    if fs == [] then Ok([])
    else
      var f := fs[|fs| - 1];
      var init := fs[..|fs| - 1];
      assert fs == init + [f];
      match EntriesOf(init, labels)
      case Err(e) => Err(e)
      case Ok(entries) =>
        if f.ControlField? then Err(BadIndicator)
        else match Label(labels, f.indicator2)
          case None => Err(BadIndicator)
          case Some(rel) => Ok(entries + [IIIEntry(EntryTitle(f), Sub(f, "x"), rel)])
  }

  /** `IIIRecord.entry_preceding`. */
  function EntryPreceding(fields: seq<Field>): (r: Result<seq<IIIEntry>, AccessError>)
    ensures r.Ok? <==> forall f :: f in fields && f.tag == "780" ==>
      f.DataField? && IsDigit(f.indicator2) && DigitValue(f.indicator2) < |PrecedingLabels|
    ensures r.Ok? ==> |r.value| == |FieldsWithTag(fields, "780")|
  {
    var fs := FieldsWithTag(fields, "780");
    assert forall k :: 0 <= k < |fs| ==> fs[k] in fs;
    EntriesOf(fs, PrecedingLabels)
  }

  /** `IIIRecord.entry_succeeding`. */
  function EntrySucceeding(fields: seq<Field>): (r: Result<seq<IIIEntry>, AccessError>)
    ensures r.Ok? <==> forall f :: f in fields && f.tag == "785" ==>
      f.DataField? && IsDigit(f.indicator2) && DigitValue(f.indicator2) < |SucceedingLabels|
    ensures r.Ok? ==> |r.value| == |FieldsWithTag(fields, "785")|
  {
    var fs := FieldsWithTag(fields, "785");
    assert forall k :: 0 <= k < |fs| ==> fs[k] in fs;
    EntriesOf(fs, SucceedingLabels)
  }

  /** A 785 field with a blank second indicator, which iiitools.py reads as "no
      relation", makes iii.py's `entry_succeeding` raise. */
  lemma BlankSucceedingIndicatorRaises(fields: seq<Field>, f: Field)
    requires f in FieldsWithTag(fields, "785") && f.DataField? && f.indicator2 == ' '
    ensures EntrySucceeding(fields).Err?
    ensures SucceedingRelation(f) == Some("")
  {
    SucceedingIndicators(f);
  }

  /** `IIIRecord.isbn` / `issn`: a TypeError while building the list (a field
      without subfield a) gives the empty list instead. */
  function IdentifiersOrEmpty(fs: seq<Field>): (r: seq<string>)
    ensures Identifiers(fs).Ok? ==> r == Identifiers(fs).value
    ensures Identifiers(fs).Err? ==> r == []
  {
    match Identifiers(fs)
    case Ok(ids) => ids
    case Err(_) => []
  }

  function Isbn(fields: seq<Field>): (r: seq<string>)
    ensures Accessors.Isbn(fields).Ok? ==> r == Accessors.Isbn(fields).value
    ensures (exists f :: f in fields && f.tag == "020" && Sub(f, "a").None?) ==> r == []
  {
    IdentifiersOrEmpty(FieldsWithTag(fields, "020"))
  }

  function Issn(fields: seq<Field>): (r: seq<string>)
    ensures Accessors.Issn(fields).Ok? ==> r == Accessors.Issn(fields).value
    ensures (exists f :: f in fields && f.tag == "022" && Sub(f, "a").None?) ==> r == []
  {
    IdentifiersOrEmpty(FieldsWithTag(fields, "022"))
  }

  /** One 020 field without subfield a empties the whole list, even when the
      other fields carry ISBNs. */
  lemma MissingSubfieldEmptiesIsbn(fields: seq<Field>, k: nat)
    requires k < |FieldsWithTag(fields, "020")| && Sub(FieldsWithTag(fields, "020")[k], "a").None?
    ensures Isbn(fields) == []
    ensures Accessors.Isbn(fields).Err?
  {
    IdentifiersSpec(FieldsWithTag(fields, "020"));
  }

  /** `IIIRecord.author_dates`: every c of the first main entry present, which
      may be none; without a main entry the empty string (None here). */
  function AuthorDates(fields: seq<Field>): (r: Option<seq<string>>)
    ensures r.None? <==> AuthorField(fields).None?
    ensures r.Some? ==> r.value == GetSubfields(AuthorField(fields).value, "c")
  {
    match AuthorField(fields)
    case Some(f) => Some(GetSubfields(f, "c"))
    case None => None
  }

  /** Unlike iiitools.py, a main entry without dates does not pass the turn on. */
  lemma AuthorDatesStopAtFirstEntry(f100: Field, f110: Field)
    requires f100.tag == "100" && f110.tag == "110" && f100.DataField? && f100.subfields != []
    requires GetSubfields(f100, "c") == []
    requires HasValue(f110, "c")
    ensures AuthorDates([f100, f110]) == Some([])
    ensures Accessors.AuthorDates([f100, f110]) != []
  {
    assert [f100, f110][..1] == [f100];
    assert [f100][..0] == [];
    FirstIsHeadOfAll([f100, f110], "100");
    assert FieldsWithTag([f100, f110], "110") != [] by {
      FieldsWithTagAppend([f100], [f110], "110");
      assert [f100] + [f110] == [f100, f110];
    }
    FirstIsHeadOfAll([f100, f110], "110");
    assert FirstWithTag([f100, f110], "110") == Some(f110) by {
      FieldsWithTagAppend([f100], [f110], "110");
      assert [f100] + [f110] == [f100, f110];
      assert FieldsWithTag([f100], "110") == [];
    }
  }
}
