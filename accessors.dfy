/**
 * The record accessors of `iiitools.Record`: read-only projections over the
 * decoded field list. pymarc's lookups are the ones in `Marc`: `record[tag]`
 * is the first field with that tag and `field[code]` the first value under
 * that code, `None` when absent. Where the source subscripts `None`, indexes
 * an empty list or converts a non-digit, the accessor yields an error value.
 */
module Accessors {
  import opened Wrappers
  import opened Text
  import opened Marc
  import opened Entities

  datatype AccessError =
    | NoSuchField     // TypeError: `record[tag]` was None and was subscripted
    | NoSuchSubfield  // TypeError or IndexError: a subfield the expression needs is missing
    | EmptyText       // IndexError: `text[-1]` on the empty string
    | BadIndicator    // ValueError or IndexError: an indicator that is no label index

  /** Python's `string.punctuation`. */
  const Punctuation: string := "!\"#$%&'()*+,-./:;<=>?@[\\]^_`{|}~"

  /** `strip_end_punctuation(text)`: one final punctuation character removed. */
  function StripEndPunctuation(t: string): (r: Result<string, AccessError>)
    ensures r.Err? <==> t == []
    ensures r.Ok? ==> |t| - 1 <= |r.value| <= |t| && r.value == t[..|r.value|]
    ensures r.Ok? ==> (|r.value| < |t| <==> t[|t| - 1] in Punctuation)
  {
    if t == [] then Err(EmptyText)
    else if t[|t| - 1] in Punctuation then Ok(t[..|t| - 1])
    else Ok(t)
  }

  /** The value `field[code]` gives when it is truthy: present and non-empty. */
  function TruthyValue(f: Field, code: string): Option<string>
  {
    if HasValue(f, code) then Sub(f, code) else None
  }

  /** Subfields a, b and c of a title field, each joined on with one space when
      it is truthy; a missing `a` leaves a leading space before `b` or `c`. */
  function TitleText(f: Field): string
  {
    var a := match TruthyValue(f, "a") case Some(v) => v case None => [];
    var ab := match TruthyValue(f, "b") case Some(v) => a + " " + v case None => a;
    match TruthyValue(f, "c") case Some(v) => ab + " " + v case None => ab
  }

  /** `Record.title`. */
  function Title(fields: seq<Field>): (r: Result<string, AccessError>)
    ensures r == Err(NoSuchField) <==> forall k :: 0 <= k < |fields| ==> fields[k].tag != "245"
  {
    match FirstWithTag(fields, "245")
    case None => Err(NoSuchField)
    case Some(f) => StripEndPunctuation(TitleText(f))
  }

  /** A title field with subfields a, b and c all non-empty gives them joined
      with single spaces, less one final punctuation mark. */
  lemma TitleOfThreeParts(fields: seq<Field>, a: string, b: string, c: string)
    requires FirstWithTag(fields, "245").Some?
    requires Sub(FirstWithTag(fields, "245").value, "a") == Some(a) && a != []
    requires Sub(FirstWithTag(fields, "245").value, "b") == Some(b) && b != []
    requires Sub(FirstWithTag(fields, "245").value, "c") == Some(c) && c != []
    ensures var t := a + " " + b + " " + c;
      Title(fields) == Ok(if c[|c| - 1] in Punctuation then t[..|t| - 1] else t)
  {
    var f := FirstWithTag(fields, "245").value;
    var t := a + " " + b + " " + c;
    assert TruthyValue(f, "a") == Some(a) && TruthyValue(f, "b") == Some(b) && TruthyValue(f, "c") == Some(c);
    assert TitleText(f) == t;
    assert t != [] && t[|t| - 1] == c[|c| - 1];
  }

  /** A title field with only a non-empty a gives that a, less one final
      punctuation mark. */
  lemma TitleOfA(fields: seq<Field>, a: string)
    requires FirstWithTag(fields, "245").Some?
    requires Sub(FirstWithTag(fields, "245").value, "a") == Some(a) && a != []
    requires !HasValue(FirstWithTag(fields, "245").value, "b") && !HasValue(FirstWithTag(fields, "245").value, "c")
    ensures Title(fields) == StripEndPunctuation(a)
  {
    var f := FirstWithTag(fields, "245").value;
    assert TruthyValue(f, "a") == Some(a);
    assert TitleText(f) == a;
  }

  /** Without a truthy a, a title built from b or c keeps the space that would
      have followed a: the title is not empty and starts with a space. */
  lemma TitleWithoutA(fields: seq<Field>)
    requires FirstWithTag(fields, "245").Some?
    requires var f := FirstWithTag(fields, "245").value;
      !HasValue(f, "a") && (HasValue(f, "b") || HasValue(f, "c"))
    ensures Title(fields).Ok? && Title(fields).value != [] && Title(fields).value[0] == ' '
  {
    TitleTextWithoutA(FirstWithTag(fields, "245").value);
  }

  lemma TitleTextWithoutA(f: Field)
    requires !HasValue(f, "a") && (HasValue(f, "b") || HasValue(f, "c"))
    ensures |TitleText(f)| >= 2 && TitleText(f)[0] == ' '
  {
    var t := TitleText(f);
    if HasValue(f, "b") {
      var b := Sub(f, "b").value;
      var ab := [] + " " + b;
      assert |b| >= 1 && ab[0] == ' ';
      if HasValue(f, "c") {
        assert t == ab + " " + Sub(f, "c").value;
      } else {
        assert t == ab;
      }
    } else {
      var c := Sub(f, "c").value;
      assert t == [] + " " + c && |c| >= 1;
    }
  }

  /** The title fails exactly when there is no 245 field or its a, b and c are
      all missing or empty. */
  lemma TitleFails(fields: seq<Field>)
    requires FirstWithTag(fields, "245").Some?
    ensures Title(fields).Err? <==>
      var f := FirstWithTag(fields, "245").value;
      !HasValue(f, "a") && !HasValue(f, "b") && !HasValue(f, "c")
  {
    var f := FirstWithTag(fields, "245").value;
    var t := TitleText(f);
    if HasValue(f, "b") || HasValue(f, "c") {
      assert t != [];
    }
  }

  // ---------------------------------------------------------------------------
  // ISBN and ISSN.
  // ---------------------------------------------------------------------------

  /** A character of the pattern `[\w\d-]`. */
  predicate IsIdChar(c: char) {
    IsWordChar(c) || c == '-'
  }

  /** The length of the leading run of identifier characters. */
  function IdRun(s: string): (n: nat)
    ensures n <= |s| && forall i :: 0 <= i < n ==> IsIdChar(s[i])
    ensures n == |s| || !IsIdChar(s[n])
  {
    if s != [] && IsIdChar(s[0]) then 1 + IdRun(s[1..]) else 0
  }

  /** `ISSN_ISBN_PATTERN.match(v).group()`: the longest non-empty prefix of
      identifier characters, or None when `v` does not start with one. */
  function Identifier(v: string): (r: Option<string>)
    ensures r.None? <==> v == [] || !IsIdChar(v[0])
    ensures r.Some? ==> r.value != [] && |r.value| <= |v| && r.value == v[..|r.value|]
    ensures r.Some? ==> forall i :: 0 <= i < |r.value| ==> IsIdChar(r.value[i])
    ensures r.Some? ==> |r.value| == |v| || !IsIdChar(v[|r.value|])
  {
    var n := IdRun(v);
    if n == 0 then None else Some(v[..n])
  }

  /** The identifiers of the given fields, in order; a field without subfield a
      makes the pattern match `None`, which raises. */
  function Identifiers(fs: seq<Field>): (r: Result<seq<string>, AccessError>)
    ensures r.Ok? ==> |r.value| <= |fs|
    ensures r.Err? ==> r.error == NoSuchSubfield
  {
    if fs == [] then Ok([])
    else
      var f := fs[|fs| - 1];
      match Identifiers(fs[..|fs| - 1])
      case Err(e) => Err(e)
      case Ok(ids) =>
        match Sub(f, "a")
        case None => Err(NoSuchSubfield)
        case Some(v) =>
          match Identifier(v)
          case None => Ok(ids)
          case Some(id) => Ok(ids + [id])
  }

  /** `Record.isbn`. */
  function Isbn(fields: seq<Field>): (r: Result<seq<string>, AccessError>)
    ensures r.Ok? <==> forall f :: f in fields && f.tag == "020" ==> Sub(f, "a").Some?
  {
    IdentifiersOkByTag(fields, "020");
    Identifiers(FieldsWithTag(fields, "020"))
  }

  /** `Record.issn`. */
  function Issn(fields: seq<Field>): (r: Result<seq<string>, AccessError>)
    ensures r.Ok? <==> forall f :: f in fields && f.tag == "022" ==> Sub(f, "a").Some?
  {
    IdentifiersOkByTag(fields, "022");
    Identifiers(FieldsWithTag(fields, "022"))
  }

  /** The identifiers of the fields with a tag succeed exactly when every such
      field has subfield a. */
  lemma IdentifiersOkByTag(fields: seq<Field>, tag: string)
    ensures Identifiers(FieldsWithTag(fields, tag)).Ok? <==> forall f :: f in fields && f.tag == tag ==> Sub(f, "a").Some?
  {
    var fs := FieldsWithTag(fields, tag);
    IdentifiersOk(fs);
    assert forall k :: 0 <= k < |fs| ==> fs[k] in fs;
  }

  /** What one field with subfield a adds to the list: the identifier its
      value starts with, if any. */
  function FieldIdentifier(f: Field): (ids: seq<string>)
    requires Sub(f, "a").Some?
    ensures |ids| <= 1
    ensures ids != [] <==> Identifier(Sub(f, "a").value).Some?
    ensures ids != [] ==> ids[0] == Identifier(Sub(f, "a").value).value
  {
    match Identifier(Sub(f, "a").value)
    case Some(id) => [id]
    case None => []
  }

  /** One more field: the list so far gains that field's identifier at its end,
      and a field without subfield a fails the whole list. */
  lemma IdentifiersStep(fs: seq<Field>)
    requires fs != []
    ensures var init, f := fs[..|fs| - 1], fs[|fs| - 1];
      Identifiers(fs) ==
        if Identifiers(init).Err? || Sub(f, "a").None? then Err(NoSuchSubfield)
        else Ok(Identifiers(init).value + FieldIdentifier(f))
  {
    var init, f := fs[..|fs| - 1], fs[|fs| - 1];
    if Identifiers(init).Ok? && Sub(f, "a").Some? {
      var ids := Identifiers(init).value;
      match Identifier(Sub(f, "a").value)
      case None =>
        assert ids + FieldIdentifier(f) == ids;
      case Some(id) =>
        assert ids + FieldIdentifier(f) == ids + [id];
    }
  }

  /** A list of one field holds that field's identifier, or fails without subfield a. */
  lemma IdentifiersSingle(f: Field)
    ensures Identifiers([f]) == if Sub(f, "a").None? then Err(NoSuchSubfield) else Ok(FieldIdentifier(f))
  {
    IdentifiersStep([f]);
    assert [f][..0] == [];
    if Sub(f, "a").Some? {
      assert Identifiers([]).value + FieldIdentifier(f) == FieldIdentifier(f);
    }
  }

  /** The identifiers of two runs of fields are those of the first run followed
      by those of the second; either run failing fails the whole. */
  lemma {:induction false} IdentifiersAppend(a: seq<Field>, b: seq<Field>)
    ensures Identifiers(a + b) ==
      if Identifiers(a).Ok? && Identifiers(b).Ok? then Ok(Identifiers(a).value + Identifiers(b).value)
      else Err(NoSuchSubfield)
  {
    if b == [] {
      assert a + b == a;
      if Identifiers(a).Ok? {
        assert Identifiers(a).value + Identifiers(b).value == Identifiers(a).value;
      }
    } else {
      var n := |b| - 1;
      var init := b[..n];
      var f := b[n];
      IdentifiersAppend(a, init);
      var ab := a + b;
      assert ab[..|ab| - 1] == a + init && ab[|ab| - 1] == f;
      IdentifiersStep(ab);
      IdentifiersStep(b);
      if Identifiers(a).Ok? && Identifiers(b).Ok? {
        var x, y := Identifiers(a).value, Identifiers(init).value;
        assert x + y + FieldIdentifier(f) == x + (y + FieldIdentifier(f));
      }
    }
  }

  /** Field `f` has a subfield a that starts with identifier `x`. */
  predicate Yields(f: Field, x: string) {
    match Sub(f, "a")
    case Some(v) => Identifier(v) == Some(x)
    case None => false
  }

  /** Identifier extraction fails exactly when some field lacks subfield a;
      otherwise it gives one identifier per field whose subfield a starts with
      an identifier character, and nothing else. */
  lemma IdentifiersSpec(fs: seq<Field>)
    ensures Identifiers(fs).Ok? <==> forall k :: 0 <= k < |fs| ==> Sub(fs[k], "a").Some?
    ensures Identifiers(fs).Ok? ==> forall x :: x in Identifiers(fs).value <==>
      exists k :: 0 <= k < |fs| && Yields(fs[k], x)
  {
    IdentifiersOk(fs);
    if Identifiers(fs).Ok? {
      forall x ensures x in Identifiers(fs).value <==> exists k :: 0 <= k < |fs| && Yields(fs[k], x) {
        IdentifiersMembers(fs, x);
      }
    }
  }

  /** A successful identifier list holds `x` exactly when some field yields it. */
  lemma {:induction false} IdentifiersMembers(fs: seq<Field>, x: string)
    requires Identifiers(fs).Ok?
    ensures x in Identifiers(fs).value <==> exists k :: 0 <= k < |fs| && Yields(fs[k], x)
  {
    if fs != [] {
      var n := |fs| - 1;
      var init := fs[..n];
      IdentifiersLast(fs, x);
      IdentifiersMembers(init, x);
      var inAll := exists k :: 0 <= k < |fs| && Yields(fs[k], x);
      var inInit := exists k :: 0 <= k < n && Yields(init[k], x);
      assert inAll ==> inInit || Yields(fs[n], x) by {
        if inAll {
          var k :| 0 <= k < |fs| && Yields(fs[k], x);
          if k < n {
            assert init[k] == fs[k];
            assert Yields(init[k], x);
          } else {
            assert k == n;
          }
        }
      }
      assert inInit ==> inAll by {
        if inInit {
          var k :| 0 <= k < n && Yields(init[k], x);
          assert fs[k] == init[k];
          assert Yields(fs[k], x);
        }
      }
    }
  }

  /** One step of a successful identifier list: the last field's identifier,
      if any, is appended after those of the fields before it, so `x` is in
      the list when it is in the earlier part or the last field yields it. */
  lemma IdentifiersLast(fs: seq<Field>, x: string)
    requires fs != [] && Identifiers(fs).Ok?
    ensures Identifiers(fs[..|fs| - 1]).Ok? && Sub(fs[|fs| - 1], "a").Some?
    ensures Identifiers(fs).value == Identifiers(fs[..|fs| - 1]).value + FieldIdentifier(fs[|fs| - 1])
    ensures x in Identifiers(fs).value <==>
      x in Identifiers(fs[..|fs| - 1]).value || Yields(fs[|fs| - 1], x)
  {
    var n := |fs| - 1;
    IdentifiersStep(fs);
    var prev := Identifiers(fs[..n]).value;
    var last := FieldIdentifier(fs[n]);
    assert x in prev + last <==> x in prev || x in last;
    assert x in last <==> Yields(fs[n], x);
  }

  /** The identifier list fails exactly when a field lacks subfield a. */
  lemma {:induction false} IdentifiersOk(fs: seq<Field>)
    ensures Identifiers(fs).Ok? <==> forall k :: 0 <= k < |fs| ==> Sub(fs[k], "a").Some?
  {
    if fs != [] {
      var n := |fs| - 1;
      var init := fs[..n];
      IdentifiersOk(init);
      assert Identifiers(fs).Ok? <==> Identifiers(init).Ok? && Sub(fs[n], "a").Some?;
      if forall k :: 0 <= k < |fs| ==> Sub(fs[k], "a").Some? {
        forall k | 0 <= k < n ensures Sub(init[k], "a").Some? {
          assert init[k] == fs[k];
        }
      } else {
        var k :| 0 <= k < |fs| && Sub(fs[k], "a").None?;
        if k < n {
          assert init[k] == fs[k];
        }
      }
    }
  }


  // ---------------------------------------------------------------------------
  // Links.
  // ---------------------------------------------------------------------------

  datatype Link = Link(url: string, caption: string)

  /** `field.get_subfields(code)`; a control field has none. */
  function GetSubfields(f: Field, code: string): seq<string> {
    if f.DataField? then SubfieldValues(f.subfields, code) else []
  }

  /** One link per field: the first u and the first z, which must both exist. */
  function LinksOf(fs: seq<Field>): (r: Result<seq<Link>, AccessError>)
    ensures r.Ok? ==> |r.value| == |fs|
  {
    if fs == [] then Ok([])
    else
      var f := fs[|fs| - 1];
      match LinksOf(fs[..|fs| - 1])
      case Err(e) => Err(e)
      case Ok(links) =>
        var us := GetSubfields(f, "u");
        var zs := GetSubfields(f, "z");
        if us == [] || zs == [] then Err(NoSuchSubfield)
        else Ok(links + [Link(us[0], zs[0])])
  }

  /** `Record.has_link`. */
  function HasLink(fields: seq<Field>): (b: bool)
    ensures b <==> exists k :: 0 <= k < |fields| && fields[k].tag == "856"
  {
    FirstWithTag(fields, "856").Some?
  }

  /** `Record.links`. */
  function Links(fields: seq<Field>): (r: Result<seq<Link>, AccessError>)
    ensures r.Ok? <==> forall f :: f in fields && f.tag == "856" ==> GetSubfields(f, "u") != [] && GetSubfields(f, "z") != []
    ensures r.Ok? ==> |r.value| == |FieldsWithTag(fields, "856")|
  {
    var fs := FieldsWithTag(fields, "856");
    LinksOfSpec(fs);
    assert forall k :: 0 <= k < |fs| ==> fs[k] in fs;
    if HasLink(fields) then LinksOf(fs) else Ok([])
  }

  /** Links succeed exactly when every field carries both a u and a z, and link
      `k` is then the first u and first z of field `k`. */
  lemma {:induction false} LinksOfSpec(fs: seq<Field>)
    ensures LinksOf(fs).Ok? <==> forall k :: 0 <= k < |fs| ==> GetSubfields(fs[k], "u") != [] && GetSubfields(fs[k], "z") != []
    ensures LinksOf(fs).Ok? ==> forall k :: 0 <= k < |fs| ==>
      LinksOf(fs).value[k] == Link(GetSubfields(fs[k], "u")[0], GetSubfields(fs[k], "z")[0])
  {
    if fs != [] {
      var init := fs[..|fs| - 1];
      var f := fs[|fs| - 1];
      assert fs == init + [f];
      LinksOfSpec(init);
    }
  }

  // ---------------------------------------------------------------------------
  // Preceding and succeeding entries.
  // ---------------------------------------------------------------------------

  datatype Entry = Entry(title: string, issn: string, relation: string)

  const PrecedingLabels: seq<string> := [
    "Continues", "Continues in part", "Supersedes", "Supersedes in part",
    "Formed by the union of", "Absorbed", "Absorbed in part", "Separated from"]

  const SucceedingLabels: seq<string> := [
    "Continued by", "Continued in part by", "Superseded by", "Superseded in part by",
    "Absorbed by", "Absorbed in part by", "Split into", "Merged with", "Changed back to"]

  /** `labels[int(indicator)]`: the label a digit indicator indexes; a
      non-digit (ValueError) or a digit past the table (IndexError) has none. */
  function Label(labels: seq<string>, indicator: char): (r: Option<string>)
    ensures r.Some? <==> IsDigit(indicator) && DigitValue(indicator) < |labels|
    ensures r.Some? ==> r.value == labels[DigitValue(indicator)]
  {
    if IsDigit(indicator) && DigitValue(indicator) < |labels| then Some(labels[DigitValue(indicator)]) else None
  }

  /** The label is the table entry `int` reads from the one-character
      indicator, and there is none where `int` fails or the index is past the
      table. */
  lemma LabelIsIntIndex(labels: seq<string>, indicator: char)
    ensures Label(labels, indicator) ==
      match ParseInt([indicator])
      case None => None
      case Some(n) => if 0 <= n < |labels| then Some(labels[n]) else None
  {
    ParseDigit(indicator);
  }

  /** `("%s %s" % (f['a'], f['t'])).strip()`: an absent subfield prints as `None`. */
  function EntryTitle(f: Field): string {
    Strip(Render(Sub(f, "a")) + " " + Render(Sub(f, "t")))
  }

  /** `f['x'] if f['x'] else ''`. */
  function EntryIssn(f: Field): string {
    if HasValue(f, "x") then Sub(f, "x").value else ""
  }

  /** One entry per field; an indicator that is no label index raises. A control
      field has no indicators to read. */
  function EntriesOf(fs: seq<Field>, relation: Field -> Option<string>): (r: Result<seq<Entry>, AccessError>)
    ensures r.Ok? <==> forall k :: 0 <= k < |fs| ==> relation(fs[k]).Some?
    ensures r.Ok? ==> |r.value| == |fs| && forall k :: 0 <= k < |fs| ==>
      r.value[k] == Entry(EntryTitle(fs[k]), EntryIssn(fs[k]), relation(fs[k]).value)
  {
    if fs == [] then Ok([])
    else
      var f := fs[|fs| - 1];
      var init := fs[..|fs| - 1];
      assert fs == init + [f];
      match EntriesOf(init, relation)
      case Err(e) => Err(e)
      case Ok(entries) =>
        match relation(f)
        case None => Err(BadIndicator)
        case Some(rel) => Ok(entries + [Entry(EntryTitle(f), EntryIssn(f), rel)])
  }

  function PrecedingRelation(f: Field): Option<string> {
    if f.DataField? then Label(PrecedingLabels, f.indicator2) else None
  }

  /** A blank second indicator gives no relation label. */
  function SucceedingRelation(f: Field): Option<string> {
    if f.ControlField? then None
    else if Strip([f.indicator2]) == [] then Some("")
    else Label(SucceedingLabels, f.indicator2)
  }

  /** `Record.entry_preceding`. */
  function EntryPreceding(fields: seq<Field>): (r: Result<seq<Entry>, AccessError>)
    ensures r.Ok? <==> forall f :: f in fields && f.tag == "780" ==> PrecedingRelation(f).Some?
    ensures r.Ok? ==> |r.value| == |FieldsWithTag(fields, "780")|
  {
    var fs := FieldsWithTag(fields, "780");
    assert forall k :: 0 <= k < |fs| ==> fs[k] in fs;
    EntriesOf(fs, PrecedingRelation)
  }

  /** `Record.entry_succeeding`. */
  function EntrySucceeding(fields: seq<Field>): (r: Result<seq<Entry>, AccessError>)
    ensures r.Ok? <==> forall f :: f in fields && f.tag == "785" ==> SucceedingRelation(f).Some?
    ensures r.Ok? ==> |r.value| == |FieldsWithTag(fields, "785")|
  {
    var fs := FieldsWithTag(fields, "785");
    assert forall k :: 0 <= k < |fs| ==> fs[k] in fs;
    EntriesOf(fs, SucceedingRelation)
  }

  /** Preceding entries need a second indicator 0 to 7 on every 780 field, and
      the indicator picks the relation. */
  lemma PrecedingIndicators(f: Field)
    requires f.DataField?
    ensures PrecedingRelation(f).Some? <==> '0' <= f.indicator2 <= '7'
    ensures PrecedingRelation(f).Some? ==>
      PrecedingRelation(f).value == PrecedingLabels[(f.indicator2 as int) - ('0' as int)]
    ensures PrecedingRelation(f) == Some("Formed by the union of") <==> f.indicator2 == '4'
  {
    if PrecedingRelation(f) == Some("Formed by the union of") {
      var k := (f.indicator2 as int) - ('0' as int);
      assert PrecedingLabels[k] == "Formed by the union of";
      assert PrecedingLabels[k][0] == 'F';
      assert k == 0 || k == 1 || k == 2 || k == 3 || k == 4 || k == 5 || k == 6 || k == 7;
    }
  }

  /** Succeeding entries accept a blank second indicator (no label) or 0 to 8. */
  lemma SucceedingIndicators(f: Field)
    requires f.DataField?
    ensures SucceedingRelation(f).Some? <==> IsSpace(f.indicator2) || '0' <= f.indicator2 <= '8'
    ensures SucceedingRelation(f) == Some("") <==> IsSpace(f.indicator2)
  {
    var s := [f.indicator2];
    if IsSpace(f.indicator2) {
      assert LeadingSpaces(s) == 1;
    } else {
      assert LeadingSpaces(s) == 0 && TrailingSpaces(s) == 0;
      assert Strip(s) == s;
      assert Label(SucceedingLabels, f.indicator2) != Some("");
    }
  }

  /** An entry field with neither a nor t is titled after Python's rendering of None. */
  lemma EntryTitleWithoutParts(f: Field)
    requires Sub(f, "a").None? && Sub(f, "t").None?
    ensures EntryTitle(f) == "None None"
  {
    StripUnpadded("None None");
  }

  // ---------------------------------------------------------------------------
  // Notes and author.
  // ---------------------------------------------------------------------------

  /** The 5XX tags the notes skip. */
  const IgnoredNotes: seq<nat> := [505, 506, 520, 580, 590]

  /** The fields of the note tags 500 up to `n - 1`, grouped by tag in ascending order. */
  function NoteFields(fields: seq<Field>, n: nat): seq<Field>
    requires 500 <= n
  {
    if n == 500 then []
    else NoteFields(fields, n - 1) + (if n - 1 in IgnoredNotes then [] else FieldsWithTag(fields, ShowNat(n - 1)))
  }

  /** `[f.format_field() for f in fs]`; pymarc's rendering of a field is a parameter. */
  function Formatted(fs: seq<Field>, format: Field -> string): (r: seq<string>)
    ensures |r| == |fs| && forall k :: 0 <= k < |fs| ==> r[k] == format(fs[k])
  {
    if fs == [] then [] else Formatted(fs[..|fs| - 1], format) + [format(fs[|fs| - 1])]
  }

  lemma FormattedAppend(a: seq<Field>, b: seq<Field>, format: Field -> string)
    ensures Formatted(a + b, format) == Formatted(a, format) + Formatted(b, format)
  {
  }

  /** `Record.notes`: every field tagged 500 to 598 outside the ignored tags,
      formatted, tag by tag. */
  method Notes(fields: seq<Field>, format: Field -> string) returns (notes: seq<string>)
    ensures notes == Formatted(NoteFields(fields, 599), format)
  {
    notes := [];
    for tag := 500 to 599
      invariant notes == Formatted(NoteFields(fields, tag), format)
    {
      if tag in IgnoredNotes {
        continue;
      }
      var group := FieldsWithTag(fields, ShowNat(tag));
      FormattedAppend(NoteFields(fields, tag), group, format);
      notes := notes + Formatted(group, format);
    }
  }

  /** A note tag: one of 500 to 598 written out, except the ignored ones. */
  ghost predicate IsNoteTag(tag: string, n: nat) {
    exists m :: 500 <= m < n && m !in IgnoredNotes && tag == ShowNat(m)
  }

  /** The notes draw on exactly the fields with a note tag. */
  lemma {:induction false} NoteFieldsMembers(fields: seq<Field>, n: nat)
    requires 500 <= n
    ensures forall f :: f in NoteFields(fields, n) <==> f in fields && IsNoteTag(f.tag, n)
  {
    if n > 500 {
      NoteFieldsMembers(fields, n - 1);
      forall f ensures f in NoteFields(fields, n) <==> f in fields && IsNoteTag(f.tag, n) {
        if f in fields && IsNoteTag(f.tag, n) && !IsNoteTag(f.tag, n - 1) {
          assert f.tag == ShowNat(n - 1) && n - 1 !in IgnoredNotes;
        }
      }
    }
  }

  /** The first present field among 100, 110 and 111. */
  function AuthorField(fields: seq<Field>): (r: Option<Field>)
    ensures r.Some? ==> r.value in fields && r.value.tag in ["100", "110", "111"]
  {
    if FirstWithTag(fields, "100").Some? then FirstWithTag(fields, "100")
    else if FirstWithTag(fields, "110").Some? then FirstWithTag(fields, "110")
    else FirstWithTag(fields, "111")
  }

  /** `Record.author`: the formatted main entry, or the empty string. */
  function Author(fields: seq<Field>, format: Field -> string): (r: string)
    ensures (forall k :: 0 <= k < |fields| ==> fields[k].tag !in ["100", "110", "111"]) ==> r == ""
    ensures r != "" ==> exists f :: f in fields && f.tag in ["100", "110", "111"] && r == format(f)
  {
    match AuthorField(fields)
    case Some(f) => format(f)
    case None => ""
  }

  /** A personal name wins over a corporate name, which wins over a meeting name;
      without any of them the author is empty. */
  lemma AuthorPriority(fields: seq<Field>, format: Field -> string)
    ensures (exists k :: 0 <= k < |fields| && fields[k].tag == "100") ==>
      Author(fields, format) == format(FieldsWithTag(fields, "100")[0])
    ensures (forall k :: 0 <= k < |fields| ==> fields[k].tag != "100") &&
            (exists k :: 0 <= k < |fields| && fields[k].tag == "110") ==>
      Author(fields, format) == format(FieldsWithTag(fields, "110")[0])
    ensures (forall k :: 0 <= k < |fields| ==> fields[k].tag != "100" && fields[k].tag != "110") &&
            (exists k :: 0 <= k < |fields| && fields[k].tag == "111") ==>
      Author(fields, format) == format(FieldsWithTag(fields, "111")[0])
    ensures (forall k :: 0 <= k < |fields| ==> fields[k].tag !in ["100", "110", "111"]) ==>
      Author(fields, format) == ""
  {
    FirstIsHeadOfAll(fields, "100");
    FirstIsHeadOfAll(fields, "110");
    FirstIsHeadOfAll(fields, "111");
  }

  // ---------------------------------------------------------------------------
  // The remaining projections: formatted lists, first fields, joined text.
  // ---------------------------------------------------------------------------

  /** `[f.format_field() for f in self.get_fields(tag)]`: the list properties
      such as `subjects`, `publishers` and `entry_notes`. */
  function FieldList(fields: seq<Field>, tag: string, format: Field -> string): (r: seq<string>)
    ensures |r| == |FieldsWithTag(fields, tag)|
    ensures forall f :: f in fields && f.tag == tag ==> format(f) in r
    ensures forall x :: x in r ==> exists f :: f in fields && f.tag == tag && x == format(f)
  {
    var fs := FieldsWithTag(fields, tag);
    var r := Formatted(fs, format);
    assert forall f :: f in fs ==> format(f) in r by {
      forall f | f in fs ensures format(f) in r {
        var k :| 0 <= k < |fs| && fs[k] == f;
        assert r[k] == format(f);
      }
    }
    r
  }

  /** `self[tag].format_field() if self[tag] else ''`: properties such as
      `edition`, `call_number` and `pub_frequency`. */
  function FirstFormatted(fields: seq<Field>, tag: string, format: Field -> string): (r: string)
    ensures FirstWithTag(fields, tag).Some? ==> r == format(FieldsWithTag(fields, tag)[0])
    ensures FirstWithTag(fields, tag).None? ==> r == ""
  {
    FirstIsHeadOfAll(fields, tag);
    match FirstWithTag(fields, tag)
    case Some(f) => format(f)
    case None => ""
  }

  /** `sep.join(parts)` for a separator string such as `"; "`. */
  function JoinWith(parts: seq<string>, sep: string): (r: string)
    ensures parts == [] ==> r == ""
  {
    if parts == [] then ""
    else if |parts| == 1 then parts[0]
    else JoinWith(parts[..|parts| - 1], sep) + sep + parts[|parts| - 1]
  }

  /** Joined text is as long as the parts plus one separator between each two. */
  function TotalLength(parts: seq<string>): nat {
    if parts == [] then 0 else TotalLength(parts[..|parts| - 1]) + |parts[|parts| - 1]|
  }

  lemma {:induction false} JoinWithLength(parts: seq<string>, sep: string)
    requires parts != []
    ensures |JoinWith(parts, sep)| == TotalLength(parts) + (|parts| - 1) * |sep|
  {
    var n := |parts|;
    if n > 1 {
      var init := parts[..n - 1];
      JoinWithLength(init, sep);
      assert JoinWith(parts, sep) == JoinWith(init, sep) + sep + parts[n - 1];
      assert TotalLength(parts) == TotalLength(init) + |parts[n - 1]|;
      assert (n - 1) * |sep| == (n - 2) * |sep| + |sep|;
    } else {
      assert parts[..0] == [];
    }
  }

  /** `access_restrictions`, `physical_description`: list entries joined by `"; "`;
      `contents`, `summary`: joined by one space. */
  function JoinedList(fields: seq<Field>, tag: string, format: Field -> string, sep: string): (r: string)
    ensures (forall k :: 0 <= k < |fields| ==> fields[k].tag != tag) ==> r == ""
  {
    JoinWith(FieldList(fields, tag, format), sep)
  }

  /** `author_name`: subfield a of the first main entry, which must exist. */
  function AuthorName(fields: seq<Field>): (r: Result<string, AccessError>)
    ensures AuthorField(fields).None? ==> r == Ok("")
    ensures AuthorField(fields).Some? ==>
      (r.Ok? <==> GetSubfields(AuthorField(fields).value, "a") != [])
    ensures r.Ok? && AuthorField(fields).Some? ==> r.value == Sub(AuthorField(fields).value, "a").value
  {
    match AuthorField(fields)
    case None => Ok("")
    case Some(f) =>
      var values := GetSubfields(f, "a");
      if values == [] then Err(NoSuchSubfield) else Ok(values[0])
  }

  /** The first of the tags, in order, that some field carries with a non-empty c. */
  function DatedAuthorField(fields: seq<Field>, tags: seq<string>): (r: Option<Field>)
    ensures r.Some? ==> r.value in fields && r.value.tag in tags && HasValue(r.value, "c")
    ensures r.None? ==> forall t :: t in tags ==> FirstWithTag(fields, t).None? || !HasValue(FirstWithTag(fields, t).value, "c")
  {
    if tags == [] then None
    else match FirstWithTag(fields, tags[0])
      case Some(f) => if HasValue(f, "c") then Some(f) else DatedAuthorField(fields, tags[1..])
      case None => DatedAuthorField(fields, tags[1..])
  }

  /** The first field with tag `t` exists and has a non-empty c. */
  predicate Dated(fields: seq<Field>, t: string) {
    FirstWithTag(fields, t).Some? && HasValue(FirstWithTag(fields, t).value, "c")
  }

  /** The dated author field is the first field of the first tag, in the given
      order, whose first field is dated; the tags before it are all skipped. */
  lemma {:induction false} DatedAuthorFieldFirst(fields: seq<Field>, tags: seq<string>)
    ensures DatedAuthorField(fields, tags).Some? <==> exists i :: 0 <= i < |tags| && Dated(fields, tags[i])
    ensures forall i :: 0 <= i < |tags| && Dated(fields, tags[i]) && (forall j :: 0 <= j < i ==> !Dated(fields, tags[j])) ==>
      DatedAuthorField(fields, tags) == FirstWithTag(fields, tags[i])
  {
    if tags != [] {
      var rest := tags[1..];
      DatedAuthorFieldFirst(fields, rest);
      if Dated(fields, tags[0]) {
        assert DatedAuthorField(fields, tags) == FirstWithTag(fields, tags[0]);
      } else {
        assert DatedAuthorField(fields, tags) == DatedAuthorField(fields, rest);
        forall i | 0 <= i < |tags| && Dated(fields, tags[i]) && (forall j :: 0 <= j < i ==> !Dated(fields, tags[j]))
          ensures DatedAuthorField(fields, tags) == FirstWithTag(fields, tags[i])
        {
          assert i > 0 && rest[i - 1] == tags[i];
          assert forall j :: 0 <= j < i - 1 ==> rest[j] == tags[j + 1];
        }
        var inAll := exists i :: 0 <= i < |tags| && Dated(fields, tags[i]);
        var inRest := exists i :: 0 <= i < |rest| && Dated(fields, rest[i]);
        assert inAll ==> inRest by {
          if inAll {
            var i :| 0 <= i < |tags| && Dated(fields, tags[i]);
            assert i > 0 && rest[i - 1] == tags[i];
          }
        }
        assert inRest ==> inAll by {
          if inRest {
            var i :| 0 <= i < |rest| && Dated(fields, rest[i]);
            assert tags[i + 1] == rest[i];
          }
        }
      }
    }
  }

  /** `author_dates`: every c of the first main entry that has one; a main entry
      without dates passes the turn to the next tag. */
  function AuthorDates(fields: seq<Field>): (r: seq<string>)
    ensures r != [] <==> DatedAuthorField(fields, ["100", "110", "111"]).Some?
    ensures DatedAuthorField(fields, ["100", "110", "111"]).Some? ==>
      r == GetSubfields(DatedAuthorField(fields, ["100", "110", "111"]).value, "c")
  {
    match DatedAuthorField(fields, ["100", "110", "111"])
    case Some(f) => GetSubfields(f, "c")
    case None => []
  }

  /** `other_authors`: all added entries of the first of 700, 710, 711 present. */
  function OtherAuthors(fields: seq<Field>, format: Field -> string): (r: seq<string>)
    ensures FieldsWithTag(fields, "700") != [] ==> r == FieldList(fields, "700", format)
    ensures FieldsWithTag(fields, "700") == [] && FieldsWithTag(fields, "710") != [] ==>
      r == FieldList(fields, "710", format)
    ensures FieldsWithTag(fields, "700") == [] && FieldsWithTag(fields, "710") == [] ==>
      r == FieldList(fields, "711", format)
    ensures r == [] <==> (FieldsWithTag(fields, "700") == [] && FieldsWithTag(fields, "710") == [] &&
                          FieldsWithTag(fields, "711") == [])
  {
    if FieldsWithTag(fields, "700") != [] then FieldList(fields, "700", format)
    else if FieldsWithTag(fields, "710") != [] then FieldList(fields, "710", format)
    else FieldList(fields, "711", format)
  }

  /** `publisher_names`: subfield b of each 260 that has one, less one final
      punctuation mark; the truth test keeps the empty text away. */
  function PublisherNamesOf(fs: seq<Field>): (r: seq<string>)
    ensures |r| <= |fs|
    ensures forall x :: x in r <==> exists k :: (0 <= k < |fs| && HasValue(fs[k], "b") &&
                                                StripEndPunctuation(Sub(fs[k], "b").value) == Ok(x))
  {
    if fs == [] then []
    else
      var f := fs[|fs| - 1];
      var init := fs[..|fs| - 1];
      assert fs == init + [f];
      var rest := PublisherNamesOf(init);
      if HasValue(f, "b") then
        var name := StripEndPunctuation(Sub(f, "b").value);
        rest + [name.value]
      else rest
  }

  /** The names one 260 field contributes: its b less the final punctuation
      mark, when it has a non-empty b. */
  function FieldPublisherName(f: Field): (ns: seq<string>)
    ensures |ns| <= 1
    ensures ns != [] <==> HasValue(f, "b")
  {
    if HasValue(f, "b") then [StripEndPunctuation(Sub(f, "b").value).value] else []
  }

  /** One more field appends its name, if any, after those of the fields before it. */
  lemma PublisherNamesStep(fs: seq<Field>)
    requires fs != []
    ensures PublisherNamesOf(fs) == PublisherNamesOf(fs[..|fs| - 1]) + FieldPublisherName(fs[|fs| - 1])
  {
    var rest := PublisherNamesOf(fs[..|fs| - 1]);
    if !HasValue(fs[|fs| - 1], "b") {
      assert rest + [] == rest;
    }
  }

  /** The names of one field: its stripped b when it has one, else none. */
  lemma PublisherNamesSingle(f: Field)
    ensures PublisherNamesOf([f]) ==
      if HasValue(f, "b") then [StripEndPunctuation(Sub(f, "b").value).value] else []
  {
    PublisherNamesStep([f]);
    assert [f][..0] == [];
    assert PublisherNamesOf([]) + FieldPublisherName(f) == FieldPublisherName(f);
  }

  /** The names of two runs of 260 fields are those of the first run followed
      by those of the second. */
  lemma {:induction false} PublisherNamesAppend(a: seq<Field>, b: seq<Field>)
    ensures PublisherNamesOf(a + b) == PublisherNamesOf(a) + PublisherNamesOf(b)
  {
    if b == [] {
      assert a + b == a;
    } else {
      var init := b[..|b| - 1];
      var f := b[|b| - 1];
      PublisherNamesAppend(a, init);
      var ab := a + b;
      assert ab[..|ab| - 1] == a + init && ab[|ab| - 1] == f;
      PublisherNamesStep(ab);
      PublisherNamesStep(b);
      var x, y, z := PublisherNamesOf(a), PublisherNamesOf(init), FieldPublisherName(f);
      assert x + y + z == x + (y + z);
    }
  }

  function PublisherNames(fields: seq<Field>): (r: seq<string>)
    ensures |r| <= |FieldsWithTag(fields, "260")|
    ensures forall x :: x in r ==> exists f :: f in fields && f.tag == "260" && HasValue(f, "b") &&
                                              StripEndPunctuation(Sub(f, "b").value) == Ok(x)
  {
    var fs := FieldsWithTag(fields, "260");
    assert forall k :: 0 <= k < |fs| ==> fs[k] in fs;
    PublisherNamesOf(fs)
  }

  /** `series` as written: the loop returns on its first pass, so only the 490
      fields are ever listed and 440 is never consulted. */
  function SeriesAsWritten(fields: seq<Field>, format: Field -> string): (r: seq<string>)
    ensures |r| == |FieldsWithTag(fields, "490")|
  {
    FieldList(fields, "490", format)
  }

  /** `series` as the fallback order evidently means it, in the manner of
      `other_authors`: the 490 fields, or the 440 fields when there are none. */
  function Series(fields: seq<Field>, format: Field -> string): (r: seq<string>)
    ensures r == [] <==> FieldsWithTag(fields, "490") == [] && FieldsWithTag(fields, "440") == []
    ensures FieldsWithTag(fields, "490") != [] ==> r == SeriesAsWritten(fields, format)
    ensures FieldsWithTag(fields, "490") == [] ==> r == FieldList(fields, "440", format)
  {
    if FieldsWithTag(fields, "490") != [] then FieldList(fields, "490", format)
    else FieldList(fields, "440", format)
  }

  /** A record with only a 440 series: the written property lists nothing. */
  lemma SeriesAsWrittenMisses440(f: Field, format: Field -> string)
    requires f.tag == "440"
    ensures SeriesAsWritten([f], format) == []
    ensures Series([f], format) == [format(f)]
  {
    assert [f][..0] == [];
  }

  /** On every record with a 440 and no 490, the written loop lists nothing
      while the intended fallback lists every 440. */
  lemma SeriesAsWrittenMissesAll440(fields: seq<Field>, format: Field -> string)
    requires FieldsWithTag(fields, "490") == [] && FieldsWithTag(fields, "440") != []
    ensures SeriesAsWritten(fields, format) == []
    ensures Series(fields, format) == FieldList(fields, "440", format) != []
  {
  }

  /** `entry_preceding_is_union` as written: without a 780 field it evaluates the
      undefined name `false` and raises NameError (None). */
  function EntryPrecedingIsUnionAsWritten(fields: seq<Field>): (r: Option<bool>)
    ensures r.None? <==> FieldsWithTag(fields, "780") == []
    ensures r.Some? ==>
      (r.value <==> (FieldsWithTag(fields, "780")[0].DataField? && FieldsWithTag(fields, "780")[0].indicator2 == '4'))
  {
    FirstIsHeadOfAll(fields, "780");
    match FirstWithTag(fields, "780")
    case Some(f) => Some(f.DataField? && f.indicator2 == '4')
    case None => None
  }

  /** `entry_preceding_is_union` as meant: the first 780 says "formed by the
      union of" (second indicator 4), false when there is none. */
  function EntryPrecedingIsUnion(fields: seq<Field>): (r: bool)
    ensures r <==> (FieldsWithTag(fields, "780") != [] && FieldsWithTag(fields, "780")[0].DataField? &&
                    FieldsWithTag(fields, "780")[0].indicator2 == '4')
    ensures EntryPrecedingIsUnionAsWritten(fields).Some? ==> EntryPrecedingIsUnionAsWritten(fields) == Some(r)
  {
    FirstIsHeadOfAll(fields, "780");
    match FirstWithTag(fields, "780")
    case Some(f) => f.DataField? && f.indicator2 == '4'
    case None => false
  }

  /** The written property raises exactly on records without a 780 field, such
      as a record with no fields at all. */
  lemma EntryPrecedingIsUnionRaises(fields: seq<Field>)
    ensures EntryPrecedingIsUnionAsWritten(fields).None? <==> forall k :: 0 <= k < |fields| ==> fields[k].tag != "780"
    ensures EntryPrecedingIsUnionAsWritten([]).None? && !EntryPrecedingIsUnion([])
  {
  }
}
