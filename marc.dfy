/**
 * The MARC record model the decoder fills in: the part of pymarc's `Field` and
 * `Record` the catalogue code uses (tag, indicators, ordered subfields or one
 * control value; an ordered field list with "all fields" and "first field"
 * lookups by tag).
 */
module Marc {
  import opened Wrappers
  import opened Text

  /** One subfield. The code is the stripped first character of its segment, so
      it is empty when that character was white space. */
  datatype Subfield = Subfield(code: string, value: string)

  datatype Field =
    | ControlField(tag: string, data: string)
    | DataField(tag: string, indicator1: char, indicator2: char, subfields: seq<Subfield>)

  /** pymarc's control-field test: `tag < '010' and tag.isdigit()`. */
  predicate IsControlTag(tag: string) {
    IsDigits(tag) && Less(tag, "010")
  }

  /** For a three-character tag, "numeric and below 010" means tags 000 to 009. */
  lemma ControlTagIsZeroZero(tag: string)
    requires |tag| == 3
    ensures IsControlTag(tag) <==> tag[0] == '0' && tag[1] == '0' && IsDigit(tag[2])
  {
    var t1, t2 := tag[1..], tag[2..];
    assert "010"[0] == '0' && "010"[1..] == "10" && "10"[0] == '1' && "10"[1..] == "0" && "0"[0] == '0';
    assert t1[0] == tag[1] && t1[1..] == t2 && t2[0] == tag[2] && t2[1..] == [];
    assert Less(t2, "0") <==> tag[2] < '0';
    assert Less(t1, "10") <==> tag[1] < '1' || (tag[1] == '1' && tag[2] < '0');
    assert Less(tag, "010") <==> tag[0] < '0' || (tag[0] == '0' && Less(t1, "10"));
  }

  /** A field agrees with pymarc's convention: control values exactly under control tags. */
  predicate WellFormed(f: Field) {
    f.ControlField? <==> IsControlTag(f.tag)
  }

  /** `field.get_subfields(code)`: every value filed under `code`, in order. */
  function SubfieldValues(subs: seq<Subfield>, code: string): (vs: seq<string>)
    ensures |vs| <= |subs|
    ensures vs == [] <==> forall k :: 0 <= k < |subs| ==> subs[k].code != code
  {
    if subs == [] then []
    else
      var rest := SubfieldValues(subs[1..], code);
      assert forall k :: 1 <= k < |subs| ==> subs[k] == subs[1..][k - 1];
      if subs[0].code == code then [subs[0].value] + rest else rest
  }

  /** The values `get_subfields` returns are exactly those filed under the code. */
  lemma {:induction false} SubfieldValuesMembers(subs: seq<Subfield>, code: string)
    ensures forall v :: v in SubfieldValues(subs, code) <==> exists k :: 0 <= k < |subs| && subs[k] == Subfield(code, v)
  {
    if subs != [] {
      SubfieldValuesMembers(subs[1..], code);
      assert forall k :: 1 <= k < |subs| ==> subs[k] == subs[1..][k - 1];
      forall v | exists k :: 0 <= k < |subs| && subs[k] == Subfield(code, v)
        ensures v in SubfieldValues(subs, code)
      {
        var k :| 0 <= k < |subs| && subs[k] == Subfield(code, v);
        if k > 0 {
          assert subs[1..][k - 1] == subs[k];
        }
      }
    }
  }

  /** `field[code]`: the first value filed under `code`, or None. */
  function Sub(f: Field, code: string): (r: Option<string>)
    ensures f.ControlField? ==> r == None
    ensures f.DataField? ==>
      (r.Some? <==> exists k :: 0 <= k < |f.subfields| && f.subfields[k].code == code)
    ensures r.Some? ==> f.DataField? && r.value == SubfieldValues(f.subfields, code)[0]
  {
    if f.ControlField? then None
    else
      var vs := SubfieldValues(f.subfields, code);
      if vs == [] then None else Some(vs[0])
  }

  /** Python's truth value of `field[code]`: present and not the empty string. */
  predicate HasValue(f: Field, code: string) {
    Sub(f, code).Some? && Sub(f, code).value != []
  }

  /** `"%s" % field[code]`: Python renders a missing subfield as `None`. */
  function Render(v: Option<string>): string {
    if v.Some? then v.value else "None"
  }

  /** `record.get_fields(tag)`: every field with that tag, in record order. */
  function FieldsWithTag(fields: seq<Field>, tag: string): (r: seq<Field>)
    ensures |r| <= |fields|
    ensures forall f :: f in r <==> f in fields && f.tag == tag
  {
    if fields == [] then []
    else
      var rest := FieldsWithTag(fields[1..], tag);
      if fields[0].tag == tag then [fields[0]] + rest else rest
  }

  /** Looking fields up by tag keeps record order: it distributes over concatenation. */
  lemma {:induction false} FieldsWithTagAppend(a: seq<Field>, b: seq<Field>, tag: string)
    ensures FieldsWithTag(a + b, tag) == FieldsWithTag(a, tag) + FieldsWithTag(b, tag)
  {
    if a != [] {
      assert (a + b)[0] == a[0] && (a + b)[1..] == a[1..] + b;
      FieldsWithTagAppend(a[1..], b, tag);
      var head := if a[0].tag == tag then [a[0]] else [];
      assert FieldsWithTag(a, tag) == head + FieldsWithTag(a[1..], tag);
      assert FieldsWithTag(a + b, tag) == head + FieldsWithTag(a[1..] + b, tag);
    } else {
      assert a + b == b;
    }
  }

  /** `record[tag]`: the first field with that tag, or None. */
  function FirstWithTag(fields: seq<Field>, tag: string): (r: Option<Field>)
    ensures r.None? <==> forall k :: 0 <= k < |fields| ==> fields[k].tag != tag
    ensures r.Some? ==> exists k :: 0 <= k < |fields| && fields[k] == r.value && fields[k].tag == tag &&
                                   forall j :: 0 <= j < k ==> fields[j].tag != tag
  {
    if fields == [] then None
    else if fields[0].tag == tag then Some(fields[0])
    else
      var r := FirstWithTag(fields[1..], tag);
      assert forall k :: 1 <= k < |fields| ==> fields[k] == fields[1..][k - 1];
      if r.Some? then
        var k :| 0 <= k < |fields[1..]| && fields[1..][k] == r.value && fields[1..][k].tag == tag &&
                 forall j :: 0 <= j < k ==> fields[1..][j].tag != tag;
        assert fields[k + 1] == r.value;
        r
      else r
  }

  /** The first field with a tag heads the list of all fields with that tag. */
  lemma {:induction false} FirstIsHeadOfAll(fields: seq<Field>, tag: string)
    ensures FirstWithTag(fields, tag) ==
            (var all := FieldsWithTag(fields, tag); if all == [] then None else Some(all[0]))
  {
    if fields != [] && fields[0].tag != tag {
      FirstIsHeadOfAll(fields[1..], tag);
    }
  }
}
