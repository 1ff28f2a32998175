/**
 * The MARC leader as the catalogue code reads it: fixed positions 06 (type of
 * record), 07 (bibliographic level), 08 (type of control), 17 (encoding level)
 * and 18 (descriptive cataloging form) of the MARC 21 Format for Bibliographic
 * Data, and the material-type table that classifies a record from 06 and 07.
 * Every accessor reads the leader text afresh; an index past the end, an
 * unknown code or an unmatched pair is an error value, as the source raises.
 */
module Leader {
  import opened Wrappers

  datatype MaterialType = BKS | SER | VIS | MIX | MAP | SCO | REC | COM

  datatype LeaderError =
    | TooShort      // IndexError: the leader ends before the position read
    | InvalidType   // ValueError("Invalid Type!")
    | InvalidBLvl   // ValueError("Invalid BLvl!")
    | UnknownCode   // KeyError: a code missing from a label table
    | NotIndexable  // TypeError: the leader object itself is indexed

  /** The fourteen type-of-record codes accepted before classification. */
  const ValidTypes: seq<char> := ['a', 't', 'g', 'k', 'r', 'o', 'p', 'e', 'f', 'c', 'd', 'i', 'j', 'm']

  /** The material-type table in the order CPython 2.7 iterates the eight-key
      dictionary literal: without hash randomisation each key's string hash
      fixes its slot in the sixteen-slot table the literal is built in, and
      iteration walks the slots in order. */
  const Table: seq<MaterialType> := [VIS, SCO, MIX, SER, COM, BKS, REC, MAP]

  /** Position of an entry in `Table`. */
  function Rank(m: MaterialType): (k: nat)
    ensures k < |Table| && Table[k] == m
  {
    match m
    case VIS => 0 case SCO => 1 case MIX => 2 case SER => 3
    case COM => 4 case BKS => 5 case REC => 6 case MAP => 7
  }

  /** The character class an entry's `type` pattern accepts. */
  function TypeCodes(m: MaterialType): seq<char> {
    match m
    case BKS => "at" case SER => "a" case VIS => "gkro" case MIX => "p"
    case MAP => "ef" case SCO => "cd" case REC => "ij" case COM => "m"
  }

  /** The character class an entry's `blvl` pattern accepts. */
  function BLvlCodes(m: MaterialType): seq<char> {
    match m
    case BKS => "acdim" case SER => "bis" case MIX => "cdi"
    case VIS => "abcdims" case MAP => "abcdims" case SCO => "abcdims"
    case REC => "abcdims" case COM => "abcdims"
  }

  predicate Accepts(m: MaterialType, typeCode: char, blvl: char) {
    typeCode in TypeCodes(m) && blvl in BLvlCodes(m)
  }

  /** The first entry at or after position `k` of `Table` whose type class holds
      `typeCode`; its level class is then tested against `blvl`, as the loop's
      `and` does. Ok(None) when no entry accepts the pair. */
  function Search(typeCode: char, blvl: Option<char>, k: nat): (r: Result<Option<MaterialType>, LeaderError>)
    requires k <= |Table|
    ensures r.Ok? && r.value.Some? ==> blvl.Some? && Accepts(r.value.value, typeCode, blvl.value)
    ensures r == Ok(None) <==> forall j :: k <= j < |Table| ==>
      typeCode !in TypeCodes(Table[j]) || (blvl.Some? && blvl.value !in BLvlCodes(Table[j]))
    ensures r.Err? <==> blvl.None? && exists j :: k <= j < |Table| && typeCode in TypeCodes(Table[j])
    ensures r.Err? ==> r.error == TooShort
    decreases |Table| - k
  {
    if k == |Table| then
      Ok(None)
    else if typeCode !in TypeCodes(Table[k]) then Search(typeCode, blvl, k + 1)
    else if blvl.None? then Err(TooShort)
    else if blvl.value in BLvlCodes(Table[k]) then Ok(Some(Table[k]))
    else Search(typeCode, blvl, k + 1)
  }

  /** The type `Search` finds is the first entry from `k` on that accepts the pair. */
  lemma {:induction false} SearchFindsFirst(typeCode: char, blvl: Option<char>, k: nat)
    requires k <= |Table|
    requires Search(typeCode, blvl, k).Ok? && Search(typeCode, blvl, k).value.Some?
    ensures var m := Search(typeCode, blvl, k).value.value;
      Rank(m) >= k && forall j :: k <= j < Rank(m) ==> !Accepts(Table[j], typeCode, blvl.value)
    decreases |Table| - k
  {
    assert k < |Table|;
    var m := Search(typeCode, blvl, k).value.value;
    if typeCode in TypeCodes(Table[k]) && blvl.Some? && blvl.value in BLvlCodes(Table[k]) {
      assert m == Table[k];
      RankOfTable(k);
    } else {
      assert Search(typeCode, blvl, k) == Search(typeCode, blvl, k + 1);
      SearchFindsFirst(typeCode, blvl, k + 1);
      assert blvl.Some? && !Accepts(Table[k], typeCode, blvl.value);
      forall j | k <= j < Rank(m) ensures !Accepts(Table[j], typeCode, blvl.value) {
      }
    }
  }

  /** The entries of `Table` are distinct, so each sits at its own rank. */
  lemma RankOfTable(k: nat)
    requires k < |Table|
    ensures Rank(Table[k]) == k
  {
  }

  /** `Leader.type`: the material type of a record. */
  function Type(data: string): (r: Result<MaterialType, LeaderError>)
    ensures r.Ok? ==> |data| >= 8 && Accepts(r.value, data[6], data[7])
    ensures r.Ok? ==> forall j :: 0 <= j < Rank(r.value) ==> !Accepts(Table[j], data[6], data[7])
  {
    if |data| < 7 then Err(TooShort)
    else if data[6] !in ValidTypes then Err(InvalidType)
    else
      var blvl := if |data| >= 8 then Some(data[7]) else None;
      match Search(data[6], blvl, 0)
      case Err(e) => Err(e)
      case Ok(None) => Err(InvalidBLvl)
      case Ok(Some(m)) => SearchFindsFirst(data[6], blvl, 0); Ok(m)
  }

  /** Every valid type code is in some entry's type class, so a leader of
      exactly seven characters always reaches position 07 and fails there. */
  lemma EveryValidTypeHasEntry(c: char)
    requires c in ValidTypes
    ensures exists m :: c in TypeCodes(m)
  {
    if c in "at" { assert c in TypeCodes(BKS); }
    else if c in "gkro" { assert c in TypeCodes(VIS); }
    else if c == 'p' { assert c in TypeCodes(MIX); }
    else if c in "ef" { assert c in TypeCodes(MAP); }
    else if c in "cd" { assert c in TypeCodes(SCO); }
    else if c in "ij" { assert c in TypeCodes(REC); }
    else { assert c in TypeCodes(COM); }
  }

  /** The outcome of `Type` in full: which leaders fail, with which error, and
      that a success is an accepting entry and the first one in table order. */
  lemma TypeOutcomes(data: string)
    ensures Type(data) == Err(TooShort) <==> |data| < 7 || (|data| == 7 && data[6] in ValidTypes)
    ensures Type(data) == Err(InvalidType) <==> |data| >= 7 && data[6] !in ValidTypes
    ensures Type(data) == Err(InvalidBLvl) <==>
      |data| >= 8 && data[6] in ValidTypes && forall m :: !Accepts(m, data[6], data[7])
    ensures (exists m :: Type(data) == Ok(m)) <==>
      |data| >= 8 && data[6] in ValidTypes && exists m :: Accepts(m, data[6], data[7])
  {
    if |data| >= 7 && data[6] in ValidTypes {
      EveryValidTypeHasEntry(data[6]);
      var m :| data[6] in TypeCodes(m);
      assert Table[Rank(m)] == m;
      if |data| >= 8 {
        var r := Search(data[6], Some(data[7]), 0);
        forall m' ensures Accepts(m', data[6], data[7]) ==> r.Ok? && r.value.Some? {
          assert Table[Rank(m')] == m';
        }
        if r.Ok? && r.value.Some? {
          assert Type(data) == Ok(r.value.value);
        }
      }
    }
  }

  /** Only the pair ('a', 'i') is claimed by two entries (BKS and SER), so the
      search order decides the result for that pair alone. */
  lemma OnlyAmbiguousPair(m1: MaterialType, m2: MaterialType, t: char, b: char)
    requires m1 != m2 && Accepts(m1, t, b) && Accepts(m2, t, b)
    ensures t == 'a' && b == 'i' && {m1, m2} == {BKS, SER}
  {
  }

  /** SER comes before BKS in the iteration order, so the ambiguous pair is a
      serial. */
  lemma AmbiguousPairIsSerial(data: string)
    requires |data| >= 8 && data[6] == 'a' && data[7] == 'i'
    ensures Type(data) == Ok(SER)
  {
    var b := Some('i');
    assert Table[0] == VIS && Table[1] == SCO && Table[2] == MIX && Table[3] == SER;
    assert Search('a', b, 3) == Ok(Some(SER));
    assert Search('a', b, 2) == Search('a', b, 3);
    assert Search('a', b, 1) == Search('a', b, 2);
    assert Search('a', b, 0) == Search('a', b, 1);
    assert 'a' in ValidTypes && data[6] == 'a' && Some(data[7]) == b;
  }

  /** `bibliographic_level`: the label for position 07. */
  function BibliographicLevel(data: string): (r: Result<string, LeaderError>)
    ensures r.Ok? <==> |data| >= 8 && data[7] in "abcdims"
    ensures r == Err(TooShort) <==> |data| < 8
  {
    if |data| < 8 then Err(TooShort)
    else match data[7]
      case 'a' => Ok("Monographic component part")
      case 'b' => Ok("Serial component part")
      case 'c' => Ok("Collection")
      case 'd' => Ok("Subunit")
      case 'i' => Ok("Integrating resource")
      case 'm' => Ok("Monograph/Item")
      case 's' => Ok("Serial")
      case _ => Err(UnknownCode)
  }

  /** `encoding_level`: the label for position 17. */
  function EncodingLevel(data: string): (r: Result<string, LeaderError>)
    ensures r.Ok? <==> |data| >= 18 && data[17] in " 1234578IKLMEJ" && data[17] != '6'
    ensures r == Err(TooShort) <==> |data| < 18
  {
    if |data| < 18 then Err(TooShort)
    else match data[17]
      case ' ' => Ok("Full")
      case '1' => Ok("Full, not examined")
      case '2' => Ok("Less-than-full")
      case '3' => Ok("Abbreviated")
      case '4' => Ok("Core")
      case '5' => Ok("Partial")
      case '7' => Ok("Minimal")
      case '8' => Ok("Prepublication")
      case 'I' => Ok("Full-level input by OCLC participants")
      case 'K' => Ok("Less-than-full input by OCLC participants")
      case 'L' => Ok("Full-level input added from a batch process")
      case 'M' => Ok("Less-than-full added from a batch process")
      case 'E' => Ok("System-identified MARC error in batchloaded record")
      case 'J' => Ok("Deleted record")
      case _ => Err(UnknownCode)
  }

  /** `descriptive_cataloging_form`: the label for position 18. */
  function DescriptiveCatalogingForm(data: string): (r: Result<string, LeaderError>)
    ensures r.Ok? <==> |data| >= 19 && data[18] in " aiu"
    ensures r == Err(TooShort) <==> |data| < 19
  {
    if |data| < 19 then Err(TooShort)
    else match data[18]
      case ' ' => Ok("Non-ISBD")
      case 'a' => Ok("AACR2")
      case 'i' => Ok("ISBD")
      case 'u' => Ok("Unknown")
      case _ => Err(UnknownCode)
  }

  /** `is_archival` as written: it indexes the leader object, which defines no
      indexing, so every call raises TypeError whatever the leader holds. */
  function IsArchivalAsWritten(data: string): (r: Result<bool, LeaderError>)
    ensures r == Err(NotIndexable)
  {
    Err(NotIndexable)
  }

  /** `is_archival` as intended: position 08 (type of control) is 'a'. */
  function IsArchival(data: string): (r: Result<bool, LeaderError>)
    ensures r.Ok? <==> |data| >= 9
    ensures r.Ok? ==> (r.value <==> data[8] == 'a')
  {
    if |data| < 9 then Err(TooShort) else Ok(data[8] == 'a')
  }

  /** On an archival record's leader the written accessor raises where the
      intended one answers true. */
  lemma IsArchivalDiscrepancy()
    ensures IsArchivalAsWritten("00000cpca 2200000 a 4500").Err?
    ensures IsArchival("00000cpca 2200000 a 4500") == Ok(true)
  {
  }
}
