# Innovative Interfaces catalogue tools in Dafny

This project models the parts of the iiitools repository that turn what a III
(Innovative Interfaces Millennium) web catalogue serves into MARC records, and
the readers that cut MARC files into records:

- **Leader** (`leader.dfy`): the leader classifier. It gives a record's
  material type (BKS, SER, VIS, MIX, MAP, SCO, REC, COM) from leader positions
  6 and 7, and the labels of the bibliographic level, encoding level and
  descriptive cataloguing form.
- **Entities** (`entities.dfy`): the HTML entity unescaper. It covers decimal
  and hexadecimal character references, the re-escaping of `&amp;`, `&gt;` and
  `&lt;`, and named entities looked up in a table. A second version is the one
  of iii.py and opacsucker.py, which lacks the table's import.
- **Marc** (`marc.dfy`): the pymarc field and record shapes the decoder builds.
  It also holds the lookups `record[tag]`, `get_fields`, `field[code]` and
  `get_subfields`.
- **Decoder** (`decoder.dfy`): `Reader.decode_record`. It reads the page's
  pseudo-MARC text: a `LEADER` line, then one line per field, each continued by
  lines that start with a space. The field text is split on `|` into
  subfields.
- **Accessors** (`accessors.dfy`): the record accessors of iiitools.py. These
  are title, author fields, ISBN and ISSN, links, preceding and succeeding
  entries, notes, publishers and series, plus `strip_end_punctuation`.
- **CheckDigit** (`checkdigit.dfy`): the record-number check digit, a weighted
  sum modulo 11.
- **Crawl** (`crawl.dfy`): `record_exists`, `get_record` and `crawl_records`.
  The fetched pages are parameters.
- **III** (`iii.dfy`): the near-duplicate module iii.py, where it differs from
  iiitools.py.
- **Opac** (`opacsucker.dfy`): the older dictionary-based parser
  `IIIOpacRecord` / `IIIDataField` of experiments/opacsucker.py. Both are
  classes whose methods fill their dictionaries in place.
- **Readers** (`reader.dfy`): old-pymarc's `MARCReader` (length-prefixed
  transmission format), `ForgivingReader` (split on the record terminator
  0x1D) and `AlephSequentialReader` (runs of lines sharing a nine-character
  key). Each works over an in-memory file object with `read`, `readline`,
  `tell` and `seek`.
- **Text** and **Wrappers** (`text.dfy`, `wrappers.dfy`): the Python string
  primitives the code relies on, and Option/Result.

Python's exceptions are modelled as error values. For example, `Decoder.Decode`
returns `Failed(OrphanContinuation(i))` where the source raises IndexError on
`raw_fields[-1]`. Every error path of the source has a value, except the
OverflowError `unichr` raises on a character reference of 2^31 or more (see
"## Left out"). Loops in the
source are methods with loop invariants, proved equal to a specification
function. Properties of that function are proved as lemmas.

## Model

| member | source | states |
|---|---|---|
| Text.StripIdempotent | iiitools.py:246 | stripping an already stripped string changes nothing |
| Text.StripKeepsHead | iiitools.py:517 | `strip` keeps a leading non-space character as the first character |
| Text.FirstIndexAt | experiments/opacsucker.py:13-18 | the first occurrence of a character is unique: any position with no earlier occurrence is the one found |
| Text.Split | iiitools.py:520 | `split` on one character gives at least one part and no part contains the separator |
| Text.JoinSplit | old-pymarc/reader.py:64 | joining the parts of a split with the separator gives back the text |
| Text.SplitJoin | old-pymarc/reader.py:64 | splitting a join of separator-free parts gives back the parts |
| Text.SplitTrailingSeparator | old-pymarc/reader.py:64 | text ending in the separator splits with an empty last part |
| Text.Contains | experiments/opacsucker.py:13-18 | `index` succeeds exactly when the searched text occurs at some position |
| Text.OccursShift | experiments/opacsucker.py:13-18 | when there is no match at the front, an occurrence exists exactly when one exists in the tail |
| Text.DigitChar | iiitools.py:384 | the digit character of a number below ten is a digit whose value is that number |
| Text.ShowNat | iiitools.py:471 | `str(n)` is a non-empty run of digits without a leading zero |
| Text.DigitsValueShowNat | iiitools.py:471 | reading back the digits `str(n)` writes gives `n` |
| Text.ParseInt | iiitools.py:466 | `int(s)` succeeds exactly when the stripped text, less an optional sign and the white space after it, is a run of digits; the value is that run's, negated after `-` |
| Text.SignedWithSpaces | iiitools.py:466 | a sign, any white space, then digits read as the signed value of the digits, so `int('- 5') == -5` |
| Text.ParseUnsigned | old-pymarc/reader.py:53 | `int` of a digit run is its decimal value |
| Text.ParseDigit | iiitools.py:378 | `int(c)` of one character is its digit value and fails on any non-digit |
| Text.ParseShowInt | iiitools.py:466-471 | `int(str(i)) == i` for every integer |
| Text.StripUnpadded | iiitools.py:490 | text without white space at either end is its own strip |
| Leader.Search | iiitools.py:53-68 | a type found accepts both codes; None exactly when no type from the starting entry has both; an error exactly when position 7 is missing and some type matches position 6 |
| Leader.SearchFindsFirst | iiitools.py:64-66 | the type found is the first entry, in table order, that accepts both codes |
| Leader.Type | iiitools.py:46-68 | a type returned accepts leader positions 6 and 7, and no earlier type in the table does |
| Leader.EveryValidTypeHasEntry | iiitools.py:47-61 | every valid type code is listed by some material type |
| Leader.TypeOutcomes | iiitools.py:46-68 | all four outcomes as if-and-only-if conditions: too short, invalid type (position 6 not listed), invalid level (no type accepts the pair), and a type |
| Leader.OnlyAmbiguousPair | iiitools.py:53-62 | the only code pair two material types both accept is type `a` with level `i`, shared by BKS and SER |
| Leader.AmbiguousPairIsSerial | iiitools.py:53-66 | that pair is classified as SER, because CPython 2.7 iterates the dictionary with SER before BKS |
| Leader.BibliographicLevel | iiitools.py:76-87 | a label exactly for the seven level codes at position 7; too short exactly when there is no position 7 |
| Leader.EncodingLevel | iiitools.py:95-113 | a label exactly for the fourteen listed codes at position 17, never for `6` |
| Leader.DescriptiveCatalogingForm | iiitools.py:121-126 | a label exactly for ` `, `a`, `i`, `u` at position 18 |
| Leader.IsArchivalAsWritten | iiitools.py:38-39 | indexing the Leader object itself always raises |
| Leader.IsArchival | iiitools.py:38-39 | true exactly when leader position 8 is `a` |
| Leader.IsArchivalDiscrepancy | iiitools.py:38-39 | on an archival leader the code as written raises while the corrected one answers true |
| Marc.ControlTagIsZeroZero | iiitools.py:506 | a three-character tag is a control tag (`tag < '010'` and all digits) exactly when it is `00` and a digit |
| Marc.SubfieldValues | iiitools.py:200 | `get_subfields` gives at most one value per subfield, and nothing exactly when no subfield has the code |
| Marc.SubfieldValuesMembers | iiitools.py:200 | the values `get_subfields` returns are exactly those filed under the code |
| Marc.Sub | iiitools.py:206 | `field[code]` is None for control fields and for missing codes, else the first value of that code |
| Marc.FieldsWithTag | iiitools.py:187 | `get_fields(tag)` holds exactly the record's fields with that tag |
| Marc.FieldsWithTagAppend | iiitools.py:187 | `get_fields` distributes over concatenation of field lists |
| Marc.FirstWithTag | iiitools.py:192 | `record[tag]` is the first field with the tag, None when there is none |
| Marc.FirstIsHeadOfAll | iiitools.py:192 | `record[tag]` is the head of `get_fields(tag)` |
| Entities.UnescapePlain | iiitools.py:608-609 | text without `&` is unchanged |
| Entities.Unescape | iiitools.py:567-609 | `regex.sub(fixup, text)`: scans left to right, replacing each `&#?\w+;` match; its meaning is stated by UnescapePlain, UnescapePlainPrefix, UnescapeAtMatch, UnescapeWhole and UnescapeEmpty |
| Entities.UnescapeEmpty | iiitools.py:579-609 | unescaping gives empty text exactly for empty text |
| Entities.Replacement | iiitools.py:579-607 | `fixup` gives one character, the match unchanged, or the match re-escaped after `&amp;`; an unknown named entity is kept as written |
| Entities.UnescapePlainPrefix | iiitools.py:608-609 | a prefix without `&` passes through unchanged ahead of the unescaped rest |
| Entities.UnescapeAtMatch | iiitools.py:608-609 | at a match the replacement is followed by the unescaped rest |
| Entities.ReferenceMatches | iiitools.py:608 | `&` or `&#`, a run of word characters, then `;` is matched as one reference |
| Entities.UnescapeWhole | iiitools.py:608-609 | text that is one whole match is its replacement |
| Entities.DecimalReference | iiitools.py:589 | `&#n;` gives the character with code n, for every character |
| Entities.ReescapedNames | iiitools.py:596-601 | each of `&amp;`, `&gt;`, `&lt;` becomes `&amp;` followed by the name and `;`, for any entity table |
| Entities.ReescapedReplacement | iiitools.py:596-601 | the replacement of a match `&amp;`, `&gt;` or `&lt;` is the re-escaped name |
| Entities.HexDigitsValueShowHex | iiitools.py:587 | the hexadecimal digits written for a number read back as that number |
| Entities.ParseShowHex | iiitools.py:587 | `int(h, 16)` of a number's hexadecimal digits, with or without a `0x` prefix, is that number |
| Entities.HexText | iiitools.py:586-608 | `&#x`, word characters and `;` are one whole match whose hexadecimal text sits between `&#x` and `;` |
| Entities.HexReference | iiitools.py:586-587 | `&#xH;` (and `&#x0xH;`) written for any character gives that character back |
| Entities.SurrogateReferenceKept | iiitools.py:585-592 | a reference to a surrogate code point is kept as written; this deviates from the source, where `unichr` returns a lone surrogate (see "## Left out") |
| Entities.ReplacementAsWritten | iii.py:467-490 | the unescaper of iii.py fails exactly on named entities other than `amp`, `gt`, `lt` |
| Entities.UnescapeAsWritten | iii.py:458-493 | text without `&` comes back unchanged and never raises; a successful result is empty exactly for empty text |
| Entities.AsWrittenAgrees | iii.py:458-493 | where the iii.py unescaper succeeds it agrees with the corrected one, whatever the entity table |
| Entities.AsWrittenRaisesOnNamedEntity | iii.py:490 | `&raquo;` raises NameError as written and becomes `»` once the table is imported |
| Decoder.StartToken | iiitools.py:506-513 | a field's start line gives its tag, both indicators, and a value prefixed with `a` unless the tag is a control tag |
| Decoder.Tokenize | iiitools.py:494-513 | gathering lines gives at most one field per line, and fails only with an orphan continuation or a short start line |
| Decoder.Lines | iiitools.py:486 | the stripped page splits into at least one line |
| Decoder.Decode | iiitools.py:477-529 | not a record exactly when the first line does not start with `LEADER`; the leader is that line from column 7, stripped; the record type is the leader's; every field is well formed |
| Decoder.BuildField | iiitools.py:515-526 | the field loop builds exactly the field of one gathered token |
| Decoder.BuildSubfields | iiitools.py:520-525 | the subfield loop keeps exactly the subfields of the non-empty segments |
| Decoder.ReadTokens | iiitools.py:494-513 | the line loop's result equals the gathering function, error line included |
| Decoder.BuildFields | iiitools.py:515-526 | the field loop builds one field per token, in order |
| Decoder.DecodeRecord | iiitools.py:477-529 | the method equals the decoding function |
| Decoder.TokenizeOutcome | iiitools.py:494-513 | gathering succeeds exactly when the first line is not a continuation and every start line has at least five characters |
| Decoder.TokenizeErrors | iiitools.py:503-509 | an orphan continuation is reported at line 0; a short line is reported at the first short start line |
| Decoder.TokenizeStopsAt | iiitools.py:494-513 | the first line that fails after a successful prefix gives the error of the whole body |
| Decoder.AddLineEffect | iiitools.py:494-513 | one line adds its unescaped text to the values (after `a` when it opens a data field), its stripped text to the raw texts, and its head when it opens a field |
| Decoder.ContinuationEffect | iiitools.py:498-505 | a continuation line extends the last field's text and raw text and adds no head |
| Decoder.StartEffect | iiitools.py:506-513 | a start line appends one field with its head, its prefixed text and its stripped raw text |
| Decoder.TokensFollowLines | iiitools.py:494-513 | the fields' heads are the start lines' heads in order; the concatenated values and raw texts are those of all lines |
| Decoder.FieldPerStartLine | iiitools.py:494-526 | one field per start line, with that line's tag and indicators |
| Decoder.FirstSubfieldIsA | iiitools.py:506 | every data field of a decoded record has a first subfield with code `a` |
| Decoder.DataFieldOpensWithA | iiitools.py:506-522 | a data field whose value opens with `a` gets `a` as its first subfield code |
| Decoder.SubfieldsRoundTrip | iiitools.py:520-522 | writing subfields as `code+value` joined by `|` and reading them back gives the same subfields |
| Decoder.EmptySegmentSkipped | iiitools.py:521-525 | an empty segment adds no subfield (IndexError is skipped) |
| Decoder.SingleCharacterSegmentKept | iiitools.py:522 | a one-character segment adds a subfield with an empty value |
| Accessors.StripEndPunctuation | iiitools.py:611-612 | drops exactly the last character, and only when it is punctuation; empty text raises |
| Accessors.Title | iiitools.py:339-343 | fails with no such field exactly when there is no 245 |
| Accessors.TitleOfThreeParts | iiitools.py:339-343 | with `a`, `b` and `c` present the title is the three joined by spaces, less trailing punctuation |
| Accessors.TitleFails | iiitools.py:339-343 | a 245 field gives an error exactly when none of `a`, `b`, `c` has a value |
| Accessors.TitleOfA | iiitools.py:339-343 | a 245 with only a non-empty `a` gives `strip_end_punctuation(a)` |
| Accessors.TitleWithoutA | iiitools.py:339-343 | a 245 with `b` or `c` but no truthy `a` gives a non-empty title starting with a space |
| Accessors.Identifier | iiitools.py:160 | the longest non-empty prefix of word characters and hyphens; None when the text does not start with one |
| Accessors.Identifiers | iiitools.py:260-272 | at most one identifier per field |
| Accessors.Isbn | iiitools.py:260-265 | succeeds exactly when every 020 field has subfield `a` |
| Accessors.Issn | iiitools.py:267-272 | succeeds exactly when every 022 field has subfield `a` |
| Accessors.IdentifiersOkByTag | iiitools.py:260-272 | the identifiers of the fields with a tag succeed exactly when each such field has `a` |
| Accessors.IdentifiersSpec | iiitools.py:260-272 | succeeds exactly when every field has subfield `a`; the identifiers are exactly those of the fields' `a` values |
| Accessors.IdentifiersOk | iiitools.py:260-272 | the identifier list fails exactly when some field lacks subfield `a` |
| Accessors.IdentifiersMembers | iiitools.py:260-272 | a successful list holds an identifier exactly when some field's `a` value starts with it |
| Accessors.IdentifiersLast | iiitools.py:260-272 | in a successful list the last field's identifier, if any, comes after those of the fields before it |
| Accessors.FieldIdentifier | iiitools.py:266-270 | one field with `a` contributes at most one identifier: the one its `a` value starts with, if any |
| Accessors.IdentifiersStep | iiitools.py:260-272 | one more field appends its identifier after those before it, and a field without `a` fails the whole list |
| Accessors.IdentifiersSingle | iiitools.py:260-272 | one field gives its own identifier list, or fails without `a` |
| Accessors.IdentifiersAppend | iiitools.py:260-272 | the list of two runs of fields is the first run's list followed by the second's, and fails when either fails; order and multiplicity follow the fields |
| Accessors.LinksOf | iiitools.py:274-277 | one link per 856 field |
| Accessors.HasLink | iiitools.py:176-177 | true exactly when some field has tag 856 |
| Accessors.Links | iiitools.py:274-277 | succeeds exactly when every 856 field has both `u` and `z`, with one link per 856 field |
| Accessors.LinksOfSpec | iiitools.py:274-277 | succeeds exactly when every field has `u` and `z`; each link is that field's first `u` and first `z` |
| Accessors.Label | iiitools.py:248 | a label exactly when the indicator is a digit below the table size, and then the label at that index |
| Accessors.LabelIsIntIndex | iiitools.py:248 | the label is the table entry at `int(indicator)`; none where `int` raises ValueError or the index raises IndexError |
| Accessors.EntriesOf | iiitools.py:244-257 | succeeds exactly when every field's relation is defined; one entry per field with its title, ISSN and relation |
| Accessors.EntryPreceding | iiitools.py:244-250 | succeeds exactly when every 780 field has a preceding relation, with one entry per 780 field |
| Accessors.EntrySucceeding | iiitools.py:252-258 | succeeds exactly when every 785 field has a succeeding relation, with one entry per 785 field |
| Accessors.PrecedingIndicators | iiitools.py:236-248 | a preceding relation exactly for second indicators 0 to 7, with that label; the relation is "Formed by the union of" exactly for indicator 4 |
| Accessors.SucceedingIndicators | iiitools.py:256 | a succeeding relation exactly for a blank indicator or 0 to 8; the empty relation exactly for a blank |
| Accessors.EntryTitleWithoutParts | iiitools.py:246 | with neither `a` nor `t` the title is `None None` |
| Accessors.FormattedAppend | iiitools.py:285 | formatting distributes over concatenation |
| Accessors.Notes | iiitools.py:280-286 | the loop over tags 500 to 598 gives the formatted note fields in tag order |
| Accessors.NoteFieldsMembers | iiitools.py:281-285 | a field is a note exactly when its tag is 500 to 598 and not one of 505, 506, 520, 580, 590 |
| Accessors.AuthorPriority | iiitools.py:190-194 | the first 100 field wins over 110, which wins over 111, each giving its formatted first field; with none of them the author is empty |
| Accessors.Author | iiitools.py:190-194 | empty without a 100, 110 or 111; a non-empty author is the format of such a field |
| Accessors.FieldList | iiitools.py:214 | one formatted entry per field with the tag, and exactly those fields' formats |
| Accessors.JoinWithLength | iiitools.py:187 | the joined text's length is the parts' lengths plus one separator between each pair |
| Accessors.FirstFormatted | iiitools.py:218-219 | the formatted first field with the tag when one exists, else the empty text (also `edition`, `pub_frequency` and the like) |
| Accessors.JoinWith | iiitools.py:187 | joining no parts gives the empty text |
| Accessors.JoinedList | iiitools.py:186-187 | no field with the tag gives the empty text |
| Accessors.AuthorName | iiitools.py:197-201 | empty with no author field; otherwise the first `a` value, and IndexError when it has none |
| Accessors.AuthorDates | iiitools.py:204-208 | non-empty exactly when some author field, taken in priority order, has a `c` value, and then every `c` value of that field |
| Accessors.DatedAuthorFieldFirst | iiitools.py:204-208 | a dated author field exists exactly when some tag's first field has a `c` value; it is the first field of the first such tag, every earlier tag being skipped |
| Accessors.OtherAuthors | iiitools.py:211-215 | the first of 700, 710, 711 present gives the list of that tag's formatted fields; empty exactly when none is present |
| Accessors.PublisherNamesOf | iiitools.py:297-298 | exactly the stripped `b` values of the 260 fields that have one |
| Accessors.PublisherNames | iiitools.py:297-298 | at most one name per 260 field, and each name is the stripped `b` of some 260 field |
| Accessors.FieldPublisherName | iiitools.py:297-298 | one field contributes one name exactly when it has a non-empty `b` |
| Accessors.PublisherNamesStep | iiitools.py:297-298 | one more field appends its name, if any, after those of the fields before it |
| Accessors.PublisherNamesSingle | iiitools.py:297-298 | one field gives its stripped `b` when it has one, else nothing |
| Accessors.PublisherNamesAppend | iiitools.py:297-298 | the names of two runs of fields are the first run's followed by the second's |
| Accessors.Series | iiitools.py:313-316 | empty exactly when there is neither a 490 nor a 440; the 490 list, equal to the code as written, when a 490 exists; otherwise the 440 list |
| Accessors.SeriesAsWritten | iiitools.py:313-316 | one entry per 490 field and nothing else |
| Accessors.SeriesAsWrittenMisses440 | iiitools.py:313-316 | a record with only a 440 gets no series as written and that field with the correction |
| Accessors.SeriesAsWrittenMissesAll440 | iiitools.py:313-316 | on every record with a 440 and no 490, the code as written lists nothing and the correction lists the 440 fields |
| Accessors.EntryPrecedingIsUnion | iiitools.py:234-237 | true exactly when the first 780 is a data field with second indicator 4; agrees with the code wherever the code does not raise |
| Accessors.EntryPrecedingIsUnionAsWritten | iiitools.py:234-237 | raises exactly when there is no 780; otherwise true exactly when the first 780 is a data field with second indicator 4 |
| Accessors.EntryPrecedingIsUnionRaises | iiitools.py:237 | the code as written raises NameError (`false`) exactly when there is no 780 |
| CheckDigit.CheckChar | iiitools.py:383-384 | `x` exactly for remainder 10, otherwise the digit of the remainder |
| CheckDigit.CheckDigitOf | iiitools.py:366-384 | nothing exactly without a record number; an error exactly when a character after the first is not a digit; otherwise `0` to `9` or `x` |
| CheckDigit.ComputeCheckDigit | iiitools.py:366-384 | the loop over the reversed digits with rising weights equals the check-digit function |
| CheckDigit.WeightedSumCons | iiitools.py:377-382 | a leading digit adds its value times the highest weight |
| CheckDigit.WeightedSumAppend | iiitools.py:377-382 | the weighted sum of two digit runs splits at their boundary |
| CheckDigit.WeightedSumClosedForm | iiitools.py:377-382 | the right-to-left loop equals a left-to-right weighting |
| CheckDigit.CheckDigitRange | iiitools.py:366-384 | None exactly for a missing or empty number; an error exactly when a non-digit follows the prefix; otherwise one of `0`-`9`, `x` |
| CheckDigit.SwapPair | iiitools.py:377-382 | swapping two adjacent digits changes the sum by their difference |
| CheckDigit.ShiftChangesRemainder | iiitools.py:383 | a change of less than 11 changes the remainder mod 11 |
| CheckDigit.TranspositionDetected | iiitools.py:366-384 | swapping two different adjacent digits always changes the check digit |
| Crawl.GetRecord | iiitools.py:425-452 | a record only for a `b` number whose page exists, and then the decoded MARC text; no `b` prefix raises; a missing page gives nothing |
| Crawl.BibNumberRoundTrip | iiitools.py:466-471 | the number of the record name `b%s` reads back as itself |
| Crawl.Bound | iiitools.py:463-467 | a bound is accepted exactly when it has the `b` prefix and a number after it |
| Crawl.Crawl | iiitools.py:454-475 | a result only for two valid bounds, with at most one record per number of the inclusive range |
| Crawl.RecordExists | iiitools.py:409-423 | true exactly when the page came back non-empty and nowhere contains `No Such Record` |
| Crawl.Collect | iiitools.py:470-474 | the collected records are at most the numbers in the range |
| Crawl.CrawlRecords | iiitools.py:454-475 | the crawl method equals the crawl function |
| Crawl.CollectRecords | iiitools.py:470-474 | the loop equals the collection function |
| Crawl.CollectErrPersists | iiitools.py:470-474 | after a lookup raises, the crawl's result is that error |
| Crawl.CollectSpec | iiitools.py:470-474 | succeeds exactly when no lookup raises; the records are exactly those found |
| Crawl.CollectFailure | iiitools.py:470-474 | a failure names the first number whose lookup raised |
| Crawl.CollectSplit | iiitools.py:470-474 | a successful crawl is the concatenation of crawls over two halves |
| Crawl.CollectAllFound | iiitools.py:470-474 | when every lookup finds a record, the result lists them in number order |
| Crawl.CrawlRejectsBounds | iiitools.py:463-467 | invalid bounds exactly when one lacks the prefix or its number |
| Crawl.CrawlIsInclusive | iiitools.py:467 | the end bound is included: `hi - lo + 1` records when all are found |
| III.FirstWhere | iii.py:421-423 | the first line satisfying a test, None exactly when none does |
| III.Decode | iii.py:412-456 | not a record exactly when the first line does not start with `LEADER` |
| III.TokenizeSameBodies | iii.py:421-440 | lines whose bodies unescape alike gather alike |
| III.DecodeAgrees | iii.py:412-456 | when no line's unescape raises, iii.py decodes as iiitools.py does |
| III.DecodeRaises | iii.py:423 | the first line carrying a named entity makes decoding fail with NameError at that line |
| III.FirstWhereAfterHead | iii.py:421 | the first match after the leader line is found at its index less one |
| III.GetRecord | iii.py:374-392 | a record only for an existing `b` number, and then iii.py's decoding of the MARC text |
| III.EntriesOf | iii.py:206-219 | succeeds exactly when every indicator is a digit within the label table; one entry per field with the `x` value as ISSN |
| III.EntryPreceding | iii.py:206-211 | succeeds exactly when every 780 is a data field whose second indicator is a digit below 8, with one entry per 780 |
| III.EntrySucceeding | iii.py:214-219 | succeeds exactly when every 785 is a data field whose second indicator is a digit below 9, with one entry per 785 |
| III.BlankSucceedingIndicatorRaises | iii.py:218 | a blank second indicator on a 785 makes iii.py raise where iiitools.py gives an empty relation |
| III.IdentifiersOrEmpty | iii.py:222-239 | the identifiers, or an empty list when a field lacks `a` (TypeError caught) |
| III.Isbn | iii.py:222-230 | the iiitools.py ISBN list when that succeeds; empty when some 020 lacks `a` |
| III.Issn | iii.py:232-240 | the iiitools.py ISSN list when that succeeds; empty when some 022 lacks `a` |
| III.MissingSubfieldEmptiesIsbn | iii.py:222-229 | one 020 without `a` empties the whole ISBN list, where iiitools.py raises |
| III.AuthorDates | iii.py:162-166 | the `c` values of the first author field present, even when it has none |
| III.AuthorDatesStopAtFirstEntry | iii.py:162-166 | a 100 with subfields but no `c` hides a dated 110, which iiitools.py would return |
| Opac.Segments | experiments/opacsucker.py:148-149 | the segments of `'a' + raw[3:]`: at least one, the first opening with `a` |
| Opac.FirstSegmentOfLeadingA | experiments/opacsucker.py:148-149 | a text opening with `a` splits into a first segment that opens with `a` |
| Opac.SubfieldMap | experiments/opacsucker.py:150-151 | succeeds exactly when no segment is empty |
| Opac.SubfieldMapLastWins | experiments/opacsucker.py:150-151 | the codes are the segments' first characters; the last segment with a code gives its value |
| Opac.ParseRaw | experiments/opacsucker.py:141-151 | succeeds exactly with at least two characters and no empty segment; the indicators are the first two characters; subfield `a` is always present |
| Opac.FieldContents | experiments/opacsucker.py:132-139 | empty raw text leaves blank indicators and no subfields |
| Opac.TrailingBarFails | experiments/opacsucker.py:150-151 | a text ending in `|` raises IndexError |
| Opac.ImplicitSubfieldA | experiments/opacsucker.py:146-151 | without `|` the whole text from column 3 is subfield `a` |
| Opac.ThirdCharacterSkipped | experiments/opacsucker.py:148 | the third character of the raw text does not matter |
| Opac.OpacDataField.constructor | experiments/opacsucker.py:132-136 | a new field has blank indicators and no subfields |
| Opac.OpacDataField.ProcessRawString | experiments/opacsucker.py:141-151 | succeeds exactly when the text parses; then indicators 1 and 2 and the subfields are updated in place |
| Opac.OpacDataField.AddSegments | experiments/opacsucker.py:150-151 | the loop adds the segment map to the subfields, and fails exactly on an empty segment |
| Opac.SubfieldMapErrPersists | experiments/opacsucker.py:150-151 | an empty segment fails every longer list |
| Opac.NewDataField | experiments/opacsucker.py:131-139 | the constructed field holds the parse of its text, and raises exactly when that fails |
| Opac.Step | experiments/opacsucker.py:118-125 | a start line sets its tag's text and becomes the last tag; a continuation appends to the last tag's text |
| Opac.Gather | experiments/opacsucker.py:112-125 | the leader is always kept; the last tag is empty or a gathered tag of at most three characters |
| Opac.GatherKeys | experiments/opacsucker.py:112-125 | the keys are `leader` and the tags of all start lines |
| Opac.LeaderKept | experiments/opacsucker.py:113 | the leader's text is the first line from column 7 |
| Opac.LaterLinesOfOtherTags | experiments/opacsucker.py:124 | a tag's text is that of its last start line when only other tags start after it |
| Opac.ContinuationFirstFails | experiments/opacsucker.py:119-120 | a continuation before any start line raises |
| Opac.GatherErrPersists | experiments/opacsucker.py:117-125 | an error on a prefix is the error of the whole |
| Opac.GatherRawFields | experiments/opacsucker.py:112-125 | the gathering loop equals the gathering function |
| Opac.ParsedFields | experiments/opacsucker.py:128-129 | one parsed field per raw field, same keys |
| Opac.OpacRecord.constructor | experiments/opacsucker.py:104-106 | a new record holds its text and no fields |
| Opac.OpacRecord.ProcessRaw | experiments/opacsucker.py:110-129 | gathering errors propagate; otherwise succeeds exactly when every field parses and then adds every parsed field |
| Opac.OpacRecord.AddFields | experiments/opacsucker.py:128-129 | the loop adds every parsed field, or names a field that fails |
| Opac.NewRecord | experiments/opacsucker.py:104-108 | an empty text gives no fields; otherwise the fields are the parse of the text, exactly when it parses |
| Opac.GetRecord | experiments/opacsucker.py:88-100 | nothing exactly when the page is missing; otherwise a record of the MARC text, or a raise when the text is missing or fails to parse |
| Readers.ReadFront | old-pymarc/reader.py:47 | `read(n)` gives a prefix of what is left, of length n or the rest; a negative n reads everything |
| Readers.LineEnd | old-pymarc/reader.py:94 | a line ends past where it starts, unless the file is at its end |
| Readers.LineEndNewlines | old-pymarc/reader.py:94 | a line has no newline before its last character, and ends in a newline unless it reaches the end of the file |
| Readers.StringStream.Read | old-pymarc/reader.py:47-54 | returns what `read(n)` gives and advances past it |
| Readers.StringStream.ReadLine | old-pymarc/reader.py:94 | returns the text up to and including the next newline and advances past it |
| Readers.StringStream.Tell | old-pymarc/reader.py:102 | returns the position |
| Readers.StringStream.Seek | old-pymarc/reader.py:106 | moves to the given position |
| Readers.MarcNext | old-pymarc/reader.py:43-57 | stops exactly at the end; RecordLengthInvalid exactly for fewer than five characters left; otherwise a chunk of at least five characters from the front |
| Readers.MarcRecords | old-pymarc/reader.py:43-57 | the records read in turn, when none fails, concatenate back to the file, each of at least five characters |
| Readers.MarcNextShort | old-pymarc/reader.py:47-51 | fewer than five characters left: all of them are read, and `next` stops on none or raises RecordLengthInvalid otherwise |
| Readers.MarcNextReadsRecord | old-pymarc/reader.py:43-57 | a record whose first five digits give its length is read whole, whatever follows |
| Readers.MarcRoundTrip | old-pymarc/reader.py:43-57 | reading a concatenation of length-prefixed records gives back those records |
| Readers.ShortLengthReadsToEnd | old-pymarc/reader.py:53-54 | a length below 5 makes `read` take the rest of the file |
| Readers.TruncatedRecordIsShort | old-pymarc/reader.py:54-55 | a truncated last record is handed on short, not rejected |
| Readers.MarcReader.constructor | old-pymarc/reader.py:31-41 | the reader opens an in-memory file at position 0 |
| Readers.MarcReader.Next | old-pymarc/reader.py:43-57 | the result and the distance read are those of the specification |
| Readers.TerminatedRecords | old-pymarc/reader.py:64 | a file of terminated records splits into those records and a final empty text |
| Readers.TerminatedIsJoin | old-pymarc/reader.py:64 | terminating each record is joining them with an empty last part |
| Readers.ForgivingReader.constructor | old-pymarc/reader.py:62-65 | the lines are the file split on 0x1D, the index is 0 and the file has been read to its end |
| Readers.ForgivingReader.Next | old-pymarc/reader.py:67-77 | at the end it stops and resets the index to 0; otherwise it gives the current chunk and advances |
| Readers.ForgivingChunksCoverFile | old-pymarc/reader.py:64-77 | the chunks joined with 0x1D are the file, and no chunk holds a terminator |
| Readers.RunEnd | old-pymarc/reader.py:100-104 | a run ends within the file, not before it starts |
| Readers.AlephEnd | old-pymarc/reader.py:94-104 | a record ends past its start |
| Readers.AlephNext | old-pymarc/reader.py:89-108 | stops exactly at the end; otherwise the chunk is the text from the position to the record's end |
| Readers.RunMaximal | old-pymarc/reader.py:100-104 | the line after a run has another key |
| Readers.RunLinesShareKey | old-pymarc/reader.py:100-104 | every line within a run has the run's key |
| Readers.AlephRecordsCoverFile | old-pymarc/reader.py:89-108 | the records read one after another concatenate to the file |
| Readers.AlephKeysChange | old-pymarc/reader.py:97-104 | consecutive records have different keys |
| Readers.AlephSequentialReader.constructor | old-pymarc/reader.py:86-87 | the reader opens an in-memory file at position 0 |
| Readers.AlephSequentialReader.Next | old-pymarc/reader.py:89-108 | the loop's chunk and the position it seeks back to are those of the specification |

## Left out

- HTTP: `get_page`, `urllib2` and the URL templates are left out. The fetched record page and the text between `<pre>` tags are parameters; a missing `<pre>` block is the missing-text case.
- `get_items_for_record` and its HTML parsing, `Reader.__init__` and the pymarc `Record` attributes set after decoding (`bibnumber`, `raw`, `src_host`, the URLs) are left out. They are plain assignments or HTML scraping.
- Latin-1 decoding and UTF-8 encoding of line text are left out: text is a sequence of characters throughout.
- `print` statements and the ValueError/KeyError messages are left out. The crawl of iii.py (iii.py:394-410) prints as it goes; the model of it is Crawl.Crawl with III.GetRecord, over iii.py's own decoder, as the lookup, so a record whose MARC text names an entity such as `&raquo;` fails there with NameError instead of being decoded.
- Entities.Unescape: `\w` is modelled as ASCII letters, digits and `_`, not Unicode word characters.
- Entities.SurrogateReferenceKept: states the model's behaviour, not the source's. The source returns a lone surrogate for a reference to 0xD800 to 0xDFFF; the model keeps the reference as written, because a Dafny `char` cannot hold a surrogate.
- Entities.Unescape: a reference to a surrogate code point (0xD800 to 0xDFFF) is kept as written. Python 2's `unichr` returns a lone surrogate there on narrow and wide builds alike; a Dafny `char` cannot hold one.
- Entities.Unescape: a character reference whose number is 2^31 or more makes `unichr` raise OverflowError, which `fixup` does not catch (iiitools.py:587-590, iii.py:473-476, experiments/opacsucker.py:43-46). The model keeps the text as written there, as it does for the ValueError below 2^31.
- Entities.Unescape: code points 0x10000 to 0x10FFFF are resolved to their character, as on a wide (UCS-4) build. A narrow build raises ValueError there and keeps the text.
- Entities.ReplacementAsWritten: the same OverflowError is not modelled; the iii.py unescaper keeps such a reference.
- Decoder.Tokenize: the line text is unescaped, so a character reference of 2^31 or more would raise OverflowError. The model does not, and its success condition ignores that case.
- Decoder.TokenizeOutcome: the success condition does not include the OverflowError of a character reference of 2^31 or more.
- iii.py's `title`, `author`, `addedentries`, `location` and `pubyear` (iii.py:144-148) are pymarc's `Record` methods, which are not part of this model.
- Entities.Unescape: the entity table `htmlentitydefs.name2codepoint` is a parameter.
- `Field.format_field` is a parameter of the accessors that use it (author, notes, series and the other formatted lists). Its text is not modelled.
- The remaining formatted-field accessors of iiitools.py (call number, edition, contents, subjects, and the like) are one-line uses of `record[tag]` or `get_fields` with `format_field`. Accessors.FieldList, Accessors.FirstFormatted and Accessors.JoinWith cover their shapes; they have no member of their own.
- pymarc's `Record(chunk)` and `AlephSequentialRecord` parsing are not part of this model: a reader's `next` gives the chunk it would parse.
- `map_records` is left out: it only applies a caller's function to every record of `MARCReader`.
- A reader's file object is an in-memory string with a position (`StringStream`), whether the source got a string or a file.
- Field truthiness (`if self['780']`) is modelled as presence: a field found by tag is always truthy, as an object without `__len__` or `__nonzero__` is. pymarc's `Field` class is not part of this model.
- Opac.OpacRecord: fields are stored as parsed values (indicators and subfield map), not as separate `IIIDataField` objects. Aliasing between records and fields is therefore not modelled.
- Opac.OpacRecord.AddFields: Python's dictionary order is not modelled. The loop picks any remaining key, so which bad field is reported is left open.
- Opac.OpacRecord.ProcessRaw: on an error path the fields already added are left unspecified.
- Opac.OpacDataField.ProcessRawString: on an error path the subfields already added are left unspecified.
- Decoder.Decode: the `55`/`260` extra-space branch for continuation lines is modelled as never taken. A continuation's tag starts with a space, so `tag.startswith` on those prefixes is always false.
- Leader.Type: the table is searched in the order CPython 2.7 iterates the dictionary literal when hash randomisation is off, which is the default: VIS, SCO, MIX, SER, COM, BKS, REC, MAP. With randomisation on (`python -R`), the order changes from run to run, and type `a` with level `i` may give BKS. The model does not cover that. Only that pair is accepted by two types (Leader.OnlyAmbiguousPair), so no other outcome depends on the order.

## Findings

| source | as written | input that shows it | evidently intended | confidence | as-written member | corrected member |
|---|---|---|---|---|---|---|
| iiitools.py:38-39 | `self[8]` indexes the Leader object, which has no `__getitem__`, so `is_archival` always raises TypeError | any leader, e.g. `00000cpca 2200000 a 4500` | test leader position 8 for `a` | not executed | Leader.IsArchivalAsWritten | Leader.IsArchival |
| iii.py:490 | `htmlentitydefs` is never imported, so any named entity other than `amp`, `gt`, `lt` raises NameError (the same at experiments/opacsucker.py:60) | `&raquo;` | replace it with its character, as iiitools.py:580 does | not executed | Entities.UnescapeAsWritten | Entities.Unescape |
| iiitools.py:237 | `return false` names an undefined variable, so a record without a 780 raises NameError (the same at iii.py:199) | a record with no 780 field | return False | not executed | Accessors.EntryPrecedingIsUnionAsWritten | Accessors.EntryPrecedingIsUnion |
| iiitools.py:313-316 | the loop returns on its first pass, so 440 fields are never listed (the same at iii.py:267-270) | a record with a 440 and no 490 | list the 490 fields, or the 440 fields when there are none | not executed | Accessors.SeriesAsWritten | Accessors.Series |
