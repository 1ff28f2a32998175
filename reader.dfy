/**
 * The record-framing readers of old-pymarc/reader.py. Each reader cuts the
 * next record's text out of an in-memory file and hands it to pymarc's record
 * parser, which this model leaves opaque: a reader's `next` gives the text it
 * cut (the chunk), the end of iteration, or an error.
 */
module Readers {
  import opened Wrappers
  import opened Text

  /** RecordLengthInvalid, or the ValueError of `int(first5)`. */
  datatype ReadError = RecordLengthInvalid | LengthNotANumber

  /** What one call of `next` gives: StopIteration, the chunk handed to the
      record parser, or an exception. */
  datatype NextResult = Stop | Chunk(text: string) | Failed(error: ReadError)

  /** `f.read(n)` on what is left of a file: a negative size reads to the end. */
  function ReadFront(rest: string, n: int): (r: string)
    ensures |r| <= |rest| && r == rest[..|r|]
    ensures n >= 0 ==> |r| == if n <= |rest| then n else |rest|
    ensures n < 0 ==> r == rest
  {
    if n < 0 then rest else Take(rest, n)
  }

  /** Where `f.readline()` from position `i` stops: after the first newline
      at or after `i`, or at the end. */
  function LineEnd(data: string, i: nat): (j: nat)
    requires i <= |data|
    ensures i <= j <= |data| && (i < |data| ==> i < j)
    decreases |data| - i
  {
    if i == |data| then i else if data[i] == '\n' then i + 1 else LineEnd(data, i + 1)
  }

  /** The line read from `i` holds no newline but possibly its last character,
      which is a newline unless the line runs to the end. */
  lemma {:induction false} LineEndNewlines(data: string, i: nat)
    requires i <= |data|
    ensures forall q :: i <= q < LineEnd(data, i) - 1 ==> data[q] != '\n'
    ensures LineEnd(data, i) < |data| ==> data[LineEnd(data, i) - 1] == '\n'
    decreases |data| - i
  {
    if i < |data| && data[i] != '\n' {
      LineEndNewlines(data, i + 1);
    }
  }

  /** A file opened on a text, as `StringIO` gives it: the text and the
      position of the next read. */
  class StringStream {
    var data: string
    var pos: nat

    predicate Valid()
      reads this
    {
      pos <= |data|
    }

    /** What is left to read. */
    function Rest(): string
      requires Valid()
      reads this
    {
      data[pos..]
    }

    constructor (data: string)
      ensures Valid() && this.data == data && pos == 0
    {
      this.data := data;
      pos := 0;
    }

    /** `read(n)`. */
    method Read(n: int) returns (s: string)
      requires Valid()
      modifies this
      ensures Valid() && data == old(data)
      ensures s == ReadFront(old(Rest()), n) && pos == old(pos) + |s|
    {
      s := ReadFront(data[pos..], n);
      pos := pos + |s|;
    }

    /** `readline()`. */
    method ReadLine() returns (line: string)
      requires Valid()
      modifies this
      ensures Valid() && data == old(data)
      ensures pos == LineEnd(data, old(pos)) && line == data[old(pos)..pos]
    {
      var end := LineEnd(data, pos);
      line := data[pos..end];
      pos := end;
    }

    /** `tell()`. */
    method Tell() returns (p: nat)
      requires Valid()
      ensures p == pos
    {
      p := pos;
    }

    /** `seek(p)`. */
    method Seek(p: nat)
      requires p <= |data|
      modifies this
      ensures Valid() && data == old(data) && pos == p
    {
      pos := p;
    }
  }

  /** The texts one after the other. */
  function Concat(texts: seq<string>): string {
    if texts == [] then [] else texts[0] + Concat(texts[1..])
  }

  // ---------------------------------------------------------------------------
  // `MARCReader`: records in transmission format, each starting with its own
  // length in five characters.
  // ---------------------------------------------------------------------------

  /** `MARCReader.next` on what is left of the file: what it gives and how many
      characters it reads. */
  function MarcNext(rest: string): (r: (NextResult, nat))
    ensures r.1 <= |rest| && r.1 == |rest| - |rest[r.1..]|
    ensures r.0 == Stop <==> rest == []
    ensures r.0 != Stop ==> r.1 > 0
    ensures r.0 == Failed(RecordLengthInvalid) <==> 0 < |rest| < 5
    ensures r.0.Chunk? ==> r.0.text == rest[..r.1] && |r.0.text| >= 5
  {
    var first5 := Take(rest, 5);
    if first5 == [] then (Stop, 0)
    else if |first5| < 5 then (Failed(RecordLengthInvalid), |first5|)
    else match ParseInt(first5)
      case None => (Failed(LengthNotANumber), 5)
      case Some(length) =>
        var chunk := ReadFront(rest[5..], length - 5);
        assert first5 + chunk == rest[..5 + |chunk|];
        (Chunk(first5 + chunk), 5 + |chunk|)
  }

  /** Every record `MARCReader` reads from a text, in order, up to the end or to
      the first error. */
  function MarcRecords(rest: string): (r: Result<seq<string>, ReadError>)
    ensures r.Ok? ==> Concat(r.value) == rest
    ensures r.Ok? ==> forall k :: 0 <= k < |r.value| ==> |r.value[k]| >= 5
    decreases |rest|
  {
    var next := MarcNext(rest);
    match next.0
    case Stop => Ok([])
    case Failed(e) => Err(e)
    case Chunk(text) =>
      match MarcRecords(rest[next.1..])
      case Err(e) => Err(e)
      case Ok(records) =>
        ConcatCons(text, records);
        assert text + rest[next.1..] == rest;
        Ok([text] + records)
  }

  lemma ConcatCons(text: string, texts: seq<string>)
    ensures Concat([text] + texts) == text + Concat(texts)
  {
    assert ([text] + texts)[1..] == texts;
  }

  /** A record whose first five characters are digits giving its own length. */
  predicate LengthPrefixed(record: string) {
    |record| >= 5 && IsDigits(record[..5]) && DigitsValue(record[..5]) == |record|
  }

  /** A record announcing its own length is read as a whole and no further. */
  lemma MarcNextReadsRecord(record: string, more: string)
    requires LengthPrefixed(record)
    ensures MarcNext(record + more) == (Chunk(record), |record|)
  {
    var rest := record + more;
    assert Take(rest, 5) == record[..5];
    ParseUnsigned(record[..5]);
    assert rest[5..][..|record| - 5] == record[5..];
    assert record[..5] + record[5..] == record;
  }

  /** Five characters that are not a number stop the reader after them. */
  /** Fewer than five characters left: `next` reads them all and fails, or
      stops when there are none. */
  lemma MarcNextShort(rest: string)
    requires |ReadFront(rest, 5)| < 5
    ensures ReadFront(rest, 5) == rest
    ensures MarcNext(rest) == if rest == [] then (Stop, 0) else (Failed(RecordLengthInvalid), |rest|)
  {
    assert Take(rest, 5) == rest;
  }

  lemma MarcNextBadLength(rest: string)
    requires |rest| >= 5 && ParseInt(rest[..5]).None?
    ensures MarcNext(rest) == (Failed(LengthNotANumber), 5)
  {
    assert Take(rest, 5) == rest[..5];
  }

  /** A length that parses makes `next` read the rest of the record after
      the five length characters. */
  lemma MarcNextChunk(rest: string, chunk: string)
    requires |rest| >= 5 && ParseInt(rest[..5]).Some?
    requires chunk == ReadFront(rest[5..], ParseInt(rest[..5]).value - 5)
    ensures MarcNext(rest) == (Chunk(rest[..5] + chunk), 5 + |chunk|)
  {
    assert Take(rest, 5) == rest[..5];
  }

  /** A file of records that each announce their own length is read back as
      those records. */
  lemma {:induction false} MarcRoundTrip(records: seq<string>)
    requires forall k :: 0 <= k < |records| ==> LengthPrefixed(records[k])
    ensures MarcRecords(Concat(records)) == Ok(records)
  {
    if records != [] {
      MarcRecordsStep(records[0], Concat(records[1..]));
      MarcRoundTrip(records[1..]);
      assert [records[0]] + records[1..] == records;
    }
  }

  /** A record announcing its own length is read first, then the rest. */
  lemma MarcRecordsStep(record: string, more: string)
    requires LengthPrefixed(record)
    ensures MarcRecords(record + more) ==
      if MarcRecords(more).Ok? then Ok([record] + MarcRecords(more).value) else MarcRecords(more)
  {
    MarcNextReadsRecord(record, more);
    assert (record + more)[|record|..] == more;
  }

  /** A length under 5 makes `read` see a negative size, so the chunk runs to
      the end of the file. */
  lemma ShortLengthReadsToEnd(rest: string)
    requires |rest| >= 5 && ParseInt(rest[..5]).Some? && ParseInt(rest[..5]).value < 5
    ensures MarcNext(rest) == (Chunk(rest), |rest|)
  {
    assert Take(rest, 5) == rest[..5];
    assert rest[..5] + rest[5..] == rest;
  }

  /** A file whose last record is cut short gives the shortened text, which the
      record parser then sees. */
  lemma TruncatedRecordIsShort(record: string)
    requires LengthPrefixed(record) && |record| > 5
    ensures MarcNext(record[..|record| - 1]) == (Chunk(record[..|record| - 1]), |record| - 1)
  {
    var rest := record[..|record| - 1];
    assert Take(rest, 5) == record[..5];
    ParseUnsigned(record[..5]);
    assert rest[..5] + rest[5..] == rest;
  }

  class MarcReader {
    var fileHandle: StringStream

    predicate Valid()
      reads this, fileHandle
    {
      fileHandle.Valid()
    }

    /** `MARCReader(marc_target)` over raw MARC text. */
    constructor (marcTarget: string)
      ensures Valid() && fresh(fileHandle)
      ensures fileHandle.data == marcTarget && fileHandle.pos == 0
    {
      fileHandle := new StringStream(marcTarget);
    }

    /** `MARCReader.next`. */
    method Next() returns (r: NextResult)
      requires Valid()
      modifies fileHandle
      ensures Valid() && fileHandle.data == old(fileHandle.data)
      ensures (r, fileHandle.pos - old(fileHandle.pos)) == MarcNext(old(fileHandle.Rest()))
    {
      ghost var rest := fileHandle.Rest();
      var first5 := fileHandle.Read(5);
      if |first5| < 5 {
        MarcNextShort(rest);
        if first5 == [] {
          return Stop;
        }
        return Failed(RecordLengthInvalid);
      }
      assert first5 == rest[..5];
      var length := ParseInt(first5);
      if length.None? {
        MarcNextBadLength(rest);
        return Failed(LengthNotANumber);
      }
      assert fileHandle.Rest() == rest[5..];
      ghost var afterLength := fileHandle.pos;
      var chunk := fileHandle.Read(length.value - 5);
      MarcNextChunk(rest, chunk);
      assert fileHandle.pos - old(fileHandle.pos) == 5 + |chunk| by {
        assert afterLength == old(fileHandle.pos) + 5;
      }
      chunk := first5 + chunk;
      return Chunk(chunk);
    }
  }

  // ---------------------------------------------------------------------------
  // `ForgivingReader`: records cut at the record terminator, whatever their
  // announced lengths.
  // ---------------------------------------------------------------------------

  /** The record terminator, `chr(0x1D)`. */
  const RecordTerminator: char := '\U{001D}'

  /** The records of a file that ends each of them with the terminator. */
  function Terminated(records: seq<string>): string {
    if records == [] then [] else records[0] + [RecordTerminator] + Terminated(records[1..])
  }

  /** Every record ending in the terminator, as MARC files are written, gives
      one chunk per record and then an empty chunk after the last terminator. */
  lemma {:induction false} TerminatedRecords(records: seq<string>)
    requires forall k :: 0 <= k < |records| ==> RecordTerminator !in records[k]
    ensures Split(Terminated(records), RecordTerminator) == records + [[]]
  {
    TerminatedIsJoin(records);
    SplitJoin(records + [[]], RecordTerminator);
  }

  lemma {:induction false} TerminatedIsJoin(records: seq<string>)
    ensures Terminated(records) == Join(records + [[]], RecordTerminator)
  {
    if records != [] {
      TerminatedIsJoin(records[1..]);
      assert (records + [[]])[1..] == records[1..] + [[]];
    }
  }

  class ForgivingReader {
    var fileHandle: StringStream
    var fileLines: seq<string>
    var currentIndex: nat

    predicate Valid()
      reads this
    {
      currentIndex <= |fileLines|
    }

    /** `ForgivingReader(marc_target)`: the whole file is read and cut at every
        terminator. */
    constructor (marcTarget: string)
      ensures Valid() && fresh(fileHandle) && fileHandle.Valid()
      ensures fileLines == Split(marcTarget, RecordTerminator) && currentIndex == 0
      ensures fileHandle.data == marcTarget && fileHandle.pos == |marcTarget|
    {
      var handle := new StringStream(marcTarget);
      var all := handle.Read(-1);
      fileHandle := handle;
      fileLines := Split(all, RecordTerminator);
      currentIndex := 0;
    }

    /** `ForgivingReader.next`: the chunks one per call, in order; at the end the
        cursor goes back to the first chunk before the iteration stops. */
    method Next() returns (r: NextResult)
      requires Valid()
      modifies this
      ensures Valid() && fileLines == old(fileLines) && fileHandle == old(fileHandle)
      ensures old(currentIndex) == |fileLines| ==> r == Stop && currentIndex == 0
      ensures old(currentIndex) < |fileLines| ==>
        r == Chunk(fileLines[old(currentIndex)]) && currentIndex == old(currentIndex) + 1
    {
      if currentIndex == |fileLines| {
        currentIndex := 0;
        return Stop;
      }
      var chunk := fileLines[currentIndex];
      currentIndex := currentIndex + 1;
      return Chunk(chunk);
    }
  }

  /** The chunks put back together with the terminator give the whole file, and
      none of them holds a terminator. */
  lemma ForgivingChunksCoverFile(data: string)
    ensures Join(Split(data, RecordTerminator), RecordTerminator) == data
    ensures forall k :: 0 <= k < |Split(data, RecordTerminator)| ==>
      RecordTerminator !in Split(data, RecordTerminator)[k]
  {
    JoinSplit(data, RecordTerminator);
  }

  // ---------------------------------------------------------------------------
  // `AlephSequentialReader`: one record per run of lines sharing their first
  // nine characters (the system number).
  // ---------------------------------------------------------------------------

  /** The key of a line: its first nine characters. */
  function Key(line: string): string {
    Take(line, 9)
  }

  /** The key of the line that starts at `i`. */
  function KeyAt(data: string, i: nat): string
    requires i <= |data|
  {
    Key(data[i..LineEnd(data, i)])
  }

  /** Where the run of lines from `i` whose key is `key` ends: at the first line
      with another key, or at the end. */
  function RunEnd(data: string, i: nat, key: string): (j: nat)
    requires i <= |data|
    ensures i <= j <= |data|
    decreases |data| - i
  {
    var e := LineEnd(data, i);
    if e == i || Key(data[i..e]) != key then i else RunEnd(data, e, key)
  }

  /** Where the record that `AlephSequentialReader.next` reads from `i` ends. */
  function AlephEnd(data: string, i: nat): (j: nat)
    requires i < |data|
    ensures i < j <= |data|
  {
    assert KeyAt(data, i) != [] by {
      assert data[i..LineEnd(data, i)][0] == data[i];
    }
    RunEnd(data, i, KeyAt(data, i))
  }

  /** `AlephSequentialReader.next` from position `i`: the run of lines sharing
      the first line's key, and the position after it. */
  function AlephNext(data: string, i: nat): (r: (NextResult, nat))
    requires i <= |data|
    ensures r.0 == Stop <==> i == |data|
    ensures r.0 != Stop ==> i < r.1 <= |data| && r.0 == Chunk(data[i..r.1])
  {
    if i == |data| then (Stop, i) else (Chunk(data[i..AlephEnd(data, i)]), AlephEnd(data, i))
  }

  /** The run is maximal: the line after it, if any, has another key. */
  lemma {:induction false} RunMaximal(data: string, i: nat, key: string)
    requires i <= |data| && key != []
    ensures RunEnd(data, i, key) < |data| ==> KeyAt(data, RunEnd(data, i, key)) != key
    decreases |data| - i
  {
    var e := LineEnd(data, i);
    if e != i && Key(data[i..e]) == key {
      RunMaximal(data, e, key);
    }
  }

  /** Every line of the run carries the key. */
  lemma {:induction false} RunLinesShareKey(data: string, i: nat, key: string, p: nat)
    requires i <= |data| && i <= p < RunEnd(data, i, key) && (p == i || data[p - 1] == '\n')
    ensures KeyAt(data, p) == key
    decreases |data| - i
  {
    var e := LineEnd(data, i);
    if p > i {
      LineEndNewlines(data, i);
      assert p >= e;
      RunLinesShareKey(data, e, key, p);
    }
  }

  /** Every record `AlephSequentialReader` reads from position `i`, in order. */
  function AlephRecords(data: string, i: nat): seq<string>
    requires i <= |data|
    decreases |data| - i
  {
    if i == |data| then [] else [data[i..AlephEnd(data, i)]] + AlephRecords(data, AlephEnd(data, i))
  }

  /** The records put back together give the rest of the file: no line is lost
      or read twice. */
  lemma {:induction false} AlephRecordsCoverFile(data: string, i: nat)
    requires i <= |data|
    ensures Concat(AlephRecords(data, i)) == data[i..]
    decreases |data| - i
  {
    if i < |data| {
      var e := AlephEnd(data, i);
      AlephRecordsCoverFile(data, e);
      assert AlephRecords(data, i)[1..] == AlephRecords(data, e);
      assert data[i..] == data[i..e] + data[e..];
    }
  }

  /** The record after the one read from `i` starts with a line of another key. */
  lemma AlephKeysChange(data: string, i: nat)
    requires i < |data| && AlephEnd(data, i) < |data|
    ensures KeyAt(data, AlephEnd(data, i)) != KeyAt(data, i)
  {
    assert KeyAt(data, i) != [] by {
      assert data[i..LineEnd(data, i)][0] == data[i];
    }
    RunMaximal(data, i, KeyAt(data, i));
  }

  class AlephSequentialReader {
    var fileHandle: StringStream

    predicate Valid()
      reads this, fileHandle
    {
      fileHandle.Valid()
    }

    /** `AlephSequentialReader(marc_target)` over Aleph sequential text. */
    constructor (marcTarget: string)
      ensures Valid() && fresh(fileHandle)
      ensures fileHandle.data == marcTarget && fileHandle.pos == 0
    {
      fileHandle := new StringStream(marcTarget);
    }

    /** `AlephSequentialReader.next`: reads lines while they carry the first
        line's key, then seeks back to the start of the first line that does
        not. */
    method Next() returns (r: NextResult)
      requires Valid()
      modifies fileHandle
      ensures Valid() && fileHandle.data == old(fileHandle.data)
      ensures (r, fileHandle.pos) == AlephNext(fileHandle.data, old(fileHandle.pos))
    {
      ghost var data := fileHandle.data;
      var start := fileHandle.pos;
      var recordData := "";
      var line := fileHandle.ReadLine();
      if line == [] {
        return Stop;
      }
      var key := Key(line);
      var currentKey := key;
      assert currentKey != [] by {
        assert line[0] == data[start];
      }
      var position := start;
      while key == currentKey
        invariant fileHandle.Valid() && fileHandle.data == data
        invariant start <= position <= |data|
        invariant fileHandle.pos == LineEnd(data, position) && line == data[position..fileHandle.pos]
        invariant key == Key(line) && currentKey == KeyAt(data, start) && currentKey != []
        invariant recordData == data[start..position]
        invariant RunEnd(data, start, currentKey) == RunEnd(data, position, currentKey)
        decreases |data| - position
      {
        assert data[start..fileHandle.pos] == recordData + line;
        recordData := recordData + line;
        position := fileHandle.Tell();
        line := fileHandle.ReadLine();
        key := Key(line);
      }
      fileHandle.Seek(position);
      return Chunk(recordData);
    }
  }
}
