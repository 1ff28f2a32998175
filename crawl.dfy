/**
 * `Reader.record_exists`, `Reader.get_record` and `Reader.crawl_records`. The
 * web pages are parameters: the record page as fetched (None for an HTTP error
 * status) and the text between `<pre>` tags of the MARC page. The crawl takes
 * the per-number lookup as a function, so any mix of found, absent and failing
 * numbers can be stated.
 */
module Crawl {
  import opened Wrappers
  import opened Text
  import opened Entities
  import opened Decoder

  /** What one lookup of a record number gives: nothing, a record, or an exception. */
  datatype Fetched<R> = Absent | Found(record: R) | Raised

  /** ValueError for a bound without the `b` prefix or without a number after
      it; or the exception a lookup raised, for the number it was raised on. */
  datatype CrawlError = InvalidBibNumber | LookupRaised(bibnumber: string)

  const NoSuchRecord: string := "No Such Record"

  /** `record_exists`: the page came back, is not empty, and does not carry the
      catalogue's not-found message. */
  function RecordExists(page: Option<string>): (b: bool)
    ensures b <==> page.Some? && page.value != [] && forall i :: !OccursAt(page.value, NoSuchRecord, i)
  {
    page.Some? && page.value != [] && !Contains(page.value, NoSuchRecord)
  }

  /** `get_record`: a number without the `b` prefix raises; a number whose record
      page is missing gives nothing; otherwise the MARC page's `<pre>` text is
      decoded (no such text raises IndexError). */
  function GetRecord(bibnumber: string, recordPage: Option<string>, marcText: Option<string>,
                     names: EntityTable): (r: Fetched<MarcRecord>)
    ensures r.Found? ==> StartsWith(bibnumber, "b") && RecordExists(recordPage)
    ensures r.Found? ==> marcText.Some? && Decode(marcText.value, names) == Parsed(r.record)
    ensures !StartsWith(bibnumber, "b") ==> r.Raised?
    ensures StartsWith(bibnumber, "b") && !RecordExists(recordPage) ==> r.Absent?
  {
    if !StartsWith(bibnumber, "b") then Raised
    else if !RecordExists(recordPage) then Absent
    else match marcText
      case None => Raised
      case Some(text) =>
        match Decode(text, names)
        case NotARecord => Absent
        case Failed(_) => Raised
        case Parsed(record) => Found(record)
  }

  /** `"b%s" % (num,)`. */
  function BibNumber(n: int): string
  {
    "b" + ShowInt(n)
  }

  /** The record number is read back from what it was written as, so distinct
      numbers are looked up under distinct record numbers. */
  lemma BibNumberRoundTrip(n: int)
    ensures ParseInt(BibNumber(n)[1..]) == Some(n)
    ensures Bound(BibNumber(n)) == Ok(n)
  {
    var b := BibNumber(n);
    assert b[1..] == ShowInt(n);
    assert b[..1] == "b";
    ParseShowInt(n);
  }

  /** `int(s[1:])` for a bound with the `b` prefix. */
  function Bound(s: string): (r: Result<int, CrawlError>)
    ensures r.Ok? <==> StartsWith(s, "b") && ParseInt(s[1..]).Some?
    ensures r.Ok? ==> r.value == ParseInt(s[1..]).value
  {
    if !StartsWith(s, "b") then Err(InvalidBibNumber)
    else match ParseInt(s[1..])
      case None => Err(InvalidBibNumber)
      case Some(n) => Ok(n)
  }

  /** The records found for the numbers `lo` up to `hi - 1`, in ascending order
      of number; the first lookup that raises ends the crawl. */
  function Collect<R>(lo: int, hi: int, lookup: string -> Fetched<R>): (r: Result<seq<R>, CrawlError>)
    ensures r.Ok? ==> |r.value| <= if hi <= lo then 0 else hi - lo
    decreases hi - lo
  {
    if hi <= lo then Ok([])
    else
      match Collect(lo, hi - 1, lookup)
      case Err(e) => Err(e)
      case Ok(records) =>
        match lookup(BibNumber(hi - 1))
        case Absent => Ok(records)
        case Found(record) => Ok(records + [record])
        case Raised => Err(LookupRaised(BibNumber(hi - 1)))
  }

  /** What `crawl_records(start, end)` returns or raises. */
  function Crawl<R>(start: string, end: string, lookup: string -> Fetched<R>): (r: Result<seq<R>, CrawlError>)
    ensures r.Ok? ==> Bound(start).Ok? && Bound(end).Ok?
    ensures r.Ok? ==> |r.value| <= if Bound(end).value < Bound(start).value then 0
                                   else Bound(end).value + 1 - Bound(start).value
  {
    if !StartsWith(start, "b") || !StartsWith(end, "b") then Err(InvalidBibNumber)
    else match Bound(start)
      case Err(e) => Err(e)
      case Ok(lo) =>
        match Bound(end)
        case Err(e) => Err(e)
        case Ok(hi) => Collect(lo, hi + 1, lookup)
  }

  /** `crawl_records`: looks up every number from the start bound to the end
      bound inclusive and keeps the records found. */
  method CrawlRecords<R>(start: string, end: string, lookup: string -> Fetched<R>)
    returns (r: Result<seq<R>, CrawlError>)
    ensures r == Crawl(start, end, lookup)
  {
    if !StartsWith(start, "b") || !StartsWith(end, "b") {
      return Err(InvalidBibNumber);
    }
    var first := ParseInt(start[1..]);
    if first.None? {
      return Err(InvalidBibNumber);
    }
    var last := ParseInt(end[1..]);
    if last.None? {
      return Err(InvalidBibNumber);
    }
    assert Bound(start) == Ok(first.value) && Bound(end) == Ok(last.value);
    r := CollectRecords(first.value, last.value + 1, lookup);
  }

  /** The loop of `crawl_records`: one lookup per number, ascending. */
  method CollectRecords<R>(lo: int, hi: int, lookup: string -> Fetched<R>)
    returns (r: Result<seq<R>, CrawlError>)
    ensures r == Collect(lo, hi, lookup)
  {
    var records: seq<R> := [];
    var num := lo;
    while num < hi
      invariant num == lo || lo < num <= hi
      invariant Collect(lo, num, lookup) == Ok(records)
      decreases hi - num
    {
      var bibnum := BibNumber(num);
      var outcome := lookup(bibnum);
      if outcome.Raised? {
        CollectErrPersists(lo, num + 1, hi, lookup);
        return Err(LookupRaised(bibnum));
      } else if outcome.Found? {
        records := records + [outcome.record];
      }
      num := num + 1;
    }
    if hi <= lo {
      assert Collect(lo, hi, lookup) == Ok([]);
    }
    return Ok(records);
  }

  /** Once a lookup has raised, numbers further up change nothing. */
  lemma {:induction false} CollectErrPersists<R>(lo: int, n: int, hi: int, lookup: string -> Fetched<R>)
    requires lo < n <= hi && Collect(lo, n, lookup).Err?
    ensures Collect(lo, hi, lookup) == Collect(lo, n, lookup)
    decreases hi - n
  {
    if n < hi {
      CollectErrPersists(lo, n, hi - 1, lookup);
    }
  }

  /** The crawl succeeds exactly when no lookup in the range raises, and then it
      holds exactly the records found in the range. */
  lemma {:induction false} CollectSpec<R>(lo: int, hi: int, lookup: string -> Fetched<R>)
    ensures Collect(lo, hi, lookup).Ok? <==> forall n :: lo <= n < hi ==> !lookup(BibNumber(n)).Raised?
    ensures Collect(lo, hi, lookup).Ok? ==> forall record :: record in Collect(lo, hi, lookup).value <==>
      exists n :: lo <= n < hi && lookup(BibNumber(n)) == Found(record)
    decreases hi - lo
  {
    if lo < hi {
      CollectSpec(lo, hi - 1, lookup);
    }
  }

  /** A failed crawl names the first number in the range whose lookup raised. */
  lemma {:induction false} CollectFailure<R>(lo: int, hi: int, lookup: string -> Fetched<R>)
    requires Collect(lo, hi, lookup).Err?
    ensures exists n :: lo <= n < hi && lookup(BibNumber(n)).Raised? &&
                        Collect(lo, hi, lookup).error == LookupRaised(BibNumber(n)) &&
                        forall m :: lo <= m < n ==> !lookup(BibNumber(m)).Raised?
    decreases hi - lo
  {
    if Collect(lo, hi - 1, lookup).Err? {
      CollectFailure(lo, hi - 1, lookup);
    } else {
      CollectSpec(lo, hi - 1, lookup);
    }
  }

  /** Records come out in ascending order of number: the crawl of a range is the
      crawl of its lower part followed by the crawl of its upper part. */
  lemma {:induction false} CollectSplit<R>(lo: int, mid: int, hi: int, lookup: string -> Fetched<R>)
    requires lo <= mid <= hi
    requires Collect(lo, hi, lookup).Ok?
    ensures Collect(lo, mid, lookup).Ok? && Collect(mid, hi, lookup).Ok?
    ensures Collect(lo, hi, lookup).value == Collect(lo, mid, lookup).value + Collect(mid, hi, lookup).value
    decreases hi - mid
  {
    if mid < hi {
      assert Collect(lo, hi - 1, lookup).Ok?;
      CollectSplit(lo, mid, hi - 1, lookup);
    } else {
      assert Collect(mid, hi, lookup).value == [];
    }
  }

  /** When every number in the range has a record, the crawl returns one record
      per number. */
  lemma {:induction false} CollectAllFound<R>(lo: int, hi: int, lookup: string -> Fetched<R>)
    requires lo <= hi
    requires forall n :: lo <= n < hi ==> lookup(BibNumber(n)).Found?
    ensures Collect(lo, hi, lookup).Ok? && |Collect(lo, hi, lookup).value| == hi - lo
    ensures forall k :: 0 <= k < hi - lo ==> Collect(lo, hi, lookup).value[k] == lookup(BibNumber(lo + k)).record
    decreases hi - lo
  {
    if lo < hi {
      CollectAllFound(lo, hi - 1, lookup);
    }
  }

  /** Bounds without the `b` prefix are refused before any lookup. */
  lemma CrawlRejectsBounds<R>(start: string, end: string, lookup: string -> Fetched<R>)
    ensures Crawl(start, end, lookup) == Err(InvalidBibNumber) <==>
      !(StartsWith(start, "b") && ParseInt(start[1..]).Some? &&
        StartsWith(end, "b") && ParseInt(end[1..]).Some?)
  {
    if Bound(start).Ok? && Bound(end).Ok? {
      var lo, hi := Bound(start).value, Bound(end).value;
      CrawlCollects(start, end, lookup);
      if Collect(lo, hi + 1, lookup).Err? {
        CollectFailure(lo, hi + 1, lookup);
      }
    }
  }

  /** With both bounds valid, the crawl is the collection over them. */
  lemma CrawlCollects<R>(start: string, end: string, lookup: string -> Fetched<R>)
    requires Bound(start).Ok? && Bound(end).Ok?
    ensures Crawl(start, end, lookup) == Collect(Bound(start).value, Bound(end).value + 1, lookup)
  {
  }

  /** The end bound is inclusive: with every number found, `b1053852` to
      `b1053862` would give eleven records. */
  lemma CrawlIsInclusive<R>(lo: nat, hi: nat, lookup: string -> Fetched<R>)
    requires lo <= hi
    requires forall n :: lo <= n <= hi ==> lookup(BibNumber(n)).Found?
    ensures Crawl(BibNumber(lo), BibNumber(hi), lookup).Ok?
    ensures |Crawl(BibNumber(lo), BibNumber(hi), lookup).value| == hi - lo + 1
  {
    BibNumberRoundTrip(lo);
    BibNumberRoundTrip(hi);
    CollectAllFound(lo, hi + 1, lookup);
  }
}
