/** A whole document: header, objects, offset table and trailer. */
module BplistDocument {
  import opened Bytes
  import opened BplistModel
  import opened BplistWire
  import opened BplistGraph
  import opened BplistUnfold

  const HEADER_SIZE := 8
  const TRAILER_SIZE := 32

  /** The characters `bplist00`. */
  function Header(): (h: seq<byte>)
    ensures |h| == HEADER_SIZE
  {
    [0x62, 0x70, 0x6C, 0x69, 0x73, 0x74, 0x30, 0x30]
  }

  datatype Trailer = Trailer(offsetSize: nat, refSize: nat, count: nat, top: nat, tableStart: nat)

  /** The trailer of a document whose sizes, counts and positions agree with each other. */
  ghost predicate Consistent(t: Trailer, length: nat) {
    && 1 <= t.offsetSize <= 8 && 1 <= t.refSize <= 8
    && 1 <= t.count <= MAX_OBJECTS && t.top < t.count
    && HEADER_SIZE <= t.tableStart
    && t.tableStart + t.count * t.offsetSize + TRAILER_SIZE == length
  }

  function TrailerFields(trailer: seq<byte>): Trailer
    requires |trailer| == TRAILER_SIZE
  {
    Trailer(trailer[6], trailer[7], FromBE(trailer[8..16]), FromBE(trailer[16..24]), FromBE(trailer[24..32]))
  }

  function ReadTrailer(input: seq<byte>): (r: Result<Trailer>)
    ensures r.Ok? ==> Consistent(r.value, |input|)
  {
    if |input| > MAX_PLIST_SIZE then Err(InputTooLarge)
    else if |input| < HEADER_SIZE + TRAILER_SIZE then Err(Malformed)
    else if input[..HEADER_SIZE] != Header() then Err(InvalidHeader)
    else
      var start := |input| - TRAILER_SIZE;
      var trailer := input[start..];
      var t := TrailerFields(trailer);
      if trailer[..6] != Zeros(6) then Err(InvalidTrailer)
      else if !(1 <= t.offsetSize <= 8) || !(1 <= t.refSize <= 8) then Err(InvalidTrailer)
      else if t.count == 0 || t.count > MAX_OBJECTS || t.top >= t.count then Err(InvalidTrailer)
      else if t.tableStart < HEADER_SIZE || t.tableStart > start then Err(InvalidTrailer)
      else if t.tableStart + t.count * t.offsetSize != start then Err(InvalidTrailer)
      else Ok(t)
  }

  // -------------------------------------------------------------------------
  // Offsets

  predicate InTable(offsets: seq<nat>, tableStart: nat) {
    forall i :: 0 <= i < |offsets| ==> HEADER_SIZE <= offsets[i] < tableStart
  }

  predicate Distinct(offsets: seq<nat>) {
    forall i, j :: 0 <= i < j < |offsets| ==> offsets[i] != offsets[j]
  }

  function ReadOffsets(input: seq<byte>, t: Trailer): (r: Result<seq<nat>>)
    requires Consistent(t, |input|)
    ensures r.Ok? ==> |r.value| == t.count && InTable(r.value, t.tableStart)
    ensures r.Ok? ==> Distinct(r.value) && HEADER_SIZE in r.value
  {
    var end := |input| - TRAILER_SIZE;
    var offsets := DecodeRefs(input[t.tableStart..end], t.count, t.offsetSize);
    if InTable(offsets, t.tableStart) && Distinct(offsets) && HEADER_SIZE in offsets then Ok(offsets)
    else Err(Malformed)
  }

  /** The smallest of the first `n` offsets that is above `at`, or `limit` when there is none. */
  function NextAbove(offsets: seq<nat>, n: nat, at: nat, limit: nat): (next: nat)
    requires n <= |offsets|
    ensures next <= limit
    ensures at < limit ==> at < next
  {
    if n == 0 then limit
    else
      var next := NextAbove(offsets, n - 1, at, limit);
      if at < offsets[n - 1] < next then offsets[n - 1] else next
  }

  lemma {:induction false} NextAboveIsLeast(offsets: seq<nat>, n: nat, at: nat, limit: nat, next: nat)
    requires n <= |offsets| && next == NextAbove(offsets, n, at, limit)
    ensures next == limit || next in offsets
    ensures forall i :: 0 <= i < n ==> !(at < offsets[i] < next)
  {
    if n > 0 {
      NextAboveIsLeast(offsets, n - 1, at, limit, NextAbove(offsets, n - 1, at, limit));
    }
  }

  /** The bytes of object `i`: from its offset to the next larger offset, or to the offset table. */
  function Extent(input: seq<byte>, t: Trailer, offsets: seq<nat>, i: nat): seq<byte>
    requires i < |offsets| && InTable(offsets, t.tableStart) && t.tableStart <= |input|
  {
    input[offsets[i]..NextAbove(offsets, |offsets|, offsets[i], t.tableStart)]
  }

  // -------------------------------------------------------------------------
  // Objects

  /** What each object's bytes parse to. */
  function ParseAll(input: seq<byte>, t: Trailer, offsets: seq<nat>): (parsed: seq<Result<Object>>)
    requires Consistent(t, |input|) && |offsets| == t.count && InTable(offsets, t.tableStart)
    ensures |parsed| == |offsets| && forall i :: 0 <= i < |parsed| ==> RefersBelow(parsed[i], t.count)
  {
    seq(|offsets|, i requires 0 <= i < |offsets| => Parse(Extent(input, t, offsets, i), t.refSize, t.count))
  }

  ghost predicate RefersBelow(r: Result<Object>, count: nat) {
    r.Ok? ==> Encodable(r.value) && Below(Children(r.value), count)
  }

  datatype Scan = Scan(objects: seq<Object>, references: nat)

  /** The first `n` objects, with the number of references they hold. */
  function ScanUpTo(parsed: seq<Result<Object>>, n: nat): (r: Result<Scan>)
    requires n <= |parsed|
    ensures r.Ok? ==> |r.value.objects| == n && r.value.references <= MAX_REFERENCES
  {
    if n == 0 then Ok(Scan([], 0))
    else
      var before :- ScanUpTo(parsed, n - 1);
      var o :- parsed[n - 1];
      var total := before.references + |Children(o)|;
      if total > MAX_REFERENCES then Err(LimitExceeded) else Ok(Scan(before.objects + [o], total))
  }

  /** Object `i` of a scan is what its bytes parse to. */
  lemma {:induction false} ScanParses(
    parsed: seq<Result<Object>>, n: nat, objects: seq<Object>, references: nat, i: nat)
    requires i < n <= |parsed| && ScanUpTo(parsed, n) == Ok(Scan(objects, references))
    ensures parsed[i] == Ok(objects[i])
    decreases n
  {
    var before := ScanUpTo(parsed, n - 1).value;
    if i < n - 1 {
      ScanParses(parsed, n - 1, before.objects, before.references, i);
      assert objects[i] == before.objects[i];
    }
  }

  lemma ScanIsClosed(parsed: seq<Result<Object>>, objects: seq<Object>, references: nat)
    requires forall i :: 0 <= i < |parsed| ==> RefersBelow(parsed[i], |parsed|)
    requires ScanUpTo(parsed, |parsed|) == Ok(Scan(objects, references))
    ensures Closed(objects)
  {
    forall i | 0 <= i < |objects|
      ensures ClosedAt(objects, i)
    {
      assert RefersBelow(parsed[i], |parsed|);
      ScanParses(parsed, |parsed|, objects, references, i);
    }
  }

  datatype Table = Table(trailer: Trailer, offsets: seq<nat>, objects: seq<Object>)

  /** Everything up to the object graph. */
  function ReadTable(input: seq<byte>): (r: Result<Table>)
    ensures r.Ok? ==> Consistent(r.value.trailer, |input|) && |r.value.objects| == r.value.trailer.count
    ensures r.Ok? ==> Closed(r.value.objects)
  {
    var t :- ReadTrailer(input);
    var offsets :- ReadOffsets(input, t);
    var parsed := ParseAll(input, t, offsets);
    var scan :- ScanUpTo(parsed, |parsed|);
    ScanIsClosed(parsed, scan.objects, scan.references);
    Ok(Table(t, offsets, scan.objects))
  }

  /** What decoding a document yields. */
  ghost function DecodeDocument(input: seq<byte>): Result<Value> {
    var table :- ReadTable(input);
    if !KeysAreText(table.objects) then Err(Malformed)
    else
      var _ :- VisitAll(table.objects, 0, AllWhite(|table.objects|));
      var (v, _) :- Unfold(table.objects, table.trailer.top, 0, Budget(0, 0));
      Ok(v)
  }
}
