/** Decoding the document of a value gives the value back. */
module BplistRoundTrip {
  import opened Bytes
  import opened BplistModel
  import opened BplistWire
  import opened BplistGraph
  import opened BplistUnfold
  import opened BplistFlatten
  import opened BplistFlattenProofs
  import opened BplistDocument
  import opened BplistDecodeProofs
  import opened BplistLayout

  ghost predicate AllEncodable(objects: seq<Object>) {
    forall i {:trigger Encodable(objects[i])} :: 0 <= i < |objects| ==> Encodable(objects[i])
  }

  /** The bytes of each object. */
  function Parts(objects: seq<Object>, refSize: nat): (parts: seq<seq<byte>>)
    requires AllEncodable(objects)
    ensures |parts| == |objects| && NonEmpty(parts)
  {
    seq(|objects|, i requires 0 <= i < |objects| =>
      assert Encodable(objects[i]); EncodeObject(objects[i], refSize))
  }

  function RefSize(count: nat): (size: nat)
    requires count >= 1
    ensures size in {1, 2, 4, 8}
  {
    StorageWidth(count - 1)
  }

  /** Every object of the table of `v` has a byte form. */
  lemma TableEncodable(v: Value)
    requires WellFormed(v) && IntegersInRange(v)
    ensures LaidOut(Flatten(v, 0), v, 0) && AllFine(Flatten(v, 0), 0, Nodes(v))
    ensures AllEncodable(Flatten(v, 0))
  {
    var objects := Flatten(v, 0);
    assert At(objects, 0, objects);
    FlattenIsLaidOut(objects, v, 0);
    LaidOutFine(objects, v, 0);
    forall i | 0 <= i < |objects|
      ensures Encodable(objects[i])
    {
      assert Fine(objects, i);
    }
  }

  /** The document of a value: its table in order, the value itself first. */
  function Document(v: Value): seq<byte>
    requires WellFormed(v) && IntegersInRange(v)
  {
    TableEncodable(v);
    var refSize := RefSize(Nodes(v));
    Laid(Parts(Flatten(v, 0), refSize), refSize)
  }

  // -------------------------------------------------------------------------
  // The table is read back

  /** What the reader needs of the objects, besides where they are. */
  ghost predicate AllReadable(objects: seq<Object>, refSize: nat) {
    refSize >= 1 && forall i {:trigger Readable(objects[i], refSize, |objects|)} ::
      0 <= i < |objects| ==> Readable(objects[i], refSize, |objects|)
  }

  ghost predicate IsParts(parts: seq<seq<byte>>, objects: seq<Object>, refSize: nat) {
    && |parts| == |objects|
    && forall i {:trigger IsPart(parts, objects, refSize, i)} ::
         0 <= i < |objects| ==> IsPart(parts, objects, refSize, i)
  }

  ghost predicate IsPart(parts: seq<seq<byte>>, objects: seq<Object>, refSize: nat, i: nat)
    requires i < |parts| == |objects|
  {
    Encodable(objects[i]) && parts[i] == EncodeObject(objects[i], refSize)
  }

  lemma PartParses(parts: seq<seq<byte>>, objects: seq<Object>, refSize: nat, i: nat)
    requires AllReadable(objects, refSize) && IsParts(parts, objects, refSize) && i < |objects|
    ensures Parse(parts[i], refSize, |objects|) == Ok(objects[i])
  {
    assert IsPart(parts, objects, refSize, i) && Readable(objects[i], refSize, |objects|);
    ParseOfEncodeObject(objects[i], refSize, |objects|);
  }

  lemma PartsParse(s: seq<byte>, parts: seq<seq<byte>>, t: Trailer, objects: seq<Object>, i: nat)
    requires Pieces(s, parts, t) && NonEmpty(parts) && Consistent(t, |s|) && i < |objects|
    requires AllReadable(objects, t.refSize) && IsParts(parts, objects, t.refSize)
    requires InTable(Offsets(parts), t.tableStart)
    ensures ParseAll(s, t, Offsets(parts))[i] == Ok(objects[i])
  {
    LaidExtent(s, parts, t, i);
    PartParses(parts, objects, t.refSize, i);
  }

  lemma {:induction false} ScanReadsBack(
    parsed: seq<Result<Object>>, objects: seq<Object>, sum: seq<nat>, n: nat, r: Result<Scan>)
    requires n <= |objects| == |parsed| && forall i :: 0 <= i < |objects| ==> parsed[i] == Ok(objects[i])
    requires RefSums(sum, objects) && forall i :: 0 <= i < |sum| ==> sum[i] <= MAX_REFERENCES
    requires r == ScanUpTo(parsed, n)
    ensures r == Ok(Scan(objects[..n], sum[n]))
    decreases n
  {
    if n > 0 {
      ScanReadsBack(parsed, objects, sum, n - 1, ScanUpTo(parsed, n - 1));
      assert AddsRefs(sum, objects, n - 1);
      assert objects[..n] == objects[..n - 1] + [objects[n - 1]];
    }
  }

  lemma TableReadsBack(s: seq<byte>, parts: seq<seq<byte>>, t: Trailer, objects: seq<Object>, sum: seq<nat>)
    requires Pieces(s, parts, t) && NonEmpty(parts) && t.top < |objects| <= MAX_OBJECTS && |s| <= MAX_PLIST_SIZE
    requires AllReadable(objects, t.refSize) && IsParts(parts, objects, t.refSize)
    requires RefSums(sum, objects) && forall i :: 0 <= i < |sum| ==> sum[i] <= MAX_REFERENCES
    ensures ReadTable(s) == Ok(Table(t, Offsets(parts), objects))
  {
    LaidTrailer(s, parts, t);
    LaidOffsets(s, parts, t);
    var parsed := ParseAll(s, t, Offsets(parts));
    forall i | 0 <= i < |objects|
      ensures parsed[i] == Ok(objects[i])
    {
      PartsParse(s, parts, t, objects, i);
    }
    ScanReadsBack(parsed, objects, sum, |objects|, ScanUpTo(parsed, |objects|));
    assert objects[..|objects|] == objects;
  }

  // -------------------------------------------------------------------------
  // The table of a value

  lemma RefSumsOf(objects: seq<Object>) returns (sum: seq<nat>)
    ensures RefSums(sum, objects)
    ensures forall k :: 0 <= k < |sum| ==> sum[k] <= sum[|objects|]
  {
    sum := [0];
    for i := 0 to |objects|
      invariant |sum| == i + 1 && sum[0] == 0
      invariant forall n {:trigger sum[n], objects[n]} :: 0 <= n < i ==> sum[n + 1] == sum[n] + |Children(objects[n])|
      invariant forall k :: 0 <= k <= i ==> sum[k] <= sum[i]
    {
      sum := sum + [sum[i] + |Children(objects[i])|];
    }
    forall n | 0 <= n < |objects|
      ensures AddsRefs(sum, objects, n)
    {
      assert sum[n + 1] == sum[n] + |Children(objects[n])|;
    }
  }

  lemma PayloadSumsOf(objects: seq<Object>) returns (sum: seq<nat>)
    ensures PayloadSums(sum, objects)
  {
    sum := [0];
    for i := 0 to |objects|
      invariant |sum| == i + 1 && sum[0] == 0
      invariant forall n {:trigger sum[n], objects[n]} :: 0 <= n < i ==> sum[n + 1] == sum[n] + Payload(objects[n])
    {
      sum := sum + [sum[i] + Payload(objects[i])];
    }
    forall n | 0 <= n < |objects|
      ensures AddsPayload(sum, objects, n)
    {
      assert sum[n + 1] == sum[n] + Payload(objects[n]);
    }
  }

  /** Payload takes up at least its own room in the document. */
  lemma {:induction false} PayloadFitsParts(
    parts: seq<seq<byte>>, objects: seq<Object>, refSize: nat, sum: seq<nat>, n: nat)
    requires IsParts(parts, objects, refSize) && PayloadSums(sum, objects) && n <= |objects|
    ensures sum[n] <= Offset(parts, n)
    decreases n
  {
    if n > 0 {
      PayloadFitsParts(parts, objects, refSize, sum, n - 1);
      assert AddsPayload(sum, objects, n - 1) && IsPart(parts, objects, refSize, n - 1);
      PayloadFits(objects[n - 1], refSize);
    }
  }

  lemma TableReadable(objects: seq<Object>, parts: seq<seq<byte>>, refSize: nat, refs: seq<nat>, payload: seq<nat>)
    requires |objects| >= 1 && refSize == RefSize(|objects|) && |objects| <= MAX_OBJECTS
    requires AllFine(objects, 0, |objects|) && IsParts(parts, objects, refSize) && NonEmpty(parts)
    requires RefSums(refs, objects) && forall k :: 0 <= k < |refs| ==> refs[k] <= MAX_REFERENCES
    requires PayloadSums(payload, objects) && Offset(parts, |parts|) <= MAX_PLIST_SIZE
    ensures AllReadable(objects, refSize)
  {
    forall i | 0 <= i < |objects|
      ensures Readable(objects[i], refSize, |objects|)
    {
      assert Fine(objects, i);
      assert AddsRefs(refs, objects, i) && AddsPayload(payload, objects, i);
      PayloadFitsParts(parts, objects, refSize, payload, i + 1);
      OffsetsAscend(parts, i + 1, |parts|);
    }
  }

  lemma PartsAreParts(objects: seq<Object>, refSize: nat)
    requires AllEncodable(objects)
    ensures IsParts(Parts(objects, refSize), objects, refSize)
  {
    forall i | 0 <= i < |objects|
      ensures IsPart(Parts(objects, refSize), objects, refSize, i)
    {
      assert Encodable(objects[i]);
    }
  }

  /** The limits that the encoder puts on a value. */
  ghost predicate Storable(v: Value) {
    WellFormed(v) && IntegersInRange(v) && Depth(v) <= MAX_DEPTH && Nodes(v) <= MAX_OBJECTS
  }

  lemma TableStandsFor(v: Value, objects: seq<Object>, payload: seq<nat>)
    requires Storable(v) && LaidOut(objects, v, 0) && |objects| == Nodes(v) && AllFine(objects, 0, Nodes(v))
    requires PayloadSums(payload, objects) && payload[|objects|] <= MAX_VALUE_BYTES
    ensures Closed(objects) && StandsFor(objects, 0, v)
  {
    forall i | 0 <= i < |objects|
      ensures ClosedAt(objects, i)
    {
      assert Fine(objects, i);
    }
    forall i | 0 <= i < |objects|
      ensures ObjectKeysAreText(objects, i)
    {
      assert Fine(objects, i);
    }
    LaidOutBytes(objects, payload, v, 0);
    VisitTable(v, objects);
  }

  lemma VisitTable(v: Value, objects: seq<Object>)
    requires Storable(v) && LaidOut(objects, v, 0) && |objects| == Nodes(v) && Closed(objects)
    ensures VisitAll(objects, 0, AllWhite(|objects|)).Ok?
  {
    var white := AllWhite(|objects|);
    var r := Visit(objects, 0, white, 0);
    VisitLaidOut(objects, v, 0, white, 0, r);
    VisitBlack(objects, 1, r.value);
  }

  lemma {:induction false} VisitBlack(objects: seq<Object>, i: nat, colors: seq<Color>)
    requires Closed(objects) && |colors| == |objects| && i <= |objects|
    requires forall k :: 0 <= k < |colors| ==> colors[k].Black?
    ensures VisitAll(objects, i, colors).Ok?
    decreases |objects| - i
  {
    if i < |objects| {
      VisitBlack(objects, i + 1, colors);
    }
  }

  /** The table of a value can be read, and how many references it holds. */
  lemma ValueReadable(parts: seq<seq<byte>>, refSize: nat, objects: seq<Object>, v: Value) returns (refs: seq<nat>)
    requires Storable(v) && LaidOut(objects, v, 0) && |objects| == Nodes(v) && AllFine(objects, 0, Nodes(v))
    requires NonEmpty(parts) && IsParts(parts, objects, refSize)
    requires refSize == RefSize(|objects|) && Offset(parts, |parts|) <= MAX_PLIST_SIZE
    ensures AllReadable(objects, refSize)
    ensures RefSums(refs, objects) && forall i :: 0 <= i < |refs| ==> refs[i] <= MAX_REFERENCES
  {
    refs := RefSumsOf(objects);
    var payload := PayloadSumsOf(objects);
    LaidOutRefs(objects, refs, v, 0);
    TableReadable(objects, parts, refSize, refs, payload);
  }

  lemma LaidTableReads(s: seq<byte>, parts: seq<seq<byte>>, t: Trailer, objects: seq<Object>, v: Value)
    requires Storable(v) && LaidOut(objects, v, 0) && |objects| == Nodes(v) && AllFine(objects, 0, Nodes(v))
    requires Pieces(s, parts, t) && NonEmpty(parts) && IsParts(parts, objects, t.refSize)
    requires t.refSize == RefSize(|objects|) && t.top == 0 && t.tableStart <= |s| <= MAX_PLIST_SIZE
    ensures ReadTable(s) == Ok(Table(t, Offsets(parts), objects))
  {
    var refs := ValueReadable(parts, t.refSize, objects, v);
    TableReadsBack(s, parts, t, objects, refs);
  }

  lemma LaidTableStandsFor(parts: seq<seq<byte>>, refSize: nat, objects: seq<Object>, v: Value)
    requires Storable(v) && LaidOut(objects, v, 0) && |objects| == Nodes(v) && AllFine(objects, 0, Nodes(v))
    requires IsParts(parts, objects, refSize) && Offset(parts, |parts|) <= MAX_PLIST_SIZE
    ensures Closed(objects) && StandsFor(objects, 0, v)
  {
    var payload := PayloadSumsOf(objects);
    PayloadFitsParts(parts, objects, refSize, payload, |objects|);
    TableStandsFor(v, objects, payload);
  }

  lemma LaidTableDecodes(s: seq<byte>, parts: seq<seq<byte>>, t: Trailer, objects: seq<Object>, v: Value)
    requires Storable(v) && LaidOut(objects, v, 0) && |objects| == Nodes(v) && AllFine(objects, 0, Nodes(v))
    requires Pieces(s, parts, t) && NonEmpty(parts) && IsParts(parts, objects, t.refSize)
    requires t.refSize == RefSize(|objects|) && t.top == 0 && |s| <= MAX_PLIST_SIZE
    ensures DecodeDocument(s) == Ok(v)
  {
    assert t.count * t.offsetSize >= 0;
    LaidTableReads(s, parts, t, objects, v);
    LaidTableStandsFor(parts, t.refSize, objects, v);
    DecodesExactly(s, v);
  }

  /** Decoding undoes encoding, whenever the document is not too long. */
  lemma RoundTrip(v: Value)
    requires Storable(v) && |Document(v)| <= MAX_PLIST_SIZE
    ensures DecodeDocument(Document(v)) == Ok(v)
  {
    TableEncodable(v);
    var objects, refSize := Flatten(v, 0), RefSize(Nodes(v));
    var parts := Parts(objects, refSize);
    LaidPieces(parts, refSize);
    PartsAreParts(objects, refSize);
    LaidTableDecodes(Document(v), parts, TrailerOf(parts, refSize), objects, v);
  }
}
