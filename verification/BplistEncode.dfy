/** Encoding a value into a document. */
module BplistEncode {
  import opened Bytes
  import opened BplistModel
  import opened BplistWire
  import opened BplistUnfold
  import opened BplistFlatten
  import opened BplistFlattenProofs
  import opened BplistDocument
  import opened BplistLayout
  import opened BplistRoundTrip
  import opened BplistEncoder
  import opened BplistWriter

  /** `offsets` are where the first parts start. */
  ghost predicate OffsetsOf(offsets: seq<nat>, parts: seq<seq<byte>>) {
    && |offsets| <= |parts|
    && forall i {:trigger OffsetIs(offsets, parts, i)} :: 0 <= i < |offsets| ==> OffsetIs(offsets, parts, i)
  }

  ghost predicate OffsetIs(offsets: seq<nat>, parts: seq<seq<byte>>, i: nat)
    requires i < |offsets| <= |parts|
  {
    offsets[i] == Offset(parts, i)
  }

  lemma OffsetsOfStep(offsets: seq<nat>, parts: seq<seq<byte>>, x: nat)
    requires OffsetsOf(offsets, parts) && |offsets| < |parts| && x == Offset(parts, |offsets|)
    ensures OffsetsOf(offsets + [x], parts)
  {
    forall i | 0 <= i < |offsets| + 1
      ensures OffsetIs(offsets + [x], parts, i)
    {
      if i < |offsets| {
        assert OffsetIs(offsets, parts, i);
      }
    }
  }

  lemma OffsetsOfAll(offsets: seq<nat>, parts: seq<seq<byte>>)
    requires OffsetsOf(offsets, parts) && |offsets| == |parts|
    ensures offsets == Offsets(parts)
  {
    forall i | 0 <= i < |offsets|
      ensures offsets[i] == Offsets(parts)[i]
    {
      assert OffsetIs(offsets, parts, i);
    }
  }

  /** Writes the objects one after the other and notes where each starts. */
  method WriteObjects(writer: Writer, objects: seq<Object>, refSize: nat, ghost parts: seq<seq<byte>>)
    returns (ok: bool, offsets: seq<nat>)
    requires writer.output == Header() && IsParts(parts, objects, refSize) && refSize in {1, 2, 4, 8}
    requires AllFine(objects, 0, |objects|) && |objects| <= MAX_OBJECTS
    modifies writer
    ensures ok <==> HEADER_SIZE + |Joined(parts, |parts|)| <= MAX_PLIST_SIZE
    ensures ok ==> writer.output == Header() + Joined(parts, |parts|) && offsets == Offsets(parts)
  {
    offsets := [];
    for i := 0 to |objects|
      invariant writer.output == Header() + Joined(parts, i) && |writer.output| <= MAX_PLIST_SIZE
      invariant |offsets| == i && OffsetsOf(offsets, parts)
    {
      assert Fine(objects, i) && IsPart(parts, objects, refSize, i);
      JoinedLength(parts, i);
      OffsetsOfStep(offsets, parts, |writer.output|);
      offsets := offsets + [|writer.output|];
      Moved(Header(), Joined(parts, i), parts[i]);
      JoinedGrows(parts, i + 1, |parts|);
      ok := writer.EncodeObject(objects[i], refSize);
      if !ok {
        return;
      }
    }
    OffsetsOfAll(offsets, parts);
    ok := true;
  }

  method WriteTrailer(writer: Writer, t: Trailer) returns (ok: bool)
    requires t.offsetSize < 256 && t.refSize < 256
    requires t.count <= MAX_INTEGER && t.top <= MAX_INTEGER && t.tableStart <= MAX_INTEGER
    modifies writer
    ensures writer.Wrote(ok, TrailerBytes(t))
  {
    ok := writer.Append(Zeros(6));
    if ok {
      ok := writer.Push(t.offsetSize);
    }
    if ok {
      ok := writer.Push(t.refSize);
    }
    if ok {
      assert writer.output == old(writer.output) + (Zeros(6) + [t.offsetSize, t.refSize]);
      ok := writer.AppendBE(t.count, 8);
    }
    if ok {
      assert writer.output == old(writer.output) + (Zeros(6) + [t.offsetSize, t.refSize] + BE(t.count, 8));
      ok := writer.AppendBE(t.top, 8);
    }
    if ok {
      assert writer.output
          == old(writer.output) + (Zeros(6) + [t.offsetSize, t.refSize] + BE(t.count, 8) + BE(t.top, 8));
      ok := writer.AppendBE(t.tableStart, 8);
    }
  }

  /** The offset table and the trailer, after the objects. */
  method WriteTail(writer: Writer, offsets: seq<nat>, t: Trailer) returns (ok: bool)
    requires t.offsetSize in {1, 2, 4, 8} && t.refSize < 256 && Below(offsets, MAX_INTEGER)
    requires t.count <= MAX_INTEGER && t.top <= MAX_INTEGER && t.tableStart <= MAX_INTEGER
    requires |writer.output| <= MAX_PLIST_SIZE
    modifies writer
    ensures writer.Wrote(ok, EncodeRefs(offsets, t.offsetSize) + TrailerBytes(t))
  {
    ok := writer.AppendRefs(offsets, t.offsetSize);
    if ok {
      ok := WriteTrailer(writer, t);
      Moved(old(writer.output), EncodeRefs(offsets, t.offsetSize), TrailerBytes(t));
    }
  }

  lemma LaidSplits(parts: seq<seq<byte>>, refSize: nat, start: seq<byte>, tail: seq<byte>)
    requires refSize in {1, 2, 4, 8} && start == Header() + Joined(parts, |parts|)
    requires var t := TrailerOf(parts, refSize); tail == EncodeRefs(Offsets(parts), t.offsetSize) + TrailerBytes(t)
    ensures Laid(parts, refSize) == start + tail && |start| == Offset(parts, |parts|)
  {
    JoinedLength(parts, |parts|);
    Moved(Header(), Joined(parts, |parts|), tail);
  }

  /** Writes the whole document of a table whose top object is the first. */
  method WriteDocument(objects: seq<Object>, top: nat, refSize: nat, ghost parts: seq<seq<byte>>)
    returns (r: Result<seq<byte>>)
    requires top == 0 && IsParts(parts, objects, refSize) && NonEmpty(parts) && refSize in {1, 2, 4, 8}
    requires AllFine(objects, 0, |objects|) && |objects| <= MAX_OBJECTS
    ensures r == if |Laid(parts, refSize)| <= MAX_PLIST_SIZE then Ok(Laid(parts, refSize)) else Err(OutputTooLarge)
  {
    ghost var t := TrailerOf(parts, refSize);
    LaidSplits(
      parts, refSize, Header() + Joined(parts, |parts|), EncodeRefs(Offsets(parts), t.offsetSize) + TrailerBytes(t));
    OffsetsInTable(parts);
    var writer := new Writer();
    var ok := writer.Append(Header());
    var offsets;
    ok, offsets := WriteObjects(writer, objects, refSize, parts);
    if !ok {
      return Err(OutputTooLarge);
    }
    var tableStart := |writer.output|;
    ok := WriteTail(writer, offsets, Trailer(StorageWidth(tableStart), refSize, |objects|, top, tableStart));
    r := if ok then Ok(writer.output) else Err(OutputTooLarge);
  }

  /** Writes the flattened `v`. */
  method EncodeTable(objects: seq<Object>, top: nat, ghost v: Value) returns (r: Result<seq<byte>>)
    requires WellFormed(v) && IntegersInRange(v) && Nodes(v) <= MAX_OBJECTS && objects == Flatten(v, 0) && top == 0
    ensures r == if |Document(v)| <= MAX_PLIST_SIZE then Ok(Document(v)) else Err(OutputTooLarge)
  {
    TableEncodable(v);
    var refSize := StorageWidth(|objects| - 1);
    PartsAreParts(objects, refSize);
    r := WriteDocument(objects, top, refSize, Parts(objects, refSize));
  }

  /** Nothing is used up yet. */
  const EMPTY := Room(0, 0, 0, 0)

  /** Encodes `v` exactly when it is inside every limit, and what is written decodes to `v` again. */
  method Encode(v: Value) returns (r: Result<seq<byte>>)
    requires WellFormed(v)
    ensures r.Ok? <==> IntegersInRange(v) && WithinRoom(v, EMPTY) && |Document(v)| <= MAX_PLIST_SIZE
    ensures r.Ok? ==> r.value == Document(v) && DecodeDocument(r.value) == Ok(v)
    ensures r == Err(OutputTooLarge) ==> IntegersInRange(v) && WithinRoom(v, EMPTY) && |Document(v)| > MAX_PLIST_SIZE
    ensures r.Err? ==> r.error in {OutputTooLarge, LimitExceeded, IntegerOutOfRange}
    ensures r == Err(IntegerOutOfRange) ==> !IntegersInRange(v)
    ensures r == Err(LimitExceeded) ==> !WithinRoom(v, EMPTY)
  {
    var encoder := new Encoder();
    var top :- encoder.Add(v, 0);
    assert encoder.objects == Flatten(v, 0);
    r := EncodeTable(encoder.objects, top, v);
    if r.Ok? {
      RoundTrip(v);
    }
  }
}
