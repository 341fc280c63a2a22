/** The document that encoded objects are laid out in, and that the reader finds each of them again. */
module BplistLayout {
  import opened Bytes
  import opened BplistModel
  import opened BplistWire
  import opened BplistDocument

  /** The bytes of one object are never empty. */
  ghost predicate NonEmpty(parts: seq<seq<byte>>) {
    forall i :: 0 <= i < |parts| ==> parts[i] != []
  }

  /** Where part `n` starts. */
  function Offset(parts: seq<seq<byte>>, n: nat): nat
    requires n <= |parts|
  {
    if n == 0 then HEADER_SIZE else Offset(parts, n - 1) + |parts[n - 1]|
  }

  lemma {:induction false} JoinedLength(parts: seq<seq<byte>>, n: nat)
    requires n <= |parts|
    ensures HEADER_SIZE + |Joined(parts, n)| == Offset(parts, n)
  {
    if n > 0 {
      JoinedLength(parts, n - 1);
    }
  }

  function Offsets(parts: seq<seq<byte>>): (offsets: seq<nat>)
    ensures |offsets| == |parts|
  {
    seq(|parts|, i requires 0 <= i < |parts| => Offset(parts, i))
  }

  function TrailerBytes(t: Trailer): (s: seq<byte>)
    requires t.offsetSize < 256 && t.refSize < 256
    ensures |s| == TRAILER_SIZE
  {
    Zeros(6) + [t.offsetSize, t.refSize] + BE(t.count, 8) + BE(t.top, 8) + BE(t.tableStart, 8)
  }

  /** The trailer; the first object is the top one unless another one is named. */
  function TrailerOf(parts: seq<seq<byte>>, refSize: nat, top: nat := 0): (t: Trailer)
    requires refSize in {1, 2, 4, 8}
    ensures t.offsetSize in {1, 2, 4, 8} && t.refSize == refSize && t.top == top
  {
    var tableStart := Offset(parts, |parts|);
    Trailer(StorageWidth(tableStart), refSize, |parts|, top, tableStart)
  }

  function Laid(parts: seq<seq<byte>>, refSize: nat, top: nat := 0): seq<byte>
    requires refSize in {1, 2, 4, 8}
  {
    var t := TrailerOf(parts, refSize, top);
    Header() + (Joined(parts, |parts|) + (EncodeRefs(Offsets(parts), t.offsetSize) + TrailerBytes(t)))
  }

  // -------------------------------------------------------------------------
  // Where the pieces are

  /** What is where in the document `s` with trailer `t`. */
  ghost predicate Pieces(s: seq<byte>, parts: seq<seq<byte>>, t: Trailer) {
    && t.offsetSize == StorageWidth(t.tableStart) && 1 <= t.refSize <= 8
    && t.count == |parts| && t.tableStart == Offset(parts, |parts|)
    && |s| == t.tableStart + t.count * t.offsetSize + TRAILER_SIZE
    && At(s, 0, Header())
    && At(s, HEADER_SIZE, Joined(parts, |parts|))
    && At(s, t.tableStart, EncodeRefs(Offsets(parts), t.offsetSize))
    && At(s, t.tableStart + t.count * t.offsetSize, TrailerBytes(t))
  }

  lemma FourPieces<T>(s: seq<T>, a: seq<T>, b: seq<T>, c: seq<T>, d: seq<T>, bcd: seq<T>, cd: seq<T>)
    requires s == a + bcd && bcd == b + cd && cd == c + d
    ensures |s| == |a| + |b| + |c| + |d|
    ensures At(s, 0, a) && At(s, |a|, b) && At(s, |a| + |b|, c) && At(s, |a| + |b| + |c|, d)
  {
    assert At(s, 0, s);
    AtSplit(s, 0, s, a, bcd);
    AtSplit(s, |a|, bcd, b, cd);
    AtSplit(s, |a| + |b|, cd, c, d);
  }

  lemma ArePieces(
    s: seq<byte>, parts: seq<seq<byte>>, t: Trailer, body: seq<byte>, table: seq<byte>, trailer: seq<byte>)
    requires t.offsetSize == StorageWidth(t.tableStart) && 1 <= t.refSize <= 8
    requires t.count == |parts| && t.tableStart == Offset(parts, |parts|) == HEADER_SIZE + |body|
    requires body == Joined(parts, |parts|) && table == EncodeRefs(Offsets(parts), t.offsetSize)
    requires trailer == TrailerBytes(t)
    requires |s| == HEADER_SIZE + |body| + |table| + |trailer|
    requires At(s, 0, Header()) && At(s, HEADER_SIZE, body) && At(s, HEADER_SIZE + |body|, table)
    requires At(s, HEADER_SIZE + |body| + |table|, trailer)
    ensures Pieces(s, parts, t)
  {
  }

  lemma LaidPieces(parts: seq<seq<byte>>, refSize: nat, top: nat := 0)
    requires refSize in {1, 2, 4, 8}
    ensures Pieces(Laid(parts, refSize, top), parts, TrailerOf(parts, refSize, top))
  {
    var s, t := Laid(parts, refSize, top), TrailerOf(parts, refSize, top);
    JoinedLength(parts, |parts|);
    var body, table, trailer := Joined(parts, |parts|), EncodeRefs(Offsets(parts), t.offsetSize), TrailerBytes(t);
    FourPieces(s, Header(), body, table, trailer, body + (table + trailer), table + trailer);
    ArePieces(s, parts, t, body, table, trailer);
  }

  lemma {:induction false} PartIsAt(s: seq<byte>, parts: seq<seq<byte>>, n: nat, i: nat)
    requires i < n <= |parts| && At(s, HEADER_SIZE, Joined(parts, n))
    ensures At(s, Offset(parts, i), parts[i])
    decreases n
  {
    JoinedLength(parts, n - 1);
    AtConcat(s, HEADER_SIZE, Joined(parts, n - 1), parts[n - 1]);
    if i < n - 1 {
      PartIsAt(s, parts, n - 1, i);
    }
  }

  lemma {:induction false} OffsetsAscend(parts: seq<seq<byte>>, i: nat, j: nat)
    requires NonEmpty(parts) && i <= j <= |parts|
    ensures HEADER_SIZE <= Offset(parts, i) <= Offset(parts, j)
    ensures i < j ==> Offset(parts, i) < Offset(parts, j)
    decreases j
  {
    if i < j {
      OffsetsAscend(parts, i, j - 1);
    } else if 0 < i {
      OffsetsAscend(parts, i - 1, i - 1);
    }
  }

  // -------------------------------------------------------------------------
  // Reading it back

  lemma FourSlices<T>(s: seq<T>, a: seq<T>, b: seq<T>, c: seq<T>, d: seq<T>)
    requires s == a + b + c + d
    ensures var i, j := |a| + |b|, |a| + |b| + |c|;
            |s| == j + |d| && s[0..|a|] == a && s[|a|..i] == b && s[i..j] == c && s[j..j + |d|] == d
  {
    assert a + b + c + d == a + (b + (c + d));
    FourPieces(s, a, b, c, d, b + (c + d), c + d);
    AtSlice(s, 0, a);
    AtSlice(s, |a|, b);
    AtSlice(s, |a| + |b|, c);
    AtSlice(s, |a| + |b| + |c|, d);
  }

  /** The bytes in front of the counts. */
  lemma TrailerHead(s: seq<byte>, offsetSize: byte, refSize: byte)
    requires |s| >= 8 && s[0..8] == Zeros(6) + [offsetSize, refSize]
    ensures s[..6] == Zeros(6) && s[6] == offsetSize && s[7] == refSize
  {
    var head := s[0..8];
    assert head[6] == offsetSize && head[7] == refSize;
    assert s[..6] == head[..6];
    assert head[..6] == Zeros(6);
  }

  lemma {:induction false} NumberReadsBack(v: nat)
    requires v <= MAX_INTEGER
    ensures FromBE(BE(v, 8)) == v
  {
    PowersOf256();
    FromBEOfBE(v, 8);
  }

  lemma TrailerReadsBack(t: Trailer)
    requires t.offsetSize < 256 && t.refSize < 256
    requires t.count <= MAX_INTEGER && t.top <= MAX_INTEGER && t.tableStart <= MAX_INTEGER
    ensures TrailerBytes(t)[..6] == Zeros(6) && TrailerFields(TrailerBytes(t)) == t
  {
    var s := TrailerBytes(t);
    var count, top, start := BE(t.count, 8), BE(t.top, 8), BE(t.tableStart, 8);
    FourSlices(s, Zeros(6) + [t.offsetSize, t.refSize], count, top, start);
    TrailerHead(s, t.offsetSize, t.refSize);
    NumberReadsBack(t.count);
    NumberReadsBack(t.top);
    NumberReadsBack(t.tableStart);
  }

  /** The reader accepts exactly the consistent trailers of documents of allowed length. */
  lemma TrailerAccepted(s: seq<byte>, t: Trailer)
    requires HEADER_SIZE + TRAILER_SIZE <= |s| <= MAX_PLIST_SIZE && s[..HEADER_SIZE] == Header()
    ensures ReadTrailer(s) == Ok(t)
       <==> var trailer := s[|s| - TRAILER_SIZE..];
            trailer[..6] == Zeros(6) && TrailerFields(trailer) == t && Consistent(t, |s|)
  {
  }

  lemma LaidTrailer(s: seq<byte>, parts: seq<seq<byte>>, t: Trailer)
    requires Pieces(s, parts, t) && NonEmpty(parts) && t.top < |parts| <= MAX_OBJECTS && |s| <= MAX_PLIST_SIZE
    ensures ReadTrailer(s) == Ok(t)
  {
    AtSlice(s, 0, Header());
    OffsetsAscend(parts, 0, |parts|);
    var start := t.tableStart + t.count * t.offsetSize;
    assert t.count * t.offsetSize >= 0;
    AtSlice(s, start, TrailerBytes(t));
    assert s[start..] == s[start..start + TRAILER_SIZE];
    TrailerReadsBack(t);
    TrailerAccepted(s, t);
  }

  lemma OffsetsReadBack(parts: seq<seq<byte>>)
    requires NonEmpty(parts) && Offset(parts, |parts|) <= MAX_INTEGER
    ensures var size := StorageWidth(Offset(parts, |parts|));
            DecodeRefs(EncodeRefs(Offsets(parts), size), |parts|, size) == Offsets(parts)
  {
    OffsetsInTable(parts);
    DecodeOfEncodeRefs(Offsets(parts), StorageWidth(Offset(parts, |parts|)));
  }

  lemma LaidOffsets(s: seq<byte>, parts: seq<seq<byte>>, t: Trailer)
    requires Pieces(s, parts, t) && NonEmpty(parts) && parts != [] && Consistent(t, |s|) && |s| <= MAX_PLIST_SIZE
    ensures ReadOffsets(s, t) == Ok(Offsets(parts))
  {
    var offsets := Offsets(parts);
    OffsetsInTable(parts);
    OffsetsReadBack(parts);
    assert offsets[0] == HEADER_SIZE;
    OffsetsAccepted(s, t, offsets, EncodeRefs(offsets, t.offsetSize));
  }

  lemma OffsetsAccepted(s: seq<byte>, t: Trailer, offsets: seq<nat>, raw: seq<byte>)
    requires Consistent(t, |s|) && At(s, t.tableStart, raw) && |raw| == t.count * t.offsetSize
    requires DecodeRefs(raw, t.count, t.offsetSize) == offsets
    requires InTable(offsets, t.tableStart) && Distinct(offsets) && HEADER_SIZE in offsets
    ensures ReadOffsets(s, t) == Ok(offsets)
  {
    AtSlice(s, t.tableStart, raw);
  }

  lemma OffsetsInTable(parts: seq<seq<byte>>)
    requires NonEmpty(parts)
    ensures InTable(Offsets(parts), Offset(parts, |parts|)) && Distinct(Offsets(parts))
  {
    var offsets := Offsets(parts);
    forall i | 0 <= i < |offsets|
      ensures HEADER_SIZE <= offsets[i] < Offset(parts, |parts|)
    {
      OffsetsAscend(parts, i, |parts|);
    }
    forall i, j | 0 <= i < j < |offsets|
      ensures offsets[i] != offsets[j]
    {
      OffsetsAscend(parts, i, j);
    }
  }

  /** The next larger offset is that of the next part. */
  lemma NextOffset(parts: seq<seq<byte>>, i: nat)
    requires NonEmpty(parts) && i < |parts|
    ensures NextAbove(Offsets(parts), |parts|, Offset(parts, i), Offset(parts, |parts|)) == Offset(parts, i + 1)
  {
    var offsets, at, limit := Offsets(parts), Offset(parts, i), Offset(parts, |parts|);
    var next := NextAbove(offsets, |parts|, at, limit);
    OffsetsAscend(parts, i, i + 1);
    OffsetsAscend(parts, i + 1, |parts|);
    NextAboveIsLeast(offsets, |parts|, at, limit, next);
    assert i + 1 < |parts| ==> offsets[i + 1] == Offset(parts, i + 1);
    if next in offsets {
      var k :| 0 <= k < |offsets| && offsets[k] == next;
      if k < i {
        OffsetsAscend(parts, k, i);
      } else if i < k {
        OffsetsAscend(parts, i + 1, k);
      }
    }
  }

  lemma LaidExtent(s: seq<byte>, parts: seq<seq<byte>>, t: Trailer, i: nat)
    requires Pieces(s, parts, t) && NonEmpty(parts) && i < |parts| && t.tableStart <= |s|
    ensures InTable(Offsets(parts), t.tableStart) && Extent(s, t, Offsets(parts), i) == parts[i]
  {
    OffsetsInTable(parts);
    PartIsAt(s, parts, |parts|, i);
    AtSlice(s, Offset(parts, i), parts[i]);
    NextOffset(parts, i);
  }
}
