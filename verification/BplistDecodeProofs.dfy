/** Which documents decode, and to what. */
module BplistDecodeProofs {
  import opened Bytes
  import opened BplistModel
  import opened BplistWire
  import opened BplistGraph
  import opened BplistUnfold
  import opened BplistUnfoldProofs
  import opened BplistDocument

  /** Object `i` covers byte `p`. */
  ghost predicate Covers(offsets: seq<nat>, tableStart: nat, i: nat, p: nat)
    requires i < |offsets|
  {
    offsets[i] <= p < NextAbove(offsets, |offsets|, offsets[i], tableStart)
  }

  ghost predicate Covered(offsets: seq<nat>, tableStart: nat, p: nat) {
    exists i :: 0 <= i < |offsets| && Covers(offsets, tableStart, i, p)
  }

  /** The objects tile the bytes between the header and the offset table: each byte there is in an
      object, no byte is in two, and no object reaches outside. */
  ghost predicate Tiles(offsets: seq<nat>, tableStart: nat) {
    && (forall p: nat :: Covered(offsets, tableStart, p) <==> HEADER_SIZE <= p < tableStart)
    && (forall i, j, p: nat {:trigger Covers(offsets, tableStart, i, p), Covers(offsets, tableStart, j, p)} ::
          0 <= i < |offsets| && 0 <= j < |offsets|
          && Covers(offsets, tableStart, i, p) && Covers(offsets, tableStart, j, p)
          ==> i == j)
  }

  /** The largest offset that is not above `p`. */
  lemma {:induction false} LastAtOrBelow(offsets: seq<nat>, n: nat, p: nat) returns (i: nat)
    requires n <= |offsets| && exists k :: 0 <= k < n && offsets[k] <= p
    ensures i < n && offsets[i] <= p
    ensures forall k :: 0 <= k < n && offsets[k] <= p ==> offsets[k] <= offsets[i]
  {
    if !exists k :: 0 <= k < n - 1 && offsets[k] <= p {
      i := n - 1;
    } else {
      i := LastAtOrBelow(offsets, n - 1, p);
      if offsets[i] < offsets[n - 1] <= p {
        i := n - 1;
      }
    }
  }

  lemma OffsetsTile(offsets: seq<nat>, tableStart: nat)
    requires InTable(offsets, tableStart) && Distinct(offsets) && HEADER_SIZE in offsets
    ensures Tiles(offsets, tableStart)
  {
    forall p: nat | HEADER_SIZE <= p < tableStart
      ensures Covered(offsets, tableStart, p)
    {
      var i := LastAtOrBelow(offsets, |offsets|, p);
      NextAboveIsLeast(
        offsets, |offsets|, offsets[i], tableStart, NextAbove(offsets, |offsets|, offsets[i], tableStart));
      assert Covers(offsets, tableStart, i, p);
    }
    forall i, j, p: nat | 0 <= i < |offsets| && 0 <= j < |offsets|
                     && Covers(offsets, tableStart, i, p) && Covers(offsets, tableStart, j, p)
      ensures i == j
    {
      CoversOnce(offsets, tableStart, i, j, p);
      CoversOnce(offsets, tableStart, j, i, p);
    }
  }

  lemma CoversOnce(offsets: seq<nat>, tableStart: nat, i: nat, j: nat, p: nat)
    requires i < |offsets| && j < |offsets|
    requires Covers(offsets, tableStart, i, p) && Covers(offsets, tableStart, j, p)
    ensures offsets[i] <= offsets[j]
  {
    NextAboveIsLeast(
      offsets, |offsets|, offsets[j], tableStart, NextAbove(offsets, |offsets|, offsets[j], tableStart));
  }

  /** A table stands for `v`: it passes the check on cycles, and means `v`. */
  ghost predicate StandsFor(objects: seq<Object>, top: nat, v: Value)
    requires Closed(objects)
  {
    VisitAll(objects, 0, AllWhite(|objects|)).Ok? && Means(objects, top, v)
  }

  /** The top object of a table is the root of `v`, which is inside the limits. */
  ghost predicate Means(objects: seq<Object>, top: nat, v: Value)
    requires Closed(objects)
  {
    && KeysAreText(objects)
    && IsUnfolding(objects, top, v)
    && WellFormed(v)
    && Depth(v) <= MAX_DEPTH
    && Nodes(v) <= MAX_DECODED_NODES
    && WireBytes(objects, top, v) <= MAX_VALUE_BYTES
  }

  /** A document decodes to `v` exactly when its table can be read and stands for `v`. */
  lemma DecodesExactly(input: seq<byte>, v: Value)
    ensures DecodeDocument(input) == Ok(v)
       <==> ReadTable(input).Ok? && StandsFor(ReadTable(input).value.objects, ReadTable(input).value.trailer.top, v)
  {
    if ReadTable(input).Ok? {
      var table := ReadTable(input).value;
      var objects, top := table.objects, table.trailer.top;
      if KeysAreText(objects) && VisitAll(objects, 0, AllWhite(|objects|)).Ok? {
        var r := Unfold(objects, top, 0, Budget(0, 0));
        if r.Ok? {
          UnfoldSound(objects, top, 0, Budget(0, 0), r.value.0, r.value.1);
        }
        if StandsFor(objects, top, v) {
          UnfoldComplete(objects, top, v, 0, Budget(0, 0), r);
        }
      }
    }
  }

  /** What an accepted document is. */
  lemma DecodeSound(input: seq<byte>, v: Value)
    requires DecodeDocument(input) == Ok(v)
    ensures ReadTable(input).Ok?
    ensures var Table(t, offsets, objects) := ReadTable(input).value;
            && Consistent(t, |input|) && |objects| == |offsets| == t.count
            && InTable(offsets, t.tableStart) && Tiles(offsets, t.tableStart)
            && (forall i :: 0 <= i < |objects| ==> ParseAll(input, t, offsets)[i] == Ok(objects[i]))
            && Acyclic(objects)
            && IsUnfolding(objects, t.top, v)
            && WireBytes(objects, t.top, v) <= MAX_VALUE_BYTES
    ensures WellFormed(v) && IntegersInRange(v)
    ensures Depth(v) <= MAX_DEPTH && Nodes(v) <= MAX_DECODED_NODES
  {
    DecodesExactly(input, v);
    var Table(t, offsets, objects) := ReadTable(input).value;
    OffsetsTile(offsets, t.tableStart);
    var parsed := ParseAll(input, t, offsets);
    var scan := ScanUpTo(parsed, |parsed|).value;
    forall i | 0 <= i < |objects|
      ensures parsed[i] == Ok(objects[i])
    {
      ScanParses(parsed, |parsed|, objects, scan.references, i);
    }
    VisitAllImpliesAcyclic(objects);
    var r := Unfold(objects, t.top, 0, Budget(0, 0));
    UnfoldSound(objects, t.top, 0, Budget(0, 0), v, r.value.1);
  }
}
