/** The whole decoder: offsets, first pass, graph checks and second pass. */
module BplistDecoder {
  import opened Bytes
  import opened BplistModel
  import opened BplistWire
  import opened BplistGraph
  import opened BplistDocument
  import opened BplistScanner
  import opened BplistDecode

  // -------------------------------------------------------------------------
  // Offsets

  /** Reads the offset table; an offset outside the objects' bytes is refused at once. */
  method ReadOffsetTable(input: seq<byte>, t: Trailer) returns (r: Result<seq<nat>>)
    requires Consistent(t, |input|)
    ensures var offsets := DecodeRefs(input[t.tableStart..|input| - TRAILER_SIZE], t.count, t.offsetSize);
            r == if InTable(offsets, t.tableStart) then Ok(offsets) else Err(Malformed)
  {
    var raw := input[t.tableStart..|input| - TRAILER_SIZE];
    ghost var all := DecodeRefs(raw, t.count, t.offsetSize);
    var offsets := [];
    for i := 0 to t.count
      invariant |offsets| == i
      invariant forall j :: 0 <= j < i ==> offsets[j] == all[j] && HEADER_SIZE <= all[j] < t.tableStart
    {
      DecodeRefsStep(raw, t.count, t.offsetSize, i);
      var offset := FromBE(raw[i * t.offsetSize..(i + 1) * t.offsetSize]);
      if offset < HEADER_SIZE || offset >= t.tableStart {
        return Err(Malformed);
      }
      offsets := offsets + [offset];
    }
    assert offsets == all;
    r := Ok(offsets);
  }

  predicate Sorted(s: seq<nat>) {
    forall i, j :: 0 <= i < j < |s| ==> s[i] <= s[j]
  }

  function InsertSorted(s: seq<nat>, x: nat): (r: seq<nat>)
    requires Sorted(s)
    ensures Sorted(r) && multiset(r) == multiset(s) + multiset{x}
    ensures |r| == |s| + 1 && (r[|s|] == x || (s != [] && r[|s|] == s[|s| - 1]))
  {
    if s == [] || s[|s| - 1] <= x then s + [x]
    else
      var init, last := s[..|s| - 1], s[|s| - 1];
      assert s == init + [last];
      InsertSorted(init, x) + [last]
  }

  method Sort(offsets: seq<nat>) returns (ordered: seq<nat>)
    ensures Sorted(ordered) && multiset(ordered) == multiset(offsets)
  {
    ordered := [];
    for i := 0 to |offsets|
      invariant Sorted(ordered) && multiset(ordered) == multiset(offsets[..i])
    {
      assert offsets[..i + 1] == offsets[..i] + [offsets[i]];
      ordered := InsertSorted(ordered, offsets[i]);
    }
    assert offsets[..|offsets|] == offsets;
  }

  /** An element counted twice is at two places. */
  lemma {:induction false} DistinctByCount(s: seq<nat>)
    ensures Distinct(s) <==> forall x :: x in s ==> multiset(s)[x] == 1
  {
    if s != [] {
      var n := |s| - 1;
      var init := s[..n];
      assert s == init + [s[n]];
      DistinctByCount(init);
      if Distinct(s) {
        assert s[n] !in init;
      } else if Distinct(init) {
        var i, j :| 0 <= i < j < |s| && s[i] == s[j];
        assert j == n && s[n] in init;
        assert multiset(s)[s[n]] >= 2;
      } else {
        var x :| x in init && multiset(init)[x] != 1;
        assert multiset(s)[x] >= 2;
      }
    }
  }

  lemma SameCountsDistinct(a: seq<nat>, b: seq<nat>)
    requires multiset(a) == multiset(b)
    ensures |a| == |b| && Distinct(a) == Distinct(b) && forall x :: x in a <==> x in b
  {
    DistinctByCount(a);
    DistinctByCount(b);
    assert |multiset(a)| == |a| && |multiset(b)| == |b|;
    forall x
      ensures x in a <==> x in b
    {
      assert x in multiset(a) <==> x in a;
      assert x in multiset(b) <==> x in b;
    }
  }

  predicate StrictlyAscending(s: seq<nat>) {
    forall i :: 0 < i < |s| ==> s[i - 1] < s[i]
  }

  lemma {:induction false} StrictlyAscendingPairs(s: seq<nat>, i: nat, j: nat)
    requires StrictlyAscending(s) && i < j < |s|
    ensures s[i] < s[j]
    decreases j
  {
    if i < j - 1 {
      StrictlyAscendingPairs(s, i, j - 1);
    }
  }

  /** In sorted order equal offsets are neighbours. */
  lemma NeighboursDiffer(offsets: seq<nat>, ordered: seq<nat>)
    requires Sorted(ordered) && multiset(ordered) == multiset(offsets)
    ensures Distinct(offsets) <==> StrictlyAscending(ordered)
  {
    SameCountsDistinct(ordered, offsets);
    if StrictlyAscending(ordered) {
      forall i, j | 0 <= i < j < |ordered|
        ensures ordered[i] != ordered[j]
      {
        StrictlyAscendingPairs(ordered, i, j);
      }
    }
  }

  /** The end of each object, by its offset. */
  method EndsByOffset(ordered: seq<nat>, tableStart: nat) returns (ends: map<nat, nat>)
    requires StrictlyAscending(ordered)
    ensures forall k :: 0 <= k < |ordered| ==> ordered[k] in ends
    ensures forall k :: 0 <= k < |ordered| ==>
              ends[ordered[k]] == if k + 1 < |ordered| then ordered[k + 1] else tableStart
  {
    ends := map[];
    for position := 0 to |ordered|
      invariant forall k :: 0 <= k < position ==> ordered[k] in ends
      invariant forall k :: 0 <= k < position ==>
                  ends[ordered[k]] == if k + 1 < |ordered| then ordered[k + 1] else tableStart
    {
      forall k | 0 <= k < position
        ensures ordered[k] != ordered[position]
      {
        StrictlyAscendingPairs(ordered, k, position);
      }
      var end := if position + 1 < |ordered| then ordered[position + 1] else tableStart;
      ends := ends[ordered[position] := end];
    }
  }

  /** The neighbour in sorted order is the next larger offset. */
  lemma NeighbourIsNext(offsets: seq<nat>, ordered: seq<nat>, tableStart: nat, k: nat)
    requires StrictlyAscending(ordered) && InTable(offsets, tableStart) && k < |ordered|
    requires forall x :: x in ordered <==> x in offsets
    ensures NextAbove(offsets, |offsets|, ordered[k], tableStart)
         == if k + 1 < |ordered| then ordered[k + 1] else tableStart
  {
    var at := ordered[k];
    assert at in offsets;
    var next := NextAbove(offsets, |offsets|, at, tableStart);
    NextAboveIsLeast(offsets, |offsets|, at, tableStart, next);
    if k + 1 < |ordered| {
      assert ordered[k + 1] in offsets;
    }
    if next != tableStart {
      assert next in ordered;
      var j :| 0 <= j < |ordered| && ordered[j] == next;
      if j < k {
        StrictlyAscendingPairs(ordered, j, k);
      } else if k + 1 < j {
        StrictlyAscendingPairs(ordered, k + 1, j);
      }
    }
  }

  /** Every offset has the next larger one, or the table, as its end. */
  ghost predicate EndsAre(ends: map<nat, nat>, offsets: seq<nat>, tableStart: nat) {
    forall i {:trigger EndIs(ends, offsets, tableStart, i)} ::
      0 <= i < |offsets| ==> EndIs(ends, offsets, tableStart, i)
  }

  ghost predicate EndIs(ends: map<nat, nat>, offsets: seq<nat>, tableStart: nat, i: nat)
    requires i < |offsets|
  {
    offsets[i] in ends && ends[offsets[i]] == NextAbove(offsets, |offsets|, offsets[i], tableStart)
  }

  lemma EndsMatch(ends: map<nat, nat>, offsets: seq<nat>, ordered: seq<nat>, tableStart: nat)
    requires StrictlyAscending(ordered) && InTable(offsets, tableStart) && forall x :: x in ordered <==> x in offsets
    requires forall k :: 0 <= k < |ordered| ==> ordered[k] in ends
    requires forall k :: 0 <= k < |ordered| ==>
               ends[ordered[k]] == if k + 1 < |ordered| then ordered[k + 1] else tableStart
    ensures EndsAre(ends, offsets, tableStart)
  {
    forall i | 0 <= i < |offsets|
      ensures EndIs(ends, offsets, tableStart, i)
    {
      assert offsets[i] in ordered;
      var k :| 0 <= k < |ordered| && ordered[k] == offsets[i];
      NeighbourIsNext(offsets, ordered, tableStart, k);
    }
  }

  /** The end of each object, when the offsets are distinct and the first object follows the header. */
  method OrderOffsets(offsets: seq<nat>, tableStart: nat) returns (r: Result<map<nat, nat>>)
    requires InTable(offsets, tableStart) && offsets != []
    ensures r.Ok? <==> Distinct(offsets) && HEADER_SIZE in offsets
    ensures r.Ok? ==> EndsAre(r.value, offsets, tableStart)
    ensures r.Err? ==> r.error == Malformed
  {
    var ordered := Sort(offsets);
    SameCountsDistinct(ordered, offsets);
    NeighboursDiffer(offsets, ordered);
    assert ordered[0] in offsets;
    if ordered[0] != HEADER_SIZE || !StrictlyAscending(ordered) {
      return Err(Malformed);
    }
    var ends := EndsByOffset(ordered, tableStart);
    EndsMatch(ends, offsets, ordered, tableStart);
    r := Ok(ends);
  }

  method FindExtents(input: seq<byte>, t: Trailer) returns (r: Result<(seq<nat>, map<nat, nat>)>)
    requires Consistent(t, |input|)
    ensures var spec := ReadOffsets(input, t);
            if spec.Ok? then r.Ok? && r.value.0 == spec.value && EndsAre(r.value.1, spec.value, t.tableStart)
            else r == Err(spec.error)
  {
    var offsets :- ReadOffsetTable(input, t);
    var ends :- OrderOffsets(offsets, t.tableStart);
    r := Ok((offsets, ends));
  }

  // -------------------------------------------------------------------------
  // First pass

  lemma ScanFailsLater(parsed: seq<Result<Object>>, i: nat, n: nat)
    requires i <= n <= |parsed| && ScanUpTo(parsed, i).Err?
    ensures ScanUpTo(parsed, n) == ScanUpTo(parsed, i)
    decreases n
  {
    if i < n {
      ScanFailsLater(parsed, i, n - 1);
    }
  }

  ghost predicate SummarisedSoFar(scanned: seq<Scanned>, scan: Result<Scan>, total: nat) {
    scan.Ok? && Summarised(scanned, scan.value.objects) && scan.value.references == total
  }

  lemma SummarisedStep(scanned: seq<Scanned>, objects: seq<Object>, o: Object)
    requires Summarised(scanned, objects)
    ensures Summarised(scanned + [Summary(o)], objects + [o])
  {
    forall i | 0 <= i < |objects| + 1
      ensures SummarisedAt(scanned + [Summary(o)], objects + [o], i)
    {
      if i < |objects| {
        assert SummarisedAt(scanned, objects, i);
      }
    }
  }

  /** One more object after those already scanned. */
  lemma ScanStep(parsed: seq<Result<Object>>, i: nat, scanned: seq<Scanned>, total: nat)
    requires i < |parsed| && SummarisedSoFar(scanned, ScanUpTo(parsed, i), total)
    ensures parsed[i].Err? ==> ScanUpTo(parsed, i + 1) == Err(parsed[i].error)
    ensures parsed[i].Ok? ==>
              var o := parsed[i].value;
              if total + |Children(o)| > MAX_REFERENCES then ScanUpTo(parsed, i + 1) == Err(LimitExceeded)
              else SummarisedSoFar(scanned + [Summary(o)], ScanUpTo(parsed, i + 1), total + |Children(o)|)
  {
    if parsed[i].Ok? {
      SummarisedStep(scanned, ScanUpTo(parsed, i).value.objects, parsed[i].value);
    }
  }

  ghost predicate AllParsed(input: seq<byte>, t: Trailer, offsets: seq<nat>, parsed: seq<Result<Object>>)
    requires Consistent(t, |input|) && InTable(offsets, t.tableStart)
  {
    && |parsed| == |offsets| == t.count
    && forall i {:trigger ParsedAt(input, t, offsets, parsed, i)} ::
         0 <= i < |offsets| ==> ParsedAt(input, t, offsets, parsed, i)
  }

  ghost predicate ParsedAt(input: seq<byte>, t: Trailer, offsets: seq<nat>, parsed: seq<Result<Object>>, i: nat)
    requires Consistent(t, |input|) && InTable(offsets, t.tableStart) && i < |parsed| == |offsets|
  {
    parsed[i] == Parse(Extent(input, t, offsets, i), t.refSize, t.count)
  }

  lemma ParseAllParses(input: seq<byte>, t: Trailer, offsets: seq<nat>)
    requires Consistent(t, |input|) && |offsets| == t.count && InTable(offsets, t.tableStart)
    ensures AllParsed(input, t, offsets, ParseAll(input, t, offsets))
  {
    forall i | 0 <= i < |offsets|
      ensures ParsedAt(input, t, offsets, ParseAll(input, t, offsets), i)
    {
    }
  }

  /** Scans every object in table order, counting references. */
  method ScanObjects(
    input: seq<byte>, t: Trailer, offsets: seq<nat>, ends: map<nat, nat>, ghost parsed: seq<Result<Object>>)
    returns (r: Result<seq<Scanned>>)
    requires Consistent(t, |input|) && InTable(offsets, t.tableStart) && EndsAre(ends, offsets, t.tableStart)
    requires AllParsed(input, t, offsets, parsed)
    ensures var spec := ScanUpTo(parsed, |parsed|);
            if spec.Ok? then r.Ok? && Summarised(r.value, spec.value.objects) else r == Err(spec.error)
  {
    var scanned: seq<Scanned>, total: nat := [], 0;
    for i := 0 to |offsets|
      invariant SummarisedSoFar(scanned, ScanUpTo(parsed, i), total)
    {
      ScanStep(parsed, i, scanned, total);
      if ScanUpTo(parsed, i + 1).Err? {
        ScanFailsLater(parsed, i + 1, |parsed|);
      }
      var found :- ScanOne(input, t, offsets, ends, i, parsed);
      total := total + |found.children|;
      if total > MAX_REFERENCES {
        return Err(LimitExceeded);
      }
      scanned := scanned + [found];
    }
    r := Ok(scanned);
  }

  method ScanOne(
    input: seq<byte>, t: Trailer, offsets: seq<nat>, ends: map<nat, nat>, i: nat, ghost parsed: seq<Result<Object>>)
    returns (r: Result<Scanned>)
    requires Consistent(t, |input|) && InTable(offsets, t.tableStart) && EndsAre(ends, offsets, t.tableStart)
    requires AllParsed(input, t, offsets, parsed) && i < |offsets|
    ensures r == ScanResult(parsed[i])
  {
    assert ParsedAt(input, t, offsets, parsed, i);
    var end := ExtentEnd(input, t, offsets, ends, i);
    r := ScanObject(input, offsets[i], end, t.refSize, t.count);
  }

  method ExtentEnd(input: seq<byte>, t: Trailer, offsets: seq<nat>, ends: map<nat, nat>, i: nat) returns (end: nat)
    requires Consistent(t, |input|) && InTable(offsets, t.tableStart) && EndsAre(ends, offsets, t.tableStart)
    requires i < |offsets|
    ensures offsets[i] <= end <= |input| && 1 <= t.refSize <= 8
    ensures input[offsets[i]..end] == Extent(input, t, offsets, i)
  {
    assert EndIs(ends, offsets, t.tableStart, i);
    end := ends[offsets[i]];
  }

  /** Every dictionary key is text. */
  method CheckKeys(scanned: seq<Scanned>, ghost objects: seq<Object>) returns (ok: bool)
    requires Closed(objects) && Summarised(scanned, objects)
    ensures ok <==> KeysAreText(objects)
  {
    for i := 0 to |scanned|
      invariant forall j :: 0 <= j < i ==> ObjectKeysAreText(objects, j)
    {
      assert SummarisedAt(scanned, objects, i) && ClosedAt(objects, i);
      for k := 0 to scanned[i].keyCount
        invariant forall j :: 0 <= j < k ==> objects[Children(objects[i])[j]].OText?
      {
        assert SummarisedAt(scanned, objects, scanned[i].children[k]);
        if scanned[scanned[i].children[k]].kind != StringKind {
          assert !ObjectKeysAreText(objects, i);
          return false;
        }
      }
    }
    ok := true;
  }

  // -------------------------------------------------------------------------
  // The whole document

  lemma TablesAgree(
    input: seq<byte>, ends: map<nat, nat>, scanned: seq<Scanned>, table: Table, parsed: seq<Result<Object>>,
    references: nat)
    requires Consistent(table.trailer, |input|) && InTable(table.offsets, table.trailer.tableStart)
    requires AllParsed(input, table.trailer, table.offsets, parsed) && Closed(table.objects)
    requires EndsAre(ends, table.offsets, table.trailer.tableStart) && Summarised(scanned, table.objects)
    requires ScanUpTo(parsed, |parsed|) == Ok(Scan(table.objects, references))
    ensures Agree(input, ends, scanned, table)
  {
    forall i | 0 <= i < |table.objects|
      ensures AgreeAt(input, ends, table, i)
    {
      assert EndIs(ends, table.offsets, table.trailer.tableStart, i);
      assert ParsedAt(input, table.trailer, table.offsets, parsed, i);
      ScanParses(parsed, |parsed|, table.objects, references, i);
    }
  }

  /** From the tables of the first pass to the value. */
  method DecodeGraph(
    input: seq<byte>, offsets: seq<nat>, ends: map<nat, nat>, scanned: seq<Scanned>, top: nat, ghost table: Table)
    returns (r: Result<Value>)
    requires Agree(input, ends, scanned, table) && offsets == table.offsets && top == table.trailer.top
    requires ReadTable(input) == Ok(table)
    ensures r == DecodeDocument(input)
  {
    var textKeys := CheckKeys(scanned, table.objects);
    if !textKeys {
      return Err(Malformed);
    }
    var _ :- ValidateAll(scanned, table.objects);
    var budget := new DecodeBudget();
    r := DecodeObject(input, offsets, ends, scanned, top, 0, budget, table);
  }

  /** Decodes a document: the result is `DecodeDocument`, for every sequence of bytes. */
  method Decode(input: seq<byte>) returns (r: Result<Value>)
    ensures r == DecodeDocument(input)
  {
    var t :- ReadTrailer(input);
    var extents :- FindExtents(input, t);
    var (offsets, ends) := extents;
    ghost var parsed := ParseAll(input, t, offsets);
    ParseAllParses(input, t, offsets);
    var scanned :- ScanObjects(input, t, offsets, ends, parsed);
    ghost var table := ReadTable(input).value;
    TablesAgree(input, ends, scanned, table, parsed, ScanUpTo(parsed, |parsed|).value.references);
    r := DecodeGraph(input, offsets, ends, scanned, t.top, table);
  }
}
