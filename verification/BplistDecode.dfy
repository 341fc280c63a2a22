/** Decoding a document into a value. */
module BplistDecode {
  import opened Bytes
  import opened BplistModel
  import opened BplistWire
  import opened BplistGraph
  import opened BplistUnfold
  import opened BplistDocument
  import opened BplistScanner

  // -------------------------------------------------------------------------
  // Cycle check

  ghost predicate Summarised(scanned: seq<Scanned>, objects: seq<Object>) {
    && |scanned| == |objects|
    && forall i {:trigger SummarisedAt(scanned, objects, i)} :: 0 <= i < |objects| ==> SummarisedAt(scanned, objects, i)
  }

  ghost predicate SummarisedAt(scanned: seq<Scanned>, objects: seq<Object>, i: nat)
    requires i < |scanned| == |objects|
  {
    scanned[i] == Summary(objects[i])
  }

  /** The depth-first visit, painting in place. */
  method ValidateAcyclic(
    index: nat, scanned: seq<Scanned>, colors: array<Color>, depth: nat, ghost objects: seq<Object>)
    returns (r: Result<()>)
    requires Closed(objects) && Summarised(scanned, objects) && colors.Length == |objects|
    requires index < |objects| && depth <= MAX_DEPTH + 1
    modifies colors
    ensures var spec := Visit(objects, index, old(colors[..]), depth);
            if spec.Ok? then r == Ok(()) && colors[..] == spec.value else r == Err(spec.error)
    decreases MAX_DEPTH + 1 - depth
  {
    if depth > MAX_DEPTH {
      return Err(LimitExceeded);
    }
    match colors[index]
    case Grey => return Err(Malformed);
    case Black => return Ok(());
    case White =>
    colors[index] := Grey;
    assert SummarisedAt(scanned, objects, index) && ClosedAt(objects, index);
    var children := scanned[index].children;
    ghost var whole := VisitFrom(objects, children, 0, colors[..], depth + 1);
    assert colors[..] == old(colors[..])[index := Grey];
    for i := 0 to |children|
      invariant VisitFrom(objects, children, i, colors[..], depth + 1) == whole
    {
      var _ :- ValidateAcyclic(children[i], scanned, colors, depth + 1, objects);
    }
    assert whole == Ok(colors[..]);
    ghost var after := colors[..];
    colors[index] := Black;
    assert colors[..] == after[index := Black];
    r := Ok(());
  }

  /** Visits every object not reached before. */
  method ValidateAll(scanned: seq<Scanned>, ghost objects: seq<Object>) returns (r: Result<()>)
    requires Closed(objects) && Summarised(scanned, objects)
    ensures var spec := VisitAll(objects, 0, AllWhite(|objects|));
            r == if spec.Ok? then Ok(()) else Err(spec.error)
  {
    var colors := new Color[|scanned|](_ => White);
    assert colors[..] == AllWhite(|objects|);
    for i := 0 to |scanned|
      invariant VisitAll(objects, i, colors[..]) == VisitAll(objects, 0, AllWhite(|objects|))
    {
      var _ :- ValidateAcyclic(i, scanned, colors, 0, objects);
    }
    r := Ok(());
  }

  // -------------------------------------------------------------------------
  // Second pass, under budgets

  class DecodeBudget {
    var nodes: nat
    var valueBytes: nat

    constructor ()
      ensures nodes == 0 && valueBytes == 0
    {
      nodes, valueBytes := 0, 0;
    }

    ghost function State(): Budget
      reads this
    {
      Budget(nodes, valueBytes)
    }

    method ChargeBytes(amount: nat) returns (r: Result<()>)
      modifies this
      ensures var spec := Charge(old(State()), amount);
              if spec.Ok? then r == Ok(()) && State() == spec.value else r == Err(spec.error)
    {
      valueBytes := valueBytes + amount;
      r := if valueBytes > MAX_VALUE_BYTES then Err(LimitExceeded) else Ok(());
    }
  }

  // The bytes were accepted by the first pass, so reading them again cannot fail; only the budget can.

  /** What reading a leaf does to the result and the budget. */
  twostate predicate LeafRead(budget: DecodeBudget, o: Object, new r: Result<Value>)
    requires !IsContainer(o)
    reads budget
  {
    var spec := Charge(old(budget.State()), Payload(o));
    if spec.Ok? then r == Ok(UnfoldLeaf(o)) && budget.State() == spec.value else r == Err(spec.error)
  }

  method ReadData(scanner: Scanner, low: nat, budget: DecodeBudget, ghost o: Object) returns (r: Result<Value>)
    requires scanner.Valid() && ParseData(scanner.Rest(), low) == Ok(o)
    modifies scanner, budget
    ensures LeafRead(budget, o, r)
  {
    var length := scanner.ReadLength(low);
    ghost var rest := scanner.Rest();
    var _ :- budget.ChargeBytes(length.value);
    var bytes := scanner.Take(length.value);
    assert bytes.value == rest;
    r := Ok(Data(bytes.value));
  }

  method ReadAscii(scanner: Scanner, low: nat, budget: DecodeBudget, ghost o: Object) returns (r: Result<Value>)
    requires scanner.Valid() && ParseAscii(scanner.Rest(), low) == Ok(o)
    modifies scanner, budget
    ensures LeafRead(budget, o, r)
  {
    var length := scanner.ReadLength(low);
    ghost var rest := scanner.Rest();
    var _ :- budget.ChargeBytes(length.value);
    var bytes := scanner.Take(length.value);
    assert bytes.value == rest;
    r := Ok(Text(AsciiText(bytes.value)));
  }

  method ReadUtf16(scanner: Scanner, low: nat, budget: DecodeBudget, ghost o: Object) returns (r: Result<Value>)
    requires scanner.Valid() && ParseUtf16(scanner.Rest(), low) == Ok(o)
    modifies scanner, budget
    ensures LeafRead(budget, o, r)
  {
    var units := scanner.ReadLength(low);
    ghost var rest := scanner.Rest();
    Utf16Payload(rest, o.text);
    var _ :- budget.ChargeBytes(2 * units.value);
    var bytes := scanner.Take(2 * units.value);
    assert bytes.value == rest;
    var text := DecodeUtf16(UnitsOf(bytes.value));
    r := Ok(Text(text.value));
  }

  method ReadInteger(scanner: Scanner, low: nat, ghost o: Object) returns (r: Result<Value>)
    requires scanner.Valid() && ParseInteger(scanner.Rest(), low) == Ok(o)
    modifies scanner
    ensures r == Ok(UnfoldLeaf(o))
  {
    var raw := scanner.Take(IntegerWidth(low).value);
    r := Ok(Integer(DecodeInteger(raw.value).value));
  }

  /** Reads the contents of an object that has none inside it. */
  method ReadLeaf(
    input: seq<byte>, start: nat, end: nat, kind: Kind, budget: DecodeBudget,
    ghost refSize: nat, ghost count: nat, ghost o: Object)
    returns (r: Result<Value>)
    requires start <= end <= |input| && 1 <= refSize && budget.valueBytes <= MAX_VALUE_BYTES
    requires Parse(input[start..end], refSize, count) == Ok(o) && !IsContainer(o) && kind == KindOf(o)
    modifies budget
    ensures LeafRead(budget, o, r)
  {
    var scanner := new Scanner(input, start, end);
    var marker := scanner.ReadByte();
    var high, low := High(marker.value), Low(marker.value);
    match kind
    case NullKind => r := Ok(Null);
    case BooleanKind => r := Ok(Boolean(marker.value == 0x09));
    case IntegerKind => r := ReadInteger(scanner, low, o);
    case DataKind => r := ReadData(scanner, low, budget, o);
    case StringKind =>
      if high == 0x50 {
        r := ReadAscii(scanner, low, budget, o);
      } else {
        r := ReadUtf16(scanner, low, budget, o);
      }
  }

  /** Text that was decoded from UTF-16 takes as many bytes as it was decoded from. */
  lemma Utf16Payload(raw: seq<byte>, text: string)
    requires |raw| % 2 == 0 && DecodeUtf16(UnitsOf(raw)) == Ok(text)
    ensures 2 * |EncodeUtf16(text)| == |raw|
  {
    Utf16Length(UnitsOf(raw), text);
  }

  lemma {:induction false} Utf16Length(units: seq<unit>, text: string)
    requires DecodeUtf16(units) == Ok(text)
    ensures |EncodeUtf16(text)| == |units|
  {
    if units != [] {
      var used := if IsSurrogate(units[0]) then 2 else 1;
      assert DecodeUtf16(units[used..]) == Ok(text[1..]);
      Utf16Length(units[used..], text[1..]);
    }
  }

  /** The tables of the second pass belong to the document and agree with the first pass. */
  ghost predicate Agree(input: seq<byte>, ends: map<nat, nat>, scanned: seq<Scanned>, table: Table) {
    && Consistent(table.trailer, |input|)
    && |table.offsets| == table.trailer.count == |table.objects|
    && InTable(table.offsets, table.trailer.tableStart)
    && Closed(table.objects)
    && Summarised(scanned, table.objects)
    && forall i {:trigger AgreeAt(input, ends, table, i)} :: 0 <= i < |table.objects| ==> AgreeAt(input, ends, table, i)
  }

  ghost predicate AgreeAt(input: seq<byte>, ends: map<nat, nat>, table: Table, i: nat)
    requires Consistent(table.trailer, |input|) && InTable(table.offsets, table.trailer.tableStart)
    requires i < |table.objects| == |table.offsets|
  {
    var t, start := table.trailer, table.offsets[i];
    && start in ends
    && ends[start] == NextAbove(table.offsets, |table.offsets|, start, t.tableStart)
    && Parse(input[start..ends[start]], t.refSize, t.count) == Ok(table.objects[i])
  }

  /** What decoding does to the result and the budget, where `spec` is what it should do. */
  ghost predicate Decoded(spec: Result<(Value, Budget)>, r: Result<Value>, after: Budget) {
    if spec.Ok? then r == Ok(spec.value.0) && after == spec.value.1 && after.bytes <= MAX_VALUE_BYTES
    else r == Err(spec.error)
  }

  /** Unfolds object `index` under the budget. */
  method DecodeObject(
    input: seq<byte>, offsets: seq<nat>, ends: map<nat, nat>, scanned: seq<Scanned>, index: nat, depth: nat,
    budget: DecodeBudget, ghost table: Table)
    returns (r: Result<Value>)
    requires Agree(input, ends, scanned, table) && offsets == table.offsets
    requires index < |table.objects| && depth <= MAX_DEPTH + 1 && budget.valueBytes <= MAX_VALUE_BYTES
    modifies budget
    ensures Decoded(Unfold(table.objects, index, depth, old(budget.State())), r, budget.State())
    decreases MAX_DEPTH + 1 - depth, 1
  {
    if depth > MAX_DEPTH {
      return Err(LimitExceeded);
    }
    budget.nodes := budget.nodes + 1;
    if budget.nodes > MAX_DECODED_NODES {
      return Err(LimitExceeded);
    }
    assert SummarisedAt(scanned, table.objects, index) && ClosedAt(table.objects, index);
    var children, kind := scanned[index].children, scanned[index].kind;
    if kind == ArrayKind {
      r := DecodeArray(input, offsets, ends, scanned, children, depth + 1, budget, table);
    } else if kind == DictionaryKind {
      r := DecodeDictionary(
        input, offsets, ends, scanned, children, scanned[index].keyCount, depth + 1, budget, table);
    } else {
      r := DecodeLeaf(input, offsets, ends, scanned, index, budget, table);
    }
  }

  method DecodeLeaf(
    input: seq<byte>, offsets: seq<nat>, ends: map<nat, nat>, scanned: seq<Scanned>, index: nat,
    budget: DecodeBudget, ghost table: Table)
    returns (r: Result<Value>)
    requires Agree(input, ends, scanned, table) && offsets == table.offsets && index < |table.objects|
    requires !IsContainer(table.objects[index]) && budget.valueBytes <= MAX_VALUE_BYTES
    modifies budget
    ensures LeafRead(budget, table.objects[index], r)
  {
    assert AgreeAt(input, ends, table, index) && SummarisedAt(scanned, table.objects, index);
    var start := offsets[index];
    r := ReadLeaf(
      input, start, ends[start], scanned[index].kind, budget, table.trailer.refSize, table.trailer.count,
      table.objects[index]);
  }

  method DecodeArray(
    input: seq<byte>, offsets: seq<nat>, ends: map<nat, nat>, scanned: seq<Scanned>, children: seq<nat>, depth: nat,
    budget: DecodeBudget, ghost table: Table)
    returns (r: Result<Value>)
    requires Agree(input, ends, scanned, table) && offsets == table.offsets
    requires Below(children, |table.objects|) && depth <= MAX_DEPTH + 1 && budget.valueBytes <= MAX_VALUE_BYTES
    modifies budget
    ensures var spec := UnfoldItems(table.objects, children, 0, [], depth, old(budget.State()));
            if spec.Ok? then
              r == Ok(Array(spec.value.0)) && budget.State() == spec.value.1 && budget.valueBytes <= MAX_VALUE_BYTES
            else r == Err(spec.error)
    decreases MAX_DEPTH + 1 - depth, 2
  {
    ghost var whole := UnfoldItems(table.objects, children, 0, [], depth, budget.State());
    var values := [];
    for i := 0 to |children|
      invariant UnfoldItems(table.objects, children, i, values, depth, budget.State()) == whole
      invariant budget.valueBytes <= MAX_VALUE_BYTES
    {
      var v :- DecodeObject(input, offsets, ends, scanned, children[i], depth, budget, table);
      values := values + [v];
    }
    r := Ok(Array(values));
  }

  method DecodeDictionary(
    input: seq<byte>, offsets: seq<nat>, ends: map<nat, nat>, scanned: seq<Scanned>, children: seq<nat>, count: nat,
    depth: nat, budget: DecodeBudget, ghost table: Table)
    returns (r: Result<Value>)
    requires Agree(input, ends, scanned, table) && offsets == table.offsets && |children| == 2 * count
    requires Below(children, |table.objects|) && depth <= MAX_DEPTH + 1 && budget.valueBytes <= MAX_VALUE_BYTES
    modifies budget
    ensures Decoded(
              UnfoldEntries(table.objects, children, 0, [], [], depth, old(budget.State())), r, budget.State())
    decreases MAX_DEPTH + 1 - depth, 2
  {
    ghost var whole := UnfoldEntries(table.objects, children, 0, [], [], depth, budget.State());
    var keys, values := [], [];
    for i := 0 to count
      invariant |keys| == |values|
      invariant UnfoldEntries(table.objects, children, i, keys, values, depth, budget.State()) == whole
      invariant budget.valueBytes <= MAX_VALUE_BYTES
    {
      var key :- DecodeObject(input, offsets, ends, scanned, children[i], depth, budget, table);
      if !key.Text? {
        return Err(Malformed);
      }
      var value :- DecodeObject(input, offsets, ends, scanned, children[count + i], depth, budget, table);
      if key.text in keys {
        return Err(Malformed);
      }
      var at := Position(keys, key.text);
      keys, values := Insert(keys, at, key.text), Insert(values, at, value);
    }
    r := Ok(Dictionary(keys, values));
  }
}
