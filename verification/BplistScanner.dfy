/** Reading one object with a cursor that never passes the object's end. */
module BplistScanner {
  import opened Bytes
  import opened BplistModel
  import opened BplistWire

  datatype Kind = NullKind | BooleanKind | IntegerKind | DataKind | StringKind | ArrayKind | DictionaryKind

  /** What the first pass keeps of an object. */
  datatype Scanned = Scanned(kind: Kind, children: seq<nat>, keyCount: nat)

  function KindOf(o: Object): Kind {
    match o
    case ONull => NullKind
    case OBoolean(_) => BooleanKind
    case OInteger(_) => IntegerKind
    case OData(_) => DataKind
    case OText(_, _) => StringKind
    case OArray(_) => ArrayKind
    case ODictionary(_) => DictionaryKind
  }

  function Summary(o: Object): Scanned { Scanned(KindOf(o), Children(o), KeyCount(o)) }

  /** What the first pass reports of the bytes of one object. */
  function ScanResult(r: Result<Object>): Result<Scanned> {
    if r.Ok? then Ok(Summary(r.value)) else Err(r.error)
  }

  /** The references are read in order and each is checked at once. */
  lemma {:induction false} DecodeRefsStep(raw: seq<byte>, n: nat, refSize: nat, i: nat)
    requires refSize >= 1 && |raw| == n * refSize && i < n
    ensures 0 <= i * refSize <= (i + 1) * refSize <= |raw|
    ensures DecodeRefs(raw, n, refSize)[i] == FromBE(raw[i * refSize..(i + 1) * refSize])
    decreases i
  {
    assert (i + 1) * refSize == i * refSize + refSize;
    assert (i + 1) * refSize <= n * refSize;
    assert n * refSize == refSize + (n - 1) * refSize;
    if i > 0 {
      var rest := raw[refSize..];
      DecodeRefsStep(rest, n - 1, refSize, i - 1);
      assert (i - 1) * refSize == i * refSize - refSize;
      assert rest[(i - 1) * refSize..i * refSize] == raw[i * refSize..(i + 1) * refSize];
    }
  }

  method CheckedReferences(raw: seq<byte>, count: nat, refSize: nat, objectCount: nat) returns (r: Result<seq<nat>>)
    requires 1 <= refSize <= 8 && |raw| == count * refSize
    ensures var refs := DecodeRefs(raw, count, refSize);
            r == if Below(refs, objectCount) then Ok(refs) else Err(Malformed)
  {
    ghost var all := DecodeRefs(raw, count, refSize);
    var refs := [];
    for i := 0 to count
      invariant |refs| == i && forall j :: 0 <= j < i ==> refs[j] == all[j] < objectCount
    {
      DecodeRefsStep(raw, count, refSize, i);
      var reference := FromBE(raw[i * refSize..(i + 1) * refSize]);
      if reference >= objectCount {
        return Err(Malformed);
      }
      refs := refs + [reference];
    }
    assert refs == all;
    r := Ok(refs);
  }

  class Scanner {
    const input: seq<byte>
    const end: nat
    var cursor: nat

    constructor (input: seq<byte>, start: nat, end: nat)
      requires start <= end <= |input|
      ensures this.input == input && this.end == end && cursor == start && Valid()
    {
      this.input, this.end, cursor := input, end, start;
    }

    ghost predicate Valid()
      reads this
    {
      cursor <= end <= |input|
    }

    /** The bytes not read yet. */
    ghost function Rest(): seq<byte>
      requires Valid()
      reads this
    {
      input[cursor..end]
    }

    method ReadByte() returns (r: Result<byte>)
      requires Valid()
      modifies this
      ensures Valid()
      ensures r == if old(Rest()) == [] then Err(Malformed) else Ok(old(Rest())[0])
      ensures r.Ok? ==> Rest() == old(Rest())[1..]
    {
      if cursor >= end {
        return Err(Malformed);
      }
      var b := input[cursor];
      cursor := cursor + 1;
      r := Ok(b);
    }

    method Take(length: nat) returns (r: Result<seq<byte>>)
      requires Valid()
      modifies this
      ensures Valid()
      ensures r == if length > |old(Rest())| then Err(Malformed) else Ok(old(Rest())[..length])
      ensures r.Ok? ==> Rest() == old(Rest())[length..]
    {
      var next := cursor + length;
      if next > end {
        return Err(Malformed);
      }
      var taken := input[cursor..next];
      assert taken == Rest()[..length] && input[next..end] == Rest()[length..];
      cursor := next;
      r := Ok(taken);
    }

    method ReadLength(low: nat) returns (r: Result<nat>)
      requires Valid()
      modifies this
      ensures Valid()
      ensures var spec := BplistWire.ReadLength(old(Rest()), low);
              if spec.Ok? then r == Ok(spec.value.0) && Rest() == spec.value.1 else r == Err(spec.error)
    {
      if low < 15 {
        return Ok(low);
      }
      var marker :- ReadByte();
      if High(marker) != 0x10 {
        return Err(Malformed);
      }
      var width :- IntegerWidth(Low(marker));
      if width > 8 {
        return Err(LimitExceeded);
      }
      ghost var body := old(Rest());
      var raw :- Take(width);
      assert raw == body[1..1 + width] && Rest() == body[1 + width..];
      var length := FromBE(raw);
      if length > MAX_PLIST_SIZE {
        return Err(LimitExceeded);
      }
      r := Ok(length);
    }

    /** References up to wherever they end; the object is only well formed when that is its end. */
    method ReadReferences(count: nat, refSize: nat, objectCount: nat) returns (r: Result<seq<nat>>)
      requires Valid() && 1 <= refSize <= 8
      modifies this
      ensures Valid()
      ensures var spec := ReadRefs(old(Rest()), count, refSize, objectCount);
              && (r.Err? ==> spec == r)
              && (r.Ok? ==> spec == if Rest() == [] then r else Err(Malformed))
    {
      if count > MAX_REFERENCES {
        return Err(LimitExceeded);
      }
      ghost var body := Rest();
      var raw :- Take(count * refSize);
      assert Rest() == [] ==> raw == body;
      r := CheckedReferences(raw, count, refSize, objectCount);
    }

    /** `r` is what `spec` says, as long as bytes left over make the object malformed. */
    ghost predicate Agrees(r: Result<Scanned>, spec: Result<Object>)
      requires Valid()
      reads this
    {
      ScanResult(spec) == if r.Ok? && Rest() != [] then Err(Malformed) else r
    }

    method ScanInteger(low: nat) returns (r: Result<Scanned>)
      requires Valid()
      modifies this
      ensures Valid() && Agrees(r, ParseInteger(old(Rest()), low))
    {
      var width :- IntegerWidth(low);
      var raw :- Take(width);
      var _ :- DecodeInteger(raw);
      r := Ok(Scanned(IntegerKind, [], 0));
    }

    method ScanData(low: nat) returns (r: Result<Scanned>)
      requires Valid()
      modifies this
      ensures Valid() && Agrees(r, ParseData(old(Rest()), low))
    {
      var length :- ReadLength(low);
      var _ :- Take(length);
      r := Ok(Scanned(DataKind, [], 0));
    }

    method ScanAscii(low: nat) returns (r: Result<Scanned>)
      requires Valid()
      modifies this
      ensures Valid() && Agrees(r, ParseAscii(old(Rest()), low))
    {
      var length :- ReadLength(low);
      ghost var body := Rest();
      var bytes :- Take(length);
      assert |body| == length ==> bytes == body;
      if !AllAscii(bytes) {
        return Err(Malformed);
      }
      r := Ok(Scanned(StringKind, [], 0));
    }

    method ScanUtf16(low: nat) returns (r: Result<Scanned>)
      requires Valid()
      modifies this
      ensures Valid() && Agrees(r, ParseUtf16(old(Rest()), low))
    {
      var units :- ReadLength(low);
      ghost var body := Rest();
      var bytes :- Take(2 * units);
      assert |body| == 2 * units ==> bytes == body;
      DecodeUtf16Malformed(UnitsOf(bytes));
      var _ :- DecodeUtf16(UnitsOf(bytes));
      r := Ok(Scanned(StringKind, [], 0));
    }

    method ScanArray(low: nat, refSize: nat, objectCount: nat) returns (r: Result<Scanned>)
      requires Valid() && 1 <= refSize <= 8
      modifies this
      ensures Valid() && Agrees(r, ParseArray(old(Rest()), low, refSize, objectCount))
    {
      var count :- ReadLength(low);
      var children :- ReadReferences(count, refSize, objectCount);
      r := Ok(Scanned(ArrayKind, children, 0));
    }

    method ScanDictionary(low: nat, refSize: nat, objectCount: nat) returns (r: Result<Scanned>)
      requires Valid() && 1 <= refSize <= 8
      modifies this
      ensures Valid() && Agrees(r, ParseDictionary(old(Rest()), low, refSize, objectCount))
    {
      var count :- ReadLength(low);
      var children :- ReadReferences(2 * count, refSize, objectCount);
      r := Ok(Scanned(DictionaryKind, children, count));
    }

    method ScanBody(marker: byte, refSize: nat, objectCount: nat) returns (r: Result<Scanned>)
      requires Valid() && 1 <= refSize <= 8
      modifies this
      ensures Valid() && Agrees(r, ParseBody(marker, old(Rest()), refSize, objectCount))
    {
      var high, low := High(marker), Low(marker);
      if marker == 0x00 {
        r := Ok(Scanned(NullKind, [], 0));
      } else if marker == 0x08 || marker == 0x09 {
        r := Ok(Scanned(BooleanKind, [], 0));
      } else if high == 0x10 {
        r := ScanInteger(low);
      } else if high == 0x40 {
        r := ScanData(low);
      } else if high == 0x50 {
        r := ScanAscii(low);
      } else if high == 0x60 {
        r := ScanUtf16(low);
      } else if high == 0xa0 {
        r := ScanArray(low, refSize, objectCount);
      } else if high == 0xd0 {
        r := ScanDictionary(low, refSize, objectCount);
      } else {
        r := Err(Unsupported);
      }
    }
  }

  lemma {:induction false} DecodeUtf16Malformed(units: seq<unit>)
    ensures DecodeUtf16(units).Err? ==> DecodeUtf16(units).error == Malformed
  {
    if units != [] {
      DecodeUtf16Malformed(units[1..]);
      if |units| >= 2 {
        DecodeUtf16Malformed(units[2..]);
      }
    }
  }

  /** The first pass over one object: exactly what the object's bytes parse to, less its contents. */
  method ScanObject(input: seq<byte>, start: nat, end: nat, refSize: nat, objectCount: nat)
    returns (r: Result<Scanned>)
    requires start <= end <= |input| && 1 <= refSize <= 8
    ensures r == ScanResult(Parse(input[start..end], refSize, objectCount))
  {
    var scanner := new Scanner(input, start, end);
    var marker :- scanner.ReadByte();
    var scanned :- scanner.ScanBody(marker, refSize, objectCount);
    if scanner.cursor != end {
      return Err(Malformed);
    }
    r := Ok(scanned);
  }
}
