/** The byte form of one object of the object table, and its inverse. */
module BplistWire {
  import opened Bytes
  import opened BplistModel

  /** One object of the table; containers refer to other objects by index, a dictionary to its keys
      first and then to its values. `wide` text is on the wire as UTF-16 code units, other text as
      ASCII bytes. */
  datatype Object =
    | ONull
    | OBoolean(flag: bool)
    | OInteger(number: int)
    | OData(bytes: seq<byte>)
    | OText(text: string, wide: bool)
    | OArray(refs: seq<nat>)
    | ODictionary(refs: seq<nat>)

  predicate IsContainer(o: Object) { o.OArray? || o.ODictionary? }

  function Children(o: Object): seq<nat> {
    if IsContainer(o) then o.refs else []
  }

  /** How many of `Children(o)` are dictionary keys. */
  function KeyCount(o: Object): (n: nat)
    ensures n <= |Children(o)|
  {
    if o.ODictionary? then |o.refs| / 2 else 0
  }

  /** The bytes of string or data payload an object holds on the wire. */
  function Payload(o: Object): nat {
    match o
    case OData(bytes) => |bytes|
    case OText(text, wide) => if wide then 2 * |EncodeUtf16(text)| else |text|
    case _ => 0
  }

  function High(marker: byte): nat { marker / 16 * 16 }
  function Low(marker: byte): nat { marker % 16 }

  // -------------------------------------------------------------------------
  // Integers and lengths

  function StorageWidth(v: nat): (width: nat)
    ensures width in {1, 2, 4, 8}
    ensures v <= MAX_INTEGER ==> v < Pow256(width)
  {
    PowersOf256();
    if v < 0x100 then 1 else if v < 0x1_0000 then 2 else if v < 0x1_0000_0000 then 4 else 8
  }

  function Exponent(width: nat): nat {
    if width == 1 then 0 else if width == 2 then 1 else if width == 4 then 2 else 3
  }

  function IntegerWidth(low: nat): Result<nat> {
    if low == 0 then Ok(1)
    else if low == 1 then Ok(2)
    else if low == 2 then Ok(4)
    else if low == 3 then Ok(8)
    else if low == 4 then Ok(16)
    else Err(Unsupported)
  }

  function EncodeInteger(n: int): seq<byte>
    requires MIN_INTEGER <= n <= MAX_INTEGER
  {
    if n < 0 then [0x13] + BE(n + 0x1_0000_0000_0000_0000, 8)
    else
      var width := StorageWidth(n);
      if width < 8 then [0x10 + Exponent(width)] + BE(n, width)
      else if n < 0x8000_0000_0000_0000 then [0x13] + BE(n, 8)
      else [0x14] + Zeros(8) + BE(n, 8)
  }

  function DecodeInteger(raw: seq<byte>): (r: Result<int>)
    ensures r.Ok? ==> MIN_INTEGER <= r.value <= MAX_INTEGER
  {
    var n := FromBE(raw);
    FromBEBound(raw);
    PowersOf256();
    if |raw| in {1, 2, 4} then Ok(n)
    else if |raw| == 8 then
      Ok(if n < 0x8000_0000_0000_0000 then n else n - 0x1_0000_0000_0000_0000)
    else if |raw| == 16 then
      var signed :=
        if n < 0x8000_0000_0000_0000_0000_0000_0000_0000 then n
        else n - 0x1_0000_0000_0000_0000_0000_0000_0000_0000;
      if MIN_INTEGER <= signed <= MAX_INTEGER then Ok(signed) else Err(IntegerOutOfRange)
    else Err(Unsupported)
  }

  /** The marker byte of an object of kind `high` with `n` elements. */
  function Marker(high: byte, n: nat): byte
    requires high % 16 == 0
  {
    if n < 15 then high + n else high + 15
  }

  /** What follows the marker: the length when the marker cannot hold it, then the elements. */
  function WithLength(n: nat, elements: seq<byte>): seq<byte> {
    if n < 15 then elements
    else [0x10 + Exponent(StorageWidth(n))] + (BE(n, StorageWidth(n)) + elements)
  }

  /** The length announced after a marker with this low nibble, and the bytes after it. */
  function ReadLength(body: seq<byte>, low: nat): (r: Result<(nat, seq<byte>)>)
    ensures r.Ok? ==> |r.value.1| <= |body|
  {
    if low < 15 then Ok((low, body))
    else if body == [] then Err(Malformed)
    else if High(body[0]) != 0x10 then Err(Malformed)
    else
      var width :- IntegerWidth(Low(body[0]));
      if width > 8 then Err(LimitExceeded)
      else if |body| < 1 + width then Err(Malformed)
      else
        var n := FromBE(body[1..1 + width]);
        if n > MAX_PLIST_SIZE then Err(LimitExceeded) else Ok((n, body[1 + width..]))
  }

  // -------------------------------------------------------------------------
  // References

  function EncodeRefs(refs: seq<nat>, refSize: nat): (s: seq<byte>)
    ensures |s| == |refs| * refSize
  {
    if refs == [] then [] else BE(refs[0], refSize) + EncodeRefs(refs[1..], refSize)
  }

  function DecodeRefs(raw: seq<byte>, n: nat, refSize: nat): (refs: seq<nat>)
    requires refSize >= 1 && |raw| == n * refSize
    ensures |refs| == n
  {
    if n == 0 then []
    else
      assert n * refSize == refSize + (n - 1) * refSize;
      [FromBE(raw[..refSize])] + DecodeRefs(raw[refSize..], n - 1, refSize)
  }

  predicate Below(refs: seq<nat>, bound: nat) {
    forall i :: 0 <= i < |refs| ==> refs[i] < bound
  }

  /** `n` references that take up exactly `raw`. */
  function ReadRefs(raw: seq<byte>, n: nat, refSize: nat, count: nat): (r: Result<seq<nat>>)
    requires refSize >= 1
    ensures r.Ok? ==> |r.value| == n <= MAX_REFERENCES && Below(r.value, count)
  {
    if n > MAX_REFERENCES then Err(LimitExceeded)
    else if |raw| != n * refSize then Err(Malformed)
    else
      var refs := DecodeRefs(raw, n, refSize);
      if Below(refs, count) then Ok(refs) else Err(Malformed)
  }

  // -------------------------------------------------------------------------
  // Objects

  function EncodeObject(o: Object, refSize: nat): (s: seq<byte>)
    requires Encodable(o)
    ensures |s| > 0
  {
    match o
    case ONull => [0x00]
    case OBoolean(flag) => [if flag then 0x09 else 0x08]
    case OInteger(n) => EncodeInteger(n)
    case OData(bytes) => [Marker(0x40, |bytes|)] + WithLength(|bytes|, bytes)
    case OText(text, wide) =>
      if wide then
        var units := EncodeUtf16(text);
        [Marker(0x60, |units|)] + WithLength(|units|, UnitBytes(units))
      else [Marker(0x50, |text|)] + WithLength(|text|, AsciiBytes(text))
    case OArray(refs) => [Marker(0xa0, |refs|)] + WithLength(|refs|, EncodeRefs(refs, refSize))
    case ODictionary(refs) => [Marker(0xd0, |refs| / 2)] + WithLength(|refs| / 2, EncodeRefs(refs, refSize))
  }

  predicate Encodable(o: Object) {
    match o
    case OInteger(n) => MIN_INTEGER <= n <= MAX_INTEGER
    case OText(text, wide) => wide || IsAscii(text)
    case ODictionary(refs) => |refs| % 2 == 0
    case _ => true
  }

  /** The object whose bytes are exactly `s`, in a table of `count` objects. */
  function Parse(s: seq<byte>, refSize: nat, count: nat): (r: Result<Object>)
    requires refSize >= 1
    ensures r.Ok? ==> Encodable(r.value) && Below(Children(r.value), count)
  {
    if s == [] then Err(Malformed)
    else ParseBody(s[0], s[1..], refSize, count)
  }

  function ParseBody(marker: byte, body: seq<byte>, refSize: nat, count: nat): (r: Result<Object>)
    requires refSize >= 1
    ensures r.Ok? ==> Encodable(r.value) && Below(Children(r.value), count)
  {
    if marker == 0x00 then (if body == [] then Ok(ONull) else Err(Malformed))
    else if marker == 0x08 || marker == 0x09 then
      (if body == [] then Ok(OBoolean(marker == 0x09)) else Err(Malformed))
    else if High(marker) == 0x10 then ParseInteger(body, Low(marker))
    else ParseKind(High(marker), body, Low(marker), refSize, count)
  }

  /** The parser for a marker's high nibble, when that announces a length. */
  function ParseKind(high: nat, body: seq<byte>, low: nat, refSize: nat, count: nat): (r: Result<Object>)
    requires refSize >= 1
    ensures r.Ok? ==> Encodable(r.value) && Below(Children(r.value), count)
  {
    if high == 0x40 then ParseData(body, low)
    else if high == 0x50 then ParseAscii(body, low)
    else if high == 0x60 then ParseUtf16(body, low)
    else if high == 0xa0 then ParseArray(body, low, refSize, count)
    else if high == 0xd0 then ParseDictionary(body, low, refSize, count)
    else Err(Unsupported)
  }

  /** An integer out of range is reported even when other bytes follow it. */
  function ParseInteger(body: seq<byte>, low: nat): (r: Result<Object>)
    ensures r.Ok? ==> Encodable(r.value) && r.value.OInteger?
  {
    var width :- IntegerWidth(low);
    if |body| < width then Err(Malformed)
    else
      var n :- DecodeInteger(body[..width]);
      if |body| == width then Ok(OInteger(n)) else Err(Malformed)
  }

  function ParseData(body: seq<byte>, low: nat): (r: Result<Object>)
    ensures r.Ok? ==> r.value.OData?
  {
    var (n, rest) :- ReadLength(body, low);
    if |rest| == n then Ok(OData(rest)) else Err(Malformed)
  }

  function ParseAscii(body: seq<byte>, low: nat): (r: Result<Object>)
    ensures r.Ok? ==> Encodable(r.value) && r.value.OText?
  {
    var (n, rest) :- ReadLength(body, low);
    if |rest| == n && AllAscii(rest) then Ok(OText(AsciiText(rest), false)) else Err(Malformed)
  }

  function ParseUtf16(body: seq<byte>, low: nat): (r: Result<Object>)
    ensures r.Ok? ==> r.value.OText? && r.value.wide
  {
    var (n, rest) :- ReadLength(body, low);
    if |rest| != 2 * n then Err(Malformed)
    else
      var text :- DecodeUtf16(UnitsOf(rest));
      Ok(OText(text, true))
  }

  function ParseArray(body: seq<byte>, low: nat, refSize: nat, count: nat): (r: Result<Object>)
    requires refSize >= 1
    ensures r.Ok? ==> r.value.OArray? && Encodable(r.value) && Below(r.value.refs, count)
  {
    var (n, rest) :- ReadLength(body, low);
    var refs :- ReadRefs(rest, n, refSize, count);
    Ok(OArray(refs))
  }

  function ParseDictionary(body: seq<byte>, low: nat, refSize: nat, count: nat): (r: Result<Object>)
    requires refSize >= 1
    ensures r.Ok? ==> r.value.ODictionary? && Encodable(r.value) && Below(r.value.refs, count)
  {
    var (n, rest) :- ReadLength(body, low);
    var refs :- ReadRefs(rest, 2 * n, refSize, count);
    Ok(ODictionary(refs))
  }

  // -------------------------------------------------------------------------
  // Parsing undoes encoding

  lemma DecodeOfEncodeInteger(n: int)
    requires MIN_INTEGER <= n <= MAX_INTEGER
    ensures var s := EncodeInteger(n);
            && High(s[0]) == 0x10
            && IntegerWidth(Low(s[0])) == Ok(|s| - 1)
            && DecodeInteger(s[1..]) == Ok(n)
  {
    PowersOf256();
    var s := EncodeInteger(n);
    if n < 0 {
      FromBEOfBE(n + 0x1_0000_0000_0000_0000, 8);
      assert s[1..] == BE(n + 0x1_0000_0000_0000_0000, 8);
    } else {
      var width := StorageWidth(n);
      FromBEOfBE(n, width);
      if width < 8 || n < 0x8000_0000_0000_0000 {
        assert s[1..] == BE(n, width);
      } else {
        assert s[1..] == Zeros(8) + BE(n, 8);
        LeadingZeros(8, BE(n, 8));
      }
    }
  }

  lemma {:induction false} LeadingZeros(n: nat, s: seq<byte>)
    ensures FromBE(Zeros(n) + s) == FromBE(s)
  {
    if s != [] {
      LeadingZeros(n, s[..|s| - 1]);
      assert (Zeros(n) + s)[..n + |s| - 1] == Zeros(n) + s[..|s| - 1];
    } else if n > 0 {
      LeadingZeros(n - 1, s);
      assert Zeros(n) + s == Zeros(n);
      assert Zeros(n - 1) + s == Zeros(n - 1);
      assert Zeros(n)[..n - 1] == Zeros(n - 1);
    }
  }

  lemma ReadOfWithLength(high: byte, n: nat, elements: seq<byte>)
    requires high % 16 == 0 && n <= MAX_PLIST_SIZE
    ensures High(Marker(high, n)) == high
    ensures ReadLength(WithLength(n, elements), Low(Marker(high, n))) == Ok((n, elements))
  {
    if n >= 15 {
      PowersOf256();
      var width := StorageWidth(n);
      FromBEOfBE(n, width);
      LengthBytes(0x10 + Exponent(width), BE(n, width), elements);
    }
  }

  lemma LengthBytes(first: byte, digits: seq<byte>, elements: seq<byte>)
    ensures var body := [first] + (digits + elements);
            body[1..1 + |digits|] == digits && body[1 + |digits|..] == elements
  {
  }

  lemma {:induction false} DecodeOfEncodeRefs(refs: seq<nat>, refSize: nat)
    requires refSize >= 1 && Below(refs, Pow256(refSize))
    ensures DecodeRefs(EncodeRefs(refs, refSize), |refs|, refSize) == refs
  {
    if refs != [] {
      DecodeOfEncodeRefs(refs[1..], refSize);
      FromBEOfBE(refs[0], refSize);
      var head, rest := BE(refs[0], refSize), EncodeRefs(refs[1..], refSize);
      assert (head + rest)[..refSize] == head;
      assert (head + rest)[refSize..] == rest;
      assert refs == [refs[0]] + refs[1..];
    }
  }

  /** What the table layer needs of an object so that its bytes can be read back. */
  ghost predicate Readable(o: Object, refSize: nat, count: nat) {
    && Encodable(o)
    && |Children(o)| <= MAX_REFERENCES
    && Payload(o) <= MAX_PLIST_SIZE
    && Below(Children(o), count)
    && count <= Pow256(refSize)
  }

  lemma ParseOfEncodeObject(o: Object, refSize: nat, count: nat)
    requires Readable(o, refSize, count) && refSize >= 1
    ensures Parse(EncodeObject(o, refSize), refSize, count) == Ok(o)
  {
    match o
    case ONull =>
    case OBoolean(_) =>
    case OInteger(n) => ParseOfEncodeInteger(n, refSize, count);
    case OData(bytes) =>
      ReadOfWithLength(0x40, |bytes|, bytes);
      ParseMarked(0x40, |bytes|, bytes, refSize, count, Ok(o));
    case OText(text, wide) =>
      if wide {
        ParseOfEncodeUtf16(text);
        ParseMarked(0x60, |EncodeUtf16(text)|, UnitBytes(EncodeUtf16(text)), refSize, count, Ok(o));
      } else {
        ParseOfEncodeAscii(text);
        ParseMarked(0x50, |text|, AsciiBytes(text), refSize, count, Ok(o));
      }
    case OArray(refs) =>
      ParseOfEncodeArray(refs, refSize, count);
      ParseMarked(0xa0, |refs|, EncodeRefs(refs, refSize), refSize, count, Ok(o));
    case ODictionary(refs) =>
      ParseOfEncodeDictionary(refs, refSize, count);
      ParseMarked(0xd0, |refs| / 2, EncodeRefs(refs, refSize), refSize, count, Ok(o));
  }

  lemma ParseMarked(high: byte, n: nat, elements: seq<byte>, refSize: nat, count: nat, r: Result<Object>)
    requires high % 16 == 0 && high >= 0x40 && refSize >= 1
    requires r == ParseKind(high, WithLength(n, elements), Low(Marker(high, n)), refSize, count)
    ensures Parse([Marker(high, n)] + WithLength(n, elements), refSize, count) == r
  {
    MarkerNibbles(high, n);
    SplitMarker(Marker(high, n), WithLength(n, elements));
  }

  lemma MarkerNibbles(high: byte, n: nat)
    requires high % 16 == 0
    ensures High(Marker(high, n)) == high
    ensures Low(Marker(high, n)) == if n < 15 then n else 15
  {
  }

  lemma SplitMarker(marker: byte, body: seq<byte>)
    ensures ([marker] + body)[0] == marker && ([marker] + body)[1..] == body
  {
  }

  lemma ParseOfEncodeInteger(n: int, refSize: nat, count: nat)
    requires MIN_INTEGER <= n <= MAX_INTEGER && refSize >= 1
    ensures Parse(EncodeInteger(n), refSize, count) == Ok(OInteger(n))
  {
    DecodeOfEncodeInteger(n);
    var body := EncodeInteger(n)[1..];
    assert body[..|body|] == body;
  }

  lemma ParseOfEncodeAscii(text: string)
    requires IsAscii(text) && |text| <= MAX_PLIST_SIZE
    ensures var n := |text|;
            && High(Marker(0x50, n)) == 0x50
            && ParseAscii(WithLength(n, AsciiBytes(text)), Low(Marker(0x50, n))) == Ok(OText(text, false))
  {
    ReadOfWithLength(0x50, |text|, AsciiBytes(text));
    AsciiTextOfBytes(text);
  }

  lemma ParseOfEncodeUtf16(text: string)
    requires |EncodeUtf16(text)| <= MAX_PLIST_SIZE
    ensures var units := EncodeUtf16(text);
            && High(Marker(0x60, |units|)) == 0x60
            && ParseUtf16(WithLength(|units|, UnitBytes(units)), Low(Marker(0x60, |units|))) == Ok(OText(text, true))
  {
    var units := EncodeUtf16(text);
    ReadOfWithLength(0x60, |units|, UnitBytes(units));
    UnitsOfUnitBytes(units);
    DecodeOfEncodeUtf16(text);
  }

  lemma ReadOfEncodeRefs(refs: seq<nat>, refSize: nat, count: nat)
    requires |refs| <= MAX_REFERENCES && Below(refs, count) && count <= Pow256(refSize) && refSize >= 1
    ensures ReadRefs(EncodeRefs(refs, refSize), |refs|, refSize, count) == Ok(refs)
  {
    DecodeOfEncodeRefs(refs, refSize);
  }

  lemma ParseOfEncodeArray(refs: seq<nat>, refSize: nat, count: nat)
    requires |refs| <= MAX_REFERENCES && Below(refs, count) && count <= Pow256(refSize) && refSize >= 1
    ensures var marker, body := Marker(0xa0, |refs|), WithLength(|refs|, EncodeRefs(refs, refSize));
            High(marker) == 0xa0 && ParseArray(body, Low(marker), refSize, count) == Ok(OArray(refs))
  {
    ReadOfWithLength(0xa0, |refs|, EncodeRefs(refs, refSize));
    ReadOfEncodeRefs(refs, refSize, count);
  }

  lemma ParseOfEncodeDictionary(refs: seq<nat>, refSize: nat, count: nat)
    requires |refs| % 2 == 0 && |refs| <= MAX_REFERENCES
    requires Below(refs, count) && count <= Pow256(refSize) && refSize >= 1
    ensures var marker, body := Marker(0xd0, |refs| / 2), WithLength(|refs| / 2, EncodeRefs(refs, refSize));
            High(marker) == 0xd0 && ParseDictionary(body, Low(marker), refSize, count) == Ok(ODictionary(refs))
  {
    var n := |refs| / 2;
    assert |refs| == 2 * n;
    ReadOfWithLength(0xd0, n, EncodeRefs(refs, refSize));
    ReadOfEncodeRefs(refs, refSize, count);
  }

  /** An object's bytes are at least as many as its payload. */
  lemma PayloadFits(o: Object, refSize: nat)
    requires Encodable(o)
    ensures Payload(o) < |EncodeObject(o, refSize)|
  {
  }
}
