/** Property-list values, the codec's limits, and the text forms used on the wire. */
module BplistModel {
  import opened Bytes

  const MAX_PLIST_SIZE := 16 * 1024 * 1024
  const MAX_OBJECTS := 262_144
  const MAX_REFERENCES := 1_048_576
  const MAX_DEPTH := 64
  const MAX_DECODED_NODES := 1_048_576
  const MAX_VALUE_BYTES := MAX_PLIST_SIZE

  const MIN_INTEGER := -0x8000_0000_0000_0000
  const MAX_INTEGER := 0xFFFF_FFFF_FFFF_FFFF

  datatype Error =
    | InputTooLarge
    | OutputTooLarge
    | InvalidHeader
    | InvalidTrailer
    | LimitExceeded
    | Malformed
    | Unsupported
    | IntegerOutOfRange

  datatype Result<+T> = Ok(value: T) | Err(error: Error) {
    predicate IsFailure() { Err? }

    function PropagateFailure<U>(): Result<U>
      requires Err?
    {
      Err(error)
    }

    function Extract(): T
      requires Ok?
    {
      value
    }
  }

  /** A dictionary is kept as an ordered map is iterated: keys ascending, each with the value
      at the same position. `string` is a sequence of Unicode scalar values. */
  datatype Value =
    | Null
    | Boolean(flag: bool)
    | Integer(number: int)
    | Data(bytes: seq<byte>)
    | Text(text: string)
    | Array(items: seq<Value>)
    | Dictionary(keys: seq<string>, values: seq<Value>)

  /** Scalar-wise lexicographic order, which is also the order of the UTF-8 encodings. */
  predicate Less(a: string, b: string) {
    if b == [] then false
    else if a == [] then true
    else if a[0] != b[0] then a[0] < b[0]
    else Less(a[1..], b[1..])
  }

  ghost predicate Ascending(keys: seq<string>) {
    |keys| >= 2 ==> Less(keys[|keys| - 2], keys[|keys| - 1]) && Ascending(keys[..|keys| - 1])
  }

  /** Each key is less than every later one. */
  ghost predicate PairwiseLess(keys: seq<string>) {
    forall i, j {:trigger Less(keys[i], keys[j])} :: 0 <= i < j < |keys| ==> Less(keys[i], keys[j])
  }

  lemma {:induction false} AscendingIsPairwise(keys: seq<string>)
    ensures Ascending(keys) <==> PairwiseLess(keys)
  {
    if |keys| >= 2 {
      var n := |keys| - 1;
      AscendingIsPairwise(keys[..n]);
      if PairwiseLess(keys) {
        forall i, j | 0 <= i < j < n
          ensures Less(keys[..n][i], keys[..n][j])
        {
          assert Less(keys[i], keys[j]);
        }
      }
      if Ascending(keys) {
        forall i, j | 0 <= i < j < |keys|
          ensures Less(keys[i], keys[j])
        {
          if j < n {
            assert keys[..n][i] == keys[i] && keys[..n][j] == keys[j];
          } else if i < n - 1 {
            assert keys[..n][i] == keys[i] && keys[..n][n - 1] == keys[n - 1];
            LessTransitive(keys[i], keys[n - 1], keys[n]);
          }
        }
      }
    }
  }

  /** Every dictionary inside `v` is an ordered map. */
  ghost predicate WellFormed(v: Value) {
    match v
    case Array(items) => forall i {:trigger WellFormed(items[i])} :: 0 <= i < |items| ==> WellFormed(items[i])
    case Dictionary(keys, values) =>
      && |keys| == |values|
      && Ascending(keys)
      && forall i {:trigger WellFormed(values[i])} :: 0 <= i < |values| ==> WellFormed(values[i])
    case _ => true
  }

  lemma {:induction false} LessIrreflexive(a: string)
    ensures !Less(a, a)
  {
    if a != [] {
      LessIrreflexive(a[1..]);
    }
  }

  lemma {:induction false} LessTransitive(a: string, b: string, c: string)
    requires Less(a, b) && Less(b, c)
    ensures Less(a, c)
  {
    if a != [] && a[0] == b[0] && b[0] == c[0] {
      LessTransitive(a[1..], b[1..], c[1..]);
    }
  }

  lemma {:induction false} LessTotal(a: string, b: string)
    ensures a == b || Less(a, b) || Less(b, a)
  {
    if a != [] && b != [] && a[0] == b[0] {
      LessTotal(a[1..], b[1..]);
      assert a == [a[0]] + a[1..];
      assert b == [b[0]] + b[1..];
    }
  }

  // -------------------------------------------------------------------------
  // Text

  type unit = u: int | 0 <= u < 0x1_0000

  predicate IsAscii(text: string) {
    forall i :: 0 <= i < |text| ==> text[i] as int < 0x80
  }

  function CharUtf8Length(c: char): nat {
    var u := c as int;
    if u < 0x80 then 1 else if u < 0x800 then 2 else if u < 0x1_0000 then 3 else 4
  }

  function Utf8Length(text: string): nat {
    if text == [] then 0 else CharUtf8Length(text[0]) + Utf8Length(text[1..])
  }

  /** Section 2.1 of RFC 2781. */
  function EncodeScalar(c: char): (u: seq<unit>)
    ensures 1 <= |u| <= 2
  {
    var v := c as int;
    if v < 0x1_0000 then [v]
    else [0xD800 + (v - 0x1_0000) / 0x400, 0xDC00 + (v - 0x1_0000) % 0x400]
  }

  function EncodeUtf16(text: string): seq<unit> {
    if text == [] then [] else EncodeScalar(text[0]) + EncodeUtf16(text[1..])
  }

  predicate IsSurrogate(u: unit) { 0xD800 <= u < 0xE000 }
  predicate IsHighSurrogate(u: unit) { 0xD800 <= u < 0xDC00 }
  predicate IsLowSurrogate(u: unit) { 0xDC00 <= u < 0xE000 }

  /** Section 2.2 of RFC 2781; an unpaired surrogate is an error. */
  function DecodeUtf16(units: seq<unit>): Result<string> {
    if units == [] then Ok([])
    else if !IsSurrogate(units[0]) then
      var rest :- DecodeUtf16(units[1..]);
      Ok([units[0] as char] + rest)
    else if |units| >= 2 && IsHighSurrogate(units[0]) && IsLowSurrogate(units[1]) then
      var rest :- DecodeUtf16(units[2..]);
      var high: int, low: int := units[0] - 0xD800, units[1] - 0xDC00;
      Ok([(0x1_0000 + high * 0x400 + low) as char] + rest)
    else Err(Malformed)
  }

  lemma {:induction false} DecodeOfEncodeUtf16(text: string)
    ensures DecodeUtf16(EncodeUtf16(text)) == Ok(text)
  {
    if text != [] {
      var head, rest := EncodeScalar(text[0]), EncodeUtf16(text[1..]);
      DecodeOfEncodeUtf16(text[1..]);
      assert (head + rest)[|head|..] == rest;
      assert text == [text[0]] + text[1..];
    }
  }

  function AsciiBytes(text: string): (s: seq<byte>)
    requires IsAscii(text)
    ensures |s| == |text|
  {
    seq(|text|, i requires 0 <= i < |text| => text[i] as int)
  }

  predicate AllAscii(s: seq<byte>) {
    forall i :: 0 <= i < |s| ==> s[i] < 0x80
  }

  function AsciiText(s: seq<byte>): (text: string)
    requires AllAscii(s)
    ensures |text| == |s| && IsAscii(text)
  {
    seq(|s|, i requires 0 <= i < |s| => s[i] as char)
  }

  lemma AsciiTextOfBytes(text: string)
    requires IsAscii(text)
    ensures AllAscii(AsciiBytes(text))
    ensures AsciiText(AsciiBytes(text)) == text
  {
    var s := AsciiBytes(text);
    forall i | 0 <= i < |text|
      ensures s[i] < 0x80 && s[i] as char == text[i]
    {
    }
    assert AsciiText(s) == text;
  }

  /** Code units on the wire: two big-endian bytes each. */
  function UnitBytes(units: seq<unit>): (s: seq<byte>)
    ensures |s| == 2 * |units|
  {
    if units == [] then [] else BE(units[0], 2) + UnitBytes(units[1..])
  }

  function UnitsOf(s: seq<byte>): (units: seq<unit>)
    requires |s| % 2 == 0
    ensures 2 * |units| == |s|
  {
    if s == [] then [] else (var high: int := s[0]; [high * 256 + s[1]] + UnitsOf(s[2..]))
  }

  lemma {:induction false} UnitsOfUnitBytes(units: seq<unit>)
    ensures UnitsOf(UnitBytes(units)) == units
  {
    if units != [] {
      UnitsOfUnitBytes(units[1..]);
      var head, rest := BE(units[0], 2), UnitBytes(units[1..]);
      assert BE(units[0], 2) == BE(units[0] / 256, 1) + [units[0] % 256];
      assert BE(units[0] / 256, 1) == BE(units[0] / 256 / 256, 0) + [units[0] / 256 % 256];
      assert (head + rest)[2..] == rest;
      assert units == [units[0]] + units[1..];
    }
  }
}
