/** Writing the document into a buffer of bounded length. */
module BplistWriter {
  import opened Bytes
  import opened BplistModel
  import opened BplistWire

  lemma EncodeRefsStep(refs: seq<nat>, size: nat, i: nat)
    requires i < |refs|
    ensures EncodeRefs(refs[i..], size) == BE(refs[i], size) + EncodeRefs(refs[i + 1..], size)
  {
    assert refs[i..][1..] == refs[i + 1..];
  }

  lemma UnitBytesStep(units: seq<unit>, i: nat)
    requires i < |units|
    ensures UnitBytes(units[i..]) == BE(units[i], 2) + UnitBytes(units[i + 1..])
  {
    assert units[i..][1..] == units[i + 1..];
  }

  /** Moving the next piece from what is left to what is written. */
  lemma Moved(written: seq<byte>, piece: seq<byte>, rest: seq<byte>)
    ensures written + piece + rest == written + (piece + rest)
  {
  }

  /** The marker of an object with `n` elements, followed by the length where it does not fit. */
  function LengthPrefix(marker: byte, n: nat): (s: seq<byte>)
    requires marker % 16 == 0
    ensures |s| >= 1
  {
    if n < 15 then [Marker(marker, n)]
    else [Marker(marker, n)] + ([0x10 + Exponent(StorageWidth(n))] + BE(n, StorageWidth(n)))
  }

  lemma PrefixThenElements(marker: byte, n: nat, elements: seq<byte>)
    requires marker % 16 == 0
    ensures LengthPrefix(marker, n) + elements == [Marker(marker, n)] + WithLength(n, elements)
  {
    if n >= 15 {
      var tag, digits := [0x10 + Exponent(StorageWidth(n))], BE(n, StorageWidth(n));
      Moved([Marker(marker, n)], tag + digits, elements);
      Moved(tag, digits, elements);
    }
  }

  class Writer {
    var output: seq<byte>

    constructor ()
      ensures output == []
    {
      output := [];
    }

    /** `s` was appended, unless that is refused because the buffer would get too long. */
    twostate predicate Wrote(ok: bool, s: seq<byte>)
      reads this
    {
      && (ok <==> old(|output|) + |s| <= MAX_PLIST_SIZE)
      && (ok ==> output == old(output) + s)
    }

    method Push(b: byte) returns (ok: bool)
      modifies this
      ensures Wrote(ok, [b])
    {
      ok := |output| < MAX_PLIST_SIZE;
      if ok {
        output := output + [b];
      }
    }

    method Append(bytes: seq<byte>) returns (ok: bool)
      modifies this
      ensures Wrote(ok, bytes)
    {
      ok := |output| + |bytes| <= MAX_PLIST_SIZE;
      if ok {
        output := output + bytes;
      }
    }

    method AppendBE(value: nat, width: nat) returns (ok: bool)
      requires value <= MAX_INTEGER && width in {1, 2, 4, 8}
      modifies this
      ensures Wrote(ok, BE(value, width))
    {
      ok := Append(BE(value, width));
    }

    /** One byte and then others. */
    method Tagged(b: byte, bytes: seq<byte>) returns (ok: bool)
      modifies this
      ensures Wrote(ok, [b] + bytes)
    {
      ok := Push(b);
      if ok {
        ok := Append(bytes);
        assert old(output) + [b] + bytes == old(output) + ([b] + bytes);
      }
    }

    method EncodeLength(marker: byte, length: nat) returns (ok: bool)
      requires marker % 16 == 0
      modifies this
      ensures Wrote(ok, LengthPrefix(marker, length))
    {
      ok := Push(Marker(marker, length));
      if ok && length >= 15 {
        var width := StorageWidth(length);
        ok := Tagged(0x10 + Exponent(width), BE(length, width));
        Moved(old(output), [Marker(marker, length)], [0x10 + Exponent(width)] + BE(length, width));
      }
    }

    method EncodeInteger(n: int) returns (ok: bool)
      requires MIN_INTEGER <= n <= MAX_INTEGER
      modifies this
      ensures Wrote(ok, BplistWire.EncodeInteger(n))
    {
      if n < 0 {
        ok := Tagged(0x13, BE(n + 0x1_0000_0000_0000_0000, 8));
      } else {
        var width := StorageWidth(n);
        if width < 8 {
          ok := Tagged(0x10 + Exponent(width), BE(n, width));
        } else if n < 0x8000_0000_0000_0000 {
          ok := Tagged(0x13, BE(n, 8));
        } else {
          ok := Tagged(0x14, Zeros(8) + BE(n, 8));
          assert [0x14] + (Zeros(8) + BE(n, 8)) == [0x14] + Zeros(8) + BE(n, 8);
        }
      }
    }

    method AppendRefs(refs: seq<nat>, size: nat) returns (ok: bool)
      requires Below(refs, MAX_INTEGER) && size in {1, 2, 4, 8} && |output| <= MAX_PLIST_SIZE
      modifies this
      ensures Wrote(ok, EncodeRefs(refs, size))
    {
      ghost var all := output + EncodeRefs(refs, size);
      assert refs[0..] == refs;
      for i := 0 to |refs|
        invariant output + EncodeRefs(refs[i..], size) == all && |output| <= MAX_PLIST_SIZE
      {
        EncodeRefsStep(refs, size, i);
        Moved(output, BE(refs[i], size), EncodeRefs(refs[i + 1..], size));
        ok := AppendBE(refs[i], size);
        if !ok {
          return;
        }
      }
      ok := true;
    }

    method AppendUnits(units: seq<unit>) returns (ok: bool)
      requires |output| <= MAX_PLIST_SIZE
      modifies this
      ensures Wrote(ok, UnitBytes(units))
    {
      ghost var all := output + UnitBytes(units);
      assert units[0..] == units;
      for i := 0 to |units|
        invariant output + UnitBytes(units[i..]) == all && |output| <= MAX_PLIST_SIZE
      {
        UnitBytesStep(units, i);
        Moved(output, BE(units[i], 2), UnitBytes(units[i + 1..]));
        ok := Append(BE(units[i], 2));
        if !ok {
          return;
        }
      }
      ok := true;
    }

    method EncodeData(bytes: seq<byte>) returns (ok: bool)
      modifies this
      ensures Wrote(ok, [Marker(0x40, |bytes|)] + WithLength(|bytes|, bytes))
    {
      PrefixThenElements(0x40, |bytes|, bytes);
      ok := EncodeLength(0x40, |bytes|);
      if ok {
        ok := Append(bytes);
        Moved(old(output), LengthPrefix(0x40, |bytes|), bytes);
      }
    }

    method EncodeAscii(text: string) returns (ok: bool)
      requires IsAscii(text)
      modifies this
      ensures Wrote(ok, [Marker(0x50, |text|)] + WithLength(|text|, AsciiBytes(text)))
    {
      PrefixThenElements(0x50, |text|, AsciiBytes(text));
      ok := EncodeLength(0x50, |text|);
      if ok {
        ok := Append(AsciiBytes(text));
        Moved(old(output), LengthPrefix(0x50, |text|), AsciiBytes(text));
      }
    }

    method EncodeWide(text: string) returns (ok: bool)
      modifies this
      ensures var units := EncodeUtf16(text);
              Wrote(ok, [Marker(0x60, |units|)] + WithLength(|units|, UnitBytes(units)))
    {
      var units := EncodeUtf16(text);
      PrefixThenElements(0x60, |units|, UnitBytes(units));
      ok := EncodeLength(0x60, |units|);
      if ok {
        ok := AppendUnits(units);
        Moved(old(output), LengthPrefix(0x60, |units|), UnitBytes(units));
      }
    }

    /** A container of `n` elements with its references. */
    method EncodeContainer(marker: byte, n: nat, refs: seq<nat>, refSize: nat) returns (ok: bool)
      requires marker % 16 == 0 && Below(refs, MAX_INTEGER) && refSize in {1, 2, 4, 8}
      modifies this
      ensures Wrote(ok, [Marker(marker, n)] + WithLength(n, EncodeRefs(refs, refSize)))
    {
      PrefixThenElements(marker, n, EncodeRefs(refs, refSize));
      ok := EncodeLength(marker, n);
      if ok {
        ok := AppendRefs(refs, refSize);
        Moved(old(output), LengthPrefix(marker, n), EncodeRefs(refs, refSize));
      }
    }

    /** Appends the bytes of one object. */
    method EncodeObject(o: Object, refSize: nat) returns (ok: bool)
      requires Encodable(o) && Below(Children(o), MAX_INTEGER) && refSize in {1, 2, 4, 8}
      modifies this
      ensures Wrote(ok, BplistWire.EncodeObject(o, refSize))
    {
      match o
      case ONull => ok := Push(0x00);
      case OBoolean(flag) => ok := Push(if flag then 0x09 else 0x08);
      case OInteger(n) => ok := EncodeInteger(n);
      case OData(bytes) => ok := EncodeData(bytes);
      case OText(text, wide) =>
        if wide {
          ok := EncodeWide(text);
        } else {
          ok := EncodeAscii(text);
        }
      case OArray(refs) => ok := EncodeContainer(0xa0, |refs|, refs, refSize);
      case ODictionary(refs) => ok := EncodeContainer(0xd0, |refs| / 2, refs, refSize);
    }
  }
}
