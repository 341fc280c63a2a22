/** Relay transfers: the byte form of a request, and reading a transfer back. */
module RelayWire {
  import opened Bytes

  const BUFFER_SIZE: nat := 0x4400
  const DATA_CAPACITY: nat := 0x4000
  const MESSAGE_OFFSET: nat := 0x4000
  const HEADER_SIZE: nat := 0xb4
  const MESSAGE_CAPACITY: nat := 0x80
  const ENDPOINT_COUNT: nat := 10
  const CONTROL_ENDPOINT: nat := 0xFFFF_FFFF
  const ACM_ENDPOINT: nat := 1
  const KEYSTORE_ENDPOINT: nat := 3
  const WIRE_VERSION: nat := 2
  const SKIP_LIMIT: nat := 4
  const KEYSTORE_HEADER: nat := 8
  const ACM_HEADER: nat := 10

  const MAX_U16: nat := 0xFFFF
  const MAX_U32: nat := 0xFFFF_FFFF
  const MAX_U64: nat := 0xFFFF_FFFF_FFFF_FFFF

  datatype Kind = Control | Keystore | Acm

  /** The identity of a request. */
  datatype Pending = Pending(kind: Kind, token: nat, index: nat, endpoint: nat, selector: byte, transaction: byte)

  ghost predicate InRange(p: Pending) { p.token <= MAX_U64 && p.index <= MAX_U32 && p.endpoint <= MAX_U32 }

  // -------------------------------------------------------------------------
  // Fields

  function Overwrite(s: seq<byte>, at: nat, bytes: seq<byte>): (r: seq<byte>)
    requires at + |bytes| <= |s|
    ensures |r| == |s|
  {
    seq(|s|, i requires 0 <= i < |s| => if at <= i < at + |bytes| then bytes[i - at] else s[i])
  }

  method Store(a: array<byte>, at: nat, bytes: seq<byte>)
    requires at + |bytes| <= a.Length
    modifies a
    ensures a[..] == Overwrite(old(a[..]), at, bytes)
  {
    forall i | 0 <= i < |bytes| {
      a[at + i] := bytes[i];
    }
  }

  method Clear(a: array<byte>)
    modifies a
    ensures a[..] == Zeros(a.Length)
  {
    forall i | 0 <= i < a.Length {
      a[i] := 0;
    }
  }

  /** The little-endian number in `width` bytes at `at`. */
  function Load(s: seq<byte>, at: nat, width: nat): nat
    requires at + width <= |s|
    decreases |s| - at, width
  {
    if width == 0 then 0 else s[at] + 256 * Load(s, at + 1, width - 1)
  }

  lemma {:induction false} LoadField(s: seq<byte>, at: nat, width: nat, v: nat)
    requires At(s, at, LE(v, width)) && v < Pow256(width)
    ensures Load(s, at, width) == v
    decreases width
  {
    if width > 0 {
      AtConcat(s, at, [v % 256], LE(v / 256, width - 1));
      AtHead(s, at, v % 256);
      LoadField(s, at + 1, width - 1, v / 256);
    }
  }

  lemma {:induction false} FieldLoaded(s: seq<byte>, at: nat, width: nat)
    requires at + width <= |s|
    ensures At(s, at, LE(Load(s, at, width), width))
    decreases width
  {
    if width > 0 {
      FieldLoaded(s, at + 1, width - 1);
      var v := Load(s, at, width);
      assert v % 256 == s[at] && v / 256 == Load(s, at + 1, width - 1);
      assert LE(v, width) == [s[at]] + LE(v / 256, width - 1);
    }
  }

  /** What is not overwritten stays. */
  lemma OverwriteElsewhere(s: seq<byte>, at: nat, bytes: seq<byte>, other: nat, part: seq<byte>)
    requires at + |bytes| <= |s| && At(s, other, part)
    requires other + |part| <= at || at + |bytes| <= other
    ensures At(Overwrite(s, at, bytes), other, part)
  {
  }

  // -------------------------------------------------------------------------
  // Header

  /** Everything of a transfer but its message and its data. */
  function Header(p: Pending, messageLength: nat, dataLength: nat): (s: seq<byte>)
    ensures |s| == BUFFER_SIZE
  {
    var s0 := Overwrite(Zeros(BUFFER_SIZE), MESSAGE_OFFSET, [WIRE_VERSION]);
    var s1 := Overwrite(s0, MESSAGE_OFFSET + 4, LE(p.endpoint, 4));
    var s2 := Overwrite(s1, MESSAGE_OFFSET + 0x88, LE(p.index, 4));
    var s3 := Overwrite(s2, MESSAGE_OFFSET + 0x98, LE(p.token, 8));
    var s4 := Overwrite(s3, MESSAGE_OFFSET + 0xa0, LE(1, 4));
    var s5 := Overwrite(s4, MESSAGE_OFFSET + 0xa4, LE(messageLength, 4));
    Overwrite(s5, MESSAGE_OFFSET + 0xa8, LE(dataLength, 4))
  }

  method BuildHeader(output: array<byte>, p: Pending, messageLength: nat, dataLength: nat)
    requires output.Length == BUFFER_SIZE
    modifies output
    ensures output[..] == Header(p, messageLength, dataLength)
  {
    Clear(output);
    Store(output, MESSAGE_OFFSET, [WIRE_VERSION]);
    Store(output, MESSAGE_OFFSET + 4, LE(p.endpoint, 4));
    Store(output, MESSAGE_OFFSET + 0x88, LE(p.index, 4));
    Store(output, MESSAGE_OFFSET + 0x98, LE(p.token, 8));
    Store(output, MESSAGE_OFFSET + 0xa0, LE(1, 4));
    Store(output, MESSAGE_OFFSET + 0xa4, LE(messageLength, 4));
    Store(output, MESSAGE_OFFSET + 0xa8, LE(dataLength, 4));
  }

  /** The fields a reader looks at. */
  ghost predicate Carries(s: seq<byte>, p: Pending, messageLength: nat, dataLength: nat) {
    && |s| == BUFFER_SIZE
    && s[MESSAGE_OFFSET] == WIRE_VERSION
    && At(s, MESSAGE_OFFSET + 4, LE(p.endpoint, 4))
    && At(s, MESSAGE_OFFSET + 0x88, LE(p.index, 4))
    && At(s, MESSAGE_OFFSET + 0x98, LE(p.token, 8))
    && At(s, MESSAGE_OFFSET + 0xa4, LE(messageLength, 4))
    && At(s, MESSAGE_OFFSET + 0xa8, LE(dataLength, 4))
  }

  lemma HeaderCarries(p: Pending, messageLength: nat, dataLength: nat)
    ensures Carries(Header(p, messageLength, dataLength), p, messageLength, dataLength)
  {
  }

  /** Writing the message or the data leaves the header fields alone. */
  lemma CarriesKept(s: seq<byte>, at: nat, bytes: seq<byte>, p: Pending, messageLength: nat, dataLength: nat)
    requires Carries(s, p, messageLength, dataLength)
    requires at + |bytes| <= DATA_CAPACITY
             || (MESSAGE_OFFSET + 8 <= at && at + |bytes| <= MESSAGE_OFFSET + 8 + MESSAGE_CAPACITY)
    ensures Carries(Overwrite(s, at, bytes), p, messageLength, dataLength)
  {
    OverwriteElsewhere(s, at, bytes, MESSAGE_OFFSET + 4, LE(p.endpoint, 4));
    OverwriteElsewhere(s, at, bytes, MESSAGE_OFFSET + 0x88, LE(p.index, 4));
    OverwriteElsewhere(s, at, bytes, MESSAGE_OFFSET + 0x98, LE(p.token, 8));
    OverwriteElsewhere(s, at, bytes, MESSAGE_OFFSET + 0xa4, LE(messageLength, 4));
    OverwriteElsewhere(s, at, bytes, MESSAGE_OFFSET + 0xa8, LE(dataLength, 4));
  }

  // -------------------------------------------------------------------------
  // Reading

  datatype Result =
    | Ok | Skipped | Matched
    | ErrorArgument | ErrorTruncated | ErrorLength | ErrorVersion | ErrorEndpoint | ErrorSelector | ErrorState
    | ErrorExhausted | ErrorSkipLimit

  /** A transfer with its header fields taken out. */
  datatype Message = Message(
    bytes: seq<byte>, version: byte, endpoint: nat, index: nat, replyToken: nat, requestToken: nat,
    messageLength: nat, dataLength: nat)
  {
    /** Byte `k` counted from the header. */
    function At(k: nat): byte
      requires MESSAGE_OFFSET + k < |bytes|
    {
      bytes[MESSAGE_OFFSET + k]
    }
  }

  datatype Parsed = Parsed(result: Result, message: Message)

  const NO_MESSAGE := Message([], 0, 0, 0, 0, 0, 0, 0)

  /** A message that the reader accepts has its whole header, and lengths within the capacities. */
  ghost predicate WellFormed(m: Message) {
    && MESSAGE_OFFSET + HEADER_SIZE <= |m.bytes| <= BUFFER_SIZE
    && m.version == WIRE_VERSION
    && m.messageLength <= MESSAGE_CAPACITY && m.dataLength <= DATA_CAPACITY
  }

  function Parse(transfer: seq<byte>): (r: Parsed)
    ensures r.result == Ok ==> WellFormed(r.message) && r.message.bytes == transfer
  {
    if |transfer| < MESSAGE_OFFSET + HEADER_SIZE then Parsed(ErrorTruncated, NO_MESSAGE)
    else if |transfer| > BUFFER_SIZE then Parsed(ErrorLength, NO_MESSAGE)
    else if transfer[MESSAGE_OFFSET] != WIRE_VERSION then Parsed(ErrorVersion, NO_MESSAGE)
    else
      var m := Message(
        transfer, transfer[MESSAGE_OFFSET],
        Load(transfer, MESSAGE_OFFSET + 4, 4), Load(transfer, MESSAGE_OFFSET + 0x88, 4),
        Load(transfer, MESSAGE_OFFSET + 0x8c, 8), Load(transfer, MESSAGE_OFFSET + 0x98, 8),
        Load(transfer, MESSAGE_OFFSET + 0xa4, 4), Load(transfer, MESSAGE_OFFSET + 0xa8, 4));
      if m.messageLength > MESSAGE_CAPACITY || m.dataLength > DATA_CAPACITY then Parsed(ErrorLength, m)
      else Parsed(Ok, m)
  }

  /** What a reader gets out of a transfer: the identity, the message, the data, and no other data. */
  ghost predicate IsRequest(s: seq<byte>, p: Pending, message: seq<byte>, data: seq<byte>) {
    && Recovers(Parse(s), s, p, |message|, |data|)
    && At(s, MESSAGE_OFFSET + 8, message)
    && At(s, 0, data)
    && (forall i :: |data| <= i < DATA_CAPACITY ==> s[i] == 0)
  }

  ghost predicate Recovers(r: Parsed, s: seq<byte>, p: Pending, messageLength: nat, dataLength: nat) {
    && r.result == Ok
    && r.message.bytes == s
    && r.message.endpoint == p.endpoint && r.message.index == p.index && r.message.requestToken == p.token
    && r.message.messageLength == messageLength && r.message.dataLength == dataLength
  }

  /** A reader recovers the identity and the lengths that a builder put in. */
  lemma ParseCarried(s: seq<byte>, p: Pending, messageLength: nat, dataLength: nat)
    requires Carries(s, p, messageLength, dataLength) && InRange(p)
    requires messageLength <= MESSAGE_CAPACITY && dataLength <= DATA_CAPACITY
    ensures Recovers(Parse(s), s, p, messageLength, dataLength)
  {
    PowersOf256();
    LoadField(s, MESSAGE_OFFSET + 4, 4, p.endpoint);
    LoadField(s, MESSAGE_OFFSET + 0x88, 4, p.index);
    LoadField(s, MESSAGE_OFFSET + 0x98, 8, p.token);
    LoadField(s, MESSAGE_OFFSET + 0xa4, 4, messageLength);
    LoadField(s, MESSAGE_OFFSET + 0xa8, 4, dataLength);
  }

  datatype Class =
    | ExpectedReply | ControlMessage | KeystoreReply | KeystoreNotification | KeystoreRequest | AcmMessage
    | OtherMessage

  function Classify(m: Message): Class
    requires WellFormed(m)
  {
    if m.endpoint == CONTROL_ENDPOINT then ControlMessage
    else if m.endpoint == KEYSTORE_ENDPOINT && m.messageLength >= KEYSTORE_HEADER then
      if m.At(9) >= 0x80 then KeystoreReply
      else if m.messageLength == KEYSTORE_HEADER && m.dataLength == 0 then KeystoreNotification
      else KeystoreRequest
    else if m.endpoint == ACM_ENDPOINT && m.messageLength >= ACM_HEADER then AcmMessage
    else OtherMessage
  }

  /** The selector with its top bit set. */
  function AsReply(selector: byte): byte { if selector < 0x80 then selector + 0x80 else selector }

  /** A reply is told by its endpoint and by the selector, and for a keystore request also the transaction. */
  function Matches(m: Message, p: Pending): (r: Result)
    requires WellFormed(m)
  {
    if m.endpoint != p.endpoint then ErrorEndpoint
    else
      match p.kind
      case Control => if m.messageLength < 1 || m.At(8) != p.selector then ErrorSelector else Matched
      case Keystore =>
        if m.messageLength < KEYSTORE_HEADER || m.At(9) != AsReply(p.selector) || m.At(10) != p.transaction
        then ErrorSelector else Matched
      case Acm => if m.messageLength < ACM_HEADER || m.At(9) != p.selector then ErrorSelector else Matched
  }
}

/** Building requests with identities that are never used twice. */
module Relay {
  import opened Bytes
  import opened RelayWire

  /** Whether an identity acknowledges a completed request instead of making one. */
  predicate IsReady(p: Pending) { p.kind == Control && p.selector == 4 }

  /** Tokens are nonzero and rise with every identity, indices with every request. */
  ghost predicate Fresh(issued: seq<Pending>) {
    && (forall i :: 0 <= i < |issued| ==> 0 < issued[i].token && InRange(issued[i]))
    && (forall i, j :: 0 <= i < j < |issued| ==> issued[i].token < issued[j].token)
    && (forall i, j :: 0 <= i < j < |issued| && !IsReady(issued[i]) && !IsReady(issued[j]) ==>
          issued[i].index < issued[j].index)
  }

  ghost predicate TokensBelow(issued: seq<Pending>, token: nat) {
    forall i :: 0 <= i < |issued| ==> issued[i].token < token
  }

  ghost predicate IndicesBelow(issued: seq<Pending>, index: nat) {
    forall i :: 0 <= i < |issued| && !IsReady(issued[i]) ==> issued[i].index < index
  }

  lemma FreshAppend(issued: seq<Pending>, p: Pending)
    requires Fresh(issued) && TokensBelow(issued, p.token) && 0 < p.token && InRange(p)
    requires IsReady(p) || IndicesBelow(issued, p.index)
    ensures Fresh(issued + [p]) && TokensBelow(issued + [p], p.token + 1)
    ensures forall index ::
              IndicesBelow(issued, index) && (IsReady(p) || p.index < index) ==> IndicesBelow(issued + [p], index)
  {
    var all := issued + [p];
    forall i, j | 0 <= i < j < |all|
      ensures all[i].token < all[j].token
      ensures !IsReady(all[i]) && !IsReady(all[j]) ==> all[i].index < all[j].index
    {
      assert all[i] == issued[i];
      if j < |issued| {
        assert all[j] == issued[j];
      }
    }
  }

  class State {
    var nextToken: nat
    var nextIndex: nat
    var localEndpoints: seq<byte>
    var peerEndpoints: seq<byte>
    var peerCount: nat
    var versionConfirmed: bool
    var statusConfirmed: bool
    var tokenExhausted: bool
    var indexExhausted: bool
    /** Every identity handed out, in order. */
    ghost var issued: seq<Pending>

    constructor ()
      ensures localEndpoints == peerEndpoints == Zeros(ENDPOINT_COUNT)
    {
      nextToken, nextIndex, peerCount := 0, 0, 0;
      localEndpoints, peerEndpoints := Zeros(ENDPOINT_COUNT), Zeros(ENDPOINT_COUNT);
      versionConfirmed, statusConfirmed, tokenExhausted, indexExhausted := false, false, false, false;
      issued := [];
    }

    /** Whatever is still to be handed out lies above everything handed out. */
    ghost predicate Valid()
      reads this
    {
      && Fresh(issued)
      && 0 < nextToken <= MAX_U64 && nextIndex <= MAX_U32
      && |localEndpoints| == |peerEndpoints| == ENDPOINT_COUNT
      && (!tokenExhausted ==> TokensBelow(issued, nextToken))
      && (!indexExhausted ==> IndicesBelow(issued, nextIndex))
    }

    method Init(firstToken: nat, firstIndex: nat) returns (r: Result)
      requires firstToken <= MAX_U64 && firstIndex <= MAX_U32
      modifies this
      ensures r == if firstToken == 0 then ErrorArgument else Ok
      ensures r == Ok ==> Valid() && issued == [] && !versionConfirmed && !statusConfirmed
      ensures r == Ok ==> nextToken == firstToken && nextIndex == firstIndex && !tokenExhausted && !indexExhausted
      ensures r != Ok ==> unchanged(this)
    {
      if firstToken == 0 {
        return ErrorArgument;
      }
      nextToken, nextIndex, peerCount := firstToken, firstIndex, 0;
      localEndpoints, peerEndpoints := Zeros(ENDPOINT_COUNT), Zeros(ENDPOINT_COUNT);
      versionConfirmed, statusConfirmed, tokenExhausted, indexExhausted := false, false, false, false;
      issued := [];
      r := Ok;
    }

    /** Forgets everything. */
    method Wipe()
      modifies this
      ensures !versionConfirmed && !statusConfirmed && nextToken == 0 && issued == old(issued)
    {
      nextToken, nextIndex, peerCount := 0, 0, 0;
      localEndpoints, peerEndpoints := Zeros(ENDPOINT_COUNT), Zeros(ENDPOINT_COUNT);
      versionConfirmed, statusConfirmed, tokenExhausted, indexExhausted := false, false, false, false;
    }

    /** A token and an index that no identity has had. */
    method ReserveIdentity(kind: Kind, endpoint: nat, selector: byte, transaction: byte)
      returns (r: Result, p: Pending)
      requires Valid() && endpoint <= MAX_U32 && (kind == Control ==> selector != 4)
      modifies this`nextToken, this`nextIndex, this`tokenExhausted, this`indexExhausted, this`issued
      ensures Valid()
      ensures r == if old(tokenExhausted || indexExhausted) then ErrorExhausted else Ok
      ensures r == Ok ==> p == Pending(kind, old(nextToken), old(nextIndex), endpoint, selector, transaction)
      ensures r == Ok ==> issued == old(issued) + [p]
      ensures r != Ok ==> unchanged(this)
    {
      p := Pending(kind, nextToken, nextIndex, endpoint, selector, transaction);
      if tokenExhausted || indexExhausted {
        return ErrorExhausted, p;
      }
      FreshAppend(issued, p);
      issued := issued + [p];
      AdvanceToken();
      if nextIndex == MAX_U32 {
        indexExhausted := true;
      } else {
        nextIndex := nextIndex + 1;
      }
      r := Ok;
    }

    method AdvanceToken()
      requires nextToken <= MAX_U64
      modifies this`nextToken, this`tokenExhausted
      ensures old(nextToken) == MAX_U64 ==> tokenExhausted && nextToken == MAX_U64
      ensures old(nextToken) < MAX_U64 ==> tokenExhausted == old(tokenExhausted) && nextToken == old(nextToken) + 1
    {
      if nextToken == MAX_U64 {
        tokenExhausted := true;
      } else {
        nextToken := nextToken + 1;
      }
    }

    method BuildControl(payload: seq<byte>, output: array<byte>) returns (r: Result, p: Pending)
      requires Valid() && output.Length == BUFFER_SIZE && (|payload| > 0 ==> payload[0] != 4)
      modifies this`nextToken, this`nextIndex, this`tokenExhausted, this`indexExhausted, this`issued, output
      ensures Valid()
      ensures r == if |payload| == 0 || |payload| > MESSAGE_CAPACITY then ErrorArgument
                   else if old(tokenExhausted || indexExhausted) then ErrorExhausted else Ok
      ensures r == Ok ==> p.kind == Control && p.endpoint == CONTROL_ENDPOINT && p.selector == payload[0]
      ensures r == Ok ==> issued == old(issued) + [p] && IsRequest(output[..], p, payload, [])
      ensures r != Ok ==> unchanged(this) && unchanged(output)
    {
      p := Pending(Control, 0, 0, 0, 0, 0);
      if |payload| == 0 || |payload| > MESSAGE_CAPACITY {
        return ErrorArgument, p;
      }
      r, p := ReserveIdentity(Control, CONTROL_ENDPOINT, payload[0], 0);
      if r != Ok {
        return;
      }
      WriteControl(p, payload, output);
    }

    static method WriteControl(p: Pending, payload: seq<byte>, output: array<byte>)
      requires InRange(p) && |payload| <= MESSAGE_CAPACITY && output.Length == BUFFER_SIZE
      modifies output
      ensures IsRequest(output[..], p, payload, [])
    {
      BuildHeader(output, p, |payload|, 0);
      ghost var s := output[..];
      assert Overwrite(s, 0, []) == s;
      WithData(p, |payload|, [], s);
      Store(output, MESSAGE_OFFSET + 8, payload);
      WithBody(p, payload, [], s);
    }

    method BuildGetVersion(output: array<byte>) returns (r: Result, p: Pending)
      requires Valid() && output.Length == BUFFER_SIZE
      modifies this`nextToken, this`nextIndex, this`tokenExhausted, this`indexExhausted, this`issued, output
      ensures Valid() && SameProgress()
      ensures r == Ok ==> !versionConfirmed && p.kind == Control && p.selector == 1 && p.endpoint == CONTROL_ENDPOINT
      ensures r == Ok ==> issued == old(issued) + [p] && IsRequest(output[..], p, [1], [])
      ensures r != Ok ==> unchanged(this)
    {
      if versionConfirmed {
        return ErrorState, Pending(Control, 0, 0, 0, 0, 0);
      }
      r, p := BuildControl([1], output);
    }

    /** Building a request confirms nothing. */
    twostate predicate SameProgress()
      reads this
    {
      versionConfirmed == old(versionConfirmed) && statusConfirmed == old(statusConfirmed)
    }

    method AcceptVersion(m: Message, p: Pending) returns (r: Result)
      requires Valid() && WellFormed(m)
      modifies this`versionConfirmed
      ensures Valid()
      ensures r == Ok <==> !old(versionConfirmed) && p.kind == Control && p.selector == 1
                           && m.endpoint == p.endpoint && m.messageLength >= 1 && m.At(8) == 1
      ensures versionConfirmed == (old(versionConfirmed) || r == Ok)
    {
      if versionConfirmed || p.kind != Control || p.selector != 1 {
        return ErrorState;
      }
      if m.endpoint != p.endpoint {
        return ErrorEndpoint;
      }
      if m.messageLength < 1 || m.At(8) != 1 {
        return ErrorSelector;
      }
      versionConfirmed := true;
      r := Ok;
    }

    method BuildEndpointStatus(output: array<byte>) returns (r: Result, p: Pending)
      requires Valid() && output.Length == BUFFER_SIZE
      modifies this`nextToken, this`nextIndex, this`tokenExhausted, this`indexExhausted, this`issued, output
      ensures Valid() && SameProgress()
      ensures r == Ok ==> versionConfirmed && !statusConfirmed && p.kind == Control && p.selector == 6
      ensures r == Ok ==> p.endpoint == CONTROL_ENDPOINT && issued == old(issued) + [p]
      ensures r == Ok ==> IsRequest(output[..], p, [6, ENDPOINT_COUNT] + localEndpoints, [])
      ensures r != Ok ==> unchanged(this)
    {
      if !versionConfirmed || statusConfirmed {
        return ErrorState, Pending(Control, 0, 0, 0, 0, 0);
      }
      r, p := BuildControl([6, ENDPOINT_COUNT] + localEndpoints, output);
    }

    method AcceptEndpointStatus(m: Message, p: Pending) returns (r: Result)
      requires Valid() && WellFormed(m)
      modifies this`peerEndpoints, this`peerCount, this`statusConfirmed
      ensures Valid()
      ensures r == Ok <==> old(versionConfirmed && !statusConfirmed) && p.kind == Control && p.selector == 6
                           && m.endpoint == p.endpoint && m.messageLength >= 2 && m.At(8) == 6
                           && m.At(9) <= ENDPOINT_COUNT && m.messageLength == m.At(9) + 2
      ensures r == Ok ==> statusConfirmed && peerCount == m.At(9)
      ensures r == Ok ==> forall i :: 0 <= i < ENDPOINT_COUNT ==>
                peerEndpoints[i] == if i < peerCount then m.At(10 + i) else 0
      ensures r != Ok ==> unchanged(this)
    {
      if !versionConfirmed || statusConfirmed || p.kind != Control || p.selector != 6 {
        return ErrorState;
      }
      if m.endpoint != p.endpoint {
        return ErrorEndpoint;
      }
      if m.messageLength < 2 || m.At(8) != 6 {
        return ErrorSelector;
      }
      var count: int := m.At(9);
      if count > ENDPOINT_COUNT || m.messageLength != count + 2 {
        return ErrorLength;
      }
      peerEndpoints := seq(ENDPOINT_COUNT, i requires 0 <= i < ENDPOINT_COUNT => if i < count then m.At(10 + i) else 0);
      peerCount := count;
      statusConfirmed := true;
      r := Ok;
    }

    method BuildEndpointEnable(endpoint: nat, enabled: int, output: array<byte>) returns (r: Result, p: Pending)
      requires Valid() && output.Length == BUFFER_SIZE && endpoint <= MAX_U32
      modifies this, output
      ensures Valid() && SameProgress()
      ensures r == Ok ==> statusConfirmed && endpoint < ENDPOINT_COUNT && enabled in {0, 1}
      ensures r == Ok ==> localEndpoints == old(localEndpoints)[endpoint := enabled] && issued == old(issued) + [p]
      ensures r == Ok ==> IsRequest(output[..], p, [2] + LE(endpoint, 4) + LE(enabled, 4), [])
      ensures r != Ok ==> unchanged(this)
    {
      p := Pending(Control, 0, 0, 0, 0, 0);
      if !statusConfirmed {
        return ErrorState, p;
      }
      if endpoint >= ENDPOINT_COUNT || (enabled != 0 && enabled != 1) {
        return ErrorEndpoint, p;
      }
      r, p := BuildControl([2] + LE(endpoint, 4) + LE(enabled, 4), output);
      if r == Ok {
        localEndpoints := localEndpoints[endpoint := enabled];
      }
    }

    method IssueReady(completed: Pending) returns (p: Pending)
      requires Valid() && !tokenExhausted && completed.index < 0x8000_0000
      modifies this`nextToken, this`tokenExhausted, this`issued
      ensures Valid() && issued == old(issued) + [p]
      ensures p == Pending(Control, old(nextToken), completed.index + 0x8000_0000, CONTROL_ENDPOINT, 4, 0)
    {
      p := Pending(Control, nextToken, completed.index + 0x8000_0000, CONTROL_ENDPOINT, 4, 0);
      FreshAppend(issued, p);
      issued := issued + [p];
      AdvanceToken();
    }

    /** The acknowledgement has a token of its own and the index of the request it completes, marked. */
    method BuildEndpointReady(endpoint: nat, completed: Pending, output: array<byte>) returns (r: Result, p: Pending)
      requires Valid() && output.Length == BUFFER_SIZE && endpoint <= MAX_U32 && InRange(completed)
      modifies this, output
      ensures Valid() && SameProgress()
      ensures r == Ok <==> completed.token != 0 && old(statusConfirmed) && endpoint < ENDPOINT_COUNT
                           && completed.endpoint == endpoint && completed.index < 0x8000_0000 && !old(tokenExhausted)
      ensures r == Ok ==> p.index == completed.index + 0x8000_0000 && p.token == old(nextToken) && IsReady(p)
      ensures r == Ok ==> issued == old(issued) + [p] && nextIndex == old(nextIndex)
      ensures r == Ok ==> localEndpoints == old(localEndpoints)[endpoint := 1]
      ensures r == Ok ==> IsRequest(output[..], p, [4] + LE(endpoint, 4) + LE(1, 4), [])
      ensures r != Ok ==> unchanged(this) && unchanged(output)
    {
      p := Pending(Control, 0, 0, 0, 0, 0);
      if completed.token == 0 {
        return ErrorArgument, p;
      }
      if !statusConfirmed {
        return ErrorState, p;
      }
      if endpoint >= ENDPOINT_COUNT || completed.endpoint != endpoint {
        return ErrorEndpoint, p;
      }
      if completed.index >= 0x8000_0000 || tokenExhausted {
        return ErrorExhausted, p;
      }
      p := IssueReady(completed);
      WriteControl(p, [4] + LE(endpoint, 4) + LE(1, 4), output);
      localEndpoints := localEndpoints[endpoint := 1];
      r := Ok;
    }

    /** Data with a message of eight bytes that repeats its selector, transaction and length. */
    method BuildKeystoreRequest(request: seq<byte>, selector: byte, transaction: byte, output: array<byte>)
      returns (r: Result, p: Pending)
      requires Valid() && output.Length == BUFFER_SIZE
      modifies this`nextToken, this`nextIndex, this`tokenExhausted, this`indexExhausted, this`issued, output
      ensures Valid() && SameProgress()
      ensures r == if !old(statusConfirmed) || |request| == 0 || |request| > DATA_CAPACITY || selector >= 0x80
                   then ErrorArgument
                   else if old(tokenExhausted || indexExhausted) then ErrorExhausted else Ok
      ensures r == Ok ==> p.kind == Keystore && p.endpoint == KEYSTORE_ENDPOINT && issued == old(issued) + [p]
      ensures r == Ok ==> p.selector == selector && p.transaction == transaction
      ensures r == Ok ==> IsRequest(output[..], p, KeystoreBody(selector, transaction, |request|), request)
      ensures r != Ok ==> unchanged(this) && unchanged(output)
    {
      p := Pending(Keystore, 0, 0, 0, 0, 0);
      if !statusConfirmed || |request| == 0 || |request| > DATA_CAPACITY || |request| > MAX_U16 || selector >= 0x80 {
        return ErrorArgument, p;
      }
      r, p := ReserveIdentity(Keystore, KEYSTORE_ENDPOINT, selector, transaction);
      if r != Ok {
        return;
      }
      WriteKeystore(p, request, output);
    }

    static method WriteKeystore(p: Pending, request: seq<byte>, output: array<byte>)
      requires InRange(p) && |request| <= DATA_CAPACITY && output.Length == BUFFER_SIZE
      modifies output
      ensures IsRequest(output[..], p, KeystoreBody(p.selector, p.transaction, |request|), request)
    {
      BuildHeader(output, p, KEYSTORE_HEADER, |request|);
      Store(output, 0, request);
      ghost var s := output[..];
      WithData(p, KEYSTORE_HEADER, request, s);
      Store(output, MESSAGE_OFFSET + 8, [0, p.selector, p.transaction]);
      Store(output, MESSAGE_OFFSET + 14, LE(|request|, 2));
      KeystoreBodyInPlace(s, p.selector, p.transaction, |request|);
      WithBody(p, KeystoreBody(p.selector, p.transaction, |request|), request, s);
    }

    method BuildAcmRequest(command: seq<byte>, selector: byte, output: array<byte>) returns (r: Result, p: Pending)
      requires Valid() && output.Length == BUFFER_SIZE
      modifies this`nextToken, this`nextIndex, this`tokenExhausted, this`indexExhausted, this`issued, output
      ensures Valid() && SameProgress()
      ensures r == if !old(statusConfirmed) || |command| < 8 || |command| > DATA_CAPACITY then ErrorArgument
                   else if old(tokenExhausted || indexExhausted) then ErrorExhausted else Ok
      ensures r == Ok ==> p.kind == Acm && p.endpoint == ACM_ENDPOINT && p.selector == selector
      ensures r == Ok ==> issued == old(issued) + [p] && 0 < p.token && InRange(p)
      ensures r == Ok ==> IsRequest(output[..], p, AcmBody(selector, |command|), command)
      ensures r != Ok ==> unchanged(this) && unchanged(output)
    {
      p := Pending(Acm, 0, 0, 0, 0, 0);
      if !statusConfirmed || |command| < 8 || |command| > DATA_CAPACITY {
        return ErrorArgument, p;
      }
      r, p := ReserveIdentity(Acm, ACM_ENDPOINT, selector, 0);
      if r != Ok {
        return;
      }
      WriteAcm(p, command, output);
    }

    static method WriteAcm(p: Pending, command: seq<byte>, output: array<byte>)
      requires InRange(p) && |command| <= DATA_CAPACITY && output.Length == BUFFER_SIZE
      modifies output
      ensures IsRequest(output[..], p, AcmBody(p.selector, |command|), command)
    {
      BuildHeader(output, p, ACM_HEADER, |command|);
      Store(output, 0, command);
      ghost var s := output[..];
      WithData(p, ACM_HEADER, command, s);
      Store(output, MESSAGE_OFFSET + 8, AcmBody(p.selector, |command|));
      WithBody(p, AcmBody(p.selector, |command|), command, s);
    }
  }

  /** The data goes in front of the header. */
  ghost predicate DataIn(s: seq<byte>, p: Pending, messageLength: nat, data: seq<byte>) {
    && |data| <= DATA_CAPACITY
    && Carries(s, p, messageLength, |data|)
    && At(s, 0, data)
    && (forall i :: |data| <= i < DATA_CAPACITY ==> s[i] == 0)
    && (forall i :: MESSAGE_OFFSET + 8 <= i < MESSAGE_OFFSET + 8 + MESSAGE_CAPACITY ==> s[i] == 0)
  }

  lemma HeaderZeros(p: Pending, messageLength: nat, dataLength: nat)
    ensures var s := Header(p, messageLength, dataLength);
            && (forall i :: 0 <= i < DATA_CAPACITY ==> s[i] == 0)
            && (forall i :: MESSAGE_OFFSET + 8 <= i < MESSAGE_OFFSET + 8 + MESSAGE_CAPACITY ==> s[i] == 0)
  {
  }

  lemma WithData(p: Pending, messageLength: nat, data: seq<byte>, s: seq<byte>)
    requires |data| <= DATA_CAPACITY && s == Overwrite(Header(p, messageLength, |data|), 0, data)
    ensures DataIn(s, p, messageLength, data)
  {
    HeaderCarries(p, messageLength, |data|);
    HeaderZeros(p, messageLength, |data|);
    CarriesKept(Header(p, messageLength, |data|), 0, data, p, messageLength, |data|);
  }

  /** The message goes into the header. */
  lemma WithBody(p: Pending, body: seq<byte>, data: seq<byte>, s: seq<byte>)
    requires InRange(p) && |body| <= MESSAGE_CAPACITY && DataIn(s, p, |body|, data)
    ensures IsRequest(Overwrite(s, MESSAGE_OFFSET + 8, body), p, body, data)
  {
    CarriesKept(s, MESSAGE_OFFSET + 8, body, p, |body|, |data|);
    OverwriteElsewhere(s, MESSAGE_OFFSET + 8, body, 0, data);
    ParseCarried(Overwrite(s, MESSAGE_OFFSET + 8, body), p, |body|, |data|);
  }

  /** Writing the fields of the message one by one is writing the message. */
  lemma KeystoreBodyInPlace(s: seq<byte>, selector: byte, transaction: byte, length: nat)
    requires |s| == BUFFER_SIZE
    requires forall i :: MESSAGE_OFFSET + 8 <= i < MESSAGE_OFFSET + 8 + MESSAGE_CAPACITY ==> s[i] == 0
    ensures Overwrite(Overwrite(s, MESSAGE_OFFSET + 8, [0, selector, transaction]), MESSAGE_OFFSET + 14, LE(length, 2))
         == Overwrite(s, MESSAGE_OFFSET + 8, KeystoreBody(selector, transaction, length))
  {
    var body := KeystoreBody(selector, transaction, length);
    var first := Overwrite(s, MESSAGE_OFFSET + 8, [0, selector, transaction]);
    var x, y := Overwrite(first, MESSAGE_OFFSET + 14, LE(length, 2)), Overwrite(s, MESSAGE_OFFSET + 8, body);
    forall i | 0 <= i < |s|
      ensures x[i] == y[i]
    {
      if MESSAGE_OFFSET + 14 <= i < MESSAGE_OFFSET + 16 {
        assert body[i - MESSAGE_OFFSET - 8] == LE(length, 2)[i - MESSAGE_OFFSET - 14];
      }
    }
  }

  function KeystoreBody(selector: byte, transaction: byte, length: nat): (s: seq<byte>)
    ensures |s| == KEYSTORE_HEADER
  {
    [0, selector, transaction, 0, 0, 0] + LE(length, 2)
  }

  function AcmBody(selector: byte, length: nat): (s: seq<byte>)
    ensures |s| == ACM_HEADER
  {
    [1, selector] + LE(length, 4) + LE(0, 4)
  }

  /** Waits for the reply to one request and counts what it passes over. */
  class Waiter {
    const pending: Pending
    const skipLimit: nat
    var skipped: nat

    constructor (pending: Pending, skipLimit: nat)
      ensures this.pending == pending && this.skipLimit == skipLimit && skipped == 0
    {
      this.pending, this.skipLimit := pending, skipLimit;
      skipped := 0;
    }

    method Consume(transfer: seq<byte>) returns (r: Result, class_: Class, m: Message)
      modifies this
      ensures r == Matched <==> Parse(transfer).result == Ok && Matches(Parse(transfer).message, pending) == Matched
      ensures r in {Matched, Skipped, ErrorSkipLimit} <==> Parse(transfer).result == Ok
      ensures r in {Matched, Skipped, ErrorSkipLimit} ==> WellFormed(m) && m == Parse(transfer).message
      ensures r == Matched ==> class_ == ExpectedReply && skipped == old(skipped)
      ensures r in {Skipped, ErrorSkipLimit} ==> skipped == old(skipped) + 1 && class_ == Classify(m)
      ensures r == Skipped ==> skipped < skipLimit
      ensures r == ErrorSkipLimit ==> skipped >= skipLimit
      ensures r !in {Skipped, ErrorSkipLimit} ==> skipped == old(skipped)
    {
      var parsed := Parse(transfer);
      m, class_ := parsed.message, OtherMessage;
      if parsed.result != Ok {
        return parsed.result, class_, m;
      }
      if Matches(m, pending) == Matched {
        return Matched, ExpectedReply, m;
      }
      class_ := Classify(m);
      skipped := skipped + 1;
      r := if skipped >= skipLimit then ErrorSkipLimit else Skipped;
    }
  }
}
