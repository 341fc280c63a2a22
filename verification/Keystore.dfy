/** Keystore requests: sealed with a digest, numbered and timestamped, and carried by the relay. */
module Keystore {
  import opened Bytes
  import opened RelayWire
  import Relay
  import opened Sha256
  import Sha256Context

  const WIRE_HEADER: nat := 0x54
  const IPC_HEADER: nat := 0x50
  const SECRET_SIZE: nat := 32
  const EXTERNAL_FORM_SIZE: nat := 16
  const ENVIRONMENT_SIZE: nat := 0x40c

  datatype Status =
    | KOk | KRemoteError
    | KArgument | KCapacity | KLength | KHeader | KHash | KSelector | KTransaction | KState | KExhausted | KRelay

  /** What a request asks for; a handle is a signed 32-bit number in two's complement. */
  datatype Arguments =
    | Capabilities
    | Create(secret: seq<byte>)
    | Serialize(handle: nat)
    | LoadBag(bag: seq<byte>)
    | LockState(handle: nat)
    | CopyUuid(handle: nat)
    | MakeSystem(source: nat, target: nat, optionalSecret: seq<byte>)
    | Unlock(handle: nat, secret: seq<byte>)
    | DeviceState(handle: nat)
    | VerifySecret(handle: nat, secret: seq<byte>, externalForm: seq<byte>)
    | GetConfiguration(handle: nat)
    | SetConfiguration(handle: nat, flags: nat, configuration: seq<byte>)
    | SetEnvironment

  datatype Kind =
    | CapabilitiesKind | CreateKind | SerializeKind | LoadKind | LockStateKind | CopyUuidKind | MakeSystemKind
    | UnlockKind | DeviceStateKind | VerifySecretKind | GetConfigurationKind | SetConfigurationKind
    | SetEnvironmentKind

  function KindOf(a: Arguments): Kind {
    match a
    case Capabilities => CapabilitiesKind
    case Create(_) => CreateKind
    case Serialize(_) => SerializeKind
    case LoadBag(_) => LoadKind
    case LockState(_) => LockStateKind
    case CopyUuid(_) => CopyUuidKind
    case MakeSystem(_, _, _) => MakeSystemKind
    case Unlock(_, _) => UnlockKind
    case DeviceState(_) => DeviceStateKind
    case VerifySecret(_, _, _) => VerifySecretKind
    case GetConfiguration(_) => GetConfigurationKind
    case SetConfiguration(_, _, _) => SetConfigurationKind
    case SetEnvironment => SetEnvironmentKind
  }

  function Selector(k: Kind): (s: byte)
    ensures s < 0x80
  {
    match k
    case CreateKind => 0x01
    case SerializeKind => 0x02
    case LoadKind => 0x03
    case LockStateKind => 0x04
    case CopyUuidKind => 0x06
    case MakeSystemKind => 0x0d
    case UnlockKind => 0x18
    case DeviceStateKind => 0x19
    case VerifySecretKind => 0x21
    case GetConfigurationKind => 0x23
    case SetConfigurationKind => 0x24
    case SetEnvironmentKind => 0x2a
    case CapabilitiesKind => 0x4d
  }

  /** Zeros up to a multiple of four. */
  function Padding(n: nat): seq<byte> { Zeros((4 - n % 4) % 4) }

  /** The arguments after the client context. */
  function ArgumentBytes(a: Arguments): seq<byte> {
    match a
    case Capabilities => LE(0, 4)
    case Create(secret) => LE(0, 4) + LE(MAX_U32, 4) + LE(SECRET_SIZE, 4) + secret
    case Serialize(handle) => LE(handle, 4)
    case LoadBag(bag) => LE(|bag|, 4) + bag + Padding(|bag|)
    case LockState(handle) => LE(handle, 4) + LE(MAX_U32, 4) + LE(0, 4)
    case CopyUuid(handle) => LE(handle, 4)
    case MakeSystem(source, target, secret) => LE(source, 4) + LE(target, 4) + LE(|secret|, 4) + secret
    case Unlock(handle, secret) => LE(handle, 4) + LE(0, 4) + LE(0, 8) + LE(SECRET_SIZE, 4) + secret
    case DeviceState(handle) => LE(handle, 4) + LE(0, 4)
    case VerifySecret(handle, secret, form) => LE(handle, 4) + LE(SECRET_SIZE, 4) + secret + LE(|form|, 4) + form
    case GetConfiguration(handle) => LE(handle, 4)
    case SetConfiguration(handle, flags, configuration) =>
      LE(handle, 4) + LE(flags, 4) + LE(|configuration|, 4) + configuration + Padding(|configuration|)
    case SetEnvironment => LE(ENVIRONMENT_SIZE, 4) + LE(1, 4) + Zeros(ENVIRONMENT_SIZE - 4)
  }

  /** Two of the requests go under a fixed context. */
  function ContextOf(a: Arguments, clientContext: nat): nat {
    if a.Capabilities? || a.SetEnvironment? then 1 else clientContext
  }

  /** The request before it is sealed. */
  function Body(a: Arguments, clientContext: nat): (s: seq<byte>)
    ensures |s| >= 0x60
  {
    Zeros(WIRE_HEADER) + LE(0, 4) + LE(ContextOf(a, clientContext), 8) + ArgumentBytes(a)
  }

  /** Fixed-size secrets are passed as arrays of that size. */
  ghost predicate WellTyped(a: Arguments) {
    match a
    case Create(secret) => |secret| == SECRET_SIZE
    case Unlock(_, secret) => |secret| == SECRET_SIZE
    case VerifySecret(_, secret, _) => |secret| == SECRET_SIZE
    case _ => true
  }

  /** The checks a builder makes before it touches the output. */
  function CheckArguments(a: Arguments): (r: Status)
    ensures r in {KOk, KArgument, KLength}
  {
    match a
    case LoadBag(bag) =>
      if bag == [] || |bag| > MAX_U32 then KArgument
      else if |bag| + |Padding(|bag|)| > DATA_CAPACITY - 0x64 then KLength else KOk
    case MakeSystem(_, _, secret) => if secret != [] && |secret| != SECRET_SIZE then KArgument else KOk
    case VerifySecret(_, _, form) => if form != [] && |form| != EXTERNAL_FORM_SIZE then KArgument else KOk
    case SetConfiguration(_, _, configuration) =>
      if configuration == [] || |configuration| > MAX_U32 then KArgument
      else if |configuration| + |Padding(|configuration|)| > DATA_CAPACITY - 0x6c then KLength else KOk
    case _ => KOk
  }

  lemma BodyFits(a: Arguments, clientContext: nat)
    requires WellTyped(a) && CheckArguments(a) == KOk
    ensures WIRE_HEADER <= |Body(a, clientContext)| <= DATA_CAPACITY
  {
  }

  // -------------------------------------------------------------------------
  // Seals

  /** What the digest of a request covers: most of its header, and everything after it. */
  function Covered(request: seq<byte>): seq<byte>
    requires WIRE_HEADER <= |request|
  {
    request[0x14..0x4c] + request[WIRE_HEADER..]
  }

  /** A request with a valid seal. The depth keeps this folded: only `SealMeans` looks into it. */
  ghost predicate Sealed(request: seq<byte>, depth: nat := 4)
    ensures Sealed(request, depth) ==> WIRE_HEADER <= |request| <= DATA_CAPACITY
    decreases |request|, depth
  {
    if depth > 0 then Sealed(request, depth - 1)
    else
      && WIRE_HEADER <= |request| <= DATA_CAPACITY
      && Load(request, 0, 4) == IPC_HEADER
      && Load(request, 0x14, 4) == 1
      && request[4..20] == Digest(Covered(request))[..16]
  }

  lemma SealMeans(request: seq<byte>)
    ensures Sealed(request) <==>
            && WIRE_HEADER <= |request| <= DATA_CAPACITY
            && Load(request, 0, 4) == IPC_HEADER && Load(request, 0x14, 4) == 1
            && request[4..20] == Digest(Covered(request))[..16]
  {
    assert Sealed(request, 2) == Sealed(request, 3);
    assert Sealed(request, 1) == Sealed(request, 2);
  }

  const STAMP_OFFSET: nat := 0x18
  const STAMP_END: nat := 0x20

  /** A request that carries this timestamp, and the rest of which is that of `body`. The depth keeps this folded:
      only `StampMeans` looks into it. */
  ghost predicate IsStamped(request: seq<byte>, timestamp: nat, body: seq<byte>, depth: nat := 4)
    decreases |request|, depth
  {
    if depth > 0 then IsStamped(request, timestamp, body, depth - 1)
    else
      && STAMP_END <= |request| == |body|
      && At(request, STAMP_OFFSET, LE(timestamp, 8)) && request[STAMP_END..] == body[STAMP_END..]
  }

  lemma StampMeans(request: seq<byte>, timestamp: nat, body: seq<byte>)
    ensures IsStamped(request, timestamp, body) <==>
            && STAMP_END <= |request| == |body|
            && At(request, STAMP_OFFSET, LE(timestamp, 8)) && request[STAMP_END..] == body[STAMP_END..]
  {
    assert IsStamped(request, timestamp, body, 2) == IsStamped(request, timestamp, body, 3);
    assert IsStamped(request, timestamp, body, 1) == IsStamped(request, timestamp, body, 2);
  }

  /** A request with these arguments and this timestamp; folded for the same reason. */
  ghost predicate IsBuilt(request: seq<byte>, a: Arguments, context: nat, timestamp: nat, depth: nat := 4)
    decreases |request|, depth
  {
    if depth > 0 then IsBuilt(request, a, context, timestamp, depth - 1)
    else IsStamped(request, timestamp, Body(a, context))
  }

  lemma BuiltMeans(request: seq<byte>, a: Arguments, context: nat, timestamp: nat)
    ensures IsBuilt(request, a, context, timestamp) <==> IsStamped(request, timestamp, Body(a, context))
  {
    assert IsBuilt(request, a, context, timestamp, 2) == IsBuilt(request, a, context, timestamp, 3);
    assert IsBuilt(request, a, context, timestamp, 1) == IsBuilt(request, a, context, timestamp, 2);
  }

  method CalculateDigest(request: seq<byte>) returns (digest: seq<byte>)
    requires WIRE_HEADER <= |request| <= DATA_CAPACITY
    ensures digest == Digest(Covered(request))
  {
    var chunks := [request[0x14..0x4c], request[WIRE_HEADER..]];
    Sha256Context.TwoChunks(chunks[0], chunks[1]);
    digest := Sha256Context.HashChunks(chunks);
  }

  method VerifySeal(request: seq<byte>) returns (r: Status)
    ensures r == KOk <==> Sealed(request)
    ensures r in {KOk, KLength, KHeader, KHash}
  {
    SealMeans(request);
    if |request| < WIRE_HEADER || |request| > DATA_CAPACITY {
      return KLength;
    }
    if Load(request, 0, 4) != IPC_HEADER || Load(request, 0x14, 4) != 1 {
      return KHeader;
    }
    var digest := CalculateDigest(request);
    r := if request[4..20] == digest[..16] then KOk else KHash;
  }

  /** The header before the digest goes in. */
  function Unsealed(request: seq<byte>, timestamp: nat): (s: seq<byte>)
    requires WIRE_HEADER <= |request|
    ensures |s| == |request|
  {
    var blank := Overwrite(Overwrite(request, 0, LE(IPC_HEADER, 4)), 4, Zeros(16));
    Overwrite(Overwrite(blank, 0x14, LE(1, 4)), 0x18, LE(timestamp, 8))
  }

  lemma UnsealedFields(request: seq<byte>, timestamp: nat)
    requires WIRE_HEADER <= |request|
    ensures var s := Unsealed(request, timestamp);
            && At(s, 0, LE(IPC_HEADER, 4)) && At(s, 0x14, LE(1, 4)) && At(s, 0x18, LE(timestamp, 8))
            && s[STAMP_END..] == request[STAMP_END..]
  {
  }

  /** The digest does not cover itself. */
  lemma DigestFits(s: seq<byte>, digest: seq<byte>)
    requires WIRE_HEADER <= |s| && |digest| == 16
    requires At(s, 0, LE(IPC_HEADER, 4)) && At(s, 0x14, LE(1, 4))
    ensures var t := Overwrite(s, 4, digest);
            && Covered(t) == Covered(s) && t[4..20] == digest && t[WIRE_HEADER..] == s[WIRE_HEADER..]
            && Load(t, 0, 4) == IPC_HEADER && Load(t, 0x14, 4) == 1
  {
    var t := Overwrite(s, 4, digest);
    OverwriteElsewhere(s, 4, digest, 0, LE(IPC_HEADER, 4));
    OverwriteElsewhere(s, 4, digest, 0x14, LE(1, 4));
    PowersOf256();
    LoadField(t, 0, 4, IPC_HEADER);
    LoadField(t, 0x14, 4, 1);
    assert t[0x14..0x4c] == s[0x14..0x4c];
  }

  /** So the timestamp stays where it was put. */
  lemma StampStays(s: seq<byte>, digest: seq<byte>, timestamp: nat)
    requires WIRE_HEADER <= |s| && |digest| == 16 && At(s, STAMP_OFFSET, LE(timestamp, 8))
    ensures IsStamped(Overwrite(s, 4, digest), timestamp, s)
  {
    OverwriteElsewhere(s, 4, digest, STAMP_OFFSET, LE(timestamp, 8));
    StampMeans(Overwrite(s, 4, digest), timestamp, s);
  }

  /** A reader gets the timestamp. */
  lemma StampReadsBack(request: seq<byte>, timestamp: nat, body: seq<byte>)
    requires IsStamped(request, timestamp, body) && timestamp <= MAX_U64 && STAMP_END <= |request|
    ensures Load(request, STAMP_OFFSET, 8) == timestamp
  {
    StampMeans(request, timestamp, body);
    PowersOf256();
    LoadField(request, STAMP_OFFSET, 8, timestamp);
  }

  /** Seals the first `length` bytes in place. */
  method Seal(request: array<byte>, length: nat, timestamp: nat) returns (r: Status)
    requires length == request.Length && timestamp <= MAX_U64
    modifies request
    ensures r == if length < WIRE_HEADER || length > DATA_CAPACITY then KLength else KOk
    ensures r == KOk ==> Sealed(request[..]) && IsStamped(request[..], timestamp, old(request[..]))
    ensures r != KOk ==> unchanged(request)
  {
    if length < WIRE_HEADER || length > DATA_CAPACITY {
      return KLength;
    }
    ghost var before := request[..];
    WriteHeader(request, timestamp);
    var digest := CalculateDigest(request[..]);
    SealFits(before, timestamp, digest);
    Store(request, 4, digest[..16]);
    r := KOk;
  }

  /** Everything of the header but the digest. */
  method WriteHeader(request: array<byte>, timestamp: nat)
    requires WIRE_HEADER <= request.Length && timestamp <= MAX_U64
    modifies request
    ensures request[..] == Unsealed(old(request[..]), timestamp)
  {
    Store(request, 0, LE(IPC_HEADER, 4));
    Store(request, 4, Zeros(16));
    Store(request, 0x14, LE(1, 4));
    Store(request, STAMP_OFFSET, LE(timestamp, 8));
  }

  lemma SealFits(body: seq<byte>, timestamp: nat, digest: seq<byte>)
    requires WIRE_HEADER <= |body| <= DATA_CAPACITY && timestamp <= MAX_U64
    requires digest == Digest(Covered(Unsealed(body, timestamp)))
    ensures var t := Overwrite(Unsealed(body, timestamp), 4, digest[..16]);
            Sealed(t) && IsStamped(t, timestamp, body)
  {
    var s := Unsealed(body, timestamp);
    UnsealedFields(body, timestamp);
    DigestFits(s, digest[..16]);
    SealMeans(Overwrite(s, 4, digest[..16]));
    StampStays(s, digest[..16], timestamp);
    StampMeans(Overwrite(s, 4, digest[..16]), timestamp, s);
    StampMeans(Overwrite(s, 4, digest[..16]), timestamp, body);
  }

  // -------------------------------------------------------------------------
  // Builders

  datatype Operation = Operation(kind: Kind, length: nat, selector: byte, transaction: nat)

  const NO_OPERATION := Operation(CapabilitiesKind, 0, 0, 0)

  /** One request that was built. */
  datatype Record = Record(transaction: nat, timestamp: nat)

  ghost predicate Rising(built: seq<Record>) {
    forall i, j :: 0 <= i < j < |built| ==>
      built[i].transaction < built[j].transaction && built[i].timestamp < built[j].timestamp
  }

  class State {
    var clientContext: nat
    var lastTimestamp: nat
    var nextTransaction: nat
    var hasTimestamp: bool
    var exhausted: bool
    /** Every request built, in order. */
    ghost var built: seq<Record>

    constructor ()
    {
      clientContext, lastTimestamp, nextTransaction, hasTimestamp, exhausted := 0, 0, 0, false, false;
      built := [];
    }

    /** Transactions and timestamps rise from request to request. */
    ghost predicate Valid()
      reads this
    {
      && clientContext != 0 && clientContext <= MAX_U64 && lastTimestamp <= MAX_U64 && nextTransaction <= 0xFF
      && Rising(built)
      && (built != [] ==> hasTimestamp && built[|built| - 1].timestamp == lastTimestamp)
      && (built != [] && !exhausted ==> built[|built| - 1].transaction < nextTransaction)
    }

    method Init(context: nat, firstTransaction: byte) returns (r: Status)
      requires context <= MAX_U64
      modifies this
      ensures r == if context == 0 then KArgument else KOk
      ensures r == KOk ==> Valid() && built == [] && !hasTimestamp && !exhausted
      ensures r == KOk ==> clientContext == context && nextTransaction == firstTransaction
      ensures r != KOk ==> unchanged(this)
    {
      if context == 0 {
        return KArgument;
      }
      clientContext, nextTransaction := context, firstTransaction;
      lastTimestamp, hasTimestamp, exhausted := 0, false, false;
      built := [];
      r := KOk;
    }

    /** Whether a new request may be made now. */
    ghost predicate Admits(timestamp: nat)
      reads this
    {
      !exhausted && (hasTimestamp ==> timestamp > lastTimestamp)
    }

    method Build(a: Arguments, timestamp: nat, capacity: nat) returns (r: Status, request: array<byte>, op: Operation)
      requires Valid() && WellTyped(a) && timestamp <= MAX_U64
      modifies this
      ensures Valid()
      ensures r == KOk <==>
                CheckArguments(a) == KOk && |Body(a, old(clientContext))| <= capacity && old(Admits(timestamp))
      ensures r == KState ==> old(hasTimestamp) && timestamp <= old(lastTimestamp)
      ensures r == KOk ==> Sealed(request[..]) && IsBuilt(request[..], a, old(clientContext), timestamp)
      ensures r == KOk ==> op == Operation(KindOf(a), request.Length, Selector(KindOf(a)), old(nextTransaction))
      ensures r == KOk ==> built == old(built) + [Record(op.transaction, timestamp)]
      ensures r != KOk ==> unchanged(this) && request[..] == Zeros(request.Length)
      ensures fresh(request)
    {
      request, op := new byte[0], NO_OPERATION;
      r := CheckArguments(a);
      if r != KOk {
        return;
      }
      BodyFits(a, clientContext);
      var body := Body(a, clientContext);
      if |body| > capacity {
        return KCapacity, request, op;
      }
      request := Filled(body);
      r, op := Finish(KindOf(a), timestamp, request);
      BuiltMeans(request[..], a, old(clientContext), timestamp);
    }

    /** Seals the request and takes the next transaction; a request that is refused is wiped. */
    method Finish(kind: Kind, timestamp: nat, request: array<byte>) returns (r: Status, op: Operation)
      requires Valid() && timestamp <= MAX_U64 && WIRE_HEADER <= request.Length <= DATA_CAPACITY
      modifies this, request
      ensures Valid()
      ensures r == KOk <==> old(Admits(timestamp))
      ensures r == KState ==> old(hasTimestamp) && timestamp <= old(lastTimestamp)
      ensures r == KOk ==> Sealed(request[..]) && IsStamped(request[..], timestamp, old(request[..]))
      ensures r == KOk ==> op == Operation(kind, request.Length, Selector(kind), old(nextTransaction))
      ensures r == KOk ==> built == old(built) + [Record(op.transaction, timestamp)]
      ensures r != KOk ==> unchanged(this) && request[..] == Zeros(request.Length)
    {
      op := NO_OPERATION;
      if exhausted {
        Clear(request);
        return KExhausted, op;
      }
      if hasTimestamp && timestamp <= lastTimestamp {
        Clear(request);
        return KState, op;
      }
      r, op := SealNext(kind, timestamp, request);
    }

    method SealNext(kind: Kind, timestamp: nat, request: array<byte>) returns (r: Status, op: Operation)
      requires Valid() && Admits(timestamp) && timestamp <= MAX_U64 && WIRE_HEADER <= request.Length <= DATA_CAPACITY
      modifies this, request
      ensures Valid() && r == KOk && Sealed(request[..]) && IsStamped(request[..], timestamp, old(request[..]))
      ensures op == Operation(kind, request.Length, Selector(kind), old(nextTransaction))
      ensures built == old(built) + [Record(op.transaction, timestamp)]
    {
      r := Seal(request, request.Length, timestamp);
      ghost var bytes := request[..];
      op := Operation(kind, request.Length, Selector(kind), nextTransaction);
      Advance(timestamp);
      assert request[..] == bytes;
    }

    method Advance(timestamp: nat)
      requires Valid() && Admits(timestamp) && timestamp <= MAX_U64
      modifies this
      ensures Valid() && built == old(built) + [Record(old(nextTransaction), timestamp)]
    {
      RisingAppend(built, Record(nextTransaction, timestamp));
      built := built + [Record(nextTransaction, timestamp)];
      if nextTransaction == 0xFF {
        exhausted := true;
      } else {
        nextTransaction := nextTransaction + 1;
      }
      lastTimestamp, hasTimestamp := timestamp, true;
    }
  }

  method Filled(bytes: seq<byte>) returns (a: array<byte>)
    ensures fresh(a) && a[..] == bytes
  {
    a := new byte[|bytes|](i requires 0 <= i < |bytes| => bytes[i]);
  }

  lemma RisingAppend(built: seq<Record>, x: Record)
    requires Rising(built)
    requires built != [] ==>
              built[|built| - 1].transaction < x.transaction && built[|built| - 1].timestamp < x.timestamp
    ensures Rising(built + [x])
  {
    var all := built + [x];
    forall i, j | 0 <= i < j < |all|
      ensures all[i].transaction < all[j].transaction && all[i].timestamp < all[j].timestamp
    {
      assert all[i] == built[i];
      if j < |built| {
        assert all[j] == built[j];
      } else if i < |built| - 1 {
        assert built[i].transaction < built[|built| - 1].transaction;
      }
    }
  }

  // -------------------------------------------------------------------------
  // Transfers

  /** A request together with the operation it was built as. */
  ghost predicate Belongs(request: seq<byte>, op: Operation) {
    Sealed(request) && op.length == |request| && op.selector == Selector(op.kind) && op.transaction <= 0xFF
  }

  /** A request and its identity in a transfer. */
  ghost predicate Carried(transfer: seq<byte>, p: Pending, op: Operation, request: seq<byte>) {
    && p.kind == RelayWire.Keystore && p.endpoint == KEYSTORE_ENDPOINT
    && p.selector == op.selector && p.transaction == op.transaction && 0 < p.token && InRange(p)
    && op.transaction <= 0xFF
    && IsRequest(transfer, p, Relay.KeystoreBody(op.selector, op.transaction, |request|), request)
  }

  method CheckRequest(op: Operation, request: seq<byte>) returns (r: Status)
    requires op.transaction <= 0xFF
    ensures r == KOk <==> Belongs(request, op)
    ensures r in {KOk, KLength, KSelector, KHeader, KHash}
    ensures r == KOk ==> 0 < |request| <= DATA_CAPACITY && op.selector < 0x80
  {
    if |request| != op.length {
      return KLength;
    }
    if op.selector != Selector(op.kind) {
      return KSelector;
    }
    r := VerifySeal(request);
  }

  /** Checks a request once more and hands it to the relay. A request that was built passes every check, so
      only the relay can refuse it; what is read out of the transfer is the request. */
  method WrapRequest(relay: Relay.State, op: Operation, request: seq<byte>, output: array<byte>)
    returns (r: Status, p: Pending, ghost checked: bool)
    requires relay.Valid() && output.Length == BUFFER_SIZE && op.transaction <= 0xFF
    modifies relay`nextToken, relay`nextIndex, relay`tokenExhausted, relay`indexExhausted, relay`issued, output
    ensures relay.Valid() && relay.SameProgress()
    ensures checked == Belongs(request, op)
    ensures r == KOk <==> checked && old(relay.statusConfirmed && !relay.tokenExhausted && !relay.indexExhausted)
    ensures checked ==> r in {KOk, KRelay}
    ensures r == KOk ==> relay.issued == old(relay.issued) + [p] && Carried(output[..], p, op, request)
    ensures r != KOk ==> unchanged(relay) && unchanged(output)
  {
    p := Pending(RelayWire.Keystore, 0, 0, 0, 0, 0);
    r := CheckRequest(op, request);
    checked := r == KOk;
    if r != KOk {
      return;
    }
    r, p := WrapChecked(relay, op, request, output);
  }

  method WrapChecked(relay: Relay.State, op: Operation, request: seq<byte>, output: array<byte>)
    returns (r: Status, p: Pending)
    requires relay.Valid() && output.Length == BUFFER_SIZE && op.transaction <= 0xFF
    requires 0 < |request| <= DATA_CAPACITY && op.selector < 0x80
    modifies relay`nextToken, relay`nextIndex, relay`tokenExhausted, relay`indexExhausted, relay`issued, output
    ensures relay.Valid() && relay.SameProgress()
    ensures r == if old(relay.statusConfirmed && !relay.tokenExhausted && !relay.indexExhausted) then KOk else KRelay
    ensures r == KOk ==> relay.issued == old(relay.issued) + [p] && Carried(output[..], p, op, request)
    ensures r != KOk ==> unchanged(relay) && unchanged(output)
  {
    var built;
    built, p := relay.BuildKeystoreRequest(request, op.selector, op.transaction, output);
    r := if built == Ok then KOk else KRelay;
    if built == Ok {
      assert relay.issued[|relay.issued| - 1] == p;
    }
  }

  /** Builds a request and hands it to the relay. Once it is built only the relay can refuse it, and a reader of
      the transfer gets the request with its identity. */
  method BuildAndWrap(keystore: State, relay: Relay.State, a: Arguments, timestamp: nat, output: array<byte>)
    returns (built: Status, r: Status, op: Operation, p: Pending, request: array<byte>)
    requires keystore.Valid() && relay.Valid() && WellTyped(a) && timestamp <= MAX_U64 && output.Length == BUFFER_SIZE
    modifies keystore, output
    modifies relay`nextToken, relay`nextIndex, relay`tokenExhausted, relay`indexExhausted, relay`issued
    ensures keystore.Valid() && relay.Valid() && fresh(request)
    ensures built == KOk <==> CheckArguments(a) == KOk && old(keystore.Admits(timestamp))
    ensures built == KOk ==>
              r == if old(relay.statusConfirmed && !relay.tokenExhausted && !relay.indexExhausted) then KOk else KRelay
    ensures built == KOk ==> IsBuilt(request[..], a, old(keystore.clientContext), timestamp)
    ensures built == KOk && r == KOk ==> Carried(output[..], p, op, request[..])
    ensures built != KOk ==> r == built && unchanged(keystore) && unchanged(relay) && unchanged(output)
  {
    p := Pending(RelayWire.Keystore, 0, 0, 0, 0, 0);
    built, request, op := BuildChecked(keystore, a, timestamp);
    r := built;
    if built == KOk {
      r, p := WrapBuilt(relay, op, request[..], output);
    }
  }

  method BuildChecked(keystore: State, a: Arguments, timestamp: nat)
    returns (r: Status, request: array<byte>, op: Operation)
    requires keystore.Valid() && WellTyped(a) && timestamp <= MAX_U64
    modifies keystore
    ensures keystore.Valid() && fresh(request)
    ensures r == KOk <==> CheckArguments(a) == KOk && old(keystore.Admits(timestamp))
    ensures r == KOk ==> Belongs(request[..], op)
    ensures r == KOk ==> IsBuilt(request[..], a, old(keystore.clientContext), timestamp)
    ensures r == KState ==> old(keystore.hasTimestamp) && timestamp <= old(keystore.lastTimestamp)
    ensures r != KOk ==> unchanged(keystore)
  {
    if CheckArguments(a) == KOk {
      BodyFits(a, keystore.clientContext);
    }
    r, request, op := keystore.Build(a, timestamp, DATA_CAPACITY);
  }

  /** A request stamped after the last one is never refused as stale. */
  method BuildLater(keystore: State, a: Arguments, timestamp: nat)
    returns (r: Status, request: array<byte>, op: Operation)
    requires keystore.Valid() && WellTyped(a) && keystore.lastTimestamp < timestamp <= MAX_U64
    modifies keystore
    ensures keystore.Valid() && fresh(request) && r != KState
  {
    r, request, op := BuildChecked(keystore, a, timestamp);
  }

  method WrapBuilt(relay: Relay.State, op: Operation, request: seq<byte>, output: array<byte>)
    returns (r: Status, p: Pending)
    requires relay.Valid() && output.Length == BUFFER_SIZE && Belongs(request, op)
    modifies relay`nextToken, relay`nextIndex, relay`tokenExhausted, relay`indexExhausted, relay`issued, output
    ensures relay.Valid()
    ensures r == if old(relay.statusConfirmed && !relay.tokenExhausted && !relay.indexExhausted) then KOk else KRelay
    ensures r == KOk ==> Carried(output[..], p, op, request)
  {
    var wrapped, pending, _ := WrapRequest(relay, op, request, output);
    r, p := wrapped, pending;
  }

  /** `WrapRequest` for a caller that only needs the transfer. */
  method Wrap(relay: Relay.State, op: Operation, request: seq<byte>, output: array<byte>)
    returns (r: Status, p: Pending)
    requires relay.Valid() && output.Length == BUFFER_SIZE && op.transaction <= 0xFF
    modifies relay`nextToken, relay`nextIndex, relay`tokenExhausted, relay`indexExhausted, relay`issued, output
    ensures relay.Valid() && relay.SameProgress()
    ensures r == KOk ==> relay.issued == old(relay.issued) + [p] && Carried(output[..], p, op, request)
    ensures r != KOk ==> unchanged(relay) && unchanged(output)
  {
    var status, pending, _ := WrapRequest(relay, op, request, output);
    r, p := status, pending;
  }

  datatype ReplyKind = NoReply | ValueReply | ValueAndFlags | StatePair | OpaqueReply

  datatype Reply = Reply(
    kind: ReplyKind, opaque_: seq<byte>, first: nat, second: nat, value: nat, inner: nat, outer: byte)

  const NO_REPLY := Reply(NoReply, [], 0, 0, 0, 0, 0)

  function ParseOpaque(output: seq<byte>, exact: nat): (Status, Reply) {
    if |output| < 4 then (KLength, NO_REPLY)
    else
      var n := Load(output, 0, 4);
      if n > |output| - 4 || (exact != 0 && n != exact) then (KLength, NO_REPLY)
      else (KOk, NO_REPLY.(kind := OpaqueReply, opaque_ := output[4..4 + n]))
  }

  function ParseTyped(kind: Kind, output: seq<byte>): (Status, Reply) {
    match kind
    case CreateKind => ParseValue(output)
    case LoadKind => ParseValue(output)
    case SerializeKind => ParseOpaque(output, 0)
    case DeviceStateKind => ParseOpaque(output, 0)
    case GetConfigurationKind => ParseOpaque(output, 0)
    case CopyUuidKind => ParseOpaque(output, 16)
    case LockStateKind =>
      if |output| != 12 then (KLength, NO_REPLY)
      else (KOk, NO_REPLY.(kind := ValueAndFlags, value := Load(output, 0, 4), first := Load(output, 4, 8)))
    case UnlockKind => ParsePair(output)
    case SetConfigurationKind => ParsePair(output)
    case CapabilitiesKind => (KOk, NO_REPLY.(kind := OpaqueReply, opaque_ := output))
    case MakeSystemKind => (KOk, NO_REPLY)
    case VerifySecretKind => (KOk, NO_REPLY)
    case SetEnvironmentKind => (KOk, NO_REPLY)
  }

  function ParseValue(output: seq<byte>): (Status, Reply) {
    if |output| != 4 then (KLength, NO_REPLY) else (KOk, NO_REPLY.(kind := ValueReply, value := Load(output, 0, 4)))
  }

  function ParsePair(output: seq<byte>): (Status, Reply) {
    if |output| != 16 then (KLength, NO_REPLY)
    else (KOk, NO_REPLY.(kind := StatePair, first := Load(output, 0, 8), second := Load(output, 8, 8)))
  }

  /** What a matching reply says: a remote error, or the output of the operation. */
  function ParseReply(m: Message, p: Pending, op: Operation): (r: (Status, Reply))
    requires WellFormed(m)
    ensures r.0 in {KOk, KRemoteError} ==> Matches(m, p) == Matched && p.transaction == op.transaction
    ensures r.0 == KOk ==> r.1.outer == 0 && r.1.inner == 0 && |r.1.opaque_| <= m.dataLength
    ensures r.0 == KRemoteError ==> r.1.outer != 0 || r.1.inner != 0
  {
    if op.selector != Selector(op.kind) || p.kind != RelayWire.Keystore || p.selector != op.selector then
      (KSelector, NO_REPLY)
    else if p.transaction != op.transaction then (KTransaction, NO_REPLY)
    else if Matches(m, p) != Matched then (KRelay, NO_REPLY)
    else
      var outer, declared := m.At(11), Load(m.bytes, MESSAGE_OFFSET + 14, 2);
      if declared > m.dataLength then (KLength, NO_REPLY.(outer := outer))
      else if outer != 0 then (KRemoteError, NO_REPLY.(outer := outer))
      else if declared < 8 then (KLength, NO_REPLY)
      else
        var header := Load(m.bytes, 0, 4);
        if header > declared - 8 then (KHeader, NO_REPLY)
        else
          var inner := Load(m.bytes, 4 + header, 4);
          if inner != 0 then (KRemoteError, NO_REPLY.(inner := inner))
          else ParseTyped(op.kind, m.bytes[8 + header..declared])
  }
}
