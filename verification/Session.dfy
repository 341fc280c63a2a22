/** A session with the enclave: negotiated once, poisoned by the first thing that goes wrong. */
module Session {
  import opened Bytes
  import opened RelayWire
  import Relay
  import Keystore
  import Acm
  import opened UrbKernel
  import UrbTransport

  const MAX_TIMEOUT_MS: nat := 60000
  const MAX_UINT: nat := 0xFFFF_FFFF

  datatype Status =
    | SOk | SRemoteError | SIdle | SArgument | SState | SClock | STransport | STimeout | SProtocol | SSkipLimit
    | SPoisoned | STeardown

  datatype Phase = New | Ready | Poisoned | Closed

  /** What a transfer sends, or what it is there to receive: part of a reply wait, or a notification. */
  datatype Payload =
    | Nothing
    | Notification
    | GetVersion(identity: Pending)
    | EndpointStatus(identity: Pending, endpoints: seq<byte>)
    | Enable(identity: Pending, endpoint: nat)
    | EndpointReady(identity: Pending, endpoint: nat)
    | SealedRequest(identity: Pending, selector: byte, transaction: byte, data: seq<byte>)
    | AcmCommand(identity: Pending, command: Acm.Command, context: seq<byte>)

  /** A transfer that was started: with which timeout, at which clock reading, to meet which deadline. */
  datatype Transfer = Transfer(direction: Direction, timeout: nat, at: nat, deadline: nat, payload: Payload)

  /** The bytes that stand for a payload. */
  ghost predicate Represents(s: seq<byte>, payload: Payload) {
    match payload
    case Nothing => false
    case Notification => false
    case GetVersion(p) => IsRequest(s, p, [1], [])
    case EndpointStatus(p, endpoints) => IsRequest(s, p, [6, ENDPOINT_COUNT] + endpoints, [])
    case Enable(p, endpoint) => IsRequest(s, p, [2] + LE(endpoint, 4) + LE(1, 4), [])
    case EndpointReady(p, endpoint) => IsRequest(s, p, [4] + LE(endpoint, 4) + LE(1, 4), [])
    case SealedRequest(p, selector, transaction, data) =>
      IsRequest(s, p, Relay.KeystoreBody(selector, transaction, |data|), data)
    case AcmCommand(p, command, context) =>
      && |context| == Acm.EXTERNAL_FORM_SIZE && Acm.CheckArguments(command) == Acm.AOk
      && var data := Acm.CommandBytes(command, context);
         IsRequest(s, p, Relay.AcmBody(Acm.RELAY_REQUEST, |data|), data)
  }

  /** The same, folded up: only `Fold` looks into it. */
  ghost predicate Stands(s: seq<byte>, payload: Payload, depth: nat)
    decreases |s|, depth
  {
    if depth == 0 then Represents(s, payload) else Stands(s, payload, depth - 1)
  }

  const FOLDED: nat := 4

  lemma Fold(s: seq<byte>, payload: Payload)
    requires Represents(s, payload)
    ensures Stands(s, payload, FOLDED)
  {
    assert Stands(s, payload, 1) == Stands(s, payload, 0);
    assert Stands(s, payload, 2) == Stands(s, payload, 1);
  }

  /** The clock was looked at once, and showed `deadline` or more, or could not be read. */
  ghost predicate IsLate(before: seq<Reading>, after: seq<Reading>, deadline: nat, requests: nat, call: nat) {
    && |after| == |before| + 1 && before < after
    && after[|before|].requests == requests && after[|before|].call == call
    && (after[|before|].ok ==> after[|before|].value >= deadline)
  }

  /** The deadline of a call that begins now: the whole timeout, or the time until a limit. */
  ghost function DueFrom(now: nat, timeoutMs: nat, limited: bool, limit: nat): nat {
    if limited && limit < now + timeoutMs then limit else now + timeoutMs
  }

  /** The clock was looked at twice, in two calls from `call` on: at first there was time, and then there was none. */
  ghost predicate IsOverdue(
    before: seq<Reading>, after: seq<Reading>, now: nat, timeoutMs: nat, limited: bool, limit: nat, requests: nat,
    call: nat)
  {
    && before < after
    && var began := after[|before|];
       && began == Reading(true, began.value, requests, call) && began.value >= now
       && (limited ==> began.value < limit)
       && IsLate(before + [began], after, DueFrom(began.value, timeoutMs, limited, limit), requests, call + 1)
  }

  lemma OverdueFrom(
    before: seq<Reading>, began: Reading, after: seq<Reading>, now: nat, timeoutMs: nat, limited: bool, limit: nat,
    requests: nat, call: nat)
    requires began == Reading(true, began.value, requests, call) && began.value >= now
    requires limited ==> began.value < limit
    requires IsLate(before + [began], after, DueFrom(began.value, timeoutMs, limited, limit), requests, call + 1)
    ensures IsOverdue(before, after, now, timeoutMs, limited, limit, requests, call)
  {
    assert (before + [began])[|before|] == began;
  }

  /** What the kernel has on record for a transfer. */
  ghost predicate IsRecord(r: Request, t: Transfer) {
    && r.direction == t.direction && r.timeout == t.timeout && r.at == t.at
    && if t.direction == In then t.payload in {Nothing, Notification} else Stands(r.data, t.payload, FOLDED)
  }

  ghost predicate AreRecords(requests: seq<Request>, base: nat, log: seq<Transfer>) {
    && |requests| == base + |log|
    && forall i :: 0 <= i < |log| ==> IsRecord(requests[base + i], log[i])
  }

  /** The transfers that make a session ready. */
  ghost predicate IsOpening(log: seq<Transfer>, n: nat) {
    && n + 5 <= |log|
    && log[n].direction == Both && log[n].payload.GetVersion?
    && log[n + 1].direction == Both && log[n + 1].payload.EndpointStatus?
    && Enables(log[n + 2], ACM_ENDPOINT) && Enables(log[n + 3], 2) && Enables(log[n + 4], KEYSTORE_ENDPOINT)
  }

  ghost predicate Enables(t: Transfer, endpoint: nat) {
    t.direction == Out && t.payload.Enable? && t.payload.endpoint == endpoint
  }

  /** A receive outside of any call, which only its own timeout bounds. */
  ghost function Drain(at: nat, timeoutMs: nat): Transfer {
    Transfer(In, timeoutMs, at, at + timeoutMs, Notification)
  }

  /** A transfer that cannot outlast its deadline. */
  ghost predicate Bounded(t: Transfer) {
    0 < t.timeout <= MAX_TIMEOUT_MS && t.at + t.timeout <= t.deadline
  }

  /** The transfers of `log` from `from` on are bounded by `deadline`. */
  ghost predicate AllBounded(log: seq<Transfer>, from: nat, deadline: nat) {
    && from <= |log|
    && forall i :: from <= i < |log| ==> Bounded(log[i]) && log[i].deadline == deadline
  }

  /** One exchange and then only receives, four at most. */
  ghost predicate IsWait(log: seq<Transfer>, from: nat, payload: Payload) {
    && from <= |log| <= from + SKIP_LIMIT
    && forall i :: from <= i < |log| ==>
         if i == from then log[i].direction == Both && log[i].payload == payload
         else log[i].direction == In && log[i].payload == Nothing
  }

  /** The transfers of one call: `limit` at most, all bounded by the same deadline. */
  ghost predicate IsCall(before: seq<Transfer>, after: seq<Transfer>, limit: nat, deadline: nat) {
    |before| <= |after| <= |before| + limit && after[..|before|] == before && AllBounded(after, |before|, deadline)
  }

  /** A wait for a reply, and at most one more transfer, which acknowledges it. */
  ghost predicate IsCommand(log: seq<Transfer>, from: nat, payload: Payload) {
    || IsWait(log, from, payload)
    || (from + 1 < |log| && IsWait(log[..|log| - 1], from, payload) && payload.AcmCommand?
        && log[|log| - 1].direction == Out && Acknowledges(log[|log| - 1], payload.identity))
  }

  /** An acknowledgement carries the index of the command it completes, marked. */
  ghost predicate Acknowledges(t: Transfer, completed: Pending) {
    && t.payload.EndpointReady? && t.payload.endpoint == ACM_ENDPOINT
    && t.payload.identity.index == completed.index + 0x8000_0000
  }

  lemma CommandStep(start: seq<Transfer>, before: seq<Transfer>, after: seq<Transfer>, deadline: nat, payload: Payload)
    requires IsCall(start, before, SKIP_LIMIT, deadline) && IsWait(before, |start|, payload) && payload.AcmCommand?
    requires |before| > |start|
    requires after == before || (
               && |after| == |before| + 1 && after[..|before|] == before && Bounded(after[|before|])
               && after[|before|].deadline == deadline && after[|before|].direction == Out
               && Acknowledges(after[|before|], payload.identity))
    ensures IsCall(start, after, SKIP_LIMIT + 1, deadline) && IsCommand(after, |start|, payload)
    ensures after[|start|] == before[|start|]
  {
    forall i | 0 <= i < |before|
      ensures after[i] == before[i]
    {
      assert after[..|before|][i] == before[i];
    }
    assert after[..|start|] == before[..|start|];
  }

  /** Whether a payload has an identity. */
  ghost predicate IsNamed(payload: Payload) { payload !in {Nothing, Notification} }

  ghost predicate IsBelow(t: Transfer, token: nat) { IsNamed(t.payload) ==> t.payload.identity.token < token }

  ghost predicate AllBelow(log: seq<Transfer>, n: nat, token: nat)
    requires n <= |log|
  {
    forall i {:trigger IsBelow(log[i], token)} :: 0 <= i < n ==> IsBelow(log[i], token)
  }

  ghost predicate IsFreshAt(log: seq<Transfer>, j: nat)
    requires j < |log|
  {
    IsNamed(log[j].payload) ==> AllBelow(log, j, log[j].payload.identity.token)
  }

  /** No identity goes out twice: tokens rise from transfer to transfer. */
  ghost predicate FreshLog(log: seq<Transfer>) {
    forall j :: 0 <= j < |log| ==> IsFreshAt(log, j)
  }

  /** The token that was given out last. */
  ghost function Top(issued: seq<Pending>): nat { if issued == [] then 0 else issued[|issued| - 1].token }

  /** What went out had been given out before. */
  ghost predicate IsKnown(log: seq<Transfer>, issued: seq<Pending>, depth: nat)
    decreases |log|, depth
  {
    if depth > 0 then IsKnown(log, issued, depth - 1) else AllBelow(log, |log|, Top(issued) + 1)
  }

  /** A payload whose identity was given out last, and did not go out yet. */
  ghost predicate IsNewest(log: seq<Transfer>, issued: seq<Pending>, payload: Payload, depth: nat)
    decreases |log|, depth
  {
    if depth > 0 then IsNewest(log, issued, payload, depth - 1)
    else IsNamed(payload) ==> AllBelow(log, |log|, payload.identity.token) && payload.identity.token == Top(issued)
  }

  lemma NewestMeans(log: seq<Transfer>, issued: seq<Pending>, payload: Payload)
    ensures IsKnown(log, issued, FOLDED) <==> AllBelow(log, |log|, Top(issued) + 1)
    ensures IsNewest(log, issued, payload, FOLDED) <==>
            (IsNamed(payload) ==> AllBelow(log, |log|, payload.identity.token) && payload.identity.token == Top(issued))
  {
    assert IsKnown(log, issued, 3) == IsKnown(log, issued, 4);
    assert IsKnown(log, issued, 2) == IsKnown(log, issued, 3);
    assert IsKnown(log, issued, 1) == IsKnown(log, issued, 2);
    assert IsKnown(log, issued, 0) == IsKnown(log, issued, 1);
    assert IsNewest(log, issued, payload, 3) == IsNewest(log, issued, payload, 4);
    assert IsNewest(log, issued, payload, 2) == IsNewest(log, issued, payload, 3);
    assert IsNewest(log, issued, payload, 1) == IsNewest(log, issued, payload, 2);
    assert IsNewest(log, issued, payload, 0) == IsNewest(log, issued, payload, 1);
  }

  lemma FreshStep(log: seq<Transfer>, t: Transfer, issued: seq<Pending>)
    requires FreshLog(log) && IsKnown(log, issued, FOLDED) && IsNewest(log, issued, t.payload, FOLDED)
    ensures FreshLog(log + [t]) && IsKnown(log + [t], issued, FOLDED)
  {
    var all := log + [t];
    NewestMeans(log, issued, t.payload);
    NewestMeans(all, issued, t.payload);
    forall j | 0 <= j < |all|
      ensures IsFreshAt(all, j)
    {
      if IsNamed(all[j].payload) {
        var token := all[j].payload.identity.token;
        assert j < |log| ==> IsFreshAt(log, j);
        forall i | 0 <= i < j
          ensures IsBelow(all[i], token)
        {
          assert IsBelow(log[i], token);
        }
      }
    }
    forall i | 0 <= i < |all|
      ensures IsBelow(all[i], Top(issued) + 1)
    {
      assert i < |log| ==> IsBelow(log[i], Top(issued) + 1);
    }
  }

  /** An identity that was just given out. */
  lemma FreshIssue(log: seq<Transfer>, issued: seq<Pending>, all: seq<Pending>, payload: Payload)
    requires IsKnown(log, issued, FOLDED) && IsNamed(payload) && all == issued + [payload.identity] && Relay.Fresh(all)
    ensures IsKnown(log, all, FOLDED) && IsNewest(log, all, payload, FOLDED)
  {
    NewestMeans(log, issued, payload);
    NewestMeans(log, all, payload);
    var p := payload.identity;
    assert all[|issued|] == p && 0 < p.token;
    assert issued != [] ==> all[|issued| - 1].token < all[|issued|].token;
    forall i | 0 <= i < |log|
      ensures IsBelow(log[i], p.token) && IsBelow(log[i], p.token + 1)
    {
      assert IsBelow(log[i], Top(issued) + 1);
    }
  }

  /** A command that went out. */
  datatype Issue = Issue(identity: Pending, operation: Acm.Operation)

  /** The access-control commands among the first `n` transfers. */
  ghost function Commands(log: seq<Transfer>, n: nat): seq<Issue>
    requires n <= |log|
  {
    if n == 0 then [] else Commands(log, n - 1) + CommandIn(log[n - 1].payload)
  }

  ghost function CommandIn(payload: Payload): seq<Issue> {
    if payload.AcmCommand? then [Issue(payload.identity, Acm.OperationOf(payload.command))] else []
  }

  lemma {:induction false} CommandsSame(a: seq<Transfer>, b: seq<Transfer>, n: nat)
    requires n <= |a| && n <= |b| && a[..n] == b[..n]
    ensures Commands(a, n) == Commands(b, n)
  {
    if n > 0 {
      assert a[..n][..n - 1] == a[..n - 1] && b[..n][..n - 1] == b[..n - 1];
      assert a[..n][n - 1] == b[..n][n - 1];
      CommandsSame(a, b, n - 1);
    }
  }

  /** Transfers without a command add none. */
  lemma {:induction false} CommandsQuiet(log: seq<Transfer>, m: nat, n: nat)
    requires m <= n <= |log| && forall i :: m <= i < n ==> !log[i].payload.AcmCommand?
    ensures Commands(log, n) == Commands(log, m)
  {
    if n > m {
      CommandsQuiet(log, m, n - 1);
    }
  }

  /** The transfers of a command add this command. */
  lemma CommandsOne(before: seq<Transfer>, after: seq<Transfer>, payload: Payload)
    requires |before| < |after| && after[..|before|] == before && IsCommand(after, |before|, payload)
    requires payload.AcmCommand?
    ensures Commands(after, |after|) == Commands(before, |before|) + CommandIn(payload)
  {
    var m := |before|;
    CommandComesFirst(after, m, payload);
    CommandsSame(before, after, m);
    CommandsQuiet(after, m + 1, |after|);
  }

  lemma CommandComesFirst(log: seq<Transfer>, m: nat, payload: Payload)
    requires m < |log| && IsCommand(log, m, payload) && payload.AcmCommand?
    ensures log[m].payload == payload
    ensures forall i :: m < i < |log| ==> !log[i].payload.AcmCommand?
  {
    if !IsWait(log, m, payload) {
      var wait := log[..|log| - 1];
      forall i | m < i < |log|
        ensures !log[i].payload.AcmCommand?
      {
        if i < |wait| {
          assert wait[i] == log[i] && wait[i].payload == Nothing;
        }
      }
      assert wait[m] == log[m];
    }
  }

  /** Those of a request add none. */
  lemma CommandsNone(before: seq<Transfer>, after: seq<Transfer>, payload: Payload)
    requires |before| <= |after| && after[..|before|] == before && IsWait(after, |before|, payload)
    requires !payload.AcmCommand?
    ensures Commands(after, |after|) == Commands(before, |before|)
  {
    CommandsSame(before, after, |before|);
    CommandsQuiet(after, |before|, |after|);
  }

  class Session {
    const transport: UrbTransport.Transport
    const relay: Relay.State
    const input: array<byte>
    const output: array<byte>
    var phase: Phase
    var operationDeadline: nat
    var deadlineSet: bool
    /** Every transfer of this session, in order; before it the kernel had `base` on record. */
    ghost var log: seq<Transfer>
    ghost var base: nat
    /** Where the transfers that made it ready begin. */
    ghost var opening: nat

    constructor (transport: UrbTransport.Transport)
      ensures this.transport == transport && phase == Closed && !deadlineSet && log == []
      ensures fresh(relay) && fresh(input) && fresh(output) && Shape()
    {
      this.transport := transport;
      relay := new Relay.State();
      input := new byte[BUFFER_SIZE];
      output := new byte[BUFFER_SIZE];
      phase, operationDeadline, deadlineSet, log, base, opening := Closed, 0, false, [], 0, 0;
    }

    ghost predicate Shape() {
      input != output && input.Length == BUFFER_SIZE && output.Length == BUFFER_SIZE
    }

    /** The objects of the session that are not the transport's. */
    ghost predicate Apart() {
      && this !in transport.Parts() && relay !in transport.Parts()
      && input !in transport.Parts() && output !in transport.Parts()
    }

    /** What every transfer may change. */
    ghost function Buffers(): set<object> {
      {input, output} + transport.Parts()
    }

    ghost function Parts(): set<object> {
      {this, relay, input, output} + transport.Parts()
    }

    predicate Zeroed(a: array<byte>)
      reads a
    {
      forall i :: 0 <= i < a.Length ==> a[i] == 0
    }

    /** What holds between calls. The invariant itself is folded up: `Open` and `Shut` look into it. */
    ghost predicate Valid()
      reads this, relay, input, output, transport, transport.kernel, transport.input, transport.output
    {
      Shape() && Apart() && Sound(FOLDED)
    }

    ghost predicate Sound(depth: nat)
      reads this, relay, input, output, transport, transport.kernel, transport.input, transport.output
      decreases input.Length, depth
    {
      if depth == 0 then Invariant() else Sound(depth - 1)
    }

    /** A session that is ready has been negotiated; one that is poisoned holds no data. */
    ghost predicate Invariant()
      reads this, relay, input, output, transport, transport.kernel, transport.input, transport.output
    {
      && transport.Valid() && Recorded() && IsKnown(log, relay.issued, FOLDED)
      && (phase != Closed ==> relay.Valid())
      && (phase == Ready ==> Negotiated() && IsOpening(log, opening))
      && (phase == Poisoned ==> Zeroed(input) && Zeroed(output))
      && (phase == Closed ==> !deadlineSet)
    }

    lemma Open()
      requires Valid()
      ensures Invariant()
    {
      assert Sound(2) == Sound(3);
      assert Sound(1) == Sound(2);
    }

    lemma Shut()
      requires Shape() && Apart() && Invariant()
      ensures Valid()
    {
      assert Sound(1) == Sound(0);
      assert Sound(2) == Sound(1);
    }

    /** The log is the kernel's own record of what the transport was asked for. */
    ghost predicate Recorded()
      reads this, transport.kernel
    {
      AreRecords(transport.kernel.requests, base, log) && FreshLog(log)
    }

    ghost predicate Negotiated()
      reads relay
    {
      && relay.versionConfirmed && relay.statusConfirmed
      && |relay.localEndpoints| == ENDPOINT_COUNT
      && relay.localEndpoints[1] == 1 && relay.localEndpoints[2] == 1 && relay.localEndpoints[3] == 1
    }

    method ClearBuffers()
      requires Shape()
      modifies input, output
      ensures Zeroed(input) && Zeroed(output)
    {
      Clear(output);
      Clear(input);
    }

    method Poison(result: Status) returns (r: Status)
      requires Valid() && phase != Closed
      modifies this`phase, input, output
      ensures Valid() && phase == Poisoned && r == result && Zeroed(input) && Zeroed(output)
    {
      Open();
      ClearBuffers();
      phase := Poisoned;
      Shut();
      r := result;
    }

    method ClearTransfers()
      requires Valid()
      modifies input, output
      ensures Valid() && Zeroed(input) && Zeroed(output)
    {
      Open();
      ClearBuffers();
      Shut();
    }

    /** A look at the clock that was the last call, after the transfers so far. */
    ghost function Look(ok: bool): Reading
      reads this, transport.kernel
    {
      Reading(ok, transport.kernel.clock, base + |log|, transport.kernel.calls)
    }

    /** Looks at the clock. */
    method ReadClock() returns (ok: bool, now: nat)
      requires Valid()
      modifies transport.kernel`calls, transport.kernel`clock, transport.kernel`readings
      ensures Valid() && transport.kernel.Later() && (ok ==> now == transport.kernel.clock)
      ensures transport.kernel.readings == old(transport.kernel.readings) + [Look(ok)]
      ensures transport.kernel.calls == old(transport.kernel.calls) + 1
    {
      Open();
      var result;
      result, now := transport.kernel.MonotonicMs();
      ok := result.OpOk?;
      Shut();
    }

    method Init(firstToken: nat, firstIndex: nat) returns (r: Status)
      requires Shape() && Apart() && transport.Valid() && firstToken <= MAX_U64 && firstIndex <= MAX_U32
      modifies this, relay, input, output
      ensures r == if firstToken == 0 then SArgument else SOk
      ensures r == SOk ==> Valid() && phase == New && !deadlineSet && log == [] && relay.issued == []
      ensures r == SOk ==> base == |transport.kernel.requests|
    {
      if firstToken == 0 {
        return SArgument;
      }
      Begin(firstToken, firstIndex);
      NewestMeans(log, relay.issued, Nothing);
      Shut();
      r := SOk;
    }

    method Begin(firstToken: nat, firstIndex: nat)
      requires Shape() && Apart() && transport.Valid() && 0 < firstToken <= MAX_U64 && firstIndex <= MAX_U32
      modifies this, relay, input, output
      ensures transport.Valid() && relay.Valid() && phase == New && !deadlineSet && log == [] && relay.issued == []
      ensures base == |transport.kernel.requests|
    {
      ClearBuffers();
      phase, operationDeadline, deadlineSet := New, 0, false;
      log, base, opening := [], |transport.kernel.requests|, 0;
      var _ := relay.Init(firstToken, firstIndex);
    }

    /** The deadline of a call that begins now: the whole timeout, or the time until the operation's deadline. */
    ghost function Due(now: nat, timeoutMs: nat): nat
      reads this
    {
      DueFrom(now, timeoutMs, deadlineSet, operationDeadline)
    }

    /** One look at the clock found that it was too late, or failed. */
    twostate predicate Late(deadline: nat)
      reads this, transport.kernel
    {
      IsLate(old(transport.kernel.readings), transport.kernel.readings, deadline, base + |log|,
             old(transport.kernel.calls) + 1)
    }

    /** A call began in time, and when it was to send something it was too late, or the clock could not be read. */
    twostate predicate Lapsed(timeoutMs: nat)
      reads this, transport.kernel
    {
      IsOverdue(old(transport.kernel.readings), transport.kernel.readings, old(transport.kernel.clock), timeoutMs,
                deadlineSet, operationDeadline, base + |log|, old(transport.kernel.calls) + 1)
    }

    /** The deadline of one call: its own timeout, or the operation's deadline when that is earlier. */
    method BeginDeadline(timeoutMs: nat) returns (r: Status, deadline: nat)
      requires Valid()
      modifies this`phase, input, output, transport.kernel`calls, transport.kernel`clock, transport.kernel`readings
      ensures Valid() && r !in {SRemoteError, SIdle}
      ensures r == SOk ==> phase == old(phase) && phase in {New, Ready} && 0 < timeoutMs <= MAX_TIMEOUT_MS
      ensures transport.kernel.Later()
      ensures r == SOk ==> transport.kernel.clock < deadline == Due(transport.kernel.clock, timeoutMs)
      ensures r == SOk ==> transport.kernel.readings == old(transport.kernel.readings) + [Look(true)]
      ensures r == SOk ==> transport.kernel.calls == old(transport.kernel.calls) + 1
      ensures r != SOk ==> phase == old(phase) || phase == Poisoned
    {
      deadline := 0;
      if timeoutMs == 0 || timeoutMs > MAX_TIMEOUT_MS {
        return SArgument, 0;
      }
      if phase == Poisoned {
        return SPoisoned, 0;
      }
      if phase == Closed {
        return SState, 0;
      }
      var ok, now := ReadClock();
      if ok && now + timeoutMs <= MAX_U64 {
        deadline := now + timeoutMs;
        if deadlineSet {
          if now >= operationDeadline {
            r := Poison(STimeout);
            return;
          }
          if operationDeadline < deadline {
            deadline := operationDeadline;
          }
        }
        r := SOk;
      } else {
        r := Poison(SClock);
      }
    }

    /** Bounds everything that follows; it can only be set when no other bound is. */
    method SetOperationDeadline(deadline: nat) returns (r: Status)
      requires Valid()
      modifies this`phase, this`operationDeadline, this`deadlineSet, input, output
      modifies transport.kernel`calls, transport.kernel`clock, transport.kernel`readings
      ensures Valid()
      ensures transport.kernel.Later()
      ensures r == SOk ==> deadlineSet && !old(deadlineSet) && operationDeadline == deadline && phase == old(phase)
      ensures r != SOk ==> deadlineSet == old(deadlineSet) && operationDeadline == old(operationDeadline)
      ensures phase == old(phase) || phase == Poisoned
      ensures r == SOk ==> phase != Poisoned && phase != Closed
    {
      if deadline == 0 || deadlineSet {
        return SArgument;
      }
      if phase == Poisoned {
        return SPoisoned;
      }
      if phase == Closed {
        return SState;
      }
      var ok, now := ReadClock();
      if !ok {
        r := Poison(SClock);
        return;
      }
      if now >= deadline {
        r := Poison(STimeout);
        return;
      }
      if deadline - now > MAX_UINT {
        return SArgument;
      }
      Open();
      operationDeadline, deadlineSet := deadline, true;
      Shut();
      r := SOk;
    }

    method ReleaseOperationDeadline() returns (r: Status)
      requires Valid()
      modifies this`phase, this`operationDeadline, this`deadlineSet, input, output
      modifies transport.kernel`calls, transport.kernel`clock, transport.kernel`readings
      ensures Valid() && transport.kernel.Later()
      ensures r == SOk ==> !deadlineSet && old(deadlineSet) && phase == old(phase) && phase != Poisoned
      ensures r != SOk ==> deadlineSet == old(deadlineSet) && operationDeadline == old(operationDeadline)
      ensures phase == old(phase) || phase == Poisoned
    {
      if !deadlineSet {
        return SArgument;
      }
      if phase == Poisoned {
        return SPoisoned;
      }
      if phase == Closed {
        return SState;
      }
      var ok, now := ReadClock();
      if !ok {
        r := Poison(SClock);
        return;
      }
      if now >= operationDeadline {
        r := Poison(STimeout);
        return;
      }
      Open();
      operationDeadline, deadlineSet := 0, false;
      Shut();
      r := SOk;
    }

    method RemainingTimeout(deadline: nat) returns (r: Status, remaining: nat)
      requires Valid() && phase in {New, Ready}
      modifies this`phase, input, output, transport.kernel`calls, transport.kernel`clock, transport.kernel`readings
      ensures Valid() && r in {SOk, SClock, STimeout} && transport.kernel.Later()
      ensures r == SOk ==> phase == old(phase) && input[..] == old(input[..]) && output[..] == old(output[..])
      ensures r == SOk ==> 0 < remaining <= MAX_TIMEOUT_MS && transport.kernel.clock + remaining <= deadline
      ensures r != SOk ==> phase == Poisoned && Late(deadline)
    {
      remaining := 0;
      var ok, now := ReadClock();
      if !ok {
        r := Poison(SClock);
        return;
      }
      if now >= deadline {
        r := Poison(STimeout);
        return;
      }
      remaining := if deadline - now > MAX_TIMEOUT_MS then MAX_TIMEOUT_MS else deadline - now;
      r := SOk;
    }

    method TransportFailure(status: UrbTransport.Status) returns (r: Status)
      requires Valid() && phase != Closed && status != UrbTransport.Ok
      modifies this`phase, input, output
      ensures Valid() && phase == Poisoned && r in {STimeout, STransport}
    {
      r := Poison(if status == UrbTransport.TimedOut then STimeout else STransport);
    }

    /** The clock does not go back, and without a transfer nothing passes between us and the kernel. */
    twostate predicate Steady()
      reads this, transport, transport.kernel, transport.input, transport.output
    {
      && transport.SameAllocation() && transport.kernel.Later()
      && (log == old(log) ==> transport.kernel.trace == old(transport.kernel.trace))
      && (|log| > |old(log)| ==> log[|old(log)|].at >= old(transport.kernel.clock))
    }

    /** What a bounded transfer leaves behind: one more entry in the log, or a poisoned session. */
    twostate predicate Transferred(direction: Direction, deadline: nat, new payload: Payload, r: Status)
      reads this, input, transport.kernel
    {
      && (log == old(log) || Logged(direction, deadline))
      && (r == SOk ==> phase == old(phase) && Logged(direction, deadline))
      && (r != SOk ==> phase == Poisoned && r in {SClock, STimeout, STransport})
      && (|log| > |old(log)| ==> log[|old(log)|].payload == payload)
      && (r == SOk && direction != Out ==> HoldsReceived())
      && (log == old(log) ==> Late(deadline))
    }

    twostate predicate Logged(direction: Direction, deadline: nat)
      reads this
    {
      && |log| == |old(log)| + 1 && log[..|old(log)|] == old(log)
      && Bounded(log[|old(log)|]) && log[|old(log)|].direction == direction
      && log[|old(log)|].deadline == deadline
    }

    /** Hands the buffers to the transport; what was to be sent is cleared afterwards. */
    method Carry(direction: Direction, timeout: nat) returns (status: UrbTransport.Status)
      requires Shape() && Apart() && transport.Valid()
      modifies Buffers()
      ensures transport.Valid() && transport.SameAllocation()
      ensures transport.Asked(direction, timeout, if direction == In then [] else old(output[..]))
      ensures status != UrbTransport.Ok ==> input[..] == old(input[..])
      ensures status == UrbTransport.Ok && direction != Out ==> HoldsReceived()
      ensures direction != In ==> Zeroed(output)
    {
      match direction
      case Both =>
        status := transport.Exchange(output, BUFFER_SIZE, input, BUFFER_SIZE, timeout);
        Clear(output);
      case Out =>
        status := transport.SendOnly(output, BUFFER_SIZE, timeout);
        Clear(output);
      case In =>
        status := transport.ReceiveOnly(input, BUFFER_SIZE, timeout);
    }

    /** The input buffer holds what the kernel handed over last. */
    ghost predicate HoldsReceived()
      reads input, transport.kernel
    {
      input[..] == Received(transport.kernel.trace, transport.input.urb)
    }

    /** One transfer, entered in the log; the payload is what the output buffer stands for. */
    method Perform(direction: Direction, timeout: nat, ghost deadline: nat, ghost payload: Payload)
      returns (status: UrbTransport.Status)
      requires Valid() && phase in {New, Ready}
      requires if direction == In then payload in {Nothing, Notification} else Stands(output[..], payload, FOLDED)
      requires IsNewest(log, relay.issued, payload, FOLDED)
      modifies Buffers(), this`log
      ensures Valid() && Steady()
      ensures log == old(log) + [Transfer(direction, timeout, old(transport.kernel.clock), deadline, payload)]
      ensures status == UrbTransport.Ok && direction != Out ==> HoldsReceived()
    {
      Open();
      ghost var t := Transfer(direction, timeout, transport.kernel.clock, deadline, payload);
      status := Carry(direction, timeout);
      FreshStep(log, t, relay.issued);
      log := log + [t];
      Shut();
    }

    /** One transfer within what is left until the deadline. */
    method RunTransfer(direction: Direction, deadline: nat, ghost payload: Payload) returns (r: Status)
      requires Valid() && phase in {New, Ready}
      requires if direction == In then payload == Nothing else Represents(output[..], payload)
      requires IsNewest(log, relay.issued, payload, FOLDED)
      modifies Buffers(), this`phase, this`log
      ensures Valid() && Transferred(direction, deadline, payload, r) && Steady()
    {
      if direction != In {
        Fold(output[..], payload);
      }
      r := TransferWithin(direction, deadline, payload);
    }

    method TransferWithin(direction: Direction, deadline: nat, ghost payload: Payload) returns (r: Status)
      requires Valid() && phase in {New, Ready}
      requires if direction == In then payload == Nothing else Stands(output[..], payload, FOLDED)
      requires IsNewest(log, relay.issued, payload, FOLDED)
      modifies Buffers(), this`phase, this`log
      ensures Valid() && Transferred(direction, deadline, payload, r) && Steady()
    {
      var remaining;
      r, remaining := RemainingTimeout(deadline);
      if r != SOk {
        return;
      }
      var status := Perform(direction, remaining, deadline, payload);
      if status != UrbTransport.Ok {
        r := TransportFailure(status);
      }
    }

    /** Takes the reply to a control request; anything unexpected poisons the session. */
    method ParseControlReply(pending: Pending, endpointStatus: bool) returns (r: Status)
      requires Valid() && phase == New
      modifies this`phase, relay, input, output
      ensures Valid() && r in {SOk, SProtocol}
      ensures r == SOk ==> phase == New && log == old(log)
      ensures r == SOk ==> relay.versionConfirmed == (old(relay.versionConfirmed) || !endpointStatus)
      ensures r == SOk ==> relay.statusConfirmed == (old(relay.statusConfirmed) || endpointStatus)
      ensures r == SOk ==> relay.localEndpoints == old(relay.localEndpoints)
      ensures r != SOk ==> phase == Poisoned
    {
      var parsed := Parse(input[..]);
      if parsed.result != Ok {
        r := Poison(SProtocol);
        return;
      }
      Open();
      var accepted;
      if endpointStatus {
        accepted := relay.AcceptEndpointStatus(parsed.message, pending);
      } else {
        accepted := relay.AcceptVersion(parsed.message, pending);
      }
      Shut();
      if accepted != Ok {
        r := Poison(SProtocol);
        return;
      }
      r := SOk;
    }

    /** What the steps of the negotiation have in common. */
    twostate predicate Step(deadline: nat, r: Status, new direction: Direction)
      reads this, relay, input, output, transport, transport.kernel, transport.input, transport.output
    {
      && Valid()
      && (r == SOk ==> phase == New && Logged(direction, deadline))
      && (r != SOk ==> phase == Poisoned && (log == old(log) || Logged(direction, deadline)))
    }

    static ghost function ControlPayload(endpointStatus: bool, p: Pending, endpoints: seq<byte>): Payload {
      if endpointStatus then EndpointStatus(p, endpoints) else GetVersion(p)
    }

    /** Asks the relay for a control request. */
    method BuildControl(endpointStatus: bool) returns (built: bool, pending: Pending)
      requires Valid() && phase == New
      modifies relay, output
      ensures Valid() && relay.SameProgress() && relay.localEndpoints == old(relay.localEndpoints)
      ensures built && endpointStatus ==> relay.versionConfirmed
      ensures built ==> Represents(output[..], ControlPayload(endpointStatus, pending, relay.localEndpoints))
      ensures built ==>
                IsNewest(log, relay.issued, ControlPayload(endpointStatus, pending, relay.localEndpoints), FOLDED)
    {
      Open();
      var result;
      if endpointStatus {
        result, pending := relay.BuildEndpointStatus(output);
      } else {
        result, pending := relay.BuildGetVersion(output);
      }
      if result == Ok {
        FreshIssue(log, old(relay.issued), relay.issued,
                   ControlPayload(endpointStatus, pending, relay.localEndpoints));
      }
      Shut();
      built := result == Ok;
    }

    /** Sends a control request and receives something in return. */
    method AskControl(endpointStatus: bool, deadline: nat) returns (r: Status, pending: Pending)
      requires Valid() && phase == New
      modifies relay, Buffers(), this`phase, this`log
      ensures Step(deadline, r, Both) && Steady()
      ensures r == SOk ==> relay.SameProgress() && relay.localEndpoints == old(relay.localEndpoints)
      ensures r == SOk && endpointStatus ==> relay.versionConfirmed
      ensures r == SOk && endpointStatus ==> log[|old(log)|].payload.EndpointStatus?
      ensures r == SOk && !endpointStatus ==> log[|old(log)|].payload.GetVersion?
    {
      var built;
      built, pending := BuildControl(endpointStatus);
      if !built {
        r := Poison(SProtocol);
        return;
      }
      r := RunTransfer(Both, deadline, ControlPayload(endpointStatus, pending, relay.localEndpoints));
    }

    method ConfirmVersion(deadline: nat) returns (r: Status)
      requires Valid() && phase == New
      modifies relay, Buffers(), this`phase, this`log
      ensures Step(deadline, r, Both) && Steady()
      ensures r == SOk ==> relay.versionConfirmed && relay.statusConfirmed == old(relay.statusConfirmed)
      ensures r == SOk ==> relay.localEndpoints == old(relay.localEndpoints) && log[|old(log)|].payload.GetVersion?
    {
      var pending;
      r, pending := AskControl(false, deadline);
      if r == SOk {
        r := ParseControlReply(pending, false);
      }
    }

    method ConfirmEndpointStatus(deadline: nat) returns (r: Status)
      requires Valid() && phase == New
      modifies relay, Buffers(), this`phase, this`log
      ensures Step(deadline, r, Both) && Steady()
      ensures r == SOk ==> relay.versionConfirmed && relay.statusConfirmed
      ensures r == SOk ==> log[|old(log)|].payload.EndpointStatus?
    {
      var pending;
      r, pending := AskControl(true, deadline);
      if r == SOk {
        r := ParseControlReply(pending, true);
      }
    }

    method EnableEndpoint(endpoint: nat, deadline: nat) returns (r: Status)
      requires Valid() && phase == New && endpoint < ENDPOINT_COUNT
      modifies relay, Buffers(), this`phase, this`log
      ensures Step(deadline, r, Out) && Steady()
      ensures r == SOk ==> old(|relay.localEndpoints|) == ENDPOINT_COUNT
      ensures r == SOk ==> relay.localEndpoints == old(relay.localEndpoints)[endpoint := 1]
      ensures r == SOk ==> relay.SameProgress() && Enables(log[|old(log)|], endpoint)
    {
      var built, pending := BuildEnable(endpoint);
      if !built {
        r := Poison(SProtocol);
        return;
      }
      r := RunTransfer(Out, deadline, Enable(pending, endpoint));
    }

    method BuildEnable(endpoint: nat) returns (built: bool, pending: Pending)
      requires Valid() && phase == New && endpoint < ENDPOINT_COUNT
      modifies relay, output
      ensures Valid()
      ensures built ==> old(|relay.localEndpoints|) == ENDPOINT_COUNT && relay.SameProgress()
      ensures built ==> relay.localEndpoints == old(relay.localEndpoints)[endpoint := 1]
      ensures built ==> Represents(output[..], Enable(pending, endpoint))
      ensures built ==> IsNewest(log, relay.issued, Enable(pending, endpoint), FOLDED)
    {
      Open();
      var result;
      result, pending := relay.BuildEndpointEnable(endpoint, 1, output);
      if result == Ok {
        FreshIssue(log, old(relay.issued), relay.issued, Enable(pending, endpoint));
      }
      Shut();
      built := result == Ok;
    }

    /** A deadline that respects the timeout of the call, counted from its first transfer at the latest, and the
        operation's deadline. */
    twostate predicate InTime(deadline: nat, timeoutMs: nat)
      reads this
    {
      && (|log| > |old(log)| ==> deadline <= log[|old(log)|].at + timeoutMs)
      && (old(deadlineSet) ==> deadline <= old(operationDeadline))
    }

    /** Enables the three security endpoints in order. */
    method EnableEndpoints(deadline: nat) returns (r: Status)
      requires Valid() && phase == New && relay.versionConfirmed && relay.statusConfirmed
      modifies relay, Buffers(), this`phase, this`log
      ensures Valid() && IsCall(old(log), log, 3, deadline) && Steady()
      ensures r == SOk ==> phase == New && Negotiated() && |log| == |old(log)| + 3
      ensures r == SOk ==>
                var n := |old(log)|;
                Enables(log[n], ACM_ENDPOINT) && Enables(log[n + 1], 2) && Enables(log[n + 2], KEYSTORE_ENDPOINT)
      ensures r != SOk ==> phase == Poisoned
    {
      r := EnableEndpoint(ACM_ENDPOINT, deadline);
      if r != SOk {
        return;
      }
      r := EnableEndpoint(2, deadline);
      if r != SOk {
        return;
      }
      r := EnableEndpoint(KEYSTORE_ENDPOINT, deadline);
    }

    /** The steps of the negotiation, in order. */
    method NegotiateBy(deadline: nat) returns (r: Status)
      requires Valid() && phase == New
      modifies relay, Buffers(), this`phase, this`log
      ensures Valid() && IsCall(old(log), log, 5, deadline) && Steady()
      ensures r == SOk ==> phase == New && Negotiated() && IsOpening(log, |old(log)|)
      ensures r != SOk ==> phase == Poisoned
    {
      r := ConfirmVersion(deadline);
      if r != SOk {
        return;
      }
      r := ConfirmEndpointStatus(deadline);
      if r != SOk {
        return;
      }
      r := EnableEndpoints(deadline);
    }

    /** The only way to a ready session: version, endpoint status, then endpoints 1, 2 and 3. */
    method Negotiate(timeoutMs: nat) returns (r: Status, ghost deadline: nat)
      requires Valid()
      modifies relay, Buffers(), this`phase, this`log, this`opening
      ensures Valid() && IsCall(old(log), log, 5, deadline) && Steady()
      ensures |log| > |old(log)| ==> old(phase) == New && InTime(deadline, timeoutMs)
      ensures r == SOk <==> old(phase) == New && phase == Ready
      ensures r == SOk ==> IsOpening(log, |old(log)|)
      ensures old(phase) != New ==> unchanged(transport.kernel)
      ensures r != SOk ==> phase == old(phase) || phase == Poisoned
    {
      deadline := 0;
      if phase != New {
        return if phase == Poisoned then SPoisoned else SState, 0;
      }
      var limit;
      r, limit := BeginDeadline(timeoutMs);
      deadline := limit;
      if r != SOk {
        return;
      }
      r := NegotiateBy(limit);
      if r == SOk {
        MakeReady(|old(log)|);
      }
    }

    method MakeReady(ghost start: nat)
      requires Valid() && phase == New && Negotiated() && IsOpening(log, start)
      modifies input, this`phase, this`opening
      ensures Valid() && phase == Ready
    {
      Open();
      Clear(input);
      phase, opening := Ready, start;
      Shut();
    }

    /** What the kernel handed over last is this message, and it answers the request. */
    ghost predicate IsAnswer(m: Message, p: Pending)
      reads input, transport.kernel
    {
      HoldsReceived() && Parse(input[..]) == Parsed(Ok, m) && Matches(m, p) == Matched
    }

    /** Looks at what was received: the reply, something to pass over, or a reason to give up. */
    method Consume(waiter: Relay.Waiter) returns (r: Status, done: bool, m: Message)
      requires Valid() && phase == Ready && waiter !in Parts() && HoldsReceived()
      modifies this`phase, input, output, waiter
      ensures Valid() && (phase == if r == SOk then Ready else Poisoned)
      ensures done && r == SOk ==> IsAnswer(m, waiter.pending)
      ensures !done ==> r == SOk && waiter.skipped == old(waiter.skipped) + 1 < waiter.skipLimit
      ensures r in {SOk, SSkipLimit, SProtocol}
    {
      var consumed, _, message := waiter.Consume(input[..]);
      r, done, m := SOk, consumed != Skipped, message;
      if consumed !in {Matched, Skipped} {
        r := Poison(if consumed == ErrorSkipLimit then SSkipLimit else SProtocol);
      }
    }

    /** Receives once more. */
    method ReceiveNext(waiter: Relay.Waiter, deadline: nat) returns (r: Status, done: bool, m: Message)
      requires Valid() && phase == Ready && waiter !in Parts()
      modifies Buffers(), this`phase, this`log, waiter
      ensures Valid() && Steady() && (phase == if r == SOk then Ready else Poisoned)
      ensures log == old(log) || (Logged(In, deadline) && log[|old(log)|].payload == Nothing)
      ensures r == SOk ==> |log| > |old(log)|
      ensures !done ==> r == SOk && waiter.skipped == old(waiter.skipped) + 1 < waiter.skipLimit
      ensures done && r == SOk ==> IsAnswer(m, waiter.pending)
      ensures r !in {SRemoteError, SIdle}
    {
      m, done := NO_MESSAGE, true;
      NewestMeans(log, relay.issued, Nothing);
      r := RunTransfer(In, deadline, Nothing);
      if r == SOk {
        r, done, m := Consume(waiter);
      }
    }

    /** Receives until the reply is there, passing over a few other messages. */
    method ReceiveReply(pending: Pending, deadline: nat, ghost start: seq<Transfer>, ghost payload: Payload)
      returns (r: Status, m: Message)
      requires Valid() && phase == Ready && HoldsReceived()
      requires IsCall(start, log, SKIP_LIMIT, deadline) && IsWait(log, |start|, payload) && |log| == |start| + 1
      modifies Buffers(), this`phase, this`log
      ensures Valid() && IsCall(start, log, SKIP_LIMIT, deadline) && IsWait(log, |start|, payload) && |log| > |start|
      ensures log[|start|] == old(log)[|start|]
      ensures Steady()
      ensures r == SOk ==> phase == Ready && IsAnswer(m, pending)
      ensures r != SOk ==> phase == Poisoned && r !in {SRemoteError, SIdle}
    {
      var waiter := new Relay.Waiter(pending, SKIP_LIMIT);
      var done;
      r, done, m := Consume(waiter);
      while !done
        invariant Valid() && fresh(waiter) && waiter.pending == pending && waiter.skipLimit == SKIP_LIMIT
        invariant IsCall(start, log, SKIP_LIMIT, deadline) && IsWait(log, |start|, payload) && |log| > |start|
        invariant log[|start|] == old(log)[|start|]
        invariant !done ==> r == SOk && waiter.skipped < SKIP_LIMIT && |log| == |start| + waiter.skipped
        invariant done && r == SOk ==> IsAnswer(m, pending)
        invariant (phase == if r == SOk then Ready else Poisoned) && r !in {SRemoteError, SIdle}
        invariant Steady()
        decreases if done then 0 else 1 + SKIP_LIMIT - waiter.skipped
      {
        ghost var before := log;
        r, done, m := ReceiveNext(waiter, deadline);
        if log != before {
          CallStep(start, before, log, deadline, payload);
        }
      }
    }

    /** What a call that needs a ready session starts with. */
    method BeginCall(timeoutMs: nat) returns (r: Status, deadline: nat)
      requires Valid()
      modifies this`phase, input, output, transport.kernel`calls, transport.kernel`clock, transport.kernel`readings
      ensures Valid() && r !in {SRemoteError, SIdle}
      ensures r == SOk ==> old(phase) == phase == Ready && Zeroed(input) && Zeroed(output)
      ensures r == SOk ==> transport.kernel.clock < deadline == Due(transport.kernel.clock, timeoutMs)
      ensures r == SOk ==> transport.kernel.readings == old(transport.kernel.readings) + [Look(true)]
      ensures r == SOk ==> transport.kernel.calls == old(transport.kernel.calls) + 1
      ensures r != SOk ==> phase == old(phase) || (phase == Poisoned && old(phase) == Ready)
      ensures old(phase) != Ready ==> r == if old(phase) == Poisoned then SPoisoned else SState
      ensures old(phase) != Ready ==> unchanged(transport.kernel)
      ensures transport.kernel.Later()
    {
      if phase != Ready {
        return if phase == Poisoned then SPoisoned else SState, 0;
      }
      r, deadline := BeginDeadline(timeoutMs);
      if r == SOk {
        ClearTransfers();
      }
    }

    method WrapRequest(op: Keystore.Operation, request: seq<byte>) returns (wrapped: Keystore.Status, p: Pending)
      requires Valid() && phase == Ready && op.transaction <= 0xFF
      modifies relay, output
      ensures Valid()
      ensures wrapped == Keystore.KOk ==> 0 < p.token && relay.issued == old(relay.issued) + [p]
      ensures wrapped == Keystore.KOk ==> Represents(output[..], SealedRequest(p, op.selector, op.transaction, request))
      ensures wrapped == Keystore.KOk ==>
                IsNewest(log, relay.issued, SealedRequest(p, op.selector, op.transaction, request), FOLDED)
      ensures wrapped != Keystore.KOk ==> relay.issued == old(relay.issued)
    {
      Open();
      wrapped, p := Keystore.Wrap(relay, op, request, output);
      if wrapped == Keystore.KOk {
        FreshIssue(log, old(relay.issued), relay.issued, SealedRequest(p, op.selector, op.transaction, request));
      }
      Shut();
    }

    /** Puts a request into the output buffer. */
    method LoadRequest(op: Keystore.Operation, request: seq<byte>) returns (r: Status, p: Pending)
      requires Valid() && phase == Ready && op.transaction <= 0xFF
      modifies this`phase, relay, input, output
      ensures Valid() && r in {SOk, SArgument, SProtocol}
      ensures phase == if r == SProtocol then Poisoned else Ready
      ensures r == SOk ==> 0 < p.token && Represents(output[..], SealedRequest(p, op.selector, op.transaction, request))
      ensures r == SOk ==> relay.issued == old(relay.issued) + [p]
      ensures r == SOk ==> IsNewest(log, relay.issued, SealedRequest(p, op.selector, op.transaction, request), FOLDED)
      ensures r != SOk ==> relay.issued == old(relay.issued)
    {
      var wrapped;
      wrapped, p := WrapRequest(op, request);
      r := SOk;
      if wrapped == Keystore.KRelay {
        r := Poison(SProtocol);
      } else if wrapped != Keystore.KOk {
        r := SArgument;
      }
    }

    /** A reply was read out of the message that the kernel handed over last. */
    ghost predicate IsReply(reply: Keystore.Reply, p: Pending, op: Keystore.Operation)
      reads transport.kernel
    {
      var parsed := Parse(Received(transport.kernel.trace, transport.input.urb));
      parsed.result == Ok && Keystore.ParseReply(parsed.message, p, op) == (Keystore.KOk, reply)
    }

    /** What an exchange with the keystore leaves behind. */
    twostate predicate Asked(deadline: nat, new payload: Payload, r: Status)
      reads this, relay, input, output, transport, transport.kernel, transport.input, transport.output
    {
      && Valid() && Steady() && phase in {Ready, Poisoned}
      && IsCall(old(log), log, SKIP_LIMIT, deadline) && IsWait(log, |old(log)|, payload)
      && (log != old(log) && r !in {SOk, SRemoteError} ==> phase == Poisoned)
      && (r in {SOk, SRemoteError} ==> log != old(log) && phase == Ready)
      && (r == SRemoteError ==> Zeroed(input) && Zeroed(output))
    }

    /** Builds the request and sends it, receiving something in return. */
    method SendRequest(op: Keystore.Operation, request: seq<byte>, deadline: nat) returns (r: Status, p: Pending)
      requires Valid() && phase == Ready && op.transaction <= 0xFF
      modifies relay, Buffers(), this`phase, this`log
      ensures Valid() && Steady() && r !in {SRemoteError, SIdle}
      ensures log != old(log) ==> Logged(Both, deadline)
      ensures log != old(log) ==>
                log[|old(log)|].payload == SealedRequest(p, op.selector, op.transaction, request)
      ensures r == SOk ==> |log| > |old(log)| && phase == Ready && HoldsReceived()
      ensures r != SOk ==> phase == Poisoned || (phase == Ready && log == old(log))
    {
      r, p := LoadRequest(op, request);
      if r == SOk {
        r := RunTransfer(Both, deadline, SealedRequest(p, op.selector, op.transaction, request));
      }
    }

    method ExchangeRequest(op: Keystore.Operation, request: seq<byte>, deadline: nat)
      returns (r: Status, reply: Keystore.Reply, p: Pending)
      requires Valid() && phase == Ready && op.transaction <= 0xFF
      modifies relay, Buffers(), this`phase, this`log
      ensures Asked(deadline, SealedRequest(p, op.selector, op.transaction, request), r)
      ensures r == SOk ==> IsReply(reply, p, op)
    {
      reply := Keystore.NO_REPLY;
      r, p := SendRequest(op, request, deadline);
      if r != SOk {
        return;
      }
      r, reply := AwaitReply(op, p, deadline, old(log), SealedRequest(p, op.selector, op.transaction, request));
    }

    method AwaitReply(
      op: Keystore.Operation, p: Pending, deadline: nat, ghost start: seq<Transfer>, ghost payload: Payload)
      returns (r: Status, reply: Keystore.Reply)
      requires Valid() && phase == Ready && HoldsReceived()
      requires IsCall(start, log, SKIP_LIMIT, deadline) && IsWait(log, |start|, payload) && |log| == |start| + 1
      modifies Buffers(), this`phase, this`log
      ensures Valid() && Steady()
      ensures IsCall(start, log, SKIP_LIMIT, deadline) && IsWait(log, |start|, payload) && |log| > |start|
      ensures log[|start|] == old(log)[|start|]
      ensures phase == if r in {SOk, SRemoteError} then Ready else Poisoned
      ensures r == SRemoteError ==> Zeroed(input) && Zeroed(output)
      ensures r == SOk ==> IsReply(reply, p, op)
    {
      reply := Keystore.NO_REPLY;
      var message;
      r, message := ReceiveReply(p, deadline, start, payload);
      if r == SOk {
        r, reply := TakeReply(message, p, op);
      }
    }

    /** Sends a sealed request and hands out what the reply says. */
    method KeystoreExchange(op: Keystore.Operation, request: seq<byte>, timeoutMs: nat)
      returns (r: Status, reply: Keystore.Reply, ghost deadline: nat, ghost p: Pending)
      requires Valid() && op.transaction <= 0xFF
      modifies relay, Buffers(), this`phase, this`log
      ensures Valid() && Steady() && phase in {old(phase), Poisoned}
      ensures IsCall(old(log), log, SKIP_LIMIT, deadline)
      ensures IsWait(log, |old(log)|, SealedRequest(p, op.selector, op.transaction, request))
      ensures log != old(log) ==> old(phase) == Ready && InTime(deadline, timeoutMs)
      ensures old(phase) != Ready ==> unchanged(transport.kernel)
      ensures log != old(log) && r !in {SOk, SRemoteError} ==> phase == Poisoned
      ensures r in {SOk, SRemoteError} ==> log != old(log) && phase == Ready
      ensures r == SRemoteError ==> Zeroed(input) && Zeroed(output)
      ensures r == SOk ==> IsReply(reply, p, op)
    {
      reply, deadline, p := Keystore.NO_REPLY, 0, Acm.NOTHING;
      if |request| != op.length {
        r := SArgument;
        return;
      }
      var limit, pending;
      r, limit := BeginCall(timeoutMs);
      deadline := limit;
      if r != SOk {
        return;
      }
      r, reply, pending := ExchangeRequest(op, request, limit);
      p := pending;
    }

    /** Only a remote error leaves the session usable without a reply. */
    method TakeReply(m: Message, p: Pending, op: Keystore.Operation) returns (r: Status, reply: Keystore.Reply)
      requires Valid() && phase == Ready && IsAnswer(m, p)
      modifies this`phase, input, output
      ensures Valid() && r in {SOk, SRemoteError, SProtocol}
      ensures phase == if r == SProtocol then Poisoned else Ready
      ensures r == SRemoteError ==> Zeroed(input) && Zeroed(output)
      ensures r == SOk ==> IsReply(reply, p, op)
    {
      var parsed := Keystore.ParseReply(m, p, op);
      r, reply := SOk, parsed.1;
      if parsed.0 == Keystore.KRemoteError {
        ClearTransfers();
        r := SRemoteError;
      } else if parsed.0 != Keystore.KOk {
        r := Poison(SProtocol);
      }
    }

    /** A command that can be built: it is its turn, its arguments are in order, and there are identities left. */
    ghost predicate CanBuild(acm: Acm.State, command: Acm.Command)
      reads acm, relay
    {
      && acm.Admits(command) && Acm.CheckArguments(command) == Acm.AOk
      && !relay.tokenExhausted && !relay.indexExhausted
    }

    method BuildCommand(acm: Acm.State, command: Acm.Command) returns (built: Acm.Status)
      requires Valid() && phase == Ready && acm.Valid() && acm !in Parts()
      modifies relay, output, acm
      ensures Valid() && acm.Valid() && (built == Acm.AOk <==> old(CanBuild(acm, command)))
      ensures built == Acm.AOk ==>
                acm.pendingValid && acm.pendingOperation == Acm.OperationOf(command) && !old(acm.pendingValid)
      ensures built == Acm.AOk ==> acm.phase == old(acm.phase) && acm.context == old(acm.context)
      ensures built == Acm.AOk ==> acm.accepted == old(acm.accepted) && acm.answers == old(acm.answers) && !acm.failed
      ensures built == Acm.AOk ==> Stands(output[..], AcmCommand(acm.pending, command, acm.context), FOLDED)
      ensures built == Acm.AOk ==> IsNewest(log, relay.issued, AcmCommand(acm.pending, command, acm.context), FOLDED)
      ensures built != Acm.AOk ==> unchanged(acm)
    {
      Open();
      built := MakeCommand(acm, command);
      if built == Acm.AOk {
        FreshIssue(log, old(relay.issued), relay.issued, AcmCommand(acm.pending, command, acm.context));
      }
      Shut();
    }

    method MakeCommand(acm: Acm.State, command: Acm.Command) returns (built: Acm.Status)
      requires Shape() && Apart() && relay.Valid() && acm.Valid() && acm !in Parts()
      modifies relay`nextToken, relay`nextIndex, relay`tokenExhausted, relay`indexExhausted, relay`issued, output, acm
      ensures relay.Valid() && acm.Valid() && relay.SameProgress()
      ensures built == Acm.AOk <==> old(CanBuild(acm, command) && relay.statusConfirmed)
      ensures built == Acm.AOk ==>
                acm.pendingValid && acm.pendingOperation == Acm.OperationOf(command) && !old(acm.pendingValid)
      ensures built == Acm.AOk ==> acm.phase == old(acm.phase) && acm.context == old(acm.context)
      ensures built == Acm.AOk ==> acm.accepted == old(acm.accepted) && acm.answers == old(acm.answers) && !acm.failed
      ensures built == Acm.AOk ==> Stands(output[..], AcmCommand(acm.pending, command, acm.context), FOLDED)
      ensures built == Acm.AOk ==> relay.issued == old(relay.issued) + [acm.pending]
      ensures built != Acm.AOk ==> unchanged(acm) && unchanged(relay)
    {
      built := acm.Build(command, relay, output);
      if built == Acm.AOk {
        Fold(output[..], AcmCommand(acm.pending, command, acm.context));
      }
    }

    /** Builds a command; what cannot be built leaves no trace of it. */
    method LoadCommand(acm: Acm.State, command: Acm.Command) returns (r: Status)
      requires Valid() && phase == Ready && acm.Valid() && acm !in Parts()
      modifies this`phase, relay, input, output, acm
      ensures Valid() && acm.Valid() && r in {SOk, SArgument, SState, SProtocol}
      ensures phase == if r == SProtocol then Poisoned else Ready
      ensures r == SOk <==> old(CanBuild(acm, command))
      ensures r == SOk ==>
                acm.pendingValid && acm.pendingOperation == Acm.OperationOf(command) && !old(acm.pendingValid)
      ensures r == SOk ==>
                acm.phase == old(acm.phase) && acm.context == old(acm.context) && acm.accepted == old(acm.accepted)
      ensures r == SOk ==> acm.answers == old(acm.answers) && !acm.failed
      ensures r == SOk ==> Stands(output[..], AcmCommand(acm.pending, command, acm.context), FOLDED)
      ensures r == SOk ==> IsNewest(log, relay.issued, AcmCommand(acm.pending, command, acm.context), FOLDED)
      ensures r != SOk ==> unchanged(acm)
    {
      var built := BuildCommand(acm, command);
      r := SOk;
      if built == Acm.ARelay {
        r := Poison(SProtocol);
      } else if built != Acm.AOk {
        ClearTransfers();
        r := if built == Acm.AArgument then SArgument else SState;
      }
    }

    /** A command was answered, or its outcome is lost. */
    twostate predicate Answered(acm: Acm.State, identity: Pending, operation: Acm.Operation, r: Status)
      reads acm
    {
      if r in {SOk, SRemoteError}
      then acm.answers == old(acm.answers) + [Acm.Answer(identity, operation, r == SOk)] && !acm.failed
      else acm.answers == old(acm.answers) && acm.failed
    }

    /** Takes the reply to the pending command; whatever happens, nothing is pending afterwards. */
    method AcceptReply(acm: Acm.State, m: Message) returns (r: Status, outcome: Acm.Outcome)
      requires Valid() && phase == Ready && acm.Valid() && acm !in Parts() && acm.pendingValid
      requires IsAnswer(m, acm.pending)
      modifies this`phase, input, output, acm
      ensures Valid() && acm.Valid() && !acm.pendingValid && r in {SOk, SRemoteError, SProtocol}
      ensures r == SOk ==> acm.phase == Acm.State.NextPhase(old(acm.pendingOperation), old(acm.phase))
      ensures r == SOk ==> acm.accepted == old(acm.accepted) + [old(acm.pendingOperation)]
      ensures r == SRemoteError ==> acm.phase == old(acm.phase) && acm.context == old(acm.context)
      ensures r == SRemoteError ==> acm.accepted == old(acm.accepted) && acm.failed == old(acm.failed)
      ensures r == SProtocol ==> acm.IsFailed()
      ensures Answered(acm, old(acm.pending), old(acm.pendingOperation), r)
      ensures phase == if r == SProtocol then Poisoned else Ready
    {
      var accepted;
      accepted, outcome := acm.AcceptReply(m);
      if accepted !in {Acm.AOk, Acm.ARemote} {
        r := Poison(SProtocol);
        return;
      }
      r := if accepted == Acm.AOk then SOk else SRemoteError;
    }

    /** Builds the command and sends it, receiving something in return. */
    method SendCommand(acm: Acm.State, command: Acm.Command, deadline: nat) returns (r: Status, ghost payload: Payload)
      requires Valid() && phase == Ready && acm.Valid() && acm !in Parts()
      modifies relay, Buffers(), this`phase, this`log, acm
      ensures Valid() && acm.Valid() && Steady() && r !in {SRemoteError, SIdle}
      ensures log == old(log) || (Logged(Both, deadline) && log[|old(log)|].payload == payload)
      ensures payload.AcmCommand? && payload.command == command && payload.context == old(acm.context)
      ensures r == SOk ==> |log| > |old(log)| && phase == Ready && !old(acm.pendingValid) && HoldsReceived()
      ensures r == SOk ==>
                acm.pendingValid && acm.pending == payload.identity && acm.pendingOperation == Acm.OperationOf(command)
      ensures r == SOk ==>
                acm.phase == old(acm.phase) && acm.context == old(acm.context) && acm.accepted == old(acm.accepted)
      ensures r == SOk ==> acm.answers == old(acm.answers) && !acm.failed
      ensures r != SOk ==>
                || (unchanged(acm) && log == old(log) && phase in {Ready, Poisoned})
                || (acm.IsFailed() && acm.failed && acm.answers == old(acm.answers) && phase == Poisoned
                    && !old(acm.pendingValid) && !old(acm.failed) && (log == old(log) ==> Late(deadline)))
    {
      r := LoadCommand(acm, command);
      payload := AcmCommand(acm.pending, command, acm.context);
      if r != SOk {
        return;
      }
      r := TransferCommand(acm, deadline, payload);
    }

    /** Sends a command; when that fails its outcome is not known. */
    method TransferCommand(acm: Acm.State, deadline: nat, ghost payload: Payload) returns (r: Status)
      requires Valid() && phase == Ready && acm.Valid() && acm !in Parts() && acm.pendingValid
      requires Stands(output[..], payload, FOLDED) && IsNewest(log, relay.issued, payload, FOLDED)
      modifies Buffers(), this`phase, this`log, acm
      ensures Valid() && acm.Valid() && Steady() && Transferred(Both, deadline, payload, r)
      ensures if r == SOk then unchanged(acm) else acm.IsFailed() && acm.failed && acm.answers == old(acm.answers)
      ensures acm.accepted == old(acm.accepted)
    {
      r := TransferWithin(Both, deadline, payload);
      if r != SOk {
        var _ := acm.MarkAmbiguous();
      }
    }

    /** What `SendCommand` does when the time is up before the command is sent: it counts as lost, and nothing went
        out. */
    method SendLate(acm: Acm.State, command: Acm.Command, deadline: nat) returns (r: Status)
      requires Valid() && phase == Ready && acm.Valid() && acm !in Parts() && CanBuild(acm, command)
      modifies relay, Buffers(), this`phase, this`log, acm
      ensures Valid() && acm.Valid() && phase == Poisoned && transport.SameAllocation()
      ensures r != SOk && log == old(log) && Late(deadline)
      ensures acm.failed && acm.answers == old(acm.answers) && acm.accepted == old(acm.accepted)
    {
      r := LoadCommand(acm, command);
      WaitUntil(deadline);
      r := TransferCommand(acm, deadline, AcmCommand(acm.pending, command, acm.context));
    }

    /** Time passes. */
    method WaitUntil(t: nat)
      requires Valid()
      modifies transport.kernel`clock
      ensures Valid() && transport.kernel.clock >= old(transport.kernel.clock) && transport.kernel.clock >= t
    {
      Open();
      transport.kernel.Pass(t);
      Shut();
    }

    /** Takes the reply to the command that was sent; without one its outcome is not known. */
    method AwaitOutcome(acm: Acm.State, deadline: nat, ghost start: seq<Transfer>, ghost payload: Payload)
      returns (r: Status, outcome: Acm.Outcome)
      requires Valid() && phase == Ready && acm.Valid() && acm !in Parts() && acm.pendingValid && HoldsReceived()
      requires IsCall(start, log, SKIP_LIMIT, deadline) && IsWait(log, |start|, payload) && |log| == |start| + 1
      modifies Buffers(), this`phase, this`log, acm
      ensures Valid() && acm.Valid() && Steady() && !acm.pendingValid
      ensures IsCall(start, log, SKIP_LIMIT, deadline) && IsWait(log, |start|, payload) && |log| > |start|
      ensures log[|start|] == old(log)[|start|]
      ensures r == SOk ==> acm.phase == Acm.State.NextPhase(old(acm.pendingOperation), old(acm.phase))
      ensures r == SOk ==> acm.accepted == old(acm.accepted) + [old(acm.pendingOperation)]
      ensures r == SRemoteError ==> acm.phase == old(acm.phase) && acm.context == old(acm.context)
      ensures r == SRemoteError ==> acm.accepted == old(acm.accepted) && acm.failed == old(acm.failed)
      ensures r in {SOk, SRemoteError} ==> phase == Ready
      ensures r !in {SOk, SRemoteError} ==> acm.IsFailed() && phase == Poisoned
      ensures Answered(acm, old(acm.pending), old(acm.pendingOperation), r)
    {
      outcome := Acm.NO_OUTCOME;
      var message;
      r, message := AwaitMessage(acm, deadline, start, payload);
      if r == SOk {
        r, outcome := AcceptReply(acm, message);
      }
    }

    method AwaitMessage(acm: Acm.State, deadline: nat, ghost start: seq<Transfer>, ghost payload: Payload)
      returns (r: Status, m: Message)
      requires Valid() && phase == Ready && acm.Valid() && acm !in Parts() && acm.pendingValid && HoldsReceived()
      requires IsCall(start, log, SKIP_LIMIT, deadline) && IsWait(log, |start|, payload) && |log| == |start| + 1
      modifies Buffers(), this`phase, this`log, acm
      ensures Valid() && acm.Valid() && Steady()
      ensures IsCall(start, log, SKIP_LIMIT, deadline) && IsWait(log, |start|, payload) && |log| > |start|
      ensures log[|start|] == old(log)[|start|]
      ensures r == SOk ==> phase == Ready && unchanged(acm) && IsAnswer(m, acm.pending)
      ensures r != SOk ==> phase == Poisoned && acm.IsFailed() && r !in {SRemoteError, SIdle}
      ensures r != SOk ==> Answered(acm, old(acm.pending), old(acm.pendingOperation), r)
    {
      r, m := ReceiveReply(acm.pending, deadline, start, payload);
      if r != SOk {
        var _ := acm.MarkAmbiguous();
      }
    }

    /** Tells the other side that a command is dealt with. */
    method Acknowledge(completed: Pending, deadline: nat) returns (r: Status)
      requires Valid() && phase == Ready && InRange(completed)
      modifies relay, Buffers(), this`phase, this`log
      ensures Valid() && Steady() && (phase == if r == SOk then Ready else Poisoned)
      ensures r !in {SRemoteError, SIdle}
      ensures log == old(log) || (Logged(Out, deadline) && Acknowledges(log[|old(log)|], completed))
      ensures r == SOk ==> |log| > |old(log)|
    {
      var built, ready := BuildReady(completed);
      if !built {
        r := Poison(SProtocol);
        return;
      }
      r := RunTransfer(Out, deadline, EndpointReady(ready, ACM_ENDPOINT));
    }

    method BuildReady(completed: Pending) returns (built: bool, ready: Pending)
      requires Valid() && phase == Ready && InRange(completed)
      modifies relay, output
      ensures Valid() && (built ==> ready.index == completed.index + 0x8000_0000)
      ensures built ==> Represents(output[..], EndpointReady(ready, ACM_ENDPOINT))
      ensures built ==> IsNewest(log, relay.issued, EndpointReady(ready, ACM_ENDPOINT), FOLDED)
    {
      Open();
      var result;
      result, ready := relay.BuildEndpointReady(ACM_ENDPOINT, completed, output);
      if result == Ok {
        FreshIssue(log, old(relay.issued), relay.issued, EndpointReady(ready, ACM_ENDPOINT));
      }
      Shut();
      built := result == Ok;
    }

    /** Acknowledges a command that was carried out or refused. */
    method Complete(completed: Pending, accepted: Status, deadline: nat) returns (r: Status)
      requires Valid() && phase == Ready && InRange(completed) && accepted in {SOk, SRemoteError}
      modifies relay, Buffers(), this`phase, this`log
      ensures Valid() && Steady() && (phase == if r in {SOk, SRemoteError} then Ready else Poisoned)
      ensures log == old(log) || (Logged(Out, deadline) && Acknowledges(log[|old(log)|], completed))
      ensures r in {SOk, SRemoteError} ==> r == accepted && |log| > |old(log)| && Zeroed(input)
    {
      r := Acknowledge(completed, deadline);
      if r != SOk {
        return;
      }
      Open();
      Clear(input);
      Shut();
      r := accepted;
    }

    /** A command that was sent is answered, or its outcome is lost. */
    twostate predicate Ended(acm: Acm.State, new identity: Pending, operation: Acm.Operation)
      reads acm
    {
      || (acm.answers == old(acm.answers) && acm.failed)
      || (exists success :: acm.answers == old(acm.answers) + [Acm.Answer(identity, operation, success)] && !acm.failed)
    }

    /** Takes the reply to the command that was sent, and acknowledges it. */
    method FinishCommand(acm: Acm.State, deadline: nat, ghost start: seq<Transfer>, ghost payload: Payload)
      returns (r: Status, outcome: Acm.Outcome)
      requires Valid() && phase == Ready && acm.Valid() && acm !in Parts() && acm.pendingValid
      requires payload.AcmCommand? && payload.identity == acm.pending && HoldsReceived()
      requires IsCall(start, log, SKIP_LIMIT, deadline) && IsWait(log, |start|, payload) && |log| == |start| + 1
      modifies relay, Buffers(), this`phase, this`log, acm
      ensures Valid() && acm.Valid() && Steady() && !acm.pendingValid
      ensures IsCall(start, log, SKIP_LIMIT + 1, deadline) && IsCommand(log, |start|, payload) && |log| > |start|
      ensures log[|start|] == old(log)[|start|]
      ensures r == SOk ==> acm.phase == Acm.State.NextPhase(old(acm.pendingOperation), old(acm.phase))
      ensures r == SOk ==> acm.accepted == old(acm.accepted) + [old(acm.pendingOperation)]
      ensures r == SRemoteError ==> acm.phase == old(acm.phase) && acm.context == old(acm.context)
      ensures r == SRemoteError ==> acm.accepted == old(acm.accepted) && acm.failed == old(acm.failed)
      ensures phase == if r in {SOk, SRemoteError} then Ready else Poisoned
      ensures Ended(acm, old(acm.pending), old(acm.pendingOperation)) && (r in {SOk, SRemoteError} ==> !acm.failed)
    {
      var completed := acm.pending;
      var accepted;
      accepted, outcome := AwaitOutcome(acm, deadline, start, payload);
      r := accepted;
      ghost var waited := log;
      if accepted in {SOk, SRemoteError} {
        r := Complete(completed, accepted, deadline);
      }
      CommandStep(start, waited, log, deadline, payload);
    }

    method ExchangeCommand(
      acm: Acm.State, command: Acm.Command, deadline: nat, ghost before: seq<Reading>, ghost now: nat,
      ghost timeoutMs: nat)
      returns (r: Status, outcome: Acm.Outcome, ghost payload: Payload)
      requires Valid() && phase == Ready && acm.Valid() && acm !in Parts()
      requires transport.kernel.readings == before + [Look(true)] && now <= transport.kernel.clock < deadline
      requires deadline == Due(transport.kernel.clock, timeoutMs)
      modifies relay, Buffers(), this`phase, this`log, acm
      ensures Valid() && acm.Valid() && Steady() && phase in {Ready, Poisoned}
      ensures acm.pendingValid == old(acm.pendingValid)
      ensures IsCall(old(log), log, SKIP_LIMIT + 1, deadline) && IsCommand(log, |old(log)|, payload)
      ensures payload.AcmCommand? && payload.command == command && payload.context == old(acm.context)
      ensures r !in {SOk, SRemoteError} ==> phase == Poisoned || (unchanged(acm) && log == old(log))
      ensures r == SOk ==> phase == Ready && acm.phase == Acm.State.NextPhase(Acm.OperationOf(command), old(acm.phase))
      ensures r == SOk ==> acm.accepted == old(acm.accepted) + [Acm.OperationOf(command)] && |log| > |old(log)|
      ensures r == SRemoteError ==> phase == Ready && acm.phase == old(acm.phase) && acm.context == old(acm.context)
      ensures log != old(log) ==>
                !old(acm.failed) && payload.AcmCommand? && Ended(acm, payload.identity, Acm.OperationOf(command))
      ensures old(acm.failed) ==> acm.failed
      ensures log == old(log) ==> acm.answers == old(acm.answers)
      ensures log == old(log) && acm.failed && !old(acm.failed) ==>
                IsOverdue(before, transport.kernel.readings, now, timeoutMs, deadlineSet, operationDeadline,
                          base + |log|, old(transport.kernel.calls))
      ensures acm.failed ==> old(acm.failed) || phase == Poisoned
      ensures r == SRemoteError ==> acm.accepted == old(acm.accepted) && acm.failed == old(acm.failed)
    {
      outcome := Acm.NO_OUTCOME;
      ghost var sent;
      ghost var began := Look(true);
      r, sent := SendCommand(acm, command, deadline);
      payload := sent;
      if log == old(log) && acm.failed && !old(acm.failed) {
        OverdueFrom(before, began, transport.kernel.readings, now, timeoutMs, deadlineSet, operationDeadline,
                    base + |log|, began.call);
      }
      if r == SOk {
        r, outcome := FinishCommand(acm, deadline, old(log), sent);
      }
    }

    /** Carries out one access-control command. A command that was built never stays pending, and if it does
        not come to an end the session is poisoned. */
    method AcmExchange(acm: Acm.State, command: Acm.Command, timeoutMs: nat)
      returns (r: Status, outcome: Acm.Outcome, ghost deadline: nat, ghost payload: Payload)
      requires Valid() && acm.Valid() && acm !in Parts()
      modifies relay, Buffers(), this`phase, this`log, acm
      ensures Valid() && acm.Valid() && Steady() && phase in {old(phase), Poisoned}
      ensures acm.pendingValid == old(acm.pendingValid)
      ensures IsCall(old(log), log, SKIP_LIMIT + 1, deadline) && IsCommand(log, |old(log)|, payload)
      ensures log != old(log) ==> old(phase) == Ready && InTime(deadline, timeoutMs)
      ensures old(phase) != Ready ==> unchanged(transport.kernel)
      ensures log != old(log) ==>
                payload.AcmCommand? && payload.command == command && payload.context == old(acm.context)
      ensures r !in {SOk, SRemoteError} ==> phase == Poisoned || (unchanged(acm) && log == old(log))
      ensures r == SOk ==> phase == Ready && acm.phase == Acm.State.NextPhase(Acm.OperationOf(command), old(acm.phase))
      ensures r == SOk ==> acm.accepted == old(acm.accepted) + [Acm.OperationOf(command)] && |log| > |old(log)|
      ensures r == SRemoteError ==> phase == Ready && acm.phase == old(acm.phase) && acm.context == old(acm.context)
      ensures log != old(log) ==>
                !old(acm.failed) && payload.AcmCommand? && Ended(acm, payload.identity, Acm.OperationOf(command))
      ensures old(acm.failed) ==> acm.failed
      ensures log == old(log) ==>
                acm.answers == old(acm.answers) && (acm.failed && !old(acm.failed) ==> Lapsed(timeoutMs))
      ensures acm.failed ==> old(acm.failed) || phase == Poisoned
      ensures r == SRemoteError ==> acm.accepted == old(acm.accepted) && acm.failed == old(acm.failed)
    {
      outcome, deadline, payload := Acm.NO_OUTCOME, 0, Nothing;
      var limit;
      r, limit := BeginCall(timeoutMs);
      deadline := limit;
      if r == SOk {
        r, outcome, payload := ExchangeCommand(
          acm, command, limit, old(transport.kernel.readings), old(transport.kernel.clock), timeoutMs);
      }
    }

    /** Waits a moment for a notification; none is not an error. */
    method DrainNotification(timeoutMs: nat) returns (r: Status)
      requires Valid()
      modifies Buffers(), this`phase, this`log
      ensures Valid() && Steady() && phase in {old(phase), Poisoned}
      ensures old(phase) != Ready ==>
                r in {SArgument, SPoisoned, SState} && unchanged(transport.kernel) && log == old(log)
      ensures log == old(log) || log == old(log) + [Drain(old(transport.kernel.clock), timeoutMs)]
      ensures log != old(log) ==> 0 < timeoutMs <= MAX_TIMEOUT_MS
      ensures old(phase) == Ready && r !in {SOk, SIdle, SArgument} ==> phase == Poisoned
      ensures r in {SOk, SIdle} ==> phase == Ready && Zeroed(input) && Zeroed(output)
    {
      if timeoutMs == 0 || timeoutMs > MAX_TIMEOUT_MS {
        return SArgument;
      }
      if phase != Ready {
        return if phase == Poisoned then SPoisoned else SState;
      }
      ClearTransfers();
      NewestMeans(log, relay.issued, Notification);
      var status := Perform(In, timeoutMs, transport.kernel.clock + timeoutMs, Notification);
      if status in {UrbTransport.TimedOut, UrbTransport.Interrupted} {
        ClearTransfers();
        return SIdle;
      }
      if status != UrbTransport.Ok {
        r := TransportFailure(status);
        return;
      }
      r := TakeNotification();
    }

    method TakeNotification() returns (r: Status)
      requires Valid() && phase == Ready
      modifies this`phase, input, output
      ensures Valid() && r in {SOk, SProtocol} && (phase == if r == SOk then Ready else Poisoned)
      ensures Zeroed(input) && Zeroed(output)
      ensures r == SOk <==> var parsed := Parse(old(input[..]));
                parsed.result == Ok && Classify(parsed.message) == KeystoreNotification
    {
      var parsed := Parse(input[..]);
      if parsed.result != Ok || Classify(parsed.message) != KeystoreNotification {
        r := Poison(SProtocol);
        return;
      }
      ClearTransfers();
      r := SOk;
    }

    /** Ends the session; only memory the kernel holds no longer is freed, and it is a success only if the
        kernel took the interface back. */
    method Destroy() returns (r: Status)
      requires Valid()
      modifies relay, Buffers(), this`phase, this`operationDeadline, this`deadlineSet
      ensures Valid() && phase == Closed && r in {SOk, STeardown} && transport.Onward()
      ensures old(phase) == Closed ==> r == SOk && unchanged(transport) && unchanged(transport.kernel)
      ensures old(phase) != Closed ==> Zeroed(input) && Zeroed(output)
      ensures old(phase) != Closed && !transport.Stuck() ==> !transport.input.present && !transport.output.present
      ensures old(phase) != Closed && transport.Stuck() ==> r == STeardown && transport.SameAllocation()
      ensures old(phase != Closed && transport.interfaceClaimed) ==>
                (r == SOk <==> !transport.Stuck() && transport.Ended(true))
    {
      if phase == Closed {
        return SOk;
      }
      var status := EndTransport();
      Close();
      r := if status == UrbTransport.Ok then SOk else STeardown;
    }

    /** Clears the buffers and gives back what the transport has. */
    method EndTransport() returns (status: UrbTransport.Status)
      requires Valid() && phase != Closed
      modifies Buffers()
      ensures Shape() && Apart() && transport.Valid() && Recorded() && transport.Onward()
      ensures Zeroed(input) && Zeroed(output) && IsKnown(log, relay.issued, FOLDED)
      ensures status == UrbTransport.CleanupFailed <==> transport.Stuck()
      ensures if transport.Stuck() then transport.SameAllocation()
              else !transport.input.present && !transport.output.present
      ensures old(transport.interfaceClaimed) ==>
                (status == UrbTransport.Ok <==> !transport.Stuck() && transport.Ended(true))
    {
      Open();
      ClearBuffers();
      status := transport.Destroy();
    }

    method Close()
      requires Shape() && Apart() && transport.Valid() && Recorded() && Zeroed(input) && Zeroed(output)
      requires IsKnown(log, relay.issued, FOLDED)
      modifies relay, this`phase, this`operationDeadline, this`deadlineSet
      ensures Valid() && phase == Closed
    {
      relay.Wipe();
      operationDeadline, deadlineSet := 0, false;
      phase := Closed;
      Shut();
    }
  }

  lemma CallStep(start: seq<Transfer>, before: seq<Transfer>, after: seq<Transfer>, deadline: nat, payload: Payload)
    requires IsCall(start, before, SKIP_LIMIT, deadline) && IsWait(before, |start|, payload)
    requires |before| < |start| + SKIP_LIMIT
    requires |after| == |before| + 1 && after[..|before|] == before && Bounded(after[|before|])
    requires after[|before|].deadline == deadline
    requires after[|before|].direction == if |before| == |start| then Both else In
    requires after[|before|].payload == if |before| == |start| then payload else Nothing
    ensures IsCall(start, after, SKIP_LIMIT, deadline) && IsWait(after, |start|, payload)
    ensures |before| > |start| ==> after[|start|] == before[|start|]
  {
    forall i | 0 <= i < |before|
      ensures after[i] == before[i]
    {
      assert after[..|before|][i] == before[i];
    }
    assert after[..|start|] == before[..|start|];
  }
}
