/** The access-control machine: one context, one command at a time, and no way back from a failure. */
module Acm {
  import opened Bytes
  import opened RelayWire
  import Relay

  const EXTERNAL_FORM_SIZE: nat := 16
  const PASSPHRASE_MAX: nat := 0x80
  const VERIFY_REPLY_CAPACITY: nat := 0x1000
  const RELAY_REQUEST: byte := 1
  const MAGIC: nat := 0x53435244

  datatype Status = AOk | AArgument | AState | ARelay | AReply | ARemote | AAmbiguous

  datatype Phase = New | Ready | Active | Failed

  datatype Operation = NoOperation | Initialize | Create | Delete | Externalize | Contains | Replace | Verify

  datatype Command =
    | InitializeCommand
    | CreateCommand(auditUid: nat)
    | DeleteCommand
    | ExternalizeCommand
    | ContainsCommand(credential: nat, scope: nat)
    | ReplaceCommand(secret: seq<byte>, scope: nat)
    | VerifyCommand(preflight: int, uuid: seq<byte>)

  function OperationOf(c: Command): Operation {
    match c
    case InitializeCommand => Initialize
    case CreateCommand(_) => Create
    case DeleteCommand => Delete
    case ExternalizeCommand => Externalize
    case ContainsCommand(_, _) => Contains
    case ReplaceCommand(_, _) => Replace
    case VerifyCommand(_, _) => Verify
  }

  function CommandHeader(selector: byte, parameter: byte): seq<byte> {
    LE(MAGIC, 4) + [selector, parameter, 0, if selector == 0x0a then 0 else 1]
  }

  /** The characters `TouchIdEnrollment` and the terminating zero. */
  function EnrollmentPolicy(): seq<byte> {
    [0x54, 0x6f, 0x75, 0x63, 0x68, 0x49, 0x64, 0x45, 0x6e, 0x72, 0x6f, 0x6c, 0x6c, 0x6d, 0x65, 0x6e, 0x74, 0x00]
  }

  function Credential(secret: seq<byte>): seq<byte>
    requires |secret| <= PASSPHRASE_MAX
  {
    LE(2, 4) + LE(1, 4) + Zeros(4) + LE(MAX_U32, 4) + Zeros(12) + LE(0x88, 4)
    + LE(0, 4) + LE(|secret|, 4) + secret + Zeros(PASSPHRASE_MAX - |secret|)
  }

  function CommandBytes(c: Command, context: seq<byte>): (s: seq<byte>)
    requires |context| == EXTERNAL_FORM_SIZE && CheckArguments(c) == AOk
    ensures 8 <= |s| <= DATA_CAPACITY
  {
    match c
    case InitializeCommand => CommandHeader(0x0a, 0x28)
    case CreateCommand(auditUid) => CommandHeader(0x01, 0) + LE(auditUid, 4)
    case DeleteCommand => CommandHeader(0x02, 0) + context
    case ExternalizeCommand => CommandHeader(0x13, 0) + context
    case ContainsCommand(credential, scope) => CommandHeader(0x04, 0) + context + LE(credential, 4) + LE(scope, 4)
    case ReplaceCommand(secret, scope) => CommandHeader(0x0f, 0) + context + Credential(secret) + LE(scope, 4)
    case VerifyCommand(preflight, uuid) =>
      CommandHeader(0x03, 0) + context + EnrollmentPolicy() + [preflight] + Zeros(4)
      + (if uuid == [] then LE(0, 4) else LE(1, 4) + LE(2, 4) + LE(16, 4) + uuid)
  }

  function CheckArguments(c: Command): Status {
    match c
    case ContainsCommand(credential, scope) => if credential !in {1, 2} || scope != 0 then AArgument else AOk
    case ReplaceCommand(secret, scope) =>
      if secret == [] || |secret| > PASSPHRASE_MAX || scope != 1 then AArgument else AOk
    case VerifyCommand(preflight, uuid) =>
      if (uuid == [] && preflight == 1) || (|uuid| == 16 && preflight == 0) then AOk else AArgument
    case _ => AOk
  }

  datatype Flag = Absent | Present(value: nat)

  datatype Outcome = Outcome(operation: Operation, remote: nat, boolean: Flag, logLevel: Flag)

  const NO_OUTCOME := Outcome(NoOperation, 0, Absent, Absent)

  const NOTHING := Pending(Control, 0, 0, 0, 0, 0)

  /** A command that was answered: its identity, what it was, and whether the answer was a success. */
  datatype Answer = Answer(identity: Pending, operation: Operation, success: bool)

  /** Those of the first `n` commands that succeeded. */
  ghost function Succeeded(answers: seq<Answer>, n: nat): seq<Operation>
    requires n <= |answers|
  {
    if n == 0 then [] else Succeeded(answers, n - 1) + if answers[n - 1].success then [answers[n - 1].operation] else []
  }

  lemma {:induction false} SucceededSame(answers: seq<Answer>, a: Answer, n: nat)
    requires n <= |answers|
    ensures Succeeded(answers + [a], n) == Succeeded(answers, n)
  {
    if n > 0 {
      SucceededSame(answers, a, n - 1);
    }
  }

  class State {
    var pending: Pending
    var phase: Phase
    var pendingOperation: Operation
    var context: seq<byte>
    var logLevel: nat
    var externalized: bool
    var pendingValid: bool
    /** The commands that were answered, in order, those of them that succeeded, and whether the outcome of one was
        lost. */
    ghost var answers: seq<Answer>
    ghost var accepted: seq<Operation>
    ghost var failed: bool

    constructor ()
      ensures Valid() && phase == New && !pendingValid
    {
      pending, phase, pendingOperation := NOTHING, New, NoOperation;
      context, logLevel, externalized, pendingValid := Zeros(EXTERNAL_FORM_SIZE), 0, false, false;
      answers, accepted, failed := [], [], false;
    }

    /** An identity that the relay gives a command. */
    static ghost predicate IsIdentity(p: Pending) {
      0 < p.token && InRange(p) && p.kind == RelayWire.Acm && p.endpoint == ACM_ENDPOINT
    }

    /** Whether a command may be under way in this phase. */
    ghost predicate Suits(op: Operation)
      reads this
    {
      match op
      case NoOperation => false
      case Initialize => phase == New
      case Create => phase == Ready
      case Delete => phase == Active
      case Externalize => phase == Active && !externalized
      case _ => phase == Active && externalized
    }

    ghost predicate Valid()
      reads this
    {
      && |context| == EXTERNAL_FORM_SIZE
      && (pendingValid <==> pendingOperation != NoOperation)
      && (pendingValid ==> Suits(pendingOperation) && IsIdentity(pending))
      && (phase != Active ==> context == Zeros(EXTERNAL_FORM_SIZE) && !externalized && logLevel == 0)
      && accepted == Succeeded(answers, |answers|)
      && (if phase == Failed then failed else !failed && phase == PhaseAfter(accepted, |accepted|))
    }

    ghost predicate IsFailed()
      reads this
    {
      phase == Failed && !pendingValid && context == Zeros(EXTERNAL_FORM_SIZE)
    }

    method Init()
      modifies this
      ensures Valid() && phase == New && !pendingValid && accepted == [] && answers == [] && !failed
    {
      pending, phase, pendingOperation := NOTHING, New, NoOperation;
      context, logLevel, externalized, pendingValid := Zeros(EXTERNAL_FORM_SIZE), 0, false, false;
      answers, accepted, failed := [], [], false;
    }

    /** The end of the machine when the outcome of a command is lost. */
    method Fail()
      modifies this
      ensures IsFailed() && failed && accepted == old(accepted) && answers == old(answers)
      ensures pendingOperation == NoOperation && !externalized && logLevel == 0
      ensures old(Valid()) ==> Valid()
    {
      Wipe();
      failed := true;
    }

    /** Forgets everything; no command can follow. */
    method Wipe()
      modifies this
      ensures IsFailed() && failed == old(failed) && accepted == old(accepted) && answers == old(answers)
      ensures pendingOperation == NoOperation && !externalized && logLevel == 0
    {
      pending, phase, pendingOperation := NOTHING, Failed, NoOperation;
      context, logLevel, externalized, pendingValid := Zeros(EXTERNAL_FORM_SIZE), 0, false, false;
    }

    method MarkAmbiguous() returns (r: Status)
      requires Valid()
      modifies this
      ensures Valid() && r == if old(pendingValid) then AAmbiguous else AState
      ensures old(pendingValid) ==> IsFailed() && failed && accepted == old(accepted) && answers == old(answers)
      ensures !old(pendingValid) ==> unchanged(this)
    {
      if !pendingValid {
        return AState;
      }
      Fail();
      r := AAmbiguous;
    }

    /** The check on the phase that each builder starts with. */
    predicate Admits(c: Command)
      reads this
    {
      && !pendingValid
      && match c
         case InitializeCommand => phase == New
         case CreateCommand(_) => phase == Ready
         case DeleteCommand => phase == Active
         case ExternalizeCommand => phase == Active && !externalized
         case _ => phase == Active && externalized
    }

    /** Builds a command for the relay, after which it is pending. */
    method Build(c: Command, relay: Relay.State, output: array<byte>) returns (r: Status)
      requires Valid() && relay.Valid() && output.Length == BUFFER_SIZE
      modifies this, relay`nextToken, relay`nextIndex, relay`tokenExhausted, relay`indexExhausted, relay`issued, output
      ensures Valid() && relay.Valid() && relay.SameProgress()
      ensures r == if !old(Admits(c)) then AState
                   else if CheckArguments(c) != AOk then AArgument
                   else if old(relay.statusConfirmed && !relay.tokenExhausted && !relay.indexExhausted) then AOk
                   else ARelay
      ensures r == AOk ==> pendingValid && pendingOperation == OperationOf(c) && phase == old(phase)
      ensures r == AOk ==> context == old(context) && externalized == old(externalized) && logLevel == old(logLevel)
      ensures r == AOk ==> accepted == old(accepted) && answers == old(answers) && failed == old(failed)
      ensures r == AOk ==> relay.issued == old(relay.issued) + [pending] && pending.selector == RELAY_REQUEST
      ensures r == AOk ==>
                var command := CommandBytes(c, context);
                IsRequest(output[..], pending, Relay.AcmBody(RELAY_REQUEST, |command|), command)
      ensures r != AOk ==> unchanged(this) && unchanged(relay) && unchanged(output)
      ensures old(phase) == Failed ==> r != AOk
    {
      if !Admits(c) {
        return AState;
      }
      r := CheckArguments(c);
      if r != AOk {
        return AArgument;
      }
      r := BeginCommand(OperationOf(c), CommandBytes(c, context), relay, output);
    }

    method BeginCommand(op: Operation, command: seq<byte>, relay: Relay.State, output: array<byte>) returns (r: Status)
      requires Valid() && relay.Valid() && output.Length == BUFFER_SIZE && 8 <= |command| <= DATA_CAPACITY
      requires !pendingValid && Suits(op)
      modifies this, relay`nextToken, relay`nextIndex, relay`tokenExhausted, relay`indexExhausted, relay`issued, output
      ensures Valid() && relay.Valid() && relay.SameProgress()
      ensures r == if old(relay.statusConfirmed && !relay.tokenExhausted && !relay.indexExhausted) then AOk else ARelay
      ensures r == AOk ==> pendingValid && pendingOperation == op && phase == old(phase)
      ensures r == AOk ==> context == old(context) && externalized == old(externalized) && logLevel == old(logLevel)
      ensures r == AOk ==> accepted == old(accepted) && answers == old(answers) && failed == old(failed)
      ensures r == AOk ==> relay.issued == old(relay.issued) + [pending] && pending.selector == RELAY_REQUEST
      ensures r == AOk ==> IsRequest(output[..], pending, Relay.AcmBody(RELAY_REQUEST, |command|), command)
      ensures r != AOk ==> unchanged(this) && unchanged(relay) && unchanged(output)
    {
      var built, p := relay.BuildAcmRequest(command, RELAY_REQUEST, output);
      if built != Ok {
        return ARelay;
      }
      pending, pendingOperation, pendingValid := p, op, true;
      r := AOk;
    }

    /** The payload a reply to this operation must have; a truth value comes out of two of them. */
    static function ExpectedPayload(op: Operation, payload: seq<byte>): (Status, Flag) {
      match op
      case NoOperation => (AState, Absent)
      case Create => if |payload| != 17 then (AReply, Absent) else (AOk, Absent)
      case Contains =>
        if |payload| != 4 || Load(payload, 0, 4) > 1 then (AReply, Absent) else (AOk, Present(Load(payload, 0, 4)))
      case Verify =>
        if |payload| < 4 || |payload| > VERIFY_REPLY_CAPACITY || Load(payload, 0, 4) > 1 then (AReply, Absent)
        else (AOk, Present(Load(payload, 0, 4)))
      case _ => if payload == [] then (AOk, Absent) else (AReply, Absent)
    }

    /** Where a phase goes when a command succeeds. */
    static function NextPhase(op: Operation, phase: Phase): Phase {
      match op
      case Initialize => Ready
      case Create => Active
      case Delete => Ready
      case _ => phase
    }

    /** Where the commands that succeeded lead. */
    static function PhaseAfter(ops: seq<Operation>, n: nat): Phase
      requires n <= |ops|
    {
      if n == 0 then New else NextPhase(ops[n - 1], PhaseAfter(ops, n - 1))
    }

    static lemma {:induction false} PhaseAfterSame(a: seq<Operation>, b: seq<Operation>, n: nat)
      requires n <= |a| && n <= |b| && forall i :: 0 <= i < n ==> a[i] == b[i]
      ensures PhaseAfter(a, n) == PhaseAfter(b, n)
    {
      if n > 0 {
        PhaseAfterSame(a, b, n - 1);
      }
    }

    static lemma PhaseAfterOne(ops: seq<Operation>, op: Operation)
      ensures PhaseAfter(ops + [op], |ops| + 1) == NextPhase(op, PhaseAfter(ops, |ops|))
    {
      PhaseAfterSame(ops, ops + [op], |ops|);
    }

    method AcceptSuccess(op: Operation, payload: seq<byte>) returns (level: Flag)
      requires Valid() && pendingValid && pendingOperation == op && ExpectedPayload(op, payload).0 == AOk
      modifies this
      ensures Valid() && !pendingValid && phase == NextPhase(op, old(phase)) && accepted == old(accepted) + [op]
      ensures answers == old(answers) + [Answer(old(pending), op, true)]
      ensures op == Create ==> context == payload[..16] && logLevel == payload[16] && !externalized
      ensures op == Externalize ==> externalized && context == old(context)
      ensures op !in {Create, Delete, Externalize} ==> externalized == old(externalized) && context == old(context)
    {
      level := Absent;
      match op {
        case Initialize => phase := Ready;
        case Create =>
          context, logLevel, externalized, phase := payload[..16], payload[16], false, Active;
          level := Present(logLevel);
        case Delete =>
          context, externalized, logLevel, phase := Zeros(EXTERNAL_FORM_SIZE), false, 0, Ready;
        case Externalize => externalized := true;
        case _ =>
      }
      SucceededSame(answers, Answer(pending, op, true), |answers|);
      answers := answers + [Answer(pending, op, true)];
      ClearPending();
      PhaseAfterOne(accepted, op);
      accepted := accepted + [op];
    }

    method ClearPending()
      modifies this`pending, this`pendingValid, this`pendingOperation
      ensures !pendingValid && pendingOperation == NoOperation
    {
      pending, pendingValid, pendingOperation := NOTHING, false, NoOperation;
    }

    /** Takes the reply to the pending command. A reply that matches always ends the command: it succeeds,
        is refused by the other side, or fails for good. */
    method AcceptReply(m: Message) returns (r: Status, outcome: Outcome)
      requires Valid() && WellFormed(m)
      modifies this
      ensures Valid()
      ensures !old(pendingValid) ==> r == AArgument && unchanged(this)
      ensures old(pendingValid) && Matches(m, old(pending)) != Matched ==> r == ARelay && unchanged(this)
      ensures old(pendingValid) && Matches(m, old(pending)) == Matched ==> !pendingValid && r in {AOk, ARemote, AReply}
      ensures r == AOk ==> phase == NextPhase(old(pendingOperation), old(phase)) && outcome.remote == 0
      ensures r == AOk && old(pendingOperation) == Create ==> context == m.bytes[..16] && !externalized
      ensures r == AOk && old(pendingOperation) == Externalize ==> externalized
      ensures r == ARemote ==> phase == old(phase) && context == old(context) && externalized == old(externalized)
      ensures r == AOk ==> accepted == old(accepted) + [old(pendingOperation)]
      ensures r == ARemote ==> accepted == old(accepted)
      ensures r in {AOk, ARemote} ==> answers == old(answers) + [Answer(old(pending), old(pendingOperation), r == AOk)]
      ensures r == AReply ==> IsFailed() && failed && accepted == old(accepted) && answers == old(answers)
    {
      outcome := NO_OUTCOME;
      if !pendingValid {
        return AArgument, outcome;
      }
      var op := pendingOperation;
      outcome := outcome.(operation := op);
      if Matches(m, pending) != Matched {
        return ARelay, outcome;
      }
      if m.messageLength != ACM_HEADER {
        Fail();
        return AReply, outcome;
      }
      var declared, remote := Load(m.bytes, MESSAGE_OFFSET + 10, 4), Load(m.bytes, MESSAGE_OFFSET + 14, 4);
      outcome := outcome.(remote := remote);
      if declared > m.dataLength {
        Fail();
        return AReply, outcome;
      }
      if remote != 0 {
        SucceededSame(answers, Answer(pending, op, false), |answers|);
        answers := answers + [Answer(pending, op, false)];
        ClearPending();
        return ARemote, outcome;
      }
      var expected := ExpectedPayload(op, m.bytes[..declared]);
      if expected.0 != AOk {
        Fail();
        return expected.0, outcome;
      }
      var level := AcceptSuccess(op, m.bytes[..declared]);
      assert op == Create ==> m.bytes[..declared][..16] == m.bytes[..16];
      r, outcome := AOk, outcome.(boolean := expected.1, logLevel := level);
    }

    /** The context is handed out only while it is usable. */
    method ExportContext() returns (r: Status, form: seq<byte>)
      requires Valid()
      ensures r == AOk <==> phase == Active && !pendingValid && externalized
      ensures form == if r == AOk then context else []
    {
      if phase != Active || pendingValid || !externalized {
        return AState, [];
      }
      r, form := AOk, context;
    }
  }
}
