# T1Bridge: a verified model

T1Bridge drives the T1 chip of some laptops from Linux. This project models the parts of it where most can go wrong,
and proves what they promise, for every input and every run:

- **Property lists** (`Bplist*.dfy`): the codec for binary property lists. The decoder reads an untrusted table of objects
  that refer to each other; the encoder flattens a value into such a table. Both are modelled as the loops and buffers
  they are and proved equal to specifications on values; decoding undoes encoding, an input decodes to a value exactly
  when its table stands for that value, and what the cycle check lets through is characterised in both directions.
- **Hashing** (`Sha256.dfy`): SHA-256 over a context that is fed in pieces, against the definition in FIPS 180-4.
- **Transport** (`UrbKernel.dfy`, `Urb.dfy`): transfers of fixed size over USB requests that the kernel may hold, hand back
  late, or not hand back at all. The kernel is a class that does whatever it does not promise not to do.
- **Relay, keystore and access control** (`Relay.dfy`, `Keystore.dfy`, `Acm.dfy`): identities that are never used twice,
  sealed requests with rising timestamps, and a state machine whose commands always come to an end.
- **Session and operation** (`Session.dfy`, `Operation.dfy`): calls that put these together under deadlines and
  fail into a poisoned state, and the acquisition of lock, device and session with its teardown. What is said about
  transfers is said about the record that the kernel keeps of them.
- **Stored state** (`KeybagStore.dfy`): a file that is written next to its place, synced, and renamed, on a disk that may
  lose what was not synced and in a directory that others write to.
- **Camera driver** (`UvcFrames.dfy`, `UvcControl.dfy`, `UvcChain.dfy`, `UvcClock.dfy`): frames put together by copies that
  are carried out later and in any order; control transactions with rollback, and the account of who waits for which
  control; the scan for chains in a graph of entities that may be cyclic; the ring of clock samples.

`Bytes.dfy` holds what all of them share. Code that changes things in place is a class or a method with loops;
code that only computes is functions and lemmas. Whatever comes from outside (the kernel, the disk, clocks, other
processes) is a method whose result is arbitrary within what its contract says.

Where code and documentation differ the model follows the code:

- A control that was set with success need not hold the value that was set: the transfer may have been short, and
  then the driver zeroes the bytes that were not taken. `UvcControl.StoredIsValue` says exactly when it does, and
  `UvcControl.ShortWriteChangesValue` gives an example; `UvcControl.SurvivesEverySend` says which values are safe.
- The extra unit for general-purpose pins counts as an input terminal, so that the fallback for devices without a
  chain never succeeds with it: `UvcChain.Device.ScanFallback` says when it does, and `UvcChain.ScanCamera` is a
  camera that is lost.
- The depth check of the property-list decoder depends on the order of objects and lets tables of any depth through, as
  `BplistDeep.DeepDocumentDecodes` shows. Only a deep path from the top object is refused, by the second pass:
  `BplistDeep.DeepTopIsRefused`. Tables without a long path always pass: `BplistHeights.ShallowIsAccepted`.
- An operation may succeed and leave a context behind on the device: when time runs out after a command was built and
  before it is sent, the state machine counts its outcome as lost and nothing is deleted.
  `Operation.Operation.LateCommandLeavesContext` shows this for every context and every command that can be built.
  It is the only way: if the answers on the record left a context, then the next thing on the record of a successful
  run is its delete, or the clock was looked at three times in a row with nothing between, and at the third look
  the deadline or the longest timeout had passed or the clock could not be read (`Operation.RunOperation`). That
  happens before there is a lease and after the last transfer, so a successful run
  that ends under a lease has its delete in any case.

## Model

| member | source | states |
|---|---|---|
| `BplistEncode.Encode` | crates/t1-bridge/src/bplist.rs:582-638 | Succeeds exactly when every integer is in range, depth, objects, references and bytes are within their limits and the document is not too long; what it writes decodes to the value again, and each error names a limit that is really exceeded |
| `BplistEncode.EncodeTable` | crates/t1-bridge/src/bplist.rs:582-638 | A flattened value is written as the one document laid out for it, or refused as too long |
| `BplistEncode.WriteDocument` | crates/t1-bridge/src/bplist.rs:593-637 | Header, objects in table order, offset table and trailer are written at the places the trailer names |
| `BplistDecoder.Decode` | crates/t1-bridge/src/bplist.rs:106-217 | For every input the result, value or error, is that of the specification `DecodeDocument` |
| `BplistDecodeProofs.DecodesExactly` | crates/t1-bridge/src/bplist.rs:106-217 | An input decodes to `v` if and only if its table can be read, passes the check on cycles and means `v`: the top object is the root of `v`, which is inside the limits |
| `BplistDeep.DecodesShallow` | crates/t1-bridge/src/bplist.rs:106-217 | For a table without a path longer than the allowed depth the check decides nothing: an input decodes to `v` if and only if its top object is the root of `v`, inside the limits |
| `BplistDeep.DeepTopIsRefused` | crates/t1-bridge/src/bplist.rs:346-357 | An accepted document has no path from its top object that is longer than the allowed depth |
| `BplistDeep.PathFitsDepth` | crates/t1-bridge/src/bplist.rs:346-450 | A path from an object is no longer than the value it stands for is deep |
| `BplistDeep.TowerStandsFor` | crates/t1-bridge/src/bplist.rs:318-338 | A table of any size in which every object refers to the one before passes the check; it stands for a value if and only if its top object is not too deep itself |
| `BplistDeep.DeepDocumentDecodes` | crates/t1-bridge/src/bplist.rs:106-217 | The same as bytes: for every number of objects that is allowed there is a document with such a table, and it decodes, to as many arrays around nothing as the place of its top object says, if and only if that is not too deep |
| `BplistDecodeProofs.DecodeSound` | crates/t1-bridge/src/bplist.rs:106-217 | An accepted document has a consistent trailer, objects that tile the bytes between header and offset table, every object parsed from its own bytes, no cycle, and unfolds to the value within the limits of depth, nodes and bytes |
| `BplistDecodeProofs.OffsetsTile` | crates/t1-bridge/src/bplist.rs:150-175 | Distinct offsets inside the table, one of them right after the header, cut the bytes before the offset table into objects without gap |
| `BplistDecodeProofs.CoversOnce` | crates/t1-bridge/src/bplist.rs:150-175 | No byte belongs to two objects |
| `BplistRoundTrip.RoundTrip` | crates/t1-bridge/src/bplist.rs:925-935 | Decoding undoes encoding for every value that can be stored |
| `BplistRoundTrip.LaidTableDecodes` | crates/t1-bridge/src/bplist.rs:106-217 | Any input whose pieces are the objects of a flattened value, its offsets and its trailer decodes to that value |
| `BplistGraph.VisitAllImpliesAcyclic` | crates/t1-bridge/src/bplist.rs:318-338 | A table that passes the depth-first check has no path from an object to itself |
| `BplistGraph.VisitSound` | crates/t1-bridge/src/bplist.rs:318-338 | A visit that succeeds finishes its object after all that the object refers to, and un-finishes none |
| `BplistGraph.RankedIsAcyclic` | crates/t1-bridge/src/bplist.rs:318-338 | A numbering that falls along every reference rules out cycles |
| `BplistGraph.VisitAllCompletes` | crates/t1-bridge/src/bplist.rs:318-338 | The check accepts every table whose references fall along a numbering of at most the allowed depth, in whatever order objects are visited |
| `BplistHeights.ShallowIsAccepted` | crates/t1-bridge/src/bplist.rs:318-338 | The check accepts every table without a path longer than the allowed depth, and such a table has no cycle |
| `BplistDecode.ValidateAcyclic` | crates/t1-bridge/src/bplist.rs:318-338 | The visit that paints an array in place computes the visit on values, with the same error |
| `BplistDecode.ValidateAll` | crates/t1-bridge/src/bplist.rs:199-202 | Visiting every object not reached before gives the verdict of the specification |
| `BplistDecode.DecodeObject` | crates/t1-bridge/src/bplist.rs:346-450 | Unfolding with one shared budget gives the value, the error and the remaining budget of the specification |
| `BplistDecode.DecodeBudget.ChargeBytes` | crates/t1-bridge/src/bplist.rs:452-461 | The budget falls by the amount, or the limit is exceeded |
| `BplistUnfoldProofs.UnfoldSound` | crates/t1-bridge/src/bplist.rs:346-450 | What is unfolded is the tree its object stands for, within the depth, and its nodes and bytes are what was taken from the budget |
| `BplistUnfoldProofs.UnfoldComplete` | crates/t1-bridge/src/bplist.rs:346-450 | A tree that an object stands for is unfolded whenever the budget affords it, leaving exactly the rest |
| `BplistUnfold.InsertExtends` | crates/t1-bridge/src/bplist.rs:417-447 | A dictionary entry put at its sorted place keeps every lookup and adds its own |
| `BplistDecoder.FindExtents` | crates/t1-bridge/src/bplist.rs:150-175 | The offsets and the end of every object, or a refusal, as specified |
| `BplistDecoder.ReadOffsetTable` | crates/t1-bridge/src/bplist.rs:150-158 | Every offset of the table, or a refusal if one lies outside the objects |
| `BplistDecoder.OrderOffsets` | crates/t1-bridge/src/bplist.rs:160-175 | Ends are found exactly when offsets are distinct and one follows the header |
| `BplistDecoder.Sort` | crates/t1-bridge/src/bplist.rs:160-161 | An ordered permutation of the offsets |
| `BplistDecoder.ScanObjects` | crates/t1-bridge/src/bplist.rs:177-189 | The first pass accepts what parses within the limit on references, in table order, and else gives the first error |
| `BplistDecoder.CheckKeys` | crates/t1-bridge/src/bplist.rs:191-197 | Accepts exactly the tables whose dictionary keys are all text |
| `BplistDecoder.DecodeGraph` | crates/t1-bridge/src/bplist.rs:191-217 | From the tables of the first pass the value or the error of the specification |
| `BplistScanner.ScanObject` | crates/t1-bridge/src/bplist.rs:219-290 | Agrees with the specification of an object's bytes, error for error |
| `BplistScanner.Scanner.ReadReferences` | crates/t1-bridge/src/bplist.rs:292-316 | References in range up to the end of the object, as specified |
| `BplistScanner.Scanner.ReadLength` | crates/t1-bridge/src/bplist.rs:463-480 | A short or an extended length and what follows it, as specified |
| `BplistScanner.Scanner.ReadByte` | crates/t1-bridge/src/bplist.rs:520-527 | One byte of what is left, or a refusal at the end |
| `BplistScanner.Scanner.Take` | crates/t1-bridge/src/bplist.rs:529-542 | That many bytes of what is left, or a refusal |
| `BplistEncoder.Encoder.Add` | crates/t1-bridge/src/bplist.rs:641-694 | A value is added exactly when it is in range and there is room; then the table holds its flattening from the index returned, and no error is given that does not apply |
| `BplistEncoder.Encoder.ChargeReferences` | crates/t1-bridge/src/bplist.rs:696-705 | References are counted and refused above their limit |
| `BplistEncoder.Encoder.ChargeBytes` | crates/t1-bridge/src/bplist.rs:707-716 | Bytes are counted and refused above their limit |
| `BplistWriter.Writer.EncodeObject` | crates/t1-bridge/src/bplist.rs:719-768 | Appends the bytes of the object as specified, or reports that there is no room |
| `BplistWriter.Writer.EncodeInteger` | crates/t1-bridge/src/bplist.rs:770-794 | Appends the shortest of the encodings allowed for the number |
| `BplistWriter.Writer.EncodeLength` | crates/t1-bridge/src/bplist.rs:796-807 | Appends the marker with a short or an extended length |
| `BplistWriter.Writer.AppendBE` | crates/t1-bridge/src/bplist.rs:841-847 | Appends the number in so many bytes, highest first |
| `BplistWriter.Writer.Push` | crates/t1-bridge/src/bplist.rs:821-827 | One byte more, or no room and nothing written |
| `BplistWriter.Writer.Append` | crates/t1-bridge/src/bplist.rs:829-839 | So many bytes more, or no room |
| `BplistWire.ParseOfEncodeObject` | crates/t1-bridge/src/bplist.rs:719-768 | The bytes of every readable object parse to the object |
| `BplistWire.DecodeOfEncodeInteger` | crates/t1-bridge/src/bplist.rs:770-794 | An integer in range reads back, from a marker that names its width |
| `BplistWire.ReadOfWithLength` | crates/t1-bridge/src/bplist.rs:796-807 | A length reads back, and what follows it is left over |
| `BplistWire.DecodeOfEncodeRefs` | crates/t1-bridge/src/bplist.rs:292-316 | References read back |
| `BplistModel.DecodeOfEncodeUtf16` | crates/t1-bridge/src/bplist.rs:508-518 | Every text reads back from its UTF-16 units |
| `BplistFlatten.FlattenIsLaidOut` | crates/t1-bridge/src/bplist.rs:641-694 | The table of a flattened value is laid out in order of first visit |
| `BplistFlatten.LaidOutUnfolds` | crates/t1-bridge/src/bplist.rs:641-694 | A table laid out for a value stands for that value |
| `BplistFlattenProofs.VisitLaidOut` | crates/t1-bridge/src/bplist.rs:641-694 | The cycle check paints exactly the part of the table that a value takes |
| `BplistFlattenProofs.LaidOutBytes` | crates/t1-bridge/src/bplist.rs:707-716 | Unfolding a flattened value costs the payload that encoding it charged |
| `BplistFlattenProofs.LaidOutRefs` | crates/t1-bridge/src/bplist.rs:696-705 | Everything but the root is referred to once |
| `BplistLayout.TrailerReadsBack` | crates/t1-bridge/src/bplist.rs:613-636 | The trailer's fields read back |
| `BplistLayout.OffsetsReadBack` | crates/t1-bridge/src/bplist.rs:601-611 | The offset table reads back in the width chosen for it |
| `BplistLayout.LaidExtent` | crates/t1-bridge/src/bplist.rs:595-611 | Every object's bytes are what lies between its offset and the next |
| `Sha256Context.Context.CompressBlock` | sep-probe/sep_crypto.c:60-117 | One block takes the state from the hash of n blocks to the hash of n + 1, for the schedule and rounds of section 6.2.2 of FIPS 180-4 |
| `Sha256Context.Context.Init` | sep-probe/sep_crypto.c:130-146 | A valid context that has hashed nothing |
| `Sha256Context.Context.Update` | sep-probe/sep_crypto.c:148-187 | Accepted exactly for a valid context, a real input and a total within the limit; then the message hashed is the old one followed by the input, and else nothing changes |
| `Sha256Context.Context.Final` | sep-probe/sep_crypto.c:189-217 | The digest of the whole message, after which the context is zeroed and refused; on refusal nothing changes |
| `Sha256Context.HashChunks` | sep-probe/sep_crypto.c:148-217 | However a message is cut into chunks, the digest is that of the message |
| `Sha256Context.Context.FinishPadding` | sep-probe/sep_crypto.c:189-217 | Padding in the buffer gives exactly the padded message of section 5.1.1 of FIPS 180-4, in one block or two |
| `Sha256Context.Extends` | sep-probe/sep_crypto.c:148-187 | More input changes neither the hash of complete blocks nor the bytes waiting |
| `UrbTransport.Transport.Exchange` | sep-probe/sep_urb.c:463-504 | On success the kernel saw the receive submitted before the request, exactly these two with the caller's bytes, and handed back both in full; the reply is what came in. On failure the reply is untouched. Either way nothing is held or the transport is poisoned, within a fixed number of calls, and the transfer is on the kernel's record |
| `UrbTransport.Transport.SendOnly` | sep-probe/sep_urb.c:529-549 | On success exactly the caller's bytes were submitted and taken in full; the rest as for an exchange |
| `UrbTransport.Transport.ReceiveOnly` | sep-probe/sep_urb.c:551-571 | On success the reply is what the one submitted receive brought in; on failure the reply is untouched |
| `UrbTransport.Transport.Initialize` | sep-probe/sep_urb.c:181-224 | Ready with both requests and the interface, or nothing is left behind |
| `UrbTransport.Transport.RecordReap` | sep-probe/sep_urb.c:243-252 | Only a request that is out is booked as handed back |
| `UrbTransport.Transport.ReapOne` | sep-probe/sep_urb.c:274-311 | What the kernel holds and what the slots say stay the same thing |
| `UrbTransport.Transport.DiscardSlot` | sep-probe/sep_urb.c:254-272 | A bounded number of calls, none for a slot that is not out |
| `UrbTransport.Transport.CleanupActive` | sep-probe/sep_urb.c:274-311 | Bounded; succeeds if and only if the kernel holds nothing afterwards, and else the transport is poisoned |
| `UrbTransport.Transport.FinishFailure` | sep-probe/sep_urb.c:319-328 | Every failure ends with everything handed back and the given state, or poisoned with what is held untouched |
| `UrbTransport.Transport.SubmitSlot` | sep-probe/sep_urb.c:330-341 | Submits only an idle slot, with its bytes as they are |
| `UrbTransport.Transport.ValidateReapedSlots` | sep-probe/sep_urb.c:343-353 | Success if and only if both transfers were complete |
| `UrbTransport.Transport.ReapAvailable` | sep-probe/sep_urb.c:355-379 | Takes what is ready; success only if all that was reaped was complete |
| `UrbTransport.RemainingTimeout` | sep-probe/sep_urb.c:381-391 | Never beyond the deadline, and zero if and only if it has passed |
| `UrbTransport.Transport.ValidateTransferReady` | sep-probe/sep_urb.c:393-415 | A poisoned transport makes no call; a deadline is the clock plus the timeout |
| `UrbTransport.Transport.WaitForActive` | sep-probe/sep_urb.c:417-461 | Success only when nothing is held any more, and every failure is cleaned up or poisons |
| `UrbTransport.Transport.WaitWhileActive` | sep-probe/sep_urb.c:417-461 | A bounded number of rounds, each of which keeps account of what is held |
| `UrbTransport.Transport.DirectionalTransfer` | sep-probe/sep_urb.c:506-527 | Exactly one submission followed by exactly one complete reap |
| `UrbTransport.Transport.Destroy` | sep-probe/sep_urb.c:586-608 | Memory is freed if and only if the kernel holds none of it; success means that the kernel took the interface back |
| `UrbTransport.Transport.AbandonAfterClose` | sep-probe/sep_urb.c:610-615 | Frees everything once the descriptor is closed |
| `UrbTransport.Slot.Reset` | sep-probe/sep_urb.c:40-53 | Clears a request that the kernel does not hold |
| `Relay.State.ReserveIdentity` | sep-probe/sep_relay.c:47-74 | No token is ever given out twice, nor an index, and none after exhaustion |
| `Relay.State.Init` | sep-probe/sep_relay.c:144-153 | Refuses a zero first token; else a fresh state |
| `RelayWire.HeaderCarries` | sep-probe/sep_relay.c:76-91 | A header carries identity and lengths at their places |
| `RelayWire.ParseCarried` | sep-probe/sep_relay.c:348-384 | A reader recovers the identity and the lengths that a builder put in |
| `RelayWire.Parse` | sep-probe/sep_relay.c:348-384 | Only well-formed messages are accepted, and they are the transfer's own bytes |
| `RelayWire.FieldLoaded` | sep-probe/sep_relay.c:15-25 | Reading a little-endian field and writing it again gives the same bytes |
| `Relay.State.BuildControl` | sep-probe/sep_relay.c:93-111 | A request with a fresh identity and the payload, or nothing changes |
| `Relay.State.BuildGetVersion` | sep-probe/sep_relay.c:155-164 | Only before the version is confirmed |
| `Relay.State.AcceptVersion` | sep-probe/sep_relay.c:166-182 | Confirms if and only if the reply is to a version request and names version 1 |
| `Relay.State.BuildEndpointStatus` | sep-probe/sep_relay.c:184-199 | Only between version and status; carries the local endpoints |
| `Relay.State.AcceptEndpointStatus` | sep-probe/sep_relay.c:201-228 | Accepts if and only if count and length agree; then the peer's endpoints are those of the message |
| `Relay.State.BuildEndpointEnable` | sep-probe/sep_relay.c:230-251 | Only once the status is confirmed; records the endpoint |
| `Relay.State.BuildEndpointReady` | sep-probe/sep_relay.c:253-288 | Exactly for a completed request without the mark: its index marked, with a token of its own |
| `Relay.State.BuildKeystoreRequest` | sep-probe/sep_relay.c:290-318 | The request as data after a message that repeats selector, transaction and length; refused for no other reason than those given |
| `Relay.State.BuildAcmRequest` | sep-probe/sep_relay.c:320-346 | The command as data after its message; refused for no other reason than those given |
| `Relay.Waiter.Consume` | sep-probe/sep_relay.c:451-472 | A match if and only if the transfer is well formed and answers the request; anything else well formed is counted and refused at the limit |
| `Keystore.State.Init` | sep-probe/sep_keystore.c:171-181 | Refuses a zero context |
| `Keystore.Seal` | sep-probe/sep_keystore.c:183-201 | The sealed request verifies, carries the timestamp and has its body unchanged, or nothing changes |
| `Keystore.VerifySeal` | sep-probe/sep_keystore.c:203-221 | Accepts if and only if header, version and digest are right |
| `Keystore.DigestFits` | sep-probe/sep_keystore.c:71-86 | The digest does not cover itself, so writing it keeps it right |
| `Keystore.CalculateDigest` | sep-probe/sep_keystore.c:71-86 | The digest of the covered bytes |
| `Keystore.CheckArguments` | sep-probe/sep_keystore.c:223-528 | Arguments are refused for their values or their lengths only |
| `Keystore.State.Build` | sep-probe/sep_keystore.c:115-151 | Succeeds if and only if arguments, capacity and timestamp allow; then the request is sealed, has its arguments' body, carries its timestamp, which is later than any before, and has the next transaction; else nothing changes and the output is zero |
| `Keystore.WrapRequest` | sep-probe/sep_keystore.c:581-607 | Succeeds if and only if the request belongs to the operation and the relay has an identity left; a request that belongs is refused by the relay only, and what is read out of the transfer is the request |
| `Keystore.BuildAndWrap` | sep-probe/sep_keystore.c:115-151 | A request that was built is refused by the relay or not at all, carries its timestamp, and a reader of the transfer gets it with its identity |
| `Keystore.StampReadsBack` | sep-probe/sep_keystore.c:183-201 | A reader of a stamped request gets its timestamp |
| `Keystore.ParseReply` | sep-probe/sep_keystore.c:677-732 | A reply counts only if it matches request and transaction; success means that both results are zero |
| `Acm.State.Init` | sep-probe/sep_acm.c:120-127 | A new state without a pending command |
| `Acm.State.Build` | sep-probe/sep_acm.c:190-361 | Exactly the commands that the phase admits, with valid arguments and an identity left; then the command is pending and its bytes are in the transfer; else nothing changes. Nothing is built after a failure |
| `Acm.State.BeginCommand` | sep-probe/sep_acm.c:84-107 | The command becomes pending under a fresh identity, or nothing changes |
| `Acm.State.AcceptReply` | sep-probe/sep_acm.c:445-490 | A reply that does not match changes nothing; one that matches always ends the command: accepted, refused by the other side, or failed for good |
| `Acm.State.AcceptSuccess` | sep-probe/sep_acm.c:411-443 | The phase follows from the commands accepted so far |
| `Acm.State.MarkAmbiguous` | sep-probe/sep_acm.c:148-154 | A pending command without an outcome fails the state for good |
| `Acm.State.Fail` | sep-probe/sep_acm.c:137-146 | Failed for good, with the history kept |
| `Acm.State.Wipe` | sep-probe/sep_acm.c:129-135 | Nothing is left of the context |
| `Acm.State.ExportContext` | sep-probe/sep_acm.c:180-188 | Handed out exactly while active, externalized and not pending |
| `Session.Session.Init` | sep-probe/sep_session.c:123-139 | A new session whose record starts where the kernel's does |
| `Session.Session.BeginDeadline` | sep-probe/sep_session.c:161-187 | Within the timeout and within the operation's deadline |
| `Session.Session.SetOperationDeadline` | sep-probe/sep_session.c:189-211 | Set at most once at a time |
| `Session.Session.ReleaseOperationDeadline` | sep-probe/sep_session.c:213-230 | Released only when set |
| `Session.Session.RemainingTimeout` | sep-probe/sep_session.c:232-247 | What is left fits before the deadline; else the session is poisoned |
| `Session.Session.RunTransfer` | sep-probe/sep_session.c:257-306 | One transfer on the kernel's record, bounded by the deadline, with an identity that never went out before; a failure poisons, and without a transfer one look at the clock found it too late or failed |
| `Session.FreshStep` | sep-probe/sep_session.c:257-306 | Tokens rise from transfer to transfer, so that no identity is on the record twice |
| `Session.Session.ParseControlReply` | sep-probe/sep_session.c:308-331 | Confirms what was asked for; anything else poisons |
| `Session.Session.Negotiate` | sep-probe/sep_session.c:333-391 | Ready if and only if it was new and version, endpoint status and endpoints 1, 2 and 3 went through in this order; all in time; none of it on the kernel's record unless it was new |
| `Session.Session.ReceiveReply` | sep-probe/sep_session.c:393-427 | At most a few messages are passed over, only by receiving; the answer is among the bytes that the kernel handed over |
| `Session.Session.KeystoreExchange` | sep-probe/sep_session.c:429-478 | One request and then only receives, at most the skip limit of them, all within the timeout; nothing reaches the kernel unless the session is ready; a transfer without an outcome poisons; a success is the reply that was received |
| `Session.Session.AcmExchange` | sep-probe/sep_session.c:512-571 | One command, its reply and at most one acknowledgement, in time; never leaves a command pending; a command that went out is answered or its outcome lost, which poisons; one that was built and did not go out was too late, as the kernel's record of two looks at the clock shows |
| `Session.Session.SendLate` | sep-probe/sep_session.c:529-545 | A command that can be built and whose time is up before it is sent always counts as lost, with nothing sent and the session poisoned |
| `Session.Session.DrainNotification` | sep-probe/sep_session.c:480-510 | At most one short receive; nothing on the line is no error |
| `Session.Session.Destroy` | sep-probe/sep_session.c:573-592 | Closed for good and wiped; success if and only if the kernel took the interface back and holds nothing |
| `Operation.RunOperation` | sep-probe/sep_operation.c:509-639 | For every callback: what was opened is closed once, in order, the device before the finalizer and the finalizer before the lock; every transfer on the kernel's record came before the device was closed and within the deadline, or within that of the cleanup; no identity is on the record twice; every command on the record was answered, or the last was lost; success only if the callback succeeded, the interface was given back last and every close succeeded, and if the answers left a context then, however long the run took, the next thing on the record is its delete, unless there was no lease and, after the last transfer, three looks at the clock in a row of which the third found no time left or failed; a command whose outcome is lost was sent, or the same holds |
| `Operation.Operation.RunBegun` | sep-probe/sep_operation.c:537-638 | The same from the moment the deadline is known |
| `Operation.Operation.Close` | sep-probe/sep_operation.c:620-638 | Context, session, device, finalizer and lock in this order, each whatever became of the one before; a clean end of an active context has its delete on the record, and for any other nothing is sent |
| `Operation.Operation.CloseProductSession` | sep-probe/sep_operation.c:408-469 | An active context is deleted by a command on the record, and a clean end means that none is left, that the interface was released and the descriptor closed |
| `Operation.Operation.EndContext` | sep-probe/sep_operation.c:412-450 | A clean end of an active context has sent its delete, nothing is sent for any other, and the context is wiped in any case |
| `Operation.Operation.LateCommandLeavesContext` | sep-probe/sep_operation.c:412-450 | For every active context and every command that can be built: when time runs out before the command is sent, the context that is still there is not deleted, nothing is on the record but one late look at the clock, and the end counts as clean |
| `Operation.Operation.Lapses` | sep-probe/sep_operation.c:373-389 | A command that was built and not sent leaves three looks at the clock in a row on the record: two before the deadline, and one at which it or the longest timeout had passed, or which failed |
| `Operation.ActiveMeans` | sep-probe/sep_operation.c:412-450 | If the answered commands of a run left a context, the state machine was active at the end of it, or had failed before its last command went out |
| `Operation.Operation.EndSession` | sep-probe/sep_operation.c:451-455 | Clean if and only if the kernel took the interface back |
| `Operation.Operation.EndLease` | sep-probe/sep_operation.c:418-437 | A lease is replaced by the deadline of the cleanup |
| `Operation.Operation.CloseLock` | sep-probe/sep_operation.c:471-482 | The lock is closed once if it was opened |
| `Operation.Operation.RemainingMs` | sep-probe/sep_operation.c:207-227 | What is left fits before the deadline; without a deadline nothing is asked |
| `Operation.Operation.AcquireLock` | sep-probe/sep_operation.c:229-252 | Got before the deadline, or not at all |
| `Operation.FromSession` | sep-probe/sep_operation.c:254-267 | Only success becomes success |
| `Operation.Operation.KeystoreExchange` | sep-probe/sep_operation.c:283-300 | Under a lease the kernel sees nothing; else bounded by the operation's deadline |
| `Operation.Operation.AcmExchange` | sep-probe/sep_operation.c:373-389 | The same for commands, and none stays pending; every command on the record is answered, or the last is lost |
| `Operation.Operation.Entropy` | sep-probe/sep_operation.c:302-317 | As many bytes as asked for, never under a lease |
| `Operation.Operation.Timestamp` | sep-probe/sep_operation.c:319-346 | Later than the previous one, and not behind the clock |
| `Operation.Operation.BuildStamped` | sep-probe/sep_operation.c:319-346 | A request stamped so is never refused as stale |
| `Operation.Operation.ReleaseAcquisitionDeadline` | sep-probe/sep_operation.c:348-371 | Trades the deadline for a lease, or changes neither |
| `Operation.Operation.Callback` | sep-probe/sep_operation.c:613-618 | Any calls in any order keep what the teardown relies on |
| `Operation.DeriveSeeds` | sep-probe/sep_operation.c:489-507 | A token that is not zero and an index that leaves room, from the bytes given |
| `KeybagStore.PersistAbsent` | sep-probe/sep_keybag_store.c:226-309 | At every moment of it a crash leaves no state file, someone else's, or the complete one; a state file that is there is never replaced; success means that the complete one is there to stay and none was there before |
| `KeybagStore.LoadState` | sep-probe/sep_keybag_store.c:155-224 | Absent if and only if there is no file; what it returns is the material of the bytes read; and when no call fails it accepts exactly the states |
| `KeybagStore.LoadAfterCrash` | sep-probe/sep_keybag_store.c:155-309 | After a crash at any moment of storing a material, loading gives that material or nothing, and the material once it was published |
| `KeybagStore.Publish` | sep-probe/sep_keybag_store.c:288-295 | The name is given without replacing, and lasts once the directory is synced |
| `KeybagStore.PersistBytes` | sep-probe/sep_keybag_store.c:244-309 | The file is complete and synced before it has its name |
| `KeybagStore.WriteAll` | sep-probe/sep_keybag_store.c:102-118 | On success the file holds exactly the bytes |
| `KeybagStore.ReadAll` | sep-probe/sep_keybag_store.c:84-100 | Exactly the first bytes of the file, or a call failed or the file is too short |
| `KeybagStore.ReadWhole` | sep-probe/sep_keybag_store.c:186-190 | Exactly the bytes of the file, with nothing after them |
| `KeybagStore.RandomTemporaryName` | sep-probe/sep_keybag_store.c:120-153 | Never the name of the state file |
| `KeybagStore.CreateTemporary` | sep-probe/sep_keybag_store.c:263-277 | A new empty file under a name of its own |
| `KeybagState.ParseState` | sep-probe/sep_keybag_store.c:191-211 | Accepts exactly the states, and gives the one material each stands for |
| `KeybagState.BuildState` | sep-probe/sep_keybag_store.c:247-262 | The bytes of a material |
| `KeybagState.StateDigest` | sep-probe/sep_keybag_store.c:48-65 | The digest of everything but the digest |
| `KeybagState.StateReadsBack` | sep-probe/sep_keybag_store.c:155-309 | What is written reads back, to this material and no other |
| `KeybagDisk.CrashShowsComplete` | sep-probe/sep_keybag_store.c:226-309 | Without interference a crash shows no file or the complete one |
| `KeybagDisk.GuardedRespects` | sep-probe/sep_keybag_store.c:226-309 | Over any stretch of a guarded history other files and an existing state file stay |
| `KeybagDisk.StepIsSafe` | sep-probe/sep_keybag_store.c:226-309 | Every step that is allowed keeps this, whatever a crash may do to what is not synced |
| `KeybagDisk.IntrusionIsSafe` | sep-probe/sep_keybag_store.c:226-309 | So does another process that creates the state file while there is none |
| `UvcFrames.Stream.Run` | kernel/uvcvideo-t1/uvc_video.c:1562-1680 | In every interleaving of giving buffers, decoding packets and carrying out copies, step by step as the script says: a buffer handed out has in its memory exactly what was accepted for it, in order and under one frame identifier; it is in flight exactly while the queue or a copy needs it; without an error it has the size of a frame if the format is not compressed, and with one it is handed out only if that was asked for |
| `UvcFrames.Stream.DecodePacket` | kernel/uvcvideo-t1/uvc_video.c:1562-1606 | Takes of a packet exactly what fits into the buffer that its frame identifier calls for, or nothing; at most one copy is put off |
| `UvcFrames.Stream.DecodeBulk` | kernel/uvcvideo-t1/uvc_video.c:1608-1680 | The same for a transfer that may be any part of a payload |
| `UvcFrames.Stream.DecodeStart` | kernel/uvcvideo-t1/uvc_video.c:1176-1315 | When a payload is invalid, ends the frame before it, or is taken: each if and only if |
| `UvcFrames.Stream.Synchronize` | kernel/uvcvideo-t1/uvc_video.c:1287-1314 | A buffer is filled only from the start of a frame |
| `UvcFrames.Stream.Begin` | kernel/uvcvideo-t1/uvc_video.c:1583-1588 | A frame that ended is given up at most once: the next buffer is empty |
| `UvcFrames.Stream.DecodeData` | kernel/uvcvideo-t1/uvc_video.c:1353-1384 | As much as fits is put off to be copied; overflow ends the frame with an error |
| `UvcFrames.Stream.AddCopy` | kernel/uvcvideo-t1/uvc_video.c:1353-1384 | A copy put off holds on to its buffer |
| `UvcFrames.Stream.RunCopy` | kernel/uvcvideo-t1/uvc_video.c:1332-1351 | A copy that is carried out, whenever that is, stays within its buffer and keeps what the buffer is to hold |
| `UvcFrames.Stream.CopyKeeps` | kernel/uvcvideo-t1/uvc_video.c:1332-1351 | What a copy writes is what the buffer is to hold there |
| `UvcFrames.Stream.DecodeEnd` | kernel/uvcvideo-t1/uvc_video.c:1386-1398 | The frame ends if and only if it has data and the payload says so, or it had ended |
| `UvcFrames.Stream.Validate` | kernel/uvcvideo-t1/uvc_video.c:1528-1534 | A frame of the wrong size is faulty unless it is compressed |
| `UvcFrames.Stream.NextBuffer` | kernel/uvcvideo-t1/uvc_video.c:1540-1560 | The buffer leaves the queue, and the next one is empty |
| `UvcFrames.Stream.StartTransfer` | kernel/uvcvideo-t1/uvc_video.c:1728-1790 | Decoding fills the first buffer there is at that time |
| `UvcFrameTrace.TracedStep` | kernel/uvcvideo-t1/uvc_video.c:1353-1384 | Each event extends the story of its buffer and leaves those of the others |
| `UvcClock.Clock.AddSample` | kernel/uvcvideo-t1/uvc_video.c:512-545 | The ring holds the longest stretch of the latest samples that has at most one place where the frame number went back, and at most 32 of them |
| `UvcClock.Clock.WindowIsLongest` | kernel/uvcvideo-t1/uvc_video.c:512-545 | The live window of the ring, oldest first, is that stretch |
| `UvcClock.LongestExtends` | kernel/uvcvideo-t1/uvc_video.c:512-545 | A sample without a second step back pushes out at most the oldest |
| `UvcClock.Clock.MakeRoom` | kernel/uvcvideo-t1/uvc_video.c:512-545 | Drops exactly what cannot be kept together with the sample |
| `UvcClock.Clock.Decode` | kernel/uvcvideo-t1/uvc_video.c:556-687 | A sample is added if and only if the header has a source clock that means something and its frame number is far enough from the last; no two in a row are ever close |
| `UvcClock.OffsetFor` | kernel/uvcvideo-t1/uvc_video.c:556-687 | An offset is estimated once; with it the device is behind the host by less than ten frame numbers, and by none if it had been behind by more |
| `UvcClock.Clock.Reset` | kernel/uvcvideo-t1/uvc_video.c:689-696 | Nothing is kept |
| `UvcControl.Device.SendCurrent` | kernel/uvcvideo-t1/uvc_video.c:71-157 | What the device did not take is zeroed in the cache |
| `UvcControl.StoredIsValue` | kernel/uvcvideo-t1/uvc_video.c:71-157 | After a success the cache holds the value sent if and only if the bytes the device did not take are zero anyway |
| `UvcControl.SurvivesEverySend` | kernel/uvcvideo-t1/uvc_video.c:71-157 | What a caller can tell beforehand: a value survives every send that succeeds if and only if all its bytes after the first are zero |
| `UvcControl.ShortWriteChangesValue` | kernel/uvcvideo-t1/uvc_video.c:71-157 | It does not always: the device may have taken one byte of two |
| `UvcFrames.Stream.QueueBuffer` | kernel/uvcvideo-t1/uvc_queue.c:135-156 | A buffer that the program owns is emptied and comes last |
| `UvcFrames.Stream.Put` | kernel/uvcvideo-t1/uvc_queue.c:342-351 | A faulty buffer goes back into the queue, empty |
| `UvcFrames.Stream.Complete` | kernel/uvcvideo-t1/uvc_queue.c:353-368 | A buffer is handed out with the bytes in its memory, which are exactly what was accepted into it |
| `UvcFrames.Stream.Release` | kernel/uvcvideo-t1/uvc_queue.c:374-377 | With the last reference, and not before, a buffer is handed out or queued again |
| `UvcFrames.Stream.LastIsWritten` | kernel/uvcvideo-t1/uvc_queue.c:353-368 | When the last reference is dropped no copy is left to do |
| `UvcControl.Device.Transact` | kernel/uvcvideo-t1/uvc_ctrl.c:2229-2355 | The writes are those that were asked for, in order, up to the first that could fail; what is sent is the value each control was last given, once, and nothing after a refusal or without a commit; a success means that all of it was taken; each control then holds what was taken of its last value, or what it held at first, and the others keep theirs |
| `UvcControl.Device.Commit` | kernel/uvcvideo-t1/uvc_ctrl.c:2320-2355 | Sends until something fails and rolls back the rest, or rolls back everything |
| `UvcControl.Device.CommitEntity` | kernel/uvcvideo-t1/uvc_ctrl.c:2229-2297 | The same for the controls of one entity, going on from what was done before |
| `UvcControl.Device.CommitControl` | kernel/uvcvideo-t1/uvc_ctrl.c:2229-2297 | One control is sent at most once, and settled by what became of it |
| `UvcControl.ProgressConcludes` | kernel/uvcvideo-t1/uvc_ctrl.c:2229-2355 | What the steps keep is what a transaction promises: a control holds what was taken of its last value, or its first |
| `UvcControl.ProgressSends` | kernel/uvcvideo-t1/uvc_ctrl.c:2229-2355 | What a commit sends is what was written last |
| `UvcControl.PerformedWrite` | kernel/uvcvideo-t1/uvc_ctrl.c:2618-2664 | Each write goes over what the writes before it had left |
| `UvcControl.Device.Set` | kernel/uvcvideo-t1/uvc_ctrl.c:2618-2664 | The new bytes are in the cache, with the old value saved when the control becomes dirty; a failure neither dirties it nor loses what was saved, and does not happen to a call that nothing stops |
| `UvcControl.Device.LoadCurrent` | kernel/uvcvideo-t1/uvc_ctrl.c:1292-1326 | A value that is loaded is not loaded again |
| `UvcControl.Device.SetHandle` | kernel/uvcvideo-t1/uvc_ctrl.c:1923-1951 | A control goes to a handle; the number of controls each handle waits for and of power references stay right, so no warning is ever given |
| `UvcControl.Device.ClearHandle` | kernel/uvcvideo-t1/uvc_ctrl.c:1953-1966 | Gives back one control and one power reference |
| `UvcControl.Device.StatusEvent` | kernel/uvcvideo-t1/uvc_ctrl.c:1968-2009 | A report ends the wait of whoever waits and makes the cached value stale |
| `UvcControl.Device.CleanupHandle` | kernel/uvcvideo-t1/uvc_ctrl.c:3380-3402 | A handle that is closed gives back exactly what it held |
| `UvcChain.Device.ScanDevice` | kernel/uvcvideo-t1/uvc_driver.c:1967-2018 | Ends for every graph of references, cyclic ones included; no entity is in two chains or twice in one, each chain has at most one processing unit and starts at an output terminal; with memory it succeeds if and only if a chain was found, and finds every line from an output terminal to an input terminal that shares nothing with other entities; if every output terminal leads astray, to entities that are not there or round in circles, it succeeds if and only if the fallback applies |
| `UvcChain.Device.ScanChain` | kernel/uvcvideo-t1/uvc_driver.c:1783-1817 | Every step takes an entity that was in no chain before; from the start of a line it gives exactly that line, and from elsewhere leaves the line alone; from an entity that leads astray it fails |
| `UvcChain.Device.ScanEntity` | kernel/uvcvideo-t1/uvc_driver.c:1529-1604 | Takes an entity at the end of the chain if and only if it is of a kind that belongs there and no second processing unit or selector, or leaves the chain as it was |
| `UvcChain.Device.ScanForward` | kernel/uvcvideo-t1/uvc_driver.c:1606-1703 | Only adds to the chain, and nothing if nothing else refers to the entity |
| `UvcChain.Device.ScanBackward` | kernel/uvcvideo-t1/uvc_driver.c:1705-1781 | Only adds to the chain, and leads to an entity of the device: on a line to the next |
| `UvcChain.Device.ScanFallback` | kernel/uvcvideo-t1/uvc_driver.c:1884-1960 | Succeeds if and only if there is one terminal of each kind, of a type that belongs in a chain, extension units have one input and there is at most one processing unit; then the chain is the output terminal, the units from the last to the first, and the input terminal |
| `UvcChain.SwitchSpoilsFallback` | kernel/uvcvideo-t1/uvc_driver.c:1884-1960 | A camera whose output terminal leads astray: the fallback applies, and does not when it also has a privacy switch |
| `UvcChain.ScanCamera` | kernel/uvcvideo-t1/uvc_driver.c:1967-2018 | The scan of this camera succeeds if and only if it has no privacy switch |
| `UvcChain.TakenIsFit` | kernel/uvcvideo-t1/uvc_driver.c:1884-1960 | Taking the units one by one succeeds if and only if they fit together |
| `UvcChain.Device.FindTerminals` | kernel/uvcvideo-t1/uvc_driver.c:1896-1914 | The only input and the only output terminal, if and only if there is one of each |
| `UvcChain.Device.AddExtraUnit` | kernel/uvcvideo-t1/uvc_driver.c:2010-2015 | Goes into the first chain and into no other |
| `UvcChain.Device.EntityById` | kernel/uvcvideo-t1/uvc_driver.c:139-152 | The first entity with the identifier, if there is one |
| `UvcChain.Device.EntityByReference` | kernel/uvcvideo-t1/uvc_driver.c:154-169 | The next entity that refers to the identifier, if there is one |

## Left out

- OperationHost.Host.Wait: that a wait which succeeds takes at least the time asked for is assumed; without it, trying
  for the lock need not come to an end.
- KeybagStore.ReadAll: interrupted calls are finite in number (each disk operation has so many interrupts left), as
  are those of `KeybagStore.WriteAll`; the code would repeat for ever.
- KeybagStore.PersistAbsent: every file that is there at the start counts as someone else's; ownership, modes, links
  and descriptors appear only as the results of the checks on them.
- KeybagStore.LoadState: says nothing about which files are accepted after a call failed.
- UrbTransport.Transport.Exchange: missing buffers are modelled for data and reply only; the bindings to Linux calls are the
  kernel class, which keeps to what the interface promises about requests it holds.
- Keystore.State.Build: the output is an array of its own instead of a prefix of the caller's buffer.
- Keystore.ParseReply: the typed outputs are read by position; it is not related to a writer, which is in the device.
- Operation.RunOperation: the callback is any sequence of the calls that it can make, not any C function; preflight and
  finalizer are a result and a step of the record.
- UvcFrames.Stream.Run: packets, copies and the giving of buffers interleave as wholes; within one packet nothing else
  happens. Timestamps, sequence numbers, statistics, metadata buffers and the cancelling of a queue are not modelled.
- UrbTransport.Transport.DiscardSlot: bounds the calls and says nothing of their outcome, which the code ignores too.
- Keystore.CheckArguments: which arguments are refused is its definition; the contract only says with which errors.
- Operation.FromSession: which error becomes which is its definition.
- KeybagDisk.IntrusionIsSafe: of other processes only the creation of the state file while there is none is modelled.
- UvcFrames.Stream.Put: the disconnected queue, which hands a buffer back at once, is not modelled.
- UvcControl.Device.Set: values are bytes at a place; mappings of bit fields, clamping and menus appear as the result of a
  check. Restoring values after a suspend and the events to listeners are not modelled.
- UvcControl.Device.Transact: the lock on the chain is held throughout, so that nothing interleaves with a transaction.
- UvcControl.Device.SetHandle: the power reference is a count and a call that may fail.
- UvcChain.Device.ScanDevice: entities are places in a sequence; of the chains that are found, lines that share nothing
  are characterised, and devices of which no output terminal leads anywhere; branches are not. Parsing of descriptors
  is not modelled.
- UvcClock.Clock.Decode: the timestamps computed from the samples are not modelled.
- Constant-time comparison and the wiping of memory that is freed: they have no meaning in the model beyond zeroed
  fields.
- `sep_keybag.c`, `sep_usbfs.c`, the daemons, the touch bar, the installer and the system packages: mostly sequences of calls
  to what is modelled, or input and output.
- 32-bit targets: sizes are taken to have 64 bits, as on the machines that the program supports.
