# The client-side TEE stack in Dafny

A model of the client side of the TEE stack, with proofs: the protobuf codec of the proxy, the proxy
protocol that simulates shared memory over a socket, the driver-side bulk mapping, GP operations, and
the registry. `dafny verify dfyconfig.toml` checks it. Code that changes objects in place is modelled
by classes whose methods are tied to functions on values; the theorems are about those functions.

| part | files |
|---|---|
| wire format and message classes | Wire, Message, FastParser, Canonical, ParserConcat, NormalForm, MessageObject, Schemas, WireBytes, JumpExample |
| transport and calls | Framing, Transport, Rpc, StaleReply, ProxyDispatch, DriverCalls, DispatchEndToEnd, ProxyExchange |
| proxy sessions | Ioctl, ProxyServer, ServerObjects, ProxyClient, ClientObjects, ProxyMirror, ProxyAnswers, ProxyRuns, ProxySlots, ProxySlices |
| overlapping operations | ProxyCallers, ProxyLists, ProxyOverlap, ProxyRaces, ProxyOrder, ProxySerial, RaceExamples |
| driver client | Driver, DriverObjects, MapTransaction, Handles, Effects, WsmTable |
| GP operations | GpOperation, GpObjects, GpFields, Unwinding, GpTransaction |
| registry | RegistryPaths, RegistryStore, RegistryCleanup, RegistryBlob, RegistryObject, RegistryFiles |

The generated message classes are one template, so the codec is proved for every schema that fits it,
and the tables of the file's messages are shown to fit. The primitives the generated code calls are
defined from the Protocol Buffers Encoding specification, sections "Base 128 Varints", "Signed
Integers", "Length-Delimited Records" and "Last One Wins". GP constants are those of the GlobalPlatform
TEE Client API Specification v1.0, section 4.4.

## Where the code does less than one would expect

Each of these is stated as a theorem with the exact condition, or as a run or input that shows it.

- Codec: a login_type that is not an enumerator, reached by a jump, is filed under the tag of the field
  the jumps started from (`FastRefinesPlain`, `StaleTagExample`). The message of such an input does not
  come back when it is written out and read again (`NormalForm.ParseIsCanonical`): it is refused
  (`BadEnumBreaksNormalForm`) or another field has another value (`BadEnumChangesValue`). And reading two
  inputs as one is not merging their messages if the jumps cross the seam (`ParseConcatIsMerge`,
  `SeamExample`).
- Overlapping operations on one connection: a notify is refused, and the connection deleted, when an
  unmap is served between building and sending it (`NotifyRefusedWhen`, `RefusedNotify`); a wait stops
  copying at a buffer whose map has not yet added it or that has been unmapped (`WaitCopiesWhen`,
  `MissedWait`); crossing maps can leave the two lists in different order (`MapsCross`, `ListsInOrderWhen`); an
  unmap that overtakes the map of its buffer leaves it on the client's list (`MissesWhen`,
  `QuietListsAgree`).
- Calls: `call` does not look at the broken flag, so a caller waiting for the lock can take the reply
  to the call that failed (`BrokenConnectionMispairs`); pairing holds on connections not broken.
- DriverClient::map offers the failing slot to unmap as well (`MapAllOrNothing`, `FailingSlot`,
  `StaleSlotLosesMapping`).
- mcOpenSession_ leaks the handle of a registered TCI when the open fails afterwards (`OpenKeeps`).
- mcCloseDevice pops a WSM before its length is looked up, so the loop releases nothing
  (`DrainReleasesOnlyDuplicates`).
- GP: a reply without origin unmaps nothing; lengths left in the TCI by an earlier operation are unmapped
  again, also when setting up has failed; sizes are cut to 32 bits; and parent flags above 15 spill into
  the next type (`SetupUnwind`, `OperationRestoresDevice`, `FailedSetupRestoresDevice`,
  `StaleMappingUnwound`, `TypesDecode`).
- Registry: clean-up returns the code of a successful read when a container is short (`SpEffect`,
  `RootEffect`, `ProviderGoneWhen`, `ShortProviderStays`); the space left for the trustlet container is
  computed too large by twice the length information (`FitsWhen`, `ReadWholeWhen`), and neither it nor the length of the
  trustlet's header is checked (`MemGetServiceBlob`).
- The diagram in proxy_common.h draws method before version; the structures, and this model, have
  version first.

## Assumptions

Secure addresses are not zero and new within a session; the kernel hands out fresh handles other than
0; a slot to be mapped has 0 for its secure address where a theorem says so (mcMap, _TEEC_SetupOperation
and the server leave it uninitialized); `mmap` and `malloc` succeed, `mmap` also for a server buffer of
length zero, which the system would refuse; a notify reads the TCI and its buffers at one instant; the
operating system's part (sockets, kernel, files, the trusted application) is a parameter of each
operation or an event of a run. On a 64-bit system: `size_t` wraps around at 2^64.

## Model

| member | source | states |
|---|---|---|
| `Wire.VarintLength` | MobiCoreDriverLib/ClientLib/mc.pb.cpp:2377-2407 | the size tables that ByteSize sums up give the length of the varint that is written, for every 64-bit value |
| `Wire.VarintRoundTrip` | MobiCoreDriverLib/ClientLib/mc.pb.cpp:318-322 | a varint of at most ten bytes reads back as the number written, and reading stops behind it |
| `Wire.ZigZagRoundTrip` | MobiCoreDriverLib/ClientLib/mc.pb.cpp:2302-2366 | a negative or positive timeout survives zig-zag encoding, and a 32-bit one stays in 32 bits |
| `Wire.RecRoundTrip` | MobiCoreDriverLib/ClientLib/mc.pb.cpp:374-384 | the bytes kept for an unknown record, groups included, are skipped again as the same record, whatever follows |
| `Wire.SkipFieldPrefix` | MobiCoreDriverLib/ClientLib/mc.pb.cpp:374-384 | skipping an unknown record does not look past it |
| `ParserConcat.ParseConcatIsMerge` | MobiCoreDriverLib/ClientLib/mc.pb.cpp:289-397 | for every schema and all bytes with `a` read to its end: the parser reads `a ++ b` as MergeFrom of its two parses (last one wins, repeated appended, unknown bytes concatenated) if and only if `b` is refused or no run of jumps from the last record of `a` reaches a bad enum in `b` |
| `ParserConcat.ParseIsHomomorphism` | MobiCoreDriverLib/ClientLib/mc.pb.cpp:1855-2009 | for every message but OpenSessionRequest that is so without condition |
| `JumpExample.SeamExample` | MobiCoreDriverLib/ClientLib/mc.pb.cpp:338-357 | [26,0] and [32,3] are read apart with the unknown bytes [32,3], and as one with [26,3] |
| `FastParser.FastAgrees` | MobiCoreDriverLib/ClientLib/mc.pb.cpp:289-397 | the loop with expected tags and jumps builds what the simple loop builds, unless it jumps to a bad enum value |
| `FastParser.FastDiffers` | MobiCoreDriverLib/ClientLib/mc.pb.cpp:346-357 | a jump to a bad enum value does change the message that is built |
| `FastParser.FastRefinesPlain` | MobiCoreDriverLib/ClientLib/mc.pb.cpp:289-397 | on every byte string the two loops build the same exactly when the input is refused or contains no jump to a bad enum; acceptance, end and known fields never differ |
| `FastParser.FastIsPlainWithoutEnums` | MobiCoreDriverLib/ClientLib/mc.pb.cpp:1855-1930 | every message but OpenSessionRequest is read exactly as by the simple loop |
| `Canonical.ParseSerialize` | MobiCoreDriverLib/ClientLib/mc.pb.cpp:289-434 | serializing an initialized message and parsing it with the jumping loop gives it back, enum field included |
| `NormalForm.ParseIsCanonical` | MobiCoreDriverLib/ClientLib/mc.pb.cpp:289-434 | an accepted input is in normal form (writing its message and parsing it again gives the message back) if and only if no jump reaches a bad enum |
| `JumpExample.StaleTagExample` | MobiCoreDriverLib/ClientLib/mc.pb.cpp:338-357 | a bad login_type right behind tci is filed under the tag of tci, 26, by the real loop and under its own, 32, by the simple one |
| `JumpExample.BadEnumBreaksNormalForm` | MobiCoreDriverLib/ClientLib/mc.pb.cpp:289-434 | an accepted input whose message is refused once it has been written out again |
| `JumpExample.BadEnumChangesValue` | MobiCoreDriverLib/ClientLib/mc.pb.cpp:289-434 | an accepted input whose message, written out and read again, has is_gp_uuid 1 instead of 0 |
| `Schemas.OpenTablesFit` | MobiCoreDriverLib/ClientLib/mc.pb.cpp:286-434 | the tables of the open messages fit the template the theorems are about |
| `Schemas.NotifyTablesFit` | MobiCoreDriverLib/ClientLib/mc.pb.cpp:1615-2915 | the tables of the notify and wait messages fit it and have no enum |
| `Schemas.MapTablesFit` | MobiCoreDriverLib/ClientLib/mc.pb.cpp:3005-3760 | the tables of the map messages fit it and have no enum |
| `MessageObject.MessageLite.MergePartialFromCodedStream` | MobiCoreDriverLib/ClientLib/mc.pb.cpp:289-397 | the parsing loop over a stream, label by label, leaves the object, the stream and the result as the specification says |
| `MessageObject.MessageLite.ParseFromString` | MobiCoreDriverLib/ClientLib/mc.pb.cpp:514-518 | clear, merge from the stream, end of input, required fields present here and in nested messages |
| `MessageObject.MessageLite.MergeFrom` | MobiCoreDriverLib/ClientLib/mc.pb.cpp:1997-2009 | the object after MergeFrom is the merge of the two |
| `MessageObject.MessageLite.SerializeWithCachedSizes` | MobiCoreDriverLib/ClientLib/mc.pb.cpp:1932-1955 | the writer appends exactly the serialization to the stream |
| `MessageObject.ByteSize` | MobiCoreDriverLib/ClientLib/mc.pb.cpp:1957-1990 | ByteSize, summed without writing, is the number of bytes the writer writes, through nested messages, varints and zig-zag |
| `WireBytes.TagsAre` | MobiCoreDriverLib/ClientLib/mc.pb.cpp:400-434 | the tag of every kind of field: its number times eight, and 2 for what has a length, 0 for a varint |
| `WireBytes.WaitRequestBytes` | MobiCoreDriverLib/ClientLib/mc.pb.cpp:2354-2375 | the bytes of every wait request: session, zig-zag time-out, and whether it is partial |
| `WireBytes.MapRequestBytes` | MobiCoreDriverLib/ClientLib/mc.pb.cpp:3297-3314 | the bytes of every map request: the session, and every buffer as a record of its length and direction |
| `WireBytes.AcceptedWhen` | MobiCoreDriverLib/ClientLib/mc.pb.cpp:514-518 | bytes are accepted exactly if they are read to their end and no required field is missing, in the message or in a record nested in it |
| `WireBytes.BothAccepted` | MobiCoreDriverLib/ClientLib/mc.pb.cpp:1997-2009 | of two accepted messages without enum, one behind the other is accepted: the last value of a field with one value, all nested records in order, all unknown bytes |
| `WireBytes.LongVarintRefused` | MobiCoreDriverLib/ClientLib/mc.pb.cpp:318-322 | a varint of more than ten bytes is not read |
| `WireBytes.RequestFrameExample` | MobiCoreDriverLib/ClientLib/Contrib/proxy_common.h:76-81 | a request frame byte by byte |
| `WireBytes.ReplyFrameExample` | MobiCoreDriverLib/ClientLib/Contrib/proxy_common.h:83-89 | a reply frame with a negative code byte by byte |
| `Framing.RequestPrefix` | MobiCoreDriverLib/ClientLib/Contrib/proxy_server.cpp:129-150 | a server that has part of a request wants exactly what is missing: it handles no request early and reads into no following one |
| `Framing.ReplyPrefix` | MobiCoreDriverLib/ClientLib/Contrib/proxy_client.cpp:139-176 | the same for a client and a reply, whose length is in the result code |
| `Transport.Socket.SendAll` | MobiCoreDriverLib/ClientLib/Contrib/proxy_common.h:299-322 | all of the buffer or a prefix of it goes out, in order; it gives up only when the last call has closed or failed or none is left, every call before having gone on, short or interrupted; and it succeeds if as many calls move bytes before one closes or fails as the buffer has bytes |
| `Transport.Socket.ReceiveAll` | MobiCoreDriverLib/ClientLib/Contrib/proxy_common.h:269-295 | exactly the wanted bytes are taken from the front of the stream, or fewer and an error; it gives up only for a call that has closed or failed, for none left, or for a stream that has run dry, and never for an interrupted or short call |
| `Transport.ClientConnection.Call` | MobiCoreDriverLib/ClientLib/Contrib/proxy_client.cpp:102-196 | one frame out and one frame in, no less and no more, and the result is what that reply says; otherwise the connection is marked broken. If enough calls go through, however cut short or interrupted, and a whole reply is in the stream, the request is sent and the result is what that reply says |
| `Transport.ConnectionThread` | MobiCoreDriverLib/ClientLib/Contrib/proxy_server.cpp:120-189 | the server takes whole request frames off the stream, handles them one after the other and sends whole reply frames; only its last round may break off. It goes on while the driver is open, enough calls go through, and a whole request is in the stream |
| `Transport.ReceiveRequest` | MobiCoreDriverLib/ClientLib/Contrib/proxy_server.cpp:125-150 | a whole request in the stream is the one received, if only enough calls go through; what is received is always the frame of the request |
| `Rpc.CallsArePaired` | MobiCoreDriverLib/ClientLib/Contrib/proxy_client.cpp:102-196 | for every interleaving of callers and every pattern of system calls: a completed call on a sound connection got the reply to its own request, both directions are empty when no call is in flight, and calls are served in the order of the queue lock |
| `Rpc.NoOvertaking` | MobiCoreDriverLib/ClientLib/Contrib/proxy_client.cpp:104-107 | at most one caller is in an exchange, and once a caller holds the queue lock the next exchange is its own |
| `Rpc.NeverStuck` | MobiCoreDriverLib/ClientLib/Contrib/proxy_client.cpp:102-196 | an exchange on a sound connection with a live server always has a next step |
| `StaleReply.BrokenConnectionMispairs` | MobiCoreDriverLib/ClientLib/Contrib/proxy_client.cpp:102-137 | `call` does not look at the broken flag: a run in which a waiting caller completes with the reply to the call that failed before it |
| `ProxyDispatch.DispatchIsGood` | MobiCoreDriverLib/ClientLib/Contrib/proxy_server.cpp:225-251 | for every method, request, session and answer of the driver the server returns a reply that fits its frame: what the theorems about calls ask of a server |
| `ProxyDispatch.CallsReachTheirHandler` | MobiCoreDriverLib/ClientLib/Contrib/proxy_server.cpp:225-251 | over every interleaving and every pattern of system calls: a call completed on a sound connection got the reply dispatched to its own request, after the earlier requests one after the other; what that is for each method, in terms of the driver's answer, is stated by the ten lemmas below and `DispatchEndToEnd.OnlyKnownMethods` |
| `ProxyDispatch.MapEndToEnd` | MobiCoreDriverLib/ClientLib/Contrib/proxy_client.cpp:596-657 | from the bytes of the request to the response the caller reads: a map that completes got what mapping its slots at the server's session comes to |
| `ProxyDispatch.NotifyEndToEnd` | MobiCoreDriverLib/ClientLib/Contrib/proxy_client.cpp:440-480 | a notify that completes: the server had all its buffers and now has the TCI and the contents sent |
| `ProxyDispatch.UnmapEndToEnd` | MobiCoreDriverLib/ClientLib/Contrib/proxy_client.cpp:659-692 | an unmap that completes: refused or carried out at the server's session, with no more buffers than there are and none named twice |
| `ProxyDispatch.WaitEndToEnd` | MobiCoreDriverLib/ClientLib/Contrib/proxy_client.cpp:496-535 | a wait of a slice that completes: a partial time-out, or the TCI and OUTPUT buffers of the server's session, which is as before |
| `ProxyDispatch.CloseEndToEnd` | MobiCoreDriverLib/ClientLib/Contrib/proxy_client.cpp:407-438 | a close that completes: the session is gone exactly if the driver has closed it |
| `DispatchEndToEnd.OpenEndToEnd` | MobiCoreDriverLib/ClientLib/Contrib/proxy_server.cpp:390-454 | an open that completes: there was no session, the driver was asked to open exactly the uuid, kind of uuid, TCI and login the client gave, and either its error came back and there is none still, or the client has its identifier and the server the session with that identifier and TCI |
| `DispatchEndToEnd.TrustletEndToEnd` | MobiCoreDriverLib/ClientLib/Contrib/proxy_server.cpp:456-514 | the same for a trustlet, with provider, binary and TCI |
| `DispatchEndToEnd.ErrorEndToEnd` | MobiCoreDriverLib/ClientLib/Contrib/proxy_server.cpp:814-844 | a get-error that completes: the driver was asked about the session named, the client reads its signed code or its error, and the session is as before |
| `DispatchEndToEnd.VersionEndToEnd` | MobiCoreDriverLib/ClientLib/Contrib/proxy_server.cpp:846-879 | a get-version that completes: the client reads the driver's version, each number in the field of its name, or its error |
| `DispatchEndToEnd.CancelEndToEnd` | MobiCoreDriverLib/ClientLib/Contrib/proxy_server.cpp:881-903 | a cancellation that completes: the driver was asked to cancel on the session named, the client learns whether it has, and the session is as before |
| `DispatchEndToEnd.OnlyKnownMethods` | MobiCoreDriverLib/ClientLib/Contrib/proxy_common.h:91-102 | a call that completes is of one of the ten methods, by their numbers |
| `DispatchEndToEnd.AnswersInOrder` | MobiCoreDriverLib/ClientLib/Contrib/proxy_server.cpp:120-189 | the k-th request handled is answered by the k-th answer of the driver |
| `DriverCalls.AsksTheDriver` | MobiCoreDriverLib/ClientLib/Contrib/proxy_server.cpp:390-903 | for every session and request: where the model says that the driver is not asked, the outcome is the same for all drivers, and where it is asked, its error is what the client is told |
| `DriverCalls.NeedsSession` | MobiCoreDriverLib/ClientLib/Contrib/proxy_server.cpp:390-812 | a request that would be passed on for some session ends as -ENOENT where there is none, and an open that would be passed on as -EBUSY where there is one; nothing changes |
| `DriverCalls.OpenArguments` | MobiCoreDriverLib/ClientLib/Contrib/proxy_client.cpp:310-324 | the driver is asked to open with the uuid, kind, TCI, login type and login data that the client gave, exactly if uuid and login data have 16 bytes |
| `DriverCalls.TrustletArguments` | MobiCoreDriverLib/ClientLib/Contrib/proxy_client.cpp:368-376 | the driver is asked to open with the provider, binary and TCI that the client gave |
| `DriverCalls.IdArguments` | MobiCoreDriverLib/ClientLib/Contrib/proxy_client.cpp:407-423 | closing, asking for the error and cancelling name the client's session to the driver |
| `DriverCalls.NotifyArguments` | MobiCoreDriverLib/ClientLib/Contrib/proxy_server.cpp:595-599 | a notify is passed on for the client's session exactly if the server has taken all its contents |
| `DriverCalls.WaitArguments` | MobiCoreDriverLib/ClientLib/Contrib/proxy_server.cpp:636-641 | the driver waits on the client's session for the time-out of the slice |
| `DriverCalls.MapArguments` | MobiCoreDriverLib/ClientLib/Contrib/proxy_server.cpp:690-720 | the driver is asked to map memory of the lengths and directions of the slots, in order, or is not asked if a direction is wrong |
| `DriverCalls.UnmapArguments` | MobiCoreDriverLib/ClientLib/Contrib/proxy_server.cpp:769-795 | the driver is asked to unmap, in order, the memory the session lists first under each address, or is not asked if one is not listed |
| `ProxyExchange.ServeIsExchange` | MobiCoreDriverLib/ClientLib/Contrib/proxy_client.cpp:102-196 | for notify, map, unmap, wait and close: the step in which ProxyCallers serves a caller comes to what the caller makes of the reply that a completed call of Rpc has returned for its request |
| `ProxyDispatch.VersionArrives` | MobiCoreDriverLib/ClientLib/Contrib/proxy_server.cpp:846-879 | the version response is read by the client as the version the driver gave |
| `ServerObjects.SessionObject.UpdateTci` | MobiCoreDriverLib/ClientLib/Contrib/proxy_common.h:223-225 | the TCI is replaced by data of its own length and otherwise left alone |
| `ServerObjects.SessionObject.FindBuffer` | MobiCoreDriverLib/ClientLib/Contrib/proxy_common.h:253-260 | the first buffer with the address |
| `ServerObjects.SessionObject.RemoveBuffer` | MobiCoreDriverLib/ClientLib/Contrib/proxy_common.h:237-251 | exactly the first buffer with the address is erased, the others keep their order |
| `ServerObjects.ServerConnection.OpenSession` | MobiCoreDriverLib/ClientLib/Contrib/proxy_server.cpp:390-454 | new session and reply as specified, over all malformed requests and driver errors |
| `ServerObjects.ServerConnection.CloseSession` | MobiCoreDriverLib/ClientLib/Contrib/proxy_server.cpp:516-546 | the session is gone exactly when the driver has closed it |
| `ServerObjects.ServerConnection.Notify` | MobiCoreDriverLib/ClientLib/Contrib/proxy_server.cpp:548-604 | the session after the loop over TCI and buffers, also where a refusal leaves it half updated |
| `ServerObjects.ServerConnection.WaitNotification` | MobiCoreDriverLib/ClientLib/Contrib/proxy_server.cpp:606-669 | reply with TCI and OUTPUT buffers, or nothing for a partial time-out; the session is not changed |
| `ServerObjects.ServerConnection.Map` | MobiCoreDriverLib/ClientLib/Contrib/proxy_server.cpp:671-741 | buffers with the addresses of the driver join the session, in request order, exactly when the driver has mapped them |
| `ServerObjects.ServerConnection.Unmap` | MobiCoreDriverLib/ClientLib/Contrib/proxy_server.cpp:743-812 | all buffers are known before the driver is asked and erased after it has agreed |
| `ClientObjects.ProxyConnection.Notify` | MobiCoreDriverLib/ClientLib/Contrib/proxy_client.cpp:440-480 | request built from TCI and INPUT buffers; connection given up if the call breaks |
| `ClientObjects.ProxyConnection.Wait` | MobiCoreDriverLib/ClientLib/Contrib/proxy_client.cpp:482-568 | the loop over slices and the copying back, step by step in memory |
| `ClientObjects.ProxyConnection.UpdateMemory` | MobiCoreDriverLib/ClientLib/Contrib/proxy_client.cpp:536-561 | memory after the response has been copied back, up to a buffer that does not fit |
| `ClientObjects.ProxyConnection.Map` | MobiCoreDriverLib/ClientLib/Contrib/proxy_client.cpp:596-657 | the session after a map, whatever the reply: as `ProxyClient.Map` says, whose effect on every slot is `ProxySlots.MapPerSlot` |
| `ClientObjects.ProxyConnection.Unmap` | MobiCoreDriverLib/ClientLib/Contrib/proxy_client.cpp:659-706 | the session after an unmap, whatever the reply: as `ProxyClient.Unmap` says, whose effect on every slot is `ProxySlots.UnmapPerSlot` |
| `ClientObjects.ProxyConnection.Close` | MobiCoreDriverLib/ClientLib/Contrib/proxy_client.cpp:407-438 | the connection goes unless the close is refused |
| `ClientObjects.SessionConnectionsList.FindConnection` | MobiCoreDriverLib/ClientLib/Contrib/proxy_client.cpp:203-211 | the first connection of the session, or none exactly if there is none |
| `ClientObjects.SessionConnectionsList.DeleteConnection` | MobiCoreDriverLib/ClientLib/Contrib/proxy_client.cpp:212-227 | exactly the first connection of the session is erased |
| `ProxyMirror.Arrives` | MobiCoreDriverLib/ClientLib/mc.pb.cpp:289-434 | a request or response built by one end is parsed by the other as the message it was |
| `ProxyMirror.UpdateAllNotifies` | MobiCoreDriverLib/ClientLib/Contrib/proxy_server.cpp:574-593 | the server finds every INPUT buffer of a mirrored session and ends up with the contents of the client's, other buffers as before |
| `ProxyMirror.CopyBackBytes` | MobiCoreDriverLib/ClientLib/Contrib/proxy_client.cpp:540-561 | every byte of memory after copying back: the last OUTPUT buffer that covers it decides, and without one it is as before |
| `ProxyMirror.CopyBackFrame` | MobiCoreDriverLib/ClientLib/Contrib/proxy_client.cpp:540-561 | copying a response back changes no memory outside the OUTPUT buffers |
| `ProxyMirror.CopyBackCopies` | MobiCoreDriverLib/ClientLib/Contrib/proxy_client.cpp:540-561 | an OUTPUT buffer is left with the server's contents if and only if, at each of its addresses, the last OUTPUT buffer that covers it has the same byte; buffers that do not overlap always are |
| `ProxyMirror.RemoveKeepsMatching` | MobiCoreDriverLib/ClientLib/Contrib/proxy_client.cpp:694-702 | removing the same addresses at both ends keeps the two lists alike |
| `ProxyAnswers.MapExchange` | MobiCoreDriverLib/ClientLib/Contrib/proxy_server.cpp:671-741 | a map request built by the client, served and answered: the connection breaks exactly for more than four buffers or wrong flags, otherwise the driver's refusal or the new buffers and their addresses come back |
| `ProxyAnswers.UnmapExchange` | MobiCoreDriverLib/ClientLib/Contrib/proxy_server.cpp:743-812 | the same for an unmap: it breaks exactly for too many buffers or one named twice, is refused for an unknown one or by the driver, and otherwise takes the buffers away |
| `ProxyAnswers.NotifyExchange` | MobiCoreDriverLib/ClientLib/Contrib/proxy_server.cpp:548-604 | the same for a notify: it breaks exactly for too many buffers or one the server does not have |
| `ProxyAnswers.WaitExchange` | MobiCoreDriverLib/ClientLib/Contrib/proxy_server.cpp:606-669 | the same for a wait of a slice in range: a partial time-out, a response with TCI and OUTPUT buffers, or one too large to be sent |
| `ProxyRuns.OpenKeepsMirror` | MobiCoreDriverLib/ClientLib/Contrib/proxy_client.cpp:291-348 | a connection comes up exactly when the driver opens a session for arguments of the right sizes and nothing is lost; both ends then have the same session and TCI |
| `ProxyRuns.CloseKeepsMirror` | MobiCoreDriverLib/ClientLib/Contrib/proxy_client.cpp:407-438 | a refused close changes nothing, any other takes the connection down |
| `ProxyRuns.MapKeepsMirror` | MobiCoreDriverLib/ClientLib/Contrib/proxy_client.cpp:596-657 | the state after any map, in terms of the slots selected: carried out at both ends or at none, the connection given up exactly for a loss, more than four buffers or flags outside 1 to 3; the two lists stay alike |
| `ProxyRuns.UnmapKeepsMirror` | MobiCoreDriverLib/ClientLib/Contrib/proxy_client.cpp:659-706 | the state after any unmap, in the same way: given up exactly for a loss, more buffers than four or than there are, or known ones with a repetition that the driver has unmapped; which slots are selected is `ProxySlots.SelectedAre` |
| `ProxySlots.SelectedAre` | MobiCoreDriverLib/ClientLib/Contrib/proxy_client.cpp:609-619 | a request carries every slot that is not null and no other, in order: slot i at the place given by the number of non-null slots before it |
| `ProxySlots.MapPerSlot` | MobiCoreDriverLib/ClientLib/Contrib/proxy_client.cpp:596-657 | a map slot by slot: refused by the client if some non-null slot is longer than a megabyte, given up for a loss, more than four of them or one without direction, and otherwise, if the driver has an address for each, every non-null slot is at the end of the client's list with its own address, and at the end of the server's with zeroed memory of its length and its flags |
| `ProxySlots.UnmapPerSlot` | MobiCoreDriverLib/ClientLib/Contrib/proxy_client.cpp:659-706 | an unmap slot by slot: refused by the client for a slot without address, given up for a loss, too many, or one buffer named twice, without effect if one names no buffer or the driver refuses, and otherwise exactly the buffers named are gone from both lists, the others keeping their order |
| `ProxyRuns.NotifyIsCoherent` | MobiCoreDriverLib/ClientLib/Contrib/proxy_server.cpp:548-604 | a notify that nothing overlaps is never refused for a protocol reason: the connection is given up exactly for a loss or a request of 2^31 bytes or more; otherwise the server's TCI and INPUT buffers equal the client's and its other buffers are unchanged |
| `ProxyRuns.WaitLoopEnds` | MobiCoreDriverLib/ClientLib/Contrib/proxy_client.cpp:496-535 | the state after any wait: still waiting while all answers were partial time-outs, given up exactly if a call is lost before the end or the response has 2^31 bytes or more, and otherwise the response copied back; the server's range check is never the cause |
| `ProxyRuns.WaitIsCoherent` | MobiCoreDriverLib/ClientLib/Contrib/proxy_client.cpp:536-561 | after a wait that ends, the client's TCI and OUTPUT buffers equal the server's and no other memory has changed |
| `ProxyRuns.EveryRunMirrors` | MobiCoreDriverLib/ClientLib/Contrib/proxy_server.cpp:671-812 | runs in which operations follow one another: with a connection, the two sessions list the same (address, length, flags) in the same order, and the next operation takes the connection down exactly in the cases named above |
| `ProxyRuns.EveryRunIsCoherent` | MobiCoreDriverLib/ClientLib/Contrib/proxy_server.cpp:548-669 | in every state of such a run: a notify that fits is accepted and makes the server's TCI and INPUT buffers the client's; a wait that ends copies back, or is given up exactly as above |
| `ProxyRuns.SliceInRange` | MobiCoreDriverLib/ClientLib/Contrib/proxy_server.cpp:619-622 | for every timeout, negative included, the server's range check refuses no slice |
| `ProxyRaces.InvRuns` | MobiCoreDriverLib/ClientLib/Contrib/proxy_client.cpp:440-706 | several callers on one connection, every interleaving of request, service and local update: each address given out is at the server, on the client's list, or with the one caller that is about to add it or take it off, with the flags and length it was given out for |
| `ProxyRaces.NotifyRefusedWhen` | MobiCoreDriverLib/ClientLib/Contrib/proxy_server.cpp:569-592 | in every such run: a notify that is not lost is refused if and only if the session has been closed or an unmap of one of the client's INPUT buffers has been served and has not taken it off the client's list |
| `ProxyRaces.AcceptedNotifyIsCoherent` | MobiCoreDriverLib/ClientLib/Contrib/proxy_server.cpp:569-592 | a notify that is accepted leaves the server with the TCI and INPUT buffers as they were when the request was built, all other buffers as before |
| `ProxyRaces.WaitCopiesWhen` | MobiCoreDriverLib/ClientLib/Contrib/proxy_client.cpp:549-560 | in every run, also once the session has been closed: the TCI of a response always fits, and a buffer of it fits if and only if its address is on the client's list; while the session is open that fails exactly if its map has not yet added it or an unmap has taken it off at both ends |
| `ProxyRaces.CopySets` | MobiCoreDriverLib/ClientLib/Contrib/proxy_client.cpp:536-561 | a part that fits sets the memory of that buffer and no other; one that does not ends the wait |
| `ProxyRaces.MissesWhen` | MobiCoreDriverLib/ClientLib/Contrib/proxy_client.cpp:694-702 | an unmap does not find its buffer on the client's list if and only if the map of that buffer has not yet added it |
| `ProxyRaces.QuietListsAgree` | MobiCoreDriverLib/ClientLib/Contrib/proxy_client.cpp:650-702 | whenever no operation is under way, the lists at the two ends are the same multiset of (address, flags, length) if and only if no unmap has missed a buffer |
| `ProxyRaces.ClosedBreaks` | MobiCoreDriverLib/ClientLib/Contrib/proxy_server.cpp:548-812 | once the server has closed the session, every operation that is still served ends with the connection deleted |
| `ProxyOrder.ListsInOrderWhen` | MobiCoreDriverLib/ClientLib/Contrib/proxy_client.cpp:650-702 | whenever no operation is under way, the lists are the same sequence if and only if no unmap has missed a buffer and what is still listed was added in the order in which maps were served |
| `ProxyOrder.ListsAreLeft` | MobiCoreDriverLib/ClientLib/Contrib/proxy_server.cpp:671-812 | at every point of every run with an open session each list is what is left of a history: the server's of the addresses in the order they were given out, the client's of the addresses in the order they were added |
| `ProxyOrder.ListsInOrder` | MobiCoreDriverLib/ClientLib/Contrib/proxy_client.cpp:650-655 | if each map has added its buffers before the next map is served, whatever else overlaps, all addresses are added in the order they were given, so the lists are the same sequence if and only if no unmap has missed |
| `ProxySerial.StepAlone` | MobiCoreDriverLib/ClientLib/Contrib/proxy_client.cpp:407-706 | an operation that nothing overlaps does what the one-step operation of ProxyRuns does: the theorems there are the case without overlap |
| `RaceExamples.MapsCross` | MobiCoreDriverLib/ClientLib/Contrib/proxy_client.cpp:650-655 | two maps whose buffers end up in opposite orders at the two ends |
| `RaceExamples.RefusedNotify` | MobiCoreDriverLib/ClientLib/Contrib/proxy_server.cpp:569-592 | a whole run from the opening of a session: a notify refused because another caller's unmap was served in between, nothing being lost |
| `RaceExamples.MissedWait` | MobiCoreDriverLib/ClientLib/Contrib/proxy_client.cpp:549-553 | a whole run from the opening of a session: a wait answered with a buffer that its map has not yet added is not copied |
| `ProxySlices.SlicesCover` | MobiCoreDriverLib/ClientLib/Contrib/proxy_client.cpp:496-535 | for T >= 0 and partial time-outs only: max(1, ceil(T/1000)) slices, each 0..1000 ms, adding up to T, only the last not partial |
| `ProxySlices.SendSlices` | MobiCoreDriverLib/ClientLib/Contrib/proxy_client.cpp:496-535 | the loop itself sends a prefix of these slices and stops at the first other answer or the final slice; for T < 0 all are partial and of full length |
| `DriverObjects.Session.AddBulkBuf` | MobiCoreDriverLib/ClientLib/Session.cpp:107-142 | an address already in the list is refused; otherwise descriptor and kernel handle are added together |
| `DriverObjects.Session.HasBufHandle` | MobiCoreDriverLib/ClientLib/Session.cpp:153-166 | a descriptor is found by secure address and length |
| `DriverObjects.Session.RemoveBulkBuf` | MobiCoreDriverLib/ClientLib/Session.cpp:169-204 | the descriptor with the address is erased and its handle unregistered |
| `DriverObjects.Session.Delete` | MobiCoreDriverLib/ClientLib/Session.cpp:58-86 | every handle still in the list is unregistered, in order |
| `DriverObjects.Device.McMap` | MobiCoreDriverLib/ClientLib/ClientLib.cpp:1106-1191 | device and result after mcMap_, for every answer of kernel and daemon |
| `DriverObjects.Device.McUnmap` | MobiCoreDriverLib/ClientLib/ClientLib.cpp:1194-1269 | device and result after mcUnmap_ |
| `DriverObjects.Device.McMallocWsm` | MobiCoreDriverLib/ClientLib/ClientLib.cpp:1031-1064 | device and result after mcMallocWsm_ |
| `DriverObjects.Device.McFreeWsm` | MobiCoreDriverLib/ClientLib/ClientLib.cpp:1067-1103 | device and result after mcFreeWsm_ |
| `DriverObjects.Device.McCloseSession` | MobiCoreDriverLib/ClientLib/ClientLib.cpp:854-903 | device and result after mcCloseSession_, as written out by `Effects.CloseEffect` |
| `DriverObjects.Device.DeleteAt` | MobiCoreDriverLib/ClientLib/Device.cpp:117-133 | removing a session releases its handles and erases it, the others keep their order |
| `DriverObjects.Device.Delete` | MobiCoreDriverLib/ClientLib/Device.cpp:59-83 | the destructor: sessions first, then WSMs |
| `DriverObjects.DriverClient.Map` | MobiCoreDriverLib/ClientLib/driver_client.cpp:284-326 | the loop over the four slots in place, with unwinding |
| `DriverObjects.DriverClient.Unmap` | MobiCoreDriverLib/ClientLib/driver_client.cpp:328-358 | the loop of unmap, going on after errors |
| `Effects.CloseEffect` | MobiCoreDriverLib/ClientLib/ClientLib.cpp:854-903 | the device after a close, written out: if the daemon accepts, the first session of that identifier is gone with the handles of its descriptors, and every other session and WSM is as before; otherwise nothing has changed |
| `Effects.OpenEffect` | MobiCoreDriverLib/ClientLib/ClientLib.cpp:306-483 | the device after an open, written out, by where the TCI lies: null, too long, in a WSM that is or is not long enough, or in memory of its own that is registered first |
| `Effects.MapEffect` | MobiCoreDriverLib/ClientLib/ClientLib.cpp:1106-1191 | the device after mcMap_, written out: one descriptor more at the end of the session's list, or none |
| `Effects.UnmapEffect` | MobiCoreDriverLib/ClientLib/ClientLib.cpp:1194-1269 | the device after mcUnmap_, written out: the first descriptor of the address gone with its handle, if a descriptor of that secure address and length is there and the daemon accepts |
| `Effects.FreeEffect` | MobiCoreDriverLib/ClientLib/ClientLib.cpp:1067-1103 | the device after mcFreeWsm_, written out: the first WSM of the address gone with its handle |
| `Effects.UnmapSetEffect` | MobiCoreDriverLib/ClientLib/driver_client.cpp:328-358 | unmapping a set goes through all of its slots whatever comes of each, and succeeds if and only if there is a non-null one and none has failed |
| `MapTransaction.MapShape` | MobiCoreDriverLib/ClientLib/driver_client.cpp:284-312 | up to its end the loop has added the accepted slots before the failing one, in slot order, and marked the slots |
| `MapTransaction.TakenBack` | MobiCoreDriverLib/ClientLib/driver_client.cpp:328-358 | unmapping slots that name the newest descriptors in order, with empty slots between, takes them back one by one and nothing else |
| `MapTransaction.MapAllOrNothing` | MobiCoreDriverLib/ClientLib/driver_client.cpp:284-358 | success appends exactly the non-null slots in slot order; failure leaves descriptors and kernel handles exactly as before if and only if nothing had been mapped or the failing slot is harmless |
| `MapTransaction.FailingSlot` | MobiCoreDriverLib/ClientLib/driver_client.cpp:301-304 | the failing slot is offered to unmap too: this changes nothing exactly when it does not name a mapped buffer while its own address is mapped |
| `MapTransaction.CleanSlotsAllOrNothing` | MobiCoreDriverLib/ClientLib/driver_client.cpp:284-358 | all or nothing if every slot comes in without a secure address; callers do not set it |
| `MapTransaction.StaleSlotLosesMapping` | MobiCoreDriverLib/ClientLib/driver_client.cpp:301-304 | a map that fails, with a stale secure address in its failing slot: a buffer mapped before is gone |
| `MapTransaction.UnmapHarmless` | MobiCoreDriverLib/ClientLib/driver_client.cpp:328-358 | unmapping any slots changes nothing exactly if each is empty, not mapped, or at an address that is not |
| `Handles.OpConserves` | MobiCoreDriverLib/ClientLib/ClientLib.cpp:306-1269 | every operation, successful or not, keeps live handles = WSM handles + descriptor handles + leaked handles as a disjoint union, and the kernel refuses no release |
| `Handles.OpenKeeps` | MobiCoreDriverLib/ClientLib/ClientLib.cpp:306-483 | an open that fails after registering the TCI leaks exactly that handle; no other operation leaks |
| `Handles.OpKeepsVas` | MobiCoreDriverLib/ClientLib/Session.cpp:107-142 | no virtual address gets into a session twice |
| `Handles.EveryRunConserves` | MobiCoreDriverLib/ClientLib/ClientLib.cpp:306-1269 | conservation over every run |
| `Handles.DestroyReleasesTheRest` | MobiCoreDriverLib/ClientLib/Device.cpp:59-83 | destroying the device releases each handle it owns exactly once and no other |
| `Handles.DeviceLifeTime` | MobiCoreDriverLib/ClientLib/Device.cpp:59-211 | from opening to destroying a device, whatever happens in between, what stays live is exactly what failed opens have leaked |
| `WsmTable.RemoveFromMultiset` | MobiCoreDriverLib/ClientLib/Contrib/mc_client_api.cpp:103-122 | removal with the last entry removes exactly one entry from the multiset |
| `WsmTable.FreeEffect` | MobiCoreDriverLib/ClientLib/Contrib/mc_client_api.cpp:568-580 | freeing takes the first entry of the address and its block, if the block is not empty and the client agrees, and otherwise changes nothing |
| `WsmTable.Table.Add` | MobiCoreDriverLib/ClientLib/Contrib/mc_client_api.cpp:73-101 | an entry is appended unless memory runs out; capacity is 0 or 16 times a power of two and at most max(16, twice the peak) |
| `WsmTable.Table.RemoveEntry` | MobiCoreDriverLib/ClientLib/Contrib/mc_client_api.cpp:103-122 | removal in place, with the same bounds on length and capacity |
| `WsmTable.Table.LenOf` | MobiCoreDriverLib/ClientLib/Contrib/mc_client_api.cpp:124-135 | the length of the first entry with the address, or 0 |
| `WsmTable.Table.RemoveLast` | MobiCoreDriverLib/ClientLib/Contrib/mc_client_api.cpp:137-149 | the last entry, or a null one for an empty table |
| `WsmTable.Table.FreeRemaining` | MobiCoreDriverLib/ClientLib/Contrib/mc_client_api.cpp:275-281 | the loop of mcCloseDevice |
| `WsmTable.DrainEmpties` | MobiCoreDriverLib/ClientLib/Contrib/mc_client_api.cpp:275-281 | it ends with an empty table |
| `WsmTable.DrainReleasesOnlyDuplicates` | MobiCoreDriverLib/ClientLib/Contrib/mc_client_api.cpp:568-580 | it frees a block exactly when some address is listed twice: an entry is popped before its length is looked up |
| `WsmTable.DistinctNeverFreed` | MobiCoreDriverLib/ClientLib/Contrib/mc_client_api.cpp:275-281 | blocks with addresses of their own are never freed by it, whatever the client answers |
| `GpOperation.TypesDecode` | MobiCoreDriverLib/ClientLib/Contrib/tee_client_api.cpp:225 | nibble i of the TCI's type word decodes to the translation of the caller's type i, for all four, exactly when no translation spills |
| `GpOperation.WordNibbles` | MobiCoreDriverLib/ClientLib/Contrib/tee_client_api.cpp:225 | what is in each nibble in every case |
| `GpOperation.Spills` | MobiCoreDriverLib/ClientLib/Contrib/tee_client_api.cpp:173-186 | only flags of a whole reference beyond the specification's can spill |
| `GpOperation.WholeReadsAsTemp` | MobiCoreDriverLib/ClientLib/Contrib/tee_client_api.cpp:173-186 | registered whole memory is presented as a temporary reference of the same direction |
| `GpOperation.SetupUnwind` | MobiCoreDriverLib/ClientLib/Contrib/tee_client_api.cpp:105-401 | for every TCI, operation and reply that keeps the mappings: unwinding asks for exactly the (va, sva, len) that setting up mapped, in the same order, if and only if the reply passes the checks of origin and status and the operation is exact, or it does not pass and nothing was mapped |
| `GpOperation.ZeroedIsExact` | MobiCoreDriverLib/ClientLib/Contrib/tee_client_api.cpp:244-250 | on a zeroed block the only exception is a size whose low 32 bits are zero |
| `GpOperation.StaleMappingUnwound` | MobiCoreDriverLib/ClientLib/Contrib/tee_client_api.cpp:300-345 | a later operation with an empty reference: once answered, the mapping of an earlier one is asked to be removed again; unanswered, nothing is |
| `GpObjects.SetupOperation` | MobiCoreDriverLib/ClientLib/Contrib/tee_client_api.cpp:105-277 | slots asked for, TCI, result and origin, and what a failure unwinds, for every operation and answer |
| `GpObjects.UnwindOperation` | MobiCoreDriverLib/ClientLib/Contrib/tee_client_api.cpp:280-401 | slots handed back, result and origin; and, field by field for each of the caller's parameters, what it gets back: output values, sizes of memory it could be written to, and everything else as it was |
| `GpFields.GivenBack` | MobiCoreDriverLib/ClientLib/Contrib/tee_client_api.cpp:300-378 | what each parameter is handed back as: values a and b of output values, the output size of temporary, partial and whole memory with output, and all other fields as the caller gave them |
| `GpFields.ValueRoundTrip` | MobiCoreDriverLib/ClientLib/Contrib/tee_client_api.cpp:149-155 | a value for input and output that the secure side leaves alone comes back as it was, through setting up and unwinding, whatever the other parameters are |
| `GpFields.InputArrives` | MobiCoreDriverLib/ClientLib/Contrib/tee_client_api.cpp:149-155 | a value for input reaches the secure side, and what it writes there does not come back |
| `GpFields.MemoryAskedFor` | MobiCoreDriverLib/ClientLib/Contrib/tee_client_api.cpp:156-219 | address, length and direction of the slot each memory reference asks for, and when it asks for none |
| `GpFields.TypesTold` | MobiCoreDriverLib/ClientLib/Contrib/tee_client_api.cpp:173-205 | the type the secure side is told for every type of the caller: partial and whole references as temporary ones of their direction |
| `GpFields.Refusals` | MobiCoreDriverLib/ClientLib/Contrib/tee_client_api.cpp:187-223 | the types and partial references that are refused, by direction and by where they end |
| `GpTransaction.OperationRestoresDevice` | MobiCoreDriverLib/ClientLib/Contrib/tee_client_api.cpp:479-558 | setting up through DriverClient::map, a reply that keeps the mappings, and unwinding: a reply that does not pass the checks leaves everything mapped; one that passes restores descriptors and kernel handles if and only if no slot handed back, when its turn comes, takes a mapping the session had before, and no new one is left; with no length lost to 32 bits the first alone decides; with none left over, exactness does |
| `Unwinding.RestoredWhen` | MobiCoreDriverLib/ClientLib/driver_client.cpp:328-358 | the same for any slots and any session: unmapping them after a mapping restores the device if and only if none takes an older mapping and no new one is left |
| `Unwinding.AllTaken` | MobiCoreDriverLib/ClientLib/driver_client.cpp:328-358 | if every new mapping is named by some slot, none is left, whatever stale slots are in between |
| `GpTransaction.FailedSetupRestoresDevice` | MobiCoreDriverLib/ClientLib/Contrib/tee_client_api.cpp:244-275 | setting up that is refused or whose mapping fails: unwinding what the TCI held before leaves the device as it was if and only if none of it names a mapping of the session |
| `RegistryPaths.WordInjective` | MobiCoreDriverLib/Registry/PrivateRegistry.cpp:97-103 | different 32-bit identifiers have different names |
| `RegistryPaths.BytesInjective` | MobiCoreDriverLib/Registry/PrivateRegistry.cpp:86-94 | different uuids have different names |
| `RegistryPaths.KeyPathInjective` | MobiCoreDriverLib/Registry/PrivateRegistry.cpp:147-169 | no two containers, of one kind or of different kinds, share a path |
| `RegistryPaths.ContainersApart` | MobiCoreDriverLib/Registry/PrivateRegistry.cpp:153-217 | no container is a binary, a file of a GP application, or inside a data directory |
| `RegistryStore.ReadLastStored` | MobiCoreDriverLib/Registry/PrivateRegistry.cpp:387-560 | after any sequence of stores a container's file holds the last value stored under its own key |
| `RegistryStore.ReadAfterStores` | MobiCoreDriverLib/Registry/PrivateRegistry.cpp:423-738 | it reads as that value cut to the caller's size; an empty one does not read |
| `RegistryCleanup.TrustletEffect` | MobiCoreDriverLib/Registry/PrivateRegistry.cpp:1091-1146 | cleaning up a trustlet touches no other container, and on success its own is gone |
| `RegistryCleanup.SpEffect` | MobiCoreDriverLib/Registry/PrivateRegistry.cpp:1150-1207 | the same for a provider and the trustlets its container names; a short container ends it unchanged with the code of the read |
| `RegistryCleanup.RootEffect` | MobiCoreDriverLib/Registry/PrivateRegistry.cpp:1211-1241 | on success all that goes with the root is gone; in any case no other container has changed; a short root container ends it unchanged with the code of the read |
| `RegistryCleanup.ProviderGoneWhen` | MobiCoreDriverLib/Registry/PrivateRegistry.cpp:1150-1241 | when cleaning up a full-size root succeeds, a provider it names is gone if and only if its container was of full size |
| `RegistryCleanup.RootCleansEverything` | MobiCoreDriverLib/Registry/PrivateRegistry.cpp:1150-1241 | the providers it names are all gone if and only if all their containers were of full size; then their trustlets are gone too; the root is gone and all containers that do not go with it are as before |
| `RegistryCleanup.ShortProviderStays` | MobiCoreDriverLib/Registry/PrivateRegistry.cpp:1165-1171 | clean-up succeeds with a short provider container in place |
| `RegistryFiles.TrustletFiles` | MobiCoreDriverLib/Registry/PrivateRegistry.cpp:1091-1146 | cleaning up a trustlet, for every file and directory: if its data cannot be emptied, only what could be removed from there is gone; otherwise its data directory, its binary (or the files of a GP one) and its container, as far as they can be removed, and nothing else |
| `RegistryFiles.TrustletDataGone` | MobiCoreDriverLib/Registry/PrivateRegistry.cpp:1103-1122 | a successful clean-up leaves neither the data directory nor a file in it |
| `RegistryFiles.SpDataGone` | MobiCoreDriverLib/Registry/PrivateRegistry.cpp:1150-1207 | a successful clean-up of a full-size provider leaves neither its data directory nor those of the trustlets it names |
| `RegistryFiles.ChildrenAre` | MobiCoreDriverLib/Registry/PrivateRegistry.cpp:1211-1232 | the children of the root container are little-endian words from byte 76 on, those of a provider uuids from byte 60 on |
| `RegistryFiles.SpidRoundTrip` | MobiCoreDriverLib/Registry/PrivateRegistry.cpp:1211-1232 | a provider written into the root container is the one cleaned up |
| `RegistryFiles.FreeEntries` | MobiCoreDriverLib/Registry/PrivateRegistry.cpp:1168-1224 | an entry is skipped exactly if all its bytes are ones |
| `RegistryFiles.WordDigits` | MobiCoreDriverLib/Registry/PrivateRegistry.cpp:97-103 | an identifier's name is its eight capital hexadecimal digits, lowest first |
| `RegistryFiles.ByteDigits` | MobiCoreDriverLib/Registry/PrivateRegistry.cpp:86-94 | a uuid's name is the small hexadecimal digits of its bytes |
| `RegistryFiles.HeaderRoundTrip` | common/MobiCore/inc/mcLoadFormat.h:82-127 | magic word, service type and uuid are read from a header as it is laid out |
| `RegistryFiles.OutcomeByHeader` | MobiCoreDriverLib/Registry/PrivateRegistry.cpp:1244-1348 | refused, loaded or out of bounds, by length, magic word, service type and the sizes of the containers |
| `RegistryBlob.FitsWhen` | MobiCoreDriverLib/Registry/PrivateRegistry.cpp:1344-1348 | the containers stay inside the allocation exactly when root, provider and the trustlet container's file add up to at most 1536 bytes |
| `RegistryBlob.SmallContainersFit` | MobiCoreDriverLib/Registry/PrivateRegistry.cpp:1292-1375 | containers of at most 512 bytes fit, and the last is read whole |
| `RegistryFiles.ReadWholeWhen` | MobiCoreDriverLib/Registry/PrivateRegistry.cpp:1344-1348 | the last container is read whole up to 1600 bytes for the three together, 64 more than there is room for |
| `RegistryBlob.LargestContainerDoesNotFit` | MobiCoreDriverLib/Registry/PrivateRegistry.cpp:1344-1348 | the largest container that can be stored does not fit |
| `RegistryBlob.BlobCutsBack` | MobiCoreDriverLib/Registry/PrivateRegistry.cpp:1305-1375 | cutting the object by the recorded sizes gives trustlet, root, provider and trustlet container back |
| `RegistryBlob.BlobOfStoredContainers` | MobiCoreDriverLib/Registry/PrivateRegistry.cpp:1323-1352 | after any sequence of stores the blob takes the values last stored, cut to the size of their structures |
| `RegistryObject.Registry.StoreContainer` | MobiCoreDriverLib/Registry/PrivateRegistry.cpp:387-560 | files and result after a store of any kind |
| `RegistryObject.Registry.McCleanupTrustlet` | MobiCoreDriverLib/Registry/PrivateRegistry.cpp:1091-1146 | files and result, step by step in place |
| `RegistryObject.Registry.McCleanupSp` | MobiCoreDriverLib/Registry/PrivateRegistry.cpp:1150-1207 | files and result, with the loop over the children |
| `RegistryObject.Registry.McCleanupRoot` | MobiCoreDriverLib/Registry/PrivateRegistry.cpp:1211-1241 | files and result, with the loop over the providers |
| `RegistryObject.MemGetServiceBlob` | MobiCoreDriverLib/Registry/PrivateRegistry.cpp:1244-1378 | for every trustlet and every registry: refused, loaded, or going out of bounds, as specified; a loaded object is length information, trustlet, root, provider and trustlet container behind one another, `len` their sum |

## Left out

- Protobuf memory management (default instances, `Swap`, `release_*`, `set_allocated_*`), cached sizes, the library's recursion limit and its 64 MB total limit: the model reads nested messages to any depth the schema has.
- A nested length that runs past its input is a failure, as the Encoding specification has it; how the library reports it is not modelled.
- What the client does around `gpRequestCancellation`, `openTrustlet`, `getVersion` and `getError`, other than the request and the response: it finds or opens the connection and forwards.
- ProxyCallers: `connection_mutex` and the reference counting of connections are not modelled, nor what a caller does with a connection that another caller has deleted: `Gone` ends the run. A client with several connections keeps them in a list (`SessionConnectionsList`) and they share nothing else.
- ProxyOverlap, ProxyRaces: `lost` stands for every way in which an exchange does not complete.
- ClientObjects.ProxyConnection.Wait: like `ProxyRuns.WaitLoopEnds`, a connection the server closes after a partial time-out is given up at once; the code makes one more call first, because errno still says ETIME. That call fails, as the socket is closed, and the connection is given up then; only the number of calls differs.
- ProxyServer.Unmap: an address named twice ends as -EPIPE; the code reads the address of the buffer it has just deleted on the way there (proxy_server.cpp:803-804).
- `errno` values a client operation returns, and credential passing, socket set-up, the accept loop and joining threads.
- The page-aligned length of server buffers (`Session::Buffer::alloc`): only the requested length is visible to the protocol.
- Union aliasing in TEEC_Parameter: a parameter is a record of all its fields, of which its type selects. The flags of slots to be unmapped, which the code leaves uninitialized, are 0.
- Cancellation while an operation is being set up (`isCancelled`), the TCI's header bytes, and TEEC_RegisterSharedMemory and its kin: no state that mapping depends on.
- RegistryObject.MemGetServiceBlob: a write past the end of the allocation, or a read past the end of a trustlet shorter than its header, ends as `OutOfBounds`; what the memory then holds is not modelled.
- `deleteSPTA`, `mcCheckUuid` and the attestation checks: deleteSPTA is a parameter that removes only files of GP applications. Data containers, auth tokens and TA blobs of the registry are not modelled.
- `device->setInvalid()` after a failure of the daemon's socket (ClientLib.cpp:896, 1263): the device of the model stays in use.
- Driver.UnmapOne: the handle sent to the daemon is not part of the model; the daemon's answer is.
- `MobiCoreDriverDaemon.cpp`, `common_client.cpp`, semaphores, threads, netlink, the error-code tables and logging: forwarding or system code.
