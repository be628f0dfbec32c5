# A PKCS#11 proxy, modelled and verified in Dafny

pkcs11-proxy lets an application use a PKCS#11 module that lives on another machine. A client-side
module marshals each `C_*` call into a frame; a daemon decodes the frame, calls the real module and sends
a frame back. This project models the parts of it that have to fit together for that to work, and proves
that they do:

- the growable byte buffer and its sticky failure counter (`EggBuffer.dfy`), on `Bytes.dfy`;
- the part vocabulary, the signature cursor and the table of 67 calls (`Signature.dfy`);
- the typed wire format as functions on bytes (`Wire.dfy`), on which no message survives being cut short
  (`Truncation.dfy`), and the message object, its readers and its writers as imperative code proved against
  that format (`Message.dfy`, `ClientReads.dfy`);
- what either end makes of a call's arguments before the module is asked (`Arguments.dfy`), and what the client
  makes of any bytes it takes for a reply (`Verdicts.dfy`);
- a whole call, from the client's request through the daemon's dispatch back to the client, where every
  allocation may fail (`Dispatch.dfy`), and the calls with a byte output, a list or a template down to the
  caller's memory (`ByteCalls.dfy`, `ListCalls.dfy`, `AttributeCalls.dfy`);
- what the caller of a proxied function sees, compared with a direct call (`Proxy.dfy` for byte outputs,
  `ProxyAttributes.dfy` for `C_GetAttributeValue`, `ProxyLists.dfy` for lists and mechanisms);
- frames over sockets that move arbitrarily few bytes at a time (`Framing.dfy`);
- the client's pool of call states, as the linked list the code keeps (`Pool.dfy`) and as a state machine
  over all interleavings of client threads and daemon loops (`CallPool.dfy`), with what becomes of a response
  that cannot be reserved (`Replies.dfy`) and runs in which that happens (`UnreadReply.dfy`);
- the daemon's session table, as code against the real module (`Sessions.dfy`), as an abstract machine with
  its runs (`SessionRuns.dfy`), the refinement between the two over a whole connection (`Connection.dfy`), and
  a run that leaves a session open for good (`SessionLeak.dfy`);
- the mechanism list purge (`Mechanisms.dfy`) and the pre-shared key file (`PskFile.dfy`).

The main results, each over every input or every run:

- **Transparency.** For every module result that keeps the conventions of sections 11.2 and 11.7 of
  PKCS#11 v2.20, a proxied call leaves the caller with the same code, lengths, -1 marks and bytes as a
  direct one (`TransparentBytes`, `TransparentAttributes`, `TransparentList`). `BytesAskedIff`,
  `AttributesAskedIff`, `RoomAgreesIff` and `ErrorCodeIff` say exactly where the proxy changes the question or
  the code; `EncryptTooLong`, `UnknownMechanismRefused`, `ParameterDropped` and `EmptyBufferMisreported` are
  inputs at which it does, and `EmptyListIff` says when the caller of a list function notices.
- **Code and function.** If memory does not run out, the code of both ends computes exactly the functions these
  results are about; if it does, the call ends with a memory or device error and nothing is changed
  (`ByteCall`, `ListCall`, `AttributeCall`, on `Dispatch.Call`).
- **Pairing and ownership.** In every run of client threads and daemon loops, whatever reservations fail, no
  call state is shared, no `assert` on a call state's status, socket or link fires, and a call that completes
  with anything but CKR_DEVICE_ERROR has taken the daemon's reply to its own request (`Ownership`, `Pairing`,
  `OwnReply`, `Completed`). The connections in the pool stay at a frame boundary exactly if no response that
  could not be reserved is left unread on one of them (`SoundIff`, `ReserveFailDirties`). The next call on such a
  connection fails, or makes the client abort, and `AbortIff` says exactly when; `SecondCall` and
  `SlotInfoAborts` are the runs.
- **Sessions.** Each request of a connection takes exactly the step it asks for (`Serve`, `Connection`). In every run the table is exactly the set of sessions opened on this connection and not yet
  closed; at the end of a connection each has been closed exactly once, in the module's own log; connections
  never touch each other's sessions (`Refinement`, `Connection`, `Teardown`, `Isolation`). A session refused
  with `CKR_SESSION_COUNT` survives every sweep, and these are exactly the ones a connection leaves open
  (`RefusedSessionLeaks`, `LeaksIff`, `AllClosedIff`; `LeakingRun` is such a connection).
- **Wire.** Every list of typed parts comes back from its encoding, whatever surrounds it, and a signature
  determines its parts (`RoundTrip`, `MessageRoundTrip`, `SignatureAgreement`); `ParseHeaderIff` says exactly
  which messages are accepted; frames survive any schedule of short transfers (`ReadFrames`).
- **Damage.** A message that lost bytes anywhere is never sent by either side (`Request`, `DispatchCall`,
  `ServeFrame`), and a reply that could not be stored is never taken for a good one (`TakeReply`), so a call
  ends with the module's answer or, if some allocation failed, with a memory or device error (`Dispatch.Call`).

CK_ULONG and size_t are 64 bits wide. The real module, the allocator, sockets and thread scheduling are
represented by arbitrary choices: functions taken as parameters, nondeterministic values, and steps that may
happen in any order. The asserts of the code are on: those on the signature cursor, on call states and on the pool become proof obligations.

## Model

| member | source | states |
|---|---|---|
| `Bytes.Uint32RoundTrip` | egg-buffer.c:284-296 | Decoding a big-endian 32-bit word undoes encoding it |
| `Bytes.Uint32Onto` | egg-buffer.c:284-296 | Every four bytes are the encoding of the word they decode to |
| `Bytes.BigEndian` | egg-buffer.c:284-296 | Of two words the smaller has the smaller byte where their encodings first differ |
| `Bytes.Uint64RoundTrip` | egg-buffer.c:336-357 | A 64-bit value sent as two words comes back |
| `EggBuffers.NewCapacityCoversIff` | egg-buffer.c:149-179 | The capacity asked for covers the request exactly when the size_t sum does not wrap around |
| `EggBuffers.NewCapacityWraps` | egg-buffer.c:157-160 | A concrete request for which the sum wraps and one byte is asked for |
| `EggBuffers.GrowthStep` | egg-buffer.c:149-179 | A growth at least doubles the capacity, covers the request and is at most twice the request |
| `EggBuffers.GrowthBound` | egg-buffer.c:149-179 | Over any run of reserves, capacity is at most the initial one or twice the largest request, and all old capacities copied sum to at most the growth |
| `EggBuffers.EggBuffer.constructor` | egg-buffer.c:37-60 | A new buffer is empty, with 64 bytes of capacity if none was asked for; without memory it counts a failure and can never grow |
| `EggBuffers.EggBuffer.Reset` | egg-buffer.c:91-96 | Contents and failure count are cleared |
| `EggBuffers.EggBuffer.Reserve` | egg-buffer.c:149-179 | Always succeeds below the capacity, and if the allocator is reliable for any request it can meet; success makes room exactly if the size_t sum does not wrap, and then the block's bytes survive any reallocation; failure is counted once; memory owned elsewhere is never grown |
| `EggBuffers.EggBuffer.AddEmpty` | egg-buffer.c:190-197 | The contents are extended over the bytes already in the block, even when the block is reallocated; failure changes nothing |
| `EggBuffers.EggBuffer.Append` | egg-buffer.c:199-206 | Exactly the given bytes are appended, or nothing and one failure is counted |
| `EggBuffers.EggBuffer.AddByte` | egg-buffer.c:208-215 | The byte is appended, or nothing and one failure is counted |
| `EggBuffers.EggBuffer.AddUint32` | egg-buffer.c:298-305 | The encoded word is appended, or nothing and one failure is counted |
| `EggBuffers.EggBuffer.AddUint64` | egg-buffer.c:336-341 | Success appends the eight bytes; a failure is counted once and leaves nothing or the first word behind |
| `EggBuffers.EggBuffer.AddByteArray` | egg-buffer.c:359-372 | Success appends length and bytes, or the NULL word; an array of 0x7fffffff bytes or more is a failure; a failure is counted once and leaves nothing or the length word behind |
| `EggBuffers.EggBuffer.GetByte` | egg-buffer.c:217-232 | Reads within the contents or fails; only a failure is counted |
| `EggBuffers.EggBuffer.GetUint32` | egg-buffer.c:319-334 | Reads four bytes within the contents or fails; only a failure is counted |
| `EggBuffers.EggBuffer.GetUint64` | egg-buffer.c:343-357 | Reads two words within the contents or fails with one failure counted |
| `EggBuffers.EggBuffer.GetByteArray` | egg-buffer.c:385-419 | NULL, or bytes wholly within the contents, or one failure |
| `EggBuffers.EggBuffer.Receive` | gck-rpc-dispatch.c:2276-2288 | Reserve, read into the block and extend publishes exactly the bytes read, or nothing with one failure |
| `Signature.VerifyAllIff` | gck-rpc-message.c:207-219 | The checks on a sequence of parts pass exactly when the cursor began with the concatenation of their codes |
| `Signature.PrefixFree` | gck-rpc-private.h:121-207 | No part code is a prefix of another |
| `Signature.AcceptedAgree` | gck-rpc-message.c:207-219 | Of two part sequences accepted by one signature, one is a prefix of the other |
| `Signature.SignatureAgreement` | gck-rpc-private.h:247 | Two part sequences that pass one signature and end verified are equal |
| `Signature.CodesInjective` | gck-rpc-private.h:121-207 | A signature string determines its parts |
| `Wire.PartHeld` | gck-rpc-message.c:221-482 | Wherever a part's encoding lies, decoding its kind yields it and stops at its end |
| `Wire.AttributesHeld` | gck-rpc-dispatch.c:464-556 | A template of invalid, NULL, empty and filled attributes is decoded as it was sent |
| `Wire.WantsHeld` | gck-rpc-dispatch.c:405-462 | A list of wanted types and sizes is decoded as it was sent |
| `Wire.UlongsHeld` | gck-rpc-module.c:959-1005 | A list of ulongs is decoded as it was sent |
| `Wire.RoundTrip` | gck-rpc-message.c:221-482 | Any list of parts within the wire limits comes back from between any prefix and any suffix, which is not touched |
| `Wire.UniqueDecoding` | gck-rpc-message.c:221-482 | Two encodings with the same kinds that agree as streams hold the same parts and the same rest |
| `Wire.HeaderRoundTrip` | gck-rpc-message.c:85-180 | The header written for a call is accepted, names the call and ends where its parts begin |
| `Wire.ParseHeaderIff` | gck-rpc-message.c:124-180 | A message is taken for a call, and its parts begin behind the header, exactly if it begins with the id and the signature of that call, or with NULL for an empty signature; for an error exactly if it begins with 0 and is no request; and for nothing else |
| `Wire.NullSignature` | gck-rpc-message.c:164-176 | A C_Finalize request with a NULL signature, which the client never writes, is accepted |
| `Wire.MessageRoundTrip` | gck-rpc-message.c:85-180 | A message whose parts spell its signature is read back exactly, to its last byte |
| `Truncation.PartStable` | gck-rpc-dispatch.c:229-310 | A part that has been read is the same part with any bytes after it |
| `Truncation.CutShort` | gck-rpc-dispatch.c:2264-2286 | No message can be read from less than its whole length |
| `Arguments.AdmitAllIff` | gck-rpc-module.c:1159-1218 | The client sends the caller's own arguments exactly when none is a NULL array with a length, too long for the wire, or a mechanism it does not know or whose parameter it drops |
| `Arguments.FirstRefused` | gck-rpc-module.c:1159-1218 | The first argument that is refused decides the code of the call |
| `Arguments.NoneRefused` | gck-rpc-module.c:1159-1218 | If none is refused each is sent in its place |
| `Arguments.RefusedIff` | gck-rpc-module.c:1159-1218 | Exactly which calls are refused and with which code, spelled out: session 0 in C_CreateObject and C_GenerateKeyPair (0xb3), an unknown mechanism in C_GetMechanismInfo (0x70), no data in C_SignUpdate and no buffer in C_GenerateRandom (7), and in any call the first argument that is a NULL array with a length (7), an unknown mechanism (0x70) or too long (2); every other call is sent in order |
| `Arguments.BufferEntry` | gck-rpc-module.c:2385-2389 | Of the calls that end in an output buffer only C_GenerateRandom refuses one for its value, a NULL buffer |
| `Messages.NewMessage` | gck-rpc-message.c:37-56 | An empty message without a signature and without failures, or NULL |
| `Messages.Message.Reset` | gck-rpc-message.c:72-83 | Buffer, failures, position and signature are cleared |
| `Messages.Message.Prep` | gck-rpc-message.c:85-122 | On success the buffer is the header of the call and the cursor stands at the start of its signature; success means no failure was counted |
| `Messages.Message.Parse` | gck-rpc-message.c:124-180 | Accepts exactly the headers of known calls with the right signature, and error replies but no error requests; what it leaves in call id, position, cursor and failures is stated for rejected messages too |
| `Messages.Message.Verify` | gck-rpc-message.c:207-219 | The cursor moves over the part that was announced |
| `Messages.Message.WriteByte` | gck-rpc-message.c:304-311 | Gains the encoding of the byte unless a failure is counted; the cursor advances |
| `Messages.Message.WriteUlong` | gck-rpc-message.c:328-335 | Gains the encoding of the ulong unless a failure is counted |
| `Messages.Message.WriteSpaceString` | gck-rpc-message.c:468-482 | Gains the encoding of the string; one too long for the wire is a failure |
| `Messages.Message.WriteVersion` | gck-rpc-message.c:426-438 | Gains both version bytes unless a failure is counted |
| `Messages.Message.WriteByteBuffer` | gck-rpc-message.c:337-356 | Gains the NULL flags and the room, 0 for a NULL count |
| `Messages.Message.WriteByteArray` | gck-rpc-message.c:358-377 | Gains a valid array, or the length alone for NULL; one too long for the wire is a failure |
| `Messages.Message.WriteUlongBuffer` | gck-rpc-message.c:379-386 | Gains the count |
| `Messages.Message.WriteUlongArray` | gck-rpc-message.c:388-410 | Gains all entries, or the count alone for NULL |
| `Messages.Message.WriteMechanism` | gck-rpc-module.c:1007-1039 | Sends no parameter for mechanisms without one, the parameter for those with a plain one, and refuses all others |
| `Messages.Message.WriteAttributeBuffer` | gck-rpc-message.c:221-249 | Gains type and room of every entry, no room for a NULL value |
| `Messages.Message.WriteAttributeArray` | gck-rpc-message.c:251-292 | Gains every attribute in order, or counts a failure; a value too long for the wire is always a failure |
| `Messages.Message.ReadByte` | gck-rpc-message.c:294-302 | Takes the byte at the position, or fails |
| `Messages.Message.ReadUlong` | gck-rpc-message.c:313-326 | Takes the ulong at the position, or fails |
| `Messages.Message.ReadVersion` | gck-rpc-message.c:412-424 | Takes both version bytes, or fails |
| `Messages.Message.ReadFixedString` | gck-rpc-message.c:440-466 | Takes a string of exactly the expected length, or fails |
| `Messages.Message.ReadSpaceString` | gck-rpc-dispatch.c:589-615 | Takes the string at the position into a block of its own, or fails for want of bytes or memory |
| `Messages.Message.ReadByteBuffer` | gck-rpc-dispatch.c:229-269 | Takes flags and room, or fails; a buffer larger than call_alloc allows is always refused with CKR_DEVICE_MEMORY |
| `Messages.Message.ReadByteArray` | gck-rpc-dispatch.c:271-310 | Takes an array or a bare length, or fails |
| `Messages.Message.ReadUlongBuffer` | gck-rpc-dispatch.c:341-374 | Takes the count, or fails; a list larger than call_alloc allows is always refused with CKR_DEVICE_MEMORY |
| `Messages.Message.ReadMechanism` | gck-rpc-dispatch.c:617-646 | Takes a mechanism and its parameter, or fails |
| `Messages.Message.ReadAttributeBuffer` | gck-rpc-dispatch.c:405-462 | Takes all wanted types and sizes in order, or fails; memory is asked for before the entries are read, so a short message may also give CKR_DEVICE_MEMORY, and sizes beyond call_alloc always do |
| `Messages.Message.ReadUlongArray` | gck-rpc-module.c:959-1005 | Takes a list or a bare count, or fails |
| `Messages.Message.ReadAttributeArray` | gck-rpc-dispatch.c:464-556 | Takes all attributes in order, or fails, for want of memory even on a short message; a value whose length contradicts the announced one is refused |
| `Messages.CallAlloc` | gck-rpc-dispatch.c:164-186 | No block above 0x7fffffff bytes is ever granted |
| `ClientReads.ReadByteArrayInto` | gck-rpc-module.c:904-957 | The caller's buffer, count and code after the read are those of the proxy function: on success exactly the bytes received stand at the start of the buffer and every byte behind them is as it was; otherwise the buffer is not touched |
| `ClientReads.FillAttributes` | gck-rpc-module.c:797-890 | The loop fills in exactly the entries it read, leaves the others, and stops at a wrong type or a short message |
| `ClientReads.ReadAttributeArrayInto` | gck-rpc-module.c:773-902 | The template is filled in in place as the proxy function says and the code sent with it is returned; a reply for another template is a parse error; in every case exactly the entries accepted before are filled in |
| `ClientReads.ReadUlongArrayInto` | gck-rpc-module.c:959-1005 | The list, count and code are those of the proxy function and the rest of the list is untouched, although the loop runs on after a short read |
| `ClientReads.ReadMechanismListInto` | gck-rpc-module.c:1269-1275 | The list just read is purged in place, leaving the supported mechanisms in order and their count |
| `Dispatch.WriteParts` | gck-rpc-dispatch.c:821-855 | Writing a call's results gains their whole encoding and ends verified, or counts a failure; any part too long for the wire counts one |
| `Dispatch.Build` | gck-rpc-dispatch.c:2140-2148 | A message is undamaged exactly when no failure was counted, and then it is the encoding of its parts, each of which fits the wire |
| `Dispatch.ReadParts` | gck-rpc-dispatch.c:785-819 | Reading a call's arguments yields exactly the decoded parts, none of which call_alloc refuses, and ends verified; or it fails where decoding fails or memory runs out |
| `Dispatch.PutArgument` | gck-rpc-module.c:1159-1218 | One argument is written as the client sends it, or the call ends with its refusal or for lack of memory |
| `Dispatch.PutArguments` | gck-rpc-module.c:1159-1218 | All arguments are written as the client sends them, or the call ends with the first refusal, or for lack of memory if it ran out |
| `Dispatch.Request` | gck-rpc-module.c:558-582 | A request that leaves is undamaged and encodes exactly the arguments in order; a call is refused with the code spelled out in `RefusedIff`, and no other is, unless memory ran out (CKR_HOST_MEMORY) |
| `Dispatch.DispatchCall` | gck-rpc-dispatch.c:2009-2154 | What may be sent is an undamaged reply; a request that could not be decoded or taken in is answered with an error; with memory for all that call_alloc allows there is always a reply, and it is the module's own answer |
| `Dispatch.ServeFrame` | gck-rpc-dispatch.c:2260-2302 | A frame is answered with the reply to the call it encodes, with an error if its parts are damaged or too large, or not at all; with memory it is answered exactly if its header parses, by the module's own answer |
| `Dispatch.TakeIn` | gck-rpc-module.c:636-649 | The response is stored whole and parsed, with memory always; or it is empty with the call id still 0, or not reserved at all |
| `Dispatch.TakeReply` | gck-rpc-module.c:632-721 | On any reply that does not make it abort, the code of call_run and the position it leaves are those of the verdict, or CKR_HOST_MEMORY or CKR_DEVICE_ERROR if memory ran out |
| `Dispatch.Call` | gck-rpc-module.c:668-722 | The caller gets the refusal spelled out in `RefusedIff`, CKR_DEVICE_ERROR for a request the daemon does not take for its length, or the module's own answer to exactly the arguments sent, ready to be read; with an allocation failing anywhere one of the codes 2, 0x30 and 0x31 is possible, too |
| `Dispatch.Ask` | gck-rpc-module.c:1129-1157 | A call whose reply is within its length word delivers exactly the reply that arrives, unless memory runs out |
| `ByteCalls.ByteCall` | gck-rpc-module.c:1866-1888 | The code of both ends, from the arguments to the caller's buffer, gives the code, count and bytes of the proxy function: with CKR_OK the module's bytes at the start of the buffer, their number, and every other byte as it was; with any other code the buffer as it was; only if memory ran out may the code be a memory or device error instead |
| `ByteCalls.ByteConversed` | gck-rpc-module.c:668-722 | What the client reads of the daemon's reply is the proxy function |
| `ListCalls.ListCall` | gck-rpc-module.c:1475-1488 | The same for calls with a list, whose entries after those returned are untouched |
| `ListCalls.ListConversed` | gck-rpc-module.c:1475-1488 | What the client reads of a list reply is the proxy function |
| `AttributeCalls.AttributeCall` | gck-rpc-module.c:1785-1799 | The same for C_GetAttributeValue and the caller's template, for 32-bit attribute types |
| `AttributeCalls.AttributeConversed` | gck-rpc-module.c:1785-1799 | What the client reads of a template reply is the proxy function |
| `Verdicts.JudgeParsed` | gck-rpc-module.c:668-722 | On a message that parses, call_run reads the error code, compares the call ids or goes on to the parts |
| `Verdicts.JudgeReply` | gck-rpc-module.c:668-722 | A daemon's response leads to its parts, which are exactly what was sent; an error to its code modulo 2^32, or 0x30 if that is 0 |
| `Verdicts.RunJudged` | gck-rpc-module.c:668-722 | On any message that can be decoded, whoever sent it, the two descriptions of call_run agree: the same code, or the same parts |
| `Proxy.ReplyArrives` | gck-rpc-module.c:689-721 | Success replies arrive as sent; error codes arrive modulo 2^32 and never as CKR_OK |
| `Proxy.ErrorCodeIff` | gck-rpc-dispatch.c:2140-2151 | An error code arrives unchanged exactly when it is below 2^32 |
| `Proxy.ReceivedIff` | gck-rpc-dispatch.c:2268-2286 | A request arrives exactly as sent if it has fewer than 0x0FFFFFFF bytes, and otherwise not at all, even if its length word wraps around |
| `Proxy.BytesAskedIff` | gck-rpc-dispatch.c:2271-2275 | The module is asked exactly the caller's question if and only if the client sends every input as it is, call_alloc provides for them, the room fits the wire, it is not C_GenerateRandom with NULL, and the request is shorter than 0x0FFFFFFF bytes |
| `Proxy.EncryptTooLong` | gck-rpc-dispatch.c:2271-2275 | C_Encrypt of 0x0FFFFFE0 bytes or more never reaches the module and gives CKR_DEVICE_ERROR; below, the request is carried |
| `Proxy.UnknownMechanismRefused` | gck-rpc-module.c:1030-1036 | C_WrapKey with mechanism 0x1087 gives CKR_MECHANISM_INVALID whatever the module would answer, where a direct call succeeds |
| `Proxy.ParameterDropped` | gck-rpc-module.c:1030-1031 | C_WrapKey with a parameter for a mechanism that has none asks the module without it |
| `Proxy.ServedBytes` | gck-rpc-dispatch.c:229-269 | The module is asked the caller's question, or for a size query whose count does not fit the wire one with the same answer |
| `Proxy.FilteredBytes` | gck-rpc-dispatch.c:312-341 | The daemon's filter and the client's reader together give the direct call's effect |
| `Proxy.TransparentBytes` | gck-rpc-module.c:904-957 | Proxied and direct call agree on code, count, bytes and untouched rest, for size queries with any count, short buffers, success and errors |
| `Proxy.BytesAfter` | gck-rpc-module.c:904-957 | For any module: with CKR_OK the caller's buffer holds exactly the bytes of the module's answer and behind them its own old bytes, and the count is their number; with any other code the buffer is as it was |
| `Proxy.BytesCases` | gck-rpc-dispatch.c:312-341 | For a conforming module, with the codes spelled out: a NULL buffer gets the size, a buffer the bytes with its rest as it was, one that is too small (0x150) the size alone; after any other code count and buffer are as they were |
| `ProxyAttributes.QuestionsAgreeIff` | gck-rpc-message.c:237-246 | The wire form of a template asks the caller's question exactly if it has no empty or over-wide buffers and only 32-bit types |
| `ProxyAttributes.RequestSize` | gck-rpc-message.c:221-249 | A request takes 32 bytes and 8 for each entry, and is short enough for the daemon exactly up to 0x1FFFFFB entries |
| `ProxyAttributes.AttributesAskedIff` | gck-rpc-dispatch.c:405-462 | The module is asked the caller's question exactly for such templates that are also short enough for the daemon and whose blocks call_alloc provides |
| `ProxyAttributes.ServedTemplate` | gck-rpc-dispatch.c:405-462 | Whatever the template, if the daemon takes the request the module is asked what the wire made of it |
| `ProxyAttributes.EntryRoundTrip` | gck-rpc-module.c:797-890 | An entry settled by the module on the daemon's copy, sent and filled in equals the direct effect |
| `ProxyAttributes.TemplateRoundTrip` | gck-rpc-dispatch.c:558-587 | The settled template fits the wire, keeps its types and fills in the direct effect |
| `ProxyAttributes.FilteredAttributes` | gck-rpc-dispatch.c:558-587 | The daemon's code filter and the client's reader together give the direct call's effect, or CKR_DEVICE_ERROR if the reply is too long for its length word |
| `ProxyAttributes.TemplateSize` | gck-rpc-message.c:251-292 | The length of a reply with a template, entry by entry |
| `ProxyAttributes.ReplyRoomSuffices` | gck-rpc-message.c:251-292 | A caller who wants less than 2^32 bytes, 13 more for each entry and 23 altogether, always has a reply that fits |
| `ProxyAttributes.TransparentAttributes` | gck-rpc-module.c:773-902 | Proxied and direct C_GetAttributeValue agree on lengths, -1 marks, bytes, untouched rests and code exactly if the reply fits its length word |
| `ProxyAttributes.TemplateAfter` | gck-rpc-dispatch.c:558-587 | With the codes 0, 0x11, 0x12 and 0x150 the template is left with -1 on every refused entry, the size on every size query, and the length and bytes of every value with the rest of its block as it was; with any other code below 2^32 the template is untouched |
| `ProxyAttributes.FillCases` | gck-rpc-module.c:797-890 | What the client makes of each entry that arrives, whoever sent it: -1, a length alone if there is no block or too little room, 0 for a missing value, or the value with the rest of the block as it was |
| `ProxyAttributes.EmptyBufferMisreported` | gck-rpc-dispatch.c:448-450 | With a buffer of length 0 a direct call gives CKR_BUFFER_TOO_SMALL and -1, the proxied one CKR_OK and the size |
| `ProxyLists.RoomAgreesIff` | gck-rpc-dispatch.c:341-374 | The module is asked the caller's question exactly for NULL lists and lists with 1 to 2^32-1 entries of room |
| `ProxyLists.ListCarried` | gck-rpc-dispatch.c:2271-2275 | Requests for lists are always short enough for the daemon |
| `ProxyLists.ServedRoom` | gck-rpc-dispatch.c:341-374 | Whatever the room, the module is asked what the wire made of it |
| `ProxyLists.TransparentList` | gck-rpc-dispatch.c:376-403 | Proxied and direct call agree on code, count and entries |
| `ProxyLists.ListCases` | gck-rpc-dispatch.c:376-403 | For a conforming module, with the codes spelled out: NULL gets the number of entries, a list its entries, one that is too small (0x150) their number alone; after any other code the count is as it was |
| `ProxyLists.EmptyListIff` | gck-rpc-module.c:986-992 | For a non-NULL list without room, proxied and direct call agree exactly when the module has something to return |
| `ProxyLists.MechanismListFiltered` | gck-rpc-module.c:1514-1528 | C_GetMechanismList yields the module's list without the unsupported mechanisms, in order; other results, size queries included, are unchanged |
| `Framing.FrameLengthIff` | egg-buffer.c:284-296 | The length word is the payload's length exactly below 2^32 bytes |
| `Framing.ReadAll` | gck-rpc-dispatch.c:2156-2186 | Takes exactly the bytes asked for off the front, in order, or fails; succeeds if the socket delivers |
| `Framing.WriteAll` | gck-rpc-dispatch.c:2188-2219 | Puts exactly the data on the wire, or a proper prefix of it |
| `Framing.WriteFrame` | gck-rpc-module.c:620-630 | Puts exactly the frame on the wire, or a proper prefix of it |
| `Framing.ReadFrame` | gck-rpc-dispatch.c:2265-2286 | Takes exactly one frame within the size limits off the stream, or ends the loop |
| `Framing.StreamPrefix` | gck-rpc-dispatch.c:2260-2302 | Frames read off a stream of frames are its first frames, and the stream of the others is left |
| `Framing.ReadFrames` | gck-rpc-dispatch.c:2260-2302 | Under any schedule of short transfers and retries, and whichever reservations fail, the frames read are a prefix of those sent; all of them if the socket delivers and the reservations succeed |
| `Pools.Call.Prepare` | gck-rpc-module.c:558-582 | The state moves from READY to PREP with the header of the call in its request, allocated if there was none; it stays READY with CKR_HOST_MEMORY only if memory ran out |
| `Pools.Pool.Pop` | gck-rpc-module.c:522-532 | Takes the first pooled state out of the list and leaves the rest a sound list |
| `Pools.Pool.Lookup` | gck-rpc-module.c:515-555 | A ready, connected, unlinked state that the pool no longer reaches, pooled if there was one; or an error |
| `Pools.Pool.Push` | gck-rpc-module.c:749-761 | The state becomes the head of the list exactly if fewer than 8 are pooled |
| `Pools.Pool.Done` | gck-rpc-module.c:724-767 | The state is pooled exactly if the code is neither 0x30 nor 0x32, its socket is open and fewer than 8 are pooled; otherwise its socket is closed; a response with a counted failure turns 0 into 5, an undamaged one was read to the end of its signature |
| `CallPool.WholePrefix` | gck-rpc-module.c:632-645 | A prefix of a frame that has its announced length is the whole frame |
| `CallPool.DaemonRecvHarmless` | gck-rpc-dispatch.c:2264-2286 | A read of the daemon keeps every connection invariant, whatever the client is doing |
| `CallPool.DaemonServeHarmless` | gck-rpc-dispatch.c:2293-2295 | A served request is the request the client sent |
| `CallPool.DaemonSendHarmless` | gck-rpc-dispatch.c:2297-2301 | A partial write of the reply keeps the reply's frame whole |
| `CallPool.ReplyRead` | gck-rpc-module.c:632-645 | A client that has read a whole frame has read the reply to its own request and left the connection at a boundary, or, if the run is not clean, a frame that is judged CKR_DEVICE_ERROR or aborts |
| `CallPool.StepKeeps` | gck-rpc-module.c:515-767 | Every step of every thread and daemon keeps the invariant and meets the asserts on status, socket and link; for the stronger invariant it must not pool a call state whose response could not be reserved |
| `CallPool.DoneCases` | gck-rpc-module.c:743-764 | When a call is done with the code 0x30 or 0x32, without a socket or with 8 states in the pool its state is gone; after every other code it is the first of the pool, ready, with its socket; nothing else changes |
| `CallPool.RunKeeps` | gck-rpc-module.c:515-767 | Every run keeps the invariant, and every clean run the stronger one |
| `CallPool.Ownership` | gck-rpc-module.c:213-221 | In every reachable state the pool is an acyclic list of n at most 8 ready, connected states, no state is held twice or held and pooled, and no assert on status, socket or link fires; in clean runs the pooled connections are at a frame boundary |
| `CallPool.Pairing` | gck-rpc-module.c:588-662 | On every connection of every run, what the clients took for exchanges are, in order, exchanges the daemon made |
| `CallPool.OwnReply` | gck-rpc-module.c:588-662 | In every run a call that has read a whole frame holds the daemon's reply to its own request, or is judged CKR_DEVICE_ERROR, or aborts; in clean runs it is the first |
| `CallPool.Completed` | gck-rpc-module.c:668-722 | In every run a call that completes with anything but CKR_DEVICE_ERROR has taken its own reply |
| `CallPool.AbortIff` | gck-rpc-module.c:718 | The assert that the response is undamaged fires exactly if an unread response is in front, its call id is at least 4 and the length of its signature is the id of the call |
| `CallPool.SoundIff` | gck-rpc-module.c:744-764 | All pooled connections are at a frame boundary in every state of a run exactly if no step of the run pools a call state whose response could not be reserved |
| `CallPool.ReserveFailDirties` | gck-rpc-module.c:637-641 | If the response cannot be reserved the whole reply stays unread, and when the call is done the pool is spoilt exactly if it had room |
| `CallPool.MisledFrame` | gck-rpc-module.c:632-649 | A whole frame read off an unread response is judged CKR_DEVICE_ERROR, or aborts in exactly that case |
| `Replies.LongReply` | gck-rpc-message.c:48 | Only responses, not error replies, can fail to be reserved |
| `Replies.UnreadFront` | gck-rpc-message.c:85-122 | An unread response begins with its call id, the length of its signature and the signature |
| `Replies.FrontLength` | gck-rpc-module.c:632-636 | The length word read off it is its call id, or, once that has been read, the length of its signature |
| `Replies.Misjudged` | gck-rpc-module.c:668-722 | The frame cut from it never passes for a reply, whatever follows it |
| `UnreadReply.FirstCall` | gck-rpc-module.c:637-641 | For every call and every response of at least 64 bytes there is a run that pools the connection with the response unread |
| `UnreadReply.SecondCall` | gck-rpc-module.c:637-722 | After it, any call reads a frame that ends it with CKR_DEVICE_ERROR, or aborts if its id is the length of the response's signature |
| `UnreadReply.SlotInfoAborts` | gck-rpc-module.c:718 | A run in which C_GetSlotInfo after an unread C_GetSlotInfo aborts |
| `Sessions.SessionTable.OpenSession` | gck-rpc-dispatch.c:1071-1100 | The module is asked once, for that slot; a session it opens goes to the first free entry with its slot, or is refused with CKR_SESSION_COUNT when none is free; the module's own error is passed on |
| `Sessions.SessionTable.CloseSession` | gck-rpc-dispatch.c:1102-1125 | Exactly one close in the module; on success the session's entry is freed if there is one, otherwise nothing changes |
| `Sessions.SessionTable.CloseHits` | gck-rpc-dispatch.c:1144-1163 | One close per matching entry, in table order, up to the first that fails; the processed prefix is freed, the failing entry only where the code allows, all others unchanged |
| `Sessions.SweepEffect` | gck-rpc-dispatch.c:1144-1163 | What a sweep does to each entry: it is freed exactly if it matches and the sweep succeeded or got past it, or stopped at it in C_CloseAllSessions with 0xb0 or 0xb3; slots stay as they are |
| `Sessions.SessionTable.CloseAllSessions` | gck-rpc-dispatch.c:1127-1165 | C_GetSlotInfo is asked once, for that slot; if it fails its code is returned and nothing else happens, otherwise this is the sweep of the slot |
| `Sessions.SessionTable.Finalize` | gck-rpc-dispatch.c:896-926 | The sweep of all slots; with CKR_OK the table is empty |
| `SessionRuns.SweptExactly` | gck-rpc-dispatch.c:1127-1165 | On a table of open sessions a sweep frees exactly the entries it closed |
| `SessionRuns.StepKeeps` | gck-rpc-dispatch.c:1071-1165 | Every open, close, sweep and foreign action keeps the table equal to the tracked sessions, and the books balanced |
| `SessionRuns.Refinement` | gck-rpc-dispatch.c:1071-1165 | In every run the occupied entries are distinct and are exactly the sessions opened here and not yet closed, with their slots, all open in the module |
| `SessionRuns.Conservation` | gck-rpc-dispatch.c:916-926 | In every run each session that entered the table was closed as often, but for the one time it is there now |
| `SessionRuns.Teardown` | gck-rpc-dispatch.c:209-223 | A run that ends with a C_Finalize whose closes succeed has closed every session it tracked exactly once, and its table is empty |
| `SessionRuns.CloseAllOfSlot` | gck-rpc-dispatch.c:1127-1165 | A successful C_CloseAllSessions closes each tracked session of the slot once and no other, and those are then the ones no longer tracked |
| `SessionRuns.RefusedSessionLeaks` | gck-rpc-dispatch.c:1093-1095 | In every run a session refused for lack of room stays open in the module and outside the table, through every sweep, until it is closed by its handle |
| `SessionRuns.LeaksIff` | gck-rpc-dispatch.c:209-223 | After a successful teardown a session opened on the connection is still open exactly if it was refused for lack of room and not closed by its handle since |
| `SessionRuns.AllClosedIff` | gck-rpc-dispatch.c:209-223 | After a successful teardown every session opened on the connection is closed exactly if each one refused was closed by its handle |
| `SessionLeak.LeakingRun` | gck-rpc-dispatch.c:1071-1100 | A run of 257 opens and a successful teardown that leaves a session open |
| `SessionRuns.ClosesBooked` | gck-rpc-dispatch.c:916-926 | The successful closes of a session among the module's calls are those booked for it, closes of sessions outside the table aside |
| `SessionRuns.SweepsOwn` | gck-rpc-dispatch.c:1133-1163 | A sweep closes only sessions issued to the connection it runs on |
| `SessionRuns.Isolation` | gck-rpc-dispatch.c:896-926 | In every interleaving of connections their tables are disjoint, and no sweep or disconnect closes another connection's session |
| `Connections.ServeOpen` | gck-rpc-dispatch.c:1071-1100 | C_OpenSession takes the step that opens a session of that slot, with code 0 or, if the table is full, 0xb1; or the module refuses it and nothing changes |
| `Connections.ServeClose` | gck-rpc-dispatch.c:1102-1125 | C_CloseSession takes the step that closes exactly that handle, with the code returned |
| `Connections.ServeSweep` | gck-rpc-dispatch.c:1127-1165 | C_CloseAllSessions takes the step that sweeps that slot, with the code returned, or C_GetSlotInfo refuses it and nothing changes; C_Finalize takes the step that sweeps all |
| `Connections.Serve` | gck-rpc-dispatch.c:1071-1165 | Each request that touches the table takes the step of the abstract machine that it asks for, and asks the module for nothing else |
| `Connections.Requests` | gck-rpc-dispatch.c:2254-2304 | Of any sequence of requests each takes two steps, one of others and the one it asks for, and the module is asked exactly what they ask |
| `Connections.Connection` | gck-rpc-dispatch.c:2254-2304 | Any sequence of n requests followed by call_uninit, with others using the module at any time between, is a run of 2n + 2 steps of the abstract machine, of which step 2i + 1 is the one request i asks for and the last the sweep of all; its closes are the module's log; if the final closes succeed, every session ever tracked was closed exactly once and the table is empty |
| `Mechanisms.ListedIff` | gck-rpc-util.c:63-204 | The mechanisms that can be sent are the 89 cases of the switch, one by one, and 0x9, 0xd and 0x1085 |
| `Mechanisms.SupportedKeeps` | gck-rpc-util.c:63-69 | Filtering keeps every occurrence of each of these mechanisms and none of the others |
| `Mechanisms.MoveDown` | gck-rpc-util.c:84-85 | The memmove removes one entry and keeps all others in order |
| `Mechanisms.Purge` | gck-rpc-util.c:71-91 | The list becomes the order-preserving filter by supported mechanism, its count the number kept, and memory after the list is untouched |
| `PskFile.KeyOfIff` | gck-rpc-tls-psk.c:68-132 | A text decodes to a key exactly if it spells it, two hex digits of either case for each byte |
| `PskFile.DecodeKey` | gck-rpc-tls-psk.c:90-132 | The key a hex string stands for is stored if there is one and it fits; otherwise 0 |
| `PskFile.Fgets` | gck-rpc-tls-psk.c:143-167 | The next line with its newline, NUL-terminated, or -1 if it does not fit |
| `PskFile.Cut` | gck-rpc-tls-psk.c:201-222 | Cutting the line in place yields identity and key text without line ends, or nothing if there is no colon |
| `PskFile.SplitOf` | gck-rpc-tls-psk.c:201-222 | A printed line splits into its identity and its key text, whether it ends in newline or return and newline; of an empty key text a line end is left |
| `PskFile.LookupPrinted` | gck-rpc-tls-psk.c:201-229 | In a printed file the first entry with that identity, or the first at all for an empty identity, decides: the result is the key it spells, in either case, if there is one that fits, and none otherwise |
| `PskFile.LookupMissing` | gck-rpc-tls-psk.c:201-229 | If no entry of a printed file matches there is no key |
| `PskFile.LongLine` | gck-rpc-tls-psk.c:143-167 | A line of 1023 bytes or more, with its newline, ends the search |
| `PskFile.Lookup` | gck-rpc-tls-psk.c:179-230 | The callback, on any file, stores exactly the key the search finds |

## Left out

- Sockets, host names, OpenSSL, seccomp, syslog, thread creation and loading the real module: foreign calls. A connection is two byte queues, and a transfer moves any number of bytes.
- TLS transfers: a TLS write error is reported as no progress (gck-rpc-tls-psk.c:387-392), so the write loops would not end; only plain sockets are modelled.
- The inetd mode (gck-rpc-dispatch.c:2394-2404): its reads and writes are single calls without a loop, which the framing result does not cover.
- Zero-length frames: read_all asserts that it is asked for something. `Framing.ReadFrame` ends the loop there.
- The list of dispatchers, its lock, shutdown, and the waking of C_WaitForSlotEvent inside C_Finalize.
- C_Initialize with its environment, paths and random application id (eight arbitrary bytes here), and parse_arguments, whose tokenizer does not terminate its last token again after dropping quotes.
- The string, string vector and 16-bit helpers of the buffer and gck_rpc_message_equals: not used by the protocol.
- Conversions between CK_ULONG of different widths inside attributes and mechanism parameters: with 64-bit CK_ULONG on both sides they do nothing.
- One model per `C_*` function: the calls are instances of the same parts. Functions with one byte output, one list or a template are covered for every id in the table, with the client's own checks on the values of arguments (`Arguments.RefusedIff`); its checks for NULL pointers to structures, counts and templates are not, and the structures of C_GetInfo and its kin are only covered as parts.
- The daemon's list of allocated blocks: call_alloc is its size limit and may fail (`Messages.CallAlloc`); freeing is left out.
- EggBuffers.EggBuffer.AddEmpty: requires that the size_t sums do not wrap; otherwise Reserve accepts a block that is too small and the code extends the buffer past its end. Callers on the wire stay far below.
- EggBuffers.EggBuffer.Append: requires that the size_t sums do not wrap, for the same reason.
- EggBuffers.GrowthBound: covers runs of representable requests, for the same reason.
- Mechanisms.Purge: requires one element of memory after the list if an entry has to go, because the memmove moves one element too many and reads it; and fewer than 2^31 entries, because the index is an int.
- Mechanisms.MoveDown: requires that element too.
- ClientReads.ReadMechanismListInto: requires the same spare element behind a list with an entry to remove, and fewer than 2^31 entries.
- ClientReads.ReadUlongArrayInto: a list too long for the caller is not read at all, so a damaged one may be reported as too small.
- ClientReads.FillAttributes: writes each entry as a value (`ProxyAttributes.Fill`); aliasing between the buffers of two entries is not modelled.
- Messages.Message.WriteByteArray: the bytes and their count come as one sequence, so a caller's wrong count is not expressible. The same holds for the other writers of arrays.
- Messages.Message.ReadUlongArray: covers the decoding; the caller's memory is in `ClientReads.ReadUlongArrayInto`.
- Arguments.RefusedIff: for arrays and templates of fewer than 2^32 entries, since their counts are narrowed to 32 bits.
- Dispatch.DispatchCall: the rpc functions are one function from decoded arguments to a reply of less than 2^60 bytes. A request with missing parts may be answered with CKR_DEVICE_MEMORY or CKR_DEVICE_ERROR, whichever the readers meet first; the contract does not say which.
- Dispatch.Call: that memory does not run out is a property of the allocator (`EggBuffers.EggBuffer.reliable`): it grants every block that can exist. Nothing is said of replies of 2^32 bytes and more, whose length word is wrong; a request of that length fails with some memory or device error. Counts of arrays are below 2^32, and templates of values below 2^50 bytes.
- Proxy.ReplyArrives: for replies of the modelled daemon below 2^32 bytes. In the code a response that does not parse leaves the return code at CKR_OK (gck-rpc-module.c:648-649); `Verdicts.Judge` is what call_run then does.
- Proxy.TransparentBytes: for inputs the client sends as they are and requests the daemon takes (`Proxy.BytesAskedIff`), buffers below 0x7fffffff bytes with true announced sizes, and needed lengths below 2^32; a size query may hold any count, if the module is indifferent to one of 2^32 and more. The count of C_GenerateRandom goes by value, so its caller does not see the new one.
- ProxyAttributes.TransparentAttributes: leaves out templates for which the module is not asked the caller's question (`ProxyAttributes.AttributesAskedIff`) and buffers of exactly 0x7fffffff bytes, which the wire cannot fill.
- ProxyAttributes.TemplateAfter: for templates as in `ProxyAttributes.TransparentAttributes`, an answer of one outcome for each entry, and a template whose largest reply is below 2^32 bytes.
- Proxy.BytesCases: under the same hypotheses as `Proxy.TransparentBytes`.
- ProxyLists.TransparentList: leaves out empty lists, which the daemon takes for size queries, and lists beyond call_alloc's limit; the caller's memory after the entries stored is in `ClientReads.ReadUlongArrayInto`.
- ProxyLists.MechanismListFiltered: a size query returns the count before filtering, as the code does.
- CallPool.StepKeeps: threads interleave, so the pool and the connections are values of a state machine here; `Pools.Pool` has the same list as linked objects. Requests and replies have at most 2^32-1 bytes (`Framing.FrameLengthIff`), and are those the two ends build. A reservation may fail from 64 bytes on, although a buffer that has grown would have room for more. A client that aborts takes no further steps.
- Wire.PartHeld: the bytes of a mechanism's parameter arrive as they are; for CKM_RSA_PKCS_OAEP they hold a pointer of the client (pSourceData), which means nothing to the daemon.
- ListCalls.ListCall: the module fills in no more entries than call_alloc has room for.
- AttributeCalls.AttributeCall: for attribute types of 32 bits, since others come back as a template that does not match and may be partly filled in; the reply is within its length word.
- Pools.Pool.Lookup: runs by itself; what other threads do between its mutex section and its return is in `CallPool.StepKeeps`.
- Sessions.SessionTable.Finalize: stops at the first close that fails, as the code does, although the connection is about to go away.
- SessionRuns.StepKeeps: the module gives out non-zero handles that are not open, reports a session as closed or invalid only if it is, and nobody else closes this connection's sessions.
- SessionRuns.Isolation: for a module that never gives out a handle value twice. A client that guesses a handle can still close it with C_CloseSession.
- SessionRuns.LeaksIff: nobody else opens or closes a session with the handle once it was opened here.
- SessionRuns.Teardown: speaks of sessions in the table; for the others see `SessionRuns.LeaksIff`.
- PskFile.LookupPrinted: for files all of whose lines have a colon and at most 1022 bytes, with identities free of colon, newline and NUL and key texts free of return, newline and NUL; `PskFile.Lookup` covers every file.
- PskFile.Lookup: opening and closing the file, and the length checks of OpenSSL on identities, are not modelled.
