# Robot Raconteur Lite: a verified model of its message and connection layers

Robot Raconteur Lite is a C89 message-passing stack that allocates no memory. This project
models its layers in Dafny and proves what they promise:

- **Message codec** (`Base`, `Wire`, `Headers`, `MessageHeaders`, `Tree`, `Emit`, `Writer`,
  `MessageWriting`, `WholeMessage`, `Cursor`, `Reader`, `RoundTrip`, `ReadsBack`, `Uniqueness`,
  `Windows`, `Search`). The streaming writers, which leave size and count placeholders and patch
  them later, are classes over a byte array and refine a pure tree encoder. The readers are
  classes whose windows move in place; they refine pure cursor functions. Over every message the
  writer accepts, with anything behind it, the tree comes back exactly if and only if it has an
  entry and its entries and elements fit the version; what is read behind a message without
  entries is given as a function of the bytes there.
- **Scatter/gather copy** (`ScatterGather`). The two index loops over segments whose boundaries
  need not line up change the joined bytes exactly as one contiguous copy.
- **Connection** (`Connection`, `Lifecycle`, `Outcomes`, `ReceiveLimits`, `Delivery`, `Progress`,
  `Conversation`, `Transport`, `Endpoint`). The flag-word machine is written once as value functions and once as a class that
  works in place. `Lifecycle` treats all runs of one connection through accept, traffic, errors,
  close and reuse, `ReceiveLimits` the room of the receive buffer in them.
  `Delivery` joins two endpoints by byte channels, lets the environment choose every transfer
  size, failure and interleaving, and proves ordered and exact delivery, down to the message that
  the peer reads. `Outcomes` says what each pass does by flags and bytes alone, `Progress` shows
  that everything sent arrives, and `Conversation` that from a fresh connect any exchange can be
  carried through. `Endpoint` runs the class with its socket as one end of that system, so that
  the in-place passes are steps of those runs.
- **WebSocket frames** (`WebSocket`, `WebSocketTransport`). Any cutting of sends puts exactly one
  shortest-form frame on the wire, which a decoder written from sections 5.2 and 5.3 of RFC 6455
  accepts, and the receive path restores the message from any cutting of the frame.
- **Node** (`Events`, `Handshake`, `Lookup`, `TypeAgreement`). The event scan, the client
  handshake, the service lookup, and the object type check across the wire.

How the C types are modelled: `size_t` is an unbounded natural except where the code relies on
its wrap-around (nested windows, the WebSocket receive request), which is computed modulo 2^64;
16- and 32-bit fields and casts are explicit; the host is little-endian; the codec works on one
contiguous buffer, as the connection uses it; the flag word is a set of flags; strings are byte
sequences shorter than 2^32; `char` is an unsigned byte. Sockets, polling, clocks and random
numbers are chosen by the environment (parameters, or the nondeterministic `Transport.Socket`).

What the code requires of its surroundings and the model states as preconditions: the reader
starts at offset 0 and its header is read first; total sizes stay below 2^32; for receive
framing every message is between 64 bytes and the receive buffer, and buffers are longer than
1024 bytes; for WebSocket a message has 1 to 65535 bytes and the socket holds nothing beyond the
frame being read.

Where the code and the promise differ, the exact condition is proved, and a lemma names a
failing input:

- A message without entries is accepted by the writer, but starting on its entries reads an entry
  out of the bytes behind it, on a connection out of the next message; so a message reads back
  exactly if and only if it has an entry and fits the format (`ReadsBack.MessageReadsBackIff`,
  `ReadsBack.EmptyMessagesFail`).
- Version 2 headers keep a string or code only within the limits of `Headers.ElementFits` and
  `Headers.EntryFits`; the member name code of an entry is never written in version 4
  (`Headers.ElementRoundTripIff`, `Headers.NameCodeLost`, `Headers.EntryRoundTripIff`,
  `Headers.MemberNameCodeLost`).
- Two trees have the same bytes exactly when they differ at most by nested elements that stand as
  raw data of the same type (`Uniqueness.SameBytesIff`, `Uniqueness.RawStandsAsList`).
- A nested window fills the enclosing one exactly when the element's header fits that window
  (`Windows.NestedFillsIff`, `Windows.NestedEscapes`).
- A receive pass asks for more than the free room exactly when the length is not known yet and
  fewer than 64 bytes are free (`Lifecycle.RequestTooLargeIff`, `ReceiveLimits.RequestTooLarge`);
  messages of at least 64 bytes never come to that (`ReceiveLimits.FramedRunFits`).
- A message longer than the receive buffer is accepted and raises no error: exactly when a known
  length leaves no room does every receive pass stand still, and it stays so
  (`ReceiveLimits.StandstillIff`, `ReceiveLimits.NothingMoreArrives`, `ReceiveLimits.MessageTooLong`).
- A control pass over a client that waits for its socket changes the state exactly when the
  socket reports success: a failed connect only sets a bit of the configuration flags
  (src/tcp_transport.c:1050-1064), so no error is ever visible in the connection state
  (`Lifecycle.ClientConnectsIff`, `Lifecycle.FailedConnectsUnseen`, `Lifecycle.FailedConnectUnseen`).
- A WebSocket pass asks for bytes beyond the current frame exactly when the receive buffer is not
  empty and more is wanted than is left of the frame (`WebSocket.ReachesBeyondIff`); a receiver that
  has read past the end never finds the next header (`WebSocket.StaysPastTheEnd`,
  `WebSocket.NextFrameSwallowed`).
- The frame of a WebSocket message announces what it holds exactly when the message has at most 65535
  bytes or a length of 65535 modulo 65536 (`WebSocket.AnnouncesIff`,
  `WebSocket.LongMessageAnnouncesNone`).
- An unmasked WebSocket payload is restored exactly when no earlier mask is left where it would
  be applied (`WebSocket.ReceivesOneFrame`, `WebSocket.StaleMaskApplied`).
- The service search agrees with the prefix test for a name exactly when the name has no dot
  after its first character (`Lookup.AcceptsIff`, `Lookup.DottedNameMissed`).

## Model

| member | source | states |
|---|---|---|
| Wire.SelfCounting | src/message.c:2407-2433 | A length field that counts itself succeeds exactly when some field width is consistent; the returned total encodes in exactly the returned width, the smallest one. |
| Wire.IntegerRoundTrips | src/message.c:175-258 | The short, padded and signed integers read back as written from any position, and the offset advances by exactly the bytes written. |
| Wire.ReadStrXAt | src/message.c:346-361 | A version 4 string is located exactly where it was written. |
| Wire.ReadStr2At | src/message.c:321-336 | A version 2 string is located with its length modulo 2^16, and that span holds it if and only if it is short enough. |
| Wire.FetchHeld | src/message.c:93-129 | A located string is copied out if the caller's storage has room, and refused if it has not; null storage only learns the length. |
| Wire.FetchOutside | src/message.c:93-129 | A located string that is not all in the buffer is refused for range. |
| Wire.ReadsFail | src/message.c:131-258 | On any bytes fixed fields fail exactly where they do not fit, and short integers exactly for the reserved first byte or for missing bytes. |
| Headers.ElementParses | src/message.c:1542-1814 | The element header readers invert the element header writers, field by field, at any offset and with anything behind. |
| Headers.ElementRoundTripIff | src/message.c:3429-3623 | An element header survives the trip if and only if it fits the version. |
| Headers.NameCodeLost | src/message.c:1542-1657 | A failing input: a version 2 element header with a name code comes back with code zero. |
| Headers.EntryParses | src/message.c:1136-1430 | The entry header readers invert the entry header writers field by field, and place the element count where it was written. |
| Headers.EntryRoundTripIff | src/message.c:3107-3314 | An entry header survives the trip if and only if it fits the version; version 4 loses only the member name code. |
| Headers.MemberNameCodeLost | src/message.c:3107-3314 | A failing input: a version 4 entry header with a member name code comes back with code zero. |
| MessageHeaders.Header4SizeExact | src/message.c:2721-2988 | The predicted version 4 header size, its own length field included, is the number of bytes written, for every header and mask. |
| MessageHeaders.Message4Parses | src/message.c:385-629 | Decoding a version 4 header gives every field, with exactly the field groups removed by the mask back at their defaults, and the right place of the entry count. |
| MessageHeaders.Message2Parses | src/message.c:631-780 | Decoding a version 2 header gives every field but the priority, which has no place in it. |
| MessageHeaders.Header2Length | src/message.c:2591-2719 | A version 2 header is 64 bytes plus its three strings. |
| MessageHeaders.HeaderSizeChecked | src/message.c:371-780 | On any bytes a header that is read is exactly as long as it says, in both versions. |
| Emit.PutMessageHeader4 | src/message.c:2721-2988 | The writer emits exactly the version 4 header bytes or fails for range or room; its internal size mismatch error is not among the outcomes. |
| Emit.PutMessageHeader2 | src/message.c:2591-2719 | The writer emits exactly the version 2 header bytes or fails for range or room. |
| Emit.PutRawHeader | src/message.c:3747-3940 | The raw element header carries the size predicted before anything is written. |
| Emit.PutEntryHeader | src/message.c:3107-3314 | The entry header is written with placeholders whose positions are the ones patched later. |
| Emit.PutNestedHeader | src/message.c:3429-3623 | The nested element header is written with placeholders whose positions are the ones patched later. |
| Tree.RawFits | src/message.c:3747-3940 | A raw element is refused exactly for what its length fields cannot hold: in version 2 a name over 65535 bytes, and in both an item count or a size over 32 bits. |
| Tree.HeaderFits | src/message.c:2591-2988 | A message header is refused exactly for what its size fields cannot hold: 16 bits in version 2, 32 bits with the length field itself in version 4. |
| Tree.RawLength | src/message.c:3747-3940 | The size that write_raw computes in advance is the length of the element's encoding. |
| Tree.MessageLength | src/message.c:3038-3105 | A message is exactly as long as its header plus the sum of its entries. |
| Writer.ElementWriter.WriteRaw | src/message.c:3942-3999 | Success exactly under the stated range and room conditions; then the element is appended to the encoding; otherwise writer and earlier bytes are unchanged. |
| Writer.ElementWriter.BeginNestedElement | src/message.c:3625-3672 | Opens a nested element behind the encoding so far; a failure leaves both writers and every earlier byte unchanged. |
| Writer.ElementWriter.EndNestedElement | src/message.c:3674-3745 | After patching, the buffer holds the encoding of the nested element with all its children. |
| Writer.EntryWriter.BeginEntry | src/message.c:3316-3361 | Opens an entry behind the encoding so far; a failure leaves the writers and every earlier byte unchanged. |
| Writer.EntryWriter.EndEntry | src/message.c:3363-3427 | After patching, the buffer holds the encoding of the entry with all its elements. |
| MessageWriting.MessageWriter.BeginMessage | src/message.c:2997-3036 | Refused exactly when the header is out of range or does not fit; then the fields of both writers and every byte before the offset are unchanged. |
| MessageWriting.MessageWriter.EndMessage | src/message.c:3038-3105 | After patching, the buffer holds the encoding of the message and the reported size is its length; without a place for the count it succeeds exactly for one entry. |
| WholeMessage.WriteElements | src/message.c:3625-3745 | Any run of elements of any depth is accepted exactly when all are in range and the encoding fits, and then stands in the buffer; a refused element leaves exactly the ones before it. |
| WholeMessage.WriteMessage | src/message.c:2997-3105 | The begin/end calls for a whole message succeed exactly when it can be produced, the buffer then starts with its encoding, and the reported size is header plus entries; nothing behind it changes. |
| WholeMessage.ElementsAtLeast | src/message.c:3942-3999 | Every element takes at least two bytes, so counts stay below sizes. |
| Cursor.ParseElementAdvances | src/message.c:1816-1830 | On any bytes an element's data starts behind its header and inside the buffer. |
| Cursor.ParseEntryAdvances | src/message.c:1432-1445 | On any bytes an entry's elements start behind its header and inside the buffer. |
| Cursor.CheckFails | src/message.c:34-91 | The checks stand in their order: a window without room, a wrong tag and a message longer than the window each have their status, and nothing else is refused. |
| Cursor.VersionDecides | src/message.c:371-383 | Only versions 2 and 4 are read; any other is a protocol error. |
| Cursor.EntryNextOutcome | src/message.c:849-892 | On any bytes: the end exactly when no more entries are counted, a protocol error exactly for a size beyond what remains, otherwise the window right behind. |
| Cursor.BeginElementsOutcome | src/message.c:1447-1495 | On any bytes: the end exactly for an entry that counts no elements, a protocol error exactly for a first element that leaves the entry's window. |
| Cursor.ElementNextOutcome | src/message.c:1497-1532 | On any bytes: the end exactly after the last counted element, and a size beyond what remains is a protocol error. |
| Cursor.ReadDataOutcome | src/message.c:1868-1932 | On any bytes data is read exactly if its type is the one asked for, its length that of the items, and all of it is there with room for it; each failing check has its status, and what is read is exactly the data bytes. |
| Reader.MessageReader.Init | src/message.c:34-91 | The reader's fields are set exactly when every check on buffer, tag and announced size has passed. |
| Reader.MessageReader.ReadHeader | src/message.c:371-383 | Only a header that parses fixes the version. |
| Reader.MessageReader.BeginReadEntries | src/message.c:808-847 | The entry reader gets exactly the cursor of the first entry, or is left alone. |
| Reader.EntryReader.MoveNext | src/message.c:849-892 | One in-place step is one cursor step; a failed step changes nothing. |
| Reader.EntryReader.BeginReadElements | src/message.c:1447-1495 | The element reader gets exactly the cursor of the first element, or is left alone. |
| Reader.EntryReader.FindElement | src/message.c:894-974 | The search over the readers ends on every buffer with the status and the position of the pure search. |
| Reader.ElementReader.MoveNext | src/message.c:1497-1532 | One in-place step is one cursor step; a failed step changes nothing. |
| Reader.ElementReader.BeginReadNestedElements | src/message.c:1934-1997 | A type mismatch is answered if and only if the element's type is none that nests; an element that is entered gives the nested reader exactly the cursor of the first child. |
| Reader.ElementReader.FindNestedElement | src/message.c:1999-2079 | The nested search ends on every buffer with the status and position of the pure search. |
| Reader.ElementReader.CompareName | src/message.c:936-961 | The comparison in pieces of sixteen bytes gives the verdict, or the range error, of the pure comparison. |
| RoundTrip.ReadElementBack | src/message.c:1868-1997 | An encoded element of any depth is read back: header, count, data for every fitting item size, and all children in order. |
| RoundTrip.ReadElementsBack | src/message.c:1497-1532 | A run of encoded elements is met one after the other and followed by the end. |
| RoundTrip.ReadEntryBack | src/message.c:1447-1495 | An encoded entry is read back with all its elements. |
| RoundTrip.ReadEntriesBack | src/message.c:849-892 | A run of encoded entries is met one after the other and followed by the end. |
| RoundTrip.EnteredIff | src/message.c:1950-1976 | On any bytes an element is refused as a type mismatch if and only if its type is none of the ten that a tree may nest, and as the end if and only if it is of such a type and counts no children. |
| ReadsBack.MessageReadsBackIff | src/message.c:808-892 | Over every message the writer accepts, in both versions and followed by anything: header, entries, nesting and data are read back exactly if and only if there is an entry and every entry and element fits the format. |
| ReadsBack.EmptyMessageReads | src/message.c:808-847 | On a message without entries the header reads and counts none, and begin_read_entries is the function EntriesBehind of the bytes behind the message; what it begins has no successor. |
| ReadsBack.PhantomEntry | src/message.c:826-836 | With any size field behind an empty message the reader begins an entry of that size, or reports a protocol error if it does not fit, for every size. |
| ReadsBack.NextMessageTaken | src/connection.c:92-104 | With the next message behind an empty one, its tag is taken for an entry of 82 bytes in version 4 and of 1128354386 in version 2, begun exactly when so many bytes are there. |
| ReadsBack.EmptyAlone | src/message.c:826-836 | With nothing behind it an empty message fails for range, never with the end of the entries. |
| ReadsBack.EmptyMessagesFail | src/message.c:808-847 | Failing inputs in both versions: an accepted message without entries, and the entry begun in the bytes behind it. |
| Uniqueness.EncodingUnambiguous | src/message.c:2997-3105 | If two carried messages, with or without entries, are encoded at the front of the same bytes, their visible headers are equal and their entries alike: no encoding is a prefix of a different one. |
| Uniqueness.SameBytesIff | src/message.c:3747-3940 | Two carried elements have the same bytes if and only if they are equal up to nested elements standing as raw data with the same name, type and count. |
| Uniqueness.TypedEntriesAlike | src/message.c:3625-3745 | Where exactly the nested elements have container types, alike entries are equal. |
| Uniqueness.RawStandsAsList | src/message.c:3747-3940 | A failing input: in version 2 a list and a raw element of the list type have the same bytes. |
| Uniqueness.ElementsOne | src/message.c:1497-1532 | On any bytes whatever the cursors read at most one run of typed elements. |
| Uniqueness.EntriesOne | src/message.c:849-892 | On any bytes whatever the cursors read at most one run of typed entries. |
| Windows.EntriesFillWindow | src/message.c:808-847 | From the start, offset, count and remaining of the entry reader add up to the reader's window. |
| Windows.EntryWindowsDisjoint | src/message.c:849-892 | On any bytes, along any run, the entry windows are contiguous, disjoint and inside the reader's window. |
| Windows.ElementWindowsDisjoint | src/message.c:1497-1532 | On any bytes, along any run, the element windows of one level are contiguous and disjoint and their end stays put. |
| Windows.ElementsStayInEntry | src/message.c:1447-1532 | Every element reached from an entry lies inside that entry's window, behind its header. |
| Windows.NestedFillsIff | src/message.c:1982-1991 | A nested window ends where the enclosing one does if and only if the element's header fits the enclosing window. |
| Windows.NestedEscapes | src/message.c:1934-1997 | A failing input of 106 bytes: from the message reader through the entry to its element every window is inside the buffer, and the nested window is 102 to 302. |
| Search.PiecesDecide | src/message.c:936-961 | Comparing in pieces decides equality of the whole name. |
| Search.NameOutside | src/message.c:936-961 | A name that runs beyond the buffer is a range error exactly if the whole pieces inside it agree, and otherwise simply different. |
| Search.FindStops | src/message.c:894-974 | The search stops with the error of a header or name that cannot be read. |
| Search.FindsFirst | src/message.c:894-974 | Where all names can be read, a hit is the first element with the whole name, and a miss means that none has it and how the elements ended. |
| Search.FindsChild | src/message.c:1999-2079 | On an encoded tree the search stands on the first child with the name; it reports not-found exactly when no child has it. |
| ScatterGather.CopySegments | src/array.c:236-352 | For segments anywhere in any arrays, none of the destination sharing a byte with another or with the source: success exactly under the range conditions (a zero length is excused only between single segments); the joined destination bytes then change as in one contiguous copy, and no byte outside the segments changes. |
| ScatterGather.CopySegment | src/array.c:204-234 | The same for one segment on each side. |
| ScatterGather.CopyLoop | src/array.c:312-349 | The main loop stays inside both lists, ends, and copies exactly the requested bytes for every segmentation, empty segments included. |
| ScatterGather.Locate | src/array.c:289-311 | The skipping loop ends on the segment and offset that stand for the requested position. |
| ScatterGather.JoinedSplice | src/array.c:342-343 | Overwriting inside one segment overwrites the joined bytes at the corresponding place and moves no segment. |
| ScatterGather.FlatLength | src/array.c:276-284 | The joined bytes are as many as the summed lengths times the item size. |
| Lifecycle.StepKeeps | src/connection.c:347-532 | Every call of the event API, arrivals fitting the buffer, keeps the flag discipline: consumed implies received, received excludes requested, the sending flags exclude each other, the send position stays within the message and the message within the buffer; ReceiveLimits.ArrivalsFit says when arrivals fit. |
| Lifecycle.RequestTooLargeIff | src/connection.c:409-431 | The receive request exceeds the free room exactly when the length is unknown and fewer than 64 bytes are free behind what is left of the buffer; after a message of 64 bytes or more it never does. |
| Lifecycle.RunKeeps | include/robotraconteurlite/connection.h:247-325 | The discipline holds in every state of every run from construction in which arrivals fit the buffer; ReceiveLimits.FramedRunFits does without that assumption. |
| Lifecycle.ExposedStable | src/connection.c:80-116 | The bytes of an exposed message stay in place and exposed until they are consumed or the connection is closed. |
| Lifecycle.UnsentStable | src/connection.c:160-167 | Accepted bytes keep their content and length while the position only moves forward, until they are all sent; only an error or the close ends that early. |
| Lifecycle.IdleIsClean | src/connection.c:29-47 | In every run an idle connection has no other flag, no received bytes and zero lengths and positions. |
| Lifecycle.IdleOnlyAfterClosed | src/connection.c:347-381 | A connection becomes idle again only from a closed state whose event was consumed. |
| Lifecycle.ClosedIsReported | src/connection.c:358-365 | In every run the closed event is consumed between the closing and the reuse. |
| Lifecycle.ErrorPersists | src/connection.c:383-434 | An error stays until the connection is closed or taken back. |
| Lifecycle.ErrorSilences | src/connection.c:402-406 | With an error set, receiving, sending and posting change nothing. |
| Lifecycle.CloseIsFinal | src/connection.c:118-186 | After a close request nothing more is accepted for sending and the next control pass closes, whatever else happens. |
| Lifecycle.CloseCloses | src/connection.c:177-186 | In every run the first control pass after a close call on a raw connection in use leaves it closed, whatever was called in between. |
| Lifecycle.ServerConnectsIff | src/tcp_transport.c:856-878 | A raw server counts as connected, and starts receiving, exactly once its first four bytes are the tag. |
| Lifecycle.ClientConnectsIff | src/tcp_transport.c:1050-1064 | A control pass over a waiting client changes the state if and only if the socket reports success, and no outcome sets the error flag. |
| Lifecycle.FailedConnectsUnseen | src/tcp_transport.c:1050-1064 | Any number of passes without success leaves the client as it was. |
| Lifecycle.FailedConnectUnseen | src/tcp_transport.c:1056 | A failing input: right after connect2 on a fresh connection the socket reports an error and the connection shows none. |
| Outcomes.PostOutcome | src/connection.c:118-167 | A message is accepted if and only if the connection is connected, without error or close, and its send buffer is free; it is to be tried again if and only if only the send buffer stands in the way; a refusal changes nothing. |
| Outcomes.PostIsSent | src/connection.c:118-167 | The messages sent by an endpoint grow by the posted one exactly under that condition; for the client's first request being connected is not part of it. |
| Outcomes.SendOutcome | src/connection.c:468-532 | With something to send all that is left is asked for; the error flag is raised if and only if the socket call failed, and the message counts as sent if and only if it succeeded and nothing is left. |
| Outcomes.NothingToSend | src/connection.c:468-508 | Any other send pass asks for nothing; only a consumed message makes way for the next one. |
| Outcomes.ReceiveOutcome | src/connection.c:394-466 | What arrives is appended; the error flag is raised if and only if the socket call failed or twelve bytes are there that start no message; a message is exposed if and only if all of its announced length is there. |
| Outcomes.NothingToReceive | src/connection.c:394-434 | Any other receive pass asks for nothing and changes nothing. |
| Outcomes.ExposureOutcome | src/connection.c:80-104 | The program is given all received bytes exactly while a message is exposed and they start with a whole one; otherwise it is to try again, or told of an internal error. |
| Outcomes.ControlOutcome | src/connection.c:347-392 | A control pass leaves connections of other transports and waiting ones alone, takes a closed one back once its event is consumed, and closes one that is to be closed. |
| Outcomes.ServerOutcome | src/tcp_transport.c:856-878 | A connecting raw server waits for four bytes and is connected exactly when they are the tag; a failed read raises the error, other bytes are refused without it. |
| Outcomes.ClientOutcome | src/tcp_transport.c:1044-1064 | A raw client changes exactly when its socket is connected. |
| Outcomes.OpenAndCloseOutcome | src/connection.c:534-592 | Accepting and connecting leave the one flag of a connecting connection and its role; a close request changes nothing else. |
| Outcomes.CanBeReused | src/connection.c:347-392 | From any state of a raw connection in use four calls, a close, two control passes and the closed event between them, leave it unused. |
| Outcomes.FailureIsSeen | src/connection.c:436-532 | In every run, after a socket call failed or a preamble was refused, the error is there to be reported in every later state until a close is requested or done. |
| Outcomes.SentWasTaken | src/connection.c:468-532 | In every run a message comes to count as sent only when every pass since it was accepted was a success and the socket took exactly its bytes. |
| ReceiveLimits.ArrivalsFit | src/connection.c:409-431 | With a buffer of more than 1024 bytes and announced lengths of at least 64, whatever a socket gives that keeps to the request fits. |
| ReceiveLimits.FramedRunFits | src/connection.c:394-466 | Every run over such a socket in which every preamble announces at least 64 bytes keeps the discipline in every state and never overflows the buffer, with nothing assumed of the room. |
| ReceiveLimits.RequestTooLarge | src/connection.c:409-431 | A failing run from construction: a message of 13 bytes is consumed from a full buffer of 2048, and the next pass asks for 51 bytes more than there is room for. |
| ReceiveLimits.StandstillIff | src/connection.c:421-431 | With a receive requested and no error, every receive pass is the identity, whatever the socket would do, if and only if a length is known and the buffer is full; success is then reported. |
| ReceiveLimits.TooLongStays | src/connection.c:457-463 | With the buffer full of a longer message no call changes what is received, but for an error or the close. |
| ReceiveLimits.NothingMoreArrives | src/connection.c:394-466 | In every run with such a state nothing is received or exposed any more before an error or the close. |
| ReceiveLimits.MessageTooLong | src/connection.c:49-78 | A failing run from construction: a message of 3000 bytes sent to a buffer of 2048. |
| Delivery.PreambleAccepted | src/connection.c:49-78 | The preamble of a message under way is always accepted and announces that message's length, even if it arrived as a leftover. |
| Delivery.CompactedFlow | src/connection.c:409-419 | Compaction drops exactly the consumed message and keeps every byte behind it. |
| Delivery.RoomToReceive | src/connection.c:421-431 | The receive request, the fixed 64 bytes included, always fits the free part of the buffer. |
| Delivery.ReceiverReceives | src/connection.c:394-466 | A receive pass with any number of arriving bytes keeps the flow of messages. |
| Delivery.SenderStep | src/connection.c:468-532 | Every call keeps the flow it sends into: bytes leave in order, none twice. |
| Delivery.ReceiverStep | src/connection.c:394-466 | Every call keeps the flow it receives from. |
| Delivery.SystemRunKeeps | src/tcp_transport.c:418-431 | In every state of every run of the two endpoints both directions keep their flow. |
| Delivery.ExposedIsNext | src/connection.c:457-463 | An exposed message is, byte for byte, the next one the peer sent. |
| Delivery.DeliveredInOrder | src/connection.c:394-532 | In every run what each endpoint consumed is a prefix of what the other sent, and the receive buffers never overflow. |
| Delivery.NothingIsStuck | src/connection.c:394-532 | While a sent message is not consumed and both ends are well, some call moves things on. |
| Delivery.QuietMeansDelivered | src/tcp_transport.c:572-586 | When sender and channel are quiet and nothing is exposed, everything sent has been consumed. |
| Delivery.EncodedMessageArrives | src/connection.c:80-104 | For any message the encoder accepts as the next one: the reader that the peer gets on all received bytes is valid, reads exactly that message if and only if it has an entry and fits the format, and without entries starts on the bytes that arrived behind it. |
| Progress.WorkRunsOut | src/tcp_transport.c:418-586 | But for new messages of the sender no call of either end adds to the work left in a direction, and every call that moves bytes or consumes reduces it. |
| Progress.EnoughCallsDeliver | src/tcp_transport.c:418-586 | In any continuation without new messages at most as many calls get something done as there was work, and once that many have, everything sent has been consumed. |
| Progress.GoesOn | src/connection.c:394-532 | While both ends are well and something sent is not consumed, some call gets on with it and leaves both ends well. |
| Progress.EverythingArrives | src/tcp_transport.c:418-586 | From every state with both ends well and the receiver opened a continuation no longer than the work left ends with everything sent consumed. |
| Progress.EveryRunCanFinish | src/tcp_transport.c:418-586 | Every run of the two endpoints with both ends well extends to one in which everything sent has been consumed. |
| Conversation.CanSendAgain | src/connection.c:118-167 | From every state that the two endpoints can reach, an endpoint that is open and not blocked gets any message accepted after at most four calls of its own. |
| Conversation.NextArrives | src/tcp_transport.c:418-586 | If both ends are well it then arrives, behind everything sent before. |
| Conversation.Converse | src/tcp_transport.c:418-586 | Two open endpoints can carry through any exchange of messages: each ends up having consumed exactly what the other said, in order. |
| Conversation.OpensAndConverses | src/node.c:2065-2101 | From a fresh connect and accept the client's first request, the server's answer and any exchange after them are sent and consumed in some run, which ends with both ends open. |
| Transport.Socket.Recv | platform/posix/src/tcp_transport_posix.c:97-135 | A receive moves a prefix of what is there, at most what was asked for, and may fail. |
| Transport.Socket.Send | platform/posix/src/tcp_transport_posix.c:137-173 | A send takes a prefix of what was offered, and may fail. |
| Transport.TcpConnection.Recv1 | src/connection.c:394-434 | In place, with the buffer moved, the state is that of the value function. |
| Transport.TcpConnection.VerifyPreamble | src/connection.c:49-78 | The preamble is judged on the buffer as on the value. |
| Transport.TcpConnection.Recv2 | src/connection.c:436-466 | The receive pass ends in the state of the value function. |
| Transport.TcpConnection.CommunicateRecv | src/tcp_transport.c:418-431 | A whole receive pass over the socket is one receive step with the bytes the socket gave up. |
| Transport.TcpConnection.MessageReceive | src/connection.c:80-104 | The reader is given all received bytes exactly when a message is exposed and passes the reader's checks. |
| Transport.TcpConnection.MessageReceiveConsume | src/connection.c:106-116 | Consuming without a message is refused and changes nothing. |
| Transport.TcpConnection.Send1 | src/connection.c:468-508 | In place, the state and request are those of the value function. |
| Transport.TcpConnection.Send2 | src/connection.c:510-532 | A failed call raises the error and nothing else; after a success the message is still being sent, or counts as sent exactly when nothing is left of it. |
| Transport.TcpConnection.CommunicateSend | src/tcp_transport.c:572-586 | A whole send pass puts exactly the bytes behind the position on the wire. |
| Transport.TcpConnection.BeginSend | src/connection.c:118-158 | Success, retry and refusal, each by the flags: connected without error or close, and no message on its way. |
| Transport.TcpConnection.EndSend | src/connection.c:160-167 | The finished message is scheduled with its length. |
| Transport.TcpConnection.ProcessControl | src/connection.c:347-381 | Taking back, waiting and closing are decided as by the value function. |
| Transport.TcpConnection.CommunicateControl | src/tcp_transport.c:1025-1066 | A control pass over the socket is one control step: closing, the raw handshakes, or nothing. |
| Transport.TcpConnection.HandshakeServer | src/tcp_transport.c:856-878 | The server counts as connected exactly once the four tag bytes are there, which stay in the buffer. |
| Transport.TcpConnection.Reset | src/connection.c:29-47 | Every session field is back at its initial value. |
| Transport.TcpConnection.Close | src/connection.c:177-186 | A close is requested unless the connection is idle. |
| Transport.TcpConnection.Accept2 | src/connection.c:574-592 | An accepted connection starts as a connecting server. |
| Transport.TcpConnection.Connect2 | src/connection.c:534-572 | A connecting client starts with no other flag. |
| Endpoint.ReceivePass | src/tcp_transport.c:418-431 | On the object, with nothing assumed but the invariant of the two-endpoint system, the room for the request is there and a receive pass is a step of that system. |
| Endpoint.SendPass | src/tcp_transport.c:572-586 | A send pass over the object and its socket is a step of the two-endpoint system. |
| Endpoint.ControlPass | src/tcp_transport.c:1025-1066 | A control pass within a session is a step of the two-endpoint system. |
| Endpoint.Communicate | src/tcp_transport.c:1068-1091 | The whole communicate call is one to three steps of a run: control, then receiving, then sending, as far as none fails. |
| Endpoint.SendMessage | src/connection.c:118-167 | Begin, write, end on the object: accepted exactly when the connection is ready and the message can be produced; then its encoding is the next message sent, otherwise nothing is. |
| Endpoint.TakeMessage | src/connection.c:80-116 | There is something to take exactly when a message is exposed, the reader's checks always pass, and the reader's bytes start with the next message of the peer. |
| Endpoint.EncodedIsFramed | src/connection.c:49-78 | What the encoder writes from 64 bytes on has the tag, the length and the version that the receive framing relies on. |
| WebSocket.FrameDecodes | src/tcp_transport.c:457-498 | A decoder written from RFC 6455 accepts the frame as final and binary with exactly the payload, and the length form is the shortest. |
| WebSocket.PassAdvances | src/tcp_transport.c:515-553 | However a pass is cut, the wire holds a prefix of the frame and the state stands right behind it. |
| WebSocket.SendStatus | src/tcp_transport.c:515-553 | The status of a pass and the number of bytes on the wire, for every outcome of its two socket calls and for a caller that asks for less than the frame. |
| WebSocket.AnnouncesIff | src/tcp_transport.c:457-505 | A frame holds at most 65535 bytes, and its header announces what it holds if and only if the message has at most 65535 bytes or a length of 65535 modulo 65536. |
| WebSocket.LongMessageAnnouncesNone | src/tcp_transport.c:457-505 | A failing input: the first frame of a message of 65536 bytes announces none and carries 65535. |
| WebSocket.SendsOneFrame | src/tcp_transport.c:449-556 | Any number of passes puts a prefix of one frame on the wire, and the whole frame once when the message counts as sent. |
| WebSocket.ParsesHeader | src/tcp_transport.c:335-371 | The received header gives the payload length and the mask of the frame that was sent. |
| WebSocket.HeaderAgrees | src/tcp_transport.c:335-371 | For every frame that the decoder written from RFC 6455 accepts, in all three length forms, the received header has the decoder's size and gives its payload length and its mask. |
| WebSocket.ReadsOn | src/tcp_transport.c:278-402 | A pass with any next bytes of the frame leaves the payload so far unmasked behind the earlier bytes, the mask index running on. |
| WebSocket.RecvStatus | src/tcp_transport.c:278-402 | The status of a pass is that of the first of its socket calls that fails, and every payload byte delivered is kept behind the earlier ones. |
| WebSocket.ResetLeaves | src/tcp_transport.c:282-290 | A finished frame leaves the bytes and the mask behind, and nothing else. |
| WebSocket.ReceivesOneFrame | src/tcp_transport.c:278-402 | Fed one frame in any pieces, the receiver appends the message exactly when the frame was masked or no earlier mask is left where it applies. |
| WebSocket.StaleMaskApplied | src/tcp_transport.c:335-399 | A failing input: a fresh receiver gets a message masked and then the same message unmasked; the second comes out changed by the mask left behind. |
| WebSocket.WebSocketRoundTrip | src/tcp_transport.c:278-556 | Every message of 1 to 65535 bytes comes out as it went in, whatever the pieces on both sides. |
| WebSocket.StreamArrives | src/tcp_transport.c:278-402 | As long as no pass reads beyond its frame, any number of masked messages come out one behind the other, however each frame was cut. |
| WebSocket.ReachesBeyondIff | src/tcp_transport.c:372-379 | A payload request reaches beyond the current frame if and only if the receive buffer is not empty and the caller wants more than what is left of the frame. |
| WebSocket.StaysPastTheEnd | src/tcp_transport.c:370-399 | After a pass has read past the end of its frame no later pass reads a header: every further byte is added as payload of that frame. |
| WebSocket.NextFrameSwallowed | src/tcp_transport.c:372-379 | A failing input: with one byte in the buffer the first byte of the next frame is read as payload. |
| WebSocket.MaskedSameIff | src/tcp_transport.c:393-399 | A mask leaves a payload unchanged if and only if its applied bytes are zero. |
| WebSocketTransport.ApplyMask | src/tcp_transport.c:507-512 | The loop masks exactly its stretch of the buffer. |
| WebSocketTransport.WebSocketConnection.BufferSend | src/tcp_transport.c:449-556 | One send pass in place, header and payload, is one pass of the value function, byte for byte on the wire. |
| WebSocketTransport.WebSocketConnection.BufferRecv | src/tcp_transport.c:278-402 | One receive pass in place, with up to three socket calls, is one pass of the value function. |
| Events.ScanMeans | src/node.c:147-238 | The scan stops at the first connection with an event; exactly the connections up to it are looked at, each once, and only their heartbeats are rescheduled. |
| Events.LooksMean | src/node.c:131-245 | The examinations of one call are of consecutive connections, each once and as found; at most the last found an event, and it is the one reported. |
| Events.Node.NextEvent | src/node.c:131-245 | One call reports the event of the scan, which is the one that the flags and times of its connection ask for, advances behind it and counts it; each examination of a connection is recorded where the loop makes it. |
| Events.ExamineReports | src/node.c:158-242 | Of one connection the announced event that goes first is found; of one with nothing announced whose check is due a timeout exactly for a silence beyond the timeout, and a heartbeat exactly for one beyond the period and not the timeout, in whole milliseconds of either direction; a due check is put off by the period. |
| Events.CallReports | src/node.c:147-245 | One call reports an event of a connection if and only if it is the first from where the call starts with something to report; exactly the due checks up to it are put off. |
| Events.ReportedInCycle | src/node.c:131-245 | In every whole cycle of every run each connection is looked at by a call that reports of it exactly what its flags and times then ask for. |
| Events.TimeoutIsReported | src/node.c:224-242 | A connection whose check falls due in a cycle while it is silent beyond the timeout, with nothing else to announce, is reported as timed out in that cycle. |
| Events.Node.ConsumeEvent | src/node.c:258-301 | Consuming marks exactly the event's connection, or starts the next cycle; errors and timeouts stay. |
| Events.Node.EventsPending | src/node.c:2493-2539 | The count adds up the announced events of all connections in use. |
| Events.PendingAgrees | src/node.c:2493-2539 | From the start of a cycle the scan finds an event if and only if one is counted or a heartbeat is due. |
| Events.PendingCounts | src/node.c:2493-2539 | One is counted for each of the six events that the flags announce. |
| Events.EachOnceInOrder | src/node.c:131-245 | In every run of next_event and consume_event, with anything happening to the connections in between, the examinations recorded in a cycle are of the connections before the next one, each exactly once in list order, and as many found an event as were reported. |
| Events.CycleIsComplete | src/node.c:131-245 | The call that reports the next cycle leaves every connection of the list examined exactly once in the cycle; any other call adds the examination that found the reported event. |
| Events.ConsumedIsGone | src/node.c:258-301 | Consuming the announced event leaves exactly the connection's other events pending; an error cannot be consumed. |
| Events.ConsumeIsCall | src/node.c:258-301 | Consuming an event is the connection's own call for it and touches nothing else. |
| Events.MessagesComeLast | src/node.c:158-218 | A message is announced only on a connection that is neither closed nor in error and whose connect and send events are consumed. |
| Handshake.StepKeeps | src/node.c:1881-2154 | After every call the phase and the history since the last socket-connected event agree. |
| Handshake.CompletedOnlyInOrder | src/node.c:1881-2154 | Completion means exactly three requests, each sent once, in order and answered by its return type, the type accepted before connecting and the last id matching. |
| Handshake.SuccessMeansCompleted | src/node.c:2146-2149 | Success is reported only by the completing call. |
| Handshake.FailureCloses | src/node.c:1752-1772 | A call with which the handshake fails on an open connection asks for the close in that call, once, and no other call does. |
| Handshake.OverUntilReconnect | src/node.c:2150-2152 | After completion or failure nothing is sent before the next socket-connected event. |
| Handshake.RetryWaits | src/node.c:1764-1772 | A request that cannot be sent yet, or a message that the special handling wants to see again, leaves phase, history and connection as the notice left them. |
| Handshake.DueIsSent | src/node.c:2065-2149 | A request that is due and accepted for sending is sent under the drawn id, and the phase waits for its answer. |
| Handshake.FailsIff | src/node.c:1752-1772 | A call fails the handshake and asks for the close if and only if the connection failed or timed out, the special handling failed, a message other than the awaited answer came, the type was rejected, a request could not be sent for good, or the handshake was over. |
| Handshake.OtherCalls | src/node.c:1881-2154 | Every other call waits, completes, or leaves the client alone, with the status for each case. |
| Handshake.ProperRunCompletes | src/node.c:1881-2154 | With any number of refused requests, send-complete notices, heartbeat timeouts and foreign events in between: a proper run fails, asking once for the close, exactly when the type is rejected, and otherwise is complete exactly when the three requests and three answers are made. |
| Handshake.CanComplete | src/node.c:1881-2154 | A handshake that is not over can be completed from any phase by at most as many proper calls as there are steps left. |
| Handshake.NodeClient.ClientHandshake | src/node.c:1881-2154 | The in-place client takes the step of the value function. |
| Lookup.StringCmpZero | src/array.c:412-434 | The comparison is zero exactly for equal strings. |
| Lookup.StringCmpOrders | src/array.c:412-434 | The comparison orders by length and then by the first byte that differs. |
| Lookup.HashParts | src/array.c:464-488 | The hash holds the length in its low half, above it the exclusive or of the last two bytes, and on top the first byte. |
| Lookup.PrefixMeans | src/node.c:1255-1285 | The prefix test accepts the name itself or the name followed by a dot. |
| Lookup.FindServiceForPath | src/node.c:1287-1334 | The search with its hash filter returns the first service named by the path's first part; the hash hides none. |
| Lookup.AcceptsIff | src/node.c:1255-1334 | For any service and path the search accepts exactly the prefixes that have no dot after the first character. |
| Lookup.DottedNameMissed | src/node.c:1255-1334 | A failing input: the service a.b is a prefix of a.b.c and is not found for it. |
| Lookup.FindsFirstPrefix | src/node.c:1287-1334 | For names without later dots the search returns the first service whose name is a path prefix, and none exactly when there is none. |
| TypeAgreement.TokensMean | src/util.c:8-47 | The tokens of a list are its maximal runs without semicolons. |
| TypeAgreement.MatchStringInList | src/util.c:8-47 | A value matches exactly when it is one of the list's tokens. |
| TypeAgreement.ReplyElements | src/node.c:1544-1620 | The reply carries the object's type and one numbered string for each non-empty implemented type, in order. |
| TypeAgreement.DigitsMean | src/node.c:1544-1620 | The name of a numbered element is its number in decimal, without a leading zero. |
| TypeAgreement.VerifyObjectType | src/node.c:1787-1879 | The check over the readers, with its loop over the nested list, gives the verdict of the pure check, errors included. |
| TypeAgreement.VerdictOnTree | src/node.c:1787-1879 | On any reply that is read back as a tree the check gives the verdict on the tree: the first element with each name counts, the first expected name decides, and each error is that of the element that cannot be read. |
| TypeAgreement.FailuresPassOn | src/node.c:1787-1879 | On any bytes: what stops a search or the walk over the list is what the check fails with; a missing list, its end, and one that cannot be entered are no failures. |
| TypeAgreement.TypesAgree | src/node.c:1787-1879 | On the server's reply, within the 128-byte limit, the check never fails and says yes exactly when the type or an implemented type is expected. |
| TypeAgreement.ReplyCarried | src/node.c:1544-1640 | The server's reply fits the format in both versions, within the 128-byte limit. |
| TypeAgreement.WrittenReplyAgrees | src/node.c:1544-1640 | From the encoded reply, with anything behind it, through the readers to the verdict: a reply that could be written at all is judged as the server meant it. |
| TypeAgreement.HandshakeAgrees | src/node.c:1976-2009 | With the verdict of the check on the server's reply, when no type or this one is expected no proper run of the handshake fails and one that makes all six steps completes; otherwise none completes, and a run fails exactly when it takes the reply. |

## Left out

- Uniqueness.EncodingUnambiguous: header fields that the version or the mask leaves out, or that do not fit the version, cannot be told apart.
- Lifecycle.StepKeeps: that arrivals fit the buffer is assumed of the socket there; ReceiveLimits.FramedRunFits replaces that by a condition on the announced lengths.
- WebSocket.WebSocketRoundTrip: back-to-back frames in one read and messages over 65535 bytes are outside what the code handles (src/tcp_transport.c:372-373, 466-471); WebSocket.ReachesBeyondIff and WebSocket.AnnouncesIff give the exact conditions.
- Delivery.DeliveredInOrder: speaks of one session; taking the connection back for the next session is treated by the Lifecycle lemmas.
- ScatterGather.CopySegments: overlapping segments, on which memcpy is undefined, are excluded; buffer_vec_copy_vec (src/array.c:96-202) is the same loop with both item sizes 1.
- TypeAgreement.ReplyElements: builds the elements of the reply as a tree; writing a tree is WholeMessage.WriteElements. The header of the reply is a parameter.
- Transport.TcpConnection.MessageReceive: hands out the received bytes as a value instead of a reader over the shared buffer.
- Handshake.NodeClient.ClientHandshake: the special request handling, the sending calls and the drawn request ids are parameters.
- Writer.ElementWriter.WriteRaw: buffer_count is not enforced by the code and not modelled; the bounds are those of the copy functions.
- Message buffers of several segments in the codec: the codec is modelled on the single buffer that the connection gives it.
- The HTTP upgrade before WebSocket traffic, base64, SHA-1 and random keys.
- Socket calls, polling, clocks and next-wake times.
- URL and node id parsing, user storage, callback tables, request timeouts, service definitions and object lookup by hash.
- The typed array and message data wrappers: one item size covers them all.
- robotraconteurlite_message_int_x_size, which nothing uses.
- Linking and unlinking of list nodes; lists are sequences.
