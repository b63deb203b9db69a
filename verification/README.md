# hgmRoomNotify: the delivery path from FireChange to onChangeFn

hgmRoomNotify is a room notification library. A server keeps rooms with an epoch, a change sequence number and a
custom version; `FireChange` moves a room on and sends the new value, with optional live data, to every connection in
it; a client enters and leaves rooms, survives disconnects, and hands changes to listeners. This project models that
path and proves what it promises.

* **Frames and the write buffer.** `BipRing` is the growable bip-buffer as arithmetic on its cursors with the frames
  between them, `RingBytes` ties frames to bytes, and the class `BipBuf.Frame16BipBuf2` works on an array in place and
  refines the ring while a slice of it, or of the array it grew out of, is being sent. `RingScratch` is about the
  header and footer scratch around a batch, `RingHeader` about what a header written there does to the queue,
  `RingGroups` about FreeForAlloc. `WriteBuf` is the per-connection buffer as a machine of lock-protected steps; the
  class in `ConnWriteBuf` refines it. `Wire` and `WireRun` run that machine over the bytes of the array and the socket,
  with the header write and the send as steps between which frames may be placed.
* **Formats.** `Codec` is the message format as functions, `Marshal` the in-place encoder, the growing writer and the
  parser with its loops, `BrowserReader` the TypeScript readers, `Packing` and `Frames` messages in length-prefixed
  frames, `Chunks` and `RoomValue` live data cut into pieces and put together again, `WebSocket` the frame layer of
  sections 5.2 and 5.3 of RFC 6455. `Delivery` composes them all; `WireOverlap`, `SpoiledValues` and `GroupCut` are the
  runs in which what it supposes fails.
* **The room protocol.** `Rooms` is the server's table as a value, every room of it read off the run that made it;
  `RoomServer` is the graph of room and connection objects that refines it. `RoomProtocol` is one client, its
  connection and the table as a state machine, with every other connection as environment: values are chosen under the
  lock and sent after it, in any order; the connection is a FIFO that may break. `RoomConvergence` proves intent
  synchronisation, convergence, monotonicity and quieting down, room by room; `RoomAgreement` says exactly when a room
  is sure to end in agreement; `ClientRooms` are the client's objects, refining the machine's client steps, and end
  with what every listener has been handed.
* **Smaller cores.** `SingleUnd` (coalescing of listener calls), `Keepalive` (the ping schedule and the defaults) and
  `Chat` (the reliable chat example).

A run is a list of steps, a step that is not enabled does nothing, and theorems about runs are about every list of
steps. Strings of the protocol are byte sequences; room ids in the protocol machine are opaque, and epochs are numbers
of which the code only ever tests equality (0 is the empty string).

## Where the code and its comments part

* The wrap guards compare with `Sent` and not with `Sent-Prefix` (pkg/zlibChannel/Frame16BipBuf2.go:82 and :91), so a
  wrapped frame can lie in the header scratch of the batch in flight, with the server's own configuration too
  (`WriteBufMaxBytes` 128 and `LiveDataMaxSize` at most 32). `RingScratch` says exactly when, and that guards with
  `Sent-Prefix` would exclude it. What that does is decided write by write: a header spoils a queued frame, or a frame
  placed later the header, exactly under the conditions of `Wire.WriteHeadIff` and `Wire.FrameOverHeaderIff`. In
  `SpoiledValues.ValueIsSpoiled` the client delivers a value that was never sent. `Delivery.EndToEnd` supposes that no
  header has changed a queued frame and no queued frame a header; that they share bytes does no harm by itself.
* `FreeForAlloc` does not always keep its promise (pkg/zlibChannel/Frame16BipBuf2.go:243-246): with a batch in flight
  in a buffer of full size a group within it can be refused half way. The frames before stay queued
  (02server_write_buf.go:81-87), and until the connection is closed the client would glue them to the next value of the
  connection (`Chunks.CutGroupIsGlued`); `GroupCut.GroupIsCut` is a run that gets there. `Delivery.EndToEnd` supposes
  that no group was cut; `WriteBuf.AtomicIff` says exactly in which states none can be.
* The second half of `PopReadFrame` (pkg/zlibChannel/Frame16BipBuf2.go:225-240) is never reached: frames do not
  straddle a cursor, and the frame always ends within its stretch. A slice returned by `PopReadFrame` is not protected
  from a later `AllocFrame`.
* sendRoomValue would send a value with no live data whose metadata is longer than a frame as no message at all
  (02server_room_value.go:10-23), and exactly such a value (`Chunks.NothingSentIff`). The server never has one: room
  ids of members are at most 1024 bytes, custom versions at most 100, and a frame holds 65530.
* Convergence of a room needs cleaning not to overtake a send for that room; `RoomConvergence.CleaningOvertakes` is a
  run in which it does, and the client is left with a value of a room that no longer exists. When it has, the room is
  still sure to end in agreement if and only if the server's value is still to be pushed, or is what the client will
  hold once the FIFO is empty, and no value of another epoch is still to be pushed
  (`RoomAgreement.AgreementIsSureIff`).
* Convergence leaves out rooms the server refused. A client that leaves and re-enters before its commands are sent
  stays a member; if the second entry is denied, its room holds whatever was still under way: nothing, or a value older
  than the server's (`RoomConvergence.RefusedStaysBehind`), until the next change. `RoomConvergence.ReachDecides` says
  exactly when it agrees all the same.
* The browser adds sequence numbers as doubles (hgmRoomNotifyBrowserTs/protocol.ts:91-107): from 2^53 on it may read
  another number than the Go client, and from 2^56 on none. Its comment says such numbers do not occur.
* Entering a room again at the limit closes the connection, since the limit is checked before membership
  (02server_auth.go:144).
* The reliable chat converges when posts are serialised; storing and firing are two steps and two concurrent posts may
  fire in the opposite order.

## Model

| member | source | states |
|---|---|---|
| `Delivery.EndToEnd` | 02server_room_value.go:6-24 | Over any run of pushes, takes, header writes, sends, failures and breaks, with the sizes the source uses, and wherever the byte stream is cut: as long as no header and no queued frame has changed the other and no group has been cut, the values the client delivers are the first of the values taken in, in lock order, whole and unmixed, and it finds no fault with the stream |
| `Delivery.EverythingArrives` | client.go:311-327 | As long as no header and no queued frame has changed the other and no group has been cut: when everything accepted has been written and read, exactly the values taken in have been delivered, in order |
| `Delivery.PrefixDelivered` | 03libProtocol.go:468-517 | The data path alone: any batching of the first messages, any masking, any cut of the byte stream deliver a prefix of the values |
| `Delivery.AllDelivered` | 03libProtocol.go:468-517 | The data path alone: all batches read deliver all values |
| `Delivery.ServeBatches` | 03libProtocol.go:467-512 | However frames are cut into batches, the read loop handles the same messages |
| `Delivery.OnMessage` | 03libProtocol.go:484-512 | readThread over one message handles its messages in order and closes on an empty message, a short or zero length, a short body or an undecodable message |
| `Delivery.ServeIff` | 03libProtocol.go:489-514 | The bytes of a message are handled message by message if they are frames that all decode, and otherwise the connection is closed |
| `Delivery.ServeMessageIff` | 03libProtocol.go:480-514 | An empty message, bytes that are not frames and a frame that does not decode close the connection; otherwise every message is handled, in order |
| `Delivery.CutStreamReads` | pkg/zlibWebsocket2/conn.go:24-109 | A byte stream cut anywhere yields the first messages of the whole stream |
| `Delivery.KeptIsAccepted` | 02server_write_buf.go:28-96 | While no group is cut, what the buffer has accepted is the packed messages of the items it took in, in lock order |
| `Delivery.RunConveys` | pkg/zlibWebsocket2/frame16_conn.go:102-110 | While no group is cut, the batches written are the first of the packed messages of the items taken in, and the reader refuses none of them for its length |
| `WireRun.SocketCarriesBatches` | 02server_write_buf.go:108-147 | In every run the batches are non-empty, within the cap and together the first of the frames accepted; as long as no header has changed a queued frame and no queued frame a header, the socket has carried them in order, each as one unmasked binary message, the last one cut short if its write failed |
| `WireRun.StepKeepsInv` | 02server_write_buf.go:28-147 | Every step of pushers and writer keeps array, queue, slice in flight, header and socket in agreement; a frame may be placed between a header and its send |
| `WireRun.AllOrNothing` | 02server_write_buf.go:61-96 | A push that cuts no group accepts all the frames offered or none |
| `WireRun.CutNeedsFullBuffer` | 02server_write_buf.go:81-87 | A group is cut only in a buffer of full size with a batch in flight |
| `Wire.WriteHeadIff` | pkg/zlibWebsocket2/frame16_conn.go:63-100 | A header written in front of the slice leaves the queued bytes intact if and only if the buffer has moved since the take, or nothing is queued under the header, or the queued bytes there are the header's own |
| `Wire.FrameOverHeaderIff` | pkg/zlibChannel/Frame16BipBuf2.go:80-98 | A frame placed while a header waits to be sent leaves the payload alone, and destroys the header if and only if, where the two meet, it has a byte that is not the header's own |
| `Wire.PlaceOneSound` | pkg/zlibChannel/Frame16BipBuf2.go:61-109 | Placing a frame keeps queue, slice in flight and its header as they should be if and only if the flag that it has changed the header is not raised |
| `Wire.WriteHeadSound` | pkg/zlibWebsocket2/frame16_conn.go:63-100 | Writing a header keeps queue, slice and header as they should be if and only if the flag that it has changed a queued frame is not raised |
| `Wire.TakenEndIsBatch` | pkg/zlibChannel/Frame16BipBuf2.go:114-175 | While the array holds the frames, the lengths found in its bytes end the batch where the frames end it |
| `RingHeader.ClearIffHarmless` | pkg/zlibChannel/Frame16BipBuf2.go:80-98 | n bytes of header in front of the batch in flight are harmless whatever they are if and only if the data is not wrapped or ends at least n bytes before Sent |
| `RingHeader.HeaderIsHarmlessIff` | pkg/zlibChannel/Frame16BipBuf2.go:80-98 | A given header is harmless if and only if that holds or the queued bytes under it are its own |
| `WireOverlap.HeaderSpoilsFrame` | pkg/zlibChannel/Frame16BipBuf2.go:82-98 | A family of whole runs, the server's cap included: the third frame is accepted and taken whole, and leaves the server with the header of the second batch for its last two bytes; the flag is up exactly if those were others |
| `SpoiledValues.ValueIsSpoiled` | pkg/zlibChannel/Frame16BipBuf2.go:82-98 | In a run of that family over three values the client delivers the third with that header for the end of its live data, which is another value exactly when it did not end so, and exactly when the flag is up |
| `SpoiledValues.TightSizes` | 02server.go:205 | Messages of 54, 38 and 54 bytes in a buffer of 128 bytes are such a run, with the prefix and the cap the server sets |
| `Delivery.SingleMsgIsLegal` | 03libProtocol.go:518-523 | The longest message the buffer takes is exactly maxSingleMsgSize, 65530 bytes |
| `BipRing.RunsAreFifo` | pkg/zlibChannel/Frame16BipBuf2.go:61-274 | Every run of AllocFrame, TakeSendSlice, PopReadFrame and Reset is a FIFO: delivered frames followed by queued ones are the accepted ones that were not reset away; draining yields them in order |
| `BipRing.AllocAppends` | pkg/zlibChannel/Frame16BipBuf2.go:61-109 | A placed frame joins the end of the queue, above, wrapped or after growth, and nothing else of the queue changes |
| `BipRing.TakeRemovesPrefix` | pkg/zlibChannel/Frame16BipBuf2.go:135-175 | A take removes whole frames from the head, at most the payload cap of them, and is empty exactly when nothing is queued |
| `BipRing.TakeIsMaximal` | pkg/zlibChannel/Frame16BipBuf2.go:114-175 | Unless the take reached the end of its stretch, wrapped or not, one more queued frame would have exceeded the cap |
| `BipRing.DrainTerminates` | pkg/zlibChannel/Frame16BipBuf2.go:130-175 | As many takes as there are queued frames empty the buffer and yield them in order |
| `BipRing.PopRemovesHead` | pkg/zlibChannel/Frame16BipBuf2.go:179-241 | A pop removes exactly the head frame, and is empty exactly when nothing is queued |
| `BipRing.FreeDrops` | pkg/zlibChannel/Frame16BipBuf2.go:247-259 | FreeForAlloc drops by exactly the size of an allocated frame, header included |
| `BipRing.GrownCap` | pkg/zlibChannel/Frame16BipBuf2.go:274-305 | Growth succeeds exactly when the buffer is below its maximum and the maximum is enough, and then is larger and enough |
| `BipRing.GrownIsFirst` | pkg/zlibChannel/Frame16BipBuf2.go:274-305 | The new capacity is the first double of the old one (64 for none), at least one doubling, that is enough, or the maximum if that is less |
| `BipRing.PlacedIff` | pkg/zlibChannel/Frame16BipBuf2.go:61-109 | A frame is placed in the array as it is if and only if there is a free stretch for it, above or, unless the data is wrapped already, below; in a larger one if and only if there is none, the buffer is below its maximum and queue and frame fit in that; else it is refused |
| `BipRing.FooterIsGranted` | pkg/zlibChannel/Frame16BipBuf2.go:161-168 | The footer scratch is granted if and only if the take leaves nothing queued and the array has room for it |
| `BipRing.ResetFrees` | pkg/zlibChannel/Frame16BipBuf2.go:261-269 | After a reset nothing is queued or in flight and all of the maximum but the prefix is free |
| `BipRing.BatchBounds` | pkg/zlibChannel/Frame16BipBuf2.go:111-128 | The frame-aligned end admits at least one frame, at most the cap, and as many as fit |
| `RingGroups.FreeForAllocPromise` | pkg/zlibChannel/Frame16BipBuf2.go:243-259 | "Always succeeds" within FreeForAlloc holds if and only if the buffer is below its full size or nothing is in flight (take-only states) |
| `RingGroups.GroupFits` | pkg/zlibChannel/Frame16BipBuf2.go:243-259 | In those states a group within FreeForAlloc is appended whole and in order, and FreeForAlloc drops by its size |
| `RingGroups.PlacedIsWithinFree` | pkg/zlibChannel/Frame16BipBuf2.go:243-259 | FreeForAlloc is never less than what can be placed: a group beyond it is never placed whole |
| `RingGroups.FullBufferRefusesAGroup` | pkg/zlibChannel/Frame16BipBuf2.go:274-279 | Otherwise a concrete group within FreeForAlloc is refused |
| `RingScratch.PayloadAndFooterAreDisjoint` | pkg/zlibChannel/Frame16BipBuf2.go:161-174 | The payload in flight and the granted footer scratch never hold queued bytes |
| `RingScratch.AllocKeepsScratchClear` | pkg/zlibChannel/Frame16BipBuf2.go:80-98 | An allocation keeps the header scratch clear of queued bytes exactly when the frame does not land in it |
| `RingScratch.TakeScratchClear` | pkg/zlibChannel/Frame16BipBuf2.go:135-175 | When the scratch of a batch just taken is clear of queued bytes, if and only if |
| `RingScratch.LongBatchLeavesRoom` | pkg/zlibChannel/Frame16BipBuf2.go:135-175 | It is clear whenever the previous batch and its gap were at least Prefix bytes |
| `RingScratch.GuardsWithPrefixKeepScratchClear` | pkg/zlibChannel/Frame16BipBuf2.go:80-98 | With guards that compare with Sent-Prefix the scratch is clear in every state of every run |
| `RingScratch.GuardsAsWrittenOverlap` | pkg/zlibChannel/Frame16BipBuf2.go:82-98 | With the guards as written a queued frame covers the whole header scratch of the batch in flight: a family of runs, with the cap the server sets or with none (prefix 4, capacity 128, frames of 54 and 38 bytes among them) |
| `BipBuf.Frame16BipBuf2.constructor` | pkg/zlibChannel/Frame16BipBuf2.go:45-55 | The empty buffer with its cursors at the prefix |
| `BipBuf.Frame16BipBuf2.AllocFrame` | pkg/zlibChannel/Frame16BipBuf2.go:61-109 | Refines Alloc; the frame header is written; the payload and footer scratch of the slice in flight are untouched, also by wrap and growth |
| `BipBuf.Frame16BipBuf2.Grow` | pkg/zlibChannel/Frame16BipBuf2.go:274-328 | Grows to the capacity GrownCap says with everything queued laid out from the prefix, leaving the old array and the slice in flight as they are |
| `BipBuf.Frame16BipBuf2.FrameAlignedEnd` | pkg/zlibChannel/Frame16BipBuf2.go:114-128 | Ends at the last whole frame the cap admits |
| `BipBuf.Frame16BipBuf2.ConfirmPrevious` | pkg/zlibChannel/Frame16BipBuf2.go:136-149 | The confirmation of the previous batch, with its gap and the unwrapping |
| `BipBuf.Frame16BipBuf2.TakeSendSlice` | pkg/zlibChannel/Frame16BipBuf2.go:135-175 | Hands out the encoding of the frames it removes, with Prefix bytes before it; the capacity beyond is the footer scratch exactly when granted |
| `BipBuf.Frame16BipBuf2.PopReadFrame` | pkg/zlibChannel/Frame16BipBuf2.go:179-241 | Returns the contents of the head frame and removes it; the frame ends within its stretch, so the comparisons of the end with Write and TailEnd always pass |
| `BipBuf.Frame16BipBuf2.FreeForAllocNow` | pkg/zlibChannel/Frame16BipBuf2.go:247-259 | Computes FreeForAlloc |
| `BipBuf.Frame16BipBuf2.Reset` | pkg/zlibChannel/Frame16BipBuf2.go:262-270 | Empties the queue and keeps the array |
| `BipBuf.Frame16BipBuf2.WriteHeader` | 02server_write_buf.go:128-132 | A header written right-aligned into the scratch leaves the payload as it is, and the object valid exactly when the buffer has moved since the take, or no queued byte lies under the header, or those that do are its own |
| `BipBuf.Frame16BipBuf2.WriteFooter` | pkg/zlibChannel/Frame16BipBuf2.go:161-174 | Writing a footer into the granted scratch changes no queued byte |
| `WriteBuf.WriterProtocol` | 02server_write_buf.go:28-147 | Under every interleaving: at most one writeLoop; while not broken queued data has a writer and nothing accepted is lost; what is written is a prefix of what was accepted |
| `WriteBuf.BrokenIsFinal` | 02server_write_buf.go:98-104 | Nothing is accepted after the connection is broken, and no writer starts |
| `WriteBuf.GroupIsAtomic` | 02server_write_buf.go:57-96 | A group is accepted, and then whole, exactly when the check passes and no frame is refused after it; otherwise nothing changes unless it is cut; below full size or with nothing in flight the check alone decides |
| `WriteBuf.AtomicIff` | 02server_write_buf.go:57-96 | No group can be cut, whatever it is, if and only if the connection is broken, or the buffer may still grow, or nothing is in flight, or not even a frame of one byte fits |
| `WriteBuf.GroupCanBeCut` | 02server_write_buf.go:81-87 | In a buffer of full size, a group within FreeForAlloc and larger than what is free around the batch in flight is cut if its first frame fits: a full buffer is reported and the first frames stay |
| `GroupCut.GroupIsCut` | 02server_write_buf.go:81-87 | A run that gets there: four of the longest messages pushed, one written, one in flight; the two messages sendRoomValue makes of a value of 65530 bytes pass the check, the first is placed and the second refused |
| `WriteBuf.CutGroupNeedsFlight` | 02server_write_buf.go:81-87 | A group is cut only at full size with a batch in flight, and then a writer is running |
| `ConnWriteBuf.ServerConnWriteBuf.PushMsg` | 02server_write_buf.go:28-55 | Refines the push step; too large exactly when the message cannot be serialised or does not fit a frame |
| `ConnWriteBuf.ServerConnWriteBuf.PushMsgsAtomic` | 02server_write_buf.go:61-96 | Refines the group step; too large exactly when one of the messages cannot be carried, and then nothing happens |
| `ConnWriteBuf.ServerConnWriteBuf.MarkBroken` | 02server_write_buf.go:99-104 | Refines the break step |
| `ConnWriteBuf.ServerConnWriteBuf.WriterTake` | 02server_write_buf.go:108-122 | Refines the take step; hands out the batch of the writer, or ends it |
| `ConnWriteBuf.ServerConnWriteBuf.WriterWrite` | 02server_write_buf.go:124-146 | What goes out is the batch as taken in one binary message, whatever was pushed since, and the object stays valid exactly when the header was not written into the array or spoils no queued byte |
| `ConnWriteBuf.ServerConnWriteBuf.WriterFail` | 02server_write_buf.go:124-142 | Refines the failure step |
| `RoomValue.SendRoomValue` | 02server_room_value.go:6-24 | Each result has its exact condition on the state before the call: too large if and only if some message of the value cannot be carried; else broken if and only if the connection is; else ok if and only if the buffer has room (one message is placed, a group is within FreeForAlloc and none of it refused), and full otherwise. The state moves by the push or the group step of the value's messages; accepted as a whole, or not at all in every state in which no group can be cut |
| `RoomValue.WithinFreeIsAccepted` | 02server_room_value.go:6-24 | On an unbroken connection whose buffer is below full size or has nothing in flight, a value whose messages are within FreeForAlloc is accepted |
| `RoomValue.CarriedIff` | 02server_write_buf.go:61-72 | A message of a value is too large exactly when a field of its metadata is too long for its length prefix or the metadata leaves no room in the frame |
| `Delivery.OfferIsSendStep` | 02server_room_value.go:10-22 | A value taken in during a run of the end-to-end theorem is the step sendRoomValue takes |
| `Frames.SplitEncode` | 03libProtocol.go:467-512 | Splitting a payload into length-prefixed frames inverts encoding |
| `Frames.EncodeInjective` | 03libProtocol.go:467-512 | A run of frames is determined by its bytes |
| `Frames.FrameLayout` | pkg/zlibChannel/Frame16BipBuf2.go:104-108 | A frame on the wire is its length, low byte first, and its bytes |
| `Packing.PackTake` | 02server_write_buf.go:48-54 | Packing messages into frames commutes with cutting the run anywhere |
| `Chunks.BuildRoomValueChunks` | 02server_room_value.go:28-60 | The loop over the live data makes the pieces that PiecesShape and MessagesCarry describe |
| `Chunks.MessagesCarry` | 02server_room_value.go:28-60 | A value that fits a frame is one message; otherwise every message but the last carries exactly maxFrame less the metadata of live data, the last the remainder with the metadata, and their number is the length of the live data divided by that size, rounded up |
| `Chunks.PiecesShape` | 02server_room_value.go:25-60 | Pieces are never empty, concatenate back to the live data, and only the last is a roomValue, with all the metadata |
| `Chunks.PiecesFit` | 02server_room_value.go:28-37 | Every piece fits the frame if and only if the frame leaves a byte beside the metadata |
| `Chunks.SendMsgsFit` | 02server_room_value.go:6-24 | Then something is sent and everything sent fits |
| `Chunks.NothingSentIff` | 02server_room_value.go:6-24 | No message at all is sent exactly for a value with no live data whose metadata is longer than the frame; never within the server's limits |
| `Chunks.ClientConn.OnReadMsg` | client.go:311-327 | The reassembly step of onReadMsg, with the nil buffer and the limit |
| `Chunks.GroupArrives` | client.go:311-327 | A group delivers the value behind the bytes held, or closes the connection exactly when the leading pieces exceed the limit |
| `Chunks.SendArrives` | 02server_room_value.go:6-60 | What is sent for a value is put back together, for live data of any length up to the limit |
| `Chunks.ItemsArrive` | 02server_room_value.go:3-5 | Whole groups with other messages in between deliver exactly the values sent |
| `Chunks.PrefixArrives` | 02server_room_value.go:3-5 | Cut off anywhere, they deliver a prefix of the values, never a partial or mixed one |
| `Chunks.CutGroupIsGlued` | 02server_write_buf.go:83-87 | A group cut short is glued in front of the next value of the connection |
| `Chunks.JoinChunks` | hgmRoomNotifyBrowserTs/client.ts:357-366 | The browser client joins the pieces in order |
| `Codec.RoundTrip` | 03libProtocol.go:273-448 | For every message that can be serialised, decoding its bytes and anything after them returns it |
| `Codec.EncodeInjective` | 03libProtocol.go:96-215 | Different messages have different bytes |
| `Codec.Layout` | 03libProtocol.go:74-84 | The bytes of every message: command number, flags, 16-bit little-endian or one-byte lengths in front of strings, in the documented order |
| `Codec.TimeCfgLayout` | 03libProtocol.go:186-194 | A time configuration is six fields, numbered 1 to 6, of eight bytes, low byte first |
| `Codec.TruncatedIsRefused` | 03libProtocol.go:273-448 | Cut short anywhere, the bytes of a message are refused |
| `Codec.DecodedIsThere` | 03libProtocol.go:273-448 | Data decodes to a message made of strings if and only if the message can be serialised and its bytes begin the data |
| `Codec.UnknownIsRefused` | 03libProtocol.go:445-447 | Any command but the ten is refused, and so is no data |
| `Codec.FlagIsRead` | 03libProtocol.go:283-288 | Any flag byte but zero means yes |
| `Codec.LaterFieldCounts` | 03libProtocol.go:352-364 | Of two fields of a time configuration with the same number the later one counts |
| `Codec.UnknownFieldIsSkipped` | 03libProtocol.go:352-364 | A field with an unknown number is skipped |
| `Codec.SizeIsExact` | 03libProtocol.go:96-153 | BinarySize fails exactly on messages that cannot be serialised and is the exact size otherwise |
| `Codec.UvarintSizeExact` | 03libProtocol.go:566-568 | (Len64(x\|127)+6)/7 is the length of the uvarint of x |
| `Codec.UvarintRoundTrip` | 03libProtocol.go:402-408 | A 64-bit uvarint takes at most ten bytes and is read back |
| `Codec.UvarintAt` | 03libProtocol.go:205 | Byte i of a uvarint is group i of seven bits, the top bit set on all but the last, which is not an empty group |
| `Codec.UvarintIsReadIff` | 03libProtocol.go:402-405 | A uvarint is read if and only if a byte below 128 ends it within ten bytes, the tenth being at most 1 |
| `Codec.UvarintFits` | 03libProtocol.go:402-406 | What is read fits 64 bits |
| `Marshal.MarshalBinaryInto` | 03libProtocol.go:155-216 | Writes exactly the encoding into the buffer |
| `Marshal.MarshalBinaryTo` | 03libProtocol.go:218-271 | Appends exactly the same bytes |
| `Marshal.UnmarshalMsg` | 03libProtocol.go:273-448 | Never reads outside the data and accepts exactly what Decode accepts, with the same result |
| `Marshal.TakeUvarint` | 03libProtocol.go:402-408 | The uvarint loop reads what ReadUvarint says, refusing an eleventh byte and an overflowing tenth |
| `Marshal.BufWriter.TryGrow` | pkg/zlibBytes/BufWriter.go:40-53 | Room for the bytes, contents kept |
| `Marshal.BufWriter.TryGrowWithSetPos` | pkg/zlibBytes/BufWriter.go:61-74 | The same, moving the position over the new bytes |
| `Marshal.BufWriter.GetHeadBuffer` | pkg/zlibBytes/BufWriter.go:108-111 | Room at the head, contents kept |
| `Marshal.BufWriter.AddPos` | pkg/zlibBytes/BufWriter.go:113-117 | Bytes laid at the head become contents |
| `Marshal.BufWriter.Write` | pkg/zlibBytes/BufWriter.go:81-107 | Appends |
| `BrowserReader.DoubleIsNearest` | hgmRoomNotifyBrowserTs/protocol.ts:91-107 | The rounding used for JavaScript additions: the result is a double and no double is nearer |
| `BrowserReader.TiesToEven` | hgmRoomNotifyBrowserTs/protocol.ts:91-107 | Between two doubles equally near it takes the even one, as IEEE 754 does |
| `BrowserReader.ReadUvarintLoop` | hgmRoomNotifyBrowserTs/protocol.ts:91-107 | The loop, with each sum rounded to a double, reads what ReadNumber says |
| `BrowserReader.ReadersAgree` | hgmRoomNotifyBrowserTs/protocol.ts:91-107 | On any bytes the browser reads what the Go client reads if and only if neither reads a number, or it takes at most eight bytes and is a double |
| `BrowserReader.ReadersDiffer` | hgmRoomNotifyBrowserTs/protocol.ts:91-107 | Eight bytes from which the Go client reads 2^53+1 and the browser 2^53 |
| `BrowserReader.NumberBackIff` | hgmRoomNotifyBrowserTs/protocol.ts:91-107 | A sequence number is read back in the browser if and only if it is a double below 2^56; every one below 2^53 is |
| `BrowserReader.ParseRoomValueFields` | hgmRoomNotifyBrowserTs/client.ts:439-464 | The position-advancing parse reads what DecodeFields says |
| `BrowserReader.SameFieldsIff` | hgmRoomNotifyBrowserTs/client.ts:439-464 | Both clients read the same roomValue fields if and only if the sequence number is a double below 2^56, as every one below 2^53 is |
| `WebSocket.StreamReadsBack` | pkg/zlibWebsocket2/conn.go:24-160 | Reading a stream of written frames, masked with any keys and with control frames in between, yields the payloads in order |
| `WebSocket.ParseWritten` | pkg/zlibWebsocket2/conn.go:24-109 | A written frame is parsed back whatever follows it |
| `WebSocket.MaskedTwice` | pkg/zlibWebsocket2/conn.go:101-105 | Masking twice with a key gives the payload back |
| `WebSocket.HeaderFitsPrefix` | pkg/zlibWebsocket2/frame16_conn.go:13-24 | The header fits the reserved prefix if and only if the payload is below 64 KB |
| `WebSocket.MaskWithAt` | pkg/zlibWebsocket2/conn.go:101-105 | Payload byte k is combined with key byte k mod 4 by exclusive or |
| `WebSocket.XorAt` | pkg/zlibWebsocket2/conn.go:101-105 | Bit k of the exclusive or of two bytes is set if and only if their bits k differ |
| `WebSocket.MaskedBit` | pkg/zlibWebsocket2/frame16_conn.go:84-94 | Bit j of byte k of a masked payload is set if and only if that bit of the payload byte differs from that of byte k mod 4 of the key as sent |
| `WebSocket.HeaderLayout` | pkg/zlibWebsocket2/frame16_conn.go:63-89 | The header byte by byte: final binary frame, mask bit and length in one, two or eight bytes, high byte first, and the key at its end |
| `WebSocket.FrameIsRead` | pkg/zlibWebsocket2/conn.go:35-105 | A frame is refused if and only if it is a fragment, its 64-bit length is over 2^31, or it is longer than the limit; otherwise it yields its opcode and its body, unmasked if it has a key |
| `WebSocket.CloseIsFound` | pkg/zlibWebsocket2/conn.go:84-100 | A close frame behind others ends the reading without a message, and is what is answered, exactly when no message comes before it |
| `WebSocket.ReadMsg` | pkg/zlibWebsocket2/conn.go:24-109 | Appends the next message, unmasked, and leaves the rest of the stream; fails exactly where there is none; writes the answer to a close frame exactly when one is what ended the read, and nothing otherwise |
| `WebSocket.WriteMsg` | pkg/zlibWebsocket2/conn.go:112-160 | Emits exactly the frame: the header of HeaderLayout and the payload, masked as MaskedBit says if there is a key |
| `WebSocket.WriteFrameInPlace` | pkg/zlibWebsocket2/frame16_conn.go:63-100 | Emits exactly the same frame from the buffer itself; only the scratch and a masked payload change |
| `WebSocket.WriteFrame` | pkg/zlibWebsocket2/frame16_conn.go:29-44 | Either way the same bytes go out |
| `WebSocket.CloseReplyIsClose` | pkg/zlibWebsocket2/conn.go:84-95 | The answer to a close frame is a well-formed empty close frame |
| `Rooms.FireKeepsSound` | 02server.go:394-411 | FireChange keeps the table sound: an empty time exactly on empty rooms, non-empty epochs that tell rooms apart |
| `Rooms.EnterKeepsSound` | 02server_auth.go:155-169 | So does entering |
| `Rooms.LeaveKeepsSound` | 02server_auth.go:181-195 | So does leaving |
| `Rooms.CloseKeepsSound` | 02server.go:443-452 | So does closing a connection |
| `Rooms.CleanKeepsSound` | 02server.go:150-163 | So does cleaning |
| `Rooms.EnterMoves` | 02server_auth.go:155-169 | Entering moves only this connection, and only into this room |
| `Rooms.LeaveMoves` | 02server_auth.go:181-195 | Leaving moves only this connection, and only out of this room |
| `Rooms.CloseMoves` | 02server.go:443-452 | Closing takes only this connection, out of every room |
| `Rooms.CleanMoves` | 02server.go:150-163 | Cleaning moves nobody |
| `Rooms.LeftRoomIsKept` | 02server_auth.go:190-193 | A room its only member left at t is still there after cleaning at u if and only if u - t is below 3600000000000 ns |
| `Rooms.ClosedRoomIsKept` | 02server.go:443-450 | The same when the member's connection closed at t |
| `Rooms.FiredRoomIsKept` | 02server.go:396-404 | The same for a room that FireChange made at t |
| `Rooms.EmptyTimeIs` | 02server.go:150-163 | In every run of changes, entries, leaves, closings and cleanings a room's empty time is the instant since which it has had no member, read off the run |
| `Rooms.RemovedIff` | 02server.go:150-163 | In every run a room is removed exactly by a cleaning when it has had no member for an hour |
| `Rooms.SeqCountsFires` | 02server.go:405-406 | In every run the sequence number is the number of changes since the room was made, and the custom version that of the last one |
| `Rooms.MembersAre` | 02server_auth.go:155-195 | In every run the members of a room are those who entered it and have neither left it nor closed since |
| `Rooms.EpochStays` | 02server.go:398-403 | In every run a room keeps the epoch it was made with |
| `RoomServer.ServerManager.MembershipIsMutual` | 02server.go:91-98 | A connection is in the room's set if and only if its own map leads to that room object |
| `RoomServer.ServerManager.MembersRoomsAreLive` | 02server_auth.go:137-178 | A connection's room is the one in the table and not marked empty; the connection is open, approved and, with authentication, was let into the room |
| `RoomServer.ServerManager.FireChange` | 02server.go:376-414 | The table moves by Fire; returns the members and the new value, taken under the lock |
| `RoomServer.ServerManager.DoRoomEnter` | 02server_auth.go:137-178 | Ignored exactly when closed, over the limit exactly at the limit (also for a room already entered), otherwise the table moves by Enter and its value is returned |
| `RoomServer.ServerManager.DoRoomLeave` | 02server_auth.go:181-195 | The table moves by Leave: the emptied room is stamped with this instant (Rooms.EmptyTimeIs) |
| `RoomServer.ServerManager.OnClose` | 02server.go:240-243 | The table moves by Close, every emptied room stamped with this instant, and the connection is in no room for good |
| `RoomServer.ServerManager.DeleteAllFromAllRoom` | 02server.go:443-452 | The loop over the connection's rooms does what Close does to all of them |
| `RoomServer.ServerManager.CleanEmptyRooms` | 02server.go:150-163 | The loop removes exactly the rooms that have been empty for an hour (Rooms.RemovedIff) |
| `RoomServer.ServerManager.HandleIdentityAuth` | 02server_auth.go:98-115 | The first verdict is final and is the only answer sent |
| `RoomServer.ServerManager.HandleRoomEnterAuth` | 02server_auth.go:118-134 | Enters, is denied, is over the limit or is ignored, each exactly when: an approved, not denied connection, the verdict of the room check, and the guards of doRoomEnter |
| `RoomProtocol.RunsKeepHistory` | 02server.go:405-409 | Over any run with disconnects, room re-creation and restarts, every value anywhere was once its room's value, and a stamp has one room and one custom version for ever |
| `RoomProtocol.ReachableHistory` | client_room.go:84-116 | The client's view of a room is blank or an entry of the history |
| `RoomProtocol.StepKeepsHistory` | 02server.go:376-424 | Every step keeps that |
| `RoomProtocol.ChosenAsMember` | 02server.go:407-416 | Whatever the step, a value is chosen for the connection at most once, in a change of its room or on entering it, and only if the connection is a member then; it is the room's current value |
| `RoomProtocol.AcceptedIff` | client_room.go:91-104 | What is accepted, and told to the listeners, is exactly what changes the epoch or the sequence number |
| `RoomConvergence.Converges` | client_room.go:84-116 | A member's room with nothing outstanding, refused, unsent or in the FIFO holds exactly the server's epoch, sequence number and custom version, however sends reorder and whatever is cleaned away; provided cleaning does not overtake a send for that room |
| `RoomConvergence.DeliveryReaches` | client_room.go:91-104 | onRoomValue leaves a room that is up to date so and brings it there |
| `RoomConvergence.QuietMeansAgreed` | client.go:399-449 | When nothing is left to do the client is in exactly the rooms it wants and up to date in each, but for refusals |
| `RoomConvergence.BlankRoomsAreWaiting` | client_room.go:43-79 | A freshly created client room stays blank only while it is asked for, its value is under way, or the server refused it |
| `RoomConvergence.StepKeepsRoom` | client.go:399-449 | Every step keeps, for each room: it waits to be asked for, or the last command about it says what the client wants, or the server has it so |
| `RoomConvergence.AcceptedIsNewer` | client_room.go:91-104 | An accepted value is strictly newer, by epoch and then sequence number |
| `RoomConvergence.RunsAreMonotone` | client_room.go:91-104 | As long as the client does not leave it, and it is not cleaned away ahead of a send, the room never goes back |
| `RoomConvergence.WorkCanBeDone` | client.go:416-449 | While a working connection has something left to do, some step of its own makes it less |
| `RoomConvergence.EverySchedule` | client.go:416-449 | Left alone, a working connection stays working and quiets down under every schedule: a list of effective moves is at most as long as the outstanding work, none is left exactly when the connection is quiet, and then both sides agree in every room not refused |
| `RoomConvergence.QuietsDown` | client.go:416-449 | And there is such a schedule that ends quiet |
| `RoomConvergence.NotAheadOfServer` | client_room.go:91-104 | Whatever was refused, a room the client has is blank or holds a recorded value that is not later than the server's, provided it was not cleaned away ahead of a send |
| `RoomConvergence.ReachDecides` | 02server_auth.go:118-134 | A member's room, refused or not, that is left alone until the connection is quiet agrees with the server's if and only if the server's value was held or under way to begin with; while it has a member the room is never cleaned away |
| `RoomConvergence.RefusedStaysBehind` | 02server_auth.go:118-134 | A run, with nothing cleaned away, that ends quiet with a refused member of the room holding an older value than the server's |
| `RoomConvergence.CleaningOvertakes` | 02server.go:150-163 | Without the hypothesis: a run that ends quiet with the client holding a value of a room that no longer exists |
| `RoomAgreement.AgreementIsSureIff` | client_room.go:84-116 | With no assumption on cleaning: every run that leaves a shared room alone until the connection is quiet ends in agreement if and only if the server's value is to be pushed or is what the FIFO leaves the client with, and no value of another epoch is to be pushed |
| `RoomAgreement.SureOutsideFifo` | client_room.go:84-116 | With no value of the room in the FIFO the condition is that the server's value is held or to be pushed and no value of another epoch is to be pushed |
| `RoomAgreement.SureWhenOrdered` | 02server.go:150-163 | As long as cleaning has not overtaken a send for the room the condition is only that the server's value is held or under way |
| `RoomAgreement.EndsInDisagreement` | 02server.go:150-163 | Without the condition, moves of the connection alone can end quiet and in disagreement |
| `ClientRooms.ClientState.RoomEnter` | client_room.go:20-65 | Nothing on a closed or fatally denied client, the local refusal while the connection is denied; past these the protocol's Join when the room is new and no step otherwise; a new listener is made, and a later one is given the current value at once |
| `ClientRooms.ClientState.Leave` | client_room.go:68-79 | Is Quit when the last listener of the room in the map leaves; a second call, or one after the room was entered anew, does nothing |
| `ClientRooms.ClientState.OnRoomValue` | client_room.go:84-116 | Is the delivery step; every listener is told exactly what was accepted, so that the last event stored for any listener is its room's current value |
| `ClientRooms.ListenerHasCurrent` | client_room.go:133-160 | When the connection is quiet, at most six turns of a listener's background thread leave it with the server's current value of its room as the last event handed to onChangeFn, unless the room was refused |
| `ClientRooms.ClientState.TakeRequests` | client.go:422-440 | Is the staging step of the intent loop |
| `SingleUnd.NeverTwoAndNeverBack` | pkg/zlibSync/SingleUnd.go:23-64 | Under every interleaving at most one run at a time, and events are handed over in the order of storing, never backwards |
| `SingleUnd.LastEventIsHandedOver` | client_room.go:133-156 | Once every caller is through with Do, at most six turns end the thread, a run has started after the last Do, and the last event stored has been handed over |
| `SingleUnd.RunsAreAskedFor` | pkg/zlibSync/SingleUnd.go:23-64 | Under every interleaving no more runs begin than Do has been called |
| `SingleUnd.StepKeepsInv` | pkg/zlibSync/SingleUnd.go:23-64 | One thread exactly while running; an unserved Do has a run ahead of it; a newer event has a Do ahead of it |
| `SingleUnd.Runner.Do` | pkg/zlibSync/SingleUnd.go:23-47 | Is the Do step; starts a thread exactly when none runs |
| `SingleUnd.Runner.AfterRun` | pkg/zlibSync/SingleUnd.go:54-62 | Is the step after a run |
| `Keepalive.NeverTimesOut` | client.go:270-301 | At every instant the last read is at most d+r and the last write at most d+w ago, the read timer does not go off when d+r is below the timeout, and pings are at least d apart |
| `Keepalive.PingsWhenIdle` | client.go:452-472 | In every run a ping is sent if and only if the last one was at least d ago and nothing has been written for d or nothing has been read for d; the read timer stands at the read timeout after the last read |
| `Keepalive.IdleDuration` | client.go:452-472 | The timer goes off d after the older of the last write and read, but never less than d after the last ping; at that instant nothing has been written or nothing has been read for d |
| `Keepalive.Conn.OnIdle` | client.go:270-279 | Is the ping step, with the next duration by IdleDuration |
| `Keepalive.Conn.OnReadFinishSucc` | client.go:291-297 | Is the read step; the read timer is set to the read timeout and the idle timer by IdleDuration, so that a read puts the ping off |
| `Keepalive.Conn.OnWriteFinishSucc` | client.go:298-301 | Is the write step; the idle timer is set by IdleDuration, so that a write puts the ping off |
| `Keepalive.DefaultsAreSafeAndFinal` | 03libProtocol.go:569-585 | After InitWithDefault twice the idle time is at most the read timeout, and applying it again changes nothing |
| `Keepalive.DefaultsKeep` | 03libProtocol.go:569-583 | Zero becomes the default, each given in nanoseconds, and a configured time is kept from 100 ms on, except an idle time of more than half the read timeout, which becomes half of it |
| `Keepalive.DefaultsNeverTimeOut` | 03libProtocol.go:580-583 | Then a peer that echoes within less than half the timeout is never timed out |
| `Keepalive.TimeoutCfg.InitWithDefault` | 03libProtocol.go:569-585 | Updates the fields to Defaulted |
| `Keepalive.TimeoutCfg.InitDefaultMin` | pkg/zlibMath/DefaultMin.go:7-14 | Zero becomes the default, nothing stays below the minimum, anything else is kept |
| `Chat.AppliedIsAPrefix` | example/ReliableChat/chat_client.go:45-95 | In every run with drops, repeats, reordering, coalescing and failed fetches the applied messages are the first of the store |
| `Chat.EventEffect` | example/ReliableChat/chat_client.go:45-95 | What one event adds, exactly |
| `Chat.FetchOverlaps` | example/ReliableChat/chat_client.go:86-94 | Messages a fetch repeats are passed over: the rest of the history is applied, wherever the fetch begins |
| `Chat.GapIsLeft` | example/ReliableChat/chat_client.go:86-94 | Of messages that leave a gap none is applied |
| `Chat.CompleteAfterEvent` | example/ReliableChat/chat_client.go:45-95 | After an event the client is complete if and only if it was, or took the last message, or fetched |
| `Chat.SerialisedConverges` | example/ReliableChat/chat_server.go:54-63 | With serialised posts, once the last post's event has been handled without a fetch error, nothing is missing |
| `Chat.SwappedFiresLoseAMessage` | example/ReliableChat/chat_server.go:54-63 | With two posts fired in swapped order and coalesced, the last event is handled and a message is missing |
| `Chat.Store.Post` | example/ReliableChat/chat_store.go:36-51 | Appends with the next index, in this room only |
| `Chat.Store.After` | example/ReliableChat/chat_store.go:54-64 | Exactly the messages past the index |
| `Chat.ChatClient.HandleEvent` | example/ReliableChat/chat_client.go:45-71 | Is OnChange; reports an error exactly when a needed fetch failed |
| `Chat.ChatClient.BackfillByAjax` | example/ReliableChat/chat_client.go:74-95 | Appends exactly the messages that continue without a gap |

## Left out

- Sockets, the HTTP upgrade, TLS and key pinning, dialling, goroutine spawning, pools, timers of the operating system,
  observability callbacks and status logging: a connection is a FIFO of bytes or messages that may break.
- 32- and 64-bit wrap-around of cursors, capacities, durations and sequence numbers: integers are unbounded in the
  ring, the protocol machine and the schedule; the codec works with 64-bit values.
- BipBuf.Frame16BipBuf2.PopReadFrame: says nothing about the slice after the next call; the source does not protect it.
- ConnWriteBuf.ServerConnWriteBuf.PushMsg: the message is serialised first and copied into its slot, where the source
  serialises into the slot; that MarshalBinaryInto writes exactly those bytes is proved beside it.
- ConnWriteBuf.ServerConnWriteBuf.WriterWrite: header and send are one call here; pushes between the two are in
  `WireRun`. After a header has spoiled the queue the object is no longer valid and nothing more is said about it.
- WireRun.Exec: a write to the socket is one step, of any length when it fails. A run stands still once the bytes of
  the array no longer say where frames end, which takes a header over the length of a frame. No footer is written, as a
  WebSocket asks for none, and the answer the server's read loop writes to a close frame is not interleaved.
- RoomConvergence.Converges: takes it as given that r was not cleaned away ahead of a send for it, and leaves a room
  for which it was to `RoomAgreement.AgreementIsSureIff` and one the server refused to `RoomConvergence.ReachDecides`.
- ClientRooms.ListenerHasCurrent: the listener's SingleUnd is any state of that machine with as many events stored; the
  object of `SingleUnd` is not a field of the listener.
- ClientRooms.ClientState.RoomEnter: the call of OnDenyFn and the timers after the locked section are left out.
- Delivery.EndToEnd: takes it as given that no header and no queued frame has changed the other and that no group was
  cut short, both read off the states of the run; what happens otherwise is shown in runs and decided write by write,
  not described for all that follows.
- RoomProtocol.Exec: a connection the client has dropped delivers nothing more, where the source's old read goroutine
  may finish the message it is at. A push refused by a full buffer and an entry over the limit are steps that mark the
  connection as closing; the closing itself is a break.
- RoomServer.ServerManager.FireChange: live data, its size limit and the sends themselves are not part of the table.
- The protocol machine follows one client and one connection of it at a time; verdicts of the authentication callback
  are arbitrary, and live data, which rides along with a value, is left to `Chunks`.
- Room id length checks, the length of the command queue, ping replies, closeConn and the authentication time-out: in
  the machine each of them is a break of the connection, which may happen at any time.
- NotifyList and sync.Once, NewId and random bytes: waiting is an enabled step, and a new epoch is one not used before.
- UTF-8 decoding, JSON and the escaping of URLs: strings are bytes and chat messages are values.
- Frame16BipBuf, the session key index and CloseConnBySessionId, SoftwareUpdate, WebChat and the user interface: they
  repeat easier proofs or add nothing to the delivery path.
- The browser client beyond its readers and the joining of pieces; unlike the Go client it ignores an empty message.
- A change of the time-out configuration while a connection is open: the schedule is proved for one configuration.
