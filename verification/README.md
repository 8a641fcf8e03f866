# A verified model of the VM console

The repository is a remote console for a virtual machine: a Go server bridges
QEMU's VNC port to a browser client written in JavaScript (noVNC). This project
models its stateful parts in Dafny and proves what they keep over whole runs.

Each part has up to three layers, in files of their own where they are large:

- a *specification*: functions on values that say what an operation means, or a
  step machine whose steps are the operations;
- *lemmas* about the specification: invariants over every run, round trips with an
  encoder or a printed form, agreement with a standard, independence of how the
  input is cut into pieces;
- the *operations themselves*, as classes and loops over arrays, maps and
  sequences, each proved to do what the specification says.

| Part | Files |
|---|---|
| Receive and send queues | `ReceiveQueue`, `SendQueue`, `Bytes` |
| Client messages, a reader for them, and the view-only filter | `ClientMessages`, `ClientReader`, `MessageFilter` |
| Message loop with the Raw, RRE and Hextile decoders | `RectSteps`, `UpdateLoop`, `RunFollowing`, `RawAndRre`, `Hextile`, `RfbClient` |
| What printed streams of updates show | `UpdateImage`, `UpdateStream` |
| What Hextile and ZRLE rectangles paint | `Tiles`, `Painting`, `HextileImage`, `Zrle`, `ZrleEncoding`, `ZrleImage`, `ZrleDecoder` |
| Tight filters, what they paint, and the resumable Tight reader | `Tight`, `TightImage`, `TightRects`, `TightWire` |
| Display: canvases, damage, viewport, render queue | `DisplayView`, `DisplayRuns`, `DisplayLaws`, `Display` |
| Machine-protocol client | `QmpProtocol`, `QmpAnswers`, `Qmp` |
| DES | `DesTables`, `DesKeys`, `DesWords`, `Des` |
| DES as in the standard, and that the code is that | `Fips46`, `DesBits`, `DesWires`, `DesBoxes`, `DesRound`, `DesSubkeys`, `DesStandard` |
| CMAC, EAX, RA2 channel | `Cmac`, `Eax`, `EaxStandard`, `Ra2` |
| Modular powers, Diffie-Hellman, RSA | `ModPow`, `Dh`, `Rsa` |
| Keyboard | `Keyboard`, `KeyboardLaws` |
| H.264 context cache and frame splitter | `H264Cache`, `H264Frames`, `H264Units` |

Conventions of the model: a byte is an integer below 256 (a bit vector in the
ciphers); 32-bit arithmetic, truncation and wrap-around are written out where the
source relies on them. An exception is an outcome or a result value. Time, random
bytes, the block cipher, zlib and the decoded pictures are parameters.

Standards: the framebuffer protocol is RFC 6143 (sections 7.5, 7.6.1 and 7.7), CMAC
is NIST SP 800-38B section 6, EAX is the mode of Bellare, Rogaway and Wagner, DES is
FIPS 46-3, RSA padding is RFC 8017 section 7.2, H.264 units are those of ITU-T H.264
annex B.

## Where the code does not do what one would expect

For each of these a lemma gives the exact condition under which the expected
property holds; most have a concrete input beside it.

- The filter negates a 32-bit clipboard length. On 0x80000000, and on nothing
  else, that gives a negative allocation size, which panics
  (`CutTextNegationOverflows`, `PanicsExactlyOnOverflow`). Its size table does not
  fit the client's fence, desktop size, xvp and extended pointer messages
  (`FilterFramesMessage`).
- After an unknown message type the message loop still parses what has already
  arrived, although the connection has failed, while later arrivals are ignored.
  So the way the stream is cut matters (`UnknownTypeDependsOnCuts`), exactly when
  the unknown type is followed by bytes that the loop can act on
  (`CutsMatterExactlyWhenOverread`).
- After scrolling, the target can keep showing pixels that were never drawn at
  their new place, although every damaged pixel has been flipped
  (`StalePixelStays`, `FlipMakesEqual`).
- A resize overtakes operations that wait in the render queue (`ResizeOvertakes`);
  that shows exactly when one of them draws inside the new size and outside the
  old back buffer (`ResizeCommutesExactlyWhenHarmless`).
- A queued blit reads its pixels from the start of the underlying buffer
  (`StepTakesWhatIsAsked`). An image with the wrong size blocks the queue for good
  (`WrongImageBlocksForever`, `ScanEmptiesQueue`).
- An empty Tight palette rectangle leaves the palette marker set, so that the next
  palette rectangle is drawn with the old palette
  (`MarkerIsSetExactlyByEmptyRects`, `NextRectDrawsOldPalette`).
- A Tight rectangle that ends with a length and one byte of data or none waits for a
  byte of what follows, although it is complete (`EndsExactlyWhenReady`).
- A Tight rectangle with a palette of one colour is read with one bit a pixel, but
  drawn with one byte a pixel; only one that is one pixel wide, or black, comes out
  in its colour (`OneColorShows`).
- A machine-protocol request that could not be written stays pending
  (`UnwrittenRequestLingers`, `OnlyUnwrittenRequestsLinger`).
- A DES password of fewer than eight bytes leaves key bits at zero, so that
  complementing it does not complement the subkeys
  (`ScheduleFlipsExactlyWhenFull`).
- A modular power with exponent 0 is not reduced (`ModPowerIsRemainder`).
- An RA2 message of 65536 bytes or more does not fit its header (`MessageArrives`).

## Model

| member | source | states |
|---|---|---|
| `ReceiveQueue.FifoKeepsEveryByte` | `web/static/novnc/core/websock.js:98-178` | over any run of arrivals, reads and un-reads, the bytes read followed by the bytes unread are the bytes received, in order |
| `ReceiveQueue.GoBackUndoesTake` | `web/static/novnc/core/websock.js:167-178` | going back over bytes just read restores the queue |
| `ReceiveQueue.PartialEnd` | `web/static/novnc/core/websock.js:119-125` | a sum of signed 32-bit shifts, taken modulo 2^32, is the unsigned big-endian number |
| `ReceiveQueue.ReceiveBuffer.constructor` | `web/static/novnc/core/websock.js:243-252` | starts empty |
| `ReceiveQueue.ReceiveBuffer.Shift` | `web/static/novnc/core/websock.js:106-125` | takes one to four bytes and returns their big-endian value, though each shift may be negative |
| `ReceiveQueue.ReceiveBuffer.ShiftBytes` | `web/static/novnc/core/websock.js:141-148` | takes and returns exactly the next bytes |
| `ReceiveQueue.ReceiveBuffer.PeekBytes` | `web/static/novnc/core/websock.js:156-162` | returns the next bytes and takes none |
| `ReceiveQueue.ReceiveBuffer.SkipBytes` | `web/static/novnc/core/websock.js:102-104` | takes the next bytes |
| `ReceiveQueue.ReceiveBuffer.Wait` | `web/static/novnc/core/websock.js:167-178` | true exactly when too few bytes are there, and then goes back as asked; throws exactly when the bytes to go back over are gone |
| `ReceiveQueue.ReceiveBuffer.Compact` | `web/static/novnc/core/websock.js:340-345` | moving the unread bytes to the front changes neither them nor their order |
| `ReceiveQueue.ReceiveBuffer.Reallocate` | `web/static/novnc/core/websock.js:336-345` | growing keeps the unread bytes; the buffer never exceeds 40 MiB |
| `ReceiveQueue.ReceiveBuffer.ExpandCompact` | `web/static/novnc/core/websock.js:316-347` | makes room for a message, or throws exactly when unread bytes and message exceed 40 MiB together |
| `ReceiveQueue.ReceiveBuffer.ReceiveMessage` | `web/static/novnc/core/websock.js:349-369` | appends a message to the unread bytes; fails exactly when they exceed 40 MiB together |
| `ReceiveQueue.ReceiveBuffer.PerformAll` | `web/static/novnc/core/websock.js:98-369` | the compacting, growing buffer ends every run of operations as the unbounded queue does, with every byte accounted for; it fails exactly when a message finds no room |
| `SendQueue.SendBuffer.Flush` | `web/static/novnc/core/websock.js:221-227` | sends what is buffered in one frame if the socket is open, and else keeps it |
| `SendQueue.SendBuffer.EnsureSpace` | `web/static/novnc/core/websock.js:228-232` | flushes when needed; no frame is empty or larger than the buffer |
| `SendQueue.SendBuffer.PushBytes` | `web/static/novnc/core/websock.js:206-220` | bytes of any length go out in order over as many frames as needed; frames and buffer together are all bytes pushed |
| `SendQueue.SendBuffer.Push32` | `web/static/novnc/core/websock.js:193-199` | pushes the low 32 bits, most significant byte first |
| `SendQueue.SendBuffer.Push16` | `web/static/novnc/core/websock.js:187-191` | pushes the low 16 bits, most significant byte first |
| `ClientMessages.PushKeyEvent` | `web/static/novnc/core/rfb.js:3077-3086` | exactly this message is added to the bytes pushed, and all is flushed |
| `ClientMessages.PushQemuExtendedKeyEvent` | `web/static/novnc/core/rfb.js:3088-3110` | as before, with the scan code mapped as the source maps it |
| `ClientMessages.PushPointerEvent` | `web/static/novnc/core/rfb.js:3112-3125` | exactly this message is added and flushed |
| `ClientMessages.PushExtendedPointerEvent` | `web/static/novnc/core/rfb.js:3127-3146` | exactly this message, or an exception after the type byte, exactly when the high mask bits are not all handled |
| `ClientMessages.PushClientCutText` | `web/static/novnc/core/rfb.js:3243-3260` | the length is negated for the extended form; clipboard data of any length is split over frames |
| `ClientMessages.PushSetDesktopSize` | `web/static/novnc/core/rfb.js:3262-3283` | exactly this message is added and flushed |
| `ClientMessages.PushClientFence` | `web/static/novnc/core/rfb.js:3285-3298` | exactly this message is added and flushed |
| `ClientMessages.PushEnableContinuousUpdates` | `web/static/novnc/core/rfb.js:3300-3311` | exactly this message is added and flushed |
| `ClientMessages.PushPixelFormat` | `web/static/novnc/core/rfb.js:3313-3350` | exactly this message, with 32-bit shifts as the language has them, is added and flushed |
| `ClientMessages.PushClientEncodings` | `web/static/novnc/core/rfb.js:3352-3363` | the list of any length is added with its length modulo 2^16, and flushed |
| `ClientMessages.PushFbUpdateRequest` | `web/static/novnc/core/rfb.js:3365-3379` | exactly this message is added and flushed |
| `ClientMessages.PushXvpOp` | `web/static/novnc/core/rfb.js:3381-3390` | exactly this message is added and flushed |
| `ClientReader.MessageRead` | `web/static/novnc/core/rfb.js:3077-3390` | a server's reader, written from the protocol and not from the client, reads each message back as its meaning, from exactly its bytes, for all fields within their widths |
| `ClientReader.StreamRead` | `web/static/novnc/core/rfb.js:3077-3390` | and so any sequence of them |
| `ClientReader.FormatRead` | `web/static/novnc/core/rfb.js:3313-3350` | the pixel format read back has the depth, the maxima and the shifts of red, green and blue |
| `ClientReader.EncodingsRead` | `web/static/novnc/core/rfb.js:3352-3363` | the signed encodings read back are those of the list, in order |
| `Bytes.BigEndianInverts` | `web/static/novnc/core/websock.js:106-125` | what a push of a width writes, a shift of that width reads back, modulo the width |
| `MessageFilter.FilterFramesMessage` | `internal/proxy/filter.go:83-156` | for each of the client's messages, the filter cuts the stream right behind it if and only if it is one of the framable ones |
| `MessageFilter.FilterResplits` | `internal/proxy/filter.go:27-73` | any sequence of framable messages, with any bytes after it, comes out message by message, without the input messages when view-only |
| `MessageFilter.ControlForwardsBytes` | `internal/proxy/filter.go:27-73` | without view-only such a stream comes out byte for byte |
| `MessageFilter.ViewerCannotSendInput` | `internal/proxy/filter.go:27-73` | of any stream at all, view-only writes only whole messages that are not input |
| `MessageFilter.ViewerTypes` | `internal/proxy/filter.go:27-73` | each of these begins with one of the types 0, 2, 3, 150 and 151 |
| `MessageFilter.FilterFramesForeign` | `internal/proxy/filter.go:83-156` | messages of clients other than this one are cut right behind their own bytes, and only fences pass view-only |
| `MessageFilter.NextMessageIsStable` | `internal/proxy/filter.go:83-156` | a decision, once possible, does not depend on later bytes |
| `MessageFilter.TruncatedTailIsSilent` | `internal/proxy/filter.go:27-73` | an incomplete last message is not forwarded and ends the filter with an end-of-input error |
| `MessageFilter.CutTextLength` | `internal/proxy/filter.go:113-122` | the length read back is the data's length for both forms, exactly up to the 64 MiB limit |
| `MessageFilter.PanicsExactlyOnOverflow` | `internal/proxy/filter.go:46-55` | the allocation size is negative if and only if the message is a clipboard message with length 0x80000000, whatever its padding |
| `MessageFilter.CutTextNegationOverflows` | `internal/proxy/filter.go:113-122` | on such a message the size is 7 - 2^31 |
| `MessageFilter.CountingReader.ClientMessageSize` | `internal/proxy/filter.go:83-156` | reads the prefix it needs and returns the size of the specification, or the same error |
| `MessageFilter.ReadMessage` | `internal/proxy/filter.go:41-57` | one message, spliced together from type byte, prefix and rest |
| `MessageFilter.CopyClientMessages` | `internal/proxy/filter.go:27-73` | forwards the first byte, and then writes exactly what the specification says until its error |
| `UpdateLoop.StepIsStable` | `web/static/novnc/core/rfb.js:2559-2701` | a step, once possible, is the same when more bytes are there |
| `UpdateLoop.RunSplits` | `web/static/novnc/core/rfb.js:985-1019` | a run can be interrupted at any point and resumed with what comes later, whether it succeeds, waits or fails, unless the stream is overread |
| `UpdateLoop.CutsDoNotMatter` | `web/static/novnc/core/rfb.js:2559-2701` | however a stream is cut into arrivals, the display calls, requests and the final state are those of the whole stream at once, unless an unknown message type is followed by something to parse |
| `UpdateLoop.CutsMatterWhenOverread` | `web/static/novnc/core/rfb.js:2610-2613` | if it is, the cut right behind the unknown type byte gives another outcome |
| `UpdateLoop.CutsMatterExactlyWhenOverread` | `web/static/novnc/core/rfb.js:985-1019` | all ways to cut a stream agree if and only if it is not overread |
| `UpdateLoop.UnknownTypeDependsOnCuts` | `web/static/novnc/core/rfb.js:2610-2613` | the shortest such stream: type 9 and then a bell |
| `UpdateLoop.LiveNeverOverreads` | `web/static/novnc/core/rfb.js:985-1019` | a stream after which the connection is still live is not overread |
| `UpdateLoop.FailureIsFinal` | `web/static/novnc/core/rfb.js:985-1019` | a failed connection stays failed |
| `UpdateLoop.RestShrinks` | `web/static/novnc/core/rfb.js:985-1019` | no run leaves more bytes than it was given |
| `RawAndRre.RawDecoder.DecodeRect` | `web/static/novnc/core/decoders/raw.js:15-58` | line by line, with the line counter kept between calls, it follows the machine to the end of the rectangle or to where bytes are missing |
| `RawAndRre.RawDecoder.ConvertRow` | `web/static/novnc/core/decoders/raw.js:28-47` | eight-bit pixels expanded by channel, or four-byte pixels, each made opaque |
| `RawAndRre.RreDecoder.DecodeRect` | `web/static/novnc/core/decoders/rre.js:15-43` | background and sub-rectangles, with their count kept between calls, follow the machine |
| `Hextile.HextileDecoder.ExpectedBytes` | `web/static/novnc/core/decoders/hextile.js:28-76` | the number of bytes a tile needs, or that it is illegal, found by peeking only |
| `Hextile.HextileDecoder.SubTile` | `web/static/novnc/core/decoders/hextile.js:155-173` | exactly the pixels of the sub-rectangle that are in the buffer change, in place |
| `Hextile.HextileDecoder.PaintTile` | `web/static/novnc/core/decoders/hextile.js:78-128` | one tile: colours carried over, overlay painted, and the calls and bytes of the specification |
| `Hextile.HextileDecoder.DecodeRect` | `web/static/novnc/core/decoders/hextile.js:19-132` | tile by tile, with the tile counter kept between calls, it follows the machine; it throws exactly where that fails |
| `HextileImage.BudgetIsExact` | `web/static/novnc/core/decoders/hextile.js:48-76` | the byte count computed for a tile is the length of what an encoder writes for it |
| `HextileImage.SubrectsShow` | `web/static/novnc/core/decoders/hextile.js:104-124` | painting encoded sub-rectangles shows their image, later ones on top |
| `HextileImage.TileDecodes` | `web/static/novnc/core/decoders/hextile.js:78-128` | every well-formed tile is painted as its image, and the remembered colours are the encoder's |
| `HextileImage.RectanglePaintsImage` | `web/static/novnc/core/decoders/hextile.js:19-132` | for every image and every way to encode its tiles: decoding takes exactly the encoded bytes and paints each pixel of the rectangle once and nothing else |
| `Tiles.TilesPartition` | `web/static/novnc/core/decoders/hextile.js:40-46` | every pixel of a rectangle is in exactly one tile, and tiles contain no other pixel |
| `Painting.TilesPaintImage` | `web/static/novnc/core/decoders/hextile.js:19-132` | calls that paint the tiles of a rectangle paint the rectangle, each pixel once |
| `RfbClient.Client.ReadHeader` | `web/static/novnc/core/rfb.js:2640-2651` | reads the twelve bytes that the machine reads, its encoding signed; what they mean is said by `UpdateImage.HeaderIsRead` |
| `RfbClient.Client.HandleRect` | `web/static/novnc/core/rfb.js:2666-2701` | dispatches on the encoding and follows the machine |
| `RfbClient.Client.FramebufferUpdate` | `web/static/novnc/core/rfb.js:2617-2664` | all rectangles of an update, resumed where the last call waited; the flip comes last |
| `RfbClient.Client.NormalMessage` | `web/static/novnc/core/rfb.js:2559-2615` | one message, or the rest of an update with the next request behind it |
| `RfbClient.Client.UnknownMessage` | `web/static/novnc/core/rfb.js:2610-2613` | an unknown type fails the connection and lets the loop go on |
| `RfbClient.Client.HandleMessage` | `web/static/novnc/core/rfb.js:985-1019` | the loop over the real buffer and decoders does what the machine's run does |
| `RfbClient.Client.OnMessage` | `web/static/novnc/core/websock.js:349-369` | one arrival; it fails exactly when the buffer overflows |
| `RfbClient.Client.ReceiveAll` | `web/static/novnc/core/rfb.js:985-1019` | any number of arrivals: without overflow it ends live exactly when the machine does, with the machine's display calls and state; which, unless the stream is overread, are those of the whole stream at once |
| `UpdateImage.HeaderIsRead` | `web/static/novnc/core/rfb.js:2640-2651` | every printed position, size and signed encoding is read back as exactly that rectangle, and twelve bytes are taken |
| `UpdateImage.RowsRun` | `web/static/novnc/core/decoders/raw.js:15-58` | raw rows, with eight or thirty-two bits a pixel, are taken exactly, one call a row |
| `UpdateImage.RowsShow` | `web/static/novnc/core/decoders/raw.js:15-58` | these calls paint each pixel of the rectangle once, in the colour printed for it, and nothing else |
| `UpdateImage.LayeredRun` | `web/static/novnc/core/decoders/rre.js:15-43` | a background and any sub-rectangles are taken exactly, one call each |
| `UpdateImage.LayeredShows` | `web/static/novnc/core/decoders/rre.js:15-43` | these calls paint the background on the rectangle and each sub-rectangle at its place in it, in order |
| `UpdateImage.MosaicRun` | `web/static/novnc/core/decoders/hextile.js:19-132` | tiles, with the colours kept from earlier ones, are taken exactly and paint each pixel of the rectangle once |
| `UpdateStream.RectShown` | `web/static/novnc/core/rfb.js:2640-2701` | header and body of every printed rectangle (raw, RRE, Hextile or one without pixels): exactly its bytes are taken, and it is shown at its own place |
| `UpdateStream.ShowsAllPaints` | `web/static/novnc/core/rfb.js:2640-2664` | what an update's calls paint on a pixel is what its rectangles print there, in order |
| `UpdateStream.UpdateShown` | `web/static/novnc/core/rfb.js:2617-2664` | an update printed from its rectangles shows them all in order, and then comes one flip, and the request for the next |
| `UpdateStream.OpenUpdateShown` | `web/static/novnc/core/rfb.js:2640-2700` | an update whose count is open shows its rectangles up to the one that ends it |
| `UpdateStream.StreamIsShown` | `web/static/novnc/core/rfb.js:985-1019` | every printed stream of updates, bells and ends of continuous updates: all its bytes are taken, and the calls made are exactly those of its messages, in order |
| `ZrleEncoding.TileRoundTrip` | `web/static/novnc/core/decoders/zrle.js:45-66` | every legal encoding of a tile (raw, solid, packed palette, runs, palette runs) is read back as its pixels, with the bytes behind it untouched and whatever the buffers held |
| `ZrleEncoding.FieldsRead` | `web/static/novnc/core/decoders/zrle.js:95-125` | packed palette indices of one, two or four bits are read back from their bytes |
| `ZrleEncoding.LengthRead` | `web/static/novnc/core/decoders/zrle.js:176-184` | run lengths of any size are read back |
| `ZrleEncoding.RunsRead` | `web/static/novnc/core/decoders/zrle.js:127-142` | runs of colours are read back |
| `ZrleEncoding.EntriesRead` | `web/static/novnc/core/decoders/zrle.js:144-174` | palette runs and single indices are read back |
| `ZrleImage.RectangleRoundTrip` | `web/static/novnc/core/decoders/zrle.js:39-68` | for every image and every legal choice of tile encodings: decoding takes exactly the encoder's stream and paints each pixel of the rectangle once and nothing else |
| `ZrleDecoder.AwaitResumes` | `web/static/novnc/core/decoders/zrle.js:24-37` | however a rectangle's bytes arrive, the call that had to wait takes what one call takes |
| `ZrleDecoder.EncodedRectangle` | `web/static/novnc/core/decoders/zrle.js:24-71` | an encoded rectangle behind its length: exactly its bytes are taken, all that zlib makes of them is used, and the image is painted |
| `ZrleDecoder.Decoder.DecodeTile` | `web/static/novnc/core/decoders/zrle.js:45-66` | one tile over the two reused pixel buffers, as specified, or a failure |
| `ZrleDecoder.Decoder.UnpackRows` | `web/static/novnc/core/decoders/zrle.js:100-125` | rows of packed indices through the running byte cursor, each row at a whole byte |
| `ZrleDecoder.Decoder.PaintPaletteRuns` | `web/static/novnc/core/decoders/zrle.js:144-174` | palette runs, with index and length errors |
| `ZrleDecoder.Decoder.DecodeRect` | `web/static/novnc/core/decoders/zrle.js:24-71` | waits, or makes exactly the calls of the specification and uses exactly the inflated bytes it says |
| `Tight.PredictionIsGradient` | `web/static/novnc/core/decoders/tight.js:287-355` | the prediction by sample number is left plus upper minus upper-left, clamped, zero outside |
| `Tight.GradientRoundTrip` | `web/static/novnc/core/decoders/tight.js:287-355` | gradient decoding inverts encoding for every image and width |
| `Tight.GradientOnto` | `web/static/novnc/core/decoders/tight.js:287-355` | and encoding inverts decoding |
| `Tight.GradientFilter` | `web/static/novnc/core/decoders/tight.js:287-355` | the loops over left and upper-left pixels compute the decoded image, each pixel opaque |
| `Tight.MonoRoundTrip` | `web/static/novnc/core/decoders/tight.js:239-270` | bits packed row by row, each row filled up to a byte, are read back |
| `Tight.MonoRect` | `web/static/novnc/core/decoders/tight.js:239-270` | the loops over whole bytes and the last partial byte give the image that the bits select from the palette |
| `TightRects.TightResumes` | `web/static/novnc/core/decoders/tight.js:28-72` | a call that waited, continued when more bytes are there, does and leaves what one call does; later bytes do not change a call that ended or threw |
| `TightRects.TightReader.DecodeRect` | `web/static/novnc/core/decoders/tight.js:28-141` | the nested reader with its markers, over the real buffer, makes exactly that call |
| `TightRects.TightReader.ReadPalette` | `web/static/novnc/core/decoders/tight.js:181-198` | reads a palette unless the marker is set |
| `TightRects.TightReader.ReadData` | `web/static/novnc/core/decoders/tight.js:357-385` | the compact length, kept between calls, and then the data; which length and data these are is said by `TightWire.DataRead` |
| `TightRects.MarkerIsSetExactlyByEmptyRects` | `web/static/novnc/core/decoders/tight.js:181-237` | from any state between rectangles: after a rectangle the palette marker is set if and only if it was an empty palette rectangle, or it was no palette rectangle and the marker was set before |
| `TightRects.DrawsOwnPaletteWhenClear` | `web/static/novnc/core/decoders/tight.js:181-237` | a palette rectangle is drawn with its own colours when the marker is clear, and with an earlier rectangle's when it is set |
| `TightRects.EmptyRectKeepsPalette` | `web/static/novnc/core/decoders/tight.js:206-208` | the bytes of an empty palette rectangle with any palette leave that palette and its marker |
| `TightRects.NextRectDrawsOldPalette` | `web/static/novnc/core/decoders/tight.js:181-237` | after them any palette rectangle is drawn with that palette |
| `TightWire.LengthRead` | `web/static/novnc/core/decoders/tight.js:357-372` | every length below 2^22, printed seven low bits first, is read back, and exactly its bytes are taken, when at least three bytes are there |
| `TightWire.DataRead` | `web/static/novnc/core/decoders/tight.js:357-385` | data behind its printed length is read back and nothing else taken, or the call waits, exactly when fewer than three bytes are there |
| `TightWire.ControlRead` | `web/static/novnc/core/decoders/tight.js:43-71` | the control byte gives back its reset bits and its kind of compression |
| `TightWire.RectangleRead` | `web/static/novnc/core/decoders/tight.js:28-141` | every printed rectangle (fill, JPEG, or pixels with no, copy, palette or gradient filter, small or deflated): the call resets its streams, finds its filter, palette, stream and data, and takes exactly its bytes |
| `TightWire.EndsExactlyWhenReady` | `web/static/novnc/core/decoders/tight.js:357-372` | the call ends if and only if one or two bytes of data are followed by as much as the reader waits for |
| `TightImage.CopyFilter` | `web/static/novnc/core/decoders/tight.js:142-179` | the loop over the pixels makes the data opaque |
| `TightImage.PaletteRect` | `web/static/novnc/core/decoders/tight.js:272-285` | each index becomes its palette colour, opaque |
| `TightImage.DrawBody` | `web/static/novnc/core/decoders/tight.js:142-355` | the filter's loops compute the samples of the specification |
| `TightImage.SamplesPaint` | `web/static/novnc/core/decoders/tight.js:142-355` | samples that are an image paint it on the rectangle, each pixel once |
| `TightImage.CopyShows` | `web/static/novnc/core/decoders/tight.js:142-179` | the samples of copied pixels are the image |
| `TightImage.GradientShows` | `web/static/novnc/core/decoders/tight.js:287-355` | the samples of an image encoded by gradients are the image |
| `TightImage.MonoShows` | `web/static/novnc/core/decoders/tight.js:239-270` | the samples of an image packed as bits over two colours are the image |
| `TightImage.PaletteShows` | `web/static/novnc/core/decoders/tight.js:272-285` | the samples of an image of indices into three to 256 colours are the image |
| `TightImage.OneColorShows` | `web/static/novnc/core/decoders/tight.js:181-237` | data of zero bits under a palette of one colour show that colour on the whole rectangle if and only if the rectangle is one pixel wide or the colour is black |
| `DisplayView.FlipShowsBackBuffer` | `web/static/novnc/core/display.js:253-297` | after a flip each point in sight shows the back buffer where that has been drawn, and is unchanged elsewhere |
| `DisplayView.FlipMakesEqual` | `web/static/novnc/core/display.js:253-297` | the whole target equals the back buffer after a flip if and only if no point in sight shows something that was never drawn |
| `DisplayView.MoveStaysInside` | `web/static/novnc/core/display.js:92-114` | a moved viewport stays inside the framebuffer |
| `DisplayLaws.MoveGoes` | `web/static/novnc/core/display.js:92-132` | with clipping a move goes as far as asked, or to the nearer bound, in each direction; without it to the origin; size, framebuffer and drawings stay |
| `DisplayLaws.MovesAdd` | `web/static/novnc/core/display.js:92-132` | two moves that stay inside are one move by their sum |
| `DisplayLaws.MoveBack` | `web/static/novnc/core/display.js:92-132` | a move that stays inside is undone by its opposite |
| `DisplayLaws.SizeBecomes` | `web/static/novnc/core/display.js:134-173` | with clipping the viewport becomes as large as asked, but not larger than the framebuffer; without it as large as that |
| `DisplayLaws.ReadjustBecomes` | `web/static/novnc/core/display.js:189-221` | after a change the viewport fits, at the place nearest to where it was |
| `DisplayLaws.ResizeBecomes` | `web/static/novnc/core/display.js:189-221` | a resize keeps the pixels inside the new size and no others, and the viewport fits |
| `DisplayLaws.UnclippedIsWhole` | `web/static/novnc/core/display.js:74-221` | over any run, without clipping the viewport is the whole framebuffer |
| `DisplayLaws.DrawnPixel` | `web/static/novnc/core/display.js:316-430` | after a fill, copy, blit or image each pixel it covers has the colour it brings there, and every other pixel its old one |
| `DisplayLaws.DrawnAtOnce` | `web/static/novnc/core/display.js:316-430` | with an empty queue this is done at once, and all it covers is damaged |
| `DisplayRuns.ReachableViews` | `web/static/novnc/core/display.js:92-297` | in every state any run reaches, the viewport lies in the framebuffer and each of its pixels outside the damage box shows what has been drawn there |
| `DisplayRuns.StalePixelStays` | `web/static/novnc/core/display.js:92-132` | after scrolling, a never drawn part can show what was there before |
| `DisplayRuns.StepTakesWhatIsAsked` | `web/static/novnc/core/display.js:394-418` | a step adds exactly the operation asked for, last, if and only if a queued blit's pixels are at the start of their buffer |
| `DisplayRuns.DrawnInOrder` | `web/static/novnc/core/display.js:482-577` | whenever pictures become ready, everything is drawn once, in the order asked for |
| `DisplayRuns.ResizeCommutesExactlyWhenHarmless` | `web/static/novnc/core/display.js:189-221` | a resize while operations other than copies wait gives what drawing them first gives, if and only if none of them draws inside the new size and outside the old back buffer |
| `DisplayRuns.QueueIsInvisible` | `web/static/novnc/core/display.js:482-577` | if all resizes are harmless in this sense, holding operations back is invisible: drawn and pending together are plain drawing |
| `DisplayRuns.ResizeOvertakes` | `web/static/novnc/core/display.js:189-221` | a fill waiting behind a frame survives a resize that would have cut it off |
| `DisplayRuns.FlushWaitsForQueue` | `web/static/novnc/core/display.js:299-313` | a flush promise is kept exactly when the queue has become empty |
| `DisplayRuns.ScanEmptiesQueue` | `web/static/novnc/core/display.js:498-577` | with all pictures ready, a scan empties the queue if and only if no image has the wrong size |
| `DisplayRuns.WrongImageBlocksForever` | `web/static/novnc/core/display.js:515-521` | a queued image of the wrong size stays queued for good, and no flush promise is kept again |
| `Display.Display.ShowDamage` | `web/static/novnc/core/display.js:253-297` | copies the damaged part of the viewport, and nothing when there is none |
| `Display.Display.ScanRenderQ` | `web/static/novnc/core/display.js:498-577` | runs the head of the queue while it is ready |
| `Display.Display.RenderQPush` | `web/static/novnc/core/display.js:482-489` | an operation joins the queue and is scanned at once when it is alone |
| `Display.Display.BlitImage` | `web/static/novnc/core/display.js:394-418` | draws at once, or queues the pixels at the start of the buffer |
| `Display.Display.ImageRect` | `web/static/novnc/core/display.js:364-381` | queues an image that is not empty |
| `Display.Display.Flush` | `web/static/novnc/core/display.js:303-313` | resolved at once when the queue is empty |
| `Display.Display.ViewportChangePos` | `web/static/novnc/core/display.js:92-132` | with clipping the viewport goes by the floored move, or to the nearest place inside; without it to the origin; what was not in sight before is damaged, and flipped |
| `Display.Display.ViewportChangeSize` | `web/static/novnc/core/display.js:134-173` | floors and limits the size; a new size blanks the target and redraws it |
| `Display.Display.Resize` | `web/static/novnc/core/display.js:189-221` | changes the back buffer, keeps its pixels and readjusts the viewport |
| `Display.Display.SetClipViewport` | `web/static/novnc/core/display.js:74-80` | changes clipping and readjusts the viewport |
| `QmpProtocol.ReachableInv` | `internal/vm/qmp.go:87-164` | the invariant behind the following holds in every interleaving of callers, reader and failures |
| `QmpProtocol.RepliesReachTheirCallers` | `internal/vm/qmp.go:87-164` | a returned reply carries the id of the caller's own request |
| `QmpAnswers.AnswersWereRead` | `internal/vm/qmp.go:87-164` | in every interleaving, a call returns exactly a reply that was read after its request was made |
| `QmpAnswers.ResultsWereRead` | `internal/vm/qmp.go:149-157` | a result is returned only for a reply read with the call's own id and without an error, and it is that reply's result |
| `QmpAnswers.IdsAreCounted` | `internal/vm/qmp.go:129-142` | the ids given out are 1, 2, 3 and so on |
| `QmpAnswers.RequestIsPending` | `internal/vm/qmp.go:129-147` | a request written waits under the next id |
| `QmpAnswers.ReplyIsDelivered` | `internal/vm/qmp.go:102-124` | a reply read with a pending id reaches the channel of the call that has that id, unchanged |
| `QmpAnswers.ReplyWaitsForItsCall` | `internal/vm/qmp.go:102-157` | it stays there, whatever else happens, until its call takes it |
| `QmpAnswers.ReplyIsReturned` | `internal/vm/qmp.go:149-157` | a waiting call that then receives returns that very reply, as a failure exactly when it has an error |
| `QmpProtocol.OneReplyPerChannel` | `internal/vm/qmp.go:87-126` | no channel gets a second value or one after it was closed |
| `QmpProtocol.ReaderNeverBlocks` | `internal/vm/qmp.go:116-124` | the reader's send neither blocks nor panics |
| `QmpProtocol.FailureReleasesEveryone` | `internal/vm/qmp.go:91-101` | after a read failure every waiting call can return at once |
| `QmpProtocol.OnlyUnwrittenRequestsLinger` | `internal/vm/qmp.go:129-164` | of the pending requests exactly those that could not be written have nobody waiting |
| `QmpProtocol.UnwrittenRequestLingers` | `internal/vm/qmp.go:143-147` | there are such requests |
| `Qmp.Qmp.Register` | `internal/vm/qmp.go:129-147` | the first half of a call under the lock is the protocol's step |
| `Qmp.Qmp.Await` | `internal/vm/qmp.go:149-157` | taking a reply or a closed channel is the protocol's step; the reply's result is returned, or an error if the reply has one |
| `Qmp.Qmp.Abandon` | `internal/vm/qmp.go:158-163` | a cancelled call forgets its request |
| `Qmp.Qmp.Dispatch` | `internal/vm/qmp.go:102-121` | what the reader does with a line |
| `Qmp.Qmp.Deliver` | `internal/vm/qmp.go:122-124` | the very reply read goes to the channel found, as the protocol step does; what then reaches the caller is said by `QmpAnswers.AnswersWereRead` |
| `Qmp.Qmp.FailAll` | `internal/vm/qmp.go:91-101` | a failed read closes every pending channel, in any order |
| `Des.BackwardsDecrypts` | `web/static/novnc/core/crypto/des.js:182-260` | encryption with the subkeys in reverse order undoes encryption, for all keys and texts |
| `Des.EncryptInjective` | `web/static/novnc/core/crypto/des.js:182-260` | no two texts have the same cipher text |
| `Des.RoundsUndo` | `web/static/novnc/core/crypto/des.js:208-233` | any number of rounds are undone by the rounds backwards |
| `Des.CloseUndoesOpen` | `web/static/novnc/core/crypto/des.js:182-260` | the closing permutation inverts the opening one |
| `Des.Complementation` | `web/static/novnc/core/crypto/des.js:132-260` | complementing password and text complements the cipher text, for passwords of at least eight bytes |
| `DesStandard.EncryptIsStandard` | `web/static/novnc/core/crypto/des.js:81-260` | for every password and block, encryption is the DES of FIPS 46-3, with each password byte mirrored and short passwords filled with zeros |
| `DesStandard.OpensStandard` | `web/static/novnc/core/crypto/des.js:183-206` | the opening swaps are the initial permutation, both halves rotated by one |
| `DesStandard.RoundsAreStandard` | `web/static/novnc/core/crypto/des.js:208-233` | after any number of rounds the rotated halves are those of the standard |
| `DesStandard.ClosesStandard` | `web/static/novnc/core/crypto/des.js:235-260` | the closing swaps are the inverse of the initial permutation |
| `DesRound.RoundIsStandard` | `web/static/novnc/core/crypto/des.js:208-233` | a round's eight lookups are expansion, key, the eight selection tables and the permutation P |
| `DesSubkeys.ScheduleIsStandard` | `web/static/novnc/core/crypto/des.js:132-179` | each cooked subkey holds the 48 bits of the standard's round key |
| `DesSubkeys.KeyBitsAreChosen` | `web/static/novnc/core/crypto/des.js:137-141` | the bits taken from a password are its permuted choice 1 |
| `DesSubkeys.HalvesAre` | `web/static/novnc/core/crypto/des.js:143-153` | rotating step by step is rotating by the total of the shifts |
| `DesKeys.ScheduleFlipsExactlyWhenFull` | `web/static/novnc/core/crypto/des.js:132-179` | complementing the password complements the subkeys if and only if it has at least eight bytes |
| `Des.DES.constructor` | `web/static/novnc/core/crypto/des.js:132-179` | the key schedule, by bit selection, rotation and cooking, is the specified one |
| `Des.DES.Rotated` | `web/static/novnc/core/crypto/des.js:148-153` | both halves rotated within themselves |
| `Des.DES.Enc8` | `web/static/novnc/core/crypto/des.js:182-260` | the eight double rounds compute the cipher, which is the standard one by `DesStandard.EncryptIsStandard` |
| `Cmac.DoubleIsMultiplication` | `web/static/novnc/core/crypto/aes.js:61-75` | the shifted subkey is multiplication by x in GF(2^128), coefficient by coefficient |
| `Cmac.InitCMAC` | `web/static/novnc/core/crypto/aes.js:61-75` | the subkeys are once and twice the doubled zero block, also the second, which is computed by shifting by two |
| `Cmac.CmacIsChain` | `web/static/novnc/core/crypto/aes.js:95-123` | the code's last cipher block of one CBC encryption is the chained definition |
| `Cmac.ComputeCMAC` | `web/static/novnc/core/crypto/aes.js:95-123` | with the prefix block, full and partial last blocks, it is CMAC of prefix and data |
| `Eax.OpensExactlySealed` | `web/static/novnc/core/crypto/aes.js:140-177` | decryption gives a message if and only if the data is that message's encryption |
| `EaxStandard.CodeIsStandard` | `web/static/novnc/core/crypto/aes.js:95-123` | for every block cipher and message the code is the CMAC of SP 800-38B, block by block |
| `EaxStandard.KeyBlocksCount` | `web/static/novnc/core/crypto/aes.js:77-84` | the key stream encrypts a counter that goes up by one, as a 128-bit big-endian number |
| `EaxStandard.SealIsEax` | `web/static/novnc/core/crypto/aes.js:140-154` | each byte is encrypted with its key stream from the coded nonce, and the tag is the sum of the three tagged codes |
| `Eax.EaxCipher.Encrypt` | `web/static/novnc/core/crypto/aes.js:140-154` | EAX encryption |
| `Eax.EaxCipher.Decrypt` | `web/static/novnc/core/crypto/aes.js:156-177` | EAX decryption with its tag check |
| `Ra2.CounterCounts` | `web/static/novnc/core/ra2.js:16-28` | after n messages the nonce is n modulo 2^128 |
| `Ra2.NextAddsOne` | `web/static/novnc/core/ra2.js:20-26` | the carry loop adds one, and wraps |
| `Ra2.MessageIs` | `web/static/novnc/core/ra2.js:16-28` | the n-th message is its length in two bytes and EAX of the message with that header and n, as a little-endian nonce |
| `Ra2.MessageArrives` | `web/static/novnc/core/ra2.js:16-40` | a message is received as it was sent if and only if it is shorter than 65536 bytes |
| `Ra2.ConversationArrives` | `web/static/novnc/core/ra2.js:16-40` | any sequence of such messages arrives, each side counting for itself |
| `Ra2.RA2Cipher.MakeMessage` | `web/static/novnc/core/ra2.js:16-28` | header, cipher text and tag, and the counter moved on in place |
| `Ra2.RA2Cipher.ReceiveMessage` | `web/static/novnc/core/ra2.js:30-40` | the message or nothing; the counter moves on either way |
| `ModPow.ModPowerIsRemainder` | `web/static/novnc/core/crypto/bigint.js:1-12` | the power modulo m is reduced, except exactly for exponent 0 with modulus 1 |
| `ModPow.Compute` | `web/static/novnc/core/crypto/bigint.js:1-12` | square and multiply computes it |
| `ModPow.ToBytesValue` | `web/static/novnc/core/crypto/bigint.js:14-26` | a number that fits is written with the width asked for and has the same value |
| `ModPow.BigIntToU8Array` | `web/static/novnc/core/crypto/bigint.js:14-26` | through the hexadecimal string, padded to whole bytes |
| `ModPow.U8ArrayToBigInt` | `web/static/novnc/core/crypto/bigint.js:28-34` | the big-endian value; no bytes throw |
| `ModPow.BigEndianInjective` | `web/static/novnc/core/crypto/bigint.js:14-34` | byte strings of one length with the same value are the same |
| `Dh.PowerOfPublic` | `web/static/novnc/core/crypto/dh.js:48-54` | a power of a public key is g to the product of the exponents |
| `Dh.PublicKeyIs` | `web/static/novnc/core/crypto/dh.js:36-46` | the public key is g to the private exponent modulo p, in the key's length |
| `Dh.SecretIs` | `web/static/novnc/core/crypto/dh.js:48-54` | the secret is g to the product of both exponents modulo p |
| `Dh.SecretsAgree` | `web/static/novnc/core/crypto/dh.js:36-54` | both sides derive the same bytes |
| `Dh.SecretLength` | `web/static/novnc/core/crypto/dh.js:48-54` | the secret has the key's length or the one asked for, whichever is larger, and the right value |
| `Dh.DHCipher.DeriveBits` | `web/static/novnc/core/crypto/dh.js:48-54` | derives the secret; an empty public key throws |
| `Rsa.DecodedUndoesEncoded` | `web/static/novnc/core/crypto/rsa.js:86-124` | removing the padding gives the message back, for any message and nonzero padding |
| `Rsa.EncodedIsSmall` | `web/static/novnc/core/crypto/rsa.js:86-102` | the padded message is below 256 to the key's length minus one, and so below the modulus |
| `Rsa.CipherTextIs` | `web/static/novnc/core/crypto/rsa.js:86-102` | the cipher text is the e-th power modulo n of 0, 2, at least eight nonzero bytes, 0 and the message |
| `Rsa.DecryptedIs` | `web/static/novnc/core/crypto/rsa.js:104-124` | decryption gives a message if and only if the d-th power modulo n is that message so padded |
| `Rsa.DecryptUndoesEncrypt` | `web/static/novnc/core/crypto/rsa.js:86-124` | with matching exponents every message that fits comes back |
| `Rsa.RSACipher.Encrypt` | `web/static/novnc/core/crypto/rsa.js:86-102` | padding and power; a message too long gives nothing |
| `Rsa.RSACipher.Decrypt` | `web/static/novnc/core/crypto/rsa.js:104-124` | power and the checks of the padding |
| `Keyboard.EventsTellTheTruth` | `web/static/novnc/core/input/keyboard.js:39-266` | over any run the events sent, replayed, give the keys held, and none contradicts an earlier one |
| `Keyboard.ArmedMeansNotHeld` | `web/static/novnc/core/input/keyboard.js:87-212` | a delayed AltGr is only pending on Windows, and its control key has not been sent |
| `Keyboard.AllKeysUpReleasesAll` | `web/static/novnc/core/input/keyboard.js:256-266` | losing focus releases every key, and nothing is left pending |
| `Keyboard.AltGrIsOneKey` | `web/static/novnc/core/input/keyboard.js:99-209` | control and right alt within 50 ms are one AltGr, and later ones two keys |
| `KeyboardLaws.PressIsPassedOn` | `web/static/novnc/core/input/keyboard.js:87-212` | a press, named as the platform names it, sends exactly its press, or press and release for keys that send no release |
| `KeyboardLaws.CapsLockIsTapped` | `web/static/novnc/core/input/keyboard.js:174-229` | on a Mac press and release of caps lock each send a press and a release |
| `KeyboardLaws.UnidentifiedIsTapped` | `web/static/novnc/core/input/keyboard.js:123-136` | a key without a code sends press and release at once, or nothing when it has no symbol |
| `KeyboardLaws.ReleaseIsPassedOn` | `web/static/novnc/core/input/keyboard.js:214-246` | a release sends exactly the symbol that the press sent, and nothing for a key not held |
| `KeyboardLaws.ShiftsGoUpTogether` | `web/static/novnc/core/input/keyboard.js:231-245` | on Windows either shift releases both |
| `KeyboardLaws.ControlWaits` | `web/static/novnc/core/input/keyboard.js:202-208` | on Windows left control sends nothing at first |
| `KeyboardLaws.WaitEnds` | `web/static/novnc/core/input/keyboard.js:99-254` | whatever comes next sends it first, unless it is right alt within 50 ms |
| `Keyboard.Keyboard.HandleKeyDown` | `web/static/novnc/core/input/keyboard.js:87-212` | as specified, for every platform |
| `Keyboard.Keyboard.HandleKeyUp` | `web/static/novnc/core/input/keyboard.js:214-246` | as specified |
| `Keyboard.Keyboard.InterruptAltGrSequence` | `web/static/novnc/core/input/keyboard.js:248-254` | sends the delayed control key |
| `Keyboard.Keyboard.AllKeysUp` | `web/static/novnc/core/input/keyboard.js:256-266` | releases the keys in some order |
| `H264Cache.RecentMeansFewOthersSince` | `web/static/novnc/core/decoders/h264.js:241-281` | a context is cached if and only if its rectangle was used and fewer than 64 others have been since |
| `H264Cache.RecentStep` | `web/static/novnc/core/decoders/h264.js:251-281` | one use moves a context to the front, and the oldest goes when there are 64 |
| `H264Cache.H264Decoder.FindOldest` | `web/static/novnc/core/decoders/h264.js:251-261` | finds a least recently used context |
| `H264Cache.H264Decoder.Use` | `web/static/novnc/core/decoders/h264.js:263-277` | the tick of every context keeps them ordered by last use |
| `H264Cache.H264Decoder.DecodeRect` | `web/static/novnc/core/decoders/h264.js:287-320` | waits for eight bytes and the payload, takes exactly these, and uses the context, after a reset if the flag asks for one |
| `H264Frames.FramesMakePayload` | `web/static/novnc/core/decoders/h264.js:74-109` | the frames of a payload without an error are consecutive, not empty, and together the payload |
| `H264Frames.FrameHoldsOneSlice` | `web/static/novnc/core/decoders/h264.js:48-109` | a frame ends with its first slice, and is a key frame exactly when that is one |
| `H264Frames.OnlyForbiddenBitsFail` | `web/static/novnc/core/decoders/h264.js:48-72` | from a start sequence on, only a unit with the forbidden bit is an error |
| `H264Units.UnitsAreFramed` | `web/static/novnc/core/decoders/h264.js:21-109` | a payload printed from its units, with short or long start codes, is cut right behind each slice, with its kind, and the rest is the last frame |
| `H264Frames.H264Parser.ParseNext` | `web/static/novnc/core/decoders/h264.js:74-109` | one call of the parser |
| `H264Frames.H264Parser.ParseAll` | `web/static/novnc/core/decoders/h264.js:184-238` | the decoder's loop over all frames of a payload |

## Left out

- UpdateLoop.CutsDoNotMatter: does not model that an update waits for a render queue that is not empty (`rfb.js:2623-2636`), because that depends on when pictures are decoded; nor the messages of types 3, 248 and 250 and the other rectangle encodings, which end this model's run as unmodelled. The ZRLE, Tight and H.264 decoders are modelled by themselves, outside the loop.
- DisplayRuns.QueueIsInvisible: with a copy in the queue only resizes with an empty queue are covered, because a copy reads what earlier operations, cut off at other edges, have left.
- DisplayRuns.ReachableViews: pictures and pixels are opaque or absent; partial transparency, smoothing and scaling (autoscale, rescale) are not modelled.
- Rsa.DecryptUndoesEncrypt: takes as its hypothesis that the exponents match modulo the modulus; that key generation yields such exponents is the browser's part.
- ZrleDecoder.Decoder.DecodeRect: zlib is a function of the rectangle's data here, so that the state it keeps from one rectangle to the next is not modelled.
- TightRects.TightReader.DecodeRect: yields the data of a body and its filter, palette and stream; inflation is left out, so that `TightImage` begins with inflated data.
- ReceiveQueue.ReceiveBuffer.ShiftBytes: returns a copy; the views into the buffer that the source can hand out alias it until the next arrival.
- MessageFilter.CopyClientMessages: errors of the destination's writes are not modelled; they end the filter at once.
- Keyboard.Keyboard.AllKeysUp: the order of the releases is left open, and so are the tables that map browser keys to key symbols, and the states of num lock and caps lock that are passed on beside each event.
- H264Frames.H264Parser.ParseAll: the profile bytes of a parameter set and the browser's video decoder are left out.
- Qmp.Qmp.Dispatch: the channel of events, the JSON encoding and the dialling of the connection are left out.
- The AES block cipher is a parameter. The ECB and CBC wrappers and MD5 would only add easy members. The RA2 handshake, up to the two channel keys, is not part of this model.
- Security types and initialisation of the framebuffer protocol, cursors, desktop names, clipboards beyond their length, LEDs, gestures and the user interface.
- The server: virtual machine life cycle, controller seat, HTTP and configuration.
