# LocalVideoStream: the streaming core, modelled in Dafny

LocalVideoStream is an Android app that streams a phone's camera between two
devices over a local TCP connection. Two screens hold the core logic:

- The **stream** screen, `StreamFragment`. The camera analyzer encodes every
  captured frame to JPEG and overwrites a single nullable field,
  `currentJpeg`. A TCP server on port 8080 accepts a client. It then sends
  cycle after cycle: it snapshots the field and, when the snapshot holds a
  frame, writes the frame's length with `DataOutputStream.writeInt`, then
  writes the frame and sleeps. The server only goes back to `accept` after
  that client's connection has failed and its socket is closed. Before
  encoding, `imageProxyToJpeg` builds one NV21 byte array. It copies the Y
  plane and, when the U plane's pixel stride is 2, the V plane. U bytes are
  read but never stored.
- The **watch** screen, `WatchFragment`. It has a connect button that
  controls the fields `isStreaming` and `streamJob`. Its receive loop hands
  each image that `BitmapFactory.decodeStream` returns to the screen, and
  stops at the first null.

The model is imperative, like the Kotlin code:

- `currentJpeg` is a class (`LatestFrame.FrameSlot`).
- The output stream is a class (`JavaIo.DataOutputStream`).
- The watch screen's fields are a class (`Viewer.WatchScreen`).
- The NV21 buffer is an `array`.
- The send, accept and receive loops are methods with loop invariants.

The streaming-side methods are proved against specification functions, and
the promised properties are proved about those functions:

- `LatestOf`: what the slot holds after a run of stores.
- `Message`, `Transmit` and `Snapshots`: what a client receives.
- `ServeFrom` and `InTurnLog`: what the clients receive and the order of
  their connections.
- `Nv21Layout`: the assembled NV21 bytes.

The watch-screen methods (`Job.Launch`, `Job.Cancel`, the `WatchScreen`
methods and `StartViewing`) have no specification function. Their `ensures`
clauses state the properties directly.

The camera, the codecs, the sockets and the coroutines are left out, and
their results become parameters:

- **Frames stored.** The frames the analyzer stores during each send cycle,
  and while `accept` waits, are given as sequences. A cycle's stores are
  placed between its `writeInt` and its `write`, which is the worst case for
  the length matching the payload.
- **Decode results.** The decoder's successive results are a given sequence
  of `DecodeCall`s.
- **Connection outcome.** Whether the viewer's socket connects is a boolean.
- **Loop guard.** `isStreaming && isActive` is given as the number of loop
  checks it survives.

Source files:

- `app/src/main/java/com/PineApple/VideoStream/ui/stream/StreamFragment.kt`
- `app/src/main/java/com/PineApple/VideoStream/ui/watch/WatchFragment.kt`

Three behaviours of the code deserve stating on their own:

- **Clients are served one at a time.** The send loop runs inside the accept
  loop, so the next `accept` happens only after the current client's
  connection has failed and its socket is closed. A viewer that stays
  connected blocks every later one (`AcceptLoop`, `AtMostOneOpen`).
- **The viewer never reads the length prefix.** `WatchFragment` passes the
  raw socket stream to `BitmapFactory.decodeStream`, so the four length
  bytes the server writes are never interpreted as a length on the viewing
  side. The model therefore has no prefix parser and no encode/decode round
  trip. `BigEndianValue` only states what "high byte first" means for the
  bytes that `writeInt` emits.
- **The slot is a plain field.** `currentJpeg` is neither volatile nor
  guarded by a lock. It is modelled as a field that sequential stores
  overwrite.

## Model

| member | source | states |
|---|---|---|
| JavaIo.IntBytes | app/src/main/java/com/PineApple/VideoStream/ui/stream/StreamFragment.kt:117 | `writeInt(v)` emits four bytes. Read high byte first, they denote `v` modulo 2^32, and exactly `v` when `v` is non-negative (as a frame size always is). |
| JavaIo.DataOutputStream.constructor | app/src/main/java/com/PineApple/VideoStream/ui/stream/StreamFragment.kt:111 | A stream freshly opened on the accepted socket has written nothing yet. |
| JavaIo.DataOutputStream.WriteInt | app/src/main/java/com/PineApple/VideoStream/ui/stream/StreamFragment.kt:117 | The stream gains exactly the four bytes of `IntBytes(v)`, after what was already written. |
| JavaIo.DataOutputStream.Write | app/src/main/java/com/PineApple/VideoStream/ui/stream/StreamFragment.kt:120 | The stream gains the whole array, unchanged, after what was already written. |
| LatestFrame.LatestOfIsLast | app/src/main/java/com/PineApple/VideoStream/ui/stream/StreamFragment.kt:82 | Latest frame wins. After a non-empty run of stores the slot holds the last frame stored, and every earlier frame is lost. After no stores it holds what it held before. |
| LatestFrame.LatestOfAppend | app/src/main/java/com/PineApple/VideoStream/ui/stream/StreamFragment.kt:82 | Storing `a` and then `b` leaves the same slot as storing `b` into the slot that `a` left. |
| LatestFrame.FrameSlot.constructor | app/src/main/java/com/PineApple/VideoStream/ui/stream/StreamFragment.kt:40 | The field starts null, with no frame stored. |
| LatestFrame.FrameSlot.Publish | app/src/main/java/com/PineApple/VideoStream/ui/stream/StreamFragment.kt:82 | The analyzer's assignment overwrites the slot unconditionally with the new frame and appends it to the history, keeping the invariant that the slot holds the history's last frame. |
| LatestFrame.FrameSlot.Peek | app/src/main/java/com/PineApple/VideoStream/ui/stream/StreamFragment.kt:114 | The snapshot is the slot's current value. Reading does not clear the slot, since the method changes nothing. |
| LatestFrame.HoldsLatestOfHistory | app/src/main/java/com/PineApple/VideoStream/ui/stream/StreamFragment.kt:40 | A valid slot holds what storing its whole history into a null slot leaves, that is, the last frame ever stored, or null. |
| LatestFrame.PublishEach | app/src/main/java/com/PineApple/VideoStream/ui/stream/StreamFragment.kt:80-84 | The analyzer runs once per captured frame. The history grows by exactly those frames, and the slot ends as `LatestOf` of its old value and the frames. |
| StreamServer.MessageLayout | app/src/main/java/com/PineApple/VideoStream/ui/stream/StreamFragment.kt:114-122 | A null snapshot writes no bytes. An `n`-byte frame writes exactly `4 + n` bytes: the first four denote `n` high byte first, and the other `n` are the payload unchanged. |
| StreamServer.TransmitAppend | app/src/main/java/com/PineApple/VideoStream/ui/stream/StreamFragment.kt:113-124 | Later cycles only append to what earlier cycles sent, in cycle order. |
| StreamServer.TransmitLength | app/src/main/java/com/PineApple/VideoStream/ui/stream/StreamFragment.kt:113-124 | A client receives 4 bytes per non-null snapshot plus the frames' total size. |
| StreamServer.FrameCountBound | app/src/main/java/com/PineApple/VideoStream/ui/stream/StreamFragment.kt:113-124 | `k` cycles send at most `k` frame messages, and exactly `k` if and only if every snapshot held a frame. |
| StreamServer.SnapshotIsLatest | app/src/main/java/com/PineApple/VideoStream/ui/stream/StreamFragment.kt:114 | Cycle `i` snapshots the last frame stored since the loop began, or the starting slot when nothing was stored. |
| StreamServer.SnapshotRepeats | app/src/main/java/com/PineApple/VideoStream/ui/stream/StreamFragment.kt:114 | Reading does not consume the frame. If nothing is stored during a cycle, the next cycle sends the same snapshot again. |
| StreamServer.SendCycle | app/src/main/java/com/PineApple/VideoStream/ui/stream/StreamFragment.kt:114-123 | One cycle writes exactly the message of the snapshot it took at its start, even when the analyzer overwrites the slot between the length and the payload. The slot ends as `LatestOf` of the frames stored meanwhile. |
| StreamServer.SendNext | app/src/main/java/com/PineApple/VideoStream/ui/stream/StreamFragment.kt:113-124 | One more pass of the `while` loop extends the history by that cycle's stores, moves the slot to `LatestOf` of everything stored so far, and extends the client's bytes by one more cycle of `Transmit(Snapshots(…))`. |
| StreamServer.SendLoop | app/src/main/java/com/PineApple/VideoStream/ui/stream/StreamFragment.kt:111-124 | The client receives the in-order concatenation of the messages of the successive snapshots, with each snapshot given by `Snapshots`. The history grows by exactly the frames stored during the loop, and the slot ends holding the last of them. |
| StreamServer.ServeClient | app/src/main/java/com/PineApple/VideoStream/ui/stream/StreamFragment.kt:105-129 | One turn: frames stored while `accept` waits, then `Accepted(i)`, then that client's whole send loop, then `Closed(i)`. Nothing else is logged. The history grows by exactly the frames stored while waiting and while sending. |
| StreamServer.AcceptNext | app/src/main/java/com/PineApple/VideoStream/ui/stream/StreamFragment.kt:104-131 | One turn of the accept loop extends the wires served so far by the next element of `ServeFrom`, and extends the log to `InTurnLog(i + 1)`. The slot ends as the client left it (`LeftBehind`), and the history grows by that client's stores. |
| StreamServer.AcceptLoop | app/src/main/java/com/PineApple/VideoStream/ui/stream/StreamFragment.kt:104-131 | Clients are accepted, served and closed strictly in turn (`InTurnLog`), and each client receives `ServeFrom`'s wire for it. The history grows by exactly the frames stored while the clients were awaited and served, and the slot ends as `LatestOf` of those frames, unchanged when there are none. |
| StreamServer.InTurnLogAt | app/src/main/java/com/PineApple/VideoStream/ui/stream/StreamFragment.kt:104-131 | Client `c`'s accept is event `2c` and its close is event `2c+1`, so it is closed before client `c+1` is accepted. |
| StreamServer.AtMostOneOpen | app/src/main/java/com/PineApple/VideoStream/ui/stream/StreamFragment.kt:104-131 | After every prefix of the accept loop's events, zero or one connection is open. One is open exactly after an odd number of events. |
| StreamServer.ServeFromAt | app/src/main/java/com/PineApple/VideoStream/ui/stream/StreamFragment.kt:104-131 | Client `i` is served from the slot that the earlier clients left behind. |
| StreamServer.SlotBeforeIsLatest | app/src/main/java/com/PineApple/VideoStream/ui/stream/StreamFragment.kt:104-131 | The slot the next client finds holds the last frame stored while the earlier clients were awaited and served. |
| StreamServer.SlotBeforeSnoc | app/src/main/java/com/PineApple/VideoStream/ui/stream/StreamFragment.kt:104-131 | Serving one more client moves the slot on by exactly what that client left behind. |
| StreamServer.PublishedBetweenSnoc | app/src/main/java/com/PineApple/VideoStream/ui/stream/StreamFragment.kt:104-131 | Serving one more client adds exactly the frames stored while it was awaited and served, after the earlier ones. |
| StreamServer.ServedInTurn | app/src/main/java/com/PineApple/VideoStream/ui/stream/StreamFragment.kt:104-131 | Client `i` receives its own cycles' messages. It starts from the last frame stored before it was accepted, which may be a frame that earlier clients were already sent. |
| Nv21.Zeros | app/src/main/java/com/PineApple/VideoStream/ui/stream/StreamFragment.kt:154 | A fresh `ByteArray(n)` holds `n` zero bytes. |
| Nv21.Nv21Layout | app/src/main/java/com/PineApple/VideoStream/ui/stream/StreamFragment.kt:154-182 | The array has length `ySize + uSize + vSize` and starts with the Y plane. When `uSize > 0` and the U pixel stride is 2, the V plane follows Y and the rest is zero. Otherwise everything after Y is zero. No U byte appears. |
| Nv21.GetInto | app/src/main/java/com/PineApple/VideoStream/ui/stream/StreamFragment.kt:179 | `ByteBuffer.get(dst, offset, n)` copies the source into `dst` from `offset` on and leaves every other element unchanged. |
| Nv21.ImageProxyToNv21 | app/src/main/java/com/PineApple/VideoStream/ui/stream/StreamFragment.kt:145-182 | The freshly allocated array, filled in place by the Y copy and the stride-2 loop with its `break`, ends equal to `Nv21Layout`. |
| Viewer.Job.Launch | app/src/main/java/com/PineApple/VideoStream/ui/watch/WatchFragment.kt:54-60 | A new job records the address and port 8080 it will connect to, and starts not cancelled. |
| Viewer.Job.Cancel | app/src/main/java/com/PineApple/VideoStream/ui/watch/WatchFragment.kt:90 | `cancel()` marks the job cancelled. |
| Viewer.IsWhitespace | app/src/main/java/com/PineApple/VideoStream/ui/watch/WatchFragment.kt:44 | Kotlin's `Char.isWhitespace` on the JVM: space, tab, line breaks, no-break space and ideographic space count. Digits, letters, `.`, `:` and `-` never do. |
| Viewer.IsBlank | app/src/main/java/com/PineApple/VideoStream/ui/watch/WatchFragment.kt:44 | `isBlank()`: the empty text and text of spaces, tabs and newlines only are blank. Any text containing a digit, letter, `.`, `:` or `-` is not, whatever whitespace surrounds it. |
| Viewer.WatchScreen.constructor | app/src/main/java/com/PineApple/VideoStream/ui/watch/WatchFragment.kt:23-25 | The screen starts with no job and `isStreaming` false. |
| Viewer.WatchScreen.StopCurrentStream | app/src/main/java/com/PineApple/VideoStream/ui/watch/WatchFragment.kt:88-91 | Afterwards `isStreaming` is false and the held job, if any, is cancelled. The held job is still the same one. |
| Viewer.WatchScreen.OnConnectClick | app/src/main/java/com/PineApple/VideoStream/ui/watch/WatchFragment.kt:41-51 | A blank or whitespace-only address changes neither field nor any job. Otherwise the old job is cancelled and a fresh, not-cancelled job for that address is held with `isStreaming` true. Only the newest job is ever held, and every earlier one is cancelled. |
| Viewer.WatchScreen.OnDestroyView | app/src/main/java/com/PineApple/VideoStream/ui/watch/WatchFragment.kt:93-98 | Tearing down the view stops the session: `isStreaming` is false and the held job is cancelled. |
| Viewer.StartViewing | app/src/main/java/com/PineApple/VideoStream/ui/watch/WatchFragment.kt:54-86 | Decoded images are shown in stream order, each exactly once, up to but not including the first null or failed decode. No decode happens once the loop guard fails, and none if the connection fails. A normal exit closes the socket. The exception path raises exactly one failure toast and does not close the socket. |

## Left out

- Camera setup, preview binding, the permission check and the Wi-Fi address display (`StreamFragment.kt` 64-96 and 138-142) are platform glue.
- JPEG encoding (`YuvImage.compressToJpeg`, `StreamFragment.kt` 188-191) and decoding (`BitmapFactory.decodeStream`) are foreign codecs. Encoded frames are given byte arrays, and decode results are a given sequence.
- Sockets, `ServerSocket.accept`, `Socket(ip, 8080)`, `Thread.sleep(60)` pacing, coroutine dispatch, `withContext(Dispatchers.Main)`, log calls and Toast texts are I/O, timing and threading. Their outcomes are parameters.
- `flush()` after each frame has no effect on which bytes are written, so it is not modelled.
- Real concurrency between the camera executor and the server coroutine on `currentJpeg` (atomicity, memory visibility) is left out. Only sequential interleavings of stores and snapshots are modelled.
- StreamServer.SendLoop: a client's connection ends after its given cycles. The partial message a failing `write` may leave on the wire is not modelled.
- StreamServer.AcceptLoop: serves a given finite list of clients. The outer `catch` that ends the server when `accept` fails, and the server socket closed by `onDestroyView` (`StreamFragment.kt` 197-202), are not modelled.
- Nv21.ImageProxyToNv21: requires the three plane sizes to sum to at most `Int.MAX_VALUE`. The Kotlin `Int` sum `ySize + uSize + vSize` would overflow for larger planes, and no camera produces planes that large.
- Nv21.ImageProxyToNv21: assumes each plane's buffer starts at position 0. The U/V scratch arrays (`StreamFragment.kt` 160-163) are read but never stored, so only the U plane's size is modelled.
- Viewer.IsBlank: U+180E counts as whitespace in some Unicode versions and not in others, so it is not treated as whitespace.
- Viewer.Job: models only the cancelled flag. Job completion, and what `cancel()` does to a coroutine blocked in a read or in `withContext` (a `CancellationException` that would reach the `catch`), are not modelled.
- Viewer.WatchScreen.OnDestroyView: dropping the view binding (`_binding = null`) is not modelled.
- A length-prefix parser or a framing round trip is not modelled, because the viewer never reads the prefix.
- `SettingsViewModel.kt` holds only a constant string and is not part of this model.
