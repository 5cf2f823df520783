# Verified model of the Bramble mesh-node SDK

This project models the parts of the Go SDK for Bramble LoRa mesh nodes in which something can go
wrong that no single function shows: the JSON-RPC multiplexer and its notification loop, the three
self-reconnecting transports, the paged screenshot, newline framing and the authentication write
over BLE, the key codecs, and the squash-merge expander of the release scripts.

## How it is modelled

**Shared memory.** For each piece of concurrent code there is a record of the fields its goroutines
share, and a function on that record for each critical section (or channel operation). A class with
the same fields has one method for each section; its `ensures` equates the new fields with that
function of the old ones. So `ProtocolMemory.Shared` goes with `ProtocolMemory.Protocol`,
`WebSocketLink.Link` with `WebSocketLink.WebSocket`, and likewise for `SerialLink` and `BleLink`.

**Runs.** A system state is that record, a program counter for every goroutine, the environment (the
node and its wire, the device, the port) and a history. `Step` takes one event; an event that is not
enabled leaves the state alone. Every list of events is therefore an interleaving, and a lemma about
all lists is a statement about all interleavings. `Runs` has the induction over runs. Assumptions
about the environment are predicates on one event in one state (`AnswersOnlySent`, `OneConnect`,
`NoStaleLoop`, ...), and a run `Abides` by one if each of its events does. Clocks, contexts, dials,
handshakes, reads and writes are events that may happen, succeed or fail at any time.

**Loops.** `assembleScreenshot`, `onNotification`, the chunk loop of the BLE `Send` and `retrySend`
are methods with loops, each proved equal to a function; the lemmas are about that function. The
loops of the reader, of `Call` and of the three reconnects, in which other goroutines interleave,
are program counters. The codecs and the expander are functions, as in the source.

| files | what they model |
|---|---|
| Protocol, Multiplexer, MultiplexerInvariant, MultiplexerTheorems, NotifyLoop, Pipeline | protocol.go, notifyLoop in client.go, and the two together |
| WebSocket, Serial, BleLink, BleLoss, Backoff, Callbacks | the reconnecting transports; BleLoss has the BLE link itself beside the flags |
| Screenshot, Base64 | screenshot.go, and the base64 it decodes |
| BleFraming, BleAuth | framing and the auth write of transport/ble.go |
| KeyCodecs, GoText, GoTextTheorems | network_key.go and anchor.go, and what they use of Go's strings, hex and url packages |
| Squash | the squash-merge expander |
| Runs, Ceiling, Wrappers | induction over runs, a division lemma; Option and Result (module Wrappers) and the byte type (module Bytes) |

## What does not hold

Some natural claims are false of the code. Each is answered with a state or run that shows it and
with the exact condition under which it holds.

- The reader of the multiplexer can block for good. A node that answers one request twice does it
  (`DuplicateReplyStopsTheReader`), and so does a node that answers every request once when a `Send`
  that had handed its request over fails and is retried (`DeliveredRetryStopsTheReader`). Without
  both, it never blocks (`ReaderNeverBlocks`); once blocked, it stays so exactly when the call no
  longer listens, and `Stop` does not free it (`StuckExactlyWhenDeaf`).
- A BLE transport with a token does not recover from a lost link. The comment at
  transport/ble.go:123 speaks of a successful automatic reconnect, but authenticate writes through
  `Send`, which refuses while reconnecting: `reconnecting` stays true until Close
  (`StopsReconnectingExactly`, `RecoversExactlyWithoutToken`). The one way round it is a loop left
  over from before a `Close` (`RecoversExactly`, `StaleLoopCanRecover`).
- A BLE transport without a token can lose its link for good too. If the link is lost again after a
  loop's connect and before the loop clears `reconnecting`, no loop is started for it
  (transport/ble.go:434), and the first one ends over the dead link, calling OnReconnect
  (`SecondLossGoesUnattended`).
- A BLE transport can be connected by its flags over a dead link. If the link is lost between its
  making (transport/ble.go:210) and its installing (line 261), the report finds `connected` false and
  is dropped (line 428). Nothing then reconnects, and a new `Connect` is refused
  (`EarlyLossGoesUnnoticed`). Installing such a link is the only event that makes the flag dishonest
  (`HonestExactly`). A loop that ends in one of these two ways, and a `Connect` that takes a closed
  transport over, are the only events after which nothing looks after the link
  (`LookedAfterExactly`).
- A BLE transport can have two reconnect loops if `Connect` is called after `Close` while the old
  loop is still asleep (`SecondLoopExactlyWhenStale`).
- A connected BLE transport may have a closed close channel: a report that the link is up sets
  `connected` and renews nothing (`UsableExactlyUnlessUpWhileClosed`).
- After `Close` a dial or connect in flight still installs its connection
  (`WebSocketRuns.ShutExactlyWhenNoDial`, `SerialRuns.ShutExactlyWhenNotOpening`,
  `BleRuns.ShutExactly`).
- After `Close` a late report that the link is up makes a BLE transport connected, and `Send` writes
  again (`BleRuns.ShutExactly`, `LateReportRevives`).
- WebSocket's OnDisconnect and OnReconnect need not alternate (`ReportsNeedNotAlternate`,
  `AlternationExactlyWhenCalm`).
- A second `Connect` on a serial transport can make a reader scan without a connection
  (`MisscanExactlyWithSecondConnect`).
- Half a line from a lost BLE link stays in the line buffer and is joined to the first line of the
  next one (`NextLinkExactly`).
- A BLE `Send` that fails after some of its chunks leaves them on the device, and the next message that
  is sent is joined to them (`DeviceSeesExactly`).
- The comment at protocol.go:132 says that the frames discarded silently carry both an id and a
  method; frames with neither are discarded there too (`EmptyFrameIsDiscarded`).

## Model

| member | source | states |
|---|---|---|
| ProtocolMemory.Protocol.constructor | protocol.go:65-71 | A new protocol has given out no id, has no pending call, an empty queue, and is not stopped. |
| ProtocolMemory.Protocol.AllocateID | protocol.go:140 | The next id is one more than the last, and nothing else changes. |
| ProtocolMemory.Protocol.StorePending | protocol.go:148-149 | A fresh empty channel is in the table under the call's id. |
| ProtocolMemory.Protocol.DeletePending | protocol.go:150 | The id leaves the table; the channel itself, which the reader may hold, stays. |
| ProtocolMemory.Protocol.RouteFrame | protocol.go:106-132 | What becomes of a frame, by id, method, table and queue length: one of undecodable, for a channel, unmatched, queued, dropped at 64, ambiguous. |
| ProtocolMemory.Protocol.PushReply | protocol.go:118 | With room in the channel the frame is appended to it. |
| ProtocolMemory.Protocol.ReceiveReply | protocol.go:169-174 | The oldest frame leaves the call's channel. |
| ProtocolMemory.Protocol.ReceiveNotification | client.go:124 | The oldest notification leaves the queue. |
| ProtocolMemory.Protocol.StopOnce | protocol.go:188-192 | done is signalled, however often it is called. |
| MultiplexerInvariant.InvAlways | protocol.go:79-180 | The inductive invariant of all interleavings: ids, table, channels, reader, log, results and queue agree. |
| MultiplexerTheorems.NoCrossTalk | protocol.go:111-121 | A Call that ends with a result or an RPC error returns what an emitted frame with its own id and no method says, its error if it has one and else its result, and no other Call consumed that frame. |
| MultiplexerTheorems.CallEndsExactly | protocol.go:139-180 | In every run: a Call ends with result r exactly if the reply it consumed has no error and result r, with an RPC error exactly if it has that error; it ends Cancelled, Stopped, SendFailed or MarshalFailed exactly if its context ended in a select, it saw done there, its Send failed, its marshalling failed; Stopped only after Stop. |
| MultiplexerTheorems.DoneExactly | protocol.go:187-192 | done is set exactly if Stop has been called. |
| MultiplexerTheorems.CallCanEndExactly | protocol.go:160-179 | In every run a Call not yet ended can be ended by its context exactly at its two selects, and by done exactly there once Stop has been called. |
| MultiplexerTheorems.ReaderExitsExactly | protocol.go:89-104 | In every run the reader exits only after Stop, and an idle reader can exit exactly after Stop. |
| MultiplexerTheorems.TableIsTheLiveCalls | protocol.go:140-150 | Ids are never reused, the table's ids are exactly the calls registered and not returned, and it is empty once all have returned. |
| MultiplexerTheorems.Conservation | protocol.go:89-134 | Frames read = undecodable + delivered + unmatched + queued + dropped + ambiguous + at most one in hand; queued = taken + in the queue; delivered = taken by calls + in channels. |
| MultiplexerTheorems.FateByKind | protocol.go:106-133 | Only a reply is delivered or unmatched, only a notification queued or dropped, only an undecodable frame skipped, in both directions. |
| MultiplexerTheorems.NotificationPipeline | protocol.go:123-131 | What the loop has taken is a prefix of the accepted notifications, those an in-order subsequence of the ones read, and one is left out only with 64 waiting. |
| MultiplexerTheorems.NoLostReply | protocol.go:114-121 | If the node answers only what was handed to it, every reply routed before its Call returns goes to that Call's channel, also while Send is still running, and every reply settled is held by its Call or came after it. |
| MultiplexerTheorems.ReplyRoutedExactly | protocol.go:114-121 | In every run, whatever the node does: a reply in hand goes to its Call's channel if and only if that Call is registered at that moment, and is dropped as unmatched if not. |
| MultiplexerTheorems.ReaderNeverBlocks | protocol.go:118 | If each request is answered at most once and a failed Send hands nothing over, every push of the reader finds room, in every reachable state. |
| MultiplexerTheorems.ReplyLands | protocol.go:116-118 | Under that assumption the reader's next two actions leave exactly the reply in hand in its Call's channel, if the Call has not returned. |
| MultiplexerTheorems.StuckExactlyWhenDeaf | protocol.go:118 | A blocked reader is stuck for ever, whatever follows, if and only if the Call whose channel is full has stopped listening. |
| MultiplexerTheorems.DuplicateReplyStopsTheReader | protocol.go:118 | A reachable state, with whole sends and a duplicate reply to a cancelled Call, in which the reader is stuck for ever. |
| MultiplexerTheorems.DeliveredRetryStopsTheReader | protocol.go:152-167 | The same with every request answered once, when a Send that handed its request over is retried. |
| MultiplexerTheorems.EarlyReplyIsLost | protocol.go:114-121 | A reply read before its Call registers is dropped, and the Call then waits with nothing left to wake it. |
| MultiplexerTheorems.EmptyFrameIsDiscarded | protocol.go:111-133 | A reachable state in which a frame with neither id nor method was discarded like an echo. |
| NotifyLoop.Client.NotifyDecode | client.go:103-120 | Whether the payload decodes; if not, at most 512 bytes of it are reported, once, if a callback is set. |
| NotifyLoop.Client.HandleNotification | client.go:123-247 | One turn of the loop is the step of the specification for the callbacks set when it starts; what that step adds is ReactsExactly. |
| NotifyLoopTheorems.SettersExactly | client.go:125-142 | A callback is set exactly if the last setter for it set it. |
| NotifyLoopTheorems.ReactsExactly | client.go:144-245 | For each of the fifteen methods by name: its callback, if set, is called with a payload that decodes, a payload that does not is reported (512 bytes of it) if a callback for that is set; two are passed on without payload; no other method calls anything. |
| NotifyLoopTheorems.NotificationAddsExactly | client.go:123-247 | After any setters and notifications, the next one adds exactly those calls and keeps the ones made before. |
| NotifyLoopTheorems.LoopMakesTheCalls | client.go:123-247 | Over a run of setters and notifications the calls made are the reactions to each notification, in order, under the callbacks of its time. |
| NotifyLoopTheorems.BadPayloadIsIsolated | client.go:103-120 | A payload that does not decode yields its error report or nothing, in place; all other calls are those of the run without it. |
| Pipeline.WireToCallback | client.go:123-247 | Multiplexer and loop together, in every run: the loop sees the method and params of a prefix of the accepted notifications, an in-order subsequence of those read, the rest being in the queue; the calls made are its reactions. |
| Pipeline.TakingDelivers | client.go:123-247 | In every joint run, when the loop takes the head of the queue, that is a frame with a method and no id, and the application gets exactly the calls that method and those params ask for under the callbacks set by then. |
| Backoff.NextDelayIsNext | transport/websocket.go:197-200 | Doubling with a cap takes min(2^k, 30) to min(2^(k+1), 30). |
| Backoff.TotalOnSchedule | transport/serial.go:276-279 | After n sleeps the loop has waited 2^n - 1 seconds up to n = 5, and 31 + 30(n - 5) beyond. |
| WebSocketLink.WebSocket.Connect | transport/websocket.go:62-73 | A successful dial becomes the current connection; a failed one changes nothing. |
| WebSocketLink.WebSocket.BeforeWrite | transport/websocket.go:77-87 | Send is refused while reconnecting, or without a connection, in that order. |
| WebSocketLink.WebSocket.ClaimReconnect | transport/websocket.go:151-158 | The loop goes to the goroutine that finds reconnecting false, and to no other. |
| WebSocketLink.WebSocket.AbandonReconnect | transport/websocket.go:170-172 | Giving up clears reconnecting. |
| WebSocketLink.WebSocket.FinishReconnect | transport/websocket.go:185-189 | The dialled connection is current, open, and reconnecting is cleared, in one section. |
| WebSocketLink.WebSocket.CloseCurrent | transport/websocket.go:219-223 | The current connection is closed but stays current. |
| WebSocketRuns.ReconnectExclusion | transport/websocket.go:150-202 | With any number of goroutines and a Close anywhere, reconnecting is true exactly when a goroutine owns the loop, never two do, and OnReconnect never outnumbers OnDisconnect. |
| WebSocketRuns.SendGuardExactly | transport/websocket.go:77-87 | In every run Send is refused exactly while a goroutine owns the loop, finds no connection exactly if none was ever dialled, and else writes to the one dialled last, which is open until Close has run. |
| WebSocketRuns.OnlyCloseCloses | transport/websocket.go:62-73 | In every run no connection is closed before Close, and Close closes one at most: a reconnect or a second Connect leaves the connection it replaces open. |
| WebSocketRuns.LoopBacksOff | transport/websocket.go:164-200 | Every loop's sleeps follow the closed form, in every run. |
| WebSocketRuns.AlternationExactlyWhenCalm | transport/websocket.go:157-193 | In a run whose owners finish reporting before the next takes over the reports alternate, and the next takeover keeps it so if and only if the last owner has finished. |
| WebSocketRuns.ReportsNeedNotAlternate | transport/websocket.go:189-193 | A run that reports disconnect, disconnect, reconnect. |
| WebSocketRuns.ShutExactlyWhenNoDial | transport/websocket.go:168-187 | After Close no run without a further Connect reopens the transport if and only if no goroutine was past its check of done. |
| SerialLink.Serial.Connect | transport/serial.go:91-110 | An accepted port is open and current with a scanner of its own; a rejected one is closed, and leaves its scanner behind and no connection. |
| SerialLink.Serial.ClaimReconnect | transport/serial.go:215-227 | The first to find reconnecting false claims the loop, and closes and gives up the broken connection. |
| SerialLink.Serial.InstallPort | transport/serial.go:252-255 | Connection and scanner are replaced together. |
| SerialLink.Serial.DropPort | transport/serial.go:257-262 | After a rejected handshake the port is closed, and connection and scanner are cleared. |
| SerialLink.Serial.NewScanner | transport/serial.go:192-194 | A fresh scanner for the current connection takes the place of the spent one. |
| SerialLink.Serial.CloseCurrent | transport/serial.go:323-327 | The current connection is closed but stays current. |
| SerialLink.Serial.BeforeWrite | transport/serial.go:288-293 | Send is refused while reconnecting, or without a connection, in that order. |
| SerialRuns.ReaderIsWellFormed | transport/serial.go:160-281 | With one Connect, every Scan, the reader's and the handshake's, has a scanner on the current connection whose Scan has not yet returned false; Send finds a connection unless told to wait; the reports strictly alternate. |
| SerialRuns.PortsExactly | transport/serial.go:90-281 | With one Connect every port opened has been closed but for the current connection, which is open until Close; the next event leaves a port behind exactly if it is a Connect made while the connection is open. |
| SerialRuns.ScannerExactly | transport/serial.go:95-103 | In every run: a port opened gets a scanner of its own, which a rejected Connect leaves behind; a rejected re-authentication takes the scanner away; a clean end of input makes a fresh one for the current connection; nothing else changes it. |
| SerialRuns.SendGuardExactly | transport/serial.go:284-293 | In every run, with any number of Connects: Send is told to wait exactly while a reader owns the reconnect loop, its re-authentication included; else it finds no connection or writes to the port opened last. |
| SerialRuns.LoopBacksOff | transport/serial.go:233-279 | Every reconnect's sleeps follow the closed form, also across rejected handshakes. |
| SerialRuns.MisscanExactlyWithSecondConnect | transport/serial.go:91-110 | After a run with one Connect, an event makes a Scan without current connection possible if and only if it is a second Connect that is accepted, or rejected while the reader is on its way to a Scan; once Close has begun, only one rejected while the reader is at its Scan. |
| SerialRuns.ShutExactlyWhenNotOpening | transport/serial.go:238-272 | After Close no run without a Connect reopens the transport if and only if no reader was past its check of done; if one was, Send may write to an open port again. |
| BleLink.BLE.StartConnect | transport/ble.go:147-153 | Connect is refused when connected, and else ends closing. |
| BleLink.BLE.InstallDevice | transport/ble.go:258-265 | The transport is connected, with a close channel that is open. |
| BleLink.BLE.HandleConnectionStateChange | transport/ble.go:414-450 | The new state for a link reported up or down, the callback called (ReportsExactly says which), and whether a reconnect loop is started. |
| BleLink.BLE.LoopSucceeded | transport/ble.go:468-476 | reconnecting is cleared, and OnReconnect called. |
| BleLink.BLE.LoopShouldStop | transport/ble.go:457-463 | The loop stops, clearing reconnecting, exactly when closing. |
| BleLink.BLE.BeforeWrite | transport/ble.go:492-497 | Send is refused while reconnecting, or when not connected, in that order. |
| BleLink.BLE.CloseLink | transport/ble.go:531-549 | Close ends every state, closes the close channel unless it is closed, and disconnects the device exactly if it was connected. |
| BleRuns.CloseChNeverClosedTwice | transport/ble.go:436-438 | In every run a close channel is closed at most once. |
| BleRuns.LoopBacksOff | transport/ble.go:453-483 | Every loop's sleeps follow the closed form, in every run. |
| BleRuns.ReportsExactly | transport/ble.go:414-476 | In every run OnDisconnect is called exactly by the events that handle a report of the link down and clear connected; OnReconnect exactly by a report of it up that sets connected while nobody is reconnecting, and by a loop that ends past its connect; one callback at most for each event. |
| BleRuns.SingleReconnector | transport/ble.go:433-449 | If no Connect begins after Close, at most one loop is live, and while not closing reconnecting is true exactly when one is. |
| BleRuns.SendGuardExactly | transport/ble.go:488-497 | Where no Connect begins beside a stale loop: Send is told to wait exactly while the transport is not closing and a loop is live, and may write exactly if not so and connected. |
| BleRuns.SecondLoopExactlyWhenStale | transport/ble.go:146-156 | A Connect keeps to one loop every later run, in which no Connect begins beside a stale loop, if and only if it does not itself begin on a closed transport whose loop is still live. |
| BleRuns.RecoversExactly | transport/ble.go:286-300 | In every run: the loops and callers in flight can bring a reconnecting transport to connected and not reconnecting if and only if, with a token, some loop already had its token written, and without one, the link is up or a loop or caller can still dial. |
| BleRuns.StopsReconnectingExactly | transport/ble.go:286-300 | In every run: some future without a Close clears reconnecting if and only if there is no token or some loop already had its token written. |
| BleRuns.RecoversExactlyWithoutToken | transport/ble.go:465-477 | Where no Connect begins beside a stale loop: with a token reconnecting stays true until Close and the link is never recovered; without one reconnecting can end, and the link is recovered if and only if it is up or a loop or caller can still dial. |
| BleRuns.StaleLoopCanRecover | transport/ble.go:456-477 | A reachable state with a token, reconnecting over a dead link, from which the loops bring the link back. |
| BleRuns.AttendedExactly | transport/ble.go:433-477 | By the flags: every event keeps "connected, reconnecting or closing", except exactly a loop that ends past its connect with connected false, and a Connect that takes over a transport nobody is reconnecting. |
| BleRuns.SecondLossGoesUnattended | transport/ble.go:434-471 | A reachable state, without a token, in which a link lost twice is lost for good: none of the three flags is set, no later run without a Connect or a link report connects, and the last callback was OnReconnect. |
| BleLoss.FlagsAreARun | transport/ble.go:210-265 | With the link itself, and the reports the stack owes, beside them, the flags still go through a run of the transport, so all that is proved of its runs applies. |
| BleLoss.HonestExactly | transport/ble.go:210-265 | In every run that installs no lost link, a connected transport has its link or will be told of its loss, and the next event keeps it so if and only if it does not install a link already reported lost. |
| BleLoss.LookedAfterExactly | transport/ble.go:428-477 | Every event leaves the link there, or its loss to be acted on, or a loop at work, or the transport closed, except exactly a loop that ends past its connect without a link that is watched, and a Connect that takes over. |
| BleLoss.EarlyLossGoesUnnoticed | transport/ble.go:258-265 | A reachable state, connected by the flags over a dead link with nobody left to act, which no later run without a Close or an up-report leaves, Connects included. |
| BleRuns.UsableExactlyUnlessUpWhileClosed | transport/ble.go:417-425 | Every event keeps "connected implies an open close channel", except exactly the report that the link is up while that channel is closed. |
| BleRuns.ConnectedWithClosedChannel | transport/ble.go:417-425 | A run to a connected transport with a closed close channel. |
| BleRuns.ShutExactly | transport/ble.go:258-265 | After Close, every run without a Connect is disconnected throughout if and only if the link is never reported up and no dial in flight succeeds; such a dial was in flight when Close ran; without link reports no run reconnects if and only if there was none. |
| BleRuns.LateReportRevives | transport/ble.go:416-418 | A reachable closed state, with every goroutine done, in which Send may write. |
| Screenshot.AssembleScreenshot | screenshot.go:75-149 | The loop computes the specification for every device, and a success has 1 to 32 Mi bytes. |
| ScreenshotTheorems.AnyDevice | screenshot.go:79-148 | Against any device: one capture, first, and failure at once unless its reply announces 1 to 32 Mi bytes without error; then every request names the first byte not held, success exactly when the last reply fits and completes the frame, with the replies' bytes in order, and at most as many fetches as bytes. |
| ScreenshotTheorems.FailureIsExplained | screenshot.go:80-147 | Against any device: the error of a failed assembly names what is wrong with the last reply, given the size announced and the bytes held. |
| ScreenshotTheorems.BoundedWork | screenshot.go:96-148 | Against any device: at most 32 Mi fetches, never 32 MiB held before a request, at least one byte gained by each reply. |
| ScreenshotTheorems.HonestDevice | screenshot.go:75-149 | A frame paged out in any positive sizes comes back byte for byte, if it has 1 to 32 Mi bytes, and is rejected with the right error if not. |
| ScreenshotTheorems.FixedSizeFetches | screenshot.go:109-148 | With chunks of c bytes it takes exactly ceil(n / c) fetches. |
| Base64.DecodeUndoesEncode | screenshot.go:110 | Decoding undoes encoding for every list of bytes (section 4 of RFC 4648). |
| Base64.DecodesExactly | screenshot.go:110 | A text decodes to b if and only if, without its line breaks, it is four characters of the alphabet for each three bytes, with the number they make, and "==" or "=" at the end for one or two. |
| Base64.BreaksAreIgnored | screenshot.go:110 | Carriage returns and line feeds anywhere in the text do not change what it decodes to. |
| BleFraming.NotificationReader.OnNotification | transport/ble.go:387-403 | One notification is its bytes taken one by one, in order. |
| BleFraming.NotificationReader.Receive | transport/ble.go:519-522 | The oldest line leaves the channel. |
| BleFramingTheorems.ChunksCover | transport/ble.go:499-514 | The chunks concatenate to the payload, each has 1 to 240 bytes, all but the last 240, and there are ceil(n / 240). |
| BleFramingTheorems.OfferedAreTheLines | transport/ble.go:387-403 | However bytes and Receive calls interleave, the lines offered are the non-empty lines of the byte stream, in order, and the buffer holds its unfinished rest. |
| BleFramingTheorems.FragmentationIsInvisible | transport/ble.go:387-403 | Any way of cutting a stream into notifications leads to the same state. |
| BleFramingTheorems.LinesLostOnlyWhenFull | transport/ble.go:393-397 | Queued lines are taken in order or still waiting; a line is lost only with 32 waiting. |
| BleFramingTheorems.RoundTripExactly | transport/ble.go:388-401 | A stream of framed messages yields exactly them and an empty buffer if and only if the buffer was empty and every message is non-empty and free of newlines. |
| BleFramingTheorems.NextLinkExactly | transport/ble.go:258-265 | After any run and a new link, its messages are offered exactly if and only if the old link left nothing in the buffer; otherwise the first comes out joined to what it left. |
| BleFramingTheorems.BufferHasNoNewline | transport/ble.go:389-401 | The line buffer never holds a newline. |
| BleFramingTheorems.SendThenReceive | transport/ble.go:499-514 | What Send writes in chunks for any list of messages, in any fragmentation, is offered as exactly that list. |
| BleAuth.Writer.Send | transport/ble.go:488-516 | The chunk loop lands the chunks up to the first write that fails, and reports how it ended. |
| BleAuth.Writer.SendWithRetry | transport/ble.go:340-354 | The retry loop repeats only a transient failure, at most `attempts` times, and ends early when cancelled. |
| BleAuthTheorems.PassLandsPrefix | transport/ble.go:505-515 | One pass over the chunks lands a prefix of them, all exactly on success. |
| BleAuthTheorems.AuthWriteIsSafe | transport/ble.go:291-300 | If a write that fails lands nothing: for every token and every sequence of write results, refusals and cancellations, what landed is a prefix of token plus newline, and all of it exactly when the retry succeeds. |
| BleAuthTheorems.AuthWriteExactly | transport/ble.go:286-354 | For every token and link: a token of at most 239 bytes is tried at most five times, until a try is refused, breaks, lands or has its wait cancelled, which is how the write ends; it succeeds exactly if one of the five lands after only tries in progress; five in progress end it Transient; a longer token is tried once. |
| BleAuthTheorems.RetryIsSafeExactly | transport/ble.go:315-321 | Landing a prefix, and all exactly on success, holds for a message and a number of attempts if and only if it is tried once, or at least once with at most 239 bytes. |
| BleAuthTheorems.SecondTryRepeats | transport/ble.go:315-321 | Trying a longer message again lands its first chunk twice. |
| BleAuthTheorems.DeviceSeesExactly | transport/ble.go:499-515 | Over any list of Sends the device gets one line for each that succeeds, and exactly those messages with nothing left over if and only if no failed Send landed any of its chunks. |
| GoText.HexRoundTrip | anchor.go:129-138 | Hex decoding undoes encoding, in two solid characters a byte (section 8 of RFC 4648). |
| GoTextTheorems.HexDecodeExactly | anchor.go:130 | A text decodes to bytes if and only if it has two digits of either case for each, of its number. |
| GoTextTheorems.HexEncodeExactly | network_key.go:58 | The encoding is the one such text in lower case. |
| GoTextTheorems.TrimSpaceExactly | network_key.go:65 | Trimming takes white-space characters, by code point in UTF-8, off both ends, and all of them. |
| GoTextTheorems.PairsRoundTrip | network_key.go:67 | Any list of pairs comes back, in order, from the query it is written as. |
| GoTextTheorems.UnescapeExactly | network_key.go:67 | A text unescapes to bytes if and only if it has, for each, "%" and its two digits, "+" for a space, or the byte itself. |
| GoTextTheorems.PieceExactly | network_key.go:67-70 | A piece of a query is skipped if empty, the parameter it spells out (no "=" meaning no value), or spoils the query, by a semicolon or a wrong escape. |
| GoTextTheorems.QueryConcat | network_key.go:67-70 | Pieces between "&"s are read one by one, in order, and one that is wrong spoils the query. |
| GoText.EscapeRoundTrip | network_key.go:57-59 | Query unescaping undoes escaping, and an escaped text has no separator in it. |
| GoText.PairRoundTrip | network_key.go:57-71 | An encoded key and value parse back to exactly that pair. |
| KeyCodecTheorems.NetworkKeyRoundTrip | network_key.go:53-78 | Every 32-byte key comes back from its share string. |
| KeyCodecTheorems.NetworkShareExactly | network_key.go:53-60 | The share of a 32-byte key is its prefix and 64 lower-case digits of it; any other size is refused with that size. |
| KeyCodecTheorems.ShareWithParameters | network_key.go:64-76 | A share with any parameters, white space around it: the first one named k is read as hex, and its lack or emptiness reported. |
| KeyCodecTheorems.SemicolonIsMalformed | network_key.go:67-70 | A semicolon anywhere in the parameters makes the query malformed. |
| KeyCodecTheorems.HexLenExactly | anchor.go:129-138 | Hex of a wanted length is read exactly if the trimmed text is hex, in either case, of that many bytes; the error gives the other length, or says that it is no hex. |
| KeyCodecTheorems.AnchorBackupRoundTrip | anchor.go:114-127 | Every 32-byte seed comes back from its backup string. |
| KeyCodecTheorems.AnchorBackupExactly | anchor.go:114-119 | The backup of a 32-byte seed is its prefix and 64 lower-case digits of it; any other size is refused with that size. |
| KeyCodecTheorems.BackupWithWhiteSpace | anchor.go:123-127 | A backup, and bare hex, come back with white space around them. |
| KeyCodecTheorems.ParsedKeysReencode | network_key.go:64-78 | Whatever text either parser accepts, the key it yields can be encoded and parses back to itself. |
| KeyCodecTheorems.BareHexParses | anchor.go:123-127 | Both parsers take the bare hex of a key. |
| KeyCodecTheorems.ForeignPrefixRejected | network_key.go:65-77 | Each parser rejects every string that opens with the other's prefix. |
| KeyCodecs.BuildEndorsementMessage | anchor.go:63-70 | The message built by appending has the 18-byte context, the key and an expiry that reads back, as a big-endian number, each in its place and nothing more. |
| KeyCodecTheorems.MessageIsItsLayout | anchor.go:61-70 | A byte string is the message of a key and an expiry if and only if context, key and expiry are read from those places in it. |
| KeyCodecTheorems.EndorsementMessageInjective | anchor.go:63-70 | Two messages are equal if and only if key and expiry are; a message has 26 bytes more than its key. |
| KeyCodecTheorems.NotAfterHexOrder | anchor.go:87-91 | Sixteen characters, equal exactly for equal times, in dictionary order exactly as the times are in order. |
| SquashTheorems.SplitRejoins | scripts/release/semantic-release-squash-expander.cjs:56 | Preamble and parts rejoined with "* " are the text. |
| SquashTheorems.MarkersAreExact | scripts/release/semantic-release-squash-expander.cjs:56 | The markers are all the line starts with "* ", in order. |
| SquashTheorems.PartIsSlice | scripts/release/semantic-release-squash-expander.cjs:56-58 | Part k of the split is the text between marker k - 1 and marker k. |
| SquashTheorems.ExpandsExactly | scripts/release/semantic-release-squash-expander.cjs:49-81 | Every commit is expanded exactly if its body has a bullet of conventional shape, and left alone if not; into one commit for each bullet, in order, with the bullet's first line as header and subject, the rest of it less newlines at its ends as body, both as message, and everything else copied. |
| SquashTheorems.ExpansionFollowsMarkers | scripts/release/semantic-release-squash-expander.cjs:56-66 | An expanded commit yields exactly one commit for each marker, in order, made from the text up to the next marker; preamble and parts rejoined are the body. |
| SquashTheorems.ClassesExactly | scripts/release/semantic-release-squash-expander.cjs:47-58 | The character classes of the patterns, by code point. |
| SquashTheorems.ExpansionIsIdempotent | scripts/release/semantic-release-squash-expander.cjs:63-81 | Expanding twice is expanding once, on every list of commits. |
| SquashTheorems.TrimExactly | scripts/release/semantic-release-squash-expander.cjs:58 | Trimming removes a tail of such characters, and all of it. |
| SquashTheorems.BulletIsSubjectAndBody | scripts/release/semantic-release-squash-expander.cjs:68-71 | A bullet is its subject and body with nothing but newlines around the body, which neither begins nor ends with one. |
| SquashTheorems.ConventionalExactly | scripts/release/semantic-release-squash-expander.cjs:47 | The left-to-right match accepts exactly the texts of the pattern's shape: it never needs to back up. |

## Left out

- The id counter is unbounded: it would wrap after 2^64 calls.
- encoding/json: frames and chunks are decoded records, and whether a notification decodes is a parameter.
- Ed25519, SHA-256 and key generation: nothing is claimed about signatures or fingerprints.
- The typed RPC wrappers of client.go and the structs of types.go encode parameters, make one Call and decode its result; version.go compares three numbers. None of them is modelled.
- BLE scanning and GATT discovery, serial port modes, WebSocket dialling and close codes are events that succeed or fail.
- Whether a write error asks for a reconnect or counts as transient is decided by the environment, not by its text.
- Time, contexts and the 50 ms pause: a cancellation or a timer may fire at any point; the backoff is in seconds slept.
- transport/auth.go and the content of authentication replies: a handshake is accepted or rejected.
- bufio.Scanner: the serial model is about which connection is scanned, not about how lines are cut, and has no lines that the reader skips because they do not start with a brace.
- The serial reader uses `conn` and `scanner` without the lock, and Connect sets them during its handshake; the model takes Connect as one step, and data races are outside it.
- Callbacks are taken as set: a report is counted where the callback would be called. For BLE the history has the calls in the order in which they are decided under the lock; they run outside it, and may overtake each other.
- inferPathScopes and the wiring of the release plugin are not modelled.
- JavaScript strings are sequences of Unicode scalar values, so lone surrogates are not represented; an absent message is the empty one.
- The limit net/url puts on the number of query parameters is not modelled.
- Termination of the notification loop: its queue is never closed, so nothing is claimed after Stop.
- transporttest: its in-order promise rests on sleeps.
- BleAuthTheorems.AuthWriteIsSafe: assumes that a write which fails lands nothing, as the retry in the source does; a write that reports a failure after its bytes arrived is not modelled.
- BleRuns.RecoversExactly: considers the steps of the threads there are, given a device that lets them succeed; a report that the link is up, or a new Connect, may bring the link back as well. Its link is the transport's flag.
- BleLoss.HonestExactly: takes the stack's handler to be in place as soon as the link is made, one link at a time, and each loss to be reported once.
- ScreenshotTheorems.HonestDevice: does not say what an honest device does with requests that assembly never makes.
- WebSocketRuns.ReconnectExclusion: does not model the read or write that leads a goroutine to call reconnect; any goroutine may call it at any time.
