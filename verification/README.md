# Verified model of GoGRPCBridge

GoGRPCBridge tunnels gRPC over websockets. This project models the parts of it in which state, order
and concurrency matter, and proves what they promise over whole runs.

- **The upgrade abuse guard** (`AbuseGuard`, `GuardRuns`, `RetryAfter`): a fixed-window rate limit
  per client, a global and a per-client connection cap, and a lazy sweep of expired windows. The
  older handler package has the same guard without the sweep; the two are shown to answer alike, and
  the bounds on what a client can get through, and the exactness of the advertised wait, follow.
- **The upgrade handler** (`BridgeHandler`, `HandlerSafety`, `HandlerBracketing`, `HandlerAnswers`): any number of
  requests, each acquiring resources statement by statement and releasing them through its defer
  stack, interleave freely against one guard, on every exit path.
- **Keepalive** (`Keepalive`, `LivePeers`): validation, defaults, the watchdog that re-arms from the
  last pong beside a transport that may replace the read deadline, and which peers it keeps.
- **The browser connection** (`BrowserStream`, `BrowserConnection`, `BrowserSignals`): the bounded
  message queue in a growable array that is compacted in place, refining a byte stream; and, at the
  grain of single accesses to shared state, the wake token and the error channel.
- **The native connection and listener** (`NativeConn`, `WriteDeadlines`, `NativeListener`): the byte
  stream over binary frames, write deadlines set beside a write in flight, and the rendezvous between
  `deliver`, `Accept` and `Close`.
- **The todo example's store** (`TodoSpec`, `TodoStore`, `TodoPersistence`): the list with its index,
  and the debounced worker that must not lose a change.
- **Forwarded headers** (`HttpHeader`, `ForwardHeaders`, `ForwardInjection`, `ForwardOrder`): what a
  session forwards, how it is filled into tunneled requests, and when the order of a map iteration
  could show in the outcome.

Objects whose methods update them are classes whose methods are proved against a function of the old
state; the laws are lemmas about those functions. Protocols between goroutines are step relations
whose actions are the sections held under a lock, or single channel and atomic accesses. Where a
lemma speaks of a run, it is every finite sequence of enabled actions from the initial state.

Times and durations are integer nanoseconds, and Go's zero time is the absence of a value. Counters
are unbounded integers, which is safe where the proofs bound them: the queue by its caps, the
connection counters by the number of live requests, and a rate window's count by its limit.

Where the code and its comments differ, the model follows the code:

- The comment on `BridgeConfig.IdleTimeout` (`pkg/grpctunnel/api.go:85-87`) speaks of client activity
  or pongs; the watchdog counts only pongs. `LivePeers.ActivePeerIsClosed` has an active peer that is
  closed, and `LivePeers.KeptIffPongGapsBelow` the exact condition under which a peer is kept.
- The comment on `SetWriteDeadline` (`pkg/grpctunnel/conn.go:141-162`) has a deadline honoured by
  future frames when no write is in flight, and interrupt the frame in flight when the write lock is
  busy. But the lock is also busy while a write has no frame in flight and while another setter holds
  it. `WriteDeadlines.BusySetterReachesExactlyTheFrameInFlight` says when such a deadline reaches the
  write that holds the lock, `BusySetterMissesLaterFrames` that no later frame honours it unless it
  changes nothing, and `DeadlineIsLost` is a run without any write in which the deadline of the setter
  that returns last is lost for good.
- An empty browser message makes `Read` return no bytes and no error, whereas the native adapter
  skips empty messages; `BrowserStream.EmptyReadIffEmptyMessage` says exactly when, for reads that
  return at once and for reads that wait.

## Model

| member | source | states |
|---|---|---|
| AbuseGuard.BridgeAbuseGuard.ReserveBridgeConnection | pkg/grpctunnel/abuse_control.go:43-94 | sweeps, charges the client's window, then tries the caps: the new state and the answer are those of the swept attempt, so an attempt that a cap refuses has still used rate budget |
| AbuseGuard.BridgeAbuseGuard.SweepExpiredUpgradeWindows | pkg/grpctunnel/abuse_control.go:99-109 | at most once per window length, removes exactly the expired windows and nothing else |
| AbuseGuard.BridgeAbuseGuard.ClearBridgeConnection | pkg/grpctunnel/abuse_control.go:112-135 | gives one slot back, and forgets a client with none left |
| AbuseGuard.HandlerAbuseGuard.ReserveHandlerConnection | pkg/bridge/abuse_control.go:40-88 | the same attempt without a sweep |
| AbuseGuard.HandlerAbuseGuard.ClearHandlerConnection | pkg/bridge/abuse_control.go:91-114 | the same release |
| GuardRuns.SweepingIsInvisible | pkg/grpctunnel/abuse_control.go:43-109 | from any two agreeing guards, on every run with a monotone clock, the sweeping and the unswept guard give equal answers call by call (decision, kind of refusal, wait) and still agree |
| GuardRuns.FreshGuardsAnswerAlike | pkg/bridge/abuse_control.go:40-114 | so a fresh tunnel guard and a fresh handler guard can never be told apart |
| GuardRuns.WindowsStayValid | pkg/grpctunnel/abuse_control.go:56-75 | over every run stored windows lie in the past and were charged between once and the limit |
| GuardRuns.StoredCountIsExact | pkg/grpctunnel/abuse_control.go:73-75 | after every run, the count of a stored window is the number of that client's attempts that passed since the window began |
| GuardRuns.SlidingWindowBound | pkg/grpctunnel/abuse_control.go:56-75 | over every run, sweeps included, at most twice the limit less one of a client's attempts pass in any half-open interval of one window length |
| GuardRuns.SlidingWindowBoundIsReached | pkg/grpctunnel/abuse_control.go:56-75 | for every limit, whatever the connection caps, some run reaches that bound |
| GuardRuns.StoredWindowBound | pkg/grpctunnel/abuse_control.go:56-75 | and at most the limit in an interval that starts where a stored window started, however the run continues |
| GuardRuns.RefusedWhenUsedUp | pkg/grpctunnel/abuse_control.go:59-72 | a rate refusal is given only when precisely the limit has passed in the window that ends with the advertised wait, and a pass in a live window only when fewer have |
| GuardRuns.SweepBoundsTheMap | pkg/grpctunnel/abuse_control.go:96-109 | after every attempt of every run all stored windows started within the last two window lengths, and there are no more of them than attempts that passed in that time |
| GuardRuns.SweepsAreAMinuteApart | pkg/grpctunnel/abuse_control.go:99-109 | a sweep within 60 seconds of the last one does nothing, any other forgets exactly the windows that are 60 seconds old |
| GuardRuns.WindowIsAMinute | pkg/grpctunnel/abuse_control.go:14-75 | with a limit of one, a client's second attempt passes exactly if it comes 60 seconds after the first |
| GuardRuns.NoLimitNoRefusal | pkg/grpctunnel/abuse_control.go:56-76 | without a rate limit nobody is refused for their rate |
| GuardRuns.ClientsHaveTheirOwnKeys | pkg/grpctunnel/abuse_control.go:43-51 | two hosts share a key only if they are equal, or one is missing and the other is called unknown |
| GuardRuns.ClientsDoNotInterfere | pkg/grpctunnel/abuse_control.go:43-135 | no client's call touches another's connections or its window, except to forget one that has expired |
| GuardRuns.AdvertisedWaitIsExact | pkg/grpctunnel/abuse_control.go:59-72 | a rate refusal carries a wait above zero and at most one window; in every continuation each attempt of that client before its end is refused with exactly the time left, and the first one from then on passes |
| RetryAfter.SetRetryAfter | pkg/grpctunnel/retry_after.go:59-73 | the header is written only for a refusal with a positive wait, never early and less than one second late |
| RetryAfter.ObeyingTheHeaderIsNeverEarly | pkg/grpctunnel/retry_after.go:53-73 | the header is between 1 and 60; a client that stays away that long gets past the rate check, one that comes back a second or more before is still refused |
| HandlerSafety.SlotsAreConserved | pkg/grpctunnel/server.go:554-646 | in every reachable state of all concurrent requests the active count is the number of requests between reserve and deferred clear and the sum of the per-client map, whose entries are at least one; caps hold; open websockets and the connections metric never exceed the slots |
| HandlerSafety.CapsDecideByTheHolders | pkg/grpctunnel/abuse_control.go:82-93 | in every reachable state an attempt past the rate check is refused exactly when as many requests hold slots as the cap allows, and is otherwise given a slot |
| HandlerSafety.NothingLeaks | pkg/grpctunnel/server.go:554-646 | when all requests have returned, by whichever exits, count, map, metric and open websockets are all empty |
| HandlerSafety.UnderflowGuardNeverActs | pkg/grpctunnel/abuse_control.go:112-135 | on every run a deferred clear finds its own slot counted, so it takes exactly one from both counters |
| HandlerSafety.RunKeepsInv | pkg/grpctunnel/server.go:554-646 | every action of every request keeps the handler's invariant |
| HandlerBracketing.EverythingOnceAndInOrder | pkg/grpctunnel/server.go:554-646 | on every run a request does each thing at most once and in one fixed order, undoes nothing it did not do, and by its return has undone everything it did |
| HandlerBracketing.DisconnectIffConnect | pkg/grpctunnel/server.go:597-646 | the disconnect hook runs exactly once if the connect hook ran and never otherwise, after the connection is closed and before the slot is released |
| HandlerBracketing.NothingReleasedBeforeTheTransportCloses | pkg/grpctunnel/server.go:622-633 | in native mode, until the transport has closed a session it was given, no hook, metric or slot of that request is released |
| HandlerBracketing.ReturningRequestsFinish | pkg/grpctunnel/server.go:554-646 | whatever other requests do, a returning one can always run its next release, and has finished exactly after one step for each and one more |
| HandlerAnswers.ExitsFollowAnswers | pkg/grpctunnel/server.go:554-646 | on every run a request returns Forbidden exactly if its authorization hook said no, TooManyRequests exactly if the guard gave it no slot at that moment, and likewise for the upgrade, the settings and a native delivery; otherwise it runs or has been served |
| HandlerAnswers.AcquisitionsFollowAnswers | pkg/grpctunnel/server.go:554-646 | on every run a request has acquired exactly what its answers let it, from the slot to the lifetime timer |
| HandlerAnswers.RefusedHoldNothing | pkg/grpctunnel/server.go:559-574 | a request refused by its hook or by the guard never has a slot or an open websocket |
| HandlerAnswers.SocketsAreOpenInBetween | pkg/grpctunnel/server.go:576-646 | on every run a websocket is open exactly from its upgrade until its request or somebody outside closes it |
| Keepalive.RunningConfigs | pkg/grpctunnel/server.go:217-275 | a configuration that passed validation and was given its defaults is itself valid, is not changed by further defaulting, and leaves room for a ping inside a positive idle timeout |
| Keepalive.ErrorsAreExact | pkg/grpctunnel/server.go:217-258 | a configuration is accepted exactly if it has none of the thirteen defects, and an error names a defect that is there |
| Keepalive.DefaultsFillNothingGiven | pkg/grpctunnel/server.go:263-275 | with keepalive on and nothing given the values are 30 and 120 seconds, and whatever is given is kept |
| Keepalive.Watchdog.HandlePong | pkg/grpctunnel/server.go:290-293 | a pong, whenever it comes, moves the last pong and the socket's read deadline, not the timer |
| Keepalive.Watchdog.SetReadDeadline | pkg/grpctunnel/conn.go:132-139 | the transport replaces or clears the read deadline and nothing else |
| Keepalive.Watchdog.Run | pkg/grpctunnel/server.go:284-337 | the pong handler, the transport and the select loop, on any sequence of wake-ups, end in the state of the timed machine |
| Keepalive.FirstEndDecides | pkg/grpctunnel/server.go:320-337 | on any sequence of wake-ups the first failed ping, stop, or firing without a recent pong decides: it closes or stops the watchdog then and for its own reason, and without any it is watching |
| Keepalive.FiringsRearm | pkg/grpctunnel/server.go:326-333 | every firing before that re-arms the timer, and nothing else does |
| Keepalive.LastDeadlineStands | pkg/grpctunnel/server.go:290-293 | the read deadline is what the last pong or the transport set, whichever came last |
| Keepalive.NeverClosesEarly | pkg/grpctunnel/server.go:284-337 | whatever the transport does to the read deadline and however late the timer fires, the watchdog closes a peer only after watching it for the whole idle timeout, and every pong before the close is at least that old |
| Keepalive.ClosesExactlyOnTime | pkg/grpctunnel/server.go:312-337 | with a punctual timer it closes at exactly one instant, the idle timeout after the last pong or the arming, whatever stands as the read deadline, and otherwise re-arms for that instant |
| Keepalive.RearmsNeedPongs | pkg/grpctunnel/server.go:326-333 | on every timeline there are no more re-arms than pongs |
| LivePeers.OnlyPongsCount | pkg/grpctunnel/server.go:284-337 | leaving out all other traffic and all changes to the read deadline changes neither the watchdog's verdict nor its timer, on any sequence of wake-ups |
| LivePeers.ActivePeerIsClosed | pkg/grpctunnel/server.go:320-333 | under every runnable configuration, a peer that is pinged on time and never silent for an idle timeout but sends no pong is closed |
| LivePeers.KeptIffFiringsFindPongs | pkg/grpctunnel/server.go:326-333 | on every timeline, however late the timer, a connection left alone is kept exactly when each firing finds a pong or the arming within the idle timeout |
| LivePeers.KeptIffPongGapsBelow | pkg/grpctunnel/server.go:284-337 | with a punctual timer a peer is kept exactly as long as the gaps between its pongs stay below the idle timeout |
| LivePeers.ClosedPeerWasSlow | pkg/grpctunnel/server.go:312-337 | a peer closed for idleness took at least the idle timeout less the longest gap between pings to answer a ping that was sent |
| LivePeers.LivePeerIsNeverClosed | pkg/grpctunnel/server.go:236-275 | under every runnable configuration, a peer that answers each ping the ticker sends faster than that is never closed by the watchdog, on any timeline |
| LivePeers.LivePeerBeatsTheReadDeadline | pkg/grpctunnel/server.go:284-294 | nor by the read deadline where the transport leaves it alone: everything that happens, happens before it, up to the time from connecting to arming while no pong has come |
| LivePeers.SlowerPeerCanBeClosed | pkg/grpctunnel/server.go:236-244 | and that bound is the largest: for every configuration a peer that answers its pings exactly that late is closed on some punctual timeline |
| BrowserStream.OverflowsExactlyAtTheLimits | pkg/wasm/dialer/websocket_conn.go:142-151 | a message is refused, and the connection closed, exactly when the queue with it appended would hold more than 256 messages or 16 MiB |
| BrowserStream.EmptyReadIffEmptyMessage | pkg/wasm/dialer/websocket_conn.go:302-336 | a read with room returns no bytes and no error exactly when it comes to an empty message, at once with nothing left over or woken after a wait |
| BrowserStream.EmptyReadsHappen | pkg/wasm/dialer/websocket_conn.go:302-336 | both happen from a fresh connection |
| BrowserStream.ReadsTakeWhatFits | pkg/wasm/dialer/websocket_conn.go:302-324 | a read never returns more than its buffer holds, fills it unless it comes to the end of its message, keeps exactly the rest, and fails exactly on a closed connection |
| BrowserStream.WokenReadsTakeWhatFits | pkg/wasm/dialer/websocket_conn.go:316-335 | the same holds of a woken read for the buffer it waits with |
| BrowserStream.ClosingDropsTheRest | pkg/wasm/dialer/websocket_conn.go:254-283 | closing drops what nobody has read, and later messages and reads get nothing |
| BrowserStream.StepMovesBytes | pkg/wasm/dialer/websocket_conn.go:133-168 | every callback and every stretch of a read conserves bytes between the messages accepted, the queue, the leftover and the reader |
| BrowserStream.StreamFidelity | pkg/wasm/dialer/websocket_conn.go:302-336 | on every run, overflow and close included, the bytes read are a prefix of the bytes accepted, and while the connection is open the rest is exactly leftover and queue, within the limits |
| BrowserConnection.CompactSlots | pkg/wasm/dialer/websocket_conn.go:171-187 | the overlapping copy and the clearing of the tail leave the live messages at the front in order and every other slot empty |
| BrowserConnection.Connection.ClearQueuedMessagesHead | pkg/wasm/dialer/websocket_conn.go:171-187 | compaction changes nothing a reader can see, and leaves the head at zero or below half of an array with room |
| BrowserConnection.Connection.StoreIncomingMessage | pkg/wasm/dialer/websocket_conn.go:133-168 | for every growth policy of the array, does what the byte stream does, and keeps the byte counter exact and consumed slots empty |
| BrowserConnection.Connection.ShiftQueuedMessage | pkg/wasm/dialer/websocket_conn.go:224-246 | takes the oldest message; the byte counter never goes negative, so its clamp never acts |
| BrowserConnection.Connection.Read | pkg/wasm/dialer/websocket_conn.go:302-336 | a read up to its return or its wait does what the byte stream does, and returns no more than the buffer holds |
| BrowserConnection.Connection.WakeRead | pkg/wasm/dialer/websocket_conn.go:316-335 | a woken read does what the byte stream does, and returns no more than the buffer it waits with holds |
| BrowserConnection.Connection.FailRead | pkg/wasm/dialer/websocket_conn.go:327-333 | a waiting read that receives from the error channel fails and takes nothing |
| BrowserConnection.Connection.CloseChannels | pkg/wasm/dialer/websocket_conn.go:254-283 | closes once, keeps no message alive, and leaves the leftover to a read that holds the read lock |
| BrowserConnection.Connection.SpaceIsBounded | pkg/wasm/dialer/websocket_conn.go:171-187 | between calls the array in use is at most twice the live queue, and the byte counter within its limit |
| BrowserSignals.ParkedReaderCanWake | pkg/wasm/dialer/websocket_conn.go:142-167 | on every run with any number of producers, a parked reader beside a non-empty queue has the wake token, or one producer step away |
| BrowserSignals.StepKeepsWakeup | pkg/wasm/dialer/websocket_conn.go:316-335 | every single action keeps the token, or a producer about to signal, wherever a reader is parked beside a non-empty queue |
| BrowserSignals.ErrorChannelIsSafe | pkg/wasm/dialer/websocket_conn.go:205-283 | on every run with any number of senders and closers no send and no second close meets the closed error channel, which is closed at most once |
| BrowserSignals.ClosingReleasesTheReader | pkg/wasm/dialer/websocket_conn.go:205-336 | from every reachable state every schedule of the calls already made is bounded; where it ends all callbacks and closers have returned, without deadlock under a write lock that keeps new readers out while it is asked for, and a reader waits only on an open connection with nothing queued and no error |
| BrowserSignals.TrafficBalances | pkg/wasm/dialer/websocket_conn.go:133-246 | on every run each appended message is queued, taken or dropped by closing, and each error sent is waiting, received, or found four others waiting |
| BrowserSignals.ClosersHaveClosed | pkg/wasm/dialer/websocket_conn.go:191-283 | once a Close or a callback whose message overflowed has returned, the connection and its error channel are closed |
| BrowserSignals.NothingStartsOnceClosed | pkg/wasm/dialer/websocket_conn.go:133-312 | on every run, a callback that starts on a closed connection neither appends nor sends nor closes again, and a read that starts then never waits |
| NativeConn.WebSocketConn.Read | pkg/grpctunnel/conn.go:33-69 | whatever partial reads the socket gives: offers it the whole buffer and returns just what it hands out, conserves binary payload, skips only empty binary messages, reports one non-binary message at a time, reports a failure exactly if the socket broke off or had no message left, and terminates |
| NativeConn.WebSocketConn.Write | pkg/grpctunnel/conn.go:72-87 | sends the slice, empty ones included, as exactly one binary message, or reports why not |
| NativeConn.WebSocketConn.Close | pkg/grpctunnel/conn.go:90-100 | closes the socket exactly once over any number of calls |
| NativeConn.NothingIsLostOrInvented | pkg/grpctunnel/conn.go:33-69 | over every history of arrivals and reads, payload arrived is payload delivered followed by payload pending, and every foreign message is reported or still ahead |
| NativeConn.OnlyBinaryPayloadIsDelivered | pkg/grpctunnel/conn.go:44-69 | no byte of a message that is not binary is ever delivered, and each such message is reported once |
| NativeConn.WriteReadRoundTrip | pkg/grpctunnel/conn.go:33-87 | any slices written, read with any buffer sizes and partial reads, come out as a prefix of their concatenation; whenever a read finds the socket exhausted, exactly the slices that had arrived have been read; and until then no read reports an error unless the socket breaks off or this side is closed |
| WriteDeadlines.OneOnTheWritePath | pkg/grpctunnel/conn.go:72-175 | over every interleaving of writers and setters, one thread at a time hands over a frame, sends it or sets the websocket's deadline field |
| WriteDeadlines.SettersNeverWait | pkg/grpctunnel/conn.go:163-175 | whatever the others do, a call that sets the deadline can always go on and returns after at most three steps of its own |
| WriteDeadlines.FieldGovernsLaterFrames | pkg/grpctunnel/conn.go:141-170 | a deadline set under the lock governs every frame handed over from then on until another is set there |
| WriteDeadlines.FreeSetterSetsTheField | pkg/grpctunnel/conn.go:163-170 | a setter that finds the lock free sets that deadline, whatever others do in between |
| WriteDeadlines.BusySetterReachesExactlyTheFrameInFlight | pkg/grpctunnel/conn.go:153-175 | against a write that holds the lock, a deadline that finds it busy governs the frame in flight until it is done or another setter comes, and is lost on a frame only about to be handed over, whatever happens in between |
| WriteDeadlines.BusySetterMissesLaterFrames | pkg/grpctunnel/conn.go:141-175 | whoever holds the lock, every frame handed over after such a deadline goes out under the one the websocket already had, until a setter gets the lock; so it is honoured exactly if the two are equal |
| WriteDeadlines.DeadlineIsLost | pkg/grpctunnel/conn.go:141-175 | a run of two setters and no write in flight after which the next frame goes out under the deadline of the one that returned first |
| NativeListener.NoneLostNoneDuplicated | pkg/grpctunnel/server_native.go:38-68 | over every interleaving, deliver calls that returned true and Accept calls that returned a connection are in bijection, connection for connection, and the close signal is raised at most once |
| NativeListener.CallsAreAnsweredTruly | pkg/grpctunnel/server_native.go:38-68 | each deliver is about the connection it was called with, the listener is closed exactly if Close was called, and only then does a deliver or an Accept come back empty |
| NativeListener.NoConnectionAcceptedTwice | pkg/grpctunnel/server_native.go:38-68 | with distinct connections no two Accept calls return the same one |
| NativeListener.CloseReleasesEveryone | pkg/grpctunnel/server_native.go:38-68 | every schedule of the calls already made ends within as many steps as calls are waiting; on a closed listener nobody is left waiting where it ends, and on an open one only calls of one side |
| NativeListener.NotifyCloseConn.Close | pkg/grpctunnel/server_native.go:72-90 | every call closes the inner connection, and only the first signals the waiting handler |
| TodoSpec.OrderIsCreationOrder | examples/direct-bridge/main.go:182-246 | after every run the ids in the list are the loaded ones followed by the created ones in order, less those deleted |
| TodoSpec.EachIdOnItsOwn | examples/direct-bridge/main.go:182-246 | after every run what the list says of an id is what the requests for that id alone make of it |
| TodoSpec.RunStaysWellFormed | examples/direct-bridge/main.go:182-246 | ids stay unique and non-empty over every run |
| TodoSpec.LoadIsWellFormed | examples/direct-bridge/main.go:78-98 | whatever was saved, the rebuilt list has unique non-empty ids |
| TodoSpec.LoadKeepsTheFirst | examples/direct-bridge/main.go:78-98 | for each id the first saved todo is kept, and one without an id is not |
| TodoSpec.LoadKeepsOrder | examples/direct-bridge/main.go:78-98 | the kept todos stay in the order they were saved in |
| TodoSpec.ReloadIsIdentity | examples/direct-bridge/main.go:78-111 | rebuilding from a snapshot gives the same items in the same order |
| TodoStore.TodoServer.constructor | examples/direct-bridge/main.go:78-98 | the loading loop keeps the first todo of each non-empty id in order, and builds an index that agrees with the list |
| TodoStore.TodoServer.CreateTodo | examples/direct-bridge/main.go:182-194 | appends, indexes and signals; list and index still agree |
| TodoStore.TodoServer.UpdateTodo | examples/direct-bridge/main.go:203-230 | hangs a new todo on the same node, in place; unknown ids change and signal nothing; the branch for a corrupt node is unreachable |
| TodoStore.TodoServer.DeleteTodo | examples/direct-bridge/main.go:232-246 | unlinks exactly that node and its index entry; succeeds exactly when the id was in the list |
| TodoStore.TodoServer.BuildTodosSnapshot | examples/direct-bridge/main.go:101-111 | the snapshot holds the very todo objects of the list, all of them, in order |
| TodoStore.TodoServer.ServeAll | examples/direct-bridge/main.go:182-246 | any number of requests leave the list as their effects one after another, and never write to a todo object that was there before, so earlier snapshots stay what they were |
| TodoPersistence.NoMutationIsForgotten | examples/direct-bridge/main.go:127-246 | in every reachable state the store is what all requests carried out so far make of the loaded one, and whenever the last snapshot says otherwise there is a pending token, a worker on its way to a snapshot, or a request about to signal |
| TodoPersistence.SavedStatesAreRealStates | examples/direct-bridge/main.go:136-165 | every snapshot handed to save is the whole store as some requests that created something or found their id left it, logged as create, update or delete after the last of them; snapshots never go back in time, and there are no more of them than such requests |
| TodoPersistence.SavedStatesFollowRequests | examples/direct-bridge/main.go:136-246 | so each snapshot is the store after the first few of all requests |
| TodoPersistence.QuietMeansSaved | examples/direct-bridge/main.go:136-165 | whenever nothing is pending, the last snapshot handed to save is the current store |
| TodoPersistence.EveryMutationIsSaved | examples/direct-bridge/main.go:127-246 | after the last request every interleaving is bounded in its number of steps, and where it stops what has been handed to save last is what all requests, in their order, make of the loaded store |
| HttpHeader.CanonicalAt | pkg/grpctunnel/server.go:467-470 | a header name's canonical form, character by character: upper case at the start and after a hyphen, lower case elsewhere |
| HttpHeader.CanonicalTwice | pkg/grpctunnel/server.go:467-470 | canonicalising a key again, as the lookup of an already canonical entry key does, changes nothing |
| HttpHeader.TrimDecidesBlank | pkg/grpctunnel/server.go:420-423 | trimming leaves nothing exactly of a blank value, and trimming twice is trimming once |
| HttpHeader.TrimIsTheMiddle | pkg/grpctunnel/server.go:420-423 | trimming takes white space off both ends and nothing else |
| HttpHeader.AsciiSpace | pkg/grpctunnel/server.go:420-423 | the ASCII characters that trimming takes for white space |
| ForwardHeaders.ResolveBridgeHeaderValue | pkg/grpctunnel/server.go:410-425 | the first candidate header that is not blank, trimmed |
| ForwardHeaders.GetRequestId | pkg/grpctunnel/logging.go:85-103 | the first of the request and correlation id headers that is not blank |
| ForwardHeaders.BuildBridgeForwardHeaders | pkg/grpctunnel/server.go:371-407 | the set holds one value for exactly those of the four keys that have one: ids from the request with the correlation id falling back to the request id, trace headers from the request and else from the span |
| ForwardHeaders.WhatASessionForwards | pkg/grpctunnel/server.go:371-443 | in the upgrade request's own terms: X-Request-Id and X-Correlation-Id each fall back to the other, Traceparent and Tracestate to the span, and nothing else is forwarded |
| ForwardHeaders.BridgeNamesAreUsable | pkg/grpctunnel/server.go:23-26 | the four keys are different after canonicalising, so they cannot overwrite each other |
| ForwardHeaders.ForwardSetsAreWellFormed | pkg/grpctunnel/server.go:371-407 | every set the builder makes has canonical keys with one value each, none blank |
| ForwardHeaders.IdsComeTogether | pkg/grpctunnel/server.go:374-384 | every session forwards both ids or neither |
| ForwardInjection.SnapshotEntries | pkg/grpctunnel/server.go:462-472 | the entries are the non-empty keys of the set, canonicalised, each once, in whatever order the map gives |
| ForwardInjection.Serve | pkg/grpctunnel/server.go:477-505 | passes the original on exactly when nothing is missing; otherwise a filled clone, and never writes to the original |
| ForwardInjection.FillIsOrderFree | pkg/grpctunnel/server.go:494-503 | for every builder set and every map order, filling entry by entry equals filling each missing or blank key and changing nothing else |
| ForwardInjection.ScanFindsWhatIsMissing | pkg/grpctunnel/server.go:483-492 | the scan asks for a clone exactly when a forwarded key is missing or blank |
| ForwardInjection.FillingChangesWhatIsMissing | pkg/grpctunnel/server.go:489-492 | and that is exactly when filling would change the header, so no clone is made in vain and none is skipped |
| ForwardInjection.WrappingTwiceChangesNothing | pkg/grpctunnel/server.go:457-506 | a second wrapping by the same set, in any other order, passes the filled request through untouched |
| ForwardInjection.ServeInSession | pkg/grpctunnel/server.go:638-645 | from upgrade request to tunneled request: each key ends with the session's value where the request had none, and with its own value otherwise |
| ForwardOrder.OrderShowsExactlyInClashes | pkg/grpctunnel/server.go:462-503 | for any header set whatsoever, every request comes out the same in every map order if and only if no two spellings of one key that could win hold different values |
| ForwardOrder.SessionOrderNeverShows | pkg/grpctunnel/server.go:638-639 | so for the sets of a session the order never shows |
| ForwardOrder.SpellingsCanClash | pkg/grpctunnel/server.go:463-472 | it does show for a set with two spellings and two values, which only another caller could pass |

## Left out

- Keepalive.ClosesExactlyOnTime: exact relative to the moment the watchdog goroutine arms its timer; the source arms it a moment after it stores the first pong time, so without any pong the peer is given that moment as well.
- Keepalive.NeverClosesEarly: measures pongs and the timer on one clock that does not go backwards; the source stores pong times as wall-clock nanoseconds and runs its timer on the monotonic clock, so a step of the wall clock is not modelled. The same holds of the other results about the watchdog.
- RetryAfter.SetRetryAfter: rounds up with integers; the source rounds up through a float.
- GuardRuns.SweepingIsInvisible: assumes that the times passed to one guard do not go backwards; the bounds and the exact wait assume the same.
- TodoStore.TodoServer.CreateTodo: takes its new id as a parameter that is not empty and not in use, which is what a fresh UUID is.
- BrowserConnection.Connection.Read: each method and each stretch of a read between two waits is one atomic step, as in a single-threaded browser; the fine-grained interleavings are in BrowserSignals, which counts messages and does not carry their bytes.
- ForwardInjection.FillIsOrderFree: speaks of sets like the builder's; OrderShowsExactlyInClashes has the condition for all other sets.
- ForwardHeaders.BuildBridgeForwardHeaders: takes the hexadecimal parts of the span context as strings, and the four names as a record that BridgeNamesAreUsable instantiates.
- Nil guards and nil handlers, which do nothing, and the texts of errors.
- The derivation of the client key from the remote address and of allowed origins from URLs: both rest on Go's network parsing. The key is the host, or one shared key when there is none.
- Closed and missing sockets in the deadline setters, which answer with an error, and control frames, which the websocket library sends under a deadline of their own.
- The mutexes that let one goroutine at a time read from and write to a native connection: reads are modelled one after another.
- Panics of hooks and of callbacks, and of the handler itself.
- Log lines, spans and metrics, other than the active-connections gauge and the span ends in the defer stack.
- JSON files, failed saves and slow-save warnings: a snapshot counts as saved once it is handed to save.
- The debounce duration: the timer may fire at any moment, so the results hold for every duration.
- `pkg/bridge/conn.go` and `examples/grpc-server/main.go`, which repeat the native read loop and the todo store.
- Dialing, JavaScript calls, option setters, tooling endpoints, and the websocket, HTTP/2 and gRPC libraries, which appear as message sources, sinks and handler calls.
