# Verified model of the glider pubsub client

A Dafny model of a Go client for a message broker. It covers the subscription store, the
correlation of requests and responses, reconnecting, the choice of a broker, and the signing
of requests. State that the Go code updates in place is modelled by classes and methods; the
concurrent parts are transition systems over the regions that the code runs under a lock.

| file | models |
|---|---|
| Fibonacci.dfy | the delay loops of broker/utils.go and httpclient/utils.go, on int64 |
| Backoff.dfy | the retry policy of broker/broker.go over whole sequences of failures |
| BrokerLink.dfy | the class Broker: one method per region under its lock, restart, the event switch |
| StartOverlap.dfy | nested Start calls on one broker object, their restarts and epilogues, as a transition system |
| BrokerObjects.dfy | all broker objects of one id with the store and the online list, as a transition system |
| BrokerLifetime.dfy | what the Starts of such objects can still do, and how long a listed broker stays usable |
| BrokerStore.dfy | the brokers by id, with deletion during iteration |
| OnlineList.dfy | the online list that set and delete rebuild: as written and as documented |
| RoundRobin.dfy | the ticket counter of nextBroker, fairness, send over fixed and over changing lists |
| Client.dfy | the class Client: online list, counter, flags, send |
| Reconnect.dfy | reset, owerstaying, connect, disconnect and Start as a transition system |
| Subscriptions.dfy | sub/ called sequentially: classes Sub and Store against a plain table |
| SubInterleaving.dfy, SubLifetime.dfy | sub/ under concurrency, with Sub objects as identities: removed handlers never run; how long registrations last |
| Metadata.dfy | the MD object shared through contexts, GetEvent, client.Pub |
| Callbacks.dfy | the table of waiting channels and its "event:id" keys |
| PubSub.dfy | Pub.Sub, run by one goroutine |
| Correlation.dfy | Pub.Sub calls, deliveries and the broker as a transition system |
| Codec.dfy, AuthHmac.dfy | the encodings and the signed envelope of authhmac/ |
| Proto.dfy, Integers.dfy, Wrappers.dfy | the message record, the 64-bit integers, Option and Result |

`dafny verify dfyconfig.toml` checks everything. Clock readings, random bytes, UUIDs, the
answers of OwerstayingFunc, of the network and of the broker are parameters; the MAC is any
function of secret and payload. In the transition systems a step is one region under a lock,
one store to an atomic flag, or one channel operation; runs are arbitrary interleavings.

## Where the code differs from its own description

The model follows the code. For each difference there is a counterexample or the exact
condition under which code and description agree.

- client/client.go:264 appends `bk`, not `set`: as written the online list only ever repeats
  the broker that came up last (`OnlineList.WrittenKeepsLatest`). The list that the comment
  describes is a separate function, `SetAsDocumented`.
- The mutual exclusion of reconnects (client/client.go:204-207, 290-293) needs the first
  Start to have returned: an earlier reset has its flag cleared (`Reconnect.ExclusionExactly`).
- The skew limit (authhmac/authhmac.go:45-47) does not hold for timestamps so far ahead that
  the difference saturates (`AuthHmac.WindowHoldsExactly`).
- Delivery to the awaited event and id relies on a SubId without a colon
  (`Correlation.ResponseMatchesExactly`, with the run `Correlation.ColonMisleads`).
- A response is not missed (pub/pub.go:67-69) only while no other call of the same event and
  id registers or unregisters (`Correlation.NoneMissed`, with the run
  `Correlation.OverlapMisses`).
- A reply from a handler's context goes to the request only while no other routed response
  was awaited on the same metadata (`Metadata.ReplyCarriesRequestExactly`).
- A late epilogue of an older Start disconnects a newer live connection
  (`StartOverlap.StaysConnectedExactly`, with the run `StartOverlap.LateEpilogueDisconnects`),
  and its DisconnectFunc, or that of an earlier object with the same id, takes a connected
  broker off the list (`BrokerLifetime.StaysUsableExactly`). A reset without a stored stream
  dereferences nil (`StartOverlap.ResetFindsStreamExactly`).
- connect is described as moving the broker that became ready into the online list
  (client/client.go:246); it lists what the store holds for the id
  (`BrokerObjects.ListAgreesExactly`), which after Store.Done is nothing
  (`BrokerObjects.ReadyAfterDone`) and after a further client Start another object
  (`BrokerObjects.OldReadyListsNew`).
- disconnect is to signal the reset goroutine (client/client.go:238-239); when that no longer
  listens, it blocks for ever with the lock held (`Reconnect.ReleasableExactly`, with the run
  `Reconnect.DisconnectHangs`).
- Register promises a handler for the event (sub/store.go:61-63); a concurrent one can be lost
  (`SubLifetime.DeliveredExactly`, `SubLifetime.CanBeLostExactly`, with the run
  `SubLifetime.RegistrationCanBeLost`).
- MD.Sub is described as marking responses (metadata/metadata.go:42), but any message with Sub
  sets it, requests included; that is what carries the way back (`Metadata.RoutedToAnswered`).
- fibo promises a Fibonacci number for every attempt (broker/utils.go:21-22); from Fib(92) on
  the sum wraps (`Fibonacci.WrappedLoopExactly`, `Fibonacci.LargestAttemptNeverEnds`).
- The payload format (authhmac/authhmac.go:191-193) tells data, timestamp and nonce apart for
  data below 2^32 bytes only, as the length prefix is truncated (`AuthHmac.LongDataCollides`).

## Model

| member | source | states |
|---|---|---|
| Fibonacci.Fibo | broker/utils.go:23-35 | the int64 loop with its wrap-around, for every attempt; below Fib(92) it ends within 90 rounds with the least Fibonacci number above max(attempt, 0), bounded by the cap |
| Fibonacci.FibAbove | httpclient/utils.go:23-35 | the search of both loops on unbounded integers yields the least Fibonacci number above max(attempt, 0) |
| Fibonacci.LoopFitsExactly | broker/utils.go:27-30 | the largest value of the loop fits in int64 exactly for attempts below Fib(92) |
| Fibonacci.WrappedLoopExactly | broker/utils.go:21-35 | for every int64 attempt, the loop as it wraps ends with the least Fibonacci number above the attempt exactly below Fib(92) |
| Fibonacci.LargestAttemptNeverEnds | broker/utils.go:27-30 | on the largest int64 the loop never ends |
| Fibonacci.CapsAgreeExactly | httpclient/utils.go:21-35 | the delays under the caps 24 and 16 agree exactly for attempts below 13 |
| Fibonacci.DelayClimbs | broker/utils.go:21-35 | the delay is monotone, strictly above every attempt below the cap, and fixed at the cap |
| Backoff.FailurePays | broker/broker.go:264-287 | every failure keeps the delay on the orbit 0, 1, 2, 3, 5, 8, 13, 21, 24, and every wait lowers the waits and seconds left; a live failure lowers the measure until the broker has given up |
| Backoff.RetriesBounded | broker/broker.go:264-300 | for every sequence of failures without "_.ready", whatever OwerstayingFunc answers, at most 10 waits and 125 seconds |
| Backoff.LifetimeBounded | broker/broker.go:175-183 | over any sequence, each "_.ready" renews that budget once |
| Backoff.GivesUp | broker/broker.go:265-275 | after ten live failures no later failure waits or reconnects, until "_.ready" |
| Backoff.BoundIsReached | broker/broker.go:53-57 | 10 waits and 125 seconds are reached when nobody takes over |
| Backoff.WaitsExactly | broker/broker.go:264-287 | the same of the policy, for every delay and count |
| Backoff.DeadIsSilent | broker/broker.go:277-283 | however often a broker with a cancelled context, or marked done, fails, it requests no wait |
| Backoff.HandledIsSilent | broker/broker.go:265-275 | at the cap no failure that OwerstayingFunc handles requests a wait, and each is counted |
| BrokerLink.Broker.Restart | broker/broker.go:264-300 | a wait is requested exactly if the context is there and not cancelled, the broker is not done, and it is not at the cap with its attempts used up or the failure handled; it is the next Fibonacci delay, otherwise the delay stays; the attempts are counted at the cap; the step is the policy's and is paid for by the measure |
| BrokerLink.Broker.Send | broker/broker.go:122-133 | a message goes out, once and on the stored non-nil stream, exactly when connected, GetEvent succeeded and the stream accepts; otherwise nothing is sent and the error says why |
| BrokerLink.Broker.Begin | broker/broker.go:137-146 | the previous context is cancelled and a live one takes its place |
| BrokerLink.Broker.Epilogue | broker/broker.go:211-214 | the connection is marked down and the stream dropped, whichever Start it belonged to |
| BrokerLink.Broker.Handle | broker/broker.go:174-191 | "_.ready" resets the counters and connects on this stream; "_.reset" marks the broker done and either puts one acknowledgement on the stored stream or, exactly when none is stored, fails on nil; others are forwarded and nothing is sent |
| BrokerLink.Broker.InitResetProcess | broker/broker.go:232-244 | exactly the acknowledgement is added to the stored stream if that accepts it; a missing stream is dereferenced exactly when none is stored |
| StartOverlap.ConnectedHasStream | broker/broker.go:137-300 | in every interleaving of nested Starts, read goroutines, restarts and late epilogues: connected means a stored stream, and only the newest Start has a live context, receives, or is in restart |
| StartOverlap.LinkIsHistory | broker/broker.go:175-214 | after any run the broker is connected exactly if a "_.ready" came with no epilogue after it, on the stream of the last one |
| StartOverlap.ResetFindsStreamExactly | broker/broker.go:185-244 | over any run, a step dereferences nil exactly if it acknowledges a reset while there is no "_.ready" without an epilogue after it; otherwise the acknowledgement goes out on the stream of the last "_.ready" |
| StartOverlap.DoneIsHistory | broker/broker.go:232-235 | a broker is marked done exactly if a reset was received, and for good |
| StartOverlap.DialsAndReads | broker/broker.go:148-194 | what dialling and reading lead to: no connection ends the Start, no channel leads to restart, a failed stream too |
| StartOverlap.RestartsExactly | broker/broker.go:264-300 | restart goes ahead exactly on a live context of a broker that is not done, and starts again with the old context cancelled; giving up cancels the context of a Start with an epilogue only |
| StartOverlap.StartsEnd | broker/broker.go:209-217 | a Start whose context is cancelled can always end, is disconnected then, and returns after its DisconnectFunc only, which lets the Start around it go |
| StartOverlap.StaysConnectedExactly | broker/broker.go:209-216 | in all continuations, a connection of the newest Start lasts until that Start ends or restarts exactly if every older epilogue has run its locked region |
| StartOverlap.LateEpilogueDisconnects | broker/broker.go:137-217 | the run from a new broker in which the first Start's epilogue takes the second one's live connection away |
| BrokerObjects.StoredIsHistory | broker/store.go:54-77 | after any run the store holds exactly the object of the last client Start unless Store.Done came after it |
| BrokerObjects.FoundAtReady | client/client.go:247-253 | a ConnectFunc lists what the store held at its "_.ready", which need not be its own object |
| BrokerObjects.ListedIsHistory | client/client.go:232-288 | over any run with any number of objects, an object is on the list exactly if the last change for the id was a ConnectFunc that had found it in the store |
| BrokerObjects.ListedIsConnected | broker/broker.go:175-216 | an object that is listed without being connected is about to be taken off by its own epilogue, or was listed by another object's "_.ready" |
| BrokerObjects.ListAgreesExactly | broker/broker.go:175-216 | outside of that, listed and connected agree exactly if, when a "_.ready" has had no epilogue after it, the list has not changed since the ConnectFunc of a "_.ready" that came while the store held the object; if another object listed it, exactly if such a "_.ready" exists |
| BrokerObjects.AlwaysPossible | client/client.go:188-253 | a client Start is possible at any moment, Store.Done unless the stored object holds its lock in ConnectFunc, and a ConnectFunc under way can always end |
| BrokerObjects.StoreDoneCancels | broker/store.go:54-61 | Store.Done cancels the newest Start of the stored object and touches no other object |
| BrokerObjects.ReadyAfterDone | client/client.go:246-253 | the run in which a "_.ready" handled after Store.Done leaves the broker connected and not listed |
| BrokerObjects.OldReadyListsNew | client/client.go:246-253 | the run in which an old object's "_.ready" lists the new object, which has not begun |
| BrokerLifetime.DisconnectNearer | broker/broker.go:137-300 | an object meets the condition CanDisconnect only if some steps of its own, or Store.Done, lead it to a DisconnectFunc |
| BrokerLifetime.StepKeepsHarmless | broker/broker.go:137-300 | ... and if it does not meet it, no step calls DisconnectFunc or makes it meet it, short of the nil dereference |
| BrokerLifetime.StaysUsableExactly | broker/broker.go:175-216 | in all continuations, a broker connected on its newest Start and listed stays both exactly if it has no older epilogue ahead and none before its DisconnectFunc, no other object of the id can still reach a DisconnectFunc, and no ConnectFunc has found or can still find a third object |
| BrokerStore.Store.Set | broker/store.go:73-77 | the broker is filed under its own id, which keeps the invariant |
| BrokerStore.Store.Done | broker/store.go:54-61 | deleting during iteration empties the store and cancels every broker that had a context, changing nothing else about the brokers |
| OnlineList.WrittenKeepsLatest | client/client.go:256-273 | as written, after any run the list is non-empty exactly if the broker of the latest connect is still up, and all entries are that broker |
| OnlineList.DocumentedIsStillConnected | client/client.go:255-260 | the documented list is, after any run, the brokers whose connect was followed by no other change for their id, in order |
| OnlineList.DocumentedOnce | client/client.go:259-260 | no id occurs twice on the documented list |
| OnlineList.SetAgreesExactly | client/client.go:261-267 | one call of set does what its comment says exactly if no entry has another id |
| OnlineList.AgreeThroughoutExactly | client/client.go:256-288 | over a whole run code and comment agree at every moment exactly if never two brokers are connected at once |
| OnlineList.WithoutAll | client/client.go:279-284 | delete keeps all and only the entries of other ids |
| ClientState.Client.Set | client/client.go:256-273 | the loop as written computes one copy of bk per entry of another id, and one more; online, overstay flag and counter are reset |
| ClientState.Client.Delete | client/client.go:276-288 | the loop drops the entries of the id in order; online is true exactly if some are left |
| ClientState.Client.NextBroker | client/client.go:340-353 | never out of range; errs exactly if the list is empty; picks the entry of the old ticket and advances the uint64 counter |
| ClientState.Client.Attempt | client/client.go:221-229 | one round of send fails, transmits or is refused exactly as RoundRobin.Try says of the list, answers and ticket it finds, and transmits to the accepting stream only |
| ClientState.Client.Send | client/client.go:221-230 | with the list fixed and cut off after any number of attempts: fails exactly if no broker is online, otherwise runs the recursion RoundRobin.Tries; on success exactly one stream of the list, that of an accepting entry, has got exactly the event, otherwise none has got anything |
| RoundRobin.SendOverExactly | client/client.go:216-230 | while list, streams and counter change in any way between the attempts: fails exactly if an attempt finds no broker and every earlier one was refused, succeeds exactly if one is accepted and every earlier one was refused; the event is on one stream then and on none otherwise, and the brokers tried are counted |
| RoundRobin.TriesIsSendOver | client/client.go:221-230 | over a fixed list both forms of the recursion agree in result and number of tries |
| RoundRobin.TriesTicket | client/client.go:340-352 | a broker is found exactly if the client is online with a non-empty list, and it is the one the ticket picks |
| ClientState.Client.Disconnect | client/client.go:234-244 | the broker leaves the list; the signal to the reset goroutine is due exactly if a reset runs and no broker is left, the guard that module Reconnect uses |
| ClientState.Client.Reset | client/client.go:295-303 | the flag is up afterwards and a goroutine is spawned exactly if it was down: the guard of module Reconnect |
| ClientState.Client.EnterOverstay | client/client.go:324-330 | entered exactly if offline with neither process running: the guard of module Reconnect |
| RoundRobin.FairFromReset | client/client.go:350-352 | any k picks from a reset counter give each of n entries k / n picks, one more to the first k % n, up to 2^64 picks |
| RoundRobin.FairWindow | client/client.go:350-352 | any n consecutive picks without a wrap use every entry once |
| RoundRobin.FairAcrossWrapExactly | client/client.go:350-352 | across the uint64 wrap this holds exactly if n divides 2^64 |
| RoundRobin.SendEndsExactly | client/client.go:217-230 | with the list fixed the recursion ends exactly if some entry accepts, within n attempts without a wrap and 2 n with one |
| Reconnect.OneReconnectAtATime | client/client.go:290-337 | after the first Start, in every state of every interleaving at most one reconnect is in flight, resetProcess is up exactly during a reset goroutine, and owerstaying holds the lock offline |
| Reconnect.OverstayExcludesOthers | client/client.go:324-337 | while owerstaying runs nothing else starts a reconnect, brings a broker online, takes the lock or raises the reset flag |
| Reconnect.ExclusionExactly | client/client.go:204-207 | from a quiet state, reconnects exclude each other in all interleavings exactly if the first Start has returned |
| Reconnect.EarlyResetBreaksExclusion | client/client.go:295-303 | the run that puts two reset goroutines in flight when the first Start is late |
| Reconnect.StartsExactly | client/client.go:295-331 | with the lock free, reset goes ahead exactly if its flag is down, and owerstaying exactly if offline with both flags down, holding the lock; otherwise they do nothing |
| Reconnect.ReconnectProceeds | client/client.go:303-337 | no reconnect is ever stuck: it has a step of its own that brings it nearer to its end |
| Reconnect.WholeOverstay | client/client.go:324-337 | a whole owerstaying can run from any offline state with nothing running, and leaves the lock free and the flags down |
| Reconnect.WholeReset | client/client.go:295-318 | a whole reset can run whenever its flag is down, and leaves both flags down |
| Reconnect.SignalsExactly | client/client.go:234-273 | connect brings the client online and ends the overstay flag; disconnect leaves it online only if a broker is left, and blocks in a signal exactly while a reset is on and none is |
| Reconnect.RendezvousWakes | client/client.go:303-312 | the signal wakes a reset goroutine that selects on its channel and releases the disconnect |
| Reconnect.ReleasableExactly | client/client.go:234-244 | a disconnect blocked in its signal can still be released exactly if a reset goroutine selects on its channel, or has yet to enter its select while that channel is current |
| Reconnect.HopelessForEver | client/client.go:234-337 | otherwise it stays blocked with the lock held, and no reset, owerstaying, connect or delete ever runs again |
| Reconnect.DisconnectHangs | client/client.go:303-312 | the run to such a state from any quiet one: the timer of a reset fires just before the last broker goes |
| Subscriptions.Sub.Unregister | sub/sub.go:61-73 | the filter loop removes exactly the handlers of the id, in order, and reports emptiness |
| Subscriptions.Sub.Recv | sub/sub.go:79-85 | every handler is started once, in registration order |
| Subscriptions.Store.Register | sub/store.go:64-77 | the two-level store refines appending to a plain table of ordered handlers |
| Subscriptions.Store.Unregister | sub/store.go:81-95 | ... and removing from it; a name without handlers disappears |
| Subscriptions.Store.Recv | sub/store.go:51-59 | exactly the handlers of the event's name are started, once each and in order |
| Subscriptions.RunIsHistory | sub/store.go:49-95 | over every sequence of calls and from any table, a name has its old handlers that were not removed, then the new ones not removed since, in order |
| Subscriptions.StoreIsLive | sub/store.go:49-95 | from the empty store: exactly the live registrations |
| Subscriptions.NoEmptyEntry | sub/store.go:79-94 | no name maps to an empty list of handlers, over every sequence of calls |
| Subscriptions.RemoveIsLocal | sub/sub.go:59-73 | unregistering an id leaves every other handler in place |
| SubInterleaving.StepKeepsInv | sub/store.go:51-95 | every locked region keeps: a Sub in the map is filed under the name it was made for, held Subs exist, an id was drawn once for one Sub |
| SubInterleaving.AloneIsSequential | sub/store.go:64-95 | run without interleaving, the steps of Register and Unregister amount to the call on the plain table |
| SubInterleaving.RecvAloneIsSequential | sub/store.go:51-59 | a Recv run alone starts exactly the handlers of its name in the plain table, once each and in order, returns, and changes nothing |
| SubInterleaving.CallProceeds | sub/store.go:51-95 | no call is ever stuck: it has a step of its own that brings it nearer to its return |
| SubInterleaving.OthersLeaveCall | sub/store.go:51-95 | the steps of other calls leave it where it is |
| SubInterleaving.UnlistedStays | sub/store.go:68-73 | a Sub that is not in the map never enters it again |
| SubInterleaving.UnregisteredIsGone | sub/store.go:81-95 | after Register returned id and a later Unregister of it returned, no lookup can lead to the handler |
| SubInterleaving.UnregisteredNeverRuns | sub/store.go:51-95 | in every interleaving, a Recv whose lookup comes after that does not start the handler |
| SubLifetime.RegistrationLastsExactly | sub/store.go:64-95 | in every interleaving, a lookup finds a returned registration exactly if since the call took hold of its Sub no Register that missed the entry and no Unregister that emptied a Sub has displaced it, and nobody filtered the handler out |
| SubLifetime.DeliveredExactly | sub/store.go:49-77 | a Recv starts a registered handler exactly if nothing displaced the Sub before its lookup and nobody filtered the handler out before it starts the handlers |
| SubLifetime.RecvKeeps | sub/store.go:52-58 | a Recv is still to start handlers exactly if its lookup found a Sub and it has not started them yet, and holds that Sub |
| SubLifetime.DeliveryIsDue | sub/store.go:49-59 | when the lookup of a Recv leads to a handler, the Recv can start it at every moment until it does, unless somebody filters it out |
| SubLifetime.HoldingSince | sub/store.go:65-75 | every Register that is about to append took hold of its Sub while that was in the map |
| SubLifetime.CanBeLostExactly | sub/store.go:64-95 | from any state in which a handler is found: some continuation loses it, without unregistering it, exactly if a call under way had missed its Sub, is about to delete the entry, or holds another Sub of the name all of whose handlers are being unregistered |
| SubLifetime.RegistrationCanBeLost | sub/store.go:65-75 | a run in which a returned registration has no map entry, though nobody unregistered it |
| Metadata.FromRecv | metadata/metadata.go:60-82 | the MD of the context itself is written: id, project and segment always, the error if there is one, the routing part only for a message with Sub |
| Metadata.Pub.GetEvent | pub/pub.go:116-148 | the event has the id, name, project, payload, time and encoded typed context of the descriptor; it asks for a response exactly if Sub was called or the MD has a complete route, which it then takes over, and otherwise has none; an encoding error gives no event |
| Metadata.Publish | client/client.go:116-132 | client.Pub changes nothing of the shared MD but its ID, and leaves the descriptor's project empty |
| Metadata.RoutedToAnswered | metadata/metadata.go:60-82 | over any use of a handler's context the MD is marked Sub exactly if the request was or a response awaited on it was, and is routed to the last of these |
| Metadata.ReplyGoesToAnswered | pub/pub.go:126-136 | a reply published after any uses carries that message's id as SubId and its whole way back if its routing fields are complete, and no way back otherwise |
| Metadata.ReplyCarriesRequestExactly | pub/pub.go:126-136 | it carries the request's id exactly if no routed response was awaited and the request is fully routed, or the last routed response is fully routed and has that id |
| Metadata.PublishingKeepsRoute | client/client.go:116-119 | any number of client.Pub calls in between leaves the whole way back the request's |
| Metadata.NestedAwaitRedirects | pub/pub.go:86-89 | a nested Pub.Sub on the same context redirects the reply |
| Callbacks.KeyIsUnambiguous | callback/callback.go:51-73 | for colon-free ids, equal keys mean equal event and id, whatever the event names contain |
| Callbacks.KeysRefinePairs | callback/callback.go:50-77 | register, unregister and lookup by string key refine a table keyed by pairs |
| Callbacks.Callback.Recv | callback/callback.go:50-61 | a send of the message to the channel under its key, or nothing if there is none |
| PubSub.Sub | pub/pub.go:73-107 | an error response is returned as its error, an undecodable typed context as an error, and any other response with its payload and typed context; the channel is registered when the event is sent and gone on every way out; the metadata is enriched exactly if a message was taken |
| Correlation.ResponseMatchesExactly | pub/pub.go:85-103 | in every interleaving a call's response is for its event and its id exactly if the SubId has no colon, even when calls share an id |
| Correlation.NoKeyAfterReturn | pub/pub.go:78-79 | no key leads to a call that has returned, on any path |
| Correlation.ResponsesConserved | callback/callback.go:50-61 | each message handed to a call is pending on its channel or is the response it took: none lost, doubled or moved |
| Correlation.TakesAtMostOne | pub/pub.go:85-106 | a call takes at most one response |
| Correlation.CallProceeds | pub/pub.go:81-106 | no call is ever stuck: sending leads into the select or out, the select takes any pending message or sees the cancellation, and the call returns what was decided |
| Correlation.CallBegins | pub/pub.go:73-79 | a new call can begin at any moment and is registered then |
| Correlation.RegisteredExactly | pub/pub.go:78-79 | in every interleaving, whatever keys calls share, a call is registered exactly until a call with its key registers or unregisters |
| Correlation.NoneMissed | pub/pub.go:67-83 | a message becomes one pending send of a call exactly if it has its event and id and nothing has taken the key since its registration |
| Correlation.HandedExactly | callback/callback.go:50-61 | a message for the awaited event is handed to a call exactly if it has its id, colon or not, and nothing has taken the key, and then to no other |
| Correlation.AwaitedAgain | pub/pub.go:73-79 | when the calls of one key do not overlap, each is registered exactly while it is active |
| Correlation.OverlapMisses | pub/pub.go:78-83 | the run in which the second of two overlapping calls of one descriptor makes the first one miss its response |
| Correlation.ColonMisleads | callback/callback.go:50-61 | the run in which a SubId with a colon hands a message for one event to a call for another |
| Correlation.ReplyReachesItsCaller | pub/pub.go:67-136 | from request through FromRecv, any use of the handler's context and GetEvent to the callback table, a reply is handed to the call that asked exactly if the metadata routes back to the request and nothing took the call's key, and then to no other; it does route back unless the handler awaited a routed response |
| Codec.DecimalRoundTrip | authhmac/authhmac.go:83-164 | every int64 timestamp survives FormatInt and ParseInt |
| Codec.HexRoundTrip | authhmac/authhmac.go:122-175 | every signature survives hex encoding and decoding |
| Codec.HexDecodeExactly | authhmac/authhmac.go:122-125 | what decodes is the encoding of the result, up to the case of digits |
| Codec.BigEndianAt | authhmac/authhmac.go:201-211 | each byte written is the base-256 digit of its place, most significant first |
| Codec.DigitsAt | authhmac/authhmac.go:164 | each digit written is the decimal digit of its place, without leading zeros |
| Codec.ParseIntExactly | authhmac/authhmac.go:83 | an optional sign and digits are parsed to their value where it is an int64, and nothing else is |
| Codec.HexEncodeAt | authhmac/authhmac.go:176-190 | two lower-case digits per byte, the high half first |
| Codec.HexDecodesExactly | authhmac/authhmac.go:122-125 | exactly the strings of an even number of hexadecimal digits, in either case, are decoded |
| AuthHmac.BuildPayload | authhmac/authhmac.go:194-215 | the in-place writes fill the buffer with exactly the documented format |
| AuthHmac.FormatIsDocumented | authhmac/authhmac.go:191-215 | the payload byte by byte: low 32 bits of the data length, data, timestamp, low 16 bits of the nonce length, nonce |
| AuthHmac.ParseInverts | authhmac/authhmac.go:191-215 | a parser recovers data, timestamp and nonce, for data below 2^32 bytes, every int64 and every nonce length |
| AuthHmac.PayloadIsInjective | authhmac/authhmac.go:191-215 | payloads of different triples differ, for data below 2^32 bytes |
| AuthHmac.CollisionExactly | authhmac/authhmac.go:201-202 | without the limit, equal payloads are of equal triples exactly if the data have equal length |
| AuthHmac.LongDataCollides | authhmac/authhmac.go:201-202 | two triples that share a payload beyond the limit |
| AuthHmac.WindowIsExact | authhmac/authhmac.go:92-120 | wherever the age is a duration above the smallest, the time checks accept exactly the documented interval |
| AuthHmac.TimeChecksExactly | authhmac/authhmac.go:92-120 | what they accept for every timestamp, saturation and wrap included |
| AuthHmac.WindowHoldsExactly | authhmac/authhmac.go:95-120 | the documented interval is kept exactly outside two saturated cases |
| AuthHmac.TimeErrorsExactly | authhmac/authhmac.go:95-120 | which of the three time errors is given, for every timestamp |
| AuthHmac.FarFutureLeavesWindow | authhmac/authhmac.go:95-104 | a timestamp for the first of them |
| AuthHmac.LargestTimestampsAreOld | authhmac/authhmac.go:92-104 | a timestamp whose internal seconds wrap is rejected by any skew below the largest |
| AuthHmac.LargerWindowAcceptsMore | authhmac/authhmac.go:43-51 | enlarging a positive skew or ttl never rejects what was accepted |
| AuthHmac.FirstFailureDecides | authhmac/authhmac.go:82-138 | the first failing check gives the error: timestamp, time, signature; a request is accepted exactly if none fails |
| AuthHmac.GeneratesExactly | authhmac/authhmac.go:148-166 | an envelope holds the whole second of the clock, the random bytes in hex, and the MAC of data, second and nonce |
| AuthHmac.RoundTripExactly | authhmac/authhmac.go:82-166 | a generated envelope validates exactly if its whole second is positive and passes the time checks |
| AuthHmac.RoundTripWindow | authhmac/authhmac.go:82-166 | ... that is, exactly if the verifier's clock minus the floor of the signer's lies in the window |
| AuthHmac.FreshEnvelopeAccepted | authhmac/authhmac.go:82-166 | always, with positive limits, up to one second less than the smaller |
| AuthHmac.SignatureBindsTriple | authhmac/authhmac.go:122-137 | two accepted requests with one signature are for the same triple or exhibit a MAC collision |

## Left out

- ClientState.Client.Send: stops after a given number of attempts, because the recursion need not end; the list and the brokers stay as they are during one such send. What changes between attempts is covered on values by RoundRobin.SendOverExactly.
- Fibonacci.Fibo: stops after a given number of rounds, because the loop need not end.
- Correlation: the lookup and the start of the sending goroutine in Callback.Recv are one step; nothing shared is touched in between.
- StartOverlap: takes no account of the object's lock being held through ConnectFunc; BrokerObjects does.
- BrokerObjects: other ids enter only as the rebuilding of the list, and c.rw is assumed to be granted in the end; module Reconnect says when it is not.
- BrokerLink.Broker.InitResetProcess: the flag store and the unlocked read of the stream are one method; StartOverlap has them as two steps.
- The typed context that message.FromRecv puts into a handler's context (message/context.go), where a decoding error is ignored.
- Metadata: FromRecv and GetEvent are one step each. The source writes and reads the fields of a shared MD one by one without a lock, and all handlers of an event share one context (sub/sub.go:79-85), so one handler's GetEvent can send a route half written by another's FromRecv; GoesTo is claimed for uses that do not overlap.
- Deadlock between different locks (their order differs between owerstaying and the ready event); the blocked signal of disconnect is covered by Reconnect.ReleasableExactly.
- Dialling, TLS, certificates, the interceptor, HTTP requests, the protobuf code, SHA-256 and HMAC themselves.
- The retry loop of broker/request.go: it repeats until a response arrives, with the delays of Fibo and cap 16.
