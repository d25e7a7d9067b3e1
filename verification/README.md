# A verified model of netfilterd's protocols

netfilterd runs a Pi that owns a car's BLE radio and its WiFi. This project models the parts of
it that are protocols or transformations rather than plumbing, and proves what they are for.

- **Radio ownership** (`Radio`, `Opening`, `SessionService`, `Reaper`). One radio permit is fought over by
  concurrent opens, closes, idle reapers, token removals and key enrolments. `Radio` is a
  transition system: every region the daemon runs under a mutex, and every channel operation on
  the permit, is one atomic action, and the theorems hold of every interleaving of any number of
  operations. `Opening` says what an operation achieves when it is let, and `SessionService` holds the same regions as methods of the service's object.
- **Frame pump and wire scanner** (`Pump`, `Delivery`, `Correlation`, `InternalSession`,
  `Correlators`, `Wire`, `Loops`). One reader routes each frame to the oldest waiting exchange that wants it or fans it out;
  the keys it routes by come out of a hand-written protobuf scanner. `Wire` is the scanner's loop in
  its own 64-bit arithmetic beside the field walk it means, `Correlators` what a call comes to on any
  buffer (a payload, a panic, or no return), and `Pump` computes every key from the bytes that way.
- **Lock watcher** (`LockGate`, `LockWatch`, `LockWatchService`). Signals are folded into a verdict,
  and two locks make the actuator's last call agree with the state.
- **Firewall and hotspot gate** (`Firewall`, `FirewallCheck`, `TablePolicy`, `Hotspot`). A device table, rules and
  ports are compiled to packet-filter chains; the compiled chains mean the declared policy, and the
  textual check that gates the access point agrees with the generator.
- **SNI gate** (`ClientHello`, `Domains`). The ClientHello parser (section 4.1.2 of RFC 8446,
  section 3 of RFC 6066) and the suffix lists with their protected-deny floor.
- **Client sessions and metadata** (`PiSessions`, `Links`, `Metadata`), **tokens** (`Tokens`) and the
  **login throttle** (`Throttle`).

`Bytes` and `Text` hold the byte and string functions the others share. Time is an explicit
parameter; BLE, SQL, the clock, the network and the packet filter are steps that may succeed or fail.

## What turned out false, and when it holds

- The scanner's bounds guard adds an index to `int(ln)`. On a length prefix near 2^64 the sum
  wraps, the guard lets it through, and the loop goes back into bytes it has been over. It follows the
  field walk exactly when every prefix it meets fits a signed 64-bit sum (`Wire.ScanFaithfulIff`), and
  returns what the walk finds if and only if every prefix fits or the first that does not is harmless:
  another field's, and nothing comes of going back (`Correlators.ScanExactIff`). Every message the
  encoder can print fits (`Wire.MessagesFit`).
- So "a frame an exchange returns answers its request" is false of some frames. Twenty bytes are
  enough to be handed to an exchange by an address they do not carry (`Correlators.BackjumpMisread`,
  `Correlation.BackjumpMisleads`). Some run does this with a frame if and only if the scans return a key
  from it and a harmful prefix put it there (`Correlation.MisleadsIff`).
- So is "the pump can always be stopped". On eleven bytes the scan stands still for ever
  (`Correlators.OverlongHangs`, `Correlation.OverlongHangsPump`), and the pump never closes a channel
  again (`Correlation.HungForever`). The pump hangs or brings the process down exactly when the scans of
  some frame it read do (`Correlation.PumpFate`); otherwise it is at most one step from stopping
  (`Correlation.StopIsNear`).
- A claim-windowed token that validates is claimed only if the best-effort write that clears its
  window succeeds; otherwise it lapses like an unused one (`Tokens.LostClaim`).
- The client keys its session cache by domain alone. If the entry cached for a domain belongs to
  another vehicle and its link is dead, the entry is overwritten and its reference is lost
  (`PiSessions.StrangerLeaks`, reachable by `PiSessions.StrangerIsReachable`). Counts stay exact
  whatever happens during a call if and only if the cached entry, if any, is the vehicle's own
  (`PiSessions.CallsStayExactIff`); a page that uses one vehicle always meets that.
- The DNS log and the SNI proxy agree on every host exactly when no suffix is empty
  (`Domains.DecisionsAgreeIff`); both caches drop empty suffixes (`Domains.CachesAgree`).
- A metadata entry with tag 255 would read as the end of its block (`Metadata.EndTagIsAmbiguous`);
  the builder is only given tags up to 9.

## Model

| member | source | states |
|---|---|---|
| `Radio.PermitMoves` | internal/services/tesla_session.go:208-258 | who holds the permit after an action, in terms of who held it before: only acquire, register, delete and release move it |
| `Radio.KeepsInv` | internal/services/tesla_session.go:208-258 | every action of every operation keeps the ownership, ordering and preemption invariants |
| `Radio.PermitIsConserved` | internal/services/tesla_session.go:208-258 | in every interleaving the permit is taken exactly when one operation or one registered session holds it, never two, and Unlock never panics |
| `Radio.AtMostOneSession` | internal/services/tesla_session.go:145-153 | the session map never holds more than one session, and while it holds one no operation has the permit |
| `Radio.NewestWins` | internal/services/tesla_session.go:202-250 | once an open number has been passed, no open below it ever registers a session |
| `Radio.QuietBeforeRegister` | internal/services/tesla_session.go:743-754 | while the newest open waits for the radio the map is empty, and whoever holds the permit can take a step towards giving it back |
| `Radio.WaitIsBounded` | internal/services/tesla_session.go:219-225 | with no new operations, the number of steps others can take before the newest waiting open is bounded by a measure every one of them decreases |
| `Radio.RadioComesFree` | internal/services/tesla_session.go:219-225 | from every reachable state in which the newest open waits, any course of the others' steps is bounded, and where none of them can step any more the radio is the open's to take |
| `Radio.RemovalIsComplete` | internal/services/tesla_session.go:708-735 | after CloseForToken returns, no session of an open its owner began before the locked section is or ever becomes registered, at whatever point that open was |
| `Opening.FreeRadioIsTaken` | internal/services/tesla_session.go:226-258 | for the newest open waiting for a free radio, acquire, connect and register are each enabled in turn, for every id, and register exactly its session, start its reaper and keep the radio |
| `Opening.OpenSucceeds` | internal/services/tesla_session.go:208-258 | an open begun in any reachable state in which no operation holds the radio preempts what is registered by its own steps, takes the radio and registers its own session for its owner |
| `Opening.EndForgetsOpen` | internal/services/tesla_session.go:692-699 | the newest open, ending, leaves its session and is no longer pending |
| `Opening.SupersededBacksOut` | internal/services/tesla_session.go:242-248 | a connected open with a newer one ahead of it can only back out, and then only give the radio back |
| `Opening.CloseCloses` | internal/services/tesla_session.go:659-674 | from every reachable state a close by its own steps removes exactly that session and frees the radio exactly if it was there |
| `Opening.RemovalRemoves` | internal/services/tesla_session.go:708-735 | from every reachable state a token removal by its own steps cancels its owner's pending open and closes exactly its owner's sessions |
| `Opening.EnrolmentHoldsRadio` | internal/services/tesla.go:268-304 | an enrolment takes the free radio, has it while it talks to the car, and gives it back |
| `SessionService.BleLock.Lock` | internal/services/tesla.go:108-119 | takes a free slot; fails at once if the context has ended on entry, and otherwise only if it ended while waiting, leaving the slot alone |
| `SessionService.BleLock.Unlock` | internal/services/tesla.go:123-130 | empties a full slot; on an empty one it panics |
| `SessionService.BLESessionService.BeginOpen` | internal/services/tesla_session.go:678-689 | the new number and pending open of the protocol's step, and exactly the previous pending open is cancelled |
| `SessionService.BLESessionService.EndOpen` | internal/services/tesla_session.go:692-699 | forgets the pending open only if its number is still the latest |
| `SessionService.BLESessionService.TryRegister` | internal/services/tesla_session.go:238-246 | registers exactly when the open is still the newest, and changes nothing otherwise |
| `SessionService.BLESessionService.Close` | internal/services/tesla_session.go:659-674 | removes exactly that session, reports whether it was there, and frees the radio exactly then, without unlocking a free radio |
| `SessionService.BLESessionService.Collect` | internal/services/tesla_session.go:720-724 | enumerates exactly the sessions of the filter |
| `SessionService.BLESessionService.PreemptExisting` | internal/services/tesla_session.go:743-754 | run alone, empties the map, gives the radio back if there was a session, and leaves the open bookkeeping alone |
| `SessionService.BLESessionService.TokenSection` | internal/services/tesla_session.go:712-725 | cancels and bumps past the owner's pending open if there is one, and collects exactly the owner's sessions |
| `SessionService.BLESessionService.CloseForToken` | internal/services/tesla_session.go:708-735 | run alone, keeps exactly the other owners' sessions, counts the closed ones, gives the radio back if there were any, and cancels exactly the owner's pending open; owner 0 changes nothing |
| `SessionService.BLESessionService.Touch` | internal/services/tesla_session.go:815-821 | stamps a registered session and nothing else |
| `SessionService.BLESessionService.ReaperPass` | internal/services/tesla_session.go:827-849 | deletes the session, gives the radio back and stops exactly when it is idle for the TTL, else sleeps past the next deadline |
| `Reaper.ReapedInTime` | internal/services/tesla_session.go:815-849 | over every sequence of touches, a session is reaped at least TTL and at most TTL plus a second after its last touch, and never stays longer |
| `Reaper.SleepsPastDeadline` | internal/services/tesla_session.go:827-849 | the reaper reaps exactly from five minutes idle on, and otherwise sleeps until a second past that moment |
| `Reaper.SecondWakingReaps` | internal/services/tesla_session.go:827-849 | without further touches the second waking at the latest reaps |
| `Pump.KeepsInv` | internal/services/tesla_session.go:370-516 | every step of pump, exchanges and subscribers keeps the channel invariants |
| `Pump.ChannelsAreSafe` | internal/services/tesla_session.go:390-447 | over every run no channel is closed twice or sent to after close, a waiter's channel gets one send or one close, and a matched frame never meets a full channel |
| `Pump.OneDestination` | internal/services/tesla_session.go:390-429 | a frame delivered to a waiter went to no other waiter and to no subscriber |
| `Pump.OldestMatchingWaiter` | internal/services/tesla_session.go:390-405 | a frame with the extracted key goes to the earliest registered waiter that wants it, and is fanned out exactly when none does |
| `Delivery.FanOutReaches` | internal/services/tesla_session.go:406-417 | in every run, a frame no registered waiter wants is appended to the channel of every live subscriber with fewer than 8 unread frames; nobody else's channel changes |
| `Delivery.SubscriberGetsAll` | internal/services/tesla_session.go:406-417 | what a subscriber has taken, then what it has not read, are in order the fanned-out frames it had room for |
| `Delivery.ReplyArrives` | internal/services/tesla_session.go:390-429 | in every run, a frame with the address or uuid of a waiting exchange, or any frame if it asked for neither, is in its channel after the pump's next two steps unless an earlier waiter is meant; nothing else changes |
| `Delivery.ExchangeWaits` | internal/services/tesla_session.go:459-468 | an exchange on a live session waits, last in line, for the key of its payload on a new channel |
| `Delivery.GivenUpIsGone` | internal/services/tesla_session.go:475-484 | an exchange that gave up is off the list, and nobody else is |
| `Delivery.SubscribeJoins` | internal/services/tesla_session.go:493-505 | a subscription is new, empty, has room for 8, and is open exactly while the session is live |
| `Delivery.UnsubscribeLeaves` | internal/services/tesla_session.go:509-516 | leaving closes one's own channel once and touches no other |
| `Pump.NobodyLeftBlocked` | internal/services/tesla_session.go:435-505 | after the stop every waiter that has not given up has had its send or close, every subscriber ever made is closed, and the lists stay empty |
| `Pump.ExtractedKeysAnswer` | internal/services/tesla_session.go:300-347 | in every run, a frame an exchange receives answers its request by the keys the source's scans extract from the two |
| `Pump.ReplyCorrelates` | internal/services/tesla_session.go:300-347 | a frame an exchange receives carries the routing address or uuid of its request whenever the request had one, if the lengths in both are harmless |
| `Correlation.MisleadsIff` | internal/services/tesla_session.go:390-405 | some run hands a frame to an exchange with a harmless request it does not answer if and only if the scans return a key from the frame and its lengths are not harmless |
| `Correlation.BackjumpMisleads` | internal/services/tesla_session.go:600-613 | there is such a frame of twenty bytes |
| `Correlation.PumpFate` | internal/services/tesla_session.go:370-385 | the pump hangs exactly when the scans of a frame it read never return, and crashes exactly when they panic |
| `Correlation.StopIsNear` | internal/services/tesla_session.go:370-385 | while every frame could be scanned, the pump has stopped or can after at most one step of its own |
| `Correlation.OthersLeavePump` | internal/services/tesla_session.go:459-516 | what exchanges and subscribers do leaves the pump where it is, so that step stays open to it |
| `Correlation.HungForever` | internal/services/tesla_session.go:435-447 | a hung pump never sends to or closes a waiter's channel again |
| `Correlation.OverlongHangsPump` | internal/services/tesla_session.go:390-392 | eleven bytes hang the pump |
| `InternalSession.Session.RegisterWaiter` | internal/services/tesla_session.go:459-468 | appends a waiter with a fresh channel, or refuses after the shutdown |
| `InternalSession.Session.UnregisterWaiter` | internal/services/tesla_session.go:475-484 | the search loop removes exactly that waiter, or nothing |
| `InternalSession.Session.Subscribe` | internal/services/tesla_session.go:493-505 | a fresh id and channel, already closed after the shutdown |
| `InternalSession.Session.Unsubscribe` | internal/services/tesla_session.go:509-516 | closes and drops a live subscriber, otherwise nothing |
| `InternalSession.Session.BeginExchange` | internal/services/tesla_session.go:320-326 | the keys are those the scans extract from the payload, and a waiter for them is registered, unless they panic or the session has shut down |
| `InternalSession.Session.RouteFrame` | internal/services/tesla_session.go:390-429 | the key is what the scans extract from the bytes; with it the two loops take the first matching waiter off the list, or offer the frame to every subscriber once; a panic leaves the session as it was |
| `InternalSession.Session.DeliverTo` | internal/services/tesla_session.go:424-428 | the send outside the mutex reaches exactly that waiter's channel, if it has room |
| `InternalSession.Session.ShutdownPump` | internal/services/tesla_session.go:435-447 | the two loops close every waiter's and subscriber's channel once and empty both lists |
| `Wire.ReadVarintLoop` | internal/services/tesla_session.go:624-638 | the shift-and-or loop computes the 64-bit value and size of the varint at the front, or 0 for none within ten bytes |
| `Wire.VarintRoundTrip` | internal/services/tesla_session.go:624-638 | reading inverts the canonical encoding of every uint64, whatever follows |
| `Wire.ScanIteration` | internal/services/tesla_session.go:575-618 | one pass of the loop in the source's wrapping 64-bit arithmetic |
| `Wire.GuardExact` | internal/services/tesla_session.go:587-613 | the truncation guard decides correctly if and only if index plus length fits a signed 64-bit int |
| `Wire.ScanFaithfulIff` | internal/services/tesla_session.go:573-620 | the 64-bit scan follows the mathematical field walk at every step if and only if every length prefix it meets fits |
| `Correlators.OverlongHangs` | internal/services/tesla_session.go:600-613 | a concrete eleven-byte buffer on which the scan stands at index 0 after any number of turns |
| `Correlators.HangsIff` | internal/services/tesla_session.go:573-620 | a call never returns exactly when it is still running after more turns than the buffer has bytes |
| `Correlators.ScanExactIff` | internal/services/tesla_session.go:573-620 | the 64-bit scan returns what the field walk finds if and only if every length met fits or the first that does not is harmless; otherwise the walk finds nothing |
| `Correlators.KeyExactIff` | internal/services/tesla_session.go:523-559 | the key the source extracts is the key the message carries if and only if its lengths are harmless; a wrong key has bytes where the message has none |
| `Correlators.FittingKey` | internal/services/tesla_session.go:573-620 | lengths that fit are harmless |
| `Correlators.BackjumpMisread` | internal/services/tesla_session.go:543-559 | from a concrete frame an address is extracted that it does not carry |
| `Correlators.CirclingHangs` | internal/services/tesla_session.go:390-392 | on a similar frame the address is extracted and the scan for the uuid never returns |
| `Correlators.ExtractKey` | internal/services/tesla_session.go:523-559 | the extractors, address first, give the key or the panic of the 64-bit scans |
| `Correlators.ScanProtoField` | internal/services/tesla_session.go:573-620 | on every buffer on which it returns or panics, the loop gives the payload, nil or panic of the 64-bit scan |
| `Wire.ScanFindsFirst` | internal/services/tesla_session.go:573-620 | for every well-formed field list, the payload of the first LEN field with that number, or nothing if there is none |
| `Wire.MessagesFit` | internal/services/tesla_session.go:573-620 | the prefixes of every well-formed message in memory fit, so the 64-bit scan of it is the walk |
| `Correlators.CorrelatorsRead` | internal/services/tesla_session.go:523-559 | for every message built from a field list, with or without destination and uuid, the extracted key is the routing address (field 2) of its destination field and its uuid field |
| `LockGate.VerdictByHistory` | internal/services/lockgate.go:121-149 | the verdict is down if and only if since the last loss a status was seen, the latest said locked and absent, and the latest activity is at least a lease old |
| `LockGate.FoldRemembers` | internal/services/lockgate.go:121-131 | the folded gate holds the latest status and the latest activity since the last loss |
| `LockWatch.LastCallMatchesState` | internal/services/lockwatch.go:314-333 | in every interleaving, once no call is in progress the installed actuator's last argument is the verdict of the current gate at the most recent settle |
| `LockWatch.GateIsHistory` | internal/services/lockwatch.go:193-281 | in every interleaving the gate is the fold of the run's signals and losses, in order |
| `LockWatch.EnforcerIsInstalled` | internal/services/lockwatch.go:165-175 | in every interleaving the actuator is the one installed last |
| `LockWatch.LastCallMatchesHistory` | internal/services/lockwatch.go:314-333 | once no call is in progress, the actuator installed last was told "down" last exactly when the signals and losses heard say so at the most recent settle |
| `LockWatch.EveryCallSettles` | internal/services/lockwatch.go:193-281 | a signal, loss, tick or change of actuator is still in progress until it has looked at the gate with its own time |
| `LockWatch.CallsFlip` | internal/services/lockwatch.go:324-332 | two calls of the actuator in a row, with no change of actuator between them, say opposite things |
| `LockWatch.RunKeepsInv` | internal/services/lockwatch.go:165-175 | every step keeps: one holder of the apply lock, a fresh actuator, and lastWanted equal to what was said last |
| `LockWatch.NeverStuck` | internal/services/lockwatch.go:314-333 | in every reachable state with a call in progress some call can step, and every step brings its own call strictly closer to returning |
| `LockWatchService.LockWatcher.Settle` | internal/services/lockwatch.go:314-333 | run alone, the installed actuator has been told the verdict at that time |
| `LockWatchService.LockWatcher.Ingest` | internal/services/lockwatch.go:193-243 | folds the signal and settles; an undecodable frame changes nothing |
| `LockWatchService.LockWatcher.ReportExternal` | internal/services/lockwatch.go:248-254 | folds a status and settles |
| `LockWatchService.LockWatcher.NoteSessionLost` | internal/services/lockwatch.go:269-281 | forgets the gate, and the actuator has been told "up" |
| `LockWatchService.LockWatcher.SetEnforcer` | internal/services/lockwatch.go:165-175 | the new actuator is told the verdict whatever was told before |
| `LockWatchService.LockWatcher.AttachAndPump` | internal/services/lockwatch.go:432-501 | however an attachment ends, the gate is empty and the actuator has been told "up"; it counts as failed only if subscribing failed |
| `LockWatchService.DelayIsBackoff` | internal/services/lockwatch.go:401-423 | the retry delay is the base delay doubled once per failure in a row, capped |
| `Firewall.GenerateForward` | internal/services/firewall.go:421-466 | the appending loops build the forward chain |
| `Firewall.ForwardMeansPolicy` | internal/services/firewall.go:334-483 | for every snapshot, rules, ports and packet, first-verdict evaluation of the generated chain is the declared policy, in its order |
| `Firewall.GenerateNat` | internal/services/firewall.go:354-381 | the appending loops build the prerouting chain |
| `Firewall.NatMeansPolicy` | internal/services/firewall.go:334-483 | what prerouting does with every packet; a filtered device's LAN tcp/443 always goes to the SNI port |
| `FirewallCheck.LoadDeviceSnapshot` | internal/services/firewall.go:103-130 | the loop collects the valid lower-cased addresses of each status, in row order |
| `TablePolicy.SnapshotIsTable` | internal/services/firewall.go:103-130 | an address is in the list of a status exactly if some row has that status and that valid address, lower-cased |
| `TablePolicy.SnapshotKeepsOrder` | internal/services/firewall.go:103-130 | each list has one address for every such row, in row order |
| `TablePolicy.ForwardMeansTable` | internal/services/firewall.go:334-483 | for every table, rules, ports and packet, the chain generated for the table does what the policy says of the table's rows |
| `TablePolicy.BlockedIsDropped` | internal/services/firewall.go:421-466 | a blocked row's device is dropped outside established flows, whatever the rules and ports |
| `TablePolicy.UnknownIsDropped` | internal/services/firewall.go:421-466 | a device with no row gets through only by a user rule |
| `TablePolicy.NatMeansTable` | internal/services/firewall.go:354-381 | what prerouting does with every packet, on the table's rows |
| `FirewallCheck.VerifyOutput` | internal/services/firewall.go:293-332 | the loops pass exactly when the forward chain is default-deny and every filtered device has an interception line; each failure is named exactly when it is the first |
| `FirewallCheck.GeneratedPasses` | internal/services/firewall.go:293-332 | every generated ruleset passes the check for its own filtered devices |
| `FirewallCheck.CheckExact` | internal/services/firewall.go:263-332 | over a ruleset generated from an older table, the check passes if and only if some device is filtered now and all of them were filtered then |
| `FirewallCheck.OrdinaryIsQuiet` | internal/services/firewall.go:334-381 | every interface name and dotted address of ordinary length meets what that asks of the configured texts |
| `Hotspot.ReapplyHeals` | internal/services/hotspot.go:165-184 | after a reapply, the check passes for every table with filtered devices that were filtered when it was compiled |
| `Hotspot.HotspotService.ApplyFirewall` | internal/services/firewall.go:211-241 | the chains it loads do to every packet what the table, rules and ports say; a failing load leaves the kernel alone |
| `Hotspot.HotspotService.SetEnabled` | internal/services/hotspot.go:152-194 | start is issued exactly when a check passed over the ruleset left in the kernel; a working reapply over a stable table with a filtered device always starts; stop is never gated; it succeeds exactly when the command was issued and ran |
| `ClientHello.ParseSniLoop` | internal/services/sniproxy.go:308-391 | the re-slicing loops stay in bounds and terminate on every byte string, and compute the parse, for any lower-casing |
| `ClientHello.RoundTrip` | internal/services/sniproxy.go:308-391 | for every well-formed ClientHello, the first host_name of the first server_name extension, whatever bytes follow |
| `ClientHello.PrefixStable` | internal/services/sniproxy.go:308-391 | a name found in a prefix is the name of the whole message |
| `ClientHello.RecordRead` | internal/services/sniproxy.go:286-303 | one record is replayed byte for byte and named by its own hello, lower-cased, whatever is sent later; ASCII names are lower-cased letter by letter |
| `Domains.UnderIsLabelSuffix` | internal/services/sniproxy.go:169-183 | "equal or ends with dot plus suffix" is exactly label-list suffix, for all strings |
| `Domains.GuardSufficient` | internal/services/filter.go:214-228 | no host matched by a domain stored past both guards is protected-denied, unless the domain is itself an exact exemption |
| `Domains.StoredAdmits` | internal/services/sniproxy.go:169-195 | a stored domain that is no exemption admits itself and everything below it |
| `Domains.NormalizeKeepsValid` | internal/services/validate.go:90-97 | a valid domain is stored as entered, also with a leading wildcard |
| `Domains.DeniedByLabels` | internal/services/protected.go:68-85 | a host is denied exactly if it is no exemption and some protected name's labels end its own |
| `Domains.AllowedByLabels` | internal/services/sniproxy.go:190-195 | a connection is allowed exactly if its host is not denied and some listed suffix's labels end it |
| `Domains.BelowExemptDenied` | internal/services/protected.go:68-85 | every strict sub-domain of an exempt host is still denied |
| `Domains.DecisionsAgreeIff` | internal/services/trafficlog.go:244-257 | dnsResolvable and sniAllowed agree on every host if and only if no suffix is empty |
| `Domains.CleanedRows` | internal/services/sniproxy.go:92-104 | the cache holds exactly the non-empty normal forms of the stored rows |
| `Domains.CachesAgree` | internal/services/sniproxy.go:80-129 | over the cleaned lists the caches hold, they agree on every host |
| `PiSessions.CountsFollowCache` | client/session.js:142-201 | over every run no DELETE is sent for a link a cached entry still uses; over runs without another vehicle's entry in the way, every count is the number of cached entries and a DELETE is sent exactly at the last release |
| `PiSessions.CallsStayExactIff` | client/session.js:946-1025 | whatever happens during it, a call keeps the counts exact if and only if the entry cached for its domain, if any, is the same vehicle's |
| `PiSessions.StrangerLeaks` | client/session.js:946-1025 | otherwise there is an outcome after which the lost link's count is too high |
| `PiSessions.StrangerIsReachable` | client/session.js:946-1025 | one use of one vehicle leads to such a state |
| `PiSessions.OneVehicleStaysExact` | client/session.js:946-1025 | a page that uses one vehicle keeps every count exact in every run |
| `PiSessions.EvictVinKeeps` | client/session.js:1081-1110 | eviction removes exactly the vehicle's entries and keeps the counts; its final zeroing changes nothing that was exact |
| `PiSessions.RetryOpensAnew` | client/session.js:1007-1015 | after an eviction the retried open asks the Pi for a fresh link |
| `Links.LinkChoice` | client/session.js:170-195 | the first cached entry of the vehicle decides; without one the readable stored row of domain 2, then of domain 3, and only then the posted link |
| `Links.SessionsShareLink` | client/session.js:122-142 | in every run with readable rows, from a store with one link per vehicle, all cached sessions and rows of a vehicle stay on one link, through losses, evictions and reopenings |
| `Links.DomainsShareLink` | client/session.js:122-142 | so any two cached entries of a vehicle have the same link |
| `Links.CachedUseIsFree` | client/session.js:946-973 | a cached session answers without any change unless its link is dead |
| `Links.SuccessIsCached` | client/session.js:946-1025 | a call that succeeds leaves its domain cached, for its vehicle unless another's was there |
| `Links.StoredIsResumed` | client/session.js:975-993 | a stored session whose keys derive is resumed on its own link |
| `Links.BadRowIsDropped` | client/session.js:650-658 | a row whose keys do not derive is dropped and the call goes on without it |
| `Links.ReloadResumes` | client/session.js:590-659 | a session opened and stored is resumed on the same link from the store alone |
| `Links.DeadLinkIsReplaced` | client/session.js:955-1018 | after a dead cached link the call goes through on a freshly posted one |
| `Links.DeadOpenIsRetried` | client/session.js:1007-1015 | a cold start on a dead link evicts and opens once more, on the link posted then |
| `Links.FailedFirstIsDropped` | client/session.js:1016-1024 | a fresh session whose first command fails is not kept |
| `Links.RefreshStores` | client/session.js:1040-1055 | a refresh stores the session it refreshed |
| `Links.EvictionLeavesNothing` | client/session.js:1081-1110 | an evicted vehicle's links have no count left and its rows are gone |
| `Links.CloseAllLeavesNothing` | client/session.js:1125-1141 | closing all leaves nothing cached and, where counts were exact, no reference |
| `PiSessions.SessionCache.Release` | client/session.js:150-160 | the reference count and DELETE of the release step, with a missing count taken for one |
| `PiSessions.SessionCache.FindOrOpen` | client/session.js:170-195 | the first cached link of the vehicle, else a stored one whose row can be read, else the posted one |
| `PiSessions.SessionCache.OpenDirect` | client/session.js:203-389 | binds and persists on success; a failed handshake gives its reference back |
| `PiSessions.SessionCache.EvictSession` | client/session.js:1081-1118 | the loops perform the eviction of every entry of the vehicle |
| `PiSessions.SessionCache.Hydrate` | client/session.js:615-659 | takes a reference only for a stored row whose keys still derive, and drops a row whose keys do not |
| `PiSessions.SessionCache.WithCachedSession` | client/session.js:946-1025 | cached, hydrated, cold, retried and failed paths, stage by stage |
| `PiSessions.SessionCache.RefreshCachedSession` | client/session.js:1040-1055 | refreshes in place or evicts the vehicle |
| `PiSessions.SessionCache.CloseAllSessions` | client/session.js:1125-1141 | evicts every entry, and forgets the store only when asked |
| `Metadata.DecodeInvertsSealed` | client/crypto.js:154-222 | every block with tags below 255 followed by any payload decodes to exactly its entries and that payload |
| `Metadata.SealedInvertsDecode` | client/crypto.js:154-222 | whatever decodes is the rendering of what it decodes to |
| `Metadata.EndTagIsAmbiguous` | client/crypto.js:159-171 | with tag 255 the decoding is not unique |
| `Metadata.MetadataBlockBuilder.Add` | client/crypto.js:159-171 | fails exactly on a descending tag or a value over 255 bytes; otherwise appends the entry, or nothing for a missing value |
| `Metadata.MetadataBlockBuilder.AddUint32` | client/crypto.js:172-176 | appends the big-endian 32-bit image |
| `Metadata.MetadataBlockBuilder.Render` | client/crypto.js:179-186 | the two loops fill a buffer with the rendering of the added entries |
| `Metadata.BuildAesGcmMetadata` | client/crypto.js:270-281 | succeeds exactly when name and epoch are at most 255 bytes, and gives the sealed command block |
| `Metadata.BuildAesGcmResponseMetadata` | client/crypto.js:241-252 | the same for the response block |
| `Metadata.CommandBlocksDistinct` | client/crypto.js:270-281 | two command blocks are equal if and only if domain, name, epoch, expiry, counter and flags are, up to their widths |
| `Metadata.ResponseBlocksDistinct` | client/crypto.js:241-252 | the same for response blocks |
| `Metadata.ResponsesBindRequests` | client/crypto.js:259-264 | responses to requests with different tags never share a block |
| `Metadata.RequestHashReads` | client/crypto.js:259-264 | the request hash is the byte 5 followed by the request's tag |
| `Metadata.CommandFields` | client/crypto.js:270-281 | each field of a command is found under its own tag, and flags only if positive |
| `Metadata.ResponseFields` | client/crypto.js:241-252 | each field of a response is found under its own tag |
| `Metadata.CommandIsNoResponse` | client/crypto.js:241-281 | no command block equals a response block, whatever follows either |
| `Tokens.ValidatesExactly` | internal/services/tesla_token.go:243-289 | over every run with a clock that does not go back and fresh hashes, a token validates exactly when it is neither revoked nor deleted and either has no window, is inside it, or was validated in time before by a call whose claiming write succeeded |
| `Tokens.LostClaim` | internal/services/tesla_token.go:269-276 | a validation whose claiming write fails leaves the token to lapse, where one whose write succeeds keeps it |
| `Tokens.PruningInvisible` | internal/services/tesla_token.go:120-162 | leaving the pruning out, or having it fail, changes no validation in any run |
| `Tokens.PruningKeepsTheLiving` | internal/services/tesla_token.go:120-162 | after an ephemeral issue that prunes nothing in the table has lapsed, and every other row is kept unchanged beside the new one |
| `Tokens.TableFollowsHistory` | internal/services/tesla_token.go:120-289 | the table's rows are what each token's own history says |
| `Tokens.TeslaTokenService.IssueToken` | internal/services/tesla_token.go:76-109 | stores a row with a new id, or refuses the name |
| `Tokens.TeslaTokenService.IssueEphemeralToken` | internal/services/tesla_token.go:120-162 | prunes lapsed rows and stores a windowed one, or refuses the name or the window |
| `Tokens.TeslaTokenService.RevokeToken` | internal/services/tesla_token.go:194-215 | marks exactly that row, or reports that there is none |
| `Tokens.TeslaTokenService.DeleteToken` | internal/services/tesla_token.go:220-233 | removes exactly that row, or reports that there is none |
| `Tokens.TeslaTokenService.ValidateToken` | internal/services/tesla_token.go:243-289 | accepts exactly the live rows and clears the window of the one it accepts |
| `Throttle.NeverMoreThanFive` | internal/handlers/auth.go:69-84 | over one-at-a-time attempts without success a bucket never holds more than five failures |
| `Throttle.NoCheckAfterFifth` | internal/handlers/auth.go:56-67 | after a fifth failure the next attempt is refused exactly in the two minutes that follow |
| `Throttle.AtMostEightPerMinute` | internal/handlers/auth.go:30-34 | every closed one-minute interval contains at most eight evaluated failures |
| `Throttle.EightIsReached` | internal/handlers/auth.go:30-34 | eight is the best bound |
| `Throttle.AuthHandler.LoginLocked` | internal/handlers/auth.go:56-67 | locked exactly before the lockout's end, with the remaining time |
| `Throttle.AuthHandler.RecordLoginFailure` | internal/handlers/auth.go:69-84 | the address's bucket moves to its next state, and no other |
| `Throttle.AuthHandler.Login` | internal/handlers/auth.go:104-128 | the password is looked at exactly when the address is not locked and the body is well formed; a success forgets the bucket, a failure counts, and no other address is touched |

## Left out

- Correlators.ScanProtoField: asks that the scan does not run for ever, since a call that does has no result; `Correlators.HangsIff` says on which buffers. Likewise `Correlators.ExtractKey` and the two `InternalSession.Session` methods that use it.
- FirewallCheck.CheckExact: asks that the configured interface name and addresses, as printed, contain no device address and not the word redirect, and that the port has 16 bits; its passing half, `FirewallCheck.GeneratedPasses`, asks none of this.
- Pump.ReplyCorrelates: asks for harmless lengths, without which it is false; `Correlation.MisleadsIff` gives the frames.
- Buffers: slices are shorter than 2^63 bytes (2^62 in `Correlation.MisleadsIff`, which builds a request around a key).
- SessionService.BLESessionService.TryRegister: asks that the radio is held and no session is registered, which `Radio.AtMostOneSession` shows of every open that gets there.
- Radio.PermitIsConserved: the open counter is unbounded; the 64-bit counter's wrap is not modelled.
- Links.SessionsShareLink: asks that stored rows can be read and that a late row write is of a session still cached; otherwise a second link can be opened beside the stored one.
- PiSessions.CountsFollowCache: operations run one at a time; calls that bypass the per-vehicle queue and a row write landing inside another call are not modelled. Each link id belongs to one vehicle, as the Pi assigns them.
- Reaper.ReapedInTime: sleeps are exact and the reaper first looks within the TTL plus a second of the session's creation.
- Throttle.AtMostEightPerMinute: attempts of one address do not overlap; concurrent attempts can each pass the lock test before any of them is counted.
- Tokens: the last_used_at stamp, token generation and hashing; hashes are taken as fresh.
- Hotspot: configuration rendering and the ungated restart in Apply.
- Firewall: input, output and postrouting chains, log statements, port queries and the text of user rules (each enabled rule is a list of abstract matchers); the kernel lists a rule in the generator's own words, without nft's re-rendering.
- Text: lower-casing and trimming of host names in the allow lists are ASCII.
- LockWatch: frame decoding, counters and status reporting; a frame is its signal.
- SQL, systemd, nft, dnsmasq, hostapd and BLE calls, file writes, clientMAC and cache refreshing: parameters that succeed or fail.
- Encryption, hashing and key derivation: only the bytes that feed them are modelled.
- HTTP handlers, WebSocket streaming, templates, client UI, activity log and statistics: they carry requests and results of the parts above to a page and keep no state that any of the properties depends on.
- Clock re-anchoring in refetchSessionInfo: the stored base is overwritten before it is compared, so the code states no condition to prove.
