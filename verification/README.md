# GoBFD in Dafny

A Dafny model of the protocol core of GoBFD, a Bidirectional Forwarding Detection daemon
(RFC 5880 with RFC 5881, 7130, 8971, 9468, 9521, 9747 and 9764), and proofs of what that
core promises: over every packet, every interleaving and every timed history, not over
examples.

`dafny verify dfyconfig.toml` checks the whole project.

## How the model is built

* **Two levels.** A session is first a value (`Session.Vars`) with one function per handler
  of the event loop. `SessionObject.LiveSession` is the same session as the daemon holds
  it: mutable fields, one packet buffer rebuilt in place, authentication state in its own
  record, a pseudo-random generator. Each of its methods is proved to do to the fields what
  the function does to the value, and `SessionObject.LiveSession.RunLoop` that the object,
  woken by packets, commands and its own timers, goes through a history of the timed state
  machine; so what is proved of those histories holds of the object. It looks transitions
  up with the function that the array lookup (`Fsm.FsmArray`) is proved to compute. Codec,
  authenticator, echo session, manager, micro-BFD group and tunnel encapsulation follow the
  same pattern; each call of the manager object is a sequence of steps of the interleaving
  model (`Operations.Leads`).
* **Time** is a natural number of nanoseconds. It never passes an armed deadline; a timer
  fires exactly when it is due. Integer widths are explicit: 32-bit sequence numbers and
  discriminators, 64-bit durations, the 32-bit counter of unsolicited sessions, the 32-bit
  checksum accumulator.
* **The network** carries bytes. In `Pair` everything an endpoint ever sent may arrive at
  the other one any number of times, in any order, or never; nothing else arrives. In
  `Convergence` it keeps the order, and in `Keepalive` it keeps the order, takes a bounded
  time for each packet and loses a bounded number in a row.
* **Concurrency** in the manager is a state machine whose steps are the regions under the
  manager's lock, the calls of the discriminator allocator, and the single loads and
  compare-and-swaps of the counter; any number of operations interleave.
* **Outside the model and a parameter of it:** the hash (`Auth.Hash`, an arbitrary function
  with results of the right size), random numbers, the clock, map iteration order, the
  packet sender (every transmit attempt counts, whether or not the socket took it) and the
  backend of the LAG actuator.

The names of the files follow the parts of the system: `Bytes`, `Fsm`, `Codec`, `WireFormat`,
`CodecBuffer`, `Auth`, `AuthBuffer`, `AuthRuns`, `Timing`, `Session`, `SessionSteps`,
`SessionRuns`, `SessionWire`, `Replay`, `SessionObject`, `Pair`, `Keepalive`, `Convergence`, `Handshake`,
`Stale`, `Echo`, `Discriminator`, `Manager`, `Reservations`, `Operations`, `ManagerObject`,
`Reconcile`, `Micro`, `Lag`, `Checksum`, `Overlay`, `OverlayBuffer`, `Ports`.

## What does not hold, and exactly when it does

Each entry names the lemma with the exact condition and, behind the semicolon, the one with
an input that fails.

* A hash-signed packet that is padded (RFC 9764) verifies only if padding does not change
  the digest: the signer hashes the packet, the verifier the whole datagram
  (`Auth.PaddedVerifiesIff`; `Auth.PaddedRefused`).
* A key store finds its own transmit key unless an additional key reuses the ID
  (`Auth.StoreFindsCurrentIff`; `Auth.ReusedIdHidesKey`).
* A state-change notification carries the diagnostic of before the transition, unless the
  path was lost: that event alone stores its diagnostic first
  (`SessionRuns.AnnouncedDiagIff`; `SessionRuns.StartedAnnouncesOldDiag`).
* Setting AdminDown past a full control channel leaves the event loop with a stale copy of
  the state. The loop's invariant survives only if nothing changed, and the next event that
  would have moved the stale copy, unless it is the command itself, undoes the AdminDown
  (`SessionSteps.DirectStoreKeepsIff`, `SessionRuns.DirectStoreSurvivesIff`;
  `Handshake.DirectStoreUndone`).
* A passive session speaks unheard when it is taken down from Down
  (`SessionSteps.PassiveSpeaksIff`; `SessionRuns.StartedPassiveSpeaks`).
* Keepalives fit the peer's Detection Time exactly when truncation to microseconds does not
  shorten the announced interval below the longest jittered one (`Timing.KeepaliveFitsIff`,
  `Timing.KeepaliveNeedsWholeMicros`; `Timing.LostNanosecond`).
* A Required Min RX Interval below a microsecond passes validation, goes out as zero, and
  silences the peer's periodic packets (`Keepalive.KeepsSendingIff`;
  `Handshake.HalfMicrosecondReached`).
* Packets that overtake one another can take a session that is Up back to Down: an old one
  that says Down is enough (`Convergence.FallsBackIff`; `Stale.OldPacketFallsBack`).
* The counter of unsolicited sessions is the number of reservations in use plus those lost.
  It is exact as long as none is lost, and three things lose one: a reservation made while
  no sender is configured, a marking that finds its session destroyed in the meantime or
  marked already, and a Close that drops marked sessions
  (`Reservations.CounterConserved`, `Reservations.LeaksIff`, `Reservations.CounterExactIff`;
  `Reservations.LeakWithoutSender`, `Reservations.LeakByRace`, `Reservations.LeakByClose`).
* Without a limit on unsolicited sessions the counter is an upper bound until it leaves 32
  bits (`Reservations.UnlimitedReserveSafeIff`; `Reservations.OverflowBreaksTheBound`).
* A reload leaves a session in place exactly if the string that the manager itself would
  form is wanted, or stands for another session; an address that is spelled differently
  costs the session its entry, its discriminator and its state (`Reconcile.StaysIff`,
  `Reconcile.OtherStringReplaces`; `Reconcile.RewordedKeyReplaces`).
* A link is in the aggregation group exactly while it is Up only if the last call that
  succeeded asked for the same as the last one made: a call that fails is not repeated
  (`Lag.BackendFollowsState`; `Lag.FailedCallLeavesLink`).
* The Detection Time of an echo session is exact unless it leaves 64 bits
  (`Echo.DetectionExactIff`; `Echo.DetectionOverflows`).

Where comments and code disagree the model follows the code: an echo session that is Up puts
its own discriminator into Your Discriminator, although the comment at
internal/bfd/echo.go:426-428 says zero.

## Model

| member | source | states |
|---|---|---|
| `Fsm.TableRefinesRfc` | internal/bfd/fsm.go:213-373 | for every state, diagnostic and received state, the table's transition and its diagnostic actions give the state and diagnostic of the pseudocode of section 6.8.6 of RFC 5880, which is written down independently |
| `Fsm.LocalEvents` | internal/bfd/fsm.go:213-373 | no event but the operator's leaves AdminDown, for Down and without a packet; only Init and Up time out, to Down; the administrative event always ends in AdminDown |
| `Fsm.FsmArray.Fill` | internal/bfd/fsm.go:186-194 | filling the lookup array from the table, in any iteration order, leaves exactly the table's entries valid |
| `Fsm.FsmArray.Apply` | internal/bfd/fsm.go:389-414 | the array lookup answers what the table answers, unlisted pairs included |
| `Codec.RoundTrip` | internal/bfd/packet.go:449-746 | decoding an encoded well-formed packet of any authentication type, followed by any bytes, returns the packet with its Length filled in |
| `Codec.EncodedAcceptedIff` | internal/bfd/packet.go:579-677 | of the packets that can be laid out, the decoder accepts exactly those with a valid header |
| `Codec.FlagWithoutSection` | internal/bfd/packet.go:579-707 | a packet with the A bit and no section is never accepted |
| `Codec.NormalForm` | internal/bfd/packet.go:449-746 | re-encoding any accepted buffer keeps every byte except Length and the reserved byte of a hash section, drops what follows the section, and decodes to the same packet |
| `WireFormat.EncodeWrites` | internal/bfd/packet.go:449-554 | a well-formed packet is encoded to 32 plus the diagnostic, to 0, 64, 128 or 192 for AdminDown, Down, Init and Up plus 32, 16, 8, 4, 2 and 1 for P, F, C, A, D and M, to the multiplier, the total length and five big-endian words, and to a section of type 1, or of types 2-3 with 24 and 4-5 with 28 bytes, all at literal offsets |
| `WireFormat.DecodeReads` | internal/bfd/packet.go:579-746 | every accepted buffer is, by the same literal numbers, the layout of the packet it is decoded to; its version is 1 and its length byte 3 |
| `WireFormat.HeaderRefusals` | internal/bfd/packet.go:579-677 | which error each buffer gets, as conditions on its bytes in the order of steps 1-7 of section 6.8.6 of RFC 5880, and that nothing else is refused |
| `WireFormat.SectionRefusals` | internal/bfd/packet.go:681-746 | the same for the bytes of the authentication section |
| `CodecBuffer.BufferHoldsEncoding` | internal/bfd/packet.go:449-554 | after encoding, the caller's buffer is the encoding followed by its old contents: nothing stale inside the packet, nothing touched behind it |
| `CodecBuffer.EncodedLength` | internal/bfd/packet.go:449-518 | byte 3 of every encoding is its length, at most 64 |
| `CodecBuffer.MarshalSection` | internal/bfd/packet.go:522-554 | refuses a section that does not fit before anything is written; writes each kind of section in place; rejects unknown types, after having written type and length |
| `CodecBuffer.Marshal` | internal/bfd/packet.go:449-518 | refuses a small buffer untouched; otherwise leaves exactly the prescribed buffer and reports its length or the invalid type; a well-formed packet is then laid out in the buffer byte for byte as section 4 of RFC 5880 numbers it, its length in byte 3 |
| `CodecBuffer.PacketSlot.Unmarshal` | internal/bfd/packet.go:579-677 | the decoder, filling a reused record field by field, reports what the specification reports and on success leaves exactly the decoded packet, whatever the record held, and the buffer is that packet's layout |
| `Auth.NewKeyStore` | internal/bfd/auth.go:102-120 | succeeds exactly if every key is valid, and then holds each key under its ID, the last one winning; otherwise reports the error of the first invalid one |
| `Auth.KeyUsableIff` | internal/bfd/auth.go:136-152 | a key is usable exactly if its type is 1-3 with 1-16 bytes of secret, or 4-5 with 1-20; a wrong type is reported as such |
| `Auth.CollectLookup` | internal/bfd/auth.go:102-129 | lookup finds the last key given with that ID, or the one stored before |
| `Auth.StoreFindsCurrentIff` | internal/bfd/auth.go:102-134 | the transmit key is found under its own ID exactly if no later key with another value reuses the ID |
| `Auth.ReusedIdHidesKey` | internal/bfd/auth.go:102-134 | a concrete store whose transmit key is hidden |
| `Auth.CircularTestIsWindow` | internal/bfd/auth.go:255-259 | the circular comparison with the program's bounds decides exactly "at most 3*DetectMult ahead, and at least one when meticulous", modulo 2^32 |
| `Auth.SignedVerifies` | internal/bfd/auth.go:516-634 | with a shared key an unpadded signed packet passes every check but, possibly, the sequence window, and the receiver's sequence state becomes the packet's |
| `Auth.PaddedVerifiesIff` | internal/bfd/auth.go:693-722 | a padded hash-signed packet is accepted exactly if message and padded message have the same digest |
| `Auth.PaddedRefused` | internal/bfd/auth.go:693-722 | a padded packet whose two digests differ is refused |
| `Auth.PasswordAcceptedIff` | internal/bfd/auth.go:292-331 | a password packet is accepted exactly if it has a section of type 1, its key ID is in the store, its length is 3 plus the secret's and it carries the secret; each refusal exactly in its case |
| `Auth.HashAcceptedIff` | internal/bfd/auth.go:608-722 | a hash-signed packet is accepted exactly if type, length (24 or 28), key and sequence number are right and its digest is the hash of the received bytes with the secret, over zeros, in the digest's place; the number is then remembered |
| `Auth.HashRefusals` | internal/bfd/auth.go:608-689 | each refusal of a hash section exactly in its case |
| `WireFormat.PasswordWrites` | internal/bfd/auth.go:270-289 | a packet signed with a password ends in 1, the length, the key ID and the secret |
| `WireFormat.DigestWrites` | internal/bfd/auth.go:516-593 | a packet signed with a hash ends in the type, the length, the key ID, 0, the next sequence number modulo 2^32, and the hash of everything before it followed by the zero-padded secret |
| `AuthBuffer.AuthState.SignHash` | internal/bfd/auth.go:516-593 | in place: consumes one sequence number, leaves the encoding of the signed packet in front of the buffer's old contents, or reports a small buffer |
| `AuthBuffer.AuthState.Sign` | internal/bfd/auth.go:270-289 | returns the signed packet for every authentication type; a password touches neither buffer nor sequence |
| `AuthBuffer.AuthState.CheckSeqWindow` | internal/bfd/auth.go:667-689 | accepts exactly the numbers in the window, and every number while the sequence is unknown |
| `AuthBuffer.AuthState.VerifyDigest` | internal/bfd/auth.go:693-722 | replaces the digest by the zero-padded key in the received bytes, compares, and moves the sequence state only on a match |
| `AuthBuffer.AuthState.Verify` | internal/bfd/auth.go:292-663 | agrees with the specification on every packet and every error, changes the sequence state only on success, and leaves the received bytes as they were, or with the key in the digest slot exactly if every check but the digest passed; says outright that a password is accepted exactly if it is the named secret and a digest exactly if it is the hash of the bytes received with the secret in its place |
| `AuthBuffer.ClearSlot` | internal/bfd/auth.go:725-729 | zeroes exactly the digest slot |
| `AuthRuns.AcceptedAdvances` | internal/bfd/auth.go:667-722 | under meticulous authentication an accepted datagram moves the known sequence forward by 1 to 3*DetectMult |
| `AuthRuns.NoReplay` | internal/bfd/auth.go:667-722 | of the datagrams accepted one after another no two are equal and no two carry the same number, as long as the total advance stays below 2^32 |
| `AuthRuns.AdvanceBound` | internal/bfd/auth.go:667-689 | n accepted datagrams advance the sequence by n to 765*n |
| `AuthRuns.DeliveryAcceptedIff` | internal/bfd/auth.go:516-689 | after a number of consecutive losses the next packet is in the window exactly if fewer than 3*DetectMult were lost |
| `AuthRuns.LossyChannelAccepts` | internal/bfd/auth.go:516-722 | on an in-order channel losing fewer than 3*DetectMult packets in a row every delivered packet is accepted, whenever the receiver forgets the sequence |
| `Timing.OnWireTruncates` | internal/bfd/session_packet.go:530-538 | an interval survives the wire exactly if it is whole microseconds, and is otherwise rounded down |
| `Timing.ReductionExact` | internal/bfd/session_packet.go:320-336 | the jitter percentage never overflows 64 bits and lies in 0-25%, in 10-25% when DetectMult is 1 |
| `Timing.JitterRange` | internal/bfd/session_packet.go:320-336 | every jittered interval lies between 75% and the longest one, which is attained |
| `Timing.JitterPercents` | internal/bfd/session_packet.go:320-336 | draw k takes off k percent, 10+k when DetectMult is 1, and the widest draw a quarter |
| `Timing.KeepaliveFitsIff` | internal/bfd/session_packet.go:230-416 | DetectMult consecutive jittered intervals fit the peer's Detection Time for all draws exactly if the longest jittered interval does not exceed the agreed one |
| `Timing.KeepaliveFits` | internal/bfd/session_packet.go:230-416 | they fit whenever truncation loses nothing that matters, with time to spare when DetectMult is 1 |
| `Timing.KeepaliveNeedsWholeMicros` | internal/bfd/session_packet.go:530-538 | for DetectMult of two or more that condition is necessary: undrawn jitter overruns |
| `Timing.LostNanosecond` | internal/bfd/session_packet.go:530-538 | a concrete configuration that overruns: one nanosecond more than a second, three times |
| `Timing.JitterRng.IntN` | internal/bfd/session_packet.go:371-393 | whatever the generator's state, the draw is below its bound |
| `Timing.JitterRng.ApplyJitter` | internal/bfd/session_packet.go:320-349 | whatever the generator's state, the result is the interval jittered by a valid draw |
| `SessionSteps.DetectionPositive` | internal/bfd/session_packet.go:248-259 | Detection Time is positive and below 2^61 for every session within its configuration bounds |
| `SessionSteps.HotIsLocked` | internal/bfd/session_packet.go:398-416 | the lock-free timer functions equal the locked ones in every state a handler leaves |
| `SessionSteps.AcceptedOutcome` | internal/bfd/session_packet.go:18-86 | every variable after an accepted packet: state and diagnostic from the RFC, remote variables from the packet, discriminator cleared on a fall to Down, notification, and the one packet sent, field by field |
| `SessionSteps.ReceptionRefinesRfc` | internal/bfd/session_packet.go:18-126 | state and diagnostic after an accepted packet are those of section 6.8.6 of RFC 5880 |
| `SessionSteps.PollAnsweredOnce` | internal/bfd/session_packet.go:61-85 | a packet with Poll causes exactly one transmit attempt, with Final; one without causes at most one, without Final; nothing stays pending |
| `SessionSteps.FinalEndsPoll` | internal/bfd/session_packet.go:425-445 | a Final ends the Poll Sequence and puts exactly the waiting parameters in force; no other packet does |
| `SessionSteps.AcceptedUses` | internal/bfd/session_packet.go:425-486 | an accepted packet uses one sequence number for each packet sent and, if it ends a Poll Sequence, one more for the packet then rebuilt |
| `SessionSteps.RecvKeeps` | internal/bfd/session_packet.go:18-86 | handling any packet keeps the session invariant: cached state, last heard state, discriminator, deadline, connected notifications, decodable transmissions |
| `SessionSteps.TxTimerKeeps` | internal/bfd/session_loop.go:124-144 | so does the transmit timer |
| `SessionSteps.DetectTimerKeeps` | internal/bfd/session_loop.go:180-215 | so does the detection timer |
| `SessionSteps.AdminDownKeeps` | internal/bfd/session_loop.go:94-102 | so does the administrative command |
| `SessionSteps.PathDownKeeps` | internal/bfd/session_loop.go:104-117 | so does the path-down command |
| `SessionSteps.FreshKeeps` | internal/bfd/session.go:419-484 | a session created from a valid configuration and started satisfies the invariant, with its timer ahead |
| `SessionSteps.ExpiryOutcome` | internal/bfd/session_loop.go:180-195 | an expired timer takes Init and Up to Down with diagnostic 1, forgets the peer, sends nothing; other states stay |
| `SessionSteps.PathDownOutcome` | internal/bfd/session_loop.go:104-117 | Init and Up go Down with diagnostic 5 and one packet that says so; otherwise only the diagnostic changes |
| `SessionSteps.AdminDownOutcome` | internal/bfd/session_loop.go:94-102 | the session ends in AdminDown with diagnostic 7, and one packet says so unless it was there already |
| `SessionSteps.PeriodicIff` | internal/bfd/session_loop.go:131-144 | the timer sends one packet exactly if the peer wants packets and, on the passive side, has been heard; the packet says state, diagnostic and the peer's discriminator, without Final |
| `SessionSteps.PassiveSpeaksIff` | internal/bfd/session_loop.go:94-144 | an unheard passive session is silent through timers and path loss, and speaks on an administrative command exactly from Down |
| `SessionSteps.SlowUntilUp` | internal/bfd/session_packet.go:490-522 | until Up neither the interval used nor the one announced is below one second |
| `SessionSteps.WireDecodes` | internal/bfd/session_loop.go:150-171 | the bytes of a transmission, signed and padded, decode to the signed packet, which differs from the built one in its section only |
| `SessionSteps.DirectStoreKeepsIff` | internal/bfd/session.go:725-738 | storing AdminDown directly keeps the invariant exactly if the session was AdminDown |
| `SessionRuns.EveryConfigRuns` | internal/bfd/session.go:419-530 | every configuration that passes validation begins a history of the timed state machine, from Down or from an AdminDown set before the start |
| `SessionRuns.RunInvariant` | internal/bfd/session_loop.go:52-76 | in every timed history the session invariant holds, deadlines lie ahead, and a known sequence has its timer between one and three Detection Times after the last packet |
| `SessionRuns.SilenceIsBounded` | internal/bfd/session_loop.go:180-195 | in Init or Up the detection deadline is the last accepted packet plus the larger of the required interval and the one the peer announced, times the peer's multiplier; so the session is never longer without a valid packet |
| `SessionRuns.AcceptedDeadline` | internal/bfd/session_packet.go:409-416 | an accepted packet, in whatever state, sets the detection deadline to now plus the larger of the required interval and 1000 times the microseconds it announces, times its own multiplier |
| `SessionRuns.StartDeadline` | internal/bfd/session_packet.go:409-413 | before anything is heard the deadline is the start plus the own multiplier times the own interval, at least a second |
| `SessionRuns.ArmedWithinPace` | internal/bfd/session_packet.go:271-349 | whenever the transmit timer is set, it is set to at least three quarters of what this side wants, of what the peer asked for, and of a second unless Up; and to at most the largest of them, less a tenth when the multiplier is 1 |
| `SessionRuns.PeriodicSpacing` | internal/bfd/session_loop.go:124-144 | two periodic transmissions of a history are never closer than three quarters of what the peer asked for throughout, of what this side announces, or of a second while not Up |
| `SessionRuns.KnownDroppedOnlyByTimer` | internal/bfd/session_loop.go:200-215 | only an expired detection timer, two Detection Times after the last packet, forgets the sequence |
| `SessionRuns.AuthSeqKnownLifetime` | internal/bfd/session_loop.go:200-215 | it is forgotten no earlier than two and before three times that product after the last accepted packet, through every mix of events |
| `SessionRuns.AdminDownForever` | internal/bfd/session_loop.go:52-117 | no history of the loop leaves AdminDown |
| `SessionRuns.TransmissionsDecode` | internal/bfd/session_packet.go:456-522 | every packet ever transmitted passes the decoder, and the notifications form one connected path |
| `SessionRuns.PacketsSayConfig` | internal/bfd/session_packet.go:490-522 | every packet of every history has version 1, the configured multiplier, discriminator and intervals in microseconds, at least a second unless Up, no Poll, Demand, Multipoint or Control Plane Independent bit and no Echo interval |
| `SessionWire.TransmissionBytes` | internal/bfd/session_loop.go:150-171 | the bytes of every packet of every history, at literal offsets, zero-padded to the configured size |
| `SessionWire.MovedOnlyByKeyHolder` | internal/bfd/session_packet.go:18-58 | a session with an authenticator changes on a datagram only if its bytes carry the secret that its key ID names, or the digest made with it |
| `SessionWire.MovedOnlyUnsigned` | internal/bfd/session_packet.go:95-116 | one without an authenticator changes only on datagrams without the A bit |
| `SessionRuns.SequenceWithoutGap` | internal/bfd/session_packet.go:456-486 | with a hash authenticator the k-th transmit attempt carries the k-th sequence number after the first, modulo 2^32 |
| `SessionRuns.EventLog` | internal/bfd/session_packet.go:129-160 | for every event, and whether or not the loop's copy of the state is current: when it moves the state, where to, which diagnostic it sets, and what it announces |
| `SessionRuns.AnnouncedDiagIff` | internal/bfd/session_packet.go:129-160 | an event announces one change exactly if it moves the state; the announced diagnostic is the current one exactly if the event is a path loss or sets none |
| `SessionRuns.StartedAnnouncesOldDiag` | internal/bfd/session_loop.go:94-102 | a session just started and taken down announces none while it has the administrative one |
| `SessionRuns.DirectStoreSurvivesIff` | internal/bfd/session.go:725-738 | a directly stored AdminDown outlasts an event exactly if the event would not have moved the stale state or is the command to go down |
| `SessionRuns.StartedPassiveSpeaks` | internal/bfd/session_loop.go:94-144 | a passive session just started and taken down sends one packet |
| `Replay.SessionNeverReplays` | internal/bfd/session_packet.go:18-86 | in every timed history of a session under meticulous authentication, between two moments with the sequence known throughout, no datagram and no number is accepted twice while the total advance stays below 2^32 |
| `SessionObject.CheckedIff` | internal/bfd/session.go:487-550 | the configuration checks let through exactly the configurations that the theorems start from |
| `SessionObject.ObjectionsAreTrue` | internal/bfd/session.go:487-550 | each objection is made only if what it names is out of its literal bounds, and none only if nothing is |
| `SessionObject.NewSession` | internal/bfd/session.go:419-484 | reports the first objection of the checks, in their order, unknown session types and roles included, or a failed random source, and otherwise returns the session of the specification: Down, nothing heard or sent, with the discriminator, multiplier, padded size, intervals, keys and random sequence number given, sending on its first timer exactly if the role given is 1 |
| `SessionObject.LiveSession.constructor` | internal/bfd/session.go:419-484 | a new object is the new session of the specification, its first packet built |
| `SessionObject.LiveSession.RebuildCachedPacket` | internal/bfd/session_packet.go:456-522 | the buffer begins with the encoding of exactly the next transmission; the pending Final and one sequence number are consumed |
| `SessionObject.LiveSession.SignCachedPacket` | internal/bfd/session_packet.go:472-486 | the buffer begins with the encoding of the signed packet |
| `SessionObject.LiveSession.PadCachedPacket` | internal/bfd/session_loop.go:150-163 | the bytes handed over are the packet followed by zeros up to the padded size |
| `SessionObject.LiveSession.SendControl` | internal/bfd/session_loop.go:150-171 | one more transmission is logged, and its bytes are those of the specification |
| `SessionObject.LiveSession.ResetTxTimer` | internal/bfd/session_packet.go:271-277 | the next deadline is the jittered interval for some valid draw, between three quarters of and the whole of the largest of the own interval, the peer's, and a second unless Up |
| `SessionObject.LiveSession.ExecuteFsmActions` | internal/bfd/session_packet.go:129-194 | state and notification first, then the actions in order; the transmit timer is set exactly if an action says so |
| `SessionObject.LiveSession.TerminatePollSequence` | internal/bfd/session_packet.go:425-445 | does to the fields what the specification does to the value |
| `SessionObject.LiveSession.AuthenticatePacket` | internal/bfd/session_packet.go:26-41 | decides as specified; a refused packet changes nothing |
| `SessionObject.LiveSession.HandleRecvPacket` | internal/bfd/session_packet.go:18-86 | refines the specification for every packet and buffer; the transmit timer is set exactly on a transmission or state change |
| `SessionObject.LiveSession.HandleTxTimer` | internal/bfd/session_loop.go:124-144 | refines the specification and sets the next deadline |
| `SessionObject.LiveSession.HandleDetectTimer` | internal/bfd/session_loop.go:180-195 | refines the specification, timer included |
| `SessionObject.LiveSession.MaybeResetAuthSeqKnown` | internal/bfd/session_loop.go:200-215 | refines the specification |
| `SessionObject.LiveSession.HandleAdminDown` | internal/bfd/session_loop.go:94-102 | refines the specification, timer included |
| `SessionObject.LiveSession.HandlePathDown` | internal/bfd/session_loop.go:104-117 | refines the specification, timer included |
| `SessionObject.LiveSession.Step` | internal/bfd/session_loop.go:52-92 | one pass of the loop is one step of the timed state machine whose histories are proved safe |
| `SessionObject.LiveSession.RunLoop` | internal/bfd/session_loop.go:52-76 | woken by arrivals, or by whichever timer is due before, the object goes through a history of the timed state machine, with the invariant of every history at its end |
| `SessionObject.LiveSession.Serve` | internal/bfd/session_loop.go:52-76 | any sequence of arrivals, however late, leaves the session that the specification computes |
| `SessionObject.LiveSession.Select` | internal/bfd/session_loop.go:52-76 | picks the arrival, or the timer that is due before it |
| `SessionObject.LiveSession.Run` | internal/bfd/session_loop.go:23-76 | starting and running a session is such a history from its beginning |
| `SessionObject.CreateAndRun` | internal/bfd/session.go:419-484 | a configuration is objected to, or the object made from it goes through a history that begins in Down |
| `SessionObject.LiveSession.SetAdminDown` | internal/bfd/session.go:725-738 | hands the command to the loop, or stores the state directly if the loop does not run or its channel is full |
| `SessionObject.LiveSession.Begin` | internal/bfd/session_loop.go:23-49 | the loop starts from the stored state with both timers armed |
| `Pair.RunInvariant` | internal/bfd/session_packet.go:18-86 | two sessions over a losing, duplicating, reordering network: what each holds about the other was really sent by it, in every history |
| `Pair.UpMeansBothHeard` | internal/bfd/session_packet.go:18-86 | Up means that each side accepted a packet of the other, that the discriminators match, and that the peer said Init or Up to this session |
| `Pair.InFlightNamesReceiver` | internal/bfd/session_packet.go:490-522 | every packet in flight decodes, names its receiver or nobody, and in Init or Up names the receiver and comes from a session that had accepted one |
| `Convergence.HearingClimbs` | internal/bfd/fsm.go:213-373 | a packet that does not run behind an earlier one moves a session up or not at all; one that tells the peer's present state moves it to Init at least, and to Up if the peer itself has moved |
| `Convergence.NeverFallsBack` | internal/bfd/session_packet.go:18-126 | on a network that loses and repeats but keeps the order, with timers and transmissions interleaved at will, no session ever falls back while none in Init or Up times out or is taken down |
| `Convergence.ThreePacketsSuffice` | internal/bfd/session_packet.go:18-126 | three accepted packets that tell their sender's present state, to one side, back, and to the first again, bring both sides Up for the rest of the history, whatever happens before, between and after |
| `Convergence.FourPacketsAgree` | internal/bfd/session_packet.go:18-126 | one more packet to the other side, and each side also holds the other's intervals, multiplier and discriminator |
| `Convergence.FallsBackIff` | internal/bfd/fsm.go:213-373 | a session that is Up falls back exactly if it accepts a packet, however old, that says Down or AdminDown |
| `Stale.OldPacketFallsBack` | internal/bfd/fsm.go:213-373 | a history from two new sessions to both Up in which the first packet ever sent, repeated, takes one back to Down |
| `Keepalive.InTime` | internal/bfd/session_packet.go:271-287 | while variables agree, few packets are lost and delays are bounded, the receiver's detection timer is not due |
| `Keepalive.PatientIf` | internal/bfd/session_packet.go:230-259 | delays below the agreed interval are tolerated, or below what jitter leaves of it when DetectMult is 1 |
| `Keepalive.OneMoreLossOverruns` | internal/bfd/session_packet.go:230-259 | one loss in a row more than is tolerated can let the timer expire, however short the delays |
| `Keepalive.Hears` | internal/bfd/session_packet.go:18-86 | an authentic packet that reaches its addressee is accepted, and the addressee is then level with the sender's sequence |
| `Keepalive.NoFalseAlarm` | internal/bfd/session_loop.go:120-195 | two steady sessions stay Up for ever and their detection timers never become due, whatever the jitter, however many packets are on their way and however long each takes within the bound, if they keep their order and no more than DetectMult-2 in a row are lost each way |
| `Keepalive.KeepsSendingIff` | internal/bfd/session_loop.go:131-144 | an Up session sends periodic packets exactly if the peer's Required Min RX Interval is a microsecond or more |
| `Handshake.HandshakeCompletes` | internal/bfd/session_packet.go:18-126 | two fresh compatible sessions, authenticated or not, are Up with each other's variables, and level with each other's sequence numbers, once four packets got through with no other event between; Convergence.FourPacketsAgree has the interleavings |
| `Handshake.HandshakeLeadsToSteady` | internal/bfd/session_packet.go:18-287 | the pair then satisfies the conditions of the no-false-alarm theorem |
| `Handshake.SteadyPairExists` | internal/bfd/session_packet.go:18-287 | such pairs exist: two concrete sessions, carried through the handshake |
| `Handshake.DirectStoreUndone` | internal/bfd/session.go:725-738 | a session carried through the handshake whose directly stored AdminDown breaks the invariant and is undone by the detection timer |
| `Handshake.HalfMicrosecondReached` | internal/bfd/session_packet.go:530-538 | two sessions carried through the handshake, one of which wants packets every 500 nanoseconds and is sent none |
| `Discriminator.DiscriminatorAllocator.Allocate` | internal/bfd/discriminator.go:55-87 | a fresh nonzero discriminator is taken exactly if one of 100 draws yields one before the random source fails; each error exactly in its case |
| `Discriminator.DiscriminatorAllocator.Release` | internal/bfd/discriminator.go:94-99 | frees that discriminator and no other |
| `Manager.DiscriminatorsSafe` | internal/bfd/manager_session.go:97-195 | in every interleaving of create, destroy and close of both kinds the indexes agree and every taken discriminator is nonzero and has exactly one owner |
| `Manager.NothingLeaks` | internal/bfd/manager.go:486-514 | while no Close is under way the taken discriminators are exactly the live ones plus those in flight, disjointly; at rest, exactly the live ones |
| `Reservations.StepConserves` | internal/bfd/manager_session.go:374-439 | every step of every operation changes the counter by as many as it adds holders of reservations plus those it loses |
| `Reservations.CounterConserved` | internal/bfd/unsolicited.go:126-159 | in every interleaving the counter is the number of holders, pending or live, plus the reservations lost so far |
| `Reservations.LeaksIff` | internal/bfd/manager_session.go:403-439 | a step loses reservations exactly if it gives up for want of a sender, marks a session that is gone or marked already, or ends a Close over marked sessions |
| `Reservations.StepExactIff` | internal/bfd/manager_session.go:374-439 | from an exact counter a step leads to an exact one exactly if it loses nothing |
| `Reservations.NothingLostIff` | internal/bfd/unsolicited.go:126-159 | over a history nothing is lost exactly if no step loses any |
| `Reservations.CounterExactIff` | internal/bfd/unsolicited.go:126-159 | the counter is the number of holders exactly if nothing was lost |
| `Reservations.AdmissionLimited` | internal/bfd/unsolicited.go:126-159 | live unsolicited sessions plus pending reservations never exceed the counter, the counter never exceeds a positive limit, and release never meets zero |
| `Reservations.UnlimitedReserveSafeIff` | internal/bfd/unsolicited.go:126-134 | without a limit a reservation keeps that bound exactly while the counter is below 2^31-1 |
| `Reservations.OverflowBreaksTheBound` | internal/bfd/unsolicited.go:126-134 | a history from the start to 2^31-1, where the next reservation makes the counter negative |
| `Reservations.LeakWithoutSender` | internal/bfd/manager_session.go:403-409 | a history from the start that loses a reservation for want of a sender |
| `Reservations.LeakByRace` | internal/bfd/manager_session.go:411-439 | a history from the start in which a session is destroyed between its entry and its marking |
| `Reservations.LeakByClose` | internal/bfd/manager.go:486-514 | a history from the start in which Close drops a marked session |
| `Operations.CreateLeads` | internal/bfd/manager_session.go:23-126 | the steps of a creation lead to one entry more |
| `Operations.DestroyLeads` | internal/bfd/manager_session.go:156-195 | the steps of a destruction lead to one entry less, its discriminator free and its reservation given back |
| `Operations.AdmitLeads` | internal/bfd/manager_session.go:374-439 | the steps of an admission lead to one marked entry more and one reservation more |
| `Operations.CloseLeads` | internal/bfd/manager.go:486-514 | the steps of Close, discriminator by discriminator, lead to empty tables and an unchanged counter |
| `Operations.HistoryGoesOn` | internal/bfd/manager_session.go:23-195 | such steps continue any history, so that every theorem about histories applies to them |
| `Operations.ReachableSafe` | internal/bfd/manager_session.go:97-195 | where histories lead, the indexes agree and every taken discriminator has exactly one owner |
| `Manager.EnterCoherent` | internal/bfd/manager_session.go:97-126 | registering under unused keys keeps both indexes on the same entries |
| `Manager.RemoveCoherent` | internal/bfd/manager_session.go:156-171 | so does removing |
| `Manager.MarkCoherent` | internal/bfd/manager_session.go:432-439 | so does marking |
| `ManagerObject.SessionManager.CreateSession` | internal/bfd/manager_session.go:23-126 | the refusal of the first failing check, and then nothing is left behind; or one entry more under both keys, with the configured session, sharing nothing with the others; a sequence of steps of the interleaving model |
| `ManagerObject.SessionManager.DestroySession` | internal/bfd/manager_session.go:156-195 | removes that session from both indexes, frees its discriminator and gives back the reservation of an unsolicited one, or reports it missing; a sequence of steps of the interleaving model |
| `ManagerObject.SessionManager.Reserve` | internal/bfd/unsolicited.go:126-144 | refuses by policy or at the limit, and otherwise counts one more |
| `ManagerObject.SessionManager.ReleaseReservation` | internal/bfd/unsolicited.go:149-159 | counts one less, but never below zero |
| `ManagerObject.SessionManager.CreateMarked` | internal/bfd/manager_session.go:411-439 | the created entry is marked; a failure leaves the tables alone |
| `ManagerObject.SessionManager.TryCreateUnsolicited` | internal/bfd/manager_session.go:374-430 | the first refusal in order, policy, limit, sender, then those of a creation, or a marked, passive session for that peer with the policy's multiplier and intervals; what the counter is left at in each case; a sequence of steps of the interleaving model |
| `ManagerObject.UnsolicitedIsPassive` | internal/bfd/manager_session.go:391-401 | the session for a peer that has spoken first has the policy's multiplier and intervals, each in its place, no padding and no authentication, and is silent on its timer |
| `ManagerObject.CountAfterIs` | internal/bfd/manager_session.go:374-430 | the counter is raised by a session and by a call that finds no sender, and by nothing else |
| `ManagerObject.RefusalsAreTrue` | internal/bfd/manager_session.go:23-95 | each refusal of a creation is given only if what it names is wrong |
| `ManagerObject.EchoRefusalsAreTrue` | internal/bfd/manager_echo.go:20-63 | the same for echo sessions |
| `ManagerObject.SessionManager.UnsolicitedRefusalsAreTrue` | internal/bfd/manager_session.go:374-430 | each refusal of an unsolicited session is given only if what it names is wrong; the limit only if one is set |
| `ManagerObject.SessionManager.DemuxWithWire` | internal/bfd/manager_session.go:314-372 | the packet is handed to the session that it is for, or to the new one that it starts, and is the first that one hears; otherwise the first refusal in order; no other session hears of it |
| `ManagerObject.SessionManager.Deliver` | internal/bfd/manager_session.go:329-342 | a session that is handed a packet does with it what its loop does, and no field of any other session changes |
| `ManagerObject.SessionManager.CreateEchoSession` | internal/bfd/manager_echo.go:20-63 | the first refusal in order, and then nothing is left behind; or one new echo session with the given parameters under a discriminator unused by both kinds, duplicates of a peer allowed; a sequence of steps of the interleaving model |
| `ManagerObject.SessionManager.DestroyEchoSession` | internal/bfd/manager_echo.go:70-92 | removes it and frees its discriminator, or reports it missing |
| `ManagerObject.SessionManager.DemuxEcho` | internal/bfd/manager_echo.go:101-115 | the session of that discriminator is signalled, unless its channel is full, and no other one is; no match exactly if no session has it |
| `ManagerObject.SessionManager.ReceiveEcho` | internal/netio/echo_receiver.go:101-132 | a datagram signals exactly the session whose discriminator it carries, if it decodes |
| `ManagerObject.SessionManager.EchoComesHome` | internal/netio/echo_receiver.go:101-132 | the bytes of any packet that an echo session ever sent, with any bytes behind them, signal that same object and no other, and when its loop takes the signal it has heard an echo |
| `ManagerObject.SessionManager.Close` | internal/bfd/manager.go:486-514 | empties the indexes and frees every discriminator, in any iteration order; a sequence of steps of the interleaving model |
| `ManagerObject.SessionManager.Demux` | internal/bfd/manager_session.go:277-310 | a packet that names a session reaches that one or none; one that names nobody reaches the session of its addresses; no match exactly if there is none |
| `ManagerObject.SessionManager.ValidIsCoherent` | internal/bfd/manager_session.go:97-195 | the object's tables are coherent in the sense of the interleaving model |
| `Reconcile.KeyStringInjective` | internal/bfd/manager_session.go:622-633 | key strings determine their keys when addresses hold no separator |
| `Reconcile.LastRequestCounts` | internal/bfd/manager_session.go:555-570 | of the requests with one key string the last one is what is wanted |
| `Reconcile.SessionKeySet` | internal/bfd/manager_session.go:622-633 | the strings are exactly those of the sessions, each with its discriminator, in any iteration order |
| `Reconcile.DestroyUnwanted` | internal/bfd/manager_session.go:566-587 | destroys exactly the unwanted sessions, counts them, and cannot fail |
| `Reconcile.CreateMissing` | internal/bfd/manager_session.go:590-606 | of the strings that are not current each is made or reported, each once; kept entries stay, a made key was free, and a reported request would be refused again |
| `Reconcile.ReconcileSessions` | internal/bfd/manager_session.go:555-618 | for any strings and any sessions: what is there is what stayed and what was made; both counts are right; every missing string was made or reported, and a reported one would be refused again |
| `Reconcile.StaysIff` | internal/bfd/manager_session.go:566-587 | a session stays in place exactly if its string is wanted or stands for another session |
| `Reconcile.CanonicalOutcome` | internal/bfd/manager_session.go:555-618 | with the strings that the manager itself forms, wanted sessions keep their entries, nothing unwanted is left, the counts are those of the set differences, the reported strings are exactly those of the sessions still missing, and the desired set is left as it is |
| `Reconcile.OtherStringReplaces` | internal/bfd/manager_session.go:555-618 | among any sessions, one whose string is not wanted is destroyed, even if it is wanted under other strings |
| `Reconcile.RewordedKeyReplaces` | internal/bfd/manager_session.go:555-618 | so is one whose address is spelled differently, on a concrete one |
| `Echo.EchoTransitions` | internal/bfd/echo.go:346-404 | an echo brings the session Up, a timeout Down with diagnostic 2, each change announced with the new diagnostic; a packet sent says where the session stands |
| `Echo.EchoRunInvariant` | internal/bfd/echo.go:316-338 | in every history notifications are connected, the diagnostic explains the state, and every packet is well formed and says the session's discriminator, multiplier and interval, names itself as the peer while Up, and sets no flag |
| `Echo.EchoSilenceIsBounded` | internal/bfd/echo.go:346-375 | Up means an echo returned within the last Detection Time, if that fits 64 bits |
| `Echo.DetectionExactIff` | internal/bfd/echo.go:236-238 | the Detection Time is the product exactly if the product fits 64 bits |
| `Echo.DetectionOverflows` | internal/bfd/echo.go:236-238 | twice 2^62 nanoseconds come out as -2^63 |
| `Echo.EchoPacketsDecode` | internal/bfd/echo.go:413-452 | every packet an echo session ever sends decodes, whatever trails it, and carries the session's discriminator |
| `Echo.NewEchoSession` | internal/bfd/echo.go:142-200 | each objection exactly in its case and order; otherwise the new session of the specification |
| `Echo.EchoSession.Send` | internal/bfd/echo.go:413-452 | the bytes handed over are the encoding of the session's packet |
| `Echo.EchoSession.HandleEchoRecv` | internal/bfd/echo.go:346-361 | refines the specification |
| `Echo.EchoSession.RecvEcho` | internal/bfd/echo.go:275-281 | one signal more, unless sixteen are waiting |
| `Echo.EchoSession.TakeSignal` | internal/bfd/echo.go:316-338 | the loop takes a signal and has heard an echo |
| `Echo.EchoSession.HandleDetectTimeout` | internal/bfd/echo.go:369-375 | refines the specification |
| `Micro.Validate` | internal/bfd/micro.go:211-232 | accepts exactly nonempty, distinct member lists with a threshold in range; each error in its case |
| `Micro.NewMicroGroup` | internal/bfd/micro.go:182-208 | a group with all members Down and right counters, exactly for a valid configuration |
| `Micro.GroupHistory` | internal/bfd/micro.go:247-379 | after every sequence of adds, removals and updates the counter is the number of Up members and the aggregate its comparison with the threshold |
| `Micro.ApplyOutcome` | internal/bfd/micro.go:247-379 | an operation concerns its own link: added Down, removed, or given the state and, with a new state, the discriminator; every other link and the threshold stay |
| `Micro.MicroGroup.AddMember` | internal/bfd/micro.go:247-267 | adds a Down member or reports it present |
| `Micro.MicroGroup.RemoveMember` | internal/bfd/micro.go:274-316 | removes the member and reports exactly the flips of the aggregate |
| `Micro.MicroGroup.UpdateMemberState` | internal/bfd/micro.go:327-379 | sets the member's state and reports exactly the flips of the aggregate |
| `Lag.BackendFollowsState` | internal/bfd/manager_micro.go:100-157 | if no report was dropped, a link is in the backend exactly while it is Up if and only if the last call that succeeded for it asked for the same as the last one made |
| `Lag.BackendFollowsReports` | internal/bfd/manager_micro.go:100-157 | in enforce mode with default actions, after every history of reports and failing calls, member states are the latest, counters are right, and each link is in the backend exactly if the calls that succeeded say so |
| `Lag.FailedCallLeavesLink` | internal/bfd/manager_micro.go:131-157 | a link that goes Down while the call fails stays |
| `Lag.OnlyEnforceActs` | internal/netio/lag_actuator.go:100-145 | outside enforce mode the backend never changes |
| `Lag.ActedIs` | internal/netio/lag_actuator.go:100-145 | for any configuration: a working call in enforce mode puts a link that is Up in or out as the up action says and one that leaves Up as the down action says; no other port is touched |
| `Lag.Dispatcher.HandleMemberEvent` | internal/netio/lag_actuator.go:100-132 | applies exactly the decided action, in enforce mode and if the backend's call succeeds |
| `Lag.Dispatcher.Dispatch` | internal/bfd/manager_micro.go:100-157 | one group that owns the link, in any iteration order, handles the report, or nothing changes because none does |
| `Checksum.FoldKeeps` | internal/netio/overlay_inner.go:264-267 | folding keeps a number modulo 2^16-1 and turns only zero into zero |
| `Checksum.FoldCarries` | internal/netio/overlay_inner.go:264-267 | the folding loop ends with the one's-complement sum |
| `Checksum.HeaderChecksum` | internal/netio/overlay_inner.go:251-271 | the complement of the one's-complement sum, odd lengths included, exact up to 64 KiB and modulo the 32-bit accumulator beyond |
| `Checksum.ChecksumCompletes` | internal/netio/overlay_inner.go:251-271 | a header completed with its checksum sums up to 0xFFFF, for any header and any even position |
| `Overlay.InnerHeaderSums` | internal/netio/overlay_inner.go:110-185 | the inner IPv4 header of every packet sums up to 0xFFFF |
| `Overlay.InnerRoundTrip` | internal/netio/overlay_inner.go:110-242 | stripping a built inner packet returns payload and addresses, for every payload and port |
| `Overlay.InnerLayout` | internal/netio/overlay_inner.go:110-185 | the inner packet byte for byte: MAC addresses, IPv4 header with time to live 255 and total length, addresses, source port, 3784, UDP length, payload |
| `Overlay.ParsedIff` | internal/netio/overlay_inner.go:204-242 | which buffers the three parsers accept, as conditions on their bytes, and where they find VNI, addresses and payload |
| `Overlay.VxlanRoundTrip` | internal/netio/vxlan_conn.go:239-281 | a packet is built exactly for two IPv4 addresses and a 24-bit VNI, and parses to what went in |
| `Overlay.GeneveHeaderRoundTrip` | internal/netio/geneve.go:113-167 | a header parses back up to the width of its fields exactly if its version is 0 modulo 4 |
| `Overlay.GeneveRoundTrip` | internal/netio/geneve_conn.go:308-368 | a packet is built exactly for two IPv4 addresses and a 24-bit VNI, and parses to what went in |
| `Overlay.TunnelLayout` | internal/netio/geneve_conn.go:308-337 | the VXLAN and Geneve headers byte for byte |
| `Overlay.ParsedGeneveIs` | internal/netio/geneve.go:143-167 | each field of a parsed Geneve header, by the bytes it comes from |
| `Overlay.GeneveRefusalsAreTrue` | internal/netio/geneve_conn.go:245-278 | each refusal of an endpoint is given only if what it names is wrong |
| `Overlay.OptionsAreSkipped` | internal/netio/geneve_conn.go:341-368 | inserted options of any announced length and content leave header fields, addresses and payload as they were |
| `Overlay.EndpointTakesOwnVni` | internal/netio/geneve_conn.go:214-278 | an endpoint accepts a built packet exactly if its VNI is its own, and reports a mismatch otherwise |
| `OverlayBuffer.PutIpv4` | internal/netio/overlay_inner.go:131-166 | the header is written, summed and completed in place, nothing else touched |
| `OverlayBuffer.BuildInnerPacket` | internal/netio/overlay_inner.go:110-185 | the buffer is the specified inner packet, or the address error |
| `OverlayBuffer.MarshalVxlanHeader` | internal/netio/vxlan.go:85-103 | writes the header in place or reports the error and writes nothing |
| `OverlayBuffer.MarshalGeneveHeader` | internal/netio/geneve.go:113-140 | writes the header in place or reports the error and writes nothing |
| `OverlayBuffer.BuildVxlanPacket` | internal/netio/vxlan_conn.go:239-259 | the specified packet or the specified error |
| `OverlayBuffer.BuildGenevePacket` | internal/netio/geneve_conn.go:308-337 | the specified packet or the specified error |
| `Ports.FreeIff` | internal/netio/rawsock_linux.go:501-507 | fewer ports than the range holds are in use exactly if some port is free |
| `Ports.ProbeOrder` | internal/netio/rawsock_linux.go:510-520 | probing begins at the random offset and goes up, from 65535 on to 49152 |
| `Ports.SourcePortAllocator.Allocate` | internal/netio/rawsock_linux.go:501-526 | for every offset returns the first free port in probing order, fresh and in 49152-65535; reports exhaustion exactly if none is free, so the error behind the loop is never returned |
| `Ports.SourcePortAllocator.Release` | internal/netio/rawsock_linux.go:536-541 | frees that port and no other |

## Left out

- Keepalive.NoFalseAlarm: packets do not overtake one another; Stale.OldPacketFallsBack shows what an old one can do.
- Reconcile.ReconcileSessions: one call by itself. Calls for different subsets undo one another by design of the daemon's reload, and concurrent operations are in module Manager.
- SessionObject.NewSession: authenticators are of the five known types and key stores come from Auth.NewKeyStore.
- Timing.JitterRng.IntN: does not say which number a state yields; every result about jitter is for every valid draw.
- Reservations.AdmissionLimited: assumes the 32-bit counter does not overflow, which a limit below 2^31 guarantees; Reservations.UnlimitedReserveSafeIff says when it does.
- SessionObject.LiveSession.RunLoop: a timer fires when it is due and not later; SessionObject.LiveSession.Serve takes arrivals however late. The channels of control sessions, their capacities and dropped packets are arrivals that do not occur.
- Handshake.HandshakeCompletes: has no other event between the four packets; Convergence has the interleavings, without the sequence numbers.
- Convergence.ThreePacketsSuffice: no session in Init or Up times out on the way; when it does not is the subject of module Keepalive.
- Interface and prefix policy of unsolicited sessions: whether it admits a peer is an input.
- The cleanup timer of unsolicited sessions, interface events and draining: they call destroy, path-down and SetAdminDown, which are modelled.
- Reconciliation of echo sessions and of micro-BFD groups: the same algorithm over other keys.
- Sockets, control messages, netlink, OVSDB, D-Bus, the RPC server, the command line, the BGP, ExaBGP and HAProxy adapters, metrics, logging and configuration files.
- The alignment of intervals to common values (RFC 7419), names of enumerations, snapshots and counters: easy members.
- Starting a Poll Sequence: no code of the daemon does it; the fields are kept and FinalEndsPoll says what a Final does to them.
- Demand mode and the Echo function of RFC 5880: not implemented by the daemon.
