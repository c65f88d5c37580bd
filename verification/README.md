# RekaSerdoba: a verified model of the hard core

RekaSerdoba is a VPN with its own record layer, rekey protocol, packet fragmentation, traffic shaping, manifest
codec and crash-safe network policy. This project models those parts in Dafny 4.11 and proves what they are for.
`dafny verify dfyconfig.toml` checks all of it.

The parts that change state are classes or methods with loops, each proved equal to a specification function on
values; the theorems are about those functions, over every input, every run or every reachable state.

| files | part |
|---|---|
| `Prelude`, `Sums` | bytes, big-endian integers, sums over finite maps |
| `ReplayWindow`, `Record`, `RecordSender` | replay windows, header, frames, nonces, number allocation |
| `Rekey`, `RekeySafety`, `ServerNonces`, `RekeySession`, `ServerRecords`, `EpochPositions` | the server's record layer and rekeys: specification, whole-run safety, the object with its windows, control frames |
| `ClientCore`, `ClientSafety`, `RekaSession` | the Windows client's session: specification, whole-run safety, the object with its windows |
| `RekeyExchange`, `RekeyJoint`, `RekeyAgreement` | client and server over two FIFO queues: each message, the runs, agreement and completion |
| `RekeyProofs`, `ClientProofs` | what a record has to prove before it moves the server or the client |
| `KeySeparation`, `Transcripts` | which key and nonce each record gets, the inputs of the keyed hashes, and what one transcript at both ends means |
| `FullRekeyExchange` | the full rekey between the server and the probe |
| `Reassembly`, `FragmentRules`, `ReassemblyOrder`, `ClientReassembly`, `ClientOrder`, `PacketBatch` | fragments, what each one may do, any order of arrival, the client's variant, the batching round trip |
| `Shaping` | lifetime, quota and token bucket |
| `ServerSession` | the server's whole session: records in, packets checked, shaped and handed on, packets out |
| `Echoes`, `Migration` | the answers a session gives by itself, the frames a client may not send, what the timer does, and when a new carrier takes over |
| `ClientTunnel` | the client's packets: what it makes of records and what it sends |
| `Tunnel` | both ends together: packets in at one, out at the other |
| `Cbor`, `CborDeterminism`, `CborDecoder`, `Utf8Text` | the manifest codec, what its re-encoding test means, the decoder object |
| `NetworkPolicies` | the Windows route, DNS and firewall log as a crash-step machine |
| `Carrier`, `Admission`, `Checksum` | message framing, the admission limiter, IPv4 header checksums |

How things are modelled:

- Hashes, tags, key derivation, signatures and key agreement are uninterpreted functions (`Rekey.Primitives`). A
  sealed record is a value that opens only under the key, header and number it was sealed with.
- A traffic key stands for the key and the IV derived with it; what is proved of nonces holds for every IV.
- Integers are unbounded; every width, saturation and wrap of the sources is written out.
- Times are nanoseconds passed in as arguments; random values are arguments too.
- The specifications hold a replay window as a value (highest number and set of accepted numbers). The session
  objects hold the ring bitmaps of the two programs, and every method is proved against the specification through
  what the bitmaps represent.

What the proofs show about the code beyond the properties it was written for:

- A replay window whose highest number is 2^64 - 1 refuses everything (`SaturationRefusesFreshNumber`).
- Number allocation never repeats a number for up to 2^64 - 2^32 threads, and can with any more
  (`NeverRepeatsIff`).
- A path challenge sent between KEY_UPDATE_REQUEST and KEY_UPDATE_INIT breaks the update unless two tags coincide
  (`ChallengeInvalidatesInit`, and a reachable session in `ChallengeBreaksAnUpdate`); sent while no update is
  requested it never does (`ChallengeBeforeRequestIsHarmless`).
- The Windows client ends its session on a packet the server cut into fragments if the packet is longer than the
  negotiated MTU of 1280, though it takes whole packets of any length (`DownstreamIff`); a new session and client
  show it on every packet over 4076 bytes (`OversizedEndsSession`), which a tunnel interface may carry
  (`rekaserdoba/src/network.rs:86`).
- The documented reassembly limit of 8 MiB can never be reached: 64 incomplete packets hold less than 4 MiB
  (`MemoryNeverRefuses`).
- The token bucket forgets a debt exactly when it is asked before the time it last granted for
  (`NothingIsForgotten`, `WithoutWaitingTooMuch`); the caller waits, and then the rate bound holds.
- The re-encoding test of the manifest refuses more than RFC 8949 does: a dict with both 0 and false
  (`ZeroAndFalseRefused`).
- Installing the network policy again for the same endpoint without a recovery in between loses the undo log: no
  later recovery restores the machine (`InstallCrashSafeIff`, `InstallTwiceLosesOrigin`).
- After an installation and a recovery an adapter that took the servers its network offers has them as its own
  (`DnsModeIff`, `OfferedServersBecomeOwn`).
- After a crash between the state file and the endpoint's route, preparations and installations for that endpoint
  go through without ever adding the route (`PreparedRouteIff`, `CrashForgetsRoute`).

Where the code and `RekaSerdoba_protocol_ru.md` differ, the model follows the code:

- lines 1301-1302 let the client start the new epoch before COMMIT; the code sends data under the old epoch until
  DONE arrives, and restarts its data numbers then (`windows-client/client_core.py:616-626`);
- the frame numbers of lines 3027-3042 are a draft; the code uses those of lines 1168-1189;
- line 1070 ties a fragment identifier to one epoch; the code's reassemblers do not know epochs;
- line 1072 limits reassembly to 8 MiB, which the code tests for but can never reach.

## Model

| member | source | states |
|---|---|---|
| ReplayWindow.PlausibleIsFresh | rekaserdoba/src/record.rs:311-323 | a number passes the test exactly when it is unseen and ahead of the window or within it, except that a window at 2^64 - 1 refuses everything |
| ReplayWindow.SaturationRefusesFreshNumber | rekaserdoba/src/record.rs:311-323 | at the top of the number space a fresh number is refused |
| ReplayWindow.NoNumberAcceptedTwice | rekaserdoba/src/record.rs:325-350 | over any sequence of commits no number is accepted twice, and the window remembers exactly what it accepted |
| ReplayWindow.AdvanceKeepsRing | rekaserdoba/src/record.rs:325-345 | clearing the skipped slots and moving the highest number, by any jump, leaves the ring agreeing with the set |
| ReplayWindow.SetKeepsRing | rekaserdoba/src/record.rs:340-350 | setting one bit of the ring is adding one number to the set |
| ReplayWindow.ServerWindow.New | rekaserdoba/src/record.rs:299-309 | a window is made exactly for widths from 256 to 16384 that are multiples of 64, and is empty |
| ReplayWindow.ServerWindow.Plausible | rekaserdoba/src/record.rs:311-323 | the test on the bitmap is the test on the set |
| ReplayWindow.ServerWindow.ClearSkipped | rekaserdoba/src/record.rs:328-345 | the loop clears exactly the slots of the skipped numbers, or all of them |
| ReplayWindow.ServerWindow.CommitAuthenticated | rekaserdoba/src/record.rs:325-350 | the bitmap after a commit represents the set after it; a refused commit changes nothing and the late refusal is unreachable |
| ReplayWindow.ClientWindow.Plausible | windows-client/client_core.py:140-148 | the Python test is freshness in the set, with no bound on the numbers |
| ReplayWindow.ClientWindow.CommitAuthenticated | windows-client/client_core.py:150-169 | the Python bitmap after a commit represents the set after it; a refused commit changes nothing |
| Record.HeaderRoundTrip | rekaserdoba/src/record.rs:170-212 | every header that can be built is parsed back, whatever follows it |
| Record.HeaderCanonical | rekaserdoba/src/record.rs:186-212 | the parser accepts only what the encoder writes, so no two byte strings are one header |
| Record.ClientAcceptsUnpaddedOnly | rekaserdoba/tools/probe.py:132-153 | the client's header test accepts the server's headers exactly when the padding flag is off |
| Record.ParseFrames | rekaserdoba/src/record.rs:405-439 | the loop computes the known frames in order, skips unknown optional ones and fails on truncation and on unknown critical ones |
| Record.FramesRoundTrip | rekaserdoba/src/record.rs:358-439 | printing any frames and parsing them gives the known ones in order; it fails exactly when one is unknown and critical |
| Record.ParsersAgree | windows-client/client_core.py:781-796 | on what the ends send each other the Rust and the Python parser return the same frames |
| Record.FramesIff | rekaserdoba/src/record.rs:405-439 | the server's parser accepts exactly the printed lists of frames of types below 0x80, and returns those of types up to 6 in data and 1 to 0x13 in control records |
| Record.ClientFramesIff | windows-client/client_core.py:781-796 | the client's parser accepts exactly the printed lists of frames without flags, and returns them all |
| Record.ComputeNonce | rekaserdoba/src/record.rs:461-467 | the loop computes the nonce that NonceBits gives bit by bit |
| Record.NonceInjective | rekaserdoba/src/record.rs:461-467 | two different 64-bit numbers never give the same nonce under one IV |
| Record.NonceBits | rekaserdoba/src/record.rs:461-467 | every bit of the last eight bytes is the exclusive or of the IV's bit and the number's, and the first four bytes are the IV's |
| Record.NonceUndone | rekaserdoba/src/record.rs:461-467 | number 0 leaves the IV, and applying a number twice gives the IV back |
| RecordSender.IssuedNumbersAreDistinct | rekaserdoba/src/record.rs:225-251 | under any interleaving of fetch-and-add and store steps the numbers issued are 0, 1, 2, ... without repetition, all below 2^32, for up to 2^64 - 2^32 threads |
| RecordSender.MoreThreadsRepeatZero | rekaserdoba/src/record.rs:225-251 | for every larger number of threads some interleaving issues number 0 twice |
| RecordSender.NeverRepeatsIff | rekaserdoba/src/record.rs:225-251 | no interleaving ever repeats a number if and only if there are at most 2^64 - 2^32 threads |
| RekeySafety.ReachableShape | rekaserdoba/src/rekey.rs:67-164 | in every reachable state pending is the next epoch and previous the one before, pending implies an update was requested, an update is requested exactly while a deadline is set, and every layer's keys, kind and epoch match its state |
| RekeySafety.DispatchIsUnambiguous | rekaserdoba/src/rekey.rs:120-164 | at most one of the three epochs matches a record, so the order of the tests never matters |
| RekeySafety.EachRecordOpensAtMostOnce | rekaserdoba/src/rekey.rs:120-164 | over every adversarial run, across rotations, each (kind, epoch, number) is opened successfully at most once |
| RekeySafety.EpochsNeverComeBack | rekaserdoba/src/rekey.rs:239-303 | epochs retire once each, in increasing order, and a retired one is never current again |
| RekeySafety.OldEpochBudget | rekaserdoba/src/rekey.rs:144-164 | at most 128 records of a retired epoch are opened, none 3 s or more after it was retired |
| RekeySafety.TrafficCountersExact | rekaserdoba/src/rekey.rs:568-578 | until one overflows, the two counters are the number and total plaintext of the data records sealed or opened in the current epoch |
| RekeySafety.OpenCallEffect | rekaserdoba/src/rekey.rs:120-164 | what one open does: success only for a number not recalled, which is recalled from then on; a failed open spends none of the old epoch's budget |
| RekeySafety.CommitEffect | rekaserdoba/src/rekey.rs:239-303 | a commit either rotates the session -- pending becomes current, current becomes previous with a full budget, counters restart -- or changes nothing |
| RekeySafety.UpdateInitEffect | rekaserdoba/src/rekey.rs:166-237 | an accepted INIT installs a fresh pending epoch and nothing else |
| RekeySafety.FullInitEffect | rekaserdoba/src/rekey.rs:305-414 | an accepted full-rekey INIT installs a fresh pending epoch and nothing else, whatever the primitives return |
| RekeySafety.NextCheckIsExact | rekaserdoba/src/rekey.rs:481-566 | the next check falls exactly when a poll has something to do: time out an update under way, or ask for one for age, unless a traffic limit asks earlier |
| ServerNonces.ServerNeverReusesANonce | rekaserdoba/src/record.rs:225-251 | over every adversarial run, across rotations and answers thrown away, two records the server seals under one kind and epoch have different numbers below 2^32 and different nonces; NoNonceTwiceUnderAKey says it of keys |
| KeySeparation.KeysByLabel | rekaserdoba/src/record.rs:117-139 | over any runs every record of the server is under a key derived for "data s2c" or "control s2c", every record of the client for "data c2s" or "control c2s", as its kind says, for its session and its epoch |
| KeySeparation.EpochKeysDiffer | rekaserdoba/src/record.rs:117-139 | if the derivation tells labels and epochs apart, the four keys of an epoch are different and no epoch shares one with another |
| KeySeparation.SeparationIsPossible | rekaserdoba/src/record.rs:117-139 | a derivation into 32 bytes that tells them apart exists, so the premise excludes no session |
| KeySeparation.NoNonceTwiceUnderAKey | rekaserdoba/src/record.rs:225-251 | over any runs of both ends, over kinds, directions and epochs together, two records under one key have different nonces, except a COMMIT the client sends again unchanged |
| KeySeparation.UpdateInputTells | rekaserdoba/src/rekey.rs:598-613 | the input of the INIT tag determines session, epochs, nonce and transcript |
| KeySeparation.TagInputsDiffer | rekaserdoba/src/rekey.rs:623-628 | no two of the four confirmation tags, and no two contexts, are over one input |
| KeySeparation.SecretUsesDiffer | rekaserdoba/src/rekey.rs:194-199 | what the secret of an epoch tags and what it derives the next secrets from are never one input |
| KeySeparation.AsciiSpells | rekaserdoba/src/rekey.rs:623-628 | labels enter the hashes as their ASCII codes, so different labels are different bytes |
| RekeyProofs.OpensIff | rekaserdoba/src/rekey.rs:120-164 | a record is opened at an epoch exactly when it is what the other end would seal for it -- header, key, length, a number the window takes -- and the counters, the kind or the budget and time of that epoch allow it |
| RekeyProofs.SealedIsOpened | rekaserdoba/src/record.rs:215-296 | what one end seals, padding flag included, the other opens as it was exactly when its window takes the number; sealing fails only for length and for number 2^32 |
| RekeyProofs.AsksIff | rekaserdoba/src/rekey.rs:481-507 | an update is asked for exactly when none is under way and the epoch is 600 s old or has carried 2^20 records or 2^30 bytes; the session gives up exactly at the deadline 10 s later; either parser reads the request |
| RekeyProofs.NewSessionAsks | rekaserdoba/src/rekey.rs:81-109 | a new session asks for its first update exactly from 600 s after its start |
| RekeyProofs.BundledIsRefusedIff | rekaserdoba/src/main.rs:1723-1732 | a control record of several frames is refused exactly when one is of a type from 4 to 0x11, and then nothing was done but opening it |
| RekeyProofs.LeavesEpochIff | rekaserdoba/src/rekey.rs:239-303 | for every record the server leaves its epoch if and only if it opens in the pending one and is one frame whose body is the pending epoch and the tag under its confirmation key, COMMIT for a routine and CONFIRM for a full rekey |
| RekeyProofs.GetsPendingIff | rekaserdoba/src/rekey.rs:166-414 | for every record a session without a pending epoch gets one if and only if it opens in the current epoch and is one INIT with the tag over the transcript, or one full INIT with the client's signature over it and a shared secret that is not zero |
| Transcripts.OneTranscriptOneHistory | rekaserdoba/src/rekey.rs:645-647 | at both ends and over any runs the transcript is the hash chain over exactly the records accepted and sealed; two ends with one transcript have one history, octet for octet, unless two inputs they hashed collide |
| Transcripts.CallMoves | rekaserdoba/src/rekey.rs:166-556 | a call adds to the transcript the record that proved its message and the answer, and nothing else |
| Transcripts.EventMoves | windows-client/client_core.py:492-626 | the client adds REQUEST with its INIT, ACK with its COMMIT, and DONE, each if it proves itself, and nothing else |
| RekeySession.RekeySession.constructor | rekaserdoba/src/rekey.rs:81-109 | a new session is the specified initial one |
| RekeySession.RecordReceiver.Open | rekaserdoba/src/record.rs:270-296 | on the bitmap: context, length, plausibility and the tag are tested in this order, and only an authenticated number is committed |
| RekeySession.EpochState.OpenFrom | rekaserdoba/src/rekey.rs:591-596 | a record moves the window of its own kind and no other |
| RekeySession.RekeySession.Open | rekaserdoba/src/rekey.rs:120-164 | the method, on three epochs with bitmap windows of their own, does what the specification of open says, branch by branch, on failure too |
| RekeySession.RekeySession.Rotate | rekaserdoba/src/rekey.rs:268-303 | pending becomes current and current becomes previous, each with the windows it has, and DONE is sealed under the new epoch |
| RekeySession.RekeySession.AcceptUpdateInit | rekaserdoba/src/rekey.rs:166-237 | the method equals the specification of INIT, in its result and in the state it leaves |
| RekeySession.RekeySession.AcceptUpdateCommit | rekaserdoba/src/rekey.rs:239-303 | the method equals the specification of COMMIT, of which LeavesEpochIff says when it moves the session |
| RekeySession.RekeySession.AcceptFullRekeyInit | rekaserdoba/src/rekey.rs:305-414 | the method equals the specification of the full-rekey INIT, of which GetsPendingIff says when it begins |
| RekeySession.RekeySession.AcceptFullRekeyConfirm | rekaserdoba/src/rekey.rs:416-479 | the method equals the specification of the full-rekey confirmation |
| RekeySession.RekeySession.RequestUpdateIfDue | rekaserdoba/src/rekey.rs:481-507 | the method equals the specification of the update request, timeout included |
| RekeySession.RekeySession.SealData | rekaserdoba/src/rekey.rs:111-114 | the record is counted before it is sealed, also when sealing then fails |
| RekeySession.RekeySession.CountData | rekaserdoba/src/rekey.rs:568-578 | both counters are added to; on an overflow of the records neither is, on an overflow of the bytes the record stays counted |
| RekeySession.RekeySession.ExpirePrevious | rekaserdoba/src/rekey.rs:580-588 | the previous epoch is dropped exactly when its expiry has come |
| RekeySession.RekeySession.PathChallenge | rekaserdoba/src/rekey.rs:509-539 | the method equals the specification of the path challenge |
| RekeySession.RekeySession.AcceptPathResponse | rekaserdoba/src/rekey.rs:541-556 | the method equals the specification of the path response |
| ServerRecords.Handle | rekaserdoba/src/main.rs:1732-1803 | on the session object, each control frame is answered only in the epoch position it belongs to |
| EpochPositions.OnlyRekeyRecordsMoveEpochs | rekaserdoba/src/main.rs:1723-1803 | a session enters an epoch only on a control record of that epoch with exactly one COMMIT or CONFIRM, and gets a pending one only on a current record with exactly one INIT; nothing hidden beside other frames moves it |
| ClientSafety.ClientNeverReusesANumber | windows-client/client_core.py:438-639 | over every run two records sealed under the same kind, epoch and number are the same record, across COMMIT at number 0 and the restart of the counters |
| ClientSafety.ClientNeverReusesANonce | windows-client/client_core.py:438-639 | so two different records of one kind and epoch never share a nonce |
| ClientProofs.OpensIff | windows-client/client_core.py:453-490 | the client opens a record exactly when it is what the server would seal without padding, under the right key and with a fresh number |
| ClientProofs.BundledIsRefusedIff | windows-client/client_core.py:489-507 | the client acts on no control record of several frames and refuses it exactly when one is of a type from 4 to 0x11 |
| ClientProofs.ReceiveMovesIff | windows-client/client_core.py:453-626 | for every record the client begins an update, derives the next keys or takes them into use if and only if it opens where it has to and is one REQUEST of its epoch, one ACK or one DONE with the tag under the confirmation key |
| RekaSession.RekaSession.SendData | windows-client/client_core.py:438-451 | the method equals the specification of sending data |
| RekaSession.RekaSession.OpenAt | windows-client/client_core.py:478-490 | on the bitmap: plausibility, header and tag are tested in this order, and only an authenticated number is committed |
| RekaSession.RekaSession.Receive | windows-client/client_core.py:453-507 | the method, on bitmap windows for both epochs, does what the specification of receiving says: windows, epochs, frames and the handler chosen |
| RekaSession.RekaSession.AcceptUpdateRequest | windows-client/client_core.py:514-540 | the method equals the specification of REQUEST, changes made before a failure included |
| RekaSession.RekaSession.AcceptUpdateAck | windows-client/client_core.py:542-595 | the method equals the specification of ACK |
| RekaSession.RekaSession.AcceptUpdateDone | windows-client/client_core.py:597-626 | the method equals the specification of DONE |
| RekeyExchange.ServerAcceptsInit | rekaserdoba/src/rekey.rs:166-237 | the INIT a client builds over the server's transcript is accepted, and the pending epoch is derived from the same secret and context |
| RekeyExchange.ServerAcceptsCommit | rekaserdoba/src/rekey.rs:239-303 | the COMMIT for the pending epoch is accepted and rotates to it |
| RekeyExchange.ClientAcceptsRequest | windows-client/client_core.py:514-540 | the client answers the server's REQUEST with an INIT over the joint transcript |
| RekeyExchange.ClientAcceptsAck | windows-client/client_core.py:542-595 | the client takes the server's ACK, derives the next keys and answers COMMIT |
| RekeyExchange.ClientTakesDone | windows-client/client_core.py:597-626 | the client takes DONE under the new epoch and moves to it |
| RekeyExchange.OldDataTakenIff | rekaserdoba/src/rekey.rs:144-164 | the next data record of a retired epoch is taken if and only if its budget of 128 is not used up and its 3 s are not over |
| RekeyExchange.ChallengeInvalidatesInit | rekaserdoba/src/rekey.rs:509-539 | a challenge between REQUEST and INIT is not refused, and the INIT is then accepted exactly when the tag over the moved transcript is the same |
| RekeyExchange.ChallengeBeforeRequestIsHarmless | rekaserdoba/src/rekey.rs:509-539 | a challenge sent while no update is requested disturbs none: whatever poll follows, the INIT over the server's transcript is accepted |
| RekeyExchange.ChallengeBreaksAnUpdate | rekaserdoba/src/rekey.rs:509-539 | a new session after its first request, and primitives under which a challenge then makes the server refuse the INIT it would have taken |
| FullRekeyExchange.ServerAcceptsConfirm | rekaserdoba/src/rekey.rs:416-479 | the right confirmation is accepted, installs the pending epoch and is answered with DONE under it |
| FullRekeyExchange.ReplyIsTaken | rekaserdoba/tools/probe.py:1059-1154 | the probe takes the server's signed answer and derives the server's next secret from it |
| FullRekeyExchange.FullRekeyCompletes | rekaserdoba/tools/probe.py:1025-1176 | between a server and a probe in step the INIT is answered exactly when the shared secret is not all zero; then CONFIRM and DONE are taken and both ends have one new epoch, secret and transcript |
| RekeyAgreement.NothingIsRejected | rekaserdoba/src/rekey.rs:166-303 | in every FIFO run of server-requested updates within the stated bounds, no record and no rekey message is ever rejected |
| RekeyAgreement.EndsAgree | windows-client/client_core.py:453-626 | the server's epoch is the client's or one more, and with no update in progress and empty queues epoch, secret, transcript and keys are equal |
| RekeyAgreement.UpdatesComplete | rekaserdoba/src/rekey.rs:481-507 | from every state of every run, delivering what is on its way completes a requested update and invents none |
| RekeyAgreement.EveryEpochIsReached | rekaserdoba/src/rekey.rs:481-507 | for every 32-bit epoch there is a run from the start that completes every update up to it and leaves both ends there, at rest |
| RekeyAgreement.TakeKeepsInv | rekaserdoba/src/rekey.rs:166-303 | every step of either end keeps the joint invariant over the six phases of an update |
| Reassembly.FragmentRoundTrip | rekaserdoba/src/fragment.rs:130-155 | the encoding of a valid fragment parses back to it |
| Reassembly.ParsedIsValid | rekaserdoba/src/fragment.rs:130-155 | a body parses only when it is the encoding of a fragment that is not empty and lies within its packet |
| Reassembly.DisjointFits | rekaserdoba/src/fragment.rs:73-90 | disjoint pieces of [lo, hi) fill at most hi - lo bytes; if they fill all of it, the first starts at lo |
| Reassembly.FlattenPlaces | rekaserdoba/src/fragment.rs:91-106 | disjoint pieces of total length N in [0, N) are contiguous, and each lands at its own offset |
| Reassembly.PushKeepsInv | rekaserdoba/src/fragment.rs:45-107 | a push keeps fragments disjoint, in range and counted, at most 64 assemblies and 8 MiB; survivors are younger than 3 s; a returned packet carries every fragment at its offset |
| FragmentRules.PushMeans | rekaserdoba/src/fragment.rs:45-107 | what any fragment does: packets 3 s old go first; a new packet is refused beside 64 others; a fragment that contradicts its packet in length, bytes or place is refused and the packet given up; a repeated one changes nothing; the packet is complete exactly when every byte of it is held |
| Reassembly.ReachableInv | rekaserdoba/src/fragment.rs:37-127 | the invariant holds after any pushes of any bodies at any times |
| Reassembly.MemoryNeverRefuses | rekaserdoba/src/fragment.rs:83-86 | no push is ever refused for the memory limit |
| Reassembly.Assemble | rekaserdoba/src/fragment.rs:91-106 | the loop over the sorted fragments gives the packet; its two exits for gaps are unreachable |
| Reassembly.FragmentReassembler.Push | rekaserdoba/src/fragment.rs:45-107 | the method in place equals the specification of a push, and `memory` stays the sum of what is held |
| Reassembly.FragmentReassembler.Remove | rekaserdoba/src/fragment.rs:123-127 | removal subtracts exactly what the assembly held, so the saturating subtraction never saturates |
| Reassembly.FragmentReassembler.ExpireAt | rekaserdoba/src/fragment.rs:109-121 | exactly the assemblies of 3 s and older are removed |
| ReassemblyOrder.AnyOrderReassembles | rekaserdoba/src/fragment.rs:45-107 | the fragments of a packet, however it is cut, pushed within 3 s in any order and with any repetitions beside other packets, give nothing until the last missing one and then exactly the packet |
| ReassemblyOrder.InterleavedReassemble | rekaserdoba/src/fragment.rs:45-107 | fragments of any number of packets in any order, at any times, repeated, late or lost: every push gives exactly what a reference without a reassembler says -- the packet at its last missing part, a refusal when a packet begins beside 64 others, nothing else; parts that come again after completion or expiry begin the packet anew |
| ReassemblyOrder.NeverRefused | rekaserdoba/src/fragment.rs:57-60 | no push fails as long as the packets under way and the new ones are at most 64 |
| ClientReassembly.ClientKeepsInv | windows-client/client_core.py:65-128 | the client keeps the server's invariant, its memory bound included, without counting |
| ClientReassembly.EndsReassembleAlike | windows-client/client_core.py:65-128 | for packets within the client's limit and unless a new packet meets 64 others, client and server have the same outcome |
| ClientReassembly.OneIsFirst | windows-client/client_core.py:87-92 | the assembly given up is determined: of the oldest, the first in the order of the dict |
| ClientOrder.PushKeepsOrder | windows-client/client_core.py:65-128 | on a clock that does not go back the dict keeps the packets in the order in which they were begun, through expiry, completion, refusals and new packets |
| ClientOrder.OldestIsGivenUp | windows-client/client_core.py:84-97 | when a new packet finds 64 under way, the one given up is the first in the dict, begun before all others, and the push is what the server would do without it |
| ClientReassembly.ClientReassembler.Push | windows-client/client_core.py:65-128 | the method in place equals the specification, the order of the dict included: who is given up when 64 are under way, and where a new packet goes |
| PacketBatch.ChunksCut | rekaserdoba/src/packet_batch.rs:45-48 | chunks of one size cut a packet into non-empty parts that start at the multiples of it |
| PacketBatch.PacketSendable | rekaserdoba/src/packet_batch.rs:27-65 | a packet can be sent exactly when it has at most 65535 bytes and fits a frame or leaves room for fragments; all its frames then fit a record |
| PacketBatch.PackSplits | rekaserdoba/src/packet_batch.rs:6-25 | packing splits the frames into runs, in order, losing and repeating none |
| PacketBatch.PackFits | rekaserdoba/src/packet_batch.rs:6-25 | every run is non-empty and within the capacity, and none is closed that the next frame would have fitted into |
| PacketBatch.BatchParses | rekaserdoba/src/packet_batch.rs:6-25 | batching succeeds exactly when every packet can be sent; the records are non-empty, within capacity, and parse to the packets' frames in order |
| PacketBatch.BatchDelivers | rekaserdoba/src/packet_batch.rs:6-65 | batching, parsing and delivering, each packet's frames within 3 s of its first, returns exactly the packets in order, even if identifiers repeat |
| PacketBatch.EncodePacket | rekaserdoba/src/packet_batch.rs:27-65 | the loop over the chunks yields exactly the packet's frames as bytes, and its late failures cannot happen |
| PacketBatch.BatchPackets | rekaserdoba/src/packet_batch.rs:6-25 | the nested loops equal the specification of packing, first error included |
| Shaping.SaturationsDoNotShow | rekaserdoba/src/session.rs:75-83 | none of the saturations of the refill is ever visible |
| Shaping.WaitIsLeast | rekaserdoba/src/session.rs:85-94 | the delay is the least wait after which the refill covers the bytes |
| Shaping.DelayIsExact | rekaserdoba/src/session.rs:74-96 | a settled bucket delays a call exactly as long as the same call would have had to wait without one |
| Shaping.NothingIsForgotten | rekaserdoba/src/session.rs:84-93 | a call spends no more than there is if and only if it does not come before the time last granted for |
| Shaping.CallKeepsValid | rekaserdoba/src/session.rs:49-67 | every call keeps the policy valid; a grant is within lifetime and quota, adds to the total, and never depends on the cap of the delay |
| Shaping.GrantedIff | rekaserdoba/src/session.rs:49-96 | a call is granted if and only if it comes before the deadline, total and quota allow it and the bucket covers it before the deadline; each refusal exactly when its own test fails first |
| Shaping.QuotaLeavesRoom | rekaserdoba/src/session.rs:103-108 | a new session with a quota of 1500 bytes is granted 1024 at once, and a second later 476 more but not 477 |
| Shaping.NewSessionGrants | rekaserdoba/src/session.rs:21-47 | limits are accepted exactly in their ranges; a new session may send at once exactly the bandwidth of a second, but 16 KiB to 4 MiB, within its quota; no call is granted from its deadline on or, at first, over its quota |
| Shaping.RateBound | rekaserdoba/src/session.rs:49-96 | over any run whose caller waits, refused calls included, what is granted is at most a full bucket and the rate over the duration |
| Shaping.SessionRateBound | rekaserdoba/src/main.rs:1809-1819 | the same from call i to call j of a session for every i <= j, with the transferred total and the quota |
| Shaping.WithoutWaitingTooMuch | rekaserdoba/src/session.rs:84-93 | three calls without waiting get 48 KiB out in 16 s at 1 KiB/s, over the bound |
| Shaping.TokenBucket.ReserveBytes | rekaserdoba/src/session.rs:74-96 | the method in place equals the specification of the bucket |
| Shaping.SessionPolicy.constructor | rekaserdoba/src/session.rs:22-47 | limits that are accepted make a valid policy with a full bucket |
| Shaping.SessionPolicy.ReserveBytes | rekaserdoba/src/session.rs:49-67 | the method in place equals the specification, the emptied bucket after a refused delay included; GrantedIff says when it grants |
| ServerSession.AcceptedIffWellFormed | rekaserdoba/src/main.rs:1863-1882 | the packet test accepts exactly IPv4 packets of up to 1280 bytes from the given address whose lengths agree and whose header, as one number, is a multiple of 65535 |
| ServerSession.SessionIsMetered | rekaserdoba/src/main.rs:1339-1470 | over every session, carriers taking over and ending included: only such packets of the client's own address reach the network; the transferred total is to the byte what went both ways and within the quota; if delays are waited out, both ways together keep to the rate; the record layer is in a state the record-layer results speak of |
| ServerSession.MigrationNeedsAnswer | rekaserdoba/src/main.rs:1505-1541 | a carrier takes over only on a record under the client's control key of the current epoch, never opened before, that is one path response with the carrier's identifier and the tag over the transcript after this challenge |
| Migration.MigrationIff | rekaserdoba/src/main.rs:1505-1541 | a carrier is challenged exactly while no rekey is pending and a control record can be sealed, and takes over if and only if its answer opens in the current epoch and is one path response with its identifier and that tag |
| ServerSession.DataFramesDeliver | rekaserdoba/src/main.rs:1698-1722 | a data record that ends no session hands on exactly what reassembly makes of its frames, in order |
| ServerSession.InboundIsProcessed | rekaserdoba/src/main.rs:1723-1805 | on control records the session does what the joint runs of client and server assume, replies and errors included |
| ServerSession.OutboundIff | rekaserdoba/src/main.rs:1420-1434 | packets from the network are sent exactly when the policy grants all their bytes together, each is shorter than 65536, and the counters and numbers last for the records they make |
| Echoes.RecordIsAnswered | rekaserdoba/src/main.rs:1698-1861 | every PING before a CLOSE, every keepalive and every probe of a record is answered by one record that both parsers read as one frame, PONG, keepalive or reply, with the same body, in order; control records fail only when the numbers run out, and a data record is blamed for its frames exactly when one is not allowed |
| Echoes.TimerIff | rekaserdoba/src/main.rs:1463-1465 | the timer ends the session exactly when an update has timed out or one that is due cannot be asked for, and sends the request exactly when one is due |
| ServerSession.EstablishedSession.CheckPacket | rekaserdoba/src/main.rs:1863-1882 | the method makes the tests in the order of the source, with its own checksum loop |
| ServerSession.EstablishedSession.TakeDataFrame | rekaserdoba/src/main.rs:1700-1720 | one data frame, with everything it changes in record layer, reassembler and policy; what left before an error has left |
| ServerSession.EstablishedSession.Process | rekaserdoba/src/main.rs:1689-1807 | one record from the client, on the objects in place: opening, parsing, each frame in turn up to an error or CLOSE, with every reading of the clock of its own |
| ServerSession.EstablishedSession.SendPackets | rekaserdoba/src/main.rs:1420-1434 | packets from the network are charged all together, batched, and sealed one record after the other |
| ServerSession.EstablishedSession.Check | rekaserdoba/src/main.rs:1463-1465 | the method asks for a key update when one is due, on the objects in place, and ends the session when one timed out |
| ServerSession.EstablishedSession.TryMigration | rekaserdoba/src/main.rs:1505-1541 | the challenge is sealed and the answer opened and checked in the order of the source; whatever fails, the session goes on, with what was spent spent |
| ClientTunnel.PacketSession.ReceiveRecord | windows-client/client_core.py:453-507 | a record from the server becomes the packets of its frames, whole or reassembled, in order; a bad fragment loses those before it |
| ClientTunnel.PacketSession.SendPacketBatch | windows-client/client_core.py:417-451 | packets are packed greedily and sent, and none is sent unless all of them can be |
| ClientTunnel.SentIff | windows-client/client_core.py:417-451 | the client sends its packets exactly when each is within the MTU and fits a record, and the numbers last |
| ClientTunnel.PacketSession.MakeBatches | windows-client/client_core.py:417-431 | the loop over the packets equals the specification of packing, first error included |
| Tunnel.DownstreamIff | rekaserdoba/src/main.rs:1484-1503 | packets the server let through come out of the client, exactly and in order, if and only if each fits a frame or the client's limit; both ends stay in step |
| Tunnel.OversizedEndsSession | rekaserdoba/src/main.rs:1484-1503 | between a new session and a new client, every packet over a frame and over the client's limit is sent by the server and ends the client's session |
| Tunnel.UpstreamIff | windows-client/client_core.py:417-451 | well-formed packets within the MTU all leave the client, and they reach the network, exactly and in order, if and only if the policy grants the requests computed from the packets and the clock beforehand; both ends stay in step |
| Tunnel.AtRestInStep | windows-client/client_core.py:453-626 | after any run of updates and data, whenever it is at rest, both ends are in step in both directions |
| Cbor.HeadRoundTrip | rekaserdoba/tools/manifest.py:27-37 | every head is read back with its major type and number |
| Cbor.HeadIsShortest | rekaserdoba/tools/manifest.py:27-37 | any head that reads as a number is at least as long as the encoder's, and is the encoder's exactly when in shortest form |
| Cbor.SortIncreasing | rekaserdoba/tools/manifest.py:56 | sorting keeps the pairs, and gives distinct keys a strictly increasing order, by length and then as numbers |
| Cbor.KeyLessMeans | rekaserdoba/tools/manifest.py:56 | a key comes before another exactly when it is shorter, or as long and smaller as a big-endian number |
| Cbor.RoundTrip | rekaserdoba/tools/manifest.py:40-111 | the encoding of any Python value, followed by anything, is read as that value with dict entries in key order, and nothing more is consumed |
| CborDeterminism.DecodeEncode | rekaserdoba/tools/manifest.py:40-119 | decode(encode(v)) is v, comparing dicts as Python does |
| CborDeterminism.SameIffSameEncoding | rekaserdoba/tools/manifest.py:40-58 | two values have one encoding exactly when they are the same up to the insertion order of dicts at every depth |
| CborDeterminism.PrefixFree | rekaserdoba/tools/manifest.py:40-58 | no encoding is a proper prefix of another |
| CborDeterminism.AcceptedIffDeterministic | rekaserdoba/tools/manifest.py:289-293 | the re-encoding test accepts exactly the payloads with shortest heads and scalar keys that increase by length and then as numbers, unrepeated and unclashing at every depth, and no tags |
| CborDeterminism.DictKeysIncrease | rekaserdoba/tools/manifest.py:54-57 | in the encoding of every dict the keys increase by length and then as numbers |
| CborDeterminism.AlgorithmBeforeKeyId | rekaserdoba/tools/manifest.py:257 | the protected header has key 1 before key 4, whatever the order of the dict |
| Utf8Text.Utf8Iff | rekaserdoba/tools/manifest.py:104 | text is accepted if and only if its bytes are those of some Unicode scalar values, as section 3 of RFC 3629 spells them |
| CborDeterminism.EncoderPasses | rekaserdoba/tools/manifest.py:255-293 | whatever the encoder writes passes the test |
| CborDeterminism.ZeroAndFalseRefused | rekaserdoba/tools/manifest.py:107-108 | a map with both 0 and false is folded by the decoder and refused by the test |
| CborDeterminism.SameKeyIff | rekaserdoba/tools/manifest.py:107-108 | two keys are folded into one exactly when Python takes them for equal, through tags |
| CborDeterminism.HashableIff | rekaserdoba/tools/manifest.py:107-110 | a key is refused exactly when a list or a dict is inside its tags |
| CborDeterminism.TaggedListIsNoKey | rekaserdoba/tools/manifest.py:107-110 | a map with a tagged list as a key fails to decode |
| CborDeterminism.SimpleOrTagged | rekaserdoba/tools/manifest.py:86-111 | of the simple values the decoder takes false and true and no other |
| CborDecoder.Decoder.Take | rekaserdoba/tools/manifest.py:70-76 | taking bytes advances the cursor by exactly them, or fails without moving |
| CborDecoder.Decoder.TakeLength | rekaserdoba/tools/manifest.py:78-84 | the head's number is read from the right number of bytes; indefinite lengths are refused |
| CborDecoder.Decoder.TakeItem | rekaserdoba/tools/manifest.py:86-111 | one item is read from the cursor as specified, the cursor moves by at least a byte, and so the recursion ends |
| CborDecoder.DecodeAll | rekaserdoba/tools/manifest.py:114-119 | the whole input must be one item |
| NetworkPolicies.RecoverUndoes | windows-client/network_policy.py:144-201 | a complete recovery undoes exactly what the state file records and removes it |
| NetworkPolicies.RecoverSurvivesCrash | windows-client/network_policy.py:144-201 | a recovery cut off anywhere and run again leaves exactly the tables it would have left |
| NetworkPolicies.PrepareSurvivesCrash | windows-client/network_policy.py:15-48 | after a crash anywhere in a preparation recovery still restores the origin |
| NetworkPolicies.LogKeepsOrigin | windows-client/network_policy.py:76-94 | logging a tunnel over the file keeps the origin recoverable exactly when the tunnel part of the file was idle |
| NetworkPolicies.TunnelRecovered | windows-client/network_policy.py:76-136 | from every point after the log, failing commands and the installation's own recovery included, a recovery leaves exactly the tables the log describes |
| NetworkPolicies.InstallCrashSafeIff | windows-client/network_policy.py:50-136 | from every point of an installation, its failing commands and its own recovery included, recovery restores the origin if and only if no earlier tunnel for the endpoint was in place |
| NetworkPolicies.InstallPutsInPlace | windows-client/network_policy.py:89-136 | an installation that went through leaves the tables as prepared, with both halves routed through the adapter, the tunnel's DNS server set, the IPv6 rule, and the two port-53 rules on all other adapters if there are any |
| NetworkPolicies.RunRestores | windows-client/network_policy.py:15-201 | after any legal run of operations -- rule names are new, and no earlier tunnel for the endpoint is in place when one is installed -- crashed anywhere, one recovery restores routes, rules and DNS servers, and no route of the start is ever missing |
| NetworkPolicies.SecondInstallForgets | windows-client/network_policy.py:18-21 | after an installation that went through, a second one for the same endpoint is what the condition excludes |
| NetworkPolicies.InstallTwiceLosesOrigin | windows-client/network_policy.py:50-136 | on a machine without a state file, a recovery after one installation restores the origin; from every point of a second installation for the same endpoint on, it does not |
| NetworkPolicies.PreparedRouteIff | windows-client/network_policy.py:15-48 | a completed preparation has the endpoint's route in place if and only if it wrote the file itself or the route was there |
| NetworkPolicies.CrashForgetsRoute | windows-client/network_policy.py:18-21 | after a crash right behind the write, later preparations and installations for the endpoint succeed and the route stays missing |
| NetworkPolicies.DnsModeIff | windows-client/network_policy.py:165-177 | a recovery from any point of a first installation gives the settings exactly; they are those of the start if and only if the tunnel was not logged, or the adapter had servers of its own or none |
| NetworkPolicies.OfferedServersBecomeOwn | windows-client/network_policy.py:165-177 | an adapter with an offered server has it as its own after one installation and one recovery |
| NetworkPolicies.NetworkPolicy.Recover | windows-client/network_policy.py:144-201 | the method builds and runs the recovery script step by step up to the crash |
| NetworkPolicies.NetworkPolicy.Prepare | windows-client/network_policy.py:15-48 | the method performs the preparation step by step up to the crash; done means the endpoint's file is there, and says when its route is |
| NetworkPolicies.NetworkPolicy.Install | windows-client/network_policy.py:50-136 | the method performs the installation step by step up to the crash, recovering when a command fails; it says exactly when it is done, and then the tables are the prepared ones with the tunnel in place |
| NetworkPolicies.NetworkPolicy.Script | windows-client/network_policy.py:147-190 | the recovery script lists exactly the effects that undo the file |
| Carrier.MessagesGrow | rekaserdoba/src/main.rs:249-263 | decoding what has come and then the rest is decoding it all |
| Carrier.ChunksDoNotMatter | rekaserdoba/src/main.rs:1102-1117 | a stream decodes to the same messages and remainder however it is cut into chunks |
| Carrier.StreamDecodes | rekaserdoba/src/main.rs:249-263 | any messages, broken off inside the next one and chunked anywhere, come out in order and only a strict prefix of the next stays |
| Carrier.MessagesIff | rekaserdoba/src/main.rs:249-263 | a buffer decodes to given messages and a rest exactly when it is these messages, each of one byte up to the limit, then part of a message, or a length of zero or above the limit |
| Carrier.ReadOutMeans | rekaserdoba/src/main.rs:1102-1117 | received to its end a stream gives its messages, and is closed exactly when it ends behind one, invalid exactly when a refused length follows, and cut off otherwise |
| Carrier.LimitsAgree | rekaserdoba/tools/probe.py:261-278 | what decodes under the server's limit decodes alike under the client's |
| Carrier.H2Stream.TakeMessage | rekaserdoba/src/main.rs:249-263 | one message is cut off the buffer, or the buffer is left as it is |
| Carrier.H2Stream.Recv | rekaserdoba/src/main.rs:1102-1117 | the 1 MiB guard strikes exactly when a chunk that is needed for the next message takes the buffer over it, which takes a chunk longer than the room beside an incomplete message; otherwise the outcome depends only on the bytes to come |
| Carrier.H2Carrier.TakeBuffered | rekaserdoba/tools/probe.py:263-275 | the offset form takes the message at the offset; the dead prefix behind it is under half the buffer and under 64 KiB |
| Carrier.H2Carrier.RecvMessage | rekaserdoba/tools/probe.py:261-278 | with any batching the client returns what cutting messages off the whole stream would return, compacted |
| Admission.RunRemembers | rekaserdoba/src/main.rs:886-906 | on a monotone clock the table has at most 8192 sources and forgets no accepted attempt of the last 60 s |
| Admission.RefusedIff | rekaserdoba/src/main.rs:893-903 | a call is refused exactly when its source has 60 accepted attempts in the last 60 s, or 8192 other sources have one |
| Admission.AtMostSixty | rekaserdoba/src/main.rs:886-906 | every closed window of 60 s, wherever it starts, holds at most 60 accepted attempts of a source |
| Admission.PrunedIsWindow | rekaserdoba/src/main.rs:897-900 | dropping old attempts from the front leaves exactly those of the last 60 s |
| Admission.Limiter.CheckAdmissionRate | rekaserdoba/src/main.rs:886-906 | the method in place equals the specification of a check |
| Checksum.FoldedMeans | rekaserdoba/src/main.rs:1889-1891 | the carry loop ends in 16 bits, keeps the sum modulo 65535, and ends in zero only from zero |
| Checksum.ZeroChecksumIff | rekaserdoba/src/main.rs:1884-1893 | a header of whole words checks out exactly when, read as one number, it is a multiple of 65535 and not zero |
| Checksum.PaddedNumber | rekaserdoba/tools/probe.py:160-166 | a trailing odd byte counts as the high byte of a last word |
| Checksum.FieldAcceptedIff | rekaserdoba/src/main.rs:1884-1893 | the values of a zeroed field that make the header check out are exactly its checksum, and all ones where that is zero |
| Checksum.ProbeHeaderAccepted | rekaserdoba/tools/probe.py:160-166 | the probe's checksum put into an IPv4 header of legal length passes the server's check |
| Checksum.Ipv4Checksum | rekaserdoba/src/main.rs:1884-1893 | both loops end, the 32-bit sum does not overflow, and the result is the checksum of the words |
| Checksum.InternetChecksum | rekaserdoba/tools/probe.py:160-166 | the probe's loops compute the same, with a trailing odd byte as a high byte |

## Left out

- Cryptography: X25519, Ed25519, HKDF, HMAC, SHA-256 and ChaCha20-Poly1305 are uninterpreted functions and an ideal sealed record; nothing about their strength is claimed.
- The RS-HS/1 handshake, tokens, gates and resumption: sessions start from the secrets it yields.
- ServerSession.SessionIsMetered: the handshake before the session, the metrics and the waiting on sockets are not events of it.
- Path migration in the joint run: the Windows client does not implement it; `ChallengeInvalidatesInit` says when a challenge disturbs an update.
- Full rekeys in the joint run: the Windows client never sends one; `FullRekeyCompletes` has the exchange with the probe, without other control records in between.
- The joint run rules out by assumption what it cannot exclude: more than 128 old-epoch data records behind a COMMIT, old-epoch traffic lasting 3 s, 2^32 data records in one epoch and direction, the last epoch number, and an update that times out. The first two bounds are exact (`OldDataTakenIff`).
- The joint runs of `RekeyAgreement` treat a record as handled in an instant, and of data records only that they parse; what the server does with their frames is in `ServerSession`.
- RecordSender.IssuedNumbersAreDistinct: models sequentially consistent atomics; the relaxed ordering of the source concerns one location only.
- Shaping.SessionPolicy.constructor: requires limits the source accepts; `NewPolicy` has the two refusals. Instants do not overflow.
- Cbor.RoundTrip: Python's recursion limit is not modelled, and text is represented by its UTF-8 bytes, so strings with lone surrogates, which cannot be encoded, are not values here.
- The COSE_Sign1 envelope and its signature, manifest fields, sequence numbers and the state file around the codec.
- NetworkPolicies.RunRestores: each PowerShell command is one atomic effect, nothing else changes the tables meanwhile, and the offered DNS servers stay the same; the leftover `.new` file, the address-version checks and the obsolete `firewall` key are not modelled.
- Admission.RunRemembers: assumes a monotone clock that started more than 60 s before the first call.
- Checksum.Ipv4Checksum: requires at most 131075 bytes; the source calls it with at most 60.
- Sockets, TLS, QUIC, WebSocket, HTTP/2 flow control, TUN, metrics, the registry, carrier scoring, installers and the GUI: I/O or only easy members.
