# swan: a verified model of its protocol core

swan is an IKEv2 initiator with an ESP data plane, written in Go. This project models the parts of
it that are state machines, codecs and bit tricks, and proves properties of them. `dafny verify
dfyconfig.toml` checks everything; the Dafny files need nothing else.

Code that works by changing things step by step is modelled by classes and loops (`Actor`, `Pipeline`,
`Watcher`, `ReplayWindow`, `Outbound`, `Inbound`, `Builder`, `Reassembly`, `Reader`, ...). Each of their
methods is proved to compute a function of the old state, and the theorems are about those functions, so
they hold of the methods. Cryptography is a record of arbitrary functions (`Keying.Crypto`) with two laws:
Diffie-Hellman commutes and hashes have their length. A sealed frame is a value that carries the key
halves it was sealed with; only the matching halves open it. Timers, random draws, acknowledgements of the
data plane and the network are inputs of a step.

## What is proved

**The running actor and two ends of it.** `RunningSpec.Step` is one turn of the select loop, whatever timer
fires or packet arrives. Its invariant holds in every reachable state, its requests are numbered
consecutively and its answers are given at most once (`RunningInvariant`, `RunningRuns`,
`RunningAnswers`, `Closing`); `Actor.Run` promises all of it of the loop itself.

`TwoEnds` and `TwoChildren` put two actors over a network that keeps every frame ever sent and may deliver
any of them at any time, any number of times or never. Over every such run the two ends agree on the IKE SA
(`IkeSaAgrees`) and on the child (`ChildrenAgree`). They do so for exactly the pairs of configurations named
there: each end reads whatever the other chooses from its offers, and each can serve the other's offers or
neither can (`AgreementExactly`). Every other pair has a run that splits them, built in `Splits` and
`ChildSplits`; no rekey ever comes about between ends of which neither can serve the other (`Unserved`). When
two rekeys cross, the larger nonce prevails at both ends, for children (`Crossing`) and for IKE SAs
(`IkeCrossing`). `IkeTalk` and `ChildTalk` hold the inductive invariants, stated on what an end shows to the
other, so that each kind of turn is one small lemma; `Acts` lists the eight kinds.

These theorems relate two ends that run the same code, so they would also hold of a code that is wrong in
the same way at both. `Choices`, `Readings` and `Exchanges` therefore say what one end does with messages
from anyone: which proposal it chooses and what it echoes, which payload lists it accepts and what it reads
from them, which notification it refuses with, and which answers have any effect. Key derivation is written
out down to the hash inputs and the order in which the key material is used up (`Keying.PlusOctets`,
`IkeTalk.BothDerive`, `ChildKeyAgreement.ChildKeysFrom`, `Dataplane.MaterialUsedUp`).

**The data plane.** `MakeBeforeBreak` runs the actor together with the update watcher and the codec tables:
the active child is always in service, the replaced one still decrypts. `KeyTalk` and `Duplex` do so for both
ends at once: whenever the children mirror each other, each end encrypts with the keys and algorithms with
which the other decrypts.

**ESP.** The 64-bit window refines the set of all accepted numbers (`Replay`), and the channel built on it
delivers exactly what was sent, at most once, under any network (`EspChannel`). What a datagram consists
of, and exactly which ones are accepted, is `Esp.SentWire` and `Esp.ReceivedExactly`.

**Codecs and buffers.** SA payloads, payload chains and the authenticated prefix, SKF fragments, PEAP
fragments, stream frames, AES-CCM and the incremental checksum: each reads back exactly what was
written, for all inputs, with the condition under which it does where there is one. Since a round trip
leaves the format open, each also has a lemma that says where every octet is.

### Where the code differs from what one would expect

Each of these has a lemma that states exactly when the property holds, and where no general lemma builds the
failing input one that gives it.

- Of two ends of which only one can serve the other's offers, the end that loses a collision gives up its own
  rekey before it finds that it cannot serve the other's (control/running_rekey.go:713-760 for IKE SAs, 592-634 for
  children). The refusal makes the other end give up too; the first request, still in the network, is then
  served, and its answer finds nobody waiting. The ends stay on different SAs for good
  (`AgreementExactly.IkeAgreesExactly`, `AgreementExactly.EndsAgreeExactly`;
  aes128-sha256-sha1-prfsha1-curve25519 against aes128-sha1-sha256-prfsha1-curve25519 in `Witnesses.OneSidedSplits`).
- The identity matcher tries the literal case before the star, so a value that itself contains `*` can fail to
  match a pattern that covers it (`Identity.ExactlyWithoutStars`). A true result is always right.
- On a replaced IKE SA a copy of an answered request is replayed unless its id is 0
  (`RunningRuns.RetainedReplay`, `RetainedWitnesses.FirstRekeyNotRepeated`), and an id whose answer was evicted
  before the replacement is executed a second time (`RunningAnswers.EvictedRunsAgain`,
  `RetainedWitnesses.ExecutedTwice`). On the current SA neither can happen.
- The running allocator of message-ids wraps at 2^32 (`RunningRuns.MessageIdsIncrease`); the one used for closing
  stops before.
- A requester whose suite lists integrity transforms beside an AEAD cipher rejects the echo of that cipher
  (`Negotiation.IkeAgreement`). The suite parser excludes such suites (`SuiteParsing.ParsedWellFormed`).
- The suite parser accepts suites that can never be selected: a cipher with separate integrity whose named PRFs
  belong to another hash (`SuiteParsing.SelfSelects`, `Witnesses.NeverSelected`).
- The responder of a child rekey derives keys with the PRF of the ESP suite it matched, the requester with
  the PRF of the IKE SA: the keys agree for every keyed hash if and only if the two are the same PRF
  (`ChildKeyAgreement.SamePrfNeeded`; a configuration in `Witnesses.PrfsDiffer`).
- An install that is acknowledged too late is abandoned by the actor and applied by the data plane
  all the same: the actor keeps the old child, packets go out with the abandoned one's codec
  (`MakeBeforeBreak.LateInstallSplits`). A new child that reuses an SPI of the one it replaces is taken out of service
  with it (`MakeBeforeBreak.ServesIffFresh`).
- Re-marshalling a parsed message gives back the raw prefix exactly when the reserved bits are zero
  (`WireAad.PrefixExact`, `WireAad.ReservedBitLost`).
- The payload type of a completed fragment set is read before an expired set is dropped, so a set of a single
  fragment that arrives after an expired one is reported with the expired one's type
  (`Fragments.ReportedExactly`, `Fragments.ExpiredTypeReported`).
- Equal nonces, or nonces one of which is a prefix of the other, make both ends of a collision win
  (`RekeyExchange.CollisionDecides`).
- PEAP takes an empty message for an acknowledgement, and announces a length modulo 2^32
  (`Peap.TrainDelivers`).
- An incremental checksum update differs from recomputation exactly when the new sum is zero
  (`Checksum.UpdateExact`); the packets of the benchmark never get there (`PacketBuilder.AlwaysFresh`).
- `wire.go` says that frames beyond the datagram limit are rejected on reading; the length field has 16 bits and the limit
  is 65535, so there are none.
- The SPI of the peer's new child is taken from its first proposal, whichever is chosen
  (control/running_rekey.go:696-701). Both are the same in the offers this code makes
  (`ChildNegotiation.ChildAgreement`).

## Model

| member | source | states |
|---|---|---|
| Bytes.BigEndian16 | wire/be.go:20-23 | two octets are written most significant first |
| Bytes.BigEndian32 | wire/be.go:25-30 | four octets are written most significant first |
| Bytes.BigEndian64 | wire/be.go:32-41 | eight octets are written as two words, the higher one first |
| SaPayload.RoundTrip | wire/payload/sa.go:16-58 | decoding an encoded SA gives the same SA with nothing left over, exactly when it has a proposal and every proposal has a transform |
| SaPayload.ProposalsRoundTrip | wire/payload/sa.go:25-58 | the proposal chain round trip with the more/last markers; a proposal without transforms makes the whole list unreadable |
| SaPayload.ProposalRoundTrip | wire/payload/transform.go:70-160 | one proposal is read back with the octets behind it untouched, exactly when it has a transform |
| SaPayload.TransformsRoundTrip | wire/payload/transform.go:30-64 | a counted transform chain is read back, whatever follows |
| SaPayload.TransformRoundTrip | wire/payload/transform.go:30-64 | one transform, its attributes and the rest |
| SaPayload.AppendTransform | wire/payload/transform.go:30-44 | the append-and-patch encoder appends exactly the encoding and keeps what was there |
| SaPayload.AppendProposal | wire/payload/transform.go:70-99 | the same for a proposal, its length patched in afterwards |
| SaPayload.AppendSA | wire/payload/sa.go:16-21 | the loop over proposals appends the encoding of the whole SA |
| SaPayload.ParseProposal | wire/payload/transform.go:103-160 | the counted loop computes the recursive decoder, errors included |
| SaPayload.ParseSA | wire/payload/sa.go:25-58 | the cursor loop computes the recursive decoder, errors included |
| SaPayload.KeyLengthRoundTrip | wire/payload/transform.go:164-184 | a key length attribute is the octets 0x80, 14 and the bits, and is read back for every 16-bit length |
| SaPayload.TransformLayout | wire/payload/transform.go:30-44 | where the more marker, length, type, id and attributes of a transform are |
| SaPayload.TransformsLayout | wire/payload/transform.go:70-99 | transform k of a list stands behind the k before it, and only the last is marked last |
| SaPayload.ProposalLayout | wire/payload/transform.go:70-99 | where number, protocol, SPI size, count, SPI and transforms of a proposal are, and its length |
| Suite.EncryptionSizes | xcrypto/cipher.go:34-76 | exactly which transform ids and key lengths name a cipher; its key is the AES key and the salt, an AEAD has an IV of eight octets and its own tag, CBC works in blocks of sixteen |
| Suite.HashSizes | xcrypto/hmac.go:28-45 | which integrity and PRF transforms there are, their key and output lengths, and which PRF belongs to which integrity transform |
| Suite.SelectSound | xcrypto/suite.go:224-329 | what is selected is registered and on both lists; AEAD excludes integrity on both; the PRF belongs to the integrity family |
| Suite.SelectExactly | xcrypto/suite.go:224-329 | a selection is made if and only if it is in every family the first local preference on the other list, with no integrity on either side for AEAD and the first PRF of the integrity family |
| Suite.PickedDh | xcrypto/suite.go:318-329 | a group is found exactly when Curve25519 is on both lists |
| Suite.Reselect | xcrypto/suite.go:224-329 | selecting again from the echo of a selection gives that selection, except nothing when AEAD meets a non-empty local integrity list |
| Witnesses.NeverSelected | xcrypto/suite.go:224-329 | aes256-sha256-prfsha512-curve25519 is parsed and selects nothing, not even from itself |
| SuiteParsing.CipherToken | xcrypto/suite.go:70-96 | every cipher token names a registered cipher |
| SuiteParsing.CiphersNamed | xcrypto/suite.go:70-96 | every cipher token means what its name says: key bits, mode, tag length in octets or bits |
| SuiteParsing.IntegrityToken | xcrypto/suite.go:98-107 | every integrity token names a registered transform other than none |
| SuiteParsing.PrfToken | xcrypto/suite.go:109-115 | every PRF token names a registered PRF |
| SuiteParsing.HashesNamed | xcrypto/suite.go:98-115 | the integrity tokens by the bits of their hash, and the PRF tokens by the same names |
| SuiteParsing.ParseProposal | xcrypto/suite.go:131-200 | the three loops compute the recursive reading of the tokens, with every rejection |
| SuiteParsing.CheckAead | xcrypto/suite.go:165-188 | the two flags decide: all AEAD without integrity, or none AEAD with it |
| SuiteParsing.ParsedWellFormed | xcrypto/suite.go:131-200 | a parsed suite is registered throughout, not mixed, and no family it needs is empty |
| SuiteParsing.SelfSelects | xcrypto/suite.go:224-329 | an end selects something from its own suite exactly when the PRF family of its preferred integrity transform is listed, or it is AEAD |
| SuiteParsing.WithoutPrfCoherent | xcrypto/suite.go:189-199 | leaving the PRF out always gives a suite that can be selected |
| Negotiation.OfferReadBack | control/rekey.go:96-134 | the responder reads from an IKE offer exactly the configured lists, integrity dropped beside AEAD |
| Negotiation.EchoReadBack | control/running_rekey.go:1017-1034 | the echo of a selection reads back as that one selection |
| Negotiation.IkeAgreement | control/sa_init.go:453-529 | whatever the responder selects from an IKE offer, the requester decodes the very same selection and the responder's SPI, and the responder learns the requester's; it is rejected exactly in the mixed AEAD case |
| Negotiation.ReadTransforms | control/running_rekey.go:940-983 | the loop over transforms computes the recursive reading, with every rejection |
| Negotiation.FirstMatchingSuite | control/running_rekey.go:912-936 | the first local suite that selects something |
| Negotiation.SelectPeerIkeProposal | control/running_rekey.go:912-936 | the nested search over the peer's proposals and the local suites computes the recursive choice |
| Negotiation.PickIkeSound | control/running_rekey.go:912-936 | a choice comes from some local suite and satisfies its guarantees |
| ChildNegotiation.ChildOfferReadBack | control/child_sa.go:558-595 | the responder reads from a child offer exactly the offered lists, with DH only for PFS |
| ChildNegotiation.ChildEchoReadBack | control/running_rekey.go:987-1013 | the echoed child transforms are read back one by one |
| ChildNegotiation.ChildAgreement | control/child_sa.go:229-370 | both ends of a child rekey hold the same cipher and integrity, and each learns the other's SPI; PRF and group come from different places |
| ChildNegotiation.FirstMatchingEspSuite | control/running_rekey.go:870-907 | the loop in which each local suite supplies its PRFs, and the DH list once for all that follow |
| ChildNegotiation.SelectPeerEspProposal | control/running_rekey.go:870-907 | the nested search computes the recursive choice |
| Choices.FamiliesRead | control/running_rekey.go:940-983 | what is read from a proposal: each family by its type number, in order; an IKE proposal without ESN, an ESP one without PRF |
| Choices.IkeChosen | control/running_rekey.go:912-936 | of all proposals the first that can be served is chosen, with the first suite that can serve it; the echo has its number, our SPI and one transform per family |
| Choices.EspChosen | control/running_rekey.go:870-907 | the same for a child, each suite matched with its own PRFs and the groups of the wire or else the first configured; ESN is echoed exactly if it was listed |
| Choices.IkeOffered | control/rekey.go:96-134 | what an IKE offer lists, proposal by proposal and type by type, under the drawn SPI |
| Choices.ChildOffered | control/child_sa.go:558-595 | what a child offer lists; groups only for perfect forward secrecy |
| Choices.ChildOffersExactly | control/child_sa.go:510-538 | every configured suite is offered, in compatible mode an AEAD one also without ESN, nothing else, and each variant once |
| Choices.IkeDecoded | control/sa_init.go:453-529 | an IKE answer is accepted from nobody unless it names one of our proposals and lists exactly one of our transforms per family |
| Choices.ChildDecoded | control/child_sa.go:229-370 | a child answer likewise; the PRF is the IKE SA's |
| Offers.OfferAccepted | control/running_rekey.go:912-936 | the search over a wire offer succeeds exactly if some configured suite of one end suits some suite of the other, whatever SPIs are drawn |
| Offers.EchoUnderstood | control/sa_init.go:453-529 | the requester decodes the echo of a choice to that choice and the responder's SPI, or, exactly when the configurations do not fit, not at all |
| Offers.ChildOfferAccepted | control/running_rekey.go:870-907 | the search over a child offer succeeds exactly if some suite of one end suits some offer of the other |
| Offers.ChildEchoUnderstood | control/child_sa.go:229-370 | the requester decodes the echo of a child choice to its cipher, integrity and SPI with the IKE SA's PRF, or, exactly when the configurations do not fit, not at all |
| Twins.OffersCover | control/child_sa.go:510-538 | every configured ESP suite is among the offers, also with the variants that omit ESN |
| Twins.PickEspFinds | control/running_rekey.go:870-907 | the search is not stopped by an earlier suite, although the DH list that one supplied stays |
| Twins.ParsedUnderstands | control/sa_init.go:453-529 | an end with parsed suites reads whatever any peer chooses from its IKE offers |
| Twins.ListedUnderstands | control/child_sa.go:229-370 | an end with at most 255 child offers reads whatever any peer chooses from those |
| Twins.TwinsMatched | control/running_rekey.go:870-936 | ends configured alike with parsed suites meet the condition of the two-end theorems |
| Twins.TwinsServe | control/running_rekey.go:870-936 | and serve each other's offers as soon as one suite of each kind can be selected |
| Keying.Plus | xcrypto/prf.go:62-83 | the loop with previous block and counter computes prf+, and fails exactly when more than 255 blocks would be needed |
| Keying.PlusOctets | xcrypto/prf.go:62-83 | every block of the output is the hash of the block before it, the seed and its number, the last one possibly cut |
| Keying.IkeKeysPartition | xcrypto/keying.go:63-98 | the seven IKE keys are consecutive pieces that use up prf+ in the order of section 2.14 of RFC 7296, each of its family's length |
| Keying.ChildKeysPartition | xcrypto/keying.go:103-131 | the four child keys likewise, in the order of section 2.17 of RFC 7296 |
| RekeyExchange.LosesIffSmaller | control/collision.go:28-40 | an end loses a collision if and only if its nonce is smaller at the first octet, within the common length, in which the two differ |
| RekeyExchange.CollisionDecides | control/collision.go:28-40 | two ends never both lose a collision, and exactly one does unless one nonce is a prefix of the other |
| RunningInvariant.StepKeeps | control/running.go:140-365 | every turn keeps the invariant: rekey, phase, outstanding request, retained SA, checkpoint, answer history |
| RunningInvariant.StartChildRekeyKeeps | control/running_rekey.go:55-91 | starting a child rekey keeps it |
| RunningInvariant.StartIkeRekeyKeeps | control/running_rekey.go:94-118 | starting an IKE rekey keeps it |
| RunningInvariant.AbandonKeeps | control/running_rekey.go:122-145 | giving up a rekey keeps it |
| RunningInvariant.FinishChildRekeyKeeps | control/running_rekey.go:224-295 | the answer to a child rekey keeps it, on every path |
| RunningInvariant.FinishIkeRekeyKeeps | control/running_rekey.go:312-395 | the answer to an IKE rekey keeps it, on every path |
| RunningInvariant.ProcessPeerChildRekeyKeeps | control/running_rekey.go:505-692 | a peer's child rekey keeps it: refused, lost, won, accepted |
| RunningInvariant.ProcessPeerIkeRekeyKeeps | control/running_rekey.go:706-864 | a peer's IKE rekey keeps it |
| RunningInvariant.ProcessOldIkeKeeps | control/running_rekey.go:411-484 | a packet for the retained SA keeps it |
| RunningInvariant.ProcessInformationalKeeps | control/running.go:533-641 | an INFORMATIONAL request keeps it |
| RunningInvariant.ProcessResponseKeeps | control/running.go:467-528 | a response keeps it |
| RunningInvariant.ProcessPacketKeeps | control/running.go:404-463 | any packet keeps it |
| RunningInvariant.TimersKeep | control/running.go:145-221 | retransmission timers keep it, also when they give up |
| RunningRuns.ReachableInv | control/running.go:140-365 | in every reachable state a rekey owns its phase and the outstanding request and excludes a retained SA; at most one SA is retained, exactly in its phase; deleting an old child means it is there and a request is out |
| RunningRuns.StepOrderly | control/running_rekey.go:45-52 | a step issues at most one request, with the next id, and computes at most one answer, to an unseen id |
| RunningRuns.MessageIdsIncrease | control/running_rekey.go:45-52 | over every run the requests of one IKE SA, including the DELETE that continues a replaced SA, are numbered consecutively, so they strictly increase exactly as long as the counter has not wrapped |
| RunningRuns.RetransmissionsRepeat | control/running.go:145-185 | a response is awaited exactly while a checkpoint exists; every retransmission repeats that request, with the awaited id, sealed by the current SA |
| RunningRuns.RetainedReplay | control/running_rekey.go:445-454 | on the retained SA a copy of a remembered request gets the remembered packets and changes nothing, exactly when its id is not 0 |
| RunningRuns.RetainedExecutes | control/running_rekey.go:445-484 | exactly which requests are executed on the retained SA |
| RunningAnswers.AnsweredAtMostOnce | control/running.go:445-463 | over every run the ids answered on one current SA strictly increase: none is executed twice, also after eviction |
| RunningAnswers.CopyReplaysOrDrops | control/running.go:445-463 | a later copy of an answered request changes nothing, and is answered with the identical packets if and only if it opens and fewer than four requests were answered on the SA since |
| RunningAnswers.RekeyAnswerReplays | control/running_rekey.go:818-862 | the answer to an accepted IKE rekey stays replayable while the replaced SA is retained, exactly when the request's id is not 0 |
| RunningAnswers.EvictedRunsAgain | control/running_rekey.go:445-484 | a request answered before the replacement and evicted is executed a second time on the retained SA |
| RetainedWitnesses.ExecutedTwice | control/running_rekey.go:445-484 | such a run: six liveness checks, an accepted IKE rekey, and a copy of the second check that is answered again |
| RetainedWitnesses.FirstRekeyNotRepeated | control/running_rekey.go:445-447 | a peer's IKE rekey under id 0 is accepted; its copy gets no answer |
| RunningAnswers.RetainedGrows | control/running_rekey.go:411-484 | while an SA is retained its answers are only added to |
| Exchanges.OnlyAwaited | control/running.go:467-528 | nothing but the awaited answer, from the other end of the SA and in full, has any effect, and that one settles the request |
| Exchanges.GivesUp | control/running.go:145-185 | used-up retransmissions give up a rekey with all SAs as they were, and end the session for any other request |
| Exchanges.RekeysStart | control/running_rekey.go:55-118 | exactly when a soft timer starts a rekey; it is then the one request out |
| Exchanges.RetainedEnds | control/running_rekey.go:411-484 | exactly which packets end the retained SA; the current one is never touched |
| Exchanges.RetainedRepeats | control/running.go:187-221 | the DELETE of a retained SA is repeated until it is answered or given up |
| Exchanges.ChildRefusals | control/running_rekey.go:505-634 | exactly when a child rekey is refused with 44, 43 or 14 |
| Exchanges.IkeRefusals | control/running_rekey.go:706-790 | exactly when an IKE rekey is refused with 43 or 14 |
| Exchanges.ChildAccepted | control/running_rekey.go:615-692 | what the accepted child is: our SPI, the SPI of the first proposal, the selectors turned round; installed before it is answered |
| Exchanges.InformationalExactly | control/running.go:533-641 | exactly which INFORMATIONAL requests are answered, with what, and which child or SA a DELETE takes away |
| Readings.ChildAnswerRead | control/rekey.go:249-325 | exactly which payload lists are accepted as a child rekey answer, and what is read from them |
| Readings.IkeAnswerRead | control/rekey.go:330-393 | the same for an IKE rekey answer |
| Readings.RequestsRead | control/running_rekey.go:735-767 | the same for both requests, in which the last payload of a kind counts |
| Readings.TargetRead | control/running_rekey.go:505-545 | the first REKEY_SA notification names the child, exactly if it is about one ESP SA and none before it is malformed |
| Readings.NonceRead | control/running_rekey.go:167-180 | the first nonce is the one compared, exactly if it is not empty and none before it is malformed |
| Closing.CloseContinues | control/close.go:86-125 | after any run, closing sends the DELETE of the child by its inbound SPI and then that of the IKE SA, continues the numbering without a gap and never wraps it; the session is cleared exactly when the second went out |
| Running.ReadParts | control/rekey.go:249-325 | the loop with seen-flags computes the recursive reading, repeated and unexpected payloads rejected |
| Running.FindRekeyTarget | control/running_rekey.go:505-545 | the REKEY_SA notification that names the child |
| Running.FirstInnerNonce | control/running_rekey.go:167-180 | the first nonce of a request |
| Running.CarriesSelectors | control/running_rekey.go:489-501 | child and IKE rekeys are told apart by traffic selectors |
| Running.ParseChildRekeyResponse | control/rekey.go:249-325 | reads and decodes a child rekey answer as specified |
| Running.ParseIkeRekeyResponse | control/rekey.go:330-393 | reads and decodes an IKE rekey answer as specified |
| Running.Actor.SendFrames | control/running.go:668-680 | the frames are queued in order |
| Running.Actor.ReplayCachedFrames | control/running.go:695-703 | the newest remembered answer with that id, or none |
| Running.Actor.Answer | control/running.go:533-562 | seals, queues and remembers an answer |
| Running.Actor.Request | control/running.go:652-663 | claims an id, keeps the checkpoint and queues the request |
| Running.Actor.BeginChildRekey | control/running_rekey.go:55-91 | computes the specified start of a child rekey, or keeps or resets the state |
| Running.Actor.BeginIkeRekey | control/running_rekey.go:94-118 | computes the specified start of an IKE rekey |
| Running.Actor.SendDeleteOldChild | control/running_rekey.go:277-295 | the DELETE names the replaced child by its inbound SPI |
| Running.Actor.FinishChildRekeyResponse | control/running_rekey.go:224-273 | computes the specified end of our child rekey, with every way to abandon it |
| Running.Actor.FinishDeletedChild | control/running_rekey.go:299-308 | drops the replaced child and tells the data plane |
| Running.Actor.SendOldIkeDelete | control/running_rekey.go:376-395 | the DELETE continues the retained SA's own numbering |
| Running.Actor.FinishIkeRekeyResponse | control/running_rekey.go:312-372 | computes the specified end of our IKE rekey |
| Running.Actor.AcceptChild | control/running_rekey.go:615-692 | suite, keys, install, answer, in this order, with every failure |
| Running.Actor.HandlePeerChildRekey | control/running_rekey.go:505-692 | computes the specified handling of a peer's child rekey |
| Running.Actor.AcceptIke | control/running_rekey.go:735-864 | the answer goes out under the old keys and is kept with the old SA |
| Running.Actor.HandlePeerIkeRekey | control/running_rekey.go:706-864 | computes the specified handling of a peer's IKE rekey |
| Running.Actor.DeleteChild | control/running.go:614-637 | which child a peer's DELETE takes away |
| Running.Actor.HandleInformational | control/running.go:533-641 | computes the specified handling of INFORMATIONAL requests |
| Running.Actor.HandleResponse | control/running.go:467-528 | computes the specified handling of responses |
| Running.Actor.FindRetained | control/running_rekey.go:445-454 | the oldest retained answer with that id |
| Running.Actor.HandleOldIkePacket | control/running_rekey.go:411-484 | computes the specified handling of packets for the retained SA |
| Running.Actor.HandleRequest | control/running.go:404-463 | replay, staleness and dispatch of requests |
| Running.Actor.HandlePacket | control/running.go:404-463 | computes the specified dispatch of packets |
| Running.Actor.HandleRto | control/running.go:145-185 | resend, give up a rekey, or fail |
| Running.Actor.HandleOldRto | control/running.go:187-221 | resend or stop waiting on the retained SA |
| Running.Actor.Turn | control/running.go:140-365 | one turn computes the specified state, frames, updates and verdict, and keeps the invariant |
| Running.RunsSane | control/running.go:140-365 | after every run from the hand-over on the invariant holds, the requests of each SA are consecutive and increase exactly until the counter wraps, and no request is answered twice on a current SA |
| Running.Actor.Run | control/running.go:140-365 | the loop computes the state, all frames and all updates of the specification, and with them everything RunsSane says |
| Running.Actor.Close | control/close.go:86-125 | the two closing DELETEs, their ids, and what is cleared |
| ChildEffects.StepEffect | control/running_rekey.go:184-308 | every step leaves the children alone, replaces the active one by an acknowledged one with the same selectors, retires the old one, or loses the active one to a peer's DELETE |
| ChildEffects.DeleteAfterInstall | control/running_rekey.go:255-295 | a DELETE for an old child is only ever sent after the new child was installed |
| Dataplane.CodecsPair | session.go:342-371 | two ends that share child keys encrypt with what the other decrypts with, exactly if one of them initiated the child, or the halves are equal |
| Dataplane.MaterialUsedUp | session.go:342-371 | the key material of a child is used up in order by what its initiator sends and then by what the responder sends, cipher key before integrity key |
| Dataplane.Pipeline.ReplaceChild | esp/pipeline.go:102-122 | copy-on-write: the new codec is added, the replaced one kept, and the sender swapped |
| Dataplane.Pipeline.CopyWithout | esp/pipeline.go:127-145 | the loop copies all of a table but one entry |
| Dataplane.Pipeline.DropInboundSPI | esp/pipeline.go:127-145 | exactly one codec leaves the table, none for SPI 0 |
| Dataplane.Pipeline.Lookup | esp/pipeline.go:272-289 | a datagram goes to the codec of its first four octets |
| Dataplane.Watcher.ApplyUpdate | session.go:375-406 | an update changes tables, current child and end of the tunnel as specified |
| Dataplane.Watcher.WatchControlUpdates | session.go:375-406 | the loop applies everything queued, in order |
| MakeBeforeBreak.MakesBeforeItBreaks | session.go:375-406 | over every run with timely acknowledgements and fresh SPIs: the active child decrypts and encrypts in the data plane, and the replaced one still decrypts |
| MakeBeforeBreak.Established | session.go:231-337 | the tunnel as it leaves the handshake satisfies this |
| MakeBeforeBreak.CodecsStay | esp/pipeline.go:102-145 | a codec, and its window, is only replaced by an install under its own SPI |
| MakeBeforeBreak.ServesIffFresh | session.go:391-397 | after an install and the deletion of the replaced child the new one is in service exactly if it reuses neither SPI |
| MakeBeforeBreak.LateInstallSplits | control/running_rekey.go:184-208 | after any step that installs a child and once the data plane has caught up, the actor's child is in service exactly if the install was acknowledged in time or was for that child; otherwise packets go out with the abandoned child's codec, and the kept child's table entry stays exactly if the SPIs differ |
| IkeTalk.BothDerive | control/rekey.go:424-442 | offer, choice, echo and decoding agree, and both ends derive the same seven keys in opposite roles: prf+ under the hash of the new shared secret and both nonces, keyed with the old SK_d; the requester sends with the i-halves |
| IkeTalk.AcceptKeeps | control/running_rekey.go:706-864 | accepting a rekey keeps the agreement of two ends, with the acceptor one SA ahead |
| IkeTalk.FinishKeeps | control/running_rekey.go:312-372 | hearing the answer keeps it and brings the requester to the same SA |
| IkeTalk.AnswerKeeps | control/running.go:404-463 | an answer that accepts no IKE rekey keeps it |
| IkeTalk.YieldKeeps | control/running_rekey.go:713-790 | giving up an IKE rekey to a request that cannot be served keeps it, between balanced configurations |
| IkeTalk.RequestKeeps | control/running_rekey.go:45-118 | a new request keeps it |
| IkeTalk.ServeOldKeeps | control/running_rekey.go:411-484 | whatever happens on a retained SA keeps it |
| TwoEnds.TurnKeeps | control/running.go:140-365 | one turn of either actor keeps the agreement |
| TwoEnds.RunAgrees | control/running.go:140-365 | every fair run of two actors keeps it |
| TwoEnds.IkeSaAgrees | control/running_rekey.go:312-372 | after any fair run of compatible ends from the handshake on, with rekeys by either end or both: same SPIs, selection and seven keys, opposite roles, outbound halves equal the other's inbound ones; or one end is a single accepted rekey ahead and retains the other's SA |
| TwoEnds.Awaited | control/running_rekey.go:706-760 | an IKE rekey that would be accepted is the one the other end awaits |
| Acts.TurnActs | control/running.go:140-365 | every fair turn is one of eight acts towards the other end: it stays, asks, concludes, finishes, replies, drops, accepts or yields |
| ChildTalk.ChildRequestRead | control/rekey.go:138-183 | the responder reads from a child rekey request exactly what the requester put in, naming the requester's child |
| ChildTalk.ChildResultAgrees | control/rekey.go:249-325 | the answer leads the requester to the mirror image of the responder's new child |
| ChildTalk.AcceptFinds | control/running_rekey.go:505-590 | an acceptable child rekey is the one the other end awaits, and both serve the same child |
| ChildTalk.AcceptChildKeeps | control/running_rekey.go:588-692 | accepting a child rekey keeps the kinship of two ends |
| ChildTalk.FinishChildKeeps | control/running_rekey.go:224-295 | finishing one keeps it |
| ChildTalk.RefusedKeeps | control/running_rekey.go:224-245 | a refused rekey keeps it |
| ChildTalk.YieldChildKeeps | control/running_rekey.go:592-634 | giving up a child rekey to one that cannot be served keeps it, between balanced configurations |
| TwoChildren.FinishChildOutcome | control/running_rekey.go:224-273 | a child rekey answer brings nothing new, or exactly the specified child and a DELETE for the old |
| TwoChildren.PeerChildRefuses | control/running_rekey.go:505-590 | a request that is not acceptable is dropped or refused and moves nothing |
| TwoChildren.Lives | control/running.go:140-365 | one turn of either end keeps agreement and kinship |
| TwoChildren.HomeServes | control/running_rekey.go:224-692 | ends in kinship both serve a child, mirrored or one accepted rekey apart |
| TwoChildren.ChildrenAgree | control/running_rekey.go:224-692 | after any fair run of matched ends from the handshake on neither end has lost its child; the two mirror each other in SPIs, selectors and roles, or one rekey is accepted and not yet heard about |
| AgreementExactly.IkeAgreesExactly | control/running_rekey.go:706-864 | the ends agree on the IKE SA after every fair run, from every state the handshake ends in and with any ideal primitives, if and only if their configurations are compatible |
| AgreementExactly.EndsAgreeExactly | control/running_rekey.go:505-864 | the same, if and only if, for IKE SA and child together |
| AgreementExactly.IncompatibleSplits | control/running_rekey.go:706-864 | every incompatible pair has a fair run that ends in disagreement on the IKE SA |
| AgreementExactly.UnmatchedSplits | control/running_rekey.go:505-692 | every pair with unmatched child offers has one after which the ends serve different children |
| Splits.UnbalancedIkeSplits | control/running_rekey.go:713-790 | the run when only one end can serve the other: a lost collision, a refusal, then the answer nobody awaits |
| Splits.MisreadIkeSplits | control/running_rekey.go:312-330 | the run when the requester cannot read the choice: the responder moves on, the requester gives up |
| ChildSplits.UnbalancedChildSplits | control/running_rekey.go:592-634 | the first run for children |
| ChildSplits.MisreadChildSplits | control/running_rekey.go:224-245 | the second run for children |
| Witnesses.OneSidedSplits | control/running_rekey.go:713-790 | two suite strings the parser accepts, and the fair run that splits their ends |
| Unserved.SaStays | control/running_rekey.go:706-864 | over every fair run of ends that can serve none of each other's IKE offers both keep their SA |
| Unserved.ChildStays | control/running_rekey.go:505-692 | and their child if they can serve none of each other's child offers |
| Crossing.TurnOptions | control/running.go:140-365 | all a turn without a new rekey can do: rest, conclude, refuse or grant |
| Crossing.WinnerRefuses | control/running_rekey.go:592-625 | the end with the larger nonce never accepts the other's request |
| Crossing.LoserAccepts | control/running_rekey.go:592-625 | the end with the smaller nonce accepts as long as it has not moved |
| Crossing.RaceBegins | control/running_rekey.go:55-91 | both soft timers firing before either request arrives is a race |
| Crossing.LargerNonceWins | control/running_rekey.go:505-692 | in every order of deliveries both ends end up with the child of the nonce that is larger at the first difference, mirrored; the other child is never served |
| Crossing.CollisionDecided | control/running_rekey.go:505-692 | from any reachable state in which both ends have a child rekey out on the same child, the child of the nonce that is smaller at the first difference never comes about, and once the winner has heard its answer both serve the winner's child, mirrored |
| IkeCrossing.LargerNonceWins | control/running_rekey.go:706-864 | the same for two IKE rekeys: the winner keeps its request until it hears the answer, then both ends hold the SA it asked for; the other's never comes about |
| Crossing.LateAnswerMisses | control/running.go:467-528 | the answer to a request that was given up never matches a later one: it changes nothing |
| ChildKeyAgreement.ChildKeysAgree | control/rekey.go:396-421 | both ends derive the same child keys when the suite's PRF is the IKE SA's |
| ChildKeyAgreement.ChildKeysFrom | control/rekey.go:396-421 | the child keys are prf+ under SK_d over the shared secret, if there is one, and both nonces |
| ChildKeyAgreement.SamePrfNeeded | control/running_rekey.go:660-672 | for every keyed hash, if and only if |
| Witnesses.PrfsDiffer | control/running_rekey.go:660-672 | a configuration whose IKE SA has one PRF and whose rekeyed child is derived with another at the responder |
| KeyTalk.AnswerTells | control/running_rekey.go:615-692 | an accepted child rekey is answered with what gives the requester the very keys and algorithms that the responder installed |
| KeyTalk.TurnKeys | control/running_rekey.go:184-295 | every turn keeps it: mirrored children have equal keys and algorithms installed, or the answer that will bring them is in the network |
| Duplex.BothWaysOpen | session.go:342-406 | over every fair run of two ends with their data planes, whenever the children mirror each other each end encrypts with exactly what a codec in the other's table decrypts with, both ways |
| Identity.GreedySound | control/identity.go:37-74 | a true result of the greedy matcher is a match of the recursive glob, for every input |
| Identity.GreedyComplete | control/identity.go:37-74 | and conversely for every value without a literal star |
| Identity.MatchIsGlob | control/identity.go:37-74 | both, from the start of pattern and value |
| Identity.ExactlyWithoutStars | control/identity.go:54-57 | the matcher decides the glob for every pattern exactly if the value has no literal star |
| Identity.RightIdMeaning | control/identity.go:19-32 | type 0 accepts anything; otherwise the types must agree, names match as globs without regard to ASCII case, and other identities octet by octet |
| Identity.WildcardMatch | control/identity.go:37-74 | the loop over four indices terminates and computes the greedy matcher |
| Identity.Folded | control/identity.go:76-81 | ASCII letters in lower case, everything else unchanged |
| Replay.AcceptRefines | esp/replay.go:17-49 | one call accepts exactly what the set model accepts, keeps the representation, and leaves the window alone when it rejects |
| Replay.WindowRefines | esp/replay.go:17-49 | over any sequence of calls a number is accepted exactly when it is not 0, not accepted before, and within 64 of the highest |
| Replay.ReplayWindow.AcceptSeq | esp/replay.go:17-49 | the method computes the specified window and answer |
| Replay.ReplayWindow.Reset | esp/replay.go:52-55 | back to a fresh window |
| Esp.StripsPadding | esp/outflow.go:120-145 | the receiver strips exactly the padding and trailer the sender added, and for every block size up to 16 the padded length is a multiple of it |
| Esp.SentOpens | esp/inflow.go:94-198 | a datagram sealed under a number opens to its packet, with that number and SPI, AEAD and CBC with ICV alike |
| Esp.SentWire | esp/outflow.go:100-207 | what a datagram consists of: SPI, number, IV, and under the cipher the packet, padding 1, 2, ..., its length, and 4 or 41 by the version; what is authenticated; and exactly which packets are sent |
| Esp.ReceivedExactly | esp/inflow.go:94-198 | exactly which datagrams, from anyone, are accepted, and as which packet; with CBC everything before the ICV is authenticated |
| EspChannel.ChannelSound | esp/inflow.go:94-198 | the invariant of sender, network and receiver over every run |
| EspChannel.DeliveredWasSent | esp/inflow.go:94-198 | every delivered packet was sent under the same number; no number is sent twice or delivered twice |
| EspChannel.DeliveredExactly | esp/inflow.go:94-198 | a sent datagram is delivered, as exactly its packet, if and only if it was not delivered before and is less than 64 behind the highest; otherwise the window stays |
| EspChannel.InjectedChangesNothing | esp/inflow.go:94-198 | what does not authenticate leaves the window unchanged |
| EspChannel.ExhaustedStays | esp/outflow.go:100-118 | once the numbers are used up nothing is sent again |
| EspChannel.NumberedFromOne | esp/outflow.go:100-118 | numbers are given out from 1, one for every IPv4 or IPv6 packet, until 2^32-1 of them are used |
| EspChannel.SentUnder | esp/outflow.go:100-118 | and a packet is sent under the number it was given |
| EspWorkers.Outbound.Process | esp/outflow.go:100-207 | the method computes the specified datagram and counter, and every refusal |
| EspWorkers.Outbound.Pad | esp/outflow.go:120-145 | the loop writes the self-describing padding and the trailer |
| EspWorkers.Outbound.CheckFlowTriggers | esp/outflow.go:213-228 | a rekey trigger is raised at most once per SA, when somebody listens and a limit that is set is first reached by octets, packets or sequence number |
| EspWorkers.Inbound.Process | esp/inflow.go:94-198 | the window moves only for an authenticated, well-formed packet |
| Ccm.SealOctets | xcrypto/cipher.go:239-260 | every octet of the output: the plaintext under the counter blocks from 1 on, the front of the MAC under counter block 0 |
| Ccm.CounterAt | xcrypto/cipher.go:295-302 | the n-th counter block is the flags, the nonce and n, most significant octet first |
| Ccm.CountersDiffer | xcrypto/cipher.go:295-302 | no two counter blocks are the same, under one nonce or two |
| Ccm.OpensSealed | xcrypto/cipher.go:239-293 | opening what was sealed gives the plaintext, for every block function and every input |
| Ccm.OnlySealedOpens | xcrypto/cipher.go:262-293 | what opens is exactly what sealing its plaintext produces |
| Ccm.MacChains | xcrypto/cipher.go:311-328 | the three-step MAC is one CBC chain over a single encoded input |
| Ccm.ChainSnoc | xcrypto/cipher.go:364-381 | the chain is CBC: the last block masked with the chain so far, enciphered |
| Ccm.FirstBlockFields | xcrypto/cipher.go:311-335 | the first MAC block holds the flag for associated data, the tag length, nonce and message length, and is no counter block |
| Ccm.AadReadsBack | xcrypto/cipher.go:340-360 | the length-prefixed, zero-filled associated data can be read back, on both sides of 0xFF00 |
| Ccm.MacInputReadsBack | xcrypto/cipher.go:311-381 | nonce, associated data and message can be read back from the MAC input |
| Ccm.MacInputInjective | xcrypto/cipher.go:311-381 | so different inputs never share a MAC input, for lengths below 2^32 |
| CcmBuffers.PutCcmSize | xcrypto/cipher.go:330-335 | the loop from the back writes the big-endian length |
| CcmBuffers.FoldBlock | xcrypto/cipher.go:364-381 | one zero-filled block is folded into the state in place |
| CcmBuffers.CcmProcess | xcrypto/cipher.go:364-381 | the loop over blocks computes the CBC chain in place |
| CcmBuffers.CcmMac | xcrypto/cipher.go:311-328 | the method computes the specified MAC |
| CcmBuffers.CounterStream.XorKeyStream | xcrypto/cipher.go:239-260 | consecutive calls continue the keystream where the last one stopped |
| CcmBuffers.GrowDst | xcrypto/prepared.go:224-231 | room for more octets, what was there kept |
| CcmBuffers.SealTo | xcrypto/prepared.go:179-195 | appends to the destination exactly what the plain form returns |
| CcmBuffers.OpenTo | xcrypto/prepared.go:197-222 | appends exactly what the plain form returns, and fails exactly when it does |
| WireMessage.HeaderRemarshals | wire/header.go:66-114 | marshalling a parsed header gives back its octets |
| WireMessage.HeaderParses | wire/header.go:66-114 | parsing a marshalled header gives it back, with the octets behind it |
| WireMessage.ParsePayloadChain | wire/message.go:46-104 | the cursor loop computes the recursive parser, errors included |
| WireMessage.ChainParses | wire/message.go:46-104 | a chain of payloads is read back with correct links |
| WireMessage.BuiltParses | wire/message.go:31-41 | parsing a built packet returns the pushed list |
| WireMessage.HeaderLayout | wire/header.go:100-114 | where every field of the header of a finished packet is |
| WireMessage.HeaderAccepted | wire/header.go:66-94 | exactly which headers are accepted |
| WireMessage.ChainLayout | wire/builder.go:35-67 | where next type, critical bit, length and body of payload k are |
| WireBuilder.Builder.Push | wire/builder.go:35-67 | appends the payload and patches the link before it; a refused payload changes nothing |
| WireBuilder.Builder.Finish | wire/builder.go:87-98 | the first type and the total length are stamped, and the result is the packet of the pushed list |
| WireAad.LocateEncrypted | control/protected.go:377-433 | the walk over offsets computes the recursive one |
| WireAad.WalkAgrees | control/protected.go:377-433 | the walk finds the encrypted payload exactly when the parser does, with the same headers and body |
| WireAad.PrefixExact | control/protected.go:546-586 | the rebuilt prefix is the raw prefix exactly when the reserved bits are zero; both ways of opening then use the same body |
| WireAad.ReservedBitLost | control/protected.go:546-586 | a message with a reserved bit set that parses and is rebuilt differently |
| Fragments.StripsPadding | control/protected.go:687-714 | padding is 1, 2, ... and its length, up to a whole block, and stripping undoes it, also of an empty plaintext |
| Fragments.ChunksJoin | control/protected.go:165-199 | cutting and joining gives the plaintext back for every chunk size |
| Fragments.Split | control/protected.go:146-199 | the loop cuts into ceil(n/size) fragments, only the first with a payload type |
| Fragments.FragmentAt | control/protected.go:146-199 | fragment i has number i+1, the common total, the payload type on the first only, and the octets from i*size on |
| Fragments.AnyOrderCollects | control/protected.go:605-683 | in any order, with repeats and with fragments of smaller sets and of other messages and exchanges in between: nothing completes while one is missing, what belongs elsewhere is rejected and changes nothing, and the last missing one completes the set |
| Fragments.SplitCollects | control/protected.go:146-199 | split and collected: the original plaintext and fragment 1's payload type |
| Fragments.CollectKeepsWaiting | control/protected.go:605-683 | a kept table always lacks a fragment |
| Fragments.ReportedExactly | control/protected.go:435-460 | a completed set is reported with its own type, except exactly when this call dropped an expired set that announced another |
| Fragments.ExpiredTypeReported | control/protected.go:435-460 | two calls after which a set of type 41 is reported as 35 |
| Fragments.Reassembly.CollectFragment | control/protected.go:435-460 | the method computes table, result and reported type |
| Checksum.FoldIsCanon | tests/client/udpbench/packets.go:50-55 | folding to the end gives the representative modulo 65535 that is zero for zero only |
| Checksum.FoldChecksum | tests/client/udpbench/packets.go:50-55 | the loop computes it |
| Checksum.SumAndFold | tests/client/udpbench/packets.go:59-87 | the loop over pairs and the odd octet, with a 32-bit accumulator |
| Checksum.NoWrap | tests/client/udpbench/packets.go:59-87 | the accumulator does not wrap for any packet |
| Checksum.TwoFoldsSuffice | tests/client/udpbench/packets.go:149-155 | a third fold would change nothing |
| Checksum.UpdateExact | tests/client/udpbench/packets.go:149-155 | the update equals recomputation, exactly, if and only if the new sum is not zero |
| PacketBuilder.DataFresh | tests/client/udpbench/packets.go:160-174 | after a packet is filled in both checksums equal a full recomputation |
| PacketBuilder.AlwaysFresh | tests/client/udpbench/packets.go:160-174 | and so after any sequence of packets |
| PacketBuilder.ReceiverAccepts | tests/client/udpbench/packets.go:115-155 | a fresh packet passes a receiver's checks: the IP header, and the RFC 768 pseudo-header with the segment, each add up to all ones |
| PacketBuilder.DataOctets | tests/client/udpbench/packets.go:160-174 | where identification and sequence number go; nothing else but the two checksums changes |
| PacketBuilder.FixedFields | tests/client/udpbench/packets.go:115-143 | addresses, ports, lengths and the magic number are in their places |
| PacketBuilder.Packets.SealChecksums | tests/client/udpbench/packets.go:115-143 | both checksums from scratch are fresh |
| PacketBuilder.Packets.Data | tests/client/udpbench/packets.go:160-174 | the method computes the specified packet in place |
| Peap.TrainCount | eap/peap/fragment.go:54-136 | ceil(n/chunk) packets for a non-empty message |
| Peap.TrainLayout | eap/peap/fragment.go:54-136 | the octets of packet k: flags, length where it belongs, and the k-th piece |
| Peap.TrainDelivers | eap/peap/fragment.go:54-206 | parsing and collecting the packets in order completes only at the last, with the original octets and no packet taken for an acknowledgement, if and only if the message is not empty and its length fits where it is announced |
| Peap.CompletesExactly | eap/peap/fragment.go:162-206 | exactly when a packet, from anyone, completes a message: it is marked last and the collected octets have the length announced once |
| Peap.OutboundFragmenter.Start | eap/peap/fragment.go:54-104 | the first packet, or a refusal while a message is under way |
| Peap.OutboundFragmenter.Next | eap/peap/fragment.go:108-136 | the next packet of the train |
| Peap.InboundFragmenter.PushFragment | eap/peap/fragment.go:162-206 | the method computes the specified inbox and result, errors included |
| Peap.Pace | eap/peap/peap.go:141-160 | while packets are left only an acknowledgement is answered, with the next packet |
| Framing.Reader.Fill | wire.go:112-131 | one read of the stream loses no octet; data together with an end of stream is not yet the end |
| Framing.Reader.Read | wire.go:85-141 | what a read returns depends only on the octets not yet returned and the final error, not on how the stream is cut |
| Framing.Reader.ReadMany | wire.go:85-141 | nor do successive reads |
| Framing.FrameOctets | wire.go:144-165 | a frame is two octets of length and the datagram |
| Framing.FrontRead | wire.go:85-141 | exactly when a read returns a datagram, and what it leaves; a short buffer loses nothing |
| Framing.FramesReadBack | wire.go:85-141 | successive reads return exactly the written datagrams in order; a truncated tail is an error, never a datagram, and after it comes the error of the stream |
| Framing.ReadStream | wire.go:85-141 | for every way the octets are split over reads |
| Framing.Writer.Write | wire.go:144-165 | a frame is written in as many writes as it takes; it succeeds exactly if the stream takes all of it |
| Framing.Writer.WriteAll | wire.go:144-165 | what is written for a list of datagrams is what the reader returns it from |

## Left out

- TwoEnds.IkeSaAgrees: of runs in which no retransmission gives up, message-ids stay below 2^32-1, nonces have 32 octets, frames that open were sent by the other end, and an accepted IKE SA gets keys not used before. The condition on the configurations is exact (AgreementExactly.IkeAgreesExactly).
- TwoChildren.ChildrenAgree: in addition the data plane acknowledges in time and a drawn SPI is new. The condition on the configurations is exact (AgreementExactly.EndsAgreeExactly).
- Crossing.CollisionDecided: after the collision no further rekey is started, and the loser can serve the winner's offers; if it cannot, no child ever changes (Unserved.ChildStays). That the answers eventually arrive is not claimed.
- IkeCrossing.LargerNonceWins: likewise, with Unserved.SaStays.
- Duplex.BothWaysOpen: of runs in which children are installed with the PRF of their IKE SA, which is needed (ChildKeyAgreement.SamePrfNeeded); nothing is said between an accepted rekey and the arrival of its answer.
- MakeBeforeBreak.MakesBeforeItBreaks: timely acknowledgements and fresh SPIs; the other cases are MakeBeforeBreak.LateInstallSplits and MakeBeforeBreak.ServesIffFresh.
- WireAad.PrefixExact: the critical bit of the encrypted payload itself counts as one of the bits that must be clear.
- EspChannel.DeliveredExactly: the cipher and MAC are ideal: only what was sealed authenticates.
- Framing.ReadStream: a read of the stream that returns nothing and no error forever is not modelled; the list of reads is finite.
- Running.Actor.Run: does not model leases and configuration renewal, jitter, back-off and wall-clock deadlines; timers are events that may fire at any time.
- Running.Actor.FinishChildRekeyResponse: the source compares the active child with the rekeyed one by reference; the model compares the values, which are equal or absent while a child rekey is out (RunningInvariant.StepKeeps).
- A failure to build a frame after a message-id was claimed; frame building is total here.
- That a rekey eventually happens or is retried: soft timers are not armed again when they fire at an unsafe moment.
- The handshake (IKE_SA_INIT, IKE_AUTH, EAP and its policy checks): long, but shallow checks; runs start where it ends.
- The TLS engine, X.509, MSCHAPv2, and the inside of AES, HMAC and X25519.
- AES-GCM and AES-CBC: calls into Go's standard library; they are ideal functions of the ESP channel.
- Transport workers, session start and stop, the tunnel and the event hub: goroutines and buffer pools.
- Release and reuse of pooled buffers, and data races between workers.
- The small payload codecs (KE, nonce, ID, CERT, AUTH, notify, delete, CP, TS): easy round trips; messages carry parsed payloads in the running model.
- Splitting a suite string into tokens at dashes and commas: the suite parser starts from the tokens.
- Configuration validation, options, debug output, error texts, and the test clients other than the packet builder.
