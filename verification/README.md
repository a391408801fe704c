# QuantLib: a verified model of the channel, the hash layer and key custody

QuantLib is a C++ cryptography toolkit. This project models its three stateful parts in Dafny and proves what they
promise. `dafny verify dfyconfig.toml` checks everything.

**The encrypted channel** (`Replay`, `Record`, `Session`, `Transcript`, `Channel`). Two endpoints protect records with
keys derived from one secret. Each record is sealed under a nonce made from a 64-bit sequence number; the receiver keeps
a 64-bit sliding bitmap of what it let in; either side may move both directions to a new key generation.
`ChannelSafety` runs two endpoints against a network that drops, repeats, reorders and injects at will.
`ChannelDelivery` runs them over links that lose nothing: every frame opens exactly in the runs that keep a
discipline, under which no update crosses other traffic. `ChannelReuse` says for which keys nonces can repeat at all. The
safety results need no discipline. Lossless delivery does (`DeliveryExactly`, with the failing runs in
`CrossingFrameIsLost`): an update switches key and base nonce of both directions, so a frame that crosses it is refused,
unless the update happens to leave that base nonce as it was or the reader is closed.

**Hashing** (`Hash`, `GpuBatch`, `Throughput`, `Kdf`). One short definition of SHA-256 follows FIPS 180-4. The CPU loop,
the OpenCL kernel with its batch packing, and the multi-threaded scheduler under any interleaving all compute it. HMAC,
HKDF and PBKDF2 follow section 2 of RFC 2104, sections 2.2 and 2.3 of RFC 5869 and section 5.2 of RFC 8018.

**Custody** (`Audit`, `SsmObject`, `SsmModule`, `SsmRotation`, `SsmSessions`, `SsmLimits`, `SsmUse`, `SsmSigning`, `Vault`,
`VaultStore`). A hash-chained audit log, a module of sealed keys used by many callers through sessions, and a vault file that holds
both, saved by way of a temporary file, a backup and a rename.

`Core` has results and fixed-width integers, `Codec` the big-endian, length-prefixed formats all components share.

## How it is modelled

- Bytes are integers below 256; 16-, 32- and 64-bit counters are bounded integers whose wrap-around is written out.
  SHA-256 words and the replay bitmap are bit-vectors.
- The AEAD provider is an ideal sealed box: length preserving, and a box opens to a plaintext exactly when that
  plaintext seals to it (`Aead`). That an adversary cannot make boxes is assumed action by action, and only where a
  theorem is about an adversary (`Unforged`).
- SHA-256 is never assumed to be injective. Where a result needs it, the result says "equal, or here is the collision".
- Clocks, random bytes, generated key pairs and file-system faults are inputs, so every theorem is for all of them.
- Objects whose methods update them are classes: `ReplayWindow`, `ChannelState`, `Transcript`,
  `SoftwareSecurityModule`, `SsmSessionManager`, `VaultDirectory`. Each method is tied to a step function on values, and
  the runs are runs of those step functions. Threads are callers of a state machine cut at the lock boundaries.
- Lengths are cast to 32 bits unchecked when they are written. The formats model the truncation, and round trips ask
  for lengths below 2^32.

## What turned out different from the documentation

- docs/CHANNEL.md lists what a channel owns but does not say which key material it needs. `make_channel` checks sizes
  only. For material from `derive_keys` key and nonce never repeat short of a collision or a key update that makes the
  handshake secret over again (`NoncesNeverRepeat`). For any other, a client and a server frame of the first generation
  can repeat exactly when both directions have one write key and the same first four bytes of nonce
  (`FirstGenerationExactly`, with `EqualDirectionsRepeat` as an instance), and a frame of the first and one of the next
  generation exactly when some update makes the one's key for the other, with the same four bytes
  (`NextGenerationExactly`, with `ChosenFromUpdateRepeats` and `ChosenMaterialExists`).
- docs/SSM-POLICY.md:48 says operations are blocked after the limit. In runs that put no other object under the key's
  handle this is so exactly when there is one caller (`KeyLimitExactly`); n callers at once pass the limit by at most
  n - 1 (`OperationsAreCounted`), which is reached for every n (`AllCallersOvershoot`). The import of an earlier copy
  rewinds the counter, so with imports not even one caller is held to the limit (`ImportsLiftTheLimit`), and every run
  of one caller past it stores or imports an object under that handle (`KeyLimitWithImports`).
- docs/SSM-SESSIONS.md:10 says session limits are enforced. Imports do not touch them: they hold in every run exactly
  when there is one caller (`SessionLimitExactly`), and n callers pass them by at most n - 1 (`SessionLimitHolds`), which
  is reached too (`SessionOvershoot`).
- docs/SSM-ROTATION.md:21 says a key and its replacement store the same generation. They do exactly until the
  replacement is itself rotated; then its generation is higher (`LinksAgree`, `RotatedTwice`). A symmetric key's handle
  hashes no key bytes, so a rotation overwrites the key exactly when it is made under the same name within the second,
  or the shortened hash collides (`RotatedOntoItself`).
- A destroyed key is meant to be final (src/security/ssm.cpp:386). With no imports and fresh handles it is, in every run
  of one-at-a-time calls (`FreshRunsKeepDestroyed`). It comes back exactly by an import of a copy in another state, by a
  new key that gets its handle, or by a rotation already past its first phase that retires it
  (`DestroyedChangesExactly`). The seal binds neither state nor counter, so an import of an earlier export also rewinds
  the operation counter (`ExportedCopyRevives`, `ImportSetsAnyStatus`).
- docs/VAULT-HARDENING.md:20 describes the backup. A primary that no longer opens is copied over a backup that does, so
  a vault survives the save of a file that opens, a crash anywhere included, exactly when the primary opens or is absent
  (`SurvivesExactly`).
- A vault with parallelism 0 can be saved but never opened again (`DecodeOfEncodeVault`), and saving does not advance
  the generation of the vault in memory (`SavingTwiceKeepsGeneration`).
- Closing a session stops its results, not a key operation already past the first check (`ClosedCallStillSpends`).
- The parallel hash computes nothing when items + chunk overflows (`OverflowLosesAll`), and OpenCL slots overlap above
  2^27 messages (`SlotsApartExactly`, `HashBatch`).

## Model

| member | source | states |
|---|---|---|
| ChannelSafety.NoncesNeverRepeat | src/protocol/channel.cpp:79-91 | Over every run of two endpoints whose first material comes from `derive_keys`, no two sealed frames share key and nonce, unless SHA-256 explicitly collides along the derivations of two keys or a key update made the handshake secret over again |
| ChannelSafety.NoncesForAnyKeys | src/protocol/channel.cpp:42-73 | The same for any key material `make_channel` accepts: a repeat needs two equal keys of different directions or generations whose base nonces agree in four bytes, and within the first generation it needs one write key and four common nonce bytes for both directions |
| ChannelReuse.FirstGenerationExactly | src/protocol/channel.cpp:42-48 | A client and a server frame of the first generation can share key and nonce, in some run, if and only if the caller gave both directions one write key and the same first four bytes of nonce |
| ChannelReuse.NextGenerationExactly | src/protocol/channel.cpp:132-164 | A frame of the first and a frame of the next generation, of any directions, can share key and nonce in some run if and only if some update makes the one's key for the other direction with the same first four bytes of nonce |
| ChannelReuse.EqualDirectionsRepeat | src/protocol/channel.cpp:42-48 | The failing input: with equal directions, which `make_channel` accepts, the first frame of each side shares key and nonce with the other |
| ChannelReuse.ChosenFromUpdateRepeats | src/protocol/channel.cpp:132-147 | The other failing input: material whose client key and nonce are what its own update will make repeats key and nonce after that update |
| ChannelReuse.ChosenMaterialExists | src/protocol/session.cpp:108-120 | An update does not look at the write keys, so for every exporter secret with which an update works there is such material |
| ChannelReuse.MeetingSequences | src/protocol/record.cpp:61-69 | Base nonces that agree in four bytes meet for some pair of usable sequence numbers |
| ChannelSafety.CountersOnlyRise | src/protocol/channel.cpp:132-164 | Over every run each side's frames strictly rise in (generation, sequence), the generation counts the key updates exactly, and neither counter wraps |
| ChannelSafety.OpenedWasSealedOnce | src/protocol/channel.cpp:97-123 | For first material from `derive_keys`, against a network that drops, repeats, reorders and injects: every record `open` returns was sealed by the peer with the same type, sequence, plaintext, context and associated data in the same generation (or SHA-256 explicitly collides, or an update made the handshake secret over again), and no (generation, sequence) is returned twice, across window resets |
| ChannelSafety.OpenedForAnyKeys | src/protocol/channel.cpp:97-123 | The same for any key material, where another generation is possible only if that direction has one key in both |
| ChannelSafety.StepKeeps | src/protocol/channel.cpp:79-172 | Every seal, alert, open, update, apply and close, successful or failed, keeps the invariant: lineage of material, rising seals, a window that stands for the accepted set |
| ChannelSafety.RunKeeps | src/protocol/channel.cpp:62-172 | The invariant holds in every reachable state of the two endpoints |
| ChannelSafety.CoincideExplained | src/protocol/session.cpp:57-120 | Why two keys of different directions or generations are equal when the first came from a handshake secret: an explicit collision, or an update that made that secret |
| ChannelSafety.SameBoxIsGenuine | src/protocol/record.cpp:124-139 | If a returned record shares its AEAD call with a sealed frame then sender, header, plaintext and both associated-data parts agree |
| ChannelSafety.TracedStep | src/protocol/channel.cpp:97-123 | A step keeps every returned record traced to some sealed frame |
| ChannelDelivery.EveryFrameOpens | src/protocol/channel.cpp:79-164 | Over lossless first-in first-out links, when an update is sealed only with nothing from the peer in flight and the peer applies it before sending, every frame opens to what was sent and every update applies; and whenever no update is in flight, whatever data is, both ends hold the same generation and material and each window stands exactly as many frames behind the sender's counter as are on the way; `DeliveryExactly` says what other runs do |
| ChannelDelivery.DeliveryExactly | src/protocol/channel.cpp:79-164 | Over every run on lossless links, every frame read, and every frame an open end is about to read, opens to what was sent and applies its update, if and only if no frame was sent across an update; short of an update that leaves that base nonce as it was and of a reader that is closed |
| ChannelDelivery.CrossingFrameIsLost | src/protocol/channel.cpp:132-164 | The failing inputs: a data frame sent before the peer's update was read, and one still unread when its reader announces an update, are refused, as the update changed the base nonce of their direction |
| ChannelDelivery.ViolationShows | src/protocol/channel.cpp:97-147 | From every state reached under the discipline, a frame released against it makes a next read fail, with the same two exceptions |
| ChannelDelivery.SendAcrossUpdate | src/protocol/channel.cpp:79-130 | A data frame or alert sent while an update waits for its sender is the next frame its peer reads, and is refused |
| ChannelDelivery.RekeyAcrossFrames | src/protocol/channel.cpp:132-147 | An update sent while frames wait for its sender makes that sender refuse the next of them |
| ChannelDelivery.StaleRefused | src/protocol/channel.cpp:97-123 | A frame sealed under other material with another base nonce for its direction is refused |
| ChannelDelivery.FlowCounts | src/protocol/channel.cpp:79-123 | A queue without updates holds exactly the frames between what the receiver waits for and what the sender sends next |
| ChannelDelivery.StepKeeps | src/protocol/channel.cpp:79-172 | Each disciplined step keeps the delivery invariant |
| ChannelDelivery.FlowSnoc | src/protocol/channel.cpp:79-91 | A frame added at the end of a queue that the receiver can read in full leaves a queue it can read in full |
| ChannelDelivery.FlightOpens | src/protocol/channel.cpp:97-123 | The frame a receiver waits for opens to exactly the record that was sent |
| ChannelDelivery.UpdateApplies | src/protocol/channel.cpp:149-164 | The update record a receiver opened is accepted and brings it to the sender's next material, with an empty window |
| ChannelDelivery.RekeyKeeps | src/protocol/channel.cpp:132-147 | A key update sealed on an empty inbox keeps the delivery invariant |
| ChannelDelivery.ReceiveKeeps | src/protocol/channel.cpp:97-123 | Reading the next frame, and applying the update it may carry, keeps the delivery invariant |
| Channel.MergedAadInjective | src/protocol/channel.cpp:22-40 | The merged associated data determines both of its parts |
| Channel.OpenedIsNew | src/protocol/channel.cpp:97-123 | A frame that opens has the peer as its sender and its sequence passed the window |
| Channel.ChannelState.Create | src/protocol/channel.cpp:62-73 | `make_channel` fails exactly on wrong key or nonce sizes and starts at sequence 0 with an empty window |
| Channel.ChannelState.Seal | src/protocol/channel.cpp:79-91 | Sealing spends exactly one sequence number on success and changes nothing on failure |
| Channel.ChannelState.Open | src/protocol/channel.cpp:97-123 | A returned record's sequence is new and is added to the accepted set; a failed open changes nothing; `accept` cannot fail after `check` passed |
| Channel.ChannelState.SealAlert | src/protocol/channel.cpp:125-130 | A sent close_notify closes the sender |
| Channel.ChannelState.SealKeyUpdate | src/protocol/channel.cpp:132-147 | Switches both directions to the next material but resets only the send counter; when the update fails after its frame was sealed the sequence number is spent |
| Channel.ChannelState.ApplyKeyUpdate | src/protocol/channel.cpp:149-164 | Switches material and generation and resets only the receive window; any failure changes nothing |
| Channel.ChannelState.Close | src/protocol/channel.cpp:170-172 | Closing changes nothing but the flag |
| Replay.CheckIsExact | src/protocol/replay.cpp:5-20 | `check` succeeds exactly when the sequence is above the highest accepted, or less than 64 below it and not accepted |
| Replay.AdmitTracks | src/protocol/replay.cpp:22-40 | After an accepted sequence the 64-bit bitmap stands for exactly the accepted set with the new one |
| Replay.ReplayWindow.Accept | src/protocol/replay.cpp:22-40 | The bit-shifting `accept` adds exactly the sequence when `check` passes; a refused one changes nothing |
| Replay.ReplayWindow.Reset | src/protocol/replay.cpp:42-46 | A reset window stands for the empty set |
| Replay.OfferTracks | src/protocol/replay.cpp:13-40 | After any run of offers the window stands for the set it accepted |
| Replay.NeverAcceptedTwice | src/protocol/replay.cpp:13-40 | In any run an offer is accepted if and only if it differs from every accepted one and trails none of them by 64 or more |
| Record.SequenceNonceInjective | src/protocol/record.cpp:61-69 | Different sequences give different nonces under one base nonce |
| Record.SequenceNonceKeepsBase | src/protocol/record.cpp:61-69 | Equal nonces at one sequence come from one base nonce |
| Record.MakeNonce | src/protocol/record.cpp:61-69 | The in-place XOR loop computes the sequence nonce |
| Record.DecodeOfEncodeHeader | src/protocol/record.cpp:71-98 | Header decoding undoes encoding |
| Record.EncodeOfDecodeHeader | src/protocol/record.cpp:71-98 | Accepted headers re-encode to the same bytes |
| Record.DecodeOfEncodeFrame | src/protocol/record.cpp:155-185 | Frame decoding undoes encoding |
| Record.EncodeOfDecodeFrame | src/protocol/record.cpp:155-185 | The accepted byte strings are exactly the encoded frames |
| Record.WriteFrame | src/protocol/record.cpp:155-168 | The pushing encoder writes the frame format, with its error cases |
| Record.ReadFrame | src/protocol/record.cpp:170-185 | The offset-advancing decoder reads the frame format, with its error cases |
| Record.SealSucceeds | src/protocol/record.cpp:100-122 | Sealing succeeds exactly for lengths below 2^32 and sequences not exhausted; the header authenticated before encryption is the one sent, and the frame encodes |
| Record.OpenOfSeal | src/protocol/record.cpp:100-139 | Open after seal returns the plaintext, through the byte format too |
| Record.AadBinds | src/protocol/record.cpp:43-50 | Equal record digests come from one header and one associated data, or two transcripts collide |
| Session.UpdateFollowsTag | src/protocol/session.cpp:108-133 | Where the tag can be computed, the update fails only for the size of the exporter secret |
| Session.TagFollowsUpdate | src/protocol/session.cpp:108-133 | Where the update works, its tag can be computed |
| Session.DirectionsBind | src/protocol/session.cpp:57-76 | `derive_keys` gives both directions one write key only at an explicit collision |
| Session.FirstKeyBinds | src/protocol/session.cpp:57-120 | A derived first key equals one made by an update only for the same direction and hello and if the handshake secret is that update's secret, or at a collision |
| Session.ExpandBinds | src/protocol/session.cpp:15-27 | Equal 32-byte outputs of `expand` come from one secret, name, hello and context, or a named hash computation collides |
| Session.UpdateBinds | src/protocol/session.cpp:108-120 | A write key made by an update fixes role, generation, context, hello and exporter secret, or a collision is at hand |
| Transcripts.FrameInjective | src/protocol/transcript.cpp:18-38 | Equal buffers come from equal domains and equal field lists of any length |
| Transcripts.OversizedDomainCollides | src/protocol/transcript.cpp:31-34 | A domain of 2^32 bytes or more is dropped silently, and then another domain with other fields has the same buffer |
| Transcripts.DigestBinds | src/protocol/transcript.cpp:47-49 | Equal digests come from equal transcripts or a collision |
| Transcripts.Transcript.constructor | src/protocol/transcript.cpp:31-34 | A new transcript frames its domain and no fields |
| Transcripts.Transcript.Append | src/protocol/transcript.cpp:18-38 | Appends exactly the field, or changes nothing when name or value does not fit |
| Transcripts.Transcript.AppendU64 | src/protocol/transcript.cpp:40-45 | Appends the number as eight bytes |
| Transcripts.Transcript.Finish | src/protocol/transcript.cpp:47-49 | The digest is the hash of the frame of the fields appended so far |
| Aead.Provider.DecryptOfEncrypt | src/aead/aead.cpp:34-118 | What was sealed opens to the same plaintext, with the ciphertext as long as the plaintext |
| Aead.SoundIsSatisfiable | src/aead/aead.cpp:34-118 | The laws assumed of the provider are consistent |
| Hash.PadIsFips | src/hash/sha256.cpp:61-88 | The padding is that of section 5.1.1 of FIPS 180-4: a one bit, the fewest zeros that fill the block, and a 64-bit length, which is the bit count if and only if the message is shorter than 2^61 bytes |
| Hash.Transform | src/hash/sha256.cpp:42-57 | The in-place compression with its message schedule is the compression function of section 6.2.2 of FIPS 180-4 |
| Hash.HashOnCpu | src/hash/sha256.cpp:61-88 | The block loop with its one- or two-block tail folds the compression function over the padded message, for every message |
| Hash.FillTail | src/hash/sha256.cpp:73-80 | The 64- or 128-byte tail is the end of the padded message |
| GpuBatch.SlotsApartExactly | src/gpu/gpu.cpp:121-121 | With 32-bit offsets the work items write separate slots exactly when there are at most 2^27 messages |
| GpuBatch.HashItem | src/gpu/gpu.cpp:94-120 | The kernel's block loop and its branch at 56 remaining bytes compute the same chain value as the CPU, for every message |
| GpuBatch.HashRest | src/gpu/gpu.cpp:103-120 | The branch on 56 remaining bytes compresses exactly the end of the padded message |
| GpuBatch.Kernel | src/gpu/gpu.cpp:86-128 | A work item writes its message's digest into its slot and nothing else; one beyond the count writes nothing |
| GpuBatch.PackMessages | src/gpu/gpu.cpp:204-217 | Offsets and lengths find every message in the packed buffer |
| GpuBatch.SliceDigests | src/gpu/gpu.cpp:264-268 | The sliced buffer is the list of digests in message order |
| GpuBatch.HashBatch | src/gpu/gpu.cpp:204-268 | For every order of the work items and every buffer, a batch of at most 2^27 messages returns each message's SHA-256 in order; in a larger one the digests from 2^27 on are what the buffer held before |
| Throughput.ChunksTile | src/runtime/throughput.cpp:83-98 | Every item is in exactly the chunk computed for it, when items + chunk does not overflow |
| Throughput.OverflowLosesAll | src/runtime/throughput.cpp:84-84 | The chunk count is zero for a non-empty batch exactly when items + chunk - 1 reaches 2^64 |
| Throughput.SelectedWorkers | src/runtime/throughput.cpp:16-20 | At least one worker, and no more than items |
| Throughput.StepWorker | src/runtime/throughput.cpp:86-102 | Any worker's next atomic step keeps each slot written at most once with its own digest, and lowers unclaimed chunks or remaining effort |
| Throughput.RunWorkers | src/runtime/throughput.cpp:77-103 | Under every schedule all workers stop and every slot is written exactly once with its message's digest; on overflow nothing is written |
| Throughput.HashParallel | src/runtime/throughput.cpp:58-104 | The parallel result is the sequential one if and only if the batch is empty, one worker is used, or items + chunk - 1 does not overflow |
| Kdf.XorPad | src/kdf/hkdf.cpp:9-13 | The in-place XOR of the key block |
| Kdf.HmacSha256 | src/kdf/hkdf.cpp:20-42 | Computes HMAC as section 2 of RFC 2104 defines it |
| Kdf.TrailingZeros | src/kdf/hkdf.cpp:20-42 | Zero bytes after a short key do not change the tag |
| Kdf.HmacBinds | src/kdf/hkdf.cpp:20-42 | Equal tags come from equal padded keys and messages, or the outer or inner hash collides |
| Kdf.HkdfSha256 | src/kdf/hkdf.cpp:44-69 | Yields the first L bytes of T(1) \|\| T(2) \|\| ... of section 2.3 of RFC 5869 for every L up to 255 * 32, the one-byte counter never repeating, and fails above |
| Kdf.HkdfPrefix | src/kdf/hkdf.cpp:44-69 | A shorter output is a prefix of a longer one |
| Kdf.EmptySalt | src/kdf/hkdf.cpp:44-69 | An empty salt equals 32 zero bytes |
| Kdf.Pbkdf2HmacSha256 | src/security/vault.cpp:219-239 | Yields the XOR-fold blocks of section 5.2 of RFC 8018, with the 32-bit block index |
| Kdf.DeriveBlock | src/security/vault.cpp:224-234 | One block is the XOR of its iterated tags |
| Kdf.Pbkdf2Prefix | src/security/vault.cpp:219-239 | A shorter output is a prefix of a longer one |
| Audit.HashMaterialInjective | src/security/audit.cpp:23-35 | What is hashed determines every field of the event but its own hash |
| Audit.HeadBindsHistory | src/security/audit.cpp:66-104 | Two verifying logs with one head hash are one log, lengths included, or an explicit collision on their events is given |
| Audit.AppendExtends | src/security/audit.cpp:68-87 | Appending works exactly on verifying logs and gives a verifying log with the old one as prefix and the new event at the end |
| Audit.CheckEvent | src/security/audit.cpp:91-104 | The checks on one event are those of the chain |
| Audit.VerifyLog | src/security/audit.cpp:91-104 | The loop with its running hash accepts exactly the well-chained logs |
| Audit.DecodeOfEncodeEvent | src/security/audit.cpp:106-127 | Event decoding undoes encoding when each field is below 2^32 bytes |
| Audit.EncodeOfDecodeEvent | src/security/audit.cpp:106-127 | Accepted events re-encode to the same bytes |
| Audit.DecodeOfEncodeLog | src/security/audit.cpp:129-165 | Decoding an encoded log is the identity on verifying logs |
| Audit.EncodeOfDecodeLog | src/security/audit.cpp:129-165 | Whenever bytes are accepted, re-encoding gives those bytes |
| Audit.WriteLog | src/security/audit.cpp:129-142 | The nested writing loop produces the log format |
| Audit.ReadLog | src/security/audit.cpp:144-165 | The cursor loop accepts exactly what the format defines |
| Audit.VerifiedPrefix | src/security/audit.cpp:91-104 | Every prefix of a verifying log verifies |
| Codec.PutWord | src/security/vault.cpp:20-29 | The byte-pushing loops write big-endian integers, truncating to the width |
| Codec.TakeWord | src/security/vault.cpp:38-55 | The cursor reads a big-endian integer or fails without moving |
| Codec.TakeBlob | src/security/vault.cpp:56-62 | The cursor reads a length and that many bytes |
| Codec.BeTruncates | src/security/vault.cpp:30-33 | A length cast to 32 bits is written modulo 2^32 |
| Codec.TakeAllOfPutAll | src/security/ssm.cpp:148-213 | Reading back a written record of fields returns it and leaves what followed |
| Codec.PutAllOfTakeAll | src/security/ssm.cpp:148-213 | What can be read as a record is exactly what would have been written |
| Codec.PutAllInjective | src/security/ssm.cpp:505-520 | Records of one format are a prefix code |
| Codec.ReadValues | src/security/ssm.cpp:195-210 | The cursor over the fields of a record reads what the format defines |
| Codec.WriteValues | src/security/ssm.cpp:152-175 | Pushing field after field writes the format |
| Codec.PutBlobsInjective | src/protocol/transcript.cpp:18-28 | Lists of length-prefixed strings with the same bytes are the same list |
| Codec.TakeBlobsOfPut | src/security/vault.cpp:436-442 | Reading back a written list of strings returns it |
| Codec.ReadBlobs | src/security/vault.cpp:436-442 | The reading loop over length-prefixed strings |
| Codec.WriteBlobs | src/security/vault.cpp:397-399 | The writing loop over length-prefixed strings |
| SsmObject.SymmetricHandlesClash | src/security/ssm.cpp:45-56 | A symmetric key's handle depends on no key bytes: two such keys share it if and only if they were made in one second under one name, or the shortened hash collides on the two inputs |
| SsmObject.HandleMaterialInjective | src/security/ssm.cpp:45-56 | The hashed bytes determine type, algorithm, second, public key and name |
| SsmObject.AssociatedDataInjective | src/security/ssm.cpp:505-520 | The associated data determines handle, type, algorithm, flags, times, names, key ids, domain and limit |
| SsmObject.OpenOfSeal | src/security/ssm.cpp:475-503 | A sealed object opens to its secret whatever its status says |
| SsmObject.DecodeOfEncode | src/security/ssm.cpp:148-213 | Decoding an encoded sealed object returns it |
| SsmObject.EncodeOfDecode | src/security/ssm.cpp:148-213 | Accepted bytes are what the decoded object encodes to |
| SsmObject.WriteSealed | src/security/ssm.cpp:148-179 | The pushing encoder |
| SsmObject.ReadSealed | src/security/ssm.cpp:181-213 | The cursor decoder with magic, checksum, version and trailing-data checks |
| SsmModule.StepKeeps | src/security/ssm.cpp:357-570 | Every locked step keeps each entry opening to the secret it was sealed from |
| SsmModule.SecretsStayOpen | src/security/ssm.cpp:357-570 | In every reachable state, under any interleaving of locked steps, every entry opens to the secret sealed at its creation or import |
| SsmModule.PolicyIsAsSealed | src/security/ssm.cpp:357-366 | No step, in particular no import of an altered object, brings in bound fields that were not sealed under the master key |
| SsmModule.PoliciesStay | src/security/ssm.cpp:357-570 | So in every reachable state each entry has the bound fields, nonce and box of something sealed |
| SsmModule.ExportImportKeeps | src/security/ssm.cpp:348-366 | Export, encode, decode and import under the same master key keep the secret, the bound fields and the status |
| SsmModule.ExportsExactly | src/security/ssm.cpp:339-355 | Active and retired keys export exactly when the flag for it is set, and what is exported is what is stored |
| SsmModule.StatusDoesNotOpen | src/security/ssm.cpp:475-484 | State, counters and rotation play no part in opening |
| SsmModule.SoftwareSecurityModule.StoreSecret | src/security/ssm.cpp:463-473 | Stores under the computed handle, or changes nothing |
| SsmModule.SoftwareSecurityModule.ChangeState | src/security/ssm.cpp:382-389 | Changes only the state, never of a destroyed key |
| SsmModule.SoftwareSecurityModule.RecordOperation | src/security/ssm.cpp:564-570 | Adds one to the counter and sets the time, or does nothing for a missing key |
| SsmModule.SoftwareSecurityModule.LinkRotation | src/security/ssm.cpp:427-444 | The second locked phase of a rotation links both entries |
| SsmModule.SoftwareSecurityModule.ImportSealed | src/security/ssm.cpp:357-366 | Imports exactly what opens, with its status |
| SsmModule.SoftwareSecurityModule.ExportSealed | src/security/ssm.cpp:348-355 | Exports exactly allowed keys, and what is exported opens |
| SsmModule.SoftwareSecurityModule.EraseKey | src/security/ssm.cpp:448-455 | Removes exactly the entry |
| SsmSigning.DomainMessageBinds | src/security/ssm.cpp:70-81 | Signed digests agree only for one handle, algorithm, domain and message, or two transcripts collide |
| SsmSigning.BuildDomainMessage | src/security/ssm.cpp:70-81 | The appends compute the digest, with the error cases |
| SsmRotation.LinesEnd | src/security/ssm.cpp:391-446 | In every run of one-at-a-time calls with fresh handles and no imports, following replacements or originals never repeats a key and ends within as many steps as there are keys |
| SsmRotation.LinksAgree | src/security/ssm.cpp:431-441 | A key and its live replacement point at each other; they share a generation exactly as long as the replacement was not itself rotated, and the replacement's is higher from then on |
| SsmRotation.RotatedTwice | src/security/ssm.cpp:391-446 | The strict case: rotating a key and then its replacement, from any reachable state, leaves the first one generation below the other two |
| SsmRotation.ImportMakesALoop | src/security/ssm.cpp:357-366 | Imports have to be left out: a copy that names itself as its replacement makes a line without end |
| SsmRotation.LineageHolds | src/security/ssm.cpp:391-446 | The lineage invariant holds after every such run |
| SsmRotation.RotateKeeps | src/security/ssm.cpp:391-446 | One rotation keeps the lineage, even of a key rotated before |
| SsmRotation.LinkExtends | src/security/ssm.cpp:427-443 | Linking a key to the one just made keeps the lineage |
| SsmRotation.RotatedOntoItself | src/security/ssm.cpp:391-446 | Without fresh handles it fails: a symmetric key whose rotation succeeds overwrites itself, and becomes its own replacement, if and only if it is rotated under its own name in the second it was made, or the shortened hash collides |
| SsmRotation.ReplacementKeepsPolicy | src/security/ssm.cpp:403-419 | The replacement keeps type, algorithm and export flags, and the domain and limit exactly when asked to |
| SsmRotation.RotateKey | src/security/ssm.cpp:391-446 | The two locked phases one after the other, with every refusal |
| SsmRotation.DestroyedIsFinal | src/security/ssm.cpp:382-389 | A destroyed key stays destroyed, or is gone, over any run none of whose steps is one of those that bring it back |
| SsmRotation.DestroyedChangesExactly | src/security/ssm.cpp:357-455 | Over every locked step and every one-at-a-time call: a destroyed or erased key comes back exactly by an import that opens under its handle in another state, a new key that gets its handle, or the second phase of a rotation of it that retires it; and it is removed exactly by erasing it or clearing the module |
| SsmRotation.FreshRunsKeepDestroyed | src/security/ssm.cpp:382-389 | So with no imports and fresh handles, in every run of one-at-a-time calls, destroyed is final |
| SsmRotation.ImportSetsAnyStatus | src/security/ssm.cpp:357-366 | Importing a copy of an entry sets its state, counter and rotation to whatever the copy says |
| SsmRotation.ExportedCopyRevives | src/security/ssm.cpp:348-366 | A copy exported while active undoes a later destruction and rewinds the operation counter |
| SsmSessions.OperationsAreCounted | src/security/ssm.cpp:276-330 | For every interleaving of n callers at the lock boundaries, from any counter at the start, and as long as no other object is stored or imported under its handle: the counter of a key is its start plus its operations that returned a result, and a non-zero limit is exceeded by at most n - 1 (never for one caller) |
| SsmLimits.AllCallersOvershoot | src/security/ssm.cpp:276-330 | The bound is met for every n and every counter below the limit: n callers let in on the last operation all get it |
| SsmLimits.KeyLimitExactly | src/security/ssm.cpp:276-330 | In runs that put no other object under its handle, a key's limit is enforced if and only if there is one caller |
| SsmLimits.ImportsLiftTheLimit | src/security/ssm.cpp:357-366 | The other failing input: one caller alone uses the key any number of times, whatever its limit, when an earlier copy is imported in between, as the import rewinds the counter |
| SsmLimits.KeyLimitWithImports | src/security/ssm.cpp:276-366 | Over all runs, imports included, the limit is not enforced for any number of callers; with one caller every run past it stores or imports an object under that handle |
| SsmSessions.StepKeepsKey | src/security/ssm.cpp:276-330 | Each locked step keeps the count and the bound |
| SsmSessions.SessionLimitHolds | src/security/ssm.cpp:707-741 | Over every run from a manager without sessions, each counter of each session exceeds its limit by at most n - 1 |
| SsmLimits.SessionOvershoot | src/security/ssm.cpp:707-723 | The bound is met for every n: with one operation of the session left, n callers ask, proceed, finish and settle, and the counter ends n - 1 above the limit |
| SsmLimits.SessionLimitExactly | src/security/ssm.cpp:707-741 | Session limits are enforced in every run if and only if there is one caller |
| SsmLimits.SettlesAnyway | src/security/ssm.cpp:718-722 | Settling does not look at the limit again |
| SsmSessions.SessionsCovered | src/security/ssm.cpp:707-741 | Over every run from a manager without sessions, the counters of all sessions together never exceed the key operations that returned |
| SsmSessions.ClosedForGood | src/security/ssm.cpp:678-692 | A closed session never serves again and its record does not change, whatever the clock says |
| SsmSessions.ExpiredForGood | src/security/ssm.cpp:678-692 | One refusal for expiry closes a session for good, even if the clock moves back |
| SsmSessions.ClosedCallStillSpends | src/security/ssm.cpp:707-723 | A call let in before its session closed still spends a key operation; only the result is withheld |
| SsmSessions.TotalMoves | src/security/ssm.cpp:720-722 | Replacing one session moves the sum of all counters by the difference |
| SsmSessions.SsmSessionManager.OpenNew | src/security/ssm.cpp:626-644 | Opens a session with the given limits, refusing zero lifetime or permissions |
| SsmSessions.SsmSessionManager.Close | src/security/ssm.cpp:646-652 | Closes exactly that session |
| SsmSessions.SsmSessionManager.MutableSession | src/security/ssm.cpp:678-692 | The checks in order; expiry closes the session |
| SsmSessions.SsmSessionManager.Ask | src/security/ssm.cpp:708-715 | The first locked part of a call, with the session limit |
| SsmSessions.SsmSessionManager.SettleCall | src/security/ssm.cpp:718-722 | The last locked part: checked again, then counted |
| SsmSessions.SsmSessionManager.Operate | src/security/ssm.cpp:707-741 | An undisturbed call is the run of one caller: it succeeds exactly if the key was used and the session served |
| SsmUse.BeginExactly | src/security/ssm.cpp:523-562 | A call passes the module's checks exactly when its key is there and active, has room under its limit and permits the purpose |
| SsmUse.UsesWerePermitted | src/security/ssm.cpp:276-330 | As long as no other object is stored or imported under its handle, and whatever else callers and administrators do at once: every operation of a key that returned a result was one its policy permits, with the right type, the flag, and its own domain if it has one |
| SsmUse.DisabledKeyStops | src/security/ssm.cpp:382-389 | Once a key is not active or erased, and until it is made active again or another object is stored or imported under its handle, it yields no more results than there were callers already at work on it |
| SsmUse.ServedWasAllowed | src/security/ssm.cpp:678-692 | Over every run with fresh tokens, whatever a session served was within its permissions, handles and domains |
| Vaults.VaultAadBinds | src/security/vault.cpp:84-99 | The wrapping binds the salt and all metadata but the save time |
| Vaults.DecodeOfEncodeFile | src/security/vault.cpp:374-456 | A written file reads back to itself, or fails with exactly the error of its own parameter or history checks |
| Vaults.EncodeOfDecodeFile | src/security/vault.cpp:374-456 | A complete file that was read is byte for byte what would be written |
| Vaults.WriteVaultFile | src/security/vault.cpp:374-403 | The pushing encoder with its object loop |
| Vaults.ReadVaultFile | src/security/vault.cpp:405-456 | The cursor decoder with its checks in order |
| Vaults.DecodeOfEncodeVault | src/security/vault.cpp:110-149 | A saved vault opens under its passphrase if and only if its parallelism is not zero and its generation did not wrap; then id, name, key and objects are the same, the generation is one higher and the log has one vault_unlocked event more |
| Vaults.VaultRoundTrip | src/security/vault.cpp:110-149 | What a reader gets back field by field: same key, objects, id, name, creation time and parameters, the next generation, the head of the saved log noted, and a verifying log with one vault_unlocked event more |
| Vaults.UnlockOfLock | src/security/vault.cpp:346-372 | Unlocking what was locked |
| Vaults.RollbackIsSeen | src/security/vault.cpp:473-485 | Over any number of save and load cycles the generation rises by one each time, the history grows, a later anchor rejects every earlier vault and an earlier anchor accepts every later one |
| Vaults.AnchorBindsHistory | src/security/vault.cpp:477-485 | A vault that passes another's anchor in the same generation has its whole history, or a collision is given |
| Vaults.SavingTwiceKeepsGeneration | src/security/vault.cpp:117-117 | Saving one vault in memory twice gives two files of one generation |
| Vaults.OpenModule | src/security/vault.cpp:458-465 | The import loop yields a valid module with exactly the imported entries |
| Vaults.OpenSsmRestores | src/security/vault.cpp:458-465 | A module opened on a vault holds every object under its handle, each opening to its secret |
| VaultStore.NoSaveIsLost | src/security/vault.cpp:280-344 | When the first file and every saved one open: over any sequence of saves that may succeed, fail or die anywhere, with torn temporary and backup files, loading finds exactly one whole version, never older than the last reported success |
| VaultStore.SurvivesExactly | src/security/vault.cpp:295-305 | A loadable vault survives every save of a file that opens if and only if its primary opens or does not exist: a damaged primary is copied over the good backup |
| VaultStore.SaveIsAtomic | src/security/vault.cpp:280-305 | If the primary opens before a save, a load after it finds exactly the old or the new vault |
| VaultStore.BackupIsPrevious | src/security/vault.cpp:295-299 | After a completed save the backup is the previous primary, and losing the new one recovers it |
| VaultStore.SavedVaultLoads | src/security/vault.cpp:280-344 | A vault whose save reported success is the vault the next load returns |
| VaultStore.VaultDirectory.Save | src/security/vault.cpp:287-304 | The file steps, each of which may fail or be the last |
| VaultStore.VaultDirectory.LoadAny | src/security/vault.cpp:307-344 | The primary if it opens, else the backup |

## Left out

- Runtime failures of the OpenCL device, among them the refusal of empty buffers.
- GpuBatch.HashBatch: above 2^27 messages it does not say which of two messages that share a slot is left in it, as that depends on the order of the work items.
- SsmRotation.LinesEnd: is for calls run one at a time with fresh handles and no imports, because `RotatedOntoItself` and `ImportMakesALoop` show it fails otherwise and `rotate_key` takes its lock twice and another call may replace either entry in between; interleaved lock phases are covered by `SecretsStayOpen`, which does not depend on links.
- VaultStore.NoSaveIsLost: assumes that a rename is atomic and sees the whole temporary file; the original does not call fsync (docs/VAULT-HARDENING.md:22), and reordering by the operating system is not modelled.
- Update in place inside the kernel's compression function: it is the CPU's function word for word, so the kernel shares `Hash.Transform`.
- Hashing inside the scheduler, the codecs and the key derivations calls the specification function; the loops that compute it are proved against it separately.
- Error messages; an error is its code.
- OpenSSL, liboqs and the OpenCL runtime: encryption, signatures, key encapsulation and devices are inputs or the ideal box.
- Handshake messages, cipher-suite negotiation, confirmation tags, exported secrets and `should_rekey`: small finite facts or further uses of `expand`.
- Key files and the hybrid packing: single codecs of the kind already proved.
- `list`, `info`, `session_info` and the recovery report: copies of state shown to the user; sorting them by time.
- `collect_from_ssm`: it starts a new audit log, so no claim about history holds for it.
- Creating and re-keying a vault: they fill in defaults covered by the save.
- Memory locking, zeroing, aligned buffers, CPU detection and SIMD dispatch: the SIMD variants call the scalar hash.
- Command-line tools, reports, self-tests and the facade.
- Timing and cryptographic hardness.
