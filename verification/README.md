# A Dafny model of the `ire` I2P router

`ire` is an I2P router. This project models its cryptographic arithmetic, its two
transports, its tunnel code, its network database and its message codec, and proves
what they are for: that what one router signs, encrypts, frames or announces is what
the other verifies, decrypts, parses or looks up, over every input and every run.

The main results are these.

- **Arithmetic.** Fermat's little theorem is proved from scratch. From it: a DSA
  signature verifies exactly when neither r nor h(m) + a·r vanishes modulo q, and of all
  signatures exactly those verify that satisfy the signing equation; ElGamal
  decryption undoes encryption for every key, nonce and message of at most 222 bytes,
  in both layouts; the two ends of a Diffie-Hellman exchange derive the same bytes.
- **NTCP.** In every interleaving of deliveries of any size, polls, sends and reads, two
  honest parties never err or panic, hold one key and agree on everything signed once
  both are open, and receive each other's frames in order; and the handshake is never
  stuck once what was sent has arrived. A party that is open, whatever bytes it was sent,
  has seen its peer's signature of the exchange its key comes from.
- **NTCP2.** The two ends stay on the same link of the SipHash length-mask chain under
  any fragmentation; and from one router's queue to the other's distributor, messages
  arrive in order whatever the back pressure.
- **Tunnels.** A tunnel message survives any number of hops; a build reply comes out of
  its onion at the right index; a message is not passed on twice within a tunnel
  lifetime, and one for a live hop is passed on unless the filter's history covers it; an
  acceptance is never sent before the hop is registered.
- **Network database.** A lookup ends, asks nobody twice, always asks the nearest peer
  known, and leaves nobody named unasked; every waiter is served at most once and with
  what it asked for.
- **I2NP.** Messages with garlic cloves nested to any depth are read back exactly, with
  whatever follows them.

## How it is organised

| file | models |
|---|---|
| `Bytes`, `NumberTheory`, `BigUint` | bytes and big-endian numbers; modular arithmetic; `BigUint` and `rectify` |
| `Dsa`, `ElGamal`, `DiffieHellman` | the three public-key schemes |
| `Cbc`, `CbcStream` | CBC over an arbitrary block cipher, `Aes256`, and a receiver of a CBC stream |
| `Parsing`, `I2np`, `I2npRoundTrip`, `I2npWriter` | parser combinators; the I2NP codec; its round trips; its in-place generators |
| `NtcpFrame`, `NtcpCodec` | NTCP data frames and the data-phase codec |
| `NtcpHandshakeFrame`, `NtcpHandshakeCodec`, `NtcpHandshake`, `NtcpHandshakeProof`, `NtcpHandshakeProgress`, `NtcpHandshakeAuth` | the NTCP handshake: messages, codecs, the two parties, agreement, progress, and what each party is sure of whoever the other is |
| `Ntcp2Frame`, `Ntcp2Codec`, `Ntcp2Session`, `Ntcp2Handshake` | NTCP2 blocks, codec, session and handshake lengths |
| `TunnelCrypto`, `TunnelFrame`, `BuildRecord` | tunnel layers and build replies, tunnel message framing, build request records |
| `DecayingFilter`, `TunnelParticipant`, `TunnelAcceptor` | the duplicate filter, the participant, the acceptor |
| `NetDbLookup`, `NetDbStore`, `SessionTable` | iterative lookup, the local store, the session table |
| `Serialize` | the grow-and-retry serialiser |

Objects the router updates in place are classes; their methods are proved equal to
functions on values, and the results over whole runs are proved of those functions.
Loops are methods with invariants. Hashes are functions of fixed output length, AES a
keyed permutation with an inverse, signatures a pair of functions of which one accepts
what the other makes, an authenticated cipher an injection that adds sixteen bytes, and
SipHash an arbitrary function. Randomness, clocks, deliveries and the answers of peers
are parameters or events. A Rust panic is a value: `None`, `Panicked`, `Panic`,
`Unimplemented` or a broken phase. A length that would be negative is such a panic; it
is one in builds with overflow checks, and a wrap-around, not modelled, in builds
without.

Where the code differs from its comments, or from what its other parts lead one to
expect, the code is followed:

- The filter's promise of no false negatives within two decay periods counts from when a
  value was taken for new, not from when it was last seen
  (`DecayingFilter.RemembersExactly`, `DecayingFilter.SeenYetForgotten`).
- The loop that is to collect all lookups that succeed collects them only if the last
  one to finish succeeds (`NetDbLookup.ProcessSearchReply`, `NetDbLookup.FoundYetLost`).
- A session's end removes whichever session its peer has by then
  (`SessionTable.DropEndsOwnSession`, `SessionTable.NewerSessionForgotten`,
  `SessionTable.ReachableUnlessDoubled`).
- DSA signing does not draw again when r or s is zero (`Dsa.SignedVerifies`,
  `Dsa.OneKeyFails`, `Dsa.ZeroSIsSigned`).
- An NTCP2 SessionConfirmed payload of 65472 to 65519 bytes is accepted and then cannot
  be sent (`Ntcp2Handshake.AcceptedIsSendable`, `Ntcp2Handshake.AcceptedYetUnsendable`).
- NTCP2 frames are packed by the number of blocks, not by size, so ordinary blocks can
  make a frame that ends the session (`Ntcp2Session.PackableNeverEnds`,
  `Ntcp2Session.PackingEndsSession`, `Ntcp2Session.TwoLongMessagesEndIt`).

## Model

| member | source | states |
|---|---|---|
| NumberTheory.Fermat | src/crypto/dsa.rs:112-113 | Fermat's little theorem, on which every inverse in the source rests: a^(p-1) is 1 modulo a prime p that does not divide a |
| NumberTheory.FermatInverse | src/crypto/dsa.rs:112-113 | a^(q-2) mod q is the inverse of a modulo the prime q |
| BigUint.FixedWidthRoundTrip | src/crypto/math.rs:9-26 | a number is recovered from its fixed-width bytes if and only if it fits |
| BigUint.MinimalRoundTrip | src/crypto/elgamal.rs:153-161 | reading bytes and writing them minimally returns them if and only if there is no needless leading zero |
| BigUint.Rectify | src/crypto/math.rs:9-26 | the loop-free padding code yields exactly the fixed-width form, and panics exactly on numbers that do not fit |
| Dsa.Sign | src/crypto/dsa.rs:96-127 | the signing code yields the signature that the correctness theorem is about, and never panics in `rectify` |
| Dsa.SampleScalar | src/crypto/dsa.rs:81-93 | the rejection loop returns the first draw strictly between 0 and q, and none exactly when every draw is 0 or too big |
| Dsa.SignedVerifies | src/crypto/dsa.rs:96-180 | for every key, nonce and message the signature survives its 40-byte encoding, and is accepted under the matching public key if and only if r and h(m) + a·r are non-zero modulo q |
| Dsa.VerifiesIff | src/crypto/dsa.rs:150-180 | of all signatures, whoever made them, exactly those verify whose r and s lie strictly between 0 and q and for which g^k modulo p and then q is r, where s·k = h(m) + a·r modulo q |
| Dsa.NonceExists | src/crypto/dsa.rs:162-163 | such a k exists for every s in range |
| Dsa.OneKeyFails | src/crypto/dsa.rs:96-180 | for every nonce with r not zero and every message, exactly one private key modulo q makes a signature that is rejected |
| Dsa.ZeroSIsSigned | src/crypto/dsa.rs:109-127 | a group, key, nonce and hash for which s is zero and the signature, made all the same, is rejected |
| Dsa.PublicKeyRoundTrip | src/crypto/dsa.rs:132-147 | a public key survives its 128-byte encoding |
| ElGamal.BasicRoundTrip | src/crypto/elgamal.rs:75-161 | basic encryption succeeds exactly below p, and basic decryption recovers the number encrypted |
| ElGamal.Encrypt | src/crypto/elgamal.rs:94-139 | the buffer-filling code yields the ciphertext that the round trip is about |
| ElGamal.GenerateKeys | src/crypto/elgamal.rs:42-62 | a generated pair is 256 bytes each, and the public key is the power of the private one |
| ElGamal.RoundTrip | src/crypto/elgamal.rs:94-207 | encryption succeeds if and only if the message has at most 222 bytes, and then decryption returns it, in the 512-byte and the 514-byte layout |
| ElGamal.CiphertextNumbers | src/crypto/elgamal.rs:75-139 | the halves of a 512-byte ciphertext are g^k and m·y^k modulo p, and there is one exactly for messages of at most 222 bytes below p |
| ElGamal.OpensIff | src/crypto/elgamal.rs:153-207 | of all byte strings, exactly those open to a message that have 512 bytes and give, as delta over gamma^a, a byte, the hash of the message and the message |
| DiffieHellman.KeyBuilder.BuildSessionKey | src/crypto/dh.rs:28-48 | the insert-and-extend code yields the first 32 bytes of the positive two's-complement form, zero-padded |
| DiffieHellman.TwosComplementIsMinimal | src/crypto/dh.rs:28-48 | that form has its sign bit clear, denotes the secret, and is the shortest that does |
| DiffieHellman.SessionKeyByte | src/crypto/dh.rs:28-48 | byte by byte, the key is the start of that form of the peer's value to the power of the private exponent, and zeros after its end |
| DiffieHellman.KeysAgree | src/crypto/dh.rs:15-48 | both ends derive the same key through the 256-byte encodings of their public values |
| Cbc.DecryptEncrypt | src/crypto/mod.rs:645-667 | CBC decryption undoes CBC encryption on whole blocks |
| Cbc.EncryptDecrypt | src/crypto/mod.rs:645-667 | and the other way round |
| Cbc.EncryptedBlock | src/crypto/mod.rs:645-655 | section 6.2 of NIST SP 800-38A: each ciphertext block is the cipher of its plaintext block xored with the ciphertext block before it, the first with the IV |
| Cbc.DecryptedBlock | src/crypto/mod.rs:657-667 | and each block decrypted is the inverse cipher of its ciphertext block, xored with the one before it |
| Cbc.EncryptConcat | src/crypto/mod.rs:645-667 | encrypting in pieces with the chain carried on equals encrypting at once |
| Cbc.DecryptSlice | src/crypto/mod.rs:645-667 | any whole-block slice of a ciphertext decrypts, from the chain before it, to the same slice of the plaintext |
| Cbc.Aes256.EncryptBlocks | src/crypto/mod.rs:645-655 | whole blocks are encrypted and the chain carried on; a partial block at the end is untouched |
| Cbc.Aes256.DecryptBlocks | src/crypto/mod.rs:657-667 | the same for decryption |
| CbcStream.SyncedAdvance | src/transport/ntcp/mod.rs:79-88 | decrypting past the watermark keeps the buffer a stretch of plaintext followed by a stretch of ciphertext of the same stream |
| CbcStream.SyncedConsume | src/transport/ntcp/mod.rs:99-105 | and so does dropping a frame from the front |
| I2npRoundTrip.CertificateBack | src/data/frame.rs:203-262 | a certificate is read back with exactly what follows it |
| I2npRoundTrip.InstructionsBack | src/i2np/frame.rs:426-488 | garlic clove delivery instructions are read back from their flag bits and optional fields |
| I2npRoundTrip.LookupBack | src/i2np/frame.rs:286-380 | a database lookup is read back from its flag bits, excluded peers and reply encryption |
| I2npRoundTrip.PayloadBack | src/i2np/frame.rs:743-830 | every well-formed payload is read back, garlic nested to any depth included |
| I2npRoundTrip.MessageBack | src/i2np/frame.rs:733-846 | every well-formed message followed by any bytes is read back as that message and those bytes |
| I2npRoundTrip.AcceptedIsIntact | src/i2np/frame.rs:721-774 | whatever the input, a message accepted carries the checksum of as many bytes as its header announces, and the identifier and expiry at their offsets |
| I2npRoundTrip.Ntcp2MessageBack | src/i2np/frame.rs:776-859 | the NTCP2 form loses exactly the fraction of a second of the expiry; the round trip holds if and only if there is none |
| I2npRoundTrip.GatewayNeverBack | src/i2np/frame.rs:573-587 | no TunnelGateway payload is ever read back as it was written |
| I2npWriter.WriteMessage | src/i2np/frame.rs:832-846 | skipping, writing and patching yields exactly the serialised message, and fails exactly when it does not fit |
| I2npWriter.WritePayload | src/i2np/frame.rs:810-830 | the same for payloads |
| I2npWriter.WriteGarlic | src/i2np/frame.rs:542-554 | the same for the loop over cloves |
| I2npWriter.WriteClove | src/i2np/frame.rs:509-521 | the same for one clove, which writes a message in turn |
| NtcpFrame.Adler | src/transport/ntcp/frame.rs:41-56 | the per-byte loop equals the closed sums of section 2.2 of RFC 1950, and its 32-bit accumulators never overflow |
| NtcpFrame.WriteFrame | src/transport/ntcp/frame.rs:68-143 | skipping, writing, patching and summing yields exactly the frame, and fails exactly when it does not fit |
| NtcpFrame.FrameFits | src/transport/ntcp/frame.rs:84-96 | a standard frame fits the MTU if and only if its message has at most 16378 bytes |
| NtcpFrame.FrameBack | src/transport/ntcp/frame.rs:58-143 | a frame followed by any bytes is read back as that frame and those bytes |
| NtcpFrame.PrefixIncomplete | src/transport/ntcp/frame.rs:58-133 | part of a frame, short by a block or more, asks for more and never fails |
| NtcpFrame.AcceptedIsIntact | src/transport/ntcp/frame.rs:58-133 | whatever the input, a frame accepted is a whole number of blocks that end in the Adler-32 checksum of all that comes before it |
| NtcpCodec.Codec.Decode | src/transport/ntcp/mod.rs:79-106 | the in-place decoder computes the decode step that the stream theorem is about |
| NtcpCodec.Codec.Encode | src/transport/ntcp/mod.rs:113-143 | it succeeds if and only if the frame fits the MTU, and then appends its encryption and carries the chain on |
| NtcpCodec.DecodeInStep | src/transport/ntcp/mod.rs:79-106 | a decode yields the next frame if all of its blocks have arrived and nothing otherwise, and stays in step |
| NtcpCodec.StreamDelivers | src/transport/ntcp/mod.rs:75-143 | for all frames and every way of cutting the stream: no error, delivered frames are a prefix of those sent, and all of them once everything has arrived and a poll finds nothing |
| NtcpCodec.EncodeContinues | src/transport/ntcp/mod.rs:109-143 | frames encoded one by one form one CBC stream |
| NtcpHandshakeFrame.CreatedInnerBack | src/transport/ntcp/handshake/frame.rs:69-81 | the inner part of SessionCreated is read back |
| NtcpHandshakeFrame.ConfirmABack | src/transport/ntcp/handshake/frame.rs:115-140 | SessionConfirmA followed by any bytes is read back with exactly those bytes |
| NtcpHandshakeFrame.ConfirmAPrefix | src/transport/ntcp/handshake/frame.rs:115-126 | any proper prefix of SessionConfirmA asks for more |
| NtcpHandshakeFrame.ConfirmBBack | src/transport/ntcp/handshake/frame.rs:150-173 | SessionConfirmB followed by any bytes is read back with exactly those bytes |
| NtcpHandshakeCodec.InboundHandshakeCodec.Decode | src/transport/ntcp/handshake/mod.rs:122-175 | the responder's in-place decoder computes the decode step of the protocol model |
| NtcpHandshakeCodec.InboundHandshakeCodec.Encode | src/transport/ntcp/handshake/mod.rs:182-271 | the same for its encoder |
| NtcpHandshakeCodec.OutboundHandshakeCodec.Decode | src/transport/ntcp/handshake/mod.rs:313-419 | the initiator's in-place decoder computes the decode step of the protocol model |
| NtcpHandshakeCodec.OutboundHandshakeCodec.Encode | src/transport/ntcp/handshake/mod.rs:426-489 | the same for its encoder |
| NtcpHandshakeProof.AliceDecodesConfirmB | src/transport/ntcp/handshake/mod.rs:377-419 | waiting for SessionConfirmB, the initiator's decode yields nothing or exactly the responder's signature, and what was read beyond it stays in step for the data phase |
| NtcpHandshakeProof.BobDecodesConfirmA | src/transport/ntcp/handshake/mod.rs:127-175 | the same for the responder and SessionConfirmA |
| NtcpHandshakeProof.StepKeeps | src/transport/ntcp/handshake/mod.rs:593-860 | every event keeps the invariant that ties the two parties, their streams and their chains together |
| NtcpHandshakeProof.HandshakeAgreement | src/transport/ntcp/handshake/mod.rs:593-860 | over every run of honest parties: no error and no panic; one key and agreement on X, Y, both timestamps and the initiator's identity once both are open; frames received are a prefix of frames sent, both ways, and all of them once every byte has arrived and a read yields no more, what came in behind the handshake included; each decryption chain meets the other's encryption chain |
| NtcpHandshakeProgress.HandshakeNeverStalls | src/transport/ntcp/handshake/mod.rs:593-860 | in every reachable state with both pipes empty, both sides are open or a poll moves one of them to its next phase |
| NtcpHandshakeAuth.ResponderAuthenticates | src/transport/ntcp/handshake/mod.rs:593-690 | whatever bytes arrive, in every reachable state past SessionRequest the responder read X and H(X) xor H(its identity) off the wire and holds the key that goes with X; in every one past SessionConfirmA it saw a signature, under the identity it reports, of X, Y, the hash of its own identity and both timestamps |
| NtcpHandshakeAuth.InitiatorAuthenticates | src/transport/ntcp/handshake/mod.rs:786-855 | whatever bytes arrive, in every reachable state past SessionCreated the initiator read Y off the wire, holds the key that goes with it, and found H(X + Y) and the timestamp under that key; once open it saw a signature, under the identity it meant to reach, of X, Y, the hash of its own identity and both timestamps |
| Ntcp2Frame.BlockBack | src/transport/ntcp2/frame.rs:27-208 | every well-formed block is read back with exactly what follows it; a message loses the fraction of a second of its expiry |
| Ntcp2Frame.FrameBack | src/transport/ntcp2/frame.rs:210-220 | a frame is read back block for block; only the empty frame, which can be written, is refused |
| Ntcp2Codec.LengthUnmasked | src/transport/ntcp2/mod.rs:183-190 | unmasking undoes masking for every frame length under any mask value |
| Ntcp2Codec.EncodeStep | src/transport/ntcp2/mod.rs:235-276 | a frame is sealed if and only if it has at most 65519 bytes, and the message number counts exactly the sealed ones |
| Ntcp2Codec.WireIs | src/transport/ntcp2/mod.rs:235-276 | on the wire are the length, xored with the next link of the mask chain, and the frame sealed under the message number |
| Ntcp2Codec.DeliveredWasOpened | src/transport/ntcp2/mod.rs:177-228 | whatever arrives, a frame delivered is what the bytes that the unmasked length calls for opened to, under the next message number |
| Ntcp2Codec.Codec.Decode | src/transport/ntcp2/mod.rs:177-228 | the in-place decoder computes the decode step of the link model |
| Ntcp2Codec.Codec.Encode | src/transport/ntcp2/mod.rs:235-276 | the same for the encoder, its buffer on the failing paths included |
| Ntcp2Codec.DecodeInStep | src/transport/ntcp2/mod.rs:177-228 | a decode delivers the next frame or nothing, never an error, stays in step, and delivers whenever a whole frame has arrived |
| Ntcp2Codec.LinkDelivers | src/transport/ntcp2/mod.rs:163-276 | over every interleaving of sends, arrivals and polls: no error; frames delivered are the first of those sent; the two mask chains and message numbers differ by exactly the frames not yet begun; nothing in flight and nothing found means all delivered |
| Ntcp2Codec.SetUp | src/transport/ntcp2/handshake/mod.rs:220-264 | codecs made by the two ends of one handshake have cross-assigned masks, starting values and message numbers, so each direction is such a link |
| Ntcp2Session.OutboundSession.StartSend | src/transport/ntcp2/mod.rs:525-549 | the drain-and-restore code computes the send step; a refused block comes back and the queue is as it was |
| Ntcp2Session.OutboundSession.PollComplete | src/transport/ntcp2/mod.rs:551-568 | the same for flushing, the connection's own flush and its failure included |
| Ntcp2Session.Session.Poll | src/transport/ntcp2/mod.rs:333-361 | the write loop computes the session's write step |
| Ntcp2Session.BlocksInOrder | src/transport/ntcp2/mod.rs:333-568 | whatever the connection answers: blocks sent are the first blocks pushed, the rest are all still held until an error, frames have one to ten blocks; once the connection accepts, whatever it refused before, one poll sends everything and only a failed flush ends the session |
| Ntcp2Session.SealedBySize | src/transport/ntcp2/mod.rs:235-276 | a frame of given blocks is sealed if and only if they have at most 65519 bytes, whatever the padding drawn |
| Ntcp2Session.PackableNeverEnds | src/transport/ntcp2/mod.rs:333-568 | under any back pressure, blocks of which any ten or fewer in a row have at most 65519 bytes never end the session |
| Ntcp2Session.PackingEndsSession | src/transport/ntcp2/mod.rs:525-568 | over a connection that does not refuse for ever, some way of pushing and polling given blocks ends the session if and only if ten or fewer of them in a row have more than 65519 bytes |
| Ntcp2Session.TwoLongMessagesEndIt | src/transport/ntcp2/mod.rs:525-568 | two messages of 40000 bytes, each of which can be sealed alone, can end a session |
| Ntcp2Session.InboundSession.Poll | src/transport/ntcp2/mod.rs:410-490 | messages are handed on in order, one at a time, and none exactly when no block waiting carries one |
| Ntcp2Session.BlockHanded | src/transport/ntcp2/mod.rs:410-455 | in its place among the others, a message block hands on its message, a router info block its router info if and only if it is the peer's, and any other block nothing |
| Ntcp2Session.MessagesInOrder | src/transport/ntcp2/mod.rs:163-568 | from the sender's queue through packing, masking, sealing and fragmentation to the receiver: messages handed on are a prefix of messages pushed, and all of them once nothing waits, nothing is in flight and a poll finds nothing |
| Ntcp2Handshake.RequestOptionsBack | src/transport/ntcp2/frame.rs:228-261 | the SessionRequest options are read back |
| Ntcp2Handshake.CreatedOptionsBack | src/transport/ntcp2/frame.rs:265-285 | the SessionCreated options are read back |
| Ntcp2Handshake.AcceptedIsSendable | src/transport/ntcp2/handshake/mod.rs:350-369 | an accepted SessionConfirmed payload can be sent if and only if it has at most 65471 bytes |
| Ntcp2Handshake.AcceptedYetUnsendable | src/transport/ntcp2/handshake/mod.rs:350-369 | a payload of 65472 bytes is accepted and announced and cannot be sent |
| Ntcp2Handshake.ReadsAlign | src/transport/ntcp2/handshake/mod.rs:100-177 | the responder's exact reads cut the initiator's stream exactly where it was joined and leave the data phase whole |
| Ntcp2Handshake.InitiatorReadsAlign | src/transport/ntcp2/handshake/mod.rs:449-480 | and the same for the initiator's reads of the responder's stream |
| TunnelCrypto.LayerCipher.EncryptLayer | src/tunnel/encryption.rs:37-49 | the three in-place steps compute the layer function |
| TunnelCrypto.LayerCipher.DecryptLayer | src/tunnel/encryption.rs:55-67 | the same for taking a layer off |
| TunnelCrypto.LayerInverse | src/tunnel/encryption.rs:37-67 | adding and taking off a layer undo each other in both orders |
| TunnelCrypto.LayerBlock | src/tunnel/encryption.rs:37-49 | block by block: the first block is encrypted twice under the IV key, the others in a chain under the layer key from the first encrypted once |
| TunnelCrypto.PeelingUndoesHops | src/tunnel/encryption.rs:37-67 | for any list of hops, peeling in reverse undoes, and done beforehand cancels, what the hops do |
| TunnelCrypto.ResponseParses | src/i2np/frame.rs:140-173 | a build response record parses to its reply |
| TunnelCrypto.ResponseParsesIff | src/i2np/frame.rs:140-159 | of 528 bytes exactly those parse whose first 32 hash the rest, to the last byte |
| TunnelCrypto.ProcessRecords | src/tunnel/acceptor.rs:341-364 | the in-place loop replaces our record and encrypts every record from the same IV |
| TunnelCrypto.OwnedUnwraps | src/tunnel/acceptor.rs:341-364 | undoing the encryptions of a hop and all later ones gives that hop's record, which parses to its reply |
| TunnelCrypto.UnownedUnwraps | src/tunnel/acceptor.rs:341-364 | records no hop owns come back unchanged |
| TunnelFrame.ByteLenIsLength | src/tunnel.rs:78-110 | the computed length is the serialised length |
| TunnelFrame.TunnelMessageBack | src/tunnel/frame.rs:65-237 | a message that fits is exactly 1024 bytes, its first zero after the checksum is the delimiter, and it is read back with fragment numbers modulo 64 |
| TunnelFrame.AcceptedIsIntact | src/tunnel/frame.rs:196-211 | whatever the input, a message accepted has a zero after its checksum, and the checksum is that of the bytes after the first zero up to byte 1024, and the IV |
| TunnelFrame.TunnelCarries | src/tunnel/frame.rs:196-237 | written at one end, put through every hop and peeled, a message is read back if and only if its fragment numbers are below 64 |
| BuildRecord.RequestBack | src/i2np/frame.rs:48-138 | a build request record is read back whatever its padding |
| BuildRecord.RequestFields | src/i2np/frame.rs:48-109 | which 222-byte records parse, and the offset of each field |
| BuildRecord.SealedOpens | src/i2np/mod.rs:109-127 | every request sealed to a hop is 528 bytes, carries the hop's mark, and opens to that request under the hop's key |
| BuildRecord.FindOurEntry | src/tunnel/acceptor.rs:429-436 | the loop finds the first record with our mark, and none exactly when there is none |
| DecayingFilter.DecayingBloomFilter.Feed | src/util.rs:77-84 | it answers whether the value is in either layer and enters it only if not |
| DecayingFilter.DecayingBloomFilter.Decay | src/util.rs:87-90 | the current layer becomes the previous one and an empty one the current |
| DecayingFilter.NewAgainAfterTwoDecays | src/util.rs:53-91 | a value taken for new twice has at least two decays in between, whatever the hashes |
| DecayingFilter.RemembersExactly | src/util.rs:53-91 | whatever the hashes, a value is recognised if and only if all its bits were set by values taken for new since the last decay, or all by values taken for new in the period before |
| DecayingFilter.RemembersOwn | src/util.rs:53-91 | a value with a bit that no other value fed shares is recognised if and only if it was itself taken for new fewer than two decays ago |
| DecayingFilter.SeenYetForgotten | src/util.rs:53-91 | a value seen within the last decay period, but already known then, is forgotten |
| TunnelParticipant.Participant.Poll | src/tunnel/processor.rs:152-236 | one turn of the loop computes the turn function: registrations, expiry, decay, checks |
| TunnelParticipant.ProcessHop | src/tunnel/processor.rs:73-88 | a message let through gets this hop's layer and the next hop's identifier |
| TunnelParticipant.NoReplays | src/tunnel/processor.rs:152-236 | over every run, two messages passed on with equal IV xor first block are two decays and 600 seconds apart |
| TunnelParticipant.DroppedLeavesNoTrace | src/tunnel/processor.rs:183-230 | a message is dropped if and only if the state is unchanged; one let through adds only its own value to the filter and goes on, unchanged, for the hop registered under its identifier |
| TunnelParticipant.OnlyVettedForwards | src/tunnel/processor.rs:152-236 | over every run, what is passed on came from the previous hop of the intermediate hop last registered under its identifier and, if registrations arrive in time, less than ten seconds past its expiry; no panic if only intermediate hops are registered |
| TunnelParticipant.LiveHopsAreKept | src/tunnel/processor.rs:157-173 | over every run, the hop last registered under an identifier is held for as long as it has not expired |
| TunnelParticipant.FilterIsHistory | src/tunnel/processor.rs:152-236 | over every run without a panic, the two layers of the filter are the bits of the messages passed on since the last decay and in the period before, and the next decay is due 600 seconds after the last |
| TunnelParticipant.LiveMessagePasses | src/tunnel/processor.rs:152-236 | after every run, a message from the previous hop of a live intermediate hop is passed on with that hop and its data if and only if its IV xor first block has a bit missing in each of those layers, after the decay that may be due |
| TunnelAcceptor.Timely | src/tunnel/acceptor.rs:222-246 | a request is timely if and only if it is less than 3901 seconds old and less than 301 seconds ahead |
| TunnelAcceptor.HopAcceptor.DecryptRecord | src/tunnel/acceptor.rs:178-268 | the checks in order compute the decrypt step |
| TunnelAcceptor.HopAcceptor.Resolve | src/tunnel/acceptor.rs:269-332 | the decision computes the resolve step |
| TunnelAcceptor.HopAcceptor.Register | src/tunnel/acceptor.rs:333-340 | the hop is on the channel by the time its acceptor goes on to encrypt |
| TunnelAcceptor.HopAcceptor.EncryptRecords | src/tunnel/acceptor.rs:341-373 | the reply sent is the processed records, as a reply from the outbound endpoint only |
| TunnelAcceptor.RequestIsAnswered | src/tunnel/acceptor.rs:178-373 | a fresh, timely and loop-free request, taken through its steps, is answered, and registered exactly if it is for an intermediate hop |
| TunnelAcceptor.SealedRequestIsAnswered | src/tunnel/acceptor.rs:178-373 | the same from the asker's sealing of the record to our key |
| TunnelAcceptor.AcceptancesAreRegistered | src/tunnel/acceptor.rs:175-427 | over every interleaving of acceptors: no reply key is acted on twice; each acts only on what its own record decrypts to; every registered hop is a timely, loop-free, intermediate one between the peers, with the keys and for the lifetime that the request calls for, and is registered once; every reply goes to the next peer with our answer in it; an acceptance is sent only for an intermediate hop that is registered |
| TunnelAcceptor.ReplyReads | src/tunnel/acceptor.rs:341-373 | whoever holds the reply key gets from a reply every other record as it was and, in ours, the answer |
| TunnelAcceptor.ParticipantNeverPanics | src/tunnel/processor.rs:211-223 | a participant given only hops that acceptors registered never reaches its unimplemented cases |
| NetDbLookup.LexIsNumeric | src/netdb/mod.rs:301-310 | byte arrays of one length compare as the numbers they denote |
| NetDbLookup.MetricOrder | src/netdb/mod.rs:301-310 | distances compare as the source compares them, and equal distances mean equal hashes |
| NetDbLookup.IterativeLookup.ProcessPeer | src/netdb/lookup.rs:168-217 | the peer becomes tried and exactly the untried peers it names become waiting |
| NetDbLookup.IterativeLookup.SelectNextPeer | src/netdb/lookup.rs:219-225 | the nearest waiting peer is taken out, and none exactly when none waits |
| NetDbLookup.Lookup | src/netdb/lookup.rs:227-249 | whatever the answers over a finite universe: the lookup ends, asks no peer twice, asks each time the nearest peer known and unasked, and at the end has asked every peer named |
| NetDbLookup.Collect | src/netdb/lookup.rs:105-115 | all successes are collected if the last lookup to finish succeeds, and everything is lost otherwise |
| NetDbLookup.ProcessSearchReply | src/netdb/lookup.rs:74-120 | no success is lost if and only if there is none or the reply is from a known peer we asked and the last lookup succeeds |
| NetDbLookup.FoundYetLost | src/netdb/lookup.rs:105-115 | on a reply naming two peers, of which one is found and then one is not, the code returns nothing |
| NetDbLookup.LookupByReplies | src/netdb/lookup.rs:74-249 | with answers taken from search replies, a peer found through an asked peer is asked too unless the reply it came in was lost, and only the first peer and peers so found are asked |
| NetDbStore.LocalNetworkDatabase.SelectClosestFf | src/netdb/mod.rs:340-347 | the loop finds a nearest floodfill, and none exactly when there is none |
| NetDbStore.ClosestIsUnique | src/netdb/mod.rs:340-347 | every other floodfill is strictly further in the source's order |
| NetDbStore.LocalNetworkDatabase.LookupRouterInfo | src/netdb/mod.rs:349-388 | it computes the lookup step, towards the given peer or else the nearest floodfill |
| NetDbStore.LocalNetworkDatabase.StoreRouterInfo | src/netdb/mod.rs:432-467 | it computes the store step, the loop over waiters included |
| NetDbStore.WaitersServedOnce | src/netdb/mod.rs:349-501 | over every run: no key stored and pending; what is stored is under its own hash, signed and of our network; each waiter is waiting or was served exactly once, with a router info for its key that passed the signature and network checks; a second network lookup for a key follows a store |
| NetDbStore.StoredWasAdmitted | src/netdb/mod.rs:432-467 | over every run, what is stored under a key is the last router info admitted for it and, unless from a reseed, was at most 27 hours old and at most two minutes ahead when stored |
| NetDbStore.StoredIffAdmitted | src/netdb/mod.rs:432-467 | after any run, a router info is stored if and only if it is under its own hash, signed, of our network, and from a reseed or at most 27 hours old and two minutes ahead; nothing else in the store changes |
| NetDbStore.ExpiryLeavesCurrent | src/netdb/mod.rs:483-501 | after any run an expiry keeps an entry if and only if fewer than 150 routers are known (the guard at src/netdb/mod.rs:140), the peer is connected, or the entry is current |
| NetDbStore.LookupAnswers | src/netdb/mod.rs:349-388 | after any run a lookup gets an admitted router info for its key, or a place of its own among those waiting for it; it goes to the network exactly when it starts a wait; which of these it is, or that there is no one to ask, is decided by what is stored and pending |
| NetDbStore.PendingUntilStored | src/netdb/mod.rs:349-388 | nothing but a store ends a pending lookup, so no other goes out for the key until then |
| SessionTable.SessionState.Send | src/transport/session.rs:49-75 | it computes the send step; a connection is asked for exactly when a pending entry is made |
| SessionTable.SessionState.NewContext | src/transport/session.rs:88-109 | the new channel starts with the frames that waited, in order |
| SessionTable.SessionState.DropSession | src/transport/session.rs:112-115 | the entry of the peer goes |
| SessionTable.FramesInOrder | src/transport/session.rs:22-116 | over every run and for every peer: frames taken are those on its channels, oldest first, then those waiting; never both a session and frames waiting; connections asked for are those answered and at most one more |
| SessionTable.TakenUnlessClosed | src/transport/session.rs:49-75 | after any run a frame is taken, unless the receiving end of its peer's session has gone, and then nothing changes |
| SessionTable.ReachableUnlessDoubled | src/transport/session.rs:88-116 | over every run, all sessions not yet dropped are in the table at every point if and only if none was set up for a peer that still had one |
| SessionTable.NewerSessionForgotten | src/transport/session.rs:112-115 | a run in which the end of a first connection makes the table forget a second that is still up |
| Serialize.Try | src/util.rs:9-30 | an attempt succeeds if and only if the output fits, and otherwise asks for more than there was and no more than is needed |
| Serialize.Serialize | src/util.rs:9-30 | the grow-and-retry loop ends, with exactly the serialiser's output |

## Left out

- AES, SHA-1, SHA-256, SipHash, Noise, ECDSA, Ed25519 and RSA are abstract functions; that the primes of the constants are prime is a premise.
- Sockets, timers, executors, logging, configuration, reseeding and the command line are not modelled; a poll is one step.
- Router infos, lease sets, key certificates and destinations have no codec here; an NTCP2 router info block carries bytes, and the fields a store checks are given.
- DatabaseStore messages are not modelled, as they need compression and those codecs; their type code is a panic in the parser.
- I2npRoundTrip.CertificateBack: does not look inside key certificates, whose contents are bytes here.
- I2npRoundTrip.MessageBack: is for messages with such payloads; DatabaseStore messages are not modelled.
- I2npRoundTrip.PayloadBack: does not cover TunnelGateway payloads, which `I2npRoundTrip.GatewayNeverBack` shows are never read back.
- NtcpFrame.FrameBack: is for frames the encoder can make; size fields whose 16-bit sums overflow are not modelled.
- NtcpHandshakeProof.HandshakeAgreement: the polls of the two handshake futures are functions on values; only their codecs are classes. The peers are honest and the pipe is ordered and lossless. Other peers, and what they can make arrive, are the subject of `NtcpHandshakeAuth`.
- NtcpCodec.Codec.Encode: what a failed encode leaves in the room it made is not modelled, only that the room is there.
- NtcpHandshakeCodec.InboundHandshakeCodec.Encode: does not say what a failed encode leaves in the buffer, only that it fails and when.
- NtcpHandshakeCodec.OutboundHandshakeCodec.Encode: the same.
- Dsa.Sign: starts where the nonce loop, `Dsa.SampleScalar`, has settled; the loop itself draws from a finite list.
- ElGamal.GenerateKeys: starts where the sampling loop has settled; the same holds of the nonce of `ElGamal.Encrypt`.
- Ntcp2Frame.BlockBack: carries a router info as bytes, and is for termination blocks of at least nine bytes, the only ones the writer makes; shorter ones panic in the reader.
- Ntcp2Handshake.ReadsAlign: treats the Noise messages as opaque bytes of the right sizes.
- Ntcp2Handshake.InitiatorReadsAlign: the same.
- TunnelFrame.TunnelMessageBack: the generator is modelled by its output, not by the buffer it skips through and patches.
- TunnelAcceptor.AcceptancesAreRegistered: an acceptor's poll is split into one step per state; the decryption of a record is a parameter, proved correct in `BuildRecord`.
- NetDbLookup.Lookup: the answers of peers, timeouts included, are one function of the peer and its turn.
- NetDbLookup.LookupByReplies: a peer replies in its own name.
- NetDbStore.WaitersServedOnce: leaves out lease sets, which follow the same pattern with fewer checks, and the table of expected search replies.
- SessionTable.FramesInOrder: the lock is not modelled; each operation is one step.
- Serialize.Serialize: a serialiser is a list of pieces; its other errors, which panic, are not modelled.
- The NTCP session's own frame sink, tunnel construction by the router itself, and the choice of a transport for a message are not modelled.
