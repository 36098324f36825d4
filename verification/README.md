# QZMQ, modelled and proved in Dafny

QZMQ is a Go layer over ZeroMQ with a client handshake, wire codecs, key encapsulation mechanisms (KEMs), and sockets
and transports that threads share. This project models that logic and proves what it keeps.
`dafny verify dfyconfig.toml` checks all of it.

| module | models |
|---|---|
| Bytes | byte strings, big-endian fields, `copy` and `PutUint` into a buffer, exclusive or |
| Frames | `messageFrame`: the encoder and the decoder, and the code that the frames form |
| HelloCodec | the ClientHello, ServerHello and ClientKey messages |
| Options | suites, modes, rotation limits, `validateOptions` |
| Primitives | the libraries as parameters, and the assumptions some claims make of them |
| Kem, HybridMlkem | the KEM interface, X25519, the ML-KEM placeholders, hybrid trees; X25519 beside ML-KEM-768 |
| KeySchedule | `deriveKeys` from one HKDF stream, the Finished MAC |
| Handshake, HandshakeInvariant, HandshakeTheorems, HandshakeMessages | what each call does to a connection, runs of calls, what all runs keep, when each call succeeds and what it then sends |
| Connection | the connection object: its methods refine those steps; key rotation |
| Peer | what a server can compute from the client's messages; a whole handshake |
| SocketMachine, SocketSafety, SocketCounters, SocketReceives, SocketArrivals, SocketClosed | threads interleaving inside the methods of one socket |
| Transport | the socket and transport objects |
| SocketAlone | a thread alone in the machine does what the socket object's methods do |

**The handshake.** A call is given the randomness, bytes and time it meets and ends with a value, an error, or a panic
that the caller may recover from. `Handshake.Step` is what a call does; a run is any sequence of calls on a new
connection, failing, retried, in any order, on any bytes. The class `Connection` holds the fields, and each of its
methods is proved to do exactly its step; a ghost history makes every connection the end of a run, so claims about all
runs are claims about every connection. The ServerHello parser is a parameter. The shipped one is put in for a separate
claim.

**The sockets.** A thread is in one place of one method: waiting for the lock, past the closed check, in the wrapped
ZeroMQ call, between the load and the store of a counter's `+=`, copying the metrics. One step of one thread is one
step of the machine; an interleaving is any sequence of them. The class `ZmqSocket` has the same methods as whole
critical sections, and a thread of the machine that runs a method alone makes the change that those methods make.

**Assumptions.** Random bytes, the clock, and the results of wrapped ZeroMQ calls are arbitrary. X25519, HKDF, HMAC,
the AEADs, Ed25519 and ML-KEM are functions about which nothing is assumed, except where a claim says so:
Diffie-Hellman commutes (section 6.1 of RFC 7748); products of one or two scalars with the base point are not zero, as
clamping makes them (section 5 of RFC 7748; other points do have zero products); ML-KEM decapsulation undoes
encapsulation (sections 7.2 and 7.3 of FIPS 203, without decryption failures); opening undoes sealing. Claims that a
call succeeds also assume that the random source's reads do. `Primitives.AssumptionsAreSatisfiable` shows that the
assumptions on the libraries can be met together. X25519 refuses inputs that do not have 32 bytes and the all-zero
result; Ed25519 panics on keys of other lengths. Go's `int` has 64 bits.

**Where the code does not do what one would expect.** The model follows the code.

- The hybrid suite's KEM has nil parts, and it is the suite of the default options: outside PQ-only mode every
  ClientHello with it panics, and no run with it gets past ServerHello (`HybridSuiteNeverCompletes`,
  `PanicsExactlyWhen`). QZMQ's own README lists the hybrid suite as usable and starts with the default options.
- The shipped ServerHello parser fills in version and random only: no run with it gets past ServerHello, and none past
  ClientHello unless the suite is the all-zero one (`ShippedParserStopsTheHandshake`).
- In hybrid mode the client mixes 32 random bytes into its keys that it never sends, so a server derives the client's
  keys exactly outside hybrid mode, or if those bytes happen to leave the first 96 bytes of the HKDF stream unchanged
  (`PeerDerivesTheClientsKeys`, `HonestServerAgreesExactlyWhen`). There are libraries with which they never do
  (`HybridModeKeysCanDiffer`).
- The ML-KEM placeholders behind `getKEM` do not undo their own encapsulation (`PlaceholdersDoNotUndo`). A hybrid's
  Decapsulate gives zeros, so it undoes only secrets that are zero (`HybridsUndoZerosOnly`); and a hybrid ending in a
  placeholder accepts its generated keys with anything appended (`GeneratedKeysAreAccepted`).
- `Recv` and `RecvMultipart` update counters under the read lock, so overlapping receives lose counts
  (`MessagesReceivedCanFallShort`); the exact condition is in `ReceivedCounters`.
- A session ID of 256 bytes encodes as if it were none and collides with an extension (`LongSessionIdCollides`). This
  concerns the codec alone: no run of a connection sets a session ID (`FirstMessageDecodes` proves it empty).
- The AAD length of a frame is cast to 16 bits, the payload length to 32 (`ParseOfMarshalled`). Exactly which
  messages survive is in `ClientHelloReadsBack`, `CiphertextReadsBack` and `RoundTripExactlyWhenItFits`.

## Model

| member | source | states |
|---|---|---|
| Frames.MarshalFrame | connection.go:467-494 | the encoder stays in its buffer and writes the five header fields, payload, cast AAD length and AAD, and nothing else |
| Frames.MessageFrame.Marshal | connection.go:467-494 | the encoding of the frame object's current fields |
| Frames.MessageFrame.Unmarshal | connection.go:496-536 | which of the three errors it reports, and all fields afterwards: a failing call has overwritten exactly the fields before the failure |
| Frames.ParseIsSound | connection.go:496-536 | what is accepted starts with the encoding of the frame returned, and that frame fits its length fields |
| Frames.ParseOfMarshalled | connection.go:467-536 | for payloads below 2^32 and any AAD, decoding an encoding (followed by anything) returns every field, but for the AAD its first (length mod 65536) bytes |
| Frames.AcceptsExactlyTheFrames | connection.go:496-536 | a string is accepted if and only if some frame that fits is a prefix of it, and then that frame is returned |
| Frames.RoundTripExactlyWhenItFits | connection.go:467-536 | a frame survives the round trip if and only if payload < 2^32 and AAD < 2^16 bytes |
| Frames.FramesArePrefixFree | connection.go:467-536 | no encoding of a frame that fits is a prefix of another's |
| Frames.StreamsSplitUniquely | connection.go:467-536 | a concatenation of frames splits into frames in one way only |
| Frames.VerdictByLength | connection.go:496-536 | which of the three errors a string gets, in terms of its length and its two length fields |
| Frames.TruncatedFrame | connection.go:496-536 | an encoding of a frame that fits, cut at any length, gets the error of the part that is cut, and the object then holds the fields before that part and keeps the others |
| HelloCodec.HelloSize | connection.go:349-352 | the size from the first loop is the length of what is then written |
| HelloCodec.MarshalClientHello | connection.go:347-385 | for every message, session ID and extension list: no write leaves the buffer, the final offset is the precomputed size, every byte is as specified (suite bytes never written) |
| HelloCodec.ClientHelloReadsBack | connection.go:347-385 | the bytes read back as version, random, session ID and ordered extensions if and only if random has 32 bytes and all lengths fit their fields |
| HelloCodec.ClientHelloDetermines | connection.go:347-385 | two messages that fit and encode alike agree in version, random, session ID and ordered extensions |
| HelloCodec.LongSessionIdCollides | connection.go:366-372 | each of a family of 256-byte session IDs encodes as a message with no session ID and one extension |
| HelloCodec.MarshalClientKey | connection.go:426-443 | length-prefixed ciphertext, then zeros where binder and signature are reserved |
| HelloCodec.CiphertextReadsBack | connection.go:426-443 | a reader of the length prefix gets the ciphertext if and only if it has fewer than 65536 bytes |
| HelloCodec.ClientKeyTail | connection.go:426-443 | after the ciphertext come only zero bytes: two and its length for each of binder and signature that is present |
| Options.ValidateOptions | qzmq.go:524-553 | accepts if and only if non-nil and not a classical algorithm in PQ-only mode; a refusal changes nothing, an acceptance sets zero limits only, to 2^32 messages, 2^40 bytes and ten minutes, and once more changes nothing |
| Kem.TreeSizes | crypto.go:222-432 | for hybrid trees of any depth: generated keys, ciphertexts and secrets have the declared recursive sizes, and nothing panics |
| Kem.SingleSizes | crypto.go:276-340 | the sizes of X25519, ML-KEM-768 and ML-KEM-1024 keys and ciphertexts |
| Kem.HybridKeyPair | crypto.go:355-375 | a hybrid's public and private keys are cut, at the classical sizes, into the keys that its parts generated one after the other |
| Kem.HybridEncapsulation | crypto.go:377-410 | for every built hybrid, the ciphertext is cut into the ciphertexts of the parts for the two cuts of the key, and the secret is the first 32 bytes of HKDF-SHA256 over both secrets in order, with salt "QZMQ-Hybrid-KEM" |
| Kem.BothSecretsCount | crypto.go:403-407 | for any two different secrets, in either place, some library gives different combined secrets |
| Kem.EachLeafGetsItsOwnKey | crypto.go:355-410 | encapsulating to a generated key calls the leaves, in order, each with exactly the key it generated |
| Kem.AcceptedKeys | crypto.go:377-410 | for any libraries and randomness, Encapsulate succeeds if and only if the key's length is right for the tree (exact if its last leaf is X25519, at least the size for a hybrid ending in a placeholder) and every X25519 leaf, on its own cut of the key and its own random read, gets the read and two products that are not zero |
| Kem.GeneratedKeysAreAccepted | crypto.go:355-410 | if base point products are not zero and reads succeed, every tree generates a key, and Encapsulate accepts it; followed by anything, if the last leaf is a placeholder |
| Kem.X25519Undoes | crypto.go:241-274 | under commuting Diffie-Hellman, X25519KEM decapsulation returns every encapsulated secret |
| Kem.PlaceholdersDoNotUndo | crypto.go:293-335 | the ML-KEM placeholders do not, for any keys |
| Kem.HybridsUndoZerosOnly | crypto.go:412-416 | a hybrid's Decapsulate undoes encapsulation if and only if every encapsulated secret is zero |
| Kem.CombineSecrets | crypto.go:403-407 | the read gives the first 32 bytes of HKDF-SHA256 over both secrets in order, with salt "QZMQ-Hybrid-KEM" |
| HybridMlkem.XorLoop | mlkem_integration.go:200-204 | the 32-step loop computes the byte-wise exclusive or, and panics exactly on a secret shorter than 32 bytes |
| HybridMlkem.DecapsulateUndoesEncapsulate | mlkem_integration.go:153-242 | for every key pair and all randomness, Decapsulate returns Encapsulate's 32-byte secret, and XORing it with either component secret yields the other |
| HybridMlkem.GeneratedKeyBytes | mlkem_integration.go:153-178 | of a generated pair's bytes the first 32 are an X25519 pair and the rest the ML-KEM pair |
| HybridMlkem.WrongInputsAreRefused | mlkem_integration.go:180-242 | keys of another type and ciphertexts shorter than 32 bytes end in an error |
| HybridMlkem.EncapsulateMethod | mlkem_integration.go:180-207 | the result of both encapsulations, concatenated and XORed, or which failure |
| HybridMlkem.DecapsulateMethod | mlkem_integration.go:209-242 | the result of both decapsulations after the split, or which failure |
| KeySchedule.KdfReader.Read | crypto.go:474-481 | each Read fills its buffer with the next bytes of one stream |
| KeySchedule.DeriveKeysFromStream | crypto.go:453-484 | the key set is the derivation from the concatenated secrets under the hash used, unknown hashes falling back to SHA-256 |
| KeySchedule.KeysAreTheFirst96Bytes | crypto.go:469-483 | the three keys are the stream's first 96 bytes without gap or overlap; two derivations agree if and only if these bytes do |
| KeySchedule.KeysComeFromHkdf | crypto.go:453-484 | the three keys joined are the first 96 bytes of HKDF over KEM secret then ECDHE secret, salt "QZMQ-v1-Salt", info "QZMQ-v1-Keys", under SHA-384 or SHA-512 for their codes and SHA-256 for every other |
| KeySchedule.OnlyTheConcatenationMatters | crypto.go:466-472 | moving bytes from the end of one secret to the start of the other changes no key |
| HandshakeInvariant.OnlySuccessesProgress | connection.go:91-330 | a call that fails or panics, a key update and the environment change neither state nor transcript nor any field already in use |
| HandshakeInvariant.StepKeeps | connection.go:91-330 | every call keeps the handshake invariant, with its message appended if it succeeded |
| HandshakeInvariant.RunKeeps | connection.go:91-330 | the invariant holds after every run |
| HandshakeTheorems.TranscriptIsTheSuccessfulMessages | connection.go:91-285 | in every run the steps succeed at most once and in order, as many as the state says, and the transcript is exactly the concatenation of their messages |
| HandshakeTheorems.FailuresLeaveStateAndTranscript | connection.go:91-285 | from any connection, a call that errs or panics leaves state and transcript unchanged |
| HandshakeTheorems.PanicsExactlyWhen | connection.go:91-285 | in every run, fields dereferenced are set when the state guard passes, and a call panics if and only if it uses the nil parts of the hybrid KEM or hands a malformed key to a signer |
| HandshakeTheorems.HybridSuiteNeverCompletes | crypto.go:169-170 | with the default hybrid suite no run gets past ServerHello, and outside PQ-only mode none leaves the initial state |
| HandshakeTheorems.FirstMessageDecodes | connection.go:120-146 | in every run the ClientHello sent reads back as version 1, the client random, no session ID and exactly the one extension of its mode, with a key of 32, 1184 or 1568 bytes as the suite's KEM code says |
| HandshakeTheorems.EstablishedMeansFinishedVerified | connection.go:257-285 | in every reachable Established state a Finished message opened under the server key with nonce BE32(1) BE64(0) to a text starting with HMAC, under that key, of exactly the three messages, and the shared secret is the exporter secret, after any key updates |
| HandshakeTheorems.ShippedParserAccepts | connection.go:152-190 | with the shipped parser a ServerHello is accepted if and only if it has 34 bytes and the suite is all-zero; the random is then bytes 1 to 32 and the key empty |
| HandshakeTheorems.ShippedParserStopsTheHandshake | connection.go:152-254 | with the shipped parser no run and no bytes get past ClientHello unless the suite is all-zero, and none past ServerHello |
| HandshakeMessages.ClientHelloCarriesWhatItDraws | connection.go:91-149 | in every initial run ClientHello succeeds if and only if its random, a KEM and, where the mode wants one, a key pair are to be had; the message reads back with the 32 bytes drawn first and the public key generated from the next reads |
| HandshakeMessages.PqOnlyIsPostQuantum | qzmq.go:529-538 | with validated options in PQ-only mode no run uses X25519 or Ed25519, and the ClientHello carries the PQ-only mark and no key |
| HandshakeMessages.ServerHelloAcceptedExactlyWhen | connection.go:152-190 | for every parser and run, a ServerHello is accepted if and only if it parses, names the client's suite, and a signature that is checked holds over exactly the ClientHello sent; what of random and key a refused message leaves behind |
| HandshakeMessages.ClientKeyCarriesTheSecret | connection.go:193-254 | in every run, when ClientKey succeeds, as an equivalence; its message holds the ciphertext for the server's key and room for a signature over the two messages before; the keys are HKDF over the secret and, in hybrid mode, the 32 bytes drawn next, also if the call then fails |
| HandshakeMessages.FinishedAcceptedExactlyWhen | connection.go:257-285 | in every run a Finished message is accepted if and only if it opens under the server key to a text starting with HMAC of the three messages; any other changes nothing |
| HandshakeMessages.RotationMixesTheExporterSecret | connection.go:308-330 | in every Established run, rotation gives HKDF over the 32 bytes drawn followed by the exporter secret |
| Connection.Connection.constructor | connection.go:78-88 | a new connection is the empty run's |
| Connection.Connection.SendClientHello | connection.go:91-149 | the new fields and the result are those of the step, and the call joins the history |
| Connection.Connection.ProcessServerHello | connection.go:152-190 | likewise for ServerHello |
| Connection.Connection.SendClientKey | connection.go:193-254 | likewise for ClientKey, including the fields set by a call that fails late |
| Connection.Connection.ProcessFinished | connection.go:257-285 | likewise for Finished |
| Connection.Connection.UpdateKeys | connection.go:308-330 | likewise for rotation, after which rotation is not due |
| Connection.Connection.KeepsTheInvariant | connection.go:33-330 | whatever holds after every run holds of every connection object |
| Connection.Connection.NeedsKeyUpdate | connection.go:288-305 | true if and only if an enabled limit is reached by what the connection's history of calls amounts to |
| Connection.DueExactlyWhen | connection.go:288-330 | a run is due if and only if, since its last successful rotation or else its start, messages or bytes have reached an enabled limit or more than an enabled age has passed |
| Connection.DueUntilRotated | connection.go:288-330 | with validated limits, a run that has reached a message or byte limit is due for rotation, and stays due through any further calls, failing or not, until a rotation succeeds |
| Peer.PeerDerivesTheClientsKeys | connection.go:193-254 | in every run past ClientKey, a peer whose key undoes encapsulation derives the client's keys from the message bytes if and only if the mode is not hybrid or the run's ECDHE bytes leave the 96 key bytes unchanged |
| Peer.HonestServerAgreesExactlyWhen | connection.go:91-254 | after three calls with an honest X25519 server, which succeed in every mode, the server holds the client's keys if and only if the mode is not hybrid or the second 32 bytes drawn change nothing |
| Peer.HybridModeKeysCanDiffer | connection.go:206-219 | some libraries meet every assumption and, whatever the client draws, three such calls in hybrid mode succeed and leave the two sides with different keys |
| Peer.HonestServerCompletes | connection.go:257-285 | outside hybrid mode, whatever calls came before, the answer that a server computes from the wire and its private key is accepted, and both hold the same exporter secret |
| Peer.HonestHandshakeCompletes | connection.go:91-285 | given Diffie-Hellman that commutes and is not zero on the base point, opening that undoes sealing and successful reads, an X25519 handshake with an honest server outside hybrid mode ends Established, on the exporter secret that the server derives |
| SocketSafety.InterleavingsKeepLockAndClose | backend.go:88-353 | in every interleaving the lock's holders are exactly the threads inside the critical sections, a writer alone, and past the closed check the socket is open except for the one closing it |
| SocketSafety.CloseKept | backend.go:331-344 | every step keeps: past the closed check the socket is open, except for the one closing it |
| SocketSafety.WrappedCloseIsOnceLastAndAlone | backend.go:88-344 | in every interleaving the wrapped Close starts at most once, no wrapped call starts after it, and none is in progress, or past its check, beside it |
| SocketSafety.OnlyReadersShare | backend.go:88-353 | in every interleaving, two threads are in critical sections at once only in Recv, RecvMultipart, GetOption or GetMetrics |
| SocketSafety.ReadersShare | backend.go:175-353 | any two of these four can be, in some interleaving |
| SocketClosed.ClosedIsFinal | backend.go:88-344 | however an interleaving goes on once the closed flag is set, the flag stays, nothing more is sent, received or counted, no counter changes, and no wrapped call starts but the one Close |
| SocketClosed.NothingAfterWrappedClose | backend.go:331-344 | once the wrapped Close has started, no continuation adds a wrapped call, a message or a count |
| SocketClosed.CloseCancelsFirst | backend.go:331-336 | in every interleaving, whoever waits for the lock in Close, or has it, has cancelled the context before |
| SocketCounters.SentKept | backend.go:124-173 | every step keeps each sent counter plus what the writer has still to add equal, mod 2^64, to the successful sends |
| SocketCounters.SentCountersAreExact | backend.go:124-173 | with no writer inside, MessagesSent and BytesSent are the number and total length mod 2^64 of successful sends; a GetMetrics shows these numbers however it is interleaved |
| SocketReceives.ReceivedCounters | backend.go:175-227 | in every interleaving MessagesReceived is at most the counted, these at most the successful receives; before wraparound it equals the counted if and only if no count was stored over another stored since its load |
| SocketReceives.ReceivesApartAreCountedExactly | backend.go:175-227 | if no two receives are between load and store at once, MessagesReceived is the number counted |
| SocketReceives.BytesApartAreCountedExactly | backend.go:175-227 | if no two receives are between load and store of BytesReceived at once, it is the bytes counted mod 2^64 |
| SocketReceives.OverlapLosesACount | backend.go:196-198 | whenever two receives are between load and store, letting both store leaves the counter short |
| SocketReceives.MessagesReceivedCanFallShort | backend.go:175-201 | some interleaving of two receives counts both and shows fewer |
| SocketArrivals.ReceivedIsCountedOrOwed | backend.go:175-227 | in every interleaving, messages counted plus those that threads have still to count are the messages that arrived, and likewise the bytes: of the first frame for Recv, of all frames for RecvMultipart |
| SocketArrivals.CountersShowWhatArrived | backend.go:175-227 | if no two receives update a counter at once, then with no update under way MessagesReceived and BytesReceived are number and total length of what arrived |
| Transport.ZmqSocket.Bind | backend.go:88-104 | an open socket gets a wrapped Listen, a closed one nothing |
| Transport.ZmqSocket.Connect | backend.go:106-122 | an open socket gets a wrapped Dial, a closed one nothing |
| Transport.ZmqSocket.Send | backend.go:124-147 | result, wrapped calls made, and one message and its length more in the metrics, mod 2^64, if the wrapped send succeeded |
| Transport.ZmqSocket.SendMultipart | backend.go:149-173 | likewise, with the total length of the parts |
| Transport.ZmqSocket.Recv | backend.go:175-201 | the first frame, and one message of its length counted; an empty message is not |
| Transport.ZmqSocket.RecvMultipart | backend.go:203-227 | all frames, and one message of their total length counted |
| Transport.ZmqSocket.Subscribe | backend.go:229-251 | type 7 (XSUB) sends byte 1 and the topic, type 5 (SUB) sets an option, any other type and a closed socket refuse without a wrapped call |
| Transport.ZmqSocket.Unsubscribe | backend.go:253-275 | likewise with byte 0 |
| Transport.ZmqSocket.SetOption | backend.go:277-303 | which names reach the wrapped socket, which are ignored and which refused |
| Transport.ZmqSocket.Close | backend.go:331-344 | the wrapped socket is closed unless it was closed before |
| SocketAlone.BumpedByTheTotal | backend.go:166-170 | wrapping at every addition or once at the end gives the same counter |
| SocketAlone.IncrementsCount | backend.go:140-224 | the machine's updates for a method, made one by one, add one message and its total length to the counters, of the first frame for Recv |
| SocketAlone.MethodAlone | backend.go:88-353 | a method that a thread of the machine runs alone ends, in one way, with the lock and other threads as before and exactly the change to closed flag, context, wrapped calls and metrics that the socket object's method makes, for any result of the wrapped call |
| SocketAlone.CopyShowsTheMetrics | backend.go:346-353 | GetMetrics alone copies the four counters in order, on a closed socket too |
| SocketAlone.Invoke | backend.go:88-353 | each method of the socket object changes the object exactly as a lone thread running it changes the machine of the same type |
| SocketAlone.FirstMethod | backend.go:78-353 | on a new socket of type n, the first method makes just the wrapped call of that method on type n, Subscribe on SUB, XSUB and the others included |
| Transport.Transport.NewSocket | qzmq.go:420-448 | fails if and only if closed, an unknown type, or the library makes none; otherwise the new socket, of the type asked for, open, with zero counters and no wrapped call made, is tracked |
| Transport.Transport.SetOption | qzmq.go:451-481 | afterwards GetOption reads the new value under this name, unless it is one of the two built-in names, and what it read before under every other |
| Transport.Transport.GetOption | qzmq.go:464-481 | socket_count is the number of successful NewSocket calls, whatever callers closed, and zero after Close; stored options cannot shadow the two built-in names |
| Transport.Transport.CallerCloses | backend.go:331-344 | a caller closing its socket keeps the transport's invariant |
| Transport.Transport.Close | qzmq.go:484-501 | every socket ever made is closed, each wrapped socket once; the transport tracks none and, by its invariant and NewSocket, makes no more |
| Transport.New | qzmq.go:334-359 | yields a transport if and only if options and backend are usable, with zero rotation limits filled |

## Left out

- The insides of X25519, ML-KEM, the AEADs, HMAC, HKDF and Ed25519: they are parameters.
- ML-KEM and ML-DSA placeholder values, cookies: stated placeholders in the code, of whose values nothing is claimed but their lengths.
- KEM calls are functions on byte strings: slice capacity and aliasing through `append` are not modelled (QZMQ's code writes no such slice after sharing it).
- HandshakeTheorems.PanicsExactlyWhen: panics inside library calls other than the Ed25519 and ML-DSA key lengths are not modelled.
- Connection and transport methods are one critical section each, as their locks make them; interleaving is modelled for sockets only.
- SocketSafety.WrappedCloseIsOnceLastAndAlone: interleavings are sequentially consistent; the Go lock's preference for waiting writers only removes some of them.
- SocketCounters.SentCountersAreExact: counters are loaded and stored whole, as 64-bit machines do.
- Transport.Transport.NewSocket: that no two live objects share an address is a precondition on the address.
- Connection.Connection.NeedsKeyUpdate: `time.Since` does not saturate and the clock is an integer.
- The fields remotePubKey, psk, earlyDataKey, cookie and isServer: written or never used, not read by the steps modelled.
- Message and byte counts of a connection and its signing key are set by the environment: QZMQ's code does not set them.
- keyUpdateMessage, closeMessage, Stats, GetOption of sockets, String methods, preset options: constants and single branches.
- backend_selection.go, xchain.go, logging_simple.go: configuration, plumbing and logging. The zmq library is not part of this model.
- Secrecy and randomness quality: not functional properties.
