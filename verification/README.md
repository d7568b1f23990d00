# Verified models of the key-distribution tools

A Dafny project about the parts of the repository whose correctness rests on more than one function:
the multiplexer that resumes a byte stream over a link that may break, the in-place
transforms of the Leopard Reed-Solomon codes, the Hamming correction of keys, the bit-reversal
permutation, the thread pool, the key database, the framed key-stream codec and AES with its modes.
`dafny verify dfyconfig.toml` checks everything.

## What is modelled

**tcpmux (`Mux*.dfy`).** Two endpoints share one TCP link. Each keeps the last bytes it wrote in a
ring; after a reconnect the peers exchange positions and the sender replays what was not read. Credits
bound what may be unread, for the link and for every client. `MuxRing`, `MuxWire` and `MuxEndpoint`
give buffers, packets and the steps of one endpoint; `MuxContext` and `MuxClientData` are the objects
that the main loop updates in place, proved to perform these steps; `MuxSession` and `MuxClients` are
the runs of both endpoints with drops, reconnects, disconnects and reuse of ids, `MuxProgram` puts the
two together, `MuxProgress` shows that packets do get through, and `MuxLoss` how a session is lost. A
system call may accept or return any amount.
`MuxStreamCredit`, `MuxedClientBuffer` and `MuxWriteList` are the
other multiplexer, of `muxstream.cpp`: its credit, its ring buffer and its list of writers.

**Leopard (`Butterfly*.dfy`, `Leopard*.dfy`, `EncoderXor.dfy`, `Skew*.dfy`, `Bit*.dfy`, `Error*.dfy`,
`WalshHadamard.dfy`, `ModularPairs.dfy`, `XorIndex.dfy`).** `Butterfly` defines transforms plainly,
one layer at a time; the loops of the code, which do two layers at once, stop early on zero rows and skip blocks without
erasures, are proved to compute them. Field multiplication is any function of a logarithm and a row;
a skew is a logarithm or the value kModulus, which stands for zero, so that FF8 and FF16 share one
model. `LeopardEncoder` and `LeopardDecoder` put the steps together; `SkewTable` proves of the table
what the encoder needs.

That decoding undoes encoding is proved over a field whose elements are numbered by a Cantor basis
(`CantorField`). `NovelBasis` and `ErasurePolynomials` are its polynomials, in the basis of the transform,
with multiplication by x, the derivative and the locator of erased points; `FieldTransforms` shows that the forward
transform evaluates them and that the steps of the decoder give the erased values back, and `CodewordDegree`
that what the encoder produces is of low degree. `LeopardColumns`, `LeopardCodeword` and `LocatorElements`
carry this over to rows of bytes, weights and logarithms, `SkewValues` to the skew table, and
`LeopardRoundTrip` calls encoder and decoder one after the other.

**Hamming code, bit reversal (`Hamming*.dfy`, `BitReversal.dfy`), thread pool (`JobQueue.dfy`,
`ThreadPool*.dfy`), key database (`KeyStore.dfy`, `KeyKeeper.dfy`), key-stream codec
(`KeyStream*.dfy`), AES (`Aes*.dfy`).** Loops over buffers are methods on arrays or sequences; the
thread pool is a machine of thread steps in any order, with a measure that bounds the work left; the key
database is a table and numbered queues with atomic transactions; the tables and steps of AES are also
described in its field (`AesField`), and `AesExample` is the example of the standard.

`Division.dfy`, `Powers.dfy`, `XorDigits.dfy` and `ByteNumbers.dfy` hold the arithmetic the others share,
`Options.dfy` and `MuxSides.dfy` two small types.

In the table of members below, the first 59 rows, from `MuxSession.StreamsArePrefixes` to
`AesCcm.SealAndOpen`, are the main results; the rows behind them are the steps that lead there, file by file.

## What does not hold, and exactly when it does

- A tcpmux session does not survive every break of the link. A context is found by its key only while
  its last handshake is complete (`src/tcpmux/tcpmux.c:817`); when a connection breaks behind the key and
  before the last byte of the position, the context is never found again, and the next connection gets
  a new one, as it does when the context was burned for being idle (line 1319). The streams stay
  prefixes in all states of a run if and only if no connection is accepted by such a new context although
  the peer has read, or can still read, something from the old one (`MuxSession.StreamsArePrefixes`).
  `MuxLoss` gives runs in which it happens, and in which the peer gives up.
- `HammingDecode` corrects a single error if and only if two conditions on the key length and the
  error hold (`Hamming.DecodingCorrectsOneError`). The inserting loop runs while 2^i is less than the
  length, so that a key whose expanded length is a power of two has its last bit at a position that no
  check bit covers (length 2: an error in the second bit stays). The erasing loop uses the shrinking
  length and stops early for keys shorter than 2^(r-1) bits (length 3: a check bit is returned as a
  fourth key bit). Single errors in the check bits themselves are corrected under the same conditions.
- `IFFT_DIT_Encoder` with a result to xor into is not the xor of the transform for all its arguments:
  for the skew zero, a last layer of its own adds both rows of a pair to the first row of the result and
  nothing to the second, and a single row is never xored. `EncoderXor.XorIsExact` says exactly when it
  is the xor. No call of the library reaches the other cases: `FFTInitialize` leaves the skew zero at
  powers of two only (`SkewTable.FftInitialize`), no chunk of the encoder has its last layer at one
  (`EncoderXor.ChunksCanXor`), and a single recovery row takes another path
  (`src/rsctapudp/leopard.cpp:152`).
- The table and the queues of the key database agree in every run if and only if every new key starts with
  usage 0 (`KeyStore.AgreesExactly`). `putKey` sets one byte of the four-byte usage of a record it has
  allocated and not cleared (`src/keyworker/keyworker.c:390-391`), so that this depends on the memory
  it gets.
- `VectorXOR` xors all rows if and only if there are less than four or a multiple of four
  (`LeopardFft.XorsAll`); all callers pass powers of two.
- `aes_encrypt_ccm` accepts an empty payload, and `aes_decrypt_ccm` then refuses the ciphertext
  (`AesCcm.CcmRoundTrip`).

## Model

| member | source | states |
|---|---|---|
| MuxSession.StreamsArePrefixes | src/tcpmux/tcpmux.c:812-848 | in every state of a run the bytes read or readable are a prefix of the bytes written and the packets parsed a prefix of those staged, in both directions, if and only if no event of the run forgets: a connection accepted for a context that was burned, or whose last handshake broke behind the key, although its peer has read something |
| MuxSession.NoStepFails | src/tcpmux/tcpmux.c:685-691 | in every run that forgets nothing no size check or credit check of the parser fails |
| MuxSession.CreditIsConserved | src/tcpmux/tcpmux.c:675-691 | in every run that forgets nothing: credit + unread bytes + bytes read but not acknowledged + acknowledgments under way = ring size - 1 |
| MuxSession.NothingIsLost | src/tcpmux/tcpmux.c:844-855 | while connected, what was read, what is on its way and what is owed are together exactly the stream, in every run that forgets nothing |
| MuxProgress.ExchangeRestoresCredit | src/tcpmux/tcpmux.c:777-1006 | after packets and one acknowledgment the packets are delivered and all the credit they took is back, from every quiet state of a connection |
| MuxProgress.ReconnectIsExact | src/tcpmux/tcpmux.c:812-848 | from every state the invariant allows, hanging up and connecting again leads to an unbroken connection in which each end owes exactly what the other has not read, and nothing else has changed |
| MuxLoss.SomeRunGivesUp | src/tcpmux/tcpmux.c:789-794 | for every ring of at least 18 bytes there is a run, with a handshake interrupted behind one packet, in which the size check of the peer fails |
| MuxClients.NoStepFails | src/tcpmux/tcpmux.c:743-745 | in every run the rkarma assertions hold and no packet is refused for lack of room |
| MuxClients.FullCredit | src/tcpmux/tcpmux.c:510-529 | while both ends are connected: wkarma + bytes under way + waiting bytes + rkarma + acknowledgments under way = CLIENT_KARMA, in both directions |
| MuxProgram.NoStepFails | src/tcpmux/tcpmux.c:867-887 | in every run of the whole program that keeps its contexts, for every client id: no check of the link and no check of the client fails, and no packet lacks room |
| MuxContext.Context.MainR | src/tcpmux/tcpmux.c:777-896 | reading until the link has nothing more is parsing what was read byte by byte; when it fails, the input as a whole is refused |
| MuxContext.Context.MainW | src/tcpmux/tcpmux.c:898-1006 | nothing new goes out before the debt is paid: the bytes written are a prefix of the debt followed by the staged packet |
| MuxStreamCredit.NoAssertFails | src/tcpmux/muxstream.cpp:63-83 | in every run, with any number of clients in both directions, neither assertion fails |
| MuxStreamCredit.UnackedIsExact | src/tcpmux/muxstream.cpp:101-122 | in every run: unacked_bytes = bytes staged or in flight + peer buf_size + peer received_bytes + half a buffer per acknowledgment in flight, and at most a buffer |
| LeopardRoundTrip.EncodeAndDecode | src/rsctapudp/LeopardFF8.cpp:1602-1919 | both calls in sequence: for any data, any recovery_count from 1 to m and any loss of altogether no more than recovery_count data and recovery rows, every lost data row comes back |
| FieldTransforms.FftIsValue | src/rsctapudp/LeopardFF8.cpp:1544-1596 | the forward transform evaluates: position i of a block holds the value of the polynomial at the point of that number, for every size and every block |
| FieldTransforms.ErasedComeBack | src/rsctapudp/LeopardFF8.cpp:1882-1919 | transforming the weighted values back, adding the derivative and transforming again gives at every erased point the weighted value, whenever the degree and the number of erasures fit together |
| LeopardCodeword.DegreeOfColumn | src/rsctapudp/LeopardFF8.cpp:1602-1670 | recovery rows, data rows and zero rows are in every column the values of a polynomial of a degree below the number of rows that are not recovery rows |
| LeopardRows.FftOfIfft | src/rsctapudp/LeopardFF8.cpp:1207-1262 | the layered forward transform undoes the layered inverse one, for every power-of-two size, skew table and multiplication |
| LeopardTransforms.IfftDitDecoder | src/rsctapudp/LeopardFF8.cpp:1207-1262 | truncated and two layers at a time, it computes the whole layered transform when the rows behind the truncation are zero |
| LeopardTransforms.FftDit | src/rsctapudp/LeopardFF8.cpp:1544-1596 | every row below the truncation is that of the whole layered transform |
| LeopardTransforms.InverseAndForward | src/rsctapudp/LeopardFF8.cpp:1207-1596 | the forward loops give back, in place, what the inverse loops were applied to, for every power-of-two length |
| LeopardPruned.FftDitErrorBits | src/rsctapudp/LeopardFF8.cpp:1741-1801 | every needed row gets the value of the whole transform, for any test that never denies a block with a needed row |
| ErrorBitfield.ErrorBitfield16.IsNeededIsExact | src/rsctapudp/LeopardFF16.cpp:1497-1512 | after Prepare, IsNeeded holds if and only if the aligned block of 2^mip positions contains a marked one (always at the top) |
| LeopardErasures.TransformErased16 | src/rsctapudp/LeopardFF16.cpp:1580-1644 | the same with the three-level FF16 bitfield |
| LeopardErasures.TransformErased8 | src/rsctapudp/LeopardFF8.cpp:1741-1801 | with a prepared FF8 bitfield every marked row gets the value of the unpruned transform |
| ErrorLocator.Fwht | src/rsctapudp/LeopardFF8.cpp:111-130 | truncated and two layers at a time, it computes the whole layered transform when the tail is zero |
| WalshHadamard.ConvolutionTheorem | src/rsctapudp/LeopardFF8.cpp:1846-1853 | transforming the product of two transforms gives the exclusive-or convolution times the number of entries |
| ErrorLocator.EvaluateLocator | src/rsctapudp/LeopardFF8.cpp:1846-1853 | entry i becomes congruent to the sum of Log[i xor j] over the marked positions j, modulo kModulus |
| LeopardDerivative.FormalDerivative | src/rsctapudp/LeopardFF8.cpp:1890-1899 | the loop leaves in row d the old row d xor the old rows d xor w for all powers of two w whose bit is clear in d |
| SkewTable.FftInitialize | src/rsctapudp/LeopardFF8.cpp:496-529 | in a field of characteristic 2 with kBits from 2 to 16, place x of layer m ends as the logarithm of the sum of the factors of the layer that the binary digits of x select; so an entry is kModulus, the skew zero, if and only if it belongs to a power of two |
| SkewValues.TableServesCodec | src/rsctapudp/LeopardFF8.cpp:496-529 | so the skew at h * (2r + 1), for a power of two h, is the element numbered 2r, for every number of bits: what the transforms need to be those of a polynomial code |
| EncoderXor.XorIsExact | src/rsctapudp/LeopardFF8.cpp:1163-1186 | for rows of one size, every power-of-two length and every multiplication that keeps zero: the rows end up xored with the transform if and only if there are several rows and a last layer of its own has a skew other than zero, or there is nothing but zeros to xor |
| LeopardEncoder.ReedSolomonEncode | src/rsctapudp/LeopardFF8.cpp:1602-1670 | for every table with the skew zero at powers of two only, the recovery rows are the forward transform of the xor of the inverse transforms of the chunks, and the chunks joined are the data |
| LeopardDecoder.ReedSolomonDecode | src/rsctapudp/LeopardFF8.cpp:1809-1919 | every missing row comes out as the plain transforms of the weighted rows give it, and the weights are the error locator; what that is for the rows of the encoder, LeopardRoundTrip says |
| Hamming.DecodingCorrectsOneError | kks_console/HammingCode.cpp:77-152 | for every key and any single error in it or in its check bits, decoding returns the key if and only if the erasing loop reaches all check bits and the error is not the last bit of a key whose expanded length is a power of two |
| BitReversal.Rearrange | kks_console/FFT_CODE/fft.cpp:109-133 | in place, every entry ends up as that of the reversed position |
| ThreadPool.NoLostWakeup | src/ctapudp/thpool.c:439-496 | in every interleaving, a queued job with the queue lock free means that the semaphore is set or a worker is on its way to the queue |
| ThreadPool.ExactlyOnce | src/ctapudp/thpool.c:354-374 | in every interleaving each pushed job is queued, in the hands of exactly one worker, or finished; jobs are pulled in push order |
| ThreadPoolProgress.EveryRunFinishes | src/ctapudp/thpool.c:354-496 | without new jobs every run, in whatever order of the threads, is of bounded length, and one that cannot go on has finished every job pushed |
| ThreadPool.WaitIsSound | src/ctapudp/thpool.c:198-204 | when thpool_wait returns, every job pushed before the call is finished |
| ThreadPool.QueueBounded | src/ctapudp/thpool.c:560-566 | producers that call thpool_wait_max before each push never make the queue longer than the limit plus one for each producer |
| KeyStore.AgreesExactly | src/keyworker/keyworker.c:390-391 | that agreement holds at every point of a run if and only if every new key of the run starts with usage 0 |
| KeyStore.AssignMoves | src/keyworker/keyworker.c:464-549 | a known key is assigned: device and last usage change in its record and nothing else, an unused key goes to the end of the queue of the new device and from no other place, no other record and place changes, and the device has a key to hand out |
| KeyStore.FreshFirst | src/keyworker/keyworker.c:611-670 | a key is handed out for the first time if and only if the device has an unused one, and it is then the one queued first; nothing is returned if and only if the device has no key |
| KeyStore.FreshOnlyOnce | src/keyworker/keyworker.c:594-679 | in every run whose keys start unused a key is handed out as unused at most once |
| KeyStreamFrames.AnyChunking | src/pythoncrypt/pythoncrypt.py:332-366 | however the bytes are cut into chunks, the relay puts out the plain bytes and keeps nothing back |
| KeyStreamCodec.TenuresAreDisjoint | src/pythoncrypt/pythoncrypt.py:57-78 | frames under one tenure of a key use disjoint ranges of it, over any number of calls |
| KeyStreamCodec.RoundTrip | src/pythoncrypt/pythoncrypt.py:49-114 | whatever calls of encode put on the wire, in any chunks, comes out of the relay as the data that was encoded |
| KeyStreamCodec.EmitEnciphers | src/pythoncrypt/pythoncrypt.py:49-80 | for all data, keys and tenures, what is emitted is such a sequence of frames for exactly the data |
| AesBlock.DecryptEncrypt | src/ctap/aes.c:929-1069 | aes_decrypt undoes aes_encrypt, for all three key sizes |
| AesField.SboxIsAffineInverse | src/ctap/aes.c:45-63 | every entry of the S-box is the affine map of the inverse of its index in the field with 2^8 elements, and that of 0 for 0 |
| AesModes.CbcRoundTrip | src/ctap/aes.c:234-303 | CBC decryption undoes CBC encryption, for every cipher with an inverse, every iv and every number of blocks |
| AesBuffers.EncryptAndDecryptCbc | src/ctap/aes.c:234-303 | decrypting what was encrypted, in place, gives the buffer back; other lengths are refused and change nothing |
| AesModes.CounterValue | src/ctap/aes.c:333-337 | the counter of block k is the iv plus k modulo 2^128 |
| AesModes.CtrTwice | src/ctap/aes.c:345-349 | CTR encryption is its own inverse, for every length |
| AesCcm.CcmRoundTrip | src/ctap/aes.c:355-481 | decrypting gives the payload back with the MAC accepted, for every cipher and accepted length, if and only if the payload is not empty; the empty one is refused |
| AesCcm.FormattedIsInjective | src/ctap/aes.c:494-531 | payloads, associated data, nonces and MAC lengths that aes_encrypt_ccm accepts are formatted into the same bytes if and only if all four are the same |
| AesCcm.SealAndOpen | src/ctap/aes.c:355-481 | decrypting what was encrypted gives the payload back with the MAC accepted, for every payload but the empty one |
| MuxRing.WriteCbuf | src/tcpmux/tcpmux.c:595-610 | the buffer afterwards is the old one with the data stored element by element behind the used part, across the wrap; a rotating buffer moves its position on, another one grows |
| MuxRing.PutHolds | src/tcpmux/tcpmux.c:669-678 | a rotating ring that held the newest bytes of everything sent still does after more bytes are stored, for any amount, also more than a whole turn |
| MuxRing.DebtRunIsOldest | src/tcpmux/tcpmux.c:905-912 | the run of the ring that is offered first while bytes are owed is the oldest part of the owed suffix of the stream, in both branches of the wrap |
| MuxWire.IntRoundTrip | src/tcpmux/tcpmux.c:337-341 | a 32-bit number in network order is read back unchanged, also negative ones |
| MuxWire.NetworkOrder | src/tcpmux/tcpmux.c:337-341 | the first byte is the most significant one |
| MuxWire.PacketLayout | src/tcpmux/tcpmux.c:788-804 | id, size and payload of a packet stand where the reader looks for them |
| MuxWire.AckLayout | src/tcpmux/tcpmux.c:736-756 | the amount and entry i of an acknowledgment stand at bytes 0 and 4 + 8i of its payload |
| MuxWire.FirstPacket | src/tcpmux/tcpmux.c:788-804 | when what has been read is a part of a stream of packets with another one to come, the header asks for exactly the rest of the next packet |
| MuxWire.NextPacket | src/tcpmux/tcpmux.c:862-870 | a completed read buffer is exactly the next packet of the stream, so the parser stays at packet boundaries |
| MuxWire.AckAmountOf | src/tcpmux/tcpmux.c:683-691 | the amount a control packet gives back is the one it was staged with |
| MuxDispatch.AckRoundTrip | src/tcpmux/tcpmux.c:693-730 | read_ack finds exactly the entries write_ack put into the packet, in order, for every client id |
| MuxDispatch.ClientQueuesAreFifo | src/tcpmux/tcpmux.c:872-893 | in every run that forgets nothing, for every client: what it has been told, followed by what is under way, is everything ever said to it, in order, however often the link broke |
| MuxContext.WriteNewTwice | src/tcpmux/tcpmux.c:988-1002 | writing a staged packet in two parts has the effect of writing it at once, on the ring, position and credit |
| MuxContext.DebtPart | src/tcpmux/tcpmux.c:905-919 | a part of the offered run is the oldest part of what is owed |
| MuxContext.FeedSplit | src/tcpmux/tcpmux.c:777-896 | feeding the parser a stream in two parts is feeding it at once |
| MuxContext.ReceiveIsFeed | src/tcpmux/tcpmux.c:777-896 | a read of any size has the effect of its bytes one by one |
| MuxContext.FeedMore | src/tcpmux/tcpmux.c:777-896 | one more read continues the byte-by-byte parse; a failure of the parser in front fails the whole input |
| MuxContext.Context.constructor | src/tcpmux/tcpmux.c:533-555 | everything zero and full credit, one less than the ring |
| MuxContext.Context.WriteMainfd | src/tcpmux/tcpmux.c:669-678 | a write of k bytes takes them from the staged packet, stores them in the ring, moves the position and uses k credit; a failed write changes nothing |
| MuxContext.Context.WriteDebt | src/tcpmux/tcpmux.c:905-913 | what is written while bytes are owed is the oldest part of the owed bytes |
| MuxContext.Context.AbsolveDebt | src/tcpmux/tcpmux.c:905-920 | the bytes written are the owed suffix of the stream, oldest first; more work follows only when nothing is owed |
| MuxContext.Context.WriteStaged | src/tcpmux/tcpmux.c:989-1001 | one write never exceeds the packet or the credit, and has the effect of the endpoint step |
| MuxContext.Context.DumpStaged | src/tcpmux/tcpmux.c:988-1002 | the bytes written are a prefix of the staged packet within the credit, and all of them are accounted for |
| MuxContext.Context.FinishHandshake | src/tcpmux/tcpmux.c:844-848 | the debt becomes the modular difference of the two positions |
| MuxContext.Context.WriteAck | src/tcpmux/tcpmux.c:732-762 | the control packet acknowledges everything read and the first clients of the list, as many as fit; they leave the list |
| MuxContext.Context.ReadOnce | src/tcpmux/tcpmux.c:851-896 | one read has the effect of the endpoint step Receive, including its refusals |
| MuxSession.ResumeIsExact | src/tcpmux/tcpmux.c:844-846 | in every state the invariant allows, the debt computed from the two positions is the exact number of unread bytes |
| MuxSession.WriteKeeps | src/tcpmux/tcpmux.c:669-678 | a write keeps stream order, packet boundaries, ring contents and credit of both directions, carried by the link or lost |
| MuxSession.PayKeeps | src/tcpmux/tcpmux.c:905-920 | a replayed part keeps the same, and what is on its way stays contiguous with the debt |
| MuxSession.DeliverKeeps | src/tcpmux/tcpmux.c:867-877 | a delivered packet is the next one staged by the peer; the credit it returns stays in range |
| MuxSession.ReceiveKeeps | src/tcpmux/tcpmux.c:806-896 | a read of any size keeps both directions and never fails |
| MuxSession.StepInv | src/tcpmux/tcpmux.c:777-1006 | every event of the two endpoints and the link, drops and reconnects included, keeps the invariant, unless it puts a new context in the place of one from which the peer has read, or can still read, something |
| MuxSession.FreshKeeps | src/tcpmux/tcpmux.c:533-555 | a new context can take the place of another one as long as the peer has read nothing |
| MuxSession.AcceptStep | src/tcpmux/tcpmux.c:812-848 | the context a key leads to, or a new one in time, is in step with the peer again |
| MuxProgress.LoadedGetsThrough | src/tcpmux/tcpmux.c:777-1006 | a staged packet that fits the credit is written and read, header and body, and nothing but its own credit is used |
| MuxProgress.AllGetThrough | src/tcpmux/tcpmux.c:777-1006 | any number of packets that fit the credit together reach the parser of the peer, in order |
| MuxProgress.AckGetsThrough | src/tcpmux/tcpmux.c:683-762 | an acknowledgment gives the peer exactly the credit for what has been read |
| MuxProgress.FirstConnection | src/tcpmux/tcpmux.c:812-848 | a new session is quiet as soon as it is connected, with full credit both ways |
| MuxLoss.SessionIsLost | src/tcpmux/tcpmux.c:817-825 | from every state in which the mux has read anything, an interrupted handshake leads to a new context whose peer has read bytes it never wrote |
| MuxLoss.PeerGivesUp | src/tcpmux/tcpmux.c:789-794 | if that happens between two packets, the new context replays zeros, and the size check of the peer refuses them |
| MuxProgram.StepInv | src/tcpmux/tcpmux.c:777-1050 | link and client together: packets are staged from the state of the client and reach it when they are parsed; every event keeps both in step |
| MuxProgram.RoomForStaged | src/tcpmux/tcpmux.c:882-887 | what waits at the client, with the bytes of this lifetime that are staged and not parsed, fits its buffer |
| MuxClients.StepInv | src/tcpmux/tcpmux.c:448-531 | every event of a client, at either end, keeps the credit and disconnect invariant through any number of lifetimes of its id |
| MuxClients.AlwaysRoom | src/tcpmux/tcpmux.c:882-885 | what is under way to a client of this lifetime fits its buffer together with what waits there |
| MuxClients.BytesGetThrough | src/tcpmux/tcpmux.c:448-531 | bytes staged by one end are handed to the socket of the other, which owes an acknowledgment for them and asks to send it from the threshold on |
| MuxClients.CreditGetsThrough | src/tcpmux/tcpmux.c:448-531 | the acknowledgment gives the sender that much credit |
| MuxClientData.PutExtendsWindow | src/tcpmux/tcpmux.c:886-887 | storing behind a window of the ring extends it and leaves its old part alone |
| MuxRing.WindowShrinks | src/tcpmux/tcpmux.c:1019-1034 | taking a run from the front leaves exactly the rest, across the wrap |
| MuxClientData.ClientData.constructor | src/tcpmux/tcpmux.c:514-531 | a client born on the other side starts without credit |
| MuxClientData.ClientData.SetRKarma | src/tcpmux/tcpmux.c:448-464 | the client is queued for an acknowledgment exactly when it crosses the threshold or says goodbye |
| MuxClientData.ClientData.Disconnect | src/tcpmux/tcpmux.c:466-477 | the socket is gone and a goodbye is queued |
| MuxClientData.ClientData.Deliver | src/tcpmux/tcpmux.c:882-887 | the bytes go behind the waiting ones, or nothing happens when they do not fit |
| MuxClientData.ClientData.Wrote | src/tcpmux/tcpmux.c:1022-1047 | the bytes written are the oldest waiting ones; they become acknowledgeable |
| MuxClientData.ClientData.ClientW | src/tcpmux/tcpmux.c:1013-1050 | the bytes handed over are a prefix of the waiting ones; several writes count like one |
| MuxStreamCredit.StageKeeps | src/tcpmux/muxstream.cpp:101-116 | a client never stages more than its unacknowledged window, and staging keeps the accounting of every client |
| MuxStreamCredit.ArrivalFits | src/tcpmux/muxstream.cpp:63-78 | a body that arrives fits the client buffer, and an acknowledgment is covered by unacked_bytes |
| MuxStreamCredit.ArriveKeeps | src/tcpmux/muxstream.cpp:74-88 | an arriving part of a body or an acknowledgment keeps the accounting |
| MuxStreamCredit.SendAckKeeps | src/tcpmux/muxstream.cpp:155-163 | acknowledging half a buffer keeps the accounting |
| MuxStreamCredit.DrainKeeps | src/tcpmux/muxstream.cpp:286-297 | draining keeps the accounting |
| MuxStreamCredit.BytesGetThrough | src/tcpmux/muxstream.cpp:63-122 | pushed bytes arrive and can be taken, as many as window, packet size and push allow |
| MuxStreamCredit.CreditComesBack | src/tcpmux/muxstream.cpp:80-163 | half a buffer that has been taken can be acknowledged, and may then be sent again |
| MuxedClientBuffer.MuxedClient.constructor | src/tcpmux/muxstream.cpp:235-238 | an empty buffer |
| MuxedClientBuffer.MuxedClient.Take | src/tcpmux/muxstream.cpp:290-292 | the run taken is the front of the buffer, across the mask |
| MuxedClientBuffer.MuxedClient.Drain | src/tcpmux/muxstream.cpp:286-297 | what the client takes and what stays buffered are together what has arrived, in order; received_bytes counts what was taken |
| MuxedClientBuffer.MuxedClient.Store | src/tcpmux/muxstream.cpp:252-257 | a run is stored behind the buffered bytes |
| MuxedClientBuffer.MuxedClient.Push | src/tcpmux/muxstream.cpp:243-263 | bytes arrive in order; less than everything is accepted only when the buffer is full, and what fits at once is accepted completely |
| MuxWriteList.WriteList.Attach | src/tcpmux/muxstream.cpp:202-214 | a new client is not in the list |
| MuxWriteList.WriteList.WantsWrite | src/tcpmux/muxstream.cpp:128-140 | the client is appended unless it is in the list already; a set next means exactly that it is |
| MuxWriteList.WriteList.Dequeue | src/tcpmux/muxstream.cpp:150-153 | the first client leaves the list |
| Butterfly.TransformUndone | src/rsctapudp/LeopardFF8.cpp:541-560 | layers of inverse butterflies in the opposite order undo the layers, for every size that is a power of two |
| Butterfly.QuadUpAt | src/rsctapudp/LeopardFF8.cpp:794-815 | the four-way butterfly is two layers of two-way ones |
| Butterfly.QuadDownAt | src/rsctapudp/LeopardFF8.cpp:1518-1539 | the same for the forward order |
| LeopardRows.FftUndoesIfft | src/rsctapudp/LeopardFF8.cpp:1387-1389 | the forward butterfly undoes the inverse one, for every skew and multiplication |
| ButterflyTrees.TransformsAreTrees | src/rsctapudp/LeopardFF8.cpp:541-560 | both layered transforms are those by halves: the largest butterflies, and a transform of each half |
| NovelBasis.ValueOfTimesX | src/rsctapudp/LeopardFF8.cpp:1890-1899 | in the basis of the transform, x times a polynomial has at every point the value times the point |
| NovelBasis.ProductRule | src/rsctapudp/LeopardFF8.cpp:1890-1899 | the derivative of x times a polynomial P is P plus x times the derivative of P |
| ErasurePolynomials.LocatedAt | src/rsctapudp/LeopardFF8.cpp:1890-1919 | a polynomial times the locator polynomial is zero at every erased point, where its derivative is the value times the locator of the other points; elsewhere it is the value times the locator |
| CodewordDegree.TopBlock | src/rsctapudp/LeopardFF8.cpp:1602-1670 | the highest coefficients of an inverse transform are the sums of those of its blocks |
| CodewordDegree.DegreeOfCodeword | src/rsctapudp/LeopardFF8.cpp:1602-1670 | when the first block is the forward transform of the sums of the others, the degree is below the size of the others |
| LeopardFft.XorMem | src/rsctapudp/LeopardCommon.cpp:155-160 | a row is xored into another, nothing else changes |
| LeopardFft.IfftDit2 | src/rsctapudp/LeopardFF8.cpp:663-666 | one inverse butterfly in place |
| LeopardFft.FftDit2 | src/rsctapudp/LeopardFF8.cpp:1387-1390 | one forward butterfly in place |
| LeopardFft.IfftDit4 | src/rsctapudp/LeopardFF8.cpp:794-815 | four rows get the result of two layers; the skew zero is handled without a multiplication |
| LeopardFft.FftDit4 | src/rsctapudp/LeopardFF8.cpp:1518-1539 | the same for the forward transform |
| LeopardFft.IfftBlock | src/rsctapudp/LeopardFF8.cpp:1226-1236 | the inner loop does two layers on one block and leaves the rest alone |
| LeopardFft.FftBlock | src/rsctapudp/LeopardFF8.cpp:1563-1573 | the same for the forward transform |
| LeopardFft.IfftLevel | src/rsctapudp/LeopardFF8.cpp:1219-1237 | one pass does two layers on all blocks in front of the truncation |
| LeopardFft.FftLevel | src/rsctapudp/LeopardFF8.cpp:1556-1574 | the same for the forward transform |
| LeopardFft.TruncatedUp | src/rsctapudp/LeopardFF8.cpp:1219-1237 | a pass that stops in front of zero rows is a whole pass |
| LeopardFft.IfftLastLayer | src/rsctapudp/LeopardFF8.cpp:1240-1261 | the last layer when the number of layers is odd, through VectorXOR for the skew zero |
| LeopardFft.VectorXor | src/rsctapudp/LeopardCommon.cpp:439-467 | for every count, the rows that the loop and its remainder leave xored |
| LeopardFft.XorsAll | src/rsctapudp/LeopardCommon.cpp:453-466 | those are all rows if and only if there are less than four or a multiple of four |
| LeopardTransforms.IfftPass | src/rsctapudp/LeopardFF8.cpp:1216-1238 | two layers, and the zero tail stays known |
| LeopardTransforms.FftLastLayer | src/rsctapudp/LeopardFF8.cpp:1577-1595 | the last layer on the pairs in front of the truncation |
| LeopardPruned.PrunedLevel | src/rsctapudp/LeopardFF8.cpp:1751-1780 | every block that is not denied gets two layers |
| LeopardPruned.LevelKeepsNeeded | src/rsctapudp/LeopardFF8.cpp:1751-1780 | blocks with a needed row keep the values of the whole transform through a pruned pass |
| LeopardPruned.PrunedLastLayer | src/rsctapudp/LeopardFF8.cpp:1783-1800 | every pair that is not denied gets the last layer |
| BitWords.MaskBits | src/rsctapudp/LeopardFF16.cpp:1515-1521 | the mask of step j has exactly the bits whose j-th binary digit is set |
| BitWords.SpreadBit | src/rsctapudp/LeopardFF16.cpp:1536-1541 | a step gives every bit the value of itself or its partner at distance 2^j |
| BitWords.FoldBit | src/rsctapudp/LeopardFF16.cpp:1552-1553 | a bit of the folded word tells about both halves |
| BitfieldRows.NextLevel | src/rsctapudp/LeopardFF16.cpp:1536-1541 | if the bits of a word tell about blocks of 2^l units, after the step they tell about blocks of twice that size |
| BitfieldRows.Lookup | src/rsctapudp/LeopardFF16.cpp:1497-1512 | the bit that belongs to a position says whether its block contains a marked position |
| BitfieldRows.SpreadColumn | src/rsctapudp/LeopardFF16.cpp:1536-1541 | all rows of a column become right, nothing else changes |
| BitfieldRows.FoldRow | src/rsctapudp/LeopardFF16.cpp:1546-1554 | bit j of the result is bit j of the j-th folded word |
| ErrorBitfield.SpreadWords | src/rsctapudp/LeopardFF16.cpp:1525-1542 | the words of levels 1 to 5 are right |
| ErrorBitfield.SpreadBigWords | src/rsctapudp/LeopardFF16.cpp:1544-1563 | the words of levels 6 to 11 are right |
| ErrorBitfield.SpreadBiggest | src/rsctapudp/LeopardFF16.cpp:1565-1576 | the words of levels 12 to 15 are right |
| ErrorBitfield.Needed16IsExact | src/rsctapudp/LeopardFF16.cpp:1497-1512 | a block is needed if and only if it contains a marked position, or the level is at least 16 |
| ErrorBitfield.ErrorBitfield16.constructor | src/rsctapudp/LeopardFF16.cpp:1476-1488 | nothing is marked |
| ErrorBitfield.ErrorBitfield16.Set | src/rsctapudp/LeopardFF16.cpp:1490-1493 | one more position is marked |
| ErrorBitfield.ErrorBitfield16.Prepare | src/rsctapudp/LeopardFF16.cpp:1523-1577 | all words of all 15 levels are right for what was marked |
| ErrorBitfield.HitIsAny | src/rsctapudp/LeopardFF16.cpp:1595-1599 | for an aligned position the block of the bitfield is the block of the transform |
| LeopardErasures.FoldWords | src/rsctapudp/LeopardFF8.cpp:1727-1737 | the words of levels 6 and 7 are right |
| LeopardErasures.ErrorBitfield8.constructor | src/rsctapudp/LeopardFF8.cpp:1681-1686 | nothing is marked |
| LeopardErasures.ErrorBitfield8.Set | src/rsctapudp/LeopardFF8.cpp:1687-1690 | one more position is marked |
| LeopardErasures.ErrorBitfield8.Prepare | src/rsctapudp/LeopardFF8.cpp:1710-1738 | all words of all 7 levels are right for what was marked |
| LeopardErasures.ErrorBitfield8.IsNeededIsExact | src/rsctapudp/LeopardFF8.cpp:1694-1699 | IsNeeded holds if and only if the block contains a marked position (always from level 8 on) |
| LeopardErasures.ExactIsSound | src/rsctapudp/LeopardFF8.cpp:1757-1758 | an exact test never denies a block with a marked position |
| ModularPairs.AddModCongruent | src/rsctapudp/LeopardFF8.cpp:58-64 | the partially reduced sum is congruent to the sum modulo kModulus and fits an ffe_t, in both fields |
| ModularPairs.SubModCongruent | src/rsctapudp/LeopardFF8.cpp:67-73 | the same for the difference, through the wrap-around of unsigned numbers |
| ModularPairs.AscendHolds | src/rsctapudp/LeopardFF8.cpp:111-130 | the transform modulo kModulus is congruent to the integer transform |
| WalshHadamard.LayersAreHalves | src/rsctapudp/LeopardFF8.cpp:111-130 | the layered transform is the Walsh-Hadamard transform by halves |
| ErrorLocator.Fwht4 | src/rsctapudp/LeopardFF8.cpp:88-107 | four numbers get the result of two layers |
| ErrorLocator.FwhtLevel | src/rsctapudp/LeopardFF8.cpp:116-124 | one pass does two layers on all blocks in front of the truncation |
| ErrorLocator.FwhtLastLayer | src/rsctapudp/LeopardFF8.cpp:126-129 | the last layer when the number of layers is odd |
| ErrorLocator.FwhtHolds | src/rsctapudp/LeopardFF8.cpp:111-130 | its result is congruent to the Walsh-Hadamard sums |
| ErrorLocator.WalshOfLog | src/rsctapudp/LeopardFF8.cpp:531-537 | LogWalsh holds the transform of the logarithms with 0 for the logarithm of 0 |
| LeopardDerivative.WidthFits | src/rsctapudp/LeopardFF8.cpp:1892-1898 | the width is a power of two, and both blocks of a turn lie inside the rows |
| LeopardDerivative.TurnsAre | src/rsctapudp/LeopardFF8.cpp:1890-1899 | all turns together xor into every row the rows with one of its clear bits set, each once and with its original value |
| LeopardEncoder.Fill | src/rsctapudp/LeopardFF8.cpp:1100-1103 | data rows, then zero rows |
| LeopardEncoder.IfftBlockXor | src/rsctapudp/LeopardFF8.cpp:1126-1139 | the last pass leaves the transform in the work rows and xors it into the result |
| LeopardEncoder.LastLayerXor | src/rsctapudp/LeopardFF8.cpp:1172-1183 | the last layer, xored into the result |
| LeopardEncoder.LastLayerXorZero | src/rsctapudp/LeopardFF8.cpp:1165-1169 | for the skew zero both rows of a pair are added to the first row of the result and none to the second |
| LeopardEncoder.IfftDitEncoder | src/rsctapudp/LeopardFF8.cpp:1088-1203 | without a result to xor into, the whole transform of the padded data |
| LeopardEncoder.IfftDitEncoderXor | src/rsctapudp/LeopardFF8.cpp:1088-1203 | what the rows behind xor_result hold afterwards: the xor with the transform, or for a last layer with the skew zero only its first half, or for a single row nothing new |
| LeopardEncoder.XorIsRight | src/rsctapudp/LeopardFF8.cpp:1163-1186 | the same in terms of the data rows of a call |
| EncoderXor.ZeroOnlyFromZero | src/rsctapudp/LeopardFF8.cpp:1088-1203 | only rows of zeros are transformed into rows of zeros |
| EncoderXor.ChunksCanXor | src/rsctapudp/LeopardFF8.cpp:1612-1660 | when the skew zero stands only at powers of two, no chunk of the encoder has a last layer with it |
| LeopardEncoder.XorIsLost | src/rsctapudp/LeopardFF8.cpp:1163-1169 | two inputs for which the xor is lost |
| SkewFactors.NextIndependent | src/rsctapudp/LeopardFF8.cpp:519-525 | in every field of characteristic 2: when no sum of the factors is 0 or 1, the same is true of the factors of the next layer |
| SkewFactors.NextCombo | src/rsctapudp/LeopardFF8.cpp:519-525 | a sum of next factors is what the sum of the factors becomes |
| SkewTable.BitsIndependent | src/rsctapudp/LeopardFF8.cpp:502-503 | no sum of the powers of two from 2 on is 0 or 1 |
| SkewTable.FillLayer | src/rsctapudp/LeopardFF8.cpp:509-517 | the two inner loops put the sum of the factors that the binary digits of x select at place x of the layer, and leave the other layers alone |
| SkewTable.NextFactors | src/rsctapudp/LeopardFF8.cpp:519-525 | the factors become x * (x + 1), divided by what the first one becomes |
| SkewValues.FactorsAreBits | src/rsctapudp/LeopardFF8.cpp:519-525 | with a Cantor basis, in which x * x + x is half the number of x, the factors of every layer are the powers of two from 2 on |
| FieldOfFour.FourIsCantorField | src/rsctapudp/LeopardFF8.cpp:174-193 | the laws of a field with a Cantor basis hold in the one of four elements |
| SkewTable.TableServesEncoder | src/rsctapudp/LeopardFF8.cpp:1612-1660 | so the table meets what the encoder requires of it |
| SkewFactors.FourIsField | src/rsctapudp/LeopardFF8.cpp:151-170 | the laws of such a field hold in the one of four elements |
| LeopardEncoder.AddChunk | src/rsctapudp/LeopardFF8.cpp:1628-1658 | one more chunk is transformed with its own skews and xored into the sum |
| LeopardEncoder.ChunksAreData | src/rsctapudp/LeopardFF8.cpp:1628-1658 | row j of chunk k is row m * k + j of the data, and the chunks joined are the data |
| LeopardDecoder.FillMarks | src/rsctapudp/LeopardFF8.cpp:1821-1843 | the marks and the bitfield name exactly what is missing |
| LeopardDecoder.FillWork | src/rsctapudp/LeopardFF8.cpp:1857-1880 | what arrived, weighted by the locator; zero rows elsewhere |
| LeopardDecoder.TransformRows | src/rsctapudp/LeopardFF8.cpp:1882-1910 | inverse transform, derivative and pruned forward transform give every erased row the value of the plain definitions |
| LeopardDecoder.RevealErasures | src/rsctapudp/LeopardFF8.cpp:1914-1918 | every missing row is the row behind it freed of its weight, although the loop writes into the same rows |
| LeopardDecoder.DecodeRows | src/rsctapudp/LeopardFF8.cpp:1857-1919 | the part behind the locator |
| LeopardColumns.TransformsOfColumn | src/rsctapudp/LeopardFF8.cpp:541-560 | the bytes at one index of all rows are transformed like elements of the field |
| LeopardColumns.DerivativeOfColumn | src/rsctapudp/LeopardFF8.cpp:1890-1899 | the derivative loop leaves in every column the coefficient plus that of the formal derivative |
| LeopardCodeword.SumOfColumn | src/rsctapudp/LeopardFF8.cpp:1602-1670 | in every column the sum of the encoder is the sum of the coefficients of the blocks of the data |
| LocatorElements.ExpOfMarkedSum | src/rsctapudp/LeopardFF8.cpp:1846-1853 | the element behind the sum of the logarithms is the product of the elements i xor j over the other marked positions j |
| LocatorElements.LocatorIs | src/rsctapudp/LeopardFF8.cpp:1846-1919 | the weight of a row is that product, and kModulus minus it is the logarithm of its inverse |
| LeopardRoundTrip.CountOfMarks | src/rsctapudp/LeopardFF8.cpp:1821-1843 | how many positions are marked, in terms of the rows that are lost |
| LeopardRoundTrip.RowComesBack | src/rsctapudp/LeopardFF8.cpp:1809-1919 | when no more data rows are lost than recovery rows arrive, what the decoder computes for a lost row is that row |
| HammingLayout.StripInserted | kks_console/HammingCode.cpp:139-145 | erasing undoes inserting |
| HammingLayout.StripSame | kks_console/HammingCode.cpp:139-145 | what erasing leaves does not depend on the check bits |
| HammingLayout.InsertedUpdate | kks_console/HammingCode.cpp:32-36 | every key bit has one place in the expanded key, never that of a check bit |
| HammingLayout.ErasesAll | kks_console/HammingCode.cpp:140-145 | the erasing loop erases as many bits as were inserted if and only if the key has at least 2^(r-1) bits for r check bits; otherwise fewer |
| Hamming.CountOnes | kks_console/HammingCode.cpp:46-56 | the scan counts the ones at the positions (from 1) with binary digit st |
| Hamming.FillParities | kks_console/HammingCode.cpp:41-61 | the parity loop, turn by turn |
| Hamming.FilledCheck | kks_console/HammingCode.cpp:57-58 | after the loop a check bit is the parity of its positions |
| Hamming.KeyBitsKept | kks_console/HammingCode.cpp:43-61 | the loop never changes a key bit, although it makes one turn too many when the length is a power of two |
| Hamming.Expand | kks_console/HammingCode.cpp:32-36 | the inserting loop |
| Hamming.ReadOut | kks_console/HammingCode.cpp:66-71 | the bits read out are the check bits |
| Hamming.HammingCode | kks_console/HammingCode.cpp:25-74 | check bit i is the parity of the expanded key over the positions with digit i |
| Hamming.Erase | kks_console/HammingCode.cpp:140-145 | the erasing loop |
| Hamming.HammingDecode | kks_console/HammingCode.cpp:77-152 | the position named by the check bits that differ is flipped and the erasing loop is applied; nothing is the result when there are too many check bits or the position lies behind the expanded key |
| Hamming.SyndromeOfError | kks_console/HammingCode.cpp:120-127 | for one flipped key bit the differing check bits are the binary digits of its position |
| Hamming.SyndromeIs | kks_console/HammingCode.cpp:120-127 | what the sum is for no error, one wrong key bit and one wrong check bit |
| Hamming.ShortKeys | kks_console/HammingCode.cpp:32-36 | 1, 2 and 3 are lengths at which one of the two conditions fails |
| BitReversal.ReverseTwice | kks_console/FFT_CODE/fft.cpp:88-106 | reversing the digits twice gives the position back |
| BitReversal.ReverseDigit | kks_console/FFT_CODE/fft.cpp:88-106 | digit k of the result is digit log - 1 - k of the position |
| BitReversal.IncrementReversed | kks_console/FFT_CODE/fft.cpp:97-104 | the increment from the top leads from the reversal of a position to that of the next one, and at the end to 0 |
| BitReversal.NextTarget | kks_console/FFT_CODE/fft.cpp:97-104 | the mask loop terminates and performs that increment |
| BitReversal.RearrangeTo | kks_console/FFT_CODE/fft.cpp:88-106 | entry p goes to the reversal of p |
| JobQueue.Queue.constructor | src/ctapudp/thpool.c:398-410 | an empty queue, the semaphore at 0 |
| JobQueue.Queue.Push | src/ctapudp/thpool.c:439-460 | the job is appended and the semaphore is 1 |
| JobQueue.Queue.Pull | src/ctapudp/thpool.c:470-496 | the oldest job leaves, or none when there is none; the semaphore is set again exactly when more are left |
| JobQueue.Queue.Clear | src/ctapudp/thpool.c:417-428 | nothing is left |
| ThreadPool.StepInv | src/ctapudp/thpool.c:354-382 | every step of every thread keeps the invariant of the pool |
| ThreadPoolProgress.StepDown | src/ctapudp/thpool.c:354-496 | every step that is not a new job or a new call of thpool_wait makes the number of steps there can still be smaller |
| ThreadPoolProgress.SomethingToDo | src/ctapudp/thpool.c:354-496 | no deadlock: while a pushed job is not finished, some thread can make such a step |
| ThreadPoolProgress.WindsDown | src/ctapudp/thpool.c:354-496 | and there is such a run from every state the invariant allows |
| ThreadPoolProgress.PushedJobsAreDone | src/ctapudp/thpool.c:354-496 | from every state of every run with a worker, all jobs pushed so far can be finished |
| KeyStore.PutKeeps | src/keyworker/keyworker.c:366-462 | storing a new key keeps table and queues in agreement if and only if its usage starts at 0 |
| KeyStore.AssignFindsRecord | src/keyworker/keyworker.c:493-504 | the delete always finds its record; the call fails only for an unknown key |
| KeyStore.AssignKeeps | src/keyworker/keyworker.c:464-549 | moving a key keeps the agreement |
| KeyStore.TakeLastKeeps | src/keyworker/keyworker.c:594-679 | handing out a key keeps the agreement |
| KeyStore.PutStores | src/keyworker/keyworker.c:366-462 | a new key gets a record and the last place in the queue of its device; no other record and no other place changes |
| KeyStore.TakeLastHandsOut | src/keyworker/keyworker.c:594-679 | the key handed out is the first in the queue of the device, or else the last of its keys; its record counts one use more, up to the limit, and nothing else changes |
| KeyStore.AfterInv | src/keyworker/keyworker.c:366-679 | in every run whose keys start unused: a key is unused if and only if it is queued, in the queue of its device under its number |
| KeyKeeper.Keeper.constructor | src/keyworker/keyworker.c:63-82 | an empty database |
| KeyKeeper.Keeper.OpenQueue | src/keyworker/keyworker.c:84-127 | the queue of a device exists afterwards |
| KeyKeeper.Keeper.PutKey | src/keyworker/keyworker.c:366-462 | the transaction of putKey, with whatever usage the record holds; a new unused key gets its record and the last place in the queue of its device, and nothing else changes; a known key is refused |
| KeyKeeper.Keeper.AssignDeviceBySha | src/keyworker/keyworker.c:464-549 | the transaction of assignDeviceBySha: the record names the new device and keeps its key and usage, an unused key moves to the end of the queue of that device, and nothing else changes |
| KeyKeeper.Keeper.GetLastKeyDevice | src/keyworker/keyworker.c:594-679 | the transaction of getLastKeyDevice, with the search from the last key down: one use more is recorded for the key handed out, the first in the queue or else the last of the device, and nothing else changes; nothing is handed out only to a device without keys |
| KeyStreamFrames.XorWithTwice | src/pythoncrypt/pythoncrypt.py:31-34 | the same part of a key undoes itself |
| KeyStreamFrames.WireEnciphers | src/pythoncrypt/pythoncrypt.py:62-78 | a frame on the wire, byte by byte: number, position, length, and the exclusive or of data and key |
| XorDigits.XorDigit | src/pythoncrypt/pythoncrypt.py:31-34 | a binary digit of the exclusive or is set where exactly one of the numbers has it |
| KeyStreamFrames.UnpackPack | src/pythoncrypt/pythoncrypt.py:64-65 | a packed number is read back |
| KeyStreamFrames.FindKeyIs | src/pythoncrypt/pythoncrypt.py:179-183 | with distinct numbers the key found is the one meant |
| KeyStreamFrames.DecodeWireAll | src/pythoncrypt/pythoncrypt.py:82-114 | decoding the frames of a stream gives their plain bytes and leaves nothing over |
| KeyStreamFrames.DecodeSplit | src/pythoncrypt/pythoncrypt.py:82-114 | decoding in two parts, with the rest of the first kept, is decoding at once |
| KeyStreamFrames.CutIsHarmless | src/pythoncrypt/pythoncrypt.py:85-113 | a stream cut anywhere is decoded without losing data |
| KeyStreamCodec.EmitInRange | src/pythoncrypt/pythoncrypt.py:56-79 | every frame uses a range inside its key |
| KeyStreamCodec.EmitPlain | src/pythoncrypt/pythoncrypt.py:56-79 | the frames stand for the data, in order |
| KeyStreamCodec.Key.constructor | src/pythoncrypt/pythoncrypt.py:118-125 | a key that has not been used |
| KeyStreamCodec.KeyManager.constructor | src/pythoncrypt/pythoncrypt.py:128-133 | no keys |
| KeyStreamCodec.KeyManager.NextKey | src/pythoncrypt/pythoncrypt.py:160-177 | the next key, from its start |
| KeyStreamCodec.KeyManager.ChooseKey | src/pythoncrypt/pythoncrypt.py:58-59 | the key changes exactly when the bytes do not fit |
| KeyStreamCodec.KeyManager.WriteFrame | src/pythoncrypt/pythoncrypt.py:62-78 | the 8 bytes of the key number, position and length with the least significant byte first, and every byte of the data exclusive-ored with the byte of the key that far behind the position |
| KeyStreamCodec.KeyManager.EncodeOne | src/pythoncrypt/pythoncrypt.py:57-79 | one turn of the loop |
| KeyStreamCodec.KeyManager.Encode | src/pythoncrypt/pythoncrypt.py:49-80 | the bytes are frames, one behind the other, in which every byte of the data stands exclusive-ored with the key byte its frame names; without keys nothing is encoded |
| KeyStreamRelay.DecodeData | src/pythoncrypt/pythoncrypt.py:82-114 | the loop of decode, with its three ways out |
| KeyStreamRelay.Channel.RelayData | src/pythoncrypt/pythoncrypt.py:332-366 | one chunk, with what was left over in front of it |
| AesTables.SboxInverse | src/ctap/aes.c:661-680 | the inverse table undoes the table, for every byte |
| AesField.ShiftRowsAt | src/ctap/aes.c:686-709 | byte r of column c is the one of column c + r modulo 4 |
| AesField.MixColumnAt | src/ctap/aes.c:745-833 | a mixed column is the column times 3x^3 + x^2 + x + 2 modulo x^4 + 1, over the field |
| AesKeySchedule.AesKeySetup | src/ctap/aes.c:555-582 | the first words are those of the key, and every other one is made of the word in front of it and the one as many words back as the key has; other key sizes write nothing |
| AesKeySchedule.LastWordsDetermine | src/ctap/aes.c:572-580 | the last words of a schedule, as many as the key has, determine the key |
| AesExample.StandardExample | src/ctap/aes.c:929-1000 | schedule and cipher give the block of the example in appendix C.3 of FIPS 197 |
| AesCipher.MixColumnUndone | src/ctap/aes.c:745-920 | InvMixColumns undoes MixColumns |
| AesCipher.DecryptionUndoes | src/ctap/aes.c:929-1069 | decryption undoes encryption for every state, key schedule and number of rounds |
| AesBlock.SubBytesInPlace | src/ctap/aes.c:641-659 | every byte is substituted |
| AesBlock.InvSubBytesInPlace | src/ctap/aes.c:661-679 | every byte is substituted back |
| AesBlock.ShiftRowsInPlace | src/ctap/aes.c:686-709 | row r moves r columns to the left |
| AesBlock.InvShiftRowsInPlace | src/ctap/aes.c:712-735 | row r moves r columns to the right |
| AesBlock.MixColumnsInPlace | src/ctap/aes.c:745-833 | every column is mixed |
| AesBlock.InvMixColumnsInPlace | src/ctap/aes.c:835-920 | every column is mixed back |
| AesBlock.AddRoundKeyInPlace | src/ctap/aes.c:592-634 | every column is xored with its word of the key schedule |
| AesBlock.AesEncrypt | src/ctap/aes.c:929-1000 | the unrolled rounds, in place, are the rounds of the definition |
| AesBlock.AesDecrypt | src/ctap/aes.c:1002-1069 | the same for decryption |
| AesModes.CbcEncryptAt | src/ctap/aes.c:234-255 | block k of the ciphertext is the encryption of block k of the plaintext, each byte exclusive-ored with the ciphertext block in front of it, or the iv |
| AesModes.CbcMacIsLast | src/ctap/aes.c:257-280 | the MAC is the last block of the CBC encryption |
| AesModes.IncrementAddsOne | src/ctap/aes.c:308-318 | the carry loop adds 1 to the big-endian number, which wraps around to 0 |
| AesModes.CtrAt | src/ctap/aes.c:322-343 | byte j of block k is xored with byte j of the encryption of that counter |
| AesBuffers.AesEncryptCbc | src/ctap/aes.c:234-255 | the output is the CBC encryption of the input as it was, also when both are the same buffer; a length that is not a multiple of 16 is refused |
| AesBuffers.AesDecryptCbc | src/ctap/aes.c:282-303 | the same for decryption |
| AesCtr.IncrementIv | src/ctap/aes.c:308-318 | the last counter_size bytes are incremented, the others stay; nothing happens for a size below 1 |
| AesCtr.CtrInPlace | src/ctap/aes.c:322-343 | the bytes of the range are CTR encrypted in place, the rest stays |
| AesCtr.AesEncryptCtr | src/ctap/aes.c:322-343 | the same from another buffer or in place |
| AesCtr.EncryptAndDecryptCtr | src/ctap/aes.c:322-349 | decrypting what was encrypted, in place, gives the buffer back |
| AesCcm.CcmAcceptsOnlyItsMac | src/ctap/aes.c:464-474 | what is accepted is exactly what encrypting the plaintext gives |
| AesCcm.CounterDetermines | src/ctap/aes.c:486-491 | different nonces start from different counters |
| AesCcm.AesEncryptCbcMac | src/ctap/aes.c:257-280 | the last block of the CBC encryption |
| AesCcm.SealInPlace | src/ctap/aes.c:401-407 | payload and MAC are encrypted where they stand, each with its own counter |
| AesCcm.AesEncryptCcm | src/ctap/aes.c:355-415 | the output is the encrypted payload and MAC; other lengths are refused |
| AesCcm.AesDecryptCcm | src/ctap/aes.c:418-481 | plaintext and verdict; a rejected plaintext is cleared, a ciphertext no longer than its MAC is refused, and without a place for the verdict the MAC is not looked at |

## Left out

- LeopardRoundTrip.EncodeAndDecode: that the tables of FF8 are those of a field with a Cantor basis is required, and not derived from kPolynomial and kCantorBasis; FF16 shares the transforms and the locator, and its decoder is not put together.
- ErrorBitfield.ErrorBitfield16.Prepare: the word arrays are sequences that the methods reassign, so that sharing of the arrays is not captured; words are sequences of 64 bits.
- AesBlock.AesEncrypt: gf_mul is modelled by the products its entries hold.
- MuxContext.Context.MainW: writes one staged packet; fetching the next packets from the clients, the order of the write list and the thresholds that schedule acknowledgments are left out, because no result depends on them.
- MuxSession.StepInv: key and position are read in one event, or the position is not read at all; a position that arrives after the key of a later connection has been read, which leaves two contexts with one key, is left out, and so is the position a broken handshake leaves in the debt of a context that is not used again.
- MuxProgram.StepInv: one client at a time, because no operation on one client touches another; runs in which a used context is replaced are left out.
- Hamming.CountOnes: the source also reads the bit behind the key when the last run reaches its end; the model stops there.
- SkewTable.FftInitialize: that LogLUT, MultiplyLog and AddMod are those of a field of characteristic 2 is required, and not derived from kPolynomial and the Cantor basis.
- MuxClients.StepInv: is_connecting and failures of epoll and memory are left out; a connection may fail at once.
- MuxEndpoint refuses a control packet of fewer than four bytes; no peer sends one, and the source would read what an earlier packet left in its buffer.
- MuxStreamCredit.NoAssertFails: covers runs until one side disconnects; how disconnects and acknowledgments may overtake each other is not decided by the code.
- MuxStreamCredit.StageKeeps: a packet may be staged at any time; the source stages one only when the one before is drained, which removes runs.
- Liveness: that packets get through is proved of connections that stay up; no claim that a client is served under every schedule, or that thpool_wait returns.
- ThreadPool.StepInv: memory is sequentially consistent; pausing, resuming and destroying the pool and signals are left out.
- KeyStore.AfterInv: record numbers do not wrap around, and a transaction neither fails nor overlaps another one; Berkeley DB and HTTP are left out.
- KeyStreamFrames.AnyChunking: both sides hold the same list of keys with distinct numbers; the position of a frame outside its key is an exception in the source and an error value here; arrival of keys over HTTP, the FPGA and sockets are left out.
- BitReversal.Rearrange: for any element type; the complex arithmetic of the transform is left out.
- SIMD and OpenMP variants of the Leopard kernels, the parity path for a single recovery row, and linkstream.cpp.
- Sockets, epoll, TUN devices, OpenSSL, the kernel driver, configuration and the keyqueue and sha copies.
