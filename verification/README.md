# Secure file transfer: protocol model and proofs

The repository transfers one large file over a hostile network in two ways. Approach A streams it over
mutual TLS, and a dropped connection is resumed at a byte offset. Approach B encrypts it in 1 MiB chunks,
stores the chunks with a signed manifest on a broker that nobody trusts, and resumes chunk by chunk on
both sides. This project models the crash, resume and verification protocols of both approaches, together
with the framing, the broker and the retrying client under them, and proves what they promise over every
run: which histories deliver the file byte for byte, that nothing unverified ever gets the final name,
and exactly where the code does not keep a promise.

`dafny verify dfyconfig.toml` checks everything.

## How the model is laid out

| files | what they model |
|---|---|
| `Prelude`, `Framing`, `Files` | byte strings, 8-byte big-endian packing, length-prefixed frames over a connection that may close after any byte, sequential reads and writes at an offset |
| `DirectTransfer`, `DirectHistory` | Approach A: both programs, and every series of connections between them |
| `BlobNames`, `BlobListing`, `ChunkArithmetic`, `Envelope` | key names and the broker's key pattern, LIST, the floating-point chunk count and the chunk layout, nonces, associated data and the manifest |
| `EnvelopeSender`, `SenderHistory` | Approach B sender: one run cut at any broker call, and every history of runs |
| `EnvelopeReceiver`, `ReceiverSafety`, `ReceiverResume`, `ReceiverInterrupts`, `ReceiverRecovery` | Approach B receiver: one run with every state its disk goes through; killed anywhere; ended by an exception; started from any disk; interrupted at any instant |
| `EndToEnd` | Approach B from the source file to `--out` |
| `BlobStore`, `BlobAtomicity` | the broker's store under concurrent connections, as a state machine over inodes, while PUTs of one key do not overlap |
| `RetriedPuts`, `LostContent`, `PairedGets` | the same store when they do, as retries make them |
| `BrokerProtocol`, `BrokerSession` | the command protocol and the retrying client over a network that loses and delays |
| `TamperRelay` | the hostile-network simulator |

Each program is a class or a method in the shape of the source: fields for what it updates, loops where it
loops. Its contract ties it to a function of its inputs and of the old state (`SenderReply`, `ReceiveRun`,
`SendRun`, `Serve`, `RunNet`, ...), and the theorems are about those functions, over all inputs and all
histories.

Cryptography. In Approach A the hash is any function with 32-byte results, and a collision is an explicit
case. In Approach B digests, ciphertexts and signatures are terms, so that equal digests mean equal
contents, and only the key, nonce and associated data of a ciphertext open it (section 2.8 of RFC 8439).

## Hypotheses

- The signature hypothesis, `Unforged`: a signature that verifies under the sender's key is on a document
  the sender signed. Nothing else is asked of the broker where the tables below say "whatever the broker
  answers".
- The source does not change while its sender state file lives (`Honest`): the code compares sizes only.
  `EditedSource` says exactly what happens otherwise. A new transfer id is one that neither the sender nor
  the broker has seen.
- Clean interruption and hard kill are kept apart. An exception leaves every write in the file, because the
  `with` block flushes it; `.part` and the progress file then are some state the run went through. After a
  hard kill they may hold anything: safety is claimed for that case, and `RecoversExactly` says for which
  contents, of any kind, the transfer still completes.
- One transfer per `--out`. The repair step may discard another transfer's `.part` while that transfer's
  progress file survives. What resumption needs of a disk is `Resumable`, and `ResumableExactly` proves that
  it needs no less; the count of chunks written (`ResumeIsSound`) starts from a disk that a run of the
  transfer has left (`Consistent`).
- No key ends in `.tmp` (`Ordered`, `Admitted`): `TemporaryKeyTearsGets` breaks atomicity without it. Atomic
  GETs (`BlobAtomicity`) also need at most one PUT of a key in flight. A client's own retries break that,
  so the results on retried PUTs (`RetriedPuts`, `LostContent`) ask nothing of the order of the broker's
  threads. They speak of threads that run to their end: a broker that stops while one is at work may leave
  a torn blob (`RetriedPutTears`).
- The store of the sender's histories holds whole blobs. For a LIST that meets an attempt still being handled
  this asks nothing: a listed key that was absent at first is whole as soon as no thread is putting it
  (`RetriedPuts.ListedWillBeWhole`). For a GET it asks that no PUT of that key be in hand while it lasts
  (`PairedGets.GetsArePaired`); a torn answer is refused by the receiver like any other wrong blob.
- File sizes are below 2^63. Beyond 2^53 the chunk count must be one that the floating-point computation
  gets right (`CountIsExact`, characterised by `CountExactness`).

## Where the code and its promises part

- A partial file that fails the whole-file check is not deleted and the transfer does not restart
  (approach-b-broker-envelope/receiver.py:243-249 only raises), although
  approach-b-broker-envelope/DESIGN.md:95-99 says it does. The model follows the code: `StuckForever` proves
  that from a disk that does not recover no later run ever delivers, and `KillAfterPromotionSticks` gets
  there from a delivering run without losing a byte of data.
- A progress file without a `.part` is a clean start (receiver.py:188-189) only if the first chunk is saved
  before the next interruption: the old progress file stays beside the new, empty `.part`. `RecoversExactly`
  and `ResumableExactly` draw the line.
- The rename that makes a PUT atomic (broker.py:66-71) does not protect a retried PUT: the abandoned attempt
  goes on in its own thread and truncates the temporary file that the retry is about to rename. An
  acknowledged blob can read back torn while such a thread is at work on its file, and stays torn if the
  broker stops then (`RetriedPutTears`); a later LIST shows it, so the sender skips it. Once no thread is
  putting the key it is whole (`AcknowledgedStays`). `LostExactlyWhenUnsafe` is the exact condition, for any
  payloads. With different payloads a late attempt can also undo a later PUT for good (`LatePutOverwrites`).
- A PUT removes whatever is stored under its key with `.tmp` appended, also when that is a key of its own
  (`BrokerProtocol.PutDisplacesTemp`).
- The key pattern ends in `$`, which also matches before a final newline. A key that ends in a newline is
  accepted (`NewlineKeyIsAccepted`); the LIST round trip is exact precisely without such keys
  (`ListingReadsBack`), and with one the sender skips a chunk that is not there (`NewlineKeyFoolsSender`).
- The chunk count goes through a 64-bit float: it is wrong first at 2^53 + 1 bytes, and in general exactly
  when a last partial chunk is at most half the spacing of the floats around the size. Such a transfer fails
  closed (`WrongCountNeverDelivers`).
- A same-size edit of the source between two sender runs goes unnoticed. The second run reuses a nonce if and
  only if some chunk that it encrypts again had been encrypted before and was edited (`EditedSource`;
  `EditReusesNonce` is such a history). It can report success for a transfer that cannot be completed: a
  receiver gets the edited file if and only if its disk recovers for it and every chunk that was already
  stored, and that the disk does not hold, is unedited (`EditedDelivery`).

## Model

| member | source | states |
|---|---|---|
| BigEndian.UnpackOfPack | common/util.py:29-30 | reading a packed length back gives the length, for every number that fits the width |
| BigEndian.PackOfUnpack | common/util.py:29-30 | every byte string is the packing of the number it reads as, so the encoding is canonical |
| BigEndian.MostSignificantFirst | common/util.py:29-30 | the byte order: the first byte weighs most |
| Framing.Channel.RecvExact | common/util.py:55-69 | however `recv` fragments the bytes: exactly n of them, or the error that reports how many arrived |
| Framing.Channel.RecvFrame | common/util.py:78-81 | one whole frame and nothing after it is consumed, or an error; independent of fragmentation |
| Framing.Wire.SendFrame | common/util.py:72-75 | what reaches the wire is the frame of the payload, after everything sent before |
| Framing.FrameLayout | common/util.py:72-75 | a frame is eight bytes of length and then the payload |
| Framing.StreamIsExact | approach-a-tls-mtls/sender.py:76-85 | decoding data frames, empty frame and digest gives exactly the data and the digest, and leaves what follows |
| Framing.StreamLayout | approach-a-tls-mtls/sender.py:76-85 | a stream is its data frames in order, eight zero bytes, and the digest |
| Framing.CutStreamDeliversWholeFrames | approach-a-tls-mtls/receiver.py:97-117 | any strict byte prefix of a stream is a drop that has delivered exactly the data frames lying wholly within it |
| Framing.StreamIsCanonical | approach-a-tls-mtls/receiver.py:97-107 | conversely, whatever is read to the end is, byte for byte, the stream of some non-empty data frames |
| Framing.StreamsArePrefixFree | common/util.py:72-81 | no encoded stream is a strict prefix of another |
| Files.FeedPrefix | approach-a-tls-mtls/receiver.py:58-67 | the blocks fed to the hash are together the first n bytes of the file; an error exactly when the file is shorter |
| DirectStream.SplitIsLossless | approach-a-tls-mtls/sender.py:76-82 | the blocks read are non-empty, framable, and concatenate to the data |
| DirectStream.LeadingBlocks | approach-a-tls-mtls/sender.py:76-82 | the first j blocks are the first j MiB of the data, or all of it, and take eight bytes each on top |
| DirectStream.HeaderLayout | approach-a-tls-mtls/sender.py:57-57 | the header is 16 bytes: the file size, then the accepted offset |
| DirectStream.SenderExactly | approach-a-tls-mtls/sender.py:53-85 | the sender says nothing unless it hears eight bytes of claim; otherwise it says the header, the blocks from the claim on (from 0 if it is past the end) and the digest of the whole file |
| DirectPrograms.SkipPrefix | approach-a-tls-mtls/sender.py:69-75 | the hash-only loop feeds exactly the accepted prefix and leaves the file at the offset |
| DirectPrograms.SendRest | approach-a-tls-mtls/sender.py:76-82 | the hash has seen the whole file, and the wire has got exactly the frames of what follows the offset |
| DirectPrograms.Stream | approach-a-tls-mtls/sender.py:51-88 | the sender's output as a function of what it heard: nothing for a claim that is lost or of the wrong size, each reported as such, else header, stream and digest for the accepted offset |
| DirectPrograms.Receiver.OpenPart | approach-a-tls-mtls/receiver.py:78-96 | `.part` is kept and re-hashed when the offset was accepted, and emptied otherwise |
| DirectPrograms.Receiver.ReceiveFrames | approach-a-tls-mtls/receiver.py:92-117 | `.part`, the running hash and the byte count agree with the decoded stream, also when it drops |
| DirectPrograms.Receiver.Receive | approach-a-tls-mtls/receiver.py:70-137 | disk, ending and bytes written for every byte string heard; the claim is the size of `.part` |
| DirectHistory.ReceiverExactly | approach-a-tls-mtls/receiver.py:74-137 | a run in terms of what is heard: no whole header, a header of another size, a stream that breaks off (every whole data frame is kept in `.part`), a stream that ends (promotion by size and digest, otherwise deletion) |
| DirectHistory.FailsClosed | approach-a-tls-mtls/receiver.py:119-133 | whatever the peer sends, the final name changes only for a complete stream that announces the size and digest of the very file promoted |
| DirectHistory.ConnectionCases | approach-a-tls-mtls/receiver.py:70-117 | one connection, cut anywhere in either direction, changes nothing, appends source bytes after the resumed prefix, or is complete |
| DirectHistory.CutKeepsWholeFrames | approach-a-tls-mtls/receiver.py:97-117 | a cut connection in numbers: nothing without the 16 bytes of the claim and the 24 of the header; otherwise exactly the whole frames of 1 MiB and eight bytes that fit are added to the resumed part |
| DirectHistory.ProgressIsKept | approach-a-tls-mtls/receiver.py:97-117 | a connection that carries one more whole frame makes `.part` strictly longer |
| DirectHistory.ConnectionKeepsPrefix | approach-a-tls-mtls/receiver.py:70-133 | from a source prefix: `.part` stays one and grows by exactly the bytes written; promotion happens exactly on undisturbed connections, and only of the source |
| DirectHistory.PrefixAndConservation | approach-a-tls-mtls/receiver.py:70-133 | over every series of connections: no rejection, `.part` a prefix that never shrinks, the final name untouched until promotion, and the bytes written over all runs add up |
| DirectHistory.TransferWritesEachByteOnce | approach-a-tls-mtls/receiver.py:91-105 | starting without `.part`, the bytes written over all runs are exactly the file size once it is delivered |
| DirectHistory.UndisturbedRun | approach-a-tls-mtls/receiver.py:119-137 | from any `.part` content: promotion exactly when the assembled file has the source's digest, otherwise `.part` is deleted |
| DirectHistory.AssembledIsSource | approach-a-tls-mtls/sender.py:55-57 | the assembled file is the source if and only if `.part` is a prefix of it or longer than it |
| DirectHistory.Converges | approach-a-tls-mtls/receiver.py:74-133 | after any history from any `.part`, two undisturbed runs promote the source; one suffices for a prefix or an overlong file; absent a collision a wrong one is rejected first |
| BlobNames.HexInjective | approach-b-broker-envelope/sender.py:65-65 | different ids have different hexadecimal names |
| BlobNames.HexDigits | approach-b-broker-envelope/sender.py:65-65 | two lower-case digits per byte, the high one first |
| BlobNames.ParseOfPadded | approach-b-broker-envelope/envelope.py:127-128 | the zero-padded decimal index reads back as the index, also past eight digits |
| BlobNames.PaddedShape | approach-b-broker-envelope/envelope.py:127-128 | at least eight digits, exactly eight below 10^8, and no leading zero from there on |
| BlobNames.KeyLayout | approach-b-broker-envelope/envelope.py:119-128 | the three kinds of key, letter by letter |
| BlobNames.ChunkKeyInjective | approach-b-broker-envelope/envelope.py:127-128 | a chunk key names one index of one transfer |
| BlobNames.KeysOfTransfersAreDistinct | approach-b-broker-envelope/envelope.py:119-128 | chunk, manifest and signature keys never coincide, within a transfer or between two |
| BlobNames.TransferKeysAreSafe | approach-b-broker-envelope/broker.py:35-50 | every key the programs use is accepted under its own name and is not a temporary name |
| BlobNames.SafePathConfines | approach-b-broker-envelope/broker.py:33-50 | an accepted key is its location, and neither segment can leave the storage directory |
| BlobNames.AcceptedExactly | approach-b-broker-envelope/broker.py:33-50 | a key is accepted if and only if it is two segments of 1 to 128 of the allowed characters, with no two dots in a row, and perhaps a final newline |
| BlobListing.Sorted | approach-b-broker-envelope/broker.py:110-114 | exactly the members of the directory, in increasing code-point order |
| BlobListing.BeforeByIndex | approach-b-broker-envelope/broker.py:110-114 | the order: a proper prefix comes first, otherwise the first difference decides by code point |
| BlobListing.List | approach-b-broker-envelope/broker.py:107-121 | exactly the non-temporary blobs with the prefix, each once, by namespace and then name |
| BlobListing.ParseOfJoin | approach-b-broker-envelope/broker_client.py:129-130 | the client reads back every printed key in order, less a newline at its end |
| BlobListing.ListRoundTrip | approach-b-broker-envelope/broker_client.py:121-132 | the round trip is exact if and only if no listed key ends in a newline |
| BlobListing.ListingReadsBack | approach-b-broker-envelope/broker.py:107-121 | for a whole store: the client gets exactly the listing if and only if no shown name ends in a newline |
| BlobListing.ListedIffStored | approach-b-broker-envelope/broker.py:107-121 | a key is listed if and only if it is stored and has the prefix |
| BlobListing.AlreadyTest | approach-b-broker-envelope/sender.py:110-135 | the skip test holds exactly when the chunk's key, or that key with a newline, is stored |
| BlobListing.NewlineKeyIsAccepted | approach-b-broker-envelope/broker.py:33-50 | the broker accepts a chunk's key with a newline at its end, as a key of its own |
| BlobListing.NewlineKeyFoolsSender | approach-b-broker-envelope/sender.py:110-135 | with only that key stored, the chunk is not there, the listing does not read back, and the sender skips the chunk |
| ChunkArithmetic.CountExactness | approach-b-broker-envelope/sender.py:86-86 | the computed chunk count is right if and only if the last partial chunk is longer than half the float spacing around the size; it is never too large |
| ChunkArithmetic.FirstWrongCount | approach-b-broker-envelope/sender.py:86-86 | right for every size up to 2^53, wrong at 2^53 + 1 |
| ChunkArithmetic.UlpIsSpacing | approach-b-broker-envelope/sender.py:86-86 | the spacing is the power of two that leaves the size a significand of 53 bits |
| ChunkArithmetic.RoundsToNearest | approach-b-broker-envelope/sender.py:86-86 | the quotient goes by the nearest multiple of the spacing, the even one of two equally near |
| ChunkArithmetic.WriteNext | approach-b-broker-envelope/receiver.py:224-225 | writing the next chunk at its offset extends the leading chunks by one |
| ChunkArithmetic.AnyOrderRebuilds | approach-b-broker-envelope/receiver.py:224-225 | writing every chunk at its offset, in any order and with repetitions, rebuilds the file |
| Envelope.NonceInjective | approach-b-broker-envelope/envelope.py:98-100 | different indices have different nonces |
| Envelope.NonceLayout | approach-b-broker-envelope/envelope.py:98-100 | four zero bytes, then the index in eight |
| Envelope.AadInjective | approach-b-broker-envelope/envelope.py:103-105 | the associated data determines transfer, index and total |
| Envelope.AadLayout | approach-b-broker-envelope/envelope.py:103-105 | the transfer id, the index, the total |
| EnvelopeSender.Sender.LoadOrCreateState | approach-b-broker-envelope/sender.py:49-77 | resumes the stored transfer when the size matches, else starts a new one and records it |
| EnvelopeSender.Sender.SendChunks | approach-b-broker-envelope/sender.py:114-135 | store, hash and records after the chunk loop, wherever a PUT fails |
| EnvelopeSender.Sender.PublishManifest | approach-b-broker-envelope/sender.py:138-162 | manifest, then signature, then the removal of the state file, each only if the PUT before succeeded |
| EnvelopeSender.Sender.Send | approach-b-broker-envelope/sender.py:80-162 | the whole world after one run cut at any broker call, and when it reports success |
| SenderHistory.UploadKeeps | approach-b-broker-envelope/sender.py:110-135 | the loop never drops a blob, adds only this transfer's own, and when complete has every chunk stored |
| SenderHistory.UploadsOnlyMissing | approach-b-broker-envelope/sender.py:132-135 | a complete loop makes exactly one PUT for each chunk that is not there already |
| SenderHistory.SignatureComesLast | approach-b-broker-envelope/sender.py:119-158 | a run stores a manifest only when every chunk is stored, and a signature only when the manifest is |
| SenderHistory.FailedPublication | approach-b-broker-envelope/sender.py:157-158 | a publishing PUT that fails for the client is stored if it took effect at the broker and not otherwise, and the state file stays |
| SenderHistory.SendRunKeeps | approach-b-broker-envelope/sender.py:80-162 | one run keeps the invariant wherever it is cut, and drops its state file only once chunks, manifest and signature are all stored |
| SenderHistory.RerunCompletesTransfer | approach-b-broker-envelope/sender.py:55-60 | a run that left its state is taken up by the next as the same transfer, with the same key and manifest, and completed |
| SenderHistory.HistoryKeeps | approach-b-broker-envelope/sender.py:80-162 | the invariant holds after every history of fresh, resumed, stale and cut-off runs and of PUTs that arrive after the run that gave them up |
| SenderHistory.TransfersAreBegun | approach-b-broker-envelope/sender.py:49-77 | over every history, each transfer has the id, the key and the clock of the run that began it |
| SenderHistory.FreshManifest | approach-b-broker-envelope/sender.py:138-158 | a first run that reports success has published a signed manifest of its own clock, file, size, content and key |
| SenderHistory.AlreadyIsListed | approach-b-broker-envelope/sender.py:110-110 | the skip set of a run is exactly what the client reads out of the broker's answer to LIST |
| SenderHistory.StoreMatchesManifest | approach-b-broker-envelope/sender.py:119-158 | every stored chunk is the deterministic encryption of its chunk, and the manifest lists the digest of the blob stored |
| SenderHistory.OneManifestPerTransfer | approach-b-broker-envelope/sender.py:138-158 | all manifests ever signed for one id are identical |
| SenderHistory.NoncesAreNeverReused | approach-b-broker-envelope/sender.py:119-125 | over every history, one key and nonce encrypt one plaintext with one associated data only |
| SenderHistory.EditedSource | approach-b-broker-envelope/sender.py:55-60 | after a same-size edit the discipline survives a run if and only if every chunk it encrypts that was encrypted before is unedited |
| SenderHistory.EditReusesNonce | approach-b-broker-envelope/sender.py:55-60 | for any two sources of one size that differ in their first chunk, a history of two runs that reuses a nonce |
| SenderHistory.EditedUpload | approach-b-broker-envelope/sender.py:119-158 | after such an edit a stored chunk goes with the new manifest if and only if the run did not find it stored, or it is unedited |
| EnvelopeReceiver.Receiver.SaveProgress | approach-b-broker-envelope/receiver.py:90-94 | replaces the checkpoint and nothing else |
| EnvelopeReceiver.Receiver.Resume | approach-b-broker-envelope/receiver.py:184-193 | which chunks are believed, and every state the repair of `.part` goes through |
| EnvelopeReceiver.Receiver.FetchLoop | approach-b-broker-envelope/receiver.py:197-237 | the chunk loop: every state of `.part` and progress, what is done, what was written, and why it stopped |
| EnvelopeReceiver.Receiver.VerifyAndPromote | approach-b-broker-envelope/receiver.py:238-254 | size and digest before promotion, then progress removal, then the ledger, as successive states |
| EnvelopeReceiver.Receiver.Receive | approach-b-broker-envelope/receiver.py:156-259 | outcome, writes and every state of the disk for any disk and any answers |
| ReceiverSafety.ManifestExactly | approach-b-broker-envelope/receiver.py:114-151 | a manifest is accepted if and only if it is found, signed by the sender, of this version, for the requested id, and, without redelivery, of an age within [-300, 86400] and not in the ledger |
| ReceiverSafety.AgeVerdicts | approach-b-broker-envelope/receiver.py:129-148 | which of the later checks refuses a signed manifest |
| ReceiverSafety.CompleteExactly | approach-b-broker-envelope/receiver.py:170-173 | a chunk list passes if and only if its indices are exactly those below the total |
| ReceiverSafety.RepairSteps | approach-b-broker-envelope/receiver.py:184-193 | when progress is believed, and the steps that replace a `.part` that is not believed in |
| ReceiverSafety.AcceptedChunk | approach-b-broker-envelope/receiver.py:204-222 | under any manifest, the chunk accepted is the plaintext sealed for that very index, with the recorded digest and length, and nothing else is |
| ReceiverSafety.OutputIsAuthentic | approach-b-broker-envelope/receiver.py:114-251 | at every state of every run, whatever the broker answers, `--out` is what it was or exactly what a signed manifest of the requested transfer describes |
| ReceiverSafety.KillsAreFailClosed | approach-b-broker-envelope/receiver.py:184-251 | the same over every history of runs killed anywhere, with `.part` and progress left as anything |
| ReceiverSafety.VisitGrowsLedger | approach-b-broker-envelope/receiver.py:69-74 | a run adds at most its own id, and a success has added it |
| ReceiverSafety.LedgerOnlyGrows | approach-b-broker-envelope/receiver.py:61-74 | over any sequence of runs sharing a state directory the ledger never loses an id |
| ReceiverSafety.ReplayRule | approach-b-broker-envelope/receiver.py:135-148 | over any runs sharing a state directory: a success without `--allow-redeliver` had an age within [-300, 86400], an id not in the first ledger and of no earlier success, and the id is in the ledger ever after |
| ReceiverResume.CheckedChunk | approach-b-broker-envelope/receiver.py:204-222 | exactly one blob passes for a chunk, and it yields the source's chunk; any other is refused by its digest |
| ReceiverResume.CleanRun | approach-b-broker-envelope/receiver.py:184-254 | a run ended by an exception writes exactly the next chunks in order, and delivers the source or stays resumable |
| ReceiverResume.ResumeIsSound | approach-b-broker-envelope/receiver.py:184-238 | over all such runs, even against lying brokers: `done` is always an initial segment that is in place in `.part`, and each chunk is written at most once |
| ReceiverRecovery.WriteAnyChunk | approach-b-broker-envelope/receiver.py:224-226 | writing a source chunk in place never does harm, and does no good to a file whose believed chunks are wrong |
| ReceiverRecovery.RecoversExactly | approach-b-broker-envelope/receiver.py:184-259 | for every disk: an admissible run that gets the manifest delivers if and only if it gets every chunk it does not believe in, and `.part`, read with zeros past its end, agrees with the source on every chunk it believes in, is no longer than the source, and no shorter if the last chunk is believed |
| ReceiverRecovery.StopsAtFirstWrong | approach-b-broker-envelope/receiver.py:200-222 | a run fetches the chunks it does not believe in, in order, up to the first whose stored blob it does not get, and gives that as its reason |
| ReceiverRecovery.StuckStays | approach-b-broker-envelope/receiver.py:243-249 | from a disk that does not recover no run delivers, and at each of its instants the disk still does not recover |
| ReceiverRecovery.KillAfterPromotionSticks | approach-b-broker-envelope/receiver.py:251-254 | a delivering run killed between promotion and progress removal, then an equally admissible run interrupted at its first chunk, leaves such a disk |
| ReceiverInterrupts.EveryInstant | approach-b-broker-envelope/receiver.py:184-254 | interrupted between any two changes to its disk, a run leaves it resumable, or has put the source at `--out`; ended, it leaves it resumable |
| ReceiverInterrupts.SourceStays | approach-b-broker-envelope/receiver.py:242-251 | once `--out` is the source no run of that transfer changes it |
| ReceiverInterrupts.InterruptedAnywhere | approach-b-broker-envelope/receiver.py:184-254 | the same over every history of runs interrupted at any instant, whatever the broker answers |
| ReceiverInterrupts.ResumableExactly | approach-b-broker-envelope/receiver.py:184-193 | every such history ends with the source at `--out` or a disk that recovers, if and only if the first disk is resumable or has the source at `--out` |
| ReceiverInterrupts.StuckForever | approach-b-broker-envelope/receiver.py:243-249 | from a disk that does not recover no history of runs, ended or interrupted at any instant, delivers or touches `--out` |
| ReceiverInterrupts.CleanRunsStayResumable | approach-b-broker-envelope/receiver.py:184-254 | runs that end by themselves leave a resumable disk resumable |
| EndToEnd.PublishedIsServed | approach-b-broker-envelope/sender.py:119-158 | a broker that keeps a published transfer answers every request of the receiver with that transfer's blobs |
| EndToEnd.LastRunPublishes | approach-b-broker-envelope/sender.py:80-162 | after any honest history, a run whose broker calls all succeed publishes its transfer, also if it is killed before it removes its state file |
| EndToEnd.DeliversExactly | approach-b-broker-envelope/receiver.py:156-259 | once uploaded, an admissible run with the stored blobs delivers the source, clears `.part` and progress and records the id, if and only if the disk recovers; for every disk |
| EndToEnd.DeliversInTime | approach-b-broker-envelope/receiver.py:135-148 | by the clock: without redelivery, a run delivers if and only if its clock is within [-300, 86400] of that of the sender run that began the transfer, the id is not in the ledger, and the disk recovers |
| EndToEnd.SourceArrives | approach-b-broker-envelope/receiver.py:156-259 | cut-off sender runs, a complete one, receiver runs against lying brokers, then one admissible run: it delivers, from every resumable disk |
| EndToEnd.SourceArrivesDespiteInterrupts | approach-b-broker-envelope/receiver.py:156-259 | the same with receiver runs interrupted at any instant: `--out` is the source |
| EndToEnd.EditedDelivery | approach-b-broker-envelope/sender.py:55-60 | after a same-size edit and a run that reports success, from any disk: a receiver gets the edited file if and only if the disk recovers for it and no chunk that was already stored, and that it does not hold, was edited |
| EndToEnd.WrongCountNeverDelivers | approach-b-broker-envelope/sender.py:86-86 | where the chunk count is wrong, no run of any receiver delivers |
| BlobStore.StepRefines | approach-b-broker-envelope/broker.py:58-94 | every step of every thread keeps the store sound; only the rename of a PUT changes the plain map, by exactly that PUT; nothing fails |
| BlobAtomicity.ExecutionKeepsInv | approach-b-broker-envelope/broker.py:58-94 | the invariant holds in every state of every interleaving |
| BlobAtomicity.StoreIsAMap | approach-b-broker-envelope/broker.py:66-71 | the store refines a plain map updated by whole PUTs |
| BlobAtomicity.ValuesAreWholePuts | approach-b-broker-envelope/broker.py:66-71 | everything stored was there at the start or is the complete payload of one PUT to that key |
| BlobAtomicity.GetsAreAtomic | approach-b-broker-envelope/broker.py:82-94 | a GET returns what the map held for its key at one moment within the GET: one whole payload, or MISSING |
| BlobAtomicity.OverlappingPutsTearGets | approach-b-broker-envelope/broker.py:66-71 | with two PUTs of one key in flight, a GET can return neither payload |
| BlobAtomicity.TemporaryKeyTearsGets | approach-b-broker-envelope/broker.py:66-71 | a GET of a key ending in `.tmp` can see an unfinished PUT |
| RetriedPuts.HistoryTracks | approach-b-broker-envelope/broker.py:58-80 | with one payload for a key and any overlap of its PUTs: before the first rename the key has its first content, from then on a file that holds the payload or that a thread is filling with it |
| RetriedPuts.ReturnedHasRenamed | approach-b-broker-envelope/broker_client.py:60-91 | a retried PUT that returned has renamed a file into place |
| RetriedPuts.AtLeastOnceIsOnce | approach-b-broker-envelope/broker_client.py:60-91 | over every interleaving of the attempts of a PUT, however late the broker takes them up, also after the return: whenever none is being handled, the key holds the payload if one got as far as the rename, as it did if the PUT returned, and otherwise what it held before |
| RetriedPuts.AcknowledgedStays | approach-b-broker-envelope/broker_client.py:60-91 | over all later PUTs of the same payload and all attempts still on their way, the key of a returned PUT always has a file, whole except while a thread is at work on that very file |
| RetriedPuts.ListedWillBeWhole | approach-b-broker-envelope/sender.py:110-134 | a key that was absent at first and is now there, torn or not, holds the whole payload whenever no thread is putting it from then on |
| RetriedPuts.RetriedPutTears | approach-b-broker-envelope/broker.py:66-71 | for every key and payload, an execution in which a retried PUT has returned and a GET finds an empty blob, which remains if the broker stops |
| LostContent.LostExactlyWhenUnsafe | approach-b-broker-envelope/broker.py:66-71 | for any payloads and any overlap, some way on changes a stored content without a new PUT of its key, if and only if a thread that is putting it would finish with another content, or has yet to truncate the temporary file while a second may rename it |
| PairedGets.GetsArePaired | approach-b-broker-envelope/broker.py:82-94 | over every interleaving: the answer is for the key of the very GET its thread took up; the first content if no PUT has renamed its file by then, never MISSING if one had before, and then the whole payload if no thread is putting the key meanwhile |
| PairedGets.PutAlone | approach-b-broker-envelope/broker.py:58-80 | a PUT handled alone, of any key: its key holds the payload, the name of its temporary file names nothing, and every other path is as it was |
| PairedGets.GetAlone | approach-b-broker-envelope/broker.py:82-94 | a GET handled alone reads the whole file of its key, or finds none |
| BrokerProtocol.RequestIsHandled | approach-b-broker-envelope/broker.py:53-124 | the frames of any command are handled as that command, and the next one starts right after, also when a PUT is refused |
| BrokerProtocol.ServeOne | approach-b-broker-envelope/broker.py:127-137 | one whole request on a connection has its effect once and gets its whole reply |
| BrokerProtocol.ServePart | approach-b-broker-envelope/broker.py:127-137 | a request that arrives in part changes nothing and gets no reply |
| BrokerProtocol.ServeNext | approach-b-broker-envelope/broker.py:127-137 | after a whole request the rest of the input is served, in the store it leaves |
| BrokerProtocol.WireFormat | approach-b-broker-envelope/broker.py:53-121 | requests and replies, letter by letter |
| BrokerProtocol.StoreLaws | approach-b-broker-envelope/broker.py:58-105 | an accepted PUT is what the next GET reads and touches no other key but its temporary name; a refused one and every other command change nothing |
| BrokerProtocol.OtherLines | approach-b-broker-envelope/broker.py:54-56 | an unknown word is answered and the session goes on; a missing argument is empty; a PUT without its payload ends the session |
| BrokerProtocol.Broker.HandleCommand | approach-b-broker-envelope/broker.py:53-124 | store, frames consumed, reply and survival of the session, for every line; a PUT also removes what its temporary name held; LIST answers with the listing of the store |
| BrokerProtocol.PutDisplacesTemp | approach-b-broker-envelope/broker.py:66-71 | a PUT of an accepted key makes the blob under that key with `.tmp` appended read as MISSING |
| BrokerProtocol.Broker.ServeClient | approach-b-broker-envelope/broker.py:127-137 | the store and all replies of a session, for every sequence of frames |
| BrokerSession.ReplyIsReadExactly | approach-b-broker-envelope/broker_client.py:80-132 | reading a whole reply gives what the store means for that command, for LIST the parsed listing, and leaves nothing; less than the whole is a connection error |
| BrokerSession.BrokerClient.Exchange | approach-b-broker-envelope/broker_client.py:65-71 | one attempt under any failure of the network; after a reply the connection is drained |
| BrokerSession.BrokerClient.Run | approach-b-broker-envelope/broker_client.py:60-77 | the retry loop of five attempts; before and after every operation the connection is absent or drained in both directions |
| BrokerSession.RetriesUntilAnswered | approach-b-broker-envelope/broker_client.py:60-77 | for every command: the operation returns what the first answered attempt returns, and gives up only when all have failed |
| BrokerSession.FailsExactly | approach-b-broker-envelope/broker_client.py:65-71 | exactly which breaks make an attempt fail, and what the attempt has done to the store by then |
| BrokerSession.IntactIsEnough | approach-b-broker-envelope/broker_client.py:60-77 | one working connection among the attempts is enough |
| BrokerSession.ReplyVerdicts | approach-b-broker-envelope/broker_client.py:85-132 | what each operation makes of any reply at all |
| BrokerSession.RepliesArePaired | approach-b-broker-envelope/broker_client.py:60-132 | with each request handled at one moment: every value returned is the reply to the command just issued, computed from the store at that moment, in which a key holds what it did, or the payload of a PUT of it on its way, or nothing if it is the temporary name of one that was put |
| BrokerSession.LatePutOverwrites | approach-b-broker-envelope/broker_client.py:69-71 | with different contents, what a returned PUT stored can be replaced by an abandoned request of an earlier PUT |
| TamperRelay.FlipByte | scripts/tamper_proxy.py:50-53 | the block with that one byte flipped |
| TamperRelay.Relay | scripts/tamper_proxy.py:33-56 | whatever the fragmentation: a flip complements the byte it names and leaves the others, a truncation leaves exactly the first bytes up to its cutoff, and otherwise the output is the input |

## Left out

- TLS contexts, key and certificate generation, PEM files: library wrappers. A TLS channel is one that delivers a prefix of what was sent and then ends; how far a failing `sendall` got is how much the receiver hears.
- The internals of SHA-256, HKDF, X25519, Ed25519 and ChaCha20-Poly1305: library code that is not part of this model.
- JSON: a manifest, state, progress or ledger file is the record it encodes. A malformed manifest under a valid signature is one outcome (`NotAManifest`); torn state and ledger files are not modelled.
- Argument parsing, printing, throughput, backoff times, socket timeouts other than as lost connections, and the switch that makes the broker exit after some PUTs.
- `_resolve_transfer_id`: the model's request names its transfer; picking the only one listed adds nothing to the protocol.
- Several senders or receivers at once on one state directory or one `--out`: the code has no locking for it.
- EnvelopeSender.Sender.Send: does not model a source that changes during the run; the file is identified by its whole path rather than by a 16-digit tag of it, the manifest carries that path as its file name, and the manifest's constant fields (chunk size, algorithm names) are not represented. A PUT takes effect whole or not at all within a run; torn blobs are the subject of `RetriedPuts`.
- SenderHistory.NoncesAreNeverReused: freshness of an id is the hypothesis that it was not used before, not a probability.
- DirectHistory.Converges: states what a SHA-256 collision would do instead of excluding it.
- ReceiverSafety.KillsAreFailClosed: the ledger is written whole; a kill in the middle of writing it is not modelled.
- EnvelopeReceiver.Receiver.Receive: the broker's answers to one run are fixed in advance, one per request, which loses nothing since a run requests every blob at most once; a manifest has fewer than 2^64 chunks.
- BrokerProtocol.Broker.HandleCommand: an error reply is its fixed text without the quoted key or operation; a blob stored under a key whose name is a single dot, for which the file system refuses the rename, counts as stored; a command line has one character per byte, so undecodable bytes are not replaced; I/O errors of the broker's disk are left out.
- BrokerSession.ReplyVerdicts: a STAT reply whose number has other characters than digits, which makes the client raise, is read as some number.
- BrokerSession.BrokerClient.Run: frames are whole units here, since `Framing` shows what cutting one does; the other clients of the broker appear only through the store a command meets.
- BrokerSession.RepliesArePaired: the broker handles each request at one moment, which `PairedGets.PutAlone` justifies for a PUT handled alone; what overlapping PUTs do to the store and to the answer of a GET is in `RetriedPuts` and `PairedGets`, and to that of a LIST or STAT is not modelled.
- BlobStore.StepRefines: directory creation and `fsync` are not steps, and files left in the store by other programs are only those present at the start.
