# Verification of encrypted, resumable uploads

This project models the path of an upload in send.to, from the plaintext file to
the stored object, and the concurrent structures of the server it depends on. It
proves properties of the model for every input, every run and every interleaving.

`dafny verify dfyconfig.toml` checks all of it.

| file | what it models |
|---|---|
| `E2EFormat.dfy` | the encrypted stream: nonces, chunks, header, lengths, and what one encryption seals |
| `E2EEncrypt.dfy` | the Go reader, the reader that restarts at a byte offset, the browser's `encrypt` |
| `E2EDecrypt.dfy` | the streaming Go decrypter, the browser's `decrypt`, round trip and authenticity |
| `ByteReader.dfy` | the buffered, seekable input both use |
| `ContentRange.dfy` | the `Content-Range` header: parsed by the server, printed by the client |
| `SessionSpool.dfy` | one upload session on the server: spool file, sidecar, PATCH, finish |
| `SessionProtocol.dfy` | the session under any interleaving of requests, sweeps and crashes |
| `SessionOutcome.dfy` | which sessions can still be stored |
| `UploadClient.dfy` | the client's retry loop against an adversarial network |
| `PendingUploads.dfy`, `ResumeRuns.dfy` | what a client remembers, and uploads spread over many runs |
| `ResumeNames.dfy` | an interrupted upload taken up under another name |
| `LockMap.dfy` | the reference-counted lock map and how the handlers nest its locks |
| `Downloads.dfy` | the Max-Downloads accounting under overlapping downloads; `UploadRecord` is its two locked sections, `CheckMetadata` and `RecordDownload`, as code |
| `RateLimiter.dfy` | the evicting per-address token buckets and the upload budget |
| `Quota.dfy`, `QuotaOverlap.dfy`, `StoredUploads.dfy` | the storage counter, overlapping uploads, and the stored objects it follows |
| `Args.dfy` | moving option flags ahead of positional arguments |

Code that changes state is a class or a method with loops, proved equal to a
function of the old state; the theorems are about those functions and about runs
of them. The cipher has the interface of RFC 5116 and is ideal for the log of what
one encryption sealed: sealing adds one tag, the messages in the log open, and,
where authenticity is claimed, nothing else does. Such ciphers exist for every log
(`E2EFormat.IdealCiphersExist`).

## Findings

Five statements that the code or its documentation suggest are not true of the
code. For each there is a lemma with an input that shows it and one with the
exact condition under which it does hold.

- Restarting the encrypted stream at its very end, `ReaderFrom(length)`, is not
  empty when the plaintext is a non-zero whole number of chunks: an extra sealed
  chunk comes out (`E2EEncrypt.ExtraChunkHappens`, `E2EEncrypt.RestartIsExactIff`).
  The client never asks for it, because its loop stops at that offset.
- `client/resumable.go:33-36` says that a session survives on the server so that
  the same command can continue it. A session whose completed file could not be
  stored survives, complete, and is never stored by any later request
  (`SessionOutcome.RefusedFinishStrands`). `SessionOutcome.CanStillBeStoredIff`
  says exactly which sessions can still be stored.
- `cmd/send/upload.go:133-134` says that a recorded session is revived together
  with the stream that produced its bytes. The resume key does not cover the
  name, and the name is sealed into the header. A file of 16 MiB, interrupted
  after the client's first chunk and taken up under a name with one more byte of
  metadata, is stored as a mixture that never decrypts to a clean end
  (`ResumeNames.OtherNameBreaks`, for files such as that of
  `ResumeNames.SuchAFile`). At an offset inside both streams a run sends the
  session's own bytes if and only if the metadata has the same length and the rest
  of the headers agrees, as it does past the header (`ResumeRuns.OwnBytesIff`); the
  stored object is the file for every history whose chunks join in this sense
  (`ResumeRuns.StoredIsTheFile`). For the client's own chunks the length decides:
  the same, and the file is stored (`ResumeNames.SameLengthIsStored`); longer, and
  it is a mixture (`ResumeNames.LongerIsMixed`, `ResumeNames.MixtureIsCleanIff`);
  shorter, and nothing is stored, but for one exception
  (`ResumeNames.ShorterIsNotStoredIff`).
- The quota counter can fall below what the live uploads hold. Counting a
  download rewrites the metadata; an age purge then takes the older payload,
  leaves the metadata, and the counter is measured without it; when that
  metadata reaches its limit its length is taken off again
  (`StoredUploads.CounterCanFallBelow`). A removal of metadata that fails while
  the payload goes has the same effect. `StoredUploads.ReserveIff` says which
  operations lose the reserve, and `StoredUploads.CoveredForeverIff` that the
  reserve is exactly what keeps the counter safe.
- Reordering arguments changes their meaning exactly when an option that takes a
  value comes last without one and there are positional arguments: the inserted
  `--` becomes its value (`Args.TrailingOptionSwallows`,
  `Args.ParserReadsTheMeaningIff`, `Args.IdempotentIff`).

## Model

| member | source | states |
|---|---|---|
| `E2EFormat.NonceBytesInjective` | client/e2e.go:134-142 | The twelve nonce bytes determine the prefix, the counter and the final marker. |
| `E2EFormat.NonceLayout` | client/e2e.go:134-142 | The prefix stands first, then the counter with its highest byte first, then the marker. |
| `E2EFormat.Constants` | client/e2e.go:46-70 | The magic is the text STE1, and the sizes are those of the format. |
| `E2EFormat.BigEndian16Value` | client/e2e.go:207-208 | The metadata length stands with its higher byte first and reads back as itself. |
| `E2EFormat.WireAuthenticity` | client/e2e.go:134-142 | A cipher that only opens what was sealed under the same nonce bytes only opens what was sealed for the same stream, chunk number and marker. |
| `E2EFormat.ChunksLength` | client/e2e.go:299-326 | The chunk loop produces the plaintext length plus one tag per chunk, and one chunk for an empty file. |
| `E2EFormat.EncryptedSizesAgree` | client/e2e.go:347-365 | The closed form in Go and the one in the browser both equal the length of the ciphertext the chunk loop produces, for every length, empty and exact multiples included. |
| `E2EFormat.MessageAt` | client/e2e.go:299-326 | The i-th message of a stream is the i-th 64 KiB slice under counter + i, marked final exactly when nothing follows. |
| `E2EFormat.MessageCount` | web/src/lib/e2e.ts:151-160 | The number of messages the Go loop seals by lookahead is the chunk count the browser computes by division. |
| `E2EFormat.NoncesDistinct` | client/e2e.go:201-202 | No two messages of one encryption, the metadata included, share a nonce, below 2^32 chunks. |
| `E2EEncrypt.ChunksFrom` | client/e2e.go:250-256 | Dropping i sealed chunks of the stream leaves what sealing the plaintext without its first i slices, from counter + i, produces. |
| `E2EEncrypt.WriteChunks` | client/e2e.go:279-332 | The read-ahead loop writes the header and then exactly the sealed messages of what its input still holds. |
| `E2EEncrypt.Reader` | client/e2e.go:220-227 | The whole ciphertext, or an error exactly when the metadata does not fit the header. |
| `E2EEncrypt.ReaderFrom` | client/e2e.go:232-275 | For every offset inside the ciphertext, the result is the ciphertext from that byte on; every other offset is answered as the restart function says. |
| `E2EEncrypt.StreamFromIsSuffix` | client/e2e.go:229-275 | Restarting inside the header, on a chunk boundary, inside a chunk or in the last one continues the same ciphertext. |
| `E2EEncrypt.RestartIsExactIff` | client/e2e.go:250-256 | For offsets up to the length, the restart is the suffix if and only if it is not the end of a non-zero whole number of chunks, where one extra sealed chunk comes out. |
| `E2EEncrypt.ExtraChunkHappens` | client/e2e.go:250-256 | A plaintext of exactly 65536 bytes, restarted at the length of its ciphertext, yields one more sealed chunk instead of nothing. |
| `E2EEncrypt.RestartPastTheEnd` | client/e2e.go:250-272 | At and past the end, the restart is an error except for the offsets that fall into the one chunk left to seal, and there it is that chunk from there. |
| `E2EEncrypt.RestartErrors` | client/e2e.go:233-240 | A negative offset and metadata that the header has no room for are refused, each exactly then. |
| `E2EEncrypt.NoncePairing` | client/e2e.go:244-262 | Over any restarts at any offsets, equal nonce bytes mean the same plaintext chunk and the same marker. |
| `E2EEncrypt.RestartHandsOutItsLog` | client/e2e.go:244-272 | What a restart hands out is the header and the chunks of its log, sealed, less the bytes in front. |
| `E2EEncrypt.BrowserEncrypt` | web/src/lib/e2e.ts:130-165 | The browser's loop, which knows the chunk count beforehand, produces the ciphertext of the Go stream. |
| `E2EDecrypt.E2EReader.constructor` | client/e2e.go:405 | A new reader will release what the format says the rest of the input means from chunk 1 on. |
| `E2EDecrypt.E2EReader.NextChunk` | client/e2e.go:439-468 | Reading one chunk changes nothing about what is still to be released; it fails only when nothing more is to be released and the end is not clean. |
| `E2EDecrypt.E2EReader.Read` | client/e2e.go:420-437 | Whatever the buffer size, the bytes returned followed by what is still to come are what was to come; an end or an error is reported only when nothing is left, and stays. |
| `E2EDecrypt.ReadAll` | client/e2e.go:420-468 | Every schedule of non-empty buffers reads the same bytes and ends the same way. |
| `E2EDecrypt.Open` | client/e2e.go:369-406 | Each header error is reported before any plaintext; otherwise the reader handed out will release the body. |
| `E2EDecrypt.ErrorsIff` | client/e2e.go:377-403 | Each error by its own condition: shorter than a header, another magic, and everything that a wrong key can cause. |
| `E2EDecrypt.OpenSealed` | client/e2e.go:439-468 | Opening the sealed chunks of a plaintext releases it and ends cleanly. |
| `E2EDecrypt.RoundTrip` | client/e2e.go:367-406 | Decrypting an encryption returns the metadata and the plaintext, for every length, under any cipher that opens what this encryption sealed. |
| `E2EDecrypt.OpensOnlyLogged` | client/e2e.go:24-27 | Under the log of one encryption, a chunk that opens is the logged chunk of that number and marker, unaltered. |
| `E2EDecrypt.OnlyTheSealedChunks` | client/e2e.go:439-468 | From any chunk on, arbitrary input releases a prefix of the rest of the plaintext, and ends cleanly only when it is exactly the rest of the sealed chunks. |
| `E2EDecrypt.AcceptsOnlyWhatWasSealed` | client/e2e.go:369-468 | Truncated, extended, reordered, spliced or header-altered input never ends cleanly: a clean end means the input is the ciphertext, metadata is the sealed metadata, and what was released before an error is a prefix of the plaintext. |
| `E2EDecrypt.DecryptsCleanlyIff` | client/e2e.go:369-468 | For one and the same cipher: an input decrypts to a clean end if and only if it is the ciphertext, and then gives the metadata and the plaintext. |
| `E2EDecrypt.CleanBehindHeaderIff` | client/e2e.go:439-468 | Behind the stream's own header, and whatever other metadata the key has sealed, an input decrypts to a clean end if and only if the rest is exactly the sealed chunks. |
| `E2EDecrypt.BrowserDecrypt` | web/src/lib/e2e.ts:178-244 | The browser accepts exactly the inputs the Go reader reads to a clean end, with the same metadata bytes and plaintext. |
| `E2EDecrypt.BrowserOpenChunks` | web/src/lib/e2e.ts:214-243 | Finding the last chunk by dividing the remaining length agrees with finding it by lookahead. |
| `E2EDecrypt.ShortTailFails` | web/src/lib/e2e.ts:218-220 | The browser's early refusal of a tail shorter than a tag refuses nothing that the Go reader accepts. |
| `ContentRange.DecimalValue` | client/resumable.go:155 | A printed number is digits only and reads back as itself. |
| `ContentRange.HeaderText` | client/resumable.go:155 | The header as it is written, character by character around the numbers. |
| `ContentRange.ParsePrinted` | server/resumable.go:77-102 | The server reads from every range a client prints exactly the span and total that were meant. |
| `ContentRange.ParsesIff` | server/resumable.go:77-102 | A header is accepted as a span if and only if, up to spaces around it, it spells that span in digits and the span is non-empty, inside its total and within 63 bits. |
| `ContentRange.RangeErrors` | server/resumable.go:87-99 | Of a header that has the form, the first thing that is wrong is the one that is named. |
| `ContentRange.FormIff` | server/resumable.go:82-85 | A header is refused for its form exactly if, up to spaces around it, it is not three numbers in their places. |
| `ContentRange.TrimsBothSides` | server/resumable.go:82 | Spaces around the header are dropped, and nothing inside it. |
| `SessionSpool.UploadSession.PatchChunk` | server/resumable.go:384-401 | The handler, from the header as text, does to the session and answers what the specification says, in the order of the checks. |
| `SessionSpool.UploadSession.PatchLocked` | server/resumable.go:403-486 | Append, roll back, refuse or finish: the locked section as a function of the session, the body and the faults. |
| `SessionSpool.UploadSession.CopyBody` | server/resumable.go:449 | The block-wise copy appends exactly the bytes that arrive, up to the wanted length. |
| `SessionSpool.CompletionIsFinal` | server/resumable.go:488-544 | The request that completes the spool decides: the object is stored exactly when its reply says so, and no later sequence of requests stores anything more. |
| `SessionSpool.RemovedIsClosed` | server/resumable.go:149-156 | A removal that takes at least one of the two files closes the session: no later sequence of requests adds a byte or stores an object. |
| `SessionSpool.PatchKeeps` | server/resumable.go:384-486 | One chunk keeps the spool a prefix of the source; 204 and 409 report its true length, and a stored reply means the whole source is stored. |
| `SessionSpool.ChunkIsAllOrNothing` | server/resumable.go:381-383 | The spool gains nothing or exactly the announced bytes, and nothing exactly when the model's reply is NotFound, Conflict, TempExhausted or ChunkIncomplete, which reports the offset the chunk started at; unless the roll-back itself fails. |
| `SessionSpool.AnnouncedIsServed` | server/resumable.go:390-401 | A chunk the client announces is served as the span the client meant. |
| `SessionSpool.MalformedIsRefused` | server/resumable.go:390-395 | A header that does not parse changes nothing but a session past its time, and is answered 400 by a session that is there. |
| `SessionProtocol.StepKeeps` | server/resumable.go:360-544 | Every atomic step of any request, an expired open, a sweep without the lock, and a crash keep the session invariant. |
| `SessionProtocol.SpoolIsAPrefix` | server/resumable.go:381-383 | In every interleaving the spool is the prefix of the client's source of its own length. |
| `SessionProtocol.StoresAtMostOnce` | server/resumable.go:490-544 | In every interleaving, also after a failed finish, a session stores at most one object, it is the whole source, and at most one reply says so. |
| `SessionProtocol.OffsetsWereAskedFor` | server/resumable.go:381-383 | Unless a roll-back itself failed, the offset found under the lock is one that some request asked to end at. |
| `SessionProtocol.LockedSizeGrows` | server/resumable.go:422-467 | The offset under the lock never goes back and nothing stored is lost, whatever fails. |
| `SessionProtocol.DeleteRemoves` | server/resumable.go:367-379 | A DELETE that gets the lock removes the session, and no other request does so in its place. |
| `SessionProtocol.RollBackIsClean` | server/resumable.go:451-457 | A chunk that did not arrive whole leaves the offset it started at, unless the roll-back itself fails. |
| `SessionProtocol.StoredIsAnswered` | server/resumable.go:538-543 | What storage has taken is answered with a result, once, and the session is removed. |
| `SessionOutcome.StorableBefore` | server/resumable.go:360-544 | No step of any request, sweep or crash makes a session storable that was not, and only a storable one is stored. |
| `SessionOutcome.CanStillBeStoredIff` | server/resumable.go:403-544 | In every state of a session that has stored nothing, some run stores it if and only if it is storable: its spool file is there and bytes are missing; or the holder of the lock is on its way; or, with the sidecar gone, the requests that still wait form a chain from where the spool stands to its total. |
| `SessionOutcome.RefusedFinishStrands` | server/resumable.go:516-536 | For every non-empty source, one request that delivers everything and whose finish is refused leaves both files in place and a session that no later run of requests stores. |
| `SessionProtocol.UninterruptedPatch` | server/resumable.go:384-544 | The interleaved steps of one request that nothing interrupts do to the spool what the handler's specification says. |
| `UploadClient.ChunkKeeps` | client/resumable.go:146-198 | One chunk sent over a network that may lose either direction: the server only gains, a result means the source is stored, and a new offset is the server's. |
| `UploadClient.OthersKeep` | server/resumable.go:384-486 | Duplicates, late requests of earlier runs and sweeps between two turns never cost the server a byte. |
| `UploadClient.UploadSession` | client/resumable.go:202-270 | The loop terminates; a result means exactly one object, the whole source, even when replies are lost; it sends at most five requests per chunk the server lacked; it ends at once on what cannot succeed, repeats what may, and gives up only after five failures in a row; while fewer than five turns in a row go wrong, an open session ends with the whole source stored. |
| `UploadClient.AnswersWorthAnotherTry` | client/resumable.go:282-294 | Of the server's answers, a moved offset, no room now, a short body and a fault are worth another try, and no other. |
| `UploadClient.LossesAreLosses` | client/resumable.go:157-163 | A lost request changes nothing, a lost reply hides what the server has done all the same, and otherwise the answer is the server's. |
| `PendingUploads.Pending.PutEntry` | client/resume.go:126-132 | Replaces the first entry of the key or appends, as the recursive specification says. |
| `PendingUploads.Pending.RemoveEntry` | client/resume.go:135-142 | Splices out the first entry of the key, and nothing else. |
| `PendingUploads.Pending.DropExpired` | client/resume.go:98-104 | The in-place filter keeps exactly the entries younger than a day, in order. |
| `PendingUploads.KeepsTheYoung` | client/resume.go:98-104 | Saving keeps an entry if and only if it is younger than 24 hours. |
| `PendingUploads.KeepsTheOrder` | client/resume.go:98-104 | And it keeps the order of what it keeps. |
| `PendingUploads.FindAfterPut` | client/resume.go:116-132 | After recording an entry, its key finds it and every other key finds what it found before. |
| `PendingUploads.FindAfterRemove` | client/resume.go:135-142 | A removal changes no other key, and its own key then finds nothing exactly if it was recorded at most once. |
| `PendingUploads.PutKeepsUnique` | client/resume.go:126-132 | A key stays recorded at most once. |
| `ResumeRuns.OwnBytesIff` | cmd/send/upload.go:90-98 | From an offset inside both streams, a run that takes up an encrypted upload under another name sends the session's own bytes if and only if the metadata has the same length and what is left of the headers is the same, as it is past the header. |
| `ResumeRuns.JoiningBody` | cmd/send/upload.go:90-98 | A chunk that joins is the rest of the stream the spool follows from then on; a plain upload asks nothing of the name. |
| `ResumeRuns.ServedIsOk` | cmd/send/upload.go:90-112 | Whatever chunk of whatever believed length a run sends, the session keeps a prefix of one stream of its declared length. |
| `ResumeRuns.StartKeeps` | cmd/send/upload.go:44-88 | Reviving a recorded session under any name, or creating one when it cannot be revived, keeps every session and run consistent. |
| `ResumeRuns.TakesUpWhatItCan` | cmd/send/upload.go:135-175 | If the first entry of the key is of the same kind, its key and prefix can be read when encrypted, and the server still has both files and the recorded length, the run drives that session under the recorded key and prefix and no session is made. |
| `ResumeRuns.MakesItsOwnOtherwise` | cmd/send/upload.go:46-88 | Otherwise a new session is made, empty and of the length of what will be sent, and recorded. |
| `ResumeRuns.RunsKeep` | cmd/send/upload.go:22-175 | Any number of runs that start, send, die, and find any earlier or lost pending file keep that invariant, as long as their chunks join. |
| `ResumeRuns.StoredIsTheFile` | cmd/send/upload.go:44-98 | Across all interrupted runs whose chunks join, a session stores at most one object; it has the declared length and is the file, or one ciphertext that decrypts to the file and to the metadata its first bytes were sent under. |
| `ResumeRuns.SameMetaJoins` | cmd/send/upload.go:133-175 | If every encrypted upload is taken up under the recorded metadata bytes, every chunk of every history joins. |
| `ResumeNames.ContinuesIff` | cmd/send/upload.go:133-175 | An encrypted upload taken up under some name sends the session's own bytes from every offset if and only if that name has the same metadata bytes, under a cipher that opens the two sealed metadata. |
| `ResumeNames.PlainIsResumed` | cmd/send/upload.go:90-98 | A plain upload interrupted after its first chunk is taken up where it stopped, under any name, and its one session stores exactly the file. |
| `ResumeNames.TwoNamesMix` | client/resumable.go:202-270 | An upload interrupted after the client's first chunk and taken up under any other name stores that chunk and what the other stream supplies behind it, chunk by chunk, or nothing if one of them is not filled. |
| `ResumeNames.SameLengthIsStored` | cmd/send/upload.go:133-175 | If the other name's metadata has the same length, the stored object is the first stream, whole. |
| `ResumeNames.LongerIsMixed` | cmd/send/upload.go:133-175 | If it is longer, the first chunk of the one stream is stored with the bytes of the other behind it. |
| `ResumeNames.ShorterIsNotStoredIff` | cmd/send/upload.go:133-175 | If it is shorter, nothing is stored if and only if the other stream does not end exactly where a client's chunk does, or its end does not yield what is missing. |
| `ResumeNames.MixtureIsCleanIff` | cmd/send/upload.go:133-175 | The mixture decrypts to a clean end if and only if the two streams happen to agree behind the first chunk. |
| `ResumeNames.OtherNameBreaks` | cmd/send/upload.go:133-175 | Every file of at least 16 MiB that ends in two different bytes of its last chunk, interrupted after the first 8 MiB and taken up under a name with one more byte of metadata, is stored as an object that never decrypts to a clean end. |
| `LockMap.ProgramsNest` | server/owner.go:120-184 | A handler that holds an upload or session lock takes at most an owner-index lock, takes nothing above that, and ends holding nothing. |
| `LockMap.HandlersLock` | server/handlers.go:465-551 | Which locks each handler takes: its own upload or session, and the owner index of what it stores, purges or lists. |
| `LockMap.StepKeeps` | server/handlers.go:430-463 | Every atomic step of any thread keeps: counts are the holders and waiters, an entry is mapped exactly while its count is positive. |
| `LockMap.MutualExclusion` | server/handlers.go:430-463 | In every interleaving at most one thread per key is between the return of lock and its call of unlock, although the entry goes before the mutex is released. |
| `LockMap.EntriesCountUsers` | server/handlers.go:423-428 | An entry exists exactly while some thread holds or awaits the key, and refs is the number of those threads. |
| `LockMap.UnlockIsSound` | server/handlers.go:447-463 | The branch for a missing entry is unreachable, and the mutex unlocked is one that the same thread locked. |
| `LockMap.DroppedKeyUnused` | server/handlers.go:456-459 | When the last reference goes, no other thread holds or awaits that key. |
| `LockMap.IdleMapIsEmpty` | server/handlers.go:423-428 | When every thread is idle the map is empty. |
| `LockMap.NoDeadlock` | server/owner.go:120-237 | In every reachable state every unfinished handler can itself take a step, or waits, through at most two mutexes, for a handler that can. |
| `LockMap.ClaimCounts` | server/handlers.go:433-442 | The protocol's claiming step changes the counted keys as the code of lock does. |
| `LockMap.DropCounts` | server/handlers.go:450-460 | The protocol's dropping step changes the counted keys as the code of unlock does. |
| `LockMap.LockTable.ClaimEntry` | server/handlers.go:430-442 | One reference more for the key, a fresh entry only when there was none, and every other count unchanged. |
| `LockMap.LockTable.DropEntry` | server/handlers.go:447-460 | One reference less, the entry dropped with its last one, and every other count unchanged. |
| `Downloads.OneAtATimeIsExact` | server/download.go:264-391 | With one download at a time and no date, no completed transfer is refused its count: what completed is what was recorded, what storage failed to record, and the one still waiting. |
| `Downloads.CountsUpToBudget` | server/handlers.go:503-536 | However often an upload is counted and whatever fails, no more than what was left is recorded and what is stored says exactly how many were; if nothing fails, exactly what was left is recorded. |
| `Downloads.CheckIff` | server/handlers.go:475-501 | The check admits a request exactly if storage answers with an upload that has no budget or some of it left, and no date or one that has not passed; what it refuses for either reason it purges, if the purge works, and it changes nothing else. |
| `Downloads.CountIff` | server/handlers.go:503-536 | When a count is recorded, refused, lost or needless, and what is stored after each. |
| `Downloads.UnlimitedIsServed` | server/handlers.go:490-500 | An upload without Max-Downloads, over every run before its date: the object stays as it was, nothing is counted or refused, and every check that storage answers admits its request. |
| `Downloads.LimitedIsServed` | server/download.go:264-270 | An upload with some of its budget left, before its date, is served. |
| `Downloads.StepKeeps` | server/download.go:264-391 | Every step of overlapping downloads keeps the accounting, while at most k overlap. |
| `Downloads.TransfersAreBounded` | server/download.go:365-391 | With at most k overlapping downloads, at most budget + k - 1 full transfers complete, plus one for each increment storage failed to record; the recorded count never exceeds the budget. |
| `Downloads.BoundIsReached` | server/download.go:264-391 | For every budget and every k a run without any fault completes exactly that many, so the bound cannot be lowered. |
| `Downloads.TransfersAreConserved` | server/handlers.go:503-536 | Every completed transfer is recorded, refused because the budget was used up, lost to a storage failure, or still waiting to be counted: no increment disappears. |
| `Downloads.ClosedForGood` | server/handlers.go:490-498 | Once the budget is used up or the date has passed, no later check passes, even when every purge fails. |
| `RateLimiter.IpRateLimiter.constructor` | server/server.go:537-558 | The retention of idle entries is never shorter than the time a bucket needs to refill. |
| `RateLimiter.IpRateLimiter.AllowN` | server/server.go:566-595 | The map-and-sweep code is the specified limiter; an oversized request is refused and changes nothing. |
| `RateLimiter.IpRateLimiter.SweepIdle` | server/server.go:583-590 | Deleting while ranging removes exactly the idle entries. |
| `RateLimiter.IdleMeansFull` | server/server.go:510-513 | An entry is evicted only when its bucket has refilled. |
| `RateLimiter.EvictedIff` | server/server.go:581-590 | A sweep takes place once more than one retention has passed since the last, and takes exactly the addresses not seen for longer. |
| `RateLimiter.OnlyRecentAddresses` | server/server.go:515-519 | After any history, every address in the map was seen within the last two retentions: the map does not keep who has gone. |
| `RateLimiter.EvictionIsInvisible` | server/server.go:566-595 | For every sequence of calls in time order, the answers are those of a limiter that never evicts. |
| `RateLimiter.GrantedIff` | server/server.go:564-595 | In every ordered history a request is granted if and only if it is within the burst and the address could spend that much then. |
| `RateLimiter.LevelRefills` | server/server.go:549-554 | Between requests an address earns exactly one unit per tick, until its bucket is full. |
| `RateLimiter.WithinTheBurst` | server/server.go:534-536 | An address whose grants so far and the request together stay within the burst is granted it, whatever was refused before. |
| `RateLimiter.LevelAfterCall` | server/server.go:564-595 | A call takes from an address's level what it was granted; refusals and evictions take nothing. |
| `RateLimiter.SpentPlusLevel` | server/server.go:566-595 | Over any run, what was granted and what is left is at most what there was and what was earned. |
| `RateLimiter.GrantedInAnySpan` | server/server.go:534-595 | In any span of any history an address is granted at most the burst plus one unit per tick of its rate. |
| `RateLimiter.GrantedInSeconds` | server/server.go:549-558 | With times in seconds: at most the burst plus the rate times the length of the span. |
| `RateLimiter.WindowFillsTheBucket` | server/server.go:549-554 | For n units a window there is a clock on which every window is n ticks long, the time an empty bucket takes to fill. |
| `RateLimiter.AdmittedInAnySpan` | server/quota.go:157-176 | The bytes admitted by the upload budget in any span are at most 1024 times that bound. |
| `RateLimiter.AdmittedInSeconds` | server/quota.go:157-176 | With times in seconds: at most 1024 times the burst plus what the rate earns in the span. |
| `RateLimiter.AdmittedIff` | server/quota.go:157-176 | An upload of no bytes passes the budget; any other passes exactly if its size in whole kilobytes, rounded up, can be spent. |
| `QuotaOverlap.OvershootIsBounded` | server/quota.go:49-61 | The check and the addition are two steps: with at most k overlapping uploads of at most m bytes the counter never passes the limit by more than (k - 1) * m, so one at a time never at all. |
| `QuotaOverlap.OvershootIsReached` | server/quota.go:49-61 | For every limit, k and m some uploads that are checked together reach exactly that excess. |
| `Quota.StorageQuota.Sub` | server/quota.go:65-80 | Against any interference the compare-and-swap loop ends, and takes effect once, on the value it finds at the swap that succeeds. |
| `StoredUploads.Server.Store` | server/upload.go:366-408 | Metadata, payload, roll-back, counter: what is stored and counted after every way it can fail. |
| `StoredUploads.UploadLeaves` | server/upload.go:366-408 | Stored, both objects are there; failed, the token resolves only if the metadata was written, the payload was not, and the roll-back could not remove it. |
| `StoredUploads.Server.Delete` | server/storage/local.go:73-80 | What each backend leaves and answers when either removal fails or the payload is already missing. |
| `StoredUploads.DeletionAnswers` | server/storage/local.go:73-80 | What each answer of a deletion means on either backend: done, the payload is gone; failed, nothing happened to it; the metadata goes unless its removal fails. |
| `StoredUploads.CleanDeletion` | server/handlers.go:541-551 | A deletion or expiry of a live upload in which nothing fails leaves nothing of it, touches no other, lowers what is stored by exactly its bytes and the counter by its length. |
| `StoredUploads.Server.DeleteUpload` | server/handlers.go:597-625 | A user's deletion: the length is taken off only when the payload was removed. |
| `StoredUploads.Server.PurgeExpired` | server/handlers.go:541-551 | An expiry: the length is taken off also when the payload was already missing. |
| `StoredUploads.Server.PurgeOld` | server/handlers.go:580-593 | The purge removes each object by its own age, and the counter is measured again only afterwards. |
| `StoredUploads.SweepIff` | server/storage/local.go:83-100 | Each object goes if and only if it is older than the cutoff and its removal works. |
| `StoredUploads.MeasuredAfterPurge` | server/handlers.go:583-591 | The purge is followed by a measurement unless that fails, or a removal did and the backend is a disk. |
| `StoredUploads.Server.Usage` | server/storage/local.go:183-201 | The walk counts every byte stored. |
| `StoredUploads.Server.Reseed` | server/quota.go:121-133 | The counter becomes the measurement. |
| `StoredUploads.ReserveIff` | server/quota.go:33-61 | The counter stays above all that deletions may take off through every operation but exactly those that expose it: a token left resolving without the slack for its length, or a measurement of less than is owed. |
| `StoredUploads.HistoryCovers` | server/quota.go:92-133 | From an empty backend, over every history without such an operation, the counter is at least the lengths of the live uploads. |
| `StoredUploads.GentleHistoryCovers` | server/upload.go:366-408 | So it is over every history in which no download is counted and no metadata outlives its payload because a removal failed, age purges and measurements included: the metadata is written first. |
| `StoredUploads.ClampNeverFires` | server/quota.go:63-75 | With that reserve, taking an upload off never reaches the clamp at zero. |
| `StoredUploads.HistoryBounded` | server/quota.go:49-55 | Over every history the counter is at most the larger of the limit and the last measurement. |
| `StoredUploads.WithoutLimit` | server/quota.go:45-61 | Without a limit, over every history, the counter never moves and every upload passes. |
| `StoredUploads.CoveredForeverIff` | server/quota.go:33-40 | With anything live, every such history from a state covers the live uploads if and only if the state has the reserve. |
| `StoredUploads.CounterCanFallBelow` | server/handlers.go:520-551 | Two uploads, a counted download of the older one, an age purge from in between, a measurement and an expiry, with no fault: the counter is below the live upload. |
| `Args.FillTakesValue` | cmd/send/args.go:49-56 | The map holds exactly the names of the flags in scope, and of the flags with one name the last one says whether it takes a value. |
| `Args.FindsByName` | cmd/send/args.go:94-106 | The first command with that name or alias, or none if there is none. |
| `Args.WalkStopsWhereItShould` | cmd/send/args.go:28-47 | The command words are as many as name commands, each below the one before, with exactly their flags in scope. |
| `Args.KindsByLooks` | cmd/send/args.go:64-69 | `--` alone ends the options; `-` alone and whatever has no dash in front is positional. |
| `Args.OptionsByLooks` | cmd/send/args.go:71-81 | The rest are options, and those take the next argument that name a flag that takes a value and carry none after `=`. |
| `Args.ReorderArgs` | cmd/send/args.go:20-92 | The index-driven loops produce the command words, the options with their values, then the positionals behind `--`. |
| `Args.SplitArgs` | cmd/send/args.go:58-83 | The two lists are the options and the positionals of the interleaved reading. |
| `Args.ParserReadsTheMeaningIff` | cmd/send/args.go:9-19 | A parser that stops at the first non-flag reads from the result exactly what the interleaved reading meant, if and only if no option left without its value precedes positionals. |
| `Args.IdempotentIff` | cmd/send/args.go:20-92 | A second pass changes nothing, under exactly the same condition. |
| `Args.TrailingOptionSwallows` | cmd/send/args.go:58-89 | `send a.txt --max-downloads` becomes `send --max-downloads -- a.txt`, which is read with `--` as the value and changes again on a second pass. |
| `Args.StdinIsPositional` | cmd/send/args.go:18-19 | `send - --password x` is read as an upload from standard input with that password. |
| `Args.ArgumentsAreConserved` | cmd/send/args.go:58-89 | No argument is lost, added or altered, except one `--`. |

## Left out

- HTTP routing and headers other than Content-Range, JSON, TLS, authentication, logging, metrics, templates, the web interface and translations: plumbing.
- AES-GCM, WebCrypto and base64: the ideal cipher stands for them. Metadata JSON is opaque bytes, with one predicate for what parses in both languages.
- Goroutines, pipes and Blob parts: a produced stream is its byte sequence. Read errors of the plaintext file end a stream early in the program and are not modelled.
- Integer widths, except the 32-bit chunk counter and the 63-bit range header: sizes are unbounded.
- E2EFormat.NoncesDistinct: below 2^32 chunks only, since the counter wraps there; E2EEncrypt.NoncePairing, E2EDecrypt.AcceptsOnlyWhatWasSealed and E2EDecrypt.DecryptsCleanlyIff have the same bound.
- E2EDecrypt.BrowserDecrypt: the texts of the browser's errors are not compared, because it reports a failure where the Go reader has already released bytes.
- S3 and the real file system: storage operations succeed or fail as a fault says, the spool is a byte sequence with append and truncate.
- HEAD on a session takes no lock and may see part of a running chunk. The client loop is proved against any such answer; boundary claims are about the offset under the lock.
- SessionProtocol.UninterruptedPatch: for a sidecar that is present and a file that no sweep unlinks meanwhile; the interleaved steps cover the rest.
- Several sessions for one file: objects are counted per session, and a client that gives up may start another session with another object.
- ResumeRuns.StoredIsTheFile: the resume key is taken to identify the file's content, and key strings to be decoded faithfully.
- ResumeNames.TwoNamesMix: for one interruption, after the first chunk; histories with any number of them are in ResumeRuns.
- UploadClient.UploadSession: requests of others take effect between the turns of this client; their interleaving with a running request is in SessionProtocol. Waiting between attempts has no duration. Completion is claimed while nobody else touches the session and a lost reply is followed by a status that arrives; a storage that refuses the finish strands it, as found above.
- LockMap.MutualExclusion: upload, session and owner-index keys are distinct by kind; joined paths that coincide are not modelled. Collections and archives lock through the same check and count.
- LockMap.LockTable.ClaimEntry: blocking on the mutex itself is a step of the protocol, not of the class.
- Downloads.TransfersAreBounded: a user's DELETE runs outside the upload lock and is not among the steps. Unreadable metadata counts as a failed read.
- The contents of the owner index, a bounded list rebuilt under its lock: only the locking is modelled.
- RateLimiter.EvictionIsInvisible: over exact numbers instead of floats, each call atomic, the clock never backwards, and times counted in ticks of the rate; entries are values, since each bucket is reached only through its map entry.
- StoredUploads.HistoryCovers: histories are sequential, and a counter shared by several instances is not modelled; the excess of overlapping uploads is in QuotaOverlap, without measurements in between.
- StoredUploads.Server.Store: the temporary file, the virus scan and the upload budget come before it and are left to the callers.
- Range downloads, collections, archives, address filters, language negotiation, caching headers, history listings and scanners: easy members or I/O.
