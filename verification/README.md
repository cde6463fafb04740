# Verified model of the Azure Storage client library's transfer core

The Azure Storage client library for C++ moves data between a program and blobs, files and append logs in the cloud,
over a network that fails, with several requests in flight and with its own checksums. These Dafny files model the
parts of it where that is decided, and prove what they promise.

- `crc_register.dfy`, `crc_division.dfy`, `word64.dfy`, `crc64.dfy`, `crc_values.dfy`: the CRC-64 of messages. A
  register of 64 coefficients over GF(2) is the reference; the words, tables and four lanes of the library are proved
  against it, and it is proved to be long division by the generator.
- `semaphore.dfy`: the asynchronous semaphore that limits concurrent requests, as a class and as counts of permits.
- `parallel_download.dfy`: the chunked download of a range under that semaphore, as a transition system over the steps
  of all tasks, for targets that can and cannot seek, for blobs and for files.
- `range_resume.dfy`: one range with retries; the executor's loop and the lambdas of the command, which share two byte
  counters, two start-over flags and the target.
- `retry_policy.dfy`: the linear and exponential policies and how the executor obeys them.
- `append_stream.dfy`: append-blob streams, and their writes over a network that loses, delays and reorders.
- `upload_queue.dfy`, `block_upload.dfy`, `range_upload.dfy`: buffered uploads; the concurrent part, blocks with their
  ids and the commit, and writes of ranges for page blobs and files.
- `blob_reader.dfy`: the seekable input stream, refined to direct reads of a byte array at a cursor.
- `connection_string.dfy`, `strings.dfy`, `base64.dfy`: connection strings and back.
- `common.dfy`, `tallies.dfy`: small things several files share.

Objects that the library updates in place are classes; their methods are proved to do what a function on values says,
and the theorems are about these functions and about runs. Protocols of several tasks are transition systems, and
their theorems hold for every interleaving.

## Where the code falls short

Each of these has a concrete run or input, or one for every object of the kind, and the exact condition under which
the code is right.

- An error response whose body breaks off after bytes reached the target leaves the executor's hashing flag set.
  Later attempts then count from different starts, and a run can succeed with wrong bytes
  (`RangeResume.SpoiledRunReportsSuccess`, `RangeResume.AgreeIff`, `RangeResume.SuccessesAreExactIff`), even if its
  last body was checked against an MD5: that of a rest which passes for the whole
  (`RangeResume.CheckedRunReportsSuccess`, `RangeResume.ChecksAreWholeIff`).
- A checked transfer that breaks off into a target that cannot seek can never complete: the rest is compared with the
  checksum of the whole (`RangeResume.CheckedLossIsFatal`, `RangeResume.DownloadEndsIff`).
- A stream that opens at a wrong append position has its first append refused, and an absorbed refusal on the retry
  passes for success (`AppendStream.AbsorbedButNotAppended`, `AppendStream.ExactlyOnceIff`).
- An exception thrown by the upload call itself is dropped by append, page and file streams, and a clean sync then hides
  that the buffer is missing (`RangeUpload.SilentLoss`, `UploadQueue.CleanSyncIff`, `AppendStream.ThrownAndNotAppended`,
  `AppendStream.CleanSyncIff`). A block blob's commit is refused instead.
- A page-blob or file stream that seeks back may be overtaken by a late repeat of what it wrote there before
  (`RangeUpload.OverwrittenByLateRepeat`, `RangeUpload.LateRepeatsIff`).
- The wait before a retry is computed for the location the policy chose; a command locked to another location does not
  wait long enough (`RetryPolicy.LockedRetryComesAtOnce`, `RetryPolicy.NextIsSpacedIff`).
- A read at the end of the blob moves the base of the buffer but not the buffer (`BlobReader.StaleRun`,
  `BlobReader.RunIff`).
- Characters written one at a time reach no hash provider, so neither the stored MD5 nor the checksum of their upload
  is that of the content (`BlockUpload.UnhashedCharacter`, `BlockUpload.BlockBlobStream.CloseWrite`,
  `BlockUpload.BlockBlobStream.PutN`).
- A page-blob or file stream that hashes and is closed before it reached the end of its target stores the MD5 of what
  was written for the whole target (`RangeUpload.PartialHash`, `RangeUpload.RangeStream.CloseWrite`).
- A failed chunk of an ordered parallel download may leave a later one asleep with a permit, and the caller without an
  answer, if there are more chunks than permits (`ParallelDownload.FailedChunkHangs`); a failed chunk of a file always
  keeps its permit (`ParallelDownload.FailedFileKeepsPermit`). `ParallelDownload.AlwaysEndsIff` and
  `ParallelDownload.PermitsHomeIff` have the conditions.
- An error response that is longer than the bytes asked for leaves its tail behind them, although the target is sought
  back and the download succeeds (`RangeResume.ErrorLeavesTail`, `RangeResume.NothingBehindIff`,
  `RangeResume.BufferIsExactIff`); a parallel download writes such a tail of a chunk to its target.
- An account with default endpoints and an empty key is accepted and writes a string that is rejected
  (`ConnectionString.EmptyKeyIsNotReadBack`); a SAS token loses a leading question mark every time it is read, so one
  that came with two changes when it is written and read again (`ConnectionString.TwoQuestionMarksAreNotReadBack`).
  `ConnectionString.RoundTripIff` has the condition.
- An account made from a SAS token with default endpoints writes a string that is rejected
  (`ConnectionString.ConstructedSasIsRejected`, `ConnectionString.ConstructedRoundTrip`).

## Model

| member | source | states |
|---|---|---|
| Crc64.UpdateCrc64 | Microsoft.WindowsAzure.Storage/src/crc64.cpp:615-759 | the four-lane path, the fold and the bytewise tail return the bit-by-bit reflected CRC of the whole input, for every byte string and start value |
| Crc64.AdvanceLane | Microsoft.WindowsAzure.Storage/src/crc64.cpp:641-707 | eight lookups in the sliced table carry a 64-bit word through 32 zero bytes (256 steps of the register) |
| Crc64.FoldWord | Microsoft.WindowsAzure.Storage/src/crc64.cpp:711-719 | eight lookups in the one-byte table carry a word through its own 8 bytes |
| Crc64.SlicesFollow | Microsoft.WindowsAzure.Storage/src/crc64.cpp:92-613 | the recurrence of the sliced table: one table step leads from an entry of a slice to that of the next |
| Crc64.SlicesFromU1 | Microsoft.WindowsAzure.Storage/src/crc64.cpp:24-613 | the link between the tables: slice k is the one-byte table, 24 + k table steps on |
| Crc64.AdvanceByte | Microsoft.WindowsAzure.Storage/src/crc64.cpp:23-25 | eight bit steps shift a register by a byte and add the entry of the byte that fell out |
| Crc64.Lookup | Microsoft.WindowsAzure.Storage/src/crc64.cpp:641-707 | one lookup takes one byte from the word and leaves the sum of what was looked up and what remains, advanced, unchanged |
| Crc64.TableStepAdvances | Microsoft.WindowsAzure.Storage/src/crc64.cpp:712 | one table step is eight bit steps of the register |
| Crc64.LittleEndian | Microsoft.WindowsAzure.Storage/src/crc64.cpp:624-639 | the loaded word read from its lowest bit is the bit string of its eight bytes: byte 0 enters the register first |
| Crc64.FeedByte | Microsoft.WindowsAzure.Storage/src/crc64.cpp:754-757 | one step of the bytewise loop feeds exactly the eight bits of its byte |
| Crc64.LanesRound | Microsoft.WindowsAzure.Storage/src/crc64.cpp:634-708 | one round of the four lanes keeps them, once advanced to a common position, summing to the register of the bytes read so far |
| Crc64.LanesFold | Microsoft.WindowsAzure.Storage/src/crc64.cpp:710-751 | after the fold the one register is that of all bytes up to and including the last stride |
| Crc64.FoldLanes | Microsoft.WindowsAzure.Storage/src/crc64.cpp:710-750 | folding lane after lane with the last four words gives what feeding these words one after the other gives |
| Crc64.AdvanceLanes | Microsoft.WindowsAzure.Storage/src/crc64.cpp:634-708 | advancing every lane by a stride advances what they stand for by the four words of the stride |
| Crc64.Chaining | Microsoft.WindowsAzure.Storage/src/crc64.cpp:763-766 | the CRC of a message may be taken piece by piece, wherever it is cut and whichever bytes then take the four-lane path |
| Crc64.CrcIsRemainder | Microsoft.WindowsAzure.Storage/src/crc64.cpp:617-758 | the CRC is the remainder of the message, shifted by 64 bits and started with the complemented value, divided by the generator |
| Crc64.BurstChangesCrc | Microsoft.WindowsAzure.Storage/src/crc64.cpp:23 | messages of one length that differ only within 64 contiguous bits never share a CRC |
| Crc64.GeneratorIsMonic | Microsoft.WindowsAzure.Storage/src/crc64.cpp:23 | the reflected generator has a constant term, which makes the step reversible |
| CrcValues.TableBasis | Microsoft.WindowsAzure.Storage/src/crc64.cpp:24-57 | the entries of the one-byte table at the powers of two are the literals of the source |
| CrcValues.TableAdds | Microsoft.WindowsAzure.Storage/src/crc64.cpp:24-57 | every other entry is the sum of these: the table is linear in its index |
| CrcValues.CheckValue | Microsoft.WindowsAzure.Storage/src/crc64.cpp:615-759 | the CRC of the nine ASCII bytes 123456789 from zero, as a number |
| CrcRegister.StepLinear | Microsoft.WindowsAzure.Storage/src/crc64.cpp:756 | the register step is linear over GF(2) |
| CrcRegister.AdvanceLinear | Microsoft.WindowsAzure.Storage/src/crc64.cpp:636-707 | so is any number of steps: lanes may be advanced apart and added |
| CrcRegister.AdvanceInjective | Microsoft.WindowsAzure.Storage/src/crc64.cpp:756 | with a constant term no number of steps loses information |
| CrcRegister.FeedBlock | Microsoft.WindowsAzure.Storage/src/crc64.cpp:636-639 | up to 64 bits may be added at once before stepping |
| CrcDivision.RemainderDivides | Microsoft.WindowsAzure.Storage/src/crc64.cpp:23 | long division is division: the dividend is quotient times generator plus remainder |
| CrcDivision.RemainderUnique | Microsoft.WindowsAzure.Storage/src/crc64.cpp:23 | no other register is the remainder |
| CrcDivision.FeedIsRemainder | Microsoft.WindowsAzure.Storage/src/crc64.cpp:754-757 | feeding bits through the register is long division, for any generator and start |
| CrcDivision.BurstDetected | Microsoft.WindowsAzure.Storage/src/crc64.cpp:23 | different blocks of at most 64 bits between equal bits lead to different registers |
| AsyncSemaphores.AsyncSemaphore.LockAsync | Microsoft.WindowsAzure.Storage/src/async_semaphore.cpp:23-41 | a free permit is granted at once, else the caller queues; the returned task is complete exactly if it was granted |
| AsyncSemaphores.AsyncSemaphore.Unlock | Microsoft.WindowsAzure.Storage/src/async_semaphore.cpp:48-72 | the oldest waiter gets the permit, or it comes home and the last one home wakes those who wait for all; grants stay a prefix of the lock calls |
| AsyncSemaphores.AsyncSemaphore.WaitAllAsync | Microsoft.WindowsAzure.Storage/src/async_semaphore.cpp:43-46 | the returned task is complete only if every single lock call made before it was granted and returned, now or, by the invariant that every method keeps, whenever it completes |
| AsyncSemaphores.LockKeeps | Microsoft.WindowsAzure.Storage/src/async_semaphore.cpp:23-41 | free plus held permits stay constant, a queue forms only without free permits, and the new call is granted last or queued |
| AsyncSemaphores.UnlockKeeps | Microsoft.WindowsAzure.Storage/src/async_semaphore.cpp:48-72 | the same for giving a permit back |
| ParallelDownload.PlanChunks | Microsoft.WindowsAzure.Storage/src/cloud_blob.cpp:712-754 | the loop spawns exactly the chunks of the range that the first request left, with their offsets and lengths; none if the first range covered it |
| ParallelDownload.Config.Spans | Microsoft.WindowsAzure.Storage/src/cloud_blob.cpp:748-754 | chunks are non-empty, follow each other without gap or overlap and end at the end of the range, the short last one included |
| ParallelDownload.StepInv | Microsoft.WindowsAzure.Storage/src/cloud_blob.cpp:755-841 | every step of every task, in any interleaving, keeps the counts of permits and writers and the order or place of what is written |
| ParallelDownload.OrderedSafety | Microsoft.WindowsAzure.Storage/src/cloud_blob.cpp:793-838 | the out-of-order exception is unreachable; a target that cannot seek always holds exactly the bytes from the offset to the smaller of smallest_offset and the end |
| ParallelDownload.ReturnedComplete | Microsoft.WindowsAzure.Storage/src/cloud_blob.cpp:786-792 | when the download returns, a seekable or an ordered target holds the whole range and nothing else, whatever the order of completion |
| ParallelDownload.ReturnedIsFinal | Microsoft.WindowsAzure.Storage/src/cloud_blob.cpp:843-888 | when the download of a blob returns, every task is over and none can take another step |
| ParallelDownload.ExactIffDelivered | Microsoft.WindowsAzure.Storage/src/cloud_blob.cpp:759-792 | when the download returns, the target holds the range of the actual blob if and only if the download of the first range and of every chunk delivered its bytes, whatever wrong bytes a chunk download may deliver |
| ParallelDownload.EndReachedWhenWritten | Microsoft.WindowsAzure.Storage/src/cloud_blob.cpp:883-888 | smallest_offset is at or past the end exactly when every chunk was written |
| ParallelDownload.MemoryBound | Microsoft.WindowsAzure.Storage/src/cloud_blob.cpp:809-837 | at most 2p-1 chunks are granted and unwritten, although increment and check of the writer count are separate steps |
| ParallelDownload.Progress | Microsoft.WindowsAzure.Storage/src/cloud_blob.cpp:748-888 | while no chunk failed, some task, the spawning loop or the final wait can always go on |
| ParallelDownload.RunsAreFinite | Microsoft.WindowsAzure.Storage/src/cloud_blob.cpp:748-888 | no run is longer than 13 steps a chunk plus one |
| ParallelDownload.MaximalRunCompletes | Microsoft.WindowsAzure.Storage/src/cloud_blob.cpp:748-888 | a run without failed downloads that cannot go on has returned with the whole range in the target |
| ParallelDownload.ReturnedIffNoFailure | Microsoft.WindowsAzure.Storage/src/cloud_blob.cpp:762-783 | a run that cannot go on has returned normally exactly if no chunk's download failed |
| ParallelDownload.EndedIffHome | Microsoft.WindowsAzure.Storage/src/cloud_blob.cpp:843-888 | a run that cannot go on has ended for its caller, normally or because when_all rethrew the exception of a chunk, exactly if every permit is home |
| ParallelDownload.AlwaysEndsIff | Microsoft.WindowsAzure.Storage/src/cloud_blob.cpp:762-888 | whatever fails, every run that cannot go on has ended for its caller, if and only if it is a blob's download and either its target can seek or there are no more chunks than permits |
| ParallelDownload.FailedChunkHangs | Microsoft.WindowsAzure.Storage/src/cloud_blob.cpp:809-847 | a concrete download of two chunks in order under one permit: the first one fails, the second one goes to sleep with the permit, and then no step is possible and the caller has no answer |
| ParallelDownload.NothingAfterFailure | Microsoft.WindowsAzure.Storage/src/cloud_blob.cpp:817-838 | a failed chunk stops an ordered target: nothing from it on is ever written |
| ParallelDownload.PermitsHomeIff | Microsoft.WindowsAzure.Storage/src/cloud_file.cpp:659-736 | with a seekable target every permit comes home, exactly unless it is a file download, which unlocks by hand on success only, and a chunk failed |
| ParallelDownload.FailedFileKeepsPermit | Microsoft.WindowsAzure.Storage/src/cloud_file.cpp:659-736 | a concrete download of a file: its only chunk fails, and then no step is possible, a permit is still out and the caller has no answer |
| RangeResume.RequestContinues | Microsoft.WindowsAzure.Storage/src/cloud_blob.cpp:484-507 | the request built with kept bytes asks for exactly what is missing; it is refused exactly when a length was asked for and all of it is kept, or nothing is kept and no offset goes with the length |
| RangeResume.RetryAgrees | Microsoft.WindowsAzure.Storage/src/executor.cpp:366-386 | after a failed and retried attempt the executor's counter, the download info's counter and the target's position agree again, if and only if it was not an error response whose body broke off with bytes on the target |
| RangeResume.AgreeIff | Microsoft.WindowsAzure.Storage/src/cloud_blob.cpp:549-593 | over any sequence of attempts the counters agree at the start of each exactly if no attempt was of that kind |
| RangeResume.DownloadAgreesIff | Microsoft.WindowsAzure.Storage/src/cloud_blob.cpp:475-480 | the same for a new download, which starts in agreement |
| RangeResume.SuccessIsExact | Microsoft.WindowsAzure.Storage/src/executor.cpp:245-270 | a successful attempt that starts in agreement leaves the requested bytes in the target's window and everything before it untouched, if and only if its body did not end early without a length to compare it with |
| RangeResume.ExecuteIsExact | Microsoft.WindowsAzure.Storage/src/cloud_blob.cpp:484-647 | so does every successful run without a spoiling attempt, after any failures, error bodies and restarts, where bodies come with their length |
| RangeResume.DownloadIsExact | Microsoft.WindowsAzure.Storage/src/cloud_blob.cpp:475-647 | the same for a new download, with nothing assumed but how attempts end |
| RangeResume.NothingBehindIff | Microsoft.WindowsAzure.Storage/src/cloud_blob.cpp:549-573 | where bodies come with their length, a run that succeeds without a spoiling attempt leaves the requested bytes and nothing behind them, if and only if there was nothing behind them before and no error that was retried was longer than what was missing |
| RangeResume.BufferIsExactIff | Microsoft.WindowsAzure.Storage/src/cloud_blob.cpp:758-760 | the same for a new buffer, as each chunk of a parallel download has one |
| RangeResume.ErrorLeavesTail | Microsoft.WindowsAzure.Storage/src/cloud_blob.cpp:549-573 | a concrete run: after an error of four bytes three bytes are downloaded without a fault, and the last byte of the error stays behind them |
| RangeResume.SuccessesAreExactIff | Microsoft.WindowsAzure.Storage/src/cloud_blob.cpp:549-593 | over all runs of a download against a server that refuses what it cannot meet, every success is exact if and only if the range is empty or cannot be asked for, or bodies come with their length and the target cannot seek or the range has one byte |
| RangeResume.WrongRun | Microsoft.WindowsAzure.Storage/src/executor.cpp:366-378 | for every download of two bytes or more to a target that can seek: an error body that breaks off, a request without a response, and a resumed request that a true server answers end in a checked success without the first byte |
| RangeResume.SmallRange | Microsoft.WindowsAzure.Storage/src/executor.cpp:366-386 | a range of less than two bytes is never resumed successfully, because nothing is left that a server could send; its successes are exact where lengths are known |
| RangeResume.AttemptFollows | Microsoft.WindowsAzure.Storage/src/executor.cpp:350-386 | what an attempt that starts in agreement comes to, told from the bytes kept, the saved checksum and the outcome alone: refused, complete, retried or given up |
| RangeResume.DownloadEndsIff | Microsoft.WindowsAzure.Storage/src/executor.cpp:350-386 | over any sequence of attempts that reads error bodies to their end: a new download completes, or gives up, if and only if the bytes kept, the saved checksum, the target's ability to seek and the policy's answers say so at the attempt they say it at |
| RangeResume.DownloadMakesUpLosses | Microsoft.WindowsAzure.Storage/src/cloud_blob.cpp:549-573 | however often the connection is lost or an error is answered, as long as bytes are missing and the policy allows a retry: the first response that comes whole, with a true checksum or none, completes the download |
| RangeResume.CheckedLossIsFatal | Microsoft.WindowsAzure.Storage/src/cloud_blob.cpp:635-638 | for every target that cannot seek: once a transfer that knows the checksum of the whole range broke off with bytes kept, no further attempts complete the download, for the rest is compared with the checksum of the whole |
| RangeResume.SpoiledRunReportsSuccess | Microsoft.WindowsAzure.Storage/src/executor.cpp:214-241 | a concrete run: an error body that breaks off leaves the hashing flag set, and after two more attempts the operation succeeds with wrong bytes |
| RangeResume.SavedHeaderStays | Microsoft.WindowsAzure.Storage/src/cloud_blob.cpp:595-622 | where every response carries the MD5 of what it was asked for, the saved one stays that of the whole range, because those of resumed responses are not saved |
| RangeResume.HashOfAttempt | Microsoft.WindowsAzure.Storage/src/executor.cpp:104-115 | a successful attempt hashes its own bytes only |
| RangeResume.RetryRestartsHash | Microsoft.WindowsAzure.Storage/src/executor.cpp:366-368 | every retried attempt starts a new hash |
| RangeResume.CheckedSuccessIsWhole | Microsoft.WindowsAzure.Storage/src/cloud_blob.cpp:635-638 | with a collision-free hash and true headers, an attempt that starts in agreement and whose success was checked did not resume, and is exact |
| RangeResume.CheckedDownloadIsWhole | Microsoft.WindowsAzure.Storage/src/cloud_blob.cpp:635-638 | the same over whole runs of a new download without a spoiling attempt: the last attempt kept nothing |
| RangeResume.ChecksAreWholeIff | Microsoft.WindowsAzure.Storage/src/cloud_blob.cpp:549-573 | over all such runs, a checked success is always an un-resumed attempt if and only if the target cannot seek, nothing is checked, the range has less than two bytes, or it cannot be asked for |
| RangeResume.CheckedRunReportsSuccess | Microsoft.WindowsAzure.Storage/src/executor.cpp:366-378 | a concrete run: the last two of three bytes, resumed after a broken error body and a lost request, match their own MD5 and pass for the whole |
| RangeResume.LockStays | Microsoft.WindowsAzure.Storage/src/cloud_blob.cpp:617-621 | while bytes are kept the command stays locked to the location they came from |
| RangeResume.RangeDownload.StartHash | Microsoft.WindowsAzure.Storage/src/executor.cpp:83-118 | first attempts and restarts get a fresh hash provider; only a first one clears the counter |
| RangeResume.RangeDownload.PutN | Microsoft.WindowsAzure.Storage/includes/wascore/streambuf.h:247-255 | a write reaches the target, the hash and the attempt's counter |
| RangeResume.RangeDownload.RecoverRequest | Microsoft.WindowsAzure.Storage/src/cloud_blob.cpp:549-573 | a reset target is sought back to its start and keeps nothing, else everything downloaded so far is kept; it fails on a target that cannot seek or is closed |
| RangeResume.RangeDownload.HandleFailure | Microsoft.WindowsAzure.Storage/src/executor.cpp:350-386 | the failed attempt's bytes are added up and the request recovered or given up |
| RangeResume.RangeDownload.ReceiveError | Microsoft.WindowsAzure.Storage/src/cloud_blob.cpp:582-593 | an error status unlocks the command and asks for a reset; its body is written to the target, and hashing restarts only if it was read to its end |
| RangeResume.RangeDownload.ReceiveSuccess | Microsoft.WindowsAzure.Storage/src/cloud_blob.cpp:595-645 | headers are saved and the location locked once; a complete body is checked against the saved MD5 and asks for a reset on a later retry |
| RangeResume.RangeDownload.SendRequest | Microsoft.WindowsAzure.Storage/src/executor.cpp:33-405 | one turn of the loop does to the fields what the attempt function says |
| RangeResume.RangeDownload.ExecuteAsync | Microsoft.WindowsAzure.Storage/src/executor.cpp:33-415 | the loop: on success without a spoiling attempt, the target's window is the requested range |
| RetryPolicy.CommonRetryPolicy.EvaluateCommon | Microsoft.WindowsAzure.Storage/src/retry_policies.cpp:42-98 | the decision for every count, status and location, and the record of the last end at the location used; out of attempts nothing is recorded |
| RetryPolicy.CommonRetryPolicy.AlignRetryInterval | Microsoft.WindowsAzure.Storage/src/retry_policies.cpp:100-126 | what is left of the backoff since the last request to the target location, in whole seconds, never negative; nothing if there was none |
| RetryPolicy.CommonRetryPolicy.EvaluateLinear | Microsoft.WindowsAzure.Storage/src/retry_policies.cpp:128-139 | decision, a backoff in whole seconds, and its alignment |
| RetryPolicy.CommonRetryPolicy.EvaluateExponential | Microsoft.WindowsAzure.Storage/src/retry_policies.cpp:141-155 | decision, the backoff for the retry count and the drawn factor, and its alignment |
| RetryPolicy.ExponentialBackoff | Microsoft.WindowsAzure.Storage/src/retry_policies.cpp:147-150 | the backoff for a retry count and a drawn factor is between the minimum and the maximum, and the minimum for the first retry |
| RetryPolicy.BackoffGrows | Microsoft.WindowsAzure.Storage/src/retry_policies.cpp:148-150 | it never shrinks as the count grows, increments too large to be converted included |
| RetryPolicy.RequestsAreBounded | Microsoft.WindowsAzure.Storage/src/executor.cpp:351-361 | a run makes at most one request more than the policy's attempts |
| RetryPolicy.RecordsAreRight | Microsoft.WindowsAzure.Storage/src/retry_policies.cpp:59-68 | over a whole run the policy's record of a location is the end of the last request sent there |
| RetryPolicy.RetriesAreSpaced | Microsoft.WindowsAzure.Storage/src/executor.cpp:351-396 | a retry at the location the policy chose starts no earlier than the end of the previous request there plus the backoff, despite rounding and detours |
| RetryPolicy.SpacedIff | Microsoft.WindowsAzure.Storage/src/retry_policies.cpp:117-125 | a wait computed from the record of one location is long enough for a location used until some moment, whenever the policy is asked, if and only if the backoff is not positive or the record is not outdated for it |
| RetryPolicy.NextIsSpacedIff | Microsoft.WindowsAzure.Storage/includes/wascore/executor.h:502-533 | after any run, the next request is always spaced from the previous one at its location if and only if the record of the location the policy aimed at is not outdated for it; it can only be where a lock redirects the retry to the location just used |
| RetryPolicy.LockedRetryComesAtOnce | Microsoft.WindowsAzure.Storage/src/cloud_blob.cpp:617-619 | a concrete run in which the lock sends the retry to the primary at once |
| RetryPolicy.FollowedIff | Microsoft.WindowsAzure.Storage/src/retry_policies.cpp:47-98 | a failed run goes on if and only if attempts are left, the status is below 300, is 408, is 500 or more other than 501 and 505, or is a 404 from the secondary, and the location mode does not contradict the lock |
| RetryPolicy.PrimaryAfterNotFound | Microsoft.WindowsAzure.Storage/src/retry_policies.cpp:90-95 | after a 404 from the secondary every later request goes to the primary, except in secondary-only mode |
| RetryPolicy.GoesWhereExpected | Microsoft.WindowsAzure.Storage/includes/wascore/executor.h:442-476 | where each request of an operation that is never locked goes: the mode's first location, then in turns if it knows both, and the primary for good after a 404 from the secondary |
| RetryPolicy.LimitedGoes | Microsoft.WindowsAzure.Storage/includes/wascore/executor.h:502-533 | every request of a command that is limited to one location goes there |
| RetryPolicy.NeverSentIff | Microsoft.WindowsAzure.Storage/includes/wascore/executor.h:502-533 | a command is never sent exactly if it is limited to the location that the mode does not know |
| RetryPolicy.BackoffIs | Microsoft.WindowsAzure.Storage/src/retry_policies.cpp:147-150 | the backoff is three seconds and (2^count - 1) times the drawn number of seconds, and two minutes from where it would reach them, however large the count |
| RetryPolicy.AlignedHurries | Microsoft.WindowsAzure.Storage/src/retry_policies.cpp:117-125 | the wait that is left ends less than a second after the backoff, or at once if the location was never used |
| AppendStream.PrefixAlways | Microsoft.WindowsAzure.Storage/src/cloud_blob_ostreambuf.cpp:174-243 | one writer, lost acknowledgements, late deliveries in any order: the blob is always the initial content and the first k or k+1 buffers, and from an append call that threw on, the buffers before that one |
| AppendStream.CleanSyncIff | Microsoft.WindowsAzure.Storage/src/cloud_blob_ostreambuf.cpp:233-236 | of a stream that opened at the blob's end, a clean sync leaves all buffers appended in order, if and only if no append call threw |
| AppendStream.WrittenIsAppended | Microsoft.WindowsAzure.Storage/src/cloud_blob_ostreambuf.cpp:174-243 | from the caller's writes to the blob: after the close and a clean sync the blob is its old content followed by what was written, if and only if no append call threw; no buffer was refused, and all were handed over at the positions the concurrent part has for them |
| AppendStream.AppendBlobStream.PutN | Microsoft.WindowsAzure.Storage/src/streams.cpp:85-124 | a write loses and reorders nothing on its way to the buffers, each of which is handed over at its append position unless it ends past the maximum size; from a buffer that is not overfilled only full buffers are handed over |
| AppendStream.AppendBlobStream.PutC | Microsoft.WindowsAzure.Storage/src/streams.cpp:68-83 | the same for a single character |
| AppendStream.AppendBlobStream.UploadBuffer | Microsoft.WindowsAzure.Storage/src/cloud_blob_ostreambuf.cpp:174-189 | a non-empty buffer moves the append position; it is handed over if it fits, and otherwise dropped with an exception |
| AppendStream.AppendBlobStream.CloseWrite | Microsoft.WindowsAzure.Storage/src/streams.cpp:27-43 | closing hands the rest over; a second close is an error and changes nothing |
| AppendStream.OneMoreBuffer | Microsoft.WindowsAzure.Storage/src/cloud_blob_ostreambuf.cpp:182-189 | the next buffer's position is the running offset, and behind a buffer that does not fit none does: what is handed over is always a prefix of what was written |
| AppendStream.FirstAttemptAccepted | Microsoft.WindowsAzure.Storage/src/cloud_blob_ostreambuf.cpp:198-213 | as long as no append call threw, a first attempt that is delivered is accepted, so a refused retry means an earlier attempt was carried out |
| AppendStream.ExactlyOnceIff | Microsoft.WindowsAzure.Storage/src/cloud_blob_ostreambuf.cpp:208-236 | a clean sync means that every buffer was appended exactly once, if and only if there is nothing that fits to append, or append calls do not throw and the stream opened at the blob's end or refusals are not absorbed |
| AppendStream.AbsorbedButNotAppended | Microsoft.WindowsAzure.Storage/src/cloud_blob_ostreambuf.cpp:210-221 | a concrete stream opened at a wrong position: both attempts are refused, the second refusal is absorbed, and nothing was appended |
| AppendStream.ThrownAndNotAppended | Microsoft.WindowsAzure.Storage/src/cloud_blob_ostreambuf.cpp:233-236 | for every stream with something that fits: the first append call throws, its exception is dropped, and the sync reports success without the buffer |
| AppendStream.StepCounters | Microsoft.WindowsAzure.Storage/src/cloud_blob_ostreambuf.cpp:176-196 | what every step keeps on the client side: one permit, buffers in order, refused sizes recorded |
| AppendStream.Delivery | Microsoft.WindowsAzure.Storage/src/cloud_blob_ostreambuf.cpp:198-201 | a request that is accepted is for the first unfinished buffer and lands right behind the earlier ones; if it is refused, an earlier attempt was carried out |
| AppendStream.MisplacedWithoutAbsorbing | Microsoft.WindowsAzure.Storage/src/cloud_blob_ostreambuf.cpp:222-225 | without absorbing, a stream that opened at a wrong position appends nothing and says so: a clean sync still tells the truth |
| AppendStream.StraightIsExact | Microsoft.WindowsAzure.Storage/src/cloud_blob_ostreambuf.cpp:192-241 | wherever the stream started and whatever is absorbed: a clean sync is wrong only after a retry or an append call that threw |
| AppendStream.SyncCompletes | Microsoft.WindowsAzure.Storage/src/cloud_blob_ostreambuf.cpp:174-243 | at most three steps a buffer besides retries, and unless everything is over one can be taken: the sync never waits for nothing |
| AppendStream.CanBeSyncedIff | Microsoft.WindowsAzure.Storage/src/cloud_blob_ostreambuf.cpp:185-189 | a stream that opened at the blob's end can be synced cleanly with everything appended exactly if the blob may grow that large |
| AppendStream.GivingUpIsReported | Microsoft.WindowsAzure.Storage/src/cloud_blob_ostreambuf.cpp:222-230 | after an append that was given up no sync is ever clean |
| UploadQueue.StepInv | Microsoft.WindowsAzure.Storage/src/cloud_blob_ostreambuf.cpp:43-83 | what every step of every upload keeps: permits are those of the started and unfinished uploads, a recorded success was carried out by the server, a recorded failure is an exception |
| UploadQueue.CleanSyncIff | Microsoft.WindowsAzure.Storage/src/cloud_blob_ostreambuf.cpp:26-41 | after a clean sync the server carried out exactly the buffers whose upload call did not throw |
| UploadQueue.SyncCompletes | Microsoft.WindowsAzure.Storage/src/cloud_blob_ostreambuf.cpp:26-41 | at most four client steps a buffer, and whoever holds a permit can take one: the sync never waits for nothing |
| UploadQueue.CanBeSyncedIff | Microsoft.WindowsAzure.Storage/src/cloud_blob_ostreambuf.cpp:26-41 | a stream can be synced cleanly with every buffer carried out exactly if what it writes ends within the target |
| BlockUpload.CommitIsExact | Microsoft.WindowsAzure.Storage/src/cloud_blob_ostreambuf.cpp:85-97 | in every order of grants, deliveries, repeats and answers the block list is sent after a clean sync only, and commits all buffers joined in write order, or is refused exactly if some upload call threw |
| BlockUpload.WrittenIsCommitted | Microsoft.WindowsAzure.Storage/src/cloud_blob_ostreambuf.cpp:43-97 | from the caller's writes to the blob: after the close the committed blob is what was written, or the commit is refused |
| BlockUpload.StoredBlock | Microsoft.WindowsAzure.Storage/src/cloud_blob_ostreambuf.cpp:43-83 | under the id of a buffer the server keeps that buffer exactly if it carried the upload out |
| BlockUpload.PaddedIs | Microsoft.WindowsAzure.Storage/src/cloud_blob_ostreambuf.cpp:104 | the number is written in ASCII digits, with leading zeros up to six digits and none beyond |
| BlockUpload.IdIs | Microsoft.WindowsAzure.Storage/src/cloud_blob_ostreambuf.cpp:101-110 | an id is the Base64 of the prefix, a hyphen and that number |
| BlockUpload.BlockIdsDistinct | Microsoft.WindowsAzure.Storage/src/cloud_blob_ostreambuf.cpp:99-108 | two blocks of a stream never share an id, however many there are |
| BlockUpload.NumberOfPadded | Microsoft.WindowsAzure.Storage/src/cloud_blob_ostreambuf.cpp:102 | the padded decimal can be read back |
| BlockUpload.SixDigits | Microsoft.WindowsAzure.Storage/src/cloud_blob_ostreambuf.cpp:102 | its width is six exactly for the first million blocks |
| BlockUpload.IdsHaveOneLength | Microsoft.WindowsAzure.Storage/src/cloud_blob_ostreambuf.cpp:99-108 | so the ids of the first million blocks have one length |
| BlockUpload.BlockBlobStream.PutN | Microsoft.WindowsAzure.Storage/src/streams.cpp:85-124 | nothing is lost or reordered; from a buffer that is not overfilled only full buffers are uploaded; the total hash covers every byte, and each upload carries the checksum of its own content if no single characters were written since the last one |
| BlockUpload.BlockBlobStream.PutPiece | Microsoft.WindowsAzure.Storage/src/streams.cpp:93-117 | one turn: the piece is buffered and given to both hash providers, and a full buffer is handed over with its checksum |
| BlockUpload.BlockBlobStream.PutC | Microsoft.WindowsAzure.Storage/src/streams.cpp:68-83 | the character is buffered, but no provider is told about it |
| BlockUpload.BlockBlobStream.UploadBuffer | Microsoft.WindowsAzure.Storage/src/streams.cpp:45-66 | a non-empty buffer gets the next id and the checksum of what its provider was given, and is handed over; provider and buffer start anew, and the next buffer size takes effect |
| BlockUpload.BlockBlobStream.CloseWrite | Microsoft.WindowsAzure.Storage/src/streams.cpp:27-43 | closing hands the rest over, so the uploads are what was written; the stored MD5 is that of the content exactly if no character was written on its own; a second close is an error |
| BlockUpload.UnhashedCharacter | Microsoft.WindowsAzure.Storage/src/streams.cpp:68-83 | a concrete stream: one character is written and the stream closed; the blob holds it, and both the checksum of its upload and the stored MD5 are those of nothing |
| RangeUpload.CleanSyncIsExact | Microsoft.WindowsAzure.Storage/src/cloud_blob_ostreambuf.cpp:111-153 | after a clean sync the target is the old one with everything written in its place, in every order of completion, unless some upload call threw; then exactly its range is still old |
| RangeUpload.RangeHolds | Microsoft.WindowsAzure.Storage/src/cloud_file_ostreambuf.cpp:60-83 | ranges do not overlap: each holds its buffer if that was carried out, else what was there, in every order and with repeats |
| RangeUpload.OutsideStays | Microsoft.WindowsAzure.Storage/src/cloud_file_ostreambuf.cpp:67-68 | bytes outside the written ranges stay |
| RangeUpload.RangeStream.PutN | Microsoft.WindowsAzure.Storage/src/streams.cpp:85-124 | a write lands at the stream position as if there were no buffer: the ranges handed over and the buffer together make the target that direct writes would make; from a buffer that is not overfilled only full buffers are handed over |
| RangeUpload.RangeStream.UploadBuffer | Microsoft.WindowsAzure.Storage/src/cloud_blob_ostreambuf.cpp:111-120 | a non-empty buffer is handed over at the running offset, which moves on by its size; the target with what was handed over is then the image |
| RangeUpload.RangeStream.Seekpos | Microsoft.WindowsAzure.Storage/includes/wascore/filestream.h:63-81 | an open stream that does not hash syncs and goes anywhere within its size; anything else is refused and changes nothing |
| RangeUpload.RangeStream.CloseWrite | Microsoft.WindowsAzure.Storage/src/cloud_blob_ostreambuf.cpp:154-172 | a second close is an error; otherwise the rest is handed over, and after a clean sync a stream that hashes stores its MD5, which is that of the whole target exactly if all of it was written and nothing one character at a time |
| RangeUpload.PartialHash | Microsoft.WindowsAzure.Storage/src/cloud_blob_ostreambuf.cpp:154-172 | a concrete stream: one of two bytes is written and the stream closed; the MD5 stored for the two bytes is that of the one |
| RangeUpload.RangeStream.PutC | Microsoft.WindowsAzure.Storage/src/streams.cpp:68-83 | a character lands at the stream position, but the hash provider is not told about it |
| RangeUpload.RangeStream.Sync | Microsoft.WindowsAzure.Storage/src/cloud_file_ostreambuf.cpp:26-42 | the buffer is handed over, and a clean sync ends a stretch of uploads |
| RangeUpload.PlacedAtOffset | Microsoft.WindowsAzure.Storage/src/cloud_file_ostreambuf.cpp:67-68 | every buffer handed over goes to the running offset that the concurrent part has for it |
| RangeUpload.HistoryIsImage | Microsoft.WindowsAzure.Storage/src/cloud_blob_ostreambuf.cpp:111-153 | over several stretches, each synced cleanly and each with its own order of completion, the server ends with what direct writes make of the target |
| RangeUpload.WrittenIsStored | Microsoft.WindowsAzure.Storage/src/cloud_blob_ostreambuf.cpp:111-172 | from the caller's writes and seeks to the server: after clean syncs and without throwing upload calls the target is their image |
| RangeUpload.LateRepeatsIff | Microsoft.WindowsAzure.Storage/includes/wascore/filestream.h:63-81 | once every request was carried out, and however often and in whatever order, repeats of one stretch in a later one included, the target is the image, if and only if written ranges that overlap have the same bytes there |
| RangeUpload.OverwrittenByLateRepeat | Microsoft.WindowsAzure.Storage/includes/wascore/filestream.h:63-81 | a concrete run: a byte is written, sought back to and written again, and a late repeat of the first request brings the old byte back |
| RangeUpload.OverwriteTwice | Microsoft.WindowsAzure.Storage/src/streams.cpp:91-118 | two adjacent writes are one write of both |
| RangeUpload.SilentLoss | Microsoft.WindowsAzure.Storage/src/cloud_file_ostreambuf.cpp:90-93 | a concrete run: the upload call throws, the exception is dropped, and the sync reports success without the byte |
| BlobReader.StepIff | Microsoft.WindowsAzure.Storage/src/cloud_blob_istreambuf.cpp:24-176 | a seek or read answers and moves as direct reads of the blob do, if and only if it does not slip: read at the end with bytes buffered, or look two bytes ahead with one left or a one-byte buffer |
| BlobReader.RunIff | Microsoft.WindowsAzure.Storage/src/cloud_blob_istreambuf.cpp:24-176 | any mix of seeks and reads of a new stream shows the same answers and positions as direct reads exactly if none of them slips |
| BlobReader.HashedIsPrefix | Microsoft.WindowsAzure.Storage/src/cloud_blob_istreambuf.cpp:148-160 | while hashing is on, the bytes hashed are the blob up to the next download; a blob fetched to its end without failure matches its stored MD5 |
| BlobReader.DownloadAgrees | Microsoft.WindowsAzure.Storage/src/cloud_blob_istreambuf.cpp:119-146 | a download with something left to fetch leaves the reader at the start of the right buffer |
| BlobReader.ReadAgrees | Microsoft.WindowsAzure.Storage/src/cloud_blob_istreambuf.cpp:46-101 | a buffer that holds enough, or reaches to the end, answers as the blob would |
| BlobReader.StaleBytes | Microsoft.WindowsAzure.Storage/src/cloud_blob_istreambuf.cpp:121-127 | after a read at the end of the blob with bytes buffered, the position is past the end, and a seek to the end finds bytes to read |
| BlobReader.StaleRun | Microsoft.WindowsAzure.Storage/src/cloud_blob_istreambuf.cpp:121-127 | a concrete run of a new stream: two reads, a seek to the end, and a third read, which answers with a byte where the blob has none |
| BlobReader.StepFailsIff | Microsoft.WindowsAzure.Storage/src/cloud_blob_istreambuf.cpp:119-173 | without a fault an operation fails if and only if it needs more than the buffer holds, fetches the end of a blob that is validated, and the blob does not match its stored MD5 |
| BlobReader.FaultIsShown | Microsoft.WindowsAzure.Storage/src/cloud_blob_istreambuf.cpp:168-174 | a request that fails is shown by the operation that needed it |
| BlobReader.ReadsAllIff | Microsoft.WindowsAzure.Storage/src/cloud_blob_istreambuf.cpp:119-173 | reading a new stream byte by byte to its end shows exactly the bytes of the blob if it passes its check, and otherwise an error |
| BlobReader.NeverFailsIff | Microsoft.WindowsAzure.Storage/src/cloud_blob_istreambuf.cpp:152-164 | no mix of seeks and reads without a failing request shows an error if and only if the blob need not or does pass its check |
| BlobReader.BlobIstreambuf.Seekpos | Microsoft.WindowsAzure.Storage/src/cloud_blob_istreambuf.cpp:24-47 | inside the buffer only the head moves; elsewhere within the blob the buffer and the hash are dropped |
| BlobReader.BlobIstreambuf.DownloadRange | Microsoft.WindowsAzure.Storage/src/cloud_blob_istreambuf.cpp:119-173 | the next range replaces the buffer and is hashed, at the end of the blob against the stored MD5 |
| BlobReader.BlobIstreambuf.FillBuffer | Microsoft.WindowsAzure.Storage/src/cloud_blob_istreambuf.cpp:107-117 | a download only if fewer bytes are available than wanted |
| BlobReader.BlobIstreambuf.Bumpc | Microsoft.WindowsAzure.Storage/src/cloud_blob_istreambuf.cpp:49-56 | read a byte and step |
| BlobReader.BlobIstreambuf.Getc | Microsoft.WindowsAzure.Storage/src/cloud_blob_istreambuf.cpp:64-71 | read a byte and stay |
| BlobReader.BlobIstreambuf.Nextc | Microsoft.WindowsAzure.Storage/src/cloud_blob_istreambuf.cpp:79-86 | step and read the byte there |
| BlobReader.BlobIstreambuf.Getn | Microsoft.WindowsAzure.Storage/src/cloud_blob_istreambuf.cpp:93-100 | read what is buffered, at most the count asked for, and short of it only where the buffer ends |
| ConnectionString.WrittenAndRead | Microsoft.WindowsAzure.Storage/src/cloud_storage_account.cpp:304-462 | what parsing the written account gives, for every accepted string and every order of the settings: the account, the account with one question mark less, or a rejection |
| ConnectionString.RoundTripIff | Microsoft.WindowsAzure.Storage/src/cloud_storage_account.cpp:304-462 | it gives the same settings, endpoints and credentials if and only if a default-endpoint account has a non-empty key and a SAS token no second question mark |
| ConnectionString.EmptyKeyIsNotReadBack | Microsoft.WindowsAzure.Storage/src/cloud_storage_account.cpp:239-278 | a concrete accepted string whose account writes, in every order of its settings, a string that is rejected |
| ConnectionString.TwoQuestionMarksAreNotReadBack | Microsoft.WindowsAzure.Storage/includes/was/core.h:271-280 | a concrete accepted string whose SAS token loses a question mark whenever it is read |
| ConnectionString.ConstructedRoundTrip | Microsoft.WindowsAzure.Storage/src/cloud_storage_account.cpp:376-386 | the string of an account made with default endpoints parses to the same endpoints and credentials, if and only if it was made from a shared key and neither its name nor its suffix contains a semicolon |
| ConnectionString.ConstructedSasIsRejected | Microsoft.WindowsAzure.Storage/src/cloud_storage_account.cpp:376-449 | the string of an account made from a SAS token with default endpoints is always rejected, whatever its token and its suffix contain |
| ConnectionString.AcceptedIff | Microsoft.WindowsAzure.Storage/src/cloud_storage_account.cpp:213-334 | exactly which settings make an account, by name: the flag of the development account, protocol, name and key, or at least one endpoint, with nothing else, a key that is Base64, and endpoints that are URIs, both URIs where they are made from the protocol |
| ConnectionString.AcceptedAs | Microsoft.WindowsAzure.Storage/src/cloud_storage_account.cpp:213-334 | the credentials, primary endpoints, suffix and remaining settings of the account, from the settings by name |
| ConnectionString.TextIs | Microsoft.WindowsAzure.Storage/src/cloud_storage_account.cpp:413-459 | the string is the settings, then a semicolon, name and value of each credential: the Base64 of the key, or the token, or [key hidden] if secrets are not exported |
| ConnectionString.SecretsStayHidden | Microsoft.WindowsAzure.Storage/src/cloud_storage_account.cpp:429-449 | without secrets, accounts that agree in everything but the key, or but the token, have the same string |
| ConnectionString.TextRoundTrip | Microsoft.WindowsAzure.Storage/src/cloud_storage_account.cpp:412-427 | writing settings and splitting them again gives the same map, whatever the values hold besides semicolons |
| ConnectionString.ParsedIsPlain | Microsoft.WindowsAzure.Storage/src/cloud_storage_account.cpp:145-175 | everything parsed has a non-empty key without separators and a value without semicolons |
| ConnectionString.CredentialsAgain | Microsoft.WindowsAzure.Storage/src/cloud_storage_account.cpp:190-211 | written credentials are read back, but for a SAS token that starts with a question mark |
| ConnectionString.ReparseDefaults | Microsoft.WindowsAzure.Storage/src/cloud_storage_account.cpp:239-278 | the same for an account with default endpoints |
| ConnectionString.ReparseExplicit | Microsoft.WindowsAzure.Storage/src/cloud_storage_account.cpp:280-302 | the same for explicit endpoints |
| ConnectionString.ReparseDevstore | Microsoft.WindowsAzure.Storage/src/cloud_storage_account.cpp:213-237 | the development account's settings are all there is to write |
| ConnectionString.SettingsIff | Microsoft.WindowsAzure.Storage/src/cloud_storage_account.cpp:145-175 | a string is no settings exactly if some piece starts with an equals sign |
| ConnectionString.FirstWins | Microsoft.WindowsAzure.Storage/src/cloud_storage_account.cpp:145-175 | a name is among the settings exactly if some piece is the name alone or the name and an equals sign, and its value is what follows in the first such piece |
| ConnectionString.ParseStringIntoSettings | Microsoft.WindowsAzure.Storage/src/cloud_storage_account.cpp:145-175 | empty pieces are skipped, the first equals sign splits, of equal keys the first wins, an empty key is an error |
| ConnectionString.GetSetting | Microsoft.WindowsAzure.Storage/src/cloud_storage_account.cpp:177-188 | look up and erase |
| ConnectionString.GetCredentialSettings | Microsoft.WindowsAzure.Storage/src/cloud_storage_account.cpp:190-211 | a name with a key, a token alone, or anonymous; all three settings are erased |
| ConnectionString.ParseDevstoreSettings | Microsoft.WindowsAzure.Storage/src/cloud_storage_account.cpp:213-237 | the settings of the development account and no others |
| ConnectionString.ParseDefaultsSettings | Microsoft.WindowsAzure.Storage/src/cloud_storage_account.cpp:239-278 | protocol, name and key, optionally a suffix and endpoints, and no others |
| ConnectionString.ParseExplicitSettings | Microsoft.WindowsAzure.Storage/src/cloud_storage_account.cpp:280-302 | at least one endpoint, optionally credentials, and no others |
| ConnectionString.ParseConnectionString | Microsoft.WindowsAzure.Storage/src/cloud_storage_account.cpp:304-334 | the three readings in turn; credentials do not stay among the settings |
| ConnectionString.CloudStorageAccount.ToString | Microsoft.WindowsAzure.Storage/src/cloud_storage_account.cpp:376-462 | missing settings are derived once, and the string is the join of all settings, in some order of their keys, and the credentials |
| Strings.StringSplit | Microsoft.WindowsAzure.Storage/src/util.cpp:146-160 | the pieces between separators |
| Strings.JoinSplit | Microsoft.WindowsAzure.Storage/src/util.cpp:146-160 | splitting loses nothing: the pieces are free of separators and join to the string |
| Strings.SplitJoin | Microsoft.WindowsAzure.Storage/src/util.cpp:146-160 | splitting joined pieces gives the pieces |
| Base64.DecodeEncode | Microsoft.WindowsAzure.Storage/src/cloud_storage_account.cpp:441 | every byte string is read back from its text |
| Base64.EncodeInjective | Microsoft.WindowsAzure.Storage/src/cloud_blob_ostreambuf.cpp:103-105 | different byte strings have different texts |
| Base64.EncodeHasNoSemicolon | Microsoft.WindowsAzure.Storage/src/cloud_storage_account.cpp:441 | the text of a key contains no separator and is empty for an empty key only |
| Base64.Alphabet | Microsoft.WindowsAzure.Storage/src/cloud_storage_account.cpp:441 | the letters of the 64 values are those of RFC 4648 |
| Base64.TestVectors | Microsoft.WindowsAzure.Storage/src/cloud_storage_account.cpp:441 | the test vectors of section 10 of RFC 4648 |
| Base64.DecodesIff | Microsoft.WindowsAzure.Storage/src/cloud_storage_account.cpp:200-203 | a text is decoded if and only if it is made of whole groups of letters, padded in the last two places at most |

## Left out

- Crc64.SlicesFollow: the 2304 literals of the two tables are not listed; the tables are given by the equations that generate them from the generator polynomial, and CrcValues.TableBasis has the eight literals that all others follow from.
- Crc64.UpdateCrc64: a word is loaded as little-endian, and unaligned loads are taken to work, as the cast in the source takes them to.
- CRC-64 validation of responses: the condition at cloud_blob.cpp:639 is negated, so nothing about integrity follows from it.
- ParallelDownload.StepInv: tasks are steps over one state, not objects; the condition variable is a guarded wait, and lifetimes of captured locals and the memory model are not part of it.
- ParallelDownload.PlanChunks: offsets do not wrap around at 64 bits; the empty-blob and first-range branches before the loop are parameters.
- ParallelDownload.ExactIffDelivered: the buffer of a chunk is taken to have the length that was asked for, so the tail of an error in it is left out, which the code writes with it; RangeResume.BufferIsExactIff says when there is none.
- ParallelDownload.AlwaysEndsIff: when_all is taken to complete as soon as one of its tasks failed, as the C++ REST SDK documents it; what becomes of tasks that are still asleep when the exception leaves the function is part of the lifetimes that are left out.
- ParallelDownload.ReturnedComplete: what the download of a range delivers is a parameter. A seekable target is taken to start at position 0, since the code seeks to an offset within the range.
- ParallelDownload.Progress: cancellation and the unlock on a cancelled wait are left out, and so is a blob that changes during the operation.
- RangeResume.ExecuteIsExact: the blob does not change during the operation (the locked etag is never set), status errors carry no message, headers that the transactional options require are present, and cancellation and timeouts end the operation. What is behind the window of the requested bytes is the subject of NothingBehindIff.
- RangeResume.CheckedSuccessIsWhole: a hash is identified with the bytes it was computed from.
- RetryPolicy.RetriesAreSpaced: the clock does not go backwards between a request's end and the policy's answer.
- RetryPolicy.ExponentialBackoff: the drawn factor is a parameter, arithmetic is over real numbers, and an increment that does not fit into 64 bits is converted to the least number, as the source's test for a negative one expects.
- AppendStream.AppendBlobStream.PutN: the hash providers of the stream are those of BlockBlobStream.
- AppendStream.ExactlyOnceIff: nobody else writes to the blob, the server's two conditions are the append position and the maximum size; an append call that throws never reached the server.
- UploadQueue.StepInv: a request that was carried out may be repeated late, within the stretch of uploads up to the next sync; RangeUpload.LateRepeatsIff is about the later ones.
- BlockUpload.CommitIsExact: the server keeps uncommitted blocks until the commit and forbids no number of blocks; nobody else commits or uses the stream's UUID.
- BlockUpload.BlockBlobStream.PutC: what the buffer reports as available after a single character is a parameter.
- BlockUpload.BlockBlobStream.PutPiece: both hash providers are taken to be enabled; a checksum stands for the bytes it was computed from.
- RangeUpload.WrittenIsStored: a request of one stretch does not arrive late in a later one; RangeUpload.LateRepeatsIff says when it may.
- RangeUpload.RangeStream.Seekpos: how the sync it waits for ends is a parameter, and so it is for Sync and CloseWrite; transactional checksums are as in BlockBlobStream.
- BlobReader.StepIff: buffer sizes are positive; the members that never wait (_sbumpc, _sgetc, _scopy, _ungetc) and cancellation are left out, and the memory buffer's own operations are taken as documented by the C++ REST SDK.
- BlobReader.BlobIstreambuf.DownloadRange: a failed request or a mismatch sets the exception that every later read reports.
- ConnectionString.RoundTripIff: what the URI class accepts is a parameter, and a URI prints as it was given; an endpoint is the text it is made from.
- ConnectionString.CloudStorageAccount.ToString: settings are written in some order of their keys where the source uses their sorted order; bearer tokens are left out.
- Base64.DecodeEncode: the decoder's treatment of unused bits in the last group is left open by the source; here they are ignored.
- The C++ REST SDK (memory buffers, URIs, Base64 conversion, tasks) is not part of this model; what is assumed of it is named above.
- Headers, signing, proxies, TLS, logging, timers, XML and JSON readers, leases, tables and queues: plumbing around the above.
