# A verified model of the chowdy face-authentication daemon

The daemon (`daemon/`, `common/`, `proto/`) owns an infrared camera, keeps enrolled
faces on disk and answers authentication requests over a Unix socket; a PAM module
(`pam/`) asks it. This project models the parts whose correctness rests on
interleavings, a cache, a hand-written scanner, in-place loops and arithmetic, and
proves what they promise. `dafny verify dfyconfig.toml` checks all of it.

| file | what it holds |
|---|---|
| `Wrappers.dfy` | `Option` |
| `PipelineState.dfy`, `Pipeline.dfy` | the capture pipeline's shared state; the object, its workers' critical sections and `process_one_frame` |
| `CameraProtocol.dfy`, `CameraRuns.dfy` | every interleaving of handlers, prewarm workers, release workers and the watchdog, with discrete time; what its runs say about the watchdog, the frame count and the policies |
| `Camera.dfy` | the V4L2 buffer queue with scripted errors, and the camera object |
| `Fa01.dfy` | the FA01 enrollment file, byte for byte |
| `StoreState.dfy`, `EnrollmentStore.dfy`, `StoreProtocol.dfy` | enrollment directories, the store object, and its cache under concurrent readers and mutators |
| `JsonText.dfy`, `JsonRead.dfy`, `JsonScan.dfy`, `Decimal.dfy`, `Frames.dfy`, `Pam.dfy` | the printer, a reader of flat JSON objects, the `strstr` scanner, number printing, frames over a fragmenting stream, and the PAM module's request and verdict |
| `Pairs.dfy`, `Greedy.dfy`, `Ties.dfy`, `Nms.dfy`, `Scrfd.dfy` | permutations, greedy suppression for any relation and when its order matters, non-maximum suppression, letterbox and anchor decoding |
| `Vectors.dfy`, `Matching.dfy`, `ModelId.dfy` | similarity and thresholds, the auth and test handlers, the model file hash |
| `EnrollSessions.dfy`, `EnrollLife.dfy`, `Recognition.dfy` | enrollment sessions and their handlers; how long sessions live and what each request is answered; enrollment, store and authentication put together |

## What was found

Four statements in the code's comments do not hold as they stand. The code is
modelled as it is; each has a concrete run or input and an exact condition.

- A delayed prewarm "can never" leave the stream on (`daemon/pipeline.cpp:98-102`,
  `daemon/pipeline.hpp:98-101`). The generation moves only on an actual STREAMOFF, so
  a request refused before it used the camera does not stop its own late prewarm:
  `CameraProtocol.LatePrewarmLeaks`. `QuiescentLitIff` says exactly when the lamp is lit
  at rest, `GenerationGuard` exactly what the guard does promise (STREAMOFF and its count
  are two accesses, and the snapshot can fall between them: `SnapshotInGapSkips`), and
  `WatchdogBound` how long it can last.
- On the auth socket "the sole request type is auth, whose handler always closes the
  camera" (`daemon/server.cpp:104-106`). Any request, or one that cannot be parsed, is
  accepted there; the prewarm then has no scope behind it:
  `CameraProtocol.ScopelessLeaks`.
- The cache key changes "if any .enc file is added/removed/rewritten"
  (`daemon/enrollment_store.cpp:21-23`). `StoreState.DeletionNoticedIff` and
  `StoreState.WriteNoticedIff` say exactly which edits it notices, `StoreProtocol.ReaderIsFresh` that a newer file
  always is. The daemon's own edits do not rely on it: they erase the entry.
- The request scope is to be declared after the lock (`daemon/pipeline.hpp:117-119`);
  `handle_auth` declares it before, so its lock goes first. Both orders are in the
  protocol.

Also:

- `min + 7` of an enrollment can overflow an `int` (`EnrollSessions.StartSucceedsIff`).
- A save of 0 or more than 1000 embeddings cannot be loaded again (`Fa01.RoundTrip`).
- Two overlapping saves of one label share a temporary file and can leave the cache stale
  (`StoreProtocol.OverlapGoesStale`).
- A STREAMOFF the driver refuses goes unnoticed: the daemon takes the stream for stopped
  (`V4l2.Camera.StopStream`).
- Equal scores can make suppression depend on the sort (`Nms.OrderImmaterialIff`,
  `Nms.FrontIff`).
- `would_auth` can be false where `auth` accepts (`Matching.TestAgreesIff`).
- Changed head bytes can leave a model's id unchanged (`ModelId.SameIdIff`).

## Reading the model

- JSON objects print their members sorted by key and without spaces, as
  `nlohmann::json` does. A character is one byte.
- Floats are reals, except in FA01 files, where they are their 32-bit patterns. The
  reciprocal root in `l2_normalize` is a parameter.
- `std::sort` yields any descending permutation; a directory iterator any order.
- The device is a buffer queue with one scripted error code per ioctl; a socket is a
  byte stream with one scripted event per call; a directory is a map from names to
  modification time and bytes; the clock is a parameter or a step of the run.
- `use_gen_` counts modulo 2^64. Run lemmas about sessions assume fewer than 2^64
  requests.

## Model

| member | source | states |
|---|---|---|
| PipelineState.ReleasedIsDark | daemon/pipeline.cpp:83-94 | a close leaves the stream off and moves the generation exactly if it stopped something; closing twice is closing once |
| PipelineState.EnsureOpenFacts | daemon/pipeline.cpp:63-81 | bring-up never moves the generation, resets the frame count only when it starts the stream, records the use only when it succeeds, and is idempotent |
| Pipeline.Report | daemon/pipeline.cpp:170-237 | when a frame counts as a face, and which fields are then set |
| Pipeline.Pipeline.EnsureCameraOpen | daemon/pipeline.cpp:63-81 | two-tier bring-up over the device, including a failed open that keeps the descriptor |
| Pipeline.Pipeline.ReleaseCamera | daemon/pipeline.cpp:83-94 | stops a running stream and counts the close, otherwise nothing; the device is off exactly if it accepted STREAMOFF |
| Pipeline.Pipeline.PrewarmWorker | daemon/pipeline.cpp:104-111 | opens if the generation is still the snapshot, else leaves everything alone |
| Pipeline.Pipeline.WatchdogClose | daemon/pipeline.cpp:141-153 | the watchdog's close is the release worker's |
| Pipeline.Pipeline.ProcessOneFrame | daemon/pipeline.cpp:162-237 | bring-up, use time, capture, warm-up, darkness, detection, embedding; which exceptions leave which state |
| CameraProtocol.StepKeepsInv | daemon/pipeline.cpp:63-156 | the inductive invariant of all twenty-two kinds of step |
| CameraProtocol.ReachableInv | daemon/pipeline.cpp:63-156 | it holds in every reachable state |
| CameraProtocol.StepCloses | daemon/pipeline.cpp:83-94 | only release workers and the watchdog switch the stream off; each time the close is pending until they count it |
| CameraProtocol.RunCloses | daemon/pipeline.cpp:83-94 | over any run, counted and pending closes grow by the number of STREAMOFFs |
| CameraProtocol.GenCountsStreamOffs | daemon/pipeline.cpp:87-92 | in every run the generation is the number of STREAMOFFs modulo 2^64, less one exactly while the last is not counted yet |
| CameraProtocol.GuardSince | daemon/pipeline.cpp:96-112 | from accept on, a prewarm's check passes exactly while the closes counted since are a multiple of 2^64; these are the STREAMOFFs since, and one more if the snapshot fell between a STREAMOFF and its count |
| CameraProtocol.GenerationGuard | daemon/pipeline.cpp:96-112 | over every run: a prewarm worker opens exactly if no close (modulo 2^64) was counted since its snapshot; so when it opens there was no STREAMOFF since, and when it turns back there was one, or one was pending at the snapshot |
| CameraProtocol.SnapshotInGapSkips | daemon/pipeline.cpp:89-106 | a snapshot taken between a STREAMOFF and its count makes the prewarm turn back with no STREAMOFF since |
| CameraProtocol.PendingReached | daemon/pipeline.cpp:89-92 | a run into such a state |
| CameraProtocol.QuiescentLitOnlyIf | daemon/pipeline.hpp:120-128 | lazy: lit at rest only after a stranded prewarm or an unfinished enrollment frame |
| CameraProtocol.QuiescentDark | daemon/handlers/auth.cpp:54-60 | lazy: dark at rest once every connection is done and none is of those two kinds |
| CameraProtocol.StaysOn | daemon/pipeline.cpp:83-94 | a lit stream stays lit until a release worker or the watchdog runs |
| CameraProtocol.LitTraced | daemon/pipeline.cpp:63-125 | a lit stream without a release worker of its own goes back to a start with no close after it |
| CameraProtocol.QuiescentLitIff | daemon/pipeline.cpp:63-125 | lazy: lit at rest exactly if a prewarm or enrollment frame brought the camera up after the last close |
| CameraProtocol.WatchdogBound | daemon/pipeline.cpp:127-155 | with the mutex free, an unused stream is off by one and a half windows after its last use (plus wakeup slack) |
| CameraProtocol.CaptureHasStream | daemon/pipeline.cpp:170-176 | a capture never runs without a stream and a recorded use, whatever workers do |
| CameraProtocol.LatePrewarmLeaks | daemon/handlers/auth.cpp:54-67 | a run: refused auth request, release worker, then its late prewarm; lit at rest |
| CameraProtocol.ScopelessLeaks | daemon/server.cpp:111-119 | a run: a request without a scope on the auth socket; lit at rest |
| CameraProtocol.FrameSteps | daemon/pipeline.cpp:170-186 | the protocol's steps of one frame add up to ProcessOneFrame's effect |
| CameraProtocol.PrewarmSteps | daemon/pipeline.cpp:104-111 | the protocol's steps of a prewarm add up to PrewarmWorker's effect |
| CameraProtocol.CloseSteps | daemon/pipeline.cpp:141-153 | the two steps of a close add up to ReleaseCamera's and WatchdogClose's effect |
| CameraRuns.WakesToCloseIff | daemon/pipeline.cpp:134-141 | a wakeup leads the watchdog to the mutex exactly if the last use recorded in the run is a window old |
| CameraRuns.WatchdogSpares | daemon/pipeline.cpp:134-153 | in a run at whose wakeups the last recorded use is less than a window old the watchdog never takes the mutex and never stops the stream |
| CameraRuns.UsedStaysOn | daemon/pipeline.cpp:83-153 | then without a release worker a lit stream stays lit |
| CameraRuns.FramesCounted | daemon/pipeline.cpp:63-94 | in every run the frame count is the number of frames taken since the stream was last started |
| CameraRuns.OnlyLazyReleases | daemon/pipeline.hpp:120-128 | other policies than lazy never release; without a watchdog a lit stream stays lit for good |
| CameraRuns.OnlyAuthPrewarms | daemon/server.cpp:104-119 | only the auth socket prewarms, and only under lazy |
| V4l2.TrySucceeds | daemon/camera.cpp:99-111 | an attempt can only succeed from an empty queue, and then queues everything and streams |
| V4l2.StartOutcome | daemon/camera.cpp:113-132 | one to six attempts; success means every buffer queued and streaming; giving up early only on an error not worth retrying, or with an empty queue if the last STREAMOFF was accepted |
| V4l2.StartRecovers | daemon/camera.cpp:117-132 | with an accepting driver any mix of queued buffers comes up: at the first attempt exactly if none was queued, else at the second |
| V4l2.StartDecides | daemon/camera.cpp:113-132 | of six attempts the first that fails with neither EBUSY nor EINVAL, or succeeds, decides, and the sixth if there is none |
| V4l2.StartRecoversAfter | daemon/camera.cpp:113-132 | after k < 6 busy attempts an accepting driver comes up at attempt k + 1, or one later if it still holds buffers because it refused the last STREAMOFF |
| V4l2.Camera.Attempt | daemon/camera.cpp:99-111 | queue every buffer, then STREAMON, stopping at the first error |
| V4l2.Camera.StartStream | daemon/camera.cpp:95-133 | the retry loop computes StartWithin; streaming exactly on success |
| V4l2.Camera.StopStream | daemon/camera.cpp:135-140 | the flag goes off whatever STREAMOFF says; the device is off, its queue empty, exactly if the driver accepted it |
| V4l2.Camera.Open | daemon/camera.cpp:35-93 | which failures close the descriptor again and which keep it; success means every buffer queued |
| V4l2.Camera.Close | daemon/camera.cpp:142-151 | stopped, unmapped and closed; idempotent |
| V4l2.Camera.Capture | daemon/camera.cpp:153-174 | a frame exactly if both ioctls are accepted; a capture that returns, with or without a frame, leaves as many buffers queued as it found |
| Fa01.LERoundTrip | common/encoding.cpp:88-100 | little-endian integers of any width read back |
| Fa01.LowBytesFirst | common/encoding.cpp:88-100 | the first j bytes of an integer are its low j bytes |
| Fa01.RoundTrip | common/encoding.cpp:73-138 | a saved file is 26 + 2048 n bytes, loads exactly if 1 <= n <= 1000, then gives back what was saved, with the clock for a zero creation time, and ignores trailing bytes |
| Fa01.ProperPrefixRejected | common/encoding.cpp:113-138 | every proper prefix of a saved file is rejected |
| Fa01.LoadedResaves | common/encoding.cpp:113-138 | whatever loads, from any bytes, is well formed and survives saving again |
| Fa01.FieldsRead | common/encoding.hpp:3-10 | the six header fields stand at their offsets |
| Fa01.Layout | common/encoding.hpp:3-10 | a saved file begins with FA01 and the version, and entry i of embedding k stands at byte 26 + 2048 k + 4 i |
| Fa01.DecodeIff | common/encoding.cpp:113-138 | a file loads as e exactly if e has 1 to 1000 embeddings of 512 entries and the file begins with what saving e writes |
| Fa01.SaveEnrollment | common/encoding.cpp:82-106 | writes exactly the encoding, or fails exactly for a wrong dimension or lack of room |
| Fa01.WriteVectors | common/encoding.cpp:101-105 | the embedding loop |
| Fa01.LoadEnrollment | common/encoding.cpp:113-138 | field-by-field reading computes Decode on any bytes |
| StoreState.ExtensionIsEnc | daemon/enrollment_store.cpp:31 | the extension test accepts exactly the names "something.enc" |
| StoreState.Names | daemon/enrollment_store.cpp:91 | labels and file names correspond one to one; a temporary file is never an enrollment |
| StoreState.LatestUnique | daemon/enrollment_store.cpp:24-36 | the newest time does not depend on the listing order |
| StoreState.FreshLoadUnique | daemon/enrollment_store.cpp:57-74 | two loads of one directory hold the same enrollments |
| StoreState.LoadStep | daemon/enrollment_store.cpp:59-73 | one turn of the loading loop, readable or not |
| StoreState.TmpInvisible | common/encoding.cpp:82-85 | writing the temporary file changes neither key nor load: the rename is the only visible step |
| StoreState.SaveVisible | daemon/enrollment_store.cpp:80-96 | after a save, a load has exactly that enrollment under its label and the old ones under all others |
| StoreState.DeletionNoticedIff | daemon/enrollment_store.cpp:21-36 | deleting a file changes the key exactly if it was the single newest |
| StoreState.WriteNoticedIff | daemon/enrollment_store.cpp:21-36 | writing a file changes the key exactly if it becomes newest, or replaces the single newest by an older one |
| EnrollmentStore.LatestMtime | daemon/enrollment_store.cpp:24-36 | the loop finds the newest enrollment file's time |
| EnrollmentStore.EnrollmentStore.ForUid | daemon/enrollment_store.cpp:43-78 | a hit exactly if the key is current; a miss loads afresh and caches; coherence is kept and makes every answer fresh |
| EnrollmentStore.EnrollmentStore.Save | daemon/enrollment_store.cpp:80-96 | which saves succeed, the directory after success and after failure, the entry erased, coherence kept |
| EnrollmentStore.EnrollmentStore.Remove | daemon/enrollment_store.cpp:98-105 | what is deleted and counted, the entry erased, coherence kept |
| EnrollmentStore.EnrollmentStore.RemoveAll | daemon/enrollment_store.cpp:107-121 | deletes and counts exactly the enrollment files; a missing directory leaves the cache alone |
| EnrollmentStore.RemoveFiles | daemon/enrollment_store.cpp:111-117 | the deleting loop, in any listing order |
| StoreProtocol.WindowStays | daemon/enrollment_store.cpp:80-121 | only the cache erase ends a mutator's window |
| StoreProtocol.StepKeepsInv | daemon/enrollment_store.cpp:43-121 | the invariant of readers walking while the directory changes under them |
| StoreProtocol.CacheAgreement | daemon/enrollment_store.cpp:43-121 | every run: with no mutator of a user mid-edit (or a save that lost its temporary file to another), the user's entry carries the newest time and equals a fresh load, or an outsider's file is newer than its key |
| StoreProtocol.CacheIsFresh | daemon/enrollment_store.cpp:43-121 | with no outsider writing there it is always the former |
| StoreProtocol.OrphansIff | common/encoding.cpp:82-110 | a save loses its temporary file exactly when another save of that label renames it |
| StoreProtocol.ApartOrphansNone | common/encoding.cpp:82-110 | while saves of one label keep apart that never happens |
| StoreProtocol.OverlapGoesStale | common/encoding.cpp:82-110 | when they overlap, a run ends with everybody done and the cache different from the directory |
| StoreProtocol.ReaderIsFresh | daemon/enrollment_store.cpp:43-78 | every run: a for_uid that ends with no mutator mid-edit returns a fresh load, if no outsider wrote there since it began; outsiders' newer files from before it are noticed |
| StoreProtocol.HitIff | daemon/enrollment_store.cpp:49-52 | and it is answered from the cache, without loading a file, exactly if the entry carries the newest time |
| StoreProtocol.ReadAfterSave | daemon/enrollment_store.cpp:43-96 | every run: a saved enrollment is returned by every for_uid that ends after the save returned, until somebody touches its file, whoever else is mid-edit |
| StoreProtocol.GoneAfterRemove | daemon/enrollment_store.cpp:98-121 | every run: a removed label is in no answer that ends after the remover returned, until a file is put in its place |
| JsonText.Esc | proto/messages.hpp:243-248 | escaping of one character: a quote only ever follows a backslash |
| JsonText.DumpShape | proto/messages.hpp:243-248 | a printed object is not empty and holds no NUL |
| JsonRead.ReadsDump | proto/messages.hpp:243-248 | a reader of flat JSON objects gets the members of any printed object back, and stops at its end |
| JsonRead.DumpHas | proto/messages.hpp:243-248 | with all keys apart it finds every printed value under its own key |
| JsonRead.AuthFields | proto/messages.hpp:243-248 | an auth response's keys are apart, and each field is printed under its own |
| JsonRead.ErrorFields | proto/messages.hpp:330-333 | likewise an error response's |
| Decimal.ValueOfPrint | pam/pam_chowdy.c:269-271 | a printed number reads back |
| JsonScan.StrStr | pam/pam_chowdy.c:217 | the first occurrence, by position and by what follows it |
| JsonScan.SkipIs | pam/pam_chowdy.c:220 | exactly the blanks, tabs and colons between key and value are skipped |
| JsonScan.JsonBool | pam/pam_chowdy.c:213-224 | the pointer walk computes ScanBool |
| JsonScan.JsonString | pam/pam_chowdy.c:226-244 | fills the caller's buffer with the NUL-terminated ScanString, never past its end |
| JsonScan.CopyOut | pam/pam_chowdy.c:237-243 | the copying loop and its terminating NUL |
| JsonScan.QuotedString | pam/pam_chowdy.c:215-219 | inside a printed string the quoted key is found exactly if the string equals the key or ends in a quote and the key |
| JsonScan.ScanMembers | pam/pam_chowdy.c:215-219 | where the scan of any printed object stops: at the first key or string value that matches |
| JsonScan.BoolOfObject | pam/pam_chowdy.c:213-224 | json_bool on any printed object, for any plain key |
| JsonScan.StringOfObject | pam/pam_chowdy.c:226-244 | json_string on any printed object, for any plain key and buffer size |
| JsonScan.PlainIsIdentity | pam/pam_chowdy.c:239-242 | dropping backslashes undoes the escaping of strings without control characters |
| JsonScan.SuccessScan | pam/pam_chowdy.c:213-224 | json_bool on "success" is the field, or "not found" exactly for error responses and clashing strings; never the opposite |
| JsonScan.ReasonScan | pam/pam_chowdy.c:226-244 | json_string on "reason" is the reason, cut to the buffer, unless an earlier string clashes |
| Frames.ReadExact | common/ipc.cpp:98-109 | under any fragmentation, the next n bytes or an error; with no fault it fails exactly if the peer closes early |
| Frames.WriteExact | common/ipc.cpp:111-121 | all bytes, or an error after a proper prefix |
| Frames.BE32RoundTrip | common/ipc.cpp:126-128 | the length header reads back |
| Frames.BE32Order | common/ipc.cpp:126-139 | network order: headers compare, byte by byte, as the lengths do |
| Frames.ZeroFrame | common/ipc.cpp:129 | a frame of no bytes is an error |
| Frames.ReadMessage | common/ipc.cpp:125-135 | returns the parse of what is left of the stream, and stops at the frame's end |
| Frames.WriteMessage | common/ipc.cpp:137-144 | appends exactly one frame, or refuses over 2^30 bytes before writing |
| Frames.FramesRoundTrip | common/ipc.cpp:125-144 | any sequence of messages parses back exactly, in order, up to the last frame's end |
| Frames.SendMessages | common/ipc.cpp:137-144 | repeated write_message puts exactly the frames on the wire |
| Frames.ReceiveMessages | common/ipc.cpp:125-135 | repeated read_message gives a prefix of what was sent, and all of it with no fault |
| Frames.Transport | common/ipc.cpp:98-144 | both ends, under any fragmentation and interruption: exactly the messages sent |
| Frames.CutFrame | common/ipc.cpp:98-104 | a stream cut anywhere inside a frame is an error |
| Frames.OversizedFrame | common/ipc.cpp:130 | a message over the receiver's limit is refused by its length |
| Frames.ReadAll | pam/pam_chowdy.c:197-209 | the PAM module's loop meets the same specification |
| Frames.WriteAll | pam/pam_chowdy.c:184-195 | likewise for writing |
| Pam.PayloadFits | pam/pam_chowdy.c:266-272 | the request always fits its buffer |
| Pam.RequestReads | pam/pam_chowdy.c:266-272 | read as JSON the request asks to authenticate exactly this user, within this time, under this request id |
| Pam.AsksOne | pam/pam_chowdy.c:266-272 | and no other |
| Pam.RequestIdPlain | pam/pam_chowdy.c:125-141 | request ids are hex and fit their buffer |
| Pam.SendRequest | pam/pam_chowdy.c:274-276 | the request goes out as one frame |
| Pam.ReceiveResponse | pam/pam_chowdy.c:278-285 | accepts exactly frames of 1 to 8192 bytes |
| Pam.DoAuth | pam/pam_chowdy.c:248-293 | an answer other than -1 is what the scanner finds in the daemon's frame, and followed one frame that asks about exactly this user |
| Pam.Authenticate | pam/pam_chowdy.c:323-385 | grant and denial only ever follow from the daemon's reply, to a request about exactly this user, and the presence gate |
| Pam.GrantIff | pam/pam_chowdy.c:323-385 | end to end: PAM grants exactly if the daemon reported success, nothing hides it and the gate is passed; denies exactly on an unhidden failure |
| Pam.ReplyTo | pam/pam_chowdy.c:278-293 | what the module makes of the text of any response: its success field, or "cannot tell" exactly if it is too long, an error or hidden |
| Pam.NoPartialGrant | pam/pam_chowdy.c:278-285 | a response cut short anywhere never grants or denies |
| Greedy.Sweep | daemon/models.cpp:193-202 | the loop with dropped flags keeps exactly the greedy survivors, for any relation |
| Greedy.DropBehind | daemon/models.cpp:198-200 | its inner loop |
| Nms.IouSymmetric | daemon/models.cpp:178-188 | symmetric |
| Nms.IouRange | daemon/models.cpp:178-188 | between 0 and 1 on boxes of no negative size, positive exactly on a real overlap |
| Nms.IouSelf | daemon/models.cpp:178-188 | 1 for a box with itself |
| Nms.OverlapExists | daemon/models.cpp:178-184 | two boxes have no point in common, or their common points fill one rectangle |
| Nms.IouIs | daemon/models.cpp:178-188 | then the ratio times the area of the union is the area of that rectangle; 0 for an empty union |
| Nms.IouApart | daemon/models.cpp:182-188 | 0 without a common point |
| Nms.IouContained | daemon/models.cpp:178-188 | of a box in another, the ratio of their areas |
| Nms.SortUnique | daemon/models.cpp:191-192 | with distinct scores there is one descending order |
| Nms.Suppress | daemon/models.cpp:190-203 | the survivors of some descending order of the input |
| Nms.SuppressCorrect | daemon/models.cpp:190-203 | part of the input, descending, pairwise at most the threshold, everything dropped overlaps something kept of no smaller score, and the best is in front |
| Nms.SuppressIdempotent | daemon/models.cpp:190-203 | on its own result it drops nothing, and with distinct scores changes nothing |
| Nms.SuppressCanonical | daemon/models.cpp:190-203 | with distinct scores the result depends on the set of detections alone |
| Nms.TiesMatter | daemon/models.cpp:191-192 | with two equal scores that overlap, it depends on the order the sort picks |
| Nms.OrderImmaterialIff | daemon/models.cpp:190-203 | all descending orders keep the same detections exactly if no two different, overlapping detections of equal score both escape the kept ones of higher score |
| Nms.FrontIff | daemon/models.cpp:190-203 | the front detection, the one the handlers use, is the same for all orders exactly if all top scorers are the same detection |
| Ties.TieFreeSame | daemon/models.cpp:193-202 | for any symmetric relation: without a tie the survivors do not depend on the order |
| Ties.TieDecides | daemon/models.cpp:193-202 | with a tie some order has other survivors |
| Scrfd.ScaleFills | daemon/models.cpp:65-66 | the longer side is scaled to the canvas exactly |
| Scrfd.FitsCanvas | daemon/models.cpp:59-80 | picture and padding fit and are centred, one side is filled; the picture is empty exactly beyond 640 to 1 |
| Scrfd.FarCorner | daemon/models.cpp:65-80 | proportions are kept: the picture's far corner is less than a pixel short of where the frame's lands |
| Scrfd.RemapInverts | daemon/models.cpp:138-139 | remap undoes scale-then-pad, both ways |
| Scrfd.RemapInside | daemon/models.cpp:138-139 | the picture's part of the canvas maps back into the frame |
| Scrfd.CategorizeOutputs | daemon/models.cpp:102-131 | the loops find the last output of each shape |
| Scrfd.CategorizedIs | daemon/models.cpp:102-131 | understood exactly if all nine shapes occur; of several alike the last is taken |
| Scrfd.FitsIff | daemon/models.cpp:110-121 | an output is a head's exactly if its shape is [anchors, columns], alone or in a batch of one |
| Scrfd.WiredShaped | daemon/models.cpp:102-151 | once the outputs are understood, decode reads no tensor out of bounds |
| Scrfd.IndexCorresponds | daemon/models.cpp:151 | anchor indices are in bounds and determine row, column and anchor |
| Scrfd.IndexCovers | daemon/models.cpp:151 | every index belongs to a cell |
| Scrfd.IndexOrder | daemon/models.cpp:148-151 | indices run through the cells row by row, and through a cell's anchors |
| Scrfd.CentresTile | daemon/models.cpp:143-155 | the cells of a stride tile the canvas and centres are their middles |
| Scrfd.DecodeHead | daemon/models.cpp:141-174 | the three nested loops are one scan over the indices |
| Scrfd.Decode | daemon/models.cpp:133-176 | all strides, one after the other |
| Scrfd.DecodesExactly | daemon/models.cpp:148-171 | decodes exactly the cells that score at least the threshold, once each, in scan order, with their scores |
| Scrfd.DecodesAll | daemon/models.cpp:141-176 | a detection is reported exactly if an anchor of any stride gives it and scores at least the threshold |
| Scrfd.DecodesProper | daemon/models.cpp:160-170 | whatever the network says, boxes have no negative size and scores pass |
| Scrfd.DecodeInverts | daemon/models.cpp:154-164 | a network that predicts a letterboxed box exactly is decoded to the box in the frame |
| Scrfd.LandmarksInvert | daemon/models.cpp:165-169 | a landmark predicted exactly is decoded to the landmark in the frame |
| Vectors.CosineSimNormed | common/encoding.cpp:40-44 | the accumulator loop computes the dot product |
| Vectors.DotIs | common/encoding.cpp:40-44 | the dot product is linear, symmetric, and along each direction the coordinate |
| Vectors.CauchySchwarz | common/encoding.cpp:40-44 | the inequality for the sums it computes |
| Vectors.L2Normalize | common/encoding.cpp:29-38 | rewrites the vector in place to the scaled, or the zero, vector |
| Vectors.NormalizedIsUnit | common/encoding.cpp:29-38 | norm 1, or the zero vector exactly below the cut-off |
| Vectors.NormalizedAlong | common/encoding.cpp:29-38 | and points where the input does |
| Vectors.SimilarityRange | common/encoding.cpp:40-44 | similarities of normalised vectors lie in [-1, 1] |
| Vectors.PickThreshold | common/encoding.cpp:46-57 | the nested loops compute Threshold |
| Vectors.MinSimIs | common/encoding.cpp:48-54 | their minimum is the least of 1 and all pairs, and attained |
| Vectors.ThresholdRange | common/encoding.cpp:46-57 | between the floor and max(floor, 1 - margin), and below every pair less the margin |
| Vectors.ThresholdIs | common/encoding.cpp:46-57 | the greatest t that is at most the floor, or at most 1 and every pair's similarity, less the margin; the floor below two embeddings |
| Vectors.ThresholdPermutes | common/encoding.cpp:46-57 | the order of the embeddings does not matter |
| Vectors.ThresholdFalls | common/encoding.cpp:46-57 | never rises when an embedding is added to two or more |
| Matching.AcceptsIff | daemon/handlers/auth.cpp:119-129 | an enrollment accepts a face exactly if one of its embeddings reaches its threshold, or the threshold is at most -1 |
| Matching.EnrolledFaceAccepted | daemon/handlers/enroll.cpp:142-145 | every non-zero enrolled embedding matches its own enrollment; a zero one only at a threshold of 0 or less |
| Matching.PickedAcceptsIff | daemon/handlers/auth.cpp:119-129 | with the threshold picked from its embeddings, an enrollment accepts a face exactly if its best similarity reaches the floor and, from two embeddings on, 1 or some pair's similarity less the margin |
| Matching.StrangersRefused | daemon/handlers/auth.cpp:47-158 | then faces below all of these are refused, however many frames they show |
| Matching.BestForLabel | daemon/handlers/auth.cpp:119-124 | the inner loop's maximum |
| Matching.MatchUsers | daemon/handlers/auth.cpp:118-138 | the first accepting enrollment, or the tally after trying all |
| Matching.TryFrame | daemon/handlers/auth.cpp:111-138 | one turn of the loop: a match, or the new tally |
| Matching.CaptureLoop | daemon/handlers/auth.cpp:96-158 | the loop stops at the first exception or match, else reports the tally |
| Matching.HandleAuth | daemon/handlers/auth.cpp:47-158 | all return paths |
| Matching.LoadedIs | daemon/handlers/auth.cpp:76-79 | the filter keeps exactly the enrollments of the loaded embedder |
| Matching.SuccessIff | daemon/handlers/auth.cpp:47-158 | success exactly if the peer may and some lit frame with a face and embedding, before any exception, is accepted by an enrollment of the loaded embedder; the label and confidence are those of the first to accept the first such frame |
| Matching.RefusedIff | daemon/handlers/auth.cpp:50-82 | each reason for a refusal before the camera is used, exactly when |
| Matching.FailedIff | daemon/handlers/auth.cpp:96-157 | each reason after, exactly when |
| Matching.FailureMeans | daemon/handlers/auth.cpp:141-157 | without an exception the confidence is max(0, best similarity) and the label that of the first enrollment to have it |
| Matching.CountsIs | daemon/handlers/auth.cpp:90-128 | the counters are the numbers of captures and faces |
| Matching.BestSeen | daemon/handlers/auth.cpp:90-128 | best is the greatest similarity seen, with the label of the first enrollment to reach it |
| Matching.HandleTest | daemon/handlers/test.cpp:52-77 | the two loops compute TestAnswer |
| Matching.WouldAuthIff | daemon/handlers/test.cpp:56-76 | would_auth exactly if the best-matching enrollment of the loaded embedder has positive similarity that reaches its own threshold |
| Matching.TestImpliesAuth | daemon/handlers/test.cpp:66-76 | would_auth implies that auth accepts the same face |
| Matching.WinnerDecides | daemon/handlers/test.cpp:56-76 | would_auth exactly if the first enrollment with the greatest similarity has it positive and at its own threshold or above |
| Matching.TestReports | daemon/handlers/test.cpp:52-70 | what is reported: label and similarity of the first most similar enrollment of the loaded embedder if positive, else no label and the detection's score |
| Matching.TestAgreesIff | daemon/handlers/test.cpp:66-76 | given that auth accepts, would_auth exactly under that condition |
| Matching.SharedThreshold | daemon/handlers/test.cpp:66-76 | with one positive threshold shared by all enrollments of the loaded embedder, would_auth exactly if auth accepts |
| Matching.AuthWithoutTest | daemon/handlers/test.cpp:66-76 | with two thresholds they can differ: the more similar enrollment may have the higher one |
| Recognition.RecordAuthenticates | daemon/handlers/auth.cpp:96-138 | over every run of sessions: a face accepted before a finish is recognised among any enrollments that include what it saved |
| Recognition.SavedIsStored | daemon/enrollment_store.cpp:43-96 | what a finish saved is, as file and back, among the enrollments any later for_uid gives |
| Recognition.AcceptedFaceAuthenticates | daemon/handlers/enroll.cpp:122-166 | enroll, save, load, authenticate: the same on what the store returns after the save, among any other readers and mutators |
| ModelId.SimpleModelId | common/encoding.cpp:16-27 | the loop computes the hash modulo 2^32, with short files zero-padded and 0 if unreadable |
| ModelId.IdIs | common/encoding.cpp:16-27 | size times 31^16 plus head byte i times 31^(15 - i), for all i, modulo 2^32; 0 if unreadable |
| ModelId.SizeTellsApart | common/encoding.cpp:16-27 | equal heads: ids agree exactly if sizes do, modulo 2^32 |
| ModelId.OneByteTellsApart | common/encoding.cpp:16-27 | equal sizes and exactly one differing head byte: different ids |
| ModelId.SameIdIff | common/encoding.cpp:16-27 | any two files: ids agree exactly if the weighted differences of size and head bytes add up to a multiple of 2^32 |
| ModelId.TwoBytesIff | common/encoding.cpp:16-27 | two differing bytes anywhere: ids agree exactly if 31 to their distance times the one plus the other is a multiple of 2^32 |
| ModelId.NeighboursIff | common/encoding.cpp:16-27 | neighbouring bytes: exactly if 31 times the one plus the other is 0 |
| ModelId.NearbyNever | common/encoding.cpp:16-27 | two to four positions apart: never |
| EnrollSessions.EnrollSessionManager.ReapExpired | daemon/enroll_session.cpp:45-51 | the erasing loop leaves exactly the sessions not older than five minutes |
| EnrollSessions.EnrollSessionManager.Create | daemon/enroll_session.cpp:11-29 | reaps, counts, and adds a session unless the reservation throws |
| EnrollSessions.EnrollSessionManager.Get | daemon/enroll_session.cpp:31-38 | reaps, then finds and touches |
| EnrollSessions.EnrollSessionManager.Drop | daemon/enroll_session.cpp:40-43 | removes that session only |
| EnrollSessions.HandleStart | daemon/handlers/enroll.cpp:55-80 | all return paths, defaults and the session left behind |
| EnrollSessions.HandleFrame | daemon/handlers/enroll.cpp:82-125 | all return paths, hints and the embedding added |
| EnrollSessions.HandleFinish | daemon/handlers/enroll.cpp:127-167 | all return paths, what is saved and dropped |
| EnrollSessions.FrameCountsIff | daemon/handlers/enroll.cpp:91-124 | in a known session a frame counts exactly if it shows a lit, sharp, embedded face of 15 to 80 percent height and the session is not full |
| EnrollSessions.IdsDiffer | daemon/enroll_session.cpp:18-20 | an id fits its buffer uncut and determines user and counter |
| EnrollSessions.IdReads | daemon/enroll_session.cpp:18-20 | it reads as user, dash, counter |
| EnrollSessions.StepKeepsInv | daemon/handlers/enroll.cpp:55-167 | 1 <= min < max, at most max embeddings, only issued ids: kept by every request |
| EnrollSessions.StepFate | daemon/handlers/enroll.cpp:55-167 | a session only ever changes by its own good frame's embedding; only a start makes one |
| EnrollSessions.SessionBounds | daemon/handlers/enroll.cpp:67-69 | the bounds hold at all times of every run |
| EnrollSessions.DoneIffFull | daemon/handlers/enroll.cpp:91-124 | done is reported exactly when full, and the counts reported are the session's |
| EnrollSessions.OnlyGrows | daemon/handlers/enroll.cpp:122 | between any two moments of a run a session's embeddings only grew |
| EnrollSessions.GoneForGood | daemon/enroll_session.cpp:40-51 | a finished or expired session's id never becomes known again |
| EnrollSessions.IdsNeverReissued | daemon/enroll_session.cpp:18-29 | no run hands out an id twice |
| EnrollSessions.SessionHistory | daemon/handlers/enroll.cpp:55-125 | every session stems from one start and holds exactly what was accepted for it since |
| EnrollSessions.FinishSavesAccepted | daemon/handlers/enroll.cpp:137-166 | a finish saves exactly the accepted embeddings, between min and max of them, for the user and label started with, once |
| EnrollSessions.StartSucceedsIff | daemon/handlers/enroll.cpp:67-79 | when a start fails: no room, overflow of min + 7, or expiry between create and get |
| EnrollSessions.ReapingInvisible | daemon/enroll_session.cpp:45-51 | every run answers as if nothing were reaped and lookups just refused old sessions |
| EnrollLife.KnownIff | daemon/enroll_session.cpp:31-51 | every run: a request finds a started session exactly if it was not finished and this and every earlier request for it came within five minutes of the start or of an earlier one |
| EnrollLife.KnownStems | daemon/enroll_session.cpp:31-51 | every run: a request finds its session exactly if there is such a start |
| EnrollLife.FinishIff | daemon/handlers/enroll.cpp:137-151 | every run: a finish that finds its session succeeds exactly if as many frames were accepted as its start asked for and the save did not fail; else it says which |
| EnrollLife.BoundsGiven | daemon/handlers/enroll.cpp:67-80 | what a start answers: the new id, nothing collected, and the maximum given or 7 more than asked for |
| EnrollLife.RefusedIff | daemon/handlers/enroll.cpp:55-90 | which requests are refused before their session is looked up, and that they change nothing |
| EnrollLife.HintsAre | daemon/handlers/enroll.cpp:97-124 | each hint exactly when |

## Left out

- Recognition.AcceptedFaceAuthenticates: the saved record's numbers are exactly those its file's bit patterns stand for.
- Scrfd.FitsCanvas: exact arithmetic; with 32-bit floats the longer side may come out as 639.
- Vectors.NormalizedIsUnit: the reciprocal root is exact; float rounding is not modelled, here or elsewhere.
- Nms.SuppressCanonical: NaN scores are not modelled.
- EnrollmentStore.EnrollmentStore.Save: opening the temporary file and renaming it succeed; their failures are the Throw steps of `StoreProtocol`.
- EnrollmentStore.EnrollmentStore.Remove: a label that contains a slash (a path outside the directory) is not modelled.
- EnrollmentStore.EnrollmentStore.RemoveAll: every unlink succeeds; unlinks that fail are in `StoreProtocol`.
- StoreProtocol.CacheAgreement: outsiders only put files in place that are newer than all there (`StoreState.WriteNoticedIff` says which others are noticed); errors while listing a directory are not steps. What an orphaned save still writes lands in whatever file has its label at that time.
- Fa01.SaveEnrollment: the unchecked final flush is taken to succeed.
- CameraProtocol.WatchdogBound: the watchdog wakes within a slack and takes a free mutex at once; a clock reading and the access it belongs to are one step; how long a handler holds the mutex is not bounded.
- CameraProtocol.QuiescentLitIff: "lit" is the daemon's own flag; whether the device follows a STREAMOFF is in `V4l2.Camera.StopStream`.
- EnrollSessions.HandleFrame: a session is a value in the manager's map, not a pointer kept after the manager's lock is released; the unread attempts counter is omitted.
- EnrollSessions.StartSucceedsIff: signed overflow is taken to wrap, and a reservation to fail by throwing.
- The pipeline's constructor (eager open under the warm policy, model warm-up) and destructor, process shutdown, signals, systemd integration: the protocol starts with the camera closed.
- ONNX inference, image resizing, alignment, the pixel tensor and the quality score: detector outputs, embeddings and scores are inputs.
- JsonRead.ReadsDump: the reader is of flat objects as they are printed, without spaces; the daemon's own parser, `nlohmann::json`, and its printing of floats are not modelled. Text that is not UTF-8, for which the printer throws, is not excluded.
- The frame loop of the test handler, the list and remove handlers, root checks beyond those in the enrollment handlers: single-branch facts.
- Configuration, logging, command-line output, packaging, the `tools/` programs and `SecureBuffer`.
