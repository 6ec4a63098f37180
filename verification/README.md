# MotionSense, verified

MotionSense records a camera to an SD card. A capture thread thins the sensor's frames and rewrites
their times, a bounded queue carries the encoded frames to a writer thread, and the writer cuts HLS
segments, publishes them atomically, keeps event tables and deletes old days. A second path sends
preview frames over a socket to a Go agent, which fans them out to browsers. This project models
these parts in Dafny and proves what they keep over whole runs. `dafny verify dfyconfig.toml` checks
everything.

## How the model is laid out

| file | part of the system |
|---|---|
| FrameQueue.dfy, FrameQueueRing.dfy | the queue as a value with its full history; the ring buffer that implements it |
| QueueWaiters.dfy | any number of popping threads on the condition variable |
| Retimer.dfy | the capture thread's rate limiter and synthesized timeline |
| Pipeline.dfy | queue, day rollover and keyframe gate together |
| HlsMedia.dfy, HlsMediaBuffer.dfy | the segment cutter; the byte buffer it grows |
| Disk.dfy, Publisher.dfy | a disk that may lose power between any two steps; the segment handler on it |
| Card.dfy | cutter and handler together: what the card holds of the frames that went in |
| Writer.dfy | one frame through rollover, gate and event counters |
| Retention.dfy, Lifecycle.dfy | the table of days and its cleanup; whole runs with crashes and restarts |
| Recording.dfy | from the sensor's frames to the segment files, and to the player's markers |
| Framing.dfy, Broker.dfy | the preview's wire format; the fan-out to browsers |
| Base.dfy, Arithmetic.dfy | shared definitions; products and quotients |

Code that changes things step by step is a class or a method with loops, and its contract equates the
new state with a step function of the old one; the lemmas are about runs of those step functions. The
queue's ids, the disk's trace and the sender's frame lists are histories kept for the statements only.

Values that the code reads from outside are parameters: clocks, motion state, encoder and muxer
results, memory for a copy, where an I/O operation fails, the handler's answer, the choice a query or
a map iteration leaves open, and whether the build has assertions. Theorems hold for all of them unless
the table names a condition. Standing assumptions, written as preconditions where they matter: queue capacity at least 1, `1 <= fps_low <= fps_high` (and at most
1000000 for the timeline bounds), hardware times non-negative and non-decreasing, the encoder gives
back the time it was given, a non-empty frame becomes at least one packet.

## What turned out differently than one might expect

- Keyframes need only be as dense as the queue is long: no interleaving loses a reference frame
  exactly when every `capacity` consecutive frames after the first contain a keyframe
  (`FrameQueue.OrphanFreeExactly`).
- A frame that overflows the queue and stays alone in it is not always followed by a keyframe in what
  the writer sees: the keyframe may itself be evicted. It always is exactly when no keyframe stands
  between two gaps that are both at least as long as the queue (`FrameQueue.KeyAfterOrphanExactly`).
- The playback rate is constant exactly while sensor gaps are at most the nominal period of `fps_high`;
  with a slower sensor the motion timeline keeps real time and drifts without bound
  (`Retimer.RateIsConstantExactly`).
- After an I/O error the playlist may list a segment that is not there, because the entry is added
  before the file is written; this happens exactly when a later playlist is put in place
  (`Publisher.CrashSafeExactly`).
- When a segment is written and its playlist is not, the cutter keeps the buffer and hands the same
  frames over again under the next index, so a later playlist plays them twice. What the card plays is
  exactly what was accepted if and only if every handler call before the last listed one returned 0
  (`Card.CardPlaysExactly`).
- A segment row starts at -1 total frames, so the stored total trails by the full ratio, and not less,
  exactly when it has never been stored and the next frame will store it (`Writer.LagExactly`); every
  configuration gets there (`Writer.FirstFramesLagByRatio`).
- A clock set back to a day waiting for deletion makes the writer record into a day that cleanup then
  removes (`Lifecycle.ClockBackLosesToday`). The recorded day is safe exactly when no day is opened
  while its row waits for deletion, a test that open_today does not make (`Lifecycle.DaySafeExactly`).
- A clock set back to a day that is already gone makes the writer number that day's directories from 0
  again, and write the same paths a second time (`Lifecycle.ClockBackRepeatsPath`). No path is written
  twice exactly when each session's first segment goes into a directory that none has been written into
  (`Lifecycle.NoPathTwiceExactly`).
- A day whose directory cannot be removed blocks retention: the query may give it again and again, so
  that nothing is deleted and the backlog grows, a day each cleanup (`Retention.ProgressExactly`,
  `Retention.BacklogGrowsExactly`).
- A failed cut loses the keyframe that made it, and the frames behind it join the old segment
  (`Recording.AcceptedChainExactly`).
- The rollover test looks at the day of the year only, so a writer that reads the same day of another
  year next goes on recording under the old date (`Writer.CalendarExactly`).
- The comment at src/storage_db.c:258-260 says the Go side hides PENDING days; the query at
  agent/internal/database/metadata.go:22-23 does not, and nothing here relies on it. The comment at
  src/storage_internal.h:55 speaks of a fixed 33 ms a frame; the code uses the frame's own time
  (src/storage.c:335), and so does the model.

## Model

| member | source | states |
|---|---|---|
| FrameQueue.EvictCount | src/frame_queue.c:67-86 | an eviction takes at least the head and then stops exactly at the next keyframe or the end |
| FrameQueue.RunConserves | src/frame_queue.c:67-162 | in every run each copy made is popped, waiting, dropped or refused, exactly once, and the stream keeps the offered order |
| FrameQueue.CountsAddUp | src/frame_queue.c:164-180 | frames offered while open are as many as popped, waiting and dropped ones together |
| FrameQueue.ClosedDrains | src/frame_queue.c:100-101 | after the close, pushes change nothing and pops return exactly the frames that waited, in order, then no more |
| FrameQueue.GetsInExactly | src/frame_queue.c:97-123 | in every run a frame offered is in the ring afterwards if and only if the queue is not closed and it is a keyframe or the frame that got in last found room |
| FrameQueue.RunStreamLaw | src/frame_queue.c:67-126 | with any keyframe spacing, each frame the writer gets is a keyframe, the direct successor of a non-orphan, or an orphan, and orphans never exceed overflows |
| FrameQueue.OrphanExactly | src/frame_queue.c:103-123 | a push makes an orphan exactly when the ring is full in normal mode, the frame is not key and no keyframe stands behind the head |
| FrameQueue.DenseRunHasNoOrphan | src/frame_queue.c:67-126 | when every `capacity` consecutive frames contain a keyframe, no run makes an orphan |
| FrameQueue.GapMakesOrphan | src/frame_queue.c:115-123 | any gap of `capacity` frames without a keyframe has an interleaving that makes an orphan |
| FrameQueue.OrphanFreeExactly | src/frame_queue.c:67-126 | for every sequence of frames, no interleaving makes an orphan if and only if its keyframes are that dense |
| FrameQueue.RegularGopIsDense | config.yaml:11 | a GOP no longer than the queue, such as the shipped 60 against 64, is dense enough |
| FrameQueue.KeyAfterOrphanExactly | src/frame_queue.c:67-126 | for every sequence of frames, what follows an orphan is a keyframe in every interleaving if and only if no keyframe stands between two gaps of at least `capacity` frames |
| FrameQueue.GapsMakeNeighbours | src/frame_queue.c:103-123 | any two such gaps have an interleaving in which an orphan directly follows an orphan |
| FrameQueueRing.FrameQueue.constructor | src/frame_queue.c:30-51 | an empty ring |
| FrameQueueRing.FrameQueue.DropFrames | src/frame_queue.c:67-86 | the do-while eviction on the ring frees exactly the frames up to the next keyframe, each once; an empty ring is left alone |
| FrameQueueRing.FrameQueue.EvictForPush | src/frame_queue.c:115-116 | the eviction inside a push, with the overflow and orphan it records |
| FrameQueueRing.FrameQueue.Push | src/frame_queue.c:88-132 | the ring's push is the queue's step; the copy it makes is then in the ring or freed, and -1 leaves the queue as it was |
| FrameQueueRing.FrameQueue.Pop | src/frame_queue.c:134-153 | pop hands out the oldest copy and its ownership, with the bytes, length, flag and time it was offered with, or nothing when closed and empty; all pops together gave exactly the frames offered under the popped ids, in order |
| FrameQueueRing.FrameQueue.Close | src/frame_queue.c:155-162 | close only sets the flag |
| FrameQueueRing.FrameQueue.Dropped | src/frame_queue.c:164-171 | the counter is the number of frames dropped |
| FrameQueueRing.FrameQueue.Depth | src/frame_queue.c:173-180 | the counter is the number of frames waiting |
| FrameQueueRing.FrameQueue.Destroy | src/frame_queue.c:53-65 | every copy still in the ring is freed, each once and no other, and none is left |
| FrameQueueRing.WindowAdvances | src/frame_queue.c:148-150 | taking the head slot out keeps the window and leaves no copy outside it |
| FrameQueueRing.WindowGrows | src/frame_queue.c:118-123 | writing a slot with the frame's copy, length, flag and time at the tail puts the frame behind the waiting ones |
| QueueWaiters.RunKeepsWakeups | src/frame_queue.c:115-162 | in every run, while a popper sleeps unsignalled the queue is open and holds no more frames than woken poppers on their way |
| QueueWaiters.ParkedOnlyWhenIdle | src/frame_queue.c:138-145 | once the woken poppers have run, in any order, a popper sleeps only on an open, empty queue |
| QueueWaiters.MonitorRunsQueue | src/frame_queue.c:134-153 | in every run the queue's history is that of whole pushes, pops and closes one after the other, each popper that does not go to sleep making one pop |
| QueueWaiters.WaitersExactly | src/frame_queue.c:124-162 | a popper sleeps exactly on an open, empty queue; a push that lets a frame in wakes one sleeper, the close all, and nobody else starts or stops waiting |
| Pipeline.InstancesFollowStreamLaw | src/storage.c:323-338 | each HLS instance's input starts with a keyframe and follows the stream law, over all interleavings and rollovers |
| Pipeline.DenseRecordsGopPrefixes | src/storage.c:323-338 | with dense keyframes each instance's input is a concatenation of GOP prefixes |
| Pipeline.GateSkipsOnlyNonKeys | src/storage.c:328-333 | every popped frame is in exactly one instance, except non-key ones the gate turned away |
| Pipeline.GateExactly | src/storage.c:312-333 | in every run a frame taken goes to the end of the open instance, a new one after a rollover, if and only if it or one taken since the last rollover is a keyframe |
| Retimer.GateUpperBound | src/media.c:568-584 | in a mode run with interval I at most 1 + floor((h - h0) / I) frames are kept by time h, for any sensor timing |
| Retimer.GateIsGridSampler | src/media.c:568-584 | with sensor gaps up to I exactly that many are kept, the deadline stays on the grid and the catch-up branch is not taken |
| Retimer.GateExactly | src/media.c:568-584 | over every mode run and any sensor timing a frame is kept if and only if it comes no earlier than the next grid point, one for each frame kept since the grid's start; the grid starts anew at each kept frame that missed a whole cell |
| Retimer.DroppedIsEarly | src/media.c:570-575 | a dropped frame comes less than an interval after the last one kept |
| Retimer.KeptAfterStall | src/media.c:577-579 | after a stall of two intervals or more no second frame is kept within one interval |
| Retimer.TimelineNeverRewinds | src/media.c:586-593 | over every run the synthesized time never decreases |
| Retimer.MotionIsRealTime | src/media.c:589-590 | inside a motion run it advances by exactly the hardware time |
| Retimer.IdleIsScaledTime | src/media.c:591-592 | inside an idle run it advances by the scaled hardware time, losing less than a microsecond a frame in all |
| Retimer.ConstantRateInWindow | src/media.c:554-593 | with sensor gaps up to the nominal period of fps_high (`Retimer.RateIsConstantExactly`): between any two points of a recording, through any mode switches, the synthesized time advances one nominal period a kept frame, within 2 us a frame and one sensor gap a mode run the window touches |
| Retimer.ConstantPlaybackRate | src/media.c:554-593 | with such gaps, from the start, after N kept frames and any mode switches, it is at most 2 us a frame below and one sensor gap a mode run above N nominal periods |
| Retimer.RateIsConstantExactly | src/media.c:554-593 | a bound on sensor gaps gives that rate in every recording if and only if it is at most the nominal period of fps_high |
| Retimer.FrameShareIsTimeShare | agent/static/js/playback.js:375-380 | with such gaps, in any window of kept frames, wherever it opens, a frame's share of the frames is its share of the time within that slack, counted from zero or, a frame more, from one |
| Retimer.SlowSensorDrifts | src/media.c:533-540 | a sensor slower than fps_high, by any amount, drifts past every bound |
| Retimer.H264Thread | src/media.c:541-610 | the thread's loop pushes exactly the kept and encoded frames under their synthesized times |
| Retimer.PushedExactly | src/media.c:586-605 | the queue is offered each sensor frame that is kept and comes back from the encoder, once and in order, with the encoder's bytes and flag and its own synthesized time |
| Retimer.PushedNeverRewinds | src/media.c:586-605 | the times offered to the queue never decrease |
| HlsMedia.FailureKeepsSegment | 3rdparty/media-server-local/hls-media.c:177-200 | after a failed cut, and any later inputs and failures, the next report taken is the buffer that failed followed by exactly the packets accepted since, under the segment's own first stamps |
| HlsMedia.LosesOnlyFailedCuts | 3rdparty/media-server-local/hls-media.c:150-183 | over every run the inputs lost are exactly those whose own cut the handler failed and, in a build with assertions, the first that trips the assertion and all behind it, as the program has ended; all others are accepted once, in order |
| HlsMedia.NeverEnds | 3rdparty/media-server-local/README.md:13-20 | without assertions, or with duration 0, the program never ends there |
| HlsMedia.TripsExactly | 3rdparty/media-server-local/hls-media.c:146-149 | an input trips the assertion if and only if there is one, segments have a duration, and it comes that long or longer after the last input accepted |
| HlsMedia.CutsExactly | 3rdparty/media-server-local/hls-media.c:152-191 | over every run of inputs, video, audio or flushes at any times, the next one makes a cut if and only if something is in the buffer and it is a flush, a rewind, a keyframe or the full size once the duration is up, or the duration alone without video; the handler is told the segment's packets, first stamps and length |
| HlsMedia.BufferGathers | 3rdparty/media-server-local/hls-media.c:177-200 | while no cut succeeds the buffer is the old one followed by exactly the packets of the inputs accepted since |
| HlsMedia.RunPartitions | 3rdparty/media-server-local/hls-media.c:177-200 | whatever the times and the handler's answers, segments and buffer are all packets of the accepted frames in order |
| HlsMedia.SegmentsCutWhereDue | 3rdparty/media-server-local/hls-media.c:158-194 | each further segment starts with a keyframe or follows a full one, and no cut was due inside any |
| HlsMedia.ZeroDurationSegments | 3rdparty/media-server-local/hls-media.c:162-166 | with duration 0 a keyframe only starts a segment, and without its last frame a segment is below the cap |
| HlsMedia.DurationsTelescope | 3rdparty/media-server-local/hls-media.c:179-191 | reported durations are non-negative and add up to last minus first time less the gaps over 100 ms on cuts |
| HlsMedia.NeverRewinds | 3rdparty/media-server-local/hls-media.c:153-156 | on non-decreasing times only a flush forces a segment |
| HlsMedia.AllAccepted | 3rdparty/media-server-local/hls-media.c:139-201 | with duration 0 and a succeeding handler every frame is accepted |
| HlsMediaBuffer.HlsMedia.constructor | 3rdparty/media-server-local/hls-media.c:80-107 | an empty cutter with the 100 MiB cap |
| HlsMediaBuffer.HlsMedia.Alloc | 3rdparty/media-server-local/hls-media.c:36-51 | room for a packet after the bytes written, which growth preserves; None only when growth fails |
| HlsMediaBuffer.HlsMedia.Write | 3rdparty/media-server-local/hls-media.c:61-69 | a packet is appended to the bytes written |
| HlsMediaBuffer.HlsMedia.Input | 3rdparty/media-server-local/hls-media.c:139-201 | the handler is called exactly on a cut with exactly the buffered segment, the new state is the cutter's step, and with memory available every accepted frame is fully written |
| Disk.PublishedIsCrashSafe | src/storage.c:103-143 | if the first segments and every surviving playlist are in order, every crash image is playable |
| Publisher.AtomicWriteEvolves | src/storage.c:103-143 | at every step, however it fails, an atomic write leaves the name with an old answer or the complete new file |
| Publisher.AtomicWriteResult | src/storage.c:103-143 | a successful one is durable; one that fails before the rename leaves the directory untouched |
| Publisher.NoTmpsLeft | src/storage.c:103-143 | whatever fails, no temporary file's name is left after a call |
| Publisher.FinishedCallsSurvive | src/storage.c:148-184 | once the n-th call has returned 0, whatever fails later and whenever the power goes, a playlist listing at least n segments is found |
| Publisher.NoErrorsNoLoss | src/storage.c:148-184 | without I/O errors, after n calls a crash at any later step leaves a playlist of at least n segments, all that it lists are there and complete, and so are the first n |
| Publisher.CrashSafeExactly | src/storage.c:162-180 | with arbitrary failures, every crash at every step leaves only complete segments listed if and only if no playlist is put in place after a call whose segment was not |
| Publisher.Publisher.WriteFileAtomic | src/storage.c:103-143 | the disk passes through exactly the modelled states, and 0 is returned exactly without a fault |
| Publisher.Publisher.HlsCb | src/storage.c:148-184 | segment before playlist, a fresh index even on failure, and the modelled states in between |
| Card.CardPlaysExactly | src/storage.c:162-184 | with the cutter's buffer as the handler's data and the handler's failures as the cutter's answers: every crash leaves a playlist that plays exactly the frames accepted when its last segment was handed over, if and only if every call before the last listed one returned 0 |
| Card.SegmentsAreAccepted | 3rdparty/media-server-local/hls-media.c:179-192 | the first n segments joined are the packets accepted by the n-th call if and only if every call before it returned 0 |
| Card.FailedSegmentComesAgain | 3rdparty/media-server-local/hls-media.c:182-183 | after a call that failed the next one is given the same packets again, and more |
| Card.FaultlessCard | src/storage.c:148-184 | without I/O errors every segment file a crash leaves listed is the packets of one segment of the cutter, and no finished call is missing |
| Writer.RunIsConsistent | src/storage.c:339-362 | in every run the motion count is the segment's number of marker rows, their frames strictly increase within the frame count, and the stored total lags below the ratio |
| Writer.LagExactly | src/storage.c:353-362 | in every state of every run the stored total lags by less than the ratio if and only if it has been stored or one more frame is still short of the ratio, and it never lags by more than the ratio |
| Writer.FirstFramesLagByRatio | src/storage_db.c:162-167 | in every configuration a start followed by ratio - 1 frames at the high rate leaves -1 and a lag of the full ratio |
| Writer.FrameCountIsPlace | src/storage.c:336-349 | in every run the frame number a marker gets is the frame's place in its HLS instance |
| Writer.MarksExactly | src/storage.c:339-352 | in every run a frame gets a marker if and only if it is fed at the high rate, at least the debounce time after the last marker; it names the open segment and the frame's number, and no marker of any day is changed or removed |
| Writer.TotalsExactly | src/storage.c:353-362 | in every run the open row's total becomes the frame count exactly when a frame is fed at another rate than the high one or as a multiple of the ratio; a rollover stores the old segment's and adds one row, and no other total changes |
| Writer.RecordedDayHasRow | src/storage.c:262-271 | in every state of every run the recorded day has its row, a missing one appearing as ACTIVE with count 0 and an existing one kept; a marker puts the open segment's motion count into it, and no other row changes |
| Writer.CalendarExactly | src/storage.c:312-321 | the writer records under the date it read last, in every state of a run, if and only if no two readings in succession have one day of the year and different dates |
| Writer.IngestFeeds | src/storage.c:328-338 | a frame fed is the one taken, with its bytes and flag, at the end of the open instance, its time cut to milliseconds |
| Writer.ClosedSegmentShares | src/storage.c:262-267 | closing stores the frame count, and every marker's share lies in (0, 1] |
| Writer.RunClosesSegments | src/storage.c:262-267 | in every run all segments opened and closed so far keep that |
| Writer.BootIsConsistent | src/storage.c:217-260 | the start establishes the invariants on any well-formed databases |
| Writer.BootAddsRow | src/storage.c:217-260 | the start adds one segment row under today's date and keeps all rows and markers it finds |
| Writer.IngestAgrees | src/storage.c:312-338 | the writer feeds its HLS instances exactly as the gate of module Pipeline |
| Writer.Writer.OpenTodaysSegment | src/storage.c:217-260 | a new segment row, fresh counters, a gate that waits |
| Writer.Writer.EnsureTodaysRow | src/storage_db.c:94-106 | today's row appears if missing, and an existing one keeps its state |
| Writer.Writer.UpdateTotalFrames | src/storage_db.c:241-252 | only the open segment's total changes, to the frame count |
| Writer.Writer.RecordMotion | src/storage.c:346-352 | one marker row for the current frame, the count beside it in the day's row, and the debounce time |
| Writer.Writer.CountFrame | src/storage.c:341-362 | marker and total exactly as the frame rate and the debounce time ask |
| Writer.Writer.RolloverDay | src/storage.c:262-271 | the old total is stored before the new day opens and gets its row |
| Writer.Writer.IngestFrame | src/storage.c:312-362 | one frame is exactly the modelled step |
| Writer.Writer.Drain | src/storage.c:404-413 | the writer's loop and the close after it |
| Retention.CleanupProgress | src/storage.c:276-307 | a due low-space cleanup with another day on the card deletes at least one, never today's, when no PENDING day's directory is stuck and, with none PENDING, neither is the oldest day's |
| Retention.ProgressExactly | src/storage.c:276-307 | whatever directories are stuck, every such cleanup makes progress, whichever days the queries give, if and only if that guard holds |
| Retention.CleanupDeletesOldest | src/storage_db.c:128-151 | without a backlog it deletes exactly the earliest other day and leaves nothing PENDING, unless that day's directory is stuck; then it only becomes PENDING |
| Retention.BacklogNeverGrows | src/storage_db.c:277-325 | when removals succeed, a due cleanup leaves one PENDING day fewer, or none |
| Retention.BacklogGrowsExactly | src/storage_db.c:277-325 | whatever directories are stuck, no due cleanup adds to the backlog if and only if space is not low, no day can be scheduled, or the guard holds |
| Retention.CleanupsEmptyTheCard | src/storage.c:276-307 | n low-space cleanups that find the guard satisfied, with any others that fail and any writes of today's row between them, leave at most the other days minus n, down to none |
| Retention.MetaDb.OldestCandidate | src/storage_db.c:128-151 | the earliest ACTIVE day other than today, if there is one |
| Retention.MetaDb.Schedule | src/storage_db.c:261-275 | an ACTIVE day becomes PENDING, any other row stays |
| Retention.MetaDb.ProcessTasks | src/storage_db.c:277-325 | up to the budget, distinct PENDING days are removed, and it stops early only with none left or one failing |
| Retention.CleanupTakesOnlyDueDays | src/storage.c:276-307 | whatever removals fail, only PENDING days or the one just scheduled go, none whose removal failed, and today's row stays |
| Retention.MetaDb.CheckAndCleanup | src/storage.c:276-307 | the code performs the modelled cleanup, whichever directories cannot be removed |
| Lifecycle.RunKeepsTouched | src/storage_db.c:261-325 | in every run with crashes and any clock, rows move only ACTIVE to PENDING to gone, and a directory removal touched is never an ACTIVE day's |
| Lifecycle.RecordedDayStays | src/storage_db.c:94-106 | in every run, a day that has been given its row keeps one until its directory has been removed |
| Lifecycle.RecordedCountStays | src/storage_db.c:108-126 | and its row holds the motion count recorded last |
| Lifecycle.WorkFollows | src/storage.c:404-413 | a day is recorded exactly since its opening until a crash, a removal under way exactly since its start until it ends, is given up or a crash |
| Lifecycle.SubdirsExactly | src/storage.c:78-95 | a segment directory appears only by an opening, numbered by the count of those there, and goes only when its day's removal takes it |
| Lifecycle.CleanupIsARun | src/storage.c:276-307 | every cleanup of module Retention is a run of these steps, and only the directories of the days it removed are gone |
| Lifecycle.DaySafeExactly | src/storage.c:217-228 | in every run with crashes and any clock, the day being recorded is never PENDING, never removed from and its directory is there, if and only if no day is opened while its row is PENDING |
| Lifecycle.RecordedDayIsSafe | src/storage.c:276-307 | so the recorded day is safe throughout when dates never go back |
| Lifecycle.NoPathTwiceExactly | src/storage.c:148-164 | in every run with crashes and any clock, no segment path is ever written twice if and only if every session's first segment goes into a directory that none has been written into |
| Lifecycle.NoPathWrittenTwice | src/storage.c:224-228 | so across restarts no segment path is written twice when dates never go back, because each opening takes a fresh directory index |
| Lifecycle.RunKeepsFromZero | src/storage.c:148-164 | in every run the segments written in any one directory are numbered from 0 without gaps |
| Lifecycle.NextIndexIsFresh | src/storage.c:78-95 | counting the subdirectories gives an unused number |
| Lifecycle.ClockBackLosesToday | src/storage_db.c:94-106 | with a clock that goes back, a run in which the directory being recorded into is removed |
| Lifecycle.ClockBackRepeatsPath | src/storage.c:78-95 | with a clock that goes back to a day already deleted, a run that opens no PENDING day and still writes a path twice |
| Recording.FeedsAreOrdered | src/storage.c:335-338 | what reaches the cutter never goes back in time |
| Recording.InputIsFed | src/storage.c:335-338 | the inputs of these theorems are those the writer feeds, under the frame's time in milliseconds |
| Recording.SegmentsStartWithKeyframes | src/storage.c:323-338 | from the sensor to the cutter, whatever the handler answers: each instance starts with a keyframe, each further segment with one or after a full segment, and the cutter sees no rewind |
| Recording.SegmentsAreGopPrefixes | src/storage.c:186-197 | with dense keyframes and a succeeding handler each segment is exactly the prefix of one GOP, unless the one before was cut by size |
| Recording.AcceptedChainExactly | 3rdparty/media-server-local/hls-media.c:177-183 | whatever the handler answers, without orphans: each accepted frame of an instance is a keyframe or directly follows the one accepted before it, if and only if directly behind a frame whose cut failed comes another such frame or a keyframe |
| Recording.ResumedSegmentsAreGopPrefixes | 3rdparty/media-server-local/hls-media.c:177-200 | and then each segment of accepted frames is the prefix of one GOP, unless the one before was cut by size |
| Recording.CardHoldsPieces | src/storage.c:199-206 | from the sensor to the card, without I/O errors: what a crash leaves listed are the instance's segments in order, none of the finished calls missing, and once it is closed there was a call for every piece |
| Recording.CardHoldsGopPrefixes | src/storage.c:162-184 | with dense keyframes, whatever writes fail as long as each handler call before the last one listed returned 0: each segment file listed after any crash holds the prefix of one GOP, unless the one before was cut by size |
| Recording.MarkerShare | agent/static/js/playback.js:358-380 | with such gaps and an encoder that gives back every kept frame: in an instance that lost no frame inside, wherever in a mode run it opened, frame x of all plays at its share of the time within the slack |
| Framing.TruncatedDecodes | agent/internal/stream/receiver.go:51-68 | a stream cut anywhere decodes to exactly the frames that arrived whole |
| Framing.RoundTrip | src/media.c:106-119 | decoding what was sent gives back the frames if and only if each has 1 to 8 MiB |
| Framing.BadSizeStops | agent/internal/stream/receiver.go:56-62 | behind a frame that is empty or over 8 MiB nothing is published, whatever was sent |
| Framing.HeaderIsBigEndian | src/media.c:106-110 | the length's most significant byte goes first |
| Framing.Sender.Push | src/media.c:91-120 | each connection carries whole frames only; busy or broken sockets skip the frame, a broken one ends the connection, and without a client nothing changes |
| Framing.Reader.ReadFull | agent/internal/stream/receiver.go:54-65 | n bytes across any chunks, or nothing when the stream ends first |
| Framing.Reader.ReadFrames | agent/internal/stream/receiver.go:38-69 | whatever the chunking, it publishes what the bytes decode to |
| Broker.RunIsFaithful | agent/internal/stream/broker.go:23-57 | under every interleaving what a client received and then what waits are frames published while it was subscribed, in order, and only skipped ones are missing |
| Broker.ChannelIsFifo | agent/internal/stream/broker.go:23-57 | in every run, what a client received is what its own receives took from the head of its channel, what was drained what Unsubscribe's loop took, and these and what waits are, in order, exactly the frames whose visit found a free slot |
| Broker.UnsubscribeReturns | agent/internal/stream/broker.go:31-42 | whatever is published meanwhile, the loop of Unsubscribe ends at the turn after the last frame that waited |
| Broker.SkipsExactlyWhenFull | agent/internal/stream/broker.go:51-56 | in every run a frame is missing from what a channel accepted if and only if its publication found all 4 slots full |
| Broker.GoneIsGone | agent/internal/stream/broker.go:31-42 | after Unsubscribe returns the channel is empty and never changes |
| Broker.PublishNeverWaits | agent/internal/stream/broker.go:49-56 | in every run, whatever clients receive and drain meanwhile, a publication visits each client at most once, can always visit the remaining ones, and can be released exactly after as many visits as there are clients |
| Broker.Broker.Subscribe | agent/internal/stream/broker.go:23-29 | a fresh channel |
| Broker.Broker.Unsubscribe | agent/internal/stream/broker.go:31-42 | the drain loop empties exactly that channel |
| Broker.Broker.Publish | agent/internal/stream/broker.go:44-57 | each subscribed channel is offered the frame once, which goes to the end of its buffer if a slot is free; the others are untouched |

## Left out

- HlsMediaBuffer.HlsMedia.Input: the muxer is a parameter, the packets it appends through alloc and write; its own formatting is not part of this model, and in a build with assertions that the continuity assertion holds is a precondition.
- Retention.MetaDb.ProcessTasks: SQL statements always succeed; failing row updates are covered by Lifecycle's GiveUpRemoval step.
- Recording.MarkerShare: compares synthesized times; the player's duration is the sum of segment durations, whose rounding to milliseconds and gaps over 100 ms are in HlsMedia.DurationsTelescope.
- Lifecycle.NoPathWrittenTwice: directory creation and the removal of entries are durable at once, and the numbering found at the start has no gaps, as earlier runs leave it.
- Publisher.CrashSafeExactly: the playlist's text is the number of entries it lists; the 2 MiB limit of its buffer is not modelled.
- Framing.Sender.Push: a send transfers its whole message or nothing; the code ignores the count that sendmsg returns.
- Retimer.H264Thread: times are unbounded integers, so 64-bit wrap-around after 292000 years is not modelled; the capture of frames and the release of buffers are not part of this model.
- Writer.Writer.IngestFrame: rollover always succeeds, and the cleanup at the end of ingest_frame is in Retention; counters are unbounded integers.
- The discontinuity flag that hls_cb computes for the playlist, whose constant HLS_DURATION is not part of this model.
- Whether VideoMetadata.motion_count means anything over a whole day: it restarts at 0 on each opening.
- The Rockchip pipeline, the on-screen display, motion detection itself, SQLite, configuration parsing and the playlist library.
- The agent's HTTP handlers, status and calendar endpoints, the web pages, and the build and deploy scripts.
