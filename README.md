# VideoScrap tracker core in Dafny

VideoScrap watches a video, segments moving blobs with OpenCV and follows
them from frame to frame. This project models the part of it that does not
depend on OpenCV or the GUI: the frame-by-frame object trackers that turn
per-frame detections (a bounding box plus its contour area) into a registry
of identified objects, the table and log built from the tracker's
snapshots, the name of the export file, and the bounded frame queue
between the reader and processor threads of the earlier variant.

There are two tracker variants, and they follow different rules:

- **Var3.py** (module `TrackerV3`, class `Tracker`): ids start at `ID_0`.
  Position, velocity and last-seen time change only when the object
  moved. An object becomes visible once it is 1.0 s old. Every 5th frame
  the whole registry goes to the table. Objects whose last move is more
  than 1.0 s ago are deleted: `last_seen` is written only when the object
  moved, so an object detected again at the same position ages as well.
- **VAR1.py** (module `TrackerV1`, class `Processor`): ids start at
  `ID_1`. Every match refreshes position and time. Velocity is distance
  over elapsed time, guarded against zero. An `updated` flag marks moves
  of more than one pixel. Only objects missing from the frame are deleted,
  after 5 s.

Around the trackers:

- `Aggregation` (class `Aggregator`) models `update_table`: displacement,
  the running average velocity, the zero-average filter, the row upsert
  and the append-only export log.
- `Export` models the export file name and the decision of
  `save_data_to_json`.
- `FrameQueue` models the capacity-20 queue whose producer drops a frame
  when the queue is full.
- `Geometry` holds the shared pieces: the box centroid with Python's floor
  division, the Euclidean distance, and the greedy first-match scan.
- `Ids` holds the `ID_n` labels.

The loops of the source are methods: the frame loop of `play_video`
(`Tracker.Play`), its detection and deletion loops, the processor loop of
VAR1.py, `update_table`'s loop and scan, the reader's loop. Each loop
method of the trackers and the aggregator is proved equal to a pure
specification function (`Run`, `Frame`, `TableAfter`, `Evict`, …); the
queue's methods and the reader's loop state their results in closed form,
and the properties of the source are proved as lemmas about those
functions. Python's `math.sqrt` and `** 0.5` are the parameter `sqrt`,
characterised by `Geometry.IsSqrt`. The match test `distance < 50` is
decided exactly on integers as squared distance below 2500. Floats are
exact reals. The clock and the video's frame rate are inputs.

The code behaves as follows, which a reader might not expect, and the
model does the same:

- The snapshot sent to the table is the whole registry, pending objects
  included, not only the visible ones. `update_table` shows every object
  with a non-zero average velocity, whether or not it is visible.
- Promotion to visible looks only at the time since creation, not at
  continuous presence.
- The value logged as `average_velocity_mm_s` is in pixels per second.
- The `size_mm` column of the table is `w * h * 0.1`. It is not part of
  the log records.

## Model

| member | source | states |
|---|---|---|
| Geometry.Centroid | Var3.py:430 | the centroid is `x + w // 2, y + h // 2` with floor division: `2 * (cx - x) <= w < 2 * (cx - x) + 2`, and likewise for y |
| Geometry.CalculateDistance | VAR1.py:9-11 | with a true square root the distance is non-negative and its square is the squared Euclidean distance |
| Geometry.SqDist | Var3.py:435 | the squared distance is 0 exactly when the points coincide |
| Geometry.Near | Var3.py:435 | a point is near itself, and a near point differs by less than 50 px in each coordinate |
| Geometry.DistanceSymmetric | VAR1.py:9-11 | `calculate_distance` is symmetric in its two points |
| Geometry.DistanceZeroIff | VAR1.py:9-11 | the distance is 0 exactly when the two points coincide |
| Geometry.DistanceBelowIff | VAR1.py:69 | `distance < t` holds exactly when the squared distance is below `t * t` |
| Geometry.DistanceAboveIff | VAR1.py:94 | `distance > t` holds exactly when the squared distance is above `t * t` |
| Geometry.NearIffDistanceBelowRadius | Var3.py:435 | the exact integer test `Near` agrees with the source's `sqrt(...) < 50` |
| Geometry.FirstMatch | Var3.py:432-437 | the result is the first registry position whose centroid is within 50 px, and None exactly when no entry is |
| Geometry.BoundaryDoesNotMatch | Var3.py:432-437 | in any registry, an entry exactly 50 px away is never the match, and a registry whose entries are all at least 50 px away matches nothing |
| Geometry.FindMatch | Var3.py:433-437 | the scan with `break` returns exactly `FirstMatch` |
| Ids.IdLabel | Var3.py:441 | the label is `ID_` followed by decimal digits |
| Ids.DecimalRoundTrip | Var3.py:441 | reading back the decimal rendering of `n` gives `n` |
| Ids.IdLabelInjective | VAR1.py:75 | two ids have the same `ID_n` label exactly when they are equal |
| TrackerV3.EffectiveFps | Var3.py:388-390 | the frame rate used is the video's when positive and 30 otherwise, and is always positive |
| TrackerV3.Observe | Var3.py:425-468 | a contour of area at most 1000 changes nothing; the id counter never decreases |
| TrackerV3.Refresh | Var3.py:454-468 | size and start time are kept; `visible` is never reset and is set only once the record is 1.0 s old; either position, velocity, last-seen time and total all stay, or the sample count grows by one, position and last-seen time become the detection's, and the positive velocity is added to the total |
| TrackerV3.ObserveAll | Var3.py:425-474 | over a frame's detections the id counter never decreases and `frame_count` is not touched |
| TrackerV3.RefreshGate | Var3.py:454-468 | with a positive frame rate, a same-position re-detection changes no velocity, last-seen time or accumulator, and a move sets the velocity to `distance * fps` (pixels per second), updates position and last-seen time, and adds exactly that positive sample; size and start time never change; the record is visible afterwards exactly when it was before or is at least 1.0 s old |
| TrackerV3.RefreshKeepsAccumulating | Var3.py:457-464 | the accumulators stay consistent: no samples exactly when the total is 0 |
| TrackerV3.RefreshSucceeds | Var3.py:454-468 | an update keeps the start time, never resets `visible`, and sets it only after the 1.0 s debounce |
| TrackerV3.NewRecordUnchanged | Var3.py:439-464 | a new entry is not moved or promoted by its own detection |
| TrackerV3.ObserveUnmatched | Var3.py:439-451 | an unmatched detection appends entry `counter + 1` at the centroid, with the box's size, zero accumulators, not visible and `start_time = last_seen = now`; its id is larger than every existing id |
| TrackerV3.FirstIdIsZero | Var3.py:439-441 | with the counter starting at -1 the first object is `ID_0` |
| TrackerV3.ObserveMatched | Var3.py:432-468 | a matched detection changes only the first matching entry's record, by `Refresh`; the counter and every other entry stay |
| TrackerV3.ObserveKeepsIds | Var3.py:439-451 | a detection deletes no id, and every id afterwards is old or newly drawn from the counter |
| TrackerV3.ObservePreservesWellFormed | Var3.py:425-468 | ids stay strictly increasing and bounded by the counter, and the accumulators stay consistent |
| TrackerV3.ObserveAdvances | Var3.py:466-468 | across a detection every entry keeps its start time, never loses `visible`, and gains it only after the debounce |
| TrackerV3.ObserveAllPreservesWellFormed | Var3.py:425-474 | the registry invariant holds after all detections of a frame |
| TrackerV3.ObserveAllKeepsIds | Var3.py:425-474 | after the detection loop every earlier id is present, and every id is old or new from this frame |
| TrackerV3.ObserveAllAdvances | Var3.py:425-474 | across the detection loop visibility is monotone and debounced |
| TrackerV3.ObserveAllNewPending | Var3.py:439-451 | entries created in the frame start at `now` and are not visible |
| TrackerV3.Evict | Var3.py:479-481 | an entry survives exactly when it was in the registry and `now - last_seen > 1.0` does not hold |
| TrackerV3.EvictKeepsOrder | Var3.py:479-481 | eviction keeps ids strictly increasing |
| TrackerV3.EvictPreservesWellFormed | Var3.py:479-481 | eviction keeps the registry invariant |
| TrackerV3.Frame | Var3.py:476-495 | a snapshot is produced exactly when `frame_count % 5 == 0`, and then the new registry is that snapshot with the stale entries removed; the counter never decreases and `frame_count` grows by 1 |
| TrackerV3.FrameOrder | Var3.py:425-481 | the snapshot is the registry after all the frame's detections and before eviction; on every frame the new registry is exactly the observed entries that are not stale, in order; an entry that went stale this frame is in the snapshot but not in the registry |
| TrackerV3.Run | Var3.py:409-495 | over a video the id counter never decreases and `frame_count` grows by the number of frames |
| TrackerV3.StrideFramesCount | Var3.py:476 | the number of frame numbers in `[a, a + n)` divisible by 5 is `ceil((a + n) / 5) - ceil(a / 5)` |
| TrackerV3.Snapshots | Var3.py:476-477 | a run queues one snapshot per frame whose number is a multiple of 5 |
| TrackerV3.SnapshotsOfVideo | Var3.py:408-477 | a video of `n` frames played from frame 0 queues `ceil(n / 5)` snapshots |
| TrackerV3.FramePreservesWellFormed | Var3.py:420-495 | a whole frame keeps the registry invariant |
| TrackerV3.FrameIdsOrigin | Var3.py:439-441 | after a frame every id is old or newly drawn from the counter |
| TrackerV3.FrameVisibility | Var3.py:466-468 | across a frame `visible` is never reset and is set only after the debounce; objects created in the frame are pending |
| TrackerV3.EvictedIdNeverReturns | Var3.py:439-441 | an id that was used and then deleted never reappears in any later frame |
| TrackerV3.StationaryObjectEvicted | Var3.py:457-481 | in any well-formed registry, an object that is the match of a detection at its own position and was last seen more than 1.0 s ago has its id deleted by the frame although it is present |
| TrackerV3.KeepFresh | Var3.py:479-481 | the deletion loop computes `Evict` |
| TrackerV3.Tracker.constructor | Var3.py:388-408 | an empty registry, counter -1, frame 0, and the effective frame rate |
| TrackerV3.Tracker.UpdateRecord | Var3.py:454-468 | the record update is `Refresh` |
| TrackerV3.Tracker.ObserveDetection | Var3.py:426-468 | one iteration of the contour loop changes the registry and counter as `Observe` says |
| TrackerV3.Tracker.EvictStale | Var3.py:479-481 | the deletion loop leaves `Evict` of the registry and keeps the invariant |
| TrackerV3.Tracker.FinishFrame | Var3.py:476-495 | after the detections: the whole registry as snapshot exactly on every 5th frame, then `Evict`, then `frame_count += 1` |
| TrackerV3.Tracker.Play | Var3.py:401-495 | the frame loop leaves exactly the state of `Run` and returns exactly the snapshots of `Snapshots`, in order, keeping the invariant |
| TrackerV3.Tracker.ProcessFrame | Var3.py:409-495 | one iteration of the play loop yields exactly the state and snapshot of `Frame` and keeps the invariant |
| Aggregation.AverageVelocity | Var3.py:321 | the average is 0 without samples, and otherwise times the count gives the total |
| Aggregation.AverageZeroIff | Var3.py:321-324 | for consistent accumulators the average is 0 exactly when there are no samples, and it is never negative |
| Aggregation.SnapshotDistinct | Var3.py:477 | a snapshot of a well-formed registry lists every id once |
| Aggregation.FirstRow | Var3.py:327-328 | the result is the first table row with the id, and None exactly when no row has it |
| Aggregation.PrevCoordsAdvanced | Var3.py:317-319 | `prev_coords` ends as the current coordinates of every object of the snapshot, skipped ones included, and is unchanged for other ids |
| Aggregation.FirstSightingDisplacement | Var3.py:317-318 | an object seen for the first time has displacement 0 |
| Aggregation.Displacement | Var3.py:317-318 | with a true square root the displacement is non-negative, and 0 for an id without previous coordinates |
| Aggregation.RowFor | Var3.py:313-341 | the row carries the object's id, the frame number and the size; with a true square root the displacement is non-negative, and for consistent accumulators so is the average velocity |
| Aggregation.LogFor | Var3.py:343-350 | the log record carries the row's frame, position, displacement and average velocity |
| Aggregation.ApplyObject | Var3.py:313-350 | `prev_coords` gets the object's coordinates; an unshown object changes neither table nor log; a shown one keeps the table length when its id was present, else appends its row, and appends one log record to its own list only |
| Aggregation.TableAfter | Var3.py:308-351 | `prev_coords` gains exactly the snapshot's ids; the table grows by at most one row per object and never shrinks; no log list is removed |
| Aggregation.SkippedTouchesNothing | Var3.py:319-324 | an object with average 0 changes only its `prev_coords` |
| Aggregation.TableUpdated | Var3.py:326-342 | rows keep their places and ids; rows of unshown objects are unchanged; new rows are only appended, and only for shown objects not yet in the table; every shown object's new row is in the table; ids stay unique |
| Aggregation.ShownRowIsNew | Var3.py:326-342 | the row of a shown object holds that object's new values |
| Aggregation.LogAppended | Var3.py:343-351 | each shown object gets exactly one record appended to its log; all other logs are untouched, and none is created |
| Aggregation.UpdateTableContract | Var3.py:308-351 | the whole effect of one `update_table` call on table, `prev_coords` and log |
| Aggregation.Aggregator.constructor | Var3.py:370-374 | an empty table, log and `prev_coords` |
| Aggregation.Aggregator.FindRow | Var3.py:327-335 | the row scan with `break` returns `FirstRow` |
| Aggregation.Aggregator.ApplyOne | Var3.py:313-351 | one object of the loop changes the state as `ApplyObject` says |
| Aggregation.Aggregator.UpdateTable | Var3.py:308-351 | the loop leaves exactly `TableAfter`, with the existing ids taken at the start |
| Export.LastIndex | Var3.py:287 | the position of the last occurrence of a character, and None exactly when it is absent |
| Export.AfterLast | Var3.py:287 | `split(c)[-1]` is the longest suffix without `c`, preceded by `c` when shorter than the text |
| Export.BeforeLast | Var3.py:287 | `rsplit(c, 1)[0]` is the whole text without `c`, and otherwise the prefix before the last `c` |
| Export.VideoName | Var3.py:287 | the video name holds no `/` and no `\` |
| Export.AfterLastOfJoin | Var3.py:287 | after a prefix ending in `c`, `split(c)[-1]` returns the `c`-free segment |
| Export.BeforeLastOfJoin | Var3.py:287 | `rsplit(c, 1)[0]` of `name + c + ext` with `c`-free `ext` returns `name` |
| Export.VideoNameOfPath | Var3.py:287 | for `dir/name.ext` the video name is `name`, even when `name` holds dots |
| Export.VideoNameWithoutExtension | Var3.py:287 | without a dot the last segment is the video name |
| Export.ExportFilename | Var3.py:289 | the file name is the video name, then `_`, then exactly the timestamp, then `.json`, and nothing else |
| Export.FilenameHasNoSeparator | Var3.py:287-289 | with a separator-free timestamp the export file name holds no separator |
| Export.SaveDataToJson | Var3.py:277-289 | nothing is saved exactly when there are no data or no path; no data is reported first; otherwise the whole log goes to the export file |
| TrackerV1.Observe | VAR1.py:60-101 | a contour of area at most 1000 changes nothing; the counter and `current_ids` only grow |
| TrackerV1.ObserveAll | VAR1.py:60-101 | over a frame's detections the counter and `current_ids` only grow |
| TrackerV1.MeasureFacts | VAR1.py:85-101 | every match sets coords and time, even at distance 0; the distance is Euclidean; the velocity is `distance / elapsed`, or 0 when `elapsed <= 0`; `updated` is exactly a move of more than 1 px |
| TrackerV1.Measure | VAR1.py:85-101 | coords and time are always the detection's; the velocity is non-zero only when time advanced; `updated` implies a distance above 1; with a true square root distance and velocity are non-negative |
| TrackerV1.NewEntryNotUpdated | VAR1.py:73-101 | a new entry's `updated: True` is overwritten: distance 0, velocity 0, not updated |
| TrackerV1.ObserveUnmatched | VAR1.py:73-84 | an unmatched detection appends entry `counter + 1`, adds its id to `current_ids`, and the id is larger than every existing one |
| TrackerV1.ObserveMatched | VAR1.py:66-101 | a detection whose first near entry is `k` rewrites only that entry, by `Measure`, adds its id to `current_ids` and keeps the counter; every other entry stays |
| TrackerV1.ObserveMarksCurrent | VAR1.py:73-84 | the matched or created id is added to `current_ids` and belongs to an entry now at the centroid and stamped `now` |
| TrackerV1.FirstIdIsOne | VAR1.py:73-75 | with the counter starting at 0 the first object is `ID_1` |
| TrackerV1.ObservePreservesInvariant | VAR1.py:60-101 | ids stay increasing and bounded by the counter, and every id in `current_ids` is an entry stamped `now` |
| TrackerV1.ObserveAllPreservesInvariant | VAR1.py:60-101 | the same after all detections of a frame |
| TrackerV1.ObservePreservesWellFormed | VAR1.py:60-84 | a detection keeps ids increasing and bounded by the counter |
| TrackerV1.ObserveAllPreservesWellFormed | VAR1.py:60-84 | the same after all detections of a frame |
| TrackerV1.Evict | VAR1.py:107-113 | an entry survives exactly when it was in the registry and is not both absent from `current_ids` and older than 5 s |
| TrackerV1.EvictKeepsOrder | VAR1.py:107-113 | eviction keeps ids strictly increasing |
| TrackerV1.EvictPreservesWellFormed | VAR1.py:107-113 | eviction keeps the registry invariant |
| TrackerV1.Reported | VAR1.py:116-118 | an entry is printed exactly when it is in the registry with `updated` set |
| TrackerV1.Frame | VAR1.py:58-122 | the printed entries are surviving entries with `updated` set; `frame_count` grows by 1 |
| TrackerV1.Run | VAR1.py:44-122 | over a sequence of frames the counter never decreases and `frame_count` grows by the number of frames |
| TrackerV1.FramePreservesWellFormed | VAR1.py:58-122 | a whole frame keeps the registry invariant |
| TrackerV1.FrameEviction | VAR1.py:107-113 | a frame keeps exactly the entries that were seen or are at most 5 s old, and every entry matched or created in the frame survives it, stamped `now` |
| TrackerV1.KeepPresent | VAR1.py:107-113 | the deletion loop computes `Evict` |
| TrackerV1.ReportUpdated | VAR1.py:116-118 | the print loop computes `Reported` |
| TrackerV1.Processor.constructor | VAR1.py:40-42 | an empty registry, counter 0 and frame 0 |
| TrackerV1.Processor.UpdateRecord | VAR1.py:85-101 | the record update is `Measure` |
| TrackerV1.Processor.ObserveDetection | VAR1.py:60-101 | one iteration of the contour loop changes the registry, counter and `current_ids` as `Observe` says |
| TrackerV1.Processor.EvictMissing | VAR1.py:107-113 | the deletion loop leaves `Evict` of the registry and keeps the invariant |
| TrackerV1.Processor.FinishFrame | VAR1.py:106-122 | deletion, then the printed entries, then `frame_count += 1` |
| TrackerV1.Processor.ProcessFrame | VAR1.py:44-122 | one iteration of the processor loop yields exactly the state and printed entries of `Frame` and keeps the invariant |
| TrackerV1.Processor.Drain | VAR1.py:44-48 | taking frames until the queue is empty processes every queued frame, in order, and leaves the queue empty |
| FrameQueue.Step | VAR1.py:29-32 | a push on a full queue drops the frame, otherwise appends it; a take removes the front frame |
| FrameQueue.ReplayFifo | VAR1.py:29-32 | under any interleaving of pushes and takes the queue never exceeds its capacity, and the frames taken followed by the frames queued are exactly the accepted pushes, in order |
| FrameQueue.Replay | VAR1.py:29-48 | under any interleaving of pushes and takes the queue never holds more than its capacity |
| FrameQueue.PushDropsWhenFull | VAR1.py:29-32 | a push leaves the queue unchanged exactly when it is full |
| FrameQueue.NewFrameQueue | VAR1.py:134 | the pipeline's queue is empty with capacity 20 |
| FrameQueue.BoundedQueue.constructor | VAR1.py:134 | an empty queue with the given capacity (20 in the pipeline) |
| FrameQueue.BoundedQueue.IsEmpty | VAR1.py:44 | `frame_queue.empty()` |
| FrameQueue.BoundedQueue.Put | VAR1.py:29-32 | a push is accepted exactly when there is room, and then appends the frame |
| FrameQueue.BoundedQueue.Get | VAR1.py:45-48 | a take returns and removes the front frame, or nothing from an empty queue |
| FrameQueue.VideoReader | VAR1.py:22-32 | with no taker, the frames that fit are queued in order and every later frame is dropped |

## Left out

- OpenCV segmentation is not modelled: background subtraction, threshold, blur, morphology, `findContours`, `contourArea` and `boundingRect`. Boxes and contour areas are inputs.
- Drawing, `imshow` and the `q` key are not modelled.
- Tkinter widgets, plotting, settings files and frame pacing with `sleep` are not modelled.
- Threads, `stop_event` and the `data_queue` worker are not modelled. The two queue threads appear only as an interleaving of events in `FrameQueue.Replay`.
- `update_table` runs later on the UI thread, and `object_data.copy()` is shallow. In the source, the table can see records that later frames have already changed. The model hands the snapshot over as a value.
- `prev_coords` lives inside the dicts the tracker shares with the table. The model keeps it in a separate map keyed by id. This agrees with the source because ids are never reused (`TrackerV3.EvictedIdNeverReturns`).
- `round(…, 3)`, float rounding and the pixel-to-mm scaling are exact real arithmetic. `math.sqrt` and `** 0.5` are the parameter `sqrt`.
- The clock is an input: one `now` per frame. VAR1.py reads `time.time()` several times per detection. The model uses one reading per frame, so its elapsed times and eviction ages are those of a single clock.
- The timestamp of the export file is an input string, not `datetime.now().strftime(…)`.
- The JSON write and its error dialog are not modelled. `Export.SaveDataToJson` returns what would be written, and where.
- The video source failing to open or to read is not modelled.
- `FrameQueue.BoundedQueue.Put`: drops at once when full. The source first waits up to 1 s, and a frame the consumer takes during that wait lets the push through. In `Replay` that is a take ordered before the push.
- `FrameQueue.BoundedQueue.Get`: returns None at once on an empty queue instead of after a 1 s wait.
- `TrackerV1.Processor.Drain`: models only the consumer's phase after the stop flag is set. Before that, frames arrive interleaved with processing, which `FrameQueue.ReplayFifo` covers.
- `FrameQueue.VideoReader`: models the reader with no taker at all, the backpressure case. Interleaved takes are covered by `FrameQueue.ReplayFifo`.
- Behaviour the model reproduces as written:
  - A Var3 object that stands still is deleted after 1.0 s even while it is detected, because `last_seen` moves only with motion (`TrackerV3.StationaryObjectEvicted`). It comes back under a new id.
  - `size_mm` is set once and never updated.
