/**
 * The per-frame object tracker of Var3.py (the body of the `play_video`
 * loop). The registry `object_data` is an insertion-ordered dictionary from
 * `ID_n` to a record; here it is a sequence of entries in insertion order,
 * keyed by the number `n` (see module Ids for the label). Each frame takes
 * the detections of the segmenter, one clock reading `now` and the video's
 * frame rate, and
 *   1. ignores contours of area at most 1000,
 *   2. matches each detection to the first entry within 50 pixels or
 *      creates a fresh pending entry,
 *   3. updates position, last-seen time and the velocity accumulators of
 *      the matched entry only when it moved,
 *   4. promotes the entry to visible once it is at least 1.0 s old,
 *   5. hands a copy of the whole registry to the table every 5th frame,
 *   6. deletes the entries whose last move is more than 1.0 s ago (the
 *      last-seen time is only written when the entry moved).
 * `Frame` is the specification of one frame and `Run` of a whole video;
 * `Tracker.ProcessFrame` (the loop over the detections) and `Tracker.Play`
 * (the loop over the frames) are the imperative code, proved equal to them.
 */
module TrackerV3 {
  import opened Wrappers
  import opened Geometry

  /** Hard-coded in `play_video`; the settings keys of the same names are not consulted. */
  const MaxDisappearTime: real := 1.0
  const MinVisibleTime: real := 1.0
  /** A snapshot is queued when `frame_count % 5 == 0`. */
  const SnapshotStride: nat := 5
  /** Frame rate used when the video reports none. */
  const DefaultFps: real := 30.0
  const PixelToMm: real := 0.1

  datatype Record = Record(
    coords: Point,
    sizeMm: real,
    velocity: real,
    totalVelocity: real,
    velocityCount: nat,
    startTime: real,
    lastSeen: real,
    visible: bool)

  datatype Entry = Entry(id: nat, rec: Record)

  /** The registry, the id counter (starting at -1) and the frame counter. */
  datatype State = State(entries: seq<Entry>, counter: int, frameCount: nat)

  /** The state after a frame and the snapshot put on the table queue, if any. */
  datatype FrameResult = FrameResult(state: State, snapshot: Option<seq<Entry>>)

  datatype FrameInput = FrameInput(boxes: seq<Box>, now: real)

  /** `fps = cap.get(CAP_PROP_FPS)`, replaced by 30 when it is not positive. */
  function EffectiveFps(fps: real): (r: real)
    ensures r > 0.0
    ensures fps > 0.0 ==> r == fps
    ensures fps <= 0.0 ==> r == DefaultFps
  {
    if fps <= 0.0 then DefaultFps else fps
  }

  /** The accumulators agree: no samples exactly when the total is zero. */
  predicate Accumulating(r: Record)
  {
    0.0 <= r.totalVelocity && (r.velocityCount == 0 <==> r.totalVelocity == 0.0)
  }

  /** Entry ids strictly increase along the sequence. */
  predicate Ascending(es: seq<Entry>)
  {
    forall i, j :: 0 <= i < j < |es| ==> es[i].id < es[j].id
  }

  /**
   * The registry invariant: ids strictly increase in insertion order, no id
   * exceeds the counter, and every record's accumulators agree.
   */
  predicate WellFormed(st: State)
  {
    && st.counter >= -1
    && Ascending(st.entries)
    && (forall i :: 0 <= i < |st.entries| ==> st.entries[i].id <= st.counter)
    && (forall i :: 0 <= i < |st.entries| ==> Accumulating(st.entries[i].rec))
  }

  function IdsOf(es: seq<Entry>): set<nat>
  {
    set e | e in es :: e.id
  }

  function CoordsOf(es: seq<Entry>): (cs: seq<Point>)
    ensures |cs| == |es|
    ensures forall i :: 0 <= i < |es| ==> cs[i] == es[i].rec.coords
  {
    seq(|es|, i requires 0 <= i < |es| => es[i].rec.coords)
  }

  /** `size_mm = (w * h) * pixel_to_mm`. */
  function SizeMm(b: Box): real
  {
    (b.w * b.h) as real * PixelToMm
  }

  /** The record of a detection that matched nothing. */
  function NewRecord(c: Point, sizeMm: real, now: real): Record
  {
    Record(c, sizeMm, 0.0, 0.0, 0, now, now, false)
  }

  /**
   * The update of a matched (or just created) record by a detection at `c`:
   * the gate `velocity > 0` on `distance * fps`, then the debounce.
   */
  function Refresh(r: Record, c: Point, now: real, fps: real, sqrt: real -> real): (r': Record)
    ensures r'.sizeMm == r.sizeMm && r'.startTime == r.startTime
    ensures (r.visible ==> r'.visible) && (r'.visible ==> r.visible || now - r.startTime >= MinVisibleTime)
    ensures r'.velocityCount == r.velocityCount ==>
      r'.coords == r.coords && r'.velocity == r.velocity && r'.lastSeen == r.lastSeen && r'.totalVelocity == r.totalVelocity
    ensures r'.velocityCount != r.velocityCount ==>
      && r'.velocityCount == r.velocityCount + 1 && r'.coords == c && r'.lastSeen == now
      && r'.velocity > 0.0 && r'.totalVelocity == r.totalVelocity + r'.velocity
  {
    var velocity := Distance(sqrt, r.coords, c) * fps;
    var moved :=
      if velocity > 0.0 then
        r.(coords := c, velocity := velocity, lastSeen := now,
           totalVelocity := r.totalVelocity + velocity, velocityCount := r.velocityCount + 1)
      else r;
    if !moved.visible && now - moved.startTime >= MinVisibleTime then moved.(visible := true) else moved
  }

  /** One detection of the `for contour in contours` loop. */
  function Observe(st: State, b: Box, now: real, fps: real, sqrt: real -> real): (r: State)
    requires st.counter >= -1
    ensures r.counter >= st.counter && r.frameCount == st.frameCount
    ensures !Considered(b) ==> r == st
  {
    if !Considered(b) then st
    else
      var c := Centroid(b);
      match FirstMatch(CoordsOf(st.entries), c)
      case Some(k) =>
        st.(entries := st.entries[k := Entry(st.entries[k].id, Refresh(st.entries[k].rec, c, now, fps, sqrt))])
      case None =>
        var id := st.counter + 1;
        st.(entries := st.entries + [Entry(id, Refresh(NewRecord(c, SizeMm(b), now), c, now, fps, sqrt))],
            counter := id)
  }

  /** The detections of one frame, in the segmenter's order. */
  function ObserveAll(st: State, bs: seq<Box>, now: real, fps: real, sqrt: real -> real): (r: State)
    requires st.counter >= -1
    ensures r.counter >= st.counter && r.frameCount == st.frameCount
    decreases |bs|
  {
    if bs == [] then st
    else Observe(ObserveAll(st, bs[..|bs| - 1], now, fps, sqrt), bs[|bs| - 1], now, fps, sqrt)
  }

  predicate Stale(e: Entry, now: real)
  {
    now - e.rec.lastSeen > MaxDisappearTime
  }

  /** The deletion loop: exactly the stale entries go, the rest keep their order. */
  function Evict(es: seq<Entry>, now: real): (r: seq<Entry>)
    ensures |r| <= |es|
    ensures forall e :: e in r <==> e in es && !Stale(e, now)
  {
    if es == [] then []
    else Evict(es[..|es| - 1], now) + (if Stale(es[|es| - 1], now) then [] else [es[|es| - 1]])
  }

  /**
   * One iteration of the frame loop: the detections, then the snapshot of
   * the whole registry on every 5th frame (counting from 0), then eviction,
   * then `frame_count += 1`.
   */
  function Frame(st: State, bs: seq<Box>, now: real, fps: real, sqrt: real -> real): (r: FrameResult)
    requires st.counter >= -1
    ensures r.state.counter >= st.counter
    ensures r.state.frameCount == st.frameCount + 1
    ensures r.snapshot.Some? <==> st.frameCount % SnapshotStride == 0
    ensures r.snapshot.Some? ==> r.state.entries == Evict(r.snapshot.value, now)
  {
    var observed := ObserveAll(st, bs, now, fps, sqrt);
    FrameResult(
      State(Evict(observed.entries, now), observed.counter, st.frameCount + 1),
      if st.frameCount % SnapshotStride == 0 then Some(observed.entries) else None)
  }

  /**
   * The snapshot is the registry after all of the frame's detections and
   * before eviction; eviction then runs on every frame, snapshot or not.
   * So an entry that went stale this frame is still in the snapshot but
   * no longer in the registry.
   */
  lemma FrameOrder(st: State, bs: seq<Box>, now: real, fps: real, sqrt: real -> real)
    requires st.counter >= -1
    ensures var obs := ObserveAll(st, bs, now, fps, sqrt); var r := Frame(st, bs, now, fps, sqrt);
      && r.state.counter == obs.counter
      && r.state.entries == Evict(obs.entries, now)
      && (forall e :: e in r.state.entries <==> e in obs.entries && !Stale(e, now))
      && (r.snapshot.Some? ==> r.snapshot.value == obs.entries)
      && (r.snapshot.Some? ==> forall e :: e in obs.entries && Stale(e, now) ==> e in r.snapshot.value && e !in r.state.entries)
  {
  }

  /** A whole video: the frames in order. */
  function Run(st: State, frames: seq<FrameInput>, fps: real, sqrt: real -> real): (r: State)
    requires st.counter >= -1
    ensures r.counter >= st.counter
    ensures r.frameCount == st.frameCount + |frames|
    decreases |frames|
  {
    if frames == [] then st
    else Run(Frame(st, frames[0].boxes, frames[0].now, fps, sqrt).state, frames[1..], fps, sqrt)
  }

  /** How many of the frame numbers `a, a + 1, ..., a + n - 1` are multiples of the stride. */
  function StrideFrames(a: nat, n: nat): nat
    decreases n
  {
    if n == 0 then 0
    else (if a % SnapshotStride == 0 then 1 else 0) + StrideFrames(a + 1, n - 1)
  }

  /** The multiples of 5 in `[a, a + n)`, counted in closed form. */
  lemma {:induction false} StrideFramesCount(a: nat, n: nat)
    ensures StrideFrames(a, n) == (a + n + 4) / 5 - (a + 4) / 5
    decreases n
  {
    if n > 0 {
      StrideFramesCount(a + 1, n - 1);
      assert (a + 5) / 5 - (a + 4) / 5 == if a % 5 == 0 then 1 else 0;
    }
  }

  /** The registry snapshots put on the table queue during a run, in frame order. */
  function Snapshots(st: State, frames: seq<FrameInput>, fps: real, sqrt: real -> real): (r: seq<seq<Entry>>)
    requires st.counter >= -1
    ensures |r| == StrideFrames(st.frameCount, |frames|)
    decreases |frames|
  {
    if frames == [] then []
    else
      var f := Frame(st, frames[0].boxes, frames[0].now, fps, sqrt);
      (if f.snapshot.Some? then [f.snapshot.value] else []) + Snapshots(f.state, frames[1..], fps, sqrt)
  }

  /** A run's first frame leads from `pre` to `post`; the rest of the run starts there. */
  lemma RunStep(pre: State, post: State, fs: seq<FrameInput>, fps: real, sqrt: real -> real)
    requires pre.counter >= -1 && fs != []
    requires post == Frame(pre, fs[0].boxes, fs[0].now, fps, sqrt).state
    ensures post.counter >= -1
    ensures Run(pre, fs, fps, sqrt) == Run(post, fs[1..], fps, sqrt)
  {
  }

  /** The same step for the snapshots: frame `i` appends its snapshot, if any. */
  lemma PlayStepSnapshots(st0: State, frames: seq<FrameInput>, i: nat, snaps: seq<seq<Entry>>,
                          pre: State, post: State, snapshot: Option<seq<Entry>>, fps: real, sqrt: real -> real)
    requires st0.counter >= -1 && pre.counter >= -1 && i < |frames|
    requires Snapshots(st0, frames, fps, sqrt) == snaps + Snapshots(pre, frames[i..], fps, sqrt)
    requires FrameResult(post, snapshot) == Frame(pre, frames[i].boxes, frames[i].now, fps, sqrt)
    ensures post.counter >= -1
    ensures Snapshots(st0, frames, fps, sqrt)
      == (snaps + if snapshot.Some? then [snapshot.value] else []) + Snapshots(post, frames[i + 1..], fps, sqrt)
  {
    var fs := frames[i..];
    assert fs[0] == frames[i];
    assert fs[1..] == frames[i + 1..];
    SnapshotsUnfold(pre, fs, fps, sqrt);
    var rest := Snapshots(post, frames[i + 1..], fps, sqrt);
    var mine: seq<seq<Entry>> := if snapshot.Some? then [snapshot.value] else [];
    ConcatAssoc(snaps, mine, rest);
  }

  lemma ConcatAssoc<T>(a: seq<T>, b: seq<T>, c: seq<T>)
    ensures a + (b + c) == (a + b) + c
  {
  }

  lemma SnapshotsUnfold(st: State, fs: seq<FrameInput>, fps: real, sqrt: real -> real)
    requires st.counter >= -1 && fs != []
    ensures var f := Frame(st, fs[0].boxes, fs[0].now, fps, sqrt);
      Snapshots(st, fs, fps, sqrt) == (if f.snapshot.Some? then [f.snapshot.value] else []) + Snapshots(f.state, fs[1..], fps, sqrt)
  {
  }

  /** A video of `n` frames played from the start yields a snapshot for frames 0, 5, 10, ...: `ceil(n / 5)` of them. */
  lemma SnapshotsOfVideo(frames: seq<FrameInput>, fps: real, sqrt: real -> real)
    ensures |Snapshots(State([], -1, 0), frames, fps, sqrt)| == (|frames| + 4) / 5
  {
    StrideFramesCount(0, |frames|);
    assert (0 + 4) / 5 == 0 && 0 + |frames| + 4 == |frames| + 4;
  }

  // ---------------------------------------------------------------------
  // The matched record
  // ---------------------------------------------------------------------

  lemma RefreshKeepsAccumulating(r: Record, c: Point, now: real, fps: real, sqrt: real -> real)
    requires Accumulating(r)
    ensures Accumulating(Refresh(r, c, now, fps, sqrt))
  {
  }

  lemma RefreshSucceeds(r: Record, c: Point, now: real, fps: real, sqrt: real -> real)
    ensures Succeeds(r, Refresh(r, c, now, fps, sqrt), now)
  {
  }

  /**
   * With a true square root and a positive frame rate the gate
   * `distance * fps > 0` is "the centroid changed": a re-detection at the
   * same position refreshes nothing, a move updates position, velocity and
   * last-seen time and adds exactly one velocity sample, `distance * fps`
   * in pixels per second. Size and start time
   * never change, and the record is visible afterwards exactly when it was
   * before or is at least 1.0 s old.
   */
  lemma RefreshGate(r: Record, c: Point, now: real, fps: real, sqrt: real -> real)
    requires IsSqrt(sqrt) && fps > 0.0
    ensures var r' := Refresh(r, c, now, fps, sqrt);
      && r'.coords == c
      && r'.sizeMm == r.sizeMm && r'.startTime == r.startTime
      && (r'.visible <==> r.visible || now - r.startTime >= MinVisibleTime)
      && (r.coords == c ==>
            r'.velocity == r.velocity && r'.lastSeen == r.lastSeen
            && r'.totalVelocity == r.totalVelocity && r'.velocityCount == r.velocityCount)
      && (r.coords != c ==>
            r'.velocity == Distance(sqrt, r.coords, c) * fps
            && r'.velocity > 0.0 && r'.lastSeen == now
            && r'.totalVelocity == r.totalVelocity + r'.velocity
            && r'.velocityCount == r.velocityCount + 1)
  {
    var d := Distance(sqrt, r.coords, c);
    DistanceZeroIff(sqrt, r.coords.x, r.coords.y, c.x, c.y);
    if r.coords == c {
      assert d == 0.0;
      assert d * fps == 0.0;
    } else {
      assert d > 0.0;
      calc {
        0.0;
      <  d * fps;
      }
    }
  }

  /** A fresh record is not moved and not promoted by its own detection. */
  lemma NewRecordUnchanged(c: Point, sizeMm: real, now: real, fps: real, sqrt: real -> real)
    requires IsSqrt(sqrt)
    ensures Refresh(NewRecord(c, sizeMm, now), c, now, fps, sqrt) == NewRecord(c, sizeMm, now)
  {
    DistanceZeroIff(sqrt, c.x, c.y, c.x, c.y);
    assert Distance(sqrt, c, c) * fps == 0.0;
  }

  /**
   * From one version of a record to a later one: the start time is kept,
   * `visible` is never reset, and it is set only after the debounce.
   */
  predicate Succeeds(r0: Record, r1: Record, now: real)
  {
    && r1.startTime == r0.startTime
    && (r0.visible ==> r1.visible)
    && (r1.visible && !r0.visible ==> now - r1.startTime >= MinVisibleTime)
  }

  /** Every entry of `b` whose id was in `a` succeeds its version in `a`. */
  ghost predicate Advances(a: seq<Entry>, b: seq<Entry>, now: real)
  {
    forall e0, e :: e0 in a && e in b && e0.id == e.id ==> Succeeds(e0.rec, e.rec, now)
  }

  lemma SucceedsTransitive(r0: Record, r1: Record, r2: Record, now: real)
    requires Succeeds(r0, r1, now) && Succeeds(r1, r2, now)
    ensures Succeeds(r0, r2, now)
  {
  }

  /** Every id of `a` is still present in `b`. */
  ghost predicate Keeps(a: seq<Entry>, b: seq<Entry>)
  {
    forall e0 :: e0 in a ==> exists e :: e in b && e.id == e0.id
  }

  lemma UniqueIds(st: State, e1: Entry, e2: Entry)
    requires WellFormed(st) && e1 in st.entries && e2 in st.entries && e1.id == e2.id
    ensures e1 == e2
  {
    var i :| 0 <= i < |st.entries| && st.entries[i] == e1;
    var j :| 0 <= j < |st.entries| && st.entries[j] == e2;
    assert !(i < j) && !(j < i);
  }

  // ---------------------------------------------------------------------
  // One detection
  // ---------------------------------------------------------------------

  lemma ObservePreservesWellFormed(st: State, b: Box, now: real, fps: real, sqrt: real -> real)
    requires WellFormed(st)
    ensures WellFormed(Observe(st, b, now, fps, sqrt))
  {
    if Considered(b) {
      var c := Centroid(b);
      match FirstMatch(CoordsOf(st.entries), c)
      case Some(k) =>
        RefreshKeepsAccumulating(st.entries[k].rec, c, now, fps, sqrt);
      case None =>
        RefreshKeepsAccumulating(NewRecord(c, SizeMm(b), now), c, now, fps, sqrt);
    }
  }

  /**
   * A considered detection that matches no entry appends `ID_{counter+1}`
   * with the detection's centroid and size, zero velocity accumulators,
   * `visible = False` and `start_time = last_seen = now`; the new id is
   * larger than every id in the registry.
   */
  lemma ObserveUnmatched(st: State, b: Box, now: real, fps: real, sqrt: real -> real)
    requires WellFormed(st) && IsSqrt(sqrt)
    requires Considered(b) && FirstMatch(CoordsOf(st.entries), Centroid(b)).None?
    ensures Observe(st, b, now, fps, sqrt) ==
      st.(entries := st.entries + [Entry(st.counter + 1, NewRecord(Centroid(b), SizeMm(b), now))],
          counter := st.counter + 1)
    ensures forall e :: e in st.entries ==> e.id < st.counter + 1
  {
    NewRecordUnchanged(Centroid(b), SizeMm(b), now, fps, sqrt);
    forall e | e in st.entries
      ensures e.id < st.counter + 1
    {
      var i :| 0 <= i < |st.entries| && st.entries[i] == e;
    }
  }

  /** Starting from `object_id_counter = -1`, the first object is `ID_0`. */
  lemma FirstIdIsZero(b: Box, now: real, fps: real, sqrt: real -> real)
    requires Considered(b)
    ensures Observe(State([], -1, 0), b, now, fps, sqrt).entries[0].id == 0
  {
    assert CoordsOf([]) == [];
  }

  /**
   * A considered detection that matches entry `k` (the first one within 50
   * pixels) changes only that entry's record, by `Refresh`; the id counter
   * and every other entry are left as they were.
   */
  lemma ObserveMatched(st: State, b: Box, now: real, fps: real, sqrt: real -> real, k: nat)
    requires st.counter >= -1
    requires Considered(b) && FirstMatch(CoordsOf(st.entries), Centroid(b)) == Some(k)
    ensures var r := Observe(st, b, now, fps, sqrt);
      && r.counter == st.counter
      && |r.entries| == |st.entries|
      && r.entries[k].id == st.entries[k].id
      && r.entries[k].rec == Refresh(st.entries[k].rec, Centroid(b), now, fps, sqrt)
      && forall i :: 0 <= i < |st.entries| && i != k ==> r.entries[i] == st.entries[i]
  {
  }

  lemma ObserveKeepsIds(st: State, b: Box, now: real, fps: real, sqrt: real -> real)
    requires WellFormed(st)
    ensures var r := Observe(st, b, now, fps, sqrt);
      && Keeps(st.entries, r.entries)
      && forall e :: e in r.entries ==> e.id in IdsOf(st.entries) || st.counter < e.id <= r.counter
  {
    var r := Observe(st, b, now, fps, sqrt);
    if Considered(b) {
      var c := Centroid(b);
      match FirstMatch(CoordsOf(st.entries), c)
      case Some(k) =>
        forall e0 | e0 in st.entries
          ensures exists e :: e in r.entries && e.id == e0.id
        {
          var i :| 0 <= i < |st.entries| && st.entries[i] == e0;
          assert r.entries[i] in r.entries;
        }
        forall e | e in r.entries
          ensures e.id in IdsOf(st.entries)
        {
          var i :| 0 <= i < |r.entries| && r.entries[i] == e;
          assert st.entries[i] in st.entries;
        }
      case None =>
        forall e0 | e0 in st.entries
          ensures exists e :: e in r.entries && e.id == e0.id
        {
          assert e0 in r.entries;
        }
    }
  }

  lemma ObserveAdvancesMatched(st: State, b: Box, now: real, fps: real, sqrt: real -> real, k: nat)
    requires WellFormed(st)
    requires Considered(b) && FirstMatch(CoordsOf(st.entries), Centroid(b)) == Some(k)
    ensures Advances(st.entries, Observe(st, b, now, fps, sqrt).entries, now)
  {
    var r := Observe(st, b, now, fps, sqrt);
    ObserveMatched(st, b, now, fps, sqrt, k);
    RefreshSucceeds(st.entries[k].rec, Centroid(b), now, fps, sqrt);
    forall e0, e | e0 in st.entries && e in r.entries && e0.id == e.id
      ensures Succeeds(e0.rec, e.rec, now)
    {
      var i :| 0 <= i < |r.entries| && r.entries[i] == e;
      UniqueIds(st, e0, st.entries[i]);
    }
  }

  lemma ObserveAdvancesUnmatched(st: State, b: Box, now: real, fps: real, sqrt: real -> real)
    requires WellFormed(st)
    requires Considered(b) && FirstMatch(CoordsOf(st.entries), Centroid(b)).None?
    ensures Advances(st.entries, Observe(st, b, now, fps, sqrt).entries, now)
  {
    var r := Observe(st, b, now, fps, sqrt);
    assert r.entries[..|st.entries|] == st.entries;
    forall e0, e | e0 in st.entries && e in r.entries && e0.id == e.id
      ensures Succeeds(e0.rec, e.rec, now)
    {
      var i :| 0 <= i < |r.entries| && r.entries[i] == e;
      var i0 :| 0 <= i0 < |st.entries| && st.entries[i0] == e0;
      if i < |st.entries| {
        UniqueIds(st, e0, st.entries[i]);
      }
    }
  }

  lemma ObserveAdvances(st: State, b: Box, now: real, fps: real, sqrt: real -> real)
    requires WellFormed(st)
    ensures Advances(st.entries, Observe(st, b, now, fps, sqrt).entries, now)
  {
    if Considered(b) {
      match FirstMatch(CoordsOf(st.entries), Centroid(b))
      case Some(k) => ObserveAdvancesMatched(st, b, now, fps, sqrt, k);
      case None => ObserveAdvancesUnmatched(st, b, now, fps, sqrt);
    }
  }

  // ---------------------------------------------------------------------
  // All detections of a frame
  // ---------------------------------------------------------------------

  lemma {:induction false} ObserveAllPreservesWellFormed(st: State, bs: seq<Box>, now: real, fps: real, sqrt: real -> real)
    requires WellFormed(st)
    ensures WellFormed(ObserveAll(st, bs, now, fps, sqrt))
    decreases |bs|
  {
    if bs != [] {
      ObserveAllPreservesWellFormed(st, bs[..|bs| - 1], now, fps, sqrt);
      ObservePreservesWellFormed(ObserveAll(st, bs[..|bs| - 1], now, fps, sqrt), bs[|bs| - 1], now, fps, sqrt);
    }
  }

  /**
   * The detections of a frame delete no entry, and every entry they leave
   * either was there before or carries an id issued during the frame.
   */
  lemma {:induction false} ObserveAllKeepsIds(st: State, bs: seq<Box>, now: real, fps: real, sqrt: real -> real)
    requires WellFormed(st)
    ensures var r := ObserveAll(st, bs, now, fps, sqrt);
      && Keeps(st.entries, r.entries)
      && forall e :: e in r.entries ==> e.id in IdsOf(st.entries) || st.counter < e.id <= r.counter
    decreases |bs|
  {
    if bs != [] {
      var mid := ObserveAll(st, bs[..|bs| - 1], now, fps, sqrt);
      var r := ObserveAll(st, bs, now, fps, sqrt);
      ObserveAllKeepsIds(st, bs[..|bs| - 1], now, fps, sqrt);
      ObserveAllPreservesWellFormed(st, bs[..|bs| - 1], now, fps, sqrt);
      ObserveKeepsIds(mid, bs[|bs| - 1], now, fps, sqrt);
      forall e0 | e0 in st.entries
        ensures exists e :: e in r.entries && e.id == e0.id
      {
        var e1 :| e1 in mid.entries && e1.id == e0.id;
      }
      forall e | e in r.entries
        ensures e.id in IdsOf(st.entries) || st.counter < e.id <= r.counter
      {
        if e.id in IdsOf(mid.entries) {
          var e1 :| e1 in mid.entries && e1.id == e.id;
        }
      }
    }
  }

  lemma {:induction false} ObserveAllAdvances(st: State, bs: seq<Box>, now: real, fps: real, sqrt: real -> real)
    requires WellFormed(st)
    ensures Advances(st.entries, ObserveAll(st, bs, now, fps, sqrt).entries, now)
    decreases |bs|
  {
    if bs != [] {
      var mid := ObserveAll(st, bs[..|bs| - 1], now, fps, sqrt);
      var r := ObserveAll(st, bs, now, fps, sqrt);
      ObserveAllAdvances(st, bs[..|bs| - 1], now, fps, sqrt);
      ObserveAllKeepsIds(st, bs[..|bs| - 1], now, fps, sqrt);
      ObserveAllPreservesWellFormed(st, bs[..|bs| - 1], now, fps, sqrt);
      ObserveAdvances(mid, bs[|bs| - 1], now, fps, sqrt);
      forall e0, e | e0 in st.entries && e in r.entries && e0.id == e.id
        ensures Succeeds(e0.rec, e.rec, now)
      {
        var e1 :| e1 in mid.entries && e1.id == e0.id;
        SucceedsTransitive(e0.rec, e1.rec, e.rec, now);
      }
    }
  }

  /** Entries created during a frame are pending: they started at `now` and are not visible. */
  lemma {:induction false} ObserveAllNewPending(st: State, bs: seq<Box>, now: real, fps: real, sqrt: real -> real)
    requires WellFormed(st)
    ensures forall e :: e in ObserveAll(st, bs, now, fps, sqrt).entries && e.id > st.counter ==>
      e.rec.startTime == now && !e.rec.visible
    decreases |bs|
  {
    if bs != [] {
      var mid := ObserveAll(st, bs[..|bs| - 1], now, fps, sqrt);
      var r := ObserveAll(st, bs, now, fps, sqrt);
      ObserveAllNewPending(st, bs[..|bs| - 1], now, fps, sqrt);
      ObserveAllPreservesWellFormed(st, bs[..|bs| - 1], now, fps, sqrt);
      ObserveAllKeepsIds(st, bs[..|bs| - 1], now, fps, sqrt);
      ObserveKeepsIds(mid, bs[|bs| - 1], now, fps, sqrt);
      ObserveAdvances(mid, bs[|bs| - 1], now, fps, sqrt);
      forall e | e in r.entries && e.id > st.counter
        ensures e.rec.startTime == now && !e.rec.visible
      {
        if e.id in IdsOf(mid.entries) {
          var e1 :| e1 in mid.entries && e1.id == e.id;
        } else {
          var b := bs[|bs| - 1];
          var c := Centroid(b);
          assert Considered(b) && FirstMatch(CoordsOf(mid.entries), c).None?;
          assert e == r.entries[|r.entries| - 1];
        }
      }
    }
  }

  // ---------------------------------------------------------------------
  // Eviction and the whole frame
  // ---------------------------------------------------------------------

  lemma {:induction false} EvictKeepsOrder(es: seq<Entry>, now: real)
    requires Ascending(es)
    ensures Ascending(Evict(es, now))
    decreases |es|
  {
    if es != [] {
      var init := es[..|es| - 1];
      var last := es[|es| - 1];
      EvictKeepsOrder(init, now);
      var pre := Evict(init, now);
      forall i | 0 <= i < |pre|
        ensures pre[i].id < last.id
      {
        assert pre[i] in init;
        var j :| 0 <= j < |init| && init[j] == pre[i];
        assert es[j] == pre[i];
      }
      if Stale(last, now) {
        assert Evict(es, now) == pre;
      } else {
        var r := pre + [last];
        assert Evict(es, now) == r;
        forall i, j | 0 <= i < j < |r|
          ensures r[i].id < r[j].id
        {
          if j == |pre| {
            assert r[i] == pre[i] && r[j] == last;
          } else {
            assert r[i] == pre[i] && r[j] == pre[j];
          }
        }
      }
    }
  }

  lemma EvictPreservesWellFormed(st: State, now: real)
    requires WellFormed(st)
    ensures WellFormed(st.(entries := Evict(st.entries, now)))
  {
    var r := Evict(st.entries, now);
    EvictKeepsOrder(st.entries, now);
    forall i | 0 <= i < |r|
      ensures r[i].id <= st.counter && Accumulating(r[i].rec)
    {
      assert r[i] in st.entries;
    }
  }



  lemma FramePreservesWellFormed(st: State, bs: seq<Box>, now: real, fps: real, sqrt: real -> real)
    requires WellFormed(st)
    ensures WellFormed(Frame(st, bs, now, fps, sqrt).state)
  {
    var observed := ObserveAll(st, bs, now, fps, sqrt);
    ObserveAllPreservesWellFormed(st, bs, now, fps, sqrt);
    EvictPreservesWellFormed(observed, now);
  }

  /**
   * Every entry after a frame either was in the registry before or carries
   * an id issued during the frame, larger than every earlier id.
   */
  lemma FrameIdsOrigin(st: State, bs: seq<Box>, now: real, fps: real, sqrt: real -> real)
    requires WellFormed(st)
    ensures var r := Frame(st, bs, now, fps, sqrt).state;
      forall e :: e in r.entries ==> e.id in IdsOf(st.entries) || st.counter < e.id <= r.counter
  {
    ObserveAllKeepsIds(st, bs, now, fps, sqrt);
  }

  /**
   * Across a frame `visible` is never reset to False, start times are kept,
   * a pending entry becomes visible only once `now - start_time >= 1.0`, and
   * entries created in the frame are pending.
   */
  lemma FrameVisibility(st: State, bs: seq<Box>, now: real, fps: real, sqrt: real -> real)
    requires WellFormed(st)
    ensures var r := Frame(st, bs, now, fps, sqrt).state;
      && Advances(st.entries, r.entries, now)
      && forall e :: e in r.entries && e.id > st.counter ==> e.rec.startTime == now && !e.rec.visible
  {
    var observed := ObserveAll(st, bs, now, fps, sqrt);
    ObserveAllAdvances(st, bs, now, fps, sqrt);
    ObserveAllNewPending(st, bs, now, fps, sqrt);
  }

  /**
   * Ids are never reused: an id that was issued (it is at most the counter)
   * and is no longer in the registry does not come back in any later frame,
   * even when a detection returns at the old position.
   */
  lemma {:induction false} EvictedIdNeverReturns(st: State, frames: seq<FrameInput>, fps: real, sqrt: real -> real, x: nat)
    requires WellFormed(st) && x <= st.counter && x !in IdsOf(st.entries)
    ensures x !in IdsOf(Run(st, frames, fps, sqrt).entries)
    decreases |frames|
  {
    if frames != [] {
      var next := Frame(st, frames[0].boxes, frames[0].now, fps, sqrt).state;
      FramePreservesWellFormed(st, frames[0].boxes, frames[0].now, fps, sqrt);
      FrameIdsOrigin(st, frames[0].boxes, frames[0].now, fps, sqrt);
      assert forall e :: e in next.entries ==> e.id != x;
      EvictedIdNeverReturns(next, frames[1..], fps, sqrt, x);
    }
  }

  /**
   * The last-seen time is refreshed only by motion, so an object detected
   * at the same position is deleted once its last move is more than 1.0 s
   * old, whatever else the registry holds.
   */
  lemma StationaryObjectEvicted(st: State, k: nat, b: Box, now: real, fps: real, sqrt: real -> real)
    requires IsSqrt(sqrt) && fps > 0.0 && WellFormed(st)
    requires Considered(b) && FirstMatch(CoordsOf(st.entries), Centroid(b)) == Some(k)
    requires Centroid(b) == st.entries[k].rec.coords
    requires now - st.entries[k].rec.lastSeen > MaxDisappearTime
    ensures st.entries[k].id !in IdsOf(Frame(st, [b], now, fps, sqrt).state.entries)
  {
    var e := st.entries[k];
    var observed := Observe(st, b, now, fps, sqrt);
    assert [b][..0] == [];
    assert ObserveAll(st, [b], now, fps, sqrt) == observed;
    ObserveMatched(st, b, now, fps, sqrt, k);
    RefreshGate(e.rec, Centroid(b), now, fps, sqrt);
    assert Stale(observed.entries[k], now);
    var kept := Frame(st, [b], now, fps, sqrt).state.entries;
    forall x | x in kept
      ensures x.id != e.id
    {
      var i :| 0 <= i < |observed.entries| && observed.entries[i] == x;
      if i != k {
        assert x == st.entries[i];
      }
    }
  }

  // ---------------------------------------------------------------------
  // The imperative tracker
  // ---------------------------------------------------------------------

  /** The deletion loop over the registry in insertion order. */
  method KeepFresh(es: seq<Entry>, now: real) returns (kept: seq<Entry>)
    ensures kept == Evict(es, now)
  {
    kept := [];
    var j := 0;
    while j < |es|
      invariant 0 <= j <= |es|
      invariant kept == Evict(es[..j], now)
    {
      assert es[..j + 1][..j] == es[..j];
      if !(now - es[j].rec.lastSeen > MaxDisappearTime) {
        kept := kept + [es[j]];
      }
      j := j + 1;
    }
    assert es[..|es|] == es;
  }

  class Tracker {
    var entries: seq<Entry>
    var counter: int
    var frameCount: nat
    const fps: real
    const sqrt: real -> real

    function Model(): State
      reads this
    {
      State(entries, counter, frameCount)
    }

    ghost predicate Valid()
      reads this
    {
      WellFormed(Model()) && fps > 0.0
    }

    /** The state set up by `play_video` before its frame loop. */
    constructor (videoFps: real, sqrt: real -> real)
      ensures Valid()
      ensures Model() == State([], -1, 0)
      ensures fps == EffectiveFps(videoFps) && this.sqrt == sqrt
    {
      entries := [];
      counter := -1;
      frameCount := 0;
      fps := if videoFps <= 0.0 then DefaultFps else videoFps;
      this.sqrt := sqrt;
    }

    /** The update of a matched record: the motion gate, then the debounce. */
    method UpdateRecord(rec: Record, c: Point, now: real) returns (r: Record)
      ensures r == Refresh(rec, c, now, fps, sqrt)
    {
      r := rec;
      var velocity := Distance(sqrt, r.coords, c) * fps;
      if velocity > 0.0 {
        r := r.(coords := c, velocity := velocity, lastSeen := now,
                totalVelocity := r.totalVelocity + velocity,
                velocityCount := r.velocityCount + 1);
      }
      if !r.visible && now - r.startTime >= MinVisibleTime {
        r := r.(visible := true);
      }
    }

    /** The body of `for contour in contours`: match or create, then update. */
    method ObserveDetection(b: Box, now: real)
      requires counter >= -1
      modifies this`entries, this`counter
      ensures Model() == Observe(old(Model()), b, now, fps, sqrt)
    {
      if b.area > MinContourArea {
        var c := Centroid(b);
        var m := FindMatch(CoordsOf(entries), c);
        if m.None? {
          var id := counter + 1;
          var rec := UpdateRecord(Record(c, (b.w * b.h) as real * PixelToMm, 0.0, 0.0, 0, now, now, false), c, now);
          entries := entries + [Entry(id, rec)];
          counter := id;
        } else {
          var k := m.value;
          var rec := UpdateRecord(entries[k].rec, c, now);
          entries := entries[k := Entry(entries[k].id, rec)];
        }
      }
    }

    /** `for obj_id, data in list(object_data.items()): if ... > max_disappear_time: del ...`. */
    method EvictStale(now: real)
      requires Valid()
      modifies this`entries
      ensures Valid()
      ensures entries == Evict(old(entries), now)
    {
      EvictPreservesWellFormed(Model(), now);
      entries := KeepFresh(entries, now);
    }

    /** One iteration of the `while cap.isOpened()` loop, without the drawing and pacing. */
    method ProcessFrame(boxes: seq<Box>, now: real) returns (snapshot: Option<seq<Entry>>)
      requires Valid()
      modifies this
      ensures Valid()
      ensures FrameResult(Model(), snapshot) == Frame(old(Model()), boxes, now, fps, sqrt)
    {
      ghost var st0 := Model();
      var i := 0;
      while i < |boxes|
        invariant 0 <= i <= |boxes|
        invariant Model() == ObserveAll(st0, boxes[..i], now, fps, sqrt)
      {
        assert boxes[..i + 1][..i] == boxes[..i];
        ObserveDetection(boxes[i], now);
        i := i + 1;
      }
      assert boxes[..|boxes|] == boxes;
      ObserveAllPreservesWellFormed(st0, boxes, now, fps, sqrt);
      snapshot := FinishFrame(now);
    }

    /**
     * The `while cap.isOpened() and not stop_event.is_set()` loop over the
     * frames of a video: the final registry and the snapshots queued for the
     * table, in order.
     */
    method Play(frames: seq<FrameInput>) returns (snapshots: seq<seq<Entry>>)
      requires Valid()
      modifies this
      ensures Valid()
      ensures Model() == Run(old(Model()), frames, fps, sqrt)
      ensures snapshots == Snapshots(old(Model()), frames, fps, sqrt)
    {
      ghost var st0 := Model();
      snapshots := [];
      var i := 0;
      while i < |frames|
        invariant 0 <= i <= |frames|
        invariant Valid()
        invariant Run(st0, frames, fps, sqrt) == Run(Model(), frames[i..], fps, sqrt)
        invariant Snapshots(st0, frames, fps, sqrt) == snapshots + Snapshots(Model(), frames[i..], fps, sqrt)
      {
        ghost var pre := Model();
        var snapshot := ProcessFrame(frames[i].boxes, frames[i].now);
        assert frames[i..][0] == frames[i] && frames[i..][1..] == frames[i + 1..];
        RunStep(pre, Model(), frames[i..], fps, sqrt);
        PlayStepSnapshots(st0, frames, i, snapshots, pre, Model(), snapshot, fps, sqrt);
        snapshots := snapshots + if snapshot.Some? then [snapshot.value] else [];
        i := i + 1;
      }
    }

    /** After the detection loop: the snapshot, the deletion loop, then `frame_count += 1`. */
    method FinishFrame(now: real) returns (snapshot: Option<seq<Entry>>)
      requires Valid()
      modifies this`entries, this`frameCount
      ensures Valid()
      ensures snapshot == if old(frameCount) % SnapshotStride == 0 then Some(old(entries)) else None
      ensures entries == Evict(old(entries), now) && frameCount == old(frameCount) + 1
    {
      snapshot := if frameCount % SnapshotStride == 0 then Some(entries) else None;
      EvictStale(now);
      frameCount := frameCount + 1;
    }
  }
}
