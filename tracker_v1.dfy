/**
 * The earlier tracker of VAR1.py (`video_processor`). Per frame it takes
 * the detections and one clock reading `now`, and
 *   1. ignores contours of area at most 1000,
 *   2. matches each detection to the first entry within 50 pixels or
 *      creates `ID_{n}` with the counter starting at 0 and pre-incremented,
 *   3. marks the id as seen in this frame (`current_ids`),
 *   4. overwrites coordinates and time on every match, with the distance
 *      moved, the velocity `distance / elapsed` (0 when no time elapsed) and
 *      the flag `updated = distance > 1`,
 *   5. deletes the entries not seen in this frame whose time is more than
 *      5 s old, and
 *   6. reports the entries whose `updated` flag is set.
 * `Frame` is the specification; `Processor.ProcessFrame` is the loop,
 * proved equal to it, and `Processor.Drain` the consumer loop after stop.
 */
module TrackerV1 {
  import opened Wrappers
  import opened Geometry
  import opened FrameQueue

  /** Entries missing from a frame are deleted once their time is this many seconds old. */
  const MissingTimeout: real := 5.0
  /** `updated` is set when the centroid moved more than this many pixels. */
  const MoveThreshold: nat := 1

  datatype Record = Record(coords: Point, time: real, distance: real, velocity: real, updated: bool)

  datatype Entry = Entry(id: nat, rec: Record)

  /** The registry, `id_counter` (starting at 0) and `frame_count`. */
  datatype State = State(entries: seq<Entry>, counter: nat, frameCount: nat)

  /** The registry during the detection loop, with the ids seen so far in the frame. */
  datatype Scan = Scan(entries: seq<Entry>, counter: nat, current: set<nat>)

  datatype FrameInput = FrameInput(boxes: seq<Box>, now: real)

  /** The state after a frame and the entries printed for it. */
  datatype FrameResult = FrameResult(state: State, report: seq<Entry>)

  function IdsOf(es: seq<Entry>): set<nat>
  {
    set e | e in es :: e.id
  }

  function CoordsOf(es: seq<Entry>): (cs: seq<Point>)
    ensures |cs| == |es|
    ensures forall i :: 0 <= i < |es| ==> cs[i] == es[i].rec.coords
  {
    seq(|es|, i requires 0 <= i < |es| => es[i].rec.coords)
  }

  /** The record of a detection that matched nothing, before its own update. */
  function NewRecord(c: Point, now: real): Record
  {
    Record(c, now, 0.0, 0.0, true)
  }

  /** The `.update({...})` of a matched (or just created) record by a detection at `c`. */
  function Measure(r: Record, c: Point, now: real, sqrt: real -> real): (m: Record)
    ensures m.coords == c && m.time == now
    ensures m.velocity != 0.0 ==> now > r.time
    ensures m.updated ==> m.distance > MoveThreshold as real
    ensures IsSqrt(sqrt) ==> m.distance >= 0.0 && m.velocity >= 0.0
  {
    var distance := CalculateDistance(sqrt, r.coords.x, r.coords.y, c.x, c.y);
    var elapsed := now - r.time;
    Record(c, now, distance, if elapsed > 0.0 then distance / elapsed else 0.0, distance > MoveThreshold as real)
  }

  /** One detection of the `for contour in contours` loop. */
  function Observe(s: Scan, b: Box, now: real, sqrt: real -> real): (r: Scan)
    ensures r.counter >= s.counter && r.current >= s.current
    ensures !Considered(b) ==> r == s
  {
    if !Considered(b) then s
    else
      var c := Centroid(b);
      match FirstMatch(CoordsOf(s.entries), c)
      case Some(k) =>
        var id := s.entries[k].id;
        s.(entries := s.entries[k := Entry(id, Measure(s.entries[k].rec, c, now, sqrt))],
           current := s.current + {id})
      case None =>
        var id := s.counter + 1;
        s.(entries := s.entries + [Entry(id, Measure(NewRecord(c, now), c, now, sqrt))],
           counter := id, current := s.current + {id})
  }

  function ObserveAll(s: Scan, bs: seq<Box>, now: real, sqrt: real -> real): (r: Scan)
    ensures r.counter >= s.counter && r.current >= s.current
    decreases |bs|
  {
    if bs == [] then s
    else Observe(ObserveAll(s, bs[..|bs| - 1], now, sqrt), bs[|bs| - 1], now, sqrt)
  }

  predicate Missing(e: Entry, current: set<nat>, now: real)
  {
    e.id !in current && now - e.rec.time > MissingTimeout
  }

  /** The deletion loop: exactly the missing stale entries go, the rest keep their order. */
  function Evict(es: seq<Entry>, current: set<nat>, now: real): (r: seq<Entry>)
    ensures |r| <= |es|
    ensures forall e :: e in r <==> e in es && !Missing(e, current, now)
  {
    if es == [] then []
    else Evict(es[..|es| - 1], current, now) + (if Missing(es[|es| - 1], current, now) then [] else [es[|es| - 1]])
  }

  /** The entries printed for the frame: those whose `updated` flag is set, in order. */
  function Reported(es: seq<Entry>): (r: seq<Entry>)
    ensures |r| <= |es|
    ensures forall e :: e in r <==> e in es && e.rec.updated
  {
    if es == [] then []
    else Reported(es[..|es| - 1]) + (if es[|es| - 1].rec.updated then [es[|es| - 1]] else [])
  }

  /** One iteration of the processor loop: detections, deletion, report, `frame_count += 1`. */
  function Frame(st: State, bs: seq<Box>, now: real, sqrt: real -> real): (r: FrameResult)
    ensures r.state.counter >= st.counter && r.state.frameCount == st.frameCount + 1
    ensures forall e :: e in r.report ==> e in r.state.entries && e.rec.updated
  {
    var scan := ObserveAll(Scan(st.entries, st.counter, {}), bs, now, sqrt);
    var entries := Evict(scan.entries, scan.current, now);
    FrameResult(State(entries, scan.counter, st.frameCount + 1), Reported(entries))
  }

  /** The frames taken from the queue, in order. */
  function Run(st: State, frames: seq<FrameInput>, sqrt: real -> real): (r: State)
    ensures r.counter >= st.counter && r.frameCount == st.frameCount + |frames|
    decreases |frames|
  {
    if frames == [] then st
    else Run(Frame(st, frames[0].boxes, frames[0].now, sqrt).state, frames[1..], sqrt)
  }

  // ---------------------------------------------------------------------
  // The matched record
  // ---------------------------------------------------------------------

  /**
   * With a true square root a match always moves the record to the
   * detection and stamps it with `now`; the distance is the Euclidean one;
   * the velocity is `distance / elapsed` when time elapsed and 0 otherwise;
   * and `updated` holds exactly when the centroid moved more than 1 pixel.
   */
  lemma MeasureFacts(r: Record, c: Point, now: real, sqrt: real -> real)
    requires IsSqrt(sqrt)
    ensures var m := Measure(r, c, now, sqrt);
      && m.coords == c && m.time == now
      && m.distance == Distance(sqrt, r.coords, c) && m.distance >= 0.0
      && (now - r.time <= 0.0 ==> m.velocity == 0.0)
      && (now - r.time > 0.0 ==> m.velocity * (now - r.time) == m.distance)
      && (m.updated <==> SqDist(r.coords, c) > MoveThreshold * MoveThreshold)
  {
    DistanceAboveIff(sqrt, r.coords, c, MoveThreshold);
  }

  /**
   * The `updated: True` of a new entry is overwritten by its own update: a
   * new entry has distance and velocity 0 and is not reported in the frame
   * that created it.
   */
  lemma NewEntryNotUpdated(c: Point, now: real, sqrt: real -> real)
    requires IsSqrt(sqrt)
    ensures Measure(NewRecord(c, now), c, now, sqrt) == Record(c, now, 0.0, 0.0, false)
  {
    DistanceZeroIff(sqrt, c.x, c.y, c.x, c.y);
  }

  // ---------------------------------------------------------------------
  // Invariants of the detection loop
  // ---------------------------------------------------------------------

  /** Entry ids strictly increase along the sequence. */
  predicate Ascending(es: seq<Entry>)
  {
    forall i, j :: 0 <= i < j < |es| ==> es[i].id < es[j].id
  }

  /** Ids strictly increase in insertion order and none exceeds the counter. */
  predicate WellFormed(st: State)
  {
    && Ascending(st.entries)
    && (forall i :: 0 <= i < |st.entries| ==> st.entries[i].id <= st.counter)
  }

  /**
   * The registry invariant during the loop, and the ids seen so far all
   * belong to entries matched in this frame, whose time is `now`.
   */
  ghost predicate ScanInvariant(s: Scan, now: real)
  {
    && WellFormed(State(s.entries, s.counter, 0))
    && (forall id :: id in s.current ==> exists e :: e in s.entries && e.id == id)
    && (forall e :: e in s.entries && e.id in s.current ==> e.rec.time == now)
  }

  lemma ObserveUnmatched(s: Scan, b: Box, now: real, sqrt: real -> real)
    requires WellFormed(State(s.entries, s.counter, 0))
    requires Considered(b) && FirstMatch(CoordsOf(s.entries), Centroid(b)).None?
    ensures var r := Observe(s, b, now, sqrt);
      && r.entries == s.entries + [Entry(s.counter + 1, Measure(NewRecord(Centroid(b), now), Centroid(b), now, sqrt))]
      && r.counter == s.counter + 1 && r.current == s.current + {s.counter + 1}
    ensures forall e :: e in s.entries ==> e.id < s.counter + 1
  {
    forall e | e in s.entries
      ensures e.id < s.counter + 1
    {
      var i :| 0 <= i < |s.entries| && s.entries[i] == e;
    }
  }

  /**
   * A considered detection whose first near entry is `k` rewrites only that
   * entry, by `Measure`, and adds its id to `current_ids`; the counter and
   * every other entry are left as they were.
   */
  lemma ObserveMatched(s: Scan, b: Box, now: real, sqrt: real -> real, k: nat)
    requires Considered(b) && FirstMatch(CoordsOf(s.entries), Centroid(b)) == Some(k)
    ensures var r := Observe(s, b, now, sqrt);
      && r.counter == s.counter
      && |r.entries| == |s.entries|
      && r.entries[k] == Entry(s.entries[k].id, Measure(s.entries[k].rec, Centroid(b), now, sqrt))
      && r.current == s.current + {s.entries[k].id}
      && forall i :: 0 <= i < |s.entries| && i != k ==> r.entries[i] == s.entries[i]
  {
  }

  lemma ObserveMatchedPreservesInvariant(s: Scan, b: Box, now: real, sqrt: real -> real, k: nat)
    requires ScanInvariant(s, now)
    requires Considered(b) && FirstMatch(CoordsOf(s.entries), Centroid(b)) == Some(k)
    ensures ScanInvariant(Observe(s, b, now, sqrt), now)
  {
    var r := Observe(s, b, now, sqrt);
    assert |r.entries| == |s.entries|;
    assert forall i :: 0 <= i < |s.entries| ==> r.entries[i].id == s.entries[i].id;
    assert WellFormed(State(r.entries, r.counter, 0));
    MatchedCurrentPresent(s, b, now, sqrt, k);
    MatchedCurrentStamped(s, b, now, sqrt, k);
  }

  lemma MatchedCurrentPresent(s: Scan, b: Box, now: real, sqrt: real -> real, k: nat)
    requires ScanInvariant(s, now)
    requires Considered(b) && FirstMatch(CoordsOf(s.entries), Centroid(b)) == Some(k)
    ensures var r := Observe(s, b, now, sqrt);
      forall id :: id in r.current ==> exists e :: e in r.entries && e.id == id
  {
    var r := Observe(s, b, now, sqrt);
    forall id | id in r.current
      ensures exists e :: e in r.entries && e.id == id
    {
      if id == s.entries[k].id {
        assert r.entries[k] in r.entries;
      } else {
        var e0 :| e0 in s.entries && e0.id == id;
        var i :| 0 <= i < |s.entries| && s.entries[i] == e0;
        assert r.entries[i] in r.entries;
      }
    }
  }

  lemma MatchedCurrentStamped(s: Scan, b: Box, now: real, sqrt: real -> real, k: nat)
    requires ScanInvariant(s, now)
    requires Considered(b) && FirstMatch(CoordsOf(s.entries), Centroid(b)) == Some(k)
    ensures var r := Observe(s, b, now, sqrt);
      forall e :: e in r.entries && e.id in r.current ==> e.rec.time == now
  {
    var r := Observe(s, b, now, sqrt);
    forall e | e in r.entries && e.id in r.current
      ensures e.rec.time == now
    {
      var i :| 0 <= i < |r.entries| && r.entries[i] == e;
      if i != k {
        assert s.entries[i] in s.entries;
        assert s.entries[i].id != s.entries[k].id by {
          assert i < k || k < i;
        }
      }
    }
  }

  lemma ObserveUnmatchedPreservesInvariant(s: Scan, b: Box, now: real, sqrt: real -> real)
    requires ScanInvariant(s, now)
    requires Considered(b) && FirstMatch(CoordsOf(s.entries), Centroid(b)).None?
    ensures ScanInvariant(Observe(s, b, now, sqrt), now)
  {
    var r := Observe(s, b, now, sqrt);
    ObserveUnmatched(s, b, now, sqrt);
    forall id | id in r.current
      ensures exists e :: e in r.entries && e.id == id
    {
      if id != s.counter + 1 {
        var e0 :| e0 in s.entries && e0.id == id;
        assert e0 in r.entries;
      } else {
        assert r.entries[|r.entries| - 1] in r.entries;
      }
    }
    forall e | e in r.entries && e.id in r.current
      ensures e.rec.time == now
    {
      if e != r.entries[|r.entries| - 1] {
        assert e in s.entries;
      }
    }
  }

  lemma ObservePreservesInvariant(s: Scan, b: Box, now: real, sqrt: real -> real)
    requires ScanInvariant(s, now)
    ensures ScanInvariant(Observe(s, b, now, sqrt), now)
  {
    if Considered(b) {
      match FirstMatch(CoordsOf(s.entries), Centroid(b))
      case Some(k) => ObserveMatchedPreservesInvariant(s, b, now, sqrt, k);
      case None => ObserveUnmatchedPreservesInvariant(s, b, now, sqrt);
    }
  }

  lemma {:induction false} ObserveAllPreservesInvariant(s: Scan, bs: seq<Box>, now: real, sqrt: real -> real)
    requires ScanInvariant(s, now)
    ensures ScanInvariant(ObserveAll(s, bs, now, sqrt), now)
    decreases |bs|
  {
    if bs != [] {
      ObserveAllPreservesInvariant(s, bs[..|bs| - 1], now, sqrt);
      ObservePreservesInvariant(ObserveAll(s, bs[..|bs| - 1], now, sqrt), bs[|bs| - 1], now, sqrt);
    }
  }

  /**
   * The id a considered detection matched or created is added to
   * `current_ids`, and it is the id of an entry now at the detection's
   * centroid; a new id is larger than every earlier one.
   */
  lemma ObserveMarksCurrent(s: Scan, b: Box, now: real, sqrt: real -> real)
    requires WellFormed(State(s.entries, s.counter, 0)) && Considered(b)
    ensures var r := Observe(s, b, now, sqrt);
      exists e :: e in r.entries && e.rec.coords == Centroid(b) && e.rec.time == now
        && r.current == s.current + {e.id}
        && (e.id in IdsOf(s.entries) || (e.id == s.counter + 1 && e.id == r.counter))
  {
    var r := Observe(s, b, now, sqrt);
    var c := Centroid(b);
    match FirstMatch(CoordsOf(s.entries), c)
    case Some(k) =>
      assert r.entries[k] in r.entries;
      assert s.entries[k] in s.entries;
    case None =>
      ObserveUnmatched(s, b, now, sqrt);
      assert r.entries[|r.entries| - 1] in r.entries;
  }

  /** Starting from `id_counter = 0`, the first object is `ID_1`. */
  lemma FirstIdIsOne(b: Box, now: real, sqrt: real -> real)
    requires Considered(b)
    ensures Observe(Scan([], 0, {}), b, now, sqrt).entries[0].id == 1
  {
    assert CoordsOf([]) == [];
  }

  // ---------------------------------------------------------------------
  // The whole frame
  // ---------------------------------------------------------------------

  lemma {:induction false} EvictKeepsOrder(es: seq<Entry>, current: set<nat>, now: real)
    requires Ascending(es)
    ensures Ascending(Evict(es, current, now))
    decreases |es|
  {
    if es != [] {
      var init := es[..|es| - 1];
      var last := es[|es| - 1];
      EvictKeepsOrder(init, current, now);
      var pre := Evict(init, current, now);
      forall i | 0 <= i < |pre|
        ensures pre[i].id < last.id
      {
        assert pre[i] in init;
        var j :| 0 <= j < |init| && init[j] == pre[i];
        assert es[j] == pre[i];
      }
      if Missing(last, current, now) {
        assert Evict(es, current, now) == pre;
      } else {
        var r := pre + [last];
        assert Evict(es, current, now) == r;
        forall i, j | 0 <= i < j < |r|
          ensures r[i].id < r[j].id
        {
          if j == |pre| {
            assert r[i] == pre[i] && r[j] == last;
          } else {
            assert r[i] == pre[i] && r[j] == pre[j];
          }
        }
      }
    }
  }

  lemma EvictPreservesWellFormed(st: State, current: set<nat>, now: real)
    requires WellFormed(st)
    ensures WellFormed(st.(entries := Evict(st.entries, current, now)))
  {
    var r := Evict(st.entries, current, now);
    EvictKeepsOrder(st.entries, current, now);
    forall i | 0 <= i < |r|
      ensures r[i].id <= st.counter
    {
      assert r[i] in st.entries;
    }
  }



  lemma FramePreservesWellFormed(st: State, bs: seq<Box>, now: real, sqrt: real -> real)
    requires WellFormed(st)
    ensures WellFormed(Frame(st, bs, now, sqrt).state)
  {
    var scan := ObserveAll(Scan(st.entries, st.counter, {}), bs, now, sqrt);
    ObserveAllPreservesInvariant(Scan(st.entries, st.counter, {}), bs, now, sqrt);
    EvictPreservesWellFormed(State(scan.entries, scan.counter, st.frameCount + 1), scan.current, now);
  }

  /**
   * Eviction in a frame removes exactly the entries that were not seen in
   * it and whose time is more than 5 s old; every entry matched or created
   * in the frame survives it, stamped with `now`.
   */
  lemma FrameEviction(st: State, bs: seq<Box>, now: real, sqrt: real -> real)
    requires WellFormed(st)
    ensures var scan := ObserveAll(Scan(st.entries, st.counter, {}), bs, now, sqrt);
      var r := Frame(st, bs, now, sqrt).state;
      && (forall e :: e in r.entries <==> e in scan.entries && !Missing(e, scan.current, now))
      && (forall id :: id in scan.current ==> exists e :: e in r.entries && e.id == id && e.rec.time == now)
  {
    var s0 := Scan(st.entries, st.counter, {});
    var scan := ObserveAll(s0, bs, now, sqrt);
    ObserveAllPreservesInvariant(s0, bs, now, sqrt);
    forall id | id in scan.current
      ensures exists e :: e in Frame(st, bs, now, sqrt).state.entries && e.id == id && e.rec.time == now
    {
      var e :| e in scan.entries && e.id == id;
      assert e in Evict(scan.entries, scan.current, now);
    }
  }

  // ---------------------------------------------------------------------
  // The imperative processor
  // ---------------------------------------------------------------------

  /** The deletion loop over the registry in insertion order. */
  method KeepPresent(es: seq<Entry>, current: set<nat>, now: real) returns (kept: seq<Entry>)
    ensures kept == Evict(es, current, now)
  {
    kept := [];
    var j := 0;
    while j < |es|
      invariant 0 <= j <= |es|
      invariant kept == Evict(es[..j], current, now)
    {
      assert es[..j + 1][..j] == es[..j];
      if es[j].id in current || !(now - es[j].rec.time > MissingTimeout) {
        kept := kept + [es[j]];
      }
      j := j + 1;
    }
    assert es[..|es|] == es;
  }

  /** The print loop: the entries whose `updated` flag is set. */
  method ReportUpdated(es: seq<Entry>) returns (report: seq<Entry>)
    ensures report == Reported(es)
  {
    report := [];
    var j := 0;
    while j < |es|
      invariant 0 <= j <= |es|
      invariant report == Reported(es[..j])
    {
      assert es[..j + 1][..j] == es[..j];
      if es[j].rec.updated {
        report := report + [es[j]];
      }
      j := j + 1;
    }
    assert es[..|es|] == es;
  }

  class Processor {
    var entries: seq<Entry>
    var counter: nat
    var frameCount: nat
    const sqrt: real -> real

    function Model(): State
      reads this
    {
      State(entries, counter, frameCount)
    }

    ghost predicate Valid()
      reads this
    {
      WellFormed(Model())
    }

    /** The state set up by `video_processor` before its loop. */
    constructor (sqrt: real -> real)
      ensures Valid() && Model() == State([], 0, 0) && this.sqrt == sqrt
    {
      entries := [];
      counter := 0;
      frameCount := 0;
      this.sqrt := sqrt;
    }

    /** The update of a matched record: distance, elapsed time, velocity and the moved flag. */
    method UpdateRecord(prev: Record, c: Point, now: real) returns (r: Record)
      ensures r == Measure(prev, c, now, sqrt)
    {
      var distance := CalculateDistance(sqrt, prev.coords.x, prev.coords.y, c.x, c.y);
      var elapsed := now - prev.time;
      var velocity := if elapsed > 0.0 then distance / elapsed else 0.0;
      r := Record(c, now, distance, velocity, distance > MoveThreshold as real);
    }

    /** The body of `for contour in contours`, with `current_ids` of the frame. */
    method ObserveDetection(b: Box, now: real, current: set<nat>) returns (current': set<nat>)
      modifies this`entries, this`counter
      ensures Scan(entries, counter, current') == Observe(Scan(old(entries), old(counter), current), b, now, sqrt)
    {
      current' := current;
      if b.area > MinContourArea {
        var c := Centroid(b);
        var m := FindMatch(CoordsOf(entries), c);
        if m.None? {
          var id := counter + 1;
          var rec := UpdateRecord(Record(c, now, 0.0, 0.0, true), c, now);
          entries := entries + [Entry(id, rec)];
          counter := id;
          current' := current' + {id};
        } else {
          var k := m.value;
          var id := entries[k].id;
          var rec := UpdateRecord(entries[k].rec, c, now);
          entries := entries[k := Entry(id, rec)];
          current' := current' + {id};
        }
      }
    }

    /** `for obj_id in list(object_data.keys()): if obj_id not in current_ids: ... del`. */
    method EvictMissing(current: set<nat>, now: real)
      requires Valid()
      modifies this`entries
      ensures Valid()
      ensures entries == Evict(old(entries), current, now)
    {
      EvictPreservesWellFormed(Model(), current, now);
      entries := KeepPresent(entries, current, now);
    }

    /** One iteration of `while not stop_event.is_set() or not frame_queue.empty()`. */
    method ProcessFrame(boxes: seq<Box>, now: real) returns (report: seq<Entry>)
      requires Valid()
      modifies this
      ensures Valid()
      ensures FrameResult(Model(), report) == Frame(old(Model()), boxes, now, sqrt)
    {
      ghost var st0 := Model();
      var current: set<nat> := {};
      var i := 0;
      while i < |boxes|
        invariant 0 <= i <= |boxes|
        invariant frameCount == st0.frameCount
        invariant Scan(entries, counter, current) == ObserveAll(Scan(st0.entries, st0.counter, {}), boxes[..i], now, sqrt)
      {
        assert boxes[..i + 1][..i] == boxes[..i];
        current := ObserveDetection(boxes[i], now, current);
        i := i + 1;
      }
      assert boxes[..|boxes|] == boxes;
      ObserveAllPreservesWellFormed(Scan(st0.entries, st0.counter, {}), boxes, now, sqrt);
      report := FinishFrame(current, now);
    }

    /** After the detection loop: deletion, the report, then `frame_count += 1`. */
    method FinishFrame(current: set<nat>, now: real) returns (report: seq<Entry>)
      requires WellFormed(State(entries, counter, 0))
      modifies this`entries, this`frameCount
      ensures Valid()
      ensures entries == Evict(old(entries), current, now) && frameCount == old(frameCount) + 1
      ensures report == Reported(entries)
    {
      EvictMissing(current, now);
      report := ReportUpdated(entries);
      frameCount := frameCount + 1;
    }

    /**
     * The processor after the stop flag is set: it keeps taking frames until
     * the queue is empty, so every frame already queued is processed, in order.
     */
    method Drain(q: BoundedQueue<FrameInput>)
      requires Valid() && q.Valid()
      modifies this, q
      ensures Valid() && q.items == []
      ensures Model() == Run(old(Model()), old(q.items), sqrt)
    {
      ghost var st0 := Model();
      ghost var frames := q.items;
      ghost var done := 0;
      while !q.IsEmpty()
        invariant Valid() && q.Valid()
        invariant 0 <= done <= |frames| && q.items == frames[done..]
        invariant Run(st0, frames, sqrt) == Run(Model(), frames[done..], sqrt)
        decreases |q.items|
      {
        var f := q.Get();
        assert frames[done..][0] == frames[done];
        assert frames[done..][1..] == frames[done + 1..];
        var _ := ProcessFrame(f.value.boxes, f.value.now);
        done := done + 1;
      }
    }
  }

  lemma {:induction false} ObserveAllPreservesWellFormed(s: Scan, bs: seq<Box>, now: real, sqrt: real -> real)
    requires WellFormed(State(s.entries, s.counter, 0))
    ensures WellFormed(State(ObserveAll(s, bs, now, sqrt).entries, ObserveAll(s, bs, now, sqrt).counter, 0))
    decreases |bs|
  {
    if bs != [] {
      ObserveAllPreservesWellFormed(s, bs[..|bs| - 1], now, sqrt);
      ObservePreservesWellFormed(ObserveAll(s, bs[..|bs| - 1], now, sqrt), bs[|bs| - 1], now, sqrt);
    }
  }

  lemma ObservePreservesWellFormed(s: Scan, b: Box, now: real, sqrt: real -> real)
    requires WellFormed(State(s.entries, s.counter, 0))
    ensures WellFormed(State(Observe(s, b, now, sqrt).entries, Observe(s, b, now, sqrt).counter, 0))
  {
    if Considered(b) && FirstMatch(CoordsOf(s.entries), Centroid(b)).None? {
      ObserveUnmatched(s, b, now, sqrt);
    }
  }
}
