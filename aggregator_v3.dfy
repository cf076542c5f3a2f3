/**
 * The table side of Var3.py: `update_table` receives a snapshot of the
 * registry and the frame number it was taken at. For every object in the
 * snapshot, in insertion order, it
 *   1. computes the displacement from the previous coordinates the table
 *      saw for that object (the current ones on a first sighting), in mm,
 *   2. records the current coordinates as the previous ones,
 *   3. computes the average velocity `total / count` (0 without samples)
 *      and skips the object when it is 0,
 *   4. otherwise updates the object's row in place when its id was in the
 *      table when the call started, or appends a row, and
 *   5. appends one record to the object's export log `tracked_data[id]`.
 * `TableAfter` is the specification; `Aggregator.UpdateTable` is the
 * imperative loop, proved equal to it.
 */
module Aggregation {
  import opened Wrappers
  import opened Geometry
  import opened TrackerV3

  /** A table row: id, frame, x and y in mm, displacement, average velocity, size. */
  datatype Row = Row(id: nat, frame: nat, xMm: real, yMm: real,
                     displacementMm: real, averageVelocity: real, sizeMm: real)

  /** One record of `tracked_data[id]`. */
  datatype LogRecord = LogRecord(frame: nat, xMm: real, yMm: real,
                                 displacementMm: real, averageVelocity: real)

  /**
   * The previous coordinates seen per id, the table rows in display order
   * and the export log per id.
   */
  datatype AggState = AggState(prevCoords: map<nat, Point>, table: seq<Row>,
                               log: map<nat, seq<LogRecord>>)

  /** `total_velocity / velocity_count`, or 0 without samples. */
  function AverageVelocity(r: Record): (v: real)
    ensures r.velocityCount == 0 ==> v == 0.0
    ensures r.velocityCount > 0 ==> v * r.velocityCount as real == r.totalVelocity
  {
    if r.velocityCount > 0 then r.totalVelocity / r.velocityCount as real else 0.0
  }

  /**
   * For a record whose accumulators agree (every sample the tracker adds is
   * positive), the average is 0 exactly when there are no samples, so the
   * table shows exactly the objects that moved at least once.
   */
  lemma AverageZeroIff(r: Record)
    requires Accumulating(r)
    ensures AverageVelocity(r) == 0.0 <==> r.velocityCount == 0
    ensures AverageVelocity(r) >= 0.0
  {
    if r.velocityCount > 0 {
      assert r.totalVelocity > 0.0;
    }
  }

  /** The objects `update_table` shows and logs. */
  predicate Shown(e: Entry)
  {
    AverageVelocity(e.rec) != 0.0
  }

  /** `data.get("prev_coords", (x_pixel, y_pixel))`. */
  function PrevOf(prev: map<nat, Point>, e: Entry): Point
  {
    if e.id in prev then prev[e.id] else e.rec.coords
  }

  /** The displacement in mm from the previous coordinates. */
  function Displacement(sqrt: real -> real, prev: map<nat, Point>, e: Entry): (d: real)
    ensures IsSqrt(sqrt) ==> d >= 0.0
    ensures IsSqrt(sqrt) && e.id !in prev ==> d == 0.0
  {
    ZeroSquare(Distance(sqrt, PrevOf(prev, e), e.rec.coords));
    Distance(sqrt, PrevOf(prev, e), e.rec.coords) * PixelToMm
  }

  lemma ZeroSquare(d: real)
    ensures d >= 0.0 && d * d == 0.0 ==> d == 0.0
  {
    if d > 0.0 {
      assert (d * d) / d == d;
    }
  }

  /** The `table.item(...)` / `table.insert(...)` values of one object. */
  function RowFor(sqrt: real -> real, prev: map<nat, Point>, e: Entry, frame: nat): (row: Row)
    ensures row.id == e.id && row.frame == frame && row.sizeMm == e.rec.sizeMm
    ensures IsSqrt(sqrt) ==> row.displacementMm >= 0.0
    ensures Accumulating(e.rec) ==> row.averageVelocity >= 0.0
  {
    var c := e.rec.coords;
    Row(e.id, frame, c.x as real * PixelToMm, c.y as real * PixelToMm,
        Displacement(sqrt, prev, e), AverageVelocity(e.rec), e.rec.sizeMm)
  }

  /** The record appended to `tracked_data[id]`: the row's values without id and size. */
  function LogFor(sqrt: real -> real, prev: map<nat, Point>, e: Entry, frame: nat): (l: LogRecord)
    ensures var row := RowFor(sqrt, prev, e, frame);
      && l.frame == row.frame && l.xMm == row.xMm && l.yMm == row.yMm
      && l.displacementMm == row.displacementMm && l.averageVelocity == row.averageVelocity
  {
    var row := RowFor(sqrt, prev, e, frame);
    LogRecord(frame, row.xMm, row.yMm, row.displacementMm, row.averageVelocity)
  }

  /** `tracked_data.get(id, [])`. */
  function LogOf(log: map<nat, seq<LogRecord>>, id: nat): seq<LogRecord>
  {
    if id in log then log[id] else []
  }

  function RowIds(t: seq<Row>): set<nat>
  {
    set r | r in t :: r.id
  }

  /** The position of the first row with the given id. */
  function FirstRow(t: seq<Row>, id: nat): (r: Option<nat>)
    ensures r.Some? ==> r.value < |t| && t[r.value].id == id
    ensures r.Some? ==> forall j :: 0 <= j < r.value ==> t[j].id != id
    ensures r.None? <==> id !in RowIds(t)
  {
    if t == [] then None
    else if t[0].id == id then Some(0)
    else match FirstRow(t[1..], id)
      case None =>
        assert forall r :: r in t ==> r == t[0] || r in t[1..];
        None
      case Some(k) => Some(k + 1)
  }

  /** The `for row in table.get_children(): ... break` update of one row. */
  function ReplaceFirst(t: seq<Row>, row: Row): seq<Row>
  {
    match FirstRow(t, row.id)
    case Some(i) => t[i := row]
    case None => t
  }

  /** One object of the snapshot; `existing` is the id set taken when the call started. */
  function ApplyObject(sqrt: real -> real, a: AggState, existing: set<nat>, e: Entry, frame: nat): (r: AggState)
    ensures r.prevCoords == a.prevCoords[e.id := e.rec.coords]
    ensures !Shown(e) ==> r.table == a.table && r.log == a.log
    ensures Shown(e) && e.id in existing ==> |r.table| == |a.table|
    ensures Shown(e) && e.id !in existing ==> r.table == a.table + [RowFor(sqrt, a.prevCoords, e, frame)]
    ensures Shown(e) ==> r.log == a.log[e.id := LogOf(a.log, e.id) + [LogFor(sqrt, a.prevCoords, e, frame)]]
  {
    var row := RowFor(sqrt, a.prevCoords, e, frame);
    var log := LogFor(sqrt, a.prevCoords, e, frame);
    var moved := a.(prevCoords := a.prevCoords[e.id := e.rec.coords]);
    if !Shown(e) then moved
    else
      moved.(table := if e.id in existing then ReplaceFirst(a.table, row) else a.table + [row],
             log := a.log[e.id := LogOf(a.log, e.id) + [log]])
  }

  function ApplyAll(sqrt: real -> real, a: AggState, existing: set<nat>, es: seq<Entry>, frame: nat): AggState
    decreases |es|
  {
    if es == [] then a
    else ApplyObject(sqrt, ApplyAll(sqrt, a, existing, es[..|es| - 1], frame), existing, es[|es| - 1], frame)
  }

  /** `update_table(objects, frame_count)`. */
  function TableAfter(sqrt: real -> real, a: AggState, objects: seq<Entry>, frame: nat): (r: AggState)
    ensures r.prevCoords.Keys == a.prevCoords.Keys + IdsOf(objects)
    ensures |a.table| <= |r.table| <= |a.table| + |objects|
    ensures r.log.Keys >= a.log.Keys
  {
    ApplyAllShape(sqrt, a, RowIds(a.table), objects, frame);
    ApplyAll(sqrt, a, RowIds(a.table), objects, frame)
  }

  // ---------------------------------------------------------------------
  // Properties
  // ---------------------------------------------------------------------

  /** Every object's coordinates are remembered; the table and the log only grow. */
  lemma {:induction false} ApplyAllShape(sqrt: real -> real, a: AggState, existing: set<nat>, es: seq<Entry>, frame: nat)
    ensures var r := ApplyAll(sqrt, a, existing, es, frame);
      && r.prevCoords.Keys == a.prevCoords.Keys + IdsOf(es)
      && |a.table| <= |r.table| <= |a.table| + |es|
      && r.log.Keys >= a.log.Keys
    decreases |es|
  {
    if es != [] {
      ApplyAllShape(sqrt, a, existing, es[..|es| - 1], frame);
      IdsOfSnoc(es);
    }
  }

  function ShownIds(es: seq<Entry>): set<nat>
  {
    set e | e in es && Shown(e) :: e.id
  }

  predicate DistinctIds(es: seq<Entry>)
  {
    forall i, j :: 0 <= i < j < |es| ==> es[i].id != es[j].id
  }

  predicate UniqueRows(t: seq<Row>)
  {
    forall i, j :: 0 <= i < j < |t| ==> t[i].id != t[j].id
  }

  /** A snapshot of a well-formed registry lists every object once. */
  lemma SnapshotDistinct(st: State)
    requires WellFormed(st)
    ensures DistinctIds(st.entries)
  {
  }

  lemma DistinctInit(es: seq<Entry>)
    requires DistinctIds(es) && es != []
    ensures DistinctIds(es[..|es| - 1])
    ensures es[|es| - 1].id !in IdsOf(es[..|es| - 1])
  {
    var init := es[..|es| - 1];
    forall e | e in init
      ensures e.id != es[|es| - 1].id
    {
      var i :| 0 <= i < |init| && init[i] == e;
    }
  }

  lemma IdsOfSnoc(es: seq<Entry>)
    requires es != []
    ensures IdsOf(es) == IdsOf(es[..|es| - 1]) + {es[|es| - 1].id}
    ensures ShownIds(es) == ShownIds(es[..|es| - 1]) + (if Shown(es[|es| - 1]) then {es[|es| - 1].id} else {})
  {
    var init := es[..|es| - 1];
    assert es == init + [es[|es| - 1]];
    assert forall e :: e in es <==> e in init || e == es[|es| - 1];
  }

  /**
   * `prev_coords` ends as the current coordinates of every object of the
   * snapshot, including the skipped ones, and is unchanged for every other id.
   */
  lemma {:induction false} PrevCoordsAdvanced(sqrt: real -> real, a: AggState, existing: set<nat>, es: seq<Entry>, frame: nat)
    requires DistinctIds(es)
    ensures var r := ApplyAll(sqrt, a, existing, es, frame);
      && (forall id :: id in r.prevCoords <==> id in a.prevCoords || id in IdsOf(es))
      && (forall e :: e in es ==> r.prevCoords[e.id] == e.rec.coords)
      && (forall id :: id in a.prevCoords && id !in IdsOf(es) ==> r.prevCoords[id] == a.prevCoords[id])
    decreases |es|
  {
    if es != [] {
      var init := es[..|es| - 1];
      DistinctInit(es);
      PrevCoordsAdvanced(sqrt, a, existing, init, frame);
      IdsOfSnoc(es);
      var r := ApplyAll(sqrt, a, existing, es, frame);
      forall e | e in es
        ensures r.prevCoords[e.id] == e.rec.coords
      {
        if e != es[|es| - 1] {
          assert e in init;
        }
      }
    }
  }

  /** A first sighting has displacement 0. */
  lemma FirstSightingDisplacement(sqrt: real -> real, prev: map<nat, Point>, e: Entry)
    requires IsSqrt(sqrt) && e.id !in prev
    ensures Displacement(sqrt, prev, e) == 0.0
  {
    DistanceZeroIff(sqrt, e.rec.coords.x, e.rec.coords.y, e.rec.coords.x, e.rec.coords.y);
  }

  /**
   * The effect of one `update_table` call on the table, for a table with one
   * row per id and a snapshot with distinct ids: every row keeps its place
   * and id; a row whose object is shown is rewritten with the object's new
   * values, any other row is left as it was; new rows are appended only for
   * shown objects whose id was not in the table; and the table still has
   * one row per id.
   */
  ghost predicate TableEffect(sqrt: real -> real, a: AggState, t: seq<Row>, es: seq<Entry>, frame: nat)
  {
    && UniqueRows(t)
    && |a.table| <= |t|
    && (forall i :: 0 <= i < |a.table| ==> t[i].id == a.table[i].id)
    && (forall i :: 0 <= i < |a.table| && a.table[i].id !in ShownIds(es) ==> t[i] == a.table[i])
    && (forall i :: |a.table| <= i < |t| ==> t[i].id in ShownIds(es) && t[i].id !in RowIds(a.table))
    && (forall e :: e in es && Shown(e) ==> RowFor(sqrt, a.prevCoords, e, frame) in t)
  }

  lemma UniqueRowsFirst(t: seq<Row>, i: nat)
    requires UniqueRows(t) && i < |t|
    ensures FirstRow(t, t[i].id) == Some(i)
  {
    var f := FirstRow(t, t[i].id);
    assert t[i] in t;
  }

  lemma TableStepSkipped(sqrt: real -> real, a: AggState, t: seq<Row>, init: seq<Entry>, e: Entry, frame: nat)
    requires TableEffect(sqrt, a, t, init, frame) && !Shown(e)
    ensures TableEffect(sqrt, a, t, init + [e], frame)
  {
    var es := init + [e];
    assert es[..|es| - 1] == init;
    IdsOfSnoc(es);
    forall x | x in es && Shown(x)
      ensures RowFor(sqrt, a.prevCoords, x, frame) in t
    {
      assert x in init;
    }
  }

  lemma TableStepReplaced(sqrt: real -> real, a: AggState, t: seq<Row>, init: seq<Entry>, e: Entry, frame: nat, i0: nat)
    requires TableEffect(sqrt, a, t, init, frame) && Shown(e) && e.id !in IdsOf(init)
    requires i0 < |a.table| && a.table[i0].id == e.id
    ensures TableEffect(sqrt, a, t[i0 := RowFor(sqrt, a.prevCoords, e, frame)], init + [e], frame)
  {
    var es := init + [e];
    var t' := t[i0 := RowFor(sqrt, a.prevCoords, e, frame)];
    assert es[..|es| - 1] == init;
    IdsOfSnoc(es);
    assert ShownIds(init) <= IdsOf(init);
    forall x | x in es && Shown(x)
      ensures RowFor(sqrt, a.prevCoords, x, frame) in t'
    {
      if x != e {
        assert x in init;
        var j :| 0 <= j < |t| && t[j] == RowFor(sqrt, a.prevCoords, x, frame);
        assert t[j].id != e.id;
        assert t'[j] == t[j];
      } else {
        assert t'[i0] == RowFor(sqrt, a.prevCoords, e, frame);
      }
    }
  }

  lemma TableStepAppended(sqrt: real -> real, a: AggState, t: seq<Row>, init: seq<Entry>, e: Entry, frame: nat)
    requires TableEffect(sqrt, a, t, init, frame) && Shown(e) && e.id !in IdsOf(init)
    requires e.id !in RowIds(a.table)
    ensures TableEffect(sqrt, a, t + [RowFor(sqrt, a.prevCoords, e, frame)], init + [e], frame)
  {
    var es := init + [e];
    var t' := t + [RowFor(sqrt, a.prevCoords, e, frame)];
    assert es[..|es| - 1] == init;
    IdsOfSnoc(es);
    assert ShownIds(init) <= IdsOf(init);
    forall j | 0 <= j < |t|
      ensures t[j].id != e.id
    {
      if j < |a.table| {
        assert a.table[j] in a.table;
      }
    }
    forall x | x in es && Shown(x)
      ensures RowFor(sqrt, a.prevCoords, x, frame) in t'
    {
      if x != e {
        assert x in init;
      } else {
        assert t'[|t|] == RowFor(sqrt, a.prevCoords, e, frame);
      }
    }
  }

  lemma {:induction false} TableUpdated(sqrt: real -> real, a: AggState, es: seq<Entry>, frame: nat)
    requires UniqueRows(a.table) && DistinctIds(es)
    ensures TableEffect(sqrt, a, ApplyAll(sqrt, a, RowIds(a.table), es, frame).table, es, frame)
    decreases |es|
  {
    var existing := RowIds(a.table);
    if es != [] {
      var init := es[..|es| - 1];
      var e := es[|es| - 1];
      assert es == init + [e];
      DistinctInit(es);
      TableUpdated(sqrt, a, init, frame);
      PrevCoordsAdvanced(sqrt, a, existing, init, frame);
      var mid := ApplyAll(sqrt, a, existing, init, frame);
      assert PrevOf(mid.prevCoords, e) == PrevOf(a.prevCoords, e);
      var row := RowFor(sqrt, a.prevCoords, e, frame);
      assert RowFor(sqrt, mid.prevCoords, e, frame) == row;
      if !Shown(e) {
        TableStepSkipped(sqrt, a, mid.table, init, e, frame);
      } else if e.id in existing {
        var old_row :| old_row in a.table && old_row.id == e.id;
        var i0 :| 0 <= i0 < |a.table| && a.table[i0] == old_row;
        UniqueRowsFirst(mid.table, i0);
        TableStepReplaced(sqrt, a, mid.table, init, e, frame, i0);
      } else {
        TableStepAppended(sqrt, a, mid.table, init, e, frame);
      }
    }
  }

  /**
   * The log only grows: each shown object gets exactly one record appended
   * to its list, computed from the coordinates before the call; the lists
   * of all other ids are untouched, and no list is created for them.
   */
  lemma {:induction false} LogAppended(sqrt: real -> real, a: AggState, existing: set<nat>, es: seq<Entry>, frame: nat)
    requires DistinctIds(es)
    ensures var r := ApplyAll(sqrt, a, existing, es, frame);
      && (forall id :: id !in ShownIds(es) ==> (id in r.log <==> id in a.log) && LogOf(r.log, id) == LogOf(a.log, id))
      && (forall e :: e in es && Shown(e) ==> e.id in r.log && r.log[e.id] == LogOf(a.log, e.id) + [LogFor(sqrt, a.prevCoords, e, frame)])
    decreases |es|
  {
    if es != [] {
      var init := es[..|es| - 1];
      var e := es[|es| - 1];
      DistinctInit(es);
      LogAppended(sqrt, a, existing, init, frame);
      IdsOfSnoc(es);
      PrevCoordsAdvanced(sqrt, a, existing, init, frame);
      var mid := ApplyAll(sqrt, a, existing, init, frame);
      assert ShownIds(init) <= IdsOf(init);
      assert PrevOf(mid.prevCoords, e) == PrevOf(a.prevCoords, e);
      assert LogFor(sqrt, mid.prevCoords, e, frame) == LogFor(sqrt, a.prevCoords, e, frame);
      var r := ApplyAll(sqrt, a, existing, es, frame);
      forall x | x in es && Shown(x)
        ensures x.id in r.log && r.log[x.id] == LogOf(a.log, x.id) + [LogFor(sqrt, a.prevCoords, x, frame)]
      {
        if x != e {
          assert x in init;
        }
      }
    }
  }

  /**
   * One `update_table` call on a table with one row per id: the table keeps
   * one row per id and its rows their places, the row of every shown object
   * holds that object's new values, the log gains exactly one record per
   * shown object, and `prev_coords` holds the current coordinates of every
   * object of the snapshot.
   */
  lemma UpdateTableContract(sqrt: real -> real, a: AggState, objects: seq<Entry>, frame: nat)
    requires UniqueRows(a.table) && DistinctIds(objects)
    ensures var r := TableAfter(sqrt, a, objects, frame);
      && TableEffect(sqrt, a, r.table, objects, frame)
      && (forall e, i :: e in objects && Shown(e) && 0 <= i < |r.table| && r.table[i].id == e.id ==>
            r.table[i] == RowFor(sqrt, a.prevCoords, e, frame))
      && (forall e :: e in objects ==> e.id in r.prevCoords && r.prevCoords[e.id] == e.rec.coords)
      && (forall e :: e in objects && Shown(e) ==>
            e.id in r.log && r.log[e.id] == LogOf(a.log, e.id) + [LogFor(sqrt, a.prevCoords, e, frame)])
      && (forall id :: id !in ShownIds(objects) ==> (id in r.log <==> id in a.log) && LogOf(r.log, id) == LogOf(a.log, id))
  {
    var existing := RowIds(a.table);
    var r := TableAfter(sqrt, a, objects, frame);
    TableUpdated(sqrt, a, objects, frame);
    ShownRowIsNew(sqrt, a, r.table, objects, frame);
    PrevCoordsAdvanced(sqrt, a, existing, objects, frame);
    LogAppended(sqrt, a, existing, objects, frame);
    assert forall e :: e in objects ==> e.id in IdsOf(objects);
  }

  lemma ShownRowIsNew(sqrt: real -> real, a: AggState, t: seq<Row>, objects: seq<Entry>, frame: nat)
    requires TableEffect(sqrt, a, t, objects, frame)
    ensures forall e, i :: e in objects && Shown(e) && 0 <= i < |t| && t[i].id == e.id ==>
      t[i] == RowFor(sqrt, a.prevCoords, e, frame)
  {
    forall e, i | e in objects && Shown(e) && 0 <= i < |t| && t[i].id == e.id
      ensures t[i] == RowFor(sqrt, a.prevCoords, e, frame)
    {
      var j :| 0 <= j < |t| && t[j] == RowFor(sqrt, a.prevCoords, e, frame);
      assert !(i < j) && !(j < i);
    }
  }

  /** An object that is skipped changes nothing but its previous coordinates. */
  lemma SkippedTouchesNothing(sqrt: real -> real, a: AggState, existing: set<nat>, e: Entry, frame: nat)
    requires !Shown(e)
    ensures ApplyObject(sqrt, a, existing, e, frame) == a.(prevCoords := a.prevCoords[e.id := e.rec.coords])
  {
  }

  // ---------------------------------------------------------------------
  // The imperative table
  // ---------------------------------------------------------------------

  class Aggregator {
    var prevCoords: map<nat, Point>
    var table: seq<Row>
    var log: map<nat, seq<LogRecord>>
    const sqrt: real -> real

    function Model(): AggState
      reads this
    {
      AggState(prevCoords, table, log)
    }

    /** `start_video` clears the table rows and sets `tracked_data = {}`. */
    constructor (sqrt: real -> real)
      ensures Model() == AggState(map[], [], map[])
      ensures this.sqrt == sqrt
    {
      prevCoords := map[];
      table := [];
      log := map[];
      this.sqrt := sqrt;
    }

    /** The scan of `table.get_children()` for the first row with this id. */
    method FindRow(id: nat) returns (r: Option<nat>)
      ensures r == FirstRow(table, id)
    {
      var i := 0;
      while i < |table|
        invariant 0 <= i <= |table|
        invariant forall j :: 0 <= j < i ==> table[j].id != id
      {
        if table[i].id == id {
          return Some(i);
        }
        i := i + 1;
      }
      return None;
    }

    /** The body of `for obj_id, data in objects.items()`. */
    method ApplyOne(e: Entry, existing: set<nat>, frame: nat)
      modifies this
      ensures Model() == ApplyObject(sqrt, old(Model()), existing, e, frame)
    {
      var c := e.rec.coords;
      var prev := if e.id in prevCoords then prevCoords[e.id] else c;
      var displacement := Distance(sqrt, prev, c) * PixelToMm;
      prevCoords := prevCoords[e.id := c];
      var average := if e.rec.velocityCount > 0 then e.rec.totalVelocity / e.rec.velocityCount as real else 0.0;
      if average != 0.0 {
        var xMm, yMm := c.x as real * PixelToMm, c.y as real * PixelToMm;
        var row := Row(e.id, frame, xMm, yMm, displacement, average, e.rec.sizeMm);
        if e.id in existing {
          var i := FindRow(e.id);
          if i.Some? {
            table := table[i.value := row];
          }
        } else {
          table := table + [row];
        }
        var entries := if e.id in log then log[e.id] else [];
        log := log[e.id := entries + [LogRecord(frame, xMm, yMm, displacement, average)]];
      }
    }

    method UpdateTable(objects: seq<Entry>, frame: nat)
      modifies this
      ensures Model() == TableAfter(sqrt, old(Model()), objects, frame)
    {
      ghost var a0 := Model();
      var existing := set r | r in table :: r.id;
      var i := 0;
      while i < |objects|
        invariant 0 <= i <= |objects|
        invariant Model() == ApplyAll(sqrt, a0, existing, objects[..i], frame)
      {
        assert objects[..i + 1][..i] == objects[..i];
        ApplyOne(objects[i], existing, frame);
        i := i + 1;
      }
      assert objects[..|objects|] == objects;
    }
  }
}
