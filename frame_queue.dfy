/**
 * The frame queue between VAR1.py's reader and processor: a FIFO of at most
 * 20 frames. The reader's `put` on a full queue gives up and the frame is
 * dropped; reading goes on with the next frame. The processor takes frames
 * from the front. The two threads are modelled by one sequence of events
 * (`Replay`), each a push by the reader or a take by the processor.
 */
module FrameQueue {
  import opened Wrappers

  /** `queue.Queue(maxsize=20)`. */
  const FrameQueueCapacity: nat := 20

  datatype Event<T> = Push(frame: T) | Take

  /**
   * The queue contents, the frames taken so far, and one flag per push
   * saying whether that frame was accepted.
   */
  datatype QueueTrace<T> = QueueTrace(items: seq<T>, taken: seq<T>, accepted: seq<bool>)

  /** A push on a full queue drops the frame; a take on an empty queue takes nothing. */
  function Step<T>(q: QueueTrace<T>, capacity: nat, ev: Event<T>): (r: QueueTrace<T>)
    ensures ev.Push? && |q.items| < capacity ==> r.items == q.items + [ev.frame] && r.taken == q.taken
    ensures ev.Push? && |q.items| >= capacity ==> r.items == q.items && r.taken == q.taken
    ensures ev.Push? ==> r.accepted == q.accepted + [|q.items| < capacity]
    ensures ev.Take? && q.items != [] ==> r.items == q.items[1..] && r.taken == q.taken + [q.items[0]]
    ensures ev.Take? ==> r.accepted == q.accepted
    ensures ev.Take? && q.items == [] ==> r == q
  {
    match ev
    case Push(x) =>
      if |q.items| < capacity then q.(items := q.items + [x], accepted := q.accepted + [true])
      else q.(accepted := q.accepted + [false])
    case Take =>
      if q.items == [] then q else q.(items := q.items[1..], taken := q.taken + [q.items[0]])
  }

  /** The events in order, from an empty queue. */
  function Replay<T>(capacity: nat, evs: seq<Event<T>>): (r: QueueTrace<T>)
    ensures |r.items| <= capacity
    decreases |evs|
  {
    if evs == [] then QueueTrace([], [], [])
    else Step(Replay(capacity, evs[..|evs| - 1]), capacity, evs[|evs| - 1])
  }

  /** The frames the reader pushed, in order. */
  function Pushed<T>(evs: seq<Event<T>>): seq<T>
    decreases |evs|
  {
    if evs == [] then []
    else Pushed(evs[..|evs| - 1]) + (if evs[|evs| - 1].Push? then [evs[|evs| - 1].frame] else [])
  }

  /** The elements of `xs` whose flag is `keep`, in order. */
  function Select<T>(xs: seq<T>, flags: seq<bool>, keep: bool): (r: seq<T>)
    requires |flags| == |xs|
    ensures |r| <= |xs|
    decreases |xs|
  {
    if xs == [] then []
    else Select(xs[..|xs| - 1], flags[..|xs| - 1], keep) + (if flags[|xs| - 1] == keep then [xs[|xs| - 1]] else [])
  }

  /**
   * However the two threads interleave, the queue never holds more than its
   * capacity, and the frames taken followed by the frames still queued are
   * exactly the accepted pushes, in the order they were pushed.
   */
  lemma {:induction false} ReplayFifo<T>(capacity: nat, evs: seq<Event<T>>)
    ensures var r := Replay(capacity, evs);
      && |r.items| <= capacity
      && |r.accepted| == |Pushed(evs)|
      && r.taken + r.items == Select(Pushed(evs), r.accepted, true)
    decreases |evs|
  {
    if evs != [] {
      var init := evs[..|evs| - 1];
      var q := Replay(capacity, init);
      var P := Pushed(init);
      ReplayFifo(capacity, init);
      match evs[|evs| - 1]
      case Push(x) =>
        var P' := Pushed(evs);
        assert P' == P + [x];
        assert P'[..|P'| - 1] == P;
        var r := Replay(capacity, evs);
        assert r.accepted[..|P'| - 1] == q.accepted;
      case Take =>
        assert Pushed(evs) == P;
        if q.items != [] {
          assert q.taken + [q.items[0]] + q.items[1..] == q.taken + q.items;
        }
    }
  }

  /** A frame is dropped exactly when the queue is full at its push. */
  lemma PushDropsWhenFull<T>(q: QueueTrace<T>, capacity: nat, x: T)
    requires |q.items| <= capacity
    ensures var r := Step(q, capacity, Push(x));
      && |r.items| <= capacity
      && (r.items == q.items <==> |q.items| == capacity)
  {
  }

  class BoundedQueue<T> {
    var items: seq<T>
    const capacity: nat

    ghost predicate Valid()
      reads this
    {
      |items| <= capacity
    }

    constructor (capacity: nat)
      ensures Valid() && items == [] && this.capacity == capacity
    {
      items := [];
      this.capacity := capacity;
    }

    function IsEmpty(): (b: bool)
      reads this
      ensures b <==> |items| == 0
    {
      |items| == 0
    }

    /** `frame_queue.put(frame, timeout=1)`, with `queue.Full` meaning the frame is dropped. */
    method Put(x: T) returns (accepted: bool)
      requires Valid()
      modifies this`items
      ensures Valid()
      ensures accepted <==> |old(items)| < capacity
      ensures items == if accepted then old(items) + [x] else old(items)
    {
      if |items| < capacity {
        items := items + [x];
        accepted := true;
      } else {
        accepted := false;
      }
    }

    /** `frame_queue.get(timeout=1)`, with `queue.Empty` as None. */
    method Get() returns (r: Option<T>)
      requires Valid()
      modifies this`items
      ensures Valid()
      ensures old(items) == [] ==> r == None && items == []
      ensures old(items) != [] ==> r == Some(old(items)[0]) && items == old(items)[1..]
    {
      if items == [] {
        r := None;
      } else {
        r := Some(items[0]);
        items := items[1..];
      }
    }
  }

  /** `queue.Queue(maxsize=20)`: the empty frame queue of the pipeline. */
  method NewFrameQueue<T>() returns (q: BoundedQueue<T>)
    ensures fresh(q) && q.Valid()
    ensures q.items == [] && q.capacity == FrameQueueCapacity
  {
    q := new BoundedQueue(FrameQueueCapacity);
  }

  /**
   * The reader's loop `while not stop_event.is_set()` over the frames of the
   * video while nothing is taken: the frames that fit are queued in order,
   * the rest are dropped.
   */
  method VideoReader<T>(q: BoundedQueue<T>, frames: seq<T>) returns (dropped: seq<T>)
    requires q.Valid()
    modifies q
    ensures q.Valid()
    ensures var n := if |frames| < q.capacity - |old(q.items)| then |frames| else q.capacity - |old(q.items)|;
      q.items == old(q.items) + frames[..n] && dropped == frames[n..]
  {
    var i := 0;
    dropped := [];
    ghost var n := if |frames| < q.capacity - |q.items| then |frames| else q.capacity - |q.items|;
    ghost var start := q.items;
    while i < |frames|
      invariant 0 <= i <= |frames|
      invariant q.Valid()
      invariant i <= n ==> q.items == start + frames[..i] && dropped == []
      invariant i > n ==> q.items == start + frames[..n] && dropped == frames[n..i]
    {
      var ok := q.Put(frames[i]);
      if !ok {
        dropped := dropped + [frames[i]];
      }
      i := i + 1;
    }
  }
}
