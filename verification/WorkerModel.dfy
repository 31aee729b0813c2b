/** The event worker and its timers as a state machine over its atomic steps,
    src/core/co_event_worker.c, co_timer.c and co_timer_manager.c.

    A timer is identified by a key; the heap classes use the timer object itself. Producers on other
    threads only add events; everything else happens on the worker's own thread, one function a step. */
module WorkerModel {
  import opened Machine

  datatype Event<K> =
    | TimerEvent(timer: K, live: bool)   // id TIMER, param1 the timer, param2 cleared on cancellation
    | StopEvent
    | OtherEvent(id: u16, param1: nat, param2: nat)

  datatype TimerState = TimerState(running: bool, queued: bool, repeat: bool, msec: u32)

  /** A node of the deadline list. */
  datatype Entry<K> = Entry(end: nat, timer: K)

  /** The history of a timer: what was asked of it, and when it fired. */
  datatype Mark<K> = Started(timer: K) | Stopped(timer: K) | Fired(timer: K)

  datatype Worker<K> = Worker(
    timers: map<K, TimerState>,
    list: seq<Entry<K>>,
    queue: seq<Event<K>>,
    inHand: Option<Event<K>>,     // popped, not yet dispatched
    running: bool,
    stopReceiving: bool,
    now: nat,
    accepted: seq<Event<K>>,      // as they were when added
    dispatched: seq<Event<K>>,    // as they were when popped
    log: seq<Mark<K>>)

  function Initial<K>(now: nat): Worker<K> {
    Worker(map[], [], [], None, true, false, now, [], [], [])
  }

  // ---- the deadline list ----

  /** Position of the first entry that ends strictly later: where the scan inserts. */
  function InsertAt<K>(list: seq<Entry<K>>, end: nat, from: nat := 0): (k: nat)
    requires from <= |list|
    ensures from <= k <= |list|
    ensures forall i :: from <= i < k ==> list[i].end <= end
    ensures k < |list| ==> list[k].end > end
    decreases |list| - from
  {
    if from == |list| || list[from].end > end then from else InsertAt(list, end, from + 1)
  }

  function Inserted<K>(list: seq<Entry<K>>, e: Entry<K>): seq<Entry<K>> {
    var k := InsertAt(list, e.end);
    list[..k] + [e] + list[k..]
  }

  /** Position of the first entry of a timer, or the length. */
  function PositionOf<K(==)>(list: seq<Entry<K>>, t: K, from: nat := 0): (k: nat)
    requires from <= |list|
    ensures from <= k <= |list|
    ensures forall i :: from <= i < k ==> list[i].timer != t
    ensures k < |list| ==> list[k].timer == t
    decreases |list| - from
  {
    if from == |list| || list[from].timer == t then from else PositionOf(list, t, from + 1)
  }

  function Removed<K(==)>(list: seq<Entry<K>>, t: K): seq<Entry<K>> {
    var k := PositionOf(list, t);
    if k < |list| then list[..k] + list[k + 1..] else list
  }

  const INFINITE: u32 := 0xFFFF_FFFF

  /** The time to wait for the head of the list, cast to 32 bits. */
  function NextTimeout<K>(list: seq<Entry<K>>, now: nat): u32 {
    if list == [] then INFINITE
    else if now >= list[0].end then 0
    else Wrap32(list[0].end - now)
  }

  // ---- the event queue ----

  /** Position of the first live event of a timer, or the length. */
  function LiveAt<K(==)>(queue: seq<Event<K>>, t: K, from: nat := 0): (k: nat)
    requires from <= |queue|
    ensures from <= k <= |queue|
    ensures forall i :: from <= i < k ==> queue[i] != TimerEvent(t, true)
    ensures k < |queue| ==> queue[k] == TimerEvent(t, true)
    decreases |queue| - from
  {
    if from == |queue| || queue[from] == TimerEvent(t, true) then from else LiveAt(queue, t, from + 1)
  }

  /** Everything popped or queued, in dispatch order. */
  function Pipeline<K>(s: Worker<K>): seq<Event<K>> {
    match s.inHand
    case None => s.queue
    case Some(e) => [e] + s.queue
  }

  /** An event without the cancellation flag. */
  function Erase<K>(e: Event<K>): Event<K> {
    if e.TimerEvent? then TimerEvent(e.timer, true) else e
  }

  function EraseAll<K>(es: seq<Event<K>>): (r: seq<Event<K>>)
    ensures |r| == |es| && forall i :: 0 <= i < |es| ==> r[i] == Erase(es[i])
  {
    seq(|es|, i requires 0 <= i < |es| => Erase(es[i]))
  }

  // ---- the steps ----

  function Add<K>(s: Worker<K>, e: Event<K>): Worker<K> {
    if s.stopReceiving then s
    else s.(stopReceiving := e.StopEvent?, queue := s.queue + [e], accepted := s.accepted + [e])
  }

  function Start<K>(s: Worker<K>, t: K): Worker<K>
    requires t in s.timers
  {
    var ts := s.timers[t];
    if ts.running then s
    else s.(list := Inserted(s.list, Entry(s.now + ts.msec, t)),
            timers := s.timers[t := ts.(running := true)], log := s.log + [Started(t)])
  }

  /** Cancellation finds a timer in the queue or in the list. With the queued flag set but no live event
      queued, the program's assertion fails; `CancelFindsEvent` excludes that. */
  function Stop<K>(s: Worker<K>, t: K): Worker<K>
    requires t in s.timers
  {
    var ts := s.timers[t];
    if !ts.running then s
    else
      var s' := s.(timers := s.timers[t := ts.(running := false, queued := false)], log := s.log + [Stopped(t)]);
      if ts.queued then
        var k := LiveAt(s.queue, t);
        if k < |s.queue| then s'.(queue := s.queue[k := TimerEvent(t, false)]) else s'
      else s'.(list := Removed(s.list, t))
  }

  /** One turn of the check loop: the head of the list moves to the queue, unless the queue has closed. */
  function Expire<K>(s: Worker<K>): Worker<K>
    requires s.list != [] && s.list[0].timer in s.timers
  {
    var t := s.list[0].timer;
    var s' := Add(s.(list := s.list[1..]), TimerEvent(t, true));
    if s.stopReceiving then s' else s'.(timers := s'.timers[t := s'.timers[t].(queued := true)])
  }

  function Pop<K>(s: Worker<K>): Worker<K>
    requires s.inHand.None?
  {
    if s.queue == [] then s else s.(queue := s.queue[1..], inHand := Some(s.queue[0]))
  }

  /** A live timer event resets the timer, restarts it if it repeats, and runs its handler, whose calls
      are the steps that follow. */
  function Dispatch<K>(s: Worker<K>): Worker<K>
    requires s.inHand.Some?
    requires s.inHand.value.TimerEvent? && s.inHand.value.live ==> s.inHand.value.timer in s.timers
  {
    var e := s.inHand.value;
    var s' := s.(inHand := None, dispatched := s.dispatched + [e]);
    match e
    case StopEvent => s'.(running := false)
    case OtherEvent(_, _, _) => s'
    case TimerEvent(t, live) =>
      if !live then s'
      else
        var ts := s.timers[t];
        var s'' := s'.(timers := s.timers[t := ts.(running := false, queued := false)], log := s.log + [Fired(t)]);
        if ts.repeat then Start(s'', t) else s''
  }

  function Create<K>(s: Worker<K>, t: K, msec: u32, repeat: bool): Worker<K>
    requires t !in s.timers
  {
    s.(timers := s.timers[t := TimerState(false, false, repeat, msec)])
  }

  /** Destroying stops first; the key may be used again. */
  function Destroy<K>(s: Worker<K>, t: K): Worker<K>
    requires t in s.timers
  {
    var s' := Stop(s, t);
    s'.(timers := s'.timers - {t})
  }
}
