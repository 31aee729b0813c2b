/** Timers and their deadline-sorted list, src/core/co_timer.c and co_timer_manager.c. */
module TimerManager {
  import opened Machine
  import opened WorkerModel
  import opened LinkedList

  class Timer {
    var running: bool
    var queued: bool
    var repeat: bool
    var msec: u32

    constructor (msec: u32, repeat: bool)
      ensures State() == TimerState(false, false, repeat, msec)
    {
      running, queued := false, false;
      this.repeat, this.msec := repeat, msec;
    }

    function State(): TimerState
      reads this
    {
      TimerState(running, queued, repeat, msec)
    }
  }

  lemma ScanStep<K>(list: seq<Entry<K>>, end: nat, k: nat)
    requires k < |list| && InsertAt(list, end) == InsertAt(list, end, k)
    ensures list[k].end > end ==> forall e: Entry<K> :: e.end == end ==> Inserted(list, e) == With(list, k, e)
    ensures list[k].end <= end ==> InsertAt(list, end) == InsertAt(list, end, k + 1)
  {
  }

  lemma ScanEnd<K>(list: seq<Entry<K>>, e: Entry<K>)
    requires InsertAt(list, e.end) == InsertAt(list, e.end, |list|)
    ensures Inserted(list, e) == list + [e]
  {
    assert InsertAt(list, e.end, |list|) == |list|;
    hide InsertAt;
    assert list[..|list|] == list && list[|list|..] == [];
  }

  class TimerManager {
    const timers: List<Entry<Timer>>

    ghost predicate Valid()
      reads this, timers, timers.nodes
    {
      timers.Valid()
    }

    ghost function Entries(): seq<Entry<Timer>>
      reads this, timers, timers.nodes
    {
      timers.Values()
    }

    constructor ()
      ensures Valid() && Entries() == [] && fresh(timers) && timers.Spine() == {}
    {
      timers := new List<Entry<Timer>>();
    }

    /** Inserts before the first entry with a strictly later deadline. */
    method Register(timer: Timer, now: nat)
      requires Valid()
      modifies timers, timers.Spine()
      ensures Valid() && fresh(timers.Spine() - old(timers.Spine()))
      ensures Entries() == Inserted(old(Entries()), Entry(now + timer.msec, timer))
    {
      hide InsertAt, Inserted, With, List.Valid, List.Values;
      timers.Links(0);
      var item := Entry(now + timer.msec, timer);
      ghost var list := Entries();
      var it := timers.head;
      ghost var k := 0;
      while it != null
        invariant Valid() && timers.nodes == old(timers.nodes) && Entries() == list
        invariant k <= |timers.nodes| && it == (if k < |timers.nodes| then timers.nodes[k] else null)
        invariant InsertAt(list, item.end) == InsertAt(list, item.end, k)
        decreases |timers.nodes| - k
      {
        timers.Links(k);
        ScanStep(list, item.end, k);
        if it.data.end > item.end {
          var _ := timers.Insert(it, item, k);
          return;
        }
        it := it.next;
        k := k + 1;
      }
      ScanEnd(list, item);
      var _ := timers.AddTail(item);
    }

    /** Removes the first entry of the timer, if there is one. */
    method Unregister(timer: Timer) returns (found: bool)
      requires Valid()
      modifies timers, timers.Spine()
      ensures Valid() && timers.Spine() <= old(timers.Spine())
      ensures Entries() == Removed(old(Entries()), timer)
      ensures found == (PositionOf(old(Entries()), timer) < |old(Entries())|)
    {
      hide List.Valid, List.Values;
      ghost var list := Entries();
      timers.Links(0);
      var it := timers.head;
      ghost var k := 0;
      while it != null
        invariant Valid() && timers.nodes == old(timers.nodes) && Entries() == list
        invariant k <= |timers.nodes| && it == (if k < |timers.nodes| then timers.nodes[k] else null)
        invariant PositionOf(list, timer) == PositionOf(list, timer, k)
        decreases |timers.nodes| - k
      {
        timers.Links(k);
        if it.data.timer == timer {
          timers.RemoveAt(it, k);
          return true;
        }
        it := it.next;
        k := k + 1;
      }
      found := false;
    }

    method GetNextTimeout(now: nat) returns (msec: u32)
      requires Valid()
      ensures msec == NextTimeout(Entries(), now)
      ensures Entries() != [] && now <= Entries()[0].end < now + TWO_32 ==> now + msec == Entries()[0].end
    {
      var head := timers.GetHead();
      if head.None? {
        msec := INFINITE;
      } else if now >= head.value.end {
        msec := 0;
      } else {
        msec := Wrap32(head.value.end - now);
      }
    }

    method RemoveHeadTimer() returns (timer: Timer?)
      requires Valid()
      modifies timers, timers.Spine()
      ensures Valid() && timers.Spine() <= old(timers.Spine())
      ensures old(Entries()) == [] ==> timer == null && Entries() == []
      ensures old(Entries()) != [] ==> timer == old(Entries())[0].timer && Entries() == old(Entries())[1..]
    {
      var head := timers.GetHead();
      timer := null;
      if head.Some? {
        timer := head.value.timer;
        timers.RemoveHead();
      }
    }
  }
}
