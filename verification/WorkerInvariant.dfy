/** What every reachable state of the event worker satisfies. */
module WorkerInvariant {
  import opened Machine
  import opened WorkerModel

  predicate IsLive<K>(e: Event<K>) {
    e.TimerEvent? && e.live
  }

  /** Where a timer may be: at most once in the list, at most once live in the pipeline, never both, and
      in the place its flags say. A running timer can be in neither only after STOP closed the queue. */
  ghost predicate Owned<K>(s: Worker<K>) {
    && ListOwned(s) && LiveOwned(s) && Located(s)
  }

  ghost predicate ListOwned<K>(s: Worker<K>) {
    && (forall i :: 0 <= i < |s.list| ==>
          s.list[i].timer in s.timers && s.timers[s.list[i].timer].running && !s.timers[s.list[i].timer].queued)
    && forall i, j :: 0 <= i < j < |s.list| ==> s.list[i].timer != s.list[j].timer
  }

  ghost predicate LiveOwned<K>(s: Worker<K>) {
    var p := Pipeline(s);
    && (forall i :: 0 <= i < |p| && IsLive(p[i]) ==>
          p[i].timer in s.timers && s.timers[p[i].timer].running && s.timers[p[i].timer].queued)
    && forall i, j :: 0 <= i < j < |p| && IsLive(p[i]) && IsLive(p[j]) ==> p[i].timer != p[j].timer
  }

  ghost predicate Located<K>(s: Worker<K>) {
    forall t :: t in s.timers ==>
      && (s.timers[t].queued ==> s.timers[t].running && TimerEvent(t, true) in Pipeline(s))
      && (s.timers[t].running && !s.timers[t].queued ==> InList(s.list, t) || s.stopReceiving)
  }

  predicate InList<K(==)>(list: seq<Entry<K>>, t: K) {
    exists i :: 0 <= i < |list| && list[i].timer == t
  }

  /** Sorted by deadline, every deadline within a 32-bit distance of the clock. */
  ghost predicate Scheduled<K>(s: Worker<K>) {
    && (forall i, j :: 0 <= i < j < |s.list| ==> s.list[i].end <= s.list[j].end)
    && forall i :: 0 <= i < |s.list| ==> s.list[i].end < s.now + TWO_32
  }

  /** Accepted is dispatched followed by the pipeline, cancellation flags aside. */
  ghost predicate Fifo<K>(s: Worker<K>) {
    EraseAll(s.accepted) == EraseAll(s.dispatched + Pipeline(s))
  }

  /** STOP is accepted last, and running ends when it is dispatched. */
  ghost predicate Closing<K>(s: Worker<K>) {
    && (forall i :: 0 <= i < |s.accepted| - 1 ==> !s.accepted[i].StopEvent?)
    && (s.stopReceiving <==> s.accepted != [] && s.accepted[|s.accepted| - 1].StopEvent?)
    && (!s.running <==> StopEvent in s.dispatched)
  }

  function Last<K(==)>(log: seq<Mark<K>>, t: K): Option<Mark<K>> {
    if log == [] then None
    else if log[|log| - 1].timer == t then Some(log[|log| - 1])
    else Last(log[..|log| - 1], t)
  }

  /** A timer runs exactly when it was started and neither stopped nor fired since, and it only ever
      fired in that state. */
  ghost predicate Matched<K>(s: Worker<K>) {
    && (forall t :: t in s.timers ==> (s.timers[t].running <==> Last(s.log, t) == Some(Started(t))))
    && (forall i :: 0 <= i < |s.log| && Last(s.log, s.log[i].timer) == Some(Started(s.log[i].timer)) ==> s.log[i].timer in s.timers)
    && FiresMatched(s.log)
  }

  ghost predicate FiresMatched<K>(log: seq<Mark<K>>) {
    forall i :: 0 <= i < |log| && log[i].Fired? ==> Last(log[..i], log[i].timer) == Some(Started(log[i].timer))
  }

  ghost predicate Inv<K>(s: Worker<K>) {
    Owned(s) && Scheduled(s) && Fifo(s) && Closing(s) && Matched(s)
  }

  lemma InitialInv<K>(now: nat)
    ensures Inv(Initial<K>(now))
  {
  }

  // ---- the log ----

  lemma LastSnoc<K>(log: seq<Mark<K>>, m: Mark<K>, t: K)
    ensures Last(log + [m], t) == if m.timer == t then Some(m) else Last(log, t)
  {
    assert (log + [m])[..|log|] == log;
  }

  /** Marking a timer keeps the log matched when its flag follows the mark. */
  lemma MatchedSnoc<K>(s: Worker<K>, s': Worker<K>, m: Mark<K>)
    requires Matched(s) && s'.log == s.log + [m]
    requires m.timer in s.timers && s'.timers.Keys == s.timers.Keys
    requires forall t :: t in s.timers && t != m.timer ==> s'.timers[t].running == s.timers[t].running
    requires s'.timers[m.timer].running == m.Started?
    requires m.Fired? ==> s.timers[m.timer].running
    ensures Matched(s')
  {
    forall t | t in s'.timers ensures s'.timers[t].running <==> Last(s'.log, t) == Some(Started(t)) {
      LastSnoc(s.log, m, t);
    }
    forall i | 0 <= i < |s'.log| && Last(s'.log, s'.log[i].timer) == Some(Started(s'.log[i].timer))
      ensures s'.log[i].timer in s'.timers
    {
      LastSnoc(s.log, m, s'.log[i].timer);
    }
    forall i | 0 <= i < |s'.log| && s'.log[i].Fired?
      ensures Last(s'.log[..i], s'.log[i].timer) == Some(Started(s'.log[i].timer))
    {
      assert s'.log[..i] == s.log[..i];
    }
  }

  // ---- adding events ----

  lemma PipelineAdd<K>(s: Worker<K>, e: Event<K>)
    requires !s.stopReceiving
    ensures Pipeline(Add(s, e)) == Pipeline(s) + [e]
  {
  }

  lemma EraseConcat<K>(a: seq<Event<K>>, b: seq<Event<K>>)
    ensures EraseAll(a + b) == EraseAll(a) + EraseAll(b)
  {
  }

  lemma AddKeepsOrder<K>(s: Worker<K>, e: Event<K>)
    requires Fifo(s) && Closing(s)
    ensures Fifo(Add(s, e)) && Closing(Add(s, e))
  {
    if !s.stopReceiving {
      PipelineAdd(s, e);
      EraseConcat(s.accepted, [e]);
      EraseConcat(s.dispatched + Pipeline(s), [e]);
      assert s.dispatched + Pipeline(s) + [e] == s.dispatched + (Pipeline(s) + [e]);
    }
  }

  lemma AddKeepsInv<K>(s: Worker<K>, e: Event<K>)
    requires Inv(s) && !e.TimerEvent?
    ensures Inv(Add(s, e))
  {
    hide Fifo, Closing, Matched, ListOwned, Located, LiveOwned;
    AddKeepsOrder(s, e);
    if !s.stopReceiving {
      MatchedUnchanged(s, Add(s, e));
      AddKeepsOwned(s, e);
    }
  }

  lemma AddKeepsOwned<K>(s: Worker<K>, e: Event<K>)
    requires Owned(s) && !e.TimerEvent? && !s.stopReceiving
    ensures Owned(Add(s, e))
  {
    PipelineAdd(s, e);
    forall t | t in s.timers && s.timers[t].queued ensures TimerEvent(t, true) in Pipeline(Add(s, e)) {
    }
  }

  lemma MatchedUnchanged<K>(s: Worker<K>, s': Worker<K>)
    requires Matched(s) && s'.log == s.log && s'.timers.Keys == s.timers.Keys
    requires forall t :: t in s.timers ==> s'.timers[t].running == s.timers[t].running
    ensures Matched(s')
  {
  }

  lemma TickKeepsInv<K>(s: Worker<K>, now: nat)
    requires Inv(s) && now >= s.now
    ensures Inv(s.(now := now))
  {
    hide Fifo, Matched;
    MatchedUnchanged(s, s.(now := now));
    FifoUnchanged(s, s.(now := now));
  }

  lemma FifoUnchanged<K>(s: Worker<K>, s': Worker<K>)
    requires Fifo(s) && s'.accepted == s.accepted && s'.dispatched == s.dispatched && EraseAll(Pipeline(s')) == EraseAll(Pipeline(s))
    ensures Fifo(s')
  {
    EraseConcat(s.dispatched, Pipeline(s));
    EraseConcat(s.dispatched, Pipeline(s'));
  }

  // ---- starting ----

  lemma InsertedAt<K>(list: seq<Entry<K>>, e: Entry<K>) returns (k: nat)
    ensures k <= |list| && |Inserted(list, e)| == |list| + 1 && Inserted(list, e)[k] == e
    ensures forall i :: 0 <= i < k ==> Inserted(list, e)[i] == list[i] && list[i].end <= e.end
    ensures forall i :: k < i <= |list| ==> Inserted(list, e)[i] == list[i - 1]
    ensures k < |list| ==> list[k].end > e.end
  {
    k := InsertAt(list, e.end);
  }

  lemma StartKeepsList<K>(s: Worker<K>, t: K)
    requires ListOwned(s) && Scheduled(s) && t in s.timers && !s.timers[t].running && !s.timers[t].queued
    ensures ListOwned(Start(s, t)) && Scheduled(Start(s, t))
  {
    hide Inserted;
    var k := InsertedAt(s.list, Entry(s.now + s.timers[t].msec, t));
  }

  lemma StartKeepsPlaces<K>(s: Worker<K>, t: K)
    requires LiveOwned(s) && Located(s) && t in s.timers && !s.timers[t].running
    ensures LiveOwned(Start(s, t)) && Located(Start(s, t))
  {
    hide Inserted;
    var s' := Start(s, t);
    var k := InsertedAt(s.list, Entry(s.now + s.timers[t].msec, t));
    assert Pipeline(s') == Pipeline(s);
    forall u | u in s.timers && InList(s.list, u) ensures InList(s'.list, u) {
      var i :| 0 <= i < |s.list| && s.list[i].timer == u;
      assert s'.list[if i < k then i else i + 1].timer == u;
    }
  }

  lemma StartKeepsInv<K>(s: Worker<K>, t: K)
    requires Inv(s) && t in s.timers
    ensures Inv(Start(s, t))
  {
    hide Fifo, Matched, ListOwned, LiveOwned, Scheduled;
    if !s.timers[t].running {
      var s' := Start(s, t);
      MatchedSnoc(s, s', Started(t));
      FifoUnchanged(s, s');
      StartKeepsList(s, t);
      StartKeepsPlaces(s, t);
    }
  }

  // ---- stopping ----

  /** The assertion at the cancellation of a queued timer holds: its live event is in the queue. */
  lemma CancelFindsEvent<K>(s: Worker<K>, t: K)
    requires Inv(s) && s.inHand.None? && t in s.timers && s.timers[t].queued
    ensures LiveAt(s.queue, t) < |s.queue|
  {
    assert TimerEvent(t, true) in s.queue;
  }

  lemma CancelLive<K>(s: Worker<K>, t: K)
    requires Inv(s) && s.inHand.None? && t in s.timers && s.timers[t].running && s.timers[t].queued
    ensures Inv(Stop(s, t))
  {
    hide Fifo, Matched, Owned, Scheduled;
    var s' := Stop(s, t);
    CancelFindsEvent(s, t);
    MatchedSnoc(s, s', Stopped(t));
    assert EraseAll(s'.queue) == EraseAll(s.queue);
    FifoUnchanged(s, s');
    CancelLiveOwned(s, t);
  }

  lemma CancelLiveOwned<K>(s: Worker<K>, t: K)
    requires Owned(s) && Scheduled(s) && s.inHand.None? && t in s.timers && s.timers[t].running && s.timers[t].queued
    requires LiveAt(s.queue, t) < |s.queue|
    ensures Owned(Stop(s, t)) && Scheduled(Stop(s, t))
  {
    var s' := Stop(s, t);
    forall u | u in s'.timers && s'.timers[u].queued ensures TimerEvent(u, true) in s'.queue {
      var i :| 0 <= i < |s.queue| && s.queue[i] == TimerEvent(u, true);
      assert s'.queue[i] == TimerEvent(u, true);
    }
  }

  lemma RemovedAt<K>(list: seq<Entry<K>>, t: K) returns (k: nat)
    ensures k <= |list| && (k < |list| ==> list[k].timer == t)
    ensures k == |list| ==> Removed(list, t) == list && !InList(list, t)
    ensures k < |list| ==> |Removed(list, t)| == |list| - 1
    ensures forall i :: 0 <= i < k ==> Removed(list, t)[i] == list[i]
    ensures forall i :: k <= i < |list| - 1 ==> Removed(list, t)[i] == list[i + 1]
  {
    k := PositionOf(list, t);
  }

  lemma CancelKeepsList<K>(s: Worker<K>, t: K)
    requires ListOwned(s) && Scheduled(s) && t in s.timers && s.timers[t].running && !s.timers[t].queued
    ensures ListOwned(Stop(s, t)) && Scheduled(Stop(s, t))
  {
    hide Removed;
    var k := RemovedAt(s.list, t);
  }

  lemma CancelKeepsPlaces<K>(s: Worker<K>, t: K)
    requires LiveOwned(s) && Located(s) && t in s.timers && s.timers[t].running && !s.timers[t].queued
    ensures LiveOwned(Stop(s, t)) && Located(Stop(s, t))
  {
    hide Removed;
    var s' := Stop(s, t);
    var k := RemovedAt(s.list, t);
    assert Pipeline(s') == Pipeline(s);
    forall u | u in s.timers && u != t && InList(s.list, u) ensures InList(s'.list, u) {
      var i :| 0 <= i < |s.list| && s.list[i].timer == u;
      assert s'.list[if i < k then i else i - 1].timer == u;
    }
  }

  lemma CancelListed<K>(s: Worker<K>, t: K)
    requires Inv(s) && t in s.timers && s.timers[t].running && !s.timers[t].queued
    ensures Inv(Stop(s, t))
  {
    hide Fifo, Matched, ListOwned, LiveOwned, Located, Scheduled;
    var s' := Stop(s, t);
    MatchedSnoc(s, s', Stopped(t));
    FifoUnchanged(s, s');
    CancelKeepsList(s, t);
    CancelKeepsPlaces(s, t);
  }

  lemma StopKeepsInv<K>(s: Worker<K>, t: K)
    requires Inv(s) && s.inHand.None? && t in s.timers
    ensures Inv(Stop(s, t))
  {
    hide Inv, Stop;
    if s.timers[t].running {
      if s.timers[t].queued { CancelLive(s, t); } else { CancelListed(s, t); }
    } else {
      StopIdle(s, t);
    }
  }

  lemma StopIdle<K>(s: Worker<K>, t: K)
    requires t in s.timers && !s.timers[t].running
    ensures Stop(s, t) == s
  {
  }

  // ---- expiring ----

  lemma ExpireKeepsInv<K>(s: Worker<K>)
    requires Inv(s) && s.inHand.None? && s.list != []
    ensures s.list[0].timer in s.timers
    ensures Inv(Expire(s))
  {
    HeadIsRunning(s);
    hide Fifo, Closing, Matched, Located, ListOwned, LiveOwned, Scheduled, Expire;
    ExpireKeepsOrder(s);
    ExpireKeepsMatched(s);
    ExpireKeepsLocated(s);
    ExpireKeepsList(s);
    ExpireKeepsLive(s);
  }

  lemma HeadIsRunning<K>(s: Worker<K>)
    requires ListOwned(s) && s.list != []
    ensures var t := s.list[0].timer; t in s.timers && s.timers[t].running && !s.timers[t].queued
  {
  }

  lemma ExpireKeepsOrder<K>(s: Worker<K>)
    requires Fifo(s) && Closing(s) && s.inHand.None? && s.list != [] && s.list[0].timer in s.timers
    ensures Fifo(Expire(s)) && Closing(Expire(s))
  {
    hide Fifo, Closing;
    var t := s.list[0].timer;
    var s0 := s.(list := s.list[1..]);
    FifoUnchanged(s, s0);
    ClosingUnchanged(s, s0);
    AddKeepsOrder(s0, TimerEvent(t, true));
    FifoUnchanged(Add(s0, TimerEvent(t, true)), Expire(s));
    ClosingUnchanged(Add(s0, TimerEvent(t, true)), Expire(s));
  }

  lemma ExpireKeepsMatched<K>(s: Worker<K>)
    requires Matched(s) && s.inHand.None? && s.list != [] && s.list[0].timer in s.timers
    ensures Matched(Expire(s))
  {
    hide Matched;
    MatchedUnchanged(s, Expire(s));
  }

  lemma ExpireKeepsList<K>(s: Worker<K>)
    requires ListOwned(s) && Scheduled(s) && s.inHand.None? && s.list != [] && s.list[0].timer in s.timers
    ensures ListOwned(Expire(s)) && Scheduled(Expire(s))
  {
  }

  lemma ExpireKeepsLive<K>(s: Worker<K>)
    requires ListOwned(s) && LiveOwned(s) && s.inHand.None? && s.list != [] && s.list[0].timer in s.timers
    ensures LiveOwned(Expire(s))
  {
    HeadIsRunning(s);
    hide ListOwned;
    var t := s.list[0].timer;
    var s' := Expire(s);
    if s.stopReceiving {
      assert Pipeline(s') == Pipeline(s);
    } else {
      assert Pipeline(s') == Pipeline(s) + [TimerEvent(t, true)];
    }
  }

  lemma ExpireKeepsLocated<K>(s: Worker<K>)
    requires Located(s) && s.inHand.None? && s.list != []
    requires s.list[0].timer in s.timers && s.timers[s.list[0].timer].running
    ensures Located(Expire(s))
  {
    var t := s.list[0].timer;
    var s' := Expire(s);
    forall u | u in s.timers && u != t && InList(s.list, u) ensures InList(s'.list, u) {
      var i :| 0 <= i < |s.list| && s.list[i].timer == u;
      assert s'.list[i - 1].timer == u;
    }
    forall u | u in s'.timers && s'.timers[u].queued ensures TimerEvent(u, true) in s'.queue {
      if u == t && !s.stopReceiving {
        assert s'.queue[|s.queue|] == TimerEvent(t, true);
      } else {
        var i :| 0 <= i < |s.queue| && s.queue[i] == TimerEvent(u, true);
        assert s'.queue[i] == TimerEvent(u, true);
      }
    }
  }

  lemma ClosingUnchanged<K>(s: Worker<K>, s': Worker<K>)
    requires Closing(s) && s'.accepted == s.accepted && s'.dispatched == s.dispatched
    requires s'.running == s.running && s'.stopReceiving == s.stopReceiving
    ensures Closing(s')
  {
  }

  // ---- popping and dispatching ----

  lemma PopKeepsPipeline<K>(s: Worker<K>)
    requires s.inHand.None?
    ensures var s' := Pop(s); Pipeline(s') == Pipeline(s) && s' == s.(queue := s'.queue, inHand := s'.inHand)
  {
    if s.queue != [] {
      assert Pipeline(Pop(s)) == [s.queue[0]] + s.queue[1..] == Pipeline(s);
    }
  }

  lemma SamePipelineOwned<K>(s: Worker<K>, s': Worker<K>)
    requires Owned(s) && Scheduled(s) && Closing(s) && Pipeline(s') == Pipeline(s)
    requires s' == s.(queue := s'.queue, inHand := s'.inHand)
    ensures Owned(s') && Scheduled(s') && Closing(s')
  {
    hide Pipeline;
  }

  lemma PopKeepsInv<K>(s: Worker<K>)
    requires Inv(s) && s.inHand.None?
    ensures Inv(Pop(s))
  {
    hide Fifo, Matched, Owned, Scheduled, Closing, Pop, Pipeline;
    PopKeepsPipeline(s);
    SamePipelineOwned(s, Pop(s));
    FifoUnchanged(s, Pop(s));
    MatchedUnchanged(s, Pop(s));
  }

  /** Leaving the hand keeps the order; only STOP ends the run. */
  lemma DispatchKeepsOrder<K>(s: Worker<K>, s': Worker<K>)
    requires Fifo(s) && Closing(s) && s.inHand.Some?
    requires s'.accepted == s.accepted && s'.dispatched == s.dispatched + [s.inHand.value]
    requires s'.queue == s.queue && s'.inHand == None && s'.stopReceiving == s.stopReceiving
    requires s'.running == (s.running && !s.inHand.value.StopEvent?)
    ensures Fifo(s') && Closing(s')
  {
    assert s.dispatched + [s.inHand.value] + s.queue == s.dispatched + ([s.inHand.value] + s.queue);
  }

  lemma DispatchKeepsInv<K>(s: Worker<K>)
    requires Inv(s) && s.inHand.Some?
    ensures IsLive(s.inHand.value) ==> s.inHand.value.timer in s.timers && s.timers[s.inHand.value.timer].running
    ensures Inv(Dispatch(s))
  {
    hide Fifo, Closing, Matched, Start, Owned, Scheduled;
    var e := s.inHand.value;
    if IsLive(e) {
      LiveInHand(s);
      var mid := FiredOnly(s);
      MatchedSnoc(s, mid, Fired(e.timer));
      DispatchKeepsOrder(s, mid);
      FiredKeepsOwned(s);
      if s.timers[e.timer].repeat { StartKeepsInv(mid, e.timer); }
    } else {
      var s' := Dispatch(s);
      DispatchKeepsOrder(s, s');
      MatchedUnchanged(s, s');
      ForgetKeepsOwned(s);
    }
  }

  lemma LiveInHand<K>(s: Worker<K>)
    requires Owned(s) && s.inHand.Some? && IsLive(s.inHand.value)
    ensures s.inHand.value.timer in s.timers && s.timers[s.inHand.value.timer].running
  {
    assert Pipeline(s)[0] == s.inHand.value;
  }

  /** The timer fires: both flags down, before a repeating timer starts again. */
  function FiredOnly<K>(s: Worker<K>): Worker<K>
    requires s.inHand.Some? && IsLive(s.inHand.value) && s.inHand.value.timer in s.timers
  {
    var t := s.inHand.value.timer;
    s.(inHand := None, dispatched := s.dispatched + [s.inHand.value],
       timers := s.timers[t := s.timers[t].(running := false, queued := false)], log := s.log + [Fired(t)])
  }

  lemma FiredKeepsOwned<K>(s: Worker<K>)
    requires Owned(s) && Scheduled(s) && s.inHand.Some? && IsLive(s.inHand.value) && s.inHand.value.timer in s.timers
    ensures Owned(FiredOnly(s)) && Scheduled(FiredOnly(s))
  {
    FiredKeepsList(s);
    FiredKeepsLive(s);
    FiredKeepsLocated(s);
  }

  lemma FiredKeepsList<K>(s: Worker<K>)
    requires ListOwned(s) && LiveOwned(s) && Scheduled(s)
    requires s.inHand.Some? && IsLive(s.inHand.value) && s.inHand.value.timer in s.timers
    ensures ListOwned(FiredOnly(s)) && Scheduled(FiredOnly(s))
  {
    assert Pipeline(s)[0] == s.inHand.value;
    assert s.timers[s.inHand.value.timer].queued;
    hide LiveOwned;
  }

  lemma FiredKeepsLive<K>(s: Worker<K>)
    requires LiveOwned(s) && s.inHand.Some? && IsLive(s.inHand.value) && s.inHand.value.timer in s.timers
    ensures LiveOwned(FiredOnly(s))
  {
    assert Pipeline(s)[0] == s.inHand.value;
    assert forall i :: 0 <= i < |s.queue| ==> s.queue[i] == Pipeline(s)[i + 1];
  }

  lemma FiredKeepsLocated<K>(s: Worker<K>)
    requires Located(s) && s.inHand.Some? && IsLive(s.inHand.value) && s.inHand.value.timer in s.timers
    ensures Located(FiredOnly(s))
  {
    StillQueued(s, FiredOnly(s));
  }

  lemma ForgetKeepsOwned<K>(s: Worker<K>)
    requires Owned(s) && Scheduled(s) && s.inHand.Some? && !IsLive(s.inHand.value)
    ensures Owned(Dispatch(s)) && Scheduled(Dispatch(s))
  {
    assert ListOwned(Dispatch(s)) && Scheduled(Dispatch(s)) by { hide Pipeline, LiveOwned, Located; }
    ForgetKeepsLive(s);
    ForgetKeepsLocated(s);
    hide ListOwned, LiveOwned, Located, Scheduled, Dispatch;
  }

  lemma ForgetKeepsLive<K>(s: Worker<K>)
    requires LiveOwned(s) && s.inHand.Some? && !IsLive(s.inHand.value)
    ensures LiveOwned(Dispatch(s))
  {
    assert forall i :: 0 <= i < |s.queue| ==> s.queue[i] == Pipeline(s)[i + 1];
  }

  lemma ForgetKeepsLocated<K>(s: Worker<K>)
    requires Located(s) && s.inHand.Some? && !IsLive(s.inHand.value)
    ensures Located(Dispatch(s))
  {
    StillQueued(s, Dispatch(s));
  }

  lemma StillQueued<K>(s: Worker<K>, s': Worker<K>)
    requires Located(s) && s.inHand.Some? && s'.queue == s.queue && s'.inHand == None
    ensures forall t :: t in s.timers && s.timers[t].queued && s.inHand.value != TimerEvent(t, true) ==> TimerEvent(t, true) in Pipeline(s')
  {
    forall t | t in s.timers && s.timers[t].queued && s.inHand.value != TimerEvent(t, true) ensures TimerEvent(t, true) in Pipeline(s') {
      var i :| 0 <= i < |Pipeline(s)| && Pipeline(s)[i] == TimerEvent(t, true);
      assert Pipeline(s')[i - 1] == TimerEvent(t, true);
    }
  }

  // ---- creating and destroying ----

  lemma CreateKeepsInv<K>(s: Worker<K>, t: K, msec: u32, repeat: bool)
    requires Inv(s) && t !in s.timers
    ensures Inv(Create(s, t, msec, repeat))
  {
    hide Fifo, Closing, Matched, Owned, Scheduled;
    FifoUnchanged(s, Create(s, t, msec, repeat));
    ClosingUnchanged(s, Create(s, t, msec, repeat));
    CreateKeepsMatched(s, t, msec, repeat);
    CreateKeepsOwned(s, t, msec, repeat);
  }

  lemma CreateKeepsMatched<K>(s: Worker<K>, t: K, msec: u32, repeat: bool)
    requires Matched(s) && t !in s.timers
    ensures Matched(Create(s, t, msec, repeat))
  {
    LastAbsent(s.log, t);
  }

  lemma CreateKeepsOwned<K>(s: Worker<K>, t: K, msec: u32, repeat: bool)
    requires Owned(s) && Scheduled(s) && t !in s.timers
    ensures Owned(Create(s, t, msec, repeat)) && Scheduled(Create(s, t, msec, repeat))
  {
    assert Pipeline(Create(s, t, msec, repeat)) == Pipeline(s);
  }

  lemma {:induction false} LastAbsent<K>(log: seq<Mark<K>>, t: K)
    ensures Last(log, t).Some? ==> exists i :: 0 <= i < |log| && log[i].timer == t
  {
    if log != [] && log[|log| - 1].timer != t {
      LastAbsent(log[..|log| - 1], t);
    }
  }

  lemma DestroyKeepsInv<K>(s: Worker<K>, t: K)
    requires Inv(s) && s.inHand.None? && t in s.timers
    ensures Inv(Destroy(s, t))
  {
    hide Stop, Inv;
    StopKeepsInv(s, t);
    StopEndsTimer(s, t);
    ForgetTimer(Stop(s, t), t);
  }

  lemma ForgetTimer<K>(s: Worker<K>, t: K)
    requires Inv(s) && t in s.timers && !s.timers[t].running
    ensures Inv(s.(timers := s.timers - {t}))
  {
    hide Fifo, Closing, Matched, Owned, Scheduled;
    FifoUnchanged(s, s.(timers := s.timers - {t}));
    ClosingUnchanged(s, s.(timers := s.timers - {t}));
    ForgetKeepsMatched(s, t);
    ForgetKeepsPlaces(s, t);
  }

  lemma ForgetKeepsMatched<K>(s: Worker<K>, t: K)
    requires Matched(s) && t in s.timers && !s.timers[t].running
    ensures Matched(s.(timers := s.timers - {t}))
  {
    hide FiresMatched;
  }

  lemma ForgetKeepsPlaces<K>(s: Worker<K>, t: K)
    requires Owned(s) && Scheduled(s) && t in s.timers && !s.timers[t].running
    ensures Owned(s.(timers := s.timers - {t})) && Scheduled(s.(timers := s.timers - {t}))
  {
    assert Pipeline(s.(timers := s.timers - {t})) == Pipeline(s);
  }

  lemma StopEndsTimer<K>(s: Worker<K>, t: K)
    requires t in s.timers
    ensures t in Stop(s, t).timers && !Stop(s, t).timers[t].running
  {
  }

  // ---- runs ----

  datatype Action<K> =
    | Tick(now: nat)
    | AddEvent(event: Event<K>)          // any thread
    | StartTimer(timer: K)
    | StopTimer(timer: K)
    | ExpireHead
    | PopEvent
    | DispatchEvent
    | CreateTimer(timer: K, msec: u32, repeat: bool)
    | DestroyTimer(timer: K)
    | ConfigureTimer(timer: K, msec: u32, repeat: bool)

  /** Clocks do not go back, producers do not forge timer events, and between a pop and its dispatch the
      worker's thread does nothing else. */
  predicate Enabled<K>(s: Worker<K>, a: Action<K>) {
    match a
    case Tick(now) => now >= s.now
    case AddEvent(e) => !e.TimerEvent?
    case StartTimer(t) => s.inHand.None? && t in s.timers
    case StopTimer(t) => s.inHand.None? && t in s.timers
    case ExpireHead => s.inHand.None? && s.list != [] && s.list[0].timer in s.timers && NextTimeout(s.list, s.now) == 0
    case PopEvent => s.inHand.None?
    case DispatchEvent => s.inHand.Some? && (IsLive(s.inHand.value) ==> s.inHand.value.timer in s.timers)
    case CreateTimer(t, _, _) => s.inHand.None? && t !in s.timers
    case DestroyTimer(t) => s.inHand.None? && t in s.timers
    case ConfigureTimer(t, _, _) => s.inHand.None? && t in s.timers
  }

  function Configure<K>(s: Worker<K>, t: K, msec: u32, repeat: bool): Worker<K>
    requires t in s.timers
  {
    s.(timers := s.timers[t := s.timers[t].(msec := msec, repeat := repeat)])
  }

  function Step<K>(s: Worker<K>, a: Action<K>): Worker<K>
    requires Enabled(s, a)
  {
    match a
    case Tick(now) => s.(now := now)
    case AddEvent(e) => Add(s, e)
    case StartTimer(t) => Start(s, t)
    case StopTimer(t) => Stop(s, t)
    case ExpireHead => Expire(s)
    case PopEvent => Pop(s)
    case DispatchEvent => Dispatch(s)
    case CreateTimer(t, msec, repeat) => Create(s, t, msec, repeat)
    case DestroyTimer(t) => Destroy(s, t)
    case ConfigureTimer(t, msec, repeat) => Configure(s, t, msec, repeat)
  }

  lemma ConfigureKeepsInv<K>(s: Worker<K>, t: K, msec: u32, repeat: bool)
    requires Inv(s) && t in s.timers
    ensures Inv(Configure(s, t, msec, repeat))
  {
    hide Fifo, Closing, Matched, Owned, Scheduled;
    FifoUnchanged(s, Configure(s, t, msec, repeat));
    ClosingUnchanged(s, Configure(s, t, msec, repeat));
    MatchedUnchanged(s, Configure(s, t, msec, repeat));
    ConfigureKeepsOwned(s, t, msec, repeat);
  }

  lemma ConfigureKeepsOwned<K>(s: Worker<K>, t: K, msec: u32, repeat: bool)
    requires Owned(s) && Scheduled(s) && t in s.timers
    ensures Owned(Configure(s, t, msec, repeat)) && Scheduled(Configure(s, t, msec, repeat))
  {
    assert Pipeline(Configure(s, t, msec, repeat)) == Pipeline(s);
  }

  lemma StepKeepsInv<K>(s: Worker<K>, a: Action<K>)
    requires Inv(s) && Enabled(s, a)
    ensures Inv(Step(s, a))
  {
    hide Inv, Add, Start, Stop, Expire, Pop, Dispatch, Create, Destroy, Configure;
    match a {
      case Tick(now) => TickKeepsInv(s, now);
      case AddEvent(e) => AddKeepsInv(s, e);
      case StartTimer(t) => StartKeepsInv(s, t);
      case StopTimer(t) => StopKeepsInv(s, t);
      case ExpireHead => ExpireKeepsInv(s);
      case PopEvent => PopKeepsInv(s);
      case DispatchEvent => DispatchKeepsInv(s);
      case CreateTimer(t, msec, repeat) => CreateKeepsInv(s, t, msec, repeat);
      case DestroyTimer(t) => DestroyKeepsInv(s, t);
      case ConfigureTimer(t, msec, repeat) => ConfigureKeepsInv(s, t, msec, repeat);
    }
  }

  /** A run: every action enabled where it is taken. */
  predicate IsRun<K>(s: Worker<K>, run: seq<Action<K>>)
    decreases run
  {
    run == [] || (Enabled(s, run[0]) && IsRun(Step(s, run[0]), run[1..]))
  }

  function After<K>(s: Worker<K>, run: seq<Action<K>>): Worker<K>
    requires IsRun(s, run)
    decreases run
  {
    if run == [] then s else After(Step(s, run[0]), run[1..])
  }

  lemma {:induction false} RunKeepsInv<K>(s: Worker<K>, run: seq<Action<K>>)
    requires Inv(s) && IsRun(s, run)
    ensures Inv(After(s, run))
    decreases run
  {
    hide Inv, Step, Enabled;
    if run != [] {
      StepKeepsInv(s, run[0]);
      RunKeepsInv(Step(s, run[0]), run[1..]);
    }
  }

  lemma {:induction false} RunSnoc<K>(s: Worker<K>, run: seq<Action<K>>, a: Action<K>)
    requires IsRun(s, run) && Enabled(After(s, run), a)
    ensures IsRun(s, run + [a]) && After(s, run + [a]) == Step(After(s, run), a)
    decreases run
  {
    hide Step, Enabled;
    if run == [] {
      assert [] + [a] == [a] && [a][1..] == [];
    } else {
      assert (run + [a])[0] == run[0] && (run + [a])[1..] == run[1..] + [a];
      RunSnoc(Step(s, run[0]), run[1..], a);
    }
  }

  lemma {:induction false} RunConcat<K>(s: Worker<K>, a: seq<Action<K>>, b: seq<Action<K>>)
    requires IsRun(s, a) && IsRun(After(s, a), b)
    ensures IsRun(s, a + b) && After(s, a + b) == After(After(s, a), b)
    decreases a
  {
    hide Step, Enabled;
    if a == [] {
      assert a + b == b;
    } else {
      assert (a + b)[0] == a[0] && (a + b)[1..] == a[1..] + b;
      RunConcat(Step(s, a[0]), a[1..], b);
    }
  }

  // ---- what the invariant gives in every reachable state ----

  function Owners<K>(list: seq<Entry<K>>): (r: seq<K>)
    ensures |r| == |list| && forall i :: 0 <= i < |r| ==> r[i] == list[i].timer
  {
    seq(|list|, i requires 0 <= i < |list| => list[i].timer)
  }

  /** Each timer is in exactly the place its flags say, once. */
  ghost predicate InItsPlace<K>(s: Worker<K>, t: K)
    requires t in s.timers
  {
    var ts := s.timers[t];
    var listed := multiset(Owners(s.list))[t];
    var live := multiset(Pipeline(s))[TimerEvent(t, true)];
    && (!ts.running ==> listed == 0 && live == 0)
    && (ts.running && ts.queued ==> listed == 0 && live == 1)
    && (ts.running && !ts.queued ==> live == 0 && listed <= 1 && (listed == 0 ==> s.stopReceiving))
  }

  /** In every reachable state every timer is owned once. */
  lemma EveryTimerOwnedOnce<K>(start: nat, run: seq<Action<K>>)
    requires IsRun(Initial<K>(start), run)
    ensures forall t :: t in After(Initial(start), run).timers ==> InItsPlace(After(Initial(start), run), t)
  {
    hide Inv, InItsPlace;
    InitialInv<K>(start);
    RunKeepsInv(Initial(start), run);
    var s := After(Initial(start), run);
    forall t | t in s.timers ensures InItsPlace(s, t) {
      OwnedOnce(s, t);
    }
  }

  lemma OwnedOnce<K>(s: Worker<K>, t: K)
    requires Inv(s) && t in s.timers
    ensures InItsPlace(s, t)
  {
    hide Scheduled, Fifo, Closing, Matched;
    CountDistinct(Owners(s.list), t);
    CountDistinct(Pipeline(s), TimerEvent(t, true));
    if InList(s.list, t) {
      var i :| 0 <= i < |s.list| && s.list[i].timer == t;
      assert Owners(s.list)[i] == t;
    }
  }

  lemma {:induction false} CountDistinct<T>(xs: seq<T>, x: T)
    requires forall i, j :: 0 <= i < j < |xs| && xs[i] == x ==> xs[j] != x
    ensures multiset(xs)[x] == if x in xs then 1 else 0
  {
    if xs != [] {
      var front := xs[..|xs| - 1];
      CountDistinct(front, x);
      assert xs == front + [xs[|xs| - 1]];
      assert x in xs <==> x in front || x == xs[|xs| - 1];
    }
  }

  /** The assertion at the cancellation of a queued timer never fails. */
  lemma CancelAssertionHolds<K>(start: nat, run: seq<Action<K>>, t: K)
    requires IsRun(Initial<K>(start), run) && Enabled(After(Initial(start), run), StopTimer(t))
    requires After(Initial(start), run).timers[t].queued
    ensures LiveAt(After(Initial(start), run).queue, t) < |After(Initial(start), run).queue|
  {
    InitialInv<K>(start);
    RunKeepsInv(Initial(start), run);
    CancelFindsEvent(After(Initial(start), run), t);
  }

  /** First in, first out, nothing twice, nothing lost. */
  lemma ExactlyOnce<K>(start: nat, run: seq<Action<K>>)
    requires IsRun(Initial<K>(start), run)
    ensures var s := After(Initial(start), run);
            EraseAll(s.accepted) == EraseAll(s.dispatched) + EraseAll(Pipeline(s))
  {
    InitialInv<K>(start);
    RunKeepsInv(Initial(start), run);
    EraseConcat(After(Initial(start), run).dispatched, Pipeline(After(Initial(start), run)));
  }

  lemma StoppedIsDrained<K>(s: Worker<K>)
    requires Inv(s) && !s.running
    ensures Pipeline(s) == []
  {
    hide Owned, Scheduled, Matched;
    var i :| 0 <= i < |s.dispatched| && s.dispatched[i] == StopEvent;
    var all := s.dispatched + Pipeline(s);
    assert |s.accepted| == |all|;
    assert EraseAll(s.accepted)[i] == EraseAll(all)[i];
    assert s.accepted[i].StopEvent?;
  }

  /** A run ended by STOP has dispatched all it accepted. */
  lemma StopDrains<K>(start: nat, run: seq<Action<K>>)
    requires IsRun(Initial<K>(start), run) && !After(Initial(start), run).running
    ensures Pipeline(After(Initial(start), run)) == []
  {
    hide Inv;
    InitialInv<K>(start);
    RunKeepsInv(Initial(start), run);
    StoppedIsDrained(After(Initial(start), run));
  }

  /** Every firing of a timer answers one start: the last thing that happened to it before is that it was
      started, so no stop and no other firing lie between. */
  lemma FiresAnswerStarts<K>(start: nat, run: seq<Action<K>>, i: nat)
    requires IsRun(Initial<K>(start), run) && i < |After(Initial(start), run).log| && After(Initial(start), run).log[i].Fired?
    ensures var log := After(Initial(start), run).log;
            exists j :: 0 <= j < i && log[j] == Started(log[i].timer) && forall k :: j < k < i ==> log[k].timer != log[i].timer
  {
    hide Inv;
    InitialInv<K>(start);
    RunKeepsInv(Initial(start), run);
    FireAnswersStart(After(Initial(start), run), i);
  }

  lemma FireAnswersStart<K>(s: Worker<K>, i: nat)
    requires Inv(s) && i < |s.log| && s.log[i].Fired?
    ensures exists j :: 0 <= j < i && s.log[j] == Started(s.log[i].timer) && forall k :: j < k < i ==> s.log[k].timer != s.log[i].timer
  {
    hide Owned, Scheduled, Fifo, Closing;
    var j := LastIndex(s.log[..i], s.log[i].timer);
    assert forall k :: 0 <= k < i ==> s.log[..i][k] == s.log[k];
    assert s.log[j] == Started(s.log[i].timer);
  }

  lemma {:induction false} LastIndex<K>(log: seq<Mark<K>>, t: K) returns (j: nat)
    requires Last(log, t).Some?
    ensures j < |log| && log[j] == Last(log, t).value && log[j].timer == t
    ensures forall k :: j < k < |log| ==> log[k].timer != t
  {
    if log[|log| - 1].timer == t {
      j := |log| - 1;
    } else {
      j := LastIndex(log[..|log| - 1], t);
    }
  }

  /** The 32-bit cast never turns a future deadline into "now", so no timer is queued early, and a zero
      wait means the head is due; otherwise nothing in the list is due. */
  lemma TimeoutIsExact<K>(s: Worker<K>)
    requires Inv(s)
    ensures NextTimeout(s.list, s.now) == 0 <==> s.list != [] && s.list[0].end <= s.now
    ensures NextTimeout(s.list, s.now) != 0 ==> forall i :: 0 <= i < |s.list| ==> s.list[i].end > s.now
  {
    hide Owned, Fifo, Closing, Matched;
    if s.list != [] && s.now < s.list[0].end {
      assert 0 < s.list[0].end - s.now < TWO_32;
    }
  }

  /** In every reachable state with a head that is not due, the wait ends exactly at the head's deadline. */
  lemma WaitEndsAtTheHead<K>(start: nat, run: seq<Action<K>>)
    requires IsRun(Initial<K>(start), run)
    ensures var s := After(Initial(start), run);
            s.list != [] && s.now < s.list[0].end ==> s.now + NextTimeout(s.list, s.now) == s.list[0].end
  {
    hide Inv;
    InitialInv<K>(start);
    RunKeepsInv(Initial(start), run);
    WaitOf(After(Initial(start), run));
  }

  lemma WaitOf<K>(s: Worker<K>)
    requires Inv(s)
    ensures s.list != [] && s.now < s.list[0].end ==> s.now + NextTimeout(s.list, s.now) == s.list[0].end
  {
    hide Owned, Fifo, Closing, Matched;
    if s.list != [] && s.now < s.list[0].end {
      assert 0 < s.list[0].end - s.now < TWO_32;
    }
  }

  /** So once the clock has moved by the wait the head can expire, and before that nothing in the list is due. */
  lemma AfterTheWait<K>(s: Worker<K>, d: nat)
    requires Inv(s) && s.inHand.None? && s.list != [] && s.now < s.list[0].end
    ensures var wait := NextTimeout(s.list, s.now); var s' := Step(s, Tick(s.now + d));
            && (d >= wait ==> Enabled(s', ExpireHead))
            && (d < wait ==> !Enabled(s', ExpireHead) && forall i :: 0 <= i < |s'.list| ==> s'.list[i].end > s'.now)
  {
    hide NextTimeout, Located, LiveOwned, Scheduled, Fifo, Closing, Matched;
    var s' := Step(s, Tick(s.now + d));
    WaitOf(s);
    HeadIsRunning(s);
    TickKeepsInv(s, s.now + d);
    TimeoutIsExact(s');
  }

  /** The worker waits for ever exactly if there is nothing to wait for, or the head is 2^32 - 1 ms away,
      which the cast turns into the same number. */
  lemma WaitsForeverExactly<K>(s: Worker<K>)
    requires Inv(s)
    ensures NextTimeout(s.list, s.now) == INFINITE <==> s.list == [] || s.list[0].end == s.now + 0xFFFF_FFFF
  {
    hide Owned, Fifo, Closing, Matched;
    if s.list != [] && s.now < s.list[0].end {
      assert 0 < s.list[0].end - s.now < TWO_32;
    }
  }

  /** And such a timer there can be: one of the longest wait, just started. */
  lemma LongestWait<K>(s: Worker<K>, t: K)
    requires Inv(s) && s.list == [] && t in s.timers && !s.timers[t].running && s.timers[t].msec == 0xFFFF_FFFF
    ensures Inv(Start(s, t)) && Start(s, t).list != [] && NextTimeout(Start(s, t).list, s.now) == INFINITE
  {
    hide Inv;
    StartKeepsInv(s, t);
    WaitsForeverExactly(Start(s, t));
  }

  /** Without the bound the cast can lie: a deadline exactly 2^32 ms away reads as due. */
  lemma TimeoutTruncates<K>(t: K, now: nat)
    ensures NextTimeout([Entry(now + TWO_32, t)], now) == 0
  {
  }

  /** Insertion is stable: an entry goes behind those with the same deadline. */
  lemma InsertionIsFifo<K>(list: seq<Entry<K>>, e: Entry<K>)
    requires forall i, j :: 0 <= i < j < |list| ==> list[i].end <= list[j].end
    ensures exists k :: 0 <= k <= |list| && Inserted(list, e) == list[..k] + [e] + list[k..]
                        && (forall i :: 0 <= i < k ==> list[i].end <= e.end) && (forall i :: k <= i < |list| ==> list[i].end > e.end)
  {
    var k := InsertAt(list, e.end);
    assert Inserted(list, e) == list[..k] + [e] + list[k..];
  }

  // ---- when timers fire ----

  /** What a run so far says of when each timer is due: the time it was last started plus its wait. */
  function DueAfter<K>(s: Worker<K>, a: Action<K>, due: map<K, nat>): map<K, nat>
    requires Enabled(s, a)
  {
    match a
    case StartTimer(t) => if s.timers[t].running then due else due[t := s.now + s.timers[t].msec]
    case DispatchEvent =>
      var e := s.inHand.value;
      if IsLive(e) && s.timers[e.timer].repeat then due[e.timer := s.now + s.timers[e.timer].msec] else due
    case _ => due
  }

  function Due<K>(s: Worker<K>, run: seq<Action<K>>, due: map<K, nat> := map[]): map<K, nat>
    requires IsRun(s, run)
    decreases run
  {
    if run == [] then due else Due(Step(s, run[0]), run[1..], DueAfter(s, run[0], due))
  }

  /** Entries of the list end when their timers are due, and timers that are queued are due already. */
  ghost predicate OnTime<K>(s: Worker<K>, due: map<K, nat>) {
    ListOnTime(s, due) && LiveOnTime(s, due)
  }

  ghost predicate ListOnTime<K>(s: Worker<K>, due: map<K, nat>) {
    forall i :: 0 <= i < |s.list| ==> s.list[i].timer in due && due[s.list[i].timer] == s.list[i].end
  }

  ghost predicate LiveOnTime<K>(s: Worker<K>, due: map<K, nat>) {
    var p := Pipeline(s);
    forall i :: 0 <= i < |p| && IsLive(p[i]) ==> p[i].timer in due && due[p[i].timer] <= s.now
  }

  lemma StartOnTime<K>(s: Worker<K>, t: K, due: map<K, nat>)
    requires Owned(s) && OnTime(s, due) && t in s.timers && !s.timers[t].running
    ensures OnTime(Start(s, t), due[t := s.now + s.timers[t].msec])
  {
    hide Inserted, Located;
    var k := InsertedAt(s.list, Entry(s.now + s.timers[t].msec, t));
    assert Pipeline(Start(s, t)) == Pipeline(s);
  }

  lemma StopOnTime<K>(s: Worker<K>, t: K, due: map<K, nat>)
    requires OnTime(s, due) && s.inHand.None? && t in s.timers
    ensures OnTime(Stop(s, t), due)
  {
    var s' := Stop(s, t);
    hide Removed;
    var k := RemovedAt(s.list, t);
    assert Pipeline(s) == s.queue && Pipeline(s') == s'.queue;
    if s.timers[t].running && !s.timers[t].queued {
      forall i | 0 <= i < |s'.list| ensures s'.list[i].timer in due && due[s'.list[i].timer] == s'.list[i].end {
        assert s'.list[i] == s.list[if i < k then i else i + 1];
      }
    }
  }

  lemma ExpireOnTime<K>(s: Worker<K>, due: map<K, nat>)
    requires OnTime(s, due) && Enabled(s, ExpireHead) && s.list[0].end <= s.now
    ensures OnTime(Expire(s), due)
  {
    var s' := Expire(s);
    if !s.stopReceiving {
      PipelineAdd(s.(list := s.list[1..]), TimerEvent(s.list[0].timer, true));
      assert Pipeline(s') == Pipeline(s) + [TimerEvent(s.list[0].timer, true)];
    } else {
      assert Pipeline(s') == Pipeline(s);
    }
  }

  lemma DispatchOnTime<K>(s: Worker<K>, due: map<K, nat>)
    requires Inv(s) && OnTime(s, due) && Enabled(s, DispatchEvent)
    ensures OnTime(Dispatch(s), DueAfter(s, DispatchEvent, due))
  {
    hide Scheduled, Fifo, Closing, Matched, Start, OnTime, Owned;
    var e := s.inHand.value;
    if IsLive(e) {
      FiredOnTime(s, due);
      if s.timers[e.timer].repeat {
        FiredKeepsOwned(s);
        StartOnTime(FiredOnly(s), e.timer, due);
      }
    } else {
      DeadOnTime(s, due);
    }
  }

  lemma DeadOnTime<K>(s: Worker<K>, due: map<K, nat>)
    requires OnTime(s, due) && s.inHand.Some? && !IsLive(s.inHand.value)
    ensures OnTime(Dispatch(s), due)
  {
    var p := Pipeline(s);
    assert forall i :: 0 <= i < |s.queue| ==> s.queue[i] == p[i + 1];
  }

  lemma FiredOnTime<K>(s: Worker<K>, due: map<K, nat>)
    requires OnTime(s, due) && s.inHand.Some? && IsLive(s.inHand.value) && s.inHand.value.timer in s.timers
    ensures OnTime(FiredOnly(s), due)
  {
    var p := Pipeline(s);
    assert forall i :: 0 <= i < |s.queue| ==> s.queue[i] == p[i + 1];
  }

  lemma OthersOnTime<K>(s: Worker<K>, s': Worker<K>, due: map<K, nat>)
    requires OnTime(s, due) && s'.list == s.list && s'.now >= s.now
    requires Pipeline(s') == Pipeline(s) || exists e :: !IsLive(e) && Pipeline(s') == Pipeline(s) + [e]
    ensures OnTime(s', due)
  {
  }

  lemma AddOnTime<K>(s: Worker<K>, e: Event<K>, due: map<K, nat>)
    requires OnTime(s, due) && !e.TimerEvent?
    ensures OnTime(Add(s, e), due)
  {
    if !s.stopReceiving { PipelineAdd(s, e); }
  }

  lemma PopOnTime<K>(s: Worker<K>, due: map<K, nat>)
    requires OnTime(s, due) && s.inHand.None?
    ensures OnTime(Pop(s), due)
  {
    if s.queue != [] {
      assert Pipeline(Pop(s)) == [s.queue[0]] + s.queue[1..] == Pipeline(s);
    }
  }

  lemma StepOnTime<K>(s: Worker<K>, a: Action<K>, due: map<K, nat>)
    requires Inv(s) && OnTime(s, due) && Enabled(s, a)
    ensures OnTime(Step(s, a), DueAfter(s, a, due))
  {
    hide OnTime, Start, Stop, Expire, Pop, Dispatch, Add, Scheduled, Fifo, Closing, Matched, Owned, NextTimeout;
    var s' := Step(s, a);
    match a {
      case Tick(_) => OthersOnTime(s, s', due);
      case AddEvent(e) => AddOnTime(s, e, due);
      case StartTimer(t) => if s.timers[t].running { StartIdle(s, t); } else { StartOnTime(s, t, due); }
      case StopTimer(t) => StopOnTime(s, t, due);
      case ExpireHead => TimeoutIsExact(s); ExpireOnTime(s, due);
      case PopEvent => PopOnTime(s, due);
      case DispatchEvent => DispatchOnTime(s, due);
      case CreateTimer(_, _, _) => OthersOnTime(s, s', due);
      case DestroyTimer(t) => StopOnTime(s, t, due); OthersOnTime(Stop(s, t), s', due);
      case ConfigureTimer(_, _, _) => OthersOnTime(s, s', due);
    }
  }

  lemma StartIdle<K>(s: Worker<K>, t: K)
    requires t in s.timers && s.timers[t].running
    ensures Start(s, t) == s
  {
  }

  lemma {:induction false} RunOnTime<K>(s: Worker<K>, run: seq<Action<K>>, due: map<K, nat>)
    requires Inv(s) && OnTime(s, due) && IsRun(s, run)
    ensures OnTime(After(s, run), Due(s, run, due))
    decreases run
  {
    hide Inv, OnTime, Step, Enabled, DueAfter;
    if run != [] {
      StepKeepsInv(s, run[0]);
      StepOnTime(s, run[0], due);
      RunOnTime(Step(s, run[0]), run[1..], DueAfter(s, run[0], due));
    }
  }

  /** In every reachable state the deadline of a timer in the list is the time at which it was last started plus
      its wait, and a timer that is queued, or about to fire, has reached it: no timer fires early. */
  lemma NoTimerIsEarly<K>(start: nat, run: seq<Action<K>>)
    requires IsRun(Initial<K>(start), run)
    ensures var s := After(Initial(start), run); var due := Due(Initial(start), run);
            && (forall i :: 0 <= i < |s.list| ==> s.list[i].timer in due && s.list[i].end == due[s.list[i].timer])
            && (forall i :: 0 <= i < |Pipeline(s)| && IsLive(Pipeline(s)[i]) ==>
                  Pipeline(s)[i].timer in due && due[Pipeline(s)[i].timer] <= s.now)
  {
    hide Inv;
    InitialInv<K>(start);
    assert OnTime(Initial<K>(start), map[]);
    RunOnTime(Initial(start), run, map[]);
  }

  /** Starting an idle timer puts it in the list, due its wait from now. */
  lemma StartListsTimer<K>(s: Worker<K>, t: K)
    requires t in s.timers && !s.timers[t].running
    ensures Start(s, t).timers[t].running && Entry(s.now + s.timers[t].msec, t) in Start(s, t).list
  {
    var k := InsertedAt(s.list, Entry(s.now + s.timers[t].msec, t));
    assert Start(s, t).list[k] == Entry(s.now + s.timers[t].msec, t);
  }

  /** Stopping any timer takes it out of list and queue. */
  lemma StopForgetsTimer<K>(s: Worker<K>, t: K)
    requires Inv(s) && s.inHand.None? && t in s.timers
    ensures !Stop(s, t).timers[t].running && !InList(Stop(s, t).list, t) && TimerEvent(t, true) !in Stop(s, t).queue
  {
    hide Inv, Stop;
    StopKeepsInv(s, t);
    StopEndsTimer(s, t);
    NotRunningIsNowhere(Stop(s, t), t);
  }

  lemma NotRunningIsNowhere<K>(s: Worker<K>, t: K)
    requires Inv(s) && t in s.timers && !s.timers[t].running
    ensures !InList(s.list, t) && TimerEvent(t, true) !in s.queue
  {
    NotListed(s, t);
    NotLive(s, t);
  }

  lemma NotListed<K>(s: Worker<K>, t: K)
    requires ListOwned(s) && t in s.timers && !s.timers[t].running
    ensures !InList(s.list, t)
  {
  }

  lemma NotLive<K>(s: Worker<K>, t: K)
    requires LiveOwned(s) && t in s.timers && !s.timers[t].running
    ensures TimerEvent(t, true) !in s.queue
  {
    var p := Pipeline(s);
    var k := if s.inHand.None? then 0 else 1;
    forall i | 0 <= i < |s.queue| ensures s.queue[i] != TimerEvent(t, true) {
      assert p[i + k] == s.queue[i];
    }
  }

  /** A due timer fires: from an idle worker that still takes events, the check, the pop and the dispatch log it;
      and then it runs again, due its wait from now, exactly if it repeats. */
  lemma DueTimerFires<K>(s: Worker<K>)
    requires Inv(s) && s.inHand.None? && s.queue == [] && !s.stopReceiving && s.list != [] && s.list[0].end <= s.now
    ensures var t := s.list[0].timer; var run := [ExpireHead, PopEvent, DispatchEvent];
            && t in s.timers && IsRun(s, run)
            && var s' := After(s, run);
            && s'.log == s.log + [Fired(t)] + (if s.timers[t].repeat then [Started(t)] else [])
            && t in s'.timers && (s'.timers[t].running <==> s.timers[t].repeat)
            && (s.timers[t].repeat ==> Entry(s.now + s.timers[t].msec, t) in s'.list)
  {
    hide Inv, NextTimeout, Expire, Pop, Dispatch, IsRun, After;
    HeadCanExpire(s);
    var t := s.list[0].timer;
    ExpireAndPop(s);
    DispatchFires(Pop(Expire(s)), t);
    ThreeSteps(s, ExpireHead, PopEvent, DispatchEvent);
  }

  lemma HeadCanExpire<K>(s: Worker<K>)
    requires Inv(s) && s.inHand.None? && s.list != [] && s.list[0].end <= s.now
    ensures s.list[0].timer in s.timers && Enabled(s, ExpireHead)
  {
    hide Scheduled, Fifo, Closing, Matched, Located, LiveOwned, NextTimeout;
    HeadIsRunning(s);
    TimeoutIsExact(s);
  }

  lemma ExpireAndPop<K>(s: Worker<K>)
    requires s.inHand.None? && s.queue == [] && !s.stopReceiving && s.list != [] && s.list[0].timer in s.timers
    ensures Expire(s).inHand.None?
    ensures var t := s.list[0].timer; var s' := Pop(Expire(s));
            && s'.inHand == Some(TimerEvent(t, true)) && t in s'.timers && s'.log == s.log && s'.now == s.now
            && s'.timers[t].repeat == s.timers[t].repeat && s'.timers[t].msec == s.timers[t].msec
  {
    assert Expire(s).queue == [TimerEvent(s.list[0].timer, true)];
  }

  lemma DispatchFires<K>(s: Worker<K>, t: K)
    requires s.inHand == Some(TimerEvent(t, true)) && t in s.timers
    ensures var s' := Dispatch(s); var repeat := s.timers[t].repeat;
            && s'.log == s.log + [Fired(t)] + (if repeat then [Started(t)] else [])
            && t in s'.timers && (s'.timers[t].running <==> repeat)
            && (repeat ==> Entry(s.now + s.timers[t].msec, t) in s'.list)
  {
    if s.timers[t].repeat { StartListsTimer(FiredOnly(s), t); }
    hide Inserted;
  }

  lemma ThreeSteps<K>(s: Worker<K>, a: Action<K>, b: Action<K>, c: Action<K>)
    requires Enabled(s, a) && Enabled(Step(s, a), b) && Enabled(Step(Step(s, a), b), c)
    ensures IsRun(s, [a, b, c]) && After(s, [a, b, c]) == Step(Step(Step(s, a), b), c)
  {
    hide Step, Enabled;
    assert [a, b, c][1..] == [b, c] && [b, c][1..] == [c] && [c][1..] == [];
    var s1 := Step(s, a);
    var s2 := Step(s1, b);
    assert IsRun(s2, [c]) && After(s2, [c]) == Step(s2, c);
    assert IsRun(s1, [b, c]) && After(s1, [b, c]) == After(s2, [c]);
  }
}
