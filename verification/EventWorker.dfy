/** The event worker as the program runs it: a ring buffer, a deadline list and timer objects updated in
    place. Every method is a step, or a run of steps, of the machine in WorkerModel.dfy. */
module EventWorker {
  import opened Machine
  import opened WorkerModel
  import opened WorkerInvariant
  import opened Queue
  import opened TimerManager

  /** A call a handler may make. */
  datatype Command =
    | Post(event: Event<Timer>)
    | StartCommand(timer: Timer)
    | StopCommand(timer: Timer)
    | DestroyCommand(timer: Timer)

  /** One turn of the main loop: what the wait returns, the events other threads add while it lasts, and for
      each event dispatched in the turn what happens before the next, on this thread or on another. */
  datatype Turn = Turn(waitFailed: bool, arrivals: seq<Command>, handlers: seq<seq<Command>>)

  // ---- what may be asked: no forged timer events, no timer that has been destroyed ----

  predicate Allowed(c: Command, live: set<Timer>) {
    match c
    case Post(event) => !event.TimerEvent?
    case StartCommand(timer) => timer in live
    case StopCommand(timer) => timer in live
    case DestroyCommand(timer) => timer in live
  }

  function LeftBy(c: Command, live: set<Timer>): set<Timer> {
    if c.DestroyCommand? then live - {c.timer} else live
  }

  predicate Permitted(cs: seq<Command>, live: set<Timer>)
    decreases cs
  {
    cs == [] || (Allowed(cs[0], live) && Permitted(cs[1..], LeftBy(cs[0], live)))
  }

  /** The timers that are still there after all of these. */
  function Left(cs: seq<Command>, live: set<Timer>): (r: set<Timer>)
    ensures r <= live
    decreases cs
  {
    if cs == [] then live else Left(cs[1..], LeftBy(cs[0], live))
  }

  predicate AllPermitted(handlers: seq<seq<Command>>, live: set<Timer>)
    decreases handlers
  {
    handlers == [] || (Permitted(handlers[0], live) && AllPermitted(handlers[1..], Left(handlers[0], live)))
  }

  function LeftByAll(handlers: seq<seq<Command>>, live: set<Timer>): (r: set<Timer>)
    ensures r <= live
    decreases handlers
  {
    if handlers == [] then live else LeftByAll(handlers[1..], Left(handlers[0], live))
  }

  predicate TurnsPermitted(turns: seq<Turn>, live: set<Timer>)
    decreases turns
  {
    turns == [] ||
    var arrived := Left(turns[0].arrivals, live);
    && Permitted(turns[0].arrivals, live) && AllPermitted(turns[0].handlers, arrived)
    && TurnsPermitted(turns[1..], LeftByAll(turns[0].handlers, arrived))
  }

  class EventWorker {
    const eventQueue: Queue<Event<Timer>>
    const timerManager: TimerManager
    var running: bool
    var stopReceiving: bool
    var now: nat                       // the last reading of the system clock
    ghost var registry: set<Timer>     // live timer objects
    ghost var inHand: Option<Event<Timer>>
    ghost var accepted: seq<Event<Timer>>
    ghost var dispatched: seq<Event<Timer>>
    ghost var log: seq<Mark<Timer>>

    ghost predicate Valid()
      reads this, eventQueue, timerManager, timerManager.timers, timerManager.timers.nodes
    {
      eventQueue.Valid() && timerManager.Valid()
    }

    ghost function Timers(): map<Timer, TimerState>
      reads this`registry, registry
    {
      map t | t in registry :: t.State()
    }

    ghost function State(): Worker<Timer>
      requires Valid()
      reads this, eventQueue, eventQueue.buffer, timerManager, timerManager.timers, timerManager.timers.nodes, registry
    {
      Worker(Timers(), timerManager.Entries(), eventQueue.Contents(), inHand, running, stopReceiving, now,
             accepted, dispatched, log)
    }

    constructor (now: nat)
      ensures Valid() && State() == Initial(now) && registry == {}
      ensures fresh(eventQueue) && fresh(eventQueue.buffer) && fresh(timerManager) && fresh(timerManager.timers)
      ensures timerManager.timers.Spine() == {}
    {
      running, stopReceiving, this.now := true, false, now;
      eventQueue := new Queue<Event<Timer>>(0);
      timerManager := new TimerManager();
      registry, inHand, accepted, dispatched, log := {}, None, [], [], [];
    }

    /** What `add` does under the queue's mutex. */
    method Add(event: Event<Timer>) returns (result: bool)
      requires Valid()
      modifies this`stopReceiving, this`accepted, eventQueue, eventQueue.buffer
      ensures Valid() && (eventQueue.buffer == old(eventQueue.buffer) || fresh(eventQueue.buffer))
      ensures State() == WorkerModel.Add(old(State()), event) && result == !old(stopReceiving)
    {
      hide Timers, Queue.Valid, Queue.Contents, TimerManager.Valid, TimerManager.Entries;
      result := false;
      if !stopReceiving {
        if event.StopEvent? {
          stopReceiving := true;
        }
        eventQueue.Push(event);
        accepted := accepted + [event];
        result := true;
      }
    }

    lemma KnownTimer(timer: Timer)
      requires timer in registry
      ensures timer in Timers() && Timers()[timer] == timer.State()
    {
    }

    twostate lemma OneTimerChanged(timer: Timer)
      requires timer in registry && registry == old(registry)
      requires forall u :: u in registry && u != timer ==> u.State() == old(u.State())
      ensures Timers() == old(Timers())[timer := timer.State()]
    {
    }

    /** The system clock, which never goes back. */
    method ReadClock() returns (time: nat)
      modifies this`now
      ensures time == now >= old(now)
    {
      var later: nat :| later >= now;
      now := later;
      time := later;
    }

    method CreateTimer(msec: u32, repeat: bool) returns (timer: Timer)
      requires Valid()
      modifies this`registry
      ensures Valid() && fresh(timer) && registry == old(registry) + {timer} && timer !in old(State()).timers
      ensures State() == Create(old(State()), timer, msec, repeat)
    {
      hide Queue.Valid, Queue.Contents, TimerManager.Valid, TimerManager.Entries;
      timer := new Timer(msec, repeat);
      assert timer !in registry;
      registry := registry + {timer};
      assert Timers() == old(Timers())[timer := timer.State()];
    }

    method StartTimer(timer: Timer) returns (result: bool)
      requires Valid() && timer in registry
      modifies this`now, this`log, timer, timerManager.timers, timerManager.timers.Spine()
      ensures Valid() && now >= old(now)
      ensures fresh(timerManager.timers.Spine() - old(timerManager.timers.Spine()))
      ensures timer.repeat == old(timer.repeat)
      ensures State() == Start(old(State()).(now := now), timer) && result == !old(timer.running)
    {
      hide Queue.Valid, Queue.Contents, TimerManager.Valid, TimerManager.Entries, Inserted, Timers;
      KnownTimer(timer);
      if timer.running {
        return false;
      }
      var time := ReadClock();
      timerManager.Register(timer, time);
      timer.running := true;
      log := log + [Started(timer)];
      OneTimerChanged(timer);
      result := true;
    }

    lemma LiveAtIs(queue: seq<Event<Timer>>, timer: Timer, k: nat)
      requires k < |queue| && queue[k] == TimerEvent(timer, true)
      requires forall j :: 0 <= j < k ==> queue[j] != TimerEvent(timer, true)
      ensures LiveAt(queue, timer) == k
    {
    }

    /** The assertion of the program is the one after the search. */
    method UnregisterTimer(timer: Timer)
      requires Valid() && timer in registry
      requires timer.queued ==> LiveAt(eventQueue.Contents(), timer) < |eventQueue.Contents()|
      modifies timer`queued, timerManager.timers, timerManager.timers.Spine(), eventQueue.buffer
      ensures Valid() && !timer.queued
      ensures timerManager.timers.Spine() <= old(timerManager.timers.Spine())
      ensures old(timer.queued) ==> timerManager.Entries() == old(timerManager.Entries())
      ensures old(timer.queued) ==>
                eventQueue.Contents() == old(eventQueue.Contents()[LiveAt(eventQueue.Contents(), timer) := TimerEvent(timer, false)])
      ensures !old(timer.queued) ==> eventQueue.Contents() == old(eventQueue.Contents())
      ensures !old(timer.queued) ==> timerManager.Entries() == Removed(old(timerManager.Entries()), timer)
    {
      hide Queue.Valid, Queue.Contents, TimerManager.Valid, TimerManager.Entries, LiveAt, Removed;
      if timer.queued {
        var matches := (e: Event<Timer>) => e == TimerEvent(timer, true);
        ghost var events, k0 := eventQueue.Contents(), LiveAt(eventQueue.Contents(), timer);
        assert events[k0] == TimerEvent(timer, true) && matches(events[k0]);
        var found, index, k := eventQueue.Find(matches);
        assert eventQueue.Contents() == events;
        assert found;
        assert matches(events[k]) && forall j :: 0 <= j < k ==> !matches(events[j]);
        LiveAtIs(events, timer, k);
        eventQueue.SetAt(index, TimerEvent(timer, false), k);
        timer.queued := false;
      } else {
        var unused := timerManager.Unregister(timer);
      }
    }

    method StopTimer(timer: Timer)
      requires Valid() && timer in registry && inHand.None? && Inv(State())
      modifies this`log, timer, timerManager.timers, timerManager.timers.Spine(), eventQueue.buffer
      ensures Valid() && State() == Stop(old(State()), timer) && !timer.running
      ensures timerManager.timers.Spine() <= old(timerManager.timers.Spine())
    {
      hide Queue.Valid, Queue.Contents, TimerManager.Valid, TimerManager.Entries, LiveAt, Removed, Inv, Timers;
      KnownTimer(timer);
      if !timer.running {
        return;
      }
      if timer.queued {
        CancelFindsEvent(State(), timer);
      }
      UnregisterTimer(timer);
      timer.running := false;
      log := log + [Stopped(timer)];
      OneTimerChanged(timer);
    }

    method DestroyTimer(timer: Timer)
      requires Valid() && timer in registry && inHand.None? && Inv(State())
      modifies this`log, this`registry, timer, timerManager.timers, timerManager.timers.Spine(), eventQueue.buffer
      ensures Valid() && State() == Destroy(old(State()), timer) && registry == old(registry) - {timer}
      ensures timerManager.timers.Spine() <= old(timerManager.timers.Spine())
    {
      hide Queue.Valid, Queue.Contents, TimerManager.Valid, TimerManager.Entries, Stop, Inv;
      StopTimer(timer);
      ghost var timers := Timers();
      registry := registry - {timer};
      assert Timers() == timers - {timer};
    }

    method NextTimeout() returns (msec: u32)
      requires Valid()
      modifies this`now
      ensures now >= old(now) && msec == WorkerModel.NextTimeout(timerManager.Entries(), now)
    {
      var time := ReadClock();
      msec := timerManager.GetNextTimeout(time);
    }

    /** One turn of the check loop. */
    method ExpireHead()
      requires Valid() && inHand.None? && Inv(State()) && timerManager.Entries() != []
      modifies this`stopReceiving, this`accepted, eventQueue, eventQueue.buffer, timerManager.timers, timerManager.timers.Spine(), registry`queued
      ensures Valid() && timerManager.Entries() == old(timerManager.Entries())[1..]
      ensures eventQueue.buffer == old(eventQueue.buffer) || fresh(eventQueue.buffer)
      ensures timerManager.timers.Spine() <= old(timerManager.timers.Spine())
      ensures old(timerManager.Entries()[0].timer) in registry && State() == Expire(old(State()))
    {
      hide Queue.Valid, Queue.Contents, TimerManager.Valid, TimerManager.Entries, Timers, Inv, WorkerModel.Add, Expire;
      ghost var before := State();
      ghost var head := before.list[0].timer;
      ExpireKeepsInv(before);
      RegistryIs();
      var timer := timerManager.RemoveHeadTimer();
      assert State() == before.(list := before.list[1..]);
      var added := Add(TimerEvent(timer, true));
      ghost var queued := State();
      assert queued == WorkerModel.Add(before.(list := before.list[1..]), TimerEvent(head, true));
      AddLeaves(before.(list := before.list[1..]), TimerEvent(head, true));
      if added {
        MarkQueued(timer);
      }
      ExpireIs(before);
    }

    lemma RegistryIs()
      ensures Timers().Keys == registry
    {
    }

    lemma AddLeaves(s: Worker<Timer>, e: Event<Timer>)
      ensures var r := WorkerModel.Add(s, e); r.timers == s.timers && r.list == s.list
    {
    }

    lemma ExpireIs(s: Worker<Timer>)
      requires s.list != [] && s.list[0].timer in s.timers
      ensures var t := s.list[0].timer;
              var added := WorkerModel.Add(s.(list := s.list[1..]), TimerEvent(t, true));
              Expire(s) == if s.stopReceiving then added else added.(timers := s.timers[t := s.timers[t].(queued := true)])
    {
    }

    method MarkQueued(timer: Timer)
      requires Valid() && timer in registry
      modifies timer`queued
      ensures Valid() && timer in old(Timers())
      ensures State() == old(State()).(timers := old(Timers())[timer := old(Timers())[timer].(queued := true)])
    {
      hide Queue.Valid, Queue.Contents, TimerManager.Valid, TimerManager.Entries, Timers;
      KnownTimer(timer);
      timer.queued := true;
      OneTimerChanged(timer);
    }

    ghost predicate IsChecking(run: seq<Action<Timer>>) {
      forall i :: 0 <= i < |run| ==> run[i].Tick? || run[i].ExpireHead?
    }

    lemma OneStep(s: Worker<Timer>, a: Action<Timer>)
      requires Enabled(s, a)
      ensures IsRun(s, [a]) && After(s, [a]) == Step(s, a)
    {
      assert [a][1..] == [];
    }

    /** The step and the reading of the clock after it, appended to the run so far. */
    method CheckOnce(ghost start: Worker<Timer>, ghost run: seq<Action<Timer>>) returns (msec: u32, ghost more: seq<Action<Timer>>)
      requires Valid() && inHand.None? && Inv(State()) && IsRun(start, run) && State() == After(start, run)
      requires WorkerModel.NextTimeout(timerManager.Entries(), now) == 0
      modifies this`now, this`stopReceiving, this`accepted, eventQueue, eventQueue.buffer, timerManager.timers, timerManager.timers.Spine(), registry`queued
      ensures Valid() && Inv(State()) && |timerManager.Entries()| < old(|timerManager.Entries()|)
      ensures eventQueue.buffer == old(eventQueue.buffer) || fresh(eventQueue.buffer)
      ensures timerManager.timers.Spine() <= old(timerManager.timers.Spine())
      ensures IsRun(start, run + more) && State() == After(start, run + more) && more == [Action.ExpireHead, Tick(now)]
      ensures msec == WorkerModel.NextTimeout(timerManager.Entries(), now)
    {
      hide Queue.Valid, Queue.Contents, TimerManager.Valid, TimerManager.Entries, Timers, Inv, Expire, WorkerModel.NextTimeout, IsRun, After;
      ghost var before := State();
      TimeoutIsExact(before);
      ExpireKeepsInv(before);
      RegistryIs();
      ExpireHead();
      RunSnoc(start, run, Action.ExpireHead);
      ghost var mid := State();
      msec := NextTimeout();
      RunSnoc(start, run + [Action.ExpireHead], Tick(now));
      TickKeepsInv(mid, now);
      more := [Action.ExpireHead, Tick(now)];
      assert run + [Action.ExpireHead] + [Tick(now)] == run + more;
    }

    /** Moves every due timer to the event queue; afterwards none that was due at the last reading of the
        clock is left in the list. */
    method CheckTimer() returns (ghost run: seq<Action<Timer>>)
      requires Valid() && inHand.None? && Inv(State())
      modifies this`now, this`stopReceiving, this`accepted, eventQueue, eventQueue.buffer, timerManager.timers, timerManager.timers.Spine(), registry`queued
      ensures Valid() && Inv(State())
      ensures eventQueue.buffer == old(eventQueue.buffer) || fresh(eventQueue.buffer)
      ensures timerManager.timers.Spine() <= old(timerManager.timers.Spine())
      ensures IsChecking(run) && IsRun(old(State()), run) && State() == After(old(State()), run)
      ensures forall i :: 0 <= i < |timerManager.Entries()| ==> timerManager.Entries()[i].end > now
    {
      hide Queue.Valid, Queue.Contents, TimerManager.Valid, TimerManager.Entries, Timers, Inv, Expire, WorkerModel.NextTimeout, IsRun, After;
      ghost var start := State();
      var msec := NextTimeout();
      run := [Tick(now)];
      OneStep(start, Tick(now));
      TickKeepsInv(start, now);
      while msec == 0
        invariant Valid() && inHand.None? && registry == old(registry) && Inv(State())
        invariant eventQueue.buffer == old(eventQueue.buffer) || fresh(eventQueue.buffer)
        invariant timerManager.timers.Spine() <= old(timerManager.timers.Spine())
        invariant IsChecking(run) && IsRun(start, run) && State() == After(start, run)
        invariant msec == WorkerModel.NextTimeout(timerManager.Entries(), now)
        decreases |timerManager.Entries()|
      {
        ghost var more;
        msec, more := CheckOnce(start, run);
        run := run + more;
      }
      TimeoutIsExact(State());
    }

    /** Everything the worker may write. */
    ghost function Footprint(): set<object>
      reads this, eventQueue, timerManager, timerManager.timers
    {
      {this, eventQueue, eventQueue.buffer, timerManager.timers} + timerManager.timers.Spine() + registry
    }

    /** The state is what a run from `start` leads to. */
    ghost predicate Reached(start: Worker<Timer>, run: seq<Action<Timer>>)
      requires Valid()
      reads this, eventQueue, eventQueue.buffer, timerManager, timerManager.timers, timerManager.timers.nodes, registry
    {
      Inv(State()) && IsRun(start, run) && State() == After(start, run)
    }

    lemma ReachedNext(start: Worker<Timer>, run: seq<Action<Timer>>, before: Worker<Timer>, a: Action<Timer>)
      requires Valid() && Inv(before) && IsRun(start, run) && before == After(start, run)
      requires Enabled(before, a) && State() == Step(before, a)
      ensures Reached(start, run + [a])
    {
      hide Inv, Enabled, Step;
      RunSnoc(start, run, a);
      StepKeepsInv(before, a);
    }

    /** Pops the next event, after checking the timers. */
    method Pump() returns (result: bool, event: Option<Event<Timer>>, ghost run: seq<Action<Timer>>)
      requires Valid() && inHand.None? && Inv(State())
      modifies Footprint()
      ensures Valid() && Reached(old(State()), run) && inHand == event && result == event.Some?
      ensures fresh(Footprint() - old(Footprint()))
      ensures registry == old(registry)
    {
      hide Queue.Valid, Queue.Contents, TimerManager.Valid, TimerManager.Entries, Timers, Inv, IsRun, After;
      ghost var start := State();
      run := CheckTimer();
      ghost var before := State();
      result, event := eventQueue.Pop();
      inHand := event;
      ReachedNext(start, run, before, PopEvent);
      run := run + [PopEvent];
    }

    /** A live timer event leaves the hand: both flags go down. */
    method Fire(timer: Timer)
      requires Valid() && inHand == Some(TimerEvent(timer, true)) && timer in registry
      modifies this`inHand, this`dispatched, this`log, timer`running, timer`queued
      ensures Valid() && timer in old(State()).timers && State() == FiredOnly(old(State()))
    {
      hide Queue.Valid, Queue.Contents, TimerManager.Valid, TimerManager.Entries, Timers;
      KnownTimer(timer);
      dispatched := dispatched + [inHand.value];
      inHand := None;
      timer.running := false;
      timer.queued := false;
      log := log + [Fired(timer)];
      OneTimerChanged(timer);
    }

    /** The timer case: fire, and start again if the timer repeats. */
    method DispatchTimer(timer: Timer)
      requires Valid() && inHand == Some(TimerEvent(timer, true)) && timer in registry
      modifies this`inHand, this`dispatched, this`log, this`now, timer, timerManager.timers, timerManager.timers.Spine()
      ensures Valid() && now >= old(now) && timer in old(State()).timers
      ensures State() == WorkerModel.Dispatch(old(State()).(now := now))
      ensures fresh(timerManager.timers.Spine() - old(timerManager.timers.Spine()))
    {
      hide Queue.Valid, Queue.Contents, TimerManager.Valid, TimerManager.Entries, Timers, Start, WorkerModel.Dispatch, FiredOnly;
      ghost var before := State();
      KnownTimer(timer);
      Fire(timer);
      FiredIs(before);
      KnownTimer(timer);
      if timer.repeat {
        var unused := StartTimer(timer);
      }
      DispatchLater(before, now);
    }

    /** The switch on the event; what its handler does comes after. */
    method Dispatch(event: Event<Timer>)
      requires Valid() && inHand == Some(event) && Inv(State())
      modifies Footprint()
      ensures Valid() && inHand.None? && now >= old(now)
      ensures IsLive(event) ==> event.timer in old(State()).timers
      ensures State() == WorkerModel.Dispatch(old(State()).(now := now))
      ensures fresh(Footprint() - old(Footprint()))
      ensures registry == old(registry)
    {
      hide Queue.Valid, Queue.Contents, TimerManager.Valid, TimerManager.Entries, Timers, Inv, Start, WorkerModel.Dispatch, FiredOnly;
      ghost var before := State();
      DispatchKeepsInv(before);
      RegistryIs();
      if IsLive(event) {
        DispatchTimer(event.timer);
        HandIsEmpty(before.(now := now));
      } else {
        inHand := None;
        dispatched := dispatched + [event];
        if event.StopEvent? {
          running := false;
        }
        DispatchIs(before);
      }
    }

    lemma HandIsEmpty(s: Worker<Timer>)
      requires s.inHand.Some? && IsLive(s.inHand.value) && s.inHand.value.timer in s.timers
      ensures WorkerModel.Dispatch(s).inHand.None?
    {
    }

    lemma FiredIs(s: Worker<Timer>)
      requires s.inHand.Some? && IsLive(s.inHand.value) && s.inHand.value.timer in s.timers
      ensures var t := s.inHand.value.timer;
              FiredOnly(s).inHand.None? && t in FiredOnly(s).timers && FiredOnly(s).timers[t].repeat == s.timers[t].repeat
    {
    }

    lemma DispatchIs(s: Worker<Timer>)
      requires s.inHand.Some? && !IsLive(s.inHand.value)
      ensures WorkerModel.Dispatch(s) ==
                s.(inHand := None, dispatched := s.dispatched + [s.inHand.value], running := s.running && !s.inHand.value.StopEvent?)
    {
    }

    lemma DispatchLater(s: Worker<Timer>, now: nat)
      requires s.inHand.Some? && IsLive(s.inHand.value) && s.inHand.value.timer in s.timers
      ensures var fired := FiredOnly(s).(now := now);
              WorkerModel.Dispatch(s.(now := now)) ==
                if s.timers[s.inHand.value.timer].repeat then Start(fired, s.inHand.value.timer) else fired
    {
      hide Start;
    }

    method HandleStart(timer: Timer, ghost start: Worker<Timer>, ghost run: seq<Action<Timer>>)
        returns (ghost more: seq<Action<Timer>>)
      requires Valid() && inHand.None? && Reached(start, run) && timer in registry
      modifies Footprint()
      ensures Valid() && inHand.None? && Reached(start, run + more) && registry == old(registry)
      ensures fresh(Footprint() - old(Footprint()))
    {
      hide Queue.Valid, Queue.Contents, TimerManager.Valid, TimerManager.Entries, Timers, Inv, IsRun, After, Start;
      ghost var before := State();
      RegistryIs();
      var unused := StartTimer(timer);
      more := [Tick(now), Action.StartTimer(timer)];
      RunSnoc(start, run, Tick(now));
      TickKeepsInv(before, now);
      ReachedNext(start, run + [Tick(now)], before.(now := now), Action.StartTimer(timer));
      assert run + [Tick(now)] + [Action.StartTimer(timer)] == run + more;
      HandStaysEmpty(before, StartCommand(timer));
    }

    method HandleOne(command: Command, ghost start: Worker<Timer>, ghost run: seq<Action<Timer>>, ghost live: set<Timer>)
        returns (ghost more: seq<Action<Timer>>)
      requires Valid() && inHand.None? && Reached(start, run) && live <= registry && Allowed(command, live)
      modifies Footprint()
      ensures Valid() && inHand.None? && Reached(start, run + more) && LeftBy(command, live) <= registry
      ensures fresh(Footprint() - old(Footprint()))
    {
      hide Queue.Valid, Queue.Contents, TimerManager.Valid, TimerManager.Entries, Timers, Inv, IsRun, After, Start, Stop, WorkerModel.Add, Destroy;
      ghost var before := State();
      RegistryIs();
      match command {
        case Post(event) =>
          var unused := Add(event);
          more := [AddEvent(event)];
          ReachedNext(start, run, before, AddEvent(event));
        case StartCommand(timer) =>
          more := HandleStart(timer, start, run);
        case StopCommand(timer) =>
          StopTimer(timer);
          more := [Action.StopTimer(timer)];
          ReachedNext(start, run, before, Action.StopTimer(timer));
        case DestroyCommand(timer) =>
          DestroyTimer(timer);
          more := [Action.DestroyTimer(timer)];
          ReachedNext(start, run, before, Action.DestroyTimer(timer));
      }
      HandStaysEmpty(before, command);
    }

    lemma HandStaysEmpty(s: Worker<Timer>, command: Command)
      ensures command.Post? ==> WorkerModel.Add(s, command.event).inHand == s.inHand
      ensures command.StartCommand? && command.timer in s.timers ==> forall now :: Start(s.(now := now), command.timer).inHand == s.inHand
      ensures command.StopCommand? && command.timer in s.timers ==> Stop(s, command.timer).inHand == s.inHand
      ensures command.DestroyCommand? && command.timer in s.timers ==> Destroy(s, command.timer).inHand == s.inHand
    {
    }

    method Handle(commands: seq<Command>, ghost start: Worker<Timer>, ghost run: seq<Action<Timer>>, ghost live: set<Timer>)
        returns (ghost more: seq<Action<Timer>>)
      requires Valid() && inHand.None? && Reached(start, run) && live <= registry && Permitted(commands, live)
      modifies Footprint()
      ensures Valid() && inHand.None? && Reached(start, run + more) && Left(commands, live) <= registry
      ensures fresh(Footprint() - old(Footprint()))
    {
      hide Queue.Valid, Queue.Contents, TimerManager.Valid, TimerManager.Entries, Timers, Reached, Allowed, LeftBy;
      more := [];
      ghost var left := live;
      assert run + more == run && commands[0..] == commands;
      for i := 0 to |commands|
        invariant Valid() && inHand.None? && Reached(start, run + more) && left <= registry
        invariant Permitted(commands[i..], left) && Left(commands[i..], left) == Left(commands, live)
        invariant fresh(Footprint() - old(Footprint()))
      {
        assert commands[i..][1..] == commands[i + 1..];
        ghost var next := HandleOne(commands[i], start, run + more, left);
        left := LeftBy(commands[i], left);
        assert run + more + next == run + (more + next);
        more := more + next;
      }
    }

    /** Pops, dispatches and handles one event, if there is one. */
    method PumpAndDispatch(commands: seq<Command>, ghost start: Worker<Timer>, ghost run: seq<Action<Timer>>, ghost live: set<Timer>)
        returns (any: bool, ghost run': seq<Action<Timer>>)
      requires Valid() && inHand.None? && Reached(start, run) && live <= registry && Permitted(commands, live)
      modifies Footprint()
      ensures Valid() && inHand.None? && Reached(start, run') && Left(commands, live) <= registry
      ensures fresh(Footprint() - old(Footprint()))
    {
      hide Queue.Valid, Queue.Contents, TimerManager.Valid, TimerManager.Entries, Timers, Inv, IsRun, After, WorkerModel.Dispatch, Left, Permitted;
      var event;
      ghost var more;
      any, event, more := Pump();
      RunConcat(start, run, more);
      run' := run + more;
      if any {
        run' := DispatchInHand(event.value, start, run');
        ghost var handled := Handle(commands, start, run', live);
        run' := run' + handled;
      }
    }

    method DispatchInHand(event: Event<Timer>, ghost start: Worker<Timer>, ghost run: seq<Action<Timer>>)
        returns (ghost run': seq<Action<Timer>>)
      requires Valid() && inHand == Some(event) && Reached(start, run)
      modifies Footprint()
      ensures Valid() && inHand.None? && Reached(start, run') && registry == old(registry)
      ensures fresh(Footprint() - old(Footprint()))
    {
      hide Queue.Valid, Queue.Contents, TimerManager.Valid, TimerManager.Entries, Timers, Inv, IsRun, After, WorkerModel.Dispatch;
      ghost var held := State();
      Dispatch(event);
      RunSnoc(start, run, Tick(now));
      TickKeepsInv(held, now);
      ReachedNext(start, run + [Tick(now)], held.(now := now), DispatchEvent);
      run' := run + [Tick(now)] + [DispatchEvent];
    }

    /** One turn of the main loop after the wait: as many events as were queued when it began. */
    method Round(handlers: seq<seq<Command>>, ghost start: Worker<Timer>, ghost run: seq<Action<Timer>>, ghost live: set<Timer>)
        returns (ghost run': seq<Action<Timer>>)
      requires Valid() && inHand.None? && Reached(start, run) && live <= registry && AllPermitted(handlers, live)
      modifies Footprint()
      ensures Valid() && inHand.None? && Reached(start, run') && LeftByAll(handlers, live) <= registry
      ensures fresh(Footprint() - old(Footprint()))
    {
      hide Queue.Valid, Queue.Contents, TimerManager.Valid, TimerManager.Entries, Timers, Reached, AllPermitted, LeftByAll;
      run' := CheckFirst(start, run);
      var eventCount := eventQueue.GetCount();
      var any, rest := true, handlers;
      ghost var left := live;
      while eventCount > 0 && any
        invariant Valid() && inHand.None? && Reached(start, run') && left <= registry
        invariant AllPermitted(rest, left) && LeftByAll(rest, left) == LeftByAll(handlers, live)
        invariant fresh(Footprint() - old(Footprint()))
        decreases eventCount
      {
        any, rest, run', left := PumpNext(rest, start, run', left);
        eventCount := eventCount - 1;
      }
    }

    /** The next event, with what the supply says happens after it. */
    method PumpNext(handlers: seq<seq<Command>>, ghost start: Worker<Timer>, ghost run: seq<Action<Timer>>, ghost live: set<Timer>)
        returns (any: bool, rest: seq<seq<Command>>, ghost run': seq<Action<Timer>>, ghost left: set<Timer>)
      requires Valid() && inHand.None? && Reached(start, run) && live <= registry && AllPermitted(handlers, live)
      modifies Footprint()
      ensures Valid() && inHand.None? && Reached(start, run') && left <= registry
      ensures AllPermitted(rest, left) && LeftByAll(rest, left) == LeftByAll(handlers, live)
      ensures fresh(Footprint() - old(Footprint()))
    {
      hide Queue.Valid, Queue.Contents, TimerManager.Valid, TimerManager.Entries, Timers, Reached, Left, Permitted;
      if handlers == [] {
        NothingAsked(live);
        any, run' := PumpAndDispatch([], start, run, live);
        rest, left := [], live;
      } else {
        any, run' := PumpAndDispatch(handlers[0], start, run, live);
        rest, left := handlers[1..], Left(handlers[0], live);
      }
    }

    lemma NothingAsked(live: set<Timer>)
      ensures Permitted([], live) && Left([], live) == live
    {
    }

    /** The time the wait is given, read from the clock. */
    method WaitTime(ghost start: Worker<Timer>, ghost run: seq<Action<Timer>>) returns (msec: u32)
      requires Valid() && inHand.None? && Reached(start, run)
      modifies this`now
      ensures Valid() && Reached(start, run + [Tick(now)])
      ensures msec == WorkerModel.NextTimeout(timerManager.Entries(), now)
    {
      hide Queue.Valid, Queue.Contents, TimerManager.Valid, TimerManager.Entries, Timers, Inv, IsRun, After, WorkerModel.NextTimeout;
      ghost var before := State();
      msec := NextTimeout();
      ReachedNext(start, run, before, Tick(now));
    }

    /** The wait, and what other threads add meanwhile. */
    method Wait(arrivals: seq<Command>, ghost start: Worker<Timer>, ghost run: seq<Action<Timer>>, ghost live: set<Timer>)
        returns (ghost run': seq<Action<Timer>>)
      requires Valid() && inHand.None? && Reached(start, run) && live <= registry && Permitted(arrivals, live)
      modifies Footprint()
      ensures Valid() && inHand.None? && Reached(start, run') && Left(arrivals, live) <= registry
      ensures fresh(Footprint() - old(Footprint()))
    {
      hide Queue.Valid, Queue.Contents, TimerManager.Valid, TimerManager.Entries, Timers, Reached, Left, Permitted;
      var msec := WaitTime(start, run);
      run' := run + [Tick(now)];
      ghost var arrived := Handle(arrivals, start, run', live);
      run' := run' + arrived;
    }

    /** The timers are checked. */
    method CheckFirst(ghost start: Worker<Timer>, ghost run: seq<Action<Timer>>) returns (ghost run': seq<Action<Timer>>)
      requires Valid() && inHand.None? && Reached(start, run)
      modifies Footprint()
      ensures Valid() && inHand.None? && Reached(start, run') && registry == old(registry)
      ensures fresh(Footprint() - old(Footprint()))
    {
      hide Queue.Valid, Queue.Contents, TimerManager.Valid, TimerManager.Entries, Timers, Inv, IsRun, After;
      ghost var more := CheckTimer();
      RunConcat(start, run, more);
      run' := run + more;
    }

    /** The body of the main loop, unless the wait fails. */
    method TakeTurn(turn: Turn, ghost later: seq<Turn>, ghost start: Worker<Timer>, ghost run: seq<Action<Timer>>, ghost live: set<Timer>)
        returns (turned: bool, ghost run': seq<Action<Timer>>, ghost left: set<Timer>)
      requires Valid() && inHand.None? && Reached(start, run) && live <= registry && TurnsPermitted([turn] + later, live)
      modifies Footprint()
      ensures Valid() && inHand.None? && Reached(start, run')
      ensures turned ==> left <= registry && TurnsPermitted(later, left)
      ensures fresh(Footprint() - old(Footprint()))
    {
      hide Queue.Valid, Queue.Contents, TimerManager.Valid, TimerManager.Entries, Timers, Reached, Left, Permitted, AllPermitted, LeftByAll;
      assert ([turn] + later)[1..] == later;
      run' := Wait(turn.arrivals, start, run, live);
      left := Left(turn.arrivals, live);
      turned := !turn.waitFailed;
      if turned {
        run' := Round(turn.handlers, start, run', left);
        left := LeftByAll(turn.handlers, left);
      }
    }

    /** The main loop over a finite supply of turns. When STOP ended it, nothing that was accepted is left
        undispatched. */
    method Run(turns: seq<Turn>) returns (ghost run: seq<Action<Timer>>)
      requires Valid() && inHand.None? && Inv(State()) && TurnsPermitted(turns, registry)
      modifies Footprint()
      ensures Valid() && inHand.None? && Reached(old(State()), run)
      ensures !running ==> eventQueue.Contents() == []
    {
      hide Queue.Valid, Queue.Contents, TimerManager.Valid, TimerManager.Entries, Timers, TurnsPermitted, Inv, Reached;
      ghost var start := State();
      run := [];
      StartReached();
      var rest := turns;
      ghost var left := registry;
      while running && rest != []
        invariant Valid() && inHand.None? && Reached(start, run) && left <= registry && TurnsPermitted(rest, left)
        invariant fresh(Footprint() - old(Footprint()))
        decreases rest
      {
        assert [rest[0]] + rest[1..] == rest;
        var turned;
        turned, run, left := TakeTurn(rest[0], rest[1..], start, run, left);
        if !turned {
          break;
        }
        rest := rest[1..];
      }
      ReachedDrains(start, run);
    }

    lemma StartReached()
      requires Valid() && Inv(State())
      ensures Reached(State(), [])
    {
      hide Inv;
    }

    lemma ReachedDrains(start: Worker<Timer>, run: seq<Action<Timer>>)
      requires Valid() && Reached(start, run)
      ensures !running && inHand.None? ==> eventQueue.Contents() == []
    {
      hide Inv, Queue.Contents, Timers;
      if !running { StoppedIsDrained(State()); }
    }
  }
}
