/** The two ends of a modelled stream keep the books of FlowControl: what src/http2/co_http2_stream.c:400-446,
    477-515, 802-816 and 1266-1290 and src/http2/co_http2_client.c:304-319 do with DATA and WINDOW_UPDATE frames
    are steps of a Link, so its conservation of credit is theirs. */
module StreamCredit {
  import opened Machine
  import opened Frame
  import opened StreamModel
  import D = StreamDelivery
  import F = FlowControl
  import S = StreamStates

  /** The link's windows are those of a sending end and a receiving end of one stream. */
  predicate Shows(l: F.Link, s: End, r: End) {
    && s.id == r.id != 0
    && l.Remote(0) == s.systemRemote && l.Remote(s.id) == s.remote
    && l.Local(0) == r.systemWindow && l.Local(r.id) == r.window
  }

  /** WINDOW_UPDATE frames as amounts, in order; other frames do not count. */
  function UpdatesIn(fs: seq<Frame>): seq<F.Amount> {
    if fs == [] then []
    else
      var f := fs[|fs| - 1];
      UpdatesIn(fs[..|fs| - 1]) + (if f.payload.WindowUpdate? then [F.Amount(f.streamId, f.payload.increment)] else [])
  }

  lemma UpdatesSnoc(fs: seq<Frame>, f: Frame)
    ensures UpdatesIn(fs + [f])
            == UpdatesIn(fs) + (if f.payload.WindowUpdate? then [F.Amount(f.streamId, f.payload.increment)] else [])
  {
    assert (fs + [f])[..|fs|] == fs;
  }

  /** Frames that a receiver of DATA sends. */
  predicate OnlyControl(fs: seq<Frame>, id: u32) {
    forall i :: 0 <= i < |fs| ==>
      (fs[i].payload.WindowUpdate? && (fs[i].streamId == id || fs[i].streamId == 0)) || fs[i].payload.RstStream?
  }

  ghost predicate ControlFrom(e: End, e': End) {
    e'.id == e.id && e.wire <= e'.wire && OnlyControl(e'.wire[|e.wire|..], e.id)
  }

  lemma ControlTwice(e: End, e1: End, e2: End)
    requires ControlFrom(e, e1) && ControlFrom(e1, e2)
    ensures ControlFrom(e, e2)
  {
    assert e2.wire[|e.wire|..] == e1.wire[|e.wire|..] + e2.wire[|e1.wire|..];
  }

  // ---- one frame ----

  lemma SendIsStep(l: F.Link, s: End, r: End, c: TypedCall)
    requires Shows(l, s, r) && c.NewData? && CanSend(s, c)
    ensures var l' := F.Step(l, F.SendData(s.id, Size(c)));
            Shows(l', Send(s, c), r) && l'.data == l.data + [F.Amount(s.id, Size(c))] && l'.updates == l.updates
  {
    hide CanSend, FlagsOf, Has;
  }

  /** What the receiver makes of a DATA frame, in the terms of the link. */
  function OutcomeOf(r: End, f: Frame, a: Answers): F.Outcome
    requires f.payload.Data?
  {
    var change := S.Transition(r.state, false, SignalOf(f));
    var mayUpdate := S.Accepts(change.state, true, S.Signal(S.WindowUpdate, false));
    if r.state == S.Closed || change.code != S.NoError then F.Dropped
    else if r.streaming && f.payload.data != [] && !a.data then F.Cancelled(mayUpdate)
    else F.Accepted(mayUpdate)
  }

  /** A reset, if it goes out at all, is one frame that is no WINDOW_UPDATE, and touches no window. */
  lemma ResetShape(e: End, code: u32)
    ensures var e' := Reset(e, code);
            e' == e.(state := e'.state, wire := e'.wire)
            && (e'.wire == e.wire || exists f: Frame :: f.payload.RstStream? && e'.wire == e.wire + [f])
  {
    hide CanSend;
    assert Build(NewRstStream(code), e.id).payload.RstStream?;
  }

  lemma ResetKeepsWindows(e: End, code: u32)
    ensures var e' := Reset(e, code);
            && e' == e.(state := e'.state, wire := e'.wire) && ControlFrom(e, e')
            && UpdatesIn(e'.wire[|e.wire|..]) == []
  {
    hide Reset, UpdatesIn;
    ResetShape(e, code);
    NoUpdates();
    var e' := Reset(e, code);
    if e'.wire == e.wire {
      assert e'.wire[|e.wire|..] == [];
    } else {
      var f: Frame :| f.payload.RstStream? && e'.wire == e.wire + [f];
      assert e'.wire[|e.wire|..] == [] + [f];
      UpdatesSnoc([], f);
    }
  }

  /** A WINDOW_UPDATE goes out exactly if the state allows it, and changes no state. */
  lemma UpdateSent(e: End, increment: u32)
    ensures var e' := Send(e, NewWindowUpdate(increment));
            && e' == e.(wire := e'.wire) && ControlFrom(e, e')
            && UpdatesIn(e'.wire[|e.wire|..])
               == if S.Accepts(e.state, true, S.Signal(S.WindowUpdate, false)) then [F.Amount(e.id, increment)] else []
  {
    var f := Build(NewWindowUpdate(increment), e.id);
    UpdateSignal(increment, e.id);
    UpdateKeepsState(e.state);
    hide Build, SignalOf, S.Transition, S.Accepts, UpdatesIn;
    NoUpdates();
    if CanSend(e, NewWindowUpdate(increment)) {
      assert (e.wire + [f])[|e.wire|..] == [] + [f];
      UpdatesSnoc([], f);
    } else {
      assert e.wire[|e.wire|..] == [];
    }
  }

  lemma NoUpdates()
    ensures UpdatesIn([]) == []
  {
  }

  lemma UpdateSignal(increment: u32, id: u32)
    ensures var f := Build(NewWindowUpdate(increment), id);
            SignalOf(f) == S.Signal(S.WindowUpdate, false) && f.payload == WindowUpdate(increment) && f.streamId == id
  {
  }

  lemma UpdateKeepsState(s: S.State)
    ensures S.Send(s, S.Signal(S.WindowUpdate, false)) == s
  {
  }

  lemma {:induction false} UpdatesConcat(a: seq<Frame>, b: seq<Frame>)
    ensures UpdatesIn(a + b) == UpdatesIn(a) + UpdatesIn(b)
    decreases |b|
  {
    if b == [] {
      assert a + b == a;
    } else {
      var n := |b| - 1;
      UpdatesConcat(a, b[..n]);
      assert a + b == a + b[..n] + [b[n]] && b == b[..n] + [b[n]];
      UpdatesSnoc(a + b[..n], b[n]);
    }
  }

  lemma UpdatesTwice(a: seq<Frame>, b: seq<Frame>, c: seq<Frame>)
    requires a <= b <= c
    ensures UpdatesIn(c[|a|..]) == UpdatesIn(b[|a|..]) + UpdatesIn(c[|b|..])
  {
    assert c[|a|..] == b[|a|..] + c[|b|..];
    UpdatesConcat(b[|a|..], c[|b|..]);
  }

  /** From e to e', and from l to l': the windows are shown again, and what e' has sent is what l' has. */
  ghost predicate Follows(l: F.Link, l': F.Link, s: End, e: End, e': End) {
    && Shows(l', s, e') && ControlFrom(e, e') && l'.data == l.data
    && l'.updates == l.updates + UpdatesIn(e'.wire[|e.wire|..])
  }

  lemma TakeIsStep(l: F.Link, s: End, r: End, n: u32)
    requires Shows(l, s, r)
    ensures var mayUpdate := S.Accepts(r.state, true, S.Signal(S.WindowUpdate, false));
            Follows(l, F.TakeAt(l, r.id, n, mayUpdate), s, r, TakeStream(r, n))
  {
    hide F.Take, S.Accepts, UpdatesIn;
    NoUpdates();
    var t := F.Take(r.window, n);
    if t.increment.Some? {
      UpdateSent(r.(window := t.window), t.increment.value);
    } else {
      assert r.wire[|r.wire|..] == [];
    }
  }

  lemma SystemIsStep(l: F.Link, s: End, r: End, n: u32)
    requires Shows(l, s, r)
    ensures Follows(l, F.TakeAt(l, 0, n, true), s, r, TakeSystem(r, n))
  {
    hide F.Take, FlagsOf, UpdatesIn;
    NoUpdates();
    var t := F.Take(r.systemWindow, n);
    if t.increment.Some? {
      var f := Build(NewWindowUpdate(t.increment.value), 0);
      assert (r.wire + [f])[|r.wire|..] == [] + [f];
      UpdatesSnoc([], f);
    } else {
      assert r.wire[|r.wire|..] == [];
    }
  }

  lemma FollowsTwice(l: F.Link, l1: F.Link, l2: F.Link, s: End, e: End, e1: End, e2: End)
    requires Follows(l, l1, s, e, e1) && Follows(l1, l2, s, e1, e2)
    ensures Follows(l, l2, s, e, e2)
  {
    hide Shows, UpdatesIn;
    UpdatesTwice(e.wire, e1.wire, e2.wire);
    ControlTwice(e, e1, e2);
  }

  /** Nothing sent but resets, and no window changed: credit may have been lost. */
  lemma LostFollows(l: F.Link, l': F.Link, s: End, e: End, e': End)
    requires Shows(l, s, e) && ControlFrom(e, e') && UpdatesIn(e'.wire[|e.wire|..]) == []
    requires e'.window == e.window && e'.systemWindow == e.systemWindow && l' == l.(lost := l'.lost)
    ensures Follows(l, l', s, e, e')
  {
  }

  lemma ResetIsLoss(l: F.Link, l': F.Link, s: End, e: End, code: u32)
    requires Shows(l, s, e) && l' == l.(lost := l'.lost)
    ensures Follows(l, l', s, e, Reset(e, code))
  {
    hide Reset, Shows;
    ResetKeepsWindows(e, code);
    LostFollows(l, l', s, e, Reset(e, code));
  }

  /** The books look at windows and the wire only. */
  predicate SameBooks(e1: End, e2: End) {
    e2.id == e1.id && e2.window == e1.window && e2.systemWindow == e1.systemWindow && e2.wire == e1.wire
  }

  lemma FollowsToo(l: F.Link, l': F.Link, s: End, e: End, e1: End, e2: End)
    requires Follows(l, l', s, e, e1) && SameBooks(e1, e2)
    ensures Follows(l, l', s, e, e2)
  {
    hide UpdatesIn;
  }

  /** What DATA does to the books of the stream: too large, refused by the handler, or taken. */
  lemma DataBooks(e: End, f: Frame, a: Answers)
    requires f.payload.Data?
    ensures var h := HearData(e, f, a); var e1 := TakeStream(e, f.length);
            && h.Heard?
            && (if f.length > Min(e.window.local, e.systemWindow.local) then !h.ok && h.end == Reset(e, FRAME_SIZE_ERROR)
                else if e.streaming && f.payload.data != [] && !a.data
                then !h.ok && SameBooks(Reset(Tell(e1, DataCame(f.payload.data)), CANCEL), h.end)
                else h.ok && SameBooks(e1, h.end))
  {
    hide Has, Reset, TakeStream;
  }

  lemma DataIsStep(l: F.Link, s: End, e: End, f: Frame, a: Answers)
    requires f.payload.Data? && Shows(l, s, e)
    ensures var h := HearData(e, f, a); var n := f.length;
            var mayUpdate := S.Accepts(e.state, true, S.Signal(S.WindowUpdate, false));
            var l1 := F.TakeAt(l, e.id, n, mayUpdate);
            && h.Heard?
            && (if n > Min(e.window.local, e.systemWindow.local) then !h.ok && Refused(l, s, e, h.end)
                else if e.streaming && f.payload.data != [] && !a.data then !h.ok && Follows(l, l1.Lose(0, n), s, e, h.end)
                else h.ok && Follows(l, l1, s, e, h.end))
  {
    hide HearData, F.TakeAt, Reset, TakeStream, S.Accepts, Follows, Shows, SameBooks, Tell;
    var n := f.length;
    DataBooks(e, f, a);
    var h := HearData(e, f, a).end;
    if n > Min(e.window.local, e.systemWindow.local) {
      forall l': F.Link | l' == l.(lost := l'.lost) ensures Follows(l, l', s, e, h) { ResetIsLoss(l, l', s, e, FRAME_SIZE_ERROR); }
    } else {
      TakeIsStep(l, s, e, n);
      var e1 := TakeStream(e, n);
      var l1 := F.TakeAt(l, e.id, n, S.Accepts(e.state, true, S.Signal(S.WindowUpdate, false)));
      if e.streaming && f.payload.data != [] && !a.data {
        CancelIsLoss(l, l1, s, e, e1, DataCame(f.payload.data), n);
        FollowsToo(l, l1.Lose(0, n), s, e, Reset(Tell(e1, DataCame(f.payload.data)), CANCEL), h);
      } else {
        FollowsToo(l, l1, s, e, e1, h);
      }
    }
  }

  lemma CancelIsLoss(l: F.Link, l1: F.Link, s: End, e: End, e1: End, event: Event, n: nat)
    requires Follows(l, l1, s, e, e1)
    ensures Follows(l, l1.Lose(0, n), s, e, Reset(Tell(e1, event), CANCEL))
  {
    hide Reset, Follows, Shows;
    var e2 := Tell(e1, event);
    FollowsToo(l, l1, s, e, e1, e2);
    FollowsShows(l, l1, s, e, e2);
    ResetIsLoss(l1, l1.Lose(0, n), s, e2, CANCEL);
    FollowsTwice(l, l1, l1.Lose(0, n), s, e, e2, Reset(e2, CANCEL));
  }

  /** Whatever credit is said to be lost. */
  ghost predicate Refused(l: F.Link, s: End, e: End, e': End) {
    forall l': F.Link :: l' == l.(lost := l'.lost) ==> Follows(l, l', s, e, e')
  }

  lemma FollowsShows(l: F.Link, l': F.Link, s: End, e: End, e': End)
    requires Follows(l, l', s, e, e')
    ensures Shows(l', s, e') && e'.id == e.id
  {
    hide Shows;
  }

  /** One DATA frame that arrives is one step of the link, with the outcome the receiver's state and handler
      give it, and the WINDOW_UPDATE frames sent are the amounts put in flight. */
  lemma ArriveIsStep(l: F.Link, s: End, r: End, f: Frame, a: Answers)
    requires Shows(l, s, r) && f.payload.Data? && l.data != [] && l.data[0] == F.Amount(r.id, f.length)
    ensures var h := Arrive(r, f, a); var l' := F.Step(l, F.ReceiveData(OutcomeOf(r, f, a)));
            h.Heard? && Follows(l.(data := l.data[1..]), l', s, r, h.end)
  {
    hide F.TakeAt, Reset, HearData, TakeSystem, S.Transition, S.Accepts, SignalOf, Shows, Follows;
    var l0 := l.(data := l.data[1..]);
    var lost := l0.Lose(0, f.length).Lose(r.id, f.length);
    var change := S.Transition(r.state, false, SignalOf(f));
    PopShows(l, s, r);
    if r.state == S.Closed {
      assert r.wire[|r.wire|..] == [];
      LostFollows(l0, lost, s, r, r);
    } else if change.code != S.NoError {
      ResetIsLoss(l0, lost, s, r, if change.code == S.ProtocolError then PROTOCOL_ERROR else STREAM_CLOSED);
    } else {
      AcceptedIsStep(l0, s, r, change.state, f, a);
    }
  }

  lemma PopShows(l: F.Link, s: End, r: End)
    requires Shows(l, s, r) && l.data != []
    ensures Shows(l.(data := l.data[1..]), s, r) && r.id != 0
            && F.Window(l.Local(0).local, l.Local(0).max) == r.systemWindow
            && F.Window(l.Local(r.id).local, l.Local(r.id).max) == r.window
  {
  }

  /** The case in which the state machine accepts the frame. */
  lemma AcceptedIsStep(l: F.Link, s: End, r: End, state: S.State, f: Frame, a: Answers)
    requires Shows(l, s, r) && f.payload.Data?
    ensures var e := r.(state := state); var n := f.length; var h := HearData(e, f, a);
            var l1 := F.TakeAt(l, r.id, n, S.Accepts(state, true, S.Signal(S.WindowUpdate, false)));
            && h.Heard?
            && (if n > Min(r.window.local, r.systemWindow.local) then !h.ok && Refused(l, s, r, h.end)
                else if r.streaming && f.payload.data != [] && !a.data then !h.ok && Follows(l, l1.Lose(0, n), s, r, h.end)
                else h.ok && Follows(l, F.TakeAt(l1, 0, n, true), s, r, TakeSystem(h.end, n)))
  {
    hide F.TakeAt, HearData, TakeSystem, S.Accepts, Shows, Follows;
    var e := r.(state := state);
    var n := f.length;
    OtherState(l, s, r, state);
    DataIsStep(l, s, e, f, a);
    var h := HearData(e, f, a).end;
    OtherStart(l, s, r, state, f, a);
    if HearData(e, f, a).ok {
      var l1 := F.TakeAt(l, r.id, n, S.Accepts(state, true, S.Signal(S.WindowUpdate, false)));
      FollowsShows(l, l1, s, r, h);
      SystemIsStep(l1, s, h, n);
      FollowsTwice(l, l1, F.TakeAt(l1, 0, n, true), s, r, h, TakeSystem(h, n));
    }
  }

  lemma OtherState(l: F.Link, s: End, r: End, state: S.State)
    requires Shows(l, s, r)
    ensures Shows(l, s, r.(state := state))
  {
  }

  lemma OtherStart(l: F.Link, s: End, r: End, state: S.State, f: Frame, a: Answers)
    requires f.payload.Data? && HearData(r.(state := state), f, a).Heard?
    ensures var h := HearData(r.(state := state), f, a).end;
            forall l1: F.Link :: Follows(l, l1, s, r.(state := state), h) ==> Follows(l, l1, s, r, h)
  {
    hide HearData, UpdatesIn, Shows;
  }

  /** One WINDOW_UPDATE that arrives on the stream is one step of the link. */
  lemma UpdateIsStep(l: F.Link, s: End, r: End, f: Frame, a: Answers)
    requires Shows(l, s, r) && f.payload.WindowUpdate? && l.updates != [] && l.updates[0] == F.Amount(s.id, f.payload.increment)
    ensures var h := Arrive(s, f, a);
            var known := s.state != S.Closed && S.Accepts(s.state, false, SignalOf(f));
            var l' := F.Step(l, F.ReceiveUpdate(known));
            h.Heard? && Shows(l', h.end, r) && l'.updates == l.updates[1..] && l'.data == l.data
  {
    hide Arrive, S.Transition, SignalOf;
    UpdateHeard(s, f, a);
  }

  lemma UpdateHeard(s: End, f: Frame, a: Answers)
    requires f.payload.WindowUpdate?
    ensures var h := Arrive(s, f, a); var sum := Wrap32(s.remote + f.payload.increment);
            var known := s.state != S.Closed && S.Accepts(s.state, false, SignalOf(f));
            && h.Heard? && h.end.id == s.id && h.end.systemRemote == s.systemRemote && s.wire <= h.end.wire
            && h.end.remote == if known && sum <= F.MAX then sum else s.remote
  {
    hide Reset, S.Transition, SignalOf;
    ResetOnlySends(s, PROTOCOL_ERROR);
    ResetOnlySends(s, STREAM_CLOSED);
    ResetOnlySends(s.(state := S.Transition(s.state, false, SignalOf(f)).state), FLOW_CONTROL_ERROR);
  }

  lemma ResetOnlySends(e: End, code: u32)
    ensures var e' := Reset(e, code); e' == e.(state := e'.state, wire := e'.wire) && e.wire <= e'.wire
  {
    hide CanSend, Build;
  }

  /** The same for the connection. */
  lemma SystemUpdateIsStep(l: F.Link, s: End, r: End, increment: u32)
    requires Shows(l, s, r) && l.updates != [] && l.updates[0] == F.Amount(0, increment)
    ensures var l' := F.Step(l, F.ReceiveUpdate(true));
            Shows(l', HearSystem(s, increment), r) && l'.updates == l.updates[1..] && l'.data == l.data
  {
  }

  lemma ExtendIsStep(l: F.Link, s: End, r: End, increment: u32)
    requires Shows(l, s, r)
    ensures var mayUpdate := S.Accepts(r.state, true, S.Signal(S.WindowUpdate, false));
            Follows(l, F.Step(l, F.SendUpdate(r.id, increment, mayUpdate)), s, r, Extend(r, increment))
  {
    hide F.Grant, S.Accepts, UpdatesIn;
    var t := F.Grant(r.window, increment);
    GrantTells(r.window, increment);
    UpdateSent(r.(window := t.window), t.increment.value);
  }

  lemma GrantTells(w: F.Window, increment: u32)
    ensures F.Grant(w, increment).increment.Some?
  {
  }

  // ---- runs of two ends ----

  /** Both ends of one stream and of the connection that carries it, with the frames in flight each way. */
  datatype Pair = Pair(s: End, r: End, toR: seq<Frame>, toS: seq<Frame>)

  datatype Act =
    | SendOne(c: TypedCall)
    | DataArrives(a: Answers)
    | UpdateArrives(a: Answers)
    | ExtendBy(increment: u32)

  function Sent(before: End, after: End): seq<Frame> {
    if before.wire <= after.wire then after.wire[|before.wire|..] else []
  }

  function Do(p: Pair, act: Act): Pair {
    match act
    case SendOne(c) => if CanSend(p.s, c) then p.(s := Send(p.s, c), toR := p.toR + [Build(c, p.s.id)]) else p
    case DataArrives(a) =>
      if p.toR == [] then p
      else
        (match Arrive(p.r, p.toR[0], a)
         case Crashed => p
         case Heard(r, _) => Pair(p.s, r, p.toR[1..], p.toS + Sent(p.r, r)))
    case UpdateArrives(a) =>
      if p.toS == [] then p
      else
        var f := p.toS[0];
        var p' := p.(toS := p.toS[1..]);
        if f.payload.WindowUpdate? && f.streamId == 0 then p'.(s := HearSystem(p.s, f.payload.increment))
        else (match Arrive(p.s, f, a) case Crashed => p case Heard(s, _) => p'.(s := s))
    case ExtendBy(increment) => var r := Extend(p.r, increment); p.(r := r, toS := p.toS + Sent(p.r, r))
  }

  function Run(p: Pair, acts: seq<Act>): Pair
    decreases acts
  {
    if acts == [] then p else Run(Do(p, acts[0]), acts[1..])
  }

  /** DATA as far as `co_http2_stream_get_sendable_data_size` allows, and no increment above the maximum. */
  predicate Polite(p: Pair, act: Act) {
    match act
    case SendOne(c) => c.NewData? && Size(c) <= Min(p.s.systemRemote, p.s.remote)
    case ExtendBy(increment) => increment <= F.MAX
    case _ => true
  }

  predicate AllPolite(p: Pair, acts: seq<Act>)
    decreases acts
  {
    acts == [] || (Polite(p, acts[0]) && AllPolite(Do(p, acts[0]), acts[1..]))
  }

  function AmountsOf(fs: seq<Frame>): (r: seq<F.Amount>)
    ensures |r| == |fs|
  {
    seq(|fs|, i requires 0 <= i < |fs| => F.Amount(fs[i].streamId, fs[i].length))
  }

  predicate OnlyData(fs: seq<Frame>, id: u32) {
    forall i :: 0 <= i < |fs| ==> fs[i].payload.Data? && fs[i].streamId == id
  }

  /** The link does what the pair does. */
  ghost predicate Simulates(l: F.Link, p: Pair) {
    && Shows(l, p.s, p.r) && F.Inv(l)
    && OnlyData(p.toR, p.s.id) && OnlyControl(p.toS, p.s.id)
    && l.data == AmountsOf(p.toR) && l.updates == UpdatesIn(p.toS)
  }

  lemma SendOneSimulates(l: F.Link, p: Pair, c: TypedCall) returns (l': F.Link)
    requires Simulates(l, p) && Polite(p, SendOne(c))
    ensures Simulates(l', Do(p, SendOne(c)))
  {
    hide CanSend, Send, FlagsOf, Shows, F.Inv, F.Step, UpdatesIn;
    l' := l;
    if CanSend(p.s, c) {
      l' := F.Step(l, F.SendData(p.s.id, Size(c)));
      Sizes(l, p, c);
      F.StepKeepsInv(l, F.SendData(p.s.id, Size(c)));
      SendIsStep(l, p.s, p.r, c);
      SendKeepsId(p.s, c);
      assert AmountsOf(p.toR + [Build(c, p.s.id)]) == AmountsOf(p.toR) + [F.Amount(p.s.id, Size(c))];
    }
  }

  lemma Sizes(l: F.Link, p: Pair, c: TypedCall)
    requires Shows(l, p.s, p.r) && Polite(p, SendOne(c))
    ensures F.Polite(l, F.SendData(p.s.id, Size(c)))
  {
    hide Size;
  }

  lemma SendKeepsId(e: End, c: TypedCall)
    ensures Send(e, c).id == e.id
  {
    hide CanSend, Build;
  }

  lemma DataSimulates(l: F.Link, p: Pair, a: Answers) returns (l': F.Link)
    requires Simulates(l, p) && p.toR != []
    ensures Simulates(l', Do(p, DataArrives(a)))
  {
    hide Arrive, Shows, F.Inv, F.Step, UpdatesIn, OnlyControl, OutcomeOf;
    var f := p.toR[0];
    var outcome := OutcomeOf(p.r, f, a);
    l' := F.Step(l, F.ReceiveData(outcome));
    F.StepKeepsInv(l, F.ReceiveData(outcome));
    SameId(l, p);
    ArriveIsStep(l, p.s, p.r, f, a);
    var r := Arrive(p.r, f, a).end;
    UpdatesConcat(p.toS, Sent(p.r, r));
    ControlConcat(p.toS, Sent(p.r, r), p.s.id);
    assert AmountsOf(p.toR)[1..] == AmountsOf(p.toR[1..]);
  }

  lemma SameId(l: F.Link, p: Pair)
    requires Shows(l, p.s, p.r)
    ensures p.s.id == p.r.id
  {
  }

  lemma ControlConcat(a: seq<Frame>, b: seq<Frame>, id: u32)
    requires OnlyControl(a, id) && OnlyControl(b, id)
    ensures OnlyControl(a + b, id)
  {
  }

  lemma UpdateSimulates(l: F.Link, p: Pair, a: Answers) returns (l': F.Link)
    requires Simulates(l, p) && p.toS != []
    ensures Simulates(l', Do(p, UpdateArrives(a)))
  {
    hide Arrive, HearSystem, Shows, F.Inv, F.Step, UpdatesIn;
    var f := p.toS[0];
    assert p.toS == [f] + p.toS[1..];
    FirstUpdate(f, p.toS[1..]);
    if f.payload.WindowUpdate? {
      var known := f.streamId == 0 || (p.s.state != S.Closed && S.Accepts(p.s.state, false, SignalOf(f)));
      l' := F.Step(l, F.ReceiveUpdate(known));
      F.StepKeepsInv(l, F.ReceiveUpdate(known));
      if f.streamId == 0 {
        SystemUpdateIsStep(l, p.s, p.r, f.payload.increment);
        SystemKeepsId(p.s, f.payload.increment);
      } else {
        UpdateIsStep(l, p.s, p.r, f, a);
        UpdateHeard(p.s, f, a);
      }
    } else {
      l' := l;
      ResetHeard(p.s, f, a);
      SameWindows(l, p.s, Arrive(p.s, f, a).end, p.r);
    }
  }

  lemma SystemKeepsId(e: End, increment: u32)
    ensures HearSystem(e, increment).id == e.id
  {
  }

  lemma SameWindows(l: F.Link, s: End, s': End, r: End)
    requires Shows(l, s, r) && s'.id == s.id && s'.remote == s.remote && s'.systemRemote == s.systemRemote
    ensures Shows(l, s', r)
  {
  }

  lemma FirstUpdate(f: Frame, later: seq<Frame>)
    ensures UpdatesIn([f] + later) == (if f.payload.WindowUpdate? then [F.Amount(f.streamId, f.payload.increment)] else []) + UpdatesIn(later)
  {
    UpdatesConcat([f], later);
    UpdatesSnoc([], f);
    assert [] + [f] == [f];
  }

  lemma ResetHeard(s: End, f: Frame, a: Answers)
    requires f.payload.RstStream?
    ensures var h := Arrive(s, f, a); h.Heard? && h.end.id == s.id && h.end.remote == s.remote && h.end.systemRemote == s.systemRemote
  {
    hide Reset, S.Transition, SignalOf;
    ResetOnlySends(s, PROTOCOL_ERROR);
    ResetOnlySends(s, STREAM_CLOSED);
  }

  lemma ExtendSimulates(l: F.Link, p: Pair, increment: u32) returns (l': F.Link)
    requires Simulates(l, p) && Polite(p, ExtendBy(increment))
    ensures Simulates(l', Do(p, ExtendBy(increment)))
  {
    hide Extend, Shows, F.Inv, F.Step, UpdatesIn, OnlyControl;
    var mayUpdate := S.Accepts(p.r.state, true, S.Signal(S.WindowUpdate, false));
    l' := F.Step(l, F.SendUpdate(p.r.id, increment, mayUpdate));
    F.StepKeepsInv(l, F.SendUpdate(p.r.id, increment, mayUpdate));
    SameId(l, p);
    ExtendIsStep(l, p.s, p.r, increment);
    var r := Extend(p.r, increment);
    UpdatesConcat(p.toS, Sent(p.r, r));
    ControlConcat(p.toS, Sent(p.r, r), p.s.id);
  }

  lemma StepSimulates(l: F.Link, p: Pair, act: Act) returns (l': F.Link)
    requires Simulates(l, p) && Polite(p, act)
    ensures Simulates(l', Do(p, act))
  {
    hide Simulates, Do;
    l' := l;
    match act {
      case SendOne(c) => l' := SendOneSimulates(l, p, c);
      case DataArrives(a) => if p.toR != [] { l' := DataSimulates(l, p, a); } else { NothingToDo(p, act); }
      case UpdateArrives(a) => if p.toS != [] { l' := UpdateSimulates(l, p, a); } else { NothingToDo(p, act); }
      case ExtendBy(increment) => l' := ExtendSimulates(l, p, increment);
    }
  }

  lemma NothingToDo(p: Pair, act: Act)
    requires (act.DataArrives? && p.toR == []) || (act.UpdateArrives? && p.toS == [])
    ensures Do(p, act) == p
  {
  }

  lemma {:induction false} RunSimulates(l: F.Link, p: Pair, acts: seq<Act>) returns (l': F.Link)
    requires Simulates(l, p) && AllPolite(p, acts)
    ensures Simulates(l', Run(p, acts))
    decreases acts
  {
    hide Simulates, Do, Polite;
    l' := l;
    if acts != [] {
      l' := StepSimulates(l, p, acts[0]);
      l' := RunSimulates(l', Do(p, acts[0]), acts[1..]);
    }
  }

  /** Two ends of a stream whose windows still have their initial sizes, nothing in flight. */
  predicate Start(p: Pair, conn: u32, stream: u32) {
    && p.s.id == p.r.id != 0 && p.toR == [] && p.toS == []
    && p.s.systemRemote == conn && p.s.remote == stream
    && p.r.systemWindow == F.Window(conn, conn) && p.r.window == F.Window(stream, stream)
  }

  /** Over every run of two such ends, in any states, with any answers of the handlers: DATA sent as far as
      the sender's own windows allow always fits the receiver's windows when it arrives, so none is ever reset
      for its size; and no WINDOW_UPDATE that arrives overflows the sender's window. */
  lemma CreditHoldsForEnds(p: Pair, conn: u32, stream: u32, acts: seq<Act>)
    requires 1 <= conn <= F.MAX && 1 <= stream <= F.MAX && Start(p, conn, stream) && AllPolite(p, acts)
    ensures var q := Run(p, acts);
            && F.Healthy(q.r.window) && F.Healthy(q.r.systemWindow)
            && (q.toR != [] ==> q.toR[0].payload.Data? && q.toR[0].length <= Min(q.r.window.local, q.r.systemWindow.local))
            && (q.toS != [] && q.toS[0].payload.WindowUpdate? ==>
                var remote := if q.toS[0].streamId == 0 then q.s.systemRemote else q.s.remote;
                remote + q.toS[0].payload.increment <= F.MAX)
  {
    hide AllPolite, Run, F.Inv, F.Healthy, UpdatesIn;
    var l0 := F.Fresh(conn, stream);
    FreshIsFine(conn, stream);
    NoUpdates();
    var l := RunSimulates(l0, p, acts);
    EverythingFits(l, Run(p, acts));
  }

  lemma FreshIsFine(conn: u32, stream: u32)
    requires 1 <= conn <= F.MAX && 1 <= stream <= F.MAX
    ensures F.Inv(F.Fresh(conn, stream))
  {
  }

  lemma EverythingFits(l: F.Link, q: Pair)
    requires Simulates(l, q)
    ensures F.Healthy(q.r.window) && F.Healthy(q.r.systemWindow)
    ensures q.toR != [] ==> q.toR[0].payload.Data? && q.toR[0].length <= Min(q.r.window.local, q.r.systemWindow.local)
    ensures q.toS != [] && q.toS[0].payload.WindowUpdate? ==>
              var remote := if q.toS[0].streamId == 0 then q.s.systemRemote else q.s.remote;
              remote + q.toS[0].payload.increment <= F.MAX
  {
    hide UpdatesIn, F.Balanced, F.Healthy;
    assert F.Healthy(l.Local(0)) && F.Healthy(l.Local(q.r.id));
    if q.toR != [] { F.ReceiveDataKeepsInv(l, F.Dropped); }
    if q.toS != [] && q.toS[0].payload.WindowUpdate? {
      FirstUpdate(q.toS[0], q.toS[1..]);
      assert q.toS == [q.toS[0]] + q.toS[1..];
      F.ReceiveUpdateKeepsInv(l, true);
      UpdateRoom(l, l.updates[0]);
    }
  }

  lemma UpdateRoom(l: F.Link, u: F.Amount)
    requires F.Inv(l) && l.updates != [] && l.updates[0] == u
    ensures l.Remote(u.id) + u.size <= F.MAX
  {
    assert F.Balanced(l, u.id) && F.Healthy(l.Local(u.id));
  }
}
