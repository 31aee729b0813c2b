/** The per-stream state machine of src/http2/co_http2_stream.c:160-395 (section 5.1 of RFC 7540), and
    two ends of one stream joined by in-order channels. */
module StreamStates {
  datatype State = Idle | Open | Closed | RemoteClosed | LocalClosed | ReservedLocal | ReservedRemote | Protocol

  datatype Kind = Data | Headers | Priority | RstStream | Settings | PushPromise | Ping | GoAway | WindowUpdate | Continuation

  datatype Code = NoError | ProtocolError | StreamClosedError

  /** What the machine looks at: the type and the lowest flag bit, whatever the type gives it to mean. */
  datatype Signal = Signal(kind: Kind, endStream: bool)

  datatype Change = Change(state: State, code: Code)

  function Transition(s: State, send: bool, f: Signal): (r: Change)
    ensures r.code != NoError ==> r.state == s
  {
    if f.kind.GoAway? then Change(Closed, NoError)
    else
      match s
      case Idle =>
        if f.kind.Headers? then Change(Open, NoError)
        else if !send && !f.kind.Priority? then Change(s, ProtocolError)
        else Change(s, NoError)
      case Open =>
        if f.kind.RstStream? then Change(Closed, NoError)
        else if f.endStream then Change(if send then LocalClosed else RemoteClosed, NoError)
        else Change(s, NoError)
      case ReservedLocal =>
        if send then
          if f.kind.Headers? then Change(RemoteClosed, NoError)
          else if f.kind.RstStream? then Change(Closed, NoError)
          else Change(s, ProtocolError)
        else
          if f.kind.RstStream? then Change(Closed, NoError)
          else if !f.kind.WindowUpdate? && !f.kind.Priority? then Change(s, ProtocolError)
          else Change(s, NoError)
      case ReservedRemote =>
        if !send then
          if f.kind.Headers? then Change(LocalClosed, NoError)
          else if f.kind.RstStream? then Change(Closed, NoError)
          else Change(s, ProtocolError)
        else
          if f.kind.RstStream? then Change(Closed, NoError)
          else if !f.kind.WindowUpdate? && !f.kind.Priority? then Change(s, ProtocolError)
          else Change(s, NoError)
      case RemoteClosed =>
        if !send then
          if f.kind.RstStream? then Change(Closed, NoError)
          else if !f.kind.WindowUpdate? && !f.kind.Priority? then Change(s, StreamClosedError)
          else Change(s, NoError)
        else if f.endStream || f.kind.RstStream? then Change(Closed, NoError)
        else Change(s, NoError)
      case LocalClosed =>
        if send then
          if f.kind.RstStream? then Change(Closed, NoError)
          else if !f.kind.WindowUpdate? && !f.kind.Priority? then Change(s, StreamClosedError)
          else Change(s, NoError)
        else if f.endStream || f.kind.RstStream? then Change(Closed, NoError)
        else Change(s, NoError)
      case Closed =>
        if !send && f.kind.Priority? then Change(s, NoError) else Change(s, ProtocolError)
      case Protocol =>
        if f.kind.RstStream? then Change(Closed, NoError) else Change(s, NoError)
  }

  predicate Accepts(s: State, send: bool, f: Signal) {
    Transition(s, send, f).code == NoError
  }

  /** The receive loop drops frames for a closed stream before the machine sees them. */
  function Receive(s: State, f: Signal): State {
    if s == Closed then Closed else Transition(s, false, f).state
  }

  function Send(s: State, f: Signal): State {
    Transition(s, true, f).state
  }

  // ---- one end ----

  function Rank(s: State): nat {
    match s
    case Idle => 0
    case ReservedLocal => 1
    case ReservedRemote => 1
    case Open => 1
    case Protocol => 1
    case LocalClosed => 2
    case RemoteClosed => 2
    case Closed => 3
  }

  /** No frame, sent or received, moves a stream backwards, and Closed is final. */
  lemma RankNeverDecreases(s: State, send: bool, f: Signal)
    ensures Rank(Transition(s, send, f).state) >= Rank(s)
    ensures s == Closed ==> Transition(s, send, f).state == Closed
  {
  }

  /** END_STREAM on HEADERS half-closes an existing stream, but not one that the same frame opens:
      from Idle both ends only go to Open, where section 5.1 of RFC 7540 half-closes. */
  lemma EndStreamOnHeaders(s: State, send: bool)
    requires s == Idle || s == Open || (send && s == RemoteClosed) || (!send && s == LocalClosed)
    ensures var next := Transition(s, send, Signal(Headers, true)).state;
            (next == Closed || next == (if send then LocalClosed else RemoteClosed)) <==> s != Idle
  {
  }

  // ---- section 5.1 of RFC 7540 itself ----

  /** Frames that belong to a stream; the standard has the others on the connection only. */
  predicate OnStreams(k: Kind) {
    !k.Settings? && !k.Ping? && !k.GoAway?
  }

  /** END_STREAM means something on DATA and HEADERS only. */
  predicate Ends(f: Signal) {
    f.endStream && (f.kind.Data? || f.kind.Headers?)
  }

  /** Frames that either end may always handle in a half-closed or reserved state. */
  predicate Minor(k: Kind) {
    k.WindowUpdate? || k.Priority? || k.RstStream?
  }

  /** The kinds an end may send, or has to take, in each state of the standard's diagram. */
  predicate Allows(s: State, send: bool, k: Kind)
    requires s != Protocol
  {
    match s
    case Idle => k.Headers? || k.Priority?
    case Open => true
    case ReservedLocal => if send then k.Headers? || k.RstStream? || k.Priority? else Minor(k)
    case ReservedRemote => if send then Minor(k) else k.Headers? || k.RstStream? || k.Priority?
    case LocalClosed => send ==> Minor(k)
    case RemoteClosed => !send ==> Minor(k)
    case Closed => k.Priority?
  }

  /** The diagram's arrows: HEADERS opens, RST_STREAM closes, END_STREAM closes one direction. */
  function Next(s: State, send: bool, f: Signal): State
    requires s != Protocol
  {
    if s == Closed then Closed
    else if f.kind.RstStream? then Closed
    else
      var moved := if s == Idle && f.kind.Headers? then Open
        else if s == ReservedLocal && send && f.kind.Headers? then RemoteClosed
        else if s == ReservedRemote && !send && f.kind.Headers? then LocalClosed
        else s;
      if !Ends(f) then moved
      else if moved == Open then (if send then LocalClosed else RemoteClosed)
      else if (moved == RemoteClosed && send) || (moved == LocalClosed && !send) then Closed
      else moved
  }

  function Standard(s: State, send: bool, f: Signal): Change
    requires s != Protocol
  {
    if Allows(s, send, f.kind) then Change(Next(s, send, f), NoError)
    else Change(s, if s == RemoteClosed || s == LocalClosed || s == Closed then StreamClosedError else ProtocolError)
  }

  /** Where the program departs from it: END_STREAM does not count on the HEADERS that opens a stream, and
      counts on any other kind; an idle stream may send anything; reserved and closed streams refuse PRIORITY in
      one direction; and a closed stream has the other error code. */
  predicate Departs(s: State, send: bool, f: Signal) {
    var k := f.kind;
    match s
    case Idle => (k.Headers? && f.endStream) || (send && !k.Headers? && !k.Priority?)
    case Open => f.endStream && !k.RstStream? && !Ends(f)
    case ReservedLocal => send && (k.Priority? || (k.Headers? && f.endStream))
    case ReservedRemote => !send && (k.Priority? || (k.Headers? && f.endStream))
    case LocalClosed => !send && f.endStream && !k.RstStream? && !Ends(f)
    case RemoteClosed => send && f.endStream && !k.RstStream? && !Ends(f)
    case Closed => send || !k.Priority?
    case Protocol => false
  }

  /** The program's machine is the standard's in every state, in both directions, for every frame of a stream,
      except in exactly these cases. */
  lemma StandardExactly(s: State, send: bool, f: Signal)
    requires s != Protocol && OnStreams(f.kind)
    ensures Transition(s, send, f) == Standard(s, send, f) <==> !Departs(s, send, f)
  {
  }

  // ---- two ends ----

  /** An open stream as its two ends see it, with the frames in flight each way. */
  datatype Pair = Pair(a: State, b: State, toA: seq<Signal>, toB: seq<Signal>)

  predicate Mirror(a: State, b: State) {
    || (a == Open && b == Open)
    || (a == LocalClosed && b == RemoteClosed)
    || (a == RemoteClosed && b == LocalClosed)
    || (a == Closed && b == Closed)
  }

  predicate Live(s: State) {
    s == Open || s == LocalClosed || s == RemoteClosed || s == Closed
  }

  /** The state an end will be in once everything in flight to it has arrived. */
  function Drained(s: State, inFlight: seq<Signal>): State
    decreases inFlight
  {
    if inFlight == [] then s else Drained(Receive(s, inFlight[0]), inFlight[1..])
  }

  /** Nothing in flight will be refused: each frame is accepted, or the stream is closed by then. */
  predicate Clean(s: State, inFlight: seq<Signal>)
    decreases inFlight
  {
    inFlight == [] ||
    ((s == Closed || Accepts(s, false, inFlight[0])) && Clean(Receive(s, inFlight[0]), inFlight[1..]))
  }

  ghost predicate Inv(p: Pair) {
    && Live(p.a) && Live(p.b)
    && Mirror(Drained(p.a, p.toA), Drained(p.b, p.toB))
    && Clean(p.a, p.toA) && Clean(p.b, p.toB)
  }

  datatype Action = SendByA(f: Signal) | SendByB(f: Signal) | ReceiveByA | ReceiveByB

  /** A send that the machine refuses sends nothing. */
  function Step(p: Pair, act: Action): Pair {
    match act
    case SendByA(f) => if Accepts(p.a, true, f) then p.(a := Send(p.a, f), toB := p.toB + [f]) else p
    case SendByB(f) => if Accepts(p.b, true, f) then p.(b := Send(p.b, f), toA := p.toA + [f]) else p
    case ReceiveByA => if p.toA == [] then p else p.(a := Receive(p.a, p.toA[0]), toA := p.toA[1..])
    case ReceiveByB => if p.toB == [] then p else p.(b := Receive(p.b, p.toB[0]), toB := p.toB[1..])
  }

  function Run(p: Pair, acts: seq<Action>): Pair
    decreases acts
  {
    if acts == [] then p else Run(Step(p, acts[0]), acts[1..])
  }

  // ---- sending and receiving commute ----

  /** A frame this end may send now, it could also have sent after hearing from its peer, unless that
      closes the stream; and the order does not matter to the state. */
  lemma {:induction false} SendCommutes(s: State, f: Signal, inFlight: seq<Signal>)
    requires Live(s) && Accepts(s, true, f)
    ensures var later := Drained(s, inFlight);
            Live(later) && (later == Closed || Accepts(later, true, f)) && Drained(Send(s, f), inFlight) == Send(later, f)
    decreases inFlight
  {
    if inFlight != [] {
      var g := inFlight[0];
      var heard := Receive(s, g);
      assert Receive(Send(s, f), g) == Send(heard, f);
      if Accepts(heard, true, f) {
        SendCommutes(heard, f, inFlight[1..]);
      } else {
        assert heard == Closed;
        ClosedStays(inFlight[1..]);
      }
    }
  }

  lemma {:induction false} ClosedStays(inFlight: seq<Signal>)
    ensures Drained(Closed, inFlight) == Closed && Clean(Closed, inFlight)
  {
    if inFlight != [] {
      ClosedStays(inFlight[1..]);
    }
  }

  /** Sending does not make this end refuse what it would have accepted. */
  lemma {:induction false} SendKeepsClean(s: State, f: Signal, inFlight: seq<Signal>)
    requires Live(s) && Accepts(s, true, f) && Clean(s, inFlight)
    ensures Clean(Send(s, f), inFlight)
    decreases inFlight
  {
    if inFlight != [] {
      var heard := Receive(s, inFlight[0]);
      if Accepts(heard, true, f) {
        SendKeepsClean(heard, f, inFlight[1..]);
      }
      ClosedStays(inFlight[1..]);
    }
  }

  lemma {:induction false} DrainedSnoc(s: State, inFlight: seq<Signal>, f: Signal)
    ensures Drained(s, inFlight + [f]) == Receive(Drained(s, inFlight), f)
    ensures Clean(s, inFlight + [f]) <==>
              Clean(s, inFlight) && (Drained(s, inFlight) == Closed || Accepts(Drained(s, inFlight), false, f))
    decreases inFlight
  {
    if inFlight == [] {
      assert [] + [f] == [f] && [f][1..] == [];
    } else {
      assert (inFlight + [f])[0] == inFlight[0] && (inFlight + [f])[1..] == inFlight[1..] + [f];
      DrainedSnoc(Receive(s, inFlight[0]), inFlight[1..], f);
    }
  }

  lemma SendKeepsInv(p: Pair, f: Signal)
    requires Inv(p)
    ensures Inv(Step(p, SendByA(f)))
  {
    if Accepts(p.a, true, f) {
      SendCommutes(p.a, f, p.toA);
      SendKeepsClean(p.a, f, p.toA);
      DrainedSnoc(p.b, p.toB, f);
    }
  }

  /** The same pair with the ends exchanged. */
  function Swap(p: Pair): Pair {
    Pair(p.b, p.a, p.toB, p.toA)
  }

  lemma StepKeepsInv(p: Pair, act: Action)
    requires Inv(p)
    ensures Inv(Step(p, act))
  {
    match act {
      case SendByA(f) => SendKeepsInv(p, f);
      case SendByB(f) => SendKeepsInv(Swap(p), f);
      case ReceiveByA =>
      case ReceiveByB =>
    }
  }

  lemma {:induction false} RunKeepsInv(p: Pair, acts: seq<Action>)
    requires Inv(p)
    ensures Inv(Run(p, acts))
    decreases acts
  {
    hide Inv, Step;
    if acts != [] {
      StepKeepsInv(p, acts[0]);
      RunKeepsInv(Step(p, acts[0]), acts[1..]);
    }
  }

  const OPENED: Pair := Pair(Open, Open, [], [])

  /** Over every run of an opened stream, with any frames both machines let their owners send: no frame
      that arrives is refused, and whenever nothing is in flight the two states mirror each other. */
  lemma EndsAgree(acts: seq<Action>)
    ensures var p := Run(OPENED, acts);
            && (p.toA != [] ==> p.a == Closed || Accepts(p.a, false, p.toA[0]))
            && (p.toB != [] ==> p.b == Closed || Accepts(p.b, false, p.toB[0]))
            && (p.toA == [] && p.toB == [] ==> Mirror(p.a, p.b))
  {
    RunKeepsInv(OPENED, acts);
  }

  /** Why the receive loop has to skip closed streams: in a run of two steps, a WINDOW_UPDATE is in flight
      to an end that has just sent RST_STREAM, and the machine alone would refuse it. */
  lemma LateFrameNeedsTheTest()
    ensures var p := Run(OPENED, [SendByA(Signal(RstStream, false)), SendByB(Signal(WindowUpdate, false))]);
            p.a == Closed && p.toA == [Signal(WindowUpdate, false)] && !Accepts(p.a, false, p.toA[0])
  {
    var acts := [SendByA(Signal(RstStream, false)), SendByB(Signal(WindowUpdate, false))];
    assert acts[1..] == [SendByB(Signal(WindowUpdate, false))] && acts[1..][1..] == [];
  }
}
