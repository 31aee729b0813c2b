/** One end of a stream, as values: what sending a frame and receiving a frame do
    (src/http2/co_http2_stream.c:104-158, 400-898, src/http2/co_http2_client.c:475-519), how messages are
    cut into frames (src/http2/co_http2_stream.c:933-1139), and what arrives at the other end. */
module StreamModel {
  import opened Machine
  import opened Frame
  import opened FlowControl
  import S = StreamStates

  const PROTOCOL_ERROR: u32 := 0x1
  const FLOW_CONTROL_ERROR: u32 := 0x3
  const STREAM_CLOSED: u32 := 0x5
  const FRAME_SIZE_ERROR: u32 := 0x6
  const REFUSED_STREAM: u32 := 0x7
  const CANCEL: u32 := 0x8
  const COMPRESSION_ERROR: u32 := 0x9
  const LOCAL_CANCEL: int := -6105
  const LOCAL_STREAM_CLOSED: int := -6000

  /** What the program hands on: a whole header block to the decoder, and calls of its handlers. */
  datatype Event =
    | Block(block: seq<byte>)
    | Started
    | DataCame(data: seq<byte>)
    | Finished(body: seq<byte>, error: int)
    | Prioritised(dependency: u32, weight: byte)
    | ResetByPeer(errorCode: u32)
    | Promised(streamId: u32)
    | WindowGrew

  /** `streaming` tells whether there is a data handler; without one the body is pooled. The header pool
      is absent until the first fragment comes, and remembers the type of frame it began with. `wire` is
      everything sent, on this stream and, with id 0, on the connection. */
  datatype End = End(
    id: u32,
    streaming: bool,
    state: S.State,
    window: Window,
    remote: u32,
    systemWindow: Window,
    systemRemote: u32,
    sendHeader: bool,
    receiveHeader: bool,
    pool: Option<seq<byte>>,
    poolType: byte,
    promised: u32,
    body: seq<byte>,
    wire: seq<Frame>,
    events: seq<Event>)

  function KindOf(p: Payload): S.Kind {
    match p
    case Data(_, _, _) => S.Data
    case Headers(_, _, _, _, _) => S.Headers
    case Priority(_, _) => S.Priority
    case RstStream(_) => S.RstStream
    case Settings(_) => S.Settings
    case PushPromise(_, _, _, _) => S.PushPromise
    case Ping(_) => S.Ping
    case GoAway(_, _, _) => S.GoAway
    case WindowUpdate(_) => S.WindowUpdate
    case Continuation(_) => S.Continuation
  }

  function SignalOf(f: Frame): S.Signal {
    S.Signal(KindOf(f.payload), Has(f.flags, END_STREAM))
  }

  // ---- sending ----

  type TypedCall = c: Call | Typed(c) witness NewWindowUpdate(0)

  predicate CanSend(e: End, c: TypedCall) {
    S.Accepts(e.state, true, SignalOf(Build(c, e.id)))
  }

  function Send(e: End, c: TypedCall): (r: End)
    ensures e.wire <= r.wire
  {
    var f := Build(c, e.id);
    if !CanSend(e, c) then e
    else
      var e1 := e.(state := S.Send(e.state, SignalOf(f)), wire := e.wire + [f]);
      if c.NewData? then e1.(remote := Reduce(e.remote, f.length), systemRemote := Reduce(e.systemRemote, f.length))
      else e1
  }

  /** Frame after frame, until one is refused. */
  function SendAll(e: End, calls: seq<TypedCall>): (r: End)
    ensures e.wire <= r.wire
    decreases calls
  {
    if calls == [] || !CanSend(e, calls[0]) then e else SendAll(Send(e, calls[0]), calls[1..])
  }

  predicate AllSent(e: End, calls: seq<TypedCall>)
    decreases calls
  {
    calls == [] || (CanSend(e, calls[0]) && AllSent(Send(e, calls[0]), calls[1..]))
  }

  lemma SendsOn(s: End, c: TypedCall, rest: seq<TypedCall>)
    ensures SendAll(s, [c] + rest) == if CanSend(s, c) then SendAll(Send(s, c), rest) else s
    ensures AllSent(s, [c] + rest) <==> CanSend(s, c) && AllSent(Send(s, c), rest)
    ensures rest == [] ==> SendAll(Send(s, c), rest) == Send(s, c) && AllSent(Send(s, c), rest)
    ensures !CanSend(s, c) ==> Send(s, c) == s
  {
    assert ([c] + rest)[1..] == rest;
  }

  /** Call after call, whether or not single ones are refused. */
  function SendEach(e: End, calls: seq<TypedCall>): (r: End)
    ensures e.wire <= r.wire
    decreases calls
  {
    if calls == [] then e else SendEach(Send(e, calls[0]), calls[1..])
  }

  lemma EachNext(e: End, c: TypedCall, rest: seq<TypedCall>)
    ensures SendEach(e, [c] + rest) == SendEach(Send(e, c), rest)
  {
    assert ([c] + rest)[1..] == rest;
  }

  /** When none is refused, not looking at the results makes no difference. */
  lemma {:induction false} AllSentEach(e: End, calls: seq<TypedCall>)
    requires AllSent(e, calls)
    ensures SendEach(e, calls) == SendAll(e, calls)
    decreases calls
  {
    hide Send, CanSend;
    if calls != [] {
      AllSentEach(Send(e, calls[0]), calls[1..]);
    }
  }

  /** How much the program sends of `size` bytes when the windows allow `window`. */
  function Total(size: nat, window: nat): (total: nat)
    ensures total <= size
  {
    if size > window then size - window else size
  }

  /** The pieces a message is cut into: all but the last are as large as the peer lets a frame be. */
  function Cuts(data: Piece, max: nat): (pieces: seq<Piece>)
    requires max > 0 || data == []
    ensures |pieces| >= 1 && (|pieces| == 1 <==> |data| <= max)
    decreases |data|
  {
    if |data| <= max then [data] else [data[..max]] + Cuts(data[max..], max)
  }

  /** Cutting loses nothing, changes no order, respects the limit, and wastes no frame. */
  lemma {:induction false} CutsAreRight(data: Piece, max: nat)
    requires max > 0
    ensures var pieces := Cuts(data, max);
            && Join(pieces) == data
            && (forall k :: 0 <= k < |pieces| ==> |pieces[k]| <= max)
            && (forall k :: 0 <= k < |pieces| - 1 ==> |pieces[k]| == max)
            && (data != [] ==> pieces[|pieces| - 1] != [])
    decreases |data|
  {
    if |data| > max {
      CutsAreRight(data[max..], max);
      assert data == data[..max] + data[max..];
      assert Cuts(data, max)[1..] == Cuts(data[max..], max);
    } else {
      assert Join([data]) == data + Join([]);
    }
  }

  /** A piece is at most as long as a block or a body may be, with room for the priority fields. */
  type Piece = p: seq<byte> | 5 + |p| < TWO_32 witness []

  function DataCalls(pieces: seq<Piece>, endStream: bool): (calls: seq<TypedCall>)
    ensures |calls| == |pieces|
  {
    if pieces == [] then []
    else [NewData(endStream && |pieces| == 1, pieces[0], [])] + DataCalls(pieces[1..], endStream)
  }

  function ContinuationCalls(pieces: seq<Piece>): (calls: seq<TypedCall>)
    ensures |calls| == |pieces|
  {
    if pieces == [] then [] else [NewContinuation(|pieces| == 1, pieces[0])] + ContinuationCalls(pieces[1..])
  }

  datatype Order = Order(dependency: u32, weight: byte)

  function HeaderCalls(pieces: seq<Piece>, endStream: bool, order: Order): (calls: seq<TypedCall>)
    requires pieces != []
    ensures |calls| == |pieces|
  {
    [NewHeaders(endStream, |pieces| == 1, pieces[0], order.dependency, order.weight, [])] + ContinuationCalls(pieces[1..])
  }

  // ---- receiving ----

  function Reset(e: End, code: u32): End {
    Send(e, NewRstStream(code))
  }

  function TakeStream(e: End, n: u32): End {
    var t := Take(e.window, n);
    var e1 := e.(window := t.window);
    if t.increment.Some? then Send(e1, NewWindowUpdate(t.increment.value)) else e1
  }

  /** The connection's own stream is always able to send WINDOW_UPDATE. */
  function TakeSystem(e: End, n: u32): End {
    var t := Take(e.systemWindow, n);
    var e1 := e.(systemWindow := t.window);
    if t.increment.Some? then e1.(wire := e1.wire + [Build(NewWindowUpdate(t.increment.value), 0)]) else e1
  }

  /** An explicit WINDOW_UPDATE, asked for by the application. */
  function Extend(e: End, increment: u32): End {
    var t := Grant(e.window, increment);
    Send(e.(window := t.window), NewWindowUpdate(if t.increment.Some? then t.increment.value else 0))
  }

  /** WINDOW_UPDATE for the connection; past the largest window the connection is closed instead. */
  function HearSystem(e: End, increment: u32): End {
    var sum := Wrap32(e.systemRemote + increment);
    if sum > MAX then e else e.(systemRemote := sum)
  }

  function Tell(e: End, event: Event): End {
    e.(events := e.events + [event])
  }

  function Finish(e: End, body: seq<byte>, error: int): End {
    Tell(e, Finished(body, error)).(receiveHeader := false)
  }

  /** `ok` is what the receive function returns. `Crashed`: appending to a header pool that was never
      created. */
  datatype Heard = Heard(end: End, ok: bool) | Crashed

  /** What is not in the frame: whether the HPACK decoder accepts the block, what the handlers of the
      application answer, whether a promised stream id is unused and what comes of creating it. */
  datatype Answers = Answers(decodes: bool, start: bool, data: bool, unused: bool, promise: bool)

  const YES: Answers := Answers(true, true, true, true, true)

  function HearData(e: End, f: Frame, a: Answers): Heard
    requires f.payload.Data?
  {
    var data := f.payload.data;
    var end := Has(f.flags, END_STREAM);
    if f.length > Min(e.window.local, e.systemWindow.local) then Heard(Reset(e, FRAME_SIZE_ERROR), false)
    else
      var e1 := TakeStream(e, f.length);
      if e.streaming then
        var e2 := if data != [] then Tell(e1, DataCame(data)) else e1;
        if data != [] && !a.data then Heard(Finish(Reset(e2, CANCEL), [], LOCAL_CANCEL), false)
        else Heard(if end then Finish(e2, [], 0) else e2, true)
      else if end then Heard(Finish(e1, e1.body + data, 0).(body := []), true)
      else Heard(e1.(body := e1.body + data), true)
  }

  function HearHeaders(e: End, f: Frame, a: Answers): Heard
    requires f.payload.Headers?
  {
    var block := f.payload.block;
    if e.receiveHeader then Heard(e, true)
    else
      var e1 := e.(receiveHeader := true);
      if Has(f.flags, END_HEADERS) then
        var e2 := Tell(e1, Block(block));
        if !a.decodes then Heard(Reset(e2, COMPRESSION_ERROR), false)
        else
          var e3 := e2.(pool := if e.pool.Some? then Some([]) else None);
          if e.state == S.RemoteClosed || Has(f.flags, END_STREAM) then Heard(Finish(e3, [], 0), true)
          else
            var e4 := Tell(e3, Started);
            if !a.start then Heard(Finish(Reset(e4, CANCEL), [], LOCAL_CANCEL), false) else Heard(e4, true)
      else Heard(e1.(pool := Some(Pooled(e) + block), poolType := 1), true)
  }

  function Pooled(e: End): seq<byte> {
    if e.pool.Some? then e.pool.value else []
  }

  function HearPushPromise(e: End, f: Frame, a: Answers): Heard
    requires f.payload.PushPromise?
  {
    var block := f.payload.block;
    if !a.unused then Heard(e, false)
    else
      var e1 := e.(promised := f.payload.promised);
      if Has(f.flags, END_HEADERS) then
        var e2 := Tell(e1, Block(block));
        if !a.decodes then Heard(Reset(e2, COMPRESSION_ERROR), false)
        else Heard(Tell(e2, Promised(e1.promised)), a.promise)
      else Heard(e1.(pool := Some(Pooled(e) + block), poolType := 5), true)
  }

  function HearContinuation(e: End, f: Frame, a: Answers): Heard
    requires f.payload.Continuation?
  {
    var block := f.payload.block;
    if !e.receiveHeader then Heard(e, true)
    else if e.pool.None? then if block == [] && !Has(f.flags, END_HEADERS) then Heard(e, true) else Crashed
    else
      var all := e.pool.value + block;
      var e1 := e.(pool := Some(all));
      if !Has(f.flags, END_HEADERS) then Heard(e1, true)
      else
        var e2 := Tell(e1, Block(all));
        if !a.decodes then Heard(Reset(e2, COMPRESSION_ERROR), false)
        else
          if e.poolType == 5 then
            var e3 := Tell(e2, Promised(e.promised));
            if !a.promise then Heard(e3, false)
            else Heard(e3.(promised := 0, pool := Some([]), poolType := 0), true)
          else
            var e3 := if e.state == S.RemoteClosed then Finish(e2, [], 0) else e2;
            Heard(e3.(pool := Some([]), poolType := 0), true)
  }

  /** A frame that the state machine accepts. */
  function HearAccepted(e: End, f: Frame, a: Answers): Heard {
    match f.payload
    case Data(_, _, _) => HearData(e, f, a)
    case Headers(_, _, _, _, _) => HearHeaders(e, f, a)
    case Continuation(_) => HearContinuation(e, f, a)
    case PushPromise(_, _, _, _) => HearPushPromise(e, f, a)
    case Priority(dependency, weight) => Heard(Tell(e, Prioritised(dependency, weight)), true)
    case RstStream(code) =>
      var e1 := Tell(e, ResetByPeer(code));
      Heard(if code != CANCEL && code != REFUSED_STREAM then Finish(e1, [], LOCAL_STREAM_CLOSED - code) else e1, true)
    case WindowUpdate(increment) =>
      if Wrap32(e.remote + increment) > MAX then Heard(Reset(e, FLOW_CONTROL_ERROR), false)
      else Heard(Tell(e.(remote := Wrap32(e.remote + increment)), WindowGrew), true)
    case _ => Heard(Reset(e, PROTOCOL_ERROR), false)
  }

  function Hear(e: End, f: Frame, a: Answers): Heard {
    var change := S.Transition(e.state, false, SignalOf(f));
    if change.code != S.NoError then
      Heard(Reset(e, if change.code == S.ProtocolError then PROTOCOL_ERROR else STREAM_CLOSED), false)
    else HearAccepted(e.(state := change.state), f, a)
  }

  /** The receive loop around it: closed streams hear nothing, and accepted DATA is taken from the
      connection's window as well. */
  function Arrive(e: End, f: Frame, a: Answers): Heard {
    if e.state == S.Closed then Heard(e, true)
    else
      match Hear(e, f, a)
      case Crashed => Crashed
      case Heard(e1, ok) => Heard(if ok && f.payload.Data? then TakeSystem(e1, f.length) else e1, ok)
  }

  function ArriveAll(e: End, frames: seq<Frame>): Heard
    decreases frames
  {
    if frames == [] then Heard(e, true)
    else
      match Arrive(e, frames[0], YES)
      case Crashed => Crashed
      case Heard(e1, ok) => if ok then ArriveAll(e1, frames[1..]) else Heard(e1, false)
  }
}
