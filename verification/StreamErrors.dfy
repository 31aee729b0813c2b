/** What a stream answers to frames it does not like, and what it tells its application of a stream's end,
    src/http2/co_http2_stream.c:448-475, 477-515, 612-700, 802-825, 846-909. */
module StreamErrors {
  import opened Machine
  import opened Frame
  import opened StreamModel
  import D = StreamDelivery
  import F = FlowControl
  import S = StreamStates

  /** The codes of the RST_STREAM frames among these, in order. */
  function ResetCodes(fs: seq<Frame>): seq<u32> {
    if fs == [] then []
    else
      var f := fs[|fs| - 1];
      ResetCodes(fs[..|fs| - 1]) + (if f.payload.RstStream? then [f.payload.errorCode] else [])
  }

  lemma CodesSnoc(fs: seq<Frame>, f: Frame)
    ensures ResetCodes(fs + [f]) == ResetCodes(fs) + (if f.payload.RstStream? then [f.payload.errorCode] else [])
  {
    assert (fs + [f])[..|fs|] == fs;
  }

  /** From before to after: so many frames more, and among them these resets. */
  ghost predicate Resets(before: End, after: End, codes: seq<u32>) {
    before.wire <= after.wire && ResetCodes(after.wire[|before.wire|..]) == codes
  }

  lemma NoResets(e: End, e': End)
    requires e'.wire == e.wire
    ensures Resets(e, e', [])
  {
    assert e'.wire[|e.wire|..] == [];
  }

  lemma OneMore(e: End, e1: End, e2: End, f: Frame, codes: seq<u32>)
    requires Resets(e, e1, codes) && e2.wire == e1.wire + [f]
    ensures Resets(e, e2, codes + (if f.payload.RstStream? then [f.payload.errorCode] else []))
  {
    assert e2.wire[|e.wire|..] == e1.wire[|e.wire|..] + [f];
    CodesSnoc(e1.wire[|e.wire|..], f);
  }

  lemma SameWire(e: End, e1: End, e2: End, codes: seq<u32>)
    requires Resets(e, e1, codes) && e2.wire == e1.wire
    ensures Resets(e, e2, codes)
  {
  }

  /** Streams that a peer's frames reach. */
  predicate Reached(s: S.State) {
    s == S.Open || s == S.LocalClosed || s == S.RemoteClosed
  }

  /** A reset of such a stream is one RST_STREAM, with no flags, and closes it. */
  lemma ResetGoesOut(e: End, code: u32)
    requires Reached(e.state)
    ensures Reset(e, code) == e.(state := S.Closed, wire := e.wire + [Frame(4, 0, e.id, RstStream(code))])
  {
    assert Build(NewRstStream(code), e.id) == Frame(4, 0, e.id, RstStream(code));
    assert SignalOf(Build(NewRstStream(code), e.id)) == S.Signal(S.RstStream, false);
  }

  lemma ResetCounts(e: End, e1: End, codes: seq<u32>, code: u32)
    requires Resets(e, e1, codes) && Reached(e1.state)
    ensures Resets(e, Reset(e1, code), codes + [code])
  {
    hide Reset;
    ResetGoesOut(e1, code);
    OneMore(e, e1, Reset(e1, code), Frame(4, 0, e1.id, RstStream(code)), codes);
  }

  lemma UpdateCounts(e: End, e1: End, codes: seq<u32>, increment: u32)
    requires Resets(e, e1, codes)
    ensures Resets(e, Send(e1, NewWindowUpdate(increment)), codes)
  {
    hide CanSend;
    if CanSend(e1, NewWindowUpdate(increment)) {
      OneMore(e, e1, Send(e1, NewWindowUpdate(increment)), Build(NewWindowUpdate(increment), e1.id), codes);
    }
  }

  /** A frame whose lowest flag closes the stream is dealt with when the stream is closed already. */
  predicate ClosesFirst(r: End, f: Frame) {
    r.state == S.LocalClosed && Has(f.flags, 0x1)
  }

  /** The error code of section 7 of RFC 7540 that a frame is answered with, if any. */
  function Answer(r: End, f: Frame, a: Answers): Option<u32> {
    var whole := Has(f.flags, 0x4);
    if ClosesFirst(r, f) then None
    else if r.state == S.RemoteClosed && !f.payload.WindowUpdate? && !f.payload.Priority? && !f.payload.RstStream? && !f.payload.GoAway?
    then Some(0x5)
    else
      match f.payload
      case Data(_, data, _) =>
        if f.length > r.window.local || f.length > r.systemWindow.local then Some(0x6)
        else if r.streaming && data != [] && !a.data then Some(0x8)
        else None
      case Headers(_, _, _, _, _) =>
        if r.receiveHeader || !whole then None
        else if !a.decodes then Some(0x9)
        else if !Has(f.flags, 0x1) && !a.start then Some(0x8)
        else None
      case Continuation(_) => if r.receiveHeader && r.pool.Some? && whole && !a.decodes then Some(0x9) else None
      case PushPromise(_, _, _, _) => if a.unused && whole && !a.decodes then Some(0x9) else None
      case WindowUpdate(increment) => if (r.remote + increment) % TWO_32 > 0x7FFF_FFFF then Some(0x3) else None
      case Settings(_) => Some(0x1)
      case Ping(_) => Some(0x1)
      case _ => None
  }

  function Codes(answer: Option<u32>): seq<u32> {
    if answer.Some? then [answer.value] else []
  }

  ghost predicate Answered(r: End, h: Heard, answer: Option<u32>) {
    h.Heard? ==> Resets(r, h.end, Codes(answer))
  }

  /** A closed stream sends no reset. */
  lemma ResetAfterClose(e: End, code: u32)
    requires e.state == S.Closed
    ensures Reset(e, code) == e
  {
  }

  lemma TakeCounts(e: End, e1: End, codes: seq<u32>, n: u32)
    requires Resets(e, e1, codes) && (Reached(e1.state) || e1.state == S.Closed)
    ensures Resets(e, TakeStream(e1, n), codes) && TakeStream(e1, n).state == e1.state
  {
    hide F.Take, Resets, CanSend;
    var t := F.Take(e1.window, n);
    var e2 := e1.(window := t.window);
    WindowOnly(e, e1, e2, codes);
    if t.increment.Some? {
      UpdateCounts(e, e2, codes, t.increment.value);
      UpdateState(e2, t.increment.value);
    }
  }

  lemma TakeSystemCounts(e: End, e1: End, codes: seq<u32>, n: u32)
    requires Resets(e, e1, codes)
    ensures Resets(e, TakeSystem(e1, n), codes)
  {
    hide F.Take, ResetCodes;
    var t := F.Take(e1.systemWindow, n);
    if t.increment.Some? {
      OneMore(e, e1, TakeSystem(e1, n), Build(NewWindowUpdate(t.increment.value), 0), codes);
      assert codes + [] == codes;
    } else {
      WindowOnly(e, e1, TakeSystem(e1, n), codes);
    }
  }

  lemma WindowOnly(e: End, e1: End, e2: End, codes: seq<u32>)
    requires Resets(e, e1, codes) && e2.wire == e1.wire
    ensures Resets(e, e2, codes)
  {
  }

  lemma UpdateState(e: End, increment: u32)
    requires Reached(e.state) || e.state == S.Closed
    ensures Send(e, NewWindowUpdate(increment)).state == e.state
  {
  }

  /** The stream once the state machine has taken the frame. */
  ghost predicate Ready(r: End, e: End, f: Frame) {
    e.wire == r.wire && e == r.(state := e.state)
    && (if ClosesFirst(r, f) then e.state == S.Closed else Reached(e.state))
    && (r.state == S.Open || r.state == S.LocalClosed) && (e.state == S.RemoteClosed ==> Has(f.flags, 0x1))
  }

  /** A reset counts, unless the stream is closed already. */
  lemma ResetOnce(r: End, e: End, code: u32)
    requires Resets(r, e, []) && (Reached(e.state) || e.state == S.Closed)
    ensures Resets(r, Reset(e, code), if e.state == S.Closed then [] else [code])
  {
    hide Reset, Resets;
    if e.state == S.Closed { ResetAfterClose(e, code); } else { ResetCounts(r, e, [], code); }
    assert [] + [code] == [code];
  }

  lemma DataAnswered(r: End, e: End, f: Frame, a: Answers)
    requires f.payload.Data? && Ready(r, e, f)
    ensures Answered(r, HearData(e, f, a), Answer(r, f, a))
  {
    hide Has, Reset, TakeStream, Resets;
    NoResets(r, e);
    ResetOnce(r, e, FRAME_SIZE_ERROR);
    if f.length <= Min(e.window.local, e.systemWindow.local) {
      TakeCounts(r, e, [], f.length);
      DataTaken(r, e, TakeStream(e, f.length), f, a);
    }
  }

  /** Within the windows. */
  lemma DataTaken(r: End, e: End, e1: End, f: Frame, a: Answers)
    requires f.payload.Data? && Ready(r, e, f) && f.length <= Min(e.window.local, e.systemWindow.local)
    requires e1 == TakeStream(e, f.length) && e1.state == e.state && Resets(r, e1, [])
    ensures Answered(r, HearData(e, f, a), Answer(r, f, a))
  {
    hide Has, Reset, TakeStream, Resets;
    var e2 := Tell(e1, DataCame(f.payload.data));
    WindowOnly(r, e1, e2, []);
    ResetOnce(r, e2, CANCEL);
    var h := HearData(e, f, a).end;
    if e.streaming && f.payload.data != [] && !a.data {
      WindowOnly(r, Reset(e2, CANCEL), h, if e2.state == S.Closed then [] else [CANCEL]);
    } else {
      WindowOnly(r, e1, h, []);
    }
  }

  lemma HeadersAnswered(r: End, e: End, f: Frame, a: Answers)
    requires f.payload.Headers? && Ready(r, e, f)
    ensures Answered(r, HearHeaders(e, f, a), Answer(r, f, a))
  {
    hide Has, Reset, Resets;
    NoResets(r, e);
    var e2 := Tell(e.(receiveHeader := true), Block(f.payload.block));
    var e3 := e2.(pool := if e.pool.Some? then Some([]) else None);
    var e4 := Tell(e3, Started);
    WindowOnly(r, e, e2, []);
    WindowOnly(r, e, e4, []);
    ResetOnce(r, e2, COMPRESSION_ERROR);
    ResetOnce(r, e4, CANCEL);
    var h := HearHeaders(e, f, a).end;
    if !e.receiveHeader && Has(f.flags, END_HEADERS) && a.decodes && e.state != S.RemoteClosed && !Has(f.flags, END_STREAM) && !a.start {
      WindowOnly(r, Reset(e4, CANCEL), h, if e4.state == S.Closed then [] else [CANCEL]);
    } else if e.receiveHeader || !Has(f.flags, END_HEADERS) || a.decodes {
      WindowOnly(r, e, h, []);
    }
  }

  lemma ContinuationAnswered(r: End, e: End, f: Frame, a: Answers)
    requires f.payload.Continuation? && Ready(r, e, f)
    ensures Answered(r, HearContinuation(e, f, a), Answer(r, f, a))
  {
    hide Has, Reset, Resets;
    NoResets(r, e);
    if e.receiveHeader && e.pool.Some? {
      var all := e.pool.value + f.payload.block;
      var e2 := Tell(e.(pool := Some(all)), Block(all));
      WindowOnly(r, e, e2, []);
      ResetOnce(r, e2, COMPRESSION_ERROR);
    }
    var h := HearContinuation(e, f, a);
    if h.Heard? && !(e.receiveHeader && e.pool.Some? && Has(f.flags, END_HEADERS) && !a.decodes) {
      WindowOnly(r, e, h.end, []);
    }
  }

  lemma PromiseAnswered(r: End, e: End, f: Frame, a: Answers)
    requires f.payload.PushPromise? && Ready(r, e, f)
    ensures Answered(r, HearPushPromise(e, f, a), Answer(r, f, a))
  {
    hide Has, Reset, Resets;
    NoResets(r, e);
    var e2 := Tell(e.(promised := f.payload.promised), Block(f.payload.block));
    WindowOnly(r, e, e2, []);
    ResetOnce(r, e2, COMPRESSION_ERROR);
    if !(a.unused && Has(f.flags, END_HEADERS) && !a.decodes) {
      WindowOnly(r, e, HearPushPromise(e, f, a).end, []);
    }
  }

  lemma OthersAnswered(r: End, e: End, f: Frame, a: Answers)
    requires !f.payload.Data? && !f.payload.Headers? && !f.payload.Continuation? && !f.payload.PushPromise?
    requires !f.payload.RstStream? && !f.payload.GoAway? && !f.payload.WindowUpdate? && Ready(r, e, f)
    ensures Answered(r, HearAccepted(e, f, a), Answer(r, f, a))
  {
    hide Has, Reset, Resets;
    NoResets(r, e);
    ResetOnce(r, e, PROTOCOL_ERROR);
    if f.payload.Priority? { WindowOnly(r, e, HearAccepted(e, f, a).end, []); }
  }

  /** Frames that a half-closed stream takes as well. */
  lemma MinorAnswered(r: End, e: End, f: Frame, a: Answers)
    requires f.payload.WindowUpdate? || f.payload.RstStream? || f.payload.GoAway? || f.payload.Priority?
    requires Reached(r.state) && e == r.(state := e.state)
    requires if ClosesFirst(r, f) || f.payload.RstStream? || f.payload.GoAway? then e.state == S.Closed else Reached(e.state)
    ensures Answered(r, HearAccepted(e, f, a), Answer(r, f, a))
  {
    hide Has, Reset, Resets;
    NoResets(r, e);
    ResetOnce(r, e, FLOW_CONTROL_ERROR);
    ResetOnce(r, e, PROTOCOL_ERROR);
    var h := HearAccepted(e, f, a).end;
    if h.wire == e.wire { WindowOnly(r, e, h, []); }
  }

  lemma RefusedAnswered(r: End, f: Frame)
    requires r.state == S.RemoteClosed
    ensures Answered(r, Heard(Reset(r, STREAM_CLOSED), false), Some(0x5))
  {
    hide Reset, Resets;
    NoResets(r, r);
    ResetOnce(r, r, STREAM_CLOSED);
  }

  lemma StateAfter(r: End, f: Frame)
    requires Reached(r.state)
    ensures var change := S.Transition(r.state, false, SignalOf(f)); var p := f.payload;
            && (r.state == S.RemoteClosed ==>
                  if p.WindowUpdate? || p.Priority? then change == S.Change(S.RemoteClosed, S.NoError)
                  else if p.RstStream? || p.GoAway? then change == S.Change(S.Closed, S.NoError)
                  else change.code == S.StreamClosedError)
            && (r.state != S.RemoteClosed ==>
                  change.code == S.NoError
                  && (if ClosesFirst(r, f) || p.RstStream? || p.GoAway? then change.state == S.Closed else Reached(change.state))
                  && (change.state == S.RemoteClosed ==> Has(f.flags, 0x1)))
  {
    hide Has;
  }

  /** Whatever frame reaches an open or half-closed stream, in whatever state its header and windows are and
      whatever the handlers answer: it sends exactly the RST_STREAM that `Answer` names, and no other. */
  lemma AnsweredExactly(r: End, f: Frame, a: Answers)
    requires Reached(r.state)
    ensures Answered(r, Arrive(r, f, a), Answer(r, f, a))
  {
    hide Has, Answer, HearData, HearHeaders, HearContinuation, HearPushPromise, S.Transition, SignalOf, TakeSystem, Reset, Resets;
    StateAfter(r, f);
    var e := r.(state := S.Transition(r.state, false, SignalOf(f)).state);
    var p := f.payload;
    if p.WindowUpdate? || p.RstStream? || p.GoAway? || (p.Priority? && r.state == S.RemoteClosed) {
      MinorAnswered(r, e, f, a);
    } else if r.state == S.RemoteClosed {
      RefusedAnswered(r, f);
      AnswerWhenClosed(r, f, a);
    } else if p.Data? {
      DataAnswered(r, e, f, a);
      var h := HearData(e, f, a);
      if h.Heard? && h.ok { TakeSystemCounts(r, h.end, Codes(Answer(r, f, a)), f.length); }
    } else if p.Headers? { HeadersAnswered(r, e, f, a); }
    else if p.Continuation? { ContinuationAnswered(r, e, f, a); }
    else if p.PushPromise? { PromiseAnswered(r, e, f, a); }
    else { OthersAnswered(r, e, f, a); }
  }

  lemma AnswerWhenClosed(r: End, f: Frame, a: Answers)
    requires r.state == S.RemoteClosed
    requires !f.payload.WindowUpdate? && !f.payload.Priority? && !f.payload.RstStream? && !f.payload.GoAway?
    ensures Answer(r, f, a) == Some(0x5)
  {
  }

  /** The application is told of every reset, and that the stream has ended for it unless the peer cancelled or
      refused the stream. */
  lemma ResetReportedExactly(r: End, f: Frame, a: Answers)
    requires f.payload.RstStream? && Reached(r.state)
    ensures var h := Arrive(r, f, a); var code := f.payload.errorCode;
            && h.Heard? && h.ok && h.end.state == S.Closed && h.end.wire == r.wire
            && h.end.events == r.events + [ResetByPeer(code)]
                               + (if code == 0x7 || code == 0x8 then [] else [Finished([], -6000 - code)])
  {
    hide Has;
  }

  // ---- promised streams ----

  lemma PromisePiece(r: End, last: bool, piece: Piece, id: u32)
    requires (r.state == S.Open || r.state == S.LocalClosed) && r.pool.Some? && r.poolType == 5
    ensures var h := Arrive(r, Build(NewContinuation(last, piece), id), YES); var all := r.pool.value + piece;
            h == Heard(if !r.receiveHeader then r
                       else if last then r.(events := r.events + [Block(all)] + [Promised(r.promised)],
                                            promised := 0, pool := Some([]), poolType := 0)
                       else r.(pool := Some(all)), true)
  {
    hide Has;
    D.SignalsOf(NewContinuation(last, piece), id);
  }

  lemma {:induction false} PromisePieces(r: End, pieces: seq<Piece>, id: u32)
    requires (r.state == S.Open || r.state == S.LocalClosed) && r.pool.Some? && r.poolType == 5 && pieces != []
    ensures var h := ArriveAll(r, D.Builds(ContinuationCalls(pieces), id));
            h == Heard(if !r.receiveHeader then r
                       else r.(events := r.events + [Block(r.pool.value + Join(pieces))] + [Promised(r.promised)],
                               promised := 0, pool := Some([]), poolType := 0), true)
    decreases |pieces|
  {
    hide Build, Arrive;
    var last := |pieces| == 1;
    var c: TypedCall := NewContinuation(last, pieces[0]);
    var f := Build(c, id);
    PromisePiece(r, last, pieces[0], id);
    var r1 := Arrive(r, f, YES).end;
    D.HeadAndTail(c, ContinuationCalls(pieces[1..]), id);
    D.ArrivesOn(r, f, D.Builds(ContinuationCalls(pieces[1..]), id));
    if last {
      assert Join(pieces) == pieces[0] + [] == pieces[0];
    } else {
      PromisePieces(r1, pieces[1..], id);
      assert r.receiveHeader ==> r.pool.value + pieces[0] + Join(pieces[1..]) == r.pool.value + (pieces[0] + Join(pieces[1..]));
    }
  }

  lemma PromiseHeard(r: End, promised: u32, whole: bool, block: Piece, id: u32)
    requires (r.state == S.Open || r.state == S.LocalClosed) && (r.pool == None || r.pool == Some([]))
    ensures var f := Build(NewPushPromise(whole, promised, block, []), id);
            Arrive(r, f, YES) ==
              Heard(if whole then r.(promised := promised, events := r.events + [Block(block)] + [Promised(promised)])
                    else r.(promised := promised, pool := Some(block), poolType := 5), true)
  {
    hide Has;
    FlagsSurvive(false, whole, false, false);
    assert [] + block == block;
  }

  /** A promise in several frames is decoded, and its stream created, exactly if the stream's own header has come
      already: without one the CONTINUATION frames are skipped. In one frame it always is. */
  lemma PromiseArrivesExactly(r: End, promised: u32, block: Piece, pieces: seq<Piece>, id: u32)
    requires (r.state == S.Open || r.state == S.LocalClosed) && (r.pool == None || r.pool == Some([]))
    ensures var calls := [NewPushPromise(pieces == [], promised, block, [])] + ContinuationCalls(pieces);
            var h := ArriveAll(r, D.Builds(calls, id));
            && h.Heard? && h.ok && r.events <= h.end.events
            && h.end.events[|r.events|..]
               == if pieces == [] || r.receiveHeader then [Block(block + Join(pieces)), Promised(promised)] else []
  {
    hide Build, Arrive;
    var c: TypedCall := NewPushPromise(pieces == [], promised, block, []);
    var f := Build(c, id);
    var rest := ContinuationCalls(pieces);
    PromiseHeard(r, promised, pieces == [], block, id);
    D.HeadAndTail(c, rest, id);
    D.ArrivesOn(r, f, D.Builds(rest, id));
    var r1 := Arrive(r, f, YES).end;
    if pieces == [] {
      assert block + Join(pieces) == block;
    } else {
      PromisePieces(r1, pieces, id);
    }
    var h := ArriveAll(r, D.Builds([c] + rest, id));
    if pieces == [] || r.receiveHeader {
      assert h.end.events == r.events + [Block(block + Join(pieces)), Promised(promised)];
    }
  }
}
