/** What one end sends with one call arrives whole at the other end: header blocks in HEADERS and
    CONTINUATION frames (sections 6.2 and 6.10 of RFC 7540) and data in DATA frames (sections 6.1 and
    6.9), as cut up by src/http2/co_http2_stream.c:933-1139. */
module StreamDelivery {
  import opened Machine
  import opened Frame
  import F = FlowControl
  import opened StreamModel
  import S = StreamStates

  predicate EndStreamOf(c: Call) {
    (c.NewData? || c.NewHeaders?) && c.endStream
  }

  predicate Plain(c: Call) {
    (c.NewData? && c.padding == []) || (c.NewHeaders? && c.padding == []) || c.NewContinuation?
  }

  lemma SignalsOf(c: TypedCall, id: u32)
    requires Plain(c)
    ensures var f := Build(c, id);
            && SignalOf(f).endStream == EndStreamOf(c)
            && (c.NewHeaders? || c.NewContinuation? ==> Has(f.flags, END_HEADERS) == c.endHeaders)
  {
    hide Has;
    match c {
      case NewData(es, _, _) => FlagsSurvive(es, false, false, false);
      case NewHeaders(es, eh, _, _, _, _) => FlagsSurvive(es, eh, false, HasPriority(c));
      case NewContinuation(eh, _) => FlagsSurvive(false, eh, false, false);
    }
  }

  /** The frames one call put on the wire. */
  function NewOnWire(before: End, after: End): seq<Frame>
    requires before.wire <= after.wire
  {
    after.wire[|before.wire|..]
  }

  function Builds(calls: seq<TypedCall>, id: u32): (fs: seq<Frame>)
    ensures |fs| == |calls|
  {
    if calls == [] then [] else [Build(calls[0], id)] + Builds(calls[1..], id)
  }

  // ---- header blocks ----

  lemma OneContinuation(s: End, r: End, endHeaders: bool, piece: Piece, id: u32)
    ensures var c := NewContinuation(endHeaders, piece);
            && (CanSend(s, c) <==> S.Accepts(s.state, true, S.Signal(S.Continuation, false)))
            && (s.state == S.Open || s.state == S.RemoteClosed ==>
                CanSend(s, c) && Send(s, c) == s.(wire := s.wire + [Build(c, s.id)]))
            && (r.state == S.Open || r.state == S.LocalClosed ==> r.receiveHeader && r.pool.Some? && r.poolType != 5 ==>
                Arrive(r, Build(c, id), YES)
                == Heard(if endHeaders then Tell(r, Block(r.pool.value + piece)).(pool := Some([]), poolType := 0)
                         else r.(pool := Some(r.pool.value + piece)), true))
  {
    hide Has;
    SignalsOf(NewContinuation(endHeaders, piece), s.id);
    SignalsOf(NewContinuation(endHeaders, piece), id);
  }

  /** The receiver once the rest of a header block has come. */
  function Complete(r: End, rest: seq<byte>): End
    requires r.pool.Some?
  {
    Tell(r, Block(r.pool.value + rest)).(pool := Some([]), poolType := 0)
  }

  lemma CompleteLater(r: End, piece: seq<byte>, rest: seq<byte>)
    requires r.pool.Some?
    ensures Complete(r.(pool := Some(r.pool.value + piece)), rest) == Complete(r, piece + rest)
  {
    assert r.pool.value + piece + rest == r.pool.value + (piece + rest);
  }

  lemma ArrivesOn(r: End, f: Frame, later: seq<Frame>)
    requires Arrive(r, f, YES).Heard? && Arrive(r, f, YES).ok
    ensures ArriveAll(r, [f] + later) == ArriveAll(Arrive(r, f, YES).end, later)
  {
    hide Arrive;
    assert ([f] + later)[1..] == later;
  }

  /** The rest of a block, sent by `s`, completes the one that `r` is collecting. */
  ghost predicate RestCame(s: End, r: End, pieces: seq<Piece>)
    requires r.pool.Some?
  {
    var calls := ContinuationCalls(pieces);
    var fs := Builds(calls, s.id);
    && AllSent(s, calls) && SendAll(s, calls) == s.(wire := s.wire + fs)
    && ArriveAll(r, fs) == Heard(Complete(r, Join(pieces)), true)
  }

  lemma LastContinuation(s: End, r: End, piece: Piece)
    requires s.state == S.Open || s.state == S.RemoteClosed
    requires r.state == S.Open || r.state == S.LocalClosed
    requires r.receiveHeader && r.pool.Some? && r.poolType != 5
    ensures RestCame(s, r, [piece])
  {
    hide Build, CanSend, Arrive, Send, Complete;
    var c: TypedCall := NewContinuation(true, piece);
    OneContinuation(s, r, true, piece, s.id);
    assert ContinuationCalls([piece]) == [c];
    assert [c][1..] == [] && [piece][1..] == [];
    assert Builds([c], s.id) == [Build(c, s.id)] + Builds([], s.id) == [Build(c, s.id)];
    OneFrameArrives(r, Build(c, s.id));
    CompleteIs(r, piece);
    assert Join([piece]) == piece + [] == piece;
    assert AllSent(s, [c]);
    assert SendAll(s, [c]) == Send(s, c);
    assert ArriveAll(r, [Build(c, s.id)]) == Heard(Complete(r, piece), true);
  }

  lemma MoreContinuation(s: End, r: End, s1: End, r1: End, piece: Piece, pieces: seq<Piece>)
    requires s.state == S.Open || s.state == S.RemoteClosed
    requires r.state == S.Open || r.state == S.LocalClosed
    requires r.receiveHeader && r.pool.Some? && r.poolType != 5 && pieces != []
    requires s1 == s.(wire := s.wire + [Build(NewContinuation(false, piece), s.id)])
    requires r1 == r.(pool := Some(r.pool.value + piece))
    requires RestCame(s1, r1, pieces)
    ensures RestCame(s, r, [piece] + pieces)
  {
    hide Build, CanSend, Arrive, Send, Complete, SendAll, AllSent, ArriveAll, Builds, Join, ContinuationCalls;
    var c: TypedCall := NewContinuation(false, piece);
    var f := Build(c, s.id);
    var rest := ContinuationCalls(pieces);
    var later := Builds(rest, s.id);
    OneContinuation(s, r, false, piece, s.id);
    HeadAndTail(c, rest, s.id);
    SendsOn(s, c, rest);
    ArrivesOn(r, f, later);
    CompleteLater(r, piece, Join(pieces));
    ContinuationCons(piece, pieces);
    JoinCons(piece, pieces);
    assert s.wire + [f] + later == s.wire + ([f] + later);
  }

  lemma ContinuationCons(piece: Piece, pieces: seq<Piece>)
    requires pieces != []
    ensures ContinuationCalls([piece] + pieces) == [NewContinuation(false, piece)] + ContinuationCalls(pieces)
  {
    assert ([piece] + pieces)[1..] == pieces;
  }

  lemma JoinCons(piece: Piece, pieces: seq<Piece>)
    ensures Join([piece] + pieces) == piece + Join(pieces)
  {
    assert ([piece] + pieces)[1..] == pieces;
  }

  lemma {:induction false} ContinuationsArrive(s: End, r: End, pieces: seq<Piece>)
    requires s.state == S.Open || s.state == S.RemoteClosed
    requires r.state == S.Open || r.state == S.LocalClosed
    requires r.receiveHeader && r.pool.Some? && r.poolType != 5 && pieces != []
    ensures RestCame(s, r, pieces)
    decreases |pieces|
  {
    hide RestCame, Build;
    var piece := pieces[0];
    assert pieces == [piece] + pieces[1..];
    if |pieces| == 1 {
      assert pieces == [piece];
      LastContinuation(s, r, piece);
    } else {
      var s1 := s.(wire := s.wire + [Build(NewContinuation(false, piece), s.id)]);
      var r1 := r.(pool := Some(r.pool.value + piece));
      ContinuationsArrive(s1, r1, pieces[1..]);
      MoreContinuation(s, r, s1, r1, piece, pieces[1..]);
    }
  }

  lemma CompleteIs(r: End, rest: seq<byte>)
    requires r.pool.Some?
    ensures Complete(r, rest) == Tell(r, Block(r.pool.value + rest)).(pool := Some([]), poolType := 0)
  {
  }

  lemma HeadAndTail(c: TypedCall, rest: seq<TypedCall>, id: u32)
    ensures var calls := [c] + rest;
            calls[0] == c && calls[1..] == rest && Builds(calls, id) == [Build(c, id)] + Builds(rest, id)
            && Builds(calls, id)[1..] == Builds(rest, id)
  {
    assert ([c] + rest)[1..] == rest;
  }

  /** The header blocks handed to the decoder, in order. */
  function Blocks(events: seq<Event>): seq<seq<byte>> {
    if events == [] then []
    else
      var e := events[|events| - 1];
      Blocks(events[..|events| - 1]) + (if e.Block? then [e.block] else [])
  }

  lemma BlocksSnoc(events: seq<Event>, e: Event)
    ensures Blocks(events + [e]) == Blocks(events) + (if e.Block? then [e.block] else [])
  {
    assert (events + [e])[..|events|] == events;
  }

  /** The pairs of states in which one end may begin a header block and the other takes it. */
  predicate MayCarryHeader(s: S.State, r: S.State) {
    || (s == S.Idle && r == S.Idle)
    || (s == S.Open && r == S.Open)
    || (s == S.RemoteClosed && r == S.LocalClosed)
    || (s == S.ReservedLocal && r == S.ReservedRemote)
  }

  /** No header is being received, and none was left unfinished. */
  predicate Unstarted(r: End) {
    !r.receiveHeader && (r.pool == None || r.pool == Some([]))
  }

  /** END_STREAM on HEADERS does not close the sending direction in these states. */
  predicate StaysSendable(s: S.State) {
    s == S.Idle || s == S.ReservedLocal
  }

  lemma HeadersSent(s: End, c: TypedCall)
    requires c.NewHeaders? && c.padding == []
    requires s.state == S.Idle || s.state == S.Open || s.state == S.RemoteClosed || s.state == S.ReservedLocal
    ensures CanSend(s, c) && Send(s, c) == s.(state := Send(s, c).state, wire := s.wire + [Build(c, s.id)])
    ensures var st := Send(s, c).state;
            if c.endStream && !StaysSendable(s.state)
            then !S.Accepts(st, true, S.Signal(S.Continuation, false)) else st == S.Open || st == S.RemoteClosed
  {
    hide Has, FlagsOf;
    SignalsOf(c, s.id);
  }

  lemma HeadersHeard(r: End, c: TypedCall, s: S.State, id: u32)
    requires c.NewHeaders? && c.padding == [] && MayCarryHeader(s, r.state) && Unstarted(r)
    ensures var h := Arrive(r, Build(c, id), YES);
            && h.Heard? && h.ok
            && (c.endHeaders ==> h.end.events == r.events + [Block(c.block)] + [if c.endStream then Finished([], 0) else Started])
            && (!c.endHeaders ==> h.end.events == r.events && h.end.receiveHeader && h.end.pool == Some(c.block) && h.end.poolType == 1)
            && ((c.endStream && !StaysSendable(s)) || h.end.state == S.Open || h.end.state == S.LocalClosed)
  {
    hide Has, FlagsOf;
    SignalsOf(c, id);
    assert [] + c.block == c.block;
  }

  lemma OneFrameArrives(r: End, f: Frame)
    ensures Arrive(r, f, YES).Heard? && Arrive(r, f, YES).ok ==> ArriveAll(r, [f]) == Arrive(r, f, YES)
  {
    hide Arrive;
    assert [f][1..] == [];
  }

  /** What the other end makes of a header block sent with one call. */
  ghost predicate BlockCame(s: End, r: End, calls: seq<TypedCall>, block: seq<byte>) {
    var h := ArriveAll(r, NewOnWire(s, SendAll(s, calls)));
    h.Heard? && h.ok && Blocks(h.end.events) == Blocks(r.events) + [block]
  }

  /** What the other end was told because of it. */
  ghost function NewEvents(s: End, r: End, calls: seq<TypedCall>): seq<Event> {
    var h := ArriveAll(r, NewOnWire(s, SendAll(s, calls)));
    if h.Heard? && r.events <= h.end.events then h.end.events[|r.events|..] else []
  }

  lemma HeaderInOneFrame(s: End, r: End, c: TypedCall)
    requires c.NewHeaders? && c.padding == [] && c.endHeaders && MayCarryHeader(s.state, r.state) && Unstarted(r)
    ensures AllSent(s, [c]) && BlockCame(s, r, [c], c.block)
    ensures NewEvents(s, r, [c]) == [Block(c.block), if c.endStream then Finished([], 0) else Started]
  {
    hide Arrive, CanSend, Send, Build, Blocks;
    HeadersSent(s, c);
    HeadersHeard(r, c, s.state, s.id);
    var f := Build(c, s.id);
    assert [c][1..] == [];
    assert NewOnWire(s, SendAll(s, [c])) == [f];
    OneFrameArrives(r, f);
    BlocksSnoc(r.events, Block(c.block));
    var last := if c.endStream then Finished([], 0) else Started;
    BlocksSnoc(r.events + [Block(c.block)], last);
    assert r.events + [Block(c.block)] + [last] == r.events + [Block(c.block), last];
  }

  lemma HeaderInManyFrames(s: End, r: End, c: TypedCall, pieces: seq<Piece>)
    requires c.NewHeaders? && c.padding == [] && !c.endHeaders && pieces != []
    requires MayCarryHeader(s.state, r.state) && Unstarted(r) && (!c.endStream || StaysSendable(s.state))
    ensures var calls := [c] + ContinuationCalls(pieces);
            AllSent(s, calls) && BlockCame(s, r, calls, c.block + Join(pieces))
            && NewEvents(s, r, calls) == [Block(c.block + Join(pieces))]
  {
    hide Arrive, CanSend, Send, Build, Blocks, SendAll, AllSent, ArriveAll, Builds;
    var rest := ContinuationCalls(pieces);
    var f := Build(c, s.id);
    HeadersSent(s, c);
    HeadersHeard(r, c, s.state, s.id);
    var s1 := Send(s, c);
    var r1 := Arrive(r, f, YES).end;
    ContinuationsArrive(s1, r1, pieces);
    var fs := Builds(rest, s.id);
    SendsOn(s, c, rest);
    ArrivesOn(r, f, fs);
    WireGrew(s.wire, [f], fs);
    assert SendAll(s, [c] + rest).wire == s.wire + [f] + fs;
    BlocksSnoc(r1.events, Block(c.block + Join(pieces)));
  }

  lemma WireGrew(wire: seq<Frame>, first: seq<Frame>, later: seq<Frame>)
    ensures (wire + first + later)[|wire|..] == first + later
  {
  }

  lemma HeaderCutShort(s: End, r: End, c: TypedCall, pieces: seq<Piece>)
    requires c.NewHeaders? && c.padding == [] && !c.endHeaders && pieces != []
    requires MayCarryHeader(s.state, r.state) && Unstarted(r) && c.endStream && !StaysSendable(s.state)
    ensures var calls := [c] + ContinuationCalls(pieces);
            !AllSent(s, calls) && forall block :: !BlockCame(s, r, calls, block)
  {
    hide Arrive, CanSend, Send, Build, Blocks;
    var rest := ContinuationCalls(pieces);
    var f := Build(c, s.id);
    HeadersSent(s, c);
    HeadersHeard(r, c, s.state, s.id);
    OneContinuation(Send(s, c), r, |pieces| == 1, pieces[0], s.id);
    HeadAndTail(c, rest, s.id);
    assert NewOnWire(s, SendAll(s, [c] + rest)) == [f];
    OneFrameArrives(r, f);
    forall block ensures !BlockCame(s, r, [c] + rest, block) {
      assert |Blocks(r.events) + [block]| != |Blocks(r.events)|;
    }
  }

  /** A header block sent with one call arrives as the same block, once, at the other end's decoder,
      exactly unless it needs more than one frame and END_STREAM closes the stream on the first of them:
      the program then refuses its own CONTINUATION frames. */
  lemma HeaderBlockArrives(s: End, r: End, block: Piece, max: nat, endStream: bool, order: Order)
    requires max > 0 && MayCarryHeader(s.state, r.state) && Unstarted(r)
    ensures var calls := HeaderCalls(Cuts(block, max), endStream, order);
            && (BlockCame(s, r, calls, block) <==> |block| <= max || !endStream || StaysSendable(s.state))
            && (AllSent(s, calls) <==> |block| <= max || !endStream || StaysSendable(s.state))
  {
    hide BlockCame, AllSent, MayCarryHeader, Unstarted;
    var pieces := Cuts(block, max);
    CutsAreRight(block, max);
    var c: TypedCall := NewHeaders(endStream, |pieces| == 1, pieces[0], order.dependency, order.weight, []);
    if |pieces| == 1 {
      assert HeaderCalls(pieces, endStream, order) == [c];
      assert Join(pieces) == pieces[0] + Join(pieces[1..]) == pieces[0];
      HeaderInOneFrame(s, r, c);
    } else if !endStream || StaysSendable(s.state) {
      HeaderInManyFrames(s, r, c, pieces[1..]);
    } else {
      HeaderCutShort(s, r, c, pieces[1..]);
    }
  }

  /** When all of a header block is sent, the application at the other end is told of it exactly when it
      came in one frame: the program's handling of CONTINUATION calls no handler in these states. */
  lemma HeaderReportedExactly(s: End, r: End, block: Piece, max: nat, endStream: bool, order: Order)
    requires max > 0 && MayCarryHeader(s.state, r.state) && Unstarted(r)
    requires |block| <= max || !endStream || StaysSendable(s.state)
    ensures var told := NewEvents(s, r, HeaderCalls(Cuts(block, max), endStream, order));
            (exists k :: 0 <= k < |told| && (told[k].Started? || told[k].Finished?)) <==> |block| <= max
  {
    hide BlockCame, AllSent, MayCarryHeader, Unstarted, NewEvents;
    var pieces := Cuts(block, max);
    CutsAreRight(block, max);
    var c: TypedCall := NewHeaders(endStream, |pieces| == 1, pieces[0], order.dependency, order.weight, []);
    var told := NewEvents(s, r, HeaderCalls(pieces, endStream, order));
    if |pieces| == 1 {
      assert HeaderCalls(pieces, endStream, order) == [c];
      HeaderInOneFrame(s, r, c);
      assert told[1].Started? || told[1].Finished?;
    } else {
      HeaderInManyFrames(s, r, c, pieces[1..]);
    }
  }

  /** HEADERS on a stream that has its header already is skipped undecoded, so a second header block (a
      trailer) in one frame reaches the decoder exactly when the first has been dealt with. What a skipped
      block does to the compression tables is the matter of HpackRoundTrip.SkippedBlockExactly. */
  lemma HeaderDecodedExactly(r: End, f: Frame)
    requires f.payload.Headers? && Has(f.flags, END_HEADERS) && r.state != S.Closed && S.Accepts(r.state, false, SignalOf(f))
    ensures var h := Arrive(r, f, YES);
            h.Heard? && (Blocks(h.end.events) == Blocks(r.events) + [f.payload.block] <==> !r.receiveHeader)
  {
    hide Has, Blocks, SignalOf;
    BlocksSnoc(r.events, Block(f.payload.block));
    BlocksSnoc(r.events + [Block(f.payload.block)], Finished([], 0));
    BlocksSnoc(r.events + [Block(f.payload.block)], Started);
    assert |Blocks(r.events) + [f.payload.block]| != |Blocks(r.events)|;
  }

  /** A second header block in several frames is worse: its HEADERS frame is skipped, but its CONTINUATION
      frames are not. If the first block came in one frame, there is no pool, and the program appends to a
      null pointer. If there is a pool, the decoder is given the block without its first piece. */
  lemma SecondBlockExactly(s: End, r: End, block: Piece, max: nat, endStream: bool, order: Order)
    requires max > 0 && r.receiveHeader && (r.pool == None || (r.pool == Some([]) && r.poolType != 5))
    requires (s.state == S.Open && r.state == S.Open) || (s.state == S.RemoteClosed && r.state == S.LocalClosed)
    ensures var h := ArriveAll(r, NewOnWire(s, SendAll(s, HeaderCalls(Cuts(block, max), endStream, order))));
            var several := |block| > max && !endStream;
            && (h.Crashed? <==> several && r.pool == None)
            && (h.Heard? ==> Blocks(h.end.events) == Blocks(r.events) + (if several then [block[max..]] else []))
  {
    hide Arrive, CanSend, Send, Build, Blocks, SendAll, ArriveAll, NewOnWire, Cuts, ContinuationCalls;
    var pieces := Cuts(block, max);
    var c: TypedCall := NewHeaders(endStream, |pieces| == 1, pieces[0], order.dependency, order.weight, []);
    if |block| > max {
      CutRest(block, max);
      forall k | 0 <= k < |pieces[1..]| ensures pieces[1..][k] != [] {
        assert pieces[1..][k] == pieces[k + 1];
      }
    }
    SecondBlock(s, r, c, pieces[1..]);
  }

  lemma CutRest(block: Piece, max: nat)
    requires 0 < max < |block|
    ensures Cuts(block, max)[1..] != [] && Join(Cuts(block, max)[1..]) == block[max..]
    ensures forall k :: 1 <= k < |Cuts(block, max)| ==> Cuts(block, max)[k] != []
  {
    CutsAreRight(block[max..], max);
    assert Cuts(block, max)[1..] == Cuts(block[max..], max);
    forall k | 1 <= k < |Cuts(block, max)| ensures Cuts(block, max)[k] != [] {
      assert Cuts(block, max)[k] == Cuts(block[max..], max)[k - 1];
    }
  }

  lemma SecondBlock(s: End, r: End, c: TypedCall, pieces: seq<Piece>)
    requires c.NewHeaders? && c.padding == []
    requires r.receiveHeader && (r.pool == None || (r.pool == Some([]) && r.poolType != 5))
    requires (s.state == S.Open && r.state == S.Open) || (s.state == S.RemoteClosed && r.state == S.LocalClosed)
    requires forall k :: 0 <= k < |pieces| ==> pieces[k] != []
    ensures var h := ArriveAll(r, NewOnWire(s, SendAll(s, [c] + ContinuationCalls(pieces))));
            var several := pieces != [] && !c.endStream;
            && (h.Crashed? <==> several && r.pool == None)
            && (h.Heard? ==> Blocks(h.end.events) == Blocks(r.events) + (if several then [Join(pieces)] else []))
  {
    hide Arrive, CanSend, Send, Build, Blocks, SendAll, ArriveAll, NewOnWire, ContinuationCalls, Join;
    var f := Build(c, s.id);
    HeadersSent(s, c);
    HeadersSkipped(r, c, s.id);
    SendsOn(s, c, ContinuationCalls(pieces));
    if pieces != [] && !c.endStream {
      RestAfterSkipped(s, Send(s, c), r, Arrive(r, f, YES).end, f, pieces);
    } else {
      OnlyOneSent(s, Send(s, c), f, pieces);
      OneFrameArrives(r, f);
    }
  }

  lemma OnlyOneSent(s: End, s1: End, f: Frame, pieces: seq<Piece>)
    requires s1.wire == s.wire + [f] && (pieces == [] || !S.Accepts(s1.state, true, S.Signal(S.Continuation, false)))
    ensures s.wire <= SendAll(s1, ContinuationCalls(pieces)).wire
    ensures NewOnWire(s, SendAll(s1, ContinuationCalls(pieces))) == [f]
  {
    hide CanSend, Send, Build, Arrive;
    if pieces != [] {
      OneContinuation(s1, s1, |pieces| == 1, pieces[0], s1.id);
    }
  }

  lemma HeadersSkipped(r: End, c: TypedCall, id: u32)
    requires c.NewHeaders? && c.padding == [] && r.receiveHeader && (r.state == S.Open || r.state == S.LocalClosed)
    ensures var h := Arrive(r, Build(c, id), YES);
            && h == Heard(r.(state := h.end.state), true)
            && (!c.endStream ==> h.end.state == r.state)
  {
    hide Has, FlagsOf;
    SignalsOf(c, id);
  }

  lemma RestAfterSkipped(s: End, s1: End, r: End, r1: End, f: Frame, pieces: seq<Piece>)
    requires s1.wire == s.wire + [f] && s1.id == s.id && (s1.state == S.Open || s1.state == S.RemoteClosed)
    requires Arrive(r, f, YES) == Heard(r1, true) && r1.events == r.events
    requires r1.receiveHeader && (r1.state == S.Open || r1.state == S.LocalClosed) && pieces != []
    requires r1.pool == None || (r1.pool == Some([]) && r1.poolType != 5)
    requires forall k :: 0 <= k < |pieces| ==> pieces[k] != []
    ensures var calls := ContinuationCalls(pieces);
            var h := ArriveAll(r, NewOnWire(s, SendAll(s1, calls)));
            s.wire <= SendAll(s1, calls).wire
            && (h.Crashed? <==> r1.pool == None)
            && (h.Heard? ==> Blocks(h.end.events) == Blocks(r.events) + [Join(pieces)])
  {
    hide Arrive, CanSend, Send, Build, Blocks, SendAll, AllSent, ArriveAll, Builds, S.Transition;
    var pooled := r1.(pool := Some([]), poolType := 1);
    ContinuationsArrive(s1, if r1.pool == None then pooled else r1, pieces);
    var calls := ContinuationCalls(pieces);
    var fs := Builds(calls, s1.id);
    WireGrew(s.wire, [f], fs);
    ArrivesOn(r, f, fs);
    if r1.pool == None {
      FirstOf(calls, s1.id);
      NoPoolCrashes(r1, NewContinuation(|pieces| == 1, pieces[0]), s1.id, Builds(calls[1..], s1.id));
    } else {
      BlocksSnoc(r1.events, Block(Join(pieces)));
      assert [] + Join(pieces) == Join(pieces);
    }
  }

  lemma FirstOf(calls: seq<TypedCall>, id: u32)
    requires calls != []
    ensures Builds(calls, id) == [Build(calls[0], id)] + Builds(calls[1..], id)
  {
  }

  lemma NoPoolCrashes(r: End, c: TypedCall, id: u32, later: seq<Frame>)
    requires c.NewContinuation? && (c.block != [] || c.endHeaders)
    requires r.receiveHeader && r.pool == None && (r.state == S.Open || r.state == S.LocalClosed)
    ensures ArriveAll(r, [Build(c, id)] + later) == Crashed
  {
    hide Has, FlagsOf;
    SignalsOf(c, id);
  }

  /** Frame after frame, with any answers; what the receive function returns does not stop the loop. */
  function ArriveEach(e: End, heard: seq<(Frame, Answers)>): Heard
    decreases heard
  {
    if heard == [] then Heard(e, true)
    else
      match Arrive(e, heard[0].0, heard[0].1)
      case Crashed => Crashed
      case Heard(e1, _) => ArriveEach(e1, heard[1..])
  }

  /** Nothing else crashes: a stream that has a pool, which it then keeps, survives any run of any frames. */
  lemma {:induction false} PooledNeverCrashes(e: End, heard: seq<(Frame, Answers)>)
    requires e.pool.Some?
    ensures var h := ArriveEach(e, heard); h.Heard? && h.end.pool.Some?
    decreases heard
  {
    hide Arrive;
    if heard != [] {
      PoolStays(e, heard[0].0, heard[0].1);
      PooledNeverCrashes(Arrive(e, heard[0].0, heard[0].1).end, heard[1..]);
    }
  }

  lemma PoolStays(e: End, f: Frame, a: Answers)
    requires e.pool.Some?
    ensures var h := Arrive(e, f, a); h.Heard? && h.end.pool.Some?
  {
    hide Has, S.Transition, Reset, TakeSystem, HearData, HearHeaders, HearPushPromise, HearContinuation, SignalOf;
    SendingKeepsPools();
    var e1 := e.(state := S.Transition(e.state, false, SignalOf(f)).state);
    match f.payload {
      case Data(_, _, _) => DataKeepsPool(e1, f, a);
      case Headers(_, _, _, _, _) => HeadersKeepPool(e1, f, a);
      case PushPromise(_, _, _, _) => PromiseKeepsPool(e1, f, a);
      case Continuation(_) => ContinuationKeepsPool(e1, f, a);
      case _ =>
    }
  }

  lemma DataKeepsPool(e: End, f: Frame, a: Answers)
    requires f.payload.Data?
    ensures var h := HearData(e, f, a); h.Heard? && h.end.pool == e.pool
  {
    hide Has, Reset, TakeStream;
    SendingKeepsPools();
  }

  lemma HeadersKeepPool(e: End, f: Frame, a: Answers)
    requires f.payload.Headers? && e.pool.Some?
    ensures var h := HearHeaders(e, f, a); h.Heard? && h.end.pool.Some?
  {
    hide Has, Reset;
    SendingKeepsPools();
  }

  lemma PromiseKeepsPool(e: End, f: Frame, a: Answers)
    requires f.payload.PushPromise? && e.pool.Some?
    ensures var h := HearPushPromise(e, f, a); h.Heard? && h.end.pool.Some?
  {
    hide Has, Reset;
    SendingKeepsPools();
  }

  lemma ContinuationKeepsPool(e: End, f: Frame, a: Answers)
    requires f.payload.Continuation? && e.pool.Some?
    ensures var h := HearContinuation(e, f, a); h.Heard? && h.end.pool.Some?
  {
    hide Has, Reset;
    SendingKeepsPools();
  }

  lemma SendingKeepsPools()
    ensures forall e: End, code: u32 :: Reset(e, code).pool == e.pool
    ensures forall e: End, n: u32 :: TakeStream(e, n).pool == e.pool && TakeSystem(e, n).pool == e.pool
  {
    hide F.Take, CanSend, Build;
  }

  /** Every frame of a header block is within the peer's frame size exactly when HEADERS carries no
      priority fields, or the block leaves room for them: the first piece is cut without counting them. */
  lemma HeaderFramesFitExactly(block: Piece, max: nat, endStream: bool, order: Order)
    requires max > 0
    ensures var calls := HeaderCalls(Cuts(block, max), endStream, order);
            (forall k :: 0 <= k < |calls| ==> Size(calls[k]) <= max)
            <==> (order.dependency == 0 && order.weight == 0) || |block| + 5 <= max
  {
    hide Size;
    CutsAreRight(block, max);
    var pieces := Cuts(block, max);
    var calls := HeaderCalls(pieces, endStream, order);
    HeadersSize(calls[0]);
    forall k | 1 <= k < |calls| ensures Size(calls[k]) <= max {
      assert calls[k] == ContinuationCalls(pieces[1..])[k - 1];
      ContinuationSize(pieces[1..], k - 1);
    }
  }

  lemma HeadersSize(c: Call)
    requires c.NewHeaders? && c.padding == []
    ensures Size(c) == |c.block| + (if c.dependency != 0 || c.weight != 0 then 5 else 0)
  {
  }

  lemma {:induction false} ContinuationSize(pieces: seq<Piece>, k: nat)
    requires k < |pieces|
    ensures Size(ContinuationCalls(pieces)[k]) == |pieces[k]|
  {
    if k > 0 {
      ContinuationSize(pieces[1..], k - 1);
    }
  }

  // ---- data ----

  /** The sender's side of one DATA frame within both of its windows. */
  lemma DataSent(s: End, c: TypedCall)
    requires c.NewData? && c.padding == [] && (s.state == S.Open || s.state == S.RemoteClosed)
    requires |c.data| <= s.remote && |c.data| <= s.systemRemote
    ensures CanSend(s, c)
    ensures Send(s, c) == s.(state := if c.endStream then (if s.state == S.Open then S.LocalClosed else S.Closed) else s.state,
                             wire := s.wire + [Build(c, s.id)],
                             remote := s.remote - |c.data|, systemRemote := s.systemRemote - |c.data|)
  {
    hide Has, FlagsOf;
    SignalsOf(c, s.id);
  }

  /** The data given to the data handler, in order. */
  function DataOf(events: seq<Event>): seq<byte> {
    if events == [] then []
    else
      var e := events[|events| - 1];
      DataOf(events[..|events| - 1]) + (if e.DataCame? then e.data else [])
  }

  lemma DataOfSnoc(events: seq<Event>, e: Event)
    ensures DataOf(events + [e]) == DataOf(events) + (if e.DataCame? then e.data else [])
  {
    assert (events + [e])[..|events|] == events;
  }

  /** The receiver has room for n more bytes. */
  predicate Roomy(r: End, n: nat) {
    && F.Healthy(r.window) && F.Healthy(r.systemWindow)
    && n <= r.window.local && n <= r.systemWindow.local
  }

  /** `data` reached the application or the pool of the receiver, and with it the end of the stream. */
  ghost predicate Got(r: End, r': End, data: seq<byte>, endStream: bool) {
    && r'.streaming == r.streaming
    && r'.state == (if !endStream then r.state else if r.state == S.Open then S.RemoteClosed else S.Closed)
    && (if r.streaming then
          && DataOf(r'.events) == DataOf(r.events) + data
          && (endStream ==> r'.events != [] && r'.events[|r'.events| - 1] == Finished([], 0))
        else if endStream then r'.events == r.events + [Finished(r.body + data, 0)] && r'.body == []
        else r'.events == r.events && r'.body == r.body + data)
  }

  lemma GotTwice(r: End, r1: End, r2: End, a: seq<byte>, b: seq<byte>, endStream: bool)
    requires Got(r, r1, a, false) && Got(r1, r2, b, endStream)
    ensures Got(r, r2, a + b, endStream)
  {
    assert r.body + a + b == r.body + (a + b);
    assert DataOf(r.events) + a + b == DataOf(r.events) + (a + b);
  }

  lemma TakesStream(r: End, n: u32)
    requires F.Healthy(r.window) && n <= r.window.local
    requires r.state == S.Open || r.state == S.LocalClosed || r.state == S.RemoteClosed || r.state == S.Closed
    ensures var r' := TakeStream(r, n);
            && F.Healthy(r'.window) && r'.window.local + n >= r.window.local
            && r' == r.(window := r'.window, wire := r'.wire)
  {
    hide Has, F.Take;
    F.TakeKeepsHealthy(r.window, n);
    var t := F.Take(r.window, n);
    if t.increment.Some? {
      UpdateKeepsState(r.(window := t.window), t.increment.value);
    }
  }

  lemma UpdateKeepsState(r: End, increment: u32)
    requires r.state == S.Open || r.state == S.LocalClosed || r.state == S.RemoteClosed || r.state == S.Closed
    ensures var r' := Send(r, NewWindowUpdate(increment)); r' == r.(wire := r'.wire)
  {
  }

  lemma TakesSystem(r: End, n: u32)
    requires F.Healthy(r.systemWindow) && n <= r.systemWindow.local
    ensures var r' := TakeSystem(r, n);
            && F.Healthy(r'.systemWindow) && r'.systemWindow.local + n >= r.systemWindow.local
            && r' == r.(systemWindow := r'.systemWindow, wire := r'.wire)
  {
    hide F.Take;
    F.TakeKeepsHealthy(r.systemWindow, n);
  }

  /** The receiver's side of one DATA frame. */
  lemma DataHeard(r: End, c: TypedCall, id: u32, room: nat)
    requires c.NewData? && c.padding == [] && (r.state == S.Open || r.state == S.LocalClosed)
    requires Roomy(r, room) && |c.data| <= room
    ensures var h := Arrive(r, Build(c, id), YES);
            && h.Heard? && h.ok && Got(r, h.end, c.data, c.endStream) && Roomy(h.end, room - |c.data|)
  {
    hide Has, FlagsOf, TakeStream, TakeSystem, F.Healthy;
    SignalsOf(c, id);
    var f := Build(c, id);
    var e := r.(state := S.Transition(r.state, false, SignalOf(f)).state);
    TakesStream(e, |c.data|);
    var e1 := TakeStream(e, |c.data|);
    var h := HearData(e, f, YES);
    DataKept(e, f, e1);
    TakesSystem(h.end, |c.data|);
  }

  /** Past the windows: what the handlers and the pool get. */
  lemma DataKept(e: End, f: Frame, e1: End)
    requires f.payload.Data? && f.length <= Min(e.window.local, e.systemWindow.local)
    requires e1 == TakeStream(e, f.length) && e1.events == e.events && e1.body == e.body && e1.streaming == e.streaming
    ensures var h := HearData(e, f, YES); var end := Has(f.flags, END_STREAM); var data := f.payload.data;
            && h.Heard? && h.ok
            && h.end == e1.(events := h.end.events, body := h.end.body, receiveHeader := h.end.receiveHeader)
            && (if e.streaming then
                  && DataOf(h.end.events) == DataOf(e.events) + data
                  && (end ==> h.end.events != [] && h.end.events[|h.end.events| - 1] == Finished([], 0))
                else if end then h.end.events == e.events + [Finished(e.body + data, 0)] && h.end.body == []
                else h.end.events == e.events && h.end.body == e.body + data)
  {
    hide Has, TakeStream, DataOf;
    var data := f.payload.data;
    DataOfSnoc(e.events, DataCame(data));
    DataOfSnoc(e.events, Finished([], 0));
    DataOfSnoc(e.events + [DataCame(data)], Finished([], 0));
  }

  /** What the other end makes of data sent with one call. */
  ghost predicate DataCameWhole(s: End, r: End, calls: seq<TypedCall>, data: seq<byte>, endStream: bool) {
    var h := ArriveAll(r, Builds(calls, s.id));
    h.Heard? && h.ok && Got(r, h.end, data, endStream)
  }

  ghost predicate DataLeft(s: End, calls: seq<TypedCall>, size: nat, endStream: bool) {
    var s' := SendAll(s, calls);
    && AllSent(s, calls)
    && s'.wire == s.wire + Builds(calls, s.id)
    && s'.remote + size == s.remote && s'.systemRemote + size == s.systemRemote
    && s'.state == (if !endStream then s.state else if s.state == S.Open then S.LocalClosed else S.Closed)
  }

  lemma LastLeaves(s: End, c: TypedCall)
    requires c.NewData? && c.padding == [] && (s.state == S.Open || s.state == S.RemoteClosed)
    requires |c.data| <= s.remote && |c.data| <= s.systemRemote
    ensures DataLeft(s, [c], |c.data|, c.endStream)
  {
    hide Build, CanSend, Send;
    DataSent(s, c);
    HeadAndTail(c, [], s.id);
    assert [c] + [] == [c];
    SendsOn(s, c, []);
    assert Builds([c], s.id) == [Build(c, s.id)];
  }

  lemma MoreLeave(s: End, s1: End, c: TypedCall, rest: seq<TypedCall>, size: nat, endStream: bool)
    requires c.NewData? && c.padding == [] && !c.endStream && (s.state == S.Open || s.state == S.RemoteClosed)
    requires |c.data| <= s.remote && |c.data| <= s.systemRemote
    requires s1 == Send(s, c) && DataLeft(s1, rest, size, endStream)
    ensures DataLeft(s, [c] + rest, |c.data| + size, endStream)
  {
    hide Build, CanSend, Send, Builds, SendAll, AllSent;
    DataSent(s, c);
    HeadAndTail(c, rest, s.id);
    SendsOn(s, c, rest);
    assert s.wire + [Build(c, s.id)] + Builds(rest, s.id) == s.wire + ([Build(c, s.id)] + Builds(rest, s.id));
  }

  lemma {:induction false} PiecesLeave(s: End, pieces: seq<Piece>, endStream: bool)
    requires s.state == S.Open || s.state == S.RemoteClosed
    requires pieces != [] && |Join(pieces)| <= s.remote && |Join(pieces)| <= s.systemRemote
    ensures DataLeft(s, DataCalls(pieces, endStream), |Join(pieces)|, endStream)
    decreases |pieces|
  {
    hide Build, CanSend, Send, DataLeft;
    var c: TypedCall := NewData(endStream && |pieces| == 1, pieces[0], []);
    if |pieces| == 1 {
      LastLeaves(s, c);
      assert Join(pieces) == pieces[0] + Join(pieces[1..]) == pieces[0];
      assert DataCalls(pieces, endStream) == [c];
    } else {
      DataSent(s, c);
      var s1 := Send(s, c);
      PiecesLeave(s1, pieces[1..], endStream);
      MoreLeave(s, s1, c, DataCalls(pieces[1..], endStream), |Join(pieces[1..])|, endStream);
    }
  }

  lemma {:induction false} PiecesArrive(s: End, r: End, pieces: seq<Piece>, endStream: bool)
    requires r.state == S.Open || r.state == S.LocalClosed
    requires pieces != [] && Roomy(r, |Join(pieces)|)
    ensures DataCameWhole(s, r, DataCalls(pieces, endStream), Join(pieces), endStream)
    decreases |pieces|
  {
    hide Build, Arrive, Got, Roomy, Builds;
    var last := |pieces| == 1;
    var c: TypedCall := NewData(endStream && last, pieces[0], []);
    var f := Build(c, s.id);
    var rest := DataCalls(pieces[1..], endStream);
    DataHeard(r, c, s.id, |Join(pieces)|);
    HeadAndTail(c, rest, s.id);
    ArrivesOn(r, f, Builds(rest, s.id));
    var r1 := Arrive(r, f, YES).end;
    if last {
      assert Join(pieces) == pieces[0] + [] == pieces[0];
    } else {
      GotState(r, r1, pieces[0]);
      PiecesArrive(s, r1, pieces[1..], endStream);
      GotTwice(r, r1, ArriveAll(r1, Builds(rest, s.id)).end, pieces[0], Join(pieces[1..]), endStream);
    }
  }

  lemma GotState(r: End, r1: End, data: seq<byte>)
    requires Got(r, r1, data, false)
    ensures r1.state == r.state
  {
  }

  /** Data sent with one call, within the sender's windows and the receiver's: every frame is sent and
      accepted, each within the peer's frame size; both of the sender's windows fall by exactly the size;
      the receiver gets the same bytes, and the end of the stream exactly if it was asked for; and the two
      ends still mirror each other. */
  lemma DataArrives(s: End, r: End, data: Piece, max: nat, endStream: bool)
    requires max > 0 && ((s.state == S.Open && r.state == S.Open) || (s.state == S.RemoteClosed && r.state == S.LocalClosed))
    requires |data| <= s.remote && |data| <= s.systemRemote && Roomy(r, |data|)
    ensures var calls := DataCalls(Cuts(data, max), endStream); var s' := SendAll(s, calls);
            && AllSent(s, calls)
            && (forall k :: 0 <= k < |calls| ==> Size(calls[k]) <= max && EndStreamOf(calls[k]) == (endStream && k == |calls| - 1))
            && s'.remote == s.remote - |data| && s'.systemRemote == s.systemRemote - |data|
            && var h := ArriveAll(r, NewOnWire(s, s'));
            && h.Heard? && h.ok && Got(r, h.end, data, endStream)
            && S.Mirror(s'.state, h.end.state)
  {
    hide SendAll, AllSent, ArriveAll, Builds;
    var pieces := Cuts(data, max);
    var calls := DataCalls(pieces, endStream);
    CutsAreRight(data, max);
    PiecesLeave(s, pieces, endStream);
    PiecesArrive(s, r, pieces, endStream);
    assert NewOnWire(s, SendAll(s, calls)) == Builds(calls, s.id);
    forall k | 0 <= k < |calls| ensures Size(calls[k]) <= max && EndStreamOf(calls[k]) == (endStream && k == |calls| - 1) {
      DataCallAt(pieces, endStream, k);
    }
  }

  lemma {:induction false} DataCallAt(pieces: seq<Piece>, endStream: bool, k: nat)
    requires k < |pieces|
    ensures DataCalls(pieces, endStream)[k] == NewData(endStream && k == |pieces| - 1, pieces[k], [])
  {
    if k > 0 {
      DataCallAt(pieces[1..], endStream, k - 1);
    }
  }

  // ---- more data than the windows allow ----

  /** The data of all DATA frames, in order. */
  function DataIn(frames: seq<Frame>): seq<byte> {
    if frames == [] then []
    else (if frames[0].payload.Data? then frames[0].payload.data else []) + DataIn(frames[1..])
  }

  predicate EndsStream(frames: seq<Frame>) {
    exists k :: 0 <= k < |frames| && SignalOf(frames[k]).endStream
  }

  lemma DataGoesOut(s: End, c: TypedCall)
    requires c.NewData? && c.padding == [] && (s.state == S.Open || s.state == S.RemoteClosed)
    ensures var s' := Send(s, c);
            CanSend(s, c) && s'.wire == s.wire + [Build(c, s.id)] && s'.id == s.id && (!c.endStream ==> s'.state == s.state)
    ensures var f := Build(c, s.id); f.payload.Data? && f.payload.data == c.data && SignalOf(f).endStream == c.endStream
  {
    hide Has, FlagsOf;
    SignalsOf(c, s.id);
  }

  lemma {:induction false} PiecesGoOut(s: End, pieces: seq<Piece>, endStream: bool)
    requires pieces != [] && (s.state == S.Open || s.state == S.RemoteClosed)
    ensures var calls := DataCalls(pieces, endStream); var fs := Builds(calls, s.id);
            && SendEach(s, calls).wire == s.wire + fs
            && DataIn(fs) == Join(pieces) && (EndsStream(fs) <==> endStream)
    decreases |pieces|
  {
    hide Build, Send, CanSend, SignalOf, EndsStream, DataIn;
    var c: TypedCall := NewData(endStream && |pieces| == 1, pieces[0], []);
    var f := Build(c, s.id);
    DataGoesOut(s, c);
    if |pieces| == 1 {
      assert DataCalls(pieces, endStream) == [c];
      EachNext(s, c, []);
      HeadAndTail(c, [], s.id);
      assert [c] + [] == [c] && Builds([c], s.id) == [f] + [];
      FrontIn(f, []);
      assert Join(pieces) == pieces[0] + [];
    } else {
      var rest := DataCalls(pieces[1..], endStream);
      var later := Builds(rest, s.id);
      PiecesGoOut(Send(s, c), pieces[1..], endStream);
      HeadAndTail(c, rest, s.id);
      EachNext(s, c, rest);
      FrontIn(f, later);
      assert s.wire + [f] + later == s.wire + ([f] + later);
    }
  }

  lemma FrontIn(f: Frame, later: seq<Frame>)
    requires f.payload.Data?
    ensures DataIn([f] + later) == f.payload.data + DataIn(later)
    ensures EndsStream([f] + later) <==> SignalOf(f).endStream || EndsStream(later)
    ensures DataIn([]) == [] && !EndsStream([])
  {
    hide SignalOf;
    var all := [f] + later;
    assert all[1..] == later;
    if EndsStream(later) {
      var k :| 0 <= k < |later| && SignalOf(later[k]).endStream;
      assert all[k + 1] == later[k];
    }
    if SignalOf(f).endStream {
      assert all[0] == f;
    }
  }

  /** One call that sends data, with windows that allow `window`: what goes on the wire is a front part of the
      data. It is all of it exactly if it fits, or the windows are shut; it keeps to the windows exactly if
      there is at most twice as much; and END_STREAM goes out on it although data is missing exactly if it was
      asked for and the data is cut. */
  lemma OversizedDataExactly(s: End, data: Piece, max: nat, endStream: bool)
    requires max > 0 && (s.state == S.Open || s.state == S.RemoteClosed)
    ensures var window := Min(s.systemRemote, s.remote); var total := Total(|data|, window);
            var sent := NewOnWire(s, SendEach(s, DataCalls(Cuts(data[..total], max), endStream)));
            && DataIn(sent) == data[..total]
            && (DataIn(sent) == data <==> |data| <= window || window == 0)
            && (|DataIn(sent)| <= window <==> |data| <= 2 * window)
            && (EndsStream(sent) && DataIn(sent) != data <==> endStream && |data| > window > 0)
  {
    hide SendEach, Builds, EndsStream;
    var total := Total(|data|, Min(s.systemRemote, s.remote));
    var body: Piece := data[..total];
    var pieces := Cuts(body, max);
    CutsAreRight(body, max);
    PiecesGoOut(s, pieces, endStream);
    assert NewOnWire(s, SendEach(s, DataCalls(pieces, endStream))) == Builds(DataCalls(pieces, endStream), s.id);
    assert total == |data| ==> data[..total] == data;
  }
}
