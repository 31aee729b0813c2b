/** The whole way of a header: compressed by one end (src/http2/co_http2_stream.c:1051-1139), cut into frames
    of a new stream each (src/http2/co_http2_client.c:181-198), printed, read in any pieces, given to the
    stream it names by the loop of the server (src/http2/co_http2_server.c:111-246), reassembled and decoded
    (src/http2/co_http2_stream.c:611-700, 828-898). */
module EndToEnd {
  import opened Machine
  import opened Frame
  import opened StreamModel
  import D = StreamDelivery
  import DynamicTable
  import H = Hpack
  import Huffman
  import R = HpackRoundTrip
  import S = StreamStates
  import W = FrameStream

  // ---- the sending end ----

  datatype Request = Request(header: H.Header, endStream: bool, order: Order)

  /** `max` is the frame size the peer asked for, `blank` what a new stream looks like. */
  datatype Client = Client(newStreamId: u32, table: DynamicTable.Table, max: u32, blank: End, wire: seq<Frame>)

  function NextId(c: Client): u32 {
    Wrap32(c.newStreamId + 2)
  }

  function BlockOf(t: Huffman.CodeTable, c: Client, q: Request): seq<byte>
    requires |t| == 257
  {
    H.PrintAll(t, c.table, H.Emissions(q.header)).bytes
  }

  /** Blocks of a length that is below 2^32 together with the priority fields. */
  predicate Fits(t: Huffman.CodeTable, c: Client, q: Request)
    requires |t| == 257
  {
    c.max > 0 && 5 + |BlockOf(t, c, q)| < TWO_32
  }

  /** A request on a stream of its own. */
  function Send1(t: Huffman.CodeTable, c: Client, q: Request): (c': Client)
    requires |t| == 257 && Fits(t, c, q)
    ensures c.wire <= c'.wire
  {
    var s := c.blank.(id := NextId(c), wire := c.wire);
    var s' := SendAll(s, HeaderCalls(Cuts(BlockOf(t, c, q), c.max), q.endStream, q.order));
    c.(newStreamId := NextId(c), table := H.PrintAll(t, c.table, H.Emissions(q.header)).table, wire := s'.wire)
  }

  predicate AllFit(t: Huffman.CodeTable, c: Client, qs: seq<Request>)
    requires |t| == 257
    decreases qs
  {
    qs == [] || (Fits(t, c, qs[0]) && AllFit(t, Send1(t, c, qs[0]), qs[1..]))
  }

  function SendRequests(t: Huffman.CodeTable, c: Client, qs: seq<Request>): (c': Client)
    requires |t| == 257 && AllFit(t, c, qs)
    ensures c.wire <= c'.wire
    decreases qs
  {
    if qs == [] then c else SendRequests(t, Send1(t, c, qs[0]), qs[1..])
  }

  function HeadersOf(qs: seq<Request>): (hs: seq<H.Header>)
    ensures |hs| == |qs| && forall i :: 0 <= i < |qs| ==> hs[i] == qs[i].header
  {
    seq(|qs|, i requires 0 <= i < |qs| => qs[i].header)
  }

  // ---- the receiving end ----

  /** `blank` is what a new stream looks like; it holds what all streams of the connection share. `headers`
      are those decoded so far, with the streams they came on. */
  datatype Server = Server(
    limit: u32, blank: End, streams: map<u32, End>, table: DynamicTable.Table, headers: seq<(u32, H.Header)>)

  function Sharing(e: End, c: End): End {
    e.(systemWindow := c.systemWindow, systemRemote := c.systemRemote, wire := c.wire, events := c.events)
  }

  function EndOf(p: Server, id: u32): End {
    if id in p.streams then Sharing(p.streams[id], p.blank) else p.blank.(id := id)
  }

  /** The header block, if any, that a frame hands to the decoder. */
  function Handed(e: End, f: Frame): Option<seq<byte>> {
    match Hear(e, f, YES)
    case Crashed => None
    case Heard(e1, _) =>
      var n := |e.events|;
      if |e1.events| > n && e1.events[n].Block? then Some(e1.events[n].block) else None
  }

  /** The loop goes on, or the connection is closed, or the program does something undefined. */
  datatype Turn = Goes(server: Server) | Closes | Breaks

  function Decoded(t: Huffman.CodeTable, p: Server, block: Option<seq<byte>>): H.Block
    requires |t| == 257
  {
    match block
    case None => H.Block(H.Complete, H.EMPTY, p.table)
    case Some(b) => H.ParseBlock(t, b, p.table, H.EMPTY)
  }

  /** One frame of a stream: a stream not known yet is created, one that is closed is forgotten, and the
      decoder is the one of Hpack. The handlers of the application accept. */
  function OnFrame(t: Huffman.CodeTable, p: Server, f: Frame): Turn
    requires |t| == 257 && f.streamId != 0
  {
    var id := f.streamId;
    if id !in p.streams && |p.streams| >= p.limit then Closes
    else if f.payload.PushPromise? then Closes
    else
      var e := EndOf(p, id);
      var block := Handed(e, f);
      var d := Decoded(t, p, block);
      if d.outcome == H.Unspecified then Breaks
      else
        match Hear(e, f, YES.(decodes := d.outcome == H.Complete))
        case Crashed => Breaks
        case Heard(e1, ok) =>
          var e2 := if ok && f.payload.Data? then TakeSystem(e1, f.length) else e1;
          Goes(Server(p.limit, Sharing(p.blank, e2),
                      if e2.state == S.Closed then p.streams - {id} else p.streams[id := e2], d.table,
                      if block.Some? && d.outcome == H.Complete then p.headers + [(id, d.header)] else p.headers))
  }

  predicate OnStreams(fs: seq<Frame>) {
    forall k :: 0 <= k < |fs| ==> fs[k].streamId != 0
  }

  function OnFrames(t: Huffman.CodeTable, p: Server, fs: seq<Frame>): Turn
    requires |t| == 257 && OnStreams(fs)
    decreases fs
  {
    if fs == [] then Goes(p)
    else
      match OnFrame(t, p, fs[0])
      case Goes(p') => OnFrames(t, p', fs[1..])
      case stop => stop
  }

  lemma {:induction false} OnFramesConcat(t: Huffman.CodeTable, p: Server, a: seq<Frame>, b: seq<Frame>)
    requires |t| == 257 && OnStreams(a) && OnStreams(b)
    ensures OnFrames(t, p, a + b) == match OnFrames(t, p, a) case Goes(p') => OnFrames(t, p', b) case stop => stop
    decreases a
  {
    hide OnFrame;
    if a == [] {
      assert a + b == b;
    } else {
      assert (a + b)[1..] == a[1..] + b;
      match OnFrame(t, p, a[0]) {
        case Goes(p') => OnFramesConcat(t, p', a[1..], b);
        case _ =>
      }
    }
  }

  // ---- a block on a new stream ----

  predicate New(e: End) {
    e.state == S.Idle && !e.receiveHeader && (e.pool == None || e.pool == Some([]))
  }

  function Opened(e: End, piece: seq<byte>): End {
    e.(state := S.Open, receiveHeader := true, pool := Some(piece), poolType := 1)
  }

  lemma HeadersOnNew(e: End, c: TypedCall, id: u32, a: Answers)
    requires New(e) && c.NewHeaders? && c.padding == []
    ensures var f := Build(c, id); var h := Hear(e, f, a);
            && f.payload.Headers? && f.streamId == id && h.Heard?
            && (c.endHeaders ==> Handed(e, f) == Some(c.block)
                                 && (a == YES ==> h.end.state == S.Open))
            && (!c.endHeaders ==> Handed(e, f) == None && h == Heard(Opened(e, c.block), true))
  {
    hide Has, FlagsOf, Reset;
    D.SignalsOf(c, id);
    assert [] + c.block == c.block;
  }

  lemma ContinuationOnOpen(e: End, endHeaders: bool, piece: Piece, id: u32, a: Answers)
    requires e.state == S.Open && e.receiveHeader && e.pool.Some? && e.poolType == 1
    ensures var f := Build(NewContinuation(endHeaders, piece), id); var h := Hear(e, f, a); var all := e.pool.value + piece;
            && f.payload.Continuation? && f.streamId == id && h.Heard?
            && (endHeaders ==> Handed(e, f) == Some(all) && (a == YES ==> h.end.state == S.Open))
            && (!endHeaders ==> Handed(e, f) == None && h == Heard(e.(pool := Some(all)), true))
  {
    hide Has, FlagsOf, Reset;
    D.SignalsOf(NewContinuation(endHeaders, piece), id);
  }

  /** What the server makes of a whole block: the decoder's result, whatever it is. */
  ghost predicate Took(t: Huffman.CodeTable, p: Server, id: u32, block: seq<byte>, turn: Turn)
    requires |t| == 257
  {
    var d := H.ParseBlock(t, block, p.table, H.EMPTY);
    if d.outcome == H.Unspecified then turn == Breaks
    else
      && turn.Goes? && var q := turn.server;
      && q.limit == p.limit && q.blank == Sharing(p.blank, q.blank) && q.streams.Keys <= p.streams.Keys + {id}
      && q.table == d.table
      && q.headers == (if d.outcome == H.Complete then p.headers + [(id, d.header)] else p.headers)
      && (d.outcome == H.Complete ==> id in q.streams && q.streams[id].state == S.Open)
  }

  lemma BlockTaken(t: Huffman.CodeTable, p: Server, f: Frame, block: seq<byte>)
    requires |t| == 257 && f.streamId != 0 && (f.streamId in p.streams || |p.streams| < p.limit)
    requires f.payload.Headers? || f.payload.Continuation?
    requires var e := EndOf(p, f.streamId);
             && Handed(e, f) == Some(block) && (forall a :: Hear(e, f, a).Heard?) && Hear(e, f, YES).end.state == S.Open
    ensures Took(t, p, f.streamId, block, OnFrame(t, p, f))
  {
    hide Hear, Handed, H.ParseBlock;
    var d := Decoded(t, p, Some(block));
    var answers := YES.(decodes := d.outcome == H.Complete);
    assert Hear(EndOf(p, f.streamId), f, answers).Heard?;
  }

  /** The server while a block of stream `id` is being collected in `e`. */
  function Holding(p: Server, id: u32, e: End): Server {
    p.(streams := p.streams[id := e])
  }

  predicate Collecting(p: Server, id: u32, e: End) {
    e == Sharing(e, p.blank) && e.state == S.Open && e.receiveHeader && e.pool.Some? && e.poolType == 1
  }

  lemma HoldingOn(p: Server, id: u32, e: End, e1: End)
    ensures Holding(Holding(p, id, e), id, e1) == Holding(p, id, e1)
  {
    assert p.streams[id := e][id := e1] == p.streams[id := e1];
  }

  lemma TookHolding(t: Huffman.CodeTable, p: Server, id: u32, e: End, block: seq<byte>, turn: Turn)
    requires |t| == 257 && Took(t, Holding(p, id, e), id, block, turn)
    ensures Took(t, p, id, block, turn)
  {
    hide H.ParseBlock;
  }

  /** CONTINUATION frames collect the rest of the block, and the last one hands it over. */
  lemma {:induction false} RestTaken(t: Huffman.CodeTable, p: Server, id: u32, e: End, pieces: seq<Piece>)
    requires |t| == 257 && id != 0 && Collecting(p, id, e) && pieces != []
    ensures var fs := D.Builds(ContinuationCalls(pieces), id);
            OnStreams(fs) && Took(t, p, id, e.pool.value + Join(pieces), OnFrames(t, Holding(p, id, e), fs))
    decreases |pieces|
  {
    hide Hear, Handed, Took, Build, OnFrame, Holding, Sharing;
    var last := |pieces| == 1;
    var c: TypedCall := NewContinuation(last, pieces[0]);
    var f := Build(c, id);
    var fs := D.Builds(ContinuationCalls(pieces), id);
    OneContinuation(t, p, id, e, last, pieces[0]);
    assert Join(pieces) == pieces[0] + Join(pieces[1..]);
    if last {
      assert ContinuationCalls(pieces) == [c];
      D.HeadAndTail(c, [], id);
      assert [c] + [] == [c] && fs == [f] + [] == [f];
      OneTurn(t, Holding(p, id, e), f);
      assert Join(pieces) == pieces[0] + [] == pieces[0];
    } else {
      var e1 := e.(pool := Some(e.pool.value + pieces[0]));
      RestTaken(t, p, id, e1, pieces[1..]);
      D.HeadAndTail(c, ContinuationCalls(pieces[1..]), id);
      FirstTurn(t, Holding(p, id, e), f, D.Builds(ContinuationCalls(pieces[1..]), id));
      assert e.pool.value + pieces[0] + Join(pieces[1..]) == e.pool.value + (pieces[0] + Join(pieces[1..]));
    }
  }

  lemma OneTurn(t: Huffman.CodeTable, p: Server, f: Frame)
    requires |t| == 257 && f.streamId != 0
    ensures OnStreams([f]) && OnFrames(t, p, [f]) == OnFrame(t, p, f)
  {
    hide OnFrame;
    assert [f][1..] == [];
  }

  lemma FirstTurn(t: Huffman.CodeTable, p: Server, f: Frame, later: seq<Frame>)
    requires |t| == 257 && f.streamId != 0 && OnStreams(later) && OnFrame(t, p, f).Goes?
    ensures OnStreams([f] + later) && OnFrames(t, p, [f] + later) == OnFrames(t, OnFrame(t, p, f).server, later)
  {
    hide OnFrame;
    assert ([f] + later)[1..] == later;
  }

  lemma OneContinuation(t: Huffman.CodeTable, p: Server, id: u32, e: End, last: bool, piece: Piece)
    requires |t| == 257 && id != 0 && Collecting(p, id, e)
    ensures var f := Build(NewContinuation(last, piece), id); var all := e.pool.value + piece;
            var e1 := e.(pool := Some(all));
            && f.streamId == id
            && (last ==> Took(t, p, id, all, OnFrame(t, Holding(p, id, e), f)))
            && (!last ==> Collecting(p, id, e1) && OnFrame(t, Holding(p, id, e), f) == Goes(Holding(p, id, e1)))
  {
    hide Hear, Handed, Took, Build, H.ParseBlock;
    var c: TypedCall := NewContinuation(last, piece);
    var f := Build(c, id);
    var p' := Holding(p, id, e);
    forall a ensures Hear(e, f, a).Heard? { ContinuationOnOpen(e, last, piece, id, a); }
    ContinuationOnOpen(e, last, piece, id, YES);
    HoldingOn(p, id, e, e.(pool := Some(e.pool.value + piece)));
    assert EndOf(p', id) == e;
    if last {
      BlockTaken(t, p', f, e.pool.value + piece);
      TookHolding(t, p, id, e, e.pool.value + piece, OnFrame(t, p', f));
    }
  }

  /** A block of any bytes on a stream that is new to the server comes to its decoder whole, however it is
      cut into frames. */
  lemma BlockOnNewStream(t: Huffman.CodeTable, p: Server, id: u32, block: Piece, max: nat, endStream: bool, order: Order)
    requires |t| == 257 && id != 0 && id !in p.streams && |p.streams| < p.limit && New(p.blank) && max > 0
    ensures var fs := D.Builds(HeaderCalls(Cuts(block, max), endStream, order), id);
            OnStreams(fs) && Took(t, p, id, block, OnFrames(t, p, fs))
  {
    hide Hear, Handed, Took, Build, OnFrame, OnFrames, Cuts, Join;
    CutsAreRight(block, max);
    var pieces := Cuts(block, max);
    var last := |pieces| == 1;
    var c: TypedCall := NewHeaders(endStream, last, pieces[0], order.dependency, order.weight, []);
    var f := Build(c, id);
    var e1 := Opened(p.blank.(id := id), pieces[0]);
    FirstHeaders(t, p, id, c);
    PiecesJoin(pieces);
    if last {
      assert HeaderCalls(pieces, endStream, order) == [c] == [c] + [];
      D.HeadAndTail(c, [], id);
      assert [f] + [] == [f];
      OneTurn(t, p, f);
    } else {
      var rest := ContinuationCalls(pieces[1..]);
      RestTaken(t, p, id, e1, pieces[1..]);
      D.HeadAndTail(c, rest, id);
      FirstTurn(t, p, f, D.Builds(rest, id));
    }
  }

  lemma PiecesJoin(pieces: seq<Piece>)
    requires pieces != []
    ensures Join(pieces) == pieces[0] + Join(pieces[1..]) && (|pieces| == 1 ==> Join(pieces) == pieces[0])
  {
  }

  lemma FirstHeaders(t: Huffman.CodeTable, p: Server, id: u32, c: TypedCall)
    requires |t| == 257 && id != 0 && id !in p.streams && |p.streams| < p.limit && New(p.blank)
    requires c.NewHeaders? && c.padding == []
    ensures var f := Build(c, id); var e1 := Opened(p.blank.(id := id), c.block);
            && f.streamId == id
            && (c.endHeaders ==> Took(t, p, id, c.block, OnFrame(t, p, f)))
            && (!c.endHeaders ==> Collecting(p, id, e1) && OnFrame(t, p, f) == Goes(Holding(p, id, e1)))
  {
    hide Hear, Handed, Took, Build, H.ParseBlock;
    var f := Build(c, id);
    var e := p.blank.(id := id);
    forall a ensures Hear(e, f, a).Heard? { HeadersOnNew(e, c, id, a); }
    HeadersOnNew(e, c, id, YES);
    if c.endHeaders { BlockTaken(t, p, f, c.block); }
  }

  // ---- all requests ----

  function CallsFor(t: Huffman.CodeTable, c: Client, q: Request): seq<TypedCall>
    requires |t| == 257 && Fits(t, c, q)
  {
    HeaderCalls(Cuts(BlockOf(t, c, q), c.max), q.endStream, q.order)
  }

  function FramesFor(t: Huffman.CodeTable, c: Client, qs: seq<Request>): seq<Frame>
    requires |t| == 257 && AllFit(t, c, qs)
    decreases qs
  {
    if qs == [] then [] else D.Builds(CallsFor(t, c, qs[0]), NextId(c)) + FramesFor(t, Send1(t, c, qs[0]), qs[1..])
  }

  lemma {:induction false} AllSentWire(s: End, calls: seq<TypedCall>)
    requires AllSent(s, calls)
    ensures SendAll(s, calls).wire == s.wire + D.Builds(calls, s.id)
    decreases calls
  {
    hide CanSend, Build;
    if calls != [] {
      AllSentWire(Send(s, calls[0]), calls[1..]);
      assert s.wire + [Build(calls[0], s.id)] + D.Builds(calls[1..], s.id) == s.wire + D.Builds(calls, s.id);
    } else {
      assert s.wire + [] == s.wire;
    }
  }

  lemma RequestGoesOut(t: Huffman.CodeTable, c: Client, q: Request)
    requires |t| == 257 && Fits(t, c, q) && c.blank.state == S.Idle
    ensures Send1(t, c, q).wire == c.wire + D.Builds(CallsFor(t, c, q), NextId(c))
  {
    hide SendAll, AllSent, HeaderCalls, Cuts, BlockOf;
    var s := c.blank.(id := NextId(c), wire := c.wire);
    D.HeaderBlockArrives(s, s.(receiveHeader := false, pool := None), BlockOf(t, c, q), c.max, q.endStream, q.order);
    AllSentWire(s, CallsFor(t, c, q));
  }

  lemma {:induction false} RequestsGoOut(t: Huffman.CodeTable, c: Client, qs: seq<Request>)
    requires |t| == 257 && AllFit(t, c, qs) && c.blank.state == S.Idle
    ensures SendRequests(t, c, qs).wire == c.wire + FramesFor(t, c, qs)
    decreases qs
  {
    hide BlockOf, CallsFor, Fits, H.Emissions, H.PrintAll;
    if qs == [] {
      assert c.wire + [] == c.wire;
    } else {
      RequestGoesOut(t, c, qs[0]);
      var c1 := Send1(t, c, qs[0]);
      RequestsGoOut(t, c1, qs[1..]);
      Associative(c.wire, D.Builds(CallsFor(t, c, qs[0]), NextId(c)), FramesFor(t, c1, qs[1..]));
    }
  }

  lemma {:induction false} RequestsChangeTable(t: Huffman.CodeTable, c: Client, qs: seq<Request>)
    requires |t| == 257 && AllFit(t, c, qs)
    ensures SendRequests(t, c, qs).table == R.PrintBlocks(t, c.table, HeadersOf(qs)).table
    decreases qs
  {
    hide Fits, H.Emissions, H.PrintAll, SendAll, Cuts, HeaderCalls;
    if qs != [] {
      RequestsChangeTable(t, Send1(t, c, qs[0]), qs[1..]);
      assert HeadersOf(qs)[1..] == HeadersOf(qs[1..]);
    }
  }

  /** Room for so many streams more, with ids that are new. */
  predicate Ready(p: Server, c: Client, n: nat) {
    && New(p.blank) && |p.streams.Keys| + n <= p.limit
    && IdsLeft(c, n) && (n > 0 ==> forall id :: id in p.streams.Keys ==> id < NextId(c))
  }

  predicate IdsLeft(c: Client, n: nat) {
    n > 0 ==> 0 < NextId(c) && NextId(c) + 2 * n <= TWO_32 + 1
  }

  lemma {:induction false} BuildsAreNamed(calls: seq<TypedCall>, id: u32)
    ensures forall k :: 0 <= k < |calls| ==> D.Builds(calls, id)[k] == Build(calls[k], id)
  {
    hide Build;
    if calls != [] {
      BuildsAreNamed(calls[1..], id);
    }
  }

  lemma {:induction false} FramesOnStreams(t: Huffman.CodeTable, c: Client, qs: seq<Request>)
    requires |t| == 257 && AllFit(t, c, qs) && IdsLeft(c, |qs|)
    ensures OnStreams(FramesFor(t, c, qs))
    decreases qs
  {
    hide CallsFor, Fits, BlockOf;
    if qs != [] {
      BuildsAreNamed(CallsFor(t, c, qs[0]), NextId(c));
      FramesOnStreams(t, Send1(t, c, qs[0]), qs[1..]);
    }
  }

  lemma {:induction false} SubsetSize(a: set<u32>, b: set<u32>)
    requires a <= b
    ensures |a| <= |b|
    decreases |a|
  {
    if a != {} {
      var x :| x in a;
      SubsetSize(a - {x}, b - {x});
    }
  }

  lemma StaysReady(t: Huffman.CodeTable, c: Client, c1: Client, p: Server, block: seq<byte>, turn: Turn, n: nat)
    requires |t| == 257 && n > 0 && Ready(p, c, n) && Took(t, p, NextId(c), block, turn) && turn.Goes?
    requires c1.newStreamId == NextId(c)
    ensures Ready(turn.server, c1, n - 1)
  {
    hide H.ParseBlock;
    SubsetSize(turn.server.streams.Keys, p.streams.Keys + {NextId(c)});
  }

  /** Headers with the streams they belong to, every second number. */
  function Numbered(id: u32, hs: seq<H.Header>): (r: seq<(u32, H.Header)>)
    ensures |r| == |hs|
    decreases hs
  {
    if hs == [] then [] else [(id, hs[0])] + Numbered(Wrap32(id + 2), hs[1..])
  }

  /** The server's run over the frames of all requests against decoding block after block. */
  ghost predicate Agrees(p: Server, id: u32, n: nat, got: R.Received, turn: Turn) {
    && !turn.Closes?
    && (turn.Goes? ==> |turn.server.headers| <= |p.headers| + n)
    && (match got
        case Lost => turn.Goes? ==> |turn.server.headers| < |p.headers| + n
        case Received(headers, table) =>
          turn.Goes? && turn.server.table == table && turn.server.headers == p.headers + Numbered(id, headers))
  }

  /** From one block to the next. */
  lemma AgreesOn(t: Huffman.CodeTable, p: Server, id: u32, block: seq<byte>, blocks: seq<seq<byte>>, first: Turn, rest: Turn)
    requires |t| == 257 && Took(t, p, id, block, first)
    requires first.Goes? ==> Agrees(first.server, Wrap32(id + 2), |blocks|, R.ParseBlocks(t, first.server.table, blocks), rest)
    requires !first.Goes? ==> rest == first
    ensures Agrees(p, id, |blocks| + 1, R.ParseBlocks(t, p.table, [block] + blocks), rest)
  {
    hide H.ParseBlock, R.ParseBlocks, Numbered;
    ParsesOn(t, p.table, block, blocks);
    var d := H.ParseBlock(t, block, p.table, H.EMPTY);
    if d.outcome == H.Complete {
      var got := R.ParseBlocks(t, d.table, blocks);
      if got.Received? {
        NumbersOn(p.headers, id, d.header, got.headers);
      }
    }
  }

  lemma ParsesOn(t: Huffman.CodeTable, d: DynamicTable.Table, block: seq<byte>, blocks: seq<seq<byte>>)
    requires |t| == 257
    ensures var first := H.ParseBlock(t, block, d, H.EMPTY);
            R.ParseBlocks(t, d, [block] + blocks)
            == if first.outcome != H.Complete then R.Lost
               else match R.ParseBlocks(t, first.table, blocks)
                    case Lost => R.Lost
                    case Received(headers, d') => R.Received([first.header] + headers, d')
  {
    hide H.ParseBlock;
    assert ([block] + blocks)[1..] == blocks;
  }

  lemma NumbersOn(before: seq<(u32, H.Header)>, id: u32, h: H.Header, hs: seq<H.Header>)
    ensures before + [(id, h)] + Numbered(Wrap32(id + 2), hs) == before + Numbered(id, [h] + hs)
  {
    assert ([h] + hs)[1..] == hs;
  }

  lemma NothingAgrees(t: Huffman.CodeTable, p: Server, id: u32)
    requires |t| == 257
    ensures Agrees(p, id, 0, R.ParseBlocks(t, p.table, []), OnFrames(t, p, []))
  {
    assert p.headers + [] == p.headers;
  }

  lemma OneRequest(t: Huffman.CodeTable, c: Client, q: Request, p: Server, n: nat)
    requires |t| == 257 && Fits(t, c, q) && n > 0 && Ready(p, c, n)
    ensures var fs := D.Builds(CallsFor(t, c, q), NextId(c));
            OnStreams(fs) && Took(t, p, NextId(c), BlockOf(t, c, q), OnFrames(t, p, fs))
  {
    hide Took, OnFrames, Cuts, HeaderCalls, BlockOf;
    BlockOnNewStream(t, p, NextId(c), BlockOf(t, c, q), c.max, q.endStream, q.order);
  }

  lemma TookNotCloses(t: Huffman.CodeTable, p: Server, id: u32, block: seq<byte>, turn: Turn)
    requires |t| == 257 && Took(t, p, id, block, turn)
    ensures !turn.Closes?
  {
  }

  lemma {:induction false} AsManyBlocks(t: Huffman.CodeTable, d: DynamicTable.Table, hs: seq<H.Header>)
    requires |t| == 257
    ensures |R.PrintBlocks(t, d, hs).blocks| == |hs|
    decreases hs
  {
    hide H.PrintAll, H.Emissions;
    if hs != [] {
      AsManyBlocks(t, H.PrintAll(t, d, H.Emissions(hs[0])).table, hs[1..]);
    }
  }

  /** All requests, one after the other: the server decodes the blocks just as if it had been given them in
      order, and nothing else. */
  lemma {:induction false} ServerDecodes(t: Huffman.CodeTable, c: Client, qs: seq<Request>, p: Server)
    requires |t| == 257 && AllFit(t, c, qs) && Ready(p, c, |qs|)
    ensures var fs := FramesFor(t, c, qs);
            OnStreams(fs)
            && Agrees(p, NextId(c), |qs|, R.ParseBlocks(t, p.table, R.PrintBlocks(t, c.table, HeadersOf(qs)).blocks), OnFrames(t, p, fs))
    decreases qs
  {
    hide H.PrintAll, H.Emissions, H.ParseBlock, R.ParseBlocks, Took, OnFrame, OnFrames, Agrees, New, CallsFor, Cuts, HeaderCalls, SendAll, Fits;
    FramesOnStreams(t, c, qs);
    if qs == [] {
      NothingAgrees(t, p, NextId(c));
    } else {
      var c1 := Send1(t, c, qs[0]);
      var block := BlockOf(t, c, qs[0]);
      var fs := D.Builds(CallsFor(t, c, qs[0]), NextId(c));
      var later := FramesFor(t, c1, qs[1..]);
      var blocks := R.PrintBlocks(t, c1.table, HeadersOf(qs[1..])).blocks;
      OneRequest(t, c, qs[0], p, |qs|);
      FramesOnStreams(t, c1, qs[1..]);
      OnFramesConcat(t, p, fs, later);
      assert HeadersOf(qs)[1..] == HeadersOf(qs[1..]);
      AsManyBlocks(t, c1.table, HeadersOf(qs[1..]));
      var first := OnFrames(t, p, fs);
      if first.Goes? {
        StaysReady(t, c, c1, p, block, first, |qs|);
        ServerDecodes(t, c1, qs[1..], first.server);
      }
      AgreesOn(t, p, NextId(c), block, blocks, first, OnFrames(t, p, fs + later));
    }
  }

  // ---- over the network ----

  /** Priority fields fit into the first frame beside the block, which is cut without counting them. */
  predicate OrdersFit(t: Huffman.CodeTable, c: Client, qs: seq<Request>)
    requires |t| == 257 && AllFit(t, c, qs)
    decreases qs
  {
    qs != [] ==>
      && (qs[0].order == Order(0, 0) || |BlockOf(t, c, qs[0])| + 5 <= c.max)
      && OrdersFit(t, Send1(t, c, qs[0]), qs[1..])
  }

  function Marked(calls: seq<TypedCall>, id: u32): (r: seq<W.Sent>)
    ensures |r| == |calls| && forall k :: 0 <= k < |r| ==> r[k] == W.Sent(calls[k], id)
  {
    seq(|calls|, k requires 0 <= k < |calls| => W.Sent(calls[k], id))
  }

  function SentFor(t: Huffman.CodeTable, c: Client, qs: seq<Request>): seq<W.Sent>
    requires |t| == 257 && AllFit(t, c, qs)
    decreases qs
  {
    if qs == [] then [] else Marked(CallsFor(t, c, qs[0]), NextId(c)) + SentFor(t, Send1(t, c, qs[0]), qs[1..])
  }

  lemma {:induction false} FramesAt(sent: seq<W.Sent>, max: u32)
    requires W.AllSendable(sent, max)
    ensures forall k :: 0 <= k < |sent| ==> W.Frames(sent, max)[k] == Build(sent[k].call, sent[k].streamId)
    decreases sent
  {
    hide Build, W.Sendable;
    if sent != [] {
      FramesAt(sent[1..], max);
    }
  }

  lemma {:induction false} ContinuationsUnpadded(pieces: seq<Piece>)
    ensures forall k :: 0 <= k < |pieces| ==> ContinuationCalls(pieces)[k].NewContinuation?
  {
    if pieces != [] {
      ContinuationsUnpadded(pieces[1..]);
    }
  }

  lemma CallsSendable(t: Huffman.CodeTable, c: Client, q: Request)
    requires |t| == 257 && Fits(t, c, q) && c.max < TWO_24
    requires q.order == Order(0, 0) || |BlockOf(t, c, q)| + 5 <= c.max
    ensures W.AllSendable(Marked(CallsFor(t, c, q), NextId(c)), c.max)
  {
    hide Size, Cuts, BlockOf;
    var block := BlockOf(t, c, q);
    var calls := CallsFor(t, c, q);
    D.HeaderFramesFitExactly(block, c.max, q.endStream, q.order);
    ContinuationsUnpadded(Cuts(block, c.max)[1..]);
    forall k | 0 <= k < |calls| ensures W.Sendable(W.Sent(calls[k], NextId(c)), c.max) {
      if k > 0 { assert calls[k] == ContinuationCalls(Cuts(block, c.max)[1..])[k - 1]; }
      assert Typed(calls[k]) && Unpadded(calls[k]);
    }
  }

  lemma {:induction false} SentFrames(t: Huffman.CodeTable, c: Client, qs: seq<Request>)
    requires |t| == 257 && AllFit(t, c, qs) && OrdersFit(t, c, qs) && c.max < TWO_24
    ensures W.AllSendable(SentFor(t, c, qs), c.max) && W.Frames(SentFor(t, c, qs), c.max) == FramesFor(t, c, qs)
    decreases qs
  {
    hide Build, CallsFor, BlockOf, Fits, W.Sendable, W.Frames;
    if qs == [] {
      NoFrames(c.max);
    } else {
      var calls := CallsFor(t, c, qs[0]);
      var a, b := Marked(calls, NextId(c)), SentFor(t, Send1(t, c, qs[0]), qs[1..]);
      CallsSendable(t, c, qs[0]);
      SentFrames(t, Send1(t, c, qs[0]), qs[1..]);
      FramesAt(a, c.max);
      FramesAt(b, c.max);
      FramesAt(a + b, c.max);
      BuildsAreNamed(calls, NextId(c));
    }
  }

  lemma NoFrames(max: u32)
    ensures W.Frames([], max) == []
  {
  }

  lemma {:induction false} NumberedAt(id: u32, hs: seq<H.Header>, i: nat)
    requires i < |hs| && id + 2 * i < TWO_32
    ensures Numbered(id, hs)[i] == (id + 2 * i, hs[i])
    decreases i
  {
    if i > 0 {
      NumberedAt(Wrap32(id + 2), hs[1..], i - 1);
    }
  }

  /** Headers sent on new streams, in frames the peer allows, over any cutting of the bytes into reads: the
      server is handed all of them exactly if no string in them is empty; and then each with the stream it was
      sent on, in order, equal up to case and just as the sender's table says, with the two compression
      tables in step for what comes next. */
  lemma HeadersSurviveTheWay(t: Huffman.CodeTable, c: Client, qs: seq<Request>, p: Server, chunks: W.Chunks)
    requires Huffman.ValidCode(t) && DynamicTable.Counted(c.table) && R.InStep(c.table, p.table)
    requires R.BlocksSendable(t, c.table, HeadersOf(qs))
    requires AllFit(t, c, qs) && OrdersFit(t, c, qs) && c.max < TWO_24 && c.blank.state == S.Idle && Ready(p, c, |qs|)
    requires Join(chunks) == W.Bytes(SendRequests(t, c, qs).wire[|c.wire|..])
    ensures var c' := SendRequests(t, c, qs);
            var r := W.ReadAll(W.START, chunks, c.max);
            && r == W.Reader(c'.wire[|c.wire|..], [], W.Waiting) && OnStreams(r.delivered)
            && var turn := OnFrames(t, p, r.delivered);
            && (turn.Goes? && |turn.server.headers| == |p.headers| + |qs|
                <==> forall i :: 0 <= i < |qs| ==> R.AllNonEmpty(H.Emissions(qs[i].header)))
            && (turn.Goes? && |turn.server.headers| == |p.headers| + |qs| ==>
                var q := turn.server;
                && p.headers <= q.headers && DeliveredAs(q.headers[|p.headers|..], NextId(c), HeadersOf(qs))
                && q.headers == p.headers + Numbered(NextId(c), R.Delivered(t, c.table, HeadersOf(qs)))
                && R.InStep(c'.table, q.table) && DynamicTable.Counted(c'.table))
  {
    hide SendRequests, AllFit, OrdersFit, FramesFor, SentFor, OnFrames, Agrees, R.PrintBlocks, R.ParseBlocks, R.BlocksSendable,
         R.AllNonEmpty, R.InStep, DynamicTable.Counted, H.Emissions, W.ReadAll, W.Bytes, W.AllSendable, R.SameHeader, Numbered, Huffman.PrefixFree,
         R.Delivered;
    var hs := HeadersOf(qs);
    var fs := FramesFor(t, c, qs);
    RequestsGoOut(t, c, qs);
    RequestsChangeTable(t, c, qs);
    assert (c.wire + fs)[|c.wire|..] == fs;
    SentFrames(t, c, qs);
    W.FramesSurviveReads(SentFor(t, c, qs), c.max, chunks);
    ServerDecodes(t, c, qs, p);
    R.ConnectionRoundTrip(t, hs, c.table, p.table);
    var got := R.ParseBlocks(t, p.table, R.PrintBlocks(t, c.table, hs).blocks);
    Concludes(p, NextId(c), |qs|, got, OnFrames(t, p, fs));
    if got.Received? {
      NumberedSame(NextId(c), got.headers, hs);
      assert (p.headers + Numbered(NextId(c), got.headers))[|p.headers|..] == Numbered(NextId(c), got.headers);
    }
  }

  /** One header after the other, each on the stream after next. */
  predicate DeliveredAs(came: seq<(u32, H.Header)>, id: u32, hs: seq<H.Header>) {
    |came| == |hs| && forall i :: 0 <= i < |hs| ==> came[i].0 == id + 2 * i && R.SameHeader(came[i].1, hs[i])
  }

  lemma NumberedSame(id: u32, got: seq<H.Header>, hs: seq<H.Header>)
    requires |got| == |hs| && (hs != [] ==> id + 2 * |hs| <= TWO_32 + 1)
    requires forall i :: 0 <= i < |hs| ==> R.SameHeader(got[i], hs[i])
    ensures DeliveredAs(Numbered(id, got), id, hs)
  {
    hide R.SameHeader, Numbered;
    forall i | 0 <= i < |hs| ensures Numbered(id, got)[i] == (id + 2 * i, got[i]) {
      NumberedAt(id, got, i);
    }
  }

  lemma Concludes(p: Server, id: u32, n: nat, got: R.Received, turn: Turn)
    requires Agrees(p, id, n, got, turn) && (got.Received? ==> |got.headers| == n)
    ensures got.Received? <==> turn.Goes? && |turn.server.headers| == |p.headers| + n
    ensures got.Received? ==> turn.server.table == got.table && turn.server.headers == p.headers + Numbered(id, got.headers)
  {
    hide Numbered;
  }
}
