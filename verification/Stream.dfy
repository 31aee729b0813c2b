/** The stream and connection objects of src/http2/co_http2_stream.c and co_http2_client.c, with the
    fields those functions update in place, against the values of StreamModel. */
module Stream {
  import opened Machine
  import opened Frame
  import F = FlowControl
  import opened StreamModel
  import S = StreamStates

  /** Sending succeeds: what is sent is appended to `wire`. `maxFrameSize` is the peer's. */
  class Client {
    var systemStream: Stream?
    var maxFrameSize: u32
    var wire: seq<Frame>
    var events: seq<Event>

    constructor (maxFrameSize: u32, localInitial: u32, remoteInitial: u32)
      ensures systemStream != null && fresh(systemStream) && systemStream.Valid() && systemStream.id == 0
      ensures systemStream.client == this && systemStream.state == S.Idle && wire == [] && events == []
      ensures systemStream.View().systemWindow == F.Window(localInitial, localInitial)
      ensures systemStream.remoteWindow == remoteInitial && this.maxFrameSize == maxFrameSize
    {
      this.maxFrameSize, wire, events := maxFrameSize, [], [];
      systemStream := null;
      new;
      systemStream := new Stream(0, this, false, localInitial, remoteInitial);
    }

    /** The body of the receive loop for one frame of one stream. */
    method OnFrame(stream: Stream, f: Frame, a: Answers) returns (ghost h: Heard)
      requires stream.client == this && stream.Valid() && stream.id != 0
      modifies this, stream, systemStream
      ensures stream.Valid() && systemStream == old(systemStream)
      ensures h == Arrive(old(stream.View()), f, a) && (h.Heard? ==> stream.View() == h.end)
    {
      hide Hear, TakeSystem;
      if stream.state == S.Closed {
        return Heard(stream.View(), true);
      }
      var ok, crashed := stream.OnReceiveFrame(f, a);
      if crashed {
        return Crashed;
      }
      ghost var e1 := stream.View();
      if ok && f.payload.Data? {
        systemStream.UpdateLocalWindow(f.length);
        SystemTakes(e1, stream.View(), f.length);
      }
      h := Heard(stream.View(), ok);
    }

    /** WINDOW_UPDATE for the connection, as every one of its streams sees it. Past the largest window the
        connection is closed. */
    method OnSystemWindowUpdate(stream: Stream, increment: u32) returns (closed: bool)
      requires stream.client == this && stream.Valid() && stream.id != 0
      modifies systemStream`remoteWindow
      ensures stream.Valid() && stream.View() == HearSystem(old(stream.View()), increment)
      ensures closed <==> Wrap32(old(stream.View()).systemRemote + increment) > F.MAX
    {
      closed := Wrap32(systemStream.remoteWindow + increment) > F.MAX;
      if !closed {
        systemStream.remoteWindow := Wrap32(systemStream.remoteWindow + increment);
      }
    }

    lemma SystemTakes(e: End, e1: End, n: u32)
      requires e1 == e.(systemWindow := F.Take(e.systemWindow, n).window,
                        wire := e.wire + Updates(S.Idle, F.Take(e.systemWindow, n), 0))
      ensures e1 == TakeSystem(e, n)
    {
    }
  }

  /** The WINDOW_UPDATE that goes out when a window has been refilled, if the state lets it. */
  function Updates(state: S.State, t: F.Taken, id: u32): seq<Frame> {
    if t.increment.Some? && S.Accepts(state, true, S.Signal(S.WindowUpdate, false))
    then [Build(NewWindowUpdate(t.increment.value), id)] else []
  }

  class Stream {
    const id: u32
    const client: Client
    const streaming: bool
    var state: S.State
    var maxLocalWindow: u32
    var localWindow: u32
    var remoteWindow: u32
    var sendHeader: bool
    var receiveHeader: bool
    var pool: Option<seq<byte>>
    var poolType: byte
    var promised: u32
    var dataPool: seq<byte>

    ghost predicate Valid()
      reads this, client, client.systemStream
    {
      && client.systemStream != null
      && client.systemStream.id == 0 && client.systemStream.client == client && client.systemStream.state == S.Idle
    }

    ghost function View(): End
      reads this, client, client.systemStream
      requires Valid()
    {
      var system := client.systemStream;
      End(id, streaming, state, F.Window(localWindow, maxLocalWindow), remoteWindow,
          F.Window(system.localWindow, system.maxLocalWindow), system.remoteWindow,
          sendHeader, receiveHeader, pool, poolType, promised, dataPool, client.wire, client.events)
    }

    constructor (id: u32, client: Client, streaming: bool, localInitial: u32, remoteInitial: u32)
      ensures this.id == id && this.client == client && this.streaming == streaming && state == S.Idle
      ensures localWindow == maxLocalWindow == localInitial && remoteWindow == remoteInitial
      ensures !sendHeader && !receiveHeader && pool == None && poolType == 0 && promised == 0 && dataPool == []
    {
      this.id, this.client, this.streaming := id, client, streaming;
      state, localWindow, maxLocalWindow, remoteWindow := S.Idle, localInitial, localInitial, remoteInitial;
      sendHeader, receiveHeader, pool, poolType, promised, dataPool := false, false, None, 0, 0, [];
    }

    method ChangeState(send: bool, signal: S.Signal) returns (code: S.Code)
      modifies this`state
      ensures S.Change(state, code) == S.Transition(old(state), send, signal)
    {
      code := S.NoError;
      var kind := signal.kind;
      if kind.GoAway? {
        state := S.Closed;
        return;
      }
      match state {
        case Idle =>
          if kind.Headers? {
            state := S.Open;
          } else if !send && !kind.Priority? {
            code := S.ProtocolError;
          }
        case Open =>
          if kind.RstStream? {
            state := S.Closed;
          } else if signal.endStream {
            state := if send then S.LocalClosed else S.RemoteClosed;
          }
        case ReservedLocal => code := ChangeReserved(send, kind, S.RemoteClosed);
        case ReservedRemote => code := ChangeReserved(!send, kind, S.LocalClosed);
        case RemoteClosed => code := ChangeHalfClosed(!send, signal);
        case LocalClosed => code := ChangeHalfClosed(send, signal);
        case Closed =>
          if send || !kind.Priority? {
            code := S.ProtocolError;
          }
        case Protocol =>
          if kind.RstStream? {
            state := S.Closed;
          }
      }
    }

    /** A reserved stream: only one side may open it, with HEADERS. */
    method ChangeReserved(opens: bool, kind: S.Kind, next: S.State) returns (code: S.Code)
      modifies this`state
      ensures state == if opens && kind.Headers? then next else if kind.RstStream? then S.Closed else old(state)
      ensures code == if kind.RstStream? || (if opens then kind.Headers? else kind.WindowUpdate? || kind.Priority?)
                      then S.NoError else S.ProtocolError
    {
      code := S.NoError;
      if opens && kind.Headers? {
        state := next;
      } else if kind.RstStream? {
        state := S.Closed;
      } else if opens || (!kind.WindowUpdate? && !kind.Priority?) {
        code := S.ProtocolError;
      }
    }

    /** A half-closed stream: on the closed side, little is let through; on the other, END_STREAM closes it. */
    method ChangeHalfClosed(closedSide: bool, signal: S.Signal) returns (code: S.Code)
      modifies this`state
      ensures state == if signal.kind.RstStream? || (!closedSide && signal.endStream) then S.Closed else old(state)
      ensures code == if !closedSide || signal.kind.RstStream? || signal.kind.WindowUpdate? || signal.kind.Priority?
                      then S.NoError else S.StreamClosedError
    {
      code := S.NoError;
      if signal.kind.RstStream? || (!closedSide && signal.endStream) {
        state := S.Closed;
      } else if closedSide && !signal.kind.WindowUpdate? && !signal.kind.Priority? {
        code := S.StreamClosedError;
      }
    }

    method UpdateRemoteWindow(consumed: u32)
      modifies this`remoteWindow
      ensures remoteWindow == F.Reduce(old(remoteWindow), consumed)
    {
      if remoteWindow > consumed {
        remoteWindow := remoteWindow - consumed;
      } else {
        remoteWindow := 0;
      }
    }

    method SendFrame(c: TypedCall) returns (ok: bool)
      requires Valid() && id != 0
      modifies this, client, client.systemStream
      ensures Valid() && client.systemStream == old(client.systemStream)
      ensures View() == Send(old(View()), c) && ok == CanSend(old(View()), c)
      ensures client.maxFrameSize == old(client.maxFrameSize)
    {
      hide Size, FlagsOf, PayloadOf, Has, S.Transition;
      var f := Build(c, id);
      var code := ChangeState(true, SignalOf(f));
      if code != S.NoError {
        return false;
      }
      client.wire := client.wire + [f];
      if c.NewData? {
        client.systemStream.UpdateRemoteWindow(f.length);
        UpdateRemoteWindow(f.length);
      }
      ok := true;
    }

    /** The same for a WINDOW_UPDATE, on a stream or on the connection. */
    method SendWindowUpdateFrame(increment: u32) returns (ok: bool)
      modifies this`state, client`wire
      ensures state == old(state)
      ensures ok == S.Accepts(state, true, S.Signal(S.WindowUpdate, false))
      ensures client.wire == old(client.wire) + (if ok then [Build(NewWindowUpdate(increment), id)] else [])
    {
      var f := Build(NewWindowUpdate(increment), id);
      var code := ChangeState(true, SignalOf(f));
      ok := code == S.NoError;
      if ok {
        client.wire := client.wire + [f];
      }
    }

    method UpdateLocalWindow(consumed: u32)
      modifies this`state, this`localWindow, this`maxLocalWindow, client`wire
      ensures var t := F.Take(old(F.Window(localWindow, maxLocalWindow)), consumed);
              F.Window(localWindow, maxLocalWindow) == t.window && state == old(state)
              && client.wire == old(client.wire) + Updates(state, t, id)
    {
      hide S.Accepts;
      if localWindow > consumed {
        localWindow := localWindow - consumed;
      } else {
        localWindow := 0;
      }
      if maxLocalWindow as real * 0.2 >= localWindow as real {
        if Wrap32(maxLocalWindow * 2) < F.MAX {
          maxLocalWindow := Wrap32(maxLocalWindow * 2);
        } else {
          maxLocalWindow := F.MAX;
        }
        var _ := SendWindowUpdateFrame(Wrap32(maxLocalWindow - localWindow));
        localWindow := maxLocalWindow;
      }
    }

    /** An update asked for by the application. */
    method SendWindowUpdate(increment: u32) returns (ok: bool)
      modifies this`state, this`localWindow, this`maxLocalWindow, client`wire
      ensures var t := F.Grant(old(F.Window(localWindow, maxLocalWindow)), increment);
              F.Window(localWindow, maxLocalWindow) == t.window && state == old(state)
              && ok == S.Accepts(state, true, S.Signal(S.WindowUpdate, false))
              && client.wire == old(client.wire) + Updates(state, t, id)
    {
      hide S.Accepts;
      var inc: u32 := increment;
      if Wrap32(localWindow + inc) > F.MAX {
        inc := Wrap32(F.MAX - localWindow);
      }
      localWindow := Wrap32(localWindow + inc);
      if localWindow > maxLocalWindow {
        maxLocalWindow := localWindow;
      }
      ok := SendWindowUpdateFrame(inc);
    }

    /** The same on a stream of a client, seen as a whole. */
    method ExtendWindow(increment: u32) returns (ok: bool)
      requires Valid() && id != 0
      modifies this`state, this`localWindow, this`maxLocalWindow, client`wire
      ensures SameClient(old(client.systemStream), old(client.maxFrameSize))
      ensures View() == StreamModel.Extend(old(View()), increment)
      ensures ok == S.Accepts(state, true, S.Signal(S.WindowUpdate, false))
    {
      hide S.Accepts;
      ok := SendWindowUpdate(increment);
    }

    /** Both windows allow that much; the connection's own stream carries no data. */
    ghost predicate Allows(n: nat)
      requires Valid()
      reads this, client, client.systemStream
    {
      n == 0 || (id != 0 && n <= client.systemStream.remoteWindow && n <= remoteWindow)
    }

    /** The most that both windows allow. */
    method Sendable() returns (size: u32)
      requires Valid()
      ensures Allows(size) && forall n: nat :: Allows(n) ==> n <= size
    {
      if id == 0 {
        return 0;
      }
      size := Min(client.systemStream.remoteWindow, remoteWindow);
    }

    // ---- receiving ----

    ghost predicate SameClient(before: Stream?, max: u32)
      reads this, client, client.systemStream
    {
      Valid() && client.systemStream == before && client.maxFrameSize == max
    }

    method Tell(event: Event)
      requires Valid()
      modifies client`events
      ensures Valid() && View() == StreamModel.Tell(old(View()), event)
    {
      client.events := client.events + [event];
    }

    method Finish(body: seq<byte>, error: int)
      requires Valid()
      modifies this`receiveHeader, client`events
      ensures Valid() && View() == StreamModel.Finish(old(View()), body, error)
    {
      client.events := client.events + [Finished(body, error)];
      receiveHeader := false;
    }

    method SendReset(code: u32)
      requires Valid() && id != 0
      modifies this, client, client.systemStream
      ensures SameClient(old(client.systemStream), old(client.maxFrameSize))
      ensures View() == Reset(old(View()), code)
    {
      hide Send;
      var _ := SendFrame(NewRstStream(code));
    }

    method TakeFromWindow(n: u32)
      requires Valid() && id != 0
      modifies this`state, this`localWindow, this`maxLocalWindow, client`wire
      ensures SameClient(old(client.systemStream), old(client.maxFrameSize))
      ensures View() == TakeStream(old(View()), n)
    {
      hide F.Take;
      UpdateLocalWindow(n);
    }

    method OnData(f: Frame, a: Answers) returns (ok: bool)
      requires Valid() && id != 0 && f.payload.Data?
      modifies this, client, client.systemStream
      ensures SameClient(old(client.systemStream), old(client.maxFrameSize))
      ensures Heard(View(), ok) == HearData(old(View()), f, a)
    {
      hide TakeStream, Reset, Has;
      var windowSize := Min(localWindow, client.systemStream.localWindow);
      if f.length > windowSize {
        SendReset(FRAME_SIZE_ERROR);
        return false;
      }
      TakeFromWindow(f.length);
      var data := f.payload.data;
      if streaming {
        if data != [] {
          Tell(DataCame(data));
          if !a.data {
            SendReset(CANCEL);
            Finish([], LOCAL_CANCEL);
            return false;
          }
        }
        if Has(f.flags, END_STREAM) {
          Finish([], 0);
        }
      } else if Has(f.flags, END_STREAM) {
        if dataPool == [] {
          assert dataPool + data == data;
          Finish(data, 0);
        } else {
          dataPool := dataPool + data;
          Finish(dataPool, 0);
          dataPool := [];
        }
      } else {
        dataPool := dataPool + data;
      }
      ok := true;
    }

    method OnHeaders(f: Frame, a: Answers) returns (ok: bool)
      requires Valid() && id != 0 && f.payload.Headers?
      modifies this, client, client.systemStream
      ensures SameClient(old(client.systemStream), old(client.maxFrameSize))
      ensures Heard(View(), ok) == HearHeaders(old(View()), f, a)
    {
      hide Reset, Has;
      if receiveHeader {
        return true;
      }
      receiveHeader := true;
      var block := f.payload.block;
      if Has(f.flags, END_HEADERS) {
        Tell(Block(block));
        if !a.decodes {
          SendReset(COMPRESSION_ERROR);
          return false;
        }
        if pool.Some? {
          pool := Some([]);
        }
        if state == S.RemoteClosed || Has(f.flags, END_STREAM) {
          Finish([], 0);
        } else {
          Tell(Started);
          if !a.start {
            SendReset(CANCEL);
            Finish([], LOCAL_CANCEL);
            return false;
          }
        }
      } else {
        AddToPool(block, 1);
      }
      ok := true;
    }

    method AddToPool(block: seq<byte>, kind: byte)
      modifies this`pool, this`poolType
      ensures pool == Some((if old(pool).Some? then old(pool).value else []) + block) && poolType == kind
    {
      if pool.None? {
        pool := Some([]);
      }
      poolType := kind;
      pool := Some(pool.value + block);
    }

    method OnPushPromise(f: Frame, a: Answers) returns (ok: bool)
      requires Valid() && id != 0 && f.payload.PushPromise?
      modifies this, client, client.systemStream
      ensures SameClient(old(client.systemStream), old(client.maxFrameSize))
      ensures Heard(View(), ok) == HearPushPromise(old(View()), f, a)
    {
      hide Reset, Has;
      if !a.unused {
        return false;
      }
      promised := f.payload.promised;
      var block := f.payload.block;
      if Has(f.flags, END_HEADERS) {
        Tell(Block(block));
        if !a.decodes {
          SendReset(COMPRESSION_ERROR);
          return false;
        }
        Tell(Promised(promised));
        return a.promise;
      }
      AddToPool(block, 5);
      ok := true;
    }

    /** `crashed`: the program appends to a pool that is not there, or reads it. */
    method OnContinuation(f: Frame, a: Answers) returns (ok: bool, crashed: bool)
      requires Valid() && id != 0 && f.payload.Continuation?
      modifies this, client, client.systemStream
      ensures SameClient(old(client.systemStream), old(client.maxFrameSize))
      ensures HearContinuation(old(View()), f, a) == if crashed then Crashed else Heard(View(), ok)
    {
      hide Reset, Has;
      ok, crashed := true, false;
      if !receiveHeader {
        return;
      }
      var block := f.payload.block;
      if block != [] {
        if pool.None? {
          return false, true;
        }
        pool := Some(pool.value + block);
      } else if pool.Some? {
        assert pool.value + block == pool.value;
      }
      if Has(f.flags, END_HEADERS) {
        if pool.None? {
          return false, true;
        }
        Tell(Block(pool.value));
        if !a.decodes {
          SendReset(COMPRESSION_ERROR);
          return false, false;
        }
        if poolType == 5 {
          Tell(Promised(promised));
          if !a.promise {
            return false, false;
          }
          promised := 0;
        } else if state == S.RemoteClosed {
          Finish([], 0);
        }
        poolType := 0;
        pool := Some([]);
      }
    }

    method OnReceiveFrame(f: Frame, a: Answers) returns (ok: bool, crashed: bool)
      requires Valid() && id != 0
      modifies this, client, client.systemStream
      ensures SameClient(old(client.systemStream), old(client.maxFrameSize))
      ensures Hear(old(View()), f, a) == if crashed then Crashed else Heard(View(), ok)
    {
      hide HearAccepted, Reset, S.Transition, SignalOf;
      var code := ChangeState(false, SignalOf(f));
      if code != S.NoError {
        SendReset(if code == S.ProtocolError then PROTOCOL_ERROR else STREAM_CLOSED);
        return false, false;
      }
      ok, crashed := OnAccepted(f, a);
    }

    method OnAccepted(f: Frame, a: Answers) returns (ok: bool, crashed: bool)
      requires Valid() && id != 0
      modifies this, client, client.systemStream
      ensures SameClient(old(client.systemStream), old(client.maxFrameSize))
      ensures HearAccepted(old(View()), f, a) == if crashed then Crashed else Heard(View(), ok)
    {
      hide HearData, HearHeaders, HearContinuation, HearPushPromise, Reset;
      crashed := false;
      match f.payload {
        case Data(_, _, _) => ok := OnData(f, a);
        case Headers(_, _, _, _, _) => ok := OnHeaders(f, a);
        case Continuation(_) => ok, crashed := OnContinuation(f, a);
        case PushPromise(_, _, _, _) => ok := OnPushPromise(f, a);
        case Priority(dependency, weight) =>
          Tell(Prioritised(dependency, weight));
          ok := true;
        case RstStream(errorCode) =>
          OnReset(errorCode);
          ok := true;
        case WindowUpdate(increment) => ok := OnWindowUpdate(increment);
        case _ =>
          SendReset(PROTOCOL_ERROR);
          ok := false;
      }
    }

    method OnReset(errorCode: u32)
      requires Valid()
      modifies this`receiveHeader, client`events
      ensures Valid()
      ensures var e := StreamModel.Tell(old(View()), ResetByPeer(errorCode));
              View() == if errorCode != CANCEL && errorCode != REFUSED_STREAM
                        then StreamModel.Finish(e, [], LOCAL_STREAM_CLOSED - errorCode) else e
    {
      Tell(ResetByPeer(errorCode));
      if errorCode != CANCEL && errorCode != REFUSED_STREAM {
        Finish([], LOCAL_STREAM_CLOSED - errorCode);
      }
    }

    method OnWindowUpdate(increment: u32) returns (ok: bool)
      requires Valid() && id != 0
      modifies this, client, client.systemStream
      ensures SameClient(old(client.systemStream), old(client.maxFrameSize))
      ensures var e := old(View()); var sum := Wrap32(e.remote + increment);
              if sum > F.MAX then !ok && View() == Reset(e, FLOW_CONTROL_ERROR)
              else ok && View() == StreamModel.Tell(e.(remote := sum), WindowGrew)
    {
      if Wrap32(remoteWindow + increment) > F.MAX {
        SendReset(FLOW_CONTROL_ERROR);
        return false;
      }
      remoteWindow := Wrap32(remoteWindow + increment);
      Tell(WindowGrew);
      ok := true;
    }

    // ---- sending ----

    /** Sends a header block, already compressed; a stream sends one header only. `ends` is false if the call
        never returns: with a peer frame size of 0 the loop sends empty CONTINUATION frames for ever, unless
        the state machine refuses the first. */
    method SendHeader(endStream: bool, block: Piece, order: Order) returns (ok: bool, ends: bool)
      requires Valid()
      modifies this, client, client.systemStream
      ensures SameClient(old(client.systemStream), old(client.maxFrameSize))
      ensures var e := old(View()).(sendHeader := true);
              if id == 0 || old(sendHeader) then ends && !ok && View() == old(View())
              else if client.maxFrameSize > 0 || block == [] then
                var calls := HeaderCalls(Cuts(block, client.maxFrameSize), endStream, order);
                ends && View() == SendAll(e, calls) && ok == AllSent(e, calls)
              else
                var c: TypedCall := NewHeaders(endStream, false, [], order.dependency, order.weight, []);
                && (ends <==> !CanSend(e, c) || !CanSend(Send(e, c), NewContinuation(false, [])))
                && (ends ==> !ok && View() == Send(e, c))
    {
      ok, ends := false, true;
      if id == 0 || sendHeader {
        return;
      }
      sendHeader := true;
      ghost var e := View();
      var max := client.maxFrameSize;
      hide CanSend, Send, SendAll, AllSent, ContinuationCalls;
      if |block| > max {
        var c: TypedCall := NewHeaders(endStream, false, block[..max], order.dependency, order.weight, []);
        if max > 0 {
          HeaderCut(block, max, endStream, order);
          SendsOn(e, c, ContinuationCalls(Cuts(block[max..], max)));
        }
        hide Cuts, HeaderCalls;
        SendsOn(e, c, []);
        ok := SendFrame(c);
        if ok {
          ok, ends := SendContinuations(block, max);
        }
      } else {
        var c: TypedCall := NewHeaders(endStream, true, block, order.dependency, order.weight, []);
        ok := SendFrame(c);
        SendsOn(e, c, []);
        assert HeaderCalls(Cuts(block, max), endStream, order) == [c] + [];
      }
    }

    /** The rest of a header block from `start` on. */
    method SendContinuations(block: Piece, start: nat) returns (ok: bool, ends: bool)
      requires Valid() && id != 0 && start < |block|
      modifies this, client, client.systemStream
      ensures SameClient(old(client.systemStream), old(client.maxFrameSize))
      ensures var e := old(View());
              if client.maxFrameSize > 0 then
                var calls := ContinuationCalls(Cuts(block[start..], client.maxFrameSize));
                ends && View() == SendAll(e, calls) && ok == AllSent(e, calls)
              else
                (ends <==> !CanSend(e, NewContinuation(false, []))) && (ends ==> !ok && View() == e)
    {
      hide CanSend, Send, SendAll, AllSent, Cuts, ContinuationCalls;
      var max := client.maxFrameSize;
      if max == 0 {
        // The first turn decides: it changes neither the position nor the state (EmptyContinuations).
        SendsOn(View(), NewContinuation(false, []), []);
        ok := SendFrame(NewContinuation(false, []));
        return ok, !ok;
      }
      var index := start;
      ghost var goal := Goal(View(), Left(block, index, max));
      ok, ends := true, true;
      while |block| > index
        invariant start <= index <= |block|
        invariant SameClient(old(client.systemStream), max) && ok
        invariant Goal(View(), Left(block, index, max)) == goal
        decreases |block| - index
      {
        var dataSize: nat := max;
        var endHeaders := false;
        if |block| - index <= max {
          dataSize := |block| - index;
          endHeaders := true;
        }
        var c: TypedCall := NewContinuation(endHeaders, block[index..index + dataSize]);
        LeftNext(block, index, max);
        GoalNext(View(), c, Left(block, index + dataSize, max));
        ok := SendFrame(c);
        if !ok {
          return;
        }
        index := index + dataSize;
      }
      NothingToSend(View());
    }

    /** Sends data, whatever becomes of the single frames. With more data than the windows allow, it
        sends what `Total` says. `ends` is false if the call never returns: with a peer frame size of 0 the
        loop of SendPieces takes any number of turns (CuttingEndsExactly, EmptyDataForever). */
    method SendData(endStream: bool, data: seq<byte>) returns (sent: int, ends: bool)
      requires Valid() && |data| < TWO_32
      modifies this, client, client.systemStream
      ensures SameClient(old(client.systemStream), old(client.maxFrameSize))
      ensures ends <==> id == 0 || |data| > F.MAX || client.maxFrameSize > 0 || data == []
      ensures if id == 0 || |data| > F.MAX then sent == -1 && View() == old(View())
              else
                var total := Total(|data|, old(Min(client.systemStream.remoteWindow, remoteWindow)));
                ends ==> sent == total && View() == SendEach(old(View()), DataCalls(Cuts(data[..total], client.maxFrameSize), endStream))
    {
      ends := true;
      if id == 0 || |data| > F.MAX {
        return -1, ends;
      }
      hide CanSend, Send, DataCalls, Cuts, SendEach;
      var windowSize: nat := Sendable();
      assert Allows(Min(client.systemStream.remoteWindow, remoteWindow));
      var totalSize: nat := |data|;
      if totalSize > windowSize {
        totalSize := totalSize - windowSize;
      }
      if totalSize > client.maxFrameSize == 0 {
        return 0, false;
      }
      SendCut(data[..totalSize], endStream);
      sent := totalSize;
    }

    method SendCut(data: Piece, endStream: bool)
      requires Valid() && id != 0 && (client.maxFrameSize > 0 || data == [])
      modifies this, client, client.systemStream
      ensures SameClient(old(client.systemStream), old(client.maxFrameSize))
      ensures View() == SendEach(old(View()), DataCalls(Cuts(data, client.maxFrameSize), endStream))
    {
      hide CanSend, Send, DataCalls, Cuts, SendEach;
      var max: nat := client.maxFrameSize;
      if |data| > max {
        var c: TypedCall := NewData(false, data[..max], []);
        assert data[0..max] == data[..max];
        DataLeftNext(data, 0, max, endStream);
        DataLeftIs(data, max, endStream);
        EachNext(View(), c, DataLeft(data, max, max, endStream));
        var _ := SendFrame(c);
        TurnsAreLeft(data, max, max, endStream, |data|);
        var _ := SendPieces(data, max, endStream, |data|);
      } else {
        OneCall(data, max, endStream);
        EachNext(View(), NewData(endStream, data, []), []);
        var _ := SendFrame(NewData(endStream, data, []));
        NothingEach(View());
      }
    }

    /** The loop that sends the rest of the data, from `start` on, for at most so many turns. */
    method SendPieces(data: Piece, start: nat, endStream: bool, rounds: nat) returns (index: nat)
      requires Valid() && id != 0 && start <= |data|
      modifies this, client, client.systemStream
      ensures SameClient(old(client.systemStream), old(client.maxFrameSize))
      ensures var t := Turns(data, start, client.maxFrameSize, endStream, rounds);
              index == t.at && View() == SendEach(old(View()), t.calls)
    {
      hide CanSend, Send, SendEach, Turns;
      var max: nat := client.maxFrameSize;
      index := start;
      var left := rounds;
      ghost var end := Turns(data, start, max, endStream, rounds).at;
      ghost var goal := SendEach(View(), Turns(data, start, max, endStream, rounds).calls);
      while |data| > index && left > 0
        invariant start <= index <= |data| && SameClient(old(client.systemStream), max)
        invariant Turns(data, index, max, endStream, left).at == end
        invariant SendEach(View(), Turns(data, index, max, endStream, left).calls) == goal
        decreases left
      {
        var last := false;
        var frameSize: nat := max;
        if |data| - index <= max {
          frameSize := |data| - index;
          last := endStream;
        }
        var c: TypedCall := NewData(last, data[index..index + frameSize], []);
        TurnsOn(data, index, max, endStream, left);
        EachNext(View(), c, Turns(data, index + frameSize, max, endStream, left - 1).calls);
        var _ := SendFrame(c);
        index := index + frameSize;
        left := left - 1;
      }
      NoTurnLeft(View(), data, index, max, endStream, left);
    }
  }

  lemma NothingEach(e: End)
    ensures SendEach(e, []) == e
  {
  }

  /** What the sending loop does in some turns: the calls it makes, and the position it comes to. */
  datatype Turned = Turned(calls: seq<TypedCall>, at: nat)

  function Turns(data: Piece, start: nat, max: nat, endStream: bool, rounds: nat): (t: Turned)
    requires start <= |data|
    ensures start <= t.at <= |data|
    decreases rounds
  {
    if start == |data| || rounds == 0 then Turned([], start)
    else
      var size := Min(max, |data| - start);
      var t := Turns(data, start + size, max, endStream, rounds - 1);
      Turned([NewData(endStream && |data| - start <= max, data[start..start + size], [])] + t.calls, t.at)
  }

  lemma TurnsOn(data: Piece, start: nat, max: nat, endStream: bool, rounds: nat)
    requires start < |data| && rounds > 0
    ensures var size := Min(max, |data| - start); var t := Turns(data, start + size, max, endStream, rounds - 1);
            Turns(data, start, max, endStream, rounds)
            == Turned([NewData(endStream && |data| - start <= max, data[start..start + size], [])] + t.calls, t.at)
  {
  }

  lemma NoTurnLeft(e: End, data: Piece, start: nat, max: nat, endStream: bool, rounds: nat)
    requires start == |data| || (start < |data| && rounds == 0)
    ensures var t := Turns(data, start, max, endStream, rounds); t.at == start && SendEach(e, t.calls) == e
  {
  }

  /** With turns enough, a frame size other than 0 brings the loop to the end of the data. */
  lemma {:induction false} TurnsAreLeft(data: Piece, start: nat, max: nat, endStream: bool, rounds: nat)
    requires 0 < max && start <= |data| <= start + rounds
    ensures Turns(data, start, max, endStream, rounds) == Turned(DataLeft(data, start, max, endStream), |data|)
    decreases rounds
  {
    hide DataLeft;
    if start < |data| {
      DataLeftNext(data, start, max, endStream);
      TurnsAreLeft(data, start + Min(max, |data| - start), max, endStream, rounds - 1);
    } else {
      NothingLeft(data, max, endStream);
    }
  }

  lemma NothingLeft(data: Piece, max: nat, endStream: bool)
    requires 0 < max
    ensures DataLeft(data, |data|, max, endStream) == []
  {
  }

  lemma HeaderCut(block: Piece, max: nat, endStream: bool, order: Order)
    requires 0 < max < |block|
    ensures HeaderCalls(Cuts(block, max), endStream, order)
            == [NewHeaders(endStream, false, block[..max], order.dependency, order.weight, [])]
               + ContinuationCalls(Cuts(block[max..], max))
  {
    hide ContinuationCalls;
    assert Cuts(block, max)[1..] == Cuts(block[max..], max);
  }

  /** The sending loop comes to the end of the data if and only if the peer's frame size is not 0, or there is
      nothing to send; and then its calls are those of the cut data. */
  lemma CuttingEndsExactly(data: Piece, max: nat, endStream: bool)
    ensures (exists rounds: nat :: Turns(data, 0, max, endStream, rounds).at == |data|) <==> max > 0 || data == []
    ensures max > 0 && data != [] ==>
              Turns(data, 0, max, endStream, |data|) == Turned(DataCalls(Cuts(data, max), endStream), |data|)
  {
    hide Turns, Cuts, DataCalls;
    if max > 0 {
      TurnsAreLeft(data, 0, max, endStream, |data|);
      if data != [] { DataLeftIs(data, max, endStream); }
    } else {
      forall rounds: nat ensures Turns(data, 0, 0, endStream, rounds).at == 0 { EmptyTurns(data, endStream, rounds); }
      if data == [] { assert Turns(data, 0, max, endStream, 0).at == |data|; }
    }
  }

  lemma {:induction false} EmptyTurns(data: Piece, endStream: bool, rounds: nat)
    ensures var t := Turns(data, 0, 0, endStream, rounds);
            t.at == 0 && (data != [] ==> t.calls == seq(rounds, _ => NewData(false, [], [])))
    decreases rounds
  {
    if data != [] && rounds > 0 {
      var c: TypedCall := NewData(false, [], []);
      EmptyTurns(data, endStream, rounds - 1);
      assert data[0..0] == [];
      assert seq(rounds, _ => c) == [c] + seq(rounds - 1, _ => c);
    }
  }

  /** With a peer frame size of 0, every turn of the sending loop sends an empty DATA frame and stays where it
      is: if the state machine lets one out, it lets out any number. */
  lemma {:induction false} EmptyDataForever(e: End, data: Piece, endStream: bool, rounds: nat)
    requires data != [] && CanSend(e, NewData(false, [], []))
    ensures var t := Turns(data, 0, 0, endStream, rounds);
            t.at == 0 && |t.calls| == rounds && AllSent(e, t.calls) && |SendEach(e, t.calls).wire| == |e.wire| + rounds
    decreases rounds
  {
    hide CanSend, Send, Turns;
    var c: TypedCall := NewData(false, [], []);
    EmptyTurns(data, endStream, rounds);
    if rounds > 0 {
      EmptyDataSent(e);
      EmptyTurns(data, endStream, rounds - 1);
      EmptyDataForever(Send(e, c), data, endStream, rounds - 1);
      var rest := Turns(data, 0, 0, endStream, rounds - 1).calls;
      assert seq(rounds, _ => c) == [c] + seq(rounds - 1, _ => c);
      SendsOn(e, c, rest);
      EachNext(e, c, rest);
    }
  }

  lemma EmptyDataSent(e: End)
    requires CanSend(e, NewData(false, [], []))
    ensures var e' := Send(e, NewData(false, [], [])); CanSend(e', NewData(false, [], [])) && |e'.wire| == |e.wire| + 1
  {
    hide Has;
    FlagsSurvive(false, false, false, false);
    assert SignalOf(Build(NewData(false, [], []), e.id)) == S.Signal(S.Data, false);
  }

  /** With a frame size of 0, one empty CONTINUATION that is let through is followed by any number. */
  lemma {:induction false} EmptyContinuations(e: End, rounds: nat)
    requires CanSend(e, NewContinuation(false, []))
    ensures AllSent(e, seq(rounds, _ => NewContinuation(false, [])))
    decreases rounds
  {
    var c: TypedCall := NewContinuation(false, []);
    if rounds > 0 {
      EmptyContinuationSent(e);
      EmptyContinuations(Send(e, c), rounds - 1);
      assert seq(rounds, _ => c) == [c] + seq(rounds - 1, _ => c);
      SendsOn(e, c, seq(rounds - 1, _ => c));
    }
  }

  lemma EmptyContinuationSent(e: End)
    requires CanSend(e, NewContinuation(false, []))
    ensures CanSend(Send(e, NewContinuation(false, [])), NewContinuation(false, []))
  {
    hide Has;
    var c: TypedCall := NewContinuation(false, []);
    FlagsSurvive(false, false, false, false);
    assert SignalOf(Build(c, e.id)) == S.Signal(S.Continuation, false);
  }

  /** The calls for what is left of the data. */
  function DataLeft(data: Piece, index: nat, max: nat, endStream: bool): seq<TypedCall>
    requires 0 < max && index <= |data|
  {
    if index == |data| then [] else DataCalls(Cuts(data[index..], max), endStream)
  }

  lemma DataLeftNext(data: Piece, index: nat, max: nat, endStream: bool)
    requires 0 < max && index < |data|
    ensures var size := Min(max, |data| - index);
            DataLeft(data, index, max, endStream)
            == [NewData(endStream && |data| - index <= max, data[index..index + size], [])] + DataLeft(data, index + size, max, endStream)
  {
    var left := data[index..];
    if |left| > max {
      assert Cuts(left, max)[1..] == Cuts(left[max..], max);
      assert left[max..] == data[index + max..] && left[..max] == data[index..index + max];
    } else {
      assert left == data[index..index + |left|];
    }
  }

  lemma DataLeftIs(data: Piece, max: nat, endStream: bool)
    requires 0 < max && data != []
    ensures DataLeft(data, 0, max, endStream) == DataCalls(Cuts(data, max), endStream)
  {
    assert data[0..] == data;
  }

  lemma OneCall(data: Piece, max: nat, endStream: bool)
    requires |data| <= max
    ensures DataCalls(Cuts(data, max), endStream) == [NewData(endStream, data, [])] + []
  {
  }

  /** The end reached, and whether everything was sent. */
  ghost function Goal(e: End, calls: seq<TypedCall>): (End, bool) {
    (SendAll(e, calls), AllSent(e, calls))
  }

  lemma GoalNext(e: End, c: TypedCall, rest: seq<TypedCall>)
    ensures Goal(e, [c] + rest) == if CanSend(e, c) then Goal(Send(e, c), rest) else (Send(e, c), false)
  {
    hide Send, CanSend;
    SendsOn(e, c, rest);
  }

  lemma NothingToSend(e: End)
    ensures Goal(e, []) == (e, true)
  {
  }

  /** The calls for what is left of a block. */
  function Left(block: Piece, index: nat, max: nat): seq<TypedCall>
    requires 0 < max && index <= |block|
  {
    if index == |block| then [] else ContinuationCalls(Cuts(block[index..], max))
  }

  lemma LeftNext(block: Piece, index: nat, max: nat)
    requires 0 < max && index < |block|
    ensures var size := Min(max, |block| - index);
            Left(block, index, max)
            == [NewContinuation(|block| - index <= max, block[index..index + size])] + Left(block, index + size, max)
  {
    var left := block[index..];
    if |left| > max {
      assert Cuts(left, max)[1..] == Cuts(left[max..], max);
      assert left[max..] == block[index + max..] && left[..max] == block[index..index + max];
    } else {
      assert left == block[index..index + |left|];
    }
  }
}
