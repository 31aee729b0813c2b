/** Frames over a byte stream: the printer and the parser as they run over buffers
    (src/http2/co_http2_frame.c:33-533), and the receive loop of src/http2/co_http2_client.c:459-541,
    which must not depend on how the stream was cut into reads. */
module FrameStream {
  import opened Machine
  import opened Frame

  datatype Status = Waiting | Failed | Lost

  /** What one pass of the loop makes of the unread bytes: the frames found, what is left, and whether it
      waits for more, failed on a frame, or ran past the end of the buffer. */
  datatype Drained = Drained(frames: seq<Frame>, rest: seq<byte>, status: Status)

  function Drain(d: seq<byte>, maxFrameSize: u32): Drained
    decreases |d|
  {
    if d == [] then Drained([], [], Waiting)
    else
      match Parse(d, maxFrameSize)
      case Complete(f, size) =>
        var later := Drain(d[size..], maxFrameSize);
        later.(frames := [f] + later.frames)
      case MoreData => Drained([], d, Waiting)
      case Error => Drained([], d, Failed)
      case Undefined => Drained([], d, Lost)
  }

  // ---- more bytes do not change what was already decided ----

  lemma {:induction false} ParamsStable(d: seq<byte>, more: seq<byte>, count: nat)
    requires 6 * count <= |d|
    ensures ParseParams(d + more, count) == ParseParams(d, count)
    decreases count
  {
    if count > 0 {
      assert (d + more)[..2] == d[..2] && (d + more)[2..6] == d[2..6] && (d + more)[6..] == d[6..] + more;
      ParamsStable(d[6..], more, count - 1);
    }
  }

  lemma SliceStable(d: seq<byte>, more: seq<byte>, i: nat, j: nat)
    requires i <= j <= |d|
    ensures (d + more)[i..j] == d[i..j]
  {
  }

  lemma PadStable(flags: byte, length: u32, d: seq<byte>, more: seq<byte>)
    requires ParsePad(flags, length, d).Some?
    ensures ParsePad(flags, length, d + more) == ParsePad(flags, length, d)
  {
  }

  lemma DataStable(flags: byte, length: u32, d: seq<byte>, more: seq<byte>)
    requires ParseData(flags, length, d).Payload?
    ensures ParseData(flags, length, d + more) == ParseData(flags, length, d)
  {
    hide ParsePad, Wrap32;
    PadStable(flags, length, d, more);
    var pad := ParsePad(flags, length, d).value;
    SliceStable(d, more, pad.at, pad.at + pad.rest);
  }

  lemma HeadersStable(flags: byte, length: u32, d: seq<byte>, more: seq<byte>)
    requires ParseHeaders(flags, length, d).Payload?
    ensures ParseHeaders(flags, length, d + more) == ParseHeaders(flags, length, d)
  {
    hide ParsePad, Has, FromBe32, Wrap32;
    PadStable(flags, length, d, more);
    var pad := ParsePad(flags, length, d).value;
    var p := if Has(flags, PRIORITY) then 5 else 0;
    var m := Wrap32(pad.rest - p);
    SliceStable(d, more, pad.at + p, pad.at + p + m);
    if p == 5 {
      SliceStable(d, more, pad.at, pad.at + 4);
    }
  }

  lemma PushPromiseStable(flags: byte, length: u32, d: seq<byte>, more: seq<byte>)
    requires ParsePushPromise(flags, length, d).Payload?
    ensures ParsePushPromise(flags, length, d + more) == ParsePushPromise(flags, length, d)
  {
    hide ParsePad, FromBe32, Wrap32;
    PadStable(flags, length, d, more);
    var pad := ParsePad(flags, length, d).value;
    var m := Wrap32(pad.rest - 4);
    SliceStable(d, more, pad.at, pad.at + 4);
    SliceStable(d, more, pad.at + 4, pad.at + 4 + m);
  }

  lemma PayloadStable(kind: byte, flags: byte, length: u32, d: seq<byte>, more: seq<byte>)
    requires !ParsePayload(kind, flags, length, d).PastEnd?
    ensures ParsePayload(kind, flags, length, d + more) == ParsePayload(kind, flags, length, d)
  {
    hide ParseData, ParseHeaders, ParsePushPromise, FromBe32;
    if kind == 0 {
      DataStable(flags, length, d, more);
    } else if kind == 1 {
      HeadersStable(flags, length, d, more);
    } else if kind == 5 {
      PushPromiseStable(flags, length, d, more);
    } else if kind == 4 {
      ParamsStable(d, more, length / 6 % 0x1_0000);
    } else if kind == 7 {
      var n: nat := Wrap32(length - 8);
      SliceStable(d, more, 0, 4);
      SliceStable(d, more, 4, 8);
      SliceStable(d, more, 8, 8 + n);
    } else if kind == 9 {
      SliceStable(d, more, 0, length);
    } else if kind == 6 {
      SliceStable(d, more, 0, 8);
    } else if kind == 2 || kind == 3 || kind == 8 {
      SliceStable(d, more, 0, 4);
    }
  }

  /** A finished or failed parse never looks at bytes that have not come yet. */
  lemma ParseStable(d: seq<byte>, more: seq<byte>, maxFrameSize: u32)
    requires Parse(d, maxFrameSize).Complete? || Parse(d, maxFrameSize).Error?
    ensures Parse(d + more, maxFrameSize) == Parse(d, maxFrameSize)
  {
    hide ParsePayload, FromBe24, FromBe32;
    SliceStable(d, more, 0, 3);
    SliceStable(d, more, 5, 9);
    assert (d + more)[HEADER_SIZE..] == d[HEADER_SIZE..] + more;
    var length := FromBe24(d[..3]);
    if length <= maxFrameSize {
      PayloadStable(d[3], d[4], length, d[HEADER_SIZE..], more);
    }
  }

  lemma DrainGoesOn(d: seq<byte>, maxFrameSize: u32)
    requires Parse(d, maxFrameSize).Complete?
    ensures var p := Parse(d, maxFrameSize); var later := Drain(d[p.size..], maxFrameSize);
            Drain(d, maxFrameSize) == Drained([p.frame] + later.frames, later.rest, later.status)
  {
  }

  lemma DrainStops(d: seq<byte>, maxFrameSize: u32)
    requires !Parse(d, maxFrameSize).Complete?
    ensures var p := Parse(d, maxFrameSize);
            Drain(d, maxFrameSize) == Drained([], d, if p.MoreData? then Waiting else if p.Error? then Failed else Lost)
  {
  }

  lemma {:induction false} DrainTwice(a: seq<byte>, b: seq<byte>, maxFrameSize: u32)
    requires !Drain(a, maxFrameSize).status.Lost?
    ensures var first := Drain(a, maxFrameSize); var whole := Drain(a + b, maxFrameSize);
            if first.status.Waiting? then
              var second := Drain(first.rest + b, maxFrameSize);
              whole == Drained(first.frames + second.frames, second.rest, second.status)
            else whole.frames == first.frames && whole.status == Failed
    decreases |a|
  {
    hide Parse, Drain;
    if Parse(a, maxFrameSize).Complete? {
      ParseStable(a, b, maxFrameSize);
      var size := Parse(a, maxFrameSize).size;
      assert (a + b)[size..] == a[size..] + b;
      DrainGoesOn(a, maxFrameSize);
      DrainGoesOn(a + b, maxFrameSize);
      DrainTwice(a[size..], b, maxFrameSize);
    } else {
      DrainStops(a, maxFrameSize);
      if Parse(a, maxFrameSize).Error? {
        ParseStable(a, b, maxFrameSize);
        DrainStops(a + b, maxFrameSize);
      }
    }
  }

  lemma DrainNothing(maxFrameSize: u32)
    ensures Drain([], maxFrameSize) == Drained([], [], Waiting)
  {
  }

  // ---- when the parser stays inside the buffer, however the stream is cut ----

  /** Over the frames that draining reaches, each is looked at once its length is there, and `have` bytes are
      there already because of earlier frames: its extent must not go beyond them. */
  predicate Guarded(d: seq<byte>, maxFrameSize: u32, have: nat)
    requires have <= |d|
    decreases |d|
  {
    |d| >= HEADER_SIZE ==>
      var length := FromBe24(d[..3]);
      length <= maxFrameSize && HEADER_SIZE + length <= |d| && d[3] <= 9 ==>
        var there := Larger(have, HEADER_SIZE + length);
        var size := HEADER_SIZE + Extent(d[3], d[4], length, d[HEADER_SIZE..]);
        size <= there && Guarded(d[size..], maxFrameSize, there - size)
  }

  function Larger(a: nat, b: nat): nat {
    if a > b then a else b
  }

  /** Every frame that draining reaches has its padding and fixed fields inside its length. */
  predicate AllContained(d: seq<byte>, maxFrameSize: u32)
    decreases |d|
  {
    |d| >= HEADER_SIZE ==>
      var length := FromBe24(d[..3]);
      length <= maxFrameSize && HEADER_SIZE + length <= |d| && d[3] <= 9 ==>
        && Contained(d[3], d[4], length, d[HEADER_SIZE..])
        && HEADER_SIZE + Extent(d[3], d[4], length, d[HEADER_SIZE..]) <= |d|
        && AllContained(d[HEADER_SIZE + Extent(d[3], d[4], length, d[HEADER_SIZE..])..], maxFrameSize)
  }

  /** Well-formed frames are enough. */
  lemma {:induction false} ContainedIsGuarded(d: seq<byte>, maxFrameSize: u32, have: nat)
    requires AllContained(d, maxFrameSize) && have <= |d|
    ensures Guarded(d, maxFrameSize, have)
    decreases |d|
  {
    hide FromBe24, Extent, Contained;
    if |d| >= HEADER_SIZE {
      var length := FromBe24(d[..3]);
      if length <= maxFrameSize && HEADER_SIZE + length <= |d| && d[3] <= 9 {
        ContainedExtent(d[3], d[4], length, d[HEADER_SIZE..]);
        var size := HEADER_SIZE + Extent(d[3], d[4], length, d[HEADER_SIZE..]);
        ContainedIsGuarded(d[size..], maxFrameSize, Larger(have, HEADER_SIZE + length) - size);
      }
    }
  }

  lemma ContainedExtent(kind: byte, flags: byte, length: u32, d: seq<byte>)
    requires Contained(kind, flags, length, d)
    ensures Extent(kind, flags, length, d) <= length
  {
    hide Has;
  }

  /** The extent does not depend on bytes that have not come, unless it goes beyond those that have. */
  lemma ExtentStable(kind: byte, flags: byte, length: u32, d: seq<byte>, k: nat)
    requires k <= |d|
    ensures Extent(kind, flags, length, d[..k]) <= k <==> Extent(kind, flags, length, d) <= k
    ensures Extent(kind, flags, length, d) <= k ==> Extent(kind, flags, length, d[..k]) == Extent(kind, flags, length, d)
  {
    hide Has;
    if k > 0 {
      assert d[..k][0] == d[0];
    }
  }

  /** What the parser makes of the first k bytes, in terms of the whole. */
  lemma ParseOfPrefix(d: seq<byte>, k: nat, maxFrameSize: u32)
    requires HEADER_SIZE <= |d| && k <= |d|
    ensures var length := FromBe24(d[..3]); var e := Extent(d[3], d[4], length, d[HEADER_SIZE..]);
            var p := Parse(d[..k], maxFrameSize);
            if k < HEADER_SIZE then p.MoreData?
            else if length > maxFrameSize then p.Error?
            else if k < HEADER_SIZE + length then p.MoreData?
            else if d[3] > 9 then p.Error?
            else if k < HEADER_SIZE + e then p.Undefined?
            else p.Complete? && p.size == HEADER_SIZE + e
  {
    hide FromBe24, Extent, ParsePayload, FromBe32;
    if k >= HEADER_SIZE {
      var length := FromBe24(d[..3]);
      assert d[..k][..3] == d[..3] && d[..k][3] == d[3] && d[..k][4] == d[4];
      assert d[..k][HEADER_SIZE..] == d[HEADER_SIZE..][..k - HEADER_SIZE];
      ExtentStable(d[3], d[4], length, d[HEADER_SIZE..], k - HEADER_SIZE);
      PastEndExactly(d[3], d[4], length, d[..k][HEADER_SIZE..]);
    }
  }

  lemma {:induction false} GuardedPrefix(d: seq<byte>, maxFrameSize: u32, have: nat, k: nat)
    requires have <= k <= |d| && Guarded(d, maxFrameSize, have)
    ensures !Drain(d[..k], maxFrameSize).status.Lost?
    decreases |d|
  {
    hide FromBe24, Extent, Parse, Drain;
    if |d| < HEADER_SIZE {
      TooShort(d[..k], maxFrameSize);
    } else {
      ParseOfPrefix(d, k, maxFrameSize);
      var p := Parse(d[..k], maxFrameSize);
      if p.Complete? {
        DrainGoesOn(d[..k], maxFrameSize);
        assert d[..k][p.size..] == d[p.size..][..k - p.size];
        GuardedPrefix(d[p.size..], maxFrameSize, Larger(have, HEADER_SIZE + FromBe24(d[..3])) - p.size, k - p.size);
      } else {
        StopsAsParsed(d[..k], maxFrameSize);
      }
    }
  }

  lemma TooShort(d: seq<byte>, maxFrameSize: u32)
    requires |d| < HEADER_SIZE
    ensures Drain(d, maxFrameSize).status.Waiting?
  {
  }

  lemma StopsAsParsed(d: seq<byte>, maxFrameSize: u32)
    requires !Parse(d, maxFrameSize).Complete?
    ensures Drain(d, maxFrameSize).status.Lost? <==> Parse(d, maxFrameSize).Undefined?
  {
  }

  /** Where to cut a stream that is not guarded: behind the frame whose extent goes too far. */
  lemma {:induction false} UnguardedPrefix(d: seq<byte>, maxFrameSize: u32, have: nat) returns (k: nat)
    requires have <= |d| && !Guarded(d, maxFrameSize, have)
    ensures have <= k <= |d| && Drain(d[..k], maxFrameSize).status.Lost?
    decreases |d|
  {
    hide FromBe24, Extent, Parse, Drain;
    var length := FromBe24(d[..3]);
    var there := Larger(have, HEADER_SIZE + length);
    var size := HEADER_SIZE + Extent(d[3], d[4], length, d[HEADER_SIZE..]);
    if size > there {
      k := there;
      ParseOfPrefix(d, k, maxFrameSize);
      StopsAsParsed(d[..k], maxFrameSize);
    } else {
      var later := UnguardedPrefix(d[size..], maxFrameSize, there - size);
      k := size + later;
      ParseOfPrefix(d, k, maxFrameSize);
      DrainGoesOn(d[..k], maxFrameSize);
      assert d[..k][size..] == d[size..][..later];
    }
  }

  /** Draining in two reads is draining at once, and neither runs past the buffer. */
  lemma DrainIncremental(a: seq<byte>, b: seq<byte>, maxFrameSize: u32)
    requires Guarded(a + b, maxFrameSize, 0)
    ensures var first := Drain(a, maxFrameSize); var whole := Drain(a + b, maxFrameSize);
            && !first.status.Lost? && !whole.status.Lost?
            && if first.status.Waiting? then
                 var second := Drain(first.rest + b, maxFrameSize);
                 whole == Drained(first.frames + second.frames, second.rest, second.status)
               else whole.frames == first.frames && whole.status == Failed
  {
    hide Drain, Guarded;
    assert (a + b)[..|a|] == a && (a + b)[..|a + b|] == a + b;
    GuardedPrefix(a + b, maxFrameSize, 0, |a|);
    GuardedPrefix(a + b, maxFrameSize, 0, |a + b|);
    DrainTwice(a, b, maxFrameSize);
  }

  // ---- reads ----

  type Chunks = seq<seq<byte>>

  /** The loop between reads: frames handed on so far, and bytes kept for the next read. */
  datatype Reader = Reader(delivered: seq<Frame>, pending: seq<byte>, status: Status)

  const START: Reader := Reader([], [], Waiting)

  function Read(r: Reader, bytes: seq<byte>, maxFrameSize: u32): Reader {
    if !r.status.Waiting? then r
    else
      var d := Drain(r.pending + bytes, maxFrameSize);
      Reader(r.delivered + d.frames, d.rest, d.status)
  }

  function ReadAll(r: Reader, chunks: Chunks, maxFrameSize: u32): Reader
    decreases chunks
  {
    if chunks == [] then r else ReadAll(Read(r, chunks[0], maxFrameSize), chunks[1..], maxFrameSize)
  }

  /** What is pending has been looked at: draining it again finds nothing. */
  predicate Settled(pending: seq<byte>, maxFrameSize: u32) {
    Drain(pending, maxFrameSize) == Drained([], pending, Waiting)
  }

  lemma {:induction false} RestIsSettled(d: seq<byte>, maxFrameSize: u32)
    ensures Drain(d, maxFrameSize).status.Waiting? ==> Settled(Drain(d, maxFrameSize).rest, maxFrameSize)
    decreases |d|
  {
    hide Parse;
    if d != [] && Parse(d, maxFrameSize).Complete? {
      RestIsSettled(d[Parse(d, maxFrameSize).size..], maxFrameSize);
    }
  }

  lemma {:induction false} StoppedStays(r: Reader, chunks: Chunks, maxFrameSize: u32)
    requires !r.status.Waiting?
    ensures ReadAll(r, chunks, maxFrameSize) == r
    decreases chunks
  {
    if chunks != [] {
      StoppedStays(r, chunks[1..], maxFrameSize);
    }
  }

  lemma {:induction false} ReadsAreOneRead(r: Reader, chunks: Chunks, maxFrameSize: u32)
    requires r.status.Waiting? && Settled(r.pending, maxFrameSize)
    requires !ReadAll(r, chunks, maxFrameSize).status.Lost?
    ensures var last := ReadAll(r, chunks, maxFrameSize); var whole := Drain(r.pending + Join(chunks), maxFrameSize);
            && last.delivered == r.delivered + whole.frames && last.status == whole.status
            && (last.status.Waiting? ==> last.pending == whole.rest)
    decreases chunks
  {
    hide Parse, Drain;
    if chunks == [] {
      assert r.pending + [] == r.pending;
    } else {
      var a := r.pending + chunks[0];
      var r1 := Read(r, chunks[0], maxFrameSize);
      assert r.pending + Join(chunks) == a + Join(chunks[1..]);
      RestIsSettled(a, maxFrameSize);
      if !r1.status.Waiting? {
        StoppedStays(r1, chunks[1..], maxFrameSize);
      } else {
        ReadsAreOneRead(r1, chunks[1..], maxFrameSize);
      }
      DrainTwice(a, Join(chunks[1..]), maxFrameSize);
    }
  }

  /** Reads follow the draining of prefixes, so they run past the buffer only if one of those does. */
  lemma {:induction false} ReadsFollow(before: seq<byte>, r: Reader, chunks: Chunks, maxFrameSize: u32)
    requires var d := Drain(before, maxFrameSize); r.status == d.status && (d.status.Waiting? ==> r.pending == d.rest)
    requires forall k :: |before| <= k <= |before + Join(chunks)| ==> !Drain((before + Join(chunks))[..k], maxFrameSize).status.Lost?
    ensures !ReadAll(r, chunks, maxFrameSize).status.Lost?
    decreases chunks
  {
    hide Drain;
    var all := before + Join(chunks);
    assert all[..|before|] == before;
    if chunks != [] && r.status.Waiting? {
      var next := before + chunks[0];
      assert next + Join(chunks[1..]) == all && all[..|next|] == next;
      DrainTwice(before, chunks[0], maxFrameSize);
      ReadsFollow(next, Read(r, chunks[0], maxFrameSize), chunks[1..], maxFrameSize);
    } else {
      StopsOrEnds(r, chunks, maxFrameSize);
    }
  }

  lemma StopsOrEnds(r: Reader, chunks: Chunks, maxFrameSize: u32)
    requires chunks == [] || !r.status.Waiting?
    ensures ReadAll(r, chunks, maxFrameSize) == r
  {
    if chunks != [] { StoppedStays(r, chunks, maxFrameSize); }
  }

  lemma GuardedReads(chunks: Chunks, maxFrameSize: u32)
    requires Guarded(Join(chunks), maxFrameSize, 0)
    ensures !ReadAll(START, chunks, maxFrameSize).status.Lost?
  {
    hide Drain, Guarded;
    DrainNothing(maxFrameSize);
    var all := [] + Join(chunks);
    assert all == Join(chunks);
    forall k | 0 <= k <= |all| ensures !Drain(all[..k], maxFrameSize).status.Lost? {
      GuardedPrefix(all, maxFrameSize, 0, k);
    }
    ReadsFollow([], START, chunks, maxFrameSize);
  }

  /** The condition is exact: some way of cutting a stream makes the parser run past the end of the buffer if
      and only if the stream is not guarded. One cut is enough. */
  lemma SomeCutLosesExactly(bytes: seq<byte>, maxFrameSize: u32)
    ensures (exists chunks: Chunks :: Join(chunks) == bytes && ReadAll(START, chunks, maxFrameSize).status.Lost?)
            <==> !Guarded(bytes, maxFrameSize, 0)
  {
    hide Drain, Guarded, Join, ReadAll;
    if Guarded(bytes, maxFrameSize, 0) {
      forall chunks: Chunks | Join(chunks) == bytes ensures !ReadAll(START, chunks, maxFrameSize).status.Lost? {
        GuardedReads(chunks, maxFrameSize);
      }
    } else {
      var k := UnguardedPrefix(bytes, maxFrameSize, 0);
      var chunks := [bytes[..k], bytes[k..]];
      CutAt(bytes, k);
      FirstReadLoses(bytes[..k], bytes[k..], maxFrameSize);
      assert Join(chunks) == bytes && ReadAll(START, chunks, maxFrameSize).status.Lost?;
    }
  }

  lemma CutAt(bytes: seq<byte>, k: nat)
    requires k <= |bytes|
    ensures Join([bytes[..k], bytes[k..]]) == bytes
  {
    var one: Chunks := [bytes[k..]];
    assert [bytes[..k], bytes[k..]][1..] == one && |one[1..]| == 0;
    assert Join(one) == bytes[k..] + Join(one[1..]) == bytes[k..];
    assert bytes[..k] + bytes[k..] == bytes;
  }

  lemma FirstReadLoses(a: seq<byte>, b: seq<byte>, maxFrameSize: u32)
    requires Drain(a, maxFrameSize).status.Lost?
    ensures ReadAll(START, [a, b], maxFrameSize).status.Lost?
    ensures ReadAll(START, [a, b], maxFrameSize).delivered == Drain(a, maxFrameSize).frames
  {
    hide Drain;
    var empty: seq<byte> := [];
    assert empty + a == a && [a, b][1..] == [b];
    StoppedStays(Read(START, a, maxFrameSize), [b], maxFrameSize);
  }

  /** Over any guarded stream of bytes, two ways of cutting it into reads deliver the same frames and end the
      same way, and never run past the buffer. */
  lemma SegmentationIsIrrelevant(chunks: Chunks, others: Chunks, maxFrameSize: u32)
    requires Join(chunks) == Join(others) && Guarded(Join(chunks), maxFrameSize, 0)
    ensures var r := ReadAll(START, chunks, maxFrameSize); var o := ReadAll(START, others, maxFrameSize);
            && !r.status.Lost? && !o.status.Lost?
            && r.delivered == o.delivered && r.status == o.status && (r.status.Waiting? ==> r.pending == o.pending)
  {
    hide Guarded;
    GuardedReads(chunks, maxFrameSize);
    GuardedReads(others, maxFrameSize);
    ReadsAreOneRead(START, chunks, maxFrameSize);
    ReadsAreOneRead(START, others, maxFrameSize);
  }

  /** Of a stream that is not guarded it can depend on the reads: RST_STREAM of length 0, which is not parsed
      until the next four bytes are there in one read, and past the end of the buffer in the other. */
  lemma ShortFrameDependsOnReads(maxFrameSize: u32)
    ensures var a: seq<byte> := [0, 0, 0, 3, 0, 0, 0, 0, 1]; var b: seq<byte> := [0, 0, 0, 8];
            && ReadAll(START, [a + b], maxFrameSize) == Reader([Frame(0, 0, 1, RstStream(8))], [], Waiting)
            && ReadAll(START, [a, b], maxFrameSize).status.Lost? && ReadAll(START, [a, b], maxFrameSize).delivered == START.delivered
  {
    var a: seq<byte> := [0, 0, 0, 3, 0, 0, 0, 0, 1];
    var b: seq<byte> := [0, 0, 0, 8];
    var d := a + b;
    var f := Frame(0, 0, 1, RstStream(8));
    ShortFrameParses(maxFrameSize);
    hide Parse;
    assert d == [0, 0, 0, 3, 0, 0, 0, 0, 1, 0, 0, 0, 8];
    StopsAsParsed(a, maxFrameSize);
    DrainStops(a, maxFrameSize);
    FirstReadLoses(a, b, maxFrameSize);
    DrainGoesOn(d, maxFrameSize);
    var empty: seq<byte> := [];
    assert d[13..] == empty && empty + d == d;
    var once: Chunks := [d];
    assert |once[1..]| == 0;
    assert Read(START, d, maxFrameSize) == Reader([] + ([f] + []), [], Waiting);
  }

  lemma ShortFrameParses(maxFrameSize: u32)
    ensures Parse([0, 0, 0, 3, 0, 0, 0, 0, 1], maxFrameSize) == Undefined
    ensures Parse([0, 0, 0, 3, 0, 0, 0, 0, 1, 0, 0, 0, 8], maxFrameSize) == Complete(Frame(0, 0, 1, RstStream(8)), 13)
  {
    hide ParseData, ParseHeaders, ParsePushPromise, ParseParams;
    var d: seq<byte> := [0, 0, 0, 3, 0, 0, 0, 0, 1, 0, 0, 0, 8];
    assert d[5..9] == [0, 0, 0, 1] && d[HEADER_SIZE..] == [0, 0, 0, 8] && d[HEADER_SIZE..][..4] == [0, 0, 0, 8];
  }

  // ---- what the printer printed ----

  datatype Sent = Sent(call: Call, streamId: u32)

  predicate Sendable(s: Sent, maxFrameSize: u32) {
    Typed(s.call) && Unpadded(s.call) && Size(s.call) <= maxFrameSize && Size(s.call) < TWO_24
  }

  predicate AllSendable(sent: seq<Sent>, maxFrameSize: u32) {
    forall k :: 0 <= k < |sent| ==> Sendable(sent[k], maxFrameSize)
  }

  function Frames(sent: seq<Sent>, maxFrameSize: u32): (fs: seq<Frame>)
    requires AllSendable(sent, maxFrameSize)
    ensures |fs| == |sent|
  {
    if sent == [] then [] else [Build(sent[0].call, sent[0].streamId)] + Frames(sent[1..], maxFrameSize)
  }

  function Bytes(frames: seq<Frame>): seq<byte> {
    if frames == [] then [] else Print(frames[0]) + Bytes(frames[1..])
  }

  /** How many frames are complete within the first k bytes. */
  function Whole(frames: seq<Frame>, k: nat): (n: nat)
    ensures n <= |frames|
    decreases frames
  {
    if frames == [] || |Print(frames[0])| > k then 0 else 1 + Whole(frames[1..], k - |Print(frames[0])|)
  }

  /** Any prefix of what was printed drains to exactly the frames that are complete in it. */
  lemma {:induction false} PrefixDrains(sent: seq<Sent>, maxFrameSize: u32, k: nat)
    requires AllSendable(sent, maxFrameSize) && k <= |Bytes(Frames(sent, maxFrameSize))|
    ensures var fs := Frames(sent, maxFrameSize); var d := Drain(Bytes(fs)[..k], maxFrameSize);
            && d.status.Waiting? && d.frames == fs[..Whole(fs, k)]
            && Bytes(fs)[..k] == Bytes(fs[..Whole(fs, k)]) + d.rest
    decreases |sent|
  {
    hide Parse, Print, Build, Sendable, Drain, Bytes;
    var fs := Frames(sent, maxFrameSize);
    BytesUnfold(fs);
    if sent == [] {
      DrainNothing(maxFrameSize);
      assert Bytes(fs)[..k] == [];
      BytesUnfold(fs[..0]);
    } else {
      var p := Print(fs[0]);
      var later := Bytes(fs[1..]);
      assert fs[1..] == Frames(sent[1..], maxFrameSize);
      OneFrame(sent[0], maxFrameSize, later, k);
      var d := Bytes(fs)[..k];
      if |p| <= k {
        var rest := later[..k - |p|];
        assert d == p + rest && d[|p|..] == rest;
        DrainGoesOn(d, maxFrameSize);
        PrefixDrains(sent[1..], maxFrameSize, k - |p|);
        var n := Whole(fs[1..], k - |p|);
        assert fs[..n + 1] == [fs[0]] + fs[1..][..n];
        BytesUnfold(fs[..n + 1]);
        assert fs[..n + 1][1..] == fs[1..][..n];
      } else {
        assert d == p[..k];
        DrainStops(d, maxFrameSize);
        BytesUnfold(fs[..0]);
      }
    }
  }

  lemma BytesUnfold(fs: seq<Frame>)
    ensures Bytes(fs) == if fs == [] then [] else Print(fs[0]) + Bytes(fs[1..])
  {
  }

  lemma OneFrame(s: Sent, maxFrameSize: u32, later: seq<byte>, k: nat)
    requires Sendable(s, maxFrameSize) && k <= |Print(Build(s.call, s.streamId))| + |later|
    ensures var f := Build(s.call, s.streamId); var p := Print(f);
            && |p| > 0
            && (if |p| <= k then Parse(p + later[..k - |p|], maxFrameSize) == Complete(f, |p|)
                else Parse(p[..k], maxFrameSize) == MoreData)
  {
    hide Parse;
    var p := Print(Build(s.call, s.streamId));
    if |p| <= k {
      FrameRoundTrip(s.call, s.streamId, maxFrameSize, later[..k - |p|]);
    } else {
      StrictPrefixNeedsMore(s.call, s.streamId, maxFrameSize, k);
    }
  }

  lemma {:induction false} PrefixReadsAreFine(sent: seq<Sent>, maxFrameSize: u32, chunks: Chunks, r: Reader, at: nat)
    requires AllSendable(sent, maxFrameSize)
    requires var b := Bytes(Frames(sent, maxFrameSize));
             && at <= |b| && b[..at] + Join(chunks) <= b
             && r == (var d := Drain(b[..at], maxFrameSize); Reader(d.frames, d.rest, d.status))
    ensures var d := Drain(Bytes(Frames(sent, maxFrameSize))[..at] + Join(chunks), maxFrameSize);
            ReadAll(r, chunks, maxFrameSize) == Reader(d.frames, d.rest, d.status)
    decreases chunks
  {
    hide Drain, Bytes, Frames, Whole, AllSendable;
    var b := Bytes(Frames(sent, maxFrameSize));
    PrefixDrains(sent, maxFrameSize, at);
    if chunks == [] {
      assert b[..at] + [] == b[..at];
    } else {
      var next := at + |chunks[0]|;
      assert Join(chunks) == chunks[0] + Join(chunks[1..]);
      assert b[..next] == b[..at] + chunks[0];
      assert b[..at] + Join(chunks) == b[..next] + Join(chunks[1..]);
      DrainTwice(b[..at], chunks[0], maxFrameSize);
      PrefixReadsAreFine(sent, maxFrameSize, chunks[1..], Read(r, chunks[0], maxFrameSize), next);
    }
  }

  /** However the printed bytes are cut into reads, after every read exactly the frames completed so far
      have been delivered, in order; once all bytes are there, all frames are, and nothing is pending. */
  lemma FramesSurviveReads(sent: seq<Sent>, maxFrameSize: u32, chunks: Chunks)
    requires AllSendable(sent, maxFrameSize)
    requires Join(chunks) <= Bytes(Frames(sent, maxFrameSize))
    ensures var fs := Frames(sent, maxFrameSize); var r := ReadAll(START, chunks, maxFrameSize);
            && r.status.Waiting? && r.delivered == fs[..Whole(fs, |Join(chunks)|)]
            && Join(chunks) == Bytes(r.delivered) + r.pending
            && (Join(chunks) == Bytes(fs) ==> r.delivered == fs && r.pending == [])
  {
    hide Drain, AllSendable;
    var fs := Frames(sent, maxFrameSize);
    var b := Bytes(fs);
    assert Drain(b[..0], maxFrameSize) == Drained([], [], Waiting) by { PrefixDrains(sent, maxFrameSize, 0); }
    assert b[..0] + Join(chunks) == Join(chunks);
    PrefixReadsAreFine(sent, maxFrameSize, chunks, START, 0);
    assert b[..|Join(chunks)|] == Join(chunks);
    PrefixDrains(sent, maxFrameSize, |Join(chunks)|);
    if Join(chunks) == b {
      WholeIsAll(fs);
      assert fs[..|fs|] == fs;
    }
  }

  lemma {:induction false} WholeIsAll(fs: seq<Frame>)
    ensures Whole(fs, |Bytes(fs)|) == |fs|
  {
    hide Print;
    if fs != [] {
      WholeIsAll(fs[1..]);
    }
  }

  // ---- the program's own form ----

  /** The printer: appends field after field to a growing buffer. */
  method Serialize(f: Frame, buffer: ByteArray)
    modifies buffer
    ensures buffer.bytes == old(buffer.bytes) + Print(f)
  {
    hide PrintPayload, Be24, Be32, Type;
    buffer.Add(Be24(f.length));
    buffer.Add([Type(f.payload)]);
    buffer.Add([f.flags]);
    buffer.Add(Be32(f.streamId));
    assert buffer.bytes == old(buffer.bytes) + PrintHeader(f);
    SerializePayload(f.flags, f.payload, buffer);
  }

  method SerializePayload(flags: byte, p: Payload, buffer: ByteArray)
    modifies buffer
    ensures buffer.bytes == old(buffer.bytes) + PrintPayload(flags, p)
  {
    hide Be32, PrintParams, PrintPriority, IfPadded;
    if p.Data? || p.Headers? || p.PushPromise? {
      SerializePadded(flags, p, buffer);
    } else if p.Settings? {
      SerializeParams(p.params, buffer);
    } else {
      SerializeFixed(p, buffer);
    }
  }

  method SerializePadded(flags: byte, p: Payload, buffer: ByteArray)
    requires p.Data? || p.Headers? || p.PushPromise?
    modifies buffer
    ensures buffer.bytes == old(buffer.bytes) + PrintPayload(flags, p)
  {
    hide Be32, IfPadded, PrintPriority;
    AddIfPadded(flags, [p.padLength], buffer);
    match p {
      case Data(_, data, _) =>
        buffer.Add(data);
      case Headers(_, dependency, weight, block, _) =>
        AddPriority(flags, dependency, weight, buffer);
        buffer.Add(block);
      case PushPromise(_, promised, block, _) =>
        buffer.Add(Be32(promised));
        buffer.Add(block);
    }
    AddIfPadded(flags, p.padding, buffer);
  }

  method SerializeFixed(p: Payload, buffer: ByteArray)
    requires !p.Data? && !p.Headers? && !p.PushPromise? && !p.Settings?
    modifies buffer
    ensures buffer.bytes == old(buffer.bytes) + PrintFixed(p)
  {
    hide Be32;
    match p {
      case Priority(dependency, weight) =>
        buffer.Add(Be32(dependency));
        buffer.Add([weight]);
      case RstStream(errorCode) =>
        buffer.Add(Be32(errorCode));
      case Ping(opaqueData) =>
        buffer.Add(opaqueData);
      case GoAway(lastStream, errorCode, debugData) =>
        buffer.Add(Be32(lastStream));
        buffer.Add(Be32(errorCode));
        buffer.Add(debugData);
      case WindowUpdate(increment) =>
        buffer.Add(Be32(increment));
      case Continuation(block) =>
        buffer.Add(block);
    }
  }

  method AddPriority(flags: byte, dependency: u32, weight: byte, buffer: ByteArray)
    modifies buffer
    ensures buffer.bytes == old(buffer.bytes) + PrintPriority(flags, dependency, weight)
  {
    if Has(flags, PRIORITY) {
      buffer.Add(Be32(dependency));
      buffer.Add([weight]);
    }
  }

  method AddIfPadded(flags: byte, s: seq<byte>, buffer: ByteArray)
    modifies buffer
    ensures buffer.bytes == old(buffer.bytes) + IfPadded(flags, s)
  {
    if Has(flags, PADDED) {
      buffer.Add(s);
    }
  }

  method SerializeParams(params: seq<Param>, buffer: ByteArray)
    modifies buffer
    ensures buffer.bytes == old(buffer.bytes) + PrintParams(params)
  {
    hide Be16, Be32;
    for index := 0 to |params|
      invariant buffer.bytes + PrintParams(params[index..]) == old(buffer.bytes) + PrintParams(params)
    {
      buffer.Add(Be16(params[index].id));
      buffer.Add(Be32(params[index].value));
      assert params[index..][1..] == params[index + 1..];
    }
  }

  method DeserializeParams(d: seq<byte>, count: nat) returns (params: seq<Param>)
    requires 6 * count <= |d|
    ensures params == ParseParams(d, count)
  {
    hide FromBe16, FromBe32;
    params := [];
    var at: nat := 0;
    for index := 0 to count
      invariant at == 6 * index
      invariant params + ParseParams(d[at..], count - index) == ParseParams(d, count)
    {
      ghost var left := d[at..];
      assert left[..2] == d[at..at + 2] && left[2..6] == d[at + 2..at + 6] && left[6..] == d[at + 6..];
      var p := Param(FromBe16(d[at..at + 2]), FromBe32(d[at + 2..at + 6]));
      ghost var later := ParseParams(left[6..], count - index - 1);
      assert params + ([p] + later) == (params + [p]) + later;
      params := params + [p];
      at := at + 6;
    }
  }

  /** The receiving side of a connection: the byte array the socket fills, the position in it, and what
      the loop has handed on. The array is cleared only when all of it has been used. */
  class Receiver {
    const maxFrameSize: u32
    var data: seq<byte>
    var index: nat
    var delivered: seq<Frame>
    var status: Status

    ghost predicate Valid()
      reads this
    {
      index <= |data|
    }

    ghost function State(): Reader
      reads this
      requires Valid()
    {
      Reader(delivered, data[index..], status)
    }

    constructor (maxFrameSize: u32)
      ensures Valid() && State() == START && this.maxFrameSize == maxFrameSize
    {
      this.maxFrameSize := maxFrameSize;
      data, index, delivered, status := [], 0, [], Waiting;
    }

    /** Parses one frame at the position, and moves the position only past a complete one. */
    method Deserialize() returns (r: Parsed)
      requires Valid()
      modifies this`index
      ensures Valid() && r == Parse(data[old(index)..], maxFrameSize)
      ensures index == old(index) + (if r.Complete? then r.size else 0)
    {
      var d := data[index..];
      if |d| < HEADER_SIZE {
        return MoreData;
      }
      var length := FromBe24(d[..3]);
      if length > maxFrameSize {
        return Error;
      }
      if |d| < HEADER_SIZE + length {
        return MoreData;
      }
      var p := DeserializePayload(d[3], d[4], length, d[HEADER_SIZE..]);
      match p {
        case Payload(payload, used) =>
          r := Complete(Frame(length, d[4], FromBe32(d[5..9]), payload), HEADER_SIZE + used);
          index := index + HEADER_SIZE + used;
        case UnknownType => r := Error;
        case PastEnd => r := Undefined;
      }
    }

    /** One round of the loop: hands on one frame, or ends the pass. */
    method Next() returns (more: bool)
      requires Valid() && status == Waiting && |data| > index
      modifies this
      ensures Valid() && data == old(data)
      ensures more ==> status == Waiting && index > old(index)
      ensures Resume(old(State()), maxFrameSize) == if more then Resume(State(), maxFrameSize) else State()
    {
      hide Drain, Parse;
      ghost var unread := data[index..];
      var r := Deserialize();
      match r {
        case Complete(f, size) =>
          DrainGoesOn(unread, maxFrameSize);
          assert unread[size..] == data[index..];
          delivered := delivered + [f];
          ghost var later := Drain(data[index..], maxFrameSize).frames;
          assert old(delivered) + ([f] + later) == delivered + later;
          return true;
        case MoreData =>
        case Error => status := Failed;
        case Undefined => status := Lost;
      }
      DrainStops(unread, maxFrameSize);
      more := false;
    }

    /** One call of the socket's receive handler with the bytes that came in. */
    method OnReceive(bytes: seq<byte>)
      requires Valid()
      modifies this
      ensures Valid() && State() == (if bytes == [] then old(State()) else Read(old(State()), bytes, maxFrameSize))
    {
      if bytes == [] || status != Waiting {
        return;
      }
      hide Resume;
      ghost var goal := Read(State(), bytes, maxFrameSize);
      assert (data + bytes)[index..] == data[index..] + bytes;
      data := data + bytes;
      while |data| > index
        invariant Valid() && status == Waiting
        invariant Resume(State(), maxFrameSize) == goal
        decreases |data| - index
      {
        var more := Next();
        if !more {
          return;
        }
      }
      index := 0;
      data := [];
    }
  }

  /** Where a pass of the loop that is underway will end. */
  function Resume(r: Reader, maxFrameSize: u32): Reader {
    var d := Drain(r.pending, maxFrameSize);
    Reader(r.delivered + d.frames, d.rest, d.status)
  }

  /** Reads the payload at `d`, the buffer behind the frame header. */
  method DeserializePayload(kind: byte, flags: byte, length: u32, d: seq<byte>) returns (r: PayloadParsed)
    ensures r == ParsePayload(kind, flags, length, d)
  {
    hide FromBe32, ParseParams, ParseData, ParseHeaders, ParsePushPromise;
    if kind == 0 {
      r := DeserializeData(flags, length, d);
    } else if kind == 1 {
      r := DeserializeHeaders(flags, length, d);
    } else if kind == 5 {
      r := DeserializePushPromise(flags, length, d);
    } else if kind == 4 {
      var count := length / 6 % 0x1_0000;
      if |d| < 6 * count {
        return PastEnd;
      }
      var params := DeserializeParams(d, count);
      r := Payload(Settings(params), 6 * count);
    } else {
      r := DeserializeFixed(kind, length, d);
    }
  }

  method DeserializePad(flags: byte, length: u32, d: seq<byte>) returns (r: Option<Pad>)
    ensures r == ParsePad(flags, length, d)
  {
    var padLength: byte := 0;
    var rest: u32 := length;
    var at: nat := 0;
    if Has(flags, PADDED) {
      if |d| == 0 {
        return None;
      }
      padLength := d[at];
      at := at + 1;
      rest := Wrap32(rest - (1 + padLength as int));
    }
    r := Some(Pad(padLength, at, rest));
  }

  method DeserializeData(flags: byte, length: u32, d: seq<byte>) returns (r: PayloadParsed)
    ensures r == ParseData(flags, length, d)
  {
    hide Has;
    var pad := DeserializePad(flags, length, d);
    match pad {
      case None => r := PastEnd;
      case Some(Pad(padLength, at, rest)) =>
        if |d| < at + rest + padLength {
          return PastEnd;
        }
        var data := if rest > 0 then d[at..at + rest] else [];
        r := Payload(Data(padLength, data, []), at + rest + padLength);
    }
  }

  method DeserializeHeaders(flags: byte, length: u32, d: seq<byte>) returns (r: PayloadParsed)
    ensures r == ParseHeaders(flags, length, d)
  {
    hide Has, FromBe32;
    var pad := DeserializePad(flags, length, d);
    match pad {
      case None => r := PastEnd;
      case Some(Pad(padLength, start, left)) =>
        var at: nat := start;
        var rest: u32 := left;
        var dependency: u32 := 0;
        var weight: byte := 0;
        if Has(flags, PRIORITY) {
          if |d| < at + 5 {
            return PastEnd;
          }
          dependency := FromBe32(d[at..at + 4]);
          at := at + 4;
          rest := Wrap32(rest - 4);
          weight := d[at];
          at := at + 1;
          rest := Wrap32(rest - 1);
        }
        if |d| < at + rest + padLength {
          return PastEnd;
        }
        var block := if rest > 0 then d[at..at + rest] else [];
        assert block == d[at..at + rest];
        r := Payload(Headers(padLength, dependency, weight, block, []), at + rest + padLength);
    }
  }

  method DeserializePushPromise(flags: byte, length: u32, d: seq<byte>) returns (r: PayloadParsed)
    ensures r == ParsePushPromise(flags, length, d)
  {
    hide Has, FromBe32;
    var pad := DeserializePad(flags, length, d);
    match pad {
      case None => r := PastEnd;
      case Some(Pad(padLength, start, left)) =>
        var rest: u32 := Wrap32(left - 4);
        if |d| < start + 4 + rest + padLength {
          return PastEnd;
        }
        var promised := FromBe32(d[start..start + 4]);
        var at: nat := start + 4;
        r := Payload(PushPromise(padLength, promised, d[at..at + rest], []), at + rest + padLength);
    }
  }

  method DeserializeFixed(kind: byte, length: u32, d: seq<byte>) returns (r: PayloadParsed)
    requires kind != 0 && kind != 1 && kind != 4 && kind != 5
    ensures forall flags: byte :: r == ParsePayload(kind, flags, length, d)
  {
    var needed: nat := 0;
    if kind == 2 {
      needed := 5;
    } else if kind == 3 || kind == 8 {
      needed := 4;
    } else if kind == 6 {
      needed := 8;
    } else if kind == 7 {
      needed := 8 + Wrap32(length - 4 - 4);
    } else if kind == 9 {
      needed := length;
    } else {
      return UnknownType;
    }
    if |d| < needed {
      return PastEnd;
    }
    if kind == 2 {
      r := Payload(Priority(FromBe32(d[..4]), d[4]), needed);
    } else if kind == 3 {
      r := Payload(RstStream(FromBe32(d[..4])), needed);
    } else if kind == 6 {
      r := Payload(Ping(d[..8]), needed);
    } else if kind == 7 {
      r := Payload(GoAway(FromBe32(d[..4]), FromBe32(d[4..8]), d[8..needed]), needed);
    } else if kind == 8 {
      r := Payload(WindowUpdate(FromBe32(d[..4])), needed);
    } else {
      r := Payload(Continuation(d[..needed]), needed);
    }
  }
}
