/** HTTP/2 frames: the constructors, the printer and the parser of src/http2/co_http2_frame.c, and the
    receive loop of src/http2/co_http2_client.c:459-541 (section 4.1 of RFC 7540). */
module Frame {
  import opened Machine

  const END_STREAM: byte := 0x01
  const ACK: byte := 0x01
  const END_HEADERS: byte := 0x04
  const PADDED: byte := 0x08
  const PRIORITY: byte := 0x20
  const HEADER_SIZE: nat := 9
  const TWO_24: nat := 0x100_0000

  datatype Param = Param(id: u16, value: u32)

  /** The payload; which alternative it is, is the frame's type. */
  datatype Payload =
    | Data(padLength: byte, data: seq<byte>, padding: seq<byte>)
    | Headers(padLength: byte, dependency: u32, weight: byte, block: seq<byte>, padding: seq<byte>)
    | Priority(dependency: u32, weight: byte)
    | RstStream(errorCode: u32)
    | Settings(params: seq<Param>)
    | PushPromise(padLength: byte, promised: u32, block: seq<byte>, padding: seq<byte>)
    | Ping(opaqueData: seq<byte>)
    | GoAway(lastStream: u32, errorCode: u32, debugData: seq<byte>)
    | WindowUpdate(increment: u32)
    | Continuation(block: seq<byte>)

  datatype Frame = Frame(length: u32, flags: byte, streamId: u32, payload: Payload)

  function Type(p: Payload): byte {
    match p
    case Data(_, _, _) => 0
    case Headers(_, _, _, _, _) => 1
    case Priority(_, _) => 2
    case RstStream(_) => 3
    case Settings(_) => 4
    case PushPromise(_, _, _, _) => 5
    case Ping(_) => 6
    case GoAway(_, _, _) => 7
    case WindowUpdate(_) => 8
    case Continuation(_) => 9
  }

  /** Whether the bit `flag` (a power of two) is set. */
  predicate Has(flags: byte, flag: byte)
    requires flag > 0
  {
    flags / flag % 2 == 1
  }

  function Bit(on: bool, flag: byte): byte {
    if on then flag else 0
  }

  // ---- constructors ----

  /** A call of one of the ten constructors, with its arguments. */
  datatype Call =
    | NewData(endStream: bool, data: seq<byte>, padding: seq<byte>)
    | NewHeaders(endStream: bool, endHeaders: bool, block: seq<byte>, dependency: u32, weight: byte, padding: seq<byte>)
    | NewPriority(dependency: u32, weight: byte)
    | NewRstStream(errorCode: u32)
    | NewSettings(ack: bool, params: seq<Param>)
    | NewPushPromise(endHeaders: bool, promised: u32, block: seq<byte>, padding: seq<byte>)
    | NewPing(ack: bool, opaqueData: seq<byte>)
    | NewGoAway(lastStream: u32, errorCode: u32, debugData: seq<byte>)
    | NewWindowUpdate(increment: u32)
    | NewContinuation(endHeaders: bool, block: seq<byte>)

  /** The argument types: counts are 8, 16 and 32 bits wide, PING carries 8 bytes. */
  predicate Typed(c: Call) {
    && (c.NewData? || c.NewHeaders? || c.NewPushPromise? ==> |c.padding| < 0x100)
    && (c.NewSettings? ==> |c.params| < 0x1_0000)
    && (c.NewPing? ==> |c.opaqueData| == 8)
    && Size(c) < TWO_32
  }

  predicate HasPriority(c: Call)
    requires c.NewHeaders?
  {
    c.dependency != 0 || c.weight != 0
  }

  /** The length the constructor gives the frame. Padding is counted, its length byte is not. */
  function Size(c: Call): nat {
    match c
    case NewData(_, data, padding) => |data| + |padding|
    case NewHeaders(_, _, block, _, _, padding) => |block| + (if HasPriority(c) then 5 else 0) + |padding|
    case NewPriority(_, _) => 5
    case NewRstStream(_) => 4
    case NewSettings(_, params) => 6 * |params|
    case NewPushPromise(_, _, block, padding) => 4 + |block| + |padding|
    case NewPing(_, _) => 8
    case NewGoAway(_, _, debugData) => 8 + |debugData|
    case NewWindowUpdate(_) => 4
    case NewContinuation(_, block) => |block|
  }

  function FlagsOf(c: Call): byte {
    match c
    case NewData(es, _, padding) => Bit(es, END_STREAM) + Bit(padding != [], PADDED)
    case NewHeaders(es, eh, _, _, _, padding) =>
      Bit(es, END_STREAM) + Bit(eh, END_HEADERS) + Bit(padding != [], PADDED) + Bit(HasPriority(c), PRIORITY)
    case NewSettings(ack, _) => Bit(ack, ACK)
    case NewPushPromise(eh, _, _, padding) => Bit(eh, END_HEADERS) + Bit(padding != [], PADDED)
    case NewPing(ack, _) => Bit(ack, ACK)
    case NewContinuation(eh, _) => Bit(eh, END_HEADERS)
    case _ => 0
  }

  function PayloadOf(c: Call): Payload
    requires Typed(c)
  {
    match c
    case NewData(_, data, padding) => Data(|padding|, data, padding)
    case NewHeaders(_, _, block, dependency, weight, padding) => Headers(|padding|, dependency, weight, block, padding)
    case NewPriority(dependency, weight) => Priority(dependency, weight)
    case NewRstStream(errorCode) => RstStream(errorCode)
    case NewSettings(_, params) => Settings(params)
    case NewPushPromise(_, promised, block, padding) => PushPromise(|padding|, promised, block, padding)
    case NewPing(_, opaqueData) => Ping(opaqueData)
    case NewGoAway(lastStream, errorCode, debugData) => GoAway(lastStream, errorCode, debugData)
    case NewWindowUpdate(increment) => WindowUpdate(increment)
    case NewContinuation(_, block) => Continuation(block)
  }

  /** The constructed frame, once a stream has put its id on it. */
  function Build(c: Call, streamId: u32): Frame
    requires Typed(c)
  {
    Frame(Size(c), FlagsOf(c), streamId, PayloadOf(c))
  }

  // ---- printer ----

  function PrintParams(params: seq<Param>): (s: seq<byte>)
    ensures |s| == 6 * |params|
  {
    if params == [] then [] else Be16(params[0].id) + Be32(params[0].value) + PrintParams(params[1..])
  }

  function IfPadded(flags: byte, s: seq<byte>): seq<byte> {
    if Has(flags, PADDED) then s else []
  }

  function PrintPriority(flags: byte, dependency: u32, weight: byte): seq<byte> {
    if Has(flags, PRIORITY) then Be32(dependency) + [weight] else []
  }

  function PrintPayload(flags: byte, p: Payload): seq<byte> {
    match p
    case Data(padLength, data, padding) => IfPadded(flags, [padLength]) + data + IfPadded(flags, padding)
    case Headers(padLength, dependency, weight, block, padding) =>
      IfPadded(flags, [padLength]) + PrintPriority(flags, dependency, weight) + block + IfPadded(flags, padding)
    case PushPromise(padLength, promised, block, padding) =>
      IfPadded(flags, [padLength]) + Be32(promised) + block + IfPadded(flags, padding)
    case _ => PrintFixed(p)
  }

  /** The payloads that are never padded print the same whatever the flags. */
  function PrintFixed(p: Payload): seq<byte>
    requires !p.Data? && !p.Headers? && !p.PushPromise?
  {
    match p
    case Priority(dependency, weight) => Be32(dependency) + [weight]
    case RstStream(errorCode) => Be32(errorCode)
    case Settings(params) => PrintParams(params)
    case Ping(opaqueData) => opaqueData
    case GoAway(lastStream, errorCode, debugData) => Be32(lastStream) + Be32(errorCode) + debugData
    case WindowUpdate(increment) => Be32(increment)
    case Continuation(block) => block
  }

  function PrintHeader(f: Frame): (s: seq<byte>)
    ensures |s| == HEADER_SIZE
  {
    Be24(f.length) + [Type(f.payload), f.flags] + Be32(f.streamId)
  }

  function Print(f: Frame): seq<byte> {
    PrintHeader(f) + PrintPayload(f.flags, f.payload)
  }

  // ---- parser ----

  /** `Undefined` stands for reading or stepping past the end of the buffer. */
  datatype Parsed = Complete(frame: Frame, size: nat) | MoreData | Error | Undefined

  datatype PayloadParsed = Payload(payload: Payload, used: nat) | UnknownType | PastEnd

  function ParseParams(d: seq<byte>, count: nat): seq<Param>
    requires 6 * count <= |d|
    decreases count
  {
    if count == 0 then [] else [Param(FromBe16(d[..2]), FromBe32(d[2..6]))] + ParseParams(d[6..], count - 1)
  }

  /** The pad length byte, if there is one, and what the program then takes for the length of the rest. */
  datatype Pad = Pad(padLength: byte, at: nat, rest: u32)

  function ParsePad(flags: byte, length: u32, d: seq<byte>): Option<Pad> {
    if !Has(flags, PADDED) then Some(Pad(0, 0, length))
    else if d == [] then None
    else Some(Pad(d[0], 1, Wrap32(length - 1 - d[0])))
  }

  function ParseData(flags: byte, length: u32, d: seq<byte>): (r: PayloadParsed)
    ensures !r.UnknownType?
  {
    match ParsePad(flags, length, d)
    case None => PastEnd
    case Some(Pad(padLength, at, n)) =>
      if |d| < at + n + padLength then PastEnd
      else Payload(Data(padLength, d[at..at + n], []), at + n + padLength)
  }

  function ParseHeaders(flags: byte, length: u32, d: seq<byte>): (r: PayloadParsed)
    ensures !r.UnknownType?
  {
    match ParsePad(flags, length, d)
    case None => PastEnd
    case Some(Pad(padLength, at, n)) =>
      var p := if Has(flags, PRIORITY) then 5 else 0;
      var m := Wrap32(n - p);
      if |d| < at + p + m + padLength then PastEnd
      else
        var dependency := if p == 5 then FromBe32(d[at..at + 4]) else 0;
        var weight := if p == 5 then d[at + 4] else 0;
        Payload(Headers(padLength, dependency, weight, d[at + p..at + p + m], []), at + p + m + padLength)
  }

  function ParsePushPromise(flags: byte, length: u32, d: seq<byte>): (r: PayloadParsed)
    ensures !r.UnknownType?
  {
    match ParsePad(flags, length, d)
    case None => PastEnd
    case Some(Pad(padLength, at, n)) =>
      var m := Wrap32(n - 4);
      if |d| < at + 4 + m + padLength then PastEnd
      else Payload(PushPromise(padLength, FromBe32(d[at..at + 4]), d[at + 4..at + 4 + m], []), at + 4 + m + padLength)
  }

  /** `d` is the buffer after the frame header; nothing keeps a payload inside the frame's length. */
  function ParsePayload(kind: byte, flags: byte, length: u32, d: seq<byte>): PayloadParsed {
    if kind == 0 then ParseData(flags, length, d)
    else if kind == 1 then ParseHeaders(flags, length, d)
    else if kind == 2 then if |d| < 5 then PastEnd else Payload(Priority(FromBe32(d[..4]), d[4]), 5)
    else if kind == 3 then if |d| < 4 then PastEnd else Payload(RstStream(FromBe32(d[..4])), 4)
    else if kind == 4 then
      var count := length / 6 % 0x1_0000;
      if |d| < 6 * count then PastEnd else Payload(Settings(ParseParams(d, count)), 6 * count)
    else if kind == 5 then ParsePushPromise(flags, length, d)
    else if kind == 6 then if |d| < 8 then PastEnd else Payload(Ping(d[..8]), 8)
    else if kind == 7 then
      var n := Wrap32(length - 8);
      if |d| < 8 + n then PastEnd else Payload(GoAway(FromBe32(d[..4]), FromBe32(d[4..8]), d[8..8 + n]), 8 + n)
    else if kind == 8 then if |d| < 4 then PastEnd else Payload(WindowUpdate(FromBe32(d[..4])), 4)
    else if kind == 9 then if |d| < length then PastEnd else Payload(Continuation(d[..length]), length)
    else UnknownType
  }

  /** The parser on the unread part of the buffer. */
  function Parse(d: seq<byte>, maxFrameSize: u32): (r: Parsed)
    ensures r.Complete? ==> HEADER_SIZE <= r.size <= |d|
  {
    if |d| < HEADER_SIZE then MoreData
    else
      var length := FromBe24(d[..3]);
      if length > maxFrameSize then Error
      else if |d| < HEADER_SIZE + length then MoreData
      else
        match ParsePayload(d[3], d[4], length, d[HEADER_SIZE..])
        case Payload(p, used) => Complete(Frame(length, d[4], FromBe32(d[5..9]), p), HEADER_SIZE + used)
        case UnknownType => Error
        case PastEnd => Undefined
  }

  // ---- one frame ----

  lemma FlagsSurvive(a: bool, b: bool, c: bool, d: bool)
    ensures var flags := Bit(a, END_STREAM) + Bit(b, END_HEADERS) + Bit(c, PADDED) + Bit(d, PRIORITY);
            Has(flags, END_STREAM) == a && Has(flags, END_HEADERS) == b && Has(flags, PADDED) == c && Has(flags, PRIORITY) == d
  {
  }

  predicate Unpadded(c: Call) {
    c.NewData? || c.NewHeaders? || c.NewPushPromise? ==> c.padding == []
  }

  lemma {:induction false} ParamsRoundTrip(params: seq<Param>, rest: seq<byte>)
    ensures ParseParams(PrintParams(params) + rest, |params|) == params
  {
    if params != [] {
      var p := params[0];
      var d := PrintParams(params) + rest;
      assert d[..2] == Be16(p.id) && d[2..6] == Be32(p.value);
      assert d[6..] == PrintParams(params[1..]) + rest;
      ParamsRoundTrip(params[1..], rest);
      assert params == [p] + params[1..];
    }
  }

  /** The payload parser undoes the payload printer, and uses exactly the payload's bytes. */
  ghost predicate PayloadComesBack(c: Call, rest: seq<byte>)
    requires Typed(c)
  {
    var s := PrintPayload(FlagsOf(c), PayloadOf(c));
    |s| == Size(c) && ParsePayload(Type(PayloadOf(c)), FlagsOf(c), Size(c), s + rest) == Payload(PayloadOf(c), Size(c))
  }

  lemma HeadersParse(flags: byte, dependency: u32, weight: byte, block: seq<byte>, rest: seq<byte>)
    requires !Has(flags, PADDED) && |PrintPriority(flags, dependency, weight) + block| < TWO_32
    ensures var s := PrintPriority(flags, dependency, weight) + block;
            ParseHeaders(flags, |s|, s + rest)
            == (if Has(flags, PRIORITY) then Payload(Headers(0, dependency, weight, block, []), |s|)
                else Payload(Headers(0, 0, 0, block, []), |s|))
  {
    hide Has, Be32, FromBe32;
    var s := PrintPriority(flags, dependency, weight) + block;
    var d := s + rest;
    if Has(flags, PRIORITY) {
      assert d[0..4] == Be32(dependency) && d[4] == weight;
      assert d[5..5 + |block|] == block;
    } else {
      assert d[0..|block|] == block;
    }
  }

  lemma HeadersRoundTrip(c: Call, rest: seq<byte>)
    requires c.NewHeaders? && Typed(c) && c.padding == []
    ensures PayloadComesBack(c, rest)
  {
    hide Has, Be32, FromBe32, ParseHeaders, ParseData, ParsePushPromise;
    FlagsSurvive(c.endStream, c.endHeaders, false, HasPriority(c));
    var flags := FlagsOf(c);
    var s := PrintPriority(flags, c.dependency, c.weight) + c.block;
    assert PrintPayload(flags, PayloadOf(c)) == s;
    HeadersParse(flags, c.dependency, c.weight, c.block, rest);
  }

  lemma BlocksRoundTrip(c: Call, rest: seq<byte>)
    requires c.NewData? || c.NewContinuation?
    requires Typed(c) && Unpadded(c)
    ensures PayloadComesBack(c, rest)
  {
    hide Has, Be32, FromBe32, ParseHeaders, ParsePushPromise;
    var s := PrintPayload(FlagsOf(c), PayloadOf(c));
    var d := s + rest;
    match c {
      case NewData(endStream, data, _) =>
        FlagsSurvive(endStream, false, false, false);
        assert s == data && d[..|data|] == data;
      case NewContinuation(_, block) =>
        assert s == block && d[..|block|] == block;
    }
  }

  lemma PushPromiseRoundTrip(c: Call, rest: seq<byte>)
    requires c.NewPushPromise? && Typed(c) && c.padding == []
    ensures PayloadComesBack(c, rest)
  {
    hide Has, Be32, FromBe32, ParseHeaders, ParseData;
    FlagsSurvive(false, c.endHeaders, false, false);
    var s := PrintPayload(FlagsOf(c), PayloadOf(c));
    var d := s + rest;
    assert s == Be32(c.promised) + c.block;
    assert d[0..4] == Be32(c.promised) && d[4..4 + |c.block|] == c.block;
  }

  lemma FixedRoundTrip(c: Call, rest: seq<byte>)
    requires !c.NewData? && !c.NewPushPromise? && !c.NewContinuation? && !c.NewHeaders? && !c.NewSettings?
    requires Typed(c)
    ensures PayloadComesBack(c, rest)
  {
    hide Be32, FromBe32, FlagsOf;
    var d := PrintPayload(FlagsOf(c), PayloadOf(c)) + rest;
    match c {
      case NewPriority(dependency, _) => assert d[..4] == Be32(dependency);
      case NewRstStream(errorCode) => assert d[..4] == Be32(errorCode);
      case NewPing(_, opaqueData) => assert d[..8] == opaqueData;
      case NewGoAway(lastStream, errorCode, debugData) =>
        assert d[..4] == Be32(lastStream) && d[4..8] == Be32(errorCode) && d[8..8 + |debugData|] == debugData;
      case NewWindowUpdate(increment) => assert d[..4] == Be32(increment);
    }
  }

  lemma PayloadRoundTrip(c: Call, rest: seq<byte>)
    requires Typed(c) && Unpadded(c)
    ensures PayloadComesBack(c, rest)
  {
    if c.NewHeaders? {
      HeadersRoundTrip(c, rest);
    } else if c.NewPushPromise? {
      PushPromiseRoundTrip(c, rest);
    } else if c.NewData? || c.NewContinuation? {
      BlocksRoundTrip(c, rest);
    } else if c.NewSettings? {
      ParamsRoundTrip(c.params, rest);
    } else {
      FixedRoundTrip(c, rest);
    }
  }

  lemma HeaderFields(f: Frame, tail: seq<byte>)
    ensures var d := PrintHeader(f) + tail;
            && FromBe24(d[..3]) == f.length % TWO_24 && d[3] == Type(f.payload) && d[4] == f.flags
            && FromBe32(d[5..9]) == f.streamId && d[HEADER_SIZE..] == tail
  {
    var d := PrintHeader(f) + tail;
    assert d[..3] == Be24(f.length);
    assert d[5..9] == Be32(f.streamId);
  }

  /** Printing and parsing one unpadded frame, whatever follows it in the buffer: the frame comes back,
      and exactly its bytes are used, if and only if its length is within the receiver's maximum and
      fits the 24 bits of the length field. */
  lemma FrameRoundTrip(c: Call, streamId: u32, maxFrameSize: u32, rest: seq<byte>)
    requires Typed(c) && Unpadded(c)
    ensures var f := Build(c, streamId);
            Parse(Print(f) + rest, maxFrameSize) == Complete(f, |Print(f)|) <==> Size(c) <= maxFrameSize && Size(c) < TWO_24
  {
    hide ParsePayload, PrintPayload, PrintHeader, Size, FlagsOf, PayloadOf, FromBe24, FromBe32;
    var f := Build(c, streamId);
    var tail := PrintPayload(f.flags, f.payload) + rest;
    assert Print(f) + rest == PrintHeader(f) + tail;
    HeaderFields(f, tail);
    PayloadRoundTrip(c, rest);
  }

  /** Any strict prefix of such a frame is left alone until more data comes. */
  lemma StrictPrefixNeedsMore(c: Call, streamId: u32, maxFrameSize: u32, k: nat)
    requires Typed(c) && Unpadded(c) && Size(c) <= maxFrameSize && Size(c) < TWO_24
    requires k < |Print(Build(c, streamId))|
    ensures Parse(Print(Build(c, streamId))[..k], maxFrameSize) == MoreData
  {
    hide ParsePayload, PrintPayload, PrintHeader, Size, FlagsOf, PayloadOf, FromBe24, Type, FromBe32;
    var f := Build(c, streamId);
    PayloadRoundTrip(c, []);
    if k >= HEADER_SIZE {
      HeaderFields(f, PrintPayload(f.flags, f.payload));
      assert Print(f)[..k][..3] == Print(f)[..3];
    }
  }

  /** A DATA, HEADERS or PUSH_PROMISE frame leaves the parser in step with the printer exactly when it
      has no padding: the constructors leave the pad length byte out of the frame's length, where section
      6.1 of RFC 7540 counts it. */
  lemma PaddedInStepExactly(c: Call, streamId: u32, maxFrameSize: u32, rest: seq<byte>)
    requires c.NewData? || c.NewHeaders? || c.NewPushPromise?
    requires Typed(c) && Size(c) <= maxFrameSize && Size(c) < TWO_24
    ensures var p := Print(Build(c, streamId));
            (var r := Parse(p + rest, maxFrameSize); r.Complete? && r.size == |p|) <==> c.padding == []
  {
    hide Parse, PrintPayload, PrintHeader, ParsePayload;
    if c.padding == [] {
      FrameRoundTrip(c, streamId, maxFrameSize, rest);
    } else {
      PaddedUsesWrongCount(c, rest);
      ParseUses(c, streamId, maxFrameSize, rest);
    }
  }

  lemma PaddedUsesWrongCount(c: Call, rest: seq<byte>)
    requires c.NewData? || c.NewHeaders? || c.NewPushPromise?
    requires Typed(c) && c.padding != []
    ensures var s := PrintPayload(FlagsOf(c), PayloadOf(c));
            var r := ParsePayload(Type(PayloadOf(c)), FlagsOf(c), Size(c), s + rest);
            r.Payload? ==> r.used != |s|
  {
    hide Has, Be32, FromBe32;
    var flags := FlagsOf(c);
    var s := PrintPayload(flags, PayloadOf(c));
    var d := s + rest;
    match c {
      case NewData(es, _, _) =>
        FlagsSurvive(es, false, true, false);
        UsedByData(flags, Size(c), d);
      case NewHeaders(es, eh, _, _, _, _) =>
        FlagsSurvive(es, eh, true, HasPriority(c));
        UsedByHeaders(flags, Size(c), d);
      case NewPushPromise(eh, _, _, _) =>
        FlagsSurvive(false, eh, true, false);
        UsedByPushPromise(flags, Size(c), d);
    }
    assert |s| == 1 + Size(c) && d[0] == s[0] == |c.padding|;
  }

  /** With the pad flag, the program uses the frame's length as it stands, or wraps to about 2^32. */
  lemma UsedByData(flags: byte, length: u32, d: seq<byte>)
    requires Has(flags, PADDED)
    ensures var r := ParseData(flags, length, d); r.Payload? ==> r.used == length || r.used == length + TWO_32
  {
    hide Has;
  }

  lemma UsedByHeaders(flags: byte, length: u32, d: seq<byte>)
    requires Has(flags, PADDED)
    ensures var r := ParseHeaders(flags, length, d); r.Payload? ==> r.used == length || r.used == length + TWO_32
  {
    hide Has, FromBe32;
  }

  lemma UsedByPushPromise(flags: byte, length: u32, d: seq<byte>)
    requires Has(flags, PADDED)
    ensures var r := ParsePushPromise(flags, length, d); r.Payload? ==> r.used == length || r.used == length + TWO_32
  {
    hide Has, FromBe32;
  }

  lemma ParseUses(c: Call, streamId: u32, maxFrameSize: u32, rest: seq<byte>)
    requires Typed(c) && Size(c) <= maxFrameSize && Size(c) < TWO_24
    ensures var f := Build(c, streamId); var r := Parse(Print(f) + rest, maxFrameSize);
            var s := PrintPayload(FlagsOf(c), PayloadOf(c));
            r.Complete? ==>
              var q := ParsePayload(Type(f.payload), FlagsOf(c), Size(c), s + rest);
              q.Payload? && r.size == HEADER_SIZE + q.used && |Print(f)| == HEADER_SIZE + |s|
  {
    hide PrintPayload, PrintHeader, ParsePayload, FromBe24, FromBe32, Size, FlagsOf, PayloadOf, Type;
    FrameLengthKept(c, streamId, rest);
  }

  lemma FrameLengthKept(c: Call, streamId: u32, rest: seq<byte>)
    requires Typed(c) && Size(c) < TWO_24
    ensures var f := Build(c, streamId); var d := Print(f) + rest;
            FromBe24(d[..3]) == Size(c) && d[3] == Type(f.payload) && d[4] == f.flags
            && d[HEADER_SIZE..] == PrintPayload(f.flags, f.payload) + rest
  {
    hide PrintHeader, PrintPayload, FromBe24, FromBe32, Type;
    var f := Build(c, streamId);
    HeaderFields(f, PrintPayload(f.flags, f.payload) + rest);
    assert Print(f) + rest == PrintHeader(f) + (PrintPayload(f.flags, f.payload) + rest);
  }

  // ---- how far the parser reaches ----

  /** The bytes of pad length, padding and fixed fields that the frame's length has to cover. */
  function Overhead(kind: byte, flags: byte, d: seq<byte>): nat {
    var pad: nat := if d == [] then 0 else d[0];
    var padding: nat := if (kind == 0 || kind == 1 || kind == 5) && Has(flags, PADDED) then 1 + pad else 0;
    var fields: nat :=
      match kind
      case 1 => if Has(flags, PRIORITY) then 5 else 0
      case 2 => 5
      case 3 => 4
      case 5 => 4
      case 6 => 8
      case 7 => 8
      case 8 => 4
      case _ => 0;
    padding + fields
  }

  predicate Contained(kind: byte, flags: byte, length: u32, d: seq<byte>) {
    Overhead(kind, flags, d) <= length
  }

  /** How much of the buffer behind the frame header the parser takes for the payload, whatever is there:
      fixed sizes as they are, and a length that is too short for its padding or fields wraps. */
  function Extent(kind: byte, flags: byte, length: u32, d: seq<byte>): nat {
    match kind
    case 2 => 5
    case 3 => 4
    case 4 => 6 * (length / 6 % 0x1_0000)
    case 6 => 8
    case 8 => 4
    case _ => if kind > 9 then 0 else if Contained(kind, flags, length, d) then length else length + TWO_32
  }

  lemma ExtentOfData(flags: byte, length: u32, d: seq<byte>)
    ensures var r := ParseData(flags, length, d); var e := Extent(0, flags, length, d);
            (r.PastEnd? <==> |d| < e) && (r.Payload? ==> r.used == e)
  {
    hide Has;
  }

  lemma ExtentOfHeaders(flags: byte, length: u32, d: seq<byte>)
    ensures var r := ParseHeaders(flags, length, d); var e := Extent(1, flags, length, d);
            (r.PastEnd? <==> |d| < e) && (r.Payload? ==> r.used == e)
  {
    hide Has, FromBe32;
  }

  lemma ExtentOfPushPromise(flags: byte, length: u32, d: seq<byte>)
    ensures var r := ParsePushPromise(flags, length, d); var e := Extent(5, flags, length, d);
            (r.PastEnd? <==> |d| < e) && (r.Payload? ==> r.used == e)
  {
    hide Has, FromBe32;
  }

  /** The payload parser runs past the end of the buffer exactly if the extent does, and otherwise uses
      exactly the extent. */
  lemma PastEndExactly(kind: byte, flags: byte, length: u32, d: seq<byte>)
    ensures var r := ParsePayload(kind, flags, length, d); var e := Extent(kind, flags, length, d);
            && (r.UnknownType? <==> kind > 9)
            && (r.PastEnd? <==> |d| < e) && (r.Payload? ==> r.used == e)
  {
    hide Has, FromBe32, ParseData, ParseHeaders, ParsePushPromise, ParseParams;
    ExtentOfData(flags, length, d);
    ExtentOfHeaders(flags, length, d);
    ExtentOfPushPromise(flags, length, d);
  }

  /** With exactly the frame's own bytes there, that is a matter of the frame alone. */
  lemma OwnBytesExactly(kind: byte, flags: byte, length: u32, d: seq<byte>)
    requires |d| == length
    ensures ParsePayload(kind, flags, length, d).PastEnd? <==> !Contained(kind, flags, length, d)
    ensures Contained(kind, flags, length, d) <==> Extent(kind, flags, length, d) <= length
  {
    hide Has, ParsePayload;
    PastEndExactly(kind, flags, length, d);
  }
}
