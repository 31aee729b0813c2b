/** The frames of sections 6.1 to 6.10 of RFC 7540 as the standard draws them, padded or not: what the parser of
    src/http2/co_http2_frame.c:270-528 makes of them, whoever sent them, and which of them the constructors and
    the printer of src/http2/co_http2_frame.c:33-209, 536-880 send. */
module FrameWire {
  import opened Machine
  import opened Frame

  /** A payload with its type; `padding` is present exactly in padded frames. */
  datatype Drawn =
    | DrawnData(padding: Option<seq<byte>>, data: seq<byte>)
    | DrawnHeaders(padding: Option<seq<byte>>, priority: Option<(u32, byte)>, block: seq<byte>)
    | DrawnPriority(dependency: u32, weight: byte)
    | DrawnReset(errorCode: u32)
    | DrawnSettings(params: seq<(u16, u32)>)
    | DrawnPromise(padding: Option<seq<byte>>, promised: u32, block: seq<byte>)
    | DrawnPing(opaqueData: seq<byte>)
    | DrawnGoAway(lastStream: u32, errorCode: u32, debugData: seq<byte>)
    | DrawnUpdate(increment: u32)
    | DrawnContinuation(block: seq<byte>)

  /** Type codes of section 11.2. */
  function Code(x: Drawn): byte {
    match x
    case DrawnData(_, _) => 0x0
    case DrawnHeaders(_, _, _) => 0x1
    case DrawnPriority(_, _) => 0x2
    case DrawnReset(_) => 0x3
    case DrawnSettings(_) => 0x4
    case DrawnPromise(_, _, _) => 0x5
    case DrawnPing(_) => 0x6
    case DrawnGoAway(_, _, _) => 0x7
    case DrawnUpdate(_) => 0x8
    case DrawnContinuation(_) => 0x9
  }

  predicate Proper(x: Drawn) {
    && (x.DrawnData? || x.DrawnHeaders? || x.DrawnPromise? ==> x.padding.Some? ==> |x.padding.value| < 0x100)
    && (x.DrawnPing? ==> |x.opaqueData| == 8)
  }

  function PadLength(padding: Option<seq<byte>>): byte
    requires padding.Some? ==> |padding.value| < 0x100
  {
    if padding.Some? then |padding.value| else 0
  }

  /** The pad length in front of a padded payload, and the padding behind it. */
  function Padded(padding: Option<seq<byte>>, s: seq<byte>): seq<byte>
    requires padding.Some? ==> |padding.value| < 0x100
  {
    match padding
    case None => s
    case Some(p) => [|p|] + s + p
  }

  function Pairs(params: seq<(u16, u32)>): (s: seq<byte>)
    ensures |s| == 6 * |params|
  {
    if params == [] then [] else Be16(params[0].0) + Be32(params[0].1) + Pairs(params[1..])
  }

  function Body(x: Drawn): seq<byte>
    requires Proper(x)
  {
    match x
    case DrawnData(padding, data) => Padded(padding, data)
    case DrawnHeaders(padding, None, block) => Padded(padding, block)
    case DrawnHeaders(padding, Some((dependency, weight)), block) => Padded(padding, Be32(dependency) + [weight] + block)
    case DrawnPriority(dependency, weight) => Be32(dependency) + [weight]
    case DrawnReset(errorCode) => Be32(errorCode)
    case DrawnSettings(params) => Pairs(params)
    case DrawnPromise(padding, promised, block) => Padded(padding, Be32(promised) + block)
    case DrawnPing(opaqueData) => opaqueData
    case DrawnGoAway(lastStream, errorCode, debugData) => Be32(lastStream) + Be32(errorCode) + debugData
    case DrawnUpdate(increment) => Be32(increment)
    case DrawnContinuation(block) => block
  }

  /** Section 4.1: length, type, flags, stream and payload. */
  function Wire(x: Drawn, flags: byte, streamId: u32): seq<byte>
    requires Proper(x)
  {
    Be24(|Body(x)|) + [Code(x), flags] + Be32(streamId) + Body(x)
  }

  /** The flags that tell what is there. */
  predicate FlagsFit(x: Drawn, flags: byte) {
    && (x.DrawnData? || x.DrawnHeaders? || x.DrawnPromise? ==> (Has(flags, 0x8) <==> x.padding.Some?))
    && (x.DrawnHeaders? ==> (Has(flags, 0x20) <==> x.priority.Some?))
  }

  function ParamsOf(params: seq<(u16, u32)>): (r: seq<Param>)
    ensures |r| == |params| && forall i :: 0 <= i < |r| ==> r[i] == Param(params[i].0, params[i].1)
  {
    seq(|params|, i requires 0 <= i < |params| => Param(params[i].0, params[i].1))
  }

  /** What the program holds of it: padding is counted, but not kept. */
  function Meaning(x: Drawn): Payload
    requires Proper(x)
  {
    match x
    case DrawnData(padding, data) => Data(PadLength(padding), data, [])
    case DrawnHeaders(padding, None, block) => Headers(PadLength(padding), 0, 0, block, [])
    case DrawnHeaders(padding, Some((dependency, weight)), block) => Headers(PadLength(padding), dependency, weight, block, [])
    case DrawnPriority(dependency, weight) => Priority(dependency, weight)
    case DrawnReset(errorCode) => RstStream(errorCode)
    case DrawnSettings(params) => Settings(ParamsOf(params))
    case DrawnPromise(padding, promised, block) => PushPromise(PadLength(padding), promised, block, [])
    case DrawnPing(opaqueData) => Ping(opaqueData)
    case DrawnGoAway(lastStream, errorCode, debugData) => GoAway(lastStream, errorCode, debugData)
    case DrawnUpdate(increment) => WindowUpdate(increment)
    case DrawnContinuation(block) => Continuation(block)
  }

  ghost predicate BodyDecodes(x: Drawn, flags: byte, rest: seq<byte>)
    requires Proper(x) && |Body(x)| < TWO_32
  {
    ParsePayload(Code(x), flags, |Body(x)|, Body(x) + rest) == PayloadParsed.Payload(Meaning(x), |Body(x)|)
  }

  lemma PadFound(padding: Option<seq<byte>>, s: seq<byte>, flags: byte, rest: seq<byte>)
    requires padding.Some? ==> |padding.value| < 0x100
    requires |Padded(padding, s)| < TWO_32 && (Has(flags, 0x8) <==> padding.Some?)
    ensures var body := Padded(padding, s); var at := if padding.Some? then 1 else 0; var pad := PadLength(padding);
            && ParsePad(flags, |body|, body + rest) == Some(Pad(pad, at, |s|))
            && |body| == at + |s| + pad && (body + rest)[at..at + |s|] == s
  {
    hide Has;
    var body := Padded(padding, s);
    if padding.Some? {
      assert body == [|padding.value|] + (s + padding.value);
    }
  }

  lemma DataDecodes(x: Drawn, flags: byte, rest: seq<byte>)
    requires x.DrawnData? && Proper(x) && |Body(x)| < TWO_32 && FlagsFit(x, flags)
    ensures BodyDecodes(x, flags, rest)
  {
    hide Has, ParsePad, Padded;
    PadFound(x.padding, x.data, flags, rest);
  }

  lemma HeadersDecode(x: Drawn, flags: byte, rest: seq<byte>)
    requires x.DrawnHeaders? && Proper(x) && |Body(x)| < TWO_32 && FlagsFit(x, flags)
    ensures BodyDecodes(x, flags, rest)
  {
    hide Has, ParsePad, Padded, Be32, FromBe32;
    match x.priority {
      case None => PadFound(x.padding, x.block, flags, rest);
      case Some((dependency, weight)) =>
        var s := Be32(dependency) + [weight] + x.block;
        PadFound(x.padding, s, flags, rest);
        var at := if x.padding.Some? then 1 else 0;
        Slices(Body(x) + rest, at, s, dependency, weight, x.block);
    }
  }

  lemma Slices(d: seq<byte>, at: nat, s: seq<byte>, dependency: u32, weight: byte, block: seq<byte>)
    requires s == Be32(dependency) + [weight] + block && at + |s| <= |d| && d[at..at + |s|] == s
    ensures FromBe32(d[at..at + 4]) == dependency && d[at + 4] == weight && d[at + 5..at + |s|] == block
  {
    hide Be32, FromBe32;
    assert d[at..at + 4] == s[..4] == Be32(dependency);
    assert d[at + 4] == s[4];
    assert d[at + 5..at + |s|] == s[5..] == block;
  }

  lemma PromiseDecodes(x: Drawn, flags: byte, rest: seq<byte>)
    requires x.DrawnPromise? && Proper(x) && |Body(x)| < TWO_32 && FlagsFit(x, flags)
    ensures BodyDecodes(x, flags, rest)
  {
    hide Has, ParsePad, Padded, Be32, FromBe32;
    var s := Be32(x.promised) + x.block;
    PadFound(x.padding, s, flags, rest);
    var at := if x.padding.Some? then 1 else 0;
    var d := Body(x) + rest;
    assert d[at..at + 4] == s[..4] == Be32(x.promised);
    assert d[at + 4..at + |s|] == s[4..] == x.block;
  }

  lemma {:induction false} PairsDecode(params: seq<(u16, u32)>, rest: seq<byte>)
    ensures ParseParams(Pairs(params) + rest, |params|) == ParamsOf(params)
  {
    hide Be16, Be32, FromBe16, FromBe32;
    if params != [] {
      var d := Pairs(params) + rest;
      assert d[..2] == Be16(params[0].0) && d[2..6] == Be32(params[0].1) && d[6..] == Pairs(params[1..]) + rest;
      PairsDecode(params[1..], rest);
      assert ParamsOf(params) == [Param(params[0].0, params[0].1)] + ParamsOf(params[1..]);
    }
  }

  lemma OthersDecode(x: Drawn, flags: byte, rest: seq<byte>)
    requires !x.DrawnData? && !x.DrawnHeaders? && !x.DrawnPromise? && Proper(x) && |Body(x)| < TWO_32
    requires x.DrawnSettings? ==> |x.params| < 0x1_0000
    ensures BodyDecodes(x, flags, rest)
  {
    hide Be32, FromBe32, Be16, FromBe16;
    var d := Body(x) + rest;
    match x {
      case DrawnPriority(dependency, weight) => assert d[..4] == Be32(dependency);
      case DrawnReset(errorCode) => assert d[..4] == Be32(errorCode);
      case DrawnSettings(params) => PairsDecode(params, rest);
      case DrawnPing(opaqueData) => assert d[..8] == opaqueData;
      case DrawnGoAway(lastStream, errorCode, debugData) =>
        assert d[..4] == Be32(lastStream) && d[4..8] == Be32(errorCode) && d[8..8 + |debugData|] == debugData;
      case DrawnUpdate(increment) => assert d[..4] == Be32(increment);
      case DrawnContinuation(block) => assert d[..|block|] == block;
    }
  }

  /** Every frame the standard allows, padded or not, from whatever sender and with whatever other flags, is
      taken apart rightly and uses exactly its bytes, if its length is within the receiver's maximum. */
  lemma Decodes(x: Drawn, flags: byte, streamId: u32, maxFrameSize: u32, rest: seq<byte>)
    requires Proper(x) && FlagsFit(x, flags) && |Body(x)| < TWO_24 && (x.DrawnSettings? ==> |x.params| < 0x1_0000)
    ensures var p := Parse(Wire(x, flags, streamId) + rest, maxFrameSize); var n := |Body(x)|;
            p == if n <= maxFrameSize then Complete(Frame(n, flags, streamId, Meaning(x)), HEADER_SIZE + n) else Error
  {
    hide ParsePayload, Body, Be24, FromBe24, Be32, FromBe32, Has, Meaning, BodyDecodes;
    HeaderFound(x, flags, streamId, rest);
    if x.DrawnData? { DataDecodes(x, flags, rest); }
    else if x.DrawnHeaders? { HeadersDecode(x, flags, rest); }
    else if x.DrawnPromise? { PromiseDecodes(x, flags, rest); }
    else { OthersDecode(x, flags, rest); }
    BodyIs(x, flags, rest);
  }

  lemma BodyIs(x: Drawn, flags: byte, rest: seq<byte>)
    requires Proper(x) && |Body(x)| < TWO_32 && BodyDecodes(x, flags, rest)
    ensures ParsePayload(Code(x), flags, |Body(x)|, Body(x) + rest) == PayloadParsed.Payload(Meaning(x), |Body(x)|)
  {
  }

  lemma HeaderFound(x: Drawn, flags: byte, streamId: u32, rest: seq<byte>)
    requires Proper(x) && |Body(x)| < TWO_24
    ensures var d := Wire(x, flags, streamId) + rest;
            && FromBe24(d[..3]) == |Body(x)| && d[3] == Code(x) && d[4] == flags && FromBe32(d[5..9]) == streamId
            && d[HEADER_SIZE..] == Body(x) + rest
  {
    hide Body, FromBe24, FromBe32, Be24, Be32;
    var d := Wire(x, flags, streamId) + rest;
    assert d[..3] == Be24(|Body(x)|) && d[5..9] == Be32(streamId);
  }

  /** SETTINGS have their parameters counted in 16 bits: with more of them than that the rest of the payload is
      taken for the next frame. */
  lemma SettingsDecodeExactly(x: Drawn, flags: byte, streamId: u32, maxFrameSize: u32, rest: seq<byte>)
    requires x.DrawnSettings? && |Body(x)| < TWO_24 && |Body(x)| <= maxFrameSize
    ensures var p := Parse(Wire(x, flags, streamId) + rest, maxFrameSize); var n := |Body(x)|;
            && p.Complete? && p.frame.payload.Settings? && |p.frame.payload.params| == |x.params| % 0x1_0000
            && (p.size == HEADER_SIZE + n <==> |x.params| < 0x1_0000)
  {
    hide FromBe24, FromBe32, ParsePayload, Be24, Be32, Body;
    HeaderFound(x, flags, streamId, rest);
    SettingsBody(x, flags, rest);
  }

  lemma SettingsBody(x: Drawn, flags: byte, rest: seq<byte>)
    requires x.DrawnSettings? && |Body(x)| < TWO_24
    ensures var r := ParsePayload(Code(x), flags, |Body(x)|, Body(x) + rest); var count := |x.params| % 0x1_0000;
            r.Payload? && r.payload.Settings? && |r.payload.params| == count && r.used == 6 * count && |Body(x)| == 6 * |x.params|
  {
    hide ParseParams, Pairs;
    ParamsCounted(Body(x) + rest, |x.params| % 0x1_0000);
  }

  lemma {:induction false} ParamsCounted(d: seq<byte>, count: nat)
    requires 6 * count <= |d|
    ensures |ParseParams(d, count)| == count
    decreases count
  {
    if count > 0 {
      ParamsCounted(d[6..], count - 1);
    }
  }

  // ---- what the constructors send ----

  /** A call as the frame it is meant to be. */
  function Of(c: Call): Drawn {
    match c
    case NewData(_, data, _) => DrawnData(None, data)
    case NewHeaders(_, _, block, dependency, weight, _) =>
      DrawnHeaders(None, if dependency != 0 || weight != 0 then Some((dependency, weight)) else None, block)
    case NewPriority(dependency, weight) => DrawnPriority(dependency, weight)
    case NewRstStream(errorCode) => DrawnReset(errorCode)
    case NewSettings(_, params) => DrawnSettings(PairsOf(params))
    case NewPushPromise(_, promised, block, _) => DrawnPromise(None, promised, block)
    case NewPing(_, opaqueData) => DrawnPing(opaqueData)
    case NewGoAway(lastStream, errorCode, debugData) => DrawnGoAway(lastStream, errorCode, debugData)
    case NewWindowUpdate(increment) => DrawnUpdate(increment)
    case NewContinuation(_, block) => DrawnContinuation(block)
  }

  function PairsOf(params: seq<Param>): (r: seq<(u16, u32)>)
    ensures |r| == |params| && forall i :: 0 <= i < |r| ==> r[i] == (params[i].id, params[i].value)
  {
    seq(|params|, i requires 0 <= i < |params| => (params[i].id, params[i].value))
  }

  /** The flags of sections 6.1 to 6.10. */
  function FlagsDrawn(c: Call): nat {
    match c
    case NewData(endStream, _, _) => if endStream then 0x1 else 0
    case NewHeaders(endStream, endHeaders, _, _, _, _) =>
      (if endStream then 0x1 else 0) + (if endHeaders then 0x4 else 0) + (if Of(c).priority.Some? then 0x20 else 0)
    case NewSettings(ack, _) => if ack then 0x1 else 0
    case NewPushPromise(endHeaders, _, _, _) => if endHeaders then 0x4 else 0
    case NewPing(ack, _) => if ack then 0x1 else 0
    case NewContinuation(endHeaders, _) => if endHeaders then 0x4 else 0
    case _ => 0
  }

  lemma {:induction false} PairsPrinted(params: seq<Param>)
    ensures PrintParams(params) == Pairs(PairsOf(params))
  {
    hide Be16, Be32;
    if params != [] {
      PairsPrinted(params[1..]);
      assert PairsOf(params)[1..] == PairsOf(params[1..]);
    }
  }

  lemma HeadersPrinted(c: Call)
    requires c.NewHeaders? && Typed(c) && c.padding == []
    ensures Proper(Of(c)) && Body(Of(c)) == PrintPayload(FlagsOf(c), PayloadOf(c)) && |Body(Of(c))| == Size(c)
  {
    hide Be32, Has;
    FlagsSurvive(c.endStream, c.endHeaders, false, HasPriority(c));
    if HasPriority(c) {
      var first := Be32(c.dependency) + [c.weight];
      assert [] + first + c.block + [] == first + c.block;
    } else {
      assert [] + [] + c.block + [] == c.block;
    }
  }

  lemma BodyPrinted(c: Call)
    requires Typed(c) && Unpadded(c)
    ensures Proper(Of(c)) && Body(Of(c)) == PrintPayload(FlagsOf(c), PayloadOf(c)) && |Body(Of(c))| == Size(c)
  {
    hide Be32, Be16, Has;
    match c {
      case NewData(es, data, _) =>
        FlagsSurvive(es, false, false, false);
        assert [] + data + [] == data;
      case NewHeaders(_, _, _, _, _, _) => HeadersPrinted(c);
      case NewPushPromise(eh, promised, block, _) =>
        FlagsSurvive(false, eh, false, false);
        assert [] + Be32(promised) + block + [] == Be32(promised) + block;
      case NewSettings(_, params) => PairsPrinted(params);
      case _ =>
    }
  }

  /** Byte for byte, every constructor's unpadded frame is printed as the standard draws it. */
  lemma ConstructorsConform(c: Call, streamId: u32)
    requires Typed(c) && Unpadded(c)
    ensures Proper(Of(c)) && FlagsDrawn(c) < 0x100
    ensures Print(Build(c, streamId)) == Wire(Of(c), FlagsDrawn(c), streamId)
  {
    hide Be24, Be32, Body, PrintPayload;
    BodyPrinted(c);
    assert Type(PayloadOf(c)) == Code(Of(c)) && FlagsOf(c) == FlagsDrawn(c);
  }
}
