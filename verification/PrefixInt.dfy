/** HPACK prefix integers (section 5.1 of RFC 7541), src/http2/co_http2_hpack.c:89-166. */
module PrefixInt {
  import opened Machine

  /** The largest value of a prefix of n bits, for the four prefix sizes HPACK uses. */
  predicate IsPrefixMax(bitMax: byte) {
    bitMax == 15 || bitMax == 31 || bitMax == 63 || bitMax == 127
  }

  // ---- printing ----

  function Tail(v: nat): (s: seq<byte>)
    ensures |s| >= 1
  {
    if v >= 128 then [v % 128 + 128] + Tail(v / 128) else [v]
  }

  function Print(bitMax: byte, flagged: bool, v: u32): (s: seq<byte>)
    requires IsPrefixMax(bitMax)
    ensures |s| >= 1
    ensures s[0] == (if flagged then bitMax + 1 else 0) + Min(v, bitMax)
  {
    var flag := if flagged then bitMax + 1 else 0;
    if v < bitMax then [v + flag] else [bitMax + flag] + Tail(v - bitMax)
  }

  /** One more continuation byte moved from what is still to print to what is printed. */
  ghost function Moved(printed: seq<byte>, v: nat): (more: seq<byte>)
    requires v >= 128
    ensures more + Tail(v / 128) == printed + Tail(v)
    ensures more == printed + [v % 128 + 128]
  {
    assert printed + [v % 128 + 128] + Tail(v / 128) == printed + ([v % 128 + 128] + Tail(v / 128));
    printed + [v % 128 + 128]
  }

  /** The flag is a single bit above the prefix, so or-ing it in is adding it. */
  method Serialize(bitMax: byte, flagged: bool, value: u32, buffer: ByteArray)
    requires IsPrefixMax(bitMax)
    modifies buffer
    ensures buffer.bytes == old(buffer.bytes) + Print(bitMax, flagged, value)
  {
    var flag := if flagged then bitMax + 1 else 0;
    if value < bitMax {
      buffer.Add([value + flag]);
    } else {
      buffer.Add([bitMax + flag]);
      hide Tail;
      SerializeTail(value - bitMax, buffer);
      Associative(old(buffer.bytes), [bitMax + flag], Tail(value - bitMax));
    }
  }

  method SerializeTail(value: u32, buffer: ByteArray)
    modifies buffer
    ensures buffer.bytes == old(buffer.bytes) + Tail(value)
  {
    hide Tail;
    var v: nat := value;
    ghost var tail: seq<byte> := [];
    while v >= 128
      invariant v < TWO_32
      invariant buffer.bytes == old(buffer.bytes) + tail
      invariant tail + Tail(v) == Tail(value)
    {
      tail := Moved(tail, v);
      buffer.Add([v % 128 + 128]);
      v := v / 128;
    }
    LastOfTail(v);
    buffer.Add([v]);
    Associative(old(buffer.bytes), tail, [v]);
  }

  lemma LastOfTail(v: nat)
    requires v < 128
    ensures Tail(v) == [v]
  {
  }

  // ---- parsing ----

  /** `b & ~flag` for a one-bit flag: only that bit is cleared, higher bits stay. */
  function ClearBit(b: byte, flag: int): (r: byte)
    requires flag == 16 || flag == 32 || flag == 64 || flag == 128
    ensures b < 2 * flag ==> r == b % flag
  {
    if (b / flag) % 2 == 1 then b - flag else b
  }

  /** The continuation loop, with a 32-bit accumulator and a 32-bit multiplier that both wrap. */
  function ParseTail(data: seq<byte>, i: nat, value: u32, m: u32): (r: Option<(u32, nat)>)
    ensures r.Some? ==> i < r.value.1 <= |data|
    decreases |data| - i
  {
    if |data| <= i then None
    else
      var b := data[i];
      var v := Wrap32(value + (b % 128) * m);
      if b >= 128 then ParseTail(data, i + 1, v, Wrap32(m * 128)) else Some((v, i + 1))
  }

  function Parse(bitMax: byte, data: seq<byte>): (r: Option<(u32, nat)>)
    requires IsPrefixMax(bitMax)
    ensures r.Some? ==> 1 <= r.value.1 <= |data|
  {
    if |data| == 0 then None
    else
      var v := ClearBit(data[0], bitMax + 1);
      if v >= bitMax then ParseTail(data, 1, v, 1) else Some((v, 1))
  }

  /** A failed parse has no meaningful value or index: every caller gives up at once. */
  method Deserialize(bitMax: byte, data: seq<byte>) returns (ok: bool, value: u32, index: nat)
    requires IsPrefixMax(bitMax)
    ensures ok <==> Parse(bitMax, data).Some?
    ensures ok ==> Parse(bitMax, data) == Some((value, index))
  {
    value, index := 0, 0;
    if |data| == 0 {
      return false, value, index;
    }
    value := ClearBit(data[0], bitMax + 1);
    index := 1;
    if value >= bitMax {
      var b: byte := 128;
      var m: u32 := 1;
      while b >= 128
        invariant 1 <= index <= |data|
        invariant b >= 128 ==> Parse(bitMax, data) == ParseTail(data, index, value, m)
        invariant b < 128 ==> Parse(bitMax, data) == Some((value, index))
        decreases |data| - index, b
      {
        if |data| <= index {
          return false, value, index;
        }
        b := data[index];
        index := index + 1;
        value := Wrap32(value + (b % 128) * m);
        m := Wrap32(m * 128);
      }
    }
    ok := true;
  }

  // ---- round trip ----

  function Power128(n: nat): (p: nat)
    ensures p >= 1
  {
    if n == 0 then 1 else 128 * Power128(n - 1)
  }

  lemma {:induction false} TailLength(v: nat, n: nat)
    requires n >= 1 && v < Power128(n)
    ensures |Tail(v)| <= n
  {
    if v >= 128 {
      assert n >= 2;
      assert v / 128 < Power128(n - 1);
      TailLength(v / 128, n - 1);
    }
  }

  /** One turn of the loop. */
  lemma ParseTailOnce(data: seq<byte>, i: nat, value: u32, m: u32)
    requires i < |data|
    ensures var v := Wrap32(value + (data[i] % 128) * m);
            ParseTail(data, i, value, m) == if data[i] >= 128 then ParseTail(data, i + 1, v, Wrap32(m * 128)) else Some((v, i + 1))
  {
  }

  function Times(a: nat, b: nat): nat {
    a * b
  }

  /** The same when nothing wraps. */
  lemma ParseTailNext(data: seq<byte>, i: nat, value: u32, m: u32)
    requires i < |data| && value + Times(data[i] % 128, m) < TWO_32
    ensures var v := value + Times(data[i] % 128, m);
            && (data[i] < 128 ==> ParseTail(data, i, value, m) == Some((v, i + 1)))
            && (data[i] >= 128 && 128 * m < TWO_32 ==> ParseTail(data, i, value, m) == ParseTail(data, i + 1, v, 128 * m))
  {
    hide ParseTail;
    ParseTailOnce(data, i, value, m);
  }

  /** While digits remain, neither the multiplier nor the accumulator has wrapped. */
  lemma {:induction false} ParseTailOfTail(data: seq<byte>, i: nat, w: nat, value: u32, m: u32)
    requires m >= 1 && value + Times(w, m) < TWO_32
    requires i + |Tail(w)| <= |data| && data[i..i + |Tail(w)|] == Tail(w)
    ensures ParseTail(data, i, value, m) == Some((value + Times(w, m), i + |Tail(w)|))
    decreases w
  {
    TailStep(data, i, w);
    LowDigit(w, m);
    hide Tail, ParseTail, Times;
    ParseTailNext(data, i, value, m);
    if w >= 128 {
      ParseTailOfTail(data, i + 1, w / 128, value + Times(w % 128, m), 128 * m);
    }
  }

  lemma TailStep(data: seq<byte>, i: nat, w: nat)
    requires i + |Tail(w)| <= |data| && data[i..i + |Tail(w)|] == Tail(w)
    ensures data[i] % 128 == w % 128 && (data[i] >= 128 <==> w >= 128)
    ensures w >= 128 ==>
              |Tail(w)| == 1 + |Tail(w / 128)| && data[i + 1..i + 1 + |Tail(w / 128)|] == Tail(w / 128)
    ensures w < 128 ==> |Tail(w)| == 1
  {
    TailShape(w);
    hide Tail;
    var tail := Tail(w);
    assert data[i] == data[i..i + |tail|][0];
    if w >= 128 {
      assert tail[1..] == Tail(w / 128);
      assert data[i + 1..i + |tail|] == data[i..i + |tail|][1..];
    }
  }

  lemma TailShape(w: nat)
    ensures Tail(w) == if w >= 128 then [w % 128 + 128] + Tail(w / 128) else [w]
  {
  }

  lemma LowDigit(w: nat, m: nat)
    ensures Times(w, m) == Times(w / 128, 128 * m) + Times(w % 128, m)
    ensures w >= 128 ==> Times(w / 128, 128 * m) >= 128 * m
    ensures w < 128 ==> Times(w % 128, m) == Times(w, m)
  {
    var q, d := w / 128, w % 128;
    assert w * m == (128 * q + d) * m;
    assert (128 * q + d) * m == q * (128 * m) + d * m;
    if q >= 1 { MulMono(q, 128 * m); }
  }

  lemma MulMono(q: int, x: int)
    requires q >= 1 && x >= 0
    ensures q * x >= x
  {
    assert q * x == x + (q - 1) * x;
    assert (q - 1) * x >= 0;
  }

  // ---- what any bytes come to ----

  /** The continuation bytes as digits to the base 128, the lowest first. */
  function Digits(s: seq<byte>): nat {
    if s == [] then 0 else s[0] % 128 + 128 * Digits(s[1..])
  }

  /** All bytes but the last have the high bit. */
  predicate Continues(s: seq<byte>) {
    s != [] && s[|s| - 1] < 128 && forall k :: 0 <= k < |s| - 1 ==> s[k] >= 128
  }

  lemma SameModulo(x: int, y: int, k: int)
    requires x == y + k * TWO_32
    ensures x % TWO_32 == y % TWO_32
  {
  }

  /** One digit more, with everything kept modulo 2^32. */
  lemma SumStep(value: u32, digit: nat, m: u32, later: nat)
    ensures (Wrap32(value + Times(digit, m)) + Times(Wrap32(m * 128), later)) % TWO_32
            == (value + Times(m, digit + 128 * later)) % TWO_32
  {
    var a := value + digit * m;
    var b := m * 128;
    var p, q := a / TWO_32, b / TWO_32;
    assert (b - q * TWO_32) * later == b * later - (q * later) * TWO_32;
    assert m * (digit + 128 * later) == digit * m + b * later;
    SameModulo(value + m * (digit + 128 * later), (a - p * TWO_32) + (b - q * TWO_32) * later, p + q * later);
  }

  /** The continuation loop, over any bytes: it stops at the first byte without the high bit, with the sum of
      the digits modulo 2^32, and fails if there is none. */
  lemma {:induction false} TailIsSum(data: seq<byte>, i: nat, value: u32, m: u32)
    requires i <= |data|
    ensures var r := ParseTail(data, i, value, m);
            && (r.None? <==> forall k :: i <= k < |data| ==> data[k] >= 128)
            && (r.Some? ==> Continues(data[i..r.value.1])
                            && r.value.0 == (value + Times(m, Digits(data[i..r.value.1]))) % TWO_32)
    decreases |data| - i
  {
    hide Times, Digits, Wrap32, ParseTail, Continues;
    if i == |data| {
      NothingToParse(data, i, value, m);
    } else {
      var b := data[i];
      ParseTailOnce(data, i, value, m);
      TimesIs(b % 128, m);
      if b >= 128 {
        var v := Wrap32(value + (b % 128) * m);
        TailIsSum(data, i + 1, v, Wrap32(m * 128));
        var r := ParseTail(data, i, value, m);
        if r.Some? { SumContinues(data, i, value, m, r.value.1); }
      } else {
        SumEnds(data, i, value, m);
      }
    }
  }

  lemma NothingToParse(data: seq<byte>, i: nat, value: u32, m: u32)
    requires i == |data|
    ensures ParseTail(data, i, value, m) == None
  {
  }

  lemma SumContinues(data: seq<byte>, i: nat, value: u32, m: u32, end: nat)
    requires i + 1 <= end <= |data| && data[i] >= 128 && Continues(data[i + 1..end])
    ensures Continues(data[i..end])
    ensures var v := Wrap32(value + Times(data[i] % 128, m)); var rest := Digits(data[i + 1..end]);
            (v + Times(Wrap32(m * 128), rest)) % TWO_32 == (value + Times(m, Digits(data[i..end]))) % TWO_32
  {
    hide Times, Digits, Wrap32;
    var rest := data[i + 1..end];
    assert data[i..end] == [data[i]] + rest;
    DigitsCons(data[i], rest);
    SumStep(value, data[i] % 128, m, Digits(rest));
  }

  lemma SumEnds(data: seq<byte>, i: nat, value: u32, m: u32)
    requires i < |data| && data[i] < 128
    ensures Continues(data[i..i + 1])
    ensures Wrap32(value + Times(data[i] % 128, m)) == (value + Times(m, Digits(data[i..i + 1]))) % TWO_32
  {
    hide Times, Digits, Wrap32;
    assert data[i..i + 1] == [data[i]] + [];
    DigitsCons(data[i], []);
    SumStep(value, data[i] % 128, m, 0);
    NoDigits(Wrap32(m * 128));
    WrapIs(value + Times(data[i] % 128, m));
  }

  lemma TimesIs(a: nat, b: nat)
    ensures Times(a, b) == a * b
  {
  }

  lemma WrapIs(x: nat)
    ensures Wrap32(x) == x % TWO_32 && Wrap32(x) % TWO_32 == Wrap32(x)
  {
  }

  lemma NoDigits(m: nat)
    ensures Digits([]) == 0 && Times(m, 0) == 0
  {
  }

  lemma DigitsCons(b: byte, rest: seq<byte>)
    ensures Digits([b] + rest) == b % 128 + 128 * Digits(rest)
  {
    assert ([b] + rest)[1..] == rest;
  }

  /** What any bytes are parsed to: the prefix alone if it is not full, else the prefix plus the continuation
      digits, modulo 2^32; and no more is used. Section 5.1 of RFC 7541 has the same without the modulus. */
  lemma ParseIsSum(bitMax: byte, data: seq<byte>)
    requires IsPrefixMax(bitMax) && data != [] && data[0] < 2 * (bitMax + 1)
    ensures var r := Parse(bitMax, data); var prefix := data[0] % (bitMax + 1);
            && (prefix < bitMax ==> r == Some((prefix, 1)))
            && (prefix == bitMax ==>
                  && (r.None? <==> forall k :: 1 <= k < |data| ==> data[k] >= 128)
                  && (r.Some? ==> Continues(data[1..r.value.1])
                                  && r.value.0 == (bitMax + Digits(data[1..r.value.1])) % TWO_32))
  {
    hide Digits, ParseTail, Continues, ClearBit;
    FlagMaskIsModulo(bitMax, data[0]);
    TailIsSum(data, 1, bitMax, 1);
    assert forall x: nat :: Times(1, x) == x;
  }

  /** The standard's example C.1.2: 1337 with a prefix of five bits. */
  lemma ExampleInteger()
    ensures Print(31, false, 1337) == [0x1f, 0x9a, 0x0a] && Print(31, false, 10) == [0x0a]
  {
    assert Tail(10) == [10];
    assert Tail(1306) == [154] + Tail(10);
  }

  /** Every 32-bit value survives printing and parsing at every prefix size, in at most six bytes,
      whatever follows it in the block. */
  lemma {:induction false} RoundTrip(bitMax: byte, flagged: bool, v: u32, rest: seq<byte>)
    requires IsPrefixMax(bitMax)
    ensures var s := Print(bitMax, flagged, v);
            |s| <= 6 && Parse(bitMax, s + rest) == Some((v, |s|))
  {
    var s := Print(bitMax, flagged, v);
    var data := s + rest;
    if v >= bitMax {
      var w := v - bitMax;
      assert Power128(5) == 128 * 128 * 128 * 128 * 128 by {
        assert Power128(1) == 128 && Power128(2) == 128 * 128;
        assert Power128(3) == 128 * Power128(2) && Power128(4) == 128 * Power128(3);
      }
      TailLength(w, 5);
      assert data[1..1 + |Tail(w)|] == Tail(w);
      ParseTailOfTail(data, 1, w, bitMax, 1);
    }
  }

  /** The parser clears one flag bit only. Below twice the flag, which the dispatch on the first
      byte ensures, that is reduction modulo 2^n; above it the parse differs from section 5.1. */
  lemma {:induction false} FlagMaskIsModulo(bitMax: byte, b: byte)
    requires IsPrefixMax(bitMax)
    ensures ClearBit(b, bitMax + 1) == b % (bitMax + 1) <==> b < 2 * (bitMax + 1)
  {
    var f := bitMax + 1;
    var q := b / f;
    assert b == q * f + b % f;
    if q >= 2 {
      assert q * f >= 2 * f by { MulMono(q, f); assert q * f - 2 * f == (q - 2) * f; assert (q - 2) * f >= 0; }
    }
  }

  /** Past 32 bits the accumulator wraps without notice: six bytes for 2^32 + 1 are taken for 1. */
  lemma LongIntegerWraps()
    ensures Parse(127, [0xff, 0x82, 0xff, 0xff, 0xff, 0x0f]) == Some((1, 6))
  {
    hide ParseTail;
    var data: seq<byte> := [0xff, 0x82, 0xff, 0xff, 0xff, 0x0f];
    ParseTailOnce(data, 1, 127, 1);
    ParseTailOnce(data, 2, 129, 0x80);
    ParseTailOnce(data, 3, 16385, 0x4000);
    ParseTailOnce(data, 4, 2097153, 0x20_0000);
    ParseTailOnce(data, 5, 268435457, 0x1000_0000);
  }
}
