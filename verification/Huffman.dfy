/** HPACK string coding (section 5.2 of RFC 7541), src/http2/co_http2_huffman.c.

    The code table is a parameter with a validity predicate. The bitwise decoder below is the
    reference; the encoder packs bits into bytes as the program does, and the decoder walks a table of
    nibble transitions. */
module Huffman {
  import opened Machine
  import opened Bits

  const EOS: nat := 256

  /** One row of the code table: the low `length` bits of `bits`. */
  datatype CodeEntry = CodeEntry(bits: u32, length: nat)

  type CodeTable = seq<CodeEntry>

  function Path(e: CodeEntry): (p: Bitstring)
    ensures |p| == e.length
  {
    BitsOf(e.bits, e.length)
  }

  function Code(t: CodeTable, sym: nat): (p: Bitstring)
    requires sym < |t|
  {
    Path(t[sym])
  }

  ghost predicate PrefixFree(t: CodeTable) {
    forall i, j :: 0 <= i < |t| && 0 <= j < |t| && i != j ==> !(Code(t, i) <= Code(t, j))
  }

  ghost predicate ValidCode(t: CodeTable) {
    && |t| == 257
    && (forall i :: 0 <= i < |t| ==> 5 <= t[i].length <= 30)
    && PrefixFree(t)
    && Code(t, EOS) == Ones(30)
  }

  // ---- reference: one bit at a time ----

  datatype Decoded = Rejected | Decoded(out: seq<byte>, path: Bitstring)

  /** The symbol whose code is exactly this path, if any. */
  function Lookup(t: CodeTable, path: Bitstring, from: nat := 0): (r: Option<nat>)
    requires from <= |t|
    ensures r.Some? ==> from <= r.value < |t| && Code(t, r.value) == path
    ensures r.None? ==> forall s :: from <= s < |t| ==> Code(t, s) != path
    decreases |t| - from
  {
    if from == |t| then None
    else if Code(t, from) == path then Some(from)
    else Lookup(t, path, from + 1)
  }

  /** Read bits from the tree node reached by `path`; meeting the code of EOS is an error. */
  function DecodeBits(t: CodeTable, path: Bitstring, bits: Bitstring): (r: Decoded)
    requires |t| == 257
    decreases bits
  {
    if bits == [] then Decoded([], path)
    else
      var longer := path + [bits[0]];
      match Lookup(t, longer)
      case None => DecodeBits(t, longer, bits[1..])
      case Some(sym) => if sym == EOS then Rejected else Emit(sym, DecodeBits(t, [], bits[1..]))
  }

  function Emit(sym: byte, r: Decoded): Decoded {
    match r
    case Rejected => Rejected
    case Decoded(out, path) => Decoded([sym] + out, path)
  }

  function Then(t: CodeTable, first: Decoded, bits: Bitstring): Decoded
    requires |t| == 257
  {
    match first
    case Rejected => Rejected
    case Decoded(out, path) =>
      match DecodeBits(t, path, bits)
      case Rejected => Rejected
      case Decoded(out', path') => Decoded(out + out', path')
  }

  lemma {:induction false} DecodeConcat(t: CodeTable, path: Bitstring, a: Bitstring, b: Bitstring)
    requires |t| == 257
    ensures DecodeBits(t, path, a + b) == Then(t, DecodeBits(t, path, a), b)
    decreases a
  {
    if a == [] {
      assert a + b == b;
      match DecodeBits(t, path, b) {
        case Rejected =>
        case Decoded(out, p) => assert [] + out == out;
      }
    } else {
      var longer := path + [a[0]];
      assert (a + b)[0] == a[0] && (a + b)[1..] == a[1..] + b;
      match Lookup(t, longer) {
        case None => DecodeConcat(t, longer, a[1..], b);
        case Some(sym) =>
          DecodeConcat(t, [], a[1..], b);
          if sym != EOS {
            match DecodeBits(t, [], a[1..]) {
              case Rejected =>
              case Decoded(out, p) =>
                match DecodeBits(t, p, b) {
                  case Rejected =>
                  case Decoded(out', _) => assert [sym] + (out + out') == [sym] + out + out';
                }
            }
          }
      }
    }
  }

  /** Five bits at least are spent on every symbol. */
  lemma {:induction false} Rate(t: CodeTable, path: Bitstring, bits: Bitstring)
    requires ValidCode(t)
    ensures var r := DecodeBits(t, path, bits);
            r.Decoded? ==> 5 * |r.out| + |r.path| <= |path| + |bits|
                           && (r.out == [] ==> |r.path| == |path| + |bits|)
    decreases bits
  {
    if bits != [] {
      var longer := path + [bits[0]];
      match Lookup(t, longer) {
        case None => Rate(t, longer, bits[1..]);
        case Some(sym) =>
          assert |longer| >= 5;
          Rate(t, [], bits[1..]);
      }
    }
  }

  function EncodeBits(t: CodeTable, s: seq<byte>): (b: Bitstring)
    requires |t| == 257
  {
    if s == [] then [] else Code(t, s[0]) + EncodeBits(t, s[1..])
  }

  /** No code ends at or above this node: the node is inside the tree. */
  ghost predicate Inside(t: CodeTable, path: Bitstring) {
    forall s :: 0 <= s < |t| ==> !(Code(t, s) <= path)
  }

  /** What decoding accepts is what was spelled: the emitted codes, then the path still open. */
  lemma {:induction false} DecodeIsFaithful(t: CodeTable, path: Bitstring, bits: Bitstring)
    requires ValidCode(t) && Inside(t, path)
    ensures var r := DecodeBits(t, path, bits);
            r.Decoded? ==> Inside(t, r.path) && path + bits == EncodeBits(t, r.out) + r.path
    decreases bits
  {
    hide BitsOf, Lookup;
    var r := DecodeBits(t, path, bits);
    if bits == [] {
      assert path + bits == [] + path;
    } else if r.Decoded? {
      var longer := path + [bits[0]];
      assert path + bits == longer + bits[1..];
      match Lookup(t, longer) {
        case None =>
          forall s | 0 <= s < |t| ensures !(Code(t, s) <= longer) {
            assert longer[..|path|] == path && Code(t, s) != longer;
          }
          DecodeIsFaithful(t, longer, bits[1..]);
        case Some(sym) =>
          EmptyInside(t);
          DecodeIsFaithful(t, [], bits[1..]);
          var rest := DecodeBits(t, [], bits[1..]);
          assert [] + bits[1..] == bits[1..];
          assert r.out[0] == sym && r.out[1..] == rest.out;
          Associative(Code(t, sym), EncodeBits(t, rest.out), r.path);
      }
    }
  }

  lemma EmptyInside(t: CodeTable)
    requires ValidCode(t)
    ensures Inside(t, [])
  {
    forall s | 0 <= s < |t| ensures !(Code(t, s) <= []) {
      assert |Code(t, s)| >= 5;
    }
  }

  /** From inside a code, its remaining bits lead to its symbol and back to the root. */
  lemma {:induction false} DecodeCode(t: CodeTable, sym: byte, path: Bitstring, more: Bitstring, rest: Bitstring)
    requires ValidCode(t) && path + more == Code(t, sym) && more != []
    ensures DecodeBits(t, path, more + rest) == Emit(sym, DecodeBits(t, [], rest))
    decreases more
  {
    var longer := path + [more[0]];
    var bits := more + rest;
    assert bits[0] == more[0] && bits[1..] == more[1..] + rest;
    assert longer + more[1..] == Code(t, sym);
    if |more| == 1 {
      assert longer == Code(t, sym);
      OnlyCode(t, sym);
      assert bits[1..] == rest;
    } else {
      InnerNode(t, sym, longer);
      DecodeCode(t, sym, longer, more[1..], rest);
    }
  }

  lemma OnlyCode(t: CodeTable, sym: nat)
    requires ValidCode(t) && sym < |t|
    ensures Lookup(t, Code(t, sym)) == Some(sym)
  {
    assert Lookup(t, Code(t, sym)).Some?;
  }

  lemma InnerNode(t: CodeTable, sym: nat, path: Bitstring)
    requires ValidCode(t) && sym < |t| && path < Code(t, sym)
    ensures Lookup(t, path) == None
  {
    var r := Lookup(t, path);
    if r.Some? {
      assert false;
    }
  }

  lemma {:induction false} DecodeEncodeBits(t: CodeTable, s: seq<byte>, rest: Bitstring)
    requires ValidCode(t)
    ensures DecodeBits(t, [], EncodeBits(t, s) + rest) == Prefixed(s, DecodeBits(t, [], rest))
    decreases s
  {
    hide BitsOf, Lookup;
    if s == [] {
      assert EncodeBits(t, s) + rest == rest;
      match DecodeBits(t, [], rest) { case Rejected => case Decoded(out, _) => assert [] + out == out; }
    } else {
      var c := Code(t, s[0]);
      Associative(c, EncodeBits(t, s[1..]), rest);
      DecodeEncodeBits(t, s[1..], rest);
      assert [] + c == c && |c| >= 5;
      DecodeCode(t, s[0], [], c, EncodeBits(t, s[1..]) + rest);
      match DecodeBits(t, [], rest) {
        case Rejected =>
        case Decoded(out, _) => assert [s[0]] + (s[1..] + out) == s + out;
      }
    }
  }

  function Prefixed(s: seq<byte>, r: Decoded): Decoded {
    match r
    case Rejected => Rejected
    case Decoded(out, path) => Decoded(s + out, path)
  }

  /** Fewer ones than EOS has stay inside the tree. */
  lemma {:induction false} DecodeOnes(t: CodeTable, j: nat, k: nat)
    requires ValidCode(t) && j + k < 30
    ensures DecodeBits(t, Ones(j), Ones(k)) == Decoded([], Ones(j + k))
    decreases k
  {
    if k == 0 {
      assert Ones(0) == [];
    } else {
      assert Ones(j) + [Ones(k)[0]] == Ones(j + 1) && Ones(k)[1..] == Ones(k - 1);
      InnerNode(t, EOS, Ones(j + 1));
      DecodeOnes(t, j + 1, k - 1);
    }
  }

  // ---- encoder ----

  function PadLength(n: nat): (k: nat)
    ensures k < 8 && (n + k) % 8 == 0
  {
    (8 - n % 8) % 8
  }

  function Encode(t: CodeTable, s: seq<byte>): (r: seq<byte>)
    requires |t| == 257
  {
    var bits := EncodeBits(t, s);
    Pack(bits + Ones(PadLength(|bits|)))
  }

  lemma UnpackEncode(t: CodeTable, s: seq<byte>)
    requires |t| == 257
    ensures Unpack(Encode(t, s)) == EncodeBits(t, s) + Ones(PadLength(|EncodeBits(t, s)|))
  {
    var bits := EncodeBits(t, s);
    UnpackPack(bits + Ones(PadLength(|bits|)));
  }

  lemma {:induction false} EncodedBitCount(t: CodeTable, s: seq<byte>)
    requires ValidCode(t)
    ensures 5 * |s| <= |EncodeBits(t, s)| <= 30 * |s|
  {
    if s != [] {
      EncodedBitCount(t, s[1..]);
    }
  }

  /** The encoder's `4 * str_length` allocation is enough. */
  lemma EncodedLength(t: CodeTable, s: seq<byte>)
    requires ValidCode(t)
    ensures |Encode(t, s)| <= 4 * |s|
    ensures s != [] ==> Encode(t, s) != []
  {
    EncodedBitCount(t, s);
  }

  // ---- decoder ----

  /** What the program's decoder accepts: a non-empty input whose last open path is all ones. */
  function Decode(t: CodeTable, src: seq<byte>): (r: Option<seq<byte>>)
    requires |t| == 257
  {
    if src == [] then None
    else
      match DecodeBits(t, [], Unpack(src))
      case Rejected => None
      case Decoded(out, path) => if AllOnes(path) then Some(out) else None
  }

  /** Decoding inverts encoding on exactly the non-empty strings. */
  lemma RoundTrip(t: CodeTable, s: seq<byte>)
    requires ValidCode(t)
    ensures Decode(t, Encode(t, s)) == if s == [] then None else Some(s)
  {
    EncodedLength(t, s);
    if s != [] {
      var k := PadLength(|EncodeBits(t, s)|);
      UnpackEncode(t, s);
      DecodeEncodeBits(t, s, Ones(k));
      assert Ones(0) == [];
      DecodeOnes(t, 0, k);
      assert s + [] == s;
    }
  }

  /** The accepted inputs, exactly: codes followed by fewer than thirty one-bits. */
  lemma AcceptedExactly(t: CodeTable, src: seq<byte>, out: seq<byte>)
    requires ValidCode(t)
    ensures Decode(t, src) == Some(out) <==>
            src != [] && exists k: nat :: k < 30 && Unpack(src) == EncodeBits(t, out) + Ones(k)
  {
    if Decode(t, src) == Some(out) {
      EmptyInside(t);
      DecodeIsFaithful(t, [], Unpack(src));
      assert [] + Unpack(src) == Unpack(src);
      var path := DecodeBits(t, [], Unpack(src)).path;
      assert path == Ones(|path|);
      assert |path| < 30 by {
        assert !(Ones(30) <= path);
        assert Ones(30) <= path <==> 30 <= |path|;
      }
    }
    if src != [] && exists k: nat :: k < 30 && Unpack(src) == EncodeBits(t, out) + Ones(k) {
      var k: nat :| k < 30 && Unpack(src) == EncodeBits(t, out) + Ones(k);
      DecodeEncodeBits(t, out, Ones(k));
      assert Ones(0) == [];
      DecodeOnes(t, 0, k);
      assert out + [] == out;
    }
  }

  /** Section 5.2 of RFC 7541 wants padding of more than seven bits refused; the table's `end` flag
      marks every all-ones node, so a byte of padding is accepted. */
  lemma LongPaddingAccepted(t: CodeTable)
    requires ValidCode(t)
    ensures Decode(t, [0xff]) == Some([])
  {
    hide Decode, PrefixFree;
    assert Unpack([0xff]) == Ones(8) by {
      assert BitsOf(0xff, 8) == Ones(8) by {
        assert Pow2(8) - 1 == 0xff by { Pow2Of8(); }
        AllOnesValue(8);
      }
      assert Unpack([0xff][1..]) == [];
    }
    assert EncodeBits(t, []) + Ones(8) == Ones(8);
    AcceptedExactly(t, [0xff], []);
  }

  // ---- the packing loop ----

  /** Everything still to be written: the rest of the current code, then the rest of the string. */
  function Pending(t: CodeTable, bits: u32, bitLength: nat, rest: seq<byte>): (b: Bitstring)
    requires |t| == 257
  {
    BitsOf(bits, bitLength) + EncodeBits(t, rest)
  }

  lemma LoadCode(t: CodeTable, bits: u32, str: seq<byte>, i: nat)
    requires |t| == 257 && i < |str|
    ensures Pending(t, bits, 0, str[i..]) == Pending(t, t[str[i]].bits, t[str[i]].length, str[i + 1..])
  {
    assert str[i..][1..] == str[i + 1..];
    assert [] + EncodeBits(t, str[i..]) == EncodeBits(t, str[i..]);
  }

  lemma StartPending(t: CodeTable, bits: u32, str: seq<byte>)
    requires |t| == 257
    ensures Unpack([]) + Pending(t, bits, 0, str[0..]) == EncodeBits(t, str)
  {
    assert str[0..] == str;
  }

  lemma NothingPending(t: CodeTable, bits: u32, w: Bitstring)
    requires |t| == 257
    ensures w + Pending(t, bits, 0, []) == w
  {
  }

  lemma UnpackSnoc(s: seq<byte>, x: byte)
    ensures Unpack(s + [x]) == Unpack(s) + BitsOf(x, 8)
  {
    UnpackConcat(s, [x]);
    assert [x][1..] == [];
    assert BitsOf(x, 8) + [] == BitsOf(x, 8);
  }

  /** A byte whose high bits are w and whose other bits are zero. */
  function HighBits(w: Bitstring): (u8: byte)
    requires |w| <= 8
  {
    ValueBound(w);
    FillsUp(Value(w), 0, |w|, 8 - |w|);
    Pow2Of8();
    Shl(Value(w), 8 - |w|)
  }

  lemma FullByte(w: Bitstring)
    requires |w| == 8
    ensures HighBits(w) == Value(w) && BitsOf(HighBits(w), 8) == w
  {
    BitsOfValue(w);
  }

  /** A code longer than the room left: its next bits fill the byte. */
  lemma TakeSome(w: Bitstring, bits: nat, length: nat, rest: Bitstring) returns (w': Bitstring)
    requires |w| < 8 && 8 - |w| < length
    ensures |w'| == 8
    ensures HighBits(w) + Shr(Mask(bits, length), length - (8 - |w|)) == HighBits(w')
    ensures w' + (BitsOf(bits, length - (8 - |w|)) + rest) == w + (BitsOf(bits, length) + rest)
  {
    hide Shl, Shr, Value, Mask, BitsOf;
    var empty := 8 - |w|;
    var x := BitsOf(bits, length)[..empty];
    w' := w + x;
    ValueConcat(w, x);
    FullByte(w');
    TopIsValue(bits, empty, length - empty);
    assert w' + (BitsOf(bits, length - empty) + rest) == w + (BitsOf(bits, length) + rest) by {
      LowBitsAreSuffix(bits, empty, length - empty);
      assert BitsOf(bits, length) == x + BitsOf(bits, length - empty);
    }
  }

  /** A code that fits goes in whole. */
  lemma TakeAll(w: Bitstring, bits: nat, length: nat, rest: Bitstring) returns (w': Bitstring)
    requires |w| < 8 && length <= 8 - |w|
    ensures |w'| == |w| + length
    ensures HighBits(w) + Shl(Mask(bits, length), 8 - |w'|) == HighBits(w')
    ensures w' + (BitsOf(bits, 0) + rest) == w + (BitsOf(bits, length) + rest)
  {
    hide Shl, Value, Mask;
    var x := BitsOf(bits, length);
    w' := w + x;
    ValueConcat(w, x);
    MaskIsValue(bits, length);
    ShiftTwice(Value(w), Value(x), length, 8 - |w'|);
    assert w' + ([] + rest) == w + (x + rest);
  }

  /** Padding sets the room left to ones. */
  lemma PadByte(w: Bitstring)
    requires |w| <= 8
    ensures HighBits(w) + (Pow2(8 - |w|) - 1) == HighBits(w + Ones(8 - |w|))
  {
    ValueConcat(w, Ones(8 - |w|));
    AllOnesValue(8 - |w|);
  }

  lemma EmptyByte()
    ensures HighBits([]) == 0
  {
    ShlZero(8);
  }

  /** The inner loop: fill one byte from the high end. It stops early when the string runs out. */
  method FillByte(t: CodeTable, str: seq<byte>, i: nat, b: u32, n: nat)
      returns (u8: byte, emptyCount: nat, strIndex: nat, bits: u32, bitLength: nat, ghost w: Bitstring)
    requires ValidCode(t) && i <= |str| && n <= 30
    ensures i <= strIndex <= |str| && bitLength <= 30
    ensures emptyCount != 0 ==> strIndex == |str| && bitLength == 0
    ensures |w| + emptyCount == 8 && u8 == HighBits(w)
    ensures w + Pending(t, bits, bitLength, str[strIndex..]) == Pending(t, b, n, str[i..])
  {
    hide HighBits, Shl, Shr, Mask, Value, BitsOf, EncodeBits;
    EmptyByte();
    strIndex, bits, bitLength := i, b, n;
    u8, emptyCount, w := 0, 8, [];
    assert w + Pending(t, b, n, str[i..]) == Pending(t, b, n, str[i..]);
    while emptyCount != 0
      invariant i <= strIndex <= |str| && bitLength <= 30
      invariant |w| + emptyCount == 8 && u8 == HighBits(w)
      invariant w + Pending(t, bits, bitLength, str[strIndex..]) == Pending(t, b, n, str[i..])
      decreases emptyCount
    {
      if bitLength == 0 {
        if strIndex == |str| {
          return;
        }
        LoadCode(t, bits, str, strIndex);
        bits, bitLength := t[str[strIndex]].bits, t[str[strIndex]].length;
        strIndex := strIndex + 1;
      }
      ghost var rest := EncodeBits(t, str[strIndex..]);
      if emptyCount < bitLength {
        w := TakeSome(w, bits, bitLength, rest);
        u8 := u8 + Shr(Mask(bits, bitLength), bitLength - emptyCount);
        bitLength, emptyCount := bitLength - emptyCount, 0;
      } else {
        w := TakeAll(w, bits, bitLength, rest);
        u8 := u8 + Shl(Mask(bits, bitLength), emptyCount - bitLength);
        emptyCount, bitLength := emptyCount - bitLength, 0;
      }
    }
  }

  lemma NextByte(s: seq<byte>, w: Bitstring, pending: Bitstring, all: Bitstring)
    requires |w| == 8 && Unpack(s) + (w + pending) == all
    ensures Unpack(s + [HighBits(w)]) + pending == all
  {
    FullByte(w);
    UnpackSnoc(s, HighBits(w));
    Associative(Unpack(s), w, pending);
  }

  /** The string has run out: pad the byte begun, if any bit of it is used. */
  lemma LastByte(t: CodeTable, str: seq<byte>, s: seq<byte>, w: Bitstring)
    requires |t| == 257 && 0 < |w| < 8 && Unpack(s) + w == EncodeBits(t, str)
    ensures HighBits(w) + (Pow2(8 - |w|) - 1) < 256
    ensures s + [HighBits(w) + (Pow2(8 - |w|) - 1)] == Encode(t, str)
  {
    hide HighBits, Pow2, Value, BitsOf, EncodeBits, Unpack, Pack;
    var full := w + Ones(8 - |w|);
    PadByte(w);
    FullByte(full);
    UnpackSnoc(s, HighBits(full));
    Associative(Unpack(s), w, Ones(8 - |w|));
    PackUnpack(s + [HighBits(full)]);
    assert PadLength(8 * |s| + |w|) == 8 - |w|;
  }

  lemma NoLastByte(t: CodeTable, str: seq<byte>, s: seq<byte>)
    requires |t| == 257 && Unpack(s) == EncodeBits(t, str)
    ensures s == Encode(t, str)
  {
    hide BitsOf, EncodeBits, Unpack, Pack;
    PackUnpack(s);
    assert Unpack(s) + Ones(0) == Unpack(s);
  }

  /** The allocation holds four bytes per input byte. */
  method EncodeString(t: CodeTable, str: seq<byte>) returns (dest: array<byte>, destLength: nat)
    requires ValidCode(t)
    ensures fresh(dest) && dest.Length == 4 * |str| && destLength <= dest.Length
    ensures dest[..destLength] == Encode(t, str)
  {
    hide HighBits, Shl, Value, EncodeBits, BitsOf, Unpack, Encode, Pending;
    ghost var all := EncodeBits(t, str);
    EncodedBitCount(t, str);
    dest := new byte[4 * |str|];
    destLength := 0;
    var strIndex, bits: u32, bitLength := 0, 0, 0;
    StartPending(t, bits, str);
    while true
      invariant strIndex <= |str| && destLength <= dest.Length && bitLength <= 30
      invariant Unpack(dest[..destLength]) + Pending(t, bits, bitLength, str[strIndex..]) == all
      decreases |all| - 8 * destLength
    {
      var u8, emptyCount, i, b, n, w := FillByte(t, str, strIndex, bits, bitLength);
      ghost var s := dest[..destLength];
      if emptyCount != 0 {
        NothingPending(t, b, w);
        assert str[i..] == [] && Unpack(s) + w == all;
        if emptyCount < 8 {
          LastByte(t, str, s, w);
          dest[destLength] := u8 + (Pow2(emptyCount) - 1);
          destLength := destLength + 1;
          assert dest[..destLength] == s + [dest[destLength - 1]];
        } else {
          assert w == [] && Unpack(s) + [] == Unpack(s);
          NoLastByte(t, str, s);
        }
        return;
      }
      NextByte(s, w, Pending(t, b, n, str[i..]), all);
      strIndex, bits, bitLength := i, b, n;
      dest[destLength] := u8;
      destLength := destLength + 1;
      assert dest[..destLength] == s + [u8];
    }
  }
}
