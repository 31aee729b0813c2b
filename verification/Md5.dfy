/** The MD5 context of src/http/co_md5.c:150-259 over an abstract compression of one block. Its count
    holds bytes, 29 bits of them in the low word; it takes data of any size. */
module Md5 {
  import opened Machine
  import opened HashBlocks

  type Words = s: seq<u32> | |s| == 4 witness [0, 0, 0, 0]

  const INITIAL: Words := [0x67452301, 0xefcdab89, 0x98badcfe, 0x10325476]
  const TWO_29: nat := 0x2000_0000

  type Compress = (Words, seq<byte>) -> Words

  function Le32(x: u32): (s: seq<byte>)
    ensures |s| == 4
  {
    [x % 0x100, x / 0x100 % 0x100, x / 0x1_0000 % 0x100, x / 0x100_0000]
  }

  /** The length field: the low word first, each word little-endian. */
  function LengthField(length: nat): Bytes8 {
    Le32(BitsLow(length)) + Le32(BitsHigh(length))
  }

  function Digest(s: Words): (d: seq<byte>)
    ensures |d| == 16
  {
    Le32(s[0]) + Le32(s[1]) + Le32(s[2]) + Le32(s[3])
  }

  /** What the hash of a message is. */
  function Hash(f: Compress, m: seq<byte>): seq<byte> {
    Digest(Fold(f, INITIAL, Padded(m, LengthField(|m|))))
  }

  lemma LeIsLittleEndian(x: u32)
    ensures LittleEndian(Le32(x)) == x
  {
    hide LittleEndian;
    var q, r, d := x / 0x100, x / 0x1_0000, x / 0x100_0000;
    LowByteApart(x);
    LeCons(x % 0x100, [q % 0x100, r % 0x100, d]);
    LeCons(q % 0x100, [r % 0x100, d]);
    LeCons(r % 0x100, [d]);
    OneByte(d);
    assert [x % 0x100] + [q % 0x100, r % 0x100, d] == Le32(x);
    hide Le32;
    assert [q % 0x100] + [r % 0x100, d] == [q % 0x100, r % 0x100, d] && [r % 0x100] + [d] == [r % 0x100, d];
  }

  /** Three times the lowest byte is taken off. */
  lemma LowByteApart(x: u32)
    ensures x == x % 0x100 + 0x100 * (x / 0x100)
    ensures x / 0x100 == x / 0x100 % 0x100 + 0x100 * (x / 0x1_0000)
    ensures x / 0x1_0000 == x / 0x1_0000 % 0x100 + 0x100 * (x / 0x100_0000)
  {
  }

  lemma LeCons(a: byte, rest: seq<byte>)
    ensures LittleEndian([a] + rest) == a + 256 * LittleEndian(rest)
  {
    assert ([a] + rest)[1..] == rest;
  }

  /** The last eight bytes of a padded message, the least significant first, are its length in bits modulo 2^64. */
  lemma LengthIsLittleEndian(m: seq<byte>)
    ensures var p := Padded(m, LengthField(|m|));
            LittleEndian(p[|p| - 8..]) == 8 * |m| % (TWO_32 * TWO_32)
  {
    hide BitsHigh, BitsLow, Padded, LittleEndian, Le32;
    PaddedIs(m, LengthField(|m|));
    LittleEndianConcat(Le32(BitsLow(|m|)), Le32(BitsHigh(|m|)));
    Powers256();
    LeIsLittleEndian(BitsHigh(|m|));
    LeIsLittleEndian(BitsLow(|m|));
    WordsAreTheLength(|m|);
  }

  /** Each four bytes of the digest are a word of the state, the least significant byte first. */
  lemma DigestIsWords(s: Words, k: nat)
    requires k < 4
    ensures LittleEndian(Digest(s)[4 * k..4 * k + 4]) == s[k]
  {
    hide LittleEndian, Le32;
    LeIsLittleEndian(s[k]);
    assert Digest(s)[4 * k..4 * k + 4] == Le32(s[k]);
  }

  lemma WordBytes(a: byte, b: byte, c: byte, d: byte)
    ensures Le32(a + b * 0x100 + c * 0x1_0000 + d * 0x100_0000) == [a, b, c, d]
  {
    var x: u32 := a + b * 0x100 + c * 0x1_0000 + d * 0x100_0000;
    FourBytes(x, a, b, c, d);
  }

  lemma FourBytes(x: u32, a: byte, b: byte, c: byte, d: byte)
    requires x == a + b * 0x100 + c * 0x1_0000 + d * 0x100_0000
    ensures x % 0x100 == a && x / 0x100 % 0x100 == b && x / 0x1_0000 % 0x100 == c && x / 0x100_0000 == d
  {
    assert x / 0x100 == b + c * 0x100 + d * 0x1_0000;
    assert x / 0x1_0000 == c + d * 0x100;
  }

  /** The bytes that section 3.3 of RFC 1321 starts from. */
  lemma InitialBytes()
    ensures Digest(INITIAL) == [0x01, 0x23, 0x45, 0x67, 0x89, 0xab, 0xcd, 0xef, 0xfe, 0xdc, 0xba, 0x98, 0x76, 0x54, 0x32, 0x10]
  {
    hide Le32;
    WordBytes(0x01, 0x23, 0x45, 0x67);
    WordBytes(0x89, 0xab, 0xcd, 0xef);
    WordBytes(0xfe, 0xdc, 0xba, 0x98);
    WordBytes(0x76, 0x54, 0x32, 0x10);
  }

  function BytesLow(seen: nat): u32 {
    seen % TWO_29
  }

  function BytesHigh(seen: nat): u32 {
    seen / TWO_29 % TWO_32
  }

  class Context {
    const f: Compress
    var state: Words
    var count0: u32
    var count1: u32
    const buffer: array<byte>
    ghost var message: seq<byte>

    ghost predicate Valid()
      reads this, buffer
    {
      && count0 == BytesLow(|message|) && count1 == BytesHigh(|message|)
      && Waits(Waiting(|message|))
    }

    /** All but the last w bytes are compressed, and those are in the buffer. */
    ghost predicate Waits(w: nat)
      reads this, buffer
    {
      && buffer.Length == BLOCK && w < BLOCK && w <= |message|
      && state == Fold(f, INITIAL, message[..|message| - w])
      && buffer[..w] == message[|message| - w..]
    }

    constructor (f: Compress)
      ensures Valid() && fresh(buffer) && message == [] && this.f == f
    {
      this.f := f;
      state, count0, count1 := INITIAL, 0, 0;
      buffer := new byte[64](_ => 0);
      message := [];
    }

    method Count(size: u32)
      modifies this`count0, this`count1
      ensures forall seen: nat :: old(count0) == BytesLow(seen) && old(count1) == BytesHigh(seen) ==>
                count0 == BytesLow(seen + size) && count1 == BytesHigh(seen + size)
    {
      var j := count0;
      count0 := Wrap32(j + size) % TWO_29;
      if count0 < j {
        count1 := Wrap32(count1 + 1);
      }
      count1 := Wrap32(count1 + size / TWO_29);
      forall seen: nat | j == BytesLow(seen) && old(count1) == BytesHigh(seen)
        ensures count0 == BytesLow(seen + size) && count1 == BytesHigh(seen + size)
      {
        CountCarries(seen, size);
      }
    }

    /** Compresses the blocks of `data`, which are whole. */
    method Transform(data: seq<byte>)
      requires Whole(|data|)
      modifies this`state
      ensures state == Fold(f, old(state), data)
    {
      var left: seq<byte> := data;
      while |left| > 0
        invariant Whole(|left|) && Fold(f, state, left) == Fold(f, old(state), data)
        decreases |left|
      {
        state := f(state, left[..BLOCK]);
        left := left[BLOCK..];
      }
    }

    method Copy(at: nat, data: seq<byte>)
      requires buffer.Length == BLOCK && at + |data| <= BLOCK
      modifies buffer
      ensures buffer[..at] == old(buffer[..at]) && buffer[at..at + |data|] == data
    {
      forall k | 0 <= k < |data| {
        buffer[at + k] := data[k];
      }
    }

    method Update(data: seq<byte>)
      requires Valid() && |data| < TWO_32
      modifies this, buffer
      ensures Valid() && message == old(message) + data
    {
      hide BytesLow, BytesHigh, Fold, Whole, Waiting;
      LowTellsWaiting(|message|);
      var j: nat := count0 % BLOCK;
      Count(|data|);
      if j > 0 {
        UpdateWaiting(data, j);
      } else {
        assert message[..|message|] == message && message[|message|..] == [];
        UpdateWhole(data);
      }
    }

    /** Some bytes wait in the buffer. */
    method UpdateWaiting(data: seq<byte>, j: nat)
      requires Waits(j) && j == Waiting(|message|) && |data| < TWO_32
      modifies this`state, this`message, buffer
      ensures Waits(Waiting(|message|)) && message == old(message) + data
    {
      hide Fold, Whole, Waiting;
      ghost var before := message;
      var i := BLOCK - j;
      if |data| < i {
        Copy(j, data);
        message := message + data;
        Stays(before, data, j);
        return;
      }
      message := message + data[..i];
      FillBlock(before, data[..i], j);
      UpdateWhole(data[i..]);
      assert before + data[..i] + data[i..] == before + data;
    }

    /** Adding less than what is missing. */
    lemma Stays(before: seq<byte>, data: seq<byte>, j: nat)
      requires buffer.Length == BLOCK && j + |data| < BLOCK && j <= |before| && Whole(|before| - j) && message == before + data
      requires state == Fold(f, INITIAL, before[..|before| - j]) && buffer[..j] == before[|before| - j..]
      requires buffer[j..j + |data|] == data
      ensures Waits(Waiting(|message|))
    {
      hide Fold, Whole, Waiting;
      WaitingIs(|message|, j + |data|);
      assert message[..|before| - j] == before[..|before| - j];
      assert buffer[..j + |data|] == buffer[..j] + buffer[j..j + |data|];
    }

    /** Completes the block that waits. */
    method FillBlock(ghost before: seq<byte>, data: seq<byte>, j: nat)
      requires buffer.Length == BLOCK && j + |data| == BLOCK && j <= |before| && Whole(|before| - j) && message == before + data
      requires state == Fold(f, INITIAL, before[..|before| - j]) && buffer[..j] == before[|before| - j..]
      modifies this`state, buffer
      ensures state == Fold(f, INITIAL, message) && Whole(|message|)
    {
      hide Fold, Whole;
      ghost var start := |before| - j;
      Copy(j, data);
      assert message[..start] == before[..start];
      assert buffer[..] == buffer[..j] + buffer[j..j + |data|];
      assert message == before[..start] + buffer[..];
      Transform(buffer[..]);
      FoldAppend(f, INITIAL, before[..start], buffer[..]);
      WholeNext(start);
    }

    /** The data behind a block boundary: whole blocks at once, and the rest waits. */
    method UpdateWhole(data: seq<byte>)
      requires buffer.Length == BLOCK && Whole(|message|) && state == Fold(f, INITIAL, message) && |data| < TWO_32
      modifies this`state, this`message, buffer
      ensures Waits(Waiting(|message|)) && message == old(message) + data
    {
      hide Fold, Whole, Waiting;
      var whole: nat := 0;
      if |data| >= BLOCK {
        whole := |data| / BLOCK * BLOCK;
        AddWhole(|message|, |data| / BLOCK);
        Transform(data[..whole]);
        FoldAppend(f, INITIAL, message, data[..whole]);
      } else {
        assert message + data[..0] == message;
      }
      Copy(0, data[whole..]);
      ghost var w := |data| - whole;
      ghost var before := message;
      message := message + data;
      WaitingIs(|message|, w);
      assert message[..|message| - w] == before + data[..whole];
      assert message[|message| - w..] == data[whole..];
      assert buffer[..w] == buffer[0..0 + w];
    }

    /** Pads in the buffer itself, and reads the digest out of the state. */
    method Final() returns (hash: seq<byte>)
      requires Valid()
      modifies this, buffer
      ensures hash == Hash(f, old(message))
    {
      hide BytesLow, BytesHigh, BitsLow, BitsHigh, Fold, Fill, Whole, Waiting, Padded, First, Shown;
      LowTellsWaiting(|message|);
      ghost var w := Waiting(|message|);
      PadBuffer(count0 % BLOCK);
      BitsFromBytes(|message|);
      PutLength();
      Transform(buffer[..]);
      FinalBlocks(f, message, w, LengthField(|message|));
      hash := Digest(state);
    }

    /** The mark and the zeros, up to where the length belongs; if it does not fit, one block further. */
    method PadBuffer(waiting: nat)
      requires buffer.Length == BLOCK && waiting < BLOCK
      modifies this`state, buffer
      ensures state == Fold(f, old(state), First(old(buffer[..waiting])))
      ensures buffer[..56] == Shown(old(buffer[..waiting]))
    {
      hide Fold, Whole;
      ghost var tail := buffer[..waiting];
      var j := waiting;
      buffer[j] := 0x80;
      assert buffer[..j] == tail;
      j := j + 1;
      assert buffer[..j] == tail + [0x80];
      var i: nat := BLOCK - j;
      FoldNothing(f, state);
      if i < 8 {
        Copy(j, Zeros(i));
        assert buffer[..] == buffer[..j] + buffer[j..j + i];
        Transform(buffer[..]);
        j := 0;
        i := BLOCK;
      }
      Copy(j, Zeros(i - 8));
      assert buffer[..56] == buffer[..j] + buffer[j..j + (i - 8)];
    }

    method PutLength()
      requires buffer.Length == BLOCK
      modifies this`count0, buffer
      ensures buffer[..] == old(buffer[..56]) + (Le32(Wrap32(old(count0) * 8)) + Le32(count1))
    {
      count0 := Wrap32(count0 * 8);
      ghost var shown := buffer[..56];
      Copy(56, Le32(count0));
      assert buffer[..60] == shown + buffer[56..60];
      Copy(60, Le32(count1));
      assert buffer[..] == buffer[..60] + buffer[60..64];
    }
  }

  lemma FoldNothing(f: Compress, s: Words)
    ensures Fold(f, s, []) == s
  {
  }

  /** What padding an unfinished block makes of it: a block of its own if the length does not fit behind
      it, and the bytes in front of the length. */
  function First(tail: seq<byte>): seq<byte>
    requires |tail| < BLOCK
  {
    if |tail| + 1 + 8 > BLOCK then tail + [0x80] + Zeros(BLOCK - |tail| - 1) else []
  }

  function Shown(tail: seq<byte>): seq<byte>
    requires |tail| < BLOCK
  {
    if |tail| + 1 + 8 > BLOCK then Zeros(56) else tail + [0x80] + Zeros(55 - |tail|)
  }

  lemma AddWhole(n: nat, blocks: nat)
    requires Whole(n)
    ensures Whole(n + blocks * BLOCK) && Whole(blocks * BLOCK)
  {
  }

  /** The one or two blocks that the padding ends in are the end of the padded message. */
  lemma FinalBlocks(f: Compress, m: seq<byte>, w: nat, length: Bytes8)
    requires w == Waiting(|m|)
    ensures var tail := m[|m| - w..];
            Fold(f, INITIAL, Padded(m, length))
            == Fold(f, Fold(f, Fold(f, INITIAL, m[..|m| - w]), First(tail)), Shown(tail) + length)
  {
    hide Fold, Padded, First, Whole, Waiting;
    var front := m[..|m| - w];
    var tail := m[|m| - w..];
    var last := Shown(tail) + length;
    PaddedEnds(m, w, length);
    FirstIsWhole(tail);
    assert Waiting(|m|) == w;
    FoldAppend(f, INITIAL, front, First(tail) + last);
    FoldAppend(f, Fold(f, INITIAL, front), First(tail), last);
  }

  lemma FirstIsWhole(tail: seq<byte>)
    requires |tail| < BLOCK
    ensures Whole(|First(tail)|)
  {
  }

  lemma PaddedEnds(m: seq<byte>, w: nat, length: Bytes8)
    requires w == Waiting(|m|)
    ensures var tail := m[|m| - w..]; Padded(m, length) == m[..|m| - w] + (First(tail) + (Shown(tail) + length))
  {
    hide Fill, Zeros, Waiting, Whole;
    var front := m[..|m| - w];
    var tail := m[|m| - w..];
    FillIs(|m|, w);
    assert m == front + tail;
    assert Padded(m, length) == front + tail + [0x80] + Zeros(Fill(|m|)) + length;
    if w + 1 + 8 > BLOCK {
      ZerosSplit(BLOCK - w - 1, 56);
      SixParts(front, tail, [0x80], Zeros(BLOCK - w - 1), Zeros(56), length);
    } else {
      FiveParts(front, tail, [0x80], Zeros(55 - w), length);
    }
  }

  lemma ZerosSplit(a: nat, b: nat)
    ensures Zeros(a + b) == Zeros(a) + Zeros(b)
  {
  }

  lemma FiveParts(a: seq<byte>, b: seq<byte>, c: seq<byte>, d: seq<byte>, e: seq<byte>)
    ensures a + b + c + d + e == a + ([] + (b + c + d + e))
  {
  }

  lemma SixParts(a: seq<byte>, b: seq<byte>, c: seq<byte>, d: seq<byte>, e: seq<byte>, g: seq<byte>)
    ensures a + b + c + (d + e) + g == a + (b + c + d + (e + g))
  {
  }

  lemma FillIs(n: nat, w: nat)
    requires w == Waiting(n)
    ensures Fill(n) == if w + 1 + 8 > BLOCK then BLOCK - w - 1 + 56 else 55 - w
  {
  }

  lemma CountCarries(seen: nat, size: u32)
    ensures var c0 := Wrap32(BytesLow(seen) + size) % TWO_29;
            var c1 := if c0 < BytesLow(seen) then Wrap32(BytesHigh(seen) + 1) else BytesHigh(seen);
            c0 == BytesLow(seen + size) && Wrap32(c1 + size / TWO_29) == BytesHigh(seen + size)
  {
    var h := seen / TWO_29;
    var l := seen % TWO_29;
    var q: nat := size / TWO_29;
    var r: nat := size % TWO_29;
    var carry := if l + r >= TWO_29 then 1 else 0;
    Split29(seen + size, h + q + carry, l + r - carry * TWO_29);
    LowSum(l, size);
    ModAdd(h, 1);
    ModAdd(h + 1, q);
    ModAdd(h, q);
  }

  lemma Split29(x: nat, q: nat, r: nat)
    requires x == q * TWO_29 + r && r < TWO_29
    ensures x / TWO_29 == q && x % TWO_29 == r
  {
  }

  /** Dropping what is above 32 bits first does not change the low 29. */
  lemma LowSum(l: nat, size: u32)
    requires l < TWO_29
    ensures var r := size % TWO_29; var carry := if l + r >= TWO_29 then 1 else 0;
            Wrap32(l + size) % TWO_29 == l + r - carry * TWO_29
  {
    var q := size / TWO_29;
    var r := size % TWO_29;
    var carry := if l + r >= TWO_29 then 1 else 0;
    var x: nat := Wrap32(l + size);
    if l + size < TWO_32 {
      Split29(x, q + carry, l + r - carry * TWO_29);
    } else {
      Split29(x, q + carry - 8, l + r - carry * TWO_29);
    }
  }

  /** The byte count, its low word shifted, is the bit count. */
  lemma BitsFromBytes(seen: nat)
    ensures Wrap32(BytesLow(seen) * 8) == BitsLow(seen) && BytesHigh(seen) == BitsHigh(seen)
  {
    DivModIs(seen * 8, seen / TWO_29, seen % TWO_29 * 8);
  }

  lemma LowTellsWaiting(seen: nat)
    ensures BytesLow(seen) % BLOCK == Waiting(seen)
  {
    ModBlock(seen / TWO_29 * 0x80_0000, seen % TWO_29);
  }

  /** A message hashed in pieces, in any number of updates: the hash is that of the whole message. */
  method HashPieces(f: Compress, pieces: seq<seq<byte>>) returns (hash: seq<byte>)
    requires forall k :: 0 <= k < |pieces| ==> |pieces[k]| < TWO_32
    ensures hash == Hash(f, Join(pieces))
  {
    hide Hash, Fold, Whole, Waiting;
    var ctx := new Context(f);
    for k := 0 to |pieces|
      invariant ctx.Valid() && ctx.f == f && ctx.message + Join(pieces[k..]) == Join(pieces)
      invariant fresh(ctx) && fresh(ctx.buffer)
    {
      ctx.Update(pieces[k]);
      assert pieces[k..][1..] == pieces[k + 1..];
    }
    assert pieces[|pieces|..] == [] && ctx.message + [] == ctx.message;
    hash := ctx.Final();
  }
}
