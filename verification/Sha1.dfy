/** The SHA-1 context of src/http/co_sha1.c:171-264 over an abstract compression of one block. */
module Sha1 {
  import opened Machine
  import opened HashBlocks

  type Words = s: seq<u32> | |s| == 5 witness [0, 0, 0, 0, 0]

  const INITIAL: Words := [0x67452301, 0xefcdab89, 0x98badcfe, 0x10325476, 0xc3d2e1f0]

  type Compress = (Words, seq<byte>) -> Words

  /** The length field: the high word first, each word big-endian. */
  function LengthField(length: nat): Bytes8 {
    Be32(BitsHigh(length)) + Be32(BitsLow(length))
  }

  /** The digest is the five words, big-endian. */
  function Digest(s: Words): (d: seq<byte>)
    ensures |d| == 20
  {
    Be32(s[0]) + Be32(s[1]) + Be32(s[2]) + Be32(s[3]) + Be32(s[4])
  }

  /** What the hash of a message is. */
  function Hash(f: Compress, m: seq<byte>): seq<byte> {
    Digest(Fold(f, INITIAL, Padded(m, LengthField(|m|))))
  }

  /** The last eight bytes of a padded message, read as one number, are its length in bits modulo 2^64. */
  lemma LengthIsBigEndian(m: seq<byte>)
    ensures var p := Padded(m, LengthField(|m|));
            BigEndian(p[|p| - 8..]) == 8 * |m| % (TWO_32 * TWO_32)
  {
    hide BitsHigh, BitsLow, Padded, BigEndian, Be32;
    PaddedIs(m, LengthField(|m|));
    BigEndianConcat(Be32(BitsHigh(|m|)), Be32(BitsLow(|m|)));
    Powers256();
    BeIsBigEndian(BitsHigh(|m|));
    BeIsBigEndian(BitsLow(|m|));
    WordsAreTheLength(|m|);
  }

  /** Each four bytes of the digest are a word of the state, the most significant byte first. */
  lemma DigestIsWords(s: Words, k: nat)
    requires k < 5
    ensures BigEndian(Digest(s)[4 * k..4 * k + 4]) == s[k]
  {
    hide BigEndian, Be32;
    BeIsBigEndian(s[k]);
    assert Digest(s)[4 * k..4 * k + 4] == Be32(s[k]);
  }

  lemma WordBytes(a: byte, b: byte, c: byte, d: byte)
    ensures Be32(a * 0x100_0000 + b * 0x1_0000 + c * 0x100 + d) == [a, b, c, d]
  {
  }

  /** The bytes that section 6.1 of RFC 3174 starts from. */
  lemma InitialBytes()
    ensures Digest(INITIAL) == [0x67, 0x45, 0x23, 0x01, 0xef, 0xcd, 0xab, 0x89, 0x98, 0xba, 0xdc, 0xfe, 0x10, 0x32, 0x54, 0x76,
                                0xc3, 0xd2, 0xe1, 0xf0]
  {
    hide Be32;
    WordBytes(0x67, 0x45, 0x23, 0x01);
    WordBytes(0xef, 0xcd, 0xab, 0x89);
    WordBytes(0x98, 0xba, 0xdc, 0xfe);
    WordBytes(0x10, 0x32, 0x54, 0x76);
    WordBytes(0xc3, 0xd2, 0xe1, 0xf0);
  }

  /** The bytes waiting and the new ones are counted in 32 bits. */
  predicate Safe(waiting: nat, size: nat) {
    waiting + size < TWO_32
  }

  /** The update takes its branches on wrapping sums: it fills a block, or copies into the unfinished one. */
  predicate FillsBlock(waiting: nat, size: nat) {
    Wrap32(waiting + size) > 63
  }

  /** The loop's index after some rounds. */
  function At(waiting: nat, rounds: nat): nat
    requires waiting < BLOCK
  {
    BLOCK - waiting + BLOCK * rounds
  }

  /** The one bound decides everything. Within it the branch is right and the loop's test never wraps.
      Past it the wrapped sum looks short, so all of the data is copied behind the waiting bytes, beyond
      the end of the 64-byte buffer. */
  lemma SafeExactly(waiting: nat, size: nat)
    requires waiting < BLOCK && size < TWO_32
    ensures Safe(waiting, size) ==>
              && (FillsBlock(waiting, size) <==> waiting + size >= BLOCK)
              && forall rounds: nat :: At(waiting, rounds) <= size ==> At(waiting, rounds) + 63 < TWO_32
    ensures !Safe(waiting, size) <==> !FillsBlock(waiting, size) && waiting + size > BLOCK
  {
    if Safe(waiting, size) {
      forall rounds: nat | At(waiting, rounds) <= size ensures At(waiting, rounds) + 63 < TWO_32 {
        assert BLOCK * (rounds + 1) < TWO_32 == BLOCK * 0x400_0000;
      }
    }
  }

  class Context {
    const f: Compress
    var state: Words
    var count0: u32
    var count1: u32
    const buffer: array<byte>
    ghost var message: seq<byte>

    /** The fields are what the bytes seen so far make them. */
    ghost predicate Valid()
      reads this, buffer
    {
      && count0 == BitsLow(|message|) && count1 == BitsHigh(|message|)
      && Waits(Waiting(|message|))
    }

    /** All but the last w bytes are compressed, and those are in the buffer. */
    ghost predicate Waits(w: nat)
      reads this, buffer
    {
      && buffer.Length == BLOCK && w < BLOCK && w <= |message|
      && state == Fold(f, INITIAL, message[..|message| - w])
      && buffer[..w] == message[|message| - w..]
    }

    constructor (f: Compress)
      ensures Valid() && fresh(buffer) && message == [] && this.f == f
    {
      this.f := f;
      state, count0, count1 := INITIAL, 0, 0;
      buffer := new byte[64](_ => 0);
      message := [];
    }

    method Count(size: u32)
      modifies this`count0, this`count1
      ensures forall seen: nat :: old(count0) == BitsLow(seen) && old(count1) == BitsHigh(seen) ==>
                count0 == BitsLow(seen + size) && count1 == BitsHigh(seen + size)
    {
      var j := count0;
      count0 := Wrap32(count0 + size * 8 % TWO_32);
      if count0 < j {
        count1 := Wrap32(count1 + 1);
      }
      count1 := Wrap32(count1 + size / 0x2000_0000);
      forall seen: nat | j == BitsLow(seen) && old(count1) == BitsHigh(seen)
        ensures count0 == BitsLow(seen + size) && count1 == BitsHigh(seen + size)
      {
        CountCarries(seen, size);
      }
    }

    method Transform(block: seq<byte>)
      requires |block| == BLOCK
      modifies this`state
      ensures state == f(old(state), block)
    {
      state := f(state, block);
    }

    /** Whether every copy stayed inside the buffer; nothing is claimed about the context if not. */
    method Update(data: seq<byte>) returns (ok: bool)
      requires Valid() && |data| < TWO_32
      modifies this, buffer
      ensures ok <==> Safe(old(Waiting(|message|)), |data|)
      ensures ok ==> Valid() && message == old(message) + data
    {
      hide BitsLow, BitsHigh, Fold, Whole, Waiting;
      var dataSize: nat := |data|;
      LowTellsWaiting(|message|);
      var j: nat := count0 / 8 % BLOCK;
      Count(dataSize);
      ghost var before := message;
      message := message + data;
      assert message[..|before|] == before;
      WaitsStill(before, data, j);
      SafeExactly(j, dataSize);
      ok := true;
      if Wrap32(j + dataSize) > 63 {
        UpdateAcross(before, data, j);
      } else if j + dataSize > BLOCK {
        ok := false;
      } else {
        UpdateInside(before, data, j);
      }
    }

    lemma WaitsStill(before: seq<byte>, data: seq<byte>, j: nat)
      requires message == before + data && j <= |before|
      ensures j + |data| <= |message|
      ensures message[..|before| - j] == before[..|before| - j]
      ensures message[|before| - j..] == before[|before| - j..] + data
    {
    }

    /** The block is not filled yet. */
    method UpdateInside(ghost before: seq<byte>, data: seq<byte>, j: nat)
      requires buffer.Length == BLOCK && j + |data| < BLOCK && j <= |before| && Whole(|before| - j) && message == before + data
      requires state == Fold(f, INITIAL, before[..|before| - j]) && buffer[..j] == before[|before| - j..]
      modifies buffer
      ensures Waits(Waiting(|message|))
    {
      hide Fold, Whole, Waiting;
      Copy(j, data);
      WaitsStill(before, data, j);
      WaitingIs(|message|, j + |data|);
      assert buffer[..j + |data|] == buffer[..j] + buffer[j..j + |data|];
    }

    /** The block is filled; whole blocks of `data` follow, and the rest waits. */
    method UpdateAcross(ghost before: seq<byte>, data: seq<byte>, j: nat)
      requires buffer.Length == BLOCK && j < BLOCK <= j + |data| && j <= |before| && Whole(|before| - j) && message == before + data
      requires j + |data| < TWO_32
      requires state == Fold(f, INITIAL, before[..|before| - j]) && buffer[..j] == before[|before| - j..]
      modifies this`state, buffer
      ensures Waits(Waiting(|message|))
    {
      hide Fold, Whole, Waiting;
      FillBlock(before, data, j);
      WholeNext(|before| - j);
      assert message[|message| - |data|..] == data;
      var i := TransformRest(data, j);
      ghost var w := |data| - i;
      Copy(0, data[i..]);
      WaitingIs(|message|, w);
      assert buffer[..w] == buffer[0..0 + w];
      assert data[i..] == message[|message| - w..];
    }

    method FillBlock(ghost before: seq<byte>, data: seq<byte>, j: nat)
      requires buffer.Length == BLOCK && j < BLOCK <= j + |data| && j <= |before| && Whole(|before| - j) && message == before + data
      requires state == Fold(f, INITIAL, before[..|before| - j]) && buffer[..j] == before[|before| - j..]
      modifies this`state, buffer
      ensures state == Fold(f, INITIAL, message[..|before| - j + BLOCK])
    {
      hide Fold, Whole;
      var i := BLOCK - j;
      ghost var start := |before| - j;
      Copy(j, data[..i]);
      WaitsStill(before, data, j);
      assert buffer[..] == buffer[..j] + buffer[j..j + i];
      assert message[start..][..BLOCK] == before[start..] + data[..i];
      assert message[start..start + BLOCK] == message[start..][..BLOCK];
      FoldOneMore(f, INITIAL, message, start);
      Transform(buffer[..]);
    }

    /** The whole blocks of `data` behind the part that filled the block; the test's sum is 32 bits wide. */
    method TransformRest(data: seq<byte>, j: nat) returns (i: nat)
      requires j < BLOCK && BLOCK - j <= |data| <= |message| && message[|message| - |data|..] == data
      requires j + |data| < TWO_32 && Whole(|message| - |data| + BLOCK - j)
      requires state == Fold(f, INITIAL, message[..|message| - |data| + BLOCK - j])
      modifies this`state
      ensures BLOCK - j <= i <= |data| < i + BLOCK && Whole(|message| - |data| + i)
      ensures state == Fold(f, INITIAL, message[..|message| - |data| + i])
    {
      hide Fold, Whole;
      i := BLOCK - j;
      ghost var seen, rounds := |message| - |data|, 0;
      SafeExactly(j, |data|);
      while Wrap32(i + 63) < |data|
        invariant i == At(j, rounds) && i <= |data| && Whole(seen + i)
        invariant state == Fold(f, INITIAL, message[..seen + i])
      {
        assert message[seen + i..seen + i + BLOCK] == data[i..i + BLOCK];
        FoldOneMore(f, INITIAL, message, seen + i);
        WholeNext(seen + i);
        Transform(data[i..i + BLOCK]);
        i, rounds := i + BLOCK, rounds + 1;
      }
    }

    method Copy(at: nat, data: seq<byte>)
      requires buffer.Length == BLOCK && at + |data| <= BLOCK
      modifies buffer
      ensures buffer[..at] == old(buffer[..at]) && buffer[at..at + |data|] == data
    {
      forall k | 0 <= k < |data| {
        buffer[at + k] := data[k];
      }
    }

    /** Pads, and reads the digest out of the state. */
    method Final() returns (hash: seq<byte>)
      requires Valid()
      modifies this, buffer
      ensures hash == Hash(f, old(message))
    {
      hide BitsLow, BitsHigh, Fold, Fill, Whole, Waiting;
      var lengthField: Bytes8 := Be32(count1) + Be32(count0);
      ghost var m := message;
      var _ := Update([0x80]);
      PadZeros(m);
      var _ := Update(lengthField);
      assert message == Padded(m, LengthField(|m|));
      WaitingIs(|message|, 0);
      assert message[..|message|] == message;
      hash := Digest(state);
    }

    /** One zero after the other, until only the length field is missing. */
    method PadZeros(ghost m: seq<byte>)
      requires Valid() && message == m + [0x80]
      modifies this, buffer
      ensures Valid() && message == m + [0x80] + Zeros(Fill(|m|))
    {
      hide BitsLow, BitsHigh, Fold, Fill, Whole, Waiting, Waits;
      ghost var zeros := 0;
      assert message == m + [0x80] + Zeros(0);
      LowTellsWaiting(|message|);
      while count0 / 8 % BLOCK != 56
        invariant Valid() && message == m + [0x80] + Zeros(zeros) && zeros <= Fill(|m|)
        invariant count0 / 8 % BLOCK == Waiting(|m| + 1 + zeros)
        decreases Fill(|m|) - zeros
      {
        FilledExactly(|m|, zeros);
        var _ := Update([0]);
        assert Zeros(zeros) + [0] == Zeros(zeros + 1);
        zeros := zeros + 1;
        LowTellsWaiting(|message|);
      }
      FilledExactly(|m|, zeros);
    }
  }

  lemma CountCarries(seen: nat, size: u32)
    ensures var c0 := Wrap32(BitsLow(seen) + size * 8 % TWO_32);
            var c1 := if c0 < BitsLow(seen) then Wrap32(BitsHigh(seen) + 1) else BitsHigh(seen);
            c0 == BitsLow(seen + size) && Wrap32(c1 + size / 0x2000_0000) == BitsHigh(seen + size)
  {
    var h: nat := seen * 8 / TWO_32;
    var l: nat := seen * 8 % TWO_32;
    var q: nat := size / 0x2000_0000;
    var r: nat := size % 0x2000_0000 * 8;
    DivModIs(size * 8, q, r);
    SumsSplit(seen * 8, size * 8, h, l, q, r);
    ModAdd(h, 1);
    ModAdd(h + 1, q);
    ModAdd(h, q);
  }

  lemma SumsSplit(x: nat, y: nat, h: nat, l: nat, q: nat, r: nat)
    requires x == h * TWO_32 + l && y == q * TWO_32 + r && l < TWO_32 && r < TWO_32
    ensures var carry := if l + r >= TWO_32 then 1 else 0;
            (x + y) / TWO_32 == h + q + carry && (x + y) % TWO_32 == l + r - carry * TWO_32
  {
    var carry := if l + r >= TWO_32 then 1 else 0;
    DivModIs(x + y, h + q + carry, l + r - carry * TWO_32);
  }

  /** The low word of the bit count tells how many bytes wait. */
  lemma LowTellsWaiting(seen: nat)
    ensures BitsLow(seen) / 8 % BLOCK == Waiting(seen)
  {
    var a := seen / 0x2000_0000;
    var b := seen % 0x2000_0000;
    DivModIs(seen * 8, a, b * 8);
    assert b * 8 / 8 == b;
    ModBlock(a * 0x80_0000, b);
  }

  /** The padding loop stops exactly when the fill is complete. */
  lemma FilledExactly(length: nat, zeros: nat)
    requires zeros <= Fill(length)
    ensures Waiting(length + 1 + zeros) == 56 <==> zeros == Fill(length)
  {
  }

  /** Every update of a run stays inside the buffer. */
  predicate AllSafe(seen: nat, pieces: seq<seq<byte>>)
    decreases pieces
  {
    pieces == [] || (Safe(Waiting(seen), |pieces[0]|) && AllSafe(seen + |pieces[0]|, pieces[1..]))
  }

  lemma PiecesFrom(seen: nat, pieces: seq<seq<byte>>, k: nat)
    requires k < |pieces|
    ensures Join(pieces[k..]) == pieces[k] + Join(pieces[k + 1..])
    ensures AllSafe(seen, pieces[k..]) <==> Safe(Waiting(seen), |pieces[k]|) && AllSafe(seen + |pieces[k]|, pieces[k + 1..])
  {
    hide Safe, Waiting;
    assert pieces[k..][1..] == pieces[k + 1..];
  }

  lemma NoPieces(seen: nat)
    ensures AllSafe(seen, []) && Join([]) == []
  {
  }

  /** A message hashed in pieces, in any number of updates: the hash is that of the whole message. */
  method HashPieces(f: Compress, pieces: seq<seq<byte>>) returns (ok: bool, hash: seq<byte>)
    requires forall k :: 0 <= k < |pieces| ==> |pieces[k]| < TWO_32
    ensures ok <==> AllSafe(0, pieces)
    ensures ok ==> hash == Hash(f, Join(pieces))
  {
    hide Hash, Fold, Whole, Waiting, Safe, AllSafe, Join;
    var ctx := new Context(f);
    assert pieces[0..] == pieces && [] + Join(pieces) == Join(pieces);
    for k := 0 to |pieces|
      invariant ctx.Valid() && ctx.f == f
      invariant ctx.message + Join(pieces[k..]) == Join(pieces)
      invariant AllSafe(0, pieces) <==> AllSafe(|ctx.message|, pieces[k..])
      invariant fresh(ctx) && fresh(ctx.buffer)
    {
      PiecesFrom(|ctx.message|, pieces, k);
      ghost var before := ctx.message;
      ok := ctx.Update(pieces[k]);
      Associative(before, pieces[k], Join(pieces[k + 1..]));
      if !ok {
        return false, [];
      }
    }
    NoPieces(|ctx.message|);
    assert pieces[|pieces|..] == [] && ctx.message + [] == ctx.message;
    ok := true;
    hash := ctx.Final();
  }
}
