/** What hashing a message means when the compression of one block is left abstract: the padded message,
    block by block (section 4 of RFC 3174, sections 3.1 and 3.2 of RFC 1321). */
module HashBlocks {
  import opened Machine

  const BLOCK: nat := 64

  predicate Whole(n: nat) {
    n % BLOCK == 0
  }

  /** The bytes of an unfinished block at the end of n bytes. */
  function Waiting(n: nat): (w: nat)
    ensures w < BLOCK && w <= n && Whole(n - w)
  {
    n % BLOCK
  }

  lemma WaitingIs(n: nat, w: nat)
    requires w < BLOCK && w <= n && Whole(n - w)
    ensures Waiting(n) == w
  {
  }

  lemma WholeNext(n: nat)
    requires Whole(n)
    ensures Whole(n + BLOCK)
  {
  }

  /** Compresses all whole blocks of m, in order. */
  function Fold<S>(f: (S, seq<byte>) -> S, s: S, m: seq<byte>): S
    decreases |m|
  {
    if |m| < BLOCK then s else Fold(f, f(s, m[..BLOCK]), m[BLOCK..])
  }

  lemma {:induction false} FoldAppend<S>(f: (S, seq<byte>) -> S, s: S, a: seq<byte>, b: seq<byte>)
    requires Whole(|a|)
    ensures Fold(f, s, a + b) == Fold(f, Fold(f, s, a), b)
    decreases |a|
  {
    if a == [] {
      assert a + b == b;
    } else {
      assert (a + b)[..BLOCK] == a[..BLOCK] && (a + b)[BLOCK..] == a[BLOCK..] + b;
      FoldAppend(f, f(s, a[..BLOCK]), a[BLOCK..], b);
    }
  }

  lemma FoldOneMore<S>(f: (S, seq<byte>) -> S, s: S, m: seq<byte>, whole: nat)
    requires Whole(whole) && whole + BLOCK <= |m|
    ensures Fold(f, s, m[..whole + BLOCK]) == f(Fold(f, s, m[..whole]), m[whole..whole + BLOCK])
  {
    var block := m[whole..whole + BLOCK];
    assert m[..whole + BLOCK] == m[..whole] + block;
    FoldAppend(f, s, m[..whole], block);
    assert block[..BLOCK] == block && block[BLOCK..] == [];
  }

  function Zeros(n: nat): (z: seq<byte>)
    ensures |z| == n && forall k :: 0 <= k < n ==> z[k] == 0
  {
    seq(n, _ => 0)
  }

  /** How many zeros bring the length, with the mark before and eight bytes behind, to whole blocks. */
  function Fill(length: nat): (z: nat)
    ensures z < BLOCK && Whole(length + 1 + z + 8)
  {
    (55 - length) % BLOCK
  }

  type Bytes8 = s: seq<byte> | |s| == 8 witness [0, 0, 0, 0, 0, 0, 0, 0]

  function Padded(m: seq<byte>, length: Bytes8): (p: seq<byte>)
    ensures Whole(|p|) && m <= p
  {
    var p := m + [0x80] + Zeros(Fill(|m|)) + length;
    assert |p| == |m| + 1 + Fill(|m|) + 8;
    p
  }

  /** The message's length in bits, modulo 2^64, as two 32-bit words. */
  function BitsLow(length: nat): u32 {
    length * 8 % TWO_32
  }

  function BitsHigh(length: nat): u32 {
    length * 8 / TWO_32 % TWO_32
  }

  lemma BitsAreTheLength(length: nat)
    requires length < 0x2000_0000_0000_0000
    ensures BitsHigh(length) as int * TWO_32 + BitsLow(length) == length * 8
  {
  }

  /** Padding loses nothing: below 2^61 bytes, two messages padded alike are the same message. */
  lemma PaddingIsInjective(a: seq<byte>, b: seq<byte>, la: Bytes8, lb: Bytes8)
    requires Padded(a, la) == Padded(b, lb)
    ensures a == b && la == lb
  {
    var p := Padded(a, la);
    if |a| < |b| {
      ZerosBehind(a, la, |b|);
      ZerosBehind(b, lb, |b|);
      assert false;
    } else if |b| < |a| {
      ZerosBehind(b, lb, |a|);
      ZerosBehind(a, la, |a|);
      assert false;
    } else {
      assert a == p[..|a|] == b;
      assert la == p[|p| - 8..] == lb;
    }
  }

  /** The mark is followed by zeros only, up to the length. */
  lemma ZerosBehind(m: seq<byte>, length: Bytes8, k: nat)
    ensures Padded(m, length)[|m|] == 0x80
    ensures |m| < k < |Padded(m, length)| - 8 ==> Padded(m, length)[k] == 0
  {
    var z := Zeros(Fill(|m|));
    if |m| < k < |Padded(m, length)| - 8 {
      assert Padded(m, length)[k] == z[k - |m| - 1];
    }
  }

  /** The padded message, place by place: the message, one bit, zeros, the length in the last eight bytes, and no
      more blocks than that takes. */
  lemma PaddedIs(m: seq<byte>, length: Bytes8)
    ensures var p := Padded(m, length);
            && m <= p && p[|m|] == 0x80 && (forall k :: |m| < k < |p| - 8 ==> p[k] == 0) && p[|p| - 8..] == length
            && |p| % 64 == 0 && |m| + 9 <= |p| < |m| + 9 + 64
  {
    forall k | |m| <= k < |Padded(m, length)| - 8 ensures Padded(m, length)[k] == if k == |m| then 0x80 else 0 {
      ZerosBehind(m, length, k);
    }
  }

  /** The two words make the length in bits, modulo 2^64. */
  lemma WordsAreTheLength(length: nat)
    ensures BitsHigh(length) as int * TWO_32 + BitsLow(length) == 8 * length % (TWO_32 * TWO_32)
  {
    var bits := 8 * length;
    var q := bits / TWO_32;
    var h := q / TWO_32;
    assert bits == q * TWO_32 + bits % TWO_32 && q == h * TWO_32 + q % TWO_32;
    assert bits == h * (TWO_32 * TWO_32) + (q % TWO_32 * TWO_32 + bits % TWO_32);
    Remainder(bits, h, q % TWO_32 * TWO_32 + bits % TWO_32);
  }

  lemma Remainder(x: nat, h: nat, r: nat)
    requires x == h * (TWO_32 * TWO_32) + r && r < TWO_32 * TWO_32
    ensures x % (TWO_32 * TWO_32) == r
  {
  }

  // ---- arithmetic of split counters ----

  lemma DivModIs(x: nat, q: nat, r: nat)
    requires x == q * TWO_32 + r && r < TWO_32
    ensures x / TWO_32 == q && x % TWO_32 == r
  {
  }

  lemma ModAdd(h: nat, x: nat)
    ensures (h % TWO_32 + x) % TWO_32 == (h + x) % TWO_32
  {
    var q := h / TWO_32;
    assert h + x == q * TWO_32 + (h % TWO_32 + x);
  }

  lemma ModBlock(blocks: nat, b: nat)
    ensures (BLOCK * blocks + b) % BLOCK == b % BLOCK
  {
  }
}
