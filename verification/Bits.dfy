/** Bit strings, most significant bit first, and their packing into bytes. */
module Bits {
  import opened Machine

  type Bitstring = seq<bool>

  /** `v << n`, `v >> n` and `v & ((1 << n) - 1)` on unbounded naturals. */
  function Shl(v: nat, n: nat): (r: nat)
    ensures v >= 1 ==> r >= 1
  {
    if n == 0 then v else 2 * Shl(v, n - 1)
  }

  function Shr(v: nat, n: nat): nat {
    if n == 0 then v else Shr(v / 2, n - 1)
  }

  function Mask(v: nat, n: nat): nat
    decreases n
  {
    if n == 0 then 0 else 2 * Mask(v / 2, n - 1) + v % 2
  }

  function Pow2(n: nat): (p: nat)
    ensures p >= 1
  {
    Shl(1, n)
  }

  /** The low n bits of v. */
  function BitsOf(v: nat, n: nat): (b: Bitstring)
    ensures |b| == n
    decreases n
  {
    if n == 0 then [] else BitsOf(v / 2, n - 1) + [v % 2 == 1]
  }

  function Value(b: Bitstring): nat {
    if b == [] then 0 else 2 * Value(b[..|b| - 1]) + (if b[|b| - 1] then 1 else 0)
  }

  lemma {:induction false} ValueBound(b: Bitstring)
    ensures Value(b) < Pow2(|b|)
  {
    if b != [] {
      ValueBound(b[..|b| - 1]);
    }
  }

  lemma {:induction false} ValueOfBits(v: nat, n: nat)
    requires v < Pow2(n)
    ensures Value(BitsOf(v, n)) == v
    decreases n
  {
    if n > 0 {
      ValueOfBits(v / 2, n - 1);
      assert BitsOf(v, n)[..n - 1] == BitsOf(v / 2, n - 1);
    }
  }

  lemma {:induction false} BitsOfValue(b: Bitstring)
    ensures BitsOf(Value(b), |b|) == b
  {
    if b != [] {
      BitsOfValue(b[..|b| - 1]);
    }
  }

  /** Writing c, of n bits, behind a is shifting a and adding c. */
  lemma {:induction false} BitsOfShifted(a: nat, m: nat, c: nat, n: nat)
    requires c < Pow2(n)
    ensures BitsOf(Shl(a, n) + c, m + n) == BitsOf(a, m) + BitsOf(c, n)
    decreases n
  {
    if n == 0 {
      assert BitsOf(a, m) + BitsOf(c, 0) == BitsOf(a, m);
    } else {
      assert (Shl(a, n) + c) / 2 == Shl(a, n - 1) + c / 2 && (Shl(a, n) + c) % 2 == c % 2;
      BitsOfShifted(a, m, c / 2, n - 1);
      Associative(BitsOf(a, m), BitsOf(c / 2, n - 1), [c % 2 == 1]);
    }
  }

  lemma {:induction false} ValueConcat(w: Bitstring, x: Bitstring)
    ensures Value(w + x) == Shl(Value(w), |x|) + Value(x)
  {
    if x == [] {
      assert w + x == w;
    } else {
      var x' := x[..|x| - 1];
      assert (w + x)[..|w + x| - 1] == w + x';
      ValueConcat(w, x');
    }
  }

  lemma {:induction false} MaskIsValue(v: nat, n: nat)
    ensures Mask(v, n) == Value(BitsOf(v, n))
    decreases n
  {
    if n > 0 {
      MaskIsValue(v / 2, n - 1);
      assert BitsOf(v, n)[..n - 1] == BitsOf(v / 2, n - 1);
    }
  }

  /** Masking and shifting down keeps the high m of m + n bits. */
  lemma {:induction false} TopIsValue(v: nat, m: nat, n: nat)
    ensures Shr(Mask(v, m + n), n) == Value(BitsOf(v, m + n)[..m])
    decreases n
  {
    if n == 0 {
      MaskIsValue(v, m);
      assert BitsOf(v, m)[..m] == BitsOf(v, m);
    } else {
      TopIsValue(v / 2, m, n - 1);
      assert BitsOf(v, m + n)[..m] == BitsOf(v / 2, m + n - 1)[..m];
    }
  }

  lemma {:induction false} LowBitsAreSuffix(v: nat, m: nat, n: nat)
    ensures BitsOf(v, m + n)[m..] == BitsOf(v, n)
    decreases n
  {
    if n > 0 {
      LowBitsAreSuffix(v / 2, m, n - 1);
    }
  }

  lemma {:induction false} FillsUp(a: nat, c: nat, m: nat, n: nat)
    requires a < Pow2(m) && c < Pow2(n)
    ensures Shl(a, n) + c < Pow2(m + n)
    decreases n
  {
    if n > 0 {
      FillsUp(a, c / 2, m, n - 1);
    }
  }

  lemma {:induction false} ShiftTwice(a: nat, c: nat, m: nat, n: nat)
    ensures Shl(Shl(a, m) + c, n) == Shl(a, m + n) + Shl(c, n)
    decreases n
  {
    if n > 0 {
      ShiftTwice(a, c, m, n - 1);
    }
  }

  lemma {:induction false} ShlZero(n: nat)
    ensures Shl(0, n) == 0
  {
    if n > 0 {
      ShlZero(n - 1);
    }
  }

  lemma Pow2Of8()
    ensures Pow2(8) == 256
  {
    assert Shl(1, 4) == 16 && Shl(1, 8) == 16 * Shl(1, 4);
  }

  function Ones(k: nat): (b: Bitstring)
    ensures |b| == k && forall i :: 0 <= i < k ==> b[i]
  {
    seq(k, i => true)
  }

  predicate AllOnes(b: Bitstring) {
    forall i :: 0 <= i < |b| ==> b[i]
  }

  lemma {:induction false} AllOnesValue(n: nat)
    ensures Value(Ones(n)) == Pow2(n) - 1
  {
    if n > 0 {
      AllOnesValue(n - 1);
      assert Ones(n)[..n - 1] == Ones(n - 1);
    }
  }

  // ---- bytes ----

  function Unpack(s: seq<byte>): (b: Bitstring)
    ensures |b| == 8 * |s|
  {
    if s == [] then [] else BitsOf(s[0], 8) + Unpack(s[1..])
  }

  function Pack(b: Bitstring): (s: seq<byte>)
    requires |b| % 8 == 0
    ensures |b| == 8 * |s|
  {
    if b == [] then []
    else
      Pow2Of8();
      ValueBound(b[..8]);
      [Value(b[..8])] + Pack(b[8..])
  }

  lemma {:induction false} UnpackConcat(s: seq<byte>, t: seq<byte>)
    ensures Unpack(s + t) == Unpack(s) + Unpack(t)
  {
    hide BitsOf;
    if s == [] {
      assert s + t == t;
    } else {
      UnpackConcat(s[1..], t);
      assert (s + t)[0] == s[0] && (s + t)[1..] == s[1..] + t;
      Associative(BitsOf(s[0], 8), Unpack(s[1..]), Unpack(t));
    }
  }

  lemma {:induction false} PackUnpack(s: seq<byte>)
    ensures Pack(Unpack(s)) == s
  {
    if s != [] {
      Pow2Of8();
      ValueOfBits(s[0], 8);
      assert Unpack(s)[..8] == BitsOf(s[0], 8) && Unpack(s)[8..] == Unpack(s[1..]);
      PackUnpack(s[1..]);
    }
  }

  lemma {:induction false} UnpackPack(b: Bitstring)
    requires |b| % 8 == 0
    ensures Unpack(Pack(b)) == b
  {
    hide BitsOf, Value;
    if b != [] {
      BitsOfValue(b[..8]);
      UnpackPack(b[8..]);
      assert b == b[..8] + b[8..];
      assert Pack(b)[1..] == Pack(b[8..]);
    }
  }
}
