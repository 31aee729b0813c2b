/** Fixed-width integers, byte buffers and small result types shared by the other modules. */
module Machine {

  type byte = x: int | 0 <= x < 0x100
  type u16 = x: int | 0 <= x < 0x1_0000
  type u32 = x: int | 0 <= x < 0x1_0000_0000

  const TWO_32: int := 0x1_0000_0000

  datatype Option<+T> = None | Some(value: T)

  /** The value an unsigned 32-bit register keeps of an arithmetic result. */
  function Wrap32(x: int): (r: u32)
    ensures 0 <= x < TWO_32 ==> r == x
    ensures -TWO_32 <= x < 0 ==> r == x + TWO_32
    ensures TWO_32 <= x < 2 * TWO_32 ==> r == x - TWO_32
  {
    x % TWO_32
  }

  /** Big-endian integers. */
  function Be16(x: u16): (s: seq<byte>)
    ensures |s| == 2 && FromBe16(s) == x
  {
    [x / 0x100, x % 0x100]
  }

  function Be24(x: nat): (s: seq<byte>)
    ensures |s| == 3 && FromBe24(s) == x % 0x100_0000
  {
    var y := x % 0x100_0000;
    var s := [y / 0x1_0000] + Be16(y % 0x1_0000);
    assert s[1..] == Be16(y % 0x1_0000);
    s
  }

  function Be32(x: u32): (s: seq<byte>)
    ensures |s| == 4 && FromBe32(s) == x
  {
    var s := Be16(x / 0x1_0000) + Be16(x % 0x1_0000);
    assert s[..2] == Be16(x / 0x1_0000) && s[2..] == Be16(x % 0x1_0000);
    s
  }

  function FromBe16(s: seq<byte>): u16
    requires |s| == 2
  {
    s[0] as int * 0x100 + s[1]
  }

  function FromBe24(s: seq<byte>): u32
    requires |s| == 3
  {
    s[0] as int * 0x1_0000 + FromBe16(s[1..])
  }

  function FromBe32(s: seq<byte>): u32
    requires |s| == 4
  {
    FromBe16(s[..2]) as int * 0x1_0000 + FromBe16(s[2..])
  }

  // ---- bytes as one number, whatever their count ----

  /** The most significant byte first. */
  function BigEndian(s: seq<byte>): nat {
    if s == [] then 0 else 256 * BigEndian(s[..|s| - 1]) + s[|s| - 1]
  }

  /** The least significant byte first. */
  function LittleEndian(s: seq<byte>): nat {
    if s == [] then 0 else s[0] + 256 * LittleEndian(s[1..])
  }

  function Power256(n: nat): (p: nat)
    ensures p >= 1
  {
    if n == 0 then 1 else 256 * Power256(n - 1)
  }

  lemma {:induction false} BigEndianConcat(a: seq<byte>, b: seq<byte>)
    ensures BigEndian(a + b) == BigEndian(a) * Power256(|b|) + BigEndian(b)
    decreases |b|
  {
    if b == [] {
      assert a + b == a;
    } else {
      var b' := b[..|b| - 1];
      assert (a + b)[..|a + b| - 1] == a + b';
      BigEndianConcat(a, b');
      assert 256 * (BigEndian(a) * Power256(|b'|)) == BigEndian(a) * (256 * Power256(|b'|));
    }
  }

  lemma {:induction false} LittleEndianConcat(a: seq<byte>, b: seq<byte>)
    ensures LittleEndian(a + b) == LittleEndian(a) + Power256(|a|) * LittleEndian(b)
    decreases |a|
  {
    if a == [] {
      assert a + b == b;
    } else {
      assert (a + b)[1..] == a[1..] + b;
      LittleEndianConcat(a[1..], b);
      assert 256 * (Power256(|a| - 1) * LittleEndian(b)) == (256 * Power256(|a| - 1)) * LittleEndian(b);
    }
  }

  lemma Powers256()
    ensures Power256(1) == 0x100 && Power256(2) == 0x1_0000 && Power256(3) == 0x100_0000 && Power256(4) == TWO_32
  {
    assert Power256(1) == 256 * Power256(0);
    assert Power256(2) == 256 * Power256(1);
    assert Power256(3) == 256 * Power256(2);
    assert Power256(4) == 256 * Power256(3);
  }

  lemma OneByte(b: byte)
    ensures BigEndian([b]) == b && LittleEndian([b]) == b
  {
    assert [b][..0] == [] && [b][1..] == [];
  }

  lemma TwoBytes(a: byte, b: byte)
    ensures BigEndian([a, b]) == 256 * a + b
  {
    OneByte(a);
    assert [a, b][..1] == [a];
  }

  /** The integers on the wire have their most significant byte first. */
  lemma BeIsBigEndian(x: nat)
    ensures x < 0x1_0000 ==> BigEndian(Be16(x)) == x
    ensures BigEndian(Be24(x)) == x % 0x100_0000
    ensures x < TWO_32 ==> BigEndian(Be32(x)) == x
  {
    hide BigEndian, Power256;
    Powers256();
    if x < 0x1_0000 { TwoBytes(x / 0x100, x % 0x100); }
    var y := x % 0x100_0000;
    TwoBytes(y % 0x1_0000 / 0x100, y % 0x1_0000 % 0x100);
    OneByte(y / 0x1_0000);
    BigEndianConcat([y / 0x1_0000], Be16(y % 0x1_0000));
    if x < TWO_32 {
      TwoBytes(x / 0x1_0000 / 0x100, x / 0x1_0000 % 0x100);
      TwoBytes(x % 0x1_0000 / 0x100, x % 0x1_0000 % 0x100);
      BigEndianConcat(Be16(x / 0x1_0000), Be16(x % 0x1_0000));
    }
  }

  // ---- byte sequences ----

  /** Pieces one behind the other. */
  function Join(pieces: seq<seq<byte>>): seq<byte> {
    if pieces == [] then [] else pieces[0] + Join(pieces[1..])
  }

  lemma Associative<T>(a: seq<T>, b: seq<T>, c: seq<T>)
    ensures a + (b + c) == a + b + c
  {
  }

  /** The first position of an element. */
  function IndexOf<T(==)>(s: seq<T>, x: T): (i: nat)
    requires x in s
    ensures i < |s| && s[i] == x
  {
    if s[0] == x then 0 else IndexOf(s[1..], x) + 1
  }

  /** White space as the C library's number scanners skip it. */
  predicate IsSpace(b: byte) {
    b == 32 || 9 <= b <= 13
  }

  function SkipSpace(s: seq<byte>): (r: seq<byte>)
    ensures |r| <= |s|
  {
    if s != [] && IsSpace(s[0]) then SkipSpace(s[1..]) else s
  }

  function Min(a: nat, b: nat): (m: nat) {
    if a < b then a else b
  }

  /** A growable byte array; appending is the only way the codecs change it. */
  class ByteArray {
    var bytes: seq<byte>

    constructor ()
      ensures bytes == []
    {
      bytes := [];
    }

    method Add(more: seq<byte>)
      modifies this
      ensures bytes == old(bytes) + more
    {
      bytes := bytes + more;
    }

    method Clear()
      modifies this
      ensures bytes == []
    {
      bytes := [];
    }
  }
}
