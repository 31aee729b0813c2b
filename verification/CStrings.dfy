/** NUL-terminated byte strings and the C library functions the HTTP/2 code applies to them. */
module CStrings {
  import opened Machine

  /** A `char*`: the bytes before the terminator. */
  type CString = s: seq<byte> | 0 !in s

  /** What a C string sees of a byte buffer: everything before the first zero. */
  function CStr(s: seq<byte>): (r: CString)
    ensures 0 !in s ==> r == s
  {
    if s == [] || s[0] == 0 then []
    else
      assert 0 !in s ==> 0 !in s[1..];
      [s[0]] + CStr(s[1..])
  }

  /** A string literal as bytes; the literals below are ASCII. */
  function Ascii(s: string): (r: CString)
    ensures |r| == |s| && forall i :: 0 <= i < |s| && 0 < s[i] as int < 128 ==> r[i] == s[i] as int
  {
    seq(|s|, i requires 0 <= i < |s| => if 0 < s[i] as int < 128 then s[i] as int else 63)
  }

  function LowerByte(b: byte): byte {
    if 65 <= b <= 90 then b + 32 else b
  }

  function Lower(s: seq<byte>): (r: seq<byte>)
    ensures |r| == |s| && forall i :: 0 <= i < |s| ==> r[i] == LowerByte(s[i])
  {
    seq(|s|, i requires 0 <= i < |s| => LowerByte(s[i]))
  }

  /** `strcasecmp(a, b) == 0`. */
  predicate CaseEq(a: seq<byte>, b: seq<byte>) {
    Lower(a) == Lower(b)
  }

  // ---- decimal numbers: sprintf("%hu") and (uint16_t)strtoul(s, NULL, 10) ----

  predicate IsDigit(b: byte) {
    48 <= b <= 57
  }

  function Decimal(n: nat): (s: seq<byte>)
    ensures |s| >= 1 && forall i :: 0 <= i < |s| ==> IsDigit(s[i])
  {
    if n < 10 then [48 + n] else Decimal(n / 10) + [48 + n % 10]
  }

  /** Digits from the front, stopping at the first other byte. */
  function Digits(s: seq<byte>, acc: nat): nat {
    if s == [] || !IsDigit(s[0]) then acc else Digits(s[1..], 10 * acc + (s[0] - 48))
  }

  const ULONG_MAX: nat := 0xFFFF_FFFF_FFFF_FFFF

  function Strtoul16(s: seq<byte>): u16 {
    var t := SkipSpace(s);
    var negative := t != [] && t[0] == 45;
    var v: int := Digits(if t != [] && (t[0] == 45 || t[0] == 43) then t[1..] else t, 0);
    if v > ULONG_MAX then ULONG_MAX % 0x1_0000
    else if negative then -v % 0x1_0000 else v % 0x1_0000
  }

  lemma {:induction false} DigitsConcat(s: seq<byte>, tail: seq<byte>, acc: nat)
    requires forall i :: 0 <= i < |s| ==> IsDigit(s[i])
    ensures Digits(s + tail, acc) == Digits(tail, Digits(s, acc))
    decreases s
  {
    if s == [] {
      assert s + tail == tail;
    } else {
      assert (s + tail)[1..] == s[1..] + tail;
      DigitsConcat(s[1..], tail, 10 * acc + (s[0] - 48));
    }
  }

  lemma {:induction false} DigitsOfDecimal(n: nat)
    ensures Digits(Decimal(n), 0) == n
  {
    if n >= 10 {
      DigitsOfDecimal(n / 10);
      DigitsConcat(Decimal(n / 10), [48 + n % 10], 0);
      assert [48 + n % 10][1..] == [];
    } else {
      assert Decimal(n)[1..] == [];
    }
  }

  lemma StatusRoundTrip(n: u16)
    ensures Strtoul16(Decimal(n)) == n
  {
    DigitsOfDecimal(n);
  }

  /** Case does not matter to number parsing. */
  lemma {:induction false} StrtoulCase(a: seq<byte>, b: seq<byte>)
    requires CaseEq(a, b)
    ensures Strtoul16(a) == Strtoul16(b)
  {
    SkipSpaceCase(a, b);
    var a', b' := SkipSpace(a), SkipSpace(b);
    if a' != [] {
      DigitsCase(a'[1..], b'[1..], 0);
    }
    DigitsCase(a', b', 0);
  }

  lemma {:induction false} SkipSpaceCase(a: seq<byte>, b: seq<byte>)
    requires CaseEq(a, b)
    ensures CaseEq(SkipSpace(a), SkipSpace(b))
  {
    if a != [] {
      SkipSpaceCase(a[1..], b[1..]);
    }
  }

  lemma {:induction false} DigitsCase(a: seq<byte>, b: seq<byte>, acc: nat)
    requires CaseEq(a, b)
    ensures Digits(a, acc) == Digits(b, acc)
    decreases a
  {
    if a != [] && IsDigit(a[0]) {
      DigitsCase(a[1..], b[1..], 10 * acc + (a[0] - 48));
    }
  }
}
