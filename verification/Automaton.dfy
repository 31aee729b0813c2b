/** The nibble decoder of src/http2/co_http2_huffman.c:356-2809: four bits a step through a table whose
    error mark is a self-loop. The table is specified by the code it decodes, not copied. */
module Automaton {
  import opened Machine
  import opened Bits
  import opened Huffman

  datatype Transition = Transition(node: nat, complete: bool, sym: byte, end: bool)

  type Table = seq<seq<Transition>>

  /** Node n of the table stands for the tree node at path `places[n]`, the root being node 0. An entry
      stays at its own node exactly for a nibble that runs into EOS; `end` marks all-ones paths. */
  ghost predicate Implements(auto: Table, places: seq<Bitstring>, t: CodeTable)
    requires |t| == 257
  {
    && |auto| == |places| > 0 && places[0] == []
    && forall n :: 0 <= n < |auto| ==> |auto[n]| == 16 && forall x :: 0 <= x < 16 ==> EntryFor(auto, places, t, n, x)
  }

  ghost predicate EntryFor(auto: Table, places: seq<Bitstring>, t: CodeTable, n: nat, x: nat)
    requires |t| == 257 && |auto| == |places| && n < |auto| && x < |auto[n]|
  {
    var e := auto[n][x];
    match DecodeBits(t, places[n], BitsOf(x, 4))
    case Rejected => e.node == n
    case Decoded(out, path) =>
      && e.node < |auto| && places[e.node] == path
      && out == (if e.complete then [e.sym] else [])
      && e.end == AllOnes(path)
  }

  /** The self-loop is a safe error mark: with at least five bits a code, four legal bits always change
      the depth, so no legal step returns to its own node. */
  lemma SelfLoopIsError(auto: Table, places: seq<Bitstring>, t: CodeTable, n: nat, x: nat)
    requires ValidCode(t) && Implements(auto, places, t) && n < |auto| && x < 16
    ensures auto[n][x].node == n <==> DecodeBits(t, places[n], BitsOf(x, 4)).Rejected?
  {
    hide BitsOf, DecodeBits;
    assert EntryFor(auto, places, t, n, x);
    Rate(t, places[n], BitsOf(x, 4));
  }

  /** One table step is four bitwise steps. */
  lemma StepRefinesBits(auto: Table, places: seq<Bitstring>, t: CodeTable, n: nat, x: nat, bits: Bitstring, out: seq<byte>)
    requires ValidCode(t) && Implements(auto, places, t) && n < |auto| && x < 16
    requires DecodeBits(t, [], bits) == Decoded(out, places[n])
    ensures var e := auto[n][x];
            if e.node == n then DecodeBits(t, [], bits + BitsOf(x, 4)) == Rejected
            else && e.node < |auto| && e.end == AllOnes(places[e.node])
                 && DecodeBits(t, [], bits + BitsOf(x, 4)) == Decoded(out + (if e.complete then [e.sym] else []), places[e.node])
  {
    hide BitsOf, DecodeBits, PrefixFree;
    SelfLoopIsError(auto, places, t, n, x);
    assert EntryFor(auto, places, t, n, x);
    DecodeConcat(t, [], bits, BitsOf(x, 4));
  }

  lemma RejectedEarly(t: CodeTable, a: Bitstring, b: Bitstring)
    requires |t| == 257 && DecodeBits(t, [], a).Rejected?
    ensures DecodeBits(t, [], a + b).Rejected?
  {
    DecodeConcat(t, [], a, b);
  }

  lemma Shl4(v: nat)
    ensures Shl(v, 4) == 16 * v
  {
    assert Shl(v, 1) == 2 * v && Shl(v, 3) == 4 * Shl(v, 1);
  }

  lemma Nibbles(v: byte)
    ensures v / 16 < 16 && BitsOf(v, 8) == BitsOf(v / 16, 4) + BitsOf(v % 16, 4)
  {
    hide BitsOf, Shl;
    Shl4(v / 16);
    Shl4(1);
    BitsOfShifted(v / 16, 4, v % 16, 4);
  }

  /** Reading one more byte is reading its two nibbles. */
  lemma NextByteBits(src: seq<byte>, i: nat)
    requires i < |src|
    ensures src[i] / 16 < 16
    ensures Unpack(src[..i + 1]) == Unpack(src[..i]) + BitsOf(src[i] / 16, 4) + BitsOf(src[i] % 16, 4)
  {
    hide BitsOf, Unpack;
    Nibbles(src[i]);
    assert src[..i + 1] == src[..i] + [src[i]];
    UnpackSnoc(src[..i], src[i]);
    Associative(Unpack(src[..i]), BitsOf(src[i] / 16, 4), BitsOf(src[i] % 16, 4));
  }

  lemma PrefixBits(src: seq<byte>, i: nat)
    requires i <= |src|
    ensures Unpack(src[..i]) <= Unpack(src)
  {
    hide Unpack;
    assert src == src[..i] + src[i..];
    UnpackConcat(src[..i], src[i..]);
  }

  /** Four bits more. */
  method Nibble(ghost t: CodeTable, ghost places: seq<Bitstring>, auto: Table, node: nat, x: nat,
                dest: array<byte>, length: nat, ghost bits: Bitstring)
      returns (ok: bool, next: nat, newLength: nat, end: bool)
    requires ValidCode(t) && Implements(auto, places, t) && node < |auto| && x < 16
    requires length <= dest.Length && |bits| + 4 < 5 * dest.Length
    requires DecodeBits(t, [], bits) == Decoded(dest[..length], places[node])
    modifies dest
    ensures !ok ==> DecodeBits(t, [], bits + BitsOf(x, 4)) == Rejected
    ensures ok ==> next < |auto| && (end <==> AllOnes(places[next])) && newLength < dest.Length
                   && DecodeBits(t, [], bits + BitsOf(x, 4)) == Decoded(dest[..newLength], places[next])
  {
    hide BitsOf, DecodeBits, EntryFor, PrefixFree;
    StepRefinesBits(auto, places, t, node, x, bits, dest[..length]);
    Bound(t, bits + BitsOf(x, 4));
    var entry := auto[node][x];
    if entry.node == node {
      return false, 0, 0, false;
    }
    ghost var out := dest[..length];
    newLength := length;
    if entry.complete {
      dest[newLength] := entry.sym;
      newLength := newLength + 1;
    }
    assert dest[..newLength] == out + (if entry.complete then [entry.sym] else []);
    ok, next, end := true, entry.node, entry.end;
  }

  /** The table-driven decoder accepts and returns exactly what bitwise decoding does, inside its
      allocation of two bytes per input byte, terminator included. */
  method DecodeString(ghost t: CodeTable, ghost places: seq<Bitstring>, auto: Table, src: seq<byte>)
      returns (ok: bool, dest: array<byte>, destLength: nat)
    requires ValidCode(t) && Implements(auto, places, t)
    ensures dest.Length == 2 * |src|
    ensures ok <==> Decode(t, src).Some?
    ensures ok ==> destLength < dest.Length && dest[..destLength] == Decode(t, src).value && dest[destLength] == 0
  {
    hide BitsOf, Unpack, DecodeBits, EntryFor, PrefixFree;
    assert |places| == |auto| > 0;
    var node: nat, end := 0, false;
    dest := new byte[2 * |src|];
    destLength := 0;
    NothingRead(t);
    assert src[..0] == [] && src[..|src|] == src && dest[..0] == [];
    for index := 0 to |src|
      invariant node < |auto| && destLength <= dest.Length && (index > 0 ==> destLength < dest.Length)
      invariant DecodeBits(t, [], Unpack(src[..index])) == Decoded(dest[..destLength], places[node])
      invariant end <==> index > 0 && AllOnes(places[node])
    {
      ghost var bits := Unpack(src[..index]);
      var high: nat, low: nat := src[index] / 16, src[index] % 16;
      NextByteBits(src, index);
      PrefixBits(src, index + 1);
      ok, node, destLength, end := Nibble(t, places, auto, node, high, dest, destLength, bits);
      if !ok {
        Reject(t, src, bits + BitsOf(high, 4));
        return false, dest, 0;
      }
      ok, node, destLength, end := Nibble(t, places, auto, node, low, dest, destLength, bits + BitsOf(high, 4));
      if !ok {
        Reject(t, src, Unpack(src[..index + 1]));
        return false, dest, 0;
      }
    }
    if !end {
      return false, dest, 0;
    }
    dest[destLength] := 0;
    ok := true;
  }

  lemma NothingRead(t: CodeTable)
    requires |t| == 257
    ensures DecodeBits(t, [], Unpack([])) == Decoded([], [])
  {
  }

  lemma Bound(t: CodeTable, bits: Bitstring)
    requires ValidCode(t)
    ensures var r := DecodeBits(t, [], bits); r.Decoded? ==> 5 * |r.out| <= |bits|
  {
    Rate(t, [], bits);
  }

  lemma Reject(t: CodeTable, src: seq<byte>, a: Bitstring)
    requires |t| == 257 && DecodeBits(t, [], a).Rejected?
    requires a <= Unpack(src)
    ensures Decode(t, src) == None
  {
    var rest := Unpack(src)[|a|..];
    assert Unpack(src) == a + rest;
    RejectedEarly(t, a, rest);
  }
}
