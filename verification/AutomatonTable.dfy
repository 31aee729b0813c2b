/** Every valid code that leaves no path open has an automaton as src/http2/co_http2_huffman.c:93-2664 lists
    one; the shipped code is such a code. */
module AutomatonTable {
  import opened Machine
  import opened Bits
  import opened Huffman
  import opened Automaton
  import HuffmanCode
  import HuffmanTable

  /** Every bit string of 30 bits runs into a code. */
  ghost predicate Closed(t: CodeTable) {
    forall b: Bitstring :: |b| == 30 ==> !Inside(t, b)
  }

  /** All bit strings of at most n bits, the empty one first. */
  ghost function Strings(n: nat): (s: seq<Bitstring>)
    ensures s != [] && s[0] == []
  {
    if n == 0 then [[]] else Strings(n - 1) + seq(Pow2(n), v requires 0 <= v < Pow2(n) => BitsOf(v, n))
  }

  lemma {:induction false} StringsHasAll(b: Bitstring, n: nat)
    requires |b| <= n
    ensures b in Strings(n)
    decreases n
  {
    if |b| == n && n > 0 {
      BitsOfValue(b);
      ValueBound(b);
      var level := seq(Pow2(n), v requires 0 <= v < Pow2(n) => BitsOf(v, n));
      assert level[Value(b)] == b;
    } else if n > 0 {
      StringsHasAll(b, n - 1);
    }
  }

  ghost function Nodes(t: CodeTable, s: seq<Bitstring>): (r: seq<Bitstring>)
    ensures forall b :: b in r <==> b in s && Inside(t, b)
    ensures s != [] && Inside(t, s[0]) ==> r != [] && r[0] == s[0]
  {
    if s == [] then []
    else if Inside(t, s[0]) then [s[0]] + Nodes(t, s[1..])
    else Nodes(t, s[1..])
  }

  lemma LongIsOutside(t: CodeTable, path: Bitstring)
    requires Closed(t) && |path| >= 30
    ensures !Inside(t, path)
  {
    hide BitsOf;
    assert !Inside(t, path[..30]);
    var s :| 0 <= s < |t| && Code(t, s) <= path[..30];
    assert Code(t, s) <= path;
  }

  /** Four bits from a node inside the tree: at most one symbol, and a node inside the tree again. */
  lemma NibbleStays(t: CodeTable, path: Bitstring, bits: Bitstring)
    requires ValidCode(t) && Closed(t) && Inside(t, path) && |bits| == 4
    ensures var r := DecodeBits(t, path, bits);
            r.Decoded? ==> |r.out| <= 1 && Inside(t, r.path) && |r.path| <= 29
  {
    hide DecodeBits, PrefixFree, Inside, Closed;
    var r := DecodeBits(t, path, bits);
    if r.Decoded? {
      DecodeIsFaithful(t, path, bits);
      OneSymbolAtMost(t, path, bits);
      if |r.path| > 29 {
        LongIsOutside(t, r.path);
      }
    }
  }

  lemma {:induction false} OneSymbolAtMost(t: CodeTable, path: Bitstring, bits: Bitstring)
    requires ValidCode(t) && |bits| <= 5
    ensures var r := DecodeBits(t, path, bits); r.Decoded? ==> |r.out| <= 1
    decreases bits
  {
    hide BitsOf, Lookup, PrefixFree;
    if bits != [] {
      var longer := path + [bits[0]];
      if Lookup(t, longer).None? {
        OneSymbolAtMost(t, longer, bits[1..]);
      } else {
        Rate(t, [], bits[1..]);
      }
    }
  }

  /** The entry for what decoding four bits comes to. */
  ghost function Entry(places: seq<Bitstring>, n: nat, r: Decoded): Transition {
    match r
    case Rejected => Transition(n, false, 0, false)
    case Decoded(out, path) =>
      Transition(if path in places then IndexOf(places, path) else n, out != [], if out != [] then out[0] else 0, AllOnes(path))
  }

  ghost function Rows(t: CodeTable, places: seq<Bitstring>): (auto: Table)
    requires |t| == 257
    ensures |auto| == |places| && forall n :: 0 <= n < |auto| ==> |auto[n]| == 16
    ensures forall n, x: nat :: 0 <= n < |places| && x < 16 ==>
              auto[n][x] == Entry(places, n, DecodeBits(t, places[n], BitsOf(x, 4)))
  {
    seq(|places|, n requires 0 <= n < |places| =>
      seq(16, x requires 0 <= x < 16 => Entry(places, n, DecodeBits(t, places[n], BitsOf(x, 4)))))
  }

  lemma EntryIsRight(t: CodeTable, places: seq<Bitstring>, n: nat, x: nat)
    requires ValidCode(t) && Closed(t) && n < |places| && x < 16
    requires forall b :: b in places <==> b in Strings(29) && Inside(t, b)
    ensures EntryFor(Rows(t, places), places, t, n, x)
  {
    hide BitsOf, DecodeBits, PrefixFree, Inside, Closed, Strings;
    NibbleStays(t, places[n], BitsOf(x, 4));
    var r := DecodeBits(t, places[n], BitsOf(x, 4));
    if r.Decoded? {
      StringsHasAll(r.path, 29);
      assert r.out == [] || r.out == [r.out[0]];
    }
  }

  /** Every valid code in which no path stays open has an automaton that implements it. */
  lemma AutomatonExists(t: CodeTable) returns (auto: Table, places: seq<Bitstring>)
    requires ValidCode(t) && Closed(t)
    ensures Implements(auto, places, t)
  {
    hide BitsOf, DecodeBits, PrefixFree, Inside, Closed, EntryFor, Strings, Nodes, Rows;
    EmptyInside(t);
    places := Nodes(t, Strings(29));
    auto := Rows(t, places);
    forall n, x: nat | 0 <= n < |auto| && x < 16 ensures EntryFor(auto, places, t, n, x) {
      EntryIsRight(t, places, n, x);
    }
  }

  /** So everything proved about the decoder holds of the shipped code, with the automaton made from it. */
  lemma ShippedAutomaton() returns (auto: Table, places: seq<Bitstring>)
    ensures ValidCode(HuffmanTable.Shipped()) && Implements(auto, places, HuffmanTable.Shipped())
  {
    hide ValidCode, Implements, Inside, HuffmanTable.Shipped;
    HuffmanCode.ShippedIsValid();
    forall b: Bitstring | |b| == 30 ensures !Inside(HuffmanTable.Shipped(), b) {
      HuffmanCode.ShippedIsClosed(b);
    }
    auto, places := AutomatonExists(HuffmanTable.Shipped());
  }
}
