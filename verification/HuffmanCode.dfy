/** The Huffman code of src/http2/co_http2_huffman.c:24-91 (Appendix B of RFC 7541): it is valid, and it
    leaves no path open. */
module HuffmanCode {
  import opened Machine
  import opened Bits
  import opened Huffman
  import opened HuffmanTable

  // ---- the rows of the table again, by length instead of by symbol: the codes of one length are consecutive ----

  const GROUPS: nat := 21

  function Length(g: nat): (r: nat)
    requires g < GROUPS
    ensures 5 <= r <= 30
  {
    match g
    case 0 => 5 case 1 => 6 case 2 => 7 case 3 => 8 case 4 => 10 case 5 => 11 case 6 => 12
    case 7 => 13 case 8 => 14 case 9 => 15 case 10 => 19 case 11 => 20 case 12 => 21 case 13 => 22
    case 14 => 23 case 15 => 24 case 16 => 25 case 17 => 26 case 18 => 27 case 19 => 28 case _ => 30
  }

  /** The first code of a group. */
  function First(g: nat): (r: nat)
    requires g < GROUPS
    ensures r < 0x4000_0000
  {
    match g
    case 0 => 0x0 case 1 => 0x14 case 2 => 0x5c case 3 => 0xf8 case 4 => 0x3f8
    case 5 => 0x7fa case 6 => 0xffa case 7 => 0x1ff8 case 8 => 0x3ffc case 9 => 0x7ffc
    case 10 => 0x7fff0 case 11 => 0xfffe6 case 12 => 0x1fffdc case 13 => 0x3fffd2 case 14 => 0x7fffd8
    case 15 => 0xffffea case 16 => 0x1ffffec case 17 => 0x3ffffe0 case 18 => 0x7ffffde case 19 => 0xfffffe2
    case _ => 0x3ffffffc
  }

  function Size(g: nat): (r: nat)
    requires g < GROUPS
    ensures 0 < r <= 32
  {
    match g
    case 0 => 10 case 1 => 26 case 2 => 32 case 3 => 6 case 4 => 5 case 5 => 3 case 6 => 2
    case 7 => 6 case 8 => 2 case 9 => 3 case 10 => 3 case 11 => 8 case 12 => 13 case 13 => 26
    case 14 => 29 case 15 => 12 case 16 => 4 case 17 => 15 case 18 => 19 case 19 => 29 case _ => 4
  }

  // The symbols of each length, in the order of their codes.

  function Bits5(): seq<nat> {
    [48, 49, 50, 97, 99, 101, 105, 111, 115, 116]
  }

  function Bits6(): seq<nat> {
    [32, 37, 45, 46, 47, 51, 52, 53, 54, 55, 56, 57, 61, 65, 95, 98, 100, 102, 103, 104, 108, 109, 110, 112, 114, 117]
  }

  function Bits7(): seq<nat> {
    [58, 66, 67, 68, 69, 70, 71, 72, 73, 74, 75, 76, 77, 78, 79, 80, 81, 82, 83, 84, 85, 86, 87, 89, 106, 107, 113,
     118, 119, 120, 121, 122]
  }

  function Bits8(): seq<nat> {
    [38, 42, 44, 59, 88, 90]
  }

  function Bits10(): seq<nat> {
    [33, 34, 40, 41, 63]
  }

  function Bits11(): seq<nat> {
    [39, 43, 124]
  }

  function Bits12(): seq<nat> {
    [35, 62]
  }

  function Bits13(): seq<nat> {
    [0, 36, 64, 91, 93, 126]
  }

  function Bits14(): seq<nat> {
    [94, 125]
  }

  function Bits15(): seq<nat> {
    [60, 96, 123]
  }

  function Bits19(): seq<nat> {
    [92, 195, 208]
  }

  function Bits20(): seq<nat> {
    [128, 130, 131, 162, 184, 194, 224, 226]
  }

  function Bits21(): seq<nat> {
    [153, 161, 167, 172, 176, 177, 179, 209, 216, 217, 227, 229, 230]
  }

  function Bits22(): seq<nat> {
    [129, 132, 133, 134, 136, 146, 154, 156, 160, 163, 164, 169, 170, 173, 178, 181, 185, 186, 187, 189, 190, 196,
     198, 228, 232, 233]
  }

  function Bits23(): seq<nat> {
    [1, 135, 137, 138, 139, 140, 141, 143, 147, 149, 150, 151, 152, 155, 157, 158, 165, 166, 168, 174, 175, 180, 182,
     183, 188, 191, 197, 231, 239]
  }

  function Bits24(): seq<nat> {
    [9, 142, 144, 145, 148, 159, 171, 206, 215, 225, 236, 237]
  }

  function Bits25(): seq<nat> {
    [199, 207, 234, 235]
  }

  function Bits26(): seq<nat> {
    [192, 193, 200, 201, 202, 205, 210, 213, 218, 219, 238, 240, 242, 243, 255]
  }

  function Bits27(): seq<nat> {
    [203, 204, 211, 212, 214, 221, 222, 223, 241, 244, 245, 246, 247, 248, 250, 251, 252, 253, 254]
  }

  function Bits28(): seq<nat> {
    [2, 3, 4, 5, 6, 7, 8, 11, 12, 14, 15, 16, 17, 18, 19, 20, 21, 23, 24, 25, 26, 27, 28, 29, 30, 31, 127, 220, 249]
  }

  function Bits30(): seq<nat> {
    [10, 13, 22, 256]
  }

  function Symbols(g: nat): (r: seq<nat>)
    requires g < GROUPS
    ensures |r| == Size(g)
  {
    match g
    case 0 => Bits5() case 1 => Bits6() case 2 => Bits7() case 3 => Bits8() case 4 => Bits10()
    case 5 => Bits11() case 6 => Bits12() case 7 => Bits13() case 8 => Bits14() case 9 => Bits15()
    case 10 => Bits19() case 11 => Bits20() case 12 => Bits21() case 13 => Bits22() case 14 => Bits23()
    case 15 => Bits24() case 16 => Bits25() case 17 => Bits26() case 18 => Bits27() case 19 => Bits28()
    case _ => Bits30()
  }

  /** Where a symbol stands: its group, and the position in it. */
  function Place(s: nat, g: nat := 0): (r: Option<(nat, nat)>)
    requires g <= GROUPS
    ensures r.Some? ==> g <= r.value.0 < GROUPS && r.value.1 < Size(r.value.0) && Symbols(r.value.0)[r.value.1] == s
    ensures r.None? ==> forall h :: g <= h < GROUPS ==> s !in Symbols(h)
    decreases GROUPS - g
  {
    if g == GROUPS then None
    else if s in Symbols(g) then Some((g, IndexOf(Symbols(g), s)))
    else Place(s, g + 1)
  }

  function Entry(s: nat): CodeEntry {
    match Place(s)
    case Some((g, i)) => CodeEntry(First(g) + i, Length(g))
    case None => CodeEntry(0, 30)
  }

  // ---- every symbol, and only once ----

  /** The symbols of the groups from g on. */
  function Flat(g: nat): (q: seq<nat>)
    requires g <= GROUPS
    decreases GROUPS - g
  {
    if g == GROUPS then [] else Symbols(g) + Flat(g + 1)
  }

  lemma EverySymbol(s: nat)
    requires s < 257
    ensures Place(s).Some?
  {
    hide Place, Bits5, Bits6, Bits7, Bits8, Bits10, Bits11, Bits12, Bits13, Bits14, Bits15, Bits19,
         Bits20, Bits21, Bits22, Bits23, Bits24, Bits25, Bits26, Bits27, Bits28, Bits30;
    if s < 64 { Range0(s); }
    else if s < 128 { Range64(s); }
    else if s < 192 { Range128(s); }
    else { Range192(s); }
    if Place(s).None? { AllGroups(s); }
  }

  lemma AllGroups(s: nat)
    requires Place(s).None?
    ensures !(s in Bits5() || s in Bits6() || s in Bits7() || s in Bits8() || s in Bits10() || s in Bits11()
              || s in Bits12() || s in Bits13() || s in Bits14() || s in Bits15() || s in Bits19() || s in Bits20()
              || s in Bits21() || s in Bits22() || s in Bits23() || s in Bits24() || s in Bits25() || s in Bits26()
              || s in Bits27() || s in Bits28() || s in Bits30())
  {
    hide Place, Bits5, Bits6, Bits7, Bits8, Bits10, Bits11, Bits12, Bits13, Bits14, Bits15, Bits19,
         Bits20, Bits21, Bits22, Bits23, Bits24, Bits25, Bits26, Bits27, Bits28, Bits30;
    assert s !in Symbols(0) && s !in Symbols(1) && s !in Symbols(2) && s !in Symbols(3) && s !in Symbols(4);
    assert s !in Symbols(5) && s !in Symbols(6) && s !in Symbols(7) && s !in Symbols(8) && s !in Symbols(9);
    assert s !in Symbols(10) && s !in Symbols(11) && s !in Symbols(12) && s !in Symbols(13) && s !in Symbols(14);
    assert s !in Symbols(15) && s !in Symbols(16) && s !in Symbols(17) && s !in Symbols(18) && s !in Symbols(19);
    assert s !in Symbols(20);
  }

  lemma Range0(s: nat)
    requires 0 <= s < 64
    ensures s in Bits5() || s in Bits6() || s in Bits7() || s in Bits8() || s in Bits10() || s in Bits11()
              || s in Bits12() || s in Bits13() || s in Bits15() || s in Bits23() || s in Bits24() || s in Bits28()
              || s in Bits30()
  {
  }

  lemma Range64(s: nat)
    requires 64 <= s < 128
    ensures s in Bits5() || s in Bits6() || s in Bits7() || s in Bits8() || s in Bits11() || s in Bits13()
              || s in Bits14() || s in Bits15() || s in Bits19() || s in Bits28()
  {
  }

  lemma Range128(s: nat)
    requires 128 <= s < 192
    ensures s in Bits20() || s in Bits21() || s in Bits22() || s in Bits23() || s in Bits24()
  {
  }

  lemma Range192(s: nat)
    requires 192 <= s < 257
    ensures s in Bits19() || s in Bits20() || s in Bits21() || s in Bits22() || s in Bits23() || s in Bits24()
              || s in Bits25() || s in Bits26() || s in Bits27() || s in Bits28() || s in Bits30()
  {
  }

  function Total(g: nat): nat {
    match g
    case 0 => 257 case 1 => 247 case 2 => 221 case 3 => 189 case 4 => 183 case 5 => 178 case 6 => 175
    case 7 => 173 case 8 => 167 case 9 => 165 case 10 => 162 case 11 => 159 case 12 => 151 case 13 => 138
    case 14 => 112 case 15 => 83 case 16 => 71 case 17 => 67 case 18 => 52 case 19 => 33 case 20 => 4
    case _ => 0
  }

  lemma TotalNext(g: nat)
    requires g < GROUPS
    ensures Total(g) == Size(g) + Total(g + 1)
  {
  }

  lemma {:induction false} FlatLength(g: nat)
    requires g <= GROUPS
    ensures |Flat(g)| == Total(g)
    decreases GROUPS - g
  {
    hide Symbols, Size;
    if g < GROUPS {
      TotalNext(g);
      FlatLength(g + 1);
    }
  }

  /** Where a group begins in the list of all symbols. */
  function Offset(g: nat): nat
    requires g <= GROUPS
  {
    if g == 0 then 0 else Offset(g - 1) + Size(g - 1)
  }

  lemma {:induction false} FlatAt(g: nat, i: nat, h: nat)
    requires h <= g < GROUPS && i < Size(g)
    ensures Offset(h) <= Offset(g) && Offset(g) - Offset(h) + i < |Flat(h)| && Flat(h)[Offset(g) - Offset(h) + i] == Symbols(g)[i]
    decreases g - h
  {
    hide Symbols, Size;
    if h < g {
      FlatAt(g, i, h + 1);
    }
  }

  lemma {:induction false} OffsetsApart(g: nat, h: nat)
    requires g < h <= GROUPS
    ensures Offset(g) + Size(g) <= Offset(h)
    decreases h
  {
    hide Symbols, Size;
    if g + 1 < h {
      OffsetsApart(g, h - 1);
    }
  }

  predicate HasAll(q: seq<nat>, n: nat) {
    forall x: nat :: x < n ==> x in q
  }

  /** A list that has all numbers below n is at least that long. */
  lemma {:induction false} HasAllIsLong(q: seq<nat>, n: nat)
    requires HasAll(q, n)
    ensures |q| >= n
    decreases n
  {
    if n > 0 {
      assert n - 1 in q;
      var k :| 0 <= k < |q| && q[k] == n - 1;
      Without(q, k, n - 1);
      HasAllIsLong(q[..k] + q[k + 1..], n - 1);
    }
  }

  lemma Without(q: seq<nat>, k: nat, n: nat)
    requires k < |q| && HasAll(q, n)
    requires q[k] >= n || exists j :: 0 <= j < |q| && j != k && q[j] == q[k]
    ensures HasAll(q[..k] + q[k + 1..], n)
  {
    var r := q[..k] + q[k + 1..];
    forall x: nat | x < n ensures x in r {
      assert x in q;
      var j :| 0 <= j < |q| && q[j] == x;
      if j == k {
        j :| 0 <= j < |q| && j != k && q[j] == q[k];
      }
      assert r[if j < k then j else j - 1] == x;
    }
  }

  lemma OnlyOnce(s: nat, g: nat, i: nat)
    requires g < GROUPS && i < Size(g) && Symbols(g)[i] == s
    ensures s < 257 && Place(s) == Some((g, i))
  {
    hide Symbols, Place, Flat, Offset;
    InFlat(g, i);
    var (h, j) := Place(s).value;
    InFlat(h, j);
    if (h, j) != (g, i) || s >= 257 {
      if (h, j) != (g, i) { PlacesApart(g, i, h, j); }
      FlatLength(0);
      HasAllSymbols();
      var k, k' := Offset(g) + i, Offset(h) + j;
      assert Flat(0)[k'] == Flat(0)[k] && (s < 257 ==> k' != k);
      Without(Flat(0), k, 257);
      HasAllIsLong(Flat(0)[..k] + Flat(0)[k + 1..], 257);
      assert false;
    }
  }

  lemma HasAllSymbols()
    ensures HasAll(Flat(0), 257)
  {
    hide Symbols, Place, Flat, Offset;
    forall x: nat | x < 257 ensures x in Flat(0) {
      EverySymbol(x);
      var (g, i) := Place(x).value;
      InFlat(g, i);
    }
  }

  lemma InFlat(g: nat, i: nat)
    requires g < GROUPS && i < Size(g)
    ensures Offset(g) + i < |Flat(0)| && Flat(0)[Offset(g) + i] == Symbols(g)[i]
  {
    hide Symbols;
    FlatAt(g, i, 0);
  }

  lemma PlacesApart(g: nat, i: nat, h: nat, j: nat)
    requires g < GROUPS && i < Size(g) && h < GROUPS && j < Size(h) && (g, i) != (h, j)
    ensures Offset(g) + i != Offset(h) + j
  {
    hide Symbols;
    if g < h { OffsetsApart(g, h); }
    if h < g { OffsetsApart(h, g); }
  }

  // ---- the rows are those of the groups ----

  function Consecutive(first: nat, i: nat, length: nat): CodeEntry
    requires first < 0x4000_0000 && i < 32
  {
    CodeEntry(first + i, length)
  }

  /** Some symbols of a list have consecutive codes of one length. */
  predicate RowsAre(q: seq<nat>, from: nat, to: nat, first: nat, length: nat)
    requires first < 0x4000_0000 && to <= 32
  {
    forall i :: from <= i < to && i < |q| ==> q[i] < 257 && Row(q[i]) == Consecutive(first, i, length)
  }

  lemma Rows5From0()
    ensures RowsAre(Bits5(), 0, 8, 0x0, 5)
  {
  }

  lemma Rows5From8()
    ensures RowsAre(Bits5(), 8, 10, 0x0, 5)
  {
  }

  lemma Rows6From0()
    ensures RowsAre(Bits6(), 0, 8, 0x14, 6)
  {
  }

  lemma Rows6From8()
    ensures RowsAre(Bits6(), 8, 16, 0x14, 6)
  {
  }

  lemma Rows6From16()
    ensures RowsAre(Bits6(), 16, 24, 0x14, 6)
  {
  }

  lemma Rows6From24()
    ensures RowsAre(Bits6(), 24, 26, 0x14, 6)
  {
  }

  lemma Rows7From0()
    ensures RowsAre(Bits7(), 0, 8, 0x5c, 7)
  {
  }

  lemma Rows7From8()
    ensures RowsAre(Bits7(), 8, 16, 0x5c, 7)
  {
  }

  lemma Rows7From16()
    ensures RowsAre(Bits7(), 16, 24, 0x5c, 7)
  {
  }

  lemma Rows7From24()
    ensures RowsAre(Bits7(), 24, 32, 0x5c, 7)
  {
  }

  lemma Rows8From0()
    ensures RowsAre(Bits8(), 0, 6, 0xf8, 8)
  {
  }

  lemma Rows10From0()
    ensures RowsAre(Bits10(), 0, 5, 0x3f8, 10)
  {
  }

  lemma Rows11From0()
    ensures RowsAre(Bits11(), 0, 3, 0x7fa, 11)
  {
  }

  lemma Rows12From0()
    ensures RowsAre(Bits12(), 0, 2, 0xffa, 12)
  {
  }

  lemma Rows13From0()
    ensures RowsAre(Bits13(), 0, 6, 0x1ff8, 13)
  {
  }

  lemma Rows14From0()
    ensures RowsAre(Bits14(), 0, 2, 0x3ffc, 14)
  {
  }

  lemma Rows15From0()
    ensures RowsAre(Bits15(), 0, 3, 0x7ffc, 15)
  {
  }

  lemma Rows19From0()
    ensures RowsAre(Bits19(), 0, 3, 0x7fff0, 19)
  {
  }

  lemma Rows20From0()
    ensures RowsAre(Bits20(), 0, 8, 0xfffe6, 20)
  {
  }

  lemma Rows21From0()
    ensures RowsAre(Bits21(), 0, 8, 0x1fffdc, 21)
  {
  }

  lemma Rows21From8()
    ensures RowsAre(Bits21(), 8, 13, 0x1fffdc, 21)
  {
  }

  lemma Rows22From0()
    ensures RowsAre(Bits22(), 0, 8, 0x3fffd2, 22)
  {
  }

  lemma Rows22From8()
    ensures RowsAre(Bits22(), 8, 16, 0x3fffd2, 22)
  {
  }

  lemma Rows22From16()
    ensures RowsAre(Bits22(), 16, 24, 0x3fffd2, 22)
  {
  }

  lemma Rows22From24()
    ensures RowsAre(Bits22(), 24, 26, 0x3fffd2, 22)
  {
  }

  lemma Rows23From0()
    ensures RowsAre(Bits23(), 0, 8, 0x7fffd8, 23)
  {
  }

  lemma Rows23From8()
    ensures RowsAre(Bits23(), 8, 16, 0x7fffd8, 23)
  {
  }

  lemma Rows23From16()
    ensures RowsAre(Bits23(), 16, 24, 0x7fffd8, 23)
  {
  }

  lemma Rows23From24()
    ensures RowsAre(Bits23(), 24, 29, 0x7fffd8, 23)
  {
  }

  lemma Rows24From0()
    ensures RowsAre(Bits24(), 0, 8, 0xffffea, 24)
  {
  }

  lemma Rows24From8()
    ensures RowsAre(Bits24(), 8, 12, 0xffffea, 24)
  {
  }

  lemma Rows25From0()
    ensures RowsAre(Bits25(), 0, 4, 0x1ffffec, 25)
  {
  }

  lemma Rows26From0()
    ensures RowsAre(Bits26(), 0, 8, 0x3ffffe0, 26)
  {
  }

  lemma Rows26From8()
    ensures RowsAre(Bits26(), 8, 15, 0x3ffffe0, 26)
  {
  }

  lemma Rows27From0()
    ensures RowsAre(Bits27(), 0, 8, 0x7ffffde, 27)
  {
  }

  lemma Rows27From8()
    ensures RowsAre(Bits27(), 8, 16, 0x7ffffde, 27)
  {
  }

  lemma Rows27From16()
    ensures RowsAre(Bits27(), 16, 19, 0x7ffffde, 27)
  {
  }

  lemma Rows28From0()
    ensures RowsAre(Bits28(), 0, 8, 0xfffffe2, 28)
  {
  }

  lemma Rows28From8()
    ensures RowsAre(Bits28(), 8, 16, 0xfffffe2, 28)
  {
  }

  lemma Rows28From16()
    ensures RowsAre(Bits28(), 16, 24, 0xfffffe2, 28)
  {
  }

  lemma Rows28From24()
    ensures RowsAre(Bits28(), 24, 29, 0xfffffe2, 28)
  {
  }

  lemma Rows30From0()
    ensures RowsAre(Bits30(), 0, 4, 0x3ffffffc, 30)
  {
  }

  lemma GroupRows(g: nat, i: nat)
    requires g < GROUPS && i < Size(g)
    ensures var s := Symbols(g)[i]; s < 257 && Row(s) == Consecutive(First(g), i, Length(g))
  {
    hide Row, Consecutive, Bits5, Bits6, Bits7, Bits8, Bits10, Bits11, Bits12, Bits13, Bits14, Bits15, Bits19,
         Bits20, Bits21, Bits22, Bits23, Bits24, Bits25, Bits26, Bits27, Bits28, Bits30;
    match g {
      case 0 => Rows5From0(); Rows5From8();
      case 1 => Rows6From0(); Rows6From8(); Rows6From16(); Rows6From24();
      case 2 => Rows7From0(); Rows7From8(); Rows7From16(); Rows7From24();
      case 3 => Rows8From0();
      case 4 => Rows10From0();
      case 5 => Rows11From0();
      case 6 => Rows12From0();
      case 7 => Rows13From0();
      case 8 => Rows14From0();
      case 9 => Rows15From0();
      case 10 => Rows19From0();
      case 11 => Rows20From0();
      case 12 => Rows21From0(); Rows21From8();
      case 13 => Rows22From0(); Rows22From8(); Rows22From16(); Rows22From24();
      case 14 => Rows23From0(); Rows23From8(); Rows23From16(); Rows23From24();
      case 15 => Rows24From0(); Rows24From8();
      case 16 => Rows25From0();
      case 17 => Rows26From0(); Rows26From8();
      case 18 => Rows27From0(); Rows27From8(); Rows27From16();
      case 19 => Rows28From0(); Rows28From8(); Rows28From16(); Rows28From24();
      case _ => Rows30From0();
    }
  }

  /** Row by row, the table is what the groups make it. */
  lemma RowIsEntry(s: nat)
    requires s < 257
    ensures Row(s) == Entry(s)
  {
    hide Row, Symbols, Place, First, Size, Length;
    EverySymbol(s);
    GroupRows(Place(s).value.0, Place(s).value.1);
  }

  // ---- codes as stretches of 30-bit numbers ----

  /** How many 30-bit numbers begin with one code of the group. */
  function Width(g: nat): (w: nat)
    requires g < GROUPS
    ensures w >= 1
  {
    Pow2(30 - Length(g))
  }

  function Times(c: nat, w: nat): nat {
    c * w
  }

  function Start(g: nat): nat
    requires g < GROUPS
  {
    Times(First(g), Width(g))
  }

  function End(g: nat): nat
    requires g < GROUPS
  {
    Times(First(g) + Size(g), Width(g))
  }

  lemma Powers()
    ensures Pow2(0) == 1 && Pow2(2) == 0x4 && Pow2(3) == 0x8 && Pow2(4) == 0x10 && Pow2(5) == 0x20 && Pow2(6) == 0x40
    ensures Pow2(7) == 0x80 && Pow2(8) == 0x100 && Pow2(9) == 0x200 && Pow2(10) == 0x400 && Pow2(11) == 0x800
    ensures Pow2(15) == 0x8000 && Pow2(16) == 0x1_0000 && Pow2(17) == 0x2_0000 && Pow2(18) == 0x4_0000
    ensures Pow2(19) == 0x8_0000 && Pow2(20) == 0x10_0000 && Pow2(22) == 0x40_0000 && Pow2(23) == 0x80_0000
    ensures Pow2(24) == 0x100_0000 && Pow2(25) == 0x200_0000 && Pow2(30) == 0x4000_0000
  {
    assert Pow2(12) == 0x1000 && Pow2(13) == 0x2000 && Pow2(14) == 0x4000;
    assert Pow2(21) == 0x20_0000 && Pow2(26) == 0x400_0000 && Pow2(28) == 0x1000_0000;
  }

  /** The groups follow one another without a gap, from 0 to 2^30. */
  lemma Chain(g: nat)
    requires g < GROUPS
    ensures Start(0) == 0
    ensures End(g) == if g == 20 then 0x4000_0000 else Start(g + 1)
  {
    Powers();
    hide Pow2;
  }

  lemma {:induction false} ChainUp(g: nat, h: nat)
    requires g < h < GROUPS
    ensures End(g) <= Start(h)
    decreases h
  {
    hide Start, End;
    Chain(h - 1);
    if g < h - 1 {
      ChainUp(g, h - 1);
      StartBeforeEnd(h - 1);
    }
  }

  lemma StartBeforeEnd(g: nat)
    requires g < GROUPS
    ensures Start(g) <= End(g)
  {
    hide First, Size, Width;
  }

  /** The stretch of the i-th code of a group. */
  function Low(g: nat, i: nat): nat
    requires g < GROUPS
  {
    Times(First(g) + i, Width(g))
  }

  lemma StretchesApart(g: nat, i: nat, h: nat, j: nat)
    requires g < GROUPS && i < Size(g) && h < GROUPS && j < Size(h)
    requires g < h || (g == h && i < j)
    ensures Low(g, i + 1) <= Low(h, j)
  {
    hide First, Size, Width, Times;
    if g < h {
      ChainUp(g, h);
      TimesMonotone(First(g) + i + 1, First(g) + Size(g), Width(g));
      TimesMonotone(First(h), First(h) + j, Width(h));
    } else {
      TimesMonotone(First(g) + i + 1, First(g) + j, Width(g));
    }
  }

  lemma TimesMonotone(a: nat, b: nat, w: nat)
    requires a <= b
    ensures Times(a, w) <= Times(b, w)
  {
  }

  /** Both ways: the factor can be read off. */
  lemma TimesNext(a: nat, b: nat, w: nat)
    requires w >= 1
    ensures Times(a + 1, w) == Times(a, w) + w
    ensures Times(a, w) <= Times(b, w) <==> a <= b
  {
  }

  // ---- prefixes ----

  lemma {:induction false} ShlIsTimes(v: nat, n: nat)
    ensures Shl(v, n) == v * Pow2(n)
  {
    if n > 0 {
      ShlIsTimes(v, n - 1);
      assert 2 * (v * Pow2(n - 1)) == v * (2 * Pow2(n - 1));
    }
  }

  lemma {:induction false} Pow2Sum(m: nat, n: nat)
    ensures Pow2(m) * Pow2(n) == Pow2(m + n)
  {
    ShlIsTimes(Pow2(m), n);
    if n > 0 {
      Pow2Sum(m, n - 1);
      assert Pow2(m) * (2 * Pow2(n - 1)) == 2 * (Pow2(m) * Pow2(n - 1));
    }
  }

  /** What begins with a code lies in its stretch. */
  lemma InStretch(a: Bitstring, b: Bitstring)
    requires a <= b && |b| <= 30
    ensures var v := Times(Value(b), Pow2(30 - |b|));
            Times(Value(a), Pow2(30 - |a|)) <= v < Times(Value(a) + 1, Pow2(30 - |a|))
  {
    hide Pow2, Value, Times;
    var d := b[|a|..];
    assert b == a + d;
    ValueConcat(a, d);
    ShlIsTimes(Value(a), |d|);
    ValueBound(d);
    Pow2Sum(|d|, 30 - |b|);
    TwoLevels(Value(a), Value(d), Pow2(|d|), Pow2(30 - |b|));
  }

  lemma TwoLevels(a: nat, d: nat, m: nat, w: nat)
    requires d < m && w >= 1
    ensures Times(a, m * w) <= Times(a * m + d, w) < Times(a + 1, m * w)
  {
    assert (a * m + d) * w == a * (m * w) + d * w;
    assert (a + 1) * (m * w) == a * (m * w) + m * w;
    assert d * w < m * w;
  }

  // ---- the code ----

  lemma CodeFits(g: nat, i: nat)
    requires g < GROUPS && i < Size(g)
    ensures First(g) + i < Pow2(Length(g))
  {
    EndBound(g);
    Pow2Sum(Length(g), 30 - Length(g));
    Powers();
    hide Pow2, Length, First, Size, Times;
    TimesNext(First(g) + Size(g), Pow2(Length(g)), Width(g));
    TimesIs(Pow2(Length(g)), Width(g));
  }

  lemma TimesIs(a: nat, w: nat)
    ensures Times(a, w) == a * w
  {
  }

  lemma EndBound(g: nat)
    requires g < GROUPS
    ensures End(g) <= 0x4000_0000
  {
    hide Start, End;
    Chain(20);
    if g < 20 {
      ChainUp(g, 20);
      StartBeforeEnd(20);
    }
  }

  /** The code of a symbol, by its place. */
  lemma CodeAt(s: nat) returns (g: nat, i: nat)
    requires s < 257
    ensures Place(s) == Some((g, i)) && g < GROUPS && i < Size(g)
    ensures var p := Code(Shipped(), s); |p| == Length(g) && Value(p) == First(g) + i
  {
    hide Symbols, Place, Pow2, First, Size, Length, BitsOf, Value, Row;
    EverySymbol(s);
    RowIsEntry(s);
    g, i := Place(s).value.0, Place(s).value.1;
    CodeFits(g, i);
    ValueOfBits(First(g) + i, Length(g));
  }

  lemma ShippedPrefixFree(s: nat, s': nat)
    requires s < 257 && s' < 257 && s != s'
    ensures !(Code(Shipped(), s) <= Code(Shipped(), s'))
  {
    hide Symbols, Place, First, Size, Length, Width, Shipped, Code, Value, Times;
    var g, i := CodeAt(s);
    var h, j := CodeAt(s');
    if Code(Shipped(), s) <= Code(Shipped(), s') {
      StretchOf(g, i, h, j, Code(Shipped(), s), Code(Shipped(), s'));
      TimesNext(First(g) + i, 0, Width(g));
      TimesNext(First(h) + j, 0, Width(h));
      if g < h || (g == h && i < j) {
        StretchesApart(g, i, h, j);
      } else {
        StretchesApart(h, j, g, i);
      }
      assert false;
    }
  }

  lemma StretchOf(g: nat, i: nat, h: nat, j: nat, a: Bitstring, b: Bitstring)
    requires g < GROUPS && h < GROUPS && a <= b
    requires |a| == Length(g) && Value(a) == First(g) + i && |b| == Length(h) && Value(b) == First(h) + j
    ensures Low(g, i) <= Low(h, j) < Low(g, i + 1)
  {
    hide First, Size, Length, Value, Times, Pow2;
    InStretch(a, b);
  }

  lemma LastSymbol()
    ensures Symbols(20)[3] == EOS && First(20) == 0x3fff_fffc && Length(20) == 30 && Size(20) == 4
  {
    hide Bits5, Bits6, Bits7, Bits8, Bits10, Bits11, Bits12, Bits13, Bits14, Bits15, Bits19, Bits20, Bits21, Bits22,
         Bits23, Bits24, Bits25, Bits26, Bits27, Bits28;
  }

  lemma EndIsOnes()
    ensures Code(Shipped(), EOS) == Ones(30)
  {
    LastSymbol();
    hide BitsOf, Ones, Value, Pow2, Shipped, Place, Symbols, First, Length, Size;
    OnlyOnce(EOS, 20, 3);
    var g, i := CodeAt(EOS);
    Powers();
    AllOnesValue(30);
    SameValue(Code(Shipped(), EOS), Ones(30));
  }

  /** The shipped code is valid: no code begins another, and that of EOS is thirty ones. */
  lemma ShippedIsValid()
    ensures ValidCode(Shipped())
  {
    hide Code, Place, Symbols, Row;
    forall s | 0 <= s < 257 ensures 5 <= Shipped()[s].length <= 30 {
      EverySymbol(s);
      RowIsEntry(s);
    }
    EndIsOnes();
    forall s, s' | 0 <= s < 257 && 0 <= s' < 257 && s != s' ensures !(Code(Shipped(), s) <= Code(Shipped(), s')) {
      ShippedPrefixFree(s, s');
    }
  }

  lemma {:induction false} GroupOf(v: nat, g: nat) returns (h: nat)
    requires g < GROUPS && v < End(g)
    ensures h <= g && Start(h) <= v < End(h)
    decreases g
  {
    hide Start, End;
    if Start(g) <= v {
      h := g;
    } else {
      Chain(0);
      Chain(g - 1);
      h := GroupOf(v, g - 1);
    }
  }

  /** Every 30 bits begin with a code, so decoding never runs on for ever. */
  lemma ShippedIsClosed(b: Bitstring)
    requires |b| == 30
    ensures !Inside(Shipped(), b)
  {
    hide Shipped, Pow2, Value, Code, Place, Symbols, First, Size, Length, Start, End, Times;
    ValueBound(b);
    Powers();
    Chain(20);
    var g := GroupOf(Value(b), 20);
    var front := b[..Length(g)];
    InStretch(front, b);
    TimesIs(Value(b), 1);
    InGroup(g, Value(front), Value(b));
    var i: nat := Value(front) - First(g);
    var s := Symbols(g)[i];
    OnlyOnce(s, g, i);
    var h, j := CodeAt(s);
    SameValue(Code(Shipped(), s), front);
  }

  lemma InGroup(g: nat, c: nat, v: nat)
    requires g < GROUPS && Start(g) <= v < End(g) && Times(c, Pow2(30 - Length(g))) <= v < Times(c + 1, Pow2(30 - Length(g)))
    ensures First(g) <= c < First(g) + Size(g)
  {
    hide First, Size, Length, Times, Pow2;
    TimesNext(First(g), c + 1, Width(g));
    TimesNext(First(g) + Size(g), c, Width(g));
    if c + 1 == First(g) {
      assert false;
    }
  }

  lemma SameValue(a: Bitstring, b: Bitstring)
    requires |a| == |b| && Value(a) == Value(b)
    ensures a == b
  {
    hide Value, BitsOf;
    BitsOfValue(a);
    BitsOfValue(b);
  }

  // ---- the code is canonical ----

  predicate Ascends(q: seq<nat>) {
    forall i :: 0 < i < |q| ==> q[i - 1] < q[i]
  }

  lemma {:induction false} AscendsFar(q: seq<nat>, i: nat, j: nat)
    requires Ascends(q) && i < j < |q|
    ensures q[i] < q[j]
    decreases j
  {
    if i < j - 1 {
      AscendsFar(q, i, j - 1);
    }
  }

  lemma ShortAscend()
    ensures Ascends(Bits5()) && Ascends(Bits8()) && Ascends(Bits10()) && Ascends(Bits11()) && Ascends(Bits12())
    ensures Ascends(Bits13()) && Ascends(Bits14()) && Ascends(Bits15()) && Ascends(Bits19()) && Ascends(Bits20())
    ensures Ascends(Bits25()) && Ascends(Bits30())
  {
  }

  lemma MiddleAscend()
    ensures Ascends(Bits6()) && Ascends(Bits7()) && Ascends(Bits21()) && Ascends(Bits24())
  {
  }

  lemma LongAscend()
    ensures Ascends(Bits22()) && Ascends(Bits23()) && Ascends(Bits28())
  {
  }

  lemma RareAscend()
    ensures Ascends(Bits26()) && Ascends(Bits27())
  {
  }

  lemma GroupsAscend(g: nat)
    requires g < GROUPS
    ensures Ascends(Symbols(g))
  {
    hide Ascends, Bits5, Bits6, Bits7, Bits8, Bits10, Bits11, Bits12, Bits13, Bits14, Bits15, Bits19,
         Bits20, Bits21, Bits22, Bits23, Bits24, Bits25, Bits26, Bits27, Bits28, Bits30;
    ShortAscend();
    MiddleAscend();
    LongAscend();
    RareAscend();
  }

  lemma LengthsGrow(g: nat, h: nat)
    requires g < h < GROUPS
    ensures Length(g) < Length(h)
  {
  }

  lemma EntryAt(s: nat) returns (g: nat, i: nat)
    requires s < 257
    ensures g < GROUPS && i < Size(g) && Symbols(g)[i] == s
    ensures Shipped()[s].bits == First(g) + i && Shipped()[s].length == Length(g)
  {
    hide Symbols, Place, First, Size, Length, Row;
    EverySymbol(s);
    RowIsEntry(s);
    g, i := Place(s).value.0, Place(s).value.1;
  }

  lemma LowIs(g: nat, i: nat, e: CodeEntry)
    requires g < GROUPS && e.bits == First(g) + i && e.length == Length(g)
    ensures e.bits * Pow2(30 - e.length) == Low(g, i)
  {
    hide First, Length, Pow2;
  }

  lemma LowRises(g: nat, i: nat, h: nat, j: nat)
    requires g < h < GROUPS && i < Size(g) && j < Size(h)
    ensures Low(g, i) < Low(h, j)
  {
    hide First, Size, Width, Times;
    StretchesApart(g, i, h, j);
    TimesNext(First(g) + i, 0, Width(g));
  }

  lemma LongerIsHigher(r: nat, s: nat)
    requires r < 257 && s < 257 && Shipped()[r].length < Shipped()[s].length <= 30
    ensures Shipped()[r].bits * Pow2(30 - Shipped()[r].length) < Shipped()[s].bits * Pow2(30 - Shipped()[s].length)
  {
    hide Symbols, First, Size, Length, Row, Pow2, Low, Shipped;
    var g, i := EntryAt(r);
    var h, j := EntryAt(s);
    if g > h { LengthsGrow(h, g); }
    LowIs(g, i, Shipped()[r]);
    LowIs(h, j, Shipped()[s]);
    LowRises(g, i, h, j);
  }

  lemma HigherSymbolIsHigher(r: nat, s: nat)
    requires r < s < 257 && Shipped()[r].length == Shipped()[s].length
    ensures Shipped()[r].bits < Shipped()[s].bits
  {
    hide Symbols, First, Size, Length, Row, Ascends, Shipped;
    var g, i := EntryAt(r);
    var h, j := EntryAt(s);
    if g < h { LengthsGrow(g, h); }
    if h < g { LengthsGrow(h, g); }
    GroupsAscend(g);
    if j < i { AscendsFar(Symbols(g), j, i); }
  }

  lemma ShippedLengths(s: nat)
    requires s < 257
    ensures 5 <= Shipped()[s].length <= 30
  {
    hide Symbols, First, Size, Length, Row, Shipped;
    var g, i := EntryAt(s);
  }

  /** The law the table is built by: of two codes of one length the one of the higher symbol is the higher, and
      a shorter code, followed by zeros, is below every longer one. */
  lemma ShippedIsCanonical(r: nat, s: nat)
    requires r < 257 && s < 257
    ensures var a, b := Shipped()[r], Shipped()[s];
            && 5 <= a.length <= 30 && 5 <= b.length <= 30
            && (a.length == b.length && r < s ==> a.bits < b.bits)
            && (a.length < b.length ==> a.bits * Pow2(30 - a.length) < b.bits * Pow2(30 - b.length))
  {
    hide Shipped, Pow2;
    ShippedLengths(r);
    ShippedLengths(s);
    if Shipped()[r].length == Shipped()[s].length && r < s { HigherSymbolIsHigher(r, s); }
    if Shipped()[r].length < Shipped()[s].length { LongerIsHigher(r, s); }
  }
}
