/** The Huffman code table as the program ships it, symbol by symbol, src/http2/co_http2_huffman.c:24-91
    (Appendix B of RFC 7541). */
module HuffmanTable {
  import opened Huffman

  function Rows0(): (r: seq<CodeEntry>)
    ensures |r| == 8
  {
    [CodeEntry(0x1ff8, 13), CodeEntry(0x7fffd8, 23), CodeEntry(0xfffffe2, 28), CodeEntry(0xfffffe3, 28),
     CodeEntry(0xfffffe4, 28), CodeEntry(0xfffffe5, 28), CodeEntry(0xfffffe6, 28), CodeEntry(0xfffffe7, 28)]
  }

  function Rows8(): (r: seq<CodeEntry>)
    ensures |r| == 8
  {
    [CodeEntry(0xfffffe8, 28), CodeEntry(0xffffea, 24), CodeEntry(0x3ffffffc, 30), CodeEntry(0xfffffe9, 28),
     CodeEntry(0xfffffea, 28), CodeEntry(0x3ffffffd, 30), CodeEntry(0xfffffeb, 28), CodeEntry(0xfffffec, 28)]
  }

  function Rows16(): (r: seq<CodeEntry>)
    ensures |r| == 8
  {
    [CodeEntry(0xfffffed, 28), CodeEntry(0xfffffee, 28), CodeEntry(0xfffffef, 28), CodeEntry(0xffffff0, 28),
     CodeEntry(0xffffff1, 28), CodeEntry(0xffffff2, 28), CodeEntry(0x3ffffffe, 30), CodeEntry(0xffffff3, 28)]
  }

  function Rows24(): (r: seq<CodeEntry>)
    ensures |r| == 8
  {
    [CodeEntry(0xffffff4, 28), CodeEntry(0xffffff5, 28), CodeEntry(0xffffff6, 28), CodeEntry(0xffffff7, 28),
     CodeEntry(0xffffff8, 28), CodeEntry(0xffffff9, 28), CodeEntry(0xffffffa, 28), CodeEntry(0xffffffb, 28)]
  }

  function Rows32(): (r: seq<CodeEntry>)
    ensures |r| == 8
  {
    [CodeEntry(0x14, 6), CodeEntry(0x3f8, 10), CodeEntry(0x3f9, 10), CodeEntry(0xffa, 12),
     CodeEntry(0x1ff9, 13), CodeEntry(0x15, 6), CodeEntry(0xf8, 8), CodeEntry(0x7fa, 11)]
  }

  function Rows40(): (r: seq<CodeEntry>)
    ensures |r| == 8
  {
    [CodeEntry(0x3fa, 10), CodeEntry(0x3fb, 10), CodeEntry(0xf9, 8), CodeEntry(0x7fb, 11),
     CodeEntry(0xfa, 8), CodeEntry(0x16, 6), CodeEntry(0x17, 6), CodeEntry(0x18, 6)]
  }

  function Rows48(): (r: seq<CodeEntry>)
    ensures |r| == 8
  {
    [CodeEntry(0x0, 5), CodeEntry(0x1, 5), CodeEntry(0x2, 5), CodeEntry(0x19, 6),
     CodeEntry(0x1a, 6), CodeEntry(0x1b, 6), CodeEntry(0x1c, 6), CodeEntry(0x1d, 6)]
  }

  function Rows56(): (r: seq<CodeEntry>)
    ensures |r| == 8
  {
    [CodeEntry(0x1e, 6), CodeEntry(0x1f, 6), CodeEntry(0x5c, 7), CodeEntry(0xfb, 8),
     CodeEntry(0x7ffc, 15), CodeEntry(0x20, 6), CodeEntry(0xffb, 12), CodeEntry(0x3fc, 10)]
  }

  function Rows64(): (r: seq<CodeEntry>)
    ensures |r| == 8
  {
    [CodeEntry(0x1ffa, 13), CodeEntry(0x21, 6), CodeEntry(0x5d, 7), CodeEntry(0x5e, 7),
     CodeEntry(0x5f, 7), CodeEntry(0x60, 7), CodeEntry(0x61, 7), CodeEntry(0x62, 7)]
  }

  function Rows72(): (r: seq<CodeEntry>)
    ensures |r| == 8
  {
    [CodeEntry(0x63, 7), CodeEntry(0x64, 7), CodeEntry(0x65, 7), CodeEntry(0x66, 7),
     CodeEntry(0x67, 7), CodeEntry(0x68, 7), CodeEntry(0x69, 7), CodeEntry(0x6a, 7)]
  }

  function Rows80(): (r: seq<CodeEntry>)
    ensures |r| == 8
  {
    [CodeEntry(0x6b, 7), CodeEntry(0x6c, 7), CodeEntry(0x6d, 7), CodeEntry(0x6e, 7),
     CodeEntry(0x6f, 7), CodeEntry(0x70, 7), CodeEntry(0x71, 7), CodeEntry(0x72, 7)]
  }

  function Rows88(): (r: seq<CodeEntry>)
    ensures |r| == 8
  {
    [CodeEntry(0xfc, 8), CodeEntry(0x73, 7), CodeEntry(0xfd, 8), CodeEntry(0x1ffb, 13),
     CodeEntry(0x7fff0, 19), CodeEntry(0x1ffc, 13), CodeEntry(0x3ffc, 14), CodeEntry(0x22, 6)]
  }

  function Rows96(): (r: seq<CodeEntry>)
    ensures |r| == 8
  {
    [CodeEntry(0x7ffd, 15), CodeEntry(0x3, 5), CodeEntry(0x23, 6), CodeEntry(0x4, 5),
     CodeEntry(0x24, 6), CodeEntry(0x5, 5), CodeEntry(0x25, 6), CodeEntry(0x26, 6)]
  }

  function Rows104(): (r: seq<CodeEntry>)
    ensures |r| == 8
  {
    [CodeEntry(0x27, 6), CodeEntry(0x6, 5), CodeEntry(0x74, 7), CodeEntry(0x75, 7),
     CodeEntry(0x28, 6), CodeEntry(0x29, 6), CodeEntry(0x2a, 6), CodeEntry(0x7, 5)]
  }

  function Rows112(): (r: seq<CodeEntry>)
    ensures |r| == 8
  {
    [CodeEntry(0x2b, 6), CodeEntry(0x76, 7), CodeEntry(0x2c, 6), CodeEntry(0x8, 5),
     CodeEntry(0x9, 5), CodeEntry(0x2d, 6), CodeEntry(0x77, 7), CodeEntry(0x78, 7)]
  }

  function Rows120(): (r: seq<CodeEntry>)
    ensures |r| == 8
  {
    [CodeEntry(0x79, 7), CodeEntry(0x7a, 7), CodeEntry(0x7b, 7), CodeEntry(0x7ffe, 15),
     CodeEntry(0x7fc, 11), CodeEntry(0x3ffd, 14), CodeEntry(0x1ffd, 13), CodeEntry(0xffffffc, 28)]
  }

  function Rows128(): (r: seq<CodeEntry>)
    ensures |r| == 8
  {
    [CodeEntry(0xfffe6, 20), CodeEntry(0x3fffd2, 22), CodeEntry(0xfffe7, 20), CodeEntry(0xfffe8, 20),
     CodeEntry(0x3fffd3, 22), CodeEntry(0x3fffd4, 22), CodeEntry(0x3fffd5, 22), CodeEntry(0x7fffd9, 23)]
  }

  function Rows136(): (r: seq<CodeEntry>)
    ensures |r| == 8
  {
    [CodeEntry(0x3fffd6, 22), CodeEntry(0x7fffda, 23), CodeEntry(0x7fffdb, 23), CodeEntry(0x7fffdc, 23),
     CodeEntry(0x7fffdd, 23), CodeEntry(0x7fffde, 23), CodeEntry(0xffffeb, 24), CodeEntry(0x7fffdf, 23)]
  }

  function Rows144(): (r: seq<CodeEntry>)
    ensures |r| == 8
  {
    [CodeEntry(0xffffec, 24), CodeEntry(0xffffed, 24), CodeEntry(0x3fffd7, 22), CodeEntry(0x7fffe0, 23),
     CodeEntry(0xffffee, 24), CodeEntry(0x7fffe1, 23), CodeEntry(0x7fffe2, 23), CodeEntry(0x7fffe3, 23)]
  }

  function Rows152(): (r: seq<CodeEntry>)
    ensures |r| == 8
  {
    [CodeEntry(0x7fffe4, 23), CodeEntry(0x1fffdc, 21), CodeEntry(0x3fffd8, 22), CodeEntry(0x7fffe5, 23),
     CodeEntry(0x3fffd9, 22), CodeEntry(0x7fffe6, 23), CodeEntry(0x7fffe7, 23), CodeEntry(0xffffef, 24)]
  }

  function Rows160(): (r: seq<CodeEntry>)
    ensures |r| == 8
  {
    [CodeEntry(0x3fffda, 22), CodeEntry(0x1fffdd, 21), CodeEntry(0xfffe9, 20), CodeEntry(0x3fffdb, 22),
     CodeEntry(0x3fffdc, 22), CodeEntry(0x7fffe8, 23), CodeEntry(0x7fffe9, 23), CodeEntry(0x1fffde, 21)]
  }

  function Rows168(): (r: seq<CodeEntry>)
    ensures |r| == 8
  {
    [CodeEntry(0x7fffea, 23), CodeEntry(0x3fffdd, 22), CodeEntry(0x3fffde, 22), CodeEntry(0xfffff0, 24),
     CodeEntry(0x1fffdf, 21), CodeEntry(0x3fffdf, 22), CodeEntry(0x7fffeb, 23), CodeEntry(0x7fffec, 23)]
  }

  function Rows176(): (r: seq<CodeEntry>)
    ensures |r| == 8
  {
    [CodeEntry(0x1fffe0, 21), CodeEntry(0x1fffe1, 21), CodeEntry(0x3fffe0, 22), CodeEntry(0x1fffe2, 21),
     CodeEntry(0x7fffed, 23), CodeEntry(0x3fffe1, 22), CodeEntry(0x7fffee, 23), CodeEntry(0x7fffef, 23)]
  }

  function Rows184(): (r: seq<CodeEntry>)
    ensures |r| == 8
  {
    [CodeEntry(0xfffea, 20), CodeEntry(0x3fffe2, 22), CodeEntry(0x3fffe3, 22), CodeEntry(0x3fffe4, 22),
     CodeEntry(0x7ffff0, 23), CodeEntry(0x3fffe5, 22), CodeEntry(0x3fffe6, 22), CodeEntry(0x7ffff1, 23)]
  }

  function Rows192(): (r: seq<CodeEntry>)
    ensures |r| == 8
  {
    [CodeEntry(0x3ffffe0, 26), CodeEntry(0x3ffffe1, 26), CodeEntry(0xfffeb, 20), CodeEntry(0x7fff1, 19),
     CodeEntry(0x3fffe7, 22), CodeEntry(0x7ffff2, 23), CodeEntry(0x3fffe8, 22), CodeEntry(0x1ffffec, 25)]
  }

  function Rows200(): (r: seq<CodeEntry>)
    ensures |r| == 8
  {
    [CodeEntry(0x3ffffe2, 26), CodeEntry(0x3ffffe3, 26), CodeEntry(0x3ffffe4, 26), CodeEntry(0x7ffffde, 27),
     CodeEntry(0x7ffffdf, 27), CodeEntry(0x3ffffe5, 26), CodeEntry(0xfffff1, 24), CodeEntry(0x1ffffed, 25)]
  }

  function Rows208(): (r: seq<CodeEntry>)
    ensures |r| == 8
  {
    [CodeEntry(0x7fff2, 19), CodeEntry(0x1fffe3, 21), CodeEntry(0x3ffffe6, 26), CodeEntry(0x7ffffe0, 27),
     CodeEntry(0x7ffffe1, 27), CodeEntry(0x3ffffe7, 26), CodeEntry(0x7ffffe2, 27), CodeEntry(0xfffff2, 24)]
  }

  function Rows216(): (r: seq<CodeEntry>)
    ensures |r| == 8
  {
    [CodeEntry(0x1fffe4, 21), CodeEntry(0x1fffe5, 21), CodeEntry(0x3ffffe8, 26), CodeEntry(0x3ffffe9, 26),
     CodeEntry(0xffffffd, 28), CodeEntry(0x7ffffe3, 27), CodeEntry(0x7ffffe4, 27), CodeEntry(0x7ffffe5, 27)]
  }

  function Rows224(): (r: seq<CodeEntry>)
    ensures |r| == 8
  {
    [CodeEntry(0xfffec, 20), CodeEntry(0xfffff3, 24), CodeEntry(0xfffed, 20), CodeEntry(0x1fffe6, 21),
     CodeEntry(0x3fffe9, 22), CodeEntry(0x1fffe7, 21), CodeEntry(0x1fffe8, 21), CodeEntry(0x7ffff3, 23)]
  }

  function Rows232(): (r: seq<CodeEntry>)
    ensures |r| == 8
  {
    [CodeEntry(0x3fffea, 22), CodeEntry(0x3fffeb, 22), CodeEntry(0x1ffffee, 25), CodeEntry(0x1ffffef, 25),
     CodeEntry(0xfffff4, 24), CodeEntry(0xfffff5, 24), CodeEntry(0x3ffffea, 26), CodeEntry(0x7ffff4, 23)]
  }

  function Rows240(): (r: seq<CodeEntry>)
    ensures |r| == 8
  {
    [CodeEntry(0x3ffffeb, 26), CodeEntry(0x7ffffe6, 27), CodeEntry(0x3ffffec, 26), CodeEntry(0x3ffffed, 26),
     CodeEntry(0x7ffffe7, 27), CodeEntry(0x7ffffe8, 27), CodeEntry(0x7ffffe9, 27), CodeEntry(0x7ffffea, 27)]
  }

  function Rows248(): (r: seq<CodeEntry>)
    ensures |r| == 8
  {
    [CodeEntry(0x7ffffeb, 27), CodeEntry(0xffffffe, 28), CodeEntry(0x7ffffec, 27), CodeEntry(0x7ffffed, 27),
     CodeEntry(0x7ffffee, 27), CodeEntry(0x7ffffef, 27), CodeEntry(0x7fffff0, 27), CodeEntry(0x3ffffee, 26)]
  }

  function Rows256(): (r: seq<CodeEntry>)
    ensures |r| == 1
  {
    [CodeEntry(0x3fffffff, 30)]
  }

  /** The row of a symbol; 256 is EOS. */
  function Row(s: nat): CodeEntry
    requires s < 257
  {
    if s < 64 then RowIn0(s)
    else if s < 128 then RowIn64(s)
    else if s < 192 then RowIn128(s)
    else if s < 256 then RowIn192(s)
    else Rows256()[0]
  }

  function RowIn0(s: nat): CodeEntry
    requires 0 <= s < 64
  {
    if s < 8 then Rows0()[s - 0]
    else if s < 16 then Rows8()[s - 8]
    else if s < 24 then Rows16()[s - 16]
    else if s < 32 then Rows24()[s - 24]
    else if s < 40 then Rows32()[s - 32]
    else if s < 48 then Rows40()[s - 40]
    else if s < 56 then Rows48()[s - 48]
    else Rows56()[s - 56]
  }

  function RowIn64(s: nat): CodeEntry
    requires 64 <= s < 128
  {
    if s < 72 then Rows64()[s - 64]
    else if s < 80 then Rows72()[s - 72]
    else if s < 88 then Rows80()[s - 80]
    else if s < 96 then Rows88()[s - 88]
    else if s < 104 then Rows96()[s - 96]
    else if s < 112 then Rows104()[s - 104]
    else if s < 120 then Rows112()[s - 112]
    else Rows120()[s - 120]
  }

  function RowIn128(s: nat): CodeEntry
    requires 128 <= s < 192
  {
    if s < 136 then Rows128()[s - 128]
    else if s < 144 then Rows136()[s - 136]
    else if s < 152 then Rows144()[s - 144]
    else if s < 160 then Rows152()[s - 152]
    else if s < 168 then Rows160()[s - 160]
    else if s < 176 then Rows168()[s - 168]
    else if s < 184 then Rows176()[s - 176]
    else Rows184()[s - 184]
  }

  function RowIn192(s: nat): CodeEntry
    requires 192 <= s < 256
  {
    if s < 200 then Rows192()[s - 192]
    else if s < 208 then Rows200()[s - 200]
    else if s < 216 then Rows208()[s - 208]
    else if s < 224 then Rows216()[s - 216]
    else if s < 232 then Rows224()[s - 224]
    else if s < 240 then Rows232()[s - 232]
    else if s < 248 then Rows240()[s - 240]
    else Rows248()[s - 248]
  }

  function Shipped(): (t: CodeTable)
    ensures |t| == 257 && forall s :: 0 <= s < 257 ==> t[s] == Row(s)
  {
    seq(257, s requires 0 <= s < 257 => Row(s))
  }
}
