/** The examples of appendix C.4 of RFC 7541: the bytes the standard itself gives for three requests on one
    connection, src/http2/co_http2_hpack.c:538-721, src/http2/co_http2_huffman.c:2666-2741. */
module HpackExamples {
  import opened Machine
  import opened Bits
  import opened CStrings
  import opened PrefixInt
  import opened DynamicTable
  import opened Huffman
  import opened HuffmanTable
  import opened Hpack
  import HuffmanCode
  import StaticTable

  // ---- strings ----

  lemma {:induction false} UnpackIsNumber(s: seq<byte>)
    ensures Value(Unpack(s)) == BigEndian(s)
    decreases |s|
  {
    hide BitsOf, Value, Shl, Unpack;
    if s == [] {
      assert Value(Unpack([])) == 0 by { NoBits(); }
    } else {
      var n := |s| - 1;
      assert s == s[..n] + [s[n]];
      UnpackSnoc(s[..n], s[n]);
      ValueConcat(Unpack(s[..n]), BitsOf(s[n], 8));
      Pow2Of8();
      ValueOfBits(s[n], 8);
      HuffmanCode.ShlIsTimes(Value(Unpack(s[..n])), 8);
      UnpackIsNumber(s[..n]);
    }
  }

  lemma NoBits()
    ensures Unpack([]) == [] && Value([]) == 0
  {
  }

  /** The codes of s, as one number of n bits. */
  ghost predicate Spelled(s: seq<byte>, v: nat, n: nat) {
    |EncodeBits(Shipped(), s)| == n && Value(EncodeBits(Shipped(), s)) == v
  }

  function Scale(length: nat): nat {
    match length case 5 => 0x20 case 6 => 0x40 case 7 => 0x80 case _ => 0x100
  }

  lemma Nothing() returns (s: seq<byte>, v: nat, n: nat)
    ensures s == [] && v == 0 && n == 0 && Spelled(s, v, n)
  {
    s, v, n := [], 0, 0;
    NoBits();
  }

  lemma Next(s: seq<byte>, v: nat, n: nat, c: byte, code: u32, length: nat) returns (s': seq<byte>, v': nat, n': nat)
    requires Spelled(s, v, n) && Row(c) == CodeEntry(code, length) && 5 <= length <= 8 && code < Scale(length)
    ensures s' == s + [c] && v' == v * Scale(length) + code && n' == n + length && Spelled(s', v', n')
  {
    hide Row, Value, BitsOf, Shl;
    s', v', n' := s + [c], v * Scale(length) + code, n + length;
    CodesSnoc(s, c);
    var bits := BitsOf(code, length);
    ValueConcat(EncodeBits(Shipped(), s), bits);
    HuffmanCode.ShlIsTimes(v, length);
    ScaleIs(length);
    ValueOfBits(code, length);
  }

  lemma ScaleIs(length: nat)
    requires 5 <= length <= 8
    ensures Pow2(length) == Scale(length)
  {
    hide Pow2;
    HuffmanCode.Powers();
  }

  lemma {:induction false} CodesSnoc(s: seq<byte>, c: byte)
    ensures EncodeBits(Shipped(), s + [c]) == EncodeBits(Shipped(), s) + Code(Shipped(), c)
    decreases |s|
  {
    hide Shipped, Code;
    if s == [] {
      assert [c][1..] == [] && s + [c] == [c];
      assert EncodeBits(Shipped(), [c]) == Code(Shipped(), c) + [];
    } else {
      assert (s + [c])[1..] == s[1..] + [c];
      CodesSnoc(s[1..], c);
      Associative(Code(Shipped(), s[0]), EncodeBits(Shipped(), s[1..]), Code(Shipped(), c));
    }
  }

  /** The same bits, filled up with ones, make the same bytes. */
  lemma SpelledOut(s: seq<byte>, v: nat, n: nat, bytes: seq<byte>, scale: nat)
    requires Spelled(s, v, n) && 8 * |bytes| == n + PadLength(n)
    requires scale == Pow2(PadLength(n)) && BigEndian(bytes) == v * scale + (scale - 1)
    ensures Encode(Shipped(), s) == bytes
  {
    hide Value, Unpack, Pack, Pow2, BigEndian, Shipped, EncodeBits;
    var bits := EncodeBits(Shipped(), s);
    var k := PadLength(n);
    ValueConcat(bits, Ones(k));
    HuffmanCode.ShlIsTimes(v, k);
    AllOnesValue(k);
    UnpackIsNumber(bytes);
    HuffmanCode.SameValue(Unpack(bytes), bits + Ones(k));
    PackUnpack(bytes);
  }

  lemma LettersA()
    ensures Row(45) == CodeEntry(0x16, 6) && Row(46) == CodeEntry(0x17, 6) && Row(97) == CodeEntry(0x3, 5)
    ensures Row(99) == CodeEntry(0x4, 5) && Row(101) == CodeEntry(0x5, 5) && Row(104) == CodeEntry(0x27, 6)
    ensures Row(107) == CodeEntry(0x75, 7)
  {
  }

  lemma LettersB()
    ensures Row(108) == CodeEntry(0x28, 6) && Row(109) == CodeEntry(0x29, 6) && Row(110) == CodeEntry(0x2a, 6)
    ensures Row(111) == CodeEntry(0x7, 5) && Row(112) == CodeEntry(0x2b, 6) && Row(115) == CodeEntry(0x8, 5)
    ensures Row(116) == CodeEntry(0x9, 5)
  {
  }

  lemma LettersC()
    ensures Row(117) == CodeEntry(0x2d, 6) && Row(118) == CodeEntry(0x77, 7) && Row(119) == CodeEntry(0x78, 7)
    ensures Row(120) == CodeEntry(0x79, 7) && Row(121) == CodeEntry(0x7a, 7)
  {
  }

  lemma SmallPowers()
    ensures Pow2(5) == 0x20 && Pow2(7) == 0x80
  {
  }

  lemma Byte(s: seq<byte>, x: nat, c: byte) returns (s': seq<byte>, x': nat)
    requires BigEndian(s) == x
    ensures s' == s + [c] && x' == 256 * x + c && BigEndian(s') == x'
  {
    s', x' := s + [c], 256 * x + c;
    assert s'[..|s|] == s;
  }

  lemma NoByte() returns (s: seq<byte>, x: nat)
    ensures s == [] && x == 0 && BigEndian(s) == x
  {
    s, x := [], 0;
  }

  lemma DomainCodes()
    ensures Spelled(Ascii("www.example.com"), 0x1e3c785cbe474d7415721e9, 89)
  {
    hide Spelled, Row;
    LettersA();
    LettersB();
    LettersC();
    var s, v, n := Nothing();
    s, v, n := Next(s, v, n, 119, 0x78, 7);
    s, v, n := Next(s, v, n, 119, 0x78, 7);
    s, v, n := Next(s, v, n, 119, 0x78, 7);
    s, v, n := Next(s, v, n, 46, 0x17, 6);
    s, v, n := Next(s, v, n, 101, 0x5, 5);
    s, v, n := Next(s, v, n, 120, 0x79, 7);
    s, v, n := Next(s, v, n, 97, 0x3, 5);
    s, v, n := Next(s, v, n, 109, 0x29, 6);
    s, v, n := Next(s, v, n, 112, 0x2b, 6);
    s, v, n := Next(s, v, n, 108, 0x28, 6);
    s, v, n := Next(s, v, n, 101, 0x5, 5);
    s, v, n := Next(s, v, n, 46, 0x17, 6);
    s, v, n := Next(s, v, n, 99, 0x4, 5);
    s, v, n := Next(s, v, n, 111, 0x7, 5);
    s, v, n := Next(s, v, n, 109, 0x29, 6);
    assert s == Ascii("www.example.com");
  }

  lemma DomainBytes()
    ensures BigEndian([0xf1, 0xe3, 0xc2, 0xe5, 0xf2, 0x3a, 0x6b, 0xa0, 0xab, 0x90, 0xf4, 0xff]) == 0xf1e3c2e5f23a6ba0ab90f4ff
  {
    hide BigEndian;
    var b, x := NoByte();
    b, x := Byte(b, x, 0xf1);
    b, x := Byte(b, x, 0xe3);
    b, x := Byte(b, x, 0xc2);
    b, x := Byte(b, x, 0xe5);
    b, x := Byte(b, x, 0xf2);
    b, x := Byte(b, x, 0x3a);
    b, x := Byte(b, x, 0x6b);
    b, x := Byte(b, x, 0xa0);
    b, x := Byte(b, x, 0xab);
    b, x := Byte(b, x, 0x90);
    b, x := Byte(b, x, 0xf4);
    b, x := Byte(b, x, 0xff);
    assert b == [0xf1, 0xe3, 0xc2, 0xe5, 0xf2, 0x3a, 0x6b, 0xa0, 0xab, 0x90, 0xf4, 0xff];
  }

  lemma DomainEncoded()
    ensures Encode(Shipped(), Ascii("www.example.com")) == [0xf1, 0xe3, 0xc2, 0xe5, 0xf2, 0x3a, 0x6b, 0xa0, 0xab, 0x90, 0xf4, 0xff]
  {
    hide Encode, Spelled, BigEndian, Pow2, Ascii;
    DomainCodes();
    DomainBytes();
    SmallPowers();
    SpelledOut(Ascii("www.example.com"), 0x1e3c785cbe474d7415721e9, 89, [0xf1, 0xe3, 0xc2, 0xe5, 0xf2, 0x3a, 0x6b, 0xa0, 0xab, 0x90, 0xf4, 0xff], 0x80);
  }

  lemma NoCacheCodes()
    ensures Spelled(Ascii("no-cache"), 0x547588324e5, 43)
  {
    hide Spelled, Row;
    LettersA();
    LettersB();
    LettersC();
    var s, v, n := Nothing();
    s, v, n := Next(s, v, n, 110, 0x2a, 6);
    s, v, n := Next(s, v, n, 111, 0x7, 5);
    s, v, n := Next(s, v, n, 45, 0x16, 6);
    s, v, n := Next(s, v, n, 99, 0x4, 5);
    s, v, n := Next(s, v, n, 97, 0x3, 5);
    s, v, n := Next(s, v, n, 99, 0x4, 5);
    s, v, n := Next(s, v, n, 104, 0x27, 6);
    s, v, n := Next(s, v, n, 101, 0x5, 5);
    assert s == Ascii("no-cache");
  }

  lemma NoCacheBytes()
    ensures BigEndian([0xa8, 0xeb, 0x10, 0x64, 0x9c, 0xbf]) == 0xa8eb10649cbf
  {
    hide BigEndian;
    var b, x := NoByte();
    b, x := Byte(b, x, 0xa8);
    b, x := Byte(b, x, 0xeb);
    b, x := Byte(b, x, 0x10);
    b, x := Byte(b, x, 0x64);
    b, x := Byte(b, x, 0x9c);
    b, x := Byte(b, x, 0xbf);
    assert b == [0xa8, 0xeb, 0x10, 0x64, 0x9c, 0xbf];
  }

  lemma NoCacheEncoded()
    ensures Encode(Shipped(), Ascii("no-cache")) == [0xa8, 0xeb, 0x10, 0x64, 0x9c, 0xbf]
  {
    hide Encode, Spelled, BigEndian, Pow2, Ascii;
    NoCacheCodes();
    NoCacheBytes();
    SmallPowers();
    SpelledOut(Ascii("no-cache"), 0x547588324e5, 43, [0xa8, 0xeb, 0x10, 0x64, 0x9c, 0xbf], 0x20);
  }

  lemma KeyCodes()
    ensures Spelled(Ascii("custom-key"), 0x4b5093d2b752fa, 57)
  {
    hide Spelled, Row;
    LettersA();
    LettersB();
    LettersC();
    var s, v, n := Nothing();
    s, v, n := Next(s, v, n, 99, 0x4, 5);
    s, v, n := Next(s, v, n, 117, 0x2d, 6);
    s, v, n := Next(s, v, n, 115, 0x8, 5);
    s, v, n := Next(s, v, n, 116, 0x9, 5);
    s, v, n := Next(s, v, n, 111, 0x7, 5);
    s, v, n := Next(s, v, n, 109, 0x29, 6);
    s, v, n := Next(s, v, n, 45, 0x16, 6);
    s, v, n := Next(s, v, n, 107, 0x75, 7);
    s, v, n := Next(s, v, n, 101, 0x5, 5);
    s, v, n := Next(s, v, n, 121, 0x7a, 7);
    assert s == Ascii("custom-key");
  }

  lemma KeyBytes()
    ensures BigEndian([0x25, 0xa8, 0x49, 0xe9, 0x5b, 0xa9, 0x7d, 0x7f]) == 0x25a849e95ba97d7f
  {
    hide BigEndian;
    var b, x := NoByte();
    b, x := Byte(b, x, 0x25);
    b, x := Byte(b, x, 0xa8);
    b, x := Byte(b, x, 0x49);
    b, x := Byte(b, x, 0xe9);
    b, x := Byte(b, x, 0x5b);
    b, x := Byte(b, x, 0xa9);
    b, x := Byte(b, x, 0x7d);
    b, x := Byte(b, x, 0x7f);
    assert b == [0x25, 0xa8, 0x49, 0xe9, 0x5b, 0xa9, 0x7d, 0x7f];
  }

  lemma KeyEncoded()
    ensures Encode(Shipped(), Ascii("custom-key")) == [0x25, 0xa8, 0x49, 0xe9, 0x5b, 0xa9, 0x7d, 0x7f]
  {
    hide Encode, Spelled, BigEndian, Pow2, Ascii;
    KeyCodes();
    KeyBytes();
    SmallPowers();
    SpelledOut(Ascii("custom-key"), 0x4b5093d2b752fa, 57, [0x25, 0xa8, 0x49, 0xe9, 0x5b, 0xa9, 0x7d, 0x7f], 0x80);
  }

  lemma SettingCodes()
    ensures Spelled(Ascii("custom-value"), 0x12d424f4addc745a5, 67)
  {
    hide Spelled, Row;
    LettersA();
    LettersB();
    LettersC();
    var s, v, n := Nothing();
    s, v, n := Next(s, v, n, 99, 0x4, 5);
    s, v, n := Next(s, v, n, 117, 0x2d, 6);
    s, v, n := Next(s, v, n, 115, 0x8, 5);
    s, v, n := Next(s, v, n, 116, 0x9, 5);
    s, v, n := Next(s, v, n, 111, 0x7, 5);
    s, v, n := Next(s, v, n, 109, 0x29, 6);
    s, v, n := Next(s, v, n, 45, 0x16, 6);
    s, v, n := Next(s, v, n, 118, 0x77, 7);
    s, v, n := Next(s, v, n, 97, 0x3, 5);
    s, v, n := Next(s, v, n, 108, 0x28, 6);
    s, v, n := Next(s, v, n, 117, 0x2d, 6);
    s, v, n := Next(s, v, n, 101, 0x5, 5);
    assert s == Ascii("custom-value");
  }

  lemma SettingBytes()
    ensures BigEndian([0x25, 0xa8, 0x49, 0xe9, 0x5b, 0xb8, 0xe8, 0xb4, 0xbf]) == 0x25a849e95bb8e8b4bf
  {
    hide BigEndian;
    var b, x := NoByte();
    b, x := Byte(b, x, 0x25);
    b, x := Byte(b, x, 0xa8);
    b, x := Byte(b, x, 0x49);
    b, x := Byte(b, x, 0xe9);
    b, x := Byte(b, x, 0x5b);
    b, x := Byte(b, x, 0xb8);
    b, x := Byte(b, x, 0xe8);
    b, x := Byte(b, x, 0xb4);
    b, x := Byte(b, x, 0xbf);
    assert b == [0x25, 0xa8, 0x49, 0xe9, 0x5b, 0xb8, 0xe8, 0xb4, 0xbf];
  }

  lemma SettingEncoded()
    ensures Encode(Shipped(), Ascii("custom-value")) == [0x25, 0xa8, 0x49, 0xe9, 0x5b, 0xb8, 0xe8, 0xb4, 0xbf]
  {
    hide Encode, Spelled, BigEndian, Pow2, Ascii;
    SettingCodes();
    SettingBytes();
    SmallPowers();
    SpelledOut(Ascii("custom-value"), 0x12d424f4addc745a5, 67, [0x25, 0xa8, 0x49, 0xe9, 0x5b, 0xb8, 0xe8, 0xb4, 0xbf], 0x20);
  }

  // ---- blocks ----

  const DOMAIN: CString := Ascii("www.example.com")
  const CACHE: CString := Ascii("cache-control")
  const NO_CACHE: CString := Ascii("no-cache")
  const KEY: CString := Ascii("custom-key")
  const SETTING: CString := Ascii("custom-value")

  /** The three requests. */
  const FIRST: Header :=
    Header(Some(Ascii("GET")), None, Some(Ascii("http")), Some(Ascii("/")), false, Some(DOMAIN), 0, [])

  const SECOND: Header := FIRST.(fields := [Field(CACHE, NO_CACHE)])

  const THIRD: Header :=
    Header(Some(Ascii("GET")), None, Some(Ascii("https")), Some(Ascii("/index.html")), false, Some(DOMAIN), 0, [Field(KEY, SETTING)])

  lemma RequestEmissions()
    ensures Emissions(FIRST) == [Indexed(2), Indexed(6), Indexed(4), Literal(AUTHORITY, DOMAIN)]
    ensures Emissions(SECOND) == [Indexed(2), Indexed(6), Indexed(4), Literal(AUTHORITY, DOMAIN), Literal(CACHE, NO_CACHE)]
    ensures Emissions(THIRD) == [Indexed(2), Indexed(7), Indexed(5), Literal(AUTHORITY, DOMAIN), Literal(KEY, SETTING)]
  {
    hide Lower, Ascii;
    MethodAndSchemes();
    Paths();
    assert FieldPart([Field(CACHE, NO_CACHE)]) == [Literal(CACHE, NO_CACHE)];
    assert FieldPart([Field(KEY, SETTING)]) == [Literal(KEY, SETTING)];
  }

  lemma MethodAndSchemes()
    ensures CaseEq(Ascii("GET"), Ascii("GET")) && CaseEq(Ascii("http"), Ascii("http")) && CaseEq(Ascii("https"), Ascii("https"))
    ensures !CaseEq(Ascii("https"), Ascii("http"))
  {
    assert |Lower(Ascii("https"))| == 5 && |Lower(Ascii("http"))| == 4;
  }

  lemma Paths()
    ensures CaseEq(Ascii("/"), Ascii("/")) && CaseEq(Ascii("/index.html"), Ascii("/index.html"))
    ensures !CaseEq(Ascii("/index.html"), Ascii("/"))
  {
    assert |Lower(Ascii("/index.html"))| == 11 && |Lower(Ascii("/"))| == 1;
  }

  /** The table after each request: sizes 57, 110 and 164. */
  function After(requests: nat, maxSize: u32): Table {
    var domain := Item(57, AUTHORITY, DOMAIN);
    var cache := Item(53, CACHE, NO_CACHE);
    match requests
    case 0 => Table(maxSize, 0, [])
    case 1 => Table(maxSize, 57, [domain])
    case 2 => Table(maxSize, 110, [cache, domain])
    case _ => Table(maxSize, 164, [Item(54, KEY, SETTING), cache, domain])
  }

  lemma PrintCons(d: Table, e: Emission, es: seq<Emission>)
    ensures var first := PrintOne(Shipped(), d, e); var rest := PrintAll(Shipped(), first.table, es);
            PrintAll(Shipped(), d, [e] + es) == Printed(first.bytes + rest.bytes, rest.table)
    ensures PrintAll(Shipped(), d, []) == Printed([], d)
  {
    hide PrintOne;
    assert ([e] + es)[1..] == es;
  }

  /** The three constant forms in front. */
  lemma Front(d: Table, a: u32, b: u32, c: u32, es: seq<Emission>)
    requires a < 127 && b < 127 && c < 127
    ensures var rest := PrintAll(Shipped(), d, es);
            PrintAll(Shipped(), d, [Indexed(a), Indexed(b), Indexed(c)] + es)
            == Printed([0x80 + a, 0x80 + b, 0x80 + c] + rest.bytes, rest.table)
  {
    hide PrintAll, Shipped;
    PrintCons(d, Indexed(a), [Indexed(b), Indexed(c)] + es);
    PrintCons(d, Indexed(b), [Indexed(c)] + es);
    PrintCons(d, Indexed(c), es);
    assert [Indexed(a), Indexed(b), Indexed(c)] + es == [Indexed(a)] + ([Indexed(b), Indexed(c)] + es);
    assert [Indexed(b), Indexed(c)] + es == [Indexed(b)] + ([Indexed(c)] + es);
    var rest := PrintAll(Shipped(), d, es).bytes;
    assert [0x80 + a] + ([0x80 + b] + ([0x80 + c] + rest)) == [0x80 + a, 0x80 + b, 0x80 + c] + rest;
  }

  // The codes of the strings, each with its length in front.

  const DOMAIN_BYTES: seq<byte> := [0x8c, 0xf1, 0xe3, 0xc2, 0xe5, 0xf2, 0x3a, 0x6b, 0xa0, 0xab, 0x90, 0xf4, 0xff]
  const NO_CACHE_BYTES: seq<byte> := [0x86, 0xa8, 0xeb, 0x10, 0x64, 0x9c, 0xbf]
  const KEY_BYTES: seq<byte> := [0x88, 0x25, 0xa8, 0x49, 0xe9, 0x5b, 0xa9, 0x7d, 0x7f]
  const SETTING_BYTES: seq<byte> := [0x89, 0x25, 0xa8, 0x49, 0xe9, 0x5b, 0xb8, 0xe8, 0xb4, 0xbf]

  lemma StringsPrinted()
    ensures StringBytes(Shipped(), true, DOMAIN) == DOMAIN_BYTES && StringBytes(Shipped(), true, NO_CACHE) == NO_CACHE_BYTES
    ensures StringBytes(Shipped(), true, KEY) == KEY_BYTES && StringBytes(Shipped(), true, SETTING) == SETTING_BYTES
  {
    hide Encode, Shipped;
    DomainEncoded();
    NoCacheEncoded();
    KeyEncoded();
    SettingEncoded();
  }

  /** Names and values apart: by length, or by their first letters. */
  lemma NamesApart()
    ensures !CaseEq(AUTHORITY, CACHE) && !CaseEq(CACHE, AUTHORITY) && !CaseEq(AUTHORITY, KEY) && !CaseEq(CACHE, KEY)
    ensures CaseEq(AUTHORITY, AUTHORITY) && CaseEq(DOMAIN, DOMAIN)
  {
    assert |Lower(AUTHORITY)| == |Lower(KEY)| == 10 && |Lower(CACHE)| == 13;
    assert Lower(AUTHORITY)[0] == 58 && Lower(KEY)[0] == 99;
  }

  lemma Searches(maxSize: u32)
    ensures Find(After(0, maxSize).items, AUTHORITY, DOMAIN) == None
    ensures Find(After(1, maxSize).items, AUTHORITY, DOMAIN) == Some(0)
    ensures Find(After(2, maxSize).items, AUTHORITY, DOMAIN) == Some(1)
    ensures Find(After(1, maxSize).items, CACHE, NO_CACHE) == None
    ensures Find(After(2, maxSize).items, KEY, SETTING) == None
  {
    hide CaseEq, Ascii;
    NamesApart();
  }

  lemma Sizes(maxSize: u32)
    requires maxSize >= 164
    ensures Added(After(0, maxSize), AUTHORITY, DOMAIN) == After(1, maxSize)
    ensures Added(After(1, maxSize), CACHE, NO_CACHE) == After(2, maxSize)
    ensures Added(After(2, maxSize), KEY, SETTING) == After(3, maxSize)
  {
    assert |AUTHORITY| == 10 && |DOMAIN| == 15 && |CACHE| == 13 && |NO_CACHE| == 8 && |KEY| == 10 && |SETTING| == 12;
    hide Ascii;
  }

  lemma KnownPrinted(d: Table, name: CString, value: CString, k: nat)
    requires Find(d.items, name, value) == Some(k) && k < 65
    ensures PrintOne(Shipped(), d, Literal(name, value)) == Printed([0x80 + 62 + k], d)
  {
    hide Find, Shipped;
  }

  lemma NamedPrinted(d: Table, name: CString, value: CString, i: u32)
    requires Find(d.items, name, value) == None && StaticTable.Find(name) == Some(i) && i < 63
    ensures PrintOne(Shipped(), d, Literal(name, value))
            == Printed([0x40 + i] + StringBytes(Shipped(), true, value), Added(d, name, value))
  {
    hide Find, StaticTable.Find, Added, StringBytes, Shipped;
  }

  lemma UnnamedPrinted(d: Table, name: CString, value: CString)
    requires Find(d.items, name, value) == None && StaticTable.Find(name) == None
    ensures PrintOne(Shipped(), d, Literal(name, value))
            == Printed([0x40] + StringBytes(Shipped(), true, name) + StringBytes(Shipped(), true, value), Added(d, name, value))
  {
    hide Find, StaticTable.Find, Added, StringBytes, Shipped;
  }

  lemma FieldsPrinted(maxSize: u32)
    requires maxSize >= 164
    ensures PrintOne(Shipped(), After(0, maxSize), Literal(AUTHORITY, DOMAIN)) == Printed([0x41] + DOMAIN_BYTES, After(1, maxSize))
    ensures PrintOne(Shipped(), After(1, maxSize), Literal(AUTHORITY, DOMAIN)) == Printed([0xbe], After(1, maxSize))
    ensures PrintOne(Shipped(), After(2, maxSize), Literal(AUTHORITY, DOMAIN)) == Printed([0xbf], After(2, maxSize))
    ensures PrintOne(Shipped(), After(1, maxSize), Literal(CACHE, NO_CACHE)) == Printed([0x58] + NO_CACHE_BYTES, After(2, maxSize))
    ensures PrintOne(Shipped(), After(2, maxSize), Literal(KEY, SETTING)) == Printed([0x40] + KEY_BYTES + SETTING_BYTES, After(3, maxSize))
  {
    hide StringBytes, Find, Added, StaticTable.Find, Ascii, After, Shipped, PrintOne;
    StringsPrinted();
    Searches(maxSize);
    Sizes(maxSize);
    StaticTable.FindsPseudoHeaders();
    StaticTable.FindsCacheControl();
    StaticTable.MissesCustomKey();
    NamedPrinted(After(0, maxSize), AUTHORITY, DOMAIN, 1);
    KnownPrinted(After(1, maxSize), AUTHORITY, DOMAIN, 0);
    KnownPrinted(After(2, maxSize), AUTHORITY, DOMAIN, 1);
    NamedPrinted(After(1, maxSize), CACHE, NO_CACHE, 24);
    UnnamedPrinted(After(2, maxSize), KEY, SETTING);
  }

  lemma OneLeft(d: Table, e: Emission)
    ensures PrintAll(Shipped(), d, [e]) == PrintOne(Shipped(), d, e)
  {
    hide PrintOne, Shipped;
    PrintCons(d, e, []);
    assert [e] + [] == [e];
    assert PrintOne(Shipped(), d, e).bytes + [] == PrintOne(Shipped(), d, e).bytes;
  }

  lemma TwoLeft(d: Table, e: Emission, f: Emission)
    ensures var first := PrintOne(Shipped(), d, e); var last := PrintOne(Shipped(), first.table, f);
            PrintAll(Shipped(), d, [e, f]) == Printed(first.bytes + last.bytes, last.table)
  {
    hide PrintOne, Shipped, PrintAll;
    PrintCons(d, e, [f]);
    assert [e] + [f] == [e, f];
    OneLeft(PrintOne(Shipped(), d, e).table, f);
  }

  lemma FirstRequest(maxSize: u32)
    requires maxSize >= 164
    ensures PrintAll(Shipped(), After(0, maxSize), Emissions(FIRST))
            == Printed([0x82, 0x86, 0x84] + ([0x41] + DOMAIN_BYTES), After(1, maxSize))
  {
    hide PrintAll, PrintOne, Emissions, After, Ascii, Shipped;
    RequestEmissions();
    FieldsPrinted(maxSize);
    var a := Literal(AUTHORITY, DOMAIN);
    Front(After(0, maxSize), 2, 6, 4, [a]);
    OneLeft(After(0, maxSize), a);
    assert [Indexed(2), Indexed(6), Indexed(4)] + [a] == [Indexed(2), Indexed(6), Indexed(4), a];
  }

  lemma SecondRequest(maxSize: u32)
    requires maxSize >= 164
    ensures PrintAll(Shipped(), After(1, maxSize), Emissions(SECOND))
            == Printed([0x82, 0x86, 0x84] + ([0xbe] + ([0x58] + NO_CACHE_BYTES)), After(2, maxSize))
  {
    hide PrintAll, PrintOne, Emissions, After, Ascii, Shipped;
    RequestEmissions();
    FieldsPrinted(maxSize);
    var a, c := Literal(AUTHORITY, DOMAIN), Literal(CACHE, NO_CACHE);
    Front(After(1, maxSize), 2, 6, 4, [a, c]);
    TwoLeft(After(1, maxSize), a, c);
    assert [Indexed(2), Indexed(6), Indexed(4)] + [a, c] == [Indexed(2), Indexed(6), Indexed(4), a, c];
  }

  lemma ThirdRequest(maxSize: u32)
    requires maxSize >= 164
    ensures PrintAll(Shipped(), After(2, maxSize), Emissions(THIRD))
            == Printed([0x82, 0x87, 0x85] + ([0xbf] + ([0x40] + KEY_BYTES + SETTING_BYTES)), After(3, maxSize))
  {
    hide PrintAll, PrintOne, Emissions, After, Ascii, Shipped;
    RequestEmissions();
    FieldsPrinted(maxSize);
    var a, k := Literal(AUTHORITY, DOMAIN), Literal(KEY, SETTING);
    Front(After(2, maxSize), 2, 7, 5, [a, k]);
    TwoLeft(After(2, maxSize), a, k);
    assert [Indexed(2), Indexed(7), Indexed(5)] + [a, k] == [Indexed(2), Indexed(7), Indexed(5), a, k];
  }

  /** Byte for byte the standard's own examples C.4.1 to C.4.3, and the tables they end in. */
  lemma ThreeRequests(maxSize: u32)
    requires maxSize >= 164
    ensures PrintAll(Shipped(), After(0, maxSize), Emissions(FIRST))
            == Printed([0x82, 0x86, 0x84] + ([0x41] + DOMAIN_BYTES), After(1, maxSize))
    ensures PrintAll(Shipped(), After(1, maxSize), Emissions(SECOND))
            == Printed([0x82, 0x86, 0x84] + ([0xbe] + ([0x58] + NO_CACHE_BYTES)), After(2, maxSize))
    ensures PrintAll(Shipped(), After(2, maxSize), Emissions(THIRD))
            == Printed([0x82, 0x87, 0x85] + ([0xbf] + ([0x40] + KEY_BYTES + SETTING_BYTES)), After(3, maxSize))
  {
    hide PrintAll, Emissions, After, Ascii, Shipped;
    FirstRequest(maxSize);
    SecondRequest(maxSize);
    ThirdRequest(maxSize);
  }
}
