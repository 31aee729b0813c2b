/** The static table against appendix A of RFC 7541: all its rows, and every name found by its hash,
    src/http2/co_http2_hpack.c:20-87 and 514-536. */
module StaticNames {
  import opened Machine
  import opened CStrings
  import opened StaticTable

  // ---- the rows, as the standard lists them ----

  const ROWS0: seq<(string, string)> := [
    (":authority", ""), (":method", "GET"), (":method", "POST"), (":path", "/"), (":path", "/index.html"),
    (":scheme", "http"), (":scheme", "https"), (":status", "200")]

  const ROWS8: seq<(string, string)> := [
    (":status", "204"), (":status", "206"), (":status", "304"), (":status", "400"), (":status", "404"),
    (":status", "500"), ("accept-charset", ""), ("accept-encoding", "gzip, deflate")]

  const ROWS16: seq<(string, string)> := [
    ("accept-language", ""), ("accept-ranges", ""), ("accept", ""), ("access-control-allow-origin", ""),
    ("age", ""), ("allow", ""), ("authorization", ""), ("cache-control", "")]

  const ROWS24: seq<(string, string)> := [
    ("content-disposition", ""), ("content-encoding", ""), ("content-language", ""), ("content-length", ""),
    ("content-location", ""), ("content-range", ""), ("content-type", ""), ("cookie", "")]

  const ROWS32: seq<(string, string)> := [
    ("date", ""), ("etag", ""), ("expect", ""), ("expires", ""), ("from", ""), ("host", ""), ("if-match", ""),
    ("if-modified-since", "")]

  const ROWS40: seq<(string, string)> := [
    ("if-none-match", ""), ("if-range", ""), ("if-unmodified-since", ""), ("last-modified", ""), ("link", ""),
    ("location", ""), ("max-forwards", ""), ("proxy-authenticate", "")]

  const ROWS48: seq<(string, string)> := [
    ("proxy-authorization", ""), ("range", ""), ("referer", ""), ("refresh", ""), ("retry-after", ""),
    ("server", ""), ("set-cookie", ""), ("strict-transport-security", "")]

  const ROWS56: seq<(string, string)> := [
    ("transfer-encoding", ""), ("user-agent", ""), ("vary", ""), ("via", ""), ("www-authenticate", "")]

  /** Row i + 1 of the standard; most values are empty. */
  function Row(i: nat): (string, string)
    requires i < 61
  {
    if i < 8 then ROWS0[i]
    else if i < 16 then ROWS8[i - 8]
    else if i < 24 then ROWS16[i - 16]
    else if i < 32 then ROWS24[i - 24]
    else if i < 40 then ROWS32[i - 32]
    else if i < 48 then ROWS40[i - 40]
    else if i < 56 then ROWS48[i - 48]
    else ROWS56[i - 56]
  }

  /** The program's entry is the standard's, without a value where the standard's is empty. */
  predicate Agrees(i: nat)
    requires i < 61
  {
    Name(i) == Ascii(Row(i).0) && Value(i) == if Row(i).1 == "" then None else Some(Ascii(Row(i).1))
  }

  lemma Agree0(i: nat)
    requires 0 <= i < 4
    ensures Agrees(i)
  {
    hide Ascii;
  }

  lemma Agree4(i: nat)
    requires 4 <= i < 8
    ensures Agrees(i)
  {
    hide Ascii;
  }

  lemma Agree8(i: nat)
    requires 8 <= i < 12
    ensures Agrees(i)
  {
    hide Ascii;
  }

  lemma Agree12(i: nat)
    requires 12 <= i < 16
    ensures Agrees(i)
  {
    hide Ascii;
  }

  lemma Agree16(i: nat)
    requires 16 <= i < 20
    ensures Agrees(i)
  {
    hide Ascii;
  }

  lemma Agree20(i: nat)
    requires 20 <= i < 24
    ensures Agrees(i)
  {
    hide Ascii;
  }

  lemma Agree24(i: nat)
    requires 24 <= i < 28
    ensures Agrees(i)
  {
    hide Ascii;
  }

  lemma Agree28(i: nat)
    requires 28 <= i < 32
    ensures Agrees(i)
  {
    hide Ascii;
  }

  lemma Agree32(i: nat)
    requires 32 <= i < 36
    ensures Agrees(i)
  {
    hide Ascii;
  }

  lemma Agree36(i: nat)
    requires 36 <= i < 40
    ensures Agrees(i)
  {
    hide Ascii;
  }

  lemma Agree40(i: nat)
    requires 40 <= i < 44
    ensures Agrees(i)
  {
    hide Ascii;
  }

  lemma Agree44(i: nat)
    requires 44 <= i < 48
    ensures Agrees(i)
  {
    hide Ascii;
  }

  lemma Agree48(i: nat)
    requires 48 <= i < 52
    ensures Agrees(i)
  {
    hide Ascii;
  }

  lemma Agree52(i: nat)
    requires 52 <= i < 56
    ensures Agrees(i)
  {
    hide Ascii;
  }

  lemma Agree56(i: nat)
    requires 56 <= i < 60
    ensures Agrees(i)
  {
    hide Ascii;
  }

  lemma Agree60(i: nat)
    requires 60 <= i < 61
    ensures Agrees(i)
  {
    hide Ascii;
  }

  /** Every row is the standard's. */
  lemma TableIsTheStandards(i: nat)
    requires i < 61
    ensures Agrees(i)
  {
    hide Agrees;
    if i < 4 { Agree0(i); }
    else if i < 8 { Agree4(i); }
    else if i < 12 { Agree8(i); }
    else if i < 16 { Agree12(i); }
    else if i < 20 { Agree16(i); }
    else if i < 24 { Agree20(i); }
    else if i < 28 { Agree24(i); }
    else if i < 32 { Agree28(i); }
    else if i < 36 { Agree32(i); }
    else if i < 40 { Agree36(i); }
    else if i < 44 { Agree40(i); }
    else if i < 48 { Agree44(i); }
    else if i < 52 { Agree48(i); }
    else if i < 56 { Agree52(i); }
    else if i < 60 { Agree56(i); }
    else { Agree60(i); }
  }

  // ---- every name is found ----

  /** A long name in two parts, with the hash between them. */
  lemma FoundInTwo(name: string, front: seq<bv8>, back: seq<bv8>, mid: bv64, slot: bv64, i: nat)
    requires Spells(name, 0, front) && Spells(name, |front|, back) && |front| + |back| == |name|
    requires HashBits(front, 0, 5381) == mid && Home(HashBits(back, 0, mid)) == slot
    requires Slot(slot) == i < 61 && Name(i) == Ascii(name)
    ensures Find(Ascii(name)) == Some(i + 1)
  {
    hide Name, Slot, HashBits, Ascii, Hash, Lower, Home;
    HashOn(name, 0, front, 0, 5381);
    HashOn(name, |front|, back, 0, mid);
    Whole(name, HashBits(back, 0, mid));
  }

  lemma AcceptCharsetInTwo()
    ensures Spells("accept-charset", 0, [0x61, 0x63, 0x63, 0x65, 0x70, 0x74, 0x2d])
    ensures Spells("accept-charset", 7, [0x63, 0x68, 0x61, 0x72, 0x73, 0x65, 0x74])
    ensures HashBits([0x61, 0x63, 0x63, 0x65, 0x70, 0x74, 0x2d], 0, 5381) == 0xd09c18c4ba08
    ensures Home(HashBits([0x63, 0x68, 0x61, 0x72, 0x73, 0x65, 0x74], 0, 0xd09c18c4ba08)) == 213
  {
  }

  lemma FindsAcceptCharset()
    ensures Find(Ascii("accept-charset")) == Some(15)
  {
    assert Slot(213) == 14 && Name(14) == Ascii("accept-charset") by { hide Ascii; }
    hide Name, Slot, Find, Ascii, Hash, HashBits, Home, Spells;
    AcceptCharsetInTwo();
    FoundInTwo("accept-charset", [0x61, 0x63, 0x63, 0x65, 0x70, 0x74, 0x2d],
               [0x63, 0x68, 0x61, 0x72, 0x73, 0x65, 0x74], 0xd09c18c4ba08, 213, 14);
  }

  lemma AcceptEncodingInTwo()
    ensures Spells("accept-encoding", 0, [0x61, 0x63, 0x63, 0x65, 0x70, 0x74, 0x2d, 0x65])
    ensures Spells("accept-encoding", 8, [0x6e, 0x63, 0x6f, 0x64, 0x69, 0x6e, 0x67])
    ensures HashBits([0x61, 0x63, 0x63, 0x65, 0x70, 0x74, 0x2d, 0x65], 0, 5381) == 0x1ae41f315bfb6d
    ensures Home(HashBits([0x6e, 0x63, 0x6f, 0x64, 0x69, 0x6e, 0x67], 0, 0x1ae41f315bfb6d)) == 16
  {
  }

  lemma FindsAcceptEncoding()
    ensures Find(Ascii("accept-encoding")) == Some(16)
  {
    assert Slot(16) == 15 && Name(15) == Ascii("accept-encoding") by { hide Ascii; }
    hide Name, Slot, Find, Ascii, Hash, HashBits, Home, Spells;
    AcceptEncodingInTwo();
    FoundInTwo("accept-encoding", [0x61, 0x63, 0x63, 0x65, 0x70, 0x74, 0x2d, 0x65],
               [0x6e, 0x63, 0x6f, 0x64, 0x69, 0x6e, 0x67], 0x1ae41f315bfb6d, 16, 15);
  }

  lemma AcceptLanguageInTwo()
    ensures Spells("accept-language", 0, [0x61, 0x63, 0x63, 0x65, 0x70, 0x74, 0x2d, 0x6c])
    ensures Spells("accept-language", 8, [0x61, 0x6e, 0x67, 0x75, 0x61, 0x67, 0x65])
    ensures HashBits([0x61, 0x63, 0x63, 0x65, 0x70, 0x74, 0x2d, 0x6c], 0, 5381) == 0x1ae41f315bfb64
    ensures Home(HashBits([0x61, 0x6e, 0x67, 0x75, 0x61, 0x67, 0x65], 0, 0x1ae41f315bfb64)) == 44
  {
  }

  lemma FindsAcceptLanguage()
    ensures Find(Ascii("accept-language")) == Some(17)
  {
    assert Slot(44) == 16 && Name(16) == Ascii("accept-language") by { hide Ascii; }
    hide Name, Slot, Find, Ascii, Hash, HashBits, Home, Spells;
    AcceptLanguageInTwo();
    FoundInTwo("accept-language", [0x61, 0x63, 0x63, 0x65, 0x70, 0x74, 0x2d, 0x6c],
               [0x61, 0x6e, 0x67, 0x75, 0x61, 0x67, 0x65], 0x1ae41f315bfb64, 44, 16);
  }

  lemma FindsAcceptRanges()
    ensures Find(Ascii("accept-ranges")) == Some(18)
  {
    assert Slot(81) == 17 && Name(17) == Ascii("accept-ranges") by { hide Ascii; }
    hide Name, Slot, Find, Ascii, Hash;
    Found("accept-ranges", [0x61, 0x63, 0x63, 0x65, 0x70, 0x74, 0x2d, 0x72, 0x61, 0x6e, 0x67, 0x65, 0x73], 81, 17);
  }

  lemma FindsAccept()
    ensures Find(Ascii("accept")) == Some(19)
  {
    assert Slot(84) == 18 && Name(18) == Ascii("accept") by { hide Ascii; }
    hide Name, Slot, Find, Ascii, Hash;
    Found("accept", [0x61, 0x63, 0x63, 0x65, 0x70, 0x74], 84, 18);
  }

  lemma AccessControlAllowOriginFront()
    ensures Spells("access-control-allow-origin", 0, [0x61, 0x63, 0x63, 0x65, 0x73, 0x73, 0x2d, 0x63, 0x6f, 0x6e,
            0x74, 0x72, 0x6f, 0x6c])
  {
  }

  lemma AccessControlAllowOriginBack()
    ensures Spells("access-control-allow-origin", 14, [0x2d, 0x61, 0x6c, 0x6c, 0x6f, 0x77, 0x2d, 0x6f, 0x72, 0x69,
            0x67, 0x69, 0x6e])
  {
  }

  lemma AccessControlAllowOriginHashed()
    ensures HashBits([0x61, 0x63, 0x63, 0x65, 0x73, 0x73, 0x2d, 0x63, 0x6f, 0x6e, 0x74, 0x72, 0x6f, 0x6c], 0, 5381)
            == 0x6adbe9ac84dc84cb
    ensures Home(HashBits([0x2d, 0x61, 0x6c, 0x6c, 0x6f, 0x77, 0x2d, 0x6f, 0x72, 0x69, 0x67, 0x69, 0x6e], 0,
            0x6adbe9ac84dc84cb)) == 72
  {
  }

  lemma AccessControlAllowOriginInTwo()
    ensures Spells("access-control-allow-origin", 0, [0x61, 0x63, 0x63, 0x65, 0x73, 0x73, 0x2d, 0x63, 0x6f, 0x6e,
            0x74, 0x72, 0x6f, 0x6c])
    ensures Spells("access-control-allow-origin", 14, [0x2d, 0x61, 0x6c, 0x6c, 0x6f, 0x77, 0x2d, 0x6f, 0x72, 0x69,
            0x67, 0x69, 0x6e])
    ensures HashBits([0x61, 0x63, 0x63, 0x65, 0x73, 0x73, 0x2d, 0x63, 0x6f, 0x6e, 0x74, 0x72, 0x6f, 0x6c], 0, 5381)
            == 0x6adbe9ac84dc84cb
    ensures Home(HashBits([0x2d, 0x61, 0x6c, 0x6c, 0x6f, 0x77, 0x2d, 0x6f, 0x72, 0x69, 0x67, 0x69, 0x6e], 0,
            0x6adbe9ac84dc84cb)) == 72
  {
    hide HashBits, Home, Spells;
    AccessControlAllowOriginFront();
    AccessControlAllowOriginBack();
    AccessControlAllowOriginHashed();
  }

  lemma FindsAccessControlAllowOrigin()
    ensures Find(Ascii("access-control-allow-origin")) == Some(20)
  {
    assert Slot(72) == 19 && Name(19) == Ascii("access-control-allow-origin") by { hide Ascii; }
    hide Name, Slot, Find, Ascii, Hash, HashBits, Home, Spells;
    AccessControlAllowOriginInTwo();
    FoundInTwo("access-control-allow-origin", [0x61, 0x63, 0x63, 0x65, 0x73, 0x73, 0x2d, 0x63, 0x6f, 0x6e, 0x74,
            0x72, 0x6f, 0x6c],
               [0x2d, 0x61, 0x6c, 0x6c, 0x6f, 0x77, 0x2d, 0x6f, 0x72, 0x69, 0x67, 0x69, 0x6e], 0x6adbe9ac84dc84cb,
                       72, 19);
  }

  lemma FindsAge()
    ensures Find(Ascii("age")) == Some(21)
  {
    assert Slot(216) == 20 && Name(20) == Ascii("age") by { hide Ascii; }
    hide Name, Slot, Find, Ascii, Hash;
    Found("age", [0x61, 0x67, 0x65], 216, 20);
  }

  lemma FindsAllow()
    ensures Find(Ascii("allow")) == Some(22)
  {
    assert Slot(8) == 21 && Name(21) == Ascii("allow") by { hide Ascii; }
    hide Name, Slot, Find, Ascii, Hash;
    Found("allow", [0x61, 0x6c, 0x6c, 0x6f, 0x77], 8, 21);
  }

  lemma FindsAuthorization()
    ensures Find(Ascii("authorization")) == Some(23)
  {
    assert Slot(144) == 22 && Name(22) == Ascii("authorization") by { hide Ascii; }
    hide Name, Slot, Find, Ascii, Hash;
    Found("authorization", [0x61, 0x75, 0x74, 0x68, 0x6f, 0x72, 0x69, 0x7a, 0x61, 0x74, 0x69, 0x6f, 0x6e], 144, 22);
  }

  lemma ContentDispositionInTwo()
    ensures Spells("content-disposition", 0, [0x63, 0x6f, 0x6e, 0x74, 0x65, 0x6e, 0x74, 0x2d, 0x64, 0x69])
    ensures Spells("content-disposition", 10, [0x73, 0x70, 0x6f, 0x73, 0x69, 0x74, 0x69, 0x6f, 0x6e])
    ensures HashBits([0x63, 0x6f, 0x6e, 0x74, 0x65, 0x6e, 0x74, 0x2d, 0x64, 0x69], 0, 5381) == 0x726560f96d06d78c
    ensures Home(HashBits([0x73, 0x70, 0x6f, 0x73, 0x69, 0x74, 0x69, 0x6f, 0x6e], 0, 0x726560f96d06d78c)) == 227
  {
  }

  lemma FindsContentDisposition()
    ensures Find(Ascii("content-disposition")) == Some(25)
  {
    assert Slot(227) == 24 && Name(24) == Ascii("content-disposition") by { hide Ascii; }
    hide Name, Slot, Find, Ascii, Hash, HashBits, Home, Spells;
    ContentDispositionInTwo();
    FoundInTwo("content-disposition", [0x63, 0x6f, 0x6e, 0x74, 0x65, 0x6e, 0x74, 0x2d, 0x64, 0x69],
               [0x73, 0x70, 0x6f, 0x73, 0x69, 0x74, 0x69, 0x6f, 0x6e], 0x726560f96d06d78c, 227, 24);
  }

  lemma ContentEncodingInTwo()
    ensures Spells("content-encoding", 0, [0x63, 0x6f, 0x6e, 0x74, 0x65, 0x6e, 0x74, 0x2d])
    ensures Spells("content-encoding", 8, [0x65, 0x6e, 0x63, 0x6f, 0x64, 0x69, 0x6e, 0x67])
    ensures HashBits([0x63, 0x6f, 0x6e, 0x74, 0x65, 0x6e, 0x74, 0x2d], 0, 5381) == 0x1ae4598f070f01
    ensures Home(HashBits([0x65, 0x6e, 0x63, 0x6f, 0x64, 0x69, 0x6e, 0x67], 0, 0x1ae4598f070f01)) == 171
  {
  }

  lemma FindsContentEncoding()
    ensures Find(Ascii("content-encoding")) == Some(26)
  {
    assert Slot(171) == 25 && Name(25) == Ascii("content-encoding") by { hide Ascii; }
    hide Name, Slot, Find, Ascii, Hash, HashBits, Home, Spells;
    ContentEncodingInTwo();
    FoundInTwo("content-encoding", [0x63, 0x6f, 0x6e, 0x74, 0x65, 0x6e, 0x74, 0x2d],
               [0x65, 0x6e, 0x63, 0x6f, 0x64, 0x69, 0x6e, 0x67], 0x1ae4598f070f01, 171, 25);
  }

  lemma ContentLanguageInTwo()
    ensures Spells("content-language", 0, [0x63, 0x6f, 0x6e, 0x74, 0x65, 0x6e, 0x74, 0x2d])
    ensures Spells("content-language", 8, [0x6c, 0x61, 0x6e, 0x67, 0x75, 0x61, 0x67, 0x65])
    ensures HashBits([0x63, 0x6f, 0x6e, 0x74, 0x65, 0x6e, 0x74, 0x2d], 0, 5381) == 0x1ae4598f070f01
    ensures Home(HashBits([0x6c, 0x61, 0x6e, 0x67, 0x75, 0x61, 0x67, 0x65], 0, 0x1ae4598f070f01)) == 173
  {
  }

  lemma FindsContentLanguage()
    ensures Find(Ascii("content-language")) == Some(27)
  {
    assert Slot(173) == 26 && Name(26) == Ascii("content-language") by { hide Ascii; }
    hide Name, Slot, Find, Ascii, Hash, HashBits, Home, Spells;
    ContentLanguageInTwo();
    FoundInTwo("content-language", [0x63, 0x6f, 0x6e, 0x74, 0x65, 0x6e, 0x74, 0x2d],
               [0x6c, 0x61, 0x6e, 0x67, 0x75, 0x61, 0x67, 0x65], 0x1ae4598f070f01, 173, 26);
  }

  lemma ContentLengthInTwo()
    ensures Spells("content-length", 0, [0x63, 0x6f, 0x6e, 0x74, 0x65, 0x6e, 0x74])
    ensures Spells("content-length", 7, [0x2d, 0x6c, 0x65, 0x6e, 0x67, 0x74, 0x68])
    ensures HashBits([0x63, 0x6f, 0x6e, 0x74, 0x65, 0x6e, 0x74], 0, 5381) == 0xd09ddd8bd9ac
    ensures Home(HashBits([0x2d, 0x6c, 0x65, 0x6e, 0x67, 0x74, 0x68], 0, 0xd09ddd8bd9ac)) == 246
  {
  }

  lemma FindsContentLength()
    ensures Find(Ascii("content-length")) == Some(28)
  {
    assert Slot(246) == 27 && Name(27) == Ascii("content-length") by { hide Ascii; }
    hide Name, Slot, Find, Ascii, Hash, HashBits, Home, Spells;
    ContentLengthInTwo();
    FoundInTwo("content-length", [0x63, 0x6f, 0x6e, 0x74, 0x65, 0x6e, 0x74],
               [0x2d, 0x6c, 0x65, 0x6e, 0x67, 0x74, 0x68], 0xd09ddd8bd9ac, 246, 27);
  }

  lemma ContentLocationInTwo()
    ensures Spells("content-location", 0, [0x63, 0x6f, 0x6e, 0x74, 0x65, 0x6e, 0x74, 0x2d])
    ensures Spells("content-location", 8, [0x6c, 0x6f, 0x63, 0x61, 0x74, 0x69, 0x6f, 0x6e])
    ensures HashBits([0x63, 0x6f, 0x6e, 0x74, 0x65, 0x6e, 0x74, 0x2d], 0, 5381) == 0x1ae4598f070f01
    ensures Home(HashBits([0x6c, 0x6f, 0x63, 0x61, 0x74, 0x69, 0x6f, 0x6e], 0, 0x1ae4598f070f01)) == 220
  {
  }

  lemma FindsContentLocation()
    ensures Find(Ascii("content-location")) == Some(29)
  {
    assert Slot(220) == 28 && Name(28) == Ascii("content-location") by { hide Ascii; }
    hide Name, Slot, Find, Ascii, Hash, HashBits, Home, Spells;
    ContentLocationInTwo();
    FoundInTwo("content-location", [0x63, 0x6f, 0x6e, 0x74, 0x65, 0x6e, 0x74, 0x2d],
               [0x6c, 0x6f, 0x63, 0x61, 0x74, 0x69, 0x6f, 0x6e], 0x1ae4598f070f01, 220, 28);
  }

  lemma FindsContentRange()
    ensures Find(Ascii("content-range")) == Some(30)
  {
    assert Slot(31) == 29 && Name(29) == Ascii("content-range") by { hide Ascii; }
    hide Name, Slot, Find, Ascii, Hash;
    Found("content-range", [0x63, 0x6f, 0x6e, 0x74, 0x65, 0x6e, 0x74, 0x2d, 0x72, 0x61, 0x6e, 0x67, 0x65], 31, 29);
  }

  lemma FindsContentType()
    ensures Find(Ascii("content-type")) == Some(31)
  {
    assert Slot(219) == 30 && Name(30) == Ascii("content-type") by { hide Ascii; }
    hide Name, Slot, Find, Ascii, Hash;
    Found("content-type", [0x63, 0x6f, 0x6e, 0x74, 0x65, 0x6e, 0x74, 0x2d, 0x74, 0x79, 0x70, 0x65], 219, 30);
  }

  lemma FindsCookie()
    ensures Find(Ascii("cookie")) == Some(32)
  {
    assert Slot(27) == 31 && Name(31) == Ascii("cookie") by { hide Ascii; }
    hide Name, Slot, Find, Ascii, Hash;
    Found("cookie", [0x63, 0x6f, 0x6f, 0x6b, 0x69, 0x65], 27, 31);
  }

  lemma FindsDate()
    ensures Find(Ascii("date")) == Some(33)
  {
    assert Slot(228) == 32 && Name(32) == Ascii("date") by { hide Ascii; }
    hide Name, Slot, Find, Ascii, Hash;
    Found("date", [0x64, 0x61, 0x74, 0x65], 228, 32);
  }

  lemma FindsEtag()
    ensures Find(Ascii("etag")) == Some(34)
  {
    assert Slot(252) == 33 && Name(33) == Ascii("etag") by { hide Ascii; }
    hide Name, Slot, Find, Ascii, Hash;
    Found("etag", [0x65, 0x74, 0x61, 0x67], 252, 33);
  }

  lemma FindsExpect()
    ensures Find(Ascii("expect")) == Some(35)
  {
    assert Slot(9) == 34 && Name(34) == Ascii("expect") by { hide Ascii; }
    hide Name, Slot, Find, Ascii, Hash;
    Found("expect", [0x65, 0x78, 0x70, 0x65, 0x63, 0x74], 9, 34);
  }

  lemma FindsExpires()
    ensures Find(Ascii("expires")) == Some(36)
  {
    assert Slot(30) == 35 && Name(35) == Ascii("expires") by { hide Ascii; }
    hide Name, Slot, Find, Ascii, Hash;
    Found("expires", [0x65, 0x78, 0x70, 0x69, 0x72, 0x65, 0x73], 30, 35);
  }

  lemma FindsFrom()
    ensures Find(Ascii("from")) == Some(37)
  {
    assert Slot(158) == 36 && Name(36) == Ascii("from") by { hide Ascii; }
    hide Name, Slot, Find, Ascii, Hash;
    Found("from", [0x66, 0x72, 0x6f, 0x6d], 158, 36);
  }

  lemma FindsHost()
    ensures Find(Ascii("host")) == Some(38)
  {
    assert Slot(148) == 37 && Name(37) == Ascii("host") by { hide Ascii; }
    hide Name, Slot, Find, Ascii, Hash;
    Found("host", [0x68, 0x6f, 0x73, 0x74], 148, 37);
  }

  lemma FindsIfMatch()
    ensures Find(Ascii("if-match")) == Some(39)
  {
    assert Slot(199) == 38 && Name(38) == Ascii("if-match") by { hide Ascii; }
    hide Name, Slot, Find, Ascii, Hash;
    Found("if-match", [0x69, 0x66, 0x2d, 0x6d, 0x61, 0x74, 0x63, 0x68], 199, 38);
  }

  lemma IfModifiedSinceInTwo()
    ensures Spells("if-modified-since", 0, [0x69, 0x66, 0x2d, 0x6d, 0x6f, 0x64, 0x69, 0x66, 0x69])
    ensures Spells("if-modified-since", 9, [0x65, 0x64, 0x2d, 0x73, 0x69, 0x6e, 0x63, 0x65])
    ensures HashBits([0x69, 0x66, 0x2d, 0x6d, 0x6f, 0x64, 0x69, 0x66, 0x69], 0, 5381) == 0x37771ea22648ea7
    ensures Home(HashBits([0x65, 0x64, 0x2d, 0x73, 0x69, 0x6e, 0x63, 0x65], 0, 0x37771ea22648ea7)) == 136
  {
  }

  lemma FindsIfModifiedSince()
    ensures Find(Ascii("if-modified-since")) == Some(40)
  {
    assert Slot(136) == 39 && Name(39) == Ascii("if-modified-since") by { hide Ascii; }
    hide Name, Slot, Find, Ascii, Hash, HashBits, Home, Spells;
    IfModifiedSinceInTwo();
    FoundInTwo("if-modified-since", [0x69, 0x66, 0x2d, 0x6d, 0x6f, 0x64, 0x69, 0x66, 0x69],
               [0x65, 0x64, 0x2d, 0x73, 0x69, 0x6e, 0x63, 0x65], 0x37771ea22648ea7, 136, 39);
  }

  lemma FindsIfNoneMatch()
    ensures Find(Ascii("if-none-match")) == Some(41)
  {
    assert Slot(89) == 40 && Name(40) == Ascii("if-none-match") by { hide Ascii; }
    hide Name, Slot, Find, Ascii, Hash;
    Found("if-none-match", [0x69, 0x66, 0x2d, 0x6e, 0x6f, 0x6e, 0x65, 0x2d, 0x6d, 0x61, 0x74, 0x63, 0x68], 89, 40);
  }

  lemma FindsIfRange()
    ensures Find(Ascii("if-range")) == Some(42)
  {
    assert Slot(172) == 41 && Name(41) == Ascii("if-range") by { hide Ascii; }
    hide Name, Slot, Find, Ascii, Hash;
    Found("if-range", [0x69, 0x66, 0x2d, 0x72, 0x61, 0x6e, 0x67, 0x65], 172, 41);
  }

  lemma IfUnmodifiedSinceInTwo()
    ensures Spells("if-unmodified-since", 0, [0x69, 0x66, 0x2d, 0x75, 0x6e, 0x6d, 0x6f, 0x64, 0x69, 0x66])
    ensures Spells("if-unmodified-since", 10, [0x69, 0x65, 0x64, 0x2d, 0x73, 0x69, 0x6e, 0x63, 0x65])
    ensures HashBits([0x69, 0x66, 0x2d, 0x75, 0x6e, 0x6d, 0x6f, 0x64, 0x69, 0x66], 0, 5381) == 0x7265af30eb97df55
    ensures Home(HashBits([0x69, 0x65, 0x64, 0x2d, 0x73, 0x69, 0x6e, 0x63, 0x65], 0, 0x7265af30eb97df55)) == 100
  {
  }

  lemma FindsIfUnmodifiedSince()
    ensures Find(Ascii("if-unmodified-since")) == Some(43)
  {
    assert Slot(100) == 42 && Name(42) == Ascii("if-unmodified-since") by { hide Ascii; }
    hide Name, Slot, Find, Ascii, Hash, HashBits, Home, Spells;
    IfUnmodifiedSinceInTwo();
    FoundInTwo("if-unmodified-since", [0x69, 0x66, 0x2d, 0x75, 0x6e, 0x6d, 0x6f, 0x64, 0x69, 0x66],
               [0x69, 0x65, 0x64, 0x2d, 0x73, 0x69, 0x6e, 0x63, 0x65], 0x7265af30eb97df55, 100, 42);
  }

  lemma FindsLastModified()
    ensures Find(Ascii("last-modified")) == Some(44)
  {
    assert Slot(76) == 43 && Name(43) == Ascii("last-modified") by { hide Ascii; }
    hide Name, Slot, Find, Ascii, Hash;
    Found("last-modified", [0x6c, 0x61, 0x73, 0x74, 0x2d, 0x6d, 0x6f, 0x64, 0x69, 0x66, 0x69, 0x65, 0x64], 76, 43);
  }

  lemma FindsLink()
    ensures Find(Ascii("link")) == Some(45)
  {
    assert Slot(206) == 44 && Name(44) == Ascii("link") by { hide Ascii; }
    hide Name, Slot, Find, Ascii, Hash;
    Found("link", [0x6c, 0x69, 0x6e, 0x6b], 206, 44);
  }

  lemma FindsLocation()
    ensures Find(Ascii("location")) == Some(46)
  {
    assert Slot(32) == 45 && Name(45) == Ascii("location") by { hide Ascii; }
    hide Name, Slot, Find, Ascii, Hash;
    Found("location", [0x6c, 0x6f, 0x63, 0x61, 0x74, 0x69, 0x6f, 0x6e], 32, 45);
  }

  lemma FindsMaxForwards()
    ensures Find(Ascii("max-forwards")) == Some(47)
  {
    assert Slot(15) == 46 && Name(46) == Ascii("max-forwards") by { hide Ascii; }
    hide Name, Slot, Find, Ascii, Hash;
    Found("max-forwards", [0x6d, 0x61, 0x78, 0x2d, 0x66, 0x6f, 0x72, 0x77, 0x61, 0x72, 0x64, 0x73], 15, 46);
  }

  lemma ProxyAuthenticateInTwo()
    ensures Spells("proxy-authenticate", 0, [0x70, 0x72, 0x6f, 0x78, 0x79, 0x2d, 0x61, 0x75, 0x74])
    ensures Spells("proxy-authenticate", 9, [0x68, 0x65, 0x6e, 0x74, 0x69, 0x63, 0x61, 0x74, 0x65])
    ensures HashBits([0x70, 0x72, 0x6f, 0x78, 0x79, 0x2d, 0x61, 0x75, 0x74], 0, 5381) == 0x3777a699f89bc04
    ensures Home(HashBits([0x68, 0x65, 0x6e, 0x74, 0x69, 0x63, 0x61, 0x74, 0x65], 0, 0x3777a699f89bc04)) == 14
  {
  }

  lemma FindsProxyAuthenticate()
    ensures Find(Ascii("proxy-authenticate")) == Some(48)
  {
    assert Slot(14) == 47 && Name(47) == Ascii("proxy-authenticate") by { hide Ascii; }
    hide Name, Slot, Find, Ascii, Hash, HashBits, Home, Spells;
    ProxyAuthenticateInTwo();
    FoundInTwo("proxy-authenticate", [0x70, 0x72, 0x6f, 0x78, 0x79, 0x2d, 0x61, 0x75, 0x74],
               [0x68, 0x65, 0x6e, 0x74, 0x69, 0x63, 0x61, 0x74, 0x65], 0x3777a699f89bc04, 14, 47);
  }

  lemma ProxyAuthorizationInTwo()
    ensures Spells("proxy-authorization", 0, [0x70, 0x72, 0x6f, 0x78, 0x79, 0x2d, 0x61, 0x75, 0x74, 0x68])
    ensures Spells("proxy-authorization", 10, [0x6f, 0x72, 0x69, 0x7a, 0x61, 0x74, 0x69, 0x6f, 0x6e])
    ensures HashBits([0x70, 0x72, 0x6f, 0x78, 0x79, 0x2d, 0x61, 0x75, 0x74, 0x68], 0, 5381) == 0x7266c79d90c13cec
    ensures Home(HashBits([0x6f, 0x72, 0x69, 0x7a, 0x61, 0x74, 0x69, 0x6f, 0x6e], 0, 0x7266c79d90c13cec)) == 184
  {
  }

  lemma FindsProxyAuthorization()
    ensures Find(Ascii("proxy-authorization")) == Some(49)
  {
    assert Slot(184) == 48 && Name(48) == Ascii("proxy-authorization") by { hide Ascii; }
    hide Name, Slot, Find, Ascii, Hash, HashBits, Home, Spells;
    ProxyAuthorizationInTwo();
    FoundInTwo("proxy-authorization", [0x70, 0x72, 0x6f, 0x78, 0x79, 0x2d, 0x61, 0x75, 0x74, 0x68],
               [0x6f, 0x72, 0x69, 0x7a, 0x61, 0x74, 0x69, 0x6f, 0x6e], 0x7266c79d90c13cec, 184, 48);
  }

  lemma FindsRange()
    ensures Find(Ascii("range")) == Some(50)
  {
    assert Slot(94) == 49 && Name(49) == Ascii("range") by { hide Ascii; }
    hide Name, Slot, Find, Ascii, Hash;
    Found("range", [0x72, 0x61, 0x6e, 0x67, 0x65], 94, 49);
  }

  lemma FindsReferer()
    ensures Find(Ascii("referer")) == Some(51)
  {
    assert Slot(200) == 50 && Name(50) == Ascii("referer") by { hide Ascii; }
    hide Name, Slot, Find, Ascii, Hash;
    Found("referer", [0x72, 0x65, 0x66, 0x65, 0x72, 0x65, 0x72], 200, 50);
  }

  lemma FindsRefresh()
    ensures Find(Ascii("refresh")) == Some(52)
  {
    assert Slot(5) == 51 && Name(51) == Ascii("refresh") by { hide Ascii; }
    hide Name, Slot, Find, Ascii, Hash;
    Found("refresh", [0x72, 0x65, 0x66, 0x72, 0x65, 0x73, 0x68], 5, 51);
  }

  lemma FindsRetryAfter()
    ensures Find(Ascii("retry-after")) == Some(53)
  {
    assert Slot(196) == 52 && Name(52) == Ascii("retry-after") by { hide Ascii; }
    hide Name, Slot, Find, Ascii, Hash;
    Found("retry-after", [0x72, 0x65, 0x74, 0x72, 0x79, 0x2d, 0x61, 0x66, 0x74, 0x65, 0x72], 196, 52);
  }

  lemma FindsServer()
    ensures Find(Ascii("server")) == Some(54)
  {
    assert Slot(191) == 53 && Name(53) == Ascii("server") by { hide Ascii; }
    hide Name, Slot, Find, Ascii, Hash;
    Found("server", [0x73, 0x65, 0x72, 0x76, 0x65, 0x72], 191, 53);
  }

  lemma FindsSetCookie()
    ensures Find(Ascii("set-cookie")) == Some(55)
  {
    assert Slot(71) == 54 && Name(54) == Ascii("set-cookie") by { hide Ascii; }
    hide Name, Slot, Find, Ascii, Hash;
    Found("set-cookie", [0x73, 0x65, 0x74, 0x2d, 0x63, 0x6f, 0x6f, 0x6b, 0x69, 0x65], 71, 54);
  }

  lemma StrictTransportSecurityFront()
    ensures Spells("strict-transport-security", 0, [0x73, 0x74, 0x72, 0x69, 0x63, 0x74, 0x2d, 0x74, 0x72, 0x61, 0x6e,
            0x73, 0x70])
  {
  }

  lemma StrictTransportSecurityBack()
    ensures Spells("strict-transport-security", 13, [0x6f, 0x72, 0x74, 0x2d, 0x73, 0x65, 0x63, 0x75, 0x72, 0x69,
            0x74, 0x79])
  {
  }

  lemma StrictTransportSecurityHashed()
    ensures HashBits([0x73, 0x74, 0x72, 0x69, 0x63, 0x74, 0x2d, 0x74, 0x72, 0x61, 0x6e, 0x73, 0x70], 0, 5381) ==
            0x2aa26d8033890ba9
    ensures Home(HashBits([0x6f, 0x72, 0x74, 0x2d, 0x73, 0x65, 0x63, 0x75, 0x72, 0x69, 0x74, 0x79], 0,
            0x2aa26d8033890ba9)) == 7
  {
  }

  lemma StrictTransportSecurityInTwo()
    ensures Spells("strict-transport-security", 0, [0x73, 0x74, 0x72, 0x69, 0x63, 0x74, 0x2d, 0x74, 0x72, 0x61, 0x6e,
            0x73, 0x70])
    ensures Spells("strict-transport-security", 13, [0x6f, 0x72, 0x74, 0x2d, 0x73, 0x65, 0x63, 0x75, 0x72, 0x69,
            0x74, 0x79])
    ensures HashBits([0x73, 0x74, 0x72, 0x69, 0x63, 0x74, 0x2d, 0x74, 0x72, 0x61, 0x6e, 0x73, 0x70], 0, 5381) ==
            0x2aa26d8033890ba9
    ensures Home(HashBits([0x6f, 0x72, 0x74, 0x2d, 0x73, 0x65, 0x63, 0x75, 0x72, 0x69, 0x74, 0x79], 0,
            0x2aa26d8033890ba9)) == 7
  {
    hide HashBits, Home, Spells;
    StrictTransportSecurityFront();
    StrictTransportSecurityBack();
    StrictTransportSecurityHashed();
  }

  lemma FindsStrictTransportSecurity()
    ensures Find(Ascii("strict-transport-security")) == Some(56)
  {
    assert Slot(7) == 55 && Name(55) == Ascii("strict-transport-security") by { hide Ascii; }
    hide Name, Slot, Find, Ascii, Hash, HashBits, Home, Spells;
    StrictTransportSecurityInTwo();
    FoundInTwo("strict-transport-security", [0x73, 0x74, 0x72, 0x69, 0x63, 0x74, 0x2d, 0x74, 0x72, 0x61, 0x6e, 0x73,
            0x70],
               [0x6f, 0x72, 0x74, 0x2d, 0x73, 0x65, 0x63, 0x75, 0x72, 0x69, 0x74, 0x79], 0x2aa26d8033890ba9, 7, 55);
  }

  lemma TransferEncodingInTwo()
    ensures Spells("transfer-encoding", 0, [0x74, 0x72, 0x61, 0x6e, 0x73, 0x66, 0x65, 0x72, 0x2d])
    ensures Spells("transfer-encoding", 9, [0x65, 0x6e, 0x63, 0x6f, 0x64, 0x69, 0x6e, 0x67])
    ensures HashBits([0x74, 0x72, 0x61, 0x6e, 0x73, 0x66, 0x65, 0x72, 0x2d], 0, 5381) == 0x377754a18bb9d83
    ensures Home(HashBits([0x65, 0x6e, 0x63, 0x6f, 0x64, 0x69, 0x6e, 0x67], 0, 0x377754a18bb9d83)) == 95
  {
  }

  lemma FindsTransferEncoding()
    ensures Find(Ascii("transfer-encoding")) == Some(57)
  {
    assert Slot(95) == 56 && Name(56) == Ascii("transfer-encoding") by { hide Ascii; }
    hide Name, Slot, Find, Ascii, Hash, HashBits, Home, Spells;
    TransferEncodingInTwo();
    FoundInTwo("transfer-encoding", [0x74, 0x72, 0x61, 0x6e, 0x73, 0x66, 0x65, 0x72, 0x2d],
               [0x65, 0x6e, 0x63, 0x6f, 0x64, 0x69, 0x6e, 0x67], 0x377754a18bb9d83, 95, 56);
  }

  lemma FindsUserAgent()
    ensures Find(Ascii("user-agent")) == Some(58)
  {
    assert Slot(12) == 57 && Name(57) == Ascii("user-agent") by { hide Ascii; }
    hide Name, Slot, Find, Ascii, Hash;
    Found("user-agent", [0x75, 0x73, 0x65, 0x72, 0x2d, 0x61, 0x67, 0x65, 0x6e, 0x74], 12, 57);
  }

  lemma FindsVary()
    ensures Find(Ascii("vary")) == Some(59)
  {
    assert Slot(85) == 58 && Name(58) == Ascii("vary") by { hide Ascii; }
    hide Name, Slot, Find, Ascii, Hash;
    Found("vary", [0x76, 0x61, 0x72, 0x79], 85, 58);
  }

  lemma FindsVia()
    ensures Find(Ascii("via")) == Some(60)
  {
    assert Slot(115) == 59 && Name(59) == Ascii("via") by { hide Ascii; }
    hide Name, Slot, Find, Ascii, Hash;
    Found("via", [0x76, 0x69, 0x61], 115, 59);
  }

  lemma WwwAuthenticateInTwo()
    ensures Spells("www-authenticate", 0, [0x77, 0x77, 0x77, 0x2d, 0x61, 0x75, 0x74, 0x68])
    ensures Spells("www-authenticate", 8, [0x65, 0x6e, 0x74, 0x69, 0x63, 0x61, 0x74, 0x65])
    ensures HashBits([0x77, 0x77, 0x77, 0x2d, 0x61, 0x75, 0x74, 0x68], 0, 5381) == 0x1ae4cbf51be837
    ensures Home(HashBits([0x65, 0x6e, 0x74, 0x69, 0x63, 0x61, 0x74, 0x65], 0, 0x1ae4cbf51be837)) == 62
  {
  }

  lemma FindsWwwAuthenticate()
    ensures Find(Ascii("www-authenticate")) == Some(61)
  {
    assert Slot(62) == 60 && Name(60) == Ascii("www-authenticate") by { hide Ascii; }
    hide Name, Slot, Find, Ascii, Hash, HashBits, Home, Spells;
    WwwAuthenticateInTwo();
    FoundInTwo("www-authenticate", [0x77, 0x77, 0x77, 0x2d, 0x61, 0x75, 0x74, 0x68],
               [0x65, 0x6e, 0x74, 0x69, 0x63, 0x61, 0x74, 0x65], 0x1ae4cbf51be837, 62, 60);
  }

  /** The first entry with the name of entry i + 1. */
  function FirstOf(i: nat): (k: nat)
    requires i < 61
    ensures 1 <= k <= i + 1
  {
    if i == 2 then 2 else if i == 4 then 4 else if i == 6 then 6 else if 7 <= i <= 13 then 8 else i + 1
  }

  lemma FoundFrom0(i: nat)
    requires 0 <= i < 8
    ensures Find(Ascii(Row(i).0)) == Some(FirstOf(i))
  {
    hide Find, Ascii;
    FindsPseudoHeaders();
  }

  lemma FoundFrom8(i: nat)
    requires 8 <= i < 16
    ensures Find(Ascii(Row(i).0)) == Some(FirstOf(i))
  {
    hide Find, Ascii;
    if i < 14 { FindsPseudoHeaders(); }
    else if i == 14 { FindsAcceptCharset(); }
    else { FindsAcceptEncoding(); }
  }

  lemma FoundFrom16(i: nat)
    requires 16 <= i < 24
    ensures Find(Ascii(Row(i).0)) == Some(FirstOf(i))
  {
    hide Find, Ascii;
    if i == 16 { FindsAcceptLanguage(); }
    else if i == 17 { FindsAcceptRanges(); }
    else if i == 18 { FindsAccept(); }
    else if i == 19 { FindsAccessControlAllowOrigin(); }
    else if i == 20 { FindsAge(); }
    else if i == 21 { FindsAllow(); }
    else if i == 22 { FindsAuthorization(); }
    else { FindsCacheControl(); }
  }

  lemma FoundFrom24(i: nat)
    requires 24 <= i < 32
    ensures Find(Ascii(Row(i).0)) == Some(FirstOf(i))
  {
    hide Find, Ascii;
    if i == 24 { FindsContentDisposition(); }
    else if i == 25 { FindsContentEncoding(); }
    else if i == 26 { FindsContentLanguage(); }
    else if i == 27 { FindsContentLength(); }
    else if i == 28 { FindsContentLocation(); }
    else if i == 29 { FindsContentRange(); }
    else if i == 30 { FindsContentType(); }
    else { FindsCookie(); }
  }

  lemma FoundFrom32(i: nat)
    requires 32 <= i < 40
    ensures Find(Ascii(Row(i).0)) == Some(FirstOf(i))
  {
    hide Find, Ascii;
    if i == 32 { FindsDate(); }
    else if i == 33 { FindsEtag(); }
    else if i == 34 { FindsExpect(); }
    else if i == 35 { FindsExpires(); }
    else if i == 36 { FindsFrom(); }
    else if i == 37 { FindsHost(); }
    else if i == 38 { FindsIfMatch(); }
    else { FindsIfModifiedSince(); }
  }

  lemma FoundFrom40(i: nat)
    requires 40 <= i < 48
    ensures Find(Ascii(Row(i).0)) == Some(FirstOf(i))
  {
    hide Find, Ascii;
    if i == 40 { FindsIfNoneMatch(); }
    else if i == 41 { FindsIfRange(); }
    else if i == 42 { FindsIfUnmodifiedSince(); }
    else if i == 43 { FindsLastModified(); }
    else if i == 44 { FindsLink(); }
    else if i == 45 { FindsLocation(); }
    else if i == 46 { FindsMaxForwards(); }
    else { FindsProxyAuthenticate(); }
  }

  lemma FoundFrom48(i: nat)
    requires 48 <= i < 56
    ensures Find(Ascii(Row(i).0)) == Some(FirstOf(i))
  {
    hide Find, Ascii;
    if i == 48 { FindsProxyAuthorization(); }
    else if i == 49 { FindsRange(); }
    else if i == 50 { FindsReferer(); }
    else if i == 51 { FindsRefresh(); }
    else if i == 52 { FindsRetryAfter(); }
    else if i == 53 { FindsServer(); }
    else if i == 54 { FindsSetCookie(); }
    else { FindsStrictTransportSecurity(); }
  }

  lemma FoundFrom56(i: nat)
    requires 56 <= i < 61
    ensures Find(Ascii(Row(i).0)) == Some(FirstOf(i))
  {
    hide Find, Ascii;
    if i == 56 { FindsTransferEncoding(); }
    else if i == 57 { FindsUserAgent(); }
    else if i == 58 { FindsVary(); }
    else if i == 59 { FindsVia(); }
    else { FindsWwwAuthenticate(); }
  }

  lemma NameIsFound(i: nat)
    requires i < 61
    ensures Find(Name(i)) == Some(FirstOf(i))
  {
    TableIsTheStandards(i);
    hide Find, Ascii, Name, Value, Row, FirstOf;
    if i < 8 { FoundFrom0(i); }
    else if i < 16 { FoundFrom8(i); }
    else if i < 24 { FoundFrom16(i); }
    else if i < 32 { FoundFrom24(i); }
    else if i < 40 { FoundFrom32(i); }
    else if i < 48 { FoundFrom40(i); }
    else if i < 56 { FoundFrom48(i); }
    else { FoundFrom56(i); }
  }

  /** Every name of the table hashes to its slot and is found, at its first entry. */
  lemma EveryNameIsFound(i: nat)
    requires i < 61
    ensures var r := Find(Name(i));
            r.Some? && r.value <= i + 1 && Name(r.value - 1) == Name(i) && forall j :: 0 <= j < r.value - 1 ==>
                    Name(j) != Name(i)
  {
    hide Find, Name;
    NameIsFound(i);
    var first := FirstOf(i) - 1;
    NameIsFound(first);
    SameName(i);
    forall j | 0 <= j < first ensures Name(j) != Name(i) {
      NameIsFound(j);
    }
  }

  lemma SameName(i: nat)
    requires i < 61
    ensures Name(FirstOf(i) - 1) == Name(i)
  {
    TableIsTheStandards(i);
    TableIsTheStandards(FirstOf(i) - 1);
    hide Name, Ascii, Value;
  }
}
