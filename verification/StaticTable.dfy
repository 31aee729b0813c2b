/** The HPACK static table (Appendix A of RFC 7541) as the program stores it,
    src/http2/co_http2_hpack.c:20-87 and 514-536. */
module StaticTable {
  import opened Machine
  import opened CStrings

  function Name(i: nat): (r: CString)
    requires i < 61
    ensures r != []
  {
    match i
    case 0 => Ascii(":authority") case 1 => Ascii(":method") case 2 => Ascii(":method") case 3 => Ascii(":path")
    case 4 => Ascii(":path") case 5 => Ascii(":scheme") case 6 => Ascii(":scheme") case 7 => Ascii(":status")
    case 8 => Ascii(":status") case 9 => Ascii(":status") case 10 => Ascii(":status")
    case 11 => Ascii(":status") case 12 => Ascii(":status") case 13 => Ascii(":status")
    case 14 => Ascii("accept-charset") case 15 => Ascii("accept-encoding") case 16 => Ascii("accept-language")
    case 17 => Ascii("accept-ranges") case 18 => Ascii("accept") case 19 => Ascii("access-control-allow-origin")
    case 20 => Ascii("age") case 21 => Ascii("allow") case 22 => Ascii("authorization")
    case 23 => Ascii("cache-control") case 24 => Ascii("content-disposition")
    case 25 => Ascii("content-encoding") case 26 => Ascii("content-language") case 27 => Ascii("content-length")
    case 28 => Ascii("content-location") case 29 => Ascii("content-range") case 30 => Ascii("content-type")
    case 31 => Ascii("cookie") case 32 => Ascii("date") case 33 => Ascii("etag") case 34 => Ascii("expect")
    case 35 => Ascii("expires") case 36 => Ascii("from") case 37 => Ascii("host") case 38 => Ascii("if-match")
    case 39 => Ascii("if-modified-since") case 40 => Ascii("if-none-match") case 41 => Ascii("if-range")
    case 42 => Ascii("if-unmodified-since") case 43 => Ascii("last-modified") case 44 => Ascii("link")
    case 45 => Ascii("location") case 46 => Ascii("max-forwards") case 47 => Ascii("proxy-authenticate")
    case 48 => Ascii("proxy-authorization") case 49 => Ascii("range") case 50 => Ascii("referer")
    case 51 => Ascii("refresh") case 52 => Ascii("retry-after") case 53 => Ascii("server")
    case 54 => Ascii("set-cookie") case 55 => Ascii("strict-transport-security")
    case 56 => Ascii("transfer-encoding") case 57 => Ascii("user-agent") case 58 => Ascii("vary")
    case 59 => Ascii("via") case _ => Ascii("www-authenticate")
  }

  /** Sixteen values are stored; the first and the fifteenth are NULL. Reading any other value is not
      defined. */
  function Value(i: nat): (r: Option<CString>) {
    match i
    case 1 => Some(Ascii("GET"))
    case 2 => Some(Ascii("POST"))
    case 3 => Some(Ascii("/"))
    case 4 => Some(Ascii("/index.html"))
    case 5 => Some(Ascii("http"))
    case 6 => Some(Ascii("https"))
    case 7 => Some(Ascii("200"))
    case 8 => Some(Ascii("204"))
    case 9 => Some(Ascii("206"))
    case 10 => Some(Ascii("304"))
    case 11 => Some(Ascii("400"))
    case 12 => Some(Ascii("404"))
    case 13 => Some(Ascii("500"))
    case 15 => Some(Ascii("gzip, deflate"))
    case _ => None
  }

  const NO_NAME: nat := 0xff

  /** The hash slots: a name number below 61, or NO_NAME. */
  function Slot(h: bv64): (r: nat)
    ensures r == NO_NAME || r < 61
  {
    match h
    case 5 => 51 case 7 => 55 case 8 => 21 case 9 => 34 case 12 => 57 case 14 => 47 case 15 => 46 case 16 => 15
    case 18 => 5 case 27 => 31 case 30 => 35 case 31 => 29 case 32 => 45 case 44 => 16 case 62 => 60
    case 71 => 54 case 72 => 19 case 76 => 43 case 81 => 17 case 84 => 18 case 85 => 58 case 89 => 40
    case 94 => 49 case 95 => 56 case 100 => 42 case 107 => 1 case 115 => 59 case 136 => 39 case 144 => 22
    case 148 => 37 case 158 => 36 case 166 => 3 case 171 => 25 case 172 => 41 case 173 => 26 case 184 => 48
    case 191 => 53 case 196 => 52 case 199 => 38 case 200 => 50 case 206 => 44 case 213 => 14 case 216 => 20
    case 217 => 23 case 219 => 30 case 220 => 28 case 227 => 24 case 228 => 32 case 229 => 0 case 239 => 7
    case 246 => 27 case 252 => 33
    case _ => NO_NAME
  }

  /** Bernstein's hash, in 64 bits (src/core/co_string.c:17-33). */
  function Hash(s: CString, h: bv64 := 5381): bv64
    decreases s
  {
    if s == [] then h else Hash(s[1..], (33 * h) ^ (s[0] as bv8 as bv64))
  }

  function Home(hash: bv64): bv64 {
    hash % 285
  }

  /** Wire index of a static entry with this name: one slot is tried, and the name compared. */
  function Find(name: CString): (r: Option<nat>)
    ensures r.Some? ==> 1 <= r.value <= 61 && CaseEq(Name(r.value - 1), name)
  {
    var index := Slot(Home(Hash(name)));
    if index != NO_NAME && CaseEq(Name(index), name) then Some(index + 1) else None
  }

  // ---- the names of the pseudo-headers are found ----

  /** The hash on from `h` over characters given as bits. */
  function HashBits(bits: seq<bv8>, i: nat, h: bv64): bv64
    decreases |bits| - i
  {
    if i >= |bits| then h else HashBits(bits, i + 1, (33 * h) ^ (bits[i] as bv64))
  }

  predicate Spells(name: string, at: nat, bits: seq<bv8>) {
    at + |bits| <= |name| && forall k :: 0 <= k < |bits| ==> 0 < bits[k] < 128 && name[at + k] as int == bits[k] as int
  }

  lemma {:induction false} HashOn(name: string, at: nat, bits: seq<bv8>, i: nat, h: bv64)
    requires Spells(name, at, bits) && i <= |bits|
    ensures Hash(Ascii(name)[at + i..], h) == Hash(Ascii(name)[at + |bits|..], HashBits(bits, i, h))
    decreases |bits| - i
  {
    var s := Ascii(name);
    if i < |bits| {
      SameByte(s[at + i], bits[i]);
      assert s[at + i..][1..] == s[at + i + 1..];
      HashOn(name, at, bits, i + 1, (33 * h) ^ (bits[i] as bv64));
    }
  }

  lemma SameByte(b: byte, c: bv8)
    requires b == c as int
    ensures b as bv8 == c
  {
    assert (c as int) as bv8 == c;
  }

  lemma Found(name: string, bits: seq<bv8>, slot: bv64, i: nat)
    requires Spells(name, 0, bits) && |bits| == |name| && Home(HashBits(bits, 0, 5381)) == slot
    requires Slot(slot) == i < 61 && Name(i) == Ascii(name)
    ensures Find(Ascii(name)) == Some(i + 1)
  {
    hide Name, Slot, HashBits, Ascii, Hash, Lower, Home;
    HashOn(name, 0, bits, 0, 5381);
    Whole(name, HashBits(bits, 0, 5381));
  }

  lemma Whole(name: string, h: bv64)
    ensures Ascii(name)[0..] == Ascii(name) && Hash(Ascii(name)[|name|..], h) == h
  {
  }

  lemma Entries()
    ensures Slot(229) == 0 && Slot(107) == 1 && Slot(166) == 3 && Slot(18) == 5 && Slot(239) == 7
    ensures Name(0) == Ascii(":authority") && Name(1) == Ascii(":method") && Name(3) == Ascii(":path")
    ensures Name(5) == Ascii(":scheme") && Name(7) == Ascii(":status")
  {
  }

  lemma FindsOthers()
    ensures Find(Ascii(":method")) == Some(2)
    ensures Find(Ascii(":path")) == Some(4)
    ensures Find(Ascii(":scheme")) == Some(6)
    ensures Find(Ascii(":status")) == Some(8)
  {
    hide Name, Slot, Find, Ascii, Hash;
    Entries();
    Found(":method", [0x3a, 0x6d, 0x65, 0x74, 0x68, 0x6f, 0x64], 107, 1);
    Found(":path", [0x3a, 0x70, 0x61, 0x74, 0x68], 166, 3);
    Found(":scheme", [0x3a, 0x73, 0x63, 0x68, 0x65, 0x6d, 0x65], 18, 5);
    Found(":status", [0x3a, 0x73, 0x74, 0x61, 0x74, 0x75, 0x73], 239, 7);
  }

  lemma FindsAuthority()
    ensures Find(Ascii(":authority")) == Some(1)
  {
    hide Name, Slot, Find, Ascii, Hash;
    Entries();
    Found(":authority", [0x3a, 0x61, 0x75, 0x74, 0x68, 0x6f, 0x72, 0x69, 0x74, 0x79], 229, 0);
  }

  /** Their hashes lead to their slots, and so each is found at its first entry. */
  lemma FindsPseudoHeaders()
    ensures Find(Ascii(":authority")) == Some(1)
    ensures Find(Ascii(":method")) == Some(2)
    ensures Find(Ascii(":path")) == Some(4)
    ensures Find(Ascii(":scheme")) == Some(6)
    ensures Find(Ascii(":status")) == Some(8)
  {
    hide Find, Ascii;
    FindsOthers();
    FindsAuthority();
  }

  // ---- two names of the examples in appendix C of RFC 7541 ----

  lemma FindsCacheControl()
    ensures Find(Ascii("cache-control")) == Some(24)
  {
    CacheControlEntry();
    hide Name, Slot, Find, Ascii, Hash;
    Found("cache-control", [0x63, 0x61, 0x63, 0x68, 0x65, 0x2d, 0x63, 0x6f, 0x6e, 0x74, 0x72, 0x6f, 0x6c], 217, 23);
  }

  lemma CacheControlEntry()
    ensures Slot(217) == 23 && Name(23) == Ascii("cache-control") && Slot(237) == NO_NAME
  {
  }

  lemma NotFound(name: string, bits: seq<bv8>, slot: bv64)
    requires Spells(name, 0, bits) && |bits| == |name| && Home(HashBits(bits, 0, 5381)) == slot && Slot(slot) == NO_NAME
    ensures Find(Ascii(name)) == None
  {
    hide Name, Slot, HashBits, Ascii, Hash, Lower, Home;
    HashOn(name, 0, bits, 0, 5381);
    Whole(name, HashBits(bits, 0, 5381));
  }

  lemma MissesCustomKey()
    ensures Find(Ascii("custom-key")) == None
  {
    CacheControlEntry();
    hide Name, Slot, Find, Ascii, Hash;
    NotFound("custom-key", [0x63, 0x75, 0x73, 0x74, 0x6f, 0x6d, 0x2d, 0x6b, 0x65, 0x79], 237);
  }
}
