/** Base64 of src/http/co_base64.c (sections 4 and 5 of RFC 4648): both alphabets, padded or not. */
module Base64 {
  import opened Machine

  const PAD: byte := 61

  type Sextet = v: int | 0 <= v < 64

  /** The encoding tables; they differ in the last two characters. */
  function Letter(v: Sextet, url: bool): byte {
    if v < 26 then 65 + v
    else if v < 52 then 71 + v
    else if v < 62 then v - 4
    else if v == 62 then if url then 45 else 43
    else if url then 95 else 47
  }

  const UPPER: string := "ABCDEFGHIJKLMNOPQRSTUVWXYZ"
  const LOWER: string := "abcdefghijklmnopqrstuvwxyz"
  const DIGITS: string := "0123456789"

  /** The alphabets of tables 1 and 2 of RFC 4648. */
  function Alphabet(url: bool): string {
    UPPER + LOWER + DIGITS + (if url then "-_" else "+/")
  }

  lemma LetterRanges(v: Sextet)
    ensures |UPPER| == 26 && |LOWER| == 26 && |DIGITS| == 10
    ensures v < 26 ==> UPPER[v] as int == 65 + v && LOWER[v] as int == 97 + v
    ensures v < 10 ==> DIGITS[v] as int == 48 + v
  {
  }

  lemma AlphabetAt(v: Sextet, url: bool)
    requires |UPPER| == 26 && |LOWER| == 26 && |DIGITS| == 10
    ensures var s := Alphabet(url);
            && |s| == 64
            && s[v] == if v < 26 then UPPER[v] else if v < 52 then LOWER[v - 26] else if v < 62 then DIGITS[v - 52]
                       else (if url then "-_" else "+/")[v - 62]
  {
    hide UPPER, LOWER, DIGITS;
  }

  /** The encoder's letters are those of the standard, one by one. */
  lemma LettersAreTheAlphabet(v: Sextet, url: bool)
    ensures |Alphabet(url)| == 64 && Letter(v, url) == Alphabet(url)[v] as int
  {
    LetterRanges(v);
    if 26 <= v < 52 { LetterRanges(v - 26); }
    if 52 <= v < 62 { LetterRanges(v - 52); }
    hide UPPER, LOWER, DIGITS, Alphabet;
    AlphabetAt(v, url);
  }

  datatype Meaning = Value(v: Sextet) | Skip | Bad

  /** The decoding table. It takes both alphabets, and '!' and ':' besides; line ends and '=' are skipped
      wherever they stand. Its second half is not written out, so those bytes mean 0. */
  function MeaningOf(b: byte): Meaning {
    if b >= 128 then Value(0)
    else if b == 10 || b == 13 || b == PAD then Skip
    else if 65 <= b <= 90 then Value(b - 65)
    else if 97 <= b <= 122 then Value(b - 71)
    else if 48 <= b <= 57 then Value(b + 4)
    else if b == 33 || b == 43 || b == 45 then Value(62)
    else if b == 47 || b == 58 || b == 95 then Value(63)
    else Bad
  }

  /** Of the first 128 characters the decoder takes exactly the letters of both alphabets, '!' and ':', each for
      its own value, and passes over exactly the line ends and '='. */
  lemma MeaningExactly(b: byte, v: Sextet)
    requires b < 128
    ensures MeaningOf(b) == Value(v) <==> Letter(v, false) == b || Letter(v, true) == b || (b == 33 && v == 62) || (b == 58 && v == 63)
    ensures MeaningOf(b) == Skip <==> b == 10 || b == 13 || b == 61
  {
  }

  // ---- groups ----

  /** Three bytes as four sextets, in the encoder's arithmetic. */
  function Group(a: byte, b: byte, c: byte): (s: seq<Sextet>)
    ensures |s| == 4
  {
    [a / 4, a % 4 * 16 + b / 16, b % 16 * 4 + c / 64, c % 64]
  }

  function Encode(src: seq<byte>): seq<Sextet>
    decreases |src|
  {
    if src == [] then []
    else if |src| == 1 then Group(src[0], 0, 0)[..2]
    else if |src| == 2 then Group(src[0], src[1], 0)[..3]
    else Group(src[0], src[1], src[2]) + Encode(src[3..])
  }

  /** The byte the decoder completes with its second, third or fourth sextet. */
  function Second(a: Sextet, b: Sextet): byte { a * 4 + b / 16 }
  function Third(b: Sextet, c: Sextet): byte { b % 16 * 16 + c / 4 }
  function Fourth(c: Sextet, d: Sextet): byte { c % 4 * 64 + d }

  function Decode(s: seq<Sextet>): (d: seq<byte>)
    ensures |d| == 3 * |s| / 4
    decreases |s|
  {
    if |s| < 2 then []
    else if |s| == 2 then [Second(s[0], s[1])]
    else if |s| == 3 then [Second(s[0], s[1]), Third(s[1], s[2])]
    else [Second(s[0], s[1]), Third(s[1], s[2]), Fourth(s[2], s[3])] + Decode(s[4..])
  }

  /** A group of three bytes and its four sextets are the same 24-bit number. */
  lemma GroupKeepsNumber(a: byte, b: byte, c: byte)
    ensures var s := Group(a, b, c);
            s[0] as int * 0x4_0000 + s[1] as int * 0x1000 + s[2] as int * 0x40 + s[3] == a as int * 0x1_0000 + b as int * 0x100 + c
  {
  }

  lemma GroupComesBack(a: byte, b: byte, c: byte)
    ensures var s := Group(a, b, c); Second(s[0], s[1]) == a && Third(s[1], s[2]) == b && Fourth(s[2], s[3]) == c
  {
  }

  lemma {:induction false} SextetsComeBack(src: seq<byte>)
    ensures Decode(Encode(src)) == src
    decreases |src|
  {
    hide Group, Second, Third, Fourth;
    if |src| >= 3 {
      GroupComesBack(src[0], src[1], src[2]);
      var e := Encode(src);
      assert e[4..] == Encode(src[3..]);
      SextetsComeBack(src[3..]);
      assert src == [src[0], src[1], src[2]] + src[3..];
    } else if |src| == 2 {
      GroupComesBack(src[0], src[1], 0);
    } else if |src| == 1 {
      GroupComesBack(src[0], 0, 0);
    }
  }

  lemma SextetsAgain(a: Sextet, b: Sextet, c: Sextet, d: Sextet)
    ensures Group(Second(a, b), Third(b, c), Fourth(c, d)) == [a, b, c, d]
  {
    assert Second(a, b) / 4 == a && Second(a, b) % 4 * 16 == b / 16 * 16;
    assert Third(b, c) / 16 == b % 16 && Third(b, c) % 16 * 4 == c / 4 * 4;
    assert Fourth(c, d) / 64 == c % 4 && Fourth(c, d) % 64 == d;
  }

  /** A group that is not complete is one with zeros behind its last whole byte. */
  lemma FilledUp(a: Sextet, b: Sextet, c: Sextet)
    ensures Second(a, b) == Second(a, b / 16 * 16) && Third(b / 16 * 16, 0) == 0
    ensures Third(b, c) == Third(b, c / 4 * 4) && Fourth(c / 4 * 4, 0) == 0
  {
  }

  /** Sextets as far as they fill bytes: the bits of the last one that do not are 0. */
  function Kept(s: seq<Sextet>): seq<Sextet> {
    var n := |s|;
    if n % 4 == 0 then s
    else if n % 4 == 1 then s[..n - 1]
    else if n % 4 == 2 then s[..n - 1] + [s[n - 1] / 16 * 16]
    else s[..n - 1] + [s[n - 1] / 4 * 4]
  }

  /** Decoding any sextets and encoding what comes of it gives the same sextets, as far as they fill bytes. */
  lemma {:induction false} DecodedAgain(s: seq<Sextet>)
    ensures Encode(Decode(s)) == Kept(s)
    decreases |s|
  {
    hide Group, Second, Third, Fourth, Encode, Kept;
    if |s| >= 4 {
      var bytes := [Second(s[0], s[1]), Third(s[1], s[2]), Fourth(s[2], s[3])];
      OneGroup(bytes[0], bytes[1], bytes[2]);
      TwoGroups(bytes, Decode(s[4..]));
      SextetsAgain(s[0], s[1], s[2], s[3]);
      DecodedAgain(s[4..]);
      KeptBehind(s);
    } else {
      ShortDecodedAgain(s);
    }
  }

  lemma KeptBehind(s: seq<Sextet>)
    requires |s| >= 4
    ensures Kept(s) == [s[0], s[1], s[2], s[3]] + Kept(s[4..])
  {
  }

  lemma ThreeAgain(a: Sextet, b: Sextet, c: Sextet)
    ensures Encode([Second(a, b), Third(b, c)]) == [a, b, c / 4 * 4]
  {
    hide Group, Second, Third, Fourth, Encode;
    FilledUp(a, b, c);
    SextetsAgain(a, b, c / 4 * 4, 0);
    OneGroup(Second(a, b), Third(b, c), 0);
  }

  lemma TwoAgain(a: Sextet, b: Sextet)
    ensures Encode([Second(a, b)]) == [a, b / 16 * 16]
  {
    hide Group, Second, Third, Fourth, Encode;
    FilledUp(a, b, 0);
    SextetsAgain(a, b / 16 * 16, 0, 0);
    OneGroup(Second(a, b), 0, 0);
  }

  lemma ShortDecodedAgain(s: seq<Sextet>)
    requires |s| < 4
    ensures Encode(Decode(s)) == Kept(s)
  {
    hide Group, Second, Third, Fourth, Encode, Decode, Kept;
    ShortDecode(s);
    ShortKept(s);
    if |s| == 3 {
      ThreeAgain(s[0], s[1], s[2]);
    } else if |s| == 2 {
      TwoAgain(s[0], s[1]);
    } else {
      NothingEncoded(false);
    }
  }

  lemma ShortDecode(s: seq<Sextet>)
    requires |s| < 4
    ensures Decode(s) == if |s| < 2 then [] else if |s| == 2 then [Second(s[0], s[1])] else [Second(s[0], s[1]), Third(s[1], s[2])]
  {
    hide Second, Third, Fourth;
  }

  lemma ShortKept(s: seq<Sextet>)
    requires |s| < 4
    ensures Kept(s) == if |s| < 2 then [] else if |s| == 2 then [s[0], s[1] / 16 * 16] else [s[0], s[1], s[2] / 4 * 4]
  {
  }

  // ---- text ----

  function Letters(s: seq<Sextet>, url: bool): (t: seq<byte>)
    ensures |t| == |s| && forall k :: 0 <= k < |s| ==> t[k] == Letter(s[k], url)
  {
    seq(|s|, k requires 0 <= k < |s| => Letter(s[k], url))
  }

  /** How many characters the last group lacks. */
  function Lack(length: nat): nat {
    (3 - length % 3) % 3
  }

  function Pads(n: nat): (p: seq<byte>)
    ensures |p| == n && forall k :: 0 <= k < n ==> p[k] == PAD
  {
    seq(n, _ => PAD)
  }

  function Text(src: seq<byte>, url: bool, padding: bool): seq<byte> {
    Letters(Encode(src), url) + (if padding then Pads(Lack(|src|)) else [])
  }

  lemma OneGroup(a: byte, b: byte, c: byte)
    ensures Encode([a]) == Group(a, 0, 0)[..2] && Encode([a, b]) == Group(a, b, 0)[..3] && Encode([a, b, c]) == Group(a, b, c)
  {
    hide Group;
    assert [a, b, c][3..] == [];
  }

  lemma TwoGroups(x: seq<byte>, y: seq<byte>)
    requires |x| == 3
    ensures Encode(x + y) == Encode(x) + Encode(y)
  {
    hide Group;
    assert (x + y)[3..] == y && x[3..] == [];
  }

  lemma ExampleSextets(f: byte, o: byte, b: byte, a: byte, r: byte)
    requires f == 102 && o == 111 && b == 98 && a == 97 && r == 114
    ensures Encode([f]) == [25, 32] && Encode([f, o]) == [25, 38, 60]
    ensures Encode([f, o, o]) == [25, 38, 61, 47]
    ensures Encode([f, o, o, b, a, r]) == [25, 38, 61, 47] + [24, 38, 5, 50]
  {
    hide Group, Encode;
    ExampleGroups(f, o, b, a, r);
    OneGroup(f, o, o);
    OneGroup(b, a, r);
    TwoGroups([f, o, o], [b, a, r]);
    assert [f, o, o] + [b, a, r] == [f, o, o, b, a, r];
  }

  /** A group by the parts its bytes are split into. */
  lemma GroupOfParts(a: byte, b: byte, c: byte, a1: nat, a0: nat, b1: nat, b0: nat, c1: nat, c0: nat)
    requires a1 < 64 && a0 < 4 && b1 < 16 && b0 < 16 && c1 < 4 && c0 < 64
    requires a == 4 * a1 + a0 && b == 16 * b1 + b0 && c == 64 * c1 + c0
    ensures Group(a, b, c) == [a1, 16 * a0 + b1, 4 * b0 + c1, c0]
  {
  }

  lemma ExampleGroups(f: byte, o: byte, b: byte, a: byte, r: byte)
    requires f == 102 && o == 111 && b == 98 && a == 97 && r == 114
    ensures Group(f, 0, 0) == [25, 32, 0, 0] && Group(f, o, 0) == [25, 38, 60, 0]
    ensures Group(f, o, o) == [25, 38, 61, 47] && Group(b, a, r) == [24, 38, 5, 50]
  {
    hide Group;
    GroupOfParts(f, 0, 0, 25, 2, 0, 0, 0, 0);
    GroupOfParts(f, o, 0, 25, 2, 6, 15, 0, 0);
    GroupOfParts(f, o, o, 25, 2, 6, 15, 1, 47);
    GroupOfParts(b, a, r, 24, 2, 6, 1, 1, 50);
  }

  lemma PadsAre()
    ensures Pads(0) == [] && Pads(1) == [61] && Pads(2) == [61, 61]
  {
  }

  /** Section 10 of RFC 4648: "f", "fo", "foo" and "foobar". */
  lemma Examples(f: byte, o: byte, b: byte, a: byte, r: byte)
    requires f == 'f' as int && o == 'o' as int && b == 'b' as int && a == 'a' as int && r == 'r' as int
    ensures Text([f], false, true) == [90, 103] + [61, 61]
    ensures Text([f, o], false, true) == [90, 109, 56] + [61]
    ensures Text([f, o, o], false, true) == [90, 109, 57, 118]
    ensures Text([f, o, o, b, a, r], false, true) == [90, 109, 57, 118] + [89, 109, 70, 121]
  {
    hide Encode, Pads;
    ExampleSextets(f, o, b, a, r);
    PadsAre();
  }

  /** The sextets of a text, if it has no bad character, and how many characters were skipped. */
  datatype Read = Read(sextets: seq<Sextet>, skipped: nat)

  function ReadText(text: seq<byte>): Option<Read>
    decreases |text|
  {
    if text == [] then Some(Read([], 0))
    else
      var last := |text| - 1;
      match ReadText(text[..last])
      case None => None
      case Some(r) =>
        match MeaningOf(text[last])
        case Bad => None
        case Skip => Some(r.(skipped := r.skipped + 1))
        case Value(v) => Some(r.(sextets := r.sextets + [v]))
  }

  /** Any text: it is refused exactly if it has a bad character, and every other character is a sextet or skipped. */
  lemma {:induction false} RefusedExactly(text: seq<byte>)
    ensures ReadText(text).None? <==> exists k :: 0 <= k < |text| && MeaningOf(text[k]).Bad?
    ensures ReadText(text).Some? ==> |ReadText(text).value.sextets| + ReadText(text).value.skipped == |text|
    decreases |text|
  {
    hide MeaningOf;
    if text != [] {
      var front := text[..|text| - 1];
      RefusedExactly(front);
      assert forall k :: 0 <= k < |front| ==> front[k] == text[k];
      if ReadText(front).None? {
        var k :| 0 <= k < |front| && MeaningOf(front[k]).Bad?;
        assert MeaningOf(text[k]).Bad?;
      }
    }
  }

  /** Texts one behind the other are read one behind the other. */
  lemma {:induction false} ReadConcat(a: seq<byte>, b: seq<byte>)
    ensures ReadText(a + b) == match (ReadText(a), ReadText(b))
                               case (Some(x), Some(y)) => Some(Read(x.sextets + y.sextets, x.skipped + y.skipped))
                               case _ => None
    decreases |b|
  {
    hide MeaningOf, ReadText;
    if b == [] {
      NothingRead();
      assert a + b == a && (ReadText(a).Some? ==> ReadText(a).value.sextets + [] == ReadText(a).value.sextets);
    } else {
      var front, last := b[..|b| - 1], b[|b| - 1];
      ReadConcat(a, front);
      ReadNext(a + front, last);
      ReadNext(front, last);
      assert a + front + [last] == a + b && front + [last] == b;
      if ReadText(a).Some? && ReadText(front).Some? && MeaningOf(last).Value? {
        Associative(ReadText(a).value.sextets, ReadText(front).value.sextets, [MeaningOf(last).v]);
      }
    }
  }

  lemma NothingRead()
    ensures ReadText([]) == Some(Read([], 0))
  {
  }

  /** One more character, behind a text. */
  lemma ReadNext(text: seq<byte>, b: byte)
    ensures ReadText(text + [b]) == match ReadText(text)
                                    case None => None
                                    case Some(r) =>
                                      match MeaningOf(b)
                                      case Bad => None
                                      case Skip => Some(Read(r.sextets, r.skipped + 1))
                                      case Value(v) => Some(Read(r.sextets + [v], r.skipped))
  {
    hide MeaningOf;
    assert (text + [b])[..|text|] == text;
  }

  lemma LetterComesBack(v: Sextet, url: bool)
    ensures MeaningOf(Letter(v, url)) == Value(v)
  {
  }

  lemma {:induction false} LettersComeBack(s: seq<Sextet>, url: bool)
    ensures ReadText(Letters(s, url)) == Some(Read(s, 0))
    decreases |s|
  {
    hide Letter, MeaningOf;
    if s != [] {
      var last := |s| - 1;
      var t := Letters(s, url);
      assert t[..last] == Letters(s[..last], url);
      LettersComeBack(s[..last], url);
      LetterComesBack(s[last], url);
      assert s == s[..last] + [s[last]];
    }
  }

  lemma {:induction false} PadsAreSkipped(text: seq<byte>, n: nat)
    requires ReadText(text).Some?
    ensures ReadText(text + Pads(n)) == Some(ReadText(text).value.(skipped := ReadText(text).value.skipped + n))
    decreases n
  {
    var t := text + Pads(n);
    if n == 0 {
      assert t == text;
    } else {
      assert t[..|t| - 1] == text + Pads(n - 1);
      PadsAreSkipped(text, n - 1);
    }
  }

  /** What the decoder reports as the length: three quarters of the text, less one for every character
      skipped; a 64-bit number. It is not taken from what was written. */
  function Reported(length: nat, skipped: nat): nat {
    ((length as real / 4.0 * 3.0).Floor - skipped) % 0x1_0000_0000_0000_0000
  }

  /** The reported length is the number of bytes written exactly when the skipped characters are no more
      than the bits that the last group lacks allow. */
  lemma ReportedExactly(sextets: nat, skipped: nat)
    requires sextets + skipped < 0x4000_0000_0000_0000
    ensures Reported(sextets + skipped, skipped) == 3 * sextets / 4 <==> skipped <= 3 * sextets % 4
  {
    var n := 3 * (sextets + skipped) / 4;
    assert n - skipped >= 0 ==> (n - skipped) % 0x1_0000_0000_0000_0000 == n - skipped;
    assert n - skipped < 0 ==> (n - skipped) % 0x1_0000_0000_0000_0000 == n - skipped + 0x1_0000_0000_0000_0000;
  }

  lemma {:induction false} EncodedLength(src: seq<byte>)
    ensures |Encode(src)| + Lack(|src|) == (|src| + 2) / 3 * 4
    ensures 3 * |Encode(src)| / 4 == |src| && 3 * |Encode(src)| % 4 == Lack(|src|)
    decreases |src|
  {
    hide Group;
    if |src| >= 3 {
      EncodedLength(src[3..]);
      var e := |Encode(src[3..])|;
      assert |Encode(src)| == e + 4;
      assert Lack(|src|) == Lack(|src| - 3);
      assert 3 * (e + 4) / 4 == 3 * e / 4 + 3 && 3 * (e + 4) % 4 == 3 * e % 4;
    }
  }

  /** Encoding and decoding: for every byte string, with either alphabet, padded or not, decoding succeeds
      and gives the same bytes, and the length reported is the length. */
  lemma RoundTrip(src: seq<byte>, url: bool, padding: bool)
    requires |src| < 0x1000_0000_0000_0000
    ensures var text := Text(src, url, padding); var r := ReadText(text);
            r.Some? && Decode(r.value.sextets) == src && Reported(|text|, r.value.skipped) == |src|
  {
    hide Encode, Decode, ReadText, Lack, Reported;
    var letters := Letters(Encode(src), url);
    LettersComeBack(Encode(src), url);
    SextetsComeBack(src);
    EncodedLength(src);
    if padding {
      PadsAreSkipped(letters, Lack(|src|));
      ReportedExactly(|Encode(src)|, Lack(|src|));
    } else {
      assert letters + [] == letters;
      ReportedExactly(|Encode(src)|, 0);
    }
  }

  // ---- the program's own form ----

  /** The encoder's rounded-up division, over the reals. */
  function CeilThird(n: nat): int {
    (n as real / 3.0 + 0.9).Floor
  }

  lemma CeilThirdIs(n: nat)
    ensures CeilThird(n) == (n + 2) / 3
  {
    var q := (n + 2) / 3;
    var r := n - 3 * (q - 1);
    assert 1 <= r <= 3;
    assert n as real / 3.0 == (q - 1) as real + r as real / 3.0;
    assert q as real <= n as real / 3.0 + 0.9 < q as real + 1.0;
  }

  /** The text in a buffer of its own, ended by a NUL. */
  method EncodeText(src: seq<byte>, url: bool, padding: bool) returns (dest: array<byte>, length: nat)
    ensures fresh(dest) && length < dest.Length && dest[length] == 0
    ensures dest[..length] == Text(src, url, padding)
  {
    hide Letter, Encode, Lack, Letters, Pads;
    CeilThirdIs(|src|);
    EncodedLength(src);
    var groups: nat := CeilThird(|src|);
    dest := new byte[groups * 4 + 1];
    PutGroups(src, dest, groups, url);
    FillingAddsAtEnd(src);
    var at: nat := groups * 4 - Lack(|src|);
    assert dest[..at] == dest[..groups * 4][..at];
    if padding {
      PutPads(dest, at, groups * 4);
      at := groups * 4;
    } else {
      assert dest[..at] + [] == dest[..at];
    }
    ghost var text := dest[..at];
    dest[at] := 0;
    assert dest[..at] == text;
    length := at;
  }

  /** All groups, with zeros for what the last one lacks. */
  method PutGroups(src: seq<byte>, dest: array<byte>, groups: nat, url: bool)
    requires 4 * groups <= dest.Length && 3 * groups == |src| + Lack(|src|)
    modifies dest
    ensures dest[..4 * groups] == Letters(Encode(src + seq(Lack(|src|), _ => 0)), url)
  {
    hide Letter, Encode, Group, Lack, Letters;
    ghost var filled := src + seq(Lack(|src|), _ => 0);
    NothingEncoded(url);
    for index := 0 to groups
      invariant dest[..4 * index] == Letters(Encode(filled[..3 * index]), url)
    {
      var from: nat := index * 3;
      var a: byte := if from < |src| then src[from] else 0;
      var b: byte := if from + 1 < |src| then src[from + 1] else 0;
      var c: byte := if from + 2 < |src| then src[from + 2] else 0;
      PutGroup(dest, 4 * index, Group(a, b, c), url);
      OneGroupMore(filled, index, url);
    }
    assert filled[..3 * groups] == filled;
  }

  method PutGroup(dest: array<byte>, at: nat, g: seq<Sextet>, url: bool)
    requires |g| == 4 && at + 4 <= dest.Length
    modifies dest
    ensures dest[..at + 4] == old(dest[..at]) + Letters(g, url)
  {
    hide Letter;
    dest[at] := Letter(g[0], url);
    dest[at + 1] := Letter(g[1], url);
    dest[at + 2] := Letter(g[2], url);
    dest[at + 3] := Letter(g[3], url);
  }

  method PutPads(dest: array<byte>, start: nat, end: nat)
    requires start <= end <= dest.Length
    modifies dest
    ensures dest[..end] == old(dest[..start]) + Pads(end - start)
  {
    var at := start;
    while at < end
      invariant start <= at <= end && dest[..at] == old(dest[..start]) + Pads(at - start)
    {
      dest[at] := PAD;
      at := at + 1;
    }
  }

  lemma NothingEncoded(url: bool)
    ensures Letters(Encode([]), url) == []
  {
  }

  lemma OneGroupMore(src: seq<byte>, index: nat, url: bool)
    requires 3 * index + 3 <= |src|
    ensures var g := Group(src[3 * index], src[3 * index + 1], src[3 * index + 2]);
            Letters(Encode(src[..3 * index + 3]), url) == Letters(Encode(src[..3 * index]), url) + Letters(g, url)
  {
    hide Group, Letter;
    EncodeAppend(src[..3 * index], src[3 * index..3 * index + 3]);
    assert src[..3 * index + 3] == src[..3 * index] + src[3 * index..3 * index + 3];
  }

  lemma {:induction false} EncodeAppend(a: seq<byte>, b: seq<byte>)
    requires |a| % 3 == 0
    ensures Encode(a + b) == Encode(a) + Encode(b)
    decreases |a|
  {
    hide Group;
    if a == [] {
      assert a + b == b;
    } else {
      assert (a + b)[3..] == a[3..] + b;
      EncodeAppend(a[3..], b);
    }
  }

  /** With zeros for what the last group lacks, the encoding only gets longer at its end. */
  lemma {:induction false} FillingAddsAtEnd(src: seq<byte>)
    ensures var filled := src + seq(Lack(|src|), _ => 0);
            Encode(src) <= Encode(filled) && |Encode(filled)| == |Encode(src)| + Lack(|src|)
    decreases |src|
  {
    hide Group;
    var lack := Lack(|src|);
    var filled := src + seq(lack, _ => 0);
    if |src| >= 3 {
      FillingAddsAtEnd(src[3..]);
      assert Lack(|src[3..]|) == lack;
      assert filled[3..] == src[3..] + seq(lack, _ => 0);
    } else if |src| == 1 {
      assert filled == [src[0], 0, 0] && filled[3..] == [];
      assert Encode(filled) == Group(src[0], 0, 0) + Encode([]);
    } else if |src| == 2 {
      assert filled == [src[0], src[1], 0] && filled[3..] == [];
      assert Encode(filled) == Group(src[0], src[1], 0) + Encode([]);
    } else {
      assert filled == [];
    }
  }

  /** The decoded bytes in a buffer sized before anything is read, and the length it reports. */
  method DecodeText(text: seq<byte>) returns (ok: bool, dest: array<byte>, length: nat, ghost written: nat)
    ensures fresh(dest)
    ensures ok <==> ReadText(text).Some?
    ensures ok ==> var r := ReadText(text).value;
              && length == Reported(|text|, r.skipped)
              && written < dest.Length && dest[written] == 0 && dest[..written] == Decode(r.sextets)
  {
    hide Second, Third, Fourth, MeaningOf, Decode, Reported;
    dest := new byte[(|text| as real / 4.0 * 3.0).Floor + 1];
    var skipped := 0;
    var count: nat := 0;
    var b64: seq<Sextet> := [0, 0, 0, 0];
    var at: nat := 0;
    ghost var sextets: seq<Sextet> := [];
    assert Decode([]) == [];
    ok, length, written := true, 0, 0;
    for index := 0 to |text|
      invariant ReadText(text[..index]) == Some(Read(sextets, skipped)) && |sextets| + skipped == index
      invariant Held(sextets, b64, count)
      invariant at == |Decode(sextets)| && at < dest.Length && dest[..at] == Decode(sextets)
    {
      assert text[..index + 1][..index] == text[..index];
      var m := MeaningOf(text[index]);
      match m {
        case Bad =>
          BadStays(text, index + 1);
          ok := false;
          return;
        case Skip =>
          skipped := skipped + 1;
        case Value(v) =>
          at, b64, count := PutSextet(dest, at, sextets, b64, count, v);
          sextets := sextets + [v];
      }
    }
    assert text[..|text|] == text;
    dest[at] := 0;
    written := at;
    length := Reported(|text|, skipped);
  }

  /** The decoder's four places hold the sextets of the group that is not complete. */
  ghost predicate Held(sextets: seq<Sextet>, b64: seq<Sextet>, count: nat) {
    && |b64| == 4 && count == |sextets| % 4
    && b64[..count] == sextets[|sextets| - count..]
  }

  /** One more sextet: from the second of a group on, a byte is complete. */
  method PutSextet(dest: array<byte>, start: nat, ghost sextets: seq<Sextet>, held: seq<Sextet>, n: nat, v: Sextet)
    returns (at: nat, b64: seq<Sextet>, count: nat)
    requires Held(sextets, held, n) && start == |Decode(sextets)| <= dest.Length && dest[..start] == Decode(sextets)
    requires |Decode(sextets + [v])| < dest.Length
    modifies dest
    ensures Held(sextets + [v], b64, count)
    ensures at == |Decode(sextets + [v])| < dest.Length && dest[..at] == Decode(sextets + [v])
  {
    hide Second, Third, Fourth, Decode;
    DecodeNext(sextets, v);
    HoldNext(sextets, held, n, v);
    at := start;
    b64 := held[n := v];
    count := n + 1;
    if count == 2 {
      dest[at] := Second(b64[0], b64[1]);
      at := at + 1;
    } else if count == 3 {
      dest[at] := Third(b64[1], b64[2]);
      at := at + 1;
    } else if count == 4 {
      dest[at] := Fourth(b64[2], b64[3]);
      at := at + 1;
      count := 0;
    }
  }

  lemma HoldNext(sextets: seq<Sextet>, held: seq<Sextet>, n: nat, v: Sextet)
    requires Held(sextets, held, n)
    ensures n < 4 && Held(sextets + [v], held[n := v], if n == 3 then 0 else n + 1)
    ensures n > 0 ==> held[n - 1] == sextets[|sextets| - 1]
  {
    if n > 0 {
      assert held[n - 1] == held[..n][n - 1];
    }
  }

  lemma {:induction false} BadStays(text: seq<byte>, k: nat)
    requires k <= |text| && ReadText(text[..k]).None?
    ensures ReadText(text).None?
    decreases |text|
  {
    if k == |text| {
      assert text[..k] == text;
    } else {
      assert text[..|text| - 1][..k] == text[..k];
      BadStays(text[..|text| - 1], k);
    }
  }

  /** The byte that one more sextet completes, if any. */
  function Completed(s: seq<Sextet>, v: Sextet): seq<byte> {
    var n := |s|;
    if n % 4 == 0 then []
    else if n % 4 == 1 then [Second(s[n - 1], v)]
    else if n % 4 == 2 then [Third(s[n - 1], v)]
    else [Fourth(s[n - 1], v)]
  }

  lemma {:induction false} DecodeNext(s: seq<Sextet>, v: Sextet)
    ensures Decode(s + [v]) == Decode(s) + Completed(s, v)
    decreases |s|
  {
    hide Second, Third, Fourth;
    if |s| >= 4 {
      var front := [Second(s[0], s[1]), Third(s[1], s[2]), Fourth(s[2], s[3])];
      assert (s + [v])[4..] == s[4..] + [v];
      DecodeNext(s[4..], v);
      CompletedLater(s, v);
      assert Decode(s + [v]) == front + Decode(s[4..] + [v]);
      assert front + (Decode(s[4..]) + Completed(s, v)) == front + Decode(s[4..]) + Completed(s, v);
    }
  }

  lemma CompletedLater(s: seq<Sextet>, v: Sextet)
    requires |s| >= 4
    ensures Completed(s[4..], v) == Completed(s, v)
  {
    hide Second, Third, Fourth;
  }

}
