/** Chunked bodies as section 4.1 of RFC 7230 draws them, from any sender: sizes with digits of either case and
    leading zeros, with or without extensions, src/http/co_http_content_receiver.c:75-198. */
module ChunkedWire {
  import opened Machine
  import opened Chunked

  const LOWER_DIGITS: string := "0123456789abcdef"
  const UPPER_DIGITS: string := "0123456789ABCDEF"

  /** The digits the printer writes and those the scanner takes. */
  lemma DigitsAreHexadecimal(v: nat)
    requires v < 16
    ensures HexDigit(v) == LOWER_DIGITS[v] as int
    ensures IsHex(LOWER_DIGITS[v] as int) && HexValue(LOWER_DIGITS[v] as int) == v
    ensures IsHex(UPPER_DIGITS[v] as int) && HexValue(UPPER_DIGITS[v] as int) == v
  {
  }

  lemma OnlyDigits(b: byte)
    ensures IsHex(b) <==> exists v :: 0 <= v < 16 && (LOWER_DIGITS[v] as int == b || UPPER_DIGITS[v] as int == b)
  {
    if IsHex(b) {
      var v := HexValue(b);
      DigitsAreHexadecimal(v);
      assert LOWER_DIGITS[v] as int == b || UPPER_DIGITS[v] as int == b;
    } else if exists v :: 0 <= v < 16 && (LOWER_DIGITS[v] as int == b || UPPER_DIGITS[v] as int == b) {
      var v :| 0 <= v < 16 && (LOWER_DIGITS[v] as int == b || UPPER_DIGITS[v] as int == b);
      DigitsAreHexadecimal(v);
    }
  }

  /** A number to the base 16, the highest digit first. */
  function Number(s: seq<byte>): nat
    requires AllHex(s)
  {
    if s == [] then 0 else 16 * Number(s[..|s| - 1]) + HexValue(s[|s| - 1])
  }

  lemma {:induction false} DigitsAreNumber(s: seq<byte>)
    requires AllHex(s)
    ensures Digits(s, 0) == Number(s)
    decreases |s|
  {
    if s != [] {
      var n := |s| - 1;
      DigitsAreNumber(s[..n]);
      assert s == s[..n] + [s[n]];
      DigitsOf(s[..n], [s[n]], 0);
      assert [s[n]][1..] == [];
    }
  }

  lemma {:induction false} NumberBound(s: seq<byte>)
    requires AllHex(s)
    ensures Number(s) < Pow16(|s|)
    decreases |s|
  {
    if s != [] {
      NumberBound(s[..|s| - 1]);
    }
  }

  /** What the printer writes for a size is that number, without leading zeros. */
  lemma {:induction false} HexIsNumber(n: nat)
    ensures AllHex(Hex(n)) && Number(Hex(n)) == n && (|Hex(n)| > 1 ==> Hex(n)[0] != 48)
  {
    HexComesBack(n);
    DigitsAreNumber(Hex(n));
    LeadingDigit(n);
  }

  lemma {:induction false} LeadingDigit(n: nat)
    ensures n > 0 ==> Hex(n)[0] != 48
  {
    if n >= 16 {
      LeadingDigit(n / 16);
    }
  }

  /** A size line without its line end. An extension begins with neither a digit nor an x. */
  datatype SizeLine = SizeLine(digits: seq<byte>, extension: seq<byte>)

  /** What the program accepts of it: 16 characters in all. */
  predicate Proper(l: SizeLine) {
    && l.digits != [] && AllHex(l.digits) && |l.digits| + |l.extension| <= 16
    && 0 !in l.extension && CR !in l.extension
    && (l.extension != [] ==> !IsHex(l.extension[0]) && l.extension[0] != 88 && l.extension[0] != 120)
  }

  function Text(l: SizeLine): seq<byte> {
    l.digits + l.extension
  }

  lemma LineIsScanned(l: SizeLine, rest: seq<byte>)
    requires Proper(l)
    ensures StrToSize(Text(l) + CRLF + rest) == Number(l.digits)
  {
    var behind := l.extension + CRLF + rest;
    var s := Text(l) + CRLF + rest;
    assert s == l.digits + behind;
    DigitsOf(l.digits, behind, 0);
    DigitsAreNumber(l.digits);
    NumberBound(l.digits);
    SixteenDigits(|l.digits|);
    assert IsHex(s[0]) && SkipSpace(s) == s;
    assert s[1] != 88 && s[1] != 120;
    assert Digits(behind, Number(l.digits)) == Number(l.digits);
  }

  lemma SixteenDigits(n: nat)
    requires n <= 16
    ensures Pow16(n) <= SIZE_MAX + 1
  {
    assert Pow16(4) == 0x1_0000;
    assert Pow16(8) == 0x1_0000 * Pow16(4);
    assert Pow16(12) == 0x1_0000 * Pow16(8);
    assert Pow16(16) == 0x1_0000 * Pow16(12);
  }

  lemma {:induction false} LineEndFound(line: seq<byte>, rest: seq<byte>)
    requires 0 !in line && CR !in line
    ensures FindCrlf(line + CRLF + rest) == Some(|line|)
    decreases line
  {
    var s := line + CRLF + rest;
    if line != [] {
      assert s[0] == line[0] && s[1..] == line[1..] + CRLF + rest;
      LineEndFound(line[1..], rest);
    }
  }

  // ---- bodies ----

  datatype Sized = Sized(line: SizeLine, data: seq<byte>)

  predicate Fits(c: Sized, max: nat) {
    Proper(c.line) && Number(c.line.digits) == |c.data| && 0 < |c.data| <= max
  }

  predicate AllFit(chunks: seq<Sized>, max: nat) {
    forall k :: 0 <= k < |chunks| ==> Fits(chunks[k], max)
  }

  function Payload(chunks: seq<Sized>): seq<byte> {
    if chunks == [] then [] else chunks[0].data + Payload(chunks[1..])
  }

  /** The chunks, the last size line, and what comes behind it. */
  function Wire(chunks: seq<Sized>, last: SizeLine, behind: seq<byte>): seq<byte> {
    if chunks == [] then Text(last) + CRLF + behind
    else Text(chunks[0].line) + CRLF + (chunks[0].data + CRLF + Wire(chunks[1..], last, behind))
  }

  lemma LastTaken(last: SizeLine, behind: seq<byte>, max: nat, accept: Handler)
    requires Proper(last) && Number(last.digits) == 0 && |behind| >= 2
    ensures Read(Text(last) + CRLF + behind, BETWEEN, max, accept) == Pass(|Text(last)| + 4, BETWEEN, [], Complete)
  {
    hide StrToSize, FindCrlf;
    var d := Text(last) + CRLF + behind;
    LineIsScanned(last, behind);
    NoHexInside(last);
    LineEndFound(Text(last), behind);
    assert d[|Text(last)| + 2..] == behind;
  }

  lemma NoHexInside(l: SizeLine)
    requires Proper(l)
    ensures 0 !in Text(l) && CR !in Text(l) && 1 <= |Text(l)| <= 16
  {
  }

  lemma ChunkTaken(c: Sized, later: seq<byte>, max: nat, accept: Handler)
    requires Fits(c, max) && AcceptsAll(accept)
    ensures Read(Text(c.line) + CRLF + (c.data + CRLF + later), BETWEEN, max, accept)
            == Later(Read(later, BETWEEN, max, accept), |Text(c.line)| + 2 + |c.data| + 2, c.data)
  {
    hide StrToSize, FindCrlf, ReadData;
    var rest := c.data + CRLF + later;
    var d := Text(c.line) + CRLF + rest;
    LineIsScanned(c.line, rest);
    NoHexInside(c.line);
    LineEndFound(Text(c.line), rest);
    assert d[|Text(c.line)| + 2..] == rest;
    ReadsBeyond(c.data, later, Chunk(|c.data|, 0), max, accept);
    assert [] + (c.data + Read(later, BETWEEN, max, accept).delivered) == c.data + Read(later, BETWEEN, max, accept).delivered;
  }

  /** Of any sender's body, given at once, exactly the payload is handed on. The reader ends two bytes behind the
      last size line, whatever they are. */
  lemma {:induction false} BodyDecodes(chunks: seq<Sized>, last: SizeLine, behind: seq<byte>, max: nat, accept: Handler)
    requires AllFit(chunks, max) && AcceptsAll(accept) && Proper(last) && Number(last.digits) == 0 && |behind| >= 2
    ensures var d := Wire(chunks, last, behind); var p := Read(d, BETWEEN, max, accept);
            p.outcome == Complete && p.delivered == Payload(chunks) && p.used + |behind| == |d| + 2
    decreases chunks
  {
    hide Read, Proper, Number, Text, AcceptsAll;
    if chunks == [] {
      LastTaken(last, behind, max, accept);
    } else {
      var later := Wire(chunks[1..], last, behind);
      assert Fits(chunks[0], max);
      ChunkTaken(chunks[0], later, max, accept);
      BodyDecodes(chunks[1..], last, behind, max, accept);
    }
  }

  /** So it stops right behind the body exactly if there are no trailer fields: the bytes it takes are the final
      line end. */
  lemma NothingOverExactly(chunks: seq<Sized>, last: SizeLine, trailer: seq<byte>, next: seq<byte>, max: nat, accept: Handler)
    requires AllFit(chunks, max) && AcceptsAll(accept) && Proper(last) && Number(last.digits) == 0
    ensures var d := Wire(chunks, last, trailer + CRLF + next); var p := Read(d, BETWEEN, max, accept);
            p.outcome == Complete && p.delivered == Payload(chunks) && (p.used + |next| == |d| <==> trailer == [])
  {
    hide Read, Proper, Number, AcceptsAll, AllFit, Wire;
    BodyDecodes(chunks, last, trailer + CRLF + next, max, accept);
  }

  /** A size line of more than 16 characters, extension included, ends the body in error. */
  lemma LongLineRefused(line: seq<byte>, behind: seq<byte>, max: nat, accept: Handler)
    requires 0 !in line && CR !in line && |line| > 16
    ensures Read(line + CRLF + behind, BETWEEN, max, accept).outcome == Error
  {
    hide StrToSize, FindCrlf;
    LineEndFound(line, behind);
  }

  /** A chunk larger than the program takes ends the body before any of it is handed on. */
  lemma LargeChunkRefused(line: SizeLine, behind: seq<byte>, max: nat, accept: Handler)
    requires Proper(line) && Number(line.digits) > max
    ensures var p := Read(Text(line) + CRLF + behind, BETWEEN, max, accept); p.outcome == TooBig && p.delivered == []
  {
    hide StrToSize, FindCrlf;
    LineIsScanned(line, behind);
    NoHexInside(line);
    LineEndFound(Text(line), behind);
  }

  // ---- a handler that refuses ----

  /** What a handler makes of the same bytes, next to one that takes everything. */
  ghost predicate CutShort(p: Pass, all: Pass, accept: Handler) {
    && (p.outcome != Cancelled ==> p == all)
    && (p.outcome == Cancelled ==>
          exists piece :: piece != [] && !accept(piece) && p.delivered + piece <= all.delivered)
  }

  lemma CutShortLater(p: Pass, all: Pass, used: nat, delivered: seq<byte>, accept: Handler)
    requires CutShort(p, all, accept)
    ensures CutShort(Later(p, used, delivered), Later(all, used, delivered), accept)
  {
    if p.outcome == Cancelled {
      var piece :| piece != [] && !accept(piece) && p.delivered + piece <= all.delivered;
      Associative(delivered, p.delivered, piece);
      assert delivered + p.delivered + piece <= delivered + all.delivered;
    }
  }

  /** A handler changes nothing until it refuses a piece, and then nothing more is handed on. */
  lemma {:induction false} RefusalEnds(d: seq<byte>, c: Chunk, max: nat, accept: Handler, all: Handler)
    requires Sound(c) && AcceptsAll(all)
    ensures CutShort(Read(d, c, max, accept), Read(d, c, max, all), accept)
    decreases |d|, 1
  {
    hide StrToSize, FindCrlf, CutShort, ReadData;
    if d == [] {
      NotCutShort(Read(d, c, max, all), accept);
    } else if c.size != 0 {
      RefusalEndsData(d, c, max, accept, all);
    } else {
      match FindCrlf(d)
      case None => NotCutShort(Read(d, c, max, all), accept);
      case Some(digits) =>
        if digits == 0 {
          RefusalEnds(d[2..], c, max, accept, all);
          CutShortLater(Read(d[2..], c, max, accept), Read(d[2..], c, max, all), 2, [], accept);
        } else if digits > MAX_DIGITS || StrToSize(d) > max {
          NotCutShort(Read(d, c, max, all), accept);
        } else {
          var c1, rest := Chunk(StrToSize(d), 0), d[digits + 2..];
          RefusalEndsData(rest, c1, max, accept, all);
          CutShortLater(ReadData(rest, c1, max, accept), ReadData(rest, c1, max, all), digits + 2, [], accept);
        }
    }
  }

  lemma {:induction false} RefusalEndsData(d: seq<byte>, c: Chunk, max: nat, accept: Handler, all: Handler)
    requires Sound(c) && AcceptsAll(all)
    ensures CutShort(ReadData(d, c, max, accept), ReadData(d, c, max, all), accept)
    decreases |d|, 0
  {
    hide Read, CutShort;
    var n := Min(|d|, c.size - c.got);
    var c1 := if c.size <= c.got + n then BETWEEN else Chunk(c.size, c.got + n);
    var q := ReadData(d, c, max, all);
    if c.got + n > max || n == 0 {
      NotCutShort(q, accept);
    } else if !accept(d[..n]) {
      Refused(Pass(0, c1, [], Cancelled), q, d[..n], accept);
    } else {
      var used := if c1.size == 0 && |d| - n >= 2 then n + 2 else n;
      RefusalEnds(d[used..], c1, max, accept, all);
      CutShortLater(Read(d[used..], c1, max, accept), Read(d[used..], c1, max, all), used, d[..n], accept);
    }
  }

  lemma NotCutShort(all: Pass, accept: Handler)
    requires all.outcome != Cancelled
    ensures CutShort(all, all, accept)
  {
  }

  lemma Refused(p: Pass, all: Pass, piece: seq<byte>, accept: Handler)
    requires p.outcome == Cancelled && p.delivered == [] && piece != [] && !accept(piece) && piece <= all.delivered
    ensures CutShort(p, all, accept)
  {
    assert p.delivered + piece == piece;
  }

  /** A handler that takes nothing is asked once: nothing is handed on, and the body is cancelled if there was
      anything to hand on. */
  lemma RefuserGetsNothing(d: seq<byte>, c: Chunk, max: nat, accept: Handler, all: Handler)
    requires Sound(c) && AcceptsAll(all) && (forall s :: s != [] ==> !accept(s))
    ensures Read(d, c, max, accept).delivered == []
    ensures Read(d, c, max, all).delivered != [] ==> Read(d, c, max, accept).outcome == Cancelled
  {
    RefusalEnds(d, c, max, accept, all);
    NothingTaken(d, c, max, accept);
  }

  lemma {:induction false} NothingTaken(d: seq<byte>, c: Chunk, max: nat, accept: Handler)
    requires Sound(c) && (forall s :: s != [] ==> !accept(s))
    ensures Read(d, c, max, accept).delivered == []
    decreases |d|
  {
    hide StrToSize, FindCrlf;
    if d != [] && c.size == 0 && FindCrlf(d) == Some(0) {
      NothingTaken(d[2..], c, max, accept);
    }
  }
}
