/** Chunked transfer coding: the printer of src/http/co_http_server.c:251-297 and the resumable reader of
    src/http/co_http_content_receiver.c:75-198, with the number scanner and the line search it uses
    (section 4.1 of RFC 7230). */
module Chunked {
  import opened Machine

  const CR: byte := 13
  const LF: byte := 10
  const CRLF: seq<byte> := [CR, LF]
  const SIZE_MAX: nat := 0xFFFF_FFFF_FFFF_FFFF
  const MAX_DIGITS: nat := 16

  // ---- hexadecimal ----

  predicate IsHex(b: byte) {
    48 <= b <= 57 || 65 <= b <= 70 || 97 <= b <= 102
  }

  function HexValue(b: byte): nat
    requires IsHex(b)
  {
    if b <= 57 then b - 48 else if b <= 70 then b - 55 else b - 87
  }

  function HexDigit(v: nat): (b: byte)
    requires v < 16
    ensures IsHex(b) && HexValue(b) == v
  {
    if v < 10 then 48 + v else 87 + v
  }

  /** What `%x` prints. */
  function Hex(n: nat): (s: seq<byte>)
    ensures |s| >= 1
  {
    if n < 16 then [HexDigit(n)] else Hex(n / 16) + [HexDigit(n % 16)]
  }

  /** The digits up to the first byte that is none, in the manner of strtoull with base 16. */
  function Digits(s: seq<byte>, value: nat): nat
    decreases s
  {
    if s == [] || !IsHex(s[0]) then value else Digits(s[1..], value * 16 + HexValue(s[0]))
  }

  /** strtoull with base 16: white space, a sign, a 0x prefix, digits; too large a number saturates. */
  function StrToSize(s: seq<byte>): nat {
    var t := SkipSpace(s);
    var signed := t != [] && (t[0] == 43 || t[0] == 45);
    var u := if signed then t[1..] else t;
    var w := if |u| >= 3 && u[0] == 48 && (u[1] == 120 || u[1] == 88) && IsHex(u[2]) then u[2..] else u;
    var v := Digits(w, 0);
    if v > SIZE_MAX then SIZE_MAX
    else if signed && t[0] == 45 && v > 0 then SIZE_MAX + 1 - v
    else v
  }

  /** The offset of the first CR LF; a NUL ends the search. */
  function FindCrlf(s: seq<byte>): (r: Option<nat>)
    ensures r.Some? ==> r.value + 2 <= |s|
  {
    if s == [] || s[0] == 0 then None
    else if s[0] == CR && |s| >= 2 && s[1] == LF then Some(0)
    else
      match FindCrlf(s[1..])
      case None => None
      case Some(n) => Some(n + 1)
  }

  // ---- printer ----

  /** One call of the sender: the size as a 32-bit number, the data, and a line end. */
  function PrintChunk(data: seq<byte>): seq<byte> {
    Hex(|data| % TWO_32) + CRLF + data + CRLF
  }

  method SendChunked(data: seq<byte>, wire: ByteArray)
    modifies wire
    ensures wire.bytes == old(wire.bytes) + PrintChunk(data)
  {
    wire.Add(Hex(|data| % TWO_32) + CRLF);
    if |data| > 0 {
      wire.Add(data);
    }
    wire.Add(CRLF);
  }

  /** The end of a response is an empty chunk. */
  function LastChunk(): seq<byte> {
    PrintChunk([])
  }

  function Print(chunks: seq<seq<byte>>): seq<byte> {
    if chunks == [] then LastChunk() else PrintChunk(chunks[0]) + Print(chunks[1..])
  }

  // ---- reader ----

  /** The chunk being read: its size, 0 between chunks, and how much of it has come. */
  datatype Chunk = Chunk(size: nat, got: nat)

  const BETWEEN: Chunk := Chunk(0, 0)

  predicate Sound(c: Chunk) {
    c == BETWEEN || c.got < c.size
  }

  datatype Outcome = MoreData | Complete | Error | TooBig | Cancelled

  /** What one call makes of the unread bytes: how many it used, the chunk it stands in, what it handed
      on, and what it returns. */
  datatype Pass = Pass(used: nat, chunk: Chunk, delivered: seq<byte>, outcome: Outcome)

  type Handler = seq<byte> -> bool

  function Later(p: Pass, used: nat, delivered: seq<byte>): Pass {
    p.(used := used + p.used, delivered := delivered + p.delivered)
  }

  /** The loop from its head, on the unread bytes. */
  function Read(d: seq<byte>, c: Chunk, max: nat, accept: Handler): (p: Pass)
    requires Sound(c)
    ensures p.used <= |d| && (p.outcome == MoreData ==> Sound(p.chunk))
    decreases |d|, 1
  {
    if d == [] then Pass(0, c, [], MoreData)
    else if c.size != 0 then ReadData(d, c, max, accept)
    else
      match FindCrlf(d)
      case None => Pass(0, c, [], MoreData)
      case Some(digits) =>
        if digits > MAX_DIGITS then Pass(0, c, [], Error)
        else if digits == 0 then Later(Read(d[2..], c, max, accept), 2, [])
        else
          var size := StrToSize(d);
          if size > max then Pass(0, Chunk(size, 0), [], TooBig)
          else Later(ReadData(d[digits + 2..], Chunk(size, 0), max, accept), digits + 2, [])
  }

  /** The rest of the loop's body, in a chunk; the size line just read may have been 0. */
  function ReadData(d: seq<byte>, c: Chunk, max: nat, accept: Handler): (p: Pass)
    requires Sound(c)
    ensures p.used <= |d| && (p.outcome == MoreData ==> Sound(p.chunk))
    decreases |d|, 0
  {
    var n := Min(|d|, c.size - c.got);
    var c1 := if c.size <= c.got + n then BETWEEN else Chunk(c.size, c.got + n);
    if c.got + n > max then Pass(0, c.(got := c.got + n), [], TooBig)
    else if n > 0 && !accept(d[..n]) then Pass(0, c1, [], Cancelled)
    else if c1.size == 0 && |d| - n >= 2 then
      if n == 0 then Pass(2, c1, [], Complete)
      else Later(Read(d[n + 2..], c1, max, accept), n + 2, d[..n])
    else if n == 0 then
      // Nothing more to read, or a lone byte after a size of 0.
      Pass(0, c1, [], MoreData)
    else Later(Read(d[n..], c1, max, accept), n, d[..n])
  }

  // ---- numbers come back ----

  predicate AllHex(s: seq<byte>) {
    forall k :: 0 <= k < |s| ==> IsHex(s[k])
  }

  lemma {:induction false} DigitsOf(s: seq<byte>, rest: seq<byte>, value: nat)
    requires AllHex(s)
    ensures Digits(s + rest, value) == Digits(rest, Digits(s, value))
    decreases s
  {
    if s == [] {
      assert s + rest == rest;
    } else {
      assert (s + rest)[1..] == s[1..] + rest;
      DigitsOf(s[1..], rest, value * 16 + HexValue(s[0]));
    }
  }

  lemma {:induction false} HexComesBack(n: nat)
    ensures AllHex(Hex(n)) && Digits(Hex(n), 0) == n
  {
    if n >= 16 {
      HexComesBack(n / 16);
      DigitsOf(Hex(n / 16), [HexDigit(n % 16)], 0);
    }
  }

  function Pow16(k: nat): nat {
    if k == 0 then 1 else 16 * Pow16(k - 1)
  }

  lemma {:induction false} HexIsShort(n: nat, k: nat)
    requires k >= 1 && n < Pow16(k)
    ensures |Hex(n)| <= k
    decreases k
  {
    if n >= 16 {
      HexIsShort(n / 16, k - 1);
    }
  }

  /** What follows a printed number does not change how it is scanned, if it begins with CR. */
  lemma LineScans(n: nat, rest: seq<byte>)
    requires n < TWO_32
    ensures StrToSize(Hex(n) + CRLF + rest) == n && |Hex(n)| <= 8
  {
    HexComesBack(n);
    assert Pow16(8) == TWO_32 by {
      assert Pow16(4) == 0x1_0000;
    }
    HexIsShort(n, 8);
    var s := Hex(n) + CRLF + rest;
    assert s == Hex(n) + (CRLF + rest);
    DigitsOf(Hex(n), CRLF + rest, 0);
    assert IsHex(s[0]) && (IsHex(s[1]) || s[1] == CR);
  }

  lemma {:induction false} CrlfAfter(line: seq<byte>, rest: seq<byte>)
    requires AllHex(line)
    ensures FindCrlf(line + CRLF + rest) == Some(|line|)
    decreases line
  {
    var s := line + CRLF + rest;
    if line != [] {
      assert s[1..] == line[1..] + CRLF + rest;
      CrlfAfter(line[1..], rest);
    }
  }

  lemma {:induction false} CrlfNotYet(line: seq<byte>, k: nat)
    requires AllHex(line) && k < |line| + 2
    ensures FindCrlf((line + CRLF)[..k]) == None
    decreases line
  {
    var s := (line + CRLF)[..k];
    if k > 0 {
      if line != [] {
        assert s[1..] == (line[1..] + CRLF)[..k - 1];
        CrlfNotYet(line[1..], k - 1);
      } else {
        assert s == [CR] && s[1..] == [];
      }
    }
  }

  // ---- where the reader stands ----

  /** Chunks as the sender may print them and this reader take them: not empty, a size that survives the
      32-bit print, and within the configured maximum. */
  predicate Regular(chunks: seq<seq<byte>>, max: nat) {
    forall k :: 0 <= k < |chunks| ==> 0 < |chunks[k]| < TWO_32 && |chunks[k]| <= max
  }

  lemma FirstIsRegular(chunks: seq<seq<byte>>, max: nat)
    requires chunks != [] && Regular(chunks, max)
    ensures 0 < |chunks[0]| < TWO_32 && |chunks[0]| <= max && Regular(chunks[1..], max)
  {
  }

  ghost predicate AcceptsAll(accept: Handler) {
    forall piece :: accept(piece)
  }

  function Line(n: nat): seq<byte> {
    Hex(n) + CRLF
  }

  /** Unread bytes kept back, the chunk, and what has been handed on. */
  datatype Place = Place(pending: seq<byte>, chunk: Chunk, delivered: seq<byte>)

  /** The place after k bytes of the printed chunks, short of all of them; reads play no part in it. */
  function At(chunks: seq<seq<byte>>, k: nat): (p: Place)
    requires k < |Print(chunks)|
    decreases chunks
  {
    if chunks == [] then
      if k < 3 then Place(LastChunk()[..k], BETWEEN, []) else Place(CRLF[..k - 3], BETWEEN, [])
    else
      var n := |chunks[0]|;
      var l := |Line(n % TWO_32)|;
      if k < l then Place(Line(n % TWO_32)[..k], BETWEEN, [])
      else if k < l + n then Place([], Chunk(n, k - l), chunks[0][..k - l])
      else if k < l + n + 2 then Place(CRLF[..k - l - n], BETWEEN, chunks[0])
      else
        var p := At(chunks[1..], k - l - n - 2);
        p.(delivered := chunks[0] + p.delivered)
  }

  /** A pass that began with `before` handed on, over the bytes `d`, stops at the place `p`. */
  predicate StopsAt(pass: Pass, d: seq<byte>, before: seq<byte>, p: Place) {
    && pass.used <= |d| && pass.outcome == MoreData && pass.chunk == p.chunk
    && d[pass.used..] == p.pending && before + pass.delivered == p.delivered
  }

  /** The pass took the body to its end, `over` bytes short of all it was given. */
  predicate Ends(pass: Pass, d: seq<byte>, before: seq<byte>, body: seq<byte>, over: nat) {
    && pass.outcome == Complete && pass.chunk == BETWEEN
    && pass.used + over == |d| && before + pass.delivered == body
  }

  /** What a pass over m bytes of the stream, from the head of a size line, has to come to. */
  predicate Right(pass: Pass, d: seq<byte>, before: seq<byte>, chunks: seq<seq<byte>>, m: nat) {
    if m < |Print(chunks)| then StopsAt(pass, d, before, At(chunks, m))
    else Ends(pass, d, before, Join(chunks), m - |Print(chunks)|)
  }

  /** What the sender printed, and whatever is behind it. */
  function Stream(chunks: seq<seq<byte>>, tail: seq<byte>): seq<byte> {
    Print(chunks) + tail
  }

  lemma LastLine(tail: seq<byte>, m: nat, max: nat, accept: Handler)
    requires m <= |Stream([], tail)|
    ensures var d := Stream([], tail)[..m]; Right(Read(d, BETWEEN, max, accept), d, [], [], m)
  {
    var d := Stream([], tail)[..m];
    assert LastChunk() == [48, CR, LF, CR, LF];
    assert Hex(0) == [48];
    if m < 3 {
      CrlfNotYet([48], m);
      assert d == ([48] + CRLF)[..m] == LastChunk()[..m];
    } else {
      assert d == [48] + CRLF + d[3..];
      CrlfAfter([48], d[3..]);
      LineScans(0, d[3..]);
      if m < 5 {
        assert d[3..] == CRLF[..m - 3];
      }
    }
  }

  /** The stream from `got` bytes into the first chunk on. */
  function FromGot(chunks: seq<seq<byte>>, tail: seq<byte>, got: nat): seq<byte>
    requires chunks != [] && got <= |chunks[0]|
  {
    chunks[0][got..] + CRLF + Stream(chunks[1..], tail)
  }

  lemma FirstLine(chunks: seq<seq<byte>>, tail: seq<byte>, m: nat, max: nat, accept: Handler)
    requires chunks != [] && Regular(chunks, max) && m <= |Stream(chunks, tail)|
    ensures var n := |chunks[0]|; var l := |Line(n)|; var d := Stream(chunks, tail)[..m];
            && (m < l ==> d == Line(n)[..m] && Read(d, BETWEEN, max, accept) == Pass(0, BETWEEN, [], MoreData))
            && (m >= l ==> m - l <= |FromGot(chunks, tail, 0)| && d[l..] == FromGot(chunks, tail, 0)[..m - l] &&
                           Read(d, BETWEEN, max, accept) == Later(ReadData(d[l..], Chunk(n, 0), max, accept), l, []))
  {
    hide Stream, FromGot, ReadData, StrToSize;
    var n := |chunks[0]|;
    var d := Stream(chunks, tail)[..m];
    StreamFirst(chunks, tail);
    HexComesBack(n);
    if m < |Line(n)| {
      CrlfNotYet(Hex(n), m);
    } else {
      var rest := d[|Line(n)|..];
      assert d == Hex(n) + CRLF + rest;
      CrlfAfter(Hex(n), rest);
      LineScans(n, rest);
    }
  }

  lemma TakeData(data: seq<byte>, later: seq<byte>, j: nat)
    requires j <= |data + CRLF + later|
    ensures var d := (data + CRLF + later)[..j]; var r := |data|;
            if j < r then d == data[..j] else if j < r + 2 then d == data + CRLF[..j - r]
            else d == data + CRLF + later[..j - r - 2]
  {
  }

  lemma StreamFirst(chunks: seq<seq<byte>>, tail: seq<byte>)
    requires chunks != [] && |chunks[0]| < TWO_32
    ensures Stream(chunks, tail) == Line(|chunks[0]|) + FromGot(chunks, tail, 0)
    ensures |Stream(chunks, tail)| == |Line(|chunks[0]|)| + |chunks[0]| + 2 + |Stream(chunks[1..], tail)|
  {
    hide Print, Hex;
    PrintFirst(chunks, tail);
    assert chunks[0][0..] == chunks[0];
  }

  lemma PrintFirst(chunks: seq<seq<byte>>, tail: seq<byte>)
    requires chunks != [] && |chunks[0]| < TWO_32
    ensures var n := |chunks[0]|;
            && Print(chunks) + tail == Line(n) + (chunks[0] + CRLF + (Print(chunks[1..]) + tail))
            && |Print(chunks)| == |Line(n)| + n + 2 + |Print(chunks[1..])|
  {
    hide Hex;
    var later := Print(chunks[1..]);
    var line := Line(|chunks[0]|);
    PrintedChunk(chunks[0]);
    assert line + chunks[0] + CRLF + later == PrintChunk(chunks[0]) + later;
  }

  lemma PrintedChunk(data: seq<byte>)
    requires |data| < TWO_32
    ensures PrintChunk(data) == Line(|data|) + data + CRLF
  {
  }

  lemma AtFirst(chunks: seq<seq<byte>>, k: nat)
    requires chunks != [] && |chunks[0]| < TWO_32 && k < |Print(chunks)|
    ensures var n := |chunks[0]|; var l := |Line(n)|; var p := At(chunks, k);
            && |Print(chunks)| == l + n + 2 + |Print(chunks[1..])|
            && (k < l ==> p == Place(Line(n)[..k], BETWEEN, []))
            && (l <= k < l + n ==> p == Place([], Chunk(n, k - l), chunks[0][..k - l]))
            && (l + n <= k < l + n + 2 ==> p == Place(CRLF[..k - l - n], BETWEEN, chunks[0]))
            && (l + n + 2 <= k ==>
                var q := At(chunks[1..], k - l - n - 2); p == Place(q.pending, q.chunk, chunks[0] + q.delivered))
  {
    hide Print, Hex;
    PrintFirst(chunks, []);
  }

  /** From inside a chunk, `got` bytes into it. */
  lemma {:induction false} FromData(chunks: seq<seq<byte>>, tail: seq<byte>, got: nat, j: nat, max: nat, accept: Handler)
    requires chunks != [] && Regular(chunks, max) && AcceptsAll(accept) && got < |chunks[0]|
    requires j <= |FromGot(chunks, tail, got)|
    ensures var n := |chunks[0]|; var d := FromGot(chunks, tail, got)[..j];
            Right(ReadData(d, Chunk(n, got), max, accept), d, chunks[0][..got], chunks, |Line(n)| + got + j)
    decreases |chunks|, 0
  {
    hide Print, Read, Hex, At, Join, Right, ReadData, Stream;
    var n := |chunks[0]|;
    var later := Stream(chunks[1..], tail);
    var data := chunks[0][got..];
    var d := FromGot(chunks, tail, got)[..j];
    TakeData(data, later, j);
    if j < |data| {
      assert d == chunks[0][got..got + j];
      InsideChunk(chunks, d, got, max, accept);
    } else if j < |data| + 2 {
      AtChunkEnd(chunks, d, got, j - |data|, max, accept);
    } else {
      var m := j - |data| - 2;
      FirstIsRegular(chunks, max);
      FromLine(chunks[1..], tail, m, max, accept);
      NextChunk(chunks, d, got, later[..m], max, accept);
    }
  }

  /** The three ways a read can end with respect to the chunk it starts in. */
  lemma ReadsInside(d: seq<byte>, c: Chunk, max: nat, accept: Handler)
    requires AcceptsAll(accept) && c.got + |d| < c.size <= max
    ensures ReadData(d, c, max, accept) == Pass(|d|, Chunk(c.size, c.got + |d|), d, MoreData)
  {
    hide Read;
    assert d[..|d|] == d && d[|d|..] == [] && d + [] == d;
    ReadNothing(Chunk(c.size, c.got + |d|), max, accept);
  }

  lemma ReadsToEnd(data: seq<byte>, k: nat, c: Chunk, max: nat, accept: Handler)
    requires AcceptsAll(accept) && c.got < c.size <= max && |data| == c.size - c.got && k < 2
    ensures ReadData(data + CRLF[..k], c, max, accept) == Pass(|data|, BETWEEN, data, MoreData)
  {
    hide Read;
    var d := data + CRLF[..k];
    assert d[..|data|] == data && d[|data|..] == CRLF[..k] && data + [] == data;
    ReadPartOfCrlf(k, max, accept);
  }

  lemma ReadsBeyond(data: seq<byte>, later: seq<byte>, c: Chunk, max: nat, accept: Handler)
    requires AcceptsAll(accept) && c.got < c.size <= max && |data| == c.size - c.got
    ensures ReadData(data + CRLF + later, c, max, accept) == Later(Read(later, BETWEEN, max, accept), |data| + 2, data)
  {
    hide Read;
    var d := data + CRLF + later;
    assert d[..|data|] == data && d[|data| + 2..] == later;
  }

  lemma InsideChunk(chunks: seq<seq<byte>>, d: seq<byte>, got: nat, max: nat, accept: Handler)
    requires chunks != [] && Regular(chunks, max) && AcceptsAll(accept)
    requires got + |d| < |chunks[0]| && d == chunks[0][got..got + |d|]
    ensures Right(ReadData(d, Chunk(|chunks[0]|, got), max, accept), d, chunks[0][..got], chunks, |Line(|chunks[0]|)| + got + |d|)
  {
    hide Print, Hex, At, ReadData, Line;
    ReadsInside(d, Chunk(|chunks[0]|, got), max, accept);
    PrintFirst(chunks, []);
    AtFirst(chunks, |Line(|chunks[0]|)| + got + |d|);
    assert d[|d|..] == [];
    assert chunks[0][..got] + d == chunks[0][..got + |d|];
  }

  lemma AtChunkEnd(chunks: seq<seq<byte>>, d: seq<byte>, got: nat, k: nat, max: nat, accept: Handler)
    requires chunks != [] && Regular(chunks, max) && AcceptsAll(accept)
    requires got < |chunks[0]| && k < 2 && d == chunks[0][got..] + CRLF[..k]
    ensures Right(ReadData(d, Chunk(|chunks[0]|, got), max, accept), d, chunks[0][..got], chunks, |Line(|chunks[0]|)| + |chunks[0]| + k)
  {
    hide Print, Hex, At, ReadData, Line;
    ReadsToEnd(chunks[0][got..], k, Chunk(|chunks[0]|, got), max, accept);
    PrintFirst(chunks, []);
    AtFirst(chunks, |Line(|chunks[0]|)| + |chunks[0]| + k);
    assert d[|chunks[0]| - got..] == CRLF[..k];
    assert chunks[0][..got] + chunks[0][got..] == chunks[0];
  }

  lemma NextChunk(chunks: seq<seq<byte>>, d: seq<byte>, got: nat, later: seq<byte>, max: nat, accept: Handler)
    requires chunks != [] && Regular(chunks, max) && AcceptsAll(accept)
    requires got < |chunks[0]| && d == chunks[0][got..] + CRLF + later
    requires Right(Read(later, BETWEEN, max, accept), later, [], chunks[1..], |later|)
    ensures Right(ReadData(d, Chunk(|chunks[0]|, got), max, accept), d, chunks[0][..got], chunks,
                  |Line(|chunks[0]|)| + |chunks[0]| + 2 + |later|)
  {
    hide Print, Hex, At, ReadData, Read, Line, Right, Join;
    var data := chunks[0][got..];
    ReadsBeyond(data, later, Chunk(|chunks[0]|, got), max, accept);
    assert chunks[0][..got] + data == chunks[0];
    var q := Read(later, BETWEEN, max, accept);
    if |later| < |Print(chunks[1..])| {
      StopsInNext(q, later, chunks, chunks[0][..got], data);
    } else {
      EndsInNext(q, later, chunks, chunks[0][..got], data);
    }
  }

  lemma StopsInNext(q: Pass, later: seq<byte>, chunks: seq<seq<byte>>, before: seq<byte>, data: seq<byte>)
    requires chunks != [] && |chunks[0]| < TWO_32 && before + data == chunks[0]
    requires |later| < |Print(chunks[1..])| && Right(q, later, [], chunks[1..], |later|)
    ensures Right(Later(q, |data| + 2, data), data + CRLF + later, before, chunks, |Line(|chunks[0]|)| + |chunks[0]| + 2 + |later|)
  {
    hide Print, Hex, At, Line, Join;
    PrintFirst(chunks, []);
    AtFirst(chunks, |Line(|chunks[0]|)| + |chunks[0]| + 2 + |later|);
    var d := data + CRLF + later;
    assert d[|data| + 2 + q.used..] == later[q.used..];
    assert before + (data + q.delivered) == chunks[0] + q.delivered;
    assert [] + q.delivered == q.delivered;
  }

  lemma EndsInNext(q: Pass, later: seq<byte>, chunks: seq<seq<byte>>, before: seq<byte>, data: seq<byte>)
    requires chunks != [] && |chunks[0]| < TWO_32 && before + data == chunks[0]
    requires |later| >= |Print(chunks[1..])| && Right(q, later, [], chunks[1..], |later|)
    ensures Right(Later(q, |data| + 2, data), data + CRLF + later, before, chunks, |Line(|chunks[0]|)| + |chunks[0]| + 2 + |later|)
  {
    hide Print, Hex, At, Line;
    PrintFirst(chunks, []);
    assert before + (data + q.delivered) == chunks[0] + q.delivered;
    assert [] + q.delivered == q.delivered;
  }

  lemma ReadNothing(c: Chunk, max: nat, accept: Handler)
    requires Sound(c)
    ensures Read([], c, max, accept) == Pass(0, c, [], MoreData)
  {
  }

  lemma ReadPartOfCrlf(k: nat, max: nat, accept: Handler)
    requires k < 2
    ensures Read(CRLF[..k], BETWEEN, max, accept) == Pass(0, BETWEEN, [], MoreData)
  {
    if k == 1 {
      CrlfNotYet([], 1);
      assert [] + CRLF == CRLF;
    }
  }

  /** From the head of a size line. */
  lemma {:induction false} FromLine(chunks: seq<seq<byte>>, tail: seq<byte>, m: nat, max: nat, accept: Handler)
    requires Regular(chunks, max) && AcceptsAll(accept) && m <= |Stream(chunks, tail)|
    ensures var d := Stream(chunks, tail)[..m]; Right(Read(d, BETWEEN, max, accept), d, [], chunks, m)
    decreases |chunks|, 1
  {
    hide Print, Read, ReadData, Hex, Right, At, Join, Stream, FromGot, Line, Regular, AcceptsAll;
    if chunks == [] {
      LastLine(tail, m, max, accept);
    } else {
      FirstIsRegular(chunks, max);
      FirstLine(chunks, tail, m, max, accept);
      var n := |chunks[0]|;
      var l := |Line(n)|;
      var d := Stream(chunks, tail)[..m];
      if m >= l {
        FromData(chunks, tail, 0, m - l, max, accept);
        assert chunks[0][..0] == [];
        AfterLine(ReadData(d[l..], Chunk(n, 0), max, accept), d, l, chunks, m);
      } else {
        InLine(chunks, d, m);
      }
    }
  }

  lemma AfterLine(p: Pass, d: seq<byte>, l: nat, chunks: seq<seq<byte>>, m: nat)
    requires l <= |d| && Right(p, d[l..], [], chunks, m)
    ensures Right(Later(p, l, []), d, [], chunks, m)
  {
    hide At, Print, Join;
    if m < |Print(chunks)| {
      assert d[l..][p.used..] == d[l + p.used..];
    }
  }

  lemma InLine(chunks: seq<seq<byte>>, d: seq<byte>, m: nat)
    requires chunks != [] && |chunks[0]| < TWO_32 && m < |Line(|chunks[0]|)| && d == Line(|chunks[0]|)[..m]
    ensures Right(Pass(0, BETWEEN, [], MoreData), d, [], chunks, m)
  {
    hide At, Print, Hex;
    PrintFirst(chunks, []);
    AtFirst(chunks, m);
  }

  // ---- from any place, and over any reads ----

  /** The bytes from the line end of a chunk on. */
  lemma FromCrlf(chunks: seq<seq<byte>>, tail: seq<byte>, j: nat, max: nat, accept: Handler)
    requires chunks != [] && Regular(chunks, max) && AcceptsAll(accept)
    requires j <= |FromGot(chunks, tail, |chunks[0]|)|
    ensures var d := FromGot(chunks, tail, |chunks[0]|)[..j];
            Right(Read(d, BETWEEN, max, accept), d, chunks[0], chunks, |Line(|chunks[0]|)| + |chunks[0]| + j)
  {
    hide Print, Hex, At, Line, Right, Join, Read, Stream;
    FirstIsRegular(chunks, max);
    var later := Stream(chunks[1..], tail);
    var d := FromGot(chunks, tail, |chunks[0]|)[..j];
    TakeData([], later, j);
    assert chunks[0][|chunks[0]|..] == [];
    if j < 2 {
      assert d == CRLF[..j];
      ReadPartOfCrlf(j, max, accept);
      StopsBeforeLine(chunks, d);
    } else {
      var more := later[..j - 2];
      assert d == CRLF + more;
      FromLine(chunks[1..], tail, j - 2, max, accept);
      ReadsCrlf(more, max, accept);
      var q := Read(more, BETWEEN, max, accept);
      if j - 2 < |Print(chunks[1..])| {
        StopsInNext(q, more, chunks, chunks[0], []);
      } else {
        EndsInNext(q, more, chunks, chunks[0], []);
      }
    }
  }

  lemma StopsBeforeLine(chunks: seq<seq<byte>>, d: seq<byte>)
    requires chunks != [] && |chunks[0]| < TWO_32 && |d| < 2 && d == CRLF[..|d|]
    ensures Right(Pass(0, BETWEEN, [], MoreData), d, chunks[0], chunks, |Line(|chunks[0]|)| + |chunks[0]| + |d|)
  {
    hide Print, Hex, At, Line;
    PrintFirst(chunks, []);
    AtFirst(chunks, |Line(|chunks[0]|)| + |chunks[0]| + |d|);
  }

  lemma ReadsCrlf(later: seq<byte>, max: nat, accept: Handler)
    ensures Read(CRLF + later, BETWEEN, max, accept) == Later(Read(later, BETWEEN, max, accept), 2, [])
  {
    assert (CRLF + later)[2..] == later;
  }

  /** The number of bytes the sender prints, and the last place from which the final line end can still
      complete the body. */
  function Length(chunks: seq<seq<byte>>): nat {
    |Print(chunks)|
  }

  /** From the place after k bytes, on to m bytes: handing on is exact, and the body is completed if the
      final line end was not cut off from the last size line. If it was, the reader takes the line end for
      an empty line and reads on behind the body as if more chunks were to come. */
  ghost predicate Resumes(chunks: seq<seq<byte>>, tail: seq<byte>, k: nat, m: nat, max: nat, accept: Handler)
    requires k < Length(chunks) && k <= m <= |Stream(chunks, tail)|
  {
    var place := At(chunks, k);
    && Sound(place.chunk)
    && Continues(chunks, tail, place.pending + Stream(chunks, tail)[k..m], place, k, m, max, accept)
  }

  /** A read of the bytes `d`, which begin with what was pending. */
  ghost predicate Continues(chunks: seq<seq<byte>>, tail: seq<byte>, d: seq<byte>, place: Place, k: nat, m: nat, max: nat, accept: Handler)
    requires Sound(place.chunk) && m <= |Stream(chunks, tail)|
  {
    var pass := Read(d, place.chunk, max, accept);
    if m < Length(chunks) || k + 2 < Length(chunks) then Right(pass, d, place.delivered, chunks, m)
    else ReadsBehind(pass, d, place, Join(chunks), tail[..m - Length(chunks)], max, accept)
  }

  /** The whole body has been handed on, and the pass is that of the bytes behind it. */
  ghost predicate ReadsBehind(pass: Pass, d: seq<byte>, place: Place, body: seq<byte>, behind: seq<byte>, max: nat, accept: Handler) {
    && place.chunk == BETWEEN && place.delivered == body && d == CRLF + behind
    && pass == Later(Read(behind, BETWEEN, max, accept), 2, [])
  }

  lemma AtLast(k: nat)
    ensures Length([]) == 5 && LastChunk() == [48, CR, LF, CR, LF]
    ensures k < 5 ==> At([], k) == Place(if k < 3 then [48, CR, LF][..k] else CRLF[..k - 3], BETWEEN, [])
  {
    assert LastChunk() == [48, CR, LF, CR, LF];
  }

  lemma ResumeLast(tail: seq<byte>, k: nat, m: nat, max: nat, accept: Handler)
    requires k < Length([]) && k <= m <= |Stream([], tail)|
    ensures Resumes([], tail, k, m, max, accept)
  {
    AtLast(k);
    hide At, Length, LastChunk, Read, Right, Hex;
    var s := Stream([], tail);
    assert s == [48, CR, LF, CR, LF] + tail;
    var d := At([], k).pending + s[k..m];
    if k < 3 {
      assert d == s[..m];
      LastLine(tail, m, max, accept);
    } else if m < 5 {
      assert d == CRLF[..m - 3];
      ReadPartOfCrlf(m - 3, max, accept);
      AtLast(m);
      StopsInLast(d, m);
    } else {
      var behind := tail[..m - 5];
      assert CRLF[..k - 3] + [CR, LF][k - 3..] == CRLF;
      assert s[k..m] == [CR, LF][k - 3..] + behind;
      assert d == CRLF + behind;
      ReadsCrlf(behind, max, accept);
    }
  }

  lemma StopsInLast(d: seq<byte>, m: nat)
    requires 3 <= m < 5 && d == CRLF[..m - 3]
    ensures Right(Pass(0, BETWEEN, [], MoreData), d, [], [], m)
  {
    AtLast(m);
    hide At;
  }

  lemma PrintNotShort(chunks: seq<seq<byte>>)
    ensures |Print(chunks)| >= 5
  {
  }

  lemma SliceBehind(line: seq<byte>, rest: seq<byte>, k: nat, m: nat)
    requires k < |line| && k <= m <= |line + rest|
    ensures line[..k] + (line + rest)[k..m] == (line + rest)[..m]
  {
  }

  lemma SliceInside(line: seq<byte>, data: seq<byte>, rest: seq<byte>, k: nat, m: nat)
    requires |line| <= k < |line| + |data| && k <= m <= |line + (data + rest)|
    ensures (line + (data + rest))[k..m] == (data[k - |line|..] + rest)[..m - k]
  {
  }

  lemma SliceAtEnd(front: seq<byte>, end: seq<byte>, rest: seq<byte>, k: nat, m: nat)
    requires |front| <= k < |front| + |end| && k <= m <= |front + (end + rest)|
    ensures end[..k - |front|] + (front + (end + rest))[k..m] == (end + rest)[..m - |front|]
  {
  }

  /** The stream, its first chunk taken apart in three ways. */
  lemma StreamParts(chunks: seq<seq<byte>>, tail: seq<byte>)
    requires chunks != [] && |chunks[0]| < TWO_32
    ensures var s := Stream(chunks, tail); var line := Line(|chunks[0]|); var data := chunks[0]; var later := Stream(chunks[1..], tail);
            && s == line + FromGot(chunks, tail, 0)
            && s == line + (data + (CRLF + later))
            && s == line + data + (CRLF + later)
            && s == line + data + CRLF + later
            && (forall got: nat :: got <= |data| ==> FromGot(chunks, tail, got) == data[got..] + (CRLF + later))
            && FromGot(chunks, tail, |data|) == CRLF + later
            && Length(chunks) >= |line| + |data| + 7
  {
    hide Print, Line, Stream;
    StreamFirst(chunks, tail);
    PrintFirst(chunks, []);
    PrintNotShort(chunks[1..]);
    var line := Line(|chunks[0]|);
    var data := chunks[0];
    var later := Stream(chunks[1..], tail);
    assert data[0..] == data && data[|data|..] == [];
    assert [] + CRLF + later == CRLF + later;
    Associative(data, CRLF, later);
    Associative(line, data, CRLF + later);
    Associative(line + data, CRLF, later);
    forall got: nat | got <= |data| ensures FromGot(chunks, tail, got) == data[got..] + (CRLF + later) {
      Associative(data[got..], CRLF, later);
    }
  }

  /** Inside the first chunk of a list, or at its ends. */
  lemma ResumeInFirst(chunks: seq<seq<byte>>, tail: seq<byte>, k: nat, m: nat, max: nat, accept: Handler)
    requires chunks != [] && Regular(chunks, max) && AcceptsAll(accept)
    requires k < |Line(|chunks[0]|)| + |chunks[0]| + 2 && k <= m <= |Stream(chunks, tail)|
    ensures k < Length(chunks) && Resumes(chunks, tail, k, m, max, accept)
  {
    hide At, Print, Hex, Line, Read, Right, Join, ReadData, Stream, FromGot, Regular, AcceptsAll;
    FirstIsRegular(chunks, max);
    StreamParts(chunks, tail);
    AtFirst(chunks, k);
    var n := |chunks[0]|;
    var line := Line(n);
    var l := |line|;
    var later := Stream(chunks[1..], tail);
    if k < l {
      SliceBehind(line, FromGot(chunks, tail, 0), k, m);
      FromLine(chunks, tail, m, max, accept);
    } else if k < l + n {
      SliceInside(line, chunks[0], CRLF + later, k, m);
      var part := Stream(chunks, tail)[k..m];
      assert [] + part == part;
      FromData(chunks, tail, k - l, m - k, max, accept);
      InAChunk(part, Chunk(n, k - l), max, accept);
    } else {
      SliceAtEnd(line + chunks[0], CRLF, later, k, m);
      FromCrlf(chunks, tail, m - l - n, max, accept);
    }
  }

  lemma InAChunk(d: seq<byte>, c: Chunk, max: nat, accept: Handler)
    requires c.got < c.size <= max
    ensures Read(d, c, max, accept) == ReadData(d, c, max, accept)
  {
    hide StrToSize;
  }

  lemma ResumeShift(chunks: seq<seq<byte>>, tail: seq<byte>, k: nat, m: nat, max: nat, accept: Handler)
    requires chunks != [] && |chunks[0]| < TWO_32
    requires var p := |Line(|chunks[0]|)| + |chunks[0]| + 2;
             && p <= k < Length(chunks) && k <= m <= |Stream(chunks, tail)| && Length(chunks) == p + Length(chunks[1..])
             && m - p <= |Stream(chunks[1..], tail)|
             && Stream(chunks, tail)[k..m] == Stream(chunks[1..], tail)[k - p..m - p]
             && Resumes(chunks[1..], tail, k - p, m - p, max, accept)
    ensures Resumes(chunks, tail, k, m, max, accept)
  {
    hide At, Print, Hex, Line, Read, Stream;
    var p := |Line(|chunks[0]|)| + |chunks[0]| + 2;
    AtFirst(chunks, k);
    var place := At(chunks[1..], k - p);
    var pass := Read(place.pending + Stream(chunks, tail)[k..m], place.chunk, max, accept);
    assert chunks[0] + place.delivered + pass.delivered == chunks[0] + (place.delivered + pass.delivered);
    if m < Length(chunks) {
      AtFirst(chunks, m);
    }
  }

  lemma LengthFirst(chunks: seq<seq<byte>>)
    requires chunks != [] && |chunks[0]| < TWO_32
    ensures Length(chunks) == |Line(|chunks[0]|)| + |chunks[0]| + 2 + Length(chunks[1..])
  {
    hide Line;
    PrintFirst(chunks, []);
  }

  /** Wherever the last read ended, the next one continues rightly. */
  lemma {:induction false} Resume(chunks: seq<seq<byte>>, tail: seq<byte>, k: nat, m: nat, max: nat, accept: Handler)
    requires Regular(chunks, max) && AcceptsAll(accept)
    requires k < Length(chunks) && k <= m <= |Stream(chunks, tail)|
    ensures Resumes(chunks, tail, k, m, max, accept)
    decreases |chunks|
  {
    hide Resumes, Print, Line, Stream, Regular, AcceptsAll, Length, Hex;
    if chunks == [] {
      ResumeLast(tail, k, m, max, accept);
    } else {
      FirstIsRegular(chunks, max);
      var p := |Line(|chunks[0]|)| + |chunks[0]| + 2;
      if k < p {
        ResumeInFirst(chunks, tail, k, m, max, accept);
      } else {
        StreamParts(chunks, tail);
        LengthFirst(chunks);
        Resume(chunks[1..], tail, k - p, m - p, max, accept);
        ResumeShift(chunks, tail, k, m, max, accept);
      }
    }
  }
}
