/** The content receiver of src/http/co_http_content_receiver.c over a run of reads: what it hands on
    depends on the bytes, not on how they were cut up; and the object itself, with the fields it updates. */
module ContentReceiver {
  import opened Machine
  import opened Chunked

  type Reads = seq<seq<byte>>

  /** The receiver between two reads. */
  datatype Reader = Reader(pending: seq<byte>, chunk: Chunk, delivered: seq<byte>, outcome: Outcome)

  const START: Reader := Reader([], BETWEEN, [], MoreData)

  predicate Ready(r: Reader) {
    r.outcome == MoreData ==> Sound(r.chunk)
  }

  /** One read. After a body is complete the rest belongs to the next message. */
  function Feed(r: Reader, bytes: seq<byte>, max: nat, accept: Handler): (r': Reader)
    requires Ready(r)
    ensures Ready(r')
  {
    if r.outcome != MoreData || bytes == [] then r
    else
      var d := r.pending + bytes;
      var p := Read(d, r.chunk, max, accept);
      Reader(d[p.used..], p.chunk, r.delivered + p.delivered, p.outcome)
  }

  function FeedAll(r: Reader, cuts: Reads, max: nat, accept: Handler): (r': Reader)
    requires Ready(r)
    ensures Ready(r')
    decreases cuts
  {
    if cuts == [] then r else FeedAll(Feed(r, cuts[0], max, accept), cuts[1..], max, accept)
  }

  /** Where the last read ended that left the body, of n bytes, incomplete. */
  function LastCut(k: nat, cuts: Reads, n: nat): nat
    decreases cuts
  {
    if cuts == [] || k + |cuts[0]| >= n then k else LastCut(k + |cuts[0]|, cuts[1..], n)
  }

  /** The reads behind a body of n bytes: what is left of the one that brought its end, and all later ones. */
  function Behind(k: nat, cuts: Reads, n: nat): (r: Reads)
    requires k < n
    ensures r != [] <==> k + |Join(cuts)| >= n
    decreases cuts
  {
    if cuts == [] then []
    else if k + |cuts[0]| >= n then [cuts[0][n - k..]] + cuts[1..]
    else Behind(k + |cuts[0]|, cuts[1..], n)
  }

  function Standing(chunks: Reads, k: nat): Reader
    requires k < Length(chunks)
  {
    var p := At(chunks, k);
    Reader(p.pending, p.chunk, p.delivered, MoreData)
  }

  /** What must be so when the last cut inside the body was at `cut`, and `behind` are the reads behind it. */
  ghost predicate Past(r: Reader, chunks: Reads, cut: nat, behind: Reads, max: nat, accept: Handler)
    requires behind != []
  {
    if cut + 2 < Length(chunks) then r == Reader(behind[0], BETWEEN, Join(chunks), Complete)
    else r == FeedAll(Reader([], BETWEEN, Join(chunks), MoreData), behind, max, accept)
  }

  /** One read that ends inside the body, or brings its end. */
  lemma OneRead(chunks: Reads, tail: seq<byte>, k: nat, bytes: seq<byte>, max: nat, accept: Handler)
    requires Regular(chunks, max) && AcceptsAll(accept) && k < Length(chunks) && bytes != []
    requires k + |bytes| <= |Stream(chunks, tail)| && bytes == Stream(chunks, tail)[k..k + |bytes|]
    ensures Ready(Standing(chunks, k))
    ensures var r := Feed(Standing(chunks, k), bytes, max, accept); var n := Length(chunks); var m := k + |bytes|;
            if m < n then r == Standing(chunks, m)
            else Past(r, chunks, k, [bytes[n - k..]], max, accept)
  {
    hide Print, At, Read, Join, FeedAll;
    var m := k + |bytes|;
    Resume(chunks, tail, k, m, max, accept);
    var place := At(chunks, k);
    var d := place.pending + bytes;
    var n := Length(chunks);
    if m >= n {
      var p := Read(d, place.chunk, max, accept);
      assert Stream(chunks, tail)[n..] == tail;
      assert bytes[n - k..] == Stream(chunks, tail)[n..m] == tail[..m - n];
      if k + 2 < n {
        LeftOver(chunks, tail, k, bytes, d, p.used);
      } else {
        ReadOn(Standing(chunks, k), bytes, tail[..m - n], max, accept);
      }
    }
  }

  lemma ReadOn(r: Reader, bytes: seq<byte>, behind: seq<byte>, max: nat, accept: Handler)
    requires r.outcome == MoreData && r.chunk == BETWEEN && r.pending + bytes == CRLF + behind && bytes != []
    requires Read(CRLF + behind, BETWEEN, max, accept) == Later(Read(behind, BETWEEN, max, accept), 2, [])
    ensures Feed(r, bytes, max, accept) == FeedAll(Reader([], BETWEEN, r.delivered, MoreData), [behind], max, accept)
  {
    hide Read;
    var r0 := Reader([], BETWEEN, r.delivered, MoreData);
    var p := Read(behind, BETWEEN, max, accept);
    assert (CRLF + behind)[2 + p.used..] == behind[p.used..];
    assert r.delivered + ([] + p.delivered) == r.delivered + p.delivered;
    assert FeedAll(r0, [behind], max, accept) == Feed(r0, behind, max, accept);
    if behind == [] {
      ReadNothing(BETWEEN, max, accept);
    } else {
      assert [] + behind == behind;
    }
  }

  lemma LeftOver(chunks: Reads, tail: seq<byte>, k: nat, bytes: seq<byte>, d: seq<byte>, used: nat)
    requires var n := Length(chunks); var m := k + |bytes|;
             && k < n <= m <= |Stream(chunks, tail)| && bytes == Stream(chunks, tail)[k..m]
             && |bytes| <= |d| && d[|d| - |bytes|..] == bytes && used + (m - n) == |d|
    ensures d[used..] == bytes[Length(chunks) - k..]
  {
    hide Print;
  }

  lemma {:induction false} ReadsFrom(chunks: Reads, tail: seq<byte>, k: nat, cuts: Reads, max: nat, accept: Handler)
    requires Regular(chunks, max) && AcceptsAll(accept) && k < Length(chunks)
    requires k + |Join(cuts)| <= |Stream(chunks, tail)| && Join(cuts) == Stream(chunks, tail)[k..k + |Join(cuts)|]
    ensures Ready(Standing(chunks, k))
    ensures var r := FeedAll(Standing(chunks, k), cuts, max, accept); var n := Length(chunks);
            if k + |Join(cuts)| < n then r == Standing(chunks, k + |Join(cuts)|)
            else Past(r, chunks, LastCut(k, cuts, n), Behind(k, cuts, n), max, accept)
    decreases cuts
  {
    hide Print, Past, Standing, Feed, Regular, AcceptsAll, Join;
    StandingIsReady(chunks, tail, k, max, accept);
    if cuts == [] {
      JoinNothing();
    } else {
      var next := k + |cuts[0]|;
      var s := Stream(chunks, tail);
      SplitRead(s, k, cuts);
      var r1 := Feed(Standing(chunks, k), cuts[0], max, accept);
      if cuts[0] == [] {
        FeedNothing(Standing(chunks, k), max, accept);
        ReadsFrom(chunks, tail, k, cuts[1..], max, accept);
      } else {
        OneRead(chunks, tail, k, cuts[0], max, accept);
        if next < Length(chunks) {
          ReadsFrom(chunks, tail, next, cuts[1..], max, accept);
        } else {
          PastTheEnd(r1, chunks, k, cuts[0][Length(chunks) - k..], cuts[1..], max, accept);
        }
      }
    }
  }

  lemma JoinNothing()
    ensures Join([]) == []
  {
  }

  lemma SplitRead(s: seq<byte>, k: nat, cuts: Reads)
    requires cuts != [] && k + |Join(cuts)| <= |s| && Join(cuts) == s[k..k + |Join(cuts)|]
    ensures var next := k + |cuts[0]|;
            |Join(cuts)| == |cuts[0]| + |Join(cuts[1..])| && cuts[0] == s[k..next] && Join(cuts[1..]) == s[next..next + |Join(cuts[1..])|]
  {
    var all := Join(cuts);
    assert all == cuts[0] + Join(cuts[1..]);
    assert cuts[0] == all[..|cuts[0]|];
    assert Join(cuts[1..]) == all[|cuts[0]|..];
  }

  lemma StandingIsReady(chunks: Reads, tail: seq<byte>, k: nat, max: nat, accept: Handler)
    requires Regular(chunks, max) && AcceptsAll(accept) && k < Length(chunks)
    ensures Ready(Standing(chunks, k))
  {
    hide At, Print, Right;
    Resume(chunks, tail, k, k, max, accept);
  }

  lemma FeedNothing(r: Reader, max: nat, accept: Handler)
    requires Ready(r)
    ensures Feed(r, [], max, accept) == r
  {
  }

  lemma {:induction false} FeedsNoMore(r: Reader, cuts: Reads, max: nat, accept: Handler)
    requires r.outcome != MoreData || Join(cuts) == []
    requires Ready(r)
    ensures FeedAll(r, cuts, max, accept) == r
    decreases cuts
  {
    hide Read;
    if cuts != [] {
      FeedsNoMore(r, cuts[1..], max, accept);
    }
  }

  lemma PastTheEnd(r: Reader, chunks: Reads, cut: nat, first: seq<byte>, cuts: Reads, max: nat, accept: Handler)
    requires Ready(r) && Past(r, chunks, cut, [first], max, accept)
    ensures Past(FeedAll(r, cuts, max, accept), chunks, cut, [first] + cuts, max, accept)
  {
    hide Feed;
    if cut + 2 < Length(chunks) {
      FeedsNoMore(r, cuts, max, accept);
    } else {
      var r0 := Reader([], BETWEEN, Join(chunks), MoreData);
      assert FeedAll(r0, [first], max, accept) == Feed(r0, first, max, accept);
      assert ([first] + cuts)[1..] == cuts;
    }
  }

  lemma {:induction false} HandedOnIsPrefix(chunks: Reads, k: nat)
    requires k < Length(chunks)
    ensures At(chunks, k).delivered <= Join(chunks)
    decreases chunks
  {
    hide Print, Hex;
    if chunks != [] {
      var p := |Line(|chunks[0]| % TWO_32)| + |chunks[0]| + 2;
      assert |PrintChunk(chunks[0])| == p;
      PrintedLength(chunks);
      if k >= p {
        HandedOnIsPrefix(chunks[1..], k - p);
      }
    }
  }

  lemma PrintedLength(chunks: Reads)
    requires chunks != []
    ensures Length(chunks) == |PrintChunk(chunks[0])| + Length(chunks[1..])
  {
  }

  /** A printed body, cut into reads in any way, with any bytes of a next message behind it. While it is
      coming, what is handed on is a prefix of the payload, and depends on the bytes that came only. If no
      read ended between the end of the last size line and the final line end, the receiver stops complete,
      with exactly the payload handed on and just what followed the body in that read pending. If one did, it
      does not notice the end: it reads what follows as more chunks of the same body, to be handed on behind
      the payload. So at the read that brings the end, it stops there exactly in the first case. */
  lemma BodySurvivesReads(chunks: Reads, tail: seq<byte>, cuts: Reads, max: nat, accept: Handler)
    requires Regular(chunks, max) && AcceptsAll(accept) && Join(cuts) <= Stream(chunks, tail)
    ensures var n := Length(chunks); var m := |Join(cuts)|; var cut := LastCut(0, cuts, n);
            var r := FeedAll(START, cuts, max, accept);
            && 0 < n
            && (m < n ==> r.outcome == MoreData && r.delivered == At(chunks, m).delivered && r.delivered <= Join(chunks))
            && (m >= n ==> var behind := Behind(0, cuts, n);
                && (cut + 2 < n ==> r == Reader(behind[0], BETWEEN, Join(chunks), Complete))
                && (cut + 2 >= n ==> r == FeedAll(Reader([], BETWEEN, Join(chunks), MoreData), behind, max, accept))
                && (|behind| == 1 ==>
                    (r.outcome == Complete && r.delivered == Join(chunks) && r.pending == tail[..m - n] <==> cut + 2 < n)))
  {
    hide Print, Join, At, Regular, AcceptsAll, FeedAll, Behind;
    PrintNotShort(chunks);
    assert Stream(chunks, tail)[0..|Join(cuts)|] == Join(cuts);
    NothingYet(chunks);
    ReadsFrom(chunks, tail, 0, cuts, max, accept);
    var n := Length(chunks);
    if |Join(cuts)| < n {
      HandedOnIsPrefix(chunks, |Join(cuts)|);
    } else if |Behind(0, cuts, n)| == 1 {
      var m, behind := |Join(cuts)|, Behind(0, cuts, n);
      JoinBehind(0, cuts, n);
      assert Join(cuts)[n..] == Stream(chunks, tail)[n..m] == tail[..m - n];
      OnlyOneBehind(behind);
      assert behind == [tail[..m - n]];
      NotWhereItStopped(Join(chunks), tail[..m - n], max, accept);
    }
  }

  lemma {:induction false} JoinBehind(k: nat, cuts: Reads, n: nat)
    requires k < n <= k + |Join(cuts)|
    ensures Join(Behind(k, cuts, n)) == Join(cuts)[n - k..]
    decreases cuts
  {
    if k + |cuts[0]| >= n {
      assert ([cuts[0][n - k..]] + cuts[1..])[1..] == cuts[1..];
    } else {
      JoinBehind(k + |cuts[0]|, cuts[1..], n);
    }
  }

  lemma OnlyOneBehind(cuts: Reads)
    requires |cuts| == 1
    ensures Join(cuts) == cuts[0]
  {
    assert cuts[0] + [] == cuts[0];
  }

  /** A reader that completes another body has used up bytes for it. */
  lemma NotWhereItStopped(body: seq<byte>, behind: seq<byte>, max: nat, accept: Handler)
    ensures var r := FeedAll(Reader([], BETWEEN, body, MoreData), [behind], max, accept);
            r.outcome == Complete ==> r.pending != behind
  {
    hide Read, ReadData;
    var r0 := Reader([], BETWEEN, body, MoreData);
    assert FeedAll(r0, [behind], max, accept) == Feed(r0, behind, max, accept);
    assert [] + behind == behind;
    CompletesFurther(behind, max, accept);
  }

  lemma CompletesFurther(d: seq<byte>, max: nat, accept: Handler)
    ensures var p := Read(d, BETWEEN, max, accept); p.outcome == Complete ==> p.used > 0
  {
    hide ReadData, StrToSize, FindCrlf;
  }

  /** What that means: with no chunks at all, and the empty one's line end cut off, one chunk of the next
      message is handed on as a body. */
  lemma NextMessageTaken(max: nat, accept: Handler)
    requires max >= 1 && AcceptsAll(accept)
    ensures var cuts := [[48, CR, LF], [CR, LF, 49, CR, LF, 88, CR, LF]];
            var r := FeedAll(START, cuts, max, accept);
            && Join(cuts) == Print([]) + PrintChunk([88])
            && r == Reader([], BETWEEN, [88], MoreData)
  {
    var next: seq<byte> := [49, CR, LF, 88, CR, LF];
    var first: seq<byte> := [48, CR, LF];
    var cuts := [first, [CR, LF] + next];
    assert [CR, LF] + next == [CR, LF, 49, CR, LF, 88, CR, LF];
    assert Hex(1) == [49] && PrintChunk([88]) == next;
    assert Print([]) == [48, CR, LF, CR, LF];
    TwoReads(first, [CR, LF] + next, 5);
    BodySurvivesReads([], next, cuts, max, accept);
    assert Length([]) == 5 && ([CR, LF] + next)[2..] == next;
    ReadsOneChunk(next, max, accept);
  }

  lemma TwoReads(a: seq<byte>, b: seq<byte>, n: nat)
    requires |a| < n <= |a| + |b|
    ensures LastCut(0, [a, b], n) == |a| && Behind(0, [a, b], n) == [b[n - |a|..]] && Join([a, b]) == a + b
  {
    assert [a, b][1..] == [b] && [b][1..] == [];
    assert b + [] == b && Join([b]) == b + Join([]);
  }

  lemma ReadsOneChunk(next: seq<byte>, max: nat, accept: Handler)
    requires next == [49, CR, LF, 88, CR, LF] && max >= 1 && AcceptsAll(accept)
    ensures FeedAll(Reader([], BETWEEN, [], MoreData), [next], max, accept) == Reader([], BETWEEN, [88], MoreData)
  {
    hide Read, Feed, PrintChunk;
    var r0 := Reader([], BETWEEN, [], MoreData);
    assert FeedAll(r0, [next], max, accept) == Feed(r0, next, max, accept);
    OneChunkStanding();
    OneRead([[88]], [], 0, next, max, accept);
  }

  lemma OneChunkStanding()
    ensures Print([[88]]) == [49, CR, LF, 88, CR, LF, 48, CR, LF, CR, LF]
    ensures Standing([[88]], 0) == Reader([], BETWEEN, [], MoreData) && Standing([[88]], 6) == Reader([], BETWEEN, [88], MoreData)
  {
    assert Hex(1) == [49] && Hex(0) == [48];
    assert PrintChunk([88]) == [49, CR, LF, 88, CR, LF] && LastChunk() == [48, CR, LF, CR, LF];
    assert [[88]][1..] == [];
  }

  lemma NothingYet(chunks: Reads)
    ensures 0 < Length(chunks) && Standing(chunks, 0) == START
  {
    PrintNotShort(chunks);
  }

  lemma PrintOneByOne(before: Reads, data: seq<byte>, after: Reads)
    requires data == []
    ensures Print(before + [data] + after) == Print(before) + Print(after)
    decreases before
  {
    hide PrintChunk;
    if before == [] {
      assert [] + [data] + after == [data] + after && ([data] + after)[1..] == after;
    } else {
      var all := before + [data] + after;
      assert all[0] == before[0] && all[1..] == before[1..] + [data] + after;
      PrintOneByOne(before[1..], data, after);
    }
  }

  /** An empty chunk ends the body for the reader wherever the sender prints it: what comes after it is
      taken for a next message. */
  lemma EmptyChunkEnds(before: Reads, after: Reads, max: nat, accept: Handler)
    requires Regular(before, max) && AcceptsAll(accept)
    ensures var all := before + [[]] + after; var r := Feed(START, Print(all), max, accept);
            && r.outcome == Complete && r.delivered == Join(before) && r.pending == Print(after)
  {
    hide Print, Join, At, Regular, AcceptsAll;
    var all := before + [[]] + after;
    PrintOneByOne(before, [], after);
    PrintNotShort(before);
    PrintNotShort(after);
    NothingYet(before);
    var s := Print(before) + Print(after);
    assert s[0..|s|] == s;
    OneRead(before, Print(after), 0, s, max, accept);
    Resume(before, Print(after), 0, |s|, max, accept);
  }

  // ---- a body with a known length ----

  datatype PlainReader = PlainReader(pending: seq<byte>, got: nat, delivered: seq<byte>, outcome: Outcome)

  /** One call on the unread bytes d of a body of `size` bytes, `got` of them seen. */
  function ReadPlain(d: seq<byte>, size: nat, got: nat, accept: Handler): Pass {
    var n := Min(|d|, if got < size then size - got else 0);
    if n > 0 && !accept(d[..n]) then Pass(0, BETWEEN, [], Cancelled)
    else Pass(n, BETWEEN, d[..n], if size <= got + n then Complete else MoreData)
  }

  function FeedPlain(r: PlainReader, bytes: seq<byte>, size: nat, accept: Handler): PlainReader {
    if r.outcome != MoreData || bytes == [] then r
    else
      var d := r.pending + bytes;
      var p := ReadPlain(d, size, r.got, accept);
      PlainReader(d[p.used..], r.got + p.used, r.delivered + p.delivered, p.outcome)
  }

  function FeedPlainAll(r: PlainReader, cuts: Reads, size: nat, accept: Handler): PlainReader
    decreases cuts
  {
    if cuts == [] then r else FeedPlainAll(FeedPlain(r, cuts[0], size, accept), cuts[1..], size, accept)
  }

  lemma {:induction false} PlainDone(r: PlainReader, cuts: Reads, size: nat, accept: Handler)
    requires r.outcome != MoreData
    ensures FeedPlainAll(r, cuts, size, accept) == r
    decreases cuts
  {
    if cuts != [] {
      PlainDone(r, cuts[1..], size, accept);
    }
  }

  /** What must be so when all of `all` has come. */
  predicate PlainRight(r: PlainReader, all: seq<byte>, size: nat) {
    var n := Min(|all|, size);
    && r.delivered == all[..n] && r.got == n && r.pending <= all[n..]
    && r.outcome == if |all| >= size then Complete else MoreData
  }

  lemma PlainInside(before: seq<byte>, bytes: seq<byte>, size: nat, accept: Handler)
    requires AcceptsAll(accept) && |before + bytes| < size
    ensures FeedPlain(PlainReader([], |before|, before, MoreData), bytes, size, accept)
            == PlainReader([], |before + bytes|, before + bytes, MoreData)
  {
    assert [] + bytes == bytes && bytes[..|bytes|] == bytes && bytes[|bytes|..] == [];
    if bytes == [] {
      assert before + bytes == before;
    }
  }

  lemma PlainCrosses(before: seq<byte>, bytes: seq<byte>, later: seq<byte>, size: nat, accept: Handler)
    requires AcceptsAll(accept) && |before| < size <= |before + bytes|
    ensures PlainRight(FeedPlain(PlainReader([], |before|, before, MoreData), bytes, size, accept), before + bytes + later, size)
  {
    var n := size - |before|;
    var all := before + bytes + later;
    assert [] + bytes == bytes;
    assert before + bytes[..n] == all[..size];
    assert bytes[n..] == all[size..][..|bytes| - n];
  }

  lemma {:induction false} PlainReads(before: seq<byte>, cuts: Reads, size: nat, accept: Handler)
    requires AcceptsAll(accept) && |before| < size
    ensures PlainRight(FeedPlainAll(PlainReader([], |before|, before, MoreData), cuts, size, accept), before + Join(cuts), size)
    decreases cuts
  {
    hide FeedPlain, AcceptsAll, PlainRight;
    if cuts == [] {
      assert before + Join(cuts) == before;
      PlainNothing(before, size);
    } else {
      var next := before + cuts[0];
      assert next + Join(cuts[1..]) == before + Join(cuts);
      if |next| < size {
        PlainInside(before, cuts[0], size, accept);
        PlainReads(next, cuts[1..], size, accept);
      } else {
        PlainCrosses(before, cuts[0], Join(cuts[1..]), size, accept);
        PlainStops(FeedPlain(PlainReader([], |before|, before, MoreData), cuts[0], size, accept), next + Join(cuts[1..]), cuts[1..], size, accept);
      }
    }
  }

  lemma PlainNothing(before: seq<byte>, size: nat)
    requires |before| < size
    ensures PlainRight(PlainReader([], |before|, before, MoreData), before, size)
  {
    assert before[..|before|] == before;
  }

  lemma PlainStops(r: PlainReader, all: seq<byte>, cuts: Reads, size: nat, accept: Handler)
    requires |all| >= size && PlainRight(r, all, size)
    ensures FeedPlainAll(r, cuts, size, accept) == r
  {
    PlainDone(r, cuts, size, accept);
  }

  /** A body of a known length, over any reads: exactly its first bytes, as many as have come and belong
      to it, have been handed on; it is complete exactly when all have; and the rest is left alone. */
  lemma PlainBodySurvivesReads(cuts: Reads, size: nat, accept: Handler)
    requires AcceptsAll(accept) && size > 0
    ensures var all := Join(cuts); var r := FeedPlainAll(PlainReader([], 0, [], MoreData), cuts, size, accept);
            && r.delivered == all[..Min(|all|, size)]
            && (r.outcome == Complete <==> |all| >= size) && (r.outcome == MoreData <==> |all| < size)
            && r.pending <= all[Min(|all|, size)..]
  {
    assert [] + Join(cuts) == Join(cuts);
    PlainReads([], cuts, size, accept);
  }

  // ---- the object ----

  /** `data` collects what is handed on; `maxContentSize` is the configured limit. */
  class Receiver {
    var index: nat
    var chunked: bool
    var chunkSize: nat
    var chunkReceiveSize: nat
    var size: nat
    var receiveSize: nat
    var data: seq<byte>

    ghost predicate Valid()
      reads this
    {
      Sound(Chunk(chunkSize, chunkReceiveSize))
    }

    constructor ()
      ensures Valid() && index == 0 && !chunked && size == receiveSize == 0 && data == []
      ensures Chunk(chunkSize, chunkReceiveSize) == BETWEEN
    {
      index, chunked, chunkSize, chunkReceiveSize, size, receiveSize, data := 0, false, 0, 0, 0, 0, [];
    }

    ghost function Now(outcome: Outcome): Result
      reads this
    {
      Result(index, Chunk(chunkSize, chunkReceiveSize), data, outcome)
    }

    /** The reader of a chunked body. */
    method ReceiveChunked(receiveData: ByteArray, max: nat, accept: Handler) returns (outcome: Outcome)
      requires Valid() && index <= |receiveData.bytes|
      modifies this
      ensures Now(outcome) == Final(Read(old(receiveData.bytes[index..]), old(Chunk(chunkSize, chunkReceiveSize)), max, accept),
                                    old(index), old(data))
      ensures receiveSize - |data| == old(receiveSize) - |old(data)|
      ensures outcome == MoreData || outcome == Complete ==> Valid() && index <= |receiveData.bytes|
    {
      hide Read, ReadData, Final, StrToSize, FindCrlf;
      var d := receiveData.bytes;
      FinalStops(index, data);
      ghost var goal := Final(Read(d[index..], Chunk(chunkSize, chunkReceiveSize), max, accept), index, data);
      while |d| - index > 0
        invariant index <= |d| && Valid() && receiveSize - |data| == old(receiveSize) - |old(data)|
        invariant goal == Final(Read(d[index..], Chunk(chunkSize, chunkReceiveSize), max, accept), index, data)
        decreases |d| - index
      {
        ghost var left := d[index..];
        FinalStops(index, data);
        if chunkSize == 0 {
          ReadsLine(left, max, accept);
          var newLine := FindCrlf(d[index..]);
          if newLine.None? {
            return MoreData;
          }
          var digits := newLine.value;
          if digits > MAX_DIGITS {
            return Error;
          }
          if digits > 0 {
            chunkSize := StrToSize(d[index..]);
            if chunkSize > max {
              return TooBig;
            }
          }
          FinalLater(left[digits + 2..], digits + 2, [], index, data, Chunk(chunkSize, 0), max, accept);
          assert left[digits + 2..] == d[index + digits + 2..];
          assert data + [] == data;
          index := index + digits + 2;
          if digits == 0 {
            continue;
          }
        } else {
          ReadsOn(left, Chunk(chunkSize, chunkReceiveSize), max, accept);
        }
        var done := false;
        done, outcome := ReceivePiece(d, max, accept);
        if done {
          return;
        }
      }
      assert d[index..] == [];
      FinalStops(index, data);
      ReadNothing(Chunk(chunkSize, chunkReceiveSize), max, accept);
      outcome := MoreData;
    }

    /** How much of what is there belongs to the chunk, and the chunk's state after it. */
    method Advance(available: nat, max: nat) returns (contentSize: nat, tooBig: bool)
      requires Valid()
      modifies this`chunkSize, this`chunkReceiveSize
      ensures contentSize == Min(available, old(chunkSize - chunkReceiveSize)) && tooBig == (old(chunkReceiveSize) + contentSize > max)
      ensures !tooBig ==> Valid()
      ensures Chunk(chunkSize, chunkReceiveSize)
              == if !tooBig && old(chunkSize) <= old(chunkReceiveSize) + contentSize then BETWEEN
                 else Chunk(old(chunkSize), old(chunkReceiveSize) + contentSize)
    {
      contentSize := 0;
      if chunkSize > chunkReceiveSize {
        contentSize := chunkSize - chunkReceiveSize;
      }
      if available < contentSize {
        contentSize := available;
      }
      chunkReceiveSize := chunkReceiveSize + contentSize;
      tooBig := chunkReceiveSize > max;
      if !tooBig && chunkSize <= chunkReceiveSize {
        chunkSize := 0;
        chunkReceiveSize := 0;
      }
    }

    /** The loop's body once it is known which chunk is read. */
    method ReceivePiece(d: seq<byte>, max: nat, accept: Handler) returns (done: bool, outcome: Outcome)
      requires Valid() && index <= |d|
      modifies this
      ensures var goal := Final(ReadData(old(d[index..]), old(Chunk(chunkSize, chunkReceiveSize)), max, accept), old(index), old(data));
              if done then Now(outcome) == goal
              else Valid() && old(index) <= index <= |d|
                   && goal == Final(Read(d[index..], Chunk(chunkSize, chunkReceiveSize), max, accept), index, data)
                   && (old(index) < |d| && old(chunkSize) != 0 ==> old(index) < index)
      ensures receiveSize - |data| == old(receiveSize) - |old(data)|
      ensures done && outcome == Complete ==> Valid() && index <= |d|
      ensures done ==> outcome != MoreData
    {
      hide Read, ReadData, Final;
      ghost var left := d[index..];
      PieceSteps(left, Chunk(chunkSize, chunkReceiveSize), index, data, max, accept);
      var contentSize, tooBig := Advance(|d| - index, max);
      if tooBig {
        return true, TooBig;
      }
      if contentSize > 0 {
        var piece := d[index..index + contentSize];
        assert piece == left[..contentSize];
        if !accept(piece) {
          return true, Cancelled;
        }
        data := data + piece;
        receiveSize := receiveSize + contentSize;
        index := index + contentSize;
      }
      if chunkSize == 0 {
        if |d| - index >= 2 {
          index := index + 2;
          if contentSize == 0 {
            return true, Complete;
          }
        }
      }
      assert left[index - old(index)..] == d[index..];
      done, outcome := false, MoreData;
    }

    /** The reader of a body with a known length. */
    method ReceivePlain(receiveData: ByteArray, accept: Handler) returns (outcome: Outcome)
      requires index <= |receiveData.bytes|
      modifies this`index, this`receiveSize, this`data
      ensures var p := ReadPlain(old(receiveData.bytes[index..]), size, old(receiveSize), accept);
              && outcome == p.outcome && index == old(index) + p.used
              && receiveSize == old(receiveSize) + p.used && data == old(data) + p.delivered
    {
      var d := receiveData.bytes;
      if size > 0 {
        var available := |d| - index;
        var contentSize := if receiveSize < size then size - receiveSize else 0;
        if available < contentSize {
          contentSize := available;
        }
        if contentSize > 0 {
          var piece := d[index..index + contentSize];
          assert piece == d[index..][..contentSize];
          if !accept(piece) {
            return Cancelled;
          }
          data := data + piece;
          receiveSize := receiveSize + contentSize;
          index := index + contentSize;
        }
      }
      outcome := if size <= receiveSize then Complete else MoreData;
    }

    /** After a call that wants more data: a buffer that has been used up is cleared. */
    method MoreDataNext(receiveData: ByteArray) returns (next: nat)
      requires index <= |receiveData.bytes|
      modifies this`index, receiveData
      ensures next == index <= |receiveData.bytes| && receiveData.bytes[index..] == old(receiveData.bytes[index..])
      ensures old(receiveData.bytes[index..]) == [] ==> index == 0 && receiveData.bytes == []
    {
      if index == |receiveData.bytes| {
        index := 0;
        next := 0;
        receiveData.Clear();
      } else {
        next := index;
      }
    }
  }

  /** The fields after a call, and what it returned. */
  datatype Result = Result(index: nat, chunk: Chunk, data: seq<byte>, outcome: Outcome)

  function Final(p: Pass, index: nat, data: seq<byte>): Result {
    Result(index + p.used, p.chunk, data + p.delivered, p.outcome)
  }

  /** The loop's head unfolded, between chunks. */
  lemma ReadsLine(d: seq<byte>, max: nat, accept: Handler)
    requires d != []
    ensures var p := Read(d, BETWEEN, max, accept);
            match FindCrlf(d)
            case None => p == Pass(0, BETWEEN, [], MoreData)
            case Some(digits) =>
              if digits > MAX_DIGITS then p == Pass(0, BETWEEN, [], Error)
              else if digits == 0 then p == Later(Read(d[2..], BETWEEN, max, accept), 2, [])
              else if StrToSize(d) > max then p == Pass(0, Chunk(StrToSize(d), 0), [], TooBig)
              else p == Later(ReadData(d[digits + 2..], Chunk(StrToSize(d), 0), max, accept), digits + 2, [])
  {
    hide StrToSize, FindCrlf, ReadData;
  }

  lemma ReadsOn(d: seq<byte>, c: Chunk, max: nat, accept: Handler)
    requires d != [] && Sound(c) && c.size != 0
    ensures Read(d, c, max, accept) == ReadData(d, c, max, accept)
  {
    hide StrToSize, FindCrlf;
  }

  lemma FinalLater(d: seq<byte>, used: nat, delivered: seq<byte>, index: nat, data: seq<byte>, c: Chunk, max: nat, accept: Handler)
    requires Sound(c)
    ensures Final(Later(ReadData(d, c, max, accept), used, delivered), index, data)
            == Final(ReadData(d, c, max, accept), index + used, data + delivered)
    ensures Final(Later(Read(d, c, max, accept), used, delivered), index, data)
            == Final(Read(d, c, max, accept), index + used, data + delivered)
  {
    hide Read, ReadData;
    var p := ReadData(d, c, max, accept);
    assert data + (delivered + p.delivered) == data + delivered + p.delivered;
    var q := Read(d, c, max, accept);
    assert data + (delivered + q.delivered) == data + delivered + q.delivered;
  }

  lemma FinalThen(d: seq<byte>, used: nat, delivered: seq<byte>, index: nat, data: seq<byte>, c: Chunk, max: nat, accept: Handler)
    requires Sound(c)
    ensures Final(Later(Read(d, c, max, accept), used, delivered), index, data)
            == Final(Read(d, c, max, accept), index + used, data + delivered)
  {
    FinalLater(d, used, delivered, index, data, c, max, accept);
  }

  /** What the loop's body comes to in each of its cases. */
  lemma PieceSteps(left: seq<byte>, c: Chunk, index: nat, data: seq<byte>, max: nat, accept: Handler)
    requires Sound(c)
    ensures var goal := Final(ReadData(left, c, max, accept), index, data);
            var n := Min(|left|, c.size - c.got);
            var c1 := if c.size <= c.got + n then BETWEEN else Chunk(c.size, c.got + n);
            var more := if c1.size == 0 && |left| - n >= 2 then n + 2 else n;
            && Sound(c1)
            && (if c.got + n > max then goal == Result(index, c.(got := c.got + n), data, TooBig)
                else if n > 0 && !accept(left[..n]) then goal == Result(index, c1, data, Cancelled)
                else if n == 0 && more == 2 then goal == Result(index + 2, c1, data, Complete)
                else goal == Final(Read(left[more..], c1, max, accept), index + more, if n == 0 then data else data + left[..n]))
  {
    hide Read, Final;
    var n := Min(|left|, c.size - c.got);
    var c1 := if c.size <= c.got + n then BETWEEN else Chunk(c.size, c.got + n);
    var more := if c1.size == 0 && |left| - n >= 2 then n + 2 else n;
    FinalThen(left[more..], more, left[..n], index, data, c1, max, accept);
    FinalStops(index, data);
    if n == 0 {
      assert data + left[..n] == data && left[0..] == left;
      if more == 0 {
        StaysPut(left, c1, max, accept);
      }
    }
  }

  lemma FinalStops(index: nat, data: seq<byte>)
    ensures forall c: Chunk, outcome: Outcome, used: nat ::
              Final(Pass(used, c, [], outcome), index, data) == Result(index + used, c, data, outcome)
  {
    assert data + [] == data;
  }

  /** With nothing taken and fewer than two bytes left between chunks, the loop gives up. */
  lemma StaysPut(d: seq<byte>, c: Chunk, max: nat, accept: Handler)
    requires Sound(c) && (d == [] || (c == BETWEEN && |d| == 1))
    ensures Read(d, c, max, accept) == Pass(0, c, [], MoreData)
  {
    if d != [] {
      assert FindCrlf(d[1..]) == None;
    }
  }
}
