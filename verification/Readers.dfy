/** Taking messages off a connection (pkg/btorrent/peer/message.go, UnmarshallMessage). A connection delivers
    its bytes in chunks, and one Read gives no more than the chunk at hand. The body of a frame is read in a
    loop, so that it may be spread over any number of chunks; the header is read only once. */
module Readers {
  import opened Basics
  import opened Numbers
  import opened Wire

  // ----- chunks -----

  function Flat(chunks: seq<Bytes>): Bytes
  {
    if chunks == [] then [] else chunks[0] + Flat(chunks[1..])
  }

  /** The chunks without their first n bytes. */
  function Drop(chunks: seq<Bytes>, n: nat): seq<Bytes>
  {
    if n == 0 || chunks == [] then chunks
    else if |chunks[0]| <= n then Drop(chunks[1..], n - |chunks[0]|)
    else [chunks[0][n..]] + chunks[1..]
  }

  /** The chunks after a Read into a buffer of `max` bytes. */
  function AfterRead(chunks: seq<Bytes>, max: nat): seq<Bytes>
    requires chunks != []
  {
    if |chunks[0]| <= max then chunks[1..] else [chunks[0][max..]] + chunks[1..]
  }

  predicate NonEmpty(chunks: seq<Bytes>)
  {
    chunks != [] ==> chunks[0] != [] && NonEmpty(chunks[1..])
  }

  lemma {:induction false} DropFlat(chunks: seq<Bytes>, n: nat)
    ensures Flat(Drop(chunks, n)) == if n <= |Flat(chunks)| then Flat(chunks)[n..] else []
    ensures NonEmpty(chunks) ==> NonEmpty(Drop(chunks, n))
  {
    if n != 0 && chunks != [] {
      if |chunks[0]| <= n {
        DropFlat(chunks[1..], n - |chunks[0]|);
      } else {
        var rest := [chunks[0][n..]] + chunks[1..];
        assert rest[1..] == chunks[1..] && rest[0] == chunks[0][n..];
      }
    }
  }

  lemma {:induction false} DropDrop(chunks: seq<Bytes>, n: nat, k: nat)
    ensures Drop(Drop(chunks, n), k) == Drop(chunks, n + k)
  {
    if n != 0 && k != 0 && chunks != [] {
      if |chunks[0]| <= n {
        DropDrop(chunks[1..], n - |chunks[0]|, k);
      } else {
        var rest := [chunks[0][n..]] + chunks[1..];
        assert rest[1..] == chunks[1..] && rest[0] == chunks[0][n..];
        if |chunks[0]| > n + k {
          assert rest[0][k..] == chunks[0][n + k..];
        }
      }
    }
  }

  lemma {:induction false} ReadFlat(chunks: seq<Bytes>, max: nat)
    requires chunks != []
    ensures var n := Min(max, |chunks[0]|);
            n <= |Flat(chunks)| && Flat(chunks)[..n] == chunks[0][..n]
            && Flat(AfterRead(chunks, max)) == Flat(chunks)[n..]
    ensures max > 0 && chunks[0] != [] ==> AfterRead(chunks, max) == Drop(chunks, Min(max, |chunks[0]|))
    ensures NonEmpty(chunks) ==> NonEmpty(AfterRead(chunks, max))
  {
    var n := Min(max, |chunks[0]|);
    if |chunks[0]| > max {
      var rest := AfterRead(chunks, max);
      assert rest[1..] == chunks[1..] && rest[0] == chunks[0][max..];
    }
  }

  // ----- one message -----

  function Receive(chunks: seq<Bytes>): (r: (Result, seq<Bytes>))
    ensures r.0 != Eof ==> |Flat(r.1)| < |Flat(chunks)|
  {
    if chunks == [] then (Eof, [])
    else if chunks[0] == [] then (Eof, chunks[1..])
    else
      ReadFlat(chunks, 4);
      var h := Min(4, |chunks[0]|);
      ReceiveBody(ReadU32(Header(chunks[0][..h])), AfterRead(chunks, 4))
  }

  /** What follows the header, however it is cut into chunks. */
  function ReceiveBody(n: nat, rest: seq<Bytes>): (r: (Result, seq<Bytes>))
    ensures |Flat(r.1)| <= |Flat(rest)|
    ensures r.0 != Eof
  {
    DropFlat(rest, if n > MAX_FRAME then 0 else n);
    (DecodeBody(n, Flat(rest)).0, Drop(rest, if n > MAX_FRAME then 0 else n))
  }

  /** Messages until something else comes, and what came. */
  function ReceiveAll(chunks: seq<Bytes>): (seq<Message>, Result)
    decreases |Flat(chunks)|
  {
    match Receive(chunks)
    case (Got(m), rest) => var (ms, end) := ReceiveAll(rest); ([m] + ms, end)
    case (end, _) => ([], end)
  }

  class Reader {
    var chunks: seq<Bytes>

    constructor (chunks: seq<Bytes>)
      ensures this.chunks == chunks
    {
      this.chunks := chunks;
    }

    /** Read into buf[k..]. */
    method Read(buf: array<byte>, k: nat) returns (n: nat, eof: bool)
      requires k < buf.Length
      modifies this, buf
      ensures eof == (old(chunks) == [])
      ensures if eof then n == 0 && chunks == [] && buf[..] == old(buf[..])
              else n == Min(buf.Length - k, |old(chunks)[0]|) && chunks == AfterRead(old(chunks), buf.Length - k)
                   && buf[..] == old(buf[..])[..k] + old(chunks)[0][..n] + old(buf[..])[k + n..]
    {
      if chunks == [] {
        return 0, true;
      }
      var chunk, was := chunks[0], buf[..];
      n := Min(buf.Length - k, |chunk|);
      for i := 0 to n
        modifies buf
        invariant buf[..] == was[..k] + chunk[..i] + was[k + i..]
      {
        buf[k + i] := chunk[i];
      }
      chunks := AfterRead(chunks, buf.Length - k);
      return n, false;
    }

    method UnmarshallMessage() returns (r: Result)
      modifies this
      ensures (r, chunks) == Receive(old(chunks))
    {
      var n, messageLength := ReadHeader();
      if n == 0 {
        return Eof;
      }
      if messageLength == 0 {
        return Got(KeepAlive);
      }
      if messageLength > MAX_FRAME {
        return TooLong;
      }
      var buf := new byte[messageLength](_ => 0);
      var complete := ReadBody(buf);
      if !complete {
        return Truncated;
      }
      assert buf[..][1..] == buf[1..];
      return Parse(buf[0], buf[1..]);
    }

    /** The single Read of the header, at the start of UnmarshallMessage. */
    method ReadHeader() returns (n: nat, messageLength: uint32)
      modifies this
      ensures old(chunks) == [] ==> n == 0 && chunks == []
      ensures old(chunks) != [] ==> n == Min(4, |old(chunks)[0]|) && chunks == AfterRead(old(chunks), 4)
                                    && messageLength == ReadU32(Header(old(chunks)[0][..n]))
    {
      var header := new byte[4](_ => 0);
      ghost var was := chunks;
      var eof;
      n, eof := Read(header, 0);
      if was != [] {
        assert header[..] == Header(was[0][..n]);
      }
      messageLength := ReadU32(header[..]);
    }

    /** The loop of UnmarshallMessage that fills the buffer. */
    method ReadBody(buf: array<byte>) returns (complete: bool)
      requires buf.Length > 0
      modifies this, buf
      ensures complete <==> buf.Length <= |Flat(old(chunks))|
      ensures complete ==> buf[..] == Flat(old(chunks))[..buf.Length]
      ensures chunks == Drop(old(chunks), buf.Length)
    {
      var k := 0;
      ghost var body := chunks;
      while true
        invariant k < buf.Length && k <= |Flat(body)|
        invariant buf[..k] == Flat(body)[..k]
        invariant Flat(chunks) == Flat(body)[k..]
        invariant Drop(chunks, buf.Length - k) == Drop(body, buf.Length)
        decreases buf.Length - k, |chunks|
      {
        ghost var before, was := chunks, buf[..];
        var n, eof := Read(buf, k);
        if eof {
          return false;
        }
        DropAfter(before, buf.Length - k);
        FillStep(Flat(body), before, was[..k], was[k + n..], buf.Length - k);
        k := k + n;
        if k == buf.Length {
          break;
        }
      }
      assert buf[..k] == buf[..];
      return true;
    }
  }

  /** One Read of the loop: the filled part of the buffer grows by what the stream loses. */
  lemma {:induction false} FillStep(flat: Bytes, before: seq<Bytes>, head: Bytes, tail: Bytes, max: nat)
    requires |head| <= |flat| && head == flat[..|head|] && max > 0
    requires before != [] && Flat(before) == flat[|head|..]
    ensures var n, after := Min(max, |before[0]|), AfterRead(before, max);
            |head| + n <= |flat| && (head + before[0][..n] + tail)[..|head| + n] == flat[..|head| + n]
            && Flat(after) == flat[|head| + n..]
  {
    var part := before[0][..Min(max, |before[0]|)];
    ReadFlat(before, max);
    Glue(flat, Flat(before), head, part, tail);
  }

  lemma {:induction false} Glue(flat: Bytes, left: Bytes, head: Bytes, part: Bytes, tail: Bytes)
    requires |head| <= |flat| && head == flat[..|head|] && left == flat[|head|..]
    requires |part| <= |left| && part == left[..|part|]
    ensures (head + part + tail)[..|head| + |part|] == flat[..|head| + |part|]
    ensures left[|part|..] == flat[|head| + |part|..]
  {
    assert part == flat[|head|..|head| + |part|];
    assert (head + part + tail)[..|head| + |part|] == head + part;
  }

  lemma {:induction false} DropAfter(chunks: seq<Bytes>, max: nat)
    requires chunks != [] && max > 0
    ensures Drop(AfterRead(chunks, max), max - Min(max, |chunks[0]|)) == Drop(chunks, max)
  {
  }

  // ----- which chunkings are harmless -----

  /** Every message's four header bytes lie in one chunk, so that the single Read of the header gets them all. */
  predicate HeadersWhole(chunks: seq<Bytes>, ms: seq<Message>, overhead: nat)
    decreases |ms|
  {
    ms == [] || (chunks != [] && |chunks[0]| >= 4
                 && HeadersWhole(Drop(chunks, |Encode(ms[0], overhead)|), ms[1..], overhead))
  }

  /** A whole header: chunks make no difference. */
  lemma {:induction false} WholeHeader(chunks: seq<Bytes>)
    requires chunks != [] && |chunks[0]| >= 4
    ensures Receive(chunks).0 == Decode(Flat(chunks)).0
    ensures Decode(Flat(chunks)).0.Got? ==> Flat(Receive(chunks).1) == Decode(Flat(chunks)).1
  {
    ReadFlat(chunks, 4);
    var n, rest := ReadU32(Header(chunks[0][..4])), AfterRead(chunks, 4);
    if DecodeBody(n, Flat(rest)).0.Got? {
      BodyConsumes(n, Flat(rest));
      DropFlat(rest, n);
    }
  }

  lemma {:induction false} BodyConsumes(n: nat, s: Bytes)
    requires DecodeBody(n, s).0.Got?
    ensures n <= MAX_FRAME && n <= |s| && DecodeBody(n, s).1 == s[n..]
  {
  }

  lemma {:induction false} HeaderRead(chunks: seq<Bytes>, n: nat, rest: Bytes)
    requires chunks != [] && |chunks[0]| >= 4 && Flat(chunks) == U32(n) + rest
    ensures ReadU32(Header(chunks[0][..4])) == n % 0x1_0000_0000
    ensures AfterRead(chunks, 4) == Drop(chunks, 4) && Flat(AfterRead(chunks, 4)) == rest
  {
    ReadFlat(chunks, 4);
    assert Flat(chunks)[..4] == U32(n) && Flat(chunks)[4..] == rest;
    ReadWritten(n);
    assert Header(chunks[0][..4]) == U32(n);
  }

  lemma {:induction false} ReceiveIs(chunks: seq<Bytes>)
    requires chunks != [] && |chunks[0]| >= 4
    ensures Receive(chunks) == ReceiveBody(ReadU32(Header(chunks[0][..4])), AfterRead(chunks, 4))
  {
  }

  lemma {:induction false} BodyFrame(n: nat, parts: seq<Bytes>, rest: Bytes)
    requires Flat(parts) == rest && n <= MAX_FRAME
    ensures ReceiveBody(n, parts) == (DecodeBody(n, rest).0, Drop(parts, n))
  {
  }

  lemma {:induction false} ReceiveRead(chunks: seq<Bytes>, n: nat, rest: Bytes)
    requires chunks != [] && |chunks[0]| >= 4 && n <= MAX_FRAME
    requires ReadU32(Header(chunks[0][..4])) == n && AfterRead(chunks, 4) == Drop(chunks, 4)
             && Flat(Drop(chunks, 4)) == rest
    ensures Receive(chunks) == (DecodeBody(n, rest).0, Drop(chunks, 4 + n))
  {
    ReceiveIs(chunks);
    BodyFrame(n, Drop(chunks, 4), rest);
    DropDrop(chunks, 4, n);
  }

  lemma {:induction false} ReceiveFrame(chunks: seq<Bytes>, n: nat, rest: Bytes)
    requires chunks != [] && |chunks[0]| >= 4 && Flat(chunks) == U32(n) + rest && n <= MAX_FRAME
    ensures Receive(chunks) == (DecodeBody(n, rest).0, Drop(chunks, 4 + n))
  {
    HeaderRead(chunks, n, rest);
    ReceiveRead(chunks, n, rest);
  }

  /** A supported message whose header is whole is received as itself, and exactly its bytes are taken. */
  lemma {:induction false} ReceiveWhole(chunks: seq<Bytes>, m: Message, overhead: nat, rest: Bytes)
    requires chunks != [] && |chunks[0]| >= 4 && NonEmpty(chunks)
    requires Supported(m, overhead) && Flat(chunks) == Encode(m, overhead) + rest
    ensures Receive(chunks) == (Got(m), Drop(chunks, |Encode(m, overhead)|))
  {
    SupportedPrefix(m, overhead);
    Associate(U32(Prefix(m, overhead)), Body(m), rest);
    ReceiveFrame(chunks, Prefix(m, overhead), Body(m) + rest);
    BodyGivesSelf(m, rest);
  }

  // ----- a header that is cut -----

  function Zeros(j: nat): (r: Bytes)
    ensures |r| == j
  {
    if j == 0 then [] else [0] + Zeros(j - 1)
  }

  lemma {:induction false} ZerosAre(j: nat)
    ensures |Zeros(j)| == j && forall i :: 0 <= i < j ==> Zeros(j)[i] == 0
  {
    if j > 0 {
      ZerosAre(j - 1);
    }
  }

  lemma {:induction false} BigEndianStep(x: nat, n: nat)
    ensures BigEndian(x, n + 1) == BigEndian(x / 256, n) + [(x % 256) as byte]
  {
  }

  lemma {:induction false} HalfPrefix(q: nat)
    requires q < 256
    ensures BigEndian(q, 3) == [0, 0, q as byte]
  {
    BigEndianStep(q, 2);
    BigEndianStep(0, 1);
    BigEndianStep(0, 0);
    assert BigEndian(0, 0) == [];
  }

  lemma {:induction false} SmallPrefix(n: nat)
    requires n <= MAX_FRAME
    ensures U32(n) == [0, 0, (n / 256) as byte, (n % 256) as byte]
  {
    HalfPrefix(n / 256);
    BigEndianStep(n, 3);
    assert n % 0x1_0000_0000 == n;
  }

  /** What a header read of h bytes makes of `zeros` zero bytes followed by the prefix n. */
  lemma {:induction false} ShiftedHeader(zeros: nat, n: nat, h: nat, b: Bytes)
    requires n <= MAX_FRAME && h == |b| <= 4 && (zeros > 0 || h < 4)
    requires forall i :: 0 <= i < h ==> b[i] == if i < zeros then 0 else U32(n)[i - zeros]
    ensures var v := ReadU32(Header(b));
            v == 0 || (zeros == 1 && h == 4 && v == n / 256) || (zeros == 0 && h == 3 && v == n - n % 256)
  {
    SmallPrefix(n);
    ReadFour(Header(b));
  }

  /** Only its own header, read at its own place, makes the reader take a message for itself. */
  lemma {:induction false} ShiftedDiffers(v: nat, zeros: nat, h: nat, m: Message, overhead: nat, s: Bytes)
    requires Supported(m, overhead) && m != KeepAlive
    requires v == 0 || (zeros == 1 && h == 4 && v == |Body(m)| / 256)
             || (zeros == 0 && h == 3 && v == |Body(m)| - |Body(m)| % 256)
    requires zeros == 0 && h == 3 && s != [] ==> s[0] == (|Body(m)| % 256) as byte
    ensures DecodeBody(v, s).0 != Got(m)
  {
    if DecodeBody(v, s).0 == Got(m) {
      BodyGives(v, s, m);
      if zeros == 0 {
        assert s[0] == 0;
        TypeZero(m);
      }
    }
  }

  lemma {:induction false} TypeZero(m: Message)
    requires Body(m) != [] && Body(m)[0] == 0
    ensures m == Choke && |Body(m)| == 1
  {
  }

  /** The bytes of a stream that starts `zeros` bytes early. */
  lemma {:induction false} EarlyBytes(zeros: nat, n: nat, rest: Bytes, h: nat)
    requires h <= 4
    ensures var s := Zeros(zeros) + (U32(n) + rest);
            forall i :: 0 <= i < h ==> s[i] == if i < zeros then 0 else U32(n)[i - zeros]
  {
    ZerosAre(zeros);
  }

  /** What a reader that is early, or whose first chunk is too short, makes of a frame. */
  lemma {:induction false} CutHeaderGives(chunks: seq<Bytes>, zeros: nat, n: nat, tail: Bytes)
    requires chunks != [] && chunks[0] != [] && (zeros > 0 || |chunks[0]| < 4) && n <= MAX_FRAME
    requires Flat(chunks) == Zeros(zeros) + (U32(n) + tail)
    ensures var h, left := Min(4, |chunks[0]|), Flat(AfterRead(chunks, 4));
            var v := ReadU32(Header(chunks[0][..h]));
            && (v == 0 || (zeros == 1 && h == 4 && v == n / 256) || (zeros == 0 && h == 3 && v == n - n % 256))
            && (zeros == 0 && h == 3 && left != [] ==> left[0] == (n % 256) as byte)
            && Receive(chunks).0 == DecodeBody(v, left).0
  {
    var s, h := Flat(chunks), Min(4, |chunks[0]|);
    EarlyBytes(zeros, n, tail, 4);
    ReadFlat(chunks, 4);
    ShiftedHeader(zeros, n, h, chunks[0][..h]);
    SmallPrefix(n);
    if zeros == 0 && h == 3 && Flat(AfterRead(chunks, 4)) != [] {
      assert Flat(AfterRead(chunks, 4))[0] == s[3];
    }
  }

  lemma {:induction false} CutHeaderDiffers(chunks: seq<Bytes>, zeros: nat, m: Message, overhead: nat, rest: Bytes)
    requires chunks != [] && chunks[0] != [] && (zeros > 0 || |chunks[0]| < 4)
    requires Supported(m, overhead) && m != KeepAlive
    requires Flat(chunks) == Zeros(zeros) + (Encode(m, overhead) + rest)
    ensures Receive(chunks).0 != Got(m)
  {
    SupportedPrefix(m, overhead);
    Associate(U32(Prefix(m, overhead)), Body(m), rest);
    CutHeaderGives(chunks, zeros, |Body(m)|, Body(m) + rest);
    var h := Min(4, |chunks[0]|);
    ShiftedDiffers(ReadU32(Header(chunks[0][..h])), zeros, h, m, overhead, Flat(AfterRead(chunks, 4)));
  }

  lemma {:induction false} KeepAliveIsZeros(overhead: nat)
    ensures Encode(KeepAlive, overhead) == Zeros(4)
  {
    SmallPrefix(0);
    assert Zeros(4) == [0] + Zeros(3) && Zeros(3) == [0] + Zeros(2) && Zeros(2) == [0] + Zeros(1)
           && Zeros(1) == [0] + Zeros(0);
  }

  lemma {:induction false} ZerosSplit(h: nat, j: nat, rest: Bytes)
    requires h <= j
    ensures (Zeros(j) + rest)[..h] == Zeros(h) && (Zeros(j) + rest)[h..] == Zeros(j - h) + rest
  {
    ZerosAre(j);
    ZerosAre(h);
    ZerosAre(j - h);
  }

  lemma {:induction false} HeaderOfZeros(h: nat)
    requires h <= 4
    ensures ReadU32(Header(Zeros(h))) == 0
  {
    ZerosAre(h);
    ReadFour(Header(Zeros(h)));
  }

  /** Zeros are read as KeepAlive, four at a time or fewer if a chunk ends. */
  lemma {:induction false} ReceiveZeros(chunks: seq<Bytes>, zeros: nat, rest: Bytes)
    requires NonEmpty(chunks) && chunks != [] && zeros >= 4 && Flat(chunks) == Zeros(zeros) + rest
    ensures var (r, after) := Receive(chunks);
            r == Got(KeepAlive) && NonEmpty(after) && Flat(after) == Zeros(zeros - Min(4, |chunks[0]|)) + rest
  {
    var h := Min(4, |chunks[0]|);
    ReadFlat(chunks, 4);
    ZerosSplit(h, zeros, rest);
    HeaderOfZeros(h);
  }

  lemma {:induction false} ZerosJoin(i: nat, j: nat, rest: Bytes)
    ensures Zeros(i) + (Zeros(j) + rest) == Zeros(i + j) + rest
  {
    if i > 0 {
      ZerosJoin(i - 1, j, rest);
      assert Zeros(i) + (Zeros(j) + rest) == [0] + (Zeros(i - 1) + (Zeros(j) + rest));
      assert Zeros(i + j) + rest == [0] + (Zeros(i + j - 1) + rest);
    }
  }

  lemma {:induction false} ReceiveKeepAlive(chunks: seq<Bytes>, zeros: nat, overhead: nat, rest: Bytes)
    requires NonEmpty(chunks) && chunks != [] && Flat(chunks) == Zeros(zeros) + (Encode(KeepAlive, overhead) + rest)
    ensures var (r, after) := Receive(chunks);
            r == Got(KeepAlive) && NonEmpty(after) && Flat(after) == Zeros(zeros + 4 - Min(4, |chunks[0]|)) + rest
  {
    KeepAliveIsZeros(overhead);
    ZerosJoin(zeros, 4, rest);
    ReceiveZeros(chunks, zeros + 4, rest);
  }

  lemma {:induction false} ReceiveAllStep(chunks: seq<Bytes>, ms: seq<Message>)
    requires chunks != [] && NonEmpty(chunks)
    ensures ReceiveAll(chunks) == (ms, Eof)
       <==> ms != [] && Receive(chunks).0 == Got(ms[0]) && ReceiveAll(Receive(chunks).1) == (ms[1..], Eof)
  {
    assert chunks[0] != [];
    var r := Receive(chunks);
    if r.0.Got? {
      var rest := ReceiveAll(r.1).0;
      assert ([r.0.msg] + rest)[1..] == rest;
      if ms != [] {
        assert [ms[0]] + ms[1..] == ms;
      }
    }
  }

  /** Once the reader is out of step, it never recovers the list. */
  lemma {:induction false} OutOfStep(chunks: seq<Bytes>, zeros: nat, ms: seq<Message>, overhead: nat)
    requires NonEmpty(chunks) && AllSupported(ms, overhead)
    requires zeros > 0 || (ms != [] && chunks != [] && |chunks[0]| < 4)
    requires Flat(chunks) == Zeros(zeros) + EncodeAll(ms, overhead)
    ensures ReceiveAll(chunks) != (ms, Eof)
    decreases |ms|, 1
  {
    NotDry(chunks, zeros, EncodeAll(ms, overhead));
    if ms != [] {
      EncodeHead(ms, overhead);
      OutOfStepHead(chunks, zeros, ms[0], ms[1..], overhead);
    }
    StepWrong(chunks, ms);
  }

  lemma {:induction false} OutOfStepHead(chunks: seq<Bytes>, zeros: nat, m: Message, ms: seq<Message>, overhead: nat)
    requires NonEmpty(chunks) && Supported(m, overhead) && AllSupported(ms, overhead)
    requires chunks != [] && (zeros > 0 || |chunks[0]| < 4)
    requires Flat(chunks) == Zeros(zeros) + (Encode(m, overhead) + EncodeAll(ms, overhead))
    ensures Receive(chunks).0 != Got(m) || ReceiveAll(Receive(chunks).1) != (ms, Eof)
    decreases |ms| + 1, 0
  {
    if m == KeepAlive {
      ReceiveKeepAlive(chunks, zeros, overhead, EncodeAll(ms, overhead));
      OutOfStep(Receive(chunks).1, zeros + 4 - Min(4, |chunks[0]|), ms, overhead);
    } else {
      CutHeaderDiffers(chunks, zeros, m, overhead, EncodeAll(ms, overhead));
    }
  }

  lemma {:induction false} StepWrong(chunks: seq<Bytes>, ms: seq<Message>)
    requires chunks != [] && NonEmpty(chunks)
    requires ms != [] ==> Receive(chunks).0 != Got(ms[0]) || ReceiveAll(Receive(chunks).1) != (ms[1..], Eof)
    ensures ReceiveAll(chunks) != (ms, Eof)
  {
    ReceiveAllStep(chunks, ms);
  }

  lemma {:induction false} NotDry(chunks: seq<Bytes>, zeros: nat, rest: Bytes)
    requires zeros > 0 || chunks != []
    requires Flat(chunks) == Zeros(zeros) + rest
    ensures chunks != []
  {
    assert |Flat(chunks)| >= zeros;
  }

  lemma {:induction false} EncodeHead(ms: seq<Message>, overhead: nat)
    requires ms != []
    ensures EncodeAll(ms, overhead) == Encode(ms[0], overhead) + EncodeAll(ms[1..], overhead)
  {
  }

  /** A list of supported messages, sent back to back and delivered in chunks of any sizes, is received as that
      list exactly when no chunk ends inside a header. */
  lemma {:induction false} ChunkedRoundTrip(chunks: seq<Bytes>, ms: seq<Message>, overhead: nat)
    requires NonEmpty(chunks) && AllSupported(ms, overhead) && Flat(chunks) == EncodeAll(ms, overhead)
    ensures ReceiveAll(chunks) == (ms, Eof) <==> HeadersWhole(chunks, ms, overhead)
    decreases |ms|
  {
    if ms == [] {
      assert chunks == [];
    } else {
      var rest, taken := EncodeAll(ms[1..], overhead), |Encode(ms[0], overhead)|;
      assert chunks != [];
      if |chunks[0]| < 4 {
        OutOfStep(chunks, 0, ms, overhead);
      } else {
        ReceiveWhole(chunks, ms[0], overhead, rest);
        ReceiveAllStep(chunks, ms);
        DropFlat(chunks, taken);
        assert Flat(Drop(chunks, taken)) == rest;
        ChunkedRoundTrip(Drop(chunks, taken), ms[1..], overhead);
      }
    }
  }
}
