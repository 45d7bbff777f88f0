/** Cutting the files back out of the saved pieces (internal/assembler/service.go). */
module Assembler {
  import opened Basics
  import opened Torrents
  import Bits

  /** How assembling one file ends. Fault stands for Go's slice-bounds panic. */
  datatype Status = Done | LoadError | Fault

  /** What one pass of the assembler works on: a torrent, the name of its download directory, the pieces held,
      those on disk, and what lies behind each of them in memory, which may be anything. */
  datatype Order = Order(m: Meta, dir: string, held: seq<bv8>, disk: map<int, Bytes>, tails: int -> Bytes)

  /** The bytes of file i in the torrent's data. */
  function FileBytes(m: Meta, stream: Bytes, i: nat): Bytes
    requires i < |m.lengths| && m.Start(i) + m.lengths[i] <= |stream|
  {
    stream[m.Start(i)..m.Start(i) + m.lengths[i]]
  }

  /** The condition under which the code takes the right slices whatever the buffers are like: the file is at
      least as long as a piece, or it ends in the piece it starts in. */
  predicate Fits(m: Meta, i: nat)
    requires m.Valid() && i < |m.lengths|
  {
    m.lengths[i] >= m.pieceLength || m.Offset(i) + m.lengths[i] <= m.pieceLength
  }

  /** Reading a piece by its hash: the piece manager is asked for the first index with that hash. */
  function Load(m: Meta, disk: map<int, Bytes>, hash: Digest): Option<Bytes>
  {
    var index := PieceIndex(m.hashes, hash);
    if index in disk then Some(disk[index]) else None
  }

  function LoadBuffer(o: Order, hash: Digest): Option<Buffer>
  {
    match Load(o.m, o.disk, hash)
    case Some(data) => Some(Buffer(data, o.tails(PieceIndex(o.m.hashes, hash))))
    case None => None
  }

  function Loads(o: Order, hashes: seq<Digest>): (r: seq<Option<Buffer>>)
    ensures |r| == |hashes| && forall j :: 0 <= j < |r| ==> r[j] == LoadBuffer(o, hashes[j])
  {
    seq(|hashes|, j requires 0 <= j < |hashes| => LoadBuffer(o, hashes[j]))
  }

  predicate AllLoaded(loads: seq<Option<Buffer>>)
  {
    forall j :: 0 <= j < |loads| ==> loads[j].Some?
  }

  /** Every piece on disk has the hash listed for it, and no two of the contents in `all`, which has those on
      disk and the pieces of the stream, share a hash. */
  ghost predicate Verified(m: Meta, disk: map<int, Bytes>, stream: Bytes, sha1: HashFunction, all: set<Bytes>)
    requires m.Valid()
  {
    && Describes(m, stream, sha1)
    && CollisionFree(sha1, all) && PieceSet(m, stream) <= all
    && forall p :: p in disk && 0 <= p < |m.hashes| ==> disk[p] in all && sha1(disk[p]) == m.hashes[p]
  }

  /** Then reading a piece by its hash gives its content, even where the look-up lands on another index
      with the same hash. */
  lemma {:induction false} LoadedPiece(m: Meta, disk: map<int, Bytes>, stream: Bytes, sha1: HashFunction,
                                       all: set<Bytes>, p: nat)
    requires m.Valid() && Verified(m, disk, stream, sha1, all) && p < |m.hashes|
    ensures var l := Load(m, disk, m.hashes[p]);
            l.Some? ==> l.value == PieceOf(m.pieceLength, stream, p)
  {
    ListedHashIsFound(m.hashes, p, 0);
    var index := PieceIndex(m.hashes, m.hashes[p]);
    if index in disk {
      assert PieceSet(m, stream) + {disk[index]} <= all;
      VerifiedIsPiece(m, stream, sha1, p, disk[index]);
    }
  }

  /** Of the first n pieces, each reads as its content if it can be read at all. */
  ghost predicate ReadsRight(m: Meta, disk: map<int, Bytes>, stream: Bytes, n: nat)
    requires n <= |m.hashes|
  {
    n > 0 ==>
      && ReadsRight(m, disk, stream, n - 1)
      && var l := Load(m, disk, m.hashes[n - 1]);
         l.Some? ==> l.value == PieceOf(m.pieceLength, stream, n - 1)
  }

  /** Verified pieces read right. */
  lemma {:induction false} VerifiedReadsRight(m: Meta, disk: map<int, Bytes>, stream: Bytes, sha1: HashFunction,
                                              all: set<Bytes>, n: nat)
    requires m.Valid() && Verified(m, disk, stream, sha1, all) && n <= |m.hashes|
    ensures ReadsRight(m, disk, stream, n)
  {
    if n > 0 {
      VerifiedReadsRight(m, disk, stream, sha1, all, n - 1);
      LoadedPiece(m, disk, stream, sha1, all, n - 1);
    }
  }

  lemma {:induction false} ReadsRightAt(m: Meta, disk: map<int, Bytes>, stream: Bytes, n: nat, p: nat)
    requires p < n <= |m.hashes| && ReadsRight(m, disk, stream, n)
    ensures var l := Load(m, disk, m.hashes[p]);
            l.Some? ==> l.value == PieceOf(m.pieceLength, stream, p)
  {
    if p < n - 1 {
      ReadsRightAt(m, disk, stream, n - 1, p);
    }
  }

  /** What the assembler relies on. */
  ghost predicate Given(m: Meta, disk: map<int, Bytes>, stream: Bytes)
  {
    m.Valid() && m.InRange() && |stream| == m.Total() && ReadsRight(m, disk, stream, |m.hashes|)
  }

  lemma {:induction false} FileInStream(m: Meta, i: nat)
    requires i < |m.lengths|
    ensures m.Start(i) + m.lengths[i] <= m.Total()
  {
    SumStep(m.lengths, i);
    SumPrefix(m.lengths, i + 1, |m.lengths|);
    assert m.lengths[..|m.lengths|] == m.lengths;
  }

  /** The lengths and the names of the files that the torrent gives out. */
  function Lengths(files: seq<File>): (r: seq<nat>)
    ensures |r| == |files| && forall i :: 0 <= i < |r| ==> r[i] == files[i].length
  {
    seq(|files|, i requires 0 <= i < |files| => files[i].length)
  }

  function Names(files: seq<File>): (r: seq<string>)
    ensures |r| == |files| && forall i :: 0 <= i < |r| ==> r[i] == files[i].name
  {
    seq(|files|, i requires 0 <= i < |files| => files[i].name)
  }

  /** How far into its first piece file i starts. */
  function OffsetIn(files: seq<File>, i: nat, pieceLength: nat): nat
    requires i < |files| && pieceLength > 0
  {
    Rem(Sum(Lengths(files)[..i]), pieceLength)
  }

  method GetFileOffset(m: Meta, files: seq<File>, fileIdx: nat) returns (r: nat)
    requires m.Valid() && fileIdx < |files|
    ensures r == OffsetIn(files, fileIdx, m.pieceLength)
  {
    var offset := 0;
    for idx := 0 to |files|
      invariant idx <= fileIdx && offset == Sum(Lengths(files)[..idx])
    {
      if idx == fileIdx {
        break;
      }
      SumStep(Lengths(files), idx);
      offset := offset + files[idx].length;
    }
    Native(offset, m.pieceLength);
    return offset % m.pieceLength;
  }

  // ----- assembleFile -----

  /** What the loop of assembleFile does with the pieces still to come: `out` is what it has written. */
  function AssembleFrom(pieceLen: nat, fileSize: nat, loads: seq<Option<Buffer>>, offset: nat, out: Bytes)
    : (Status, Bytes)
  {
    if loads == [] then (Done, out)
    else if loads[0].None? then (LoadError, out)
    else
      match Taken(loads[0].value, pieceLen, fileSize - |out|, offset)
      case None => (Fault, out)
      case Some(data) => AssembleFrom(pieceLen, fileSize, loads[1..], 0, out + data)
  }

  /** The slice the code takes of one piece when `left` bytes of the file are missing. That difference is an
      unsigned 64-bit number, so that it is large once more than the file is written. */
  function Taken(piece: Buffer, pieceLen: nat, left: int, offset: nat): Option<Bytes>
  {
    if 0 <= left < pieceLen then piece.Slice(offset, offset + left)
    else piece.Slice(offset, |piece.data|)
  }

  /** What assembleFile returns for a file that starts so far into its first piece. For the message that it prints,
      it looks at the first piece of the file, and panics if there is none. */
  function Assembled(o: Order, file: File, offset: nat): (Status, Bytes)
  {
    if file.pieces == [] then (Fault, [])
    else AssembleFrom(o.m.pieceLength, file.length, Loads(o, file.pieces), offset, [])
  }

  method AssembleFile(o: Order, files: seq<File>, fileIdx: nat) returns (status: Status, out: Bytes)
    requires o.m.Valid() && fileIdx < |files|
    ensures (status, out) == Assembled(o, files[fileIdx], OffsetIn(files, fileIdx, o.m.pieceLength))
  {
    out := [];
    var file := files[fileIdx];
    var offset: nat := GetFileOffset(o.m, files, fileIdx);
    var pieceLen, fileSize := o.m.pieceLength, file.length;
    if file.pieces == [] {
      return Fault, out;
    }
    ghost var loads := Loads(o, file.pieces);
    ghost var expected := AssembleFrom(pieceLen, fileSize, loads, offset, []);
    for j := 0 to |file.pieces|
      invariant expected == AssembleFrom(pieceLen, fileSize, loads[j..], offset, out)
    {
      assert loads[j..][0] == LoadBuffer(o, file.pieces[j]) && loads[j..][1..] == loads[j + 1..];
      var index := GetPieceIndex(o.m.hashes, file.pieces[j]);
      if index !in o.disk {
        return LoadError, out;
      }
      var piece := Buffer(o.disk[index], o.tails(index));
      var left := fileSize - |out|;
      var end := if 0 <= left < pieceLen then offset + left else |piece.data|;
      var data := piece.Slice(offset, end);
      if data.None? {
        return Fault, out;
      }
      out := out + data.value;
      offset := 0;
    }
    return Done, out;
  }

  // The proof about AssembleFrom works on one file with plain numbers.

  /** A file of `len` bytes at position `s` of the stream: it starts `o` bytes into piece f and takes up k pieces. */
  datatype Place = Place(pl: nat, f: nat, o: nat, k: nat, s: nat, len: nat)
  {
    ghost predicate Valid()
    {
      && o < pl && s == Times(f, pl) + o && k >= 1
      && s + len <= Times(f + k, pl)
      && (k > 1 ==> Times(f + k - 1, pl) < s + len)
    }

    predicate Fits() { len >= pl || o + len <= pl }

    /** The bytes of the file. */
    predicate Holds(stream: Bytes, bytes: Bytes) { s + len <= |stream| && bytes == stream[s..s + len] }

    function OffsetAt(j: nat): nat { if j == 0 then o else 0 }

    /** How much of the file is written before its piece j. */
    ghost predicate StandsAt(j: nat, w: nat)
    {
      && w <= len
      && (j == 0 ==> w == 0)
      && (j > 0 ==> if j < k then s + w == Times(f + j, pl) else w == len)
    }
  }

  lemma {:induction false} BaseOrder(c: Place, j: nat)
    requires c.Valid() && j < c.k
    ensures Times(c.f + j + 1, c.pl) == Times(c.f + j, c.pl) + c.pl
    ensures j > 0 ==> Times(c.f, c.pl) + c.pl <= Times(c.f + j, c.pl)
    ensures if j + 1 < c.k then Times(c.f + j, c.pl) + c.pl <= Times(c.f + c.k - 1, c.pl) < c.s + c.len
            else c.s + c.len <= Times(c.f + j, c.pl) + c.pl
    ensures Times(c.f + j, c.pl) <= c.s + c.len
  {
    TimesMonotone(c.f, c.f + j, c.pl);
    TimesMonotone(c.f + j, c.f + c.k - 1, c.pl);
  }

  /** The slice the code takes of `piece`, after `w` bytes of the file, has the bytes up to `w'` of the file. */
  ghost predicate RightSlice(pl: nat, piece: Bytes, offset: nat, bytes: Bytes, w: nat, w': nat)
  {
    && w <= w' <= |bytes|
    && var left := |bytes| - w;
       if left < pl then offset + left <= |piece| && piece[offset..offset + left] == bytes[w..w'] && w' == |bytes|
       else offset <= |piece| && piece[offset..] == bytes[w..w']
  }

  lemma {:induction false} SliceOf(stream: Bytes, base: nat, pl: nat, offset: nat, s: nat, len: nat, w: nat, w': nat)
    requires base <= |stream| && offset <= pl && s + len <= |stream| && w <= len && base + offset == s + w
    requires if len - w < pl then s + len <= base + pl else base + pl <= s + len
    requires w' == if len - w < pl then len else w + (pl - offset)
    ensures RightSlice(pl, stream[base..Min(base + pl, |stream|)], offset, stream[s..s + len], w, w')
  {
    SubSlice(stream, base, Min(base + pl, |stream|), offset, offset + (w' - w));
    SubSlice(stream, s, s + len, w, w');
  }

  /** How much of the file is written after its piece j, when w bytes were before. */
  function NextWritten(c: Place, j: nat, w: nat): nat
    requires w <= c.len && c.OffsetAt(j) <= c.pl
  {
    if c.len - w < c.pl then c.len else w + (c.pl - c.OffsetAt(j))
  }

  /** The file goes on, or ends, in its piece j. */
  ghost predicate GoesOn(c: Place, j: nat, w: nat)
  {
    var base := Times(c.f + j, c.pl);
    && w <= c.len && c.OffsetAt(j) <= c.pl && base + c.OffsetAt(j) == c.s + w
    && if c.len - w < c.pl then c.s + c.len <= base + c.pl else base + c.pl <= c.s + c.len
  }

  lemma {:induction false} StandsNext(c: Place, j: nat, w: nat)
    requires c.Valid() && c.Fits() && j < c.k && c.StandsAt(j, w)
    ensures GoesOn(c, j, w) && c.StandsAt(j + 1, NextWritten(c, j, w))
  {
    BaseOrder(c, j);
  }

  lemma {:induction false} TakesSlice(pl: nat, piece: Buffer, offset: nat, bytes: Bytes, w: nat, w': nat)
    requires RightSlice(pl, piece.data, offset, bytes, w, w')
    ensures Taken(piece, pl, |bytes| - w, offset) == Some(bytes[w..w'])
  {
    var hi := if |bytes| - w < pl then offset + (|bytes| - w) else |piece.data|;
    assert (piece.data + piece.tail)[offset..hi] == piece.data[offset..hi];
  }

  /** One round of the loop. */
  lemma {:induction false} AssembleStep(pl: nat, loads: seq<Option<Buffer>>, offset: nat, bytes: Bytes, w: nat, w': nat)
    requires |loads| > 0 && loads[0].Some? && RightSlice(pl, loads[0].value.data, offset, bytes, w, w')
    ensures AssembleFrom(pl, |bytes|, loads, offset, bytes[..w])
            == AssembleFrom(pl, |bytes|, loads[1..], 0, bytes[..w'])
  {
    TakesSlice(pl, loads[0].value, offset, bytes, w, w');
    assert bytes[..w] + bytes[w..w'] == bytes[..w'];
  }

  ghost predicate LoadedAs(piece: Bytes, pl: nat, stream: Bytes, p: nat)
  {
    Times(p, pl) <= |stream| && piece == Slice(stream, pl, p)
  }

  lemma {:induction false} NextSlice(c: Place, stream: Bytes, bytes: Bytes, j: nat, w: nat, piece: Bytes)
    requires GoesOn(c, j, w) && c.Holds(stream, bytes) && LoadedAs(piece, c.pl, stream, c.f + j)
    ensures RightSlice(c.pl, piece, c.OffsetAt(j), bytes, w, NextWritten(c, j, w))
  {
    SliceOf(stream, Times(c.f + j, c.pl), c.pl, c.OffsetAt(j), c.s, c.len, w, NextWritten(c, j, w));
  }

  ghost predicate AllLoadedAs(c: Place, stream: Bytes, j: nat, loads: seq<Option<Buffer>>)
  {
    forall q :: 0 <= q < |loads| && loads[q].Some? ==> LoadedAs(loads[q].value.data, c.pl, stream, c.f + j + q)
  }

  /** From its piece j on, a file that fits is written to its end, if all pieces are there. */
  ghost predicate Completes(pl: nat, loads: seq<Option<Buffer>>, bytes: Bytes, offset: nat, w: nat)
    requires w <= |bytes|
  {
    var (status, out) := AssembleFrom(pl, |bytes|, loads, offset, bytes[..w]);
    status == (if AllLoaded(loads) then Done else LoadError) && (status == Done ==> out == bytes)
  }

  lemma {:induction false} CompletesStep(pl: nat, loads: seq<Option<Buffer>>, bytes: Bytes, offset: nat, w: nat,
                                         w': nat)
    requires loads != [] && loads[0].Some? && RightSlice(pl, loads[0].value.data, offset, bytes, w, w')
    requires Completes(pl, loads[1..], bytes, 0, w')
    ensures Completes(pl, loads, bytes, offset, w)
  {
    AssembleStep(pl, loads, offset, bytes, w, w');
    AllLoadedStep(loads);
  }

  lemma {:induction false} CompletesNone(pl: nat, loads: seq<Option<Buffer>>, bytes: Bytes, offset: nat)
    requires loads == [] || loads[0].None?
    ensures Completes(pl, loads, bytes, offset, |bytes|)
    ensures loads != [] ==> forall w :: 0 <= w <= |bytes| ==> Completes(pl, loads, bytes, offset, w)
  {
    assert bytes[..|bytes|] == bytes;
    if loads != [] {
      assert !AllLoaded(loads);
    }
  }

  lemma {:induction false} AssembleRest(c: Place, stream: Bytes, bytes: Bytes, j: nat, w: nat,
                                        loads: seq<Option<Buffer>>)
    requires c.Valid() && c.Fits() && j + |loads| == c.k && c.Holds(stream, bytes) && c.StandsAt(j, w)
    requires AllLoadedAs(c, stream, j, loads)
    ensures Completes(c.pl, loads, bytes, c.OffsetAt(j), w)
    decreases |loads|
  {
    if loads == [] || loads[0].None? {
      CompletesNone(c.pl, loads, bytes, c.OffsetAt(j));
    } else {
      StandsNext(c, j, w);
      NextSlice(c, stream, bytes, j, w, loads[0].value.data);
      TailLoadedAs(c, stream, j, loads);
      AssembleRest(c, stream, bytes, j + 1, NextWritten(c, j, w), loads[1..]);
      CompletesStep(c.pl, loads, bytes, c.OffsetAt(j), w, NextWritten(c, j, w));
    }
  }

  lemma {:induction false} TailLoadedAs(c: Place, stream: Bytes, j: nat, loads: seq<Option<Buffer>>)
    requires loads != [] && AllLoadedAs(c, stream, j, loads)
    ensures AllLoadedAs(c, stream, j + 1, loads[1..])
  {
    forall q | 0 <= q < |loads| - 1 && loads[1..][q].Some?
      ensures LoadedAs(loads[1..][q].value.data, c.pl, stream, c.f + (j + 1) + q)
    {
      assert loads[1..][q] == loads[q + 1];
    }
  }

  lemma {:induction false} AllLoadedStep(loads: seq<Option<Buffer>>)
    requires loads != [] && loads[0].Some?
    ensures AllLoaded(loads) <==> AllLoaded(loads[1..])
  {
    if AllLoaded(loads[1..]) {
      forall q | 0 < q < |loads| ensures loads[q].Some? {
        assert loads[q] == loads[1..][q - 1];
      }
    }
  }

  /** Nothing is left to write: the pieces still to come are only loaded. */
  lemma {:induction false} NothingLeft(pl: nat, len: nat, loads: seq<Option<Buffer>>, out: Bytes)
    requires pl > 0 && |out| == len
    ensures AssembleFrom(pl, len, loads, 0, out) == (if AllLoaded(loads) then Done else LoadError, out)
  {
    if loads != [] && loads[0].Some? {
      assert Taken(loads[0].value, pl, 0, 0) == Some([]);
      assert out + [] == out;
      NothingLeft(pl, len, loads[1..], out);
      AllLoadedStep(loads);
    }
  }

  /** A file that does not fit is taken from its first buffer alone, past the end of the piece, if the buffer
      goes that far. */
  lemma {:induction false} Straddles(pl: nat, len: nat, loads: seq<Option<Buffer>>, o: nat)
    requires len < pl && loads != [] && loads[0].Some?
    ensures var b := loads[0].value;
            AssembleFrom(pl, len, loads, o, [])
            == if o + len > b.Capacity() then (Fault, [])
               else (if AllLoaded(loads) then Done else LoadError, (b.data + b.tail)[o..o + len])
  {
    var b := loads[0].value;
    if o + len <= b.Capacity() {
      var data := (b.data + b.tail)[o..o + len];
      assert [] + data == data;
      NothingLeft(pl, len, loads[1..], data);
      AllLoadedStep(loads);
    }
  }

  // ----- what becomes of a file -----

  /** How many bytes a file that does not fit takes from behind its first piece. */
  function Overrun(m: Meta, i: nat): (n: nat)
    requires m.Valid() && i < |m.lengths|
    ensures n <= m.lengths[i]
  {
    QuotRem(m.Start(i), m.pieceLength);
    if Fits(m, i) then 0 else m.Offset(i) + m.lengths[i] - m.pieceLength
  }

  /** What lies behind the buffer of the first piece of file i. */
  function TailOf(o: Order, i: nat): Bytes
    requires o.m.Valid() && i < |o.m.lengths|
  {
    if o.m.First(i) < |o.m.hashes| then o.tails(PieceIndex(o.m.hashes, o.m.hashes[o.m.First(i)])) else []
  }

  /** What the code writes for file i: its bytes up to the overrun, and then those behind the piece. */
  function Result(o: Order, stream: Bytes, i: nat): Bytes
    requires o.m.Valid() && i < |o.m.lengths|
    requires o.m.Start(i) + o.m.lengths[i] <= |stream| && Overrun(o.m, i) <= |TailOf(o, i)|
  {
    var bytes, n := FileBytes(o.m, stream, i), Overrun(o.m, i);
    if Fits(o.m, i) then bytes else bytes[..|bytes| - n] + TailOf(o, i)[..n]
  }

  /** The bytes behind the piece happen to be the missing ones. */
  predicate Clean(o: Order, stream: Bytes, i: nat)
    requires o.m.Valid() && i < |o.m.lengths|
    requires o.m.Start(i) + o.m.lengths[i] <= |stream|
  {
    var bytes, n := FileBytes(o.m, stream, i), Overrun(o.m, i);
    n <= |TailOf(o, i)| && TailOf(o, i)[..n] == bytes[|bytes| - n..]
  }

  lemma {:induction false} CleanIsRight(o: Order, stream: Bytes, i: nat)
    requires o.m.Valid() && i < |o.m.lengths|
    requires o.m.Start(i) + o.m.lengths[i] <= |stream| && Overrun(o.m, i) <= |TailOf(o, i)|
    ensures Result(o, stream, i) == FileBytes(o.m, stream, i) <==> Clean(o, stream, i)
    ensures |Result(o, stream, i)| == o.m.lengths[i]
    ensures Fits(o.m, i) ==> Clean(o, stream, i)
  {
    var bytes, n, tail := FileBytes(o.m, stream, i), Overrun(o.m, i), TailOf(o, i);
    assert bytes == bytes[..|bytes| - n] + bytes[|bytes| - n..];
    if !Fits(o.m, i) {
      assert Result(o, stream, i)[|bytes| - n..] == tail[..n];
    }
  }

  lemma {:induction false} FileLoads(m: Meta, disk: map<int, Bytes>, stream: Bytes, i: nat, q: nat)
    requires Given(m, disk, stream) && i < |m.lengths| && q < m.Count(i) && m.First(i) + m.Count(i) <= |m.hashes|
    ensures var l := Load(m, disk, m.hashes[m.First(i) + q]);
            l.Some? ==> LoadedAs(l.value, m.pieceLength, stream, m.First(i) + q)
  {
    ReadsRightAt(m, disk, stream, |m.hashes|, m.First(i) + q);
    FileInStream(m, i);
    FileEnds(m, i);
    TimesMonotone(m.First(i) + q, m.First(i) + m.Count(i) - 1, m.pieceLength);
    PieceIsSlice(m.pieceLength, stream, m.First(i) + q);
  }

  lemma {:induction false} LoadsAs(o: Order, stream: Bytes, i: nat)
    requires Given(o.m, o.disk, stream) && i < |o.m.lengths|
    ensures AllLoadedAs(PlaceOf(o.m, i), stream, 0, Loads(o, o.m.FileAt(i).pieces))
  {
    var loads := Loads(o, o.m.FileAt(i).pieces);
    forall q | 0 <= q < |loads| && loads[q].Some?
      ensures LoadedAs(loads[q].value.data, o.m.pieceLength, stream, o.m.First(i) + q)
    {
      LoadsAt(o, stream, i, q);
    }
    PlacedLoads(PlaceOf(o.m, i), stream, loads);
  }

  lemma {:induction false} PlacedLoads(c: Place, stream: Bytes, loads: seq<Option<Buffer>>)
    requires forall q :: 0 <= q < |loads| && loads[q].Some? ==> LoadedAs(loads[q].value.data, c.pl, stream, c.f + q)
    ensures AllLoadedAs(c, stream, 0, loads)
  {
    forall q | 0 <= q < |loads| && loads[q].Some? ensures LoadedAs(loads[q].value.data, c.pl, stream, c.f + 0 + q) {
      assert c.f + 0 + q == c.f + q;
    }
  }

  lemma {:induction false} LoadsAt(o: Order, stream: Bytes, i: nat, q: nat)
    requires Given(o.m, o.disk, stream) && i < |o.m.lengths| && q < |Loads(o, o.m.FileAt(i).pieces)|
    requires Loads(o, o.m.FileAt(i).pieces)[q].Some?
    ensures LoadedAs(Loads(o, o.m.FileAt(i).pieces)[q].value.data, o.m.pieceLength, stream, o.m.First(i) + q)
  {
    FileLoads(o.m, o.disk, stream, i, q);
  }

  function PlaceOf(m: Meta, i: nat): Place
    requires m.Valid() && i < |m.lengths|
  {
    Place(m.pieceLength, m.First(i), m.Offset(i), m.Count(i), m.Start(i), m.lengths[i])
  }

  lemma {:induction false} PlaceIsValid(m: Meta, i: nat)
    requires m.Valid() && i < |m.lengths|
    ensures PlaceOf(m, i).Valid()
  {
    FileEnds(m, i);
  }

  lemma {:induction false} FirstLoad(o: Order, i: nat)
    requires o.m.Valid() && i < |o.m.lengths| && o.m.First(i) + o.m.Count(i) <= |o.m.hashes|
    ensures o.m.First(i) < |o.m.hashes|
    ensures var loads := Loads(o, o.m.FileAt(i).pieces);
            loads != [] && loads[0] == LoadBuffer(o, o.m.hashes[o.m.First(i)])
  {
    SpanBounds(o.m.Offset(i), o.m.lengths[i], o.m.pieceLength);
  }

  /** A file that goes on behind its first piece has a whole piece there. */
  lemma {:induction false} FirstIsWhole(o: Order, stream: Bytes, i: nat)
    requires Given(o.m, o.disk, stream) && i < |o.m.lengths| && !Fits(o.m, i)
    requires o.m.First(i) < |o.m.hashes| && LoadBuffer(o, o.m.hashes[o.m.First(i)]).Some?
    requires o.m.Start(i) + o.m.lengths[i] <= |stream|
    ensures var b := LoadBuffer(o, o.m.hashes[o.m.First(i)]).value;
            && |b.data| == o.m.pieceLength && b.tail == TailOf(o, i)
            && (b.Capacity() >= o.m.Offset(i) + o.m.lengths[i] ==>
                (b.data + b.tail)[o.m.Offset(i)..o.m.Offset(i) + o.m.lengths[i]] == Result(o, stream, i))
  {
    var m := o.m;
    var b, pl, off := LoadBuffer(o, m.hashes[m.First(i)]).value, m.pieceLength, m.Offset(i);
    var base, s, len := Times(m.First(i), pl), m.Start(i), m.lengths[i];
    PlaceIsValid(m, i);
    SpanBounds(off, len, pl);
    FileLoads(m, o.disk, stream, i, 0);
    assert b.data == stream[base..base + pl] && s == base + off;
    if b.Capacity() >= off + len {
      Spills(stream, base, pl, off, len, b.data, b.tail);
    }
  }

  /** A slice that goes on behind the piece: its end comes from the tail. */
  lemma {:induction false} Spills(stream: Bytes, base: nat, pl: nat, off: nat, len: nat, data: Bytes, tail: Bytes)
    requires base + off + len <= |stream| && off <= pl <= off + len <= pl + |tail| && data == stream[base..base + pl]
    ensures (data + tail)[off..off + len] == stream[base + off..base + off + len][..pl - off] + tail[..off + len - pl]
  {
    SubSlice(stream, base, base + pl, off, pl);
    SubSlice(stream, base + off, base + off + len, 0, pl - off);
    Behind(data, tail, off, len);
  }

  lemma {:induction false} Behind(data: Bytes, tail: Bytes, o: nat, len: nat)
    requires o <= |data| <= o + len <= |data| + |tail|
    ensures (data + tail)[o..o + len] == data[o..] + tail[..o + len - |data|]
  {
  }

  /** What assembleFile returns for file i. */
  function Output(o: Order, i: nat): (Status, Bytes)
    requires o.m.Valid() && i < |o.m.lengths|
  {
    Assembled(o, o.m.FileAt(i), o.m.Offset(i))
  }

  /** How assembling file i ends. */
  function Ending(o: Order, i: nat): Status
    requires o.m.Valid() && i < |o.m.lengths|
  {
    var loads := Loads(o, o.m.FileAt(i).pieces);
    if loads == [] || loads[0].None? then LoadError
    else if Overrun(o.m, i) > |TailOf(o, i)| then Fault
    else if AllLoaded(loads) then Done
    else LoadError
  }

  /** What assembleFile returns is what Ending says, and the result if it is done. */
  ghost predicate Ends(o: Order, stream: Bytes, i: nat)
    requires o.m.Valid() && i < |o.m.lengths| && o.m.Start(i) + o.m.lengths[i] <= |stream|
  {
    var (status, out) := Output(o, i);
    status == Ending(o, i)
    && (status == Done ==> Overrun(o.m, i) <= |TailOf(o, i)| && out == Result(o, stream, i))
  }

  /** Assembling a file panics exactly when it takes more from behind its first piece than there is, and
      otherwise writes its result if all its pieces are on disk. */
  lemma {:induction false} AssembledFile(o: Order, stream: Bytes, i: nat)
    requires Given(o.m, o.disk, stream) && i < |o.m.lengths|
    ensures o.m.Start(i) + o.m.lengths[i] <= |stream| && Ends(o, stream, i)
  {
    FileInStream(o.m, i);
    if Fits(o.m, i) {
      AssembleFitting(o, stream, i);
    } else {
      AssembleStraddling(o, stream, i);
    }
  }

  lemma {:induction false} AssembleFitting(o: Order, stream: Bytes, i: nat)
    requires Given(o.m, o.disk, stream) && i < |o.m.lengths| && Fits(o.m, i)
    requires o.m.Start(i) + o.m.lengths[i] <= |stream|
    ensures Ends(o, stream, i)
  {
    FirstLoad(o, i);
    FittingOutput(o, stream, i);
    EndsFitting(o, stream, i);
  }

  /** What assembleFile returns for a file that fits. */
  ghost predicate OutputsFile(o: Order, stream: Bytes, i: nat)
    requires o.m.Valid() && i < |o.m.lengths| && o.m.Start(i) + o.m.lengths[i] <= |stream|
  {
    var (status, out) := Output(o, i);
    status == (if AllLoaded(Loads(o, o.m.FileAt(i).pieces)) then Done else LoadError)
    && (status == Done ==> out == FileBytes(o.m, stream, i))
  }

  lemma {:induction false} FittingOutput(o: Order, stream: Bytes, i: nat)
    requires Given(o.m, o.disk, stream) && i < |o.m.lengths| && Fits(o.m, i)
    requires o.m.Start(i) + o.m.lengths[i] <= |stream|
    ensures OutputsFile(o, stream, i)
  {
    PlaceIsValid(o.m, i);
    LoadsAs(o, stream, i);
    var loads := Loads(o, o.m.FileAt(i).pieces);
    FileLoadsCount(o, i);
    PlaceOutput(PlaceOf(o.m, i), stream, FileBytes(o.m, stream, i), loads);
  }

  lemma {:induction false} PlaceOutput(c: Place, stream: Bytes, bytes: Bytes, loads: seq<Option<Buffer>>)
    requires c.Valid() && c.Fits() && |loads| == c.k && AllLoadedAs(c, stream, 0, loads) && c.Holds(stream, bytes)
    ensures var (status, out) := AssembleFrom(c.pl, c.len, loads, c.o, []);
            status == (if AllLoaded(loads) then Done else LoadError) && (status == Done ==> out == bytes)
  {
    assert |bytes| == c.len && c.OffsetAt(0) == c.o;
    AssembleRest(c, stream, bytes, 0, 0, loads);
    CompletesFromStart(c.pl, loads, bytes, c.o);
  }

  lemma {:induction false} FileLoadsCount(o: Order, i: nat)
    requires o.m.Valid() && i < |o.m.lengths| && o.m.First(i) + o.m.Count(i) <= |o.m.hashes|
    ensures |Loads(o, o.m.FileAt(i).pieces)| == o.m.Count(i)
  {
  }

  lemma {:induction false} EndsFitting(o: Order, stream: Bytes, i: nat)
    requires o.m.Valid() && i < |o.m.lengths| && Fits(o.m, i) && o.m.Start(i) + o.m.lengths[i] <= |stream|
    requires OutputsFile(o, stream, i) && Loads(o, o.m.FileAt(i).pieces) != []
    ensures Ends(o, stream, i)
  {
  }

  lemma {:induction false} CompletesFromStart(pl: nat, loads: seq<Option<Buffer>>, bytes: Bytes, offset: nat)
    requires Completes(pl, loads, bytes, offset, 0)
    ensures var (status, out) := AssembleFrom(pl, |bytes|, loads, offset, []);
            status == (if AllLoaded(loads) then Done else LoadError) && (status == Done ==> out == bytes)
  {
    assert bytes[..0] == [];
  }

  lemma {:induction false} AssembleStraddling(o: Order, stream: Bytes, i: nat)
    requires Given(o.m, o.disk, stream) && i < |o.m.lengths| && !Fits(o.m, i)
    requires o.m.Start(i) + o.m.lengths[i] <= |stream|
    ensures Ends(o, stream, i)
  {
    FirstLoad(o, i);
    if LoadBuffer(o, o.m.hashes[o.m.First(i)]).Some? {
      FirstIsWhole(o, stream, i);
      Straddles(o.m.pieceLength, o.m.lengths[i], Loads(o, o.m.FileAt(i).pieces), o.m.Offset(i));
    }
  }

  /** The first piece that cannot be loaded. */
  function FirstMissing(loads: seq<Option<Buffer>>): (k: nat)
    ensures k <= |loads| && forall j :: 0 <= j < k ==> loads[j].Some?
    ensures k < |loads| ==> loads[k].None?
    ensures k == |loads| <==> AllLoaded(loads)
  {
    if loads == [] || loads[0].None? then 0 else FirstMissing(loads[1..]) + 1
  }

  /** A file that fits is written up to its first piece that cannot be loaded. */
  lemma {:induction false} AssembleStops(c: Place, stream: Bytes, bytes: Bytes, j: nat, w: nat,
                                         loads: seq<Option<Buffer>>)
    returns (w': nat)
    requires c.Valid() && c.Fits() && j + |loads| == c.k && c.Holds(stream, bytes) && c.StandsAt(j, w)
    requires AllLoadedAs(c, stream, j, loads) && FirstMissing(loads) < |loads|
    ensures c.StandsAt(j + FirstMissing(loads), w')
    ensures AssembleFrom(c.pl, c.len, loads, c.OffsetAt(j), bytes[..w]) == (LoadError, bytes[..w'])
    decreases |loads|
  {
    if loads[0].None? {
      w' := w;
    } else {
      var next := NextWritten(c, j, w);
      StandsNext(c, j, w);
      NextSlice(c, stream, bytes, j, w, loads[0].value.data);
      TailLoadedAs(c, stream, j, loads);
      w' := AssembleStops(c, stream, bytes, j + 1, next, loads[1..]);
      StopsStep(c, bytes, loads, c.OffsetAt(j), w, next, w');
    }
  }

  lemma {:induction false} StopsStep(c: Place, bytes: Bytes, loads: seq<Option<Buffer>>, offset: nat, w: nat,
                                     next: nat, w': nat)
    requires |loads| > 0 && loads[0].Some? && RightSlice(c.pl, loads[0].value.data, offset, bytes, w, next)
    requires |bytes| == c.len && w' <= c.len
    requires AssembleFrom(c.pl, c.len, loads[1..], 0, bytes[..next]) == (LoadError, bytes[..w'])
    ensures AssembleFrom(c.pl, c.len, loads, offset, bytes[..w]) == (LoadError, bytes[..w'])
  {
    AssembleStep(c.pl, loads, offset, bytes, w, next);
  }

  /** What assembling file i has written when its piece k is the first that cannot be loaded, and it did not panic:
      nothing if that is its first piece; otherwise all that comes before that piece, or the whole result if the file
      is taken from its first piece alone. */
  ghost predicate WrittenUpTo(o: Order, stream: Bytes, i: nat, k: nat, out: Bytes)
    requires o.m.Valid() && i < |o.m.lengths| && o.m.Start(i) + o.m.lengths[i] <= |stream|
  {
    if k == 0 then out == []
    else if Fits(o.m, i) then
      var base := Times(o.m.First(i) + k, o.m.pieceLength);
      o.m.Start(i) <= base <= o.m.Start(i) + o.m.lengths[i] && out == stream[o.m.Start(i)..base]
    else Overrun(o.m, i) <= |TailOf(o, i)| && out == Result(o, stream, i)
  }

  lemma {:induction false} UnloadedFile(o: Order, stream: Bytes, i: nat)
    requires Given(o.m, o.disk, stream) && i < |o.m.lengths| && o.m.Start(i) + o.m.lengths[i] <= |stream|
    requires Ending(o, i) == LoadError
    ensures var k := FirstMissing(Loads(o, o.m.FileAt(i).pieces));
            k < |o.m.FileAt(i).pieces| && WrittenUpTo(o, stream, i, k, Output(o, i).1)
  {
    FirstLoad(o, i);
    if Fits(o.m, i) {
      UnloadedFitting(o, stream, i);
    } else {
      UnloadedStraddling(o, stream, i);
    }
  }

  lemma {:induction false} UnloadedFitting(o: Order, stream: Bytes, i: nat)
    requires Given(o.m, o.disk, stream) && i < |o.m.lengths| && o.m.Start(i) + o.m.lengths[i] <= |stream|
    requires Ending(o, i) == LoadError && Fits(o.m, i)
    ensures var k := FirstMissing(Loads(o, o.m.FileAt(i).pieces));
            k < |o.m.FileAt(i).pieces| && WrittenUpTo(o, stream, i, k, Output(o, i).1)
  {
    var loads := Loads(o, o.m.FileAt(i).pieces);
    FirstLoad(o, i);
    PlaceIsValid(o.m, i);
    LoadsAs(o, stream, i);
    FileLoadsCount(o, i);
    StopsInPlace(PlaceOf(o.m, i), stream, FileBytes(o.m, stream, i), loads);
    var out := AssembleFrom(o.m.pieceLength, o.m.lengths[i], loads, o.m.Offset(i), []).1;
    StoppedIs(o, stream, i, FirstMissing(loads), out);
  }

  ghost predicate StoppedAt(c: Place, stream: Bytes, k: nat, out: Bytes)
    requires c.s + c.len <= |stream|
  {
    if k == 0 then out == []
    else c.s <= Times(c.f + k, c.pl) <= c.s + c.len && out == stream[c.s..Times(c.f + k, c.pl)]
  }

  lemma {:induction false} StoppedIs(o: Order, stream: Bytes, i: nat, k: nat, out: Bytes)
    requires o.m.Valid() && i < |o.m.lengths| && o.m.Start(i) + o.m.lengths[i] <= |stream| && Fits(o.m, i)
    requires StoppedAt(PlaceOf(o.m, i), stream, k, out)
    ensures WrittenUpTo(o, stream, i, k, out)
  {
  }

  lemma {:induction false} StopsInPlace(c: Place, stream: Bytes, bytes: Bytes, loads: seq<Option<Buffer>>)
    requires c.Valid() && c.Fits() && |loads| == c.k && AllLoadedAs(c, stream, 0, loads) && c.Holds(stream, bytes)
    requires FirstMissing(loads) < |loads|
    ensures StoppedAt(c, stream, FirstMissing(loads), AssembleFrom(c.pl, c.len, loads, c.o, []).1)
  {
    var w := AssembleStops(c, stream, bytes, 0, 0, loads);
    assert bytes[..0] == [];
    SubSlice(stream, c.s, c.s + c.len, 0, w);
  }

  lemma {:induction false} UnloadedStraddling(o: Order, stream: Bytes, i: nat)
    requires Given(o.m, o.disk, stream) && i < |o.m.lengths| && o.m.Start(i) + o.m.lengths[i] <= |stream|
    requires Ending(o, i) == LoadError && !Fits(o.m, i)
    ensures var k := FirstMissing(Loads(o, o.m.FileAt(i).pieces));
            k < |o.m.FileAt(i).pieces| && WrittenUpTo(o, stream, i, k, Output(o, i).1)
  {
    var loads := Loads(o, o.m.FileAt(i).pieces);
    FirstLoad(o, i);
    if loads[0].Some? {
      FirstIsWhole(o, stream, i);
      Straddles(o.m.pieceLength, o.m.lengths[i], loads, o.m.Offset(i));
    }
  }

  /** With all pieces on disk, the file comes out right whatever lies behind them if and only if it fits. */
  lemma {:induction false} RightIffFits(m: Meta, disk: map<int, Bytes>, stream: Bytes, i: nat)
    requires Given(m, disk, stream) && i < |m.lengths| && m.Start(i) + m.lengths[i] <= |stream|
    requires forall h :: h in m.FileAt(i).pieces ==> Load(m, disk, h).Some?
    ensures Fits(m, i) <==> forall tails: int -> Bytes ::
              Output(Order(m, "", [], disk, tails), i) == (Done, FileBytes(m, stream, i))
  {
    if Fits(m, i) {
      forall tails: int -> Bytes
        ensures Output(Order(m, "", [], disk, tails), i) == (Done, FileBytes(m, stream, i))
      {
        AssembledFile(Order(m, "", [], disk, tails), stream, i);
      }
    } else {
      var o := Order(m, "", [], disk, _ => []);
      AssembledFile(o, stream, i);
      assert Output(o, i).0 != Done;
    }
  }

  /** Files of pl - 1 and of 2 bytes in pieces of pl: the second is taken from the first buffer. With nothing
      behind the piece there, the program panics; otherwise the byte behind it is written in place of the last
      one, and the file counts as written. */
  lemma {:induction false} StraddlingFile(pl: nat, h: seq<Digest>, stream: Bytes, tails: int -> Bytes)
    requires pl > 2 && |h| == 2 && h[0] != h[1] && |stream| == pl + 1
    ensures var m := Meta(pl, false, ["a", "b"], [pl - 1, 2], h);
            var o := Order(m, "", [], map[0 := stream[..pl], 1 := stream[pl..]], tails);
            && m.Valid() && m.Count(1) == 2 && m.First(1) == 0 && !Fits(m, 1)
            && AssembleFrom(pl, 2, Loads(o, h), m.Offset(1), [])
            == if tails(0) == [] then (Fault, []) else (Done, [stream[pl - 1], tails(0)[0]])
  {
    var m := Meta(pl, false, ["a", "b"], [pl - 1, 2], h);
    var o := Order(m, "", [], map[0 := stream[..pl], 1 := stream[pl..]], tails);
    StraddlingLayout(pl, m);
    assert PieceIndexFrom(h, h[1], 1) == 1;
    assert PieceIndex(h, h[0]) == 0 && PieceIndex(h, h[1]) == 1;
    var loads := Loads(o, h);
    assert loads == [Some(Buffer(stream[..pl], tails(0))), Some(Buffer(stream[pl..], tails(1)))];
    Straddles(pl, 2, loads, pl - 1);
    if tails(0) != [] {
      assert (stream[..pl] + tails(0))[pl - 1..pl + 1] == [stream[pl - 1], tails(0)[0]];
    }
  }

  lemma {:induction false} StraddlingLayout(pl: nat, m: Meta)
    requires pl > 2 && m.pieceLength == pl && m.lengths == [pl - 1, 2] && |m.names| == 2 && !m.single
    ensures m.Start(1) == pl - 1 && m.First(1) == 0 && m.Offset(1) == pl - 1 && m.Count(1) == 2 && !Fits(m, 1)
  {
    SumStep(m.lengths, 0);
    assert m.lengths[..0] == [] && m.Start(1) == pl - 1;
    assert Quot(pl - 1, pl) == 0 && Rem(pl - 1, pl) == pl - 1;
    assert Times(2, pl) == Times(1, pl) + pl && Times(1, pl) == Times(0, pl) + pl;
    SpanUnique(pl - 1, 2, pl, 2);
  }

  // ----- fileDone, assembleTorrent -----

  /** A file is done when every piece it lists is held, each looked up by its hash. */
  predicate IsDone(m: Meta, file: File, held: seq<bv8>)
  {
    forall h :: h in file.pieces ==> PieceIndex(m.hashes, h) >= 0 && Bits.Get(held, PieceIndex(m.hashes, h))
  }

  method FileDone(m: Meta, files: seq<File>, idx: nat, held: seq<bv8>) returns (r: bool)
    requires idx < |files|
    ensures r <==> IsDone(m, files[idx], held)
  {
    var file := files[idx];
    for j := 0 to |file.pieces|
      invariant forall h :: h in file.pieces[..j] ==>
          PieceIndex(m.hashes, h) >= 0 && Bits.Get(held, PieceIndex(m.hashes, h))
    {
      var pieceIdx := GetPieceIndex(m.hashes, file.pieces[j]);
      assert file.pieces[j] in file.pieces;
      if pieceIdx < 0 {
        return false;
      }
      if !Bits.Get(held, pieceIdx) {
        return false;
      }
    }
    assert file.pieces[..|file.pieces|] == file.pieces;
    return true;
  }

  /** One assembler serves all torrents. Each has a directory of its own, but whether a file has been written
      is kept by its base name alone. */
  datatype Path = Path(dir: string, name: string)

  datatype Session = Session(written: set<string>, downloads: map<Path, Bytes>)

  /** What becomes of a file that assembleTorrent does not pass over. */
  datatype Fate = NotDone | Fails(out: Bytes) | Panics(out: Bytes) | Finishes(out: Bytes)

  /** The fate of a file that starts so far into its first piece. */
  function FateOf(o: Order, file: File, offset: nat): Fate
  {
    if !IsDone(o.m, file, o.held) then NotDone
    else
      match Assembled(o, file, offset)
      case (Fault, out) => Panics(out)
      case (LoadError, out) => Fails(out)
      case (Done, out) => if |out| != file.length then Fails(out) else Finishes(out)
  }

  /** The fates of the given files, one behind the other. */
  ghost function FatesOf(o: Order, files: seq<File>): (r: seq<Fate>)
    requires o.m.Valid()
    ensures |r| == |files| && AreFates(o, files, r)
  {
    seq(|files|, i requires 0 <= i < |files| => FateOf(o, files[i], OffsetIn(files, i, o.m.pieceLength)))
  }

  ghost predicate AreFates(o: Order, files: seq<File>, fates: seq<Fate>)
    requires o.m.Valid()
  {
    |fates| == |files|
    && forall i :: 0 <= i < |fates| ==> fates[i] == FateOf(o, files[i], OffsetIn(files, i, o.m.pieceLength))
  }

  /** The fates of the files of a torrent that are laid out over its pieces. */
  ghost function Fates(o: Order): (r: seq<Fate>)
    requires o.m.Valid()
    ensures |r| == |o.m.names| && forall i :: 0 <= i < |r| ==> r[i] == FateOf(o, o.m.FileAt(i), o.m.Offset(i))
  {
    seq(|o.m.names|, i requires 0 <= i < |o.m.names| => FateOf(o, o.m.FileAt(i), o.m.Offset(i)))
  }

  function Visit(dir: string, name: string, fate: Fate, s: Session): (Session, bool)
  {
    if name in s.written then (s, true)
    else
      match fate
      case NotDone => (s, true)
      case Fails(out) => (Session(s.written, s.downloads[Path(dir, name) := out]), true)
      case Panics(out) => (Session(s.written, s.downloads[Path(dir, name) := out]), false)
      case Finishes(out) => (Session(s.written + {name}, s.downloads[Path(dir, name) := out]), true)
  }

  /** The first n files of assembleTorrent, and whether it has come that far. */
  function Pass(dir: string, names: seq<string>, fates: seq<Fate>, s: Session, n: nat): (Session, bool)
    requires n <= |names| == |fates|
  {
    if n == 0 then (s, true)
    else
      var (t, ok) := Pass(dir, names, fates, s, n - 1);
      if ok then Visit(dir, names[n - 1], fates[n - 1], t) else (t, false)
  }

  lemma {:induction false} PassOn(dir: string, names: seq<string>, fates: seq<Fate>, s: Session, n: nat)
    requires n < |names| == |fates| && Pass(dir, names, fates, s, n).1
    ensures Pass(dir, names, fates, s, n + 1) == Visit(dir, names[n], fates[n], Pass(dir, names, fates, s, n).0)
  {
  }

  lemma {:induction false} PassStops(dir: string, names: seq<string>, fates: seq<Fate>, s: Session, k: nat, n: nat)
    requires k <= n <= |names| == |fates| && !Pass(dir, names, fates, s, k).1
    ensures Pass(dir, names, fates, s, n) == Pass(dir, names, fates, s, k)
  {
    if k < n {
      PassStops(dir, names, fates, s, k, n - 1);
    }
  }

  ghost function WholePass(o: Order, s: Session): (Session, bool)
    requires o.m.Valid()
  {
    Pass(o.dir, o.m.names, Fates(o), s, |o.m.names|)
  }

  /** For files that are laid out over the pieces, a pass over them is the pass over the torrent. */
  lemma {:induction false} LaidOutPass(o: Order, files: seq<File>, s: Session)
    requires o.m.Valid() && o.m.LaidOut(files)
    ensures Pass(o.dir, Names(files), FatesOf(o, files), s, |files|) == WholePass(o, s)
  {
    assert Names(files) == o.m.names && Lengths(files) == o.m.lengths;
    assert FatesOf(o, files) == Fates(o);
  }

  /** A file without pieces, as an empty single-file torrent has it, is done at once, and makes every pass panic
      until its name is marked. */
  lemma {:induction false} Pieceless(o: Order, name: string, length: nat, s: Session)
    requires o.m.Valid()
    ensures var files := [File(name, length, [])];
            Pass(o.dir, Names(files), FatesOf(o, files), s, 1).1 <==> name in s.written
  {
    var files := [File(name, length, [])];
    assert FatesOf(o, files)[0] == Panics([]);
    PassOn(o.dir, Names(files), FatesOf(o, files), s, 0);
  }

  /** Some piece of the file is not held, where the first piece with its hash is looked up. */
  ghost predicate Lacks(o: Order, file: File)
  {
    exists h :: h in file.pieces && (PieceIndex(o.m.hashes, h) < 0 || !Bits.Get(o.held, PieceIndex(o.m.hashes, h)))
  }

  ghost predicate SameAt(before: map<Path, Bytes>, after: map<Path, Bytes>, p: Path)
  {
    (p in after <==> p in before) && (p in before ==> after[p] == before[p])
  }

  /** The file has all its pieces, held and on disk, and as many bytes as it announces have been written. */
  ghost predicate IsThere(o: Order, file: File, downloads: map<Path, Bytes>)
  {
    && file.pieces != []
    && (forall h :: h in file.pieces ==>
          var p := PieceIndex(o.m.hashes, h); p >= 0 && Bits.Get(o.held, p) && p in o.disk)
    && Path(o.dir, file.name) in downloads && |downloads[Path(o.dir, file.name)]| == file.length
  }

  lemma {:induction false} PassLeaves(dir: string, names: seq<string>, fates: seq<Fate>, s: Session, n: nat, p: Path)
    requires n <= |names| == |fates|
    requires p.dir == dir ==> forall i :: 0 <= i < n && names[i] == p.name ==> p.name in s.written || fates[i].NotDone?
    ensures SameAt(s.downloads, Pass(dir, names, fates, s, n).0.downloads, p)
  {
    if n > 0 {
      PassLeaves(dir, names, fates, s, n - 1, p);
      PassUntouched(dir, names, fates, s, n - 1);
    }
  }

  lemma {:induction false} LacksIsNotDone(o: Order, file: File, offset: nat)
    ensures Lacks(o, file) <==> FateOf(o, file, offset).NotDone?
  {
  }

  lemma {:induction false} DoneIsLoaded(pieceLen: nat, fileSize: nat, loads: seq<Option<Buffer>>, offset: nat,
                                        out: Bytes)
    requires AssembleFrom(pieceLen, fileSize, loads, offset, out).0 == Done
    ensures AllLoaded(loads)
    decreases |loads|
  {
    if loads != [] {
      var data := Taken(loads[0].value, pieceLen, fileSize - |out|, offset).value;
      DoneIsLoaded(pieceLen, fileSize, loads[1..], 0, out + data);
      AllLoadedStep(loads);
    }
  }

  lemma {:induction false} FinishesIsThere(o: Order, file: File, offset: nat, downloads: map<Path, Bytes>)
    requires FateOf(o, file, offset).Finishes?
    requires Path(o.dir, file.name) in downloads
    requires downloads[Path(o.dir, file.name)] == FateOf(o, file, offset).out
    ensures IsThere(o, file, downloads)
  {
    var loads := Loads(o, file.pieces);
    DoneIsLoaded(o.m.pieceLength, file.length, loads, offset, []);
    forall h | h in file.pieces ensures PieceIndex(o.m.hashes, h) in o.disk {
      var j :| 0 <= j < |file.pieces| && file.pieces[j] == h;
      assert loads[j].Some?;
    }
  }

  /** A name is newly marked by the first file with that name that finishes, and nothing is written there afterwards. */
  lemma {:induction false} PassMarks(dir: string, names: seq<string>, fates: seq<Fate>, s: Session, n: nat,
                                     name: string)
    returns (i: nat)
    requires n <= |names| == |fates| && name !in s.written && name in Pass(dir, names, fates, s, n).0.written
    ensures i < n && names[i] == name && fates[i].Finishes?
    ensures var t := Pass(dir, names, fates, s, n).0;
            Path(dir, name) in t.downloads && t.downloads[Path(dir, name)] == fates[i].out
  {
    if name in Pass(dir, names, fates, s, n - 1).0.written {
      i := PassMarks(dir, names, fates, s, n - 1, name);
    } else {
      i := n - 1;
    }
  }

  /** What a pass over any files leaves alone, and what it marks. */
  lemma {:induction false} PassFrame(o: Order, files: seq<File>, s: Session)
    requires o.m.Valid()
    ensures var t := Pass(o.dir, Names(files), FatesOf(o, files), s, |files|).0;
            && s.written <= t.written
            && (forall p: Path ::
                  (p.dir == o.dir ==> forall i :: 0 <= i < |files| && files[i].name == p.name ==>
                     p.name in s.written || Lacks(o, files[i]))
                  ==> SameAt(s.downloads, t.downloads, p))
            && forall name :: name in t.written && name !in s.written ==>
                 exists i :: 0 <= i < |files| && files[i].name == name && IsThere(o, files[i], t.downloads)
  {
    var names, fates := Names(files), FatesOf(o, files);
    var t := Pass(o.dir, names, fates, s, |files|).0;
    PassUntouched(o.dir, names, fates, s, |files|);
    forall p: Path | p.dir == o.dir ==> forall i :: 0 <= i < |files| && files[i].name == p.name ==>
                       p.name in s.written || Lacks(o, files[i])
      ensures SameAt(s.downloads, t.downloads, p)
    {
      forall i | p.dir == o.dir && 0 <= i < |files| && files[i].name == p.name
        ensures p.name in s.written || fates[i].NotDone?
      {
        LacksIsNotDone(o, files[i], OffsetIn(files, i, o.m.pieceLength));
      }
      PassLeaves(o.dir, names, fates, s, |files|, p);
    }
    forall name | name in t.written && name !in s.written
      ensures exists i :: 0 <= i < |files| && files[i].name == name && IsThere(o, files[i], t.downloads)
    {
      var i := PassMarks(o.dir, names, fates, s, |files|, name);
      FinishesIsThere(o, files[i], OffsetIn(files, i, o.m.pieceLength), t.downloads);
    }
  }

  class Assembler {
    var written: set<string>
    var downloads: map<Path, Bytes>

    constructor ()
      ensures View() == Session({}, map[])
    {
      written, downloads := {}, map[];
    }

    ghost function View(): Session
      reads this
    {
      Session(written, downloads)
    }

    /** `files` are the files as the torrent gives them out, whatever pieces they list. Where every file of a name was
        marked before or has a piece that is not held, nothing is touched. A name that is newly marked is that of a
        file whose pieces are all held and on disk, and as many bytes as it announces are there. */
    method AssembleTorrent(o: Order, files: seq<File>) returns (ok: bool)
      requires o.m.Valid()
      modifies this
      ensures (View(), ok) == Pass(o.dir, Names(files), FatesOf(o, files), old(View()), |files|)
      ensures o.m.LaidOut(files) ==> (View(), ok) == WholePass(o, old(View()))
      ensures forall p: Path ::
        (p.dir == o.dir ==> forall i :: 0 <= i < |files| && files[i].name == p.name ==>
           p.name in old(written)
           || exists h :: h in files[i].pieces
                          && (PieceIndex(o.m.hashes, h) < 0 || !Bits.Get(o.held, PieceIndex(o.m.hashes, h))))
        ==> (p in downloads <==> p in old(downloads)) && (p in downloads ==> downloads[p] == old(downloads)[p])
      ensures forall name :: name in written && name !in old(written) ==>
        exists i :: 0 <= i < |files| && files[i].name == name && IsThere(o, files[i], downloads)
      ensures old(written) <= written
    {
      ok := VisitFiles(o, files, FatesOf(o, files));
      if o.m.LaidOut(files) {
        LaidOutPass(o, files, old(View()));
      }
      PassFrame(o, files, old(View()));
    }

    method VisitFiles(o: Order, files: seq<File>, ghost fates: seq<Fate>) returns (ok: bool)
      requires o.m.Valid() && AreFates(o, files, fates)
      modifies this
      ensures (View(), ok) == Pass(o.dir, Names(files), fates, old(View()), |files|)
    {
      ghost var s, names := View(), Names(files);
      for idx := 0 to |files|
        invariant Pass(o.dir, names, fates, s, idx) == (View(), true)
      {
        PassOn(o.dir, names, fates, s, idx);
        ok := VisitFile(o, files, idx, fates);
        if !ok {
          PassStops(o.dir, names, fates, s, idx + 1, |files|);
          return false;
        }
      }
      return true;
    }

    /** The body of that loop. */
    method VisitFile(o: Order, files: seq<File>, idx: nat, ghost fates: seq<Fate>) returns (ok: bool)
      requires o.m.Valid() && idx < |files| && AreFates(o, files, fates)
      modifies this
      ensures (View(), ok) == Visit(o.dir, files[idx].name, fates[idx], old(View()))
    {
      assert fates[idx] == FateOf(o, files[idx], OffsetIn(files, idx, o.m.pieceLength));
      var file := files[idx];
      if file.name in written {
        return true;
      }
      var done := FileDone(o.m, files, idx, o.held);
      if !done {
        return true;
      }
      ok := WriteFile(o, files, idx);
    }

    /** The rest of it, for a file that is done and has not been written. */
    method WriteFile(o: Order, files: seq<File>, idx: nat) returns (ok: bool)
      requires o.m.Valid() && idx < |files|
      requires files[idx].name !in written && IsDone(o.m, files[idx], o.held)
      modifies this
      ensures (View(), ok) == Visit(o.dir, files[idx].name,
                                    FateOf(o, files[idx], OffsetIn(files, idx, o.m.pieceLength)), old(View()))
    {
      var file := files[idx];
      var status, out := AssembleFile(o, files, idx);
      downloads := downloads[Path(o.dir, file.name) := out];
      if status == Fault {
        return false;
      }
      if status == LoadError || |out| != file.length {
        return true;
      }
      written := written + {file.name};
      return true;
    }
  }

  // ----- what a pass achieves -----

  /** The names of the files that finish among the first n. */
  ghost function Finished(names: seq<string>, fates: seq<Fate>, n: nat): set<string>
    requires n <= |names| == |fates|
  {
    if n == 0 then {} else Finished(names, fates, n - 1) + if fates[n - 1].Finishes? then {names[n - 1]} else {}
  }

  /** A pass passes over file i: its name was taken before, or by a file in front of it. */
  ghost predicate PassedOver(names: seq<string>, fates: seq<Fate>, s: Session, i: nat)
    requires i < |names| == |fates|
  {
    names[i] in s.written + Finished(names, fates, i)
  }

  ghost predicate NoPanic(names: seq<string>, fates: seq<Fate>, s: Session, n: nat)
    requires n <= |names| == |fates|
  {
    forall i :: 0 <= i < n && fates[i].Panics? ==> PassedOver(names, fates, s, i)
  }

  /** Each of the first n files that finishes, and is not passed over, is in the directory. */
  ghost predicate Outputs(dir: string, names: seq<string>, fates: seq<Fate>, s: Session, downloads: map<Path, Bytes>,
                          n: nat)
    requires n <= |names| == |fates|
  {
    forall i :: 0 <= i < n && fates[i].Finishes? && !PassedOver(names, fates, s, i) ==>
      Path(dir, names[i]) in downloads && downloads[Path(dir, names[i])] == fates[i].out
  }

  /** Nothing outside the torrent's directory changes, and nothing under a name that was taken before. */
  ghost predicate Untouched(dir: string, s: Session, t: Session)
  {
    && s.written <= t.written
    && forall p: Path :: p.dir != dir || p.name in s.written ==>
         (p in t.downloads <==> p in s.downloads) && (p in s.downloads ==> t.downloads[p] == s.downloads[p])
  }

  ghost predicate Achieved(dir: string, names: seq<string>, fates: seq<Fate>, s: Session, t: Session, n: nat)
    requires n <= |names| == |fates|
  {
    t.written == s.written + Finished(names, fates, n) && Outputs(dir, names, fates, s, t.downloads, n)
  }

  lemma {:induction false} FinishedGrow(names: seq<string>, fates: seq<Fate>, i: nat, n: nat)
    requires i <= n <= |names| == |fates|
    ensures Finished(names, fates, i) <= Finished(names, fates, n)
    ensures i < n && fates[i].Finishes? ==> names[i] in Finished(names, fates, n)
  {
    if i < n {
      FinishedGrow(names, fates, i, n - 1);
    }
  }

  lemma {:induction false} VisitStep(dir: string, names: seq<string>, fates: seq<Fate>, s: Session, t: Session, n: nat)
    requires n < |names| == |fates| && Achieved(dir, names, fates, s, t, n)
    ensures var (u, ok) := Visit(dir, names[n], fates[n], t);
            (ok <==> fates[n].Panics? ==> PassedOver(names, fates, s, n)) && Achieved(dir, names, fates, s, u, n + 1)
  {
    var u := Visit(dir, names[n], fates[n], t).0;
    forall i | 0 <= i < n && fates[i].Finishes? && !PassedOver(names, fates, s, i)
      ensures Path(dir, names[i]) in u.downloads && u.downloads[Path(dir, names[i])] == fates[i].out
    {
      FinishedGrow(names, fates, i, n);
    }
  }

  /** What the first n files of a pass achieve: it panics at the first file that panics and is not passed over,
      and otherwise marks the files that finish and writes each of them that it does not pass over. */
  lemma {:induction false} PassEffect(dir: string, names: seq<string>, fates: seq<Fate>, s: Session, n: nat)
    requires n <= |names| == |fates|
    ensures var (t, ok) := Pass(dir, names, fates, s, n);
            (ok <==> NoPanic(names, fates, s, n)) && (ok ==> Achieved(dir, names, fates, s, t, n))
  {
    if n > 0 {
      PassEffect(dir, names, fates, s, n - 1);
      var (t, ok) := Pass(dir, names, fates, s, n - 1);
      if ok {
        VisitStep(dir, names, fates, s, t, n - 1);
      }
    }
  }

  lemma {:induction false} PassUntouched(dir: string, names: seq<string>, fates: seq<Fate>, s: Session, n: nat)
    requires n <= |names| == |fates|
    ensures Untouched(dir, s, Pass(dir, names, fates, s, n).0)
  {
    if n > 0 {
      PassUntouched(dir, names, fates, s, n - 1);
    }
  }

  ghost predicate Distinct(names: seq<string>)
  {
    forall i, j :: 0 <= i < j < |names| ==> names[i] != names[j]
  }

  lemma {:induction false} FinishedIn(names: seq<string>, fates: seq<Fate>, n: nat, i: nat)
    requires n <= |names| == |fates| && i < |names| && Distinct(names)
    ensures names[i] in Finished(names, fates, n) <==> i < n && fates[i].Finishes?
  {
    if n > 0 {
      FinishedIn(names, fates, n - 1, i);
    }
  }

  /** With distinct names, a pass goes through if and only if every file that panics was marked before. */
  lemma {:induction false} PassesIff(dir: string, names: seq<string>, fates: seq<Fate>, s: Session)
    requires |names| == |fates| && Distinct(names)
    ensures Pass(dir, names, fates, s, |names|).1
          <==> forall i :: 0 <= i < |names| && fates[i].Panics? ==> names[i] in s.written
  {
    PassEffect(dir, names, fates, s, |names|);
    forall i | 0 <= i < |names| ensures PassedOver(names, fates, s, i) <==> names[i] in s.written {
      FinishedIn(names, fates, i, i);
    }
  }

  /** And what it then leaves of file i: what was there under a name that was taken, or what the file finished
      with. */
  lemma {:induction false} AfterPass(dir: string, names: seq<string>, fates: seq<Fate>, s: Session, i: nat)
    requires i < |names| == |fates| && Distinct(names) && Pass(dir, names, fates, s, |names|).1
    ensures var t, p := Pass(dir, names, fates, s, |names|).0, Path(dir, names[i]);
            && (names[i] in t.written <==> names[i] in s.written || fates[i].Finishes?)
            && (names[i] in s.written ==>
                (p in t.downloads <==> p in s.downloads) && (p in s.downloads ==> t.downloads[p] == s.downloads[p]))
            && (names[i] !in s.written && fates[i].Finishes? ==> p in t.downloads && t.downloads[p] == fates[i].out)
  {
    PassEffect(dir, names, fates, s, |names|);
    PassUntouched(dir, names, fates, s, |names|);
    FinishedIn(names, fates, |names|, i);
    FinishedIn(names, fates, i, i);
    assert Path(dir, names[i]).name == names[i];
  }

  lemma {:induction false} OthersOnly(dir: string, names: seq<string>, fates: seq<Fate>, s: Session, n: nat, p: Path)
    requires n <= |names| == |fates| && forall j :: 0 <= j < n ==> names[j] != p.name
    ensures SameAt(s.downloads, Pass(dir, names, fates, s, n).0.downloads, p)
  {
    if n > 0 {
      OthersOnly(dir, names, fates, s, n - 1, p);
    }
  }

  /** With distinct names, what is under the name of file i is left as it was if the file is not done or was marked
      before; otherwise it is what assembling the file has put out, however that ended. */
  lemma {:induction false} OwnVisit(dir: string, names: seq<string>, fates: seq<Fate>, s: Session, n: nat, i: nat)
    requires i < n <= |names| == |fates| && Distinct(names)
    requires Pass(dir, names, fates, s, i).1
    ensures var t, p := Pass(dir, names, fates, s, n).0, Path(dir, names[i]);
            if names[i] in s.written || fates[i].NotDone? then SameAt(s.downloads, t.downloads, p)
            else p in t.downloads && t.downloads[p] == fates[i].out
  {
    if i < n - 1 {
      OwnVisit(dir, names, fates, s, n - 1, i);
    } else {
      OthersOnly(dir, names, fates, s, i, Path(dir, names[i]));
      PassEffect(dir, names, fates, s, i);
      FinishedIn(names, fates, i, i);
    }
  }

  // ----- the true bytes -----

  ghost predicate IsFile(m: Meta, stream: Bytes, i: int, data: Bytes)
  {
    0 <= i < |m.lengths| && m.Start(i) + m.lengths[i] <= |stream| && data == FileBytes(m, stream, i)
  }

  /** The directory of the torrent has the true bytes of file i. */
  ghost predicate Holds(m: Meta, dir: string, stream: Bytes, downloads: map<Path, Bytes>, i: int)
    requires m.Valid()
  {
    0 <= i < |m.names| && Path(dir, m.names[i]) in downloads && IsFile(m, stream, i, downloads[Path(dir, m.names[i])])
  }

  /** Every file of the torrent whose name is marked as written is there with its true bytes. */
  ghost predicate Sound(m: Meta, dir: string, stream: Bytes, s: Session)
    requires m.Valid()
  {
    forall i :: 0 <= i < |m.names| && m.names[i] in s.written ==> Holds(m, dir, stream, s.downloads, i)
  }

  /** File i is done and can be assembled, rightly or not. */
  ghost predicate Ready(o: Order, i: int)
    requires o.m.Valid()
  {
    0 <= i < |o.m.lengths| && IsDone(o.m, o.m.FileAt(i), o.held) && Ending(o, i) == Done
  }

  /** File i is done, and assembling it panics. */
  ghost predicate Faulty(o: Order, i: int)
    requires o.m.Valid()
  {
    0 <= i < |o.m.lengths| && IsDone(o.m, o.m.FileAt(i), o.held) && Ending(o, i) == Fault
  }

  lemma {:induction false} FateIs(o: Order, stream: Bytes, i: nat)
    requires Given(o.m, o.disk, stream) && i < |o.m.names|
    ensures o.m.Start(i) + o.m.lengths[i] <= |stream|
    ensures Fates(o)[i].Finishes? <==> Ready(o, i)
    ensures Fates(o)[i].Panics? <==> Faulty(o, i)
    ensures Fates(o)[i].Finishes? ==> (IsFile(o.m, stream, i, Fates(o)[i].out) <==> Clean(o, stream, i))
  {
    AssembledFile(o, stream, i);
    assert Fates(o)[i] == FateOf(o, o.m.FileAt(i), o.m.Offset(i));
    if Ready(o, i) {
      CleanIsRight(o, stream, i);
    }
  }

  /** The names that a pass marks. */
  ghost function Marked(o: Order): set<string>
    requires o.m.Valid()
  {
    Finished(o.m.names, Fates(o), |o.m.names|)
  }

  lemma {:induction false} MarkedAre(o: Order, stream: Bytes, i: nat)
    requires Given(o.m, o.disk, stream) && Distinct(o.m.names) && i < |o.m.names|
    ensures o.m.names[i] in Marked(o) <==> Ready(o, i)
  {
    FateIs(o, stream, i);
    FinishedIn(o.m.names, Fates(o), |o.m.names|, i);
  }

  /** A pass over a torrent with distinct names goes through if and only if every faulty file was marked
      before. */
  lemma {:induction false} GoesThroughIff(o: Order, stream: Bytes, s: Session)
    requires Given(o.m, o.disk, stream) && Distinct(o.m.names)
    ensures WholePass(o, s).1 <==> forall i :: 0 <= i < |o.m.names| && Faulty(o, i) ==> o.m.names[i] in s.written
    ensures WholePass(o, s).1 ==> WholePass(o, s).0.written == s.written + Marked(o)
  {
    PassesIff(o.dir, o.m.names, Fates(o), s);
    PassEffect(o.dir, o.m.names, Fates(o), s, |o.m.names|);
    forall i | 0 <= i < |o.m.names| ensures Fates(o)[i].Panics? <==> Faulty(o, i) {
      FateIs(o, stream, i);
    }
  }

  /** File by file: one whose name was taken stays as it is; another one that is ready is there rightly if and
      only if it is clean. */
  lemma {:induction false} FileAfterPass(o: Order, stream: Bytes, s: Session, i: nat)
    requires Given(o.m, o.disk, stream) && Distinct(o.m.names) && i < |o.m.names| && WholePass(o, s).1
    ensures o.m.Start(i) + o.m.lengths[i] <= |stream|
    ensures var t := WholePass(o, s).0;
            && (o.m.names[i] in t.written <==> o.m.names[i] in s.written || Ready(o, i))
            && (o.m.names[i] in s.written ==>
                  (Holds(o.m, o.dir, stream, t.downloads, i) <==> Holds(o.m, o.dir, stream, s.downloads, i)))
            && (o.m.names[i] !in s.written && Ready(o, i) ==>
                  (Holds(o.m, o.dir, stream, t.downloads, i) <==> Clean(o, stream, i)))
  {
    FateIs(o, stream, i);
    AfterPass(o.dir, o.m.names, Fates(o), s, i);
  }

  /** A file that is done, but of which some piece cannot be loaded, is not marked; what comes before that piece is
      left under its name, in the place of what may have been there. */
  lemma {:induction false} UnloadedAfterPass(o: Order, stream: Bytes, s: Session, i: nat)
    requires Given(o.m, o.disk, stream) && Distinct(o.m.names) && i < |o.m.names| && WholePass(o, s).1
    requires o.m.names[i] !in s.written && IsDone(o.m, o.m.FileAt(i), o.held) && !Ready(o, i)
    ensures o.m.Start(i) + o.m.lengths[i] <= |stream|
    ensures var t, p := WholePass(o, s).0, Path(o.dir, o.m.names[i]);
            var k := FirstMissing(Loads(o, o.m.FileAt(i).pieces));
            && o.m.names[i] !in t.written && p in t.downloads
            && k < |o.m.FileAt(i).pieces| && WrittenUpTo(o, stream, i, k, t.downloads[p])
  {
    FateIs(o, stream, i);
    GoesThroughIff(o, stream, s);
    FileAfterPass(o, stream, s, i);
    UnloadedFile(o, stream, i);
    AssembledFile(o, stream, i);
    ThroughBefore(o.dir, o.m.names, Fates(o), s, i, |o.m.names|);
    OwnVisit(o.dir, o.m.names, Fates(o), s, |o.m.names|, i);
  }

  lemma {:induction false} ThroughBefore(dir: string, names: seq<string>, fates: seq<Fate>, s: Session, i: nat, n: nat)
    requires i <= n <= |names| == |fates| && Pass(dir, names, fates, s, n).1
    ensures Pass(dir, names, fates, s, i).1
  {
    if i < n {
      ThroughBefore(dir, names, fates, s, i, n - 1);
    }
  }

  /** A pass that panics has come to its first faulty file that was not marked. It leaves nothing but an empty file
      under that name; the files before it have been dealt with, and those after it are as they were. */
  lemma {:induction false} AfterPanic(o: Order, stream: Bytes, s: Session) returns (i: nat)
    requires Given(o.m, o.disk, stream) && Distinct(o.m.names) && !WholePass(o, s).1
    ensures i < |o.m.names| && Faulty(o, i) && o.m.names[i] !in s.written
    ensures forall j :: 0 <= j < i && Faulty(o, j) ==> o.m.names[j] in s.written
    ensures var (t, ok) := WholePass(o, s);
            && Path(o.dir, o.m.names[i]) in t.downloads && t.downloads[Path(o.dir, o.m.names[i])] == []
            && (forall j :: 0 <= j < |o.m.names| ==>
                  (o.m.names[j] in t.written <==> o.m.names[j] in s.written || (j < i && Ready(o, j))))
            && forall j :: i < j < |o.m.names| ==> SameAt(s.downloads, t.downloads, Path(o.dir, o.m.names[j]))
  {
    i := FirstPanic(o.dir, o.m.names, Fates(o), s, |o.m.names|);
    PanicAt(o.dir, o.m.names, Fates(o), s, i);
    FateIs(o, stream, i);
    FaultyOut(o, stream, i);
    forall j | 0 <= j < |o.m.names|
      ensures j < i && Faulty(o, j) ==> o.m.names[j] in s.written
      ensures o.m.names[j] in WholePass(o, s).0.written <==> o.m.names[j] in s.written || (j < i && Ready(o, j))
      ensures i < j ==> SameAt(s.downloads, WholePass(o, s).0.downloads, Path(o.dir, o.m.names[j]))
    {
      FateIs(o, stream, j);
      AroundPanic(o.dir, o.m.names, Fates(o), s, i, j);
    }
  }

  lemma {:induction false} PanicAt(dir: string, names: seq<string>, fates: seq<Fate>, s: Session, i: nat)
    requires i < |names| == |fates| && Distinct(names)
    requires Pass(dir, names, fates, s, i).1 && !Pass(dir, names, fates, s, i + 1).1
    ensures fates[i].Panics? && names[i] !in s.written
    ensures var t, p := Pass(dir, names, fates, s, |names|).0, Path(dir, names[i]);
            p in t.downloads && t.downloads[p] == fates[i].out
    ensures Pass(dir, names, fates, s, |names|) == Pass(dir, names, fates, s, i + 1)
  {
    PassEffect(dir, names, fates, s, i);
    FinishedIn(names, fates, i, i);
    PassStops(dir, names, fates, s, i + 1, |names|);
  }

  lemma {:induction false} AroundPanic(dir: string, names: seq<string>, fates: seq<Fate>, s: Session, i: nat, j: nat)
    requires i < |names| == |fates| && j < |names| && Distinct(names)
    requires Pass(dir, names, fates, s, i).1 && !Pass(dir, names, fates, s, i + 1).1
    ensures j < i && fates[j].Panics? ==> names[j] in s.written
    ensures var t := Pass(dir, names, fates, s, |names|).0;
            && (names[j] in t.written <==> names[j] in s.written || (j < i && fates[j].Finishes?))
            && (i < j ==> SameAt(s.downloads, t.downloads, Path(dir, names[j])))
  {
    PanicAt(dir, names, fates, s, i);
    PassEffect(dir, names, fates, s, i);
    FinishedIn(names, fates, i, j);
    FinishedIn(names, fates, j, j);
    if i < j {
      OthersOnly(dir, names, fates, s, i + 1, Path(dir, names[j]));
    }
  }

  lemma {:induction false} FirstPanic(dir: string, names: seq<string>, fates: seq<Fate>, s: Session, n: nat)
    returns (i: nat)
    requires n <= |names| == |fates| && !Pass(dir, names, fates, s, n).1
    ensures i < n && Pass(dir, names, fates, s, i).1 && !Pass(dir, names, fates, s, i + 1).1
  {
    if Pass(dir, names, fates, s, n - 1).1 {
      i := n - 1;
    } else {
      i := FirstPanic(dir, names, fates, s, n - 1);
    }
  }

  lemma {:induction false} FaultyOut(o: Order, stream: Bytes, i: nat)
    requires Given(o.m, o.disk, stream) && i < |o.m.names| && Faulty(o, i)
    ensures Fates(o)[i] == Panics([])
  {
    FirstLoad(o, i);
    FateIs(o, stream, i);
    FirstIsWhole(o, stream, i);
    Straddles(o.m.pieceLength, o.m.lengths[i], Loads(o, o.m.FileAt(i).pieces), o.m.Offset(i));
  }

  /** A pass keeps the session sound if and only if every file it marks is clean. */
  lemma {:induction false} SoundIff(o: Order, stream: Bytes, s: Session)
    requires Given(o.m, o.disk, stream) && Distinct(o.m.names) && WholePass(o, s).1 && Sound(o.m, o.dir, stream, s)
    ensures forall i :: 0 <= i < |o.m.names| ==> o.m.Start(i) + o.m.lengths[i] <= |stream|
    ensures Sound(o.m, o.dir, stream, WholePass(o, s).0)
       <==> forall i :: 0 <= i < |o.m.names| && Ready(o, i) && o.m.names[i] !in s.written ==> Clean(o, stream, i)
  {
    var t := WholePass(o, s).0;
    forall i | 0 <= i < |o.m.names|
      ensures o.m.Start(i) + o.m.lengths[i] <= |stream|
      ensures (o.m.names[i] in t.written ==> Holds(o.m, o.dir, stream, t.downloads, i))
         <==> (Ready(o, i) && o.m.names[i] !in s.written ==> Clean(o, stream, i))
    {
      FileAfterPass(o, stream, s, i);
    }
  }

  /** It leaves every ready file in the directory with its true bytes if and only if each is clean, or marked
      and there already: a name that was marked for a file of another torrent keeps this one out. */
  lemma {:induction false} AllReadyIff(o: Order, stream: Bytes, s: Session)
    requires Given(o.m, o.disk, stream) && Distinct(o.m.names) && WholePass(o, s).1
    ensures forall i :: 0 <= i < |o.m.names| ==> o.m.Start(i) + o.m.lengths[i] <= |stream|
    ensures (forall i :: 0 <= i < |o.m.names| && Ready(o, i) ==>
             Holds(o.m, o.dir, stream, WholePass(o, s).0.downloads, i))
       <==> forall i :: 0 <= i < |o.m.names| && Ready(o, i) ==>
              if o.m.names[i] in s.written then Holds(o.m, o.dir, stream, s.downloads, i) else Clean(o, stream, i)
  {
    forall i | 0 <= i < |o.m.names|
      ensures o.m.Start(i) + o.m.lengths[i] <= |stream|
      ensures Ready(o, i) ==>
                (Holds(o.m, o.dir, stream, WholePass(o, s).0.downloads, i)
                 <==> if o.m.names[i] in s.written then Holds(o.m, o.dir, stream, s.downloads, i)
                      else Clean(o, stream, i))
    {
      FileAfterPass(o, stream, s, i);
    }
  }

  /** A pass for one torrent keeps the session sound for another one, in another directory, if and only if
      every name it marks is of no file of that other torrent, or of one that is there already. */
  lemma {:induction false} OtherTorrent(o: Order, s: Session, other: Meta, dir: string, data: Bytes)
    requires o.m.Valid() && WholePass(o, s).1
    requires other.Valid() && dir != o.dir && Sound(other, dir, data, s)
    ensures Sound(other, dir, data, WholePass(o, s).0)
       <==> forall j :: 0 <= j < |other.names| && other.names[j] in Marked(o) ==>
           Holds(other, dir, data, s.downloads, j)
  {
    var t := WholePass(o, s).0;
    PassEffect(o.dir, o.m.names, Fates(o), s, |o.m.names|);
    PassUntouched(o.dir, o.m.names, Fates(o), s, |o.m.names|);
    forall j | 0 <= j < |other.names|
      ensures Holds(other, dir, data, t.downloads, j) <==> Holds(other, dir, data, s.downloads, j)
    {
      assert Path(dir, other.names[j]).dir == dir;
    }
  }

  ghost predicate AreFiles(m: Meta, stream: Bytes, data: seq<Bytes>)
  {
    |data| == |m.lengths| && forall i :: 0 <= i < |data| ==> IsFile(m, stream, i, data[i])
  }

  /** The files, one after another, are the whole stream. */
  lemma {:induction false} FilesConcatenate(m: Meta, stream: Bytes, data: seq<Bytes>)
    requires m.Valid() && |stream| == m.Total() && AreFiles(m, stream, data)
    ensures Concat(data) == stream
  {
    ConcatPrefix(m, stream, data, |data|);
    assert data[..|data|] == data && m.lengths[..|data|] == m.lengths;
  }

  lemma {:induction false} ConcatPrefix(m: Meta, stream: Bytes, data: seq<Bytes>, n: nat)
    requires n <= |data| && AreFiles(m, stream, data)
    ensures m.Start(n) <= |stream| && Concat(data[..n]) == stream[..m.Start(n)]
  {
    if n > 0 {
      ConcatPrefix(m, stream, data, n - 1);
      SumStep(m.lengths, n - 1);
      ConcatStep(data, n - 1);
      assert IsFile(m, stream, n - 1, data[n - 1]);
      JoinPrefix(stream, m.Start(n - 1), m.Start(n));
    }
  }

  lemma {:induction false} ConcatStep(data: seq<Bytes>, n: nat)
    requires n < |data|
    ensures Concat(data[..n + 1]) == Concat(data[..n]) + data[n]
  {
    assert data[..n + 1][..n] == data[..n];
  }

  lemma {:induction false} JoinPrefix(stream: Bytes, s: nat, e: nat)
    requires s <= e <= |stream|
    ensures stream[..s] + stream[s..e] == stream[..e]
  {
  }

  /** Once all files are marked as written in a sound session, the directory of the torrent holds, file after
      file, the whole stream. */
  lemma {:induction false} DownloadsAreStream(m: Meta, dir: string, stream: Bytes, s: Session)
    requires m.Valid() && |stream| == m.Total() && Sound(m, dir, stream, s)
    requires forall i :: 0 <= i < |m.names| ==> m.names[i] in s.written
    ensures HoldsStream(m, dir, stream, s.downloads)
  {
    HoldsAll(m, dir, stream, s.downloads);
  }

  /** The files of the torrent as they are in its directory. */
  ghost function Contents(m: Meta, dir: string, downloads: map<Path, Bytes>): (r: seq<Bytes>)
    requires forall name :: name in m.names ==> Path(dir, name) in downloads
    ensures |r| == |m.names| && forall i :: 0 <= i < |m.names| ==> r[i] == downloads[Path(dir, m.names[i])]
  {
    seq(|m.names|, i requires 0 <= i < |m.names| => downloads[Path(dir, m.names[i])])
  }

  ghost predicate HoldsStream(m: Meta, dir: string, stream: Bytes, downloads: map<Path, Bytes>)
  {
    (forall name :: name in m.names ==> Path(dir, name) in downloads) && Concat(Contents(m, dir, downloads)) == stream
  }

  lemma {:induction false} HoldsAll(m: Meta, dir: string, stream: Bytes, downloads: map<Path, Bytes>)
    requires m.Valid() && |stream| == m.Total()
    requires forall i :: 0 <= i < |m.names| ==> Holds(m, dir, stream, downloads, i)
    ensures HoldsStream(m, dir, stream, downloads)
  {
    forall name | name in m.names ensures Path(dir, name) in downloads {
      var i :| 0 <= i < |m.names| && m.names[i] == name;
      assert Holds(m, dir, stream, downloads, i);
    }
    var data := Contents(m, dir, downloads);
    forall i | 0 <= i < |data| ensures IsFile(m, stream, i, data[i]) {
      assert Holds(m, dir, stream, downloads, i);
    }
    FilesConcatenate(m, stream, data);
  }
}
