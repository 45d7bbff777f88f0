/** Torrent metadata: how the files of a torrent are laid out over its pieces
    (pkg/btorrent/torrent.go, pkg/btorrent/file.go).

    The torrent's data is one byte stream, the files one after another, cut into pieces of
    `pieceLength` bytes; only the last piece may be shorter. The bencoded dictionary is a record here.
 */
module Torrents {
  import opened Basics

  /** `files` holds the entries of the "files" list; a single-file torrent has no such list. */
  datatype Meta = Meta(pieceLength: nat, single: bool, names: seq<string>, lengths: seq<nat>, hashes: seq<Digest>)
  {
    /** What the bencoded dictionary of any torrent provides. */
    predicate Valid()
    {
      && pieceLength > 0
      && |names| == |lengths|
      && (single ==> |lengths| == 1)
    }

    function Total(): nat { Sum(lengths) }

    /** The number of pieces the data needs. */
    function Needed(): nat
      requires Valid()
    {
      CeilDiv(Total(), pieceLength)
    }

    function Start(i: nat): nat
      requires i <= |lengths|
    {
      Sum(lengths[..i])
    }

    /** The piece in which file i starts. */
    function First(i: nat): nat
      requires Valid() && i < |lengths|
    {
      Quot(Start(i), pieceLength)
    }

    /** How far into that piece it starts. */
    function Offset(i: nat): nat
      requires Valid() && i < |lengths|
    {
      Rem(Start(i), pieceLength)
    }

    /** How many pieces file i takes up: one even if it is empty. */
    function Count(i: nat): nat
      requires Valid() && i < |lengths|
    {
      Span(Offset(i), lengths[i], pieceLength)
    }

    /** File i with its pieces, as far as the torrent has them all. */
    function FileAt(i: nat): File
      requires Valid() && i < |lengths|
    {
      File(names[i], lengths[i], if First(i) + Count(i) <= |hashes| then hashes[First(i)..First(i) + Count(i)] else [])
    }

    /** Every file's last piece is a piece of the torrent. */
    ghost predicate InRange()
      requires Valid()
    {
      forall i :: 0 <= i < |lengths| ==> First(i) + Count(i) <= |hashes|
    }

    /** `fs` gives each file the pieces its bytes lie in. */
    ghost predicate LaidOut(fs: seq<File>)
      requires Valid()
    {
      |fs| == |lengths| && forall i :: 0 <= i < |fs| ==> fs[i] == FileAt(i)
    }
  }

  datatype File = File(name: string, length: nat, pieces: seq<Digest>)

  function Span(offset: nat, length: nat, pieceLength: nat): nat
    requires pieceLength > 0
  {
    if offset + length == 0 then 1 else CeilDiv(offset + length, pieceLength)
  }

  /** Span is the least number of whole pieces, and at least one, that reaches the end of the file. */
  lemma {:induction false} SpanBounds(offset: nat, length: nat, pieceLength: nat)
    requires pieceLength > 0
    ensures var k := Span(offset, length, pieceLength);
            k >= 1 && offset + length <= Times(k, pieceLength)
                && (k > 1 ==> Times(k, pieceLength) - pieceLength < offset + length)
  {
    if offset + length != 0 {
      CeilDivBounds(offset + length, pieceLength);
    }
  }

  lemma {:induction false} SpanUnique(offset: nat, length: nat, pieceLength: nat, k: nat)
    requires pieceLength > 0 && k >= 1 && offset + length <= Times(k, pieceLength)
    requires k > 1 ==> Times(k, pieceLength) - pieceLength < offset + length
    ensures k == Span(offset, length, pieceLength)
  {
    var c := Span(offset, length, pieceLength);
    SpanBounds(offset, length, pieceLength);
    if c <= k {
      TimesMonotone(c, k, pieceLength);
    } else {
      TimesMonotone(k, c, pieceLength);
    }
  }

  // ----- file.go: getPieces -----

  /** The pieces of a file that starts `offset` bytes into the first of the remaining `pieces`, and
      whether the next file starts in the same piece as this one ends. None stands for the index
      panic when the pieces run out. */
  method GetPieces(offset: nat, fileLength: nat, pieces: seq<Digest>, pieceLength: nat)
    returns (r: Option<(seq<Digest>, bool)>)
    requires offset < pieceLength
    ensures var k := Span(offset, fileLength, pieceLength);
            r == if k <= |pieces| then Some((pieces[..k], Times(k, pieceLength) != offset + fileLength)) else None
  {
    var out: seq<Digest> := [];
    var fileLeft: int, offsetLeft, idx := fileLength, offset, 0;
    SpanBounds(offset, fileLength, pieceLength);
    ghost var k := Span(offset, fileLength, pieceLength);
    while true
      invariant 0 <= idx < k && idx <= |pieces| && out == pieces[..idx]
      invariant fileLeft + offsetLeft == fileLength + offset - Times(idx, pieceLength)
      invariant idx > 0 ==> offsetLeft == 0 && fileLeft > 0
      decreases |pieces| - idx
    {
      var pieceLeft := pieceLength - offsetLeft;
      offsetLeft := 0;
      fileLeft := fileLeft - pieceLeft;
      if idx >= |pieces| {
        return None;
      }
      out := out + [pieces[idx]];
      if fileLeft <= 0 {
        SpanUnique(offset, fileLength, pieceLength, idx + 1);
        assert out == pieces[..k];
        return Some((out, fileLeft != 0));
      }
      if idx + 1 == k {
        assert false;
      }
      idx := idx + 1;
    }
  }

  // ----- torrent.go: getFiles -----

  /** The first and the last byte of the pieces of file i, against the first and the last byte of the file. */
  lemma {:induction false} FileEnds(m: Meta, i: nat)
    requires m.Valid() && i < |m.lengths|
    ensures var pl, f, k := m.pieceLength, m.First(i), m.Count(i);
            && k >= 1
            && m.Start(i) == Times(f, pl) + m.Offset(i) && m.Offset(i) < pl
            && m.Start(i + 1) == m.Start(i) + m.lengths[i] <= Times(f + k, pl) == Times(f, pl) + Times(k, pl)
            && Times(f + k, pl) == Times(f + k - 1, pl) + pl
            && (k > 1 ==> Times(f + k - 1, pl) < m.Start(i + 1))
  {
    var pl, f, k := m.pieceLength, m.First(i), m.Count(i);
    SumStep(m.lengths, i);
    QuotRem(m.Start(i), pl);
    SpanBounds(m.Offset(i), m.lengths[i], pl);
    TimesAdd(f, k, pl);
  }

  /** Where the walk over the files stands after file i: the next file starts in the last piece of file
      i unless file i ends on a piece boundary. */
  lemma {:induction false} NextFirst(m: Meta, i: nat)
    requires m.Valid() && i < |m.lengths|
    ensures var overlap := Times(m.Count(i), m.pieceLength) != m.Offset(i) + m.lengths[i];
            Quot(m.Start(i + 1), m.pieceLength) == m.First(i) + m.Count(i) - if overlap then 1 else 0
  {
    FileEnds(m, i);
    var overlap := Times(m.Count(i), m.pieceLength) != m.Offset(i) + m.lengths[i];
    QuotUnique(m.Start(i + 1), m.pieceLength, m.First(i) + m.Count(i) - if overlap then 1 else 0);
  }

  /** getFiles: it succeeds exactly when no file needs a piece the torrent does not have, and then gives
      each file its own pieces. */
  method GetFiles(m: Meta) returns (r: Option<seq<File>>)
    requires m.Valid()
    ensures r.Some? <==> m.InRange()
    ensures r.Some? ==> m.LaidOut(r.value)
  {
    var out: seq<File> := [];
    var pieces := m.hashes;
    var sum := 0;
    for i := 0 to |m.lengths|
      invariant sum == m.Start(i) && LaidOutTo(m, out, i) && RemainingFrom(m, pieces, sum)
    {
      var fileLength := m.lengths[i];
      var offset := sum % m.pieceLength;
      Native(sum, m.pieceLength);
      var g := GetPieces(offset, fileLength, pieces, m.pieceLength);
      if g.None? {
        assert m.First(i) + m.Count(i) > |m.hashes|;
        return None;
      }
      var (fPieces, overlap) := g.value;
      FilesStep(m, out, pieces, i);
      out := out + [File(m.names[i], fileLength, fPieces)];
      if overlap {
        pieces := pieces[|fPieces| - 1..];
      } else {
        pieces := pieces[|fPieces|..];
      }
      SumStep(m.lengths, i);
      sum := sum + fileLength;
    }
    return Some(out);
  }

  /** The first i files have been laid out. */
  ghost predicate LaidOutTo(m: Meta, out: seq<File>, i: nat)
    requires m.Valid() && i <= |m.lengths|
  {
    |out| == i && forall j :: 0 <= j < i ==> m.First(j) + m.Count(j) <= |m.hashes| && out[j] == m.FileAt(j)
  }

  /** The remaining pieces are those from the piece on in which the sum of the lengths so far lies. */
  ghost predicate RemainingFrom(m: Meta, pieces: seq<Digest>, sum: nat)
    requires m.Valid()
  {
    Quot(sum, m.pieceLength) <= |m.hashes| && pieces == m.hashes[Quot(sum, m.pieceLength)..]
  }

  lemma {:induction false} FilesStep(m: Meta, out: seq<File>, pieces: seq<Digest>, i: nat)
    requires m.Valid() && i < |m.lengths| && LaidOutTo(m, out, i) && RemainingFrom(m, pieces, m.Start(i))
    requires m.Count(i) <= |pieces|
    ensures LaidOutTo(m, out + [File(m.names[i], m.lengths[i], pieces[..m.Count(i)])], i + 1)
    ensures m.Count(i) >= 1
    ensures var overlap := Times(m.Count(i), m.pieceLength) != m.Offset(i) + m.lengths[i];
            RemainingFrom(m, pieces[m.Count(i) - if overlap then 1 else 0..], m.Start(i + 1))
  {
    SpanBounds(m.Offset(i), m.lengths[i], m.pieceLength);
    Cuts(m.hashes, m.First(i), m.Count(i));
    LaidOutStep(m, out, pieces, i);
    RemainingStep(m, pieces, i);
  }

  lemma {:induction false} RemainingStep(m: Meta, pieces: seq<Digest>, i: nat)
    requires m.Valid() && i < |m.lengths| && RemainingFrom(m, pieces, m.Start(i)) && 1 <= m.Count(i) <= |pieces|
    ensures var overlap := Times(m.Count(i), m.pieceLength) != m.Offset(i) + m.lengths[i];
            RemainingFrom(m, pieces[m.Count(i) - if overlap then 1 else 0..], m.Start(i + 1))
  {
    NextFirst(m, i);
    Cuts(m.hashes, m.First(i), m.Count(i));
  }

  lemma {:induction false} LaidOutStep(m: Meta, out: seq<File>, pieces: seq<Digest>, i: nat)
    requires m.Valid() && i < |m.lengths| && LaidOutTo(m, out, i) && m.First(i) + m.Count(i) <= |m.hashes|
    requires m.Count(i) <= |pieces| && pieces[..m.Count(i)] == m.hashes[m.First(i)..m.First(i) + m.Count(i)]
    ensures LaidOutTo(m, out + [File(m.names[i], m.lengths[i], pieces[..m.Count(i)])], i + 1)
  {
  }

  lemma {:induction false} Cuts<T>(xs: seq<T>, f: nat, k: nat)
    requires f <= |xs| && k <= |xs[f..]|
    ensures xs[f..][..k] == xs[f..f + k] && xs[f..][k..] == xs[f + k..]
            && (k > 0 ==> xs[f..][k - 1..] == xs[f + k - 1..])
  {
  }

  /** With as many pieces as the data needs, the walk goes out of range for one family of torrents only:
      those whose last file is empty while the files before it fill their pieces exactly. */
  lemma {:induction false} InRangeWhenFilled(m: Meta)
    requires m.Valid() && |m.hashes| == m.Needed() && |m.lengths| > 0
    ensures m.InRange() <==> !(m.lengths[|m.lengths| - 1] == 0 && Rem(m.Total(), m.pieceLength) == 0)
  {
    var last := |m.lengths| - 1;
    assert m.lengths[..last + 1] == m.lengths;
    SumStep(m.lengths, last);
    if m.lengths[last] == 0 && Rem(m.Total(), m.pieceLength) == 0 {
      assert m.First(last) + m.Count(last) == Quot(m.Total(), m.pieceLength) + 1;
    } else {
      forall i | 0 <= i <= last ensures m.First(i) + m.Count(i) <= |m.hashes| {
        FileEndsInRange(m, i);
        if i < last {
          SumPrefix(m.lengths, i + 1, last);
        }
      }
    }
  }

  lemma {:induction false} FileEndsInRange(m: Meta, i: nat)
    requires m.Valid() && i < |m.lengths|
    ensures m.First(i) + m.Count(i) <= m.Needed()
         || (m.Start(i + 1) == m.Total() && m.lengths[i] == 0 && Rem(m.Total(), m.pieceLength) == 0)
  {
    var pl, total, f, k, n := m.pieceLength, m.Total(), m.First(i), m.Count(i), m.Needed();
    assert m.lengths[..|m.lengths|] == m.lengths;
    SumPrefix(m.lengths, i + 1, |m.lengths|);
    CeilDivBounds(total, pl);
    FileEnds(m, i);
    if n < f + k {
      TimesMonotone(n, f + k - 1, pl);
      QuotUnique(total, pl, f);
    }
  }

  /** The pieces of a non-empty file are exactly those that hold one of its bytes. */
  lemma {:induction false} PiecesMeetFile(m: Meta, i: nat, p: nat)
    requires m.Valid() && i < |m.lengths| && m.lengths[i] > 0
    ensures m.First(i) <= p < m.First(i) + m.Count(i)
       <==> exists b: nat :: m.Start(i) <= b < m.Start(i) + m.lengths[i] && Quot(b, m.pieceLength) == p
  {
    var pl, s, len, f, k := m.pieceLength, m.Start(i), m.lengths[i], m.First(i), m.Count(i);
    FileEnds(m, i);
    if f == p {
      assert Quot(s, pl) == p;
    } else if f < p < f + k {
      TimesMonotone(f, p, pl);
      TimesMonotone(p, f + k - 1, pl);
      QuotUnique(Times(p, pl), pl, p);
    }
    forall b: nat | s <= b < s + len ensures f <= Quot(b, pl) < f + k {
      QuotBetween(b, pl, f, f + k);
    }
  }

  lemma {:induction false} QuotBetween(b: nat, pl: nat, f: nat, e: nat)
    requires pl > 0 && Times(f, pl) <= b < Times(e, pl)
    ensures f <= Quot(b, pl) < e
  {
    var q := Quot(b, pl);
    QuotRem(b, pl);
    if q < f {
      TimesMonotone(q, f, pl);
    } else if e <= q {
      TimesMonotone(e, q, pl);
    }
  }

  /** A non-empty file shares its last piece with the file after it exactly when it does not end on a
      piece boundary; otherwise the next file starts with the next piece. */
  lemma {:induction false} NeighboursShare(m: Meta, i: nat)
    requires m.Valid() && i + 1 < |m.lengths| && m.lengths[i] > 0
    ensures m.First(i + 1) == m.First(i) + m.Count(i) - 1 <==> m.Offset(i + 1) != 0
    ensures m.First(i + 1) == m.First(i) + m.Count(i) <==> m.Offset(i + 1) == 0
  {
    FileEnds(m, i);
    var f, k, e := m.First(i), m.Count(i), m.Start(i + 1);
    QuotUnique(e, m.pieceLength, if e == Times(f + k, m.pieceLength) then f + k else f + k - 1);
  }

  // ----- torrent.go: the hashes -----

  /** groupBytes cuts `data` into consecutive groups of n bytes; only the last may be shorter. */
  method GroupBytes(data: Bytes, n: nat) returns (out: seq<Bytes>)
    requires n > 0
    ensures |out| == CeilDiv(|data|, n)
    ensures Grouped(data, n, out)
  {
    out := [];
    var group: Bytes := [];
    for i := 0 to |data|
      invariant Grouping(data, n, out, group, i)
    {
      if |group| == n {
        GroupFull(data, n, out, group, i);
        out := out + [group];
        group := [];
      }
      group := group + [data[i]];
    }
    if |group| != 0 {
      GroupLast(data, n, out, group);
      out := out + [group];
    } else {
      CeilDivUnique(|data|, n, |out|);
    }
  }

  /** The first i bytes are in whole groups and one that is being filled. */
  ghost predicate Grouping(data: Bytes, n: nat, out: seq<Bytes>, group: Bytes, i: nat)
  {
    && i <= |data| && Times(|out|, n) + |group| == i && |group| <= n && (i > 0 ==> |group| > 0)
    && group == data[Times(|out|, n)..i]
    && Grouped(data, n, out)
  }

  lemma {:induction false} GroupFull(data: Bytes, n: nat, out: seq<Bytes>, group: Bytes, i: nat)
    requires Grouping(data, n, out, group, i) && |group| == n > 0
    ensures Grouped(data, n, out + [group]) && Times(|out + [group]|, n) == i
  {
  }

  lemma {:induction false} GroupLast(data: Bytes, n: nat, out: seq<Bytes>, group: Bytes)
    requires Grouping(data, n, out, group, |data|) && group != [] && n > 0
    ensures Grouped(data, n, out + [group]) && |out| + 1 == CeilDiv(|data|, n)
  {
    CeilDivUnique(|data|, n, |out| + 1);
  }

  ghost predicate Grouped(data: Bytes, n: nat, out: seq<Bytes>)
  {
    forall g :: 0 <= g < |out| ==> Times(g, n) <= |data| && out[g] == Slice(data, n, g)
  }

  /** Piece g of `data` in pieces of n bytes. */
  function Slice<T>(data: seq<T>, n: nat, g: nat): seq<T>
    requires Times(g, n) <= |data|
  {
    data[Times(g, n)..Min(Times(g, n) + n, |data|)]
  }

  /** The first index at which `hash` stands, or -1: torrents may list one hash several times. */
  function PieceIndex(hashes: seq<Digest>, hash: Digest): int
  {
    PieceIndexFrom(hashes, hash, 0)
  }

  function PieceIndexFrom(hashes: seq<Digest>, hash: Digest, i: nat): int
    decreases |hashes| - i
  {
    if i >= |hashes| then -1 else if hashes[i] == hash then i else PieceIndexFrom(hashes, hash, i + 1)
  }

  lemma {:induction false} PieceIndexIsFirst(hashes: seq<Digest>, hash: Digest, i: nat)
    requires i <= |hashes|
    ensures var r := PieceIndexFrom(hashes, hash, i);
            if r == -1 then hash !in hashes[i..] else i <= r < |hashes| && hashes[r] == hash && hash !in hashes[i..r]
    decreases |hashes| - i
  {
    if i < |hashes| && hashes[i] != hash {
      PieceIndexIsFirst(hashes, hash, i + 1);
      var r := PieceIndexFrom(hashes, hash, i);
      assert hashes[i..] == [hashes[i]] + hashes[i + 1..];
      if r != -1 {
        assert hashes[i..r] == [hashes[i]] + hashes[i + 1..r];
      }
    }
  }

  method GetPieceIndex(hashes: seq<Digest>, hash: Digest) returns (r: int)
    ensures r == PieceIndex(hashes, hash)
  {
    for i := 0 to |hashes|
      invariant PieceIndex(hashes, hash) == PieceIndexFrom(hashes, hash, i)
    {
      if hashes[i] == hash {
        return i;
      }
    }
    return -1;
  }

  /** A hash the torrent lists is found, at an index where it stands. */
  lemma {:induction false} ListedHashIsFound(hashes: seq<Digest>, p: nat, i: nat)
    requires i <= p < |hashes|
    ensures var r := PieceIndexFrom(hashes, hashes[p], i); i <= r <= p && hashes[r] == hashes[p]
    decreases p - i
  {
    if hashes[i] != hashes[p] {
      ListedHashIsFound(hashes, p, i + 1);
    }
  }

  // ----- torrent.go: Files, Length -----

  /** `files` caches the layout once Files has computed it. */
  class Torrent {
    const meta: Meta
    var files: seq<File>

    ghost predicate Valid()
      reads this
    {
      && meta.Valid()
      && (files != [] ==> !meta.single && meta.InRange() && meta.LaidOut(files))
    }

    constructor (meta: Meta)
      requires meta.Valid()
      ensures Valid() && this.meta == meta && files == []
    {
      this.meta := meta;
      files := [];
    }

    /** The layout of a multi-file torrent, or the one file of a single-file torrent with all pieces.
        None stands for the panic of getPieces. */
    method Files() returns (r: Option<seq<File>>)
      requires Valid()
      modifies this
      ensures Valid()
      ensures meta.single ==> r == Some([File(meta.names[0], meta.lengths[0], meta.hashes)])
      ensures !meta.single ==> (r.Some? <==> meta.InRange())
      ensures !meta.single && r.Some? ==> meta.LaidOut(r.value)
    {
      if |files| > 0 {
        return Some(files);
      }
      if meta.single {
        return Some([File(meta.names[0], meta.lengths[0], meta.hashes)]);
      }
      r := GetFiles(meta);
      if r.Some? {
        files := r.value;
      }
    }

    method Length() returns (sum: Option<nat>)
      requires Valid()
      modifies this
      ensures Valid()
      ensures sum == if meta.single || meta.InRange() then Some(meta.Total()) else None
    {
      var fs := Files();
      if fs.None? {
        return None;
      }
      var n := 0;
      for i := 0 to |fs.value|
        invariant Valid() && |fs.value| == |meta.lengths| && n == meta.Start(i)
      {
        n := n + fs.value[i].length;
        SumStep(meta.lengths, i);
      }
      assert meta.lengths[..|meta.lengths|] == meta.lengths;
      return Some(n);
    }
  }

  /** A single-file torrent, whose file is given all pieces, is laid out like a multi-file torrent with that one
      file if and only if it has as many pieces as the data needs, or one if there is no data. */
  lemma {:induction false} SingleFileLayout(m: Meta)
    requires m.Valid() && m.single
    ensures m.InRange() && m.LaidOut([File(m.names[0], m.lengths[0], m.hashes)])
       <==> |m.hashes| == if m.lengths[0] == 0 then 1 else m.Needed()
  {
    SumStep(m.lengths, 0);
    assert m.lengths[..1] == m.lengths;
    assert m.Start(0) == 0 && m.Total() == m.lengths[0];
    assert m.First(0) == 0 && m.Offset(0) == 0;
    assert m.Count(0) == if m.lengths[0] == 0 then 1 else m.Needed();
    if |m.hashes| == m.Count(0) {
      assert m.hashes[0..|m.hashes|] == m.hashes;
    }
    if m.InRange() && m.LaidOut([File(m.names[0], m.lengths[0], m.hashes)]) {
      assert m.FileAt(0).pieces == m.hashes;
    }
  }

  // ----- the data a torrent describes -----

  /** Piece p of the stream, empty past its end: what is left after cutting off p pieces before it. */
  function PieceOf(pieceLength: nat, stream: Bytes, p: nat): Bytes
  {
    var n := Min(pieceLength, |stream|);
    if p == 0 then stream[..n] else PieceOf(pieceLength, stream[n..], p - 1)
  }

  lemma {:induction false} PieceIsSlice(pieceLength: nat, stream: Bytes, p: nat)
    requires Times(p, pieceLength) <= |stream|
    ensures PieceOf(pieceLength, stream, p) == Slice(stream, pieceLength, p)
  {
    if p > 0 {
      PieceIsSlice(pieceLength, stream[pieceLength..], p - 1);
      SliceOfRest(stream, pieceLength, Times(p - 1, pieceLength));
      assert Times(p, pieceLength) == Times(p - 1, pieceLength) + pieceLength;
    }
  }

  /** The slice at `base` of what is left after the first n bytes. */
  lemma {:induction false} SliceOfRest(stream: Bytes, n: nat, base: nat)
    requires base + n <= |stream|
    ensures stream[n..][base..Min(base + n, |stream| - n)] == stream[base + n..Min(base + n + n, |stream|)]
  {
    var rest := stream[n..];
    var m := Min(base + n, |rest|);
    assert m + n == Min(base + n + n, |stream|);
    assert stream[n..|stream|] == rest;
    SubSlice(stream, n, |stream|, base, m);
  }

  /** `stream` is the data of the torrent: one hash per piece, computed with `sha1`. */
  ghost predicate Describes(m: Meta, stream: Bytes, sha1: HashFunction)
    requires m.Valid()
  {
    && |stream| == m.Total()
    && |m.hashes| == m.Needed()
    && forall p :: 0 <= p < |m.hashes| ==> m.hashes[p] == sha1(PieceOf(m.pieceLength, stream, p))
  }

  /** No two of the given byte strings have the same hash. */
  ghost predicate CollisionFree(sha1: HashFunction, xs: set<Bytes>)
  {
    forall x, y :: x in xs && y in xs && sha1(x) == sha1(y) ==> x == y
  }

  /** The pieces of the stream. */
  ghost function PieceSet(m: Meta, stream: Bytes): set<Bytes>
  {
    set p | p in Below(|m.hashes|) :: PieceOf(m.pieceLength, stream, p)
  }

  /** Content with the hash the torrent lists for piece p is piece p. */
  lemma {:induction false} VerifiedIsPiece(m: Meta, stream: Bytes, sha1: HashFunction, p: nat, data: Bytes)
    requires m.Valid() && Describes(m, stream, sha1) && p < |m.hashes|
    requires CollisionFree(sha1, PieceSet(m, stream) + {data})
    requires sha1(data) == m.hashes[p]
    ensures data == PieceOf(m.pieceLength, stream, p)
  {
    assert p in Below(|m.hashes|);
    assert PieceOf(m.pieceLength, stream, p) in PieceSet(m, stream);
  }
}
