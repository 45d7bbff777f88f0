/** A worker collects the 16 KiB blocks of one piece (internal/data/worker.go). */
module Workers {
  import opened Basics

  const BLOCK: nat := 16384

  datatype Request = Request(index: nat, offset: nat, length: nat)

  /** The blocks a worker has, and whether its loop has ended. */
  datatype Progress = Progress(subpieces: map<nat, Bytes>, exited: bool)

  /** isComplete compares the number of blocks, at full size, with the length of the piece. */
  predicate IsComplete(pieceLength: nat, subpieces: map<nat, Bytes>)
  {
    16384 * |subpieces| >= pieceLength
  }

  /** One message to the worker: a block it has is ignored, and so is everything after its loop has
      ended; the block that completes the piece ends the loop. */
  function Accept(pieceLength: nat, p: Progress, offset: nat, data: Bytes): Progress
  {
    if p.exited || offset in p.subpieces then p
    else
      var subpieces := p.subpieces[offset := data];
      Progress(subpieces, IsComplete(pieceLength, subpieces))
  }

  /** What copying the blocks into a zeroed buffer, in some order, may give: each byte comes from a block
      that covers it, or is 0 if none does. */
  ghost predicate Overlay(buf: Bytes, pieceLength: nat, subpieces: map<nat, Bytes>)
  {
    |buf| == pieceLength && forall p :: 0 <= p < pieceLength ==> ByteFrom(buf[p], p, subpieces)
  }

  predicate Covers(subpieces: map<nat, Bytes>, o: nat, p: int)
  {
    o in subpieces && o <= p < o + |subpieces[o]|
  }

  ghost predicate ByteFrom(b: byte, p: int, subpieces: map<nat, Bytes>)
  {
    || (exists o :: Covers(subpieces, o, p) && subpieces[o][p - o] == b)
    || (b == 0 && forall o :: o in subpieces ==> !Covers(subpieces, o, p))
  }

  ghost predicate OutOfBounds(pieceLength: nat, subpieces: map<nat, Bytes>)
  {
    exists o :: o in subpieces && o + |subpieces[o]| > pieceLength
  }

  class Worker {
    const index: nat
    const pieceLength: nat
    var subpieces: map<nat, Bytes>
    var exited: bool

    constructor (index: nat, pieceLength: nat)
      ensures this.index == index && this.pieceLength == pieceLength && View() == Progress(map[], false)
    {
      this.index, this.pieceLength := index, pieceLength;
      subpieces, exited := map[], false;
    }

    function View(): Progress
      reads this
    {
      Progress(subpieces, exited)
    }

    /** One round of the loop of run; `complete` tells that the piece is to be saved. */
    method Receive(offset: nat, data: Bytes) returns (complete: bool)
      modifies this
      ensures View() == Accept(pieceLength, old(View()), offset, data)
      ensures complete <==> !old(exited) && exited
    {
      if exited || offset in subpieces {
        return false;
      }
      subpieces := subpieces[offset := data];
      if 16384 * |subpieces| >= pieceLength {
        exited := true;
        return true;
      }
      return false;
    }

    /** bytes: None stands for the slice-bounds panic, which some block reaching past the piece causes. */
    method GetBytes() returns (r: Option<Bytes>)
      ensures r.None? <==> OutOfBounds(pieceLength, subpieces)
      ensures r.Some? ==> Overlay(r.value, pieceLength, subpieces)
    {
      var buf := new byte[pieceLength](_ => 0);
      var left := subpieces.Keys;
      ghost var copied: map<nat, Bytes> := map[];
      while left != {}
        invariant left <= subpieces.Keys && copied.Keys == subpieces.Keys - left
        invariant forall o :: o in copied ==> copied[o] == subpieces[o] && o + |copied[o]| <= pieceLength
        invariant Overlay(buf[..], pieceLength, copied)
        decreases |left|
      {
        var offset: nat :| offset in left;
        var piece := subpieces[offset];
        if offset + |piece| > buf.Length {
          return None;
        }
        ghost var was := buf[..];
        Copy(buf, offset, piece);
        OverlayMore(was, buf[..], pieceLength, copied, offset, piece);
        copied := copied[offset := piece];
        left := left - {offset};
      }
      assert copied == subpieces;
      return Some(buf[..]);
    }

    /** copy(buf[offset..], piece). */
    method Copy(buf: array<byte>, offset: nat, piece: Bytes)
      requires offset + |piece| <= buf.Length
      modifies buf
      ensures forall p :: 0 <= p < buf.Length ==>
        buf[p] == if offset <= p < offset + |piece| then piece[p - offset] else old(buf[p])
    {
      forall k | 0 <= k < |piece| {
        buf[offset + k] := piece[k];
      }
    }

    /** requestPiece asks for the blocks the worker does not have, in order. Lengths and offsets are unsigned
        32-bit numbers here: of a longer piece only the remainder is asked for, and when that is within
        16 KiB of 4 GiB, the offset wraps around and the loop does not end. */
    method RequestPiece() returns (out: seq<Request>)
      requires pieceLength % 0x1_0000_0000 <= 0x1_0000_0000 - BLOCK
      ensures out == Missing(index, pieceLength % 0x1_0000_0000, subpieces.Keys, 0)
    {
      out := [];
      var length32 := pieceLength % 0x1_0000_0000;
      var offset := 0;
      while offset < length32
        invariant out + Missing(index, length32, subpieces.Keys, offset) == Missing(index, length32, subpieces.Keys, 0)
        decreases length32 - offset
      {
        ghost var before := out;
        if offset !in subpieces {
          var remaining := length32 - offset;
          var length := if remaining < BLOCK then remaining else BLOCK;
          out := out + [Request(index, offset, length)];
        }
        ghost var head := if offset in subpieces then [] else [Request(index, offset, Min(BLOCK, length32 - offset))];
        MissingStep(index, length32, subpieces.Keys, offset);
        Associate(before, head, Missing(index, length32, subpieces.Keys, offset + BLOCK));
        assert out == before + head;
        assert (offset + BLOCK) % 0x1_0000_0000 == offset + BLOCK;
        offset := (offset + BLOCK) % 0x1_0000_0000;
      }
    }
  }

  lemma {:induction false} OverlayMore(was: Bytes, buf: Bytes, pieceLength: nat, copied: map<nat, Bytes>, offset: nat,
                                       piece: Bytes)
    requires Overlay(was, pieceLength, copied) && offset + |piece| <= pieceLength && offset !in copied
    requires |buf| == pieceLength
    requires forall p :: 0 <= p < pieceLength ==>
        buf[p] == if offset <= p < offset + |piece| then piece[p - offset] else was[p]
    ensures Overlay(buf, pieceLength, copied[offset := piece])
  {
    var more := copied[offset := piece];
    forall p | 0 <= p < pieceLength ensures ByteFrom(buf[p], p, more) {
      if offset <= p < offset + |piece| {
        assert Covers(more, offset, p);
      } else {
        assert ByteFrom(was[p], p, copied);
        if o :| Covers(copied, o, p) && copied[o][p - o] == was[p] {
          assert Covers(more, o, p);
        }
      }
    }
  }

  /** The requests for the blocks from `offset` on that are not in `have`. */
  function Missing(index: nat, pieceLength: nat, have: set<nat>, offset: nat): seq<Request>
    decreases pieceLength - offset
  {
    if offset >= pieceLength then []
    else
      (if offset in have then [] else [Request(index, offset, Min(BLOCK, pieceLength - offset))])
      + Missing(index, pieceLength, have, offset + BLOCK)
  }

  lemma {:induction false} MissingStep(index: nat, pieceLength: nat, have: set<nat>, offset: nat)
    requires offset < pieceLength
    ensures Missing(index, pieceLength, have, offset)
         == (if offset in have then [] else [Request(index, offset, Min(BLOCK, pieceLength - offset))])
            + Missing(index, pieceLength, have, offset + BLOCK)
  {
  }

  // ----- blocks of one piece -----

  /** The offsets of the first n blocks. */
  ghost function Offsets(n: nat): set<nat>
  {
    if n == 0 then {} else Offsets(n - 1) + {16384 * (n - 1)}
  }

  function Blocks(pieceLength: nat): nat
  {
    (pieceLength + 16383) / 16384
  }

  lemma {:induction false} OffsetsAre(n: nat)
    ensures |Offsets(n)| == n
    ensures forall o: nat :: o in Offsets(n) <==> o < 16384 * n && o % 16384 == 0
  {
    if n > 0 {
      OffsetsAre(n - 1);
    }
  }

  predicate IsBlock(piece: Bytes, o: nat, data: Bytes)
  {
    o % 16384 == 0 && o < |piece| && data == piece[o..Min(o + BLOCK, |piece|)]
  }

  /** Every block is the block of `piece` at its offset. */
  ghost predicate Genuine(piece: Bytes, subpieces: map<nat, Bytes>)
  {
    forall o :: o in subpieces ==> IsBlock(piece, o, subpieces[o])
  }

  /** Counting is enough: with genuine blocks the count reaches the length exactly when every block of the
      piece is there. */
  lemma {:induction false} CompleteMeansAll(piece: Bytes, subpieces: map<nat, Bytes>)
    requires Genuine(piece, subpieces)
    ensures IsComplete(|piece|, subpieces) <==> subpieces.Keys == Offsets(Blocks(|piece|))
    ensures IsComplete(|piece|, subpieces) <==> forall o: nat :: o < |piece| && o % 16384 == 0 ==> o in subpieces
  {
    var n := Blocks(|piece|);
    OffsetsAre(n);
    assert 16384 * n >= |piece| && 16384 * n < |piece| + BLOCK;
    assert forall o: nat :: o in Offsets(n) <==> o < |piece| && o % 16384 == 0;
    assert subpieces.Keys <= Offsets(n);
    SubsetCardinality(subpieces.Keys, Offsets(n));
    assert |subpieces| == |subpieces.Keys|;
  }

  lemma {:induction false} NoneOutOfBounds(piece: Bytes, subpieces: map<nat, Bytes>)
    requires Genuine(piece, subpieces)
    ensures !OutOfBounds(|piece|, subpieces)
  {
    forall o | o in subpieces ensures o + |subpieces[o]| <= |piece| {
      assert IsBlock(piece, o, subpieces[o]);
    }
  }

  /** Then the buffer is the piece, whatever order the blocks are copied in. */
  lemma {:induction false} CompleteOverlayIsPiece(piece: Bytes, subpieces: map<nat, Bytes>, buf: Bytes)
    requires Genuine(piece, subpieces) && IsComplete(|piece|, subpieces) && Overlay(buf, |piece|, subpieces)
    ensures !OutOfBounds(|piece|, subpieces)
    ensures buf == piece
  {
    NoneOutOfBounds(piece, subpieces);
    CompleteMeansAll(piece, subpieces);
    forall p | 0 <= p < |piece| ensures buf[p] == piece[p] {
      assert ByteFrom(buf[p], p, subpieces);
      CoveredByte(piece, subpieces, p, buf[p]);
    }
  }

  lemma {:induction false} CoveredByte(piece: Bytes, subpieces: map<nat, Bytes>, p: nat, b: byte)
    requires Genuine(piece, subpieces) && p < |piece| && ByteFrom(b, p, subpieces)
    requires forall o: nat :: o < |piece| && o % 16384 == 0 ==> o in subpieces
    ensures b == piece[p]
  {
    var o := BlockStart(p);
    assert Covers(subpieces, o, p);
    var q :| Covers(subpieces, q, p) && subpieces[q][p - q] == b;
    assert IsBlock(piece, q, subpieces[q]);
  }

  lemma {:induction false} BlockStart(p: nat) returns (o: nat)
    ensures o % 16384 == 0 && o <= p < o + BLOCK
  {
    o := p - p % 16384;
    assert o == p / 16384 * BLOCK;
  }
}
