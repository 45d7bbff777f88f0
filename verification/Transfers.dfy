/** One piece from a client that holds it to a worker that asks for it: requestPiece
    (internal/data/worker.go), handleRequestMessage (internal/data/message.go), and back. */
module Transfers {
  import opened Basics
  import opened Workers

  datatype Served = Refused | Panic | Sent(data: Bytes)

  /** handleRequestMessage, for a piece the client holds if `held` and can load if `loaded` is there. The
      end of the slice is a 32-bit sum; bounds that do not fit the buffer panic. */
  function Serve(held: bool, loaded: Option<Buffer>, r: Request): Served
  {
    if !held || loaded.None? then Refused
    else
      match loaded.value.Slice(r.offset, (r.offset + r.length) % 0x1_0000_0000)
      case Some(data) => Sent(data)
      case None => Panic
  }

  /** A request is answered with as many bytes of the piece as it asks for, from its offset on and whatever lies
      behind the piece, if and only if it ends within the piece. Past its end the answer is made of what lies behind,
      or the client panics. */
  lemma {:induction false} ServedRightIff(piece: Bytes, r: Request)
    requires |piece| < 0x1_0000_0000 && r.offset < 0x1_0000_0000 && r.length < 0x1_0000_0000
    ensures r.offset + r.length <= |piece|
       <==> forall tail: Bytes :: Serve(true, Some(Buffer(piece, tail)), r).Sent?
                                 && Serve(true, Some(Buffer(piece, tail)), r).data <= piece[Min(r.offset, |piece|)..]
                                 && |Serve(true, Some(Buffer(piece, tail)), r).data| == r.length
  {
    if r.offset + r.length <= |piece| {
      forall tail: Bytes
        ensures Serve(true, Some(Buffer(piece, tail)), r) == Sent(piece[r.offset..r.offset + r.length])
      {
        assert (piece + tail)[r.offset..r.offset + r.length] == piece[r.offset..r.offset + r.length];
      }
    } else {
      assert Serve(true, Some(Buffer(piece, [])), r) == Panic;
    }
  }

  /** The worker after a list of messages. */
  function Feed(pieceLength: nat, p: Progress, msgs: seq<(nat, Bytes)>): Progress
  {
    if msgs == [] then p
    else
      var (offset, data) := msgs[|msgs| - 1];
      Accept(pieceLength, Feed(pieceLength, p, msgs[..|msgs| - 1]), offset, data)
  }

  /** Which requests requestPiece makes. */
  lemma {:induction false} MissingAre(index: nat, pieceLength: nat, have: set<nat>, offset: nat)
    requires offset % 16384 == 0
    ensures forall r :: r in Missing(index, pieceLength, have, offset)
              <==> IsRequest(r, index, pieceLength, have) && r.offset >= offset
    decreases pieceLength - offset
  {
    if offset < pieceLength {
      MissingAre(index, pieceLength, have, offset + BLOCK);
      var head := if offset in have then [] else [Request(index, offset, Min(BLOCK, pieceLength - offset))];
      var tail := Missing(index, pieceLength, have, offset + BLOCK);
      forall r
        ensures r in Missing(index, pieceLength, have, offset)
           <==> IsRequest(r, index, pieceLength, have) && r.offset >= offset
      {
        assert Missing(index, pieceLength, have, offset) == head + tail;
        assert r in head + tail <==> r in head || r in tail;
        NextMultiple(r.offset, offset);
      }
    }
  }

  predicate Ascends(reqs: seq<Request>)
  {
    forall i, j :: 0 <= i < j < |reqs| ==> reqs[i].offset < reqs[j].offset
  }

  /** They are made in ascending order, and none twice. */
  lemma {:induction false} MissingAscend(index: nat, pieceLength: nat, have: set<nat>, offset: nat)
    ensures Ascends(Missing(index, pieceLength, have, offset))
    ensures forall r :: r in Missing(index, pieceLength, have, offset) ==> r.offset >= offset
    decreases pieceLength - offset
  {
    if offset < pieceLength {
      var rest := Missing(index, pieceLength, have, offset + BLOCK);
      MissingAscend(index, pieceLength, have, offset + BLOCK);
      MissingStep(index, pieceLength, have, offset);
      if offset in have {
        NilLeft(rest);
      } else {
        ConsAscends(Request(index, offset, Min(BLOCK, pieceLength - offset)), rest);
      }
    }
  }

  lemma {:induction false} ConsAscends(head: Request, rest: seq<Request>)
    requires Ascends(rest) && forall r :: r in rest ==> r.offset > head.offset
    ensures Ascends([head] + rest)
    ensures forall r :: r in [head] + rest ==> r.offset >= head.offset
  {
    var all := [head] + rest;
    forall i, j | 0 <= i < j < |all| ensures all[i].offset < all[j].offset {
      assert all[j] == rest[j - 1] && rest[j - 1] in rest;
      if i > 0 {
        assert all[i] == rest[i - 1];
      }
    }
  }

  lemma {:induction false} NextMultiple(x: nat, offset: nat)
    requires offset % 16384 == 0
    ensures x % 16384 == 0 && x > offset ==> x >= offset + BLOCK
  {
  }

  predicate IsRequest(r: Request, index: nat, pieceLength: nat, have: set<nat>)
  {
    && r.index == index && r.offset % 16384 == 0 && r.offset < pieceLength && r.offset !in have
    && r.length == Min(BLOCK, pieceLength - r.offset)
  }

  /** A request made for a piece is answered with the block of the piece at that offset. */
  lemma {:induction false} RequestIsServed(piece: Bytes, tail: Bytes, index: nat, have: set<nat>, r: Request)
    requires |piece| <= 0x1_0000_0000 - BLOCK && IsRequest(r, index, |piece|, have)
    ensures var s := Serve(true, Some(Buffer(piece, tail)), r);
            s.Sent? && IsBlock(piece, r.offset, s.data) && |s.data| == r.length
  {
    assert (piece + tail)[r.offset..r.offset + r.length] == piece[r.offset..r.offset + r.length];
  }

  /** The answers to `reqs`, delivered in the given order. */
  function Answers(piece: Buffer, reqs: seq<Request>, order: seq<nat>): (r: seq<(nat, Bytes)>)
    requires forall k :: 0 <= k < |order| ==> order[k] < |reqs| && Serve(true, Some(piece), reqs[order[k]]).Sent?
    ensures |r| == |order|
    ensures forall k :: 0 <= k < |r| ==> r[k] == (reqs[order[k]].offset, Serve(true, Some(piece), reqs[order[k]]).data)
  {
    seq(|order|, k requires 0 <= k < |order| => (reqs[order[k]].offset, Serve(true, Some(piece), reqs[order[k]]).data))
  }

  ghost predicate AllBlocks(piece: Bytes, msgs: seq<(nat, Bytes)>)
  {
    forall k :: 0 <= k < |msgs| ==> IsBlock(piece, msgs[k].0, msgs[k].1)
  }

  /** Blocks of the piece only, and the loop has ended exactly when they are all there. */
  ghost predicate Sane(piece: Bytes, p: Progress)
  {
    Genuine(piece, p.subpieces) && (p.exited <==> IsComplete(|piece|, p.subpieces))
  }

  lemma {:induction false} AcceptKeeps(piece: Bytes, p: Progress, offset: nat, data: Bytes)
    requires Sane(piece, p) && IsBlock(piece, offset, data)
    ensures var q := Accept(|piece|, p, offset, data);
            Sane(piece, q) && p.subpieces.Keys <= q.subpieces.Keys && (p.exited ==> q.exited)
                && (q.exited || offset in q.subpieces)
  {
  }

  /** A worker that is fed blocks of the piece keeps only blocks of the piece, and ends its loop exactly
      when it has them all. */
  lemma {:induction false} FeedKeeps(piece: Bytes, p: Progress, msgs: seq<(nat, Bytes)>)
    requires Sane(piece, p) && AllBlocks(piece, msgs)
    ensures var q := Feed(|piece|, p, msgs);
            Sane(piece, q) && p.subpieces.Keys <= q.subpieces.Keys && (p.exited ==> q.exited)
  {
    if msgs != [] {
      var n := |msgs| - 1;
      FeedKeeps(piece, p, msgs[..n]);
      AcceptKeeps(piece, Feed(|piece|, p, msgs[..n]), msgs[n].0, msgs[n].1);
    }
  }

  /** Whatever the messages are, a worker that is still collecting has at each offset the block it had, or else the
      first that came for it. */
  lemma {:induction false} FirstIsKept(pieceLength: nat, p: Progress, msgs: seq<(nat, Bytes)>, o: nat)
    requires !p.exited
    ensures var q := Feed(pieceLength, p, msgs);
            && (o in p.subpieces ==> o in q.subpieces && q.subpieces[o] == p.subpieces[o])
            && (o in q.subpieces && o !in p.subpieces ==>
                  exists k :: 0 <= k < |msgs| && IsFirst(msgs, k, o) && q.subpieces[o] == msgs[k].1)
            && (!q.exited ==> forall k :: 0 <= k < |msgs| && msgs[k].0 == o ==> o in q.subpieces)
  {
    if msgs != [] {
      var n := |msgs| - 1;
      var u := Feed(pieceLength, p, msgs[..n]);
      FirstIsKept(pieceLength, p, msgs[..n], o);
      FeedLast(pieceLength, p, msgs);
      assert forall k :: 0 <= k < n ==> msgs[..n][k] == msgs[k];
      if o in u.subpieces && o !in p.subpieces {
        var k :| 0 <= k < n && IsFirst(msgs[..n], k, o) && u.subpieces[o] == msgs[..n][k].1;
        assert IsFirst(msgs, k, o);
      } else if o == msgs[n].0 && o !in u.subpieces && !u.exited {
        assert IsFirst(msgs, n, o);
      }
    }
  }

  /** Its loop ends with the block that makes the count complete, and not without one. */
  lemma {:induction false} EndsWhenComplete(pieceLength: nat, p: Progress, msgs: seq<(nat, Bytes)>)
    requires !p.exited
    ensures var (n, k, q) := (|p.subpieces|, |Feed(pieceLength, p, msgs).subpieces|, Feed(pieceLength, p, msgs));
            && k >= n && (q.exited <==> k > n && 16384 * k >= pieceLength)
            && (k > n + 1 ==> 16384 * (k - 1) < pieceLength)
  {
    if msgs != [] {
      var n := |msgs| - 1;
      EndsWhenComplete(pieceLength, p, msgs[..n]);
      FeedLast(pieceLength, p, msgs);
      TakenCount(Feed(pieceLength, p, msgs[..n]).subpieces, msgs[n].0, msgs[n].1);
    }
  }

  predicate IsFirst(msgs: seq<(nat, Bytes)>, k: nat, o: nat)
  {
    k < |msgs| && msgs[k].0 == o && forall j :: 0 <= j < k ==> msgs[j].0 != o
  }

  lemma {:induction false} TakenCount(subpieces: map<nat, Bytes>, o: nat, data: Bytes)
    ensures |subpieces[o := data]| == |subpieces| + if o in subpieces then 0 else 1
  {
    assert subpieces[o := data].Keys == subpieces.Keys + {o};
    assert |subpieces[o := data]| == |subpieces[o := data].Keys| && |subpieces| == |subpieces.Keys|;
  }

  lemma {:induction false} FeedLast(pieceLength: nat, p: Progress, msgs: seq<(nat, Bytes)>)
    requires msgs != []
    ensures Feed(pieceLength, p, msgs)
         == Accept(pieceLength, Feed(pieceLength, p, msgs[..|msgs| - 1]), msgs[|msgs| - 1].0, msgs[|msgs| - 1].1)
  {
  }

  lemma {:induction false} FeedHas(piece: Bytes, p: Progress, msgs: seq<(nat, Bytes)>, k: nat)
    requires Sane(piece, p) && AllBlocks(piece, msgs) && k < |msgs|
    ensures var q := Feed(|piece|, p, msgs); q.exited || msgs[k].0 in q.subpieces
  {
    var n := |msgs| - 1;
    var q := Feed(|piece|, p, msgs[..n]);
    FeedKeeps(piece, p, msgs[..n]);
    FeedLast(|piece|, p, msgs);
    AcceptKeeps(piece, q, msgs[n].0, msgs[n].1);
    if k < n {
      FeedHas(piece, p, msgs[..n], k);
      assert msgs[..n][k] == msgs[k];
    }
  }

  /** Once every block of the piece is in the worker or among the messages, the worker is complete, and its bytes
      are the piece. */
  lemma {:induction false} FeedCompletes(piece: Bytes, p: Progress, msgs: seq<(nat, Bytes)>)
    requires Sane(piece, p) && AllBlocks(piece, msgs)
    requires forall o: nat :: o < |piece| && o % 16384 == 0 && o !in p.subpieces ==>
        exists k :: 0 <= k < |msgs| && msgs[k].0 == o
    ensures Whole(piece, Feed(|piece|, p, msgs))
  {
    var q := Feed(|piece|, p, msgs);
    FeedKeeps(piece, p, msgs);
    if !q.exited {
      forall o: nat | o < |piece| && o % 16384 == 0 ensures o in q.subpieces {
        if o !in p.subpieces {
          var k :| 0 <= k < |msgs| && msgs[k].0 == o;
          FeedHas(piece, p, msgs, k);
        }
      }
      CompleteMeansAll(piece, q.subpieces);
    }
    WholeWhenDone(piece, q);
  }

  /** The worker has ended its loop, and bytes gives the piece. */
  ghost predicate Whole(piece: Bytes, q: Progress)
  {
    && q.exited && IsComplete(|piece|, q.subpieces) && Genuine(piece, q.subpieces)
    && !OutOfBounds(|piece|, q.subpieces)
    && Overlay(piece, |piece|, q.subpieces) && forall buf :: Overlay(buf, |piece|, q.subpieces) ==> buf == piece
  }

  lemma {:induction false} WholeWhenDone(piece: Bytes, q: Progress)
    requires Sane(piece, q) && q.exited
    ensures Whole(piece, q)
  {
    forall buf | Overlay(buf, |piece|, q.subpieces) ensures buf == piece {
      CompleteOverlayIsPiece(piece, q.subpieces, buf);
    }
    NoneOutOfBounds(piece, q.subpieces);
    PieceIsOverlay(piece, q.subpieces);
  }

  lemma {:induction false} PieceIsOverlay(piece: Bytes, subpieces: map<nat, Bytes>)
    requires Genuine(piece, subpieces) && IsComplete(|piece|, subpieces)
    ensures Overlay(piece, |piece|, subpieces)
  {
    CompleteMeansAll(piece, subpieces);
    forall p | 0 <= p < |piece| ensures ByteFrom(piece[p], p, subpieces) {
      ByteIsThere(piece, subpieces, p);
    }
  }

  lemma {:induction false} ByteIsThere(piece: Bytes, subpieces: map<nat, Bytes>, p: nat)
    requires Genuine(piece, subpieces) && p < |piece|
    requires forall o: nat :: o < |piece| && o % 16384 == 0 ==> o in subpieces
    ensures ByteFrom(piece[p], p, subpieces)
  {
    var o := BlockStart(p);
    assert IsBlock(piece, o, subpieces[o]);
    assert Covers(subpieces, o, p);
  }

  /** Every request is among those the order names. */
  predicate Covering(order: seq<nat>, n: nat)
  {
    (forall k :: 0 <= k < |order| ==> order[k] < n) && forall j: nat :: j < n ==> j in order
  }

  /** The answers are blocks of the piece. */
  lemma {:induction false} AnswersAreBlocks(piece: Bytes, tail: Bytes, index: nat, have: set<nat>, order: seq<nat>)
    requires |piece| <= 0x1_0000_0000 - BLOCK
    requires var reqs := Missing(index, |piece|, have, 0);
             forall k :: 0 <= k < |order| ==> order[k] < |reqs|
    ensures var reqs := Missing(index, |piece|, have, 0);
            (forall k :: 0 <= k < |order| ==> Serve(true, Some(Buffer(piece, tail)), reqs[order[k]]).Sent?)
            && AllBlocks(piece, Answers(Buffer(piece, tail), reqs, order))
  {
    var reqs := Missing(index, |piece|, have, 0);
    MissingAre(index, |piece|, have, 0);
    forall k | 0 <= k < |order|
      ensures Serve(true, Some(Buffer(piece, tail)), reqs[order[k]]).Sent?
      ensures IsBlock(piece, reqs[order[k]].offset, Serve(true, Some(Buffer(piece, tail)), reqs[order[k]]).data)
    {
      assert reqs[order[k]] in reqs;
      RequestIsServed(piece, tail, index, have, reqs[order[k]]);
    }
  }

  /** Serving every request a worker makes, and delivering every answer at least once, in any order and
      with repeats, completes the worker, and then its bytes are the piece. */
  lemma {:induction false} TransferIsExact(piece: Bytes, tail: Bytes, index: nat, p: Progress, order: seq<nat>)
    requires |piece| <= 0x1_0000_0000 - BLOCK && Sane(piece, p)
    requires Covering(order, |Missing(index, |piece|, p.subpieces.Keys, 0)|)
    ensures var reqs := Missing(index, |piece|, p.subpieces.Keys, 0);
            (forall k :: 0 <= k < |order| ==> Serve(true, Some(Buffer(piece, tail)), reqs[order[k]]).Sent?)
            && Whole(piece, Feed(|piece|, p, Answers(Buffer(piece, tail), reqs, order)))
  {
    var have := p.subpieces.Keys;
    var reqs := Missing(index, |piece|, have, 0);
    MissingAre(index, |piece|, have, 0);
    AnswersAreBlocks(piece, tail, index, have, order);
    var msgs := Answers(Buffer(piece, tail), reqs, order);
    forall o: nat | o < |piece| && o % 16384 == 0 && o !in p.subpieces
      ensures exists k :: 0 <= k < |msgs| && msgs[k].0 == o
    {
      AnsweredSomewhere(piece, index, have, o, reqs, order, msgs);
    }
    FeedCompletes(piece, p, msgs);
  }

  lemma {:induction false} AnsweredSomewhere(piece: Bytes, index: nat, have: set<nat>, o: nat, reqs: seq<Request>,
                                             order: seq<nat>, msgs: seq<(nat, Bytes)>)
    requires o < |piece| && o % 16384 == 0 && o !in have
    requires forall r :: IsRequest(r, index, |piece|, have) ==> r in reqs
    requires |msgs| == |order| && forall k :: 0 <= k < |order| ==>
        order[k] < |reqs| && msgs[k].0 == reqs[order[k]].offset
    requires forall j: nat :: j < |reqs| ==> j in order
    ensures exists k :: 0 <= k < |msgs| && msgs[k].0 == o
  {
    var r := Request(index, o, Min(BLOCK, |piece| - o));
    assert IsRequest(r, index, |piece|, have);
    var j: nat :| j < |reqs| && reqs[j] == r;
    assert j in order;
    var k :| 0 <= k < |order| && order[k] == j;
    assert msgs[k].0 == o;
  }

  /** The total length of the requests. */
  function Volume(reqs: seq<Request>): nat
  {
    if reqs == [] then 0 else Volume(reqs[..|reqs| - 1]) + reqs[|reqs| - 1].length
  }

  lemma {:induction false} VolumeCons(r: Request, reqs: seq<Request>)
    ensures Volume([r] + reqs) == r.length + Volume(reqs)
  {
    var all := [r] + reqs;
    if reqs == [] {
      assert all[..0] == [];
    } else {
      VolumeCons(r, reqs[..|reqs| - 1]);
      assert all[..|all| - 1] == [r] + reqs[..|reqs| - 1];
    }
  }

  /** A fresh worker asks for as many bytes as the piece has. */
  lemma {:induction false} RequestsAddUp(index: nat, pieceLength: nat, offset: nat)
    requires offset <= pieceLength
    ensures Volume(Missing(index, pieceLength, {}, offset)) == pieceLength - offset
    decreases pieceLength - offset
  {
    if offset < pieceLength {
      VolumeCons(Request(index, offset, Min(BLOCK, pieceLength - offset)),
                 Missing(index, pieceLength, {}, offset + BLOCK));
      if offset + BLOCK <= pieceLength {
        RequestsAddUp(index, pieceLength, offset + BLOCK);
      }
    }
  }
}
