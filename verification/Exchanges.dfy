/** A piece asked for and sent over the wire: the requests and the answers of Transfers, encoded and decoded as
    Wire does. */
module Exchanges {
  import opened Basics
  import opened Numbers
  import opened Workers
  import opened Transfers
  import Wire

  /** The message that asks for a block. */
  function Asking(r: Request): Wire.Message
    requires r.index < 0x1_0000_0000 && r.offset < 0x1_0000_0000 && r.length < 0x1_0000_0000
  {
    Wire.Request(r.index, r.offset, r.length)
  }

  function AskingAll(reqs: seq<Request>): (r: seq<Wire.Message>)
    requires forall q :: q in reqs ==> q.index < 0x1_0000_0000 && q.offset < 0x1_0000_0000 && q.length < 0x1_0000_0000
    ensures |r| == |reqs| && forall k :: 0 <= k < |r| ==> r[k] == Asking(reqs[k])
  {
    seq(|reqs|, k requires 0 <= k < |reqs| => Asking(reqs[k]))
  }

  /** The Piece messages that carry blocks of piece `index`. */
  function Carrying(index: uint32, msgs: seq<(nat, Bytes)>): (r: seq<Wire.Message>)
    requires forall m :: m in msgs ==> m.0 < 0x1_0000_0000
    ensures |r| == |msgs| && forall k :: 0 <= k < |r| ==> r[k] == Wire.Piece(index, msgs[k].0, msgs[k].1)
  {
    seq(|msgs|, k requires 0 <= k < |msgs| => assert msgs[k] in msgs; Wire.Piece(index, msgs[k].0, msgs[k].1))
  }

  /** The blocks in a list of messages, as they are handed to the worker. */
  function Carried(ms: seq<Wire.Message>): seq<(nat, Bytes)>
  {
    if ms == [] then []
    else
      var m := ms[|ms| - 1];
      Carried(ms[..|ms| - 1]) + if m.Piece? then [(m.offset, m.data)] else []
  }

  lemma {:induction false} CarriedBack(index: uint32, msgs: seq<(nat, Bytes)>)
    requires forall m :: m in msgs ==> m.0 < 0x1_0000_0000
    ensures Carried(Carrying(index, msgs)) == msgs
  {
    if msgs != [] {
      var n := |msgs| - 1;
      CarriedBack(index, msgs[..n]);
      assert Carrying(index, msgs)[..n] == Carrying(index, msgs[..n]);
      Snoc(msgs);
    }
  }

  /** Requests survive the wire whatever the prefix of a Piece. */
  lemma {:induction false} RequestsSurvive(reqs: seq<Request>, overhead: nat)
    requires overhead == Wire.CODE_OVERHEAD || overhead == Wire.RIGHT_OVERHEAD
    requires forall q :: q in reqs ==> q.index < 0x1_0000_0000 && q.offset < 0x1_0000_0000 && q.length < 0x1_0000_0000
    ensures Wire.DecodeAll(Wire.EncodeAll(AskingAll(reqs), overhead)) == (AskingAll(reqs), Wire.Eof)
  {
    Wire.AllSupportedAre(AskingAll(reqs), overhead);
    Wire.StreamRoundTrip(AskingAll(reqs), overhead);
  }

  /** So do the blocks of a piece, if and only if the prefix of a Piece is right or there are none. */
  lemma {:induction false} BlocksSurviveIff(piece: Bytes, index: uint32, msgs: seq<(nat, Bytes)>, overhead: nat)
    requires overhead == Wire.CODE_OVERHEAD || overhead == Wire.RIGHT_OVERHEAD
    requires |piece| <= 0x1_0000_0000 && AllBlocks(piece, msgs)
    ensures forall m :: m in msgs ==> m.0 < 0x1_0000_0000
    ensures Wire.DecodeAll(Wire.EncodeAll(Carrying(index, msgs), overhead)) == (Carrying(index, msgs), Wire.Eof)
       <==> overhead == Wire.RIGHT_OVERHEAD || msgs == []
  {
    OffsetsFit(piece, msgs);
    var ms := Carrying(index, msgs);
    Wire.StreamRoundTrip(ms, overhead);
    Wire.AllSupportedAre(ms, overhead);
    forall k | 0 <= k < |ms| ensures Wire.Supported(ms[k], overhead) <==> overhead == Wire.RIGHT_OVERHEAD {
      assert IsBlock(piece, msgs[k].0, msgs[k].1);
    }
    if msgs != [] && overhead != Wire.RIGHT_OVERHEAD {
      assert ms[0] in ms && !Wire.Supported(ms[0], overhead);
    }
  }

  lemma {:induction false} OffsetsFit(piece: Bytes, msgs: seq<(nat, Bytes)>)
    requires |piece| <= 0x1_0000_0000 && AllBlocks(piece, msgs)
    ensures forall m :: m in msgs ==> m.0 < 0x1_0000_0000
  {
    forall m | m in msgs ensures m.0 < 0x1_0000_0000 {
      var k :| 0 <= k < |msgs| && msgs[k] == m;
      assert IsBlock(piece, msgs[k].0, msgs[k].1);
    }
  }

  /** A worker asks, a holder of the piece answers every request at least once, in any order, and all of it goes
      over the wire with the right prefix: the worker ends up with the piece. */
  lemma {:induction false} ExchangeIsExact(piece: Bytes, tail: Bytes, index: uint32, p: Progress, order: seq<nat>)
    requires |piece| <= 0x1_0000_0000 - BLOCK && Sane(piece, p)
    requires Covering(order, |Missing(index, |piece|, p.subpieces.Keys, 0)|)
    ensures var reqs := Missing(index, |piece|, p.subpieces.Keys, 0);
            && (forall q :: q in reqs ==>
                q.index < 0x1_0000_0000 && q.offset < 0x1_0000_0000 && q.length < 0x1_0000_0000)
            && Wire.DecodeAll(Wire.EncodeAll(AskingAll(reqs), Wire.RIGHT_OVERHEAD)) == (AskingAll(reqs), Wire.Eof)
            && (forall k :: 0 <= k < |order| ==> Serve(true, Some(Buffer(piece, tail)), reqs[order[k]]).Sent?)
            && var msgs := Answers(Buffer(piece, tail), reqs, order);
               && (forall m :: m in msgs ==> m.0 < 0x1_0000_0000)
               && var (received, end) := Wire.DecodeAll(Wire.EncodeAll(Carrying(index, msgs), Wire.RIGHT_OVERHEAD));
                  end == Wire.Eof && Whole(piece, Feed(|piece|, p, Carried(received)))
  {
    var reqs := Missing(index, |piece|, p.subpieces.Keys, 0);
    MissingAre(index, |piece|, p.subpieces.Keys, 0);
    assert forall q :: q in reqs ==> IsRequest(q, index, |piece|, p.subpieces.Keys);
    RequestsSurvive(reqs, Wire.RIGHT_OVERHEAD);
    TransferIsExact(piece, tail, index, p, order);
    AnswersAreBlocks(piece, tail, index, p.subpieces.Keys, order);
    var msgs := Answers(Buffer(piece, tail), reqs, order);
    BlocksSurviveIff(piece, index, msgs, Wire.RIGHT_OVERHEAD);
    CarriedBack(index, msgs);
  }

  /** With the prefix of the code, a piece of one block arrives without its last byte. The worker takes it for
      complete, and its bytes are the piece if and only if that byte was 0. */
  lemma {:induction false} OneBlockLosesItsEnd(piece: Bytes, index: uint32, rest: Bytes, buf: Bytes)
    requires 0 < |piece| <= BLOCK
    ensures Wire.Decode(Wire.Encode(Wire.Piece(index, 0, piece), Wire.CODE_OVERHEAD) + rest).0
         == Wire.Got(Wire.Piece(index, 0, piece[..|piece| - 1]))
    ensures var q := Accept(|piece|, Progress(map[], false), 0, piece[..|piece| - 1]);
            q.exited && (Overlay(buf, |piece|, q.subpieces) ==> (buf == piece <==> piece[|piece| - 1] == 0))
  {
    Wire.PieceLosesLastByte(index, 0, piece, rest);
    var short := piece[..|piece| - 1];
    OneBlock(short);
    assert Accept(|piece|, Progress(map[], false), 0, short).subpieces == map[][0 := short];
    if Overlay(buf, |piece|, map[][0 := short]) {
      ShortOverlay(short, buf);
      Snoc(piece);
      LastDiffers(short, piece[|piece| - 1], 0);
    }
  }

  lemma {:induction false} LastDiffers(short: Bytes, x: byte, y: byte)
    ensures short + [x] == short + [y] <==> x == y
  {
    assert (short + [x])[|short|] == x && (short + [y])[|short|] == y;
  }

  lemma {:induction false} ShortOverlay(short: Bytes, buf: Bytes)
    requires Overlay(buf, |short| + 1, map[][0 := short])
    ensures buf == short + [0]
  {
    var m: map<nat, Bytes> := map[][0 := short];
    OneBlock(short);
    forall p | 0 <= p < |short| ensures buf[p] == short[p] {
      assert ByteFrom(buf[p], p, m) && Covers(m, 0, p);
    }
    assert ByteFrom(buf[|short|], |short|, m);
  }

  lemma {:induction false} OneBlock(data: Bytes)
    ensures var m: map<nat, Bytes> := map[][0 := data]; |m| == 1 && m.Keys == {0} && m[0] == data
  {
    var m: map<nat, Bytes> := map[][0 := data];
    assert m.Keys == {0};
    assert |m| == |m.Keys|;
  }
}
