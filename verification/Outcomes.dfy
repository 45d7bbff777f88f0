/** What becomes of the pieces of a download, in terms of what has happened in its run. */
module Outcomes {
  import opened Basics
  import opened Torrents
  import opened Workers
  import opened Transfers
  import opened Downloads

  // ----- held, and saved? -----

  /** Some save of piece i did not pass verification. */
  ghost predicate FailedSave(c: Config, es: seq<Event>, sha1: HashFunction, i: nat)
  {
    exists e :: e in es && e.Save? && e.i == i && !(i < c.N() && sha1(e.buf) == c.m.hashes[i])
  }

  lemma {:induction false} FailedSaveAppend(c: Config, es: seq<Event>, e: Event, sha1: HashFunction, i: nat)
    ensures FailedSave(c, es + [e], sha1, i)
       <==> FailedSave(c, es, sha1, i) || (e.Save? && e.i == i && !(i < c.N() && sha1(e.buf) == c.m.hashes[i]))
  {
    if FailedSave(c, es, sha1, i) {
      var x :| x in es && x.Save? && x.i == i && !(i < c.N() && sha1(x.buf) == c.m.hashes[i]);
      assert x in es + [e];
    }
    if e.Save? && e.i == i && !(i < c.N() && sha1(e.buf) == c.m.hashes[i]) {
      assert e in es + [e];
    }
  }

  lemma {:induction false} RejectedStep(c: Config, s: State, e: Event, sha1: HashFunction, i: nat)
    requires c.m.Valid() && Enabled(c, s, e)
    ensures i in Next(c, s, e, sha1).rejected
       <==> i in s.rejected || (e.Save? && e.i == i && !(i < c.N() && sha1(e.buf) == c.m.hashes[i]))
  {
  }

  lemma {:induction false} RejectedIff(c: Config, s0: State, es: seq<Event>, sha1: HashFunction, i: nat)
    requires c.m.Valid() && Started(c, s0, sha1) && Run(c, s0, es, sha1)
    ensures i in Exec(c, s0, es, sha1).rejected <==> FailedSave(c, es, sha1, i)
    decreases |es|
  {
    if es != [] {
      var before, e := es[..|es| - 1], es[|es| - 1];
      RejectedIff(c, s0, before, sha1, i);
      RejectedStep(c, Exec(c, s0, before, sha1), e, sha1, i);
      FailedSaveAppend(c, before, e, sha1, i);
      Snoc(es);
    }
  }

  /** The blocks of piece i are about to be saved, and bytes can put them together. */
  ghost predicate Savable(c: Config, s: State, i: nat)
    requires c.m.Valid()
  {
    i in s.pending && !OutOfBounds(c.WorkerLength(i), s.pending[i])
  }

  /** They cannot be: bytes panics. */
  ghost predicate Stuck(c: Config, s: State, i: nat)
    requires c.m.Valid()
  {
    i in s.pending && OutOfBounds(c.WorkerLength(i), s.pending[i])
  }

  /** Some block for piece i went past the end of the piece. */
  predicate Overlong(c: Config, e: Event, i: nat)
    requires c.m.Valid()
  {
    e.Block? && e.i == i && e.offset + |e.data| > c.WorkerLength(i)
  }

  // ----- the blocks a worker has taken in -----

  /** The worker of piece i is still collecting, and this is the first block for its offset. */
  ghost predicate TakesIn(s: State, e: Event, i: nat)
  {
    e.Block? && e.i == i && i in s.workers && !s.workers[i].exited && e.offset !in s.workers[i].subpieces
  }

  /** In some step of the run, the worker of piece i took a block in. */
  ghost predicate TookIn(c: Config, s0: State, es: seq<Event>, sha1: HashFunction, i: nat)
    requires c.m.Valid() && Run(c, s0, es, sha1)
  {
    es != [] && (TookIn(c, s0, es[..|es| - 1], sha1, i)
                 || TakesIn(Exec(c, s0, es[..|es| - 1], sha1), es[|es| - 1], i))
  }

  /** In some step of the run, it took one in that goes past the end of the piece. */
  ghost predicate TookOverlong(c: Config, s0: State, es: seq<Event>, sha1: HashFunction, i: nat)
    requires c.m.Valid() && Run(c, s0, es, sha1)
  {
    es != [] && (TookOverlong(c, s0, es[..|es| - 1], sha1, i)
                 || (TakesIn(Exec(c, s0, es[..|es| - 1], sha1), es[|es| - 1], i) && Overlong(c, es[|es| - 1], i)))
  }

  /** What the state shows of piece i says whether it took in a block, and an overlong one. */
  ghost predicate Shows(c: Config, s0: State, s: State, i: nat, took: bool, overlong: bool)
    requires c.m.Valid()
  {
    && (i in s.workers && !s.workers[i].exited ==>
          && (took <==> s.workers[i].subpieces != map[])
          && (overlong <==> OutOfBounds(c.WorkerLength(i), s.workers[i].subpieces))
          && (c.WorkerLength(i) == 0 ==> s.workers[i].subpieces == map[]))
    && (i in s.pending ==> took && (overlong <==> OutOfBounds(c.WorkerLength(i), s.pending[i])))
    && (i in s.rejected ==> took)
    && (i in s.disk ==> (i in s0.held || took) && !overlong)
    && (i in s0.held ==> i in s.disk && i !in s.workers)
    && (took ==> i in s.workers || i in s.held)
    && (overlong ==> took)
    && (took && i in s.held ==> i in s.disk || i in s.pending || i in s.rejected)
    && (i in s.workers && s.workers[i].exited ==> i in s.disk || i in s.pending || i in s.rejected)
  }

  lemma {:induction false} NoneOut(pieceLength: nat)
    ensures !OutOfBounds(pieceLength, map[])
  {
  }

  lemma {:induction false} OneMoreOut(pieceLength: nat, subpieces: map<nat, Bytes>, offset: nat, data: Bytes)
    requires offset !in subpieces
    ensures OutOfBounds(pieceLength, subpieces[offset := data])
       <==> OutOfBounds(pieceLength, subpieces) || offset + |data| > pieceLength
  {
    var more := subpieces[offset := data];
    if o :| o in subpieces && o + |subpieces[o]| > pieceLength {
      assert o in more && o + |more[o]| > pieceLength;
    }
    if offset + |data| > pieceLength {
      assert offset in more && offset + |more[offset]| > pieceLength;
    }
  }

  lemma {:induction false} SpawnShows(c: Config, s0: State, s: State, j: nat, sha1: HashFunction, i: nat, took: bool,
                                      overlong: bool)
    requires c.m.Valid() && Enabled(c, s, Spawn(j)) && Apart(s, i) && Shows(c, s0, s, i, took, overlong)
    ensures Shows(c, s0, Next(c, s, Spawn(j), sha1), i, took, overlong)
  {
    NoneOut(c.WorkerLength(i));
    var t := Next(c, s, Spawn(j), sha1);
    if i == j {
      assert !took && t.workers[i].subpieces == map[];
    } else {
      assert i in t.workers <==> i in s.workers;
    }
  }

  lemma {:induction false} BlockShows(c: Config, s0: State, s: State, j: nat, offset: nat, data: Bytes,
                                      sha1: HashFunction, i: nat, took: bool, overlong: bool)
    requires c.m.Valid() && Apart(s, i) && Shows(c, s0, s, i, took, overlong)
    ensures var e := Block(j, offset, data);
            var t := TakesIn(s, e, i);
            Shows(c, s0, Next(c, s, e, sha1), i, took || t, overlong || (t && Overlong(c, e, i)))
  {
    if TakesIn(s, Block(j, offset, data), i) {
      BlockTaken(c, s0, s, offset, data, sha1, i, took, overlong);
    } else if j in s.workers {
      OtherBlock(c, s0, s, j, offset, data, sha1, i, took, overlong);
    }
  }

  /** The block makes no difference to piece i. */
  lemma {:induction false} OtherBlock(c: Config, s0: State, s: State, j: nat, offset: nat, data: Bytes,
                                      sha1: HashFunction, i: nat, took: bool, overlong: bool)
    requires c.m.Valid() && Shows(c, s0, s, i, took, overlong)
    requires j in s.workers && !TakesIn(s, Block(j, offset, data), i)
    ensures Shows(c, s0, Next(c, s, Block(j, offset, data), sha1), i, took, overlong)
  {
    var t := Next(c, s, Block(j, offset, data), sha1);
    assert i in t.workers <==> i in s.workers;
    assert i in s.workers ==> t.workers[i] == s.workers[i];
    assert i in t.pending <==> i in s.pending;
    assert i in s.pending ==> t.pending[i] == s.pending[i];
  }

  lemma {:induction false} BlockTaken(c: Config, s0: State, s: State, offset: nat, data: Bytes, sha1: HashFunction,
                                      i: nat, took: bool, overlong: bool)
    requires c.m.Valid() && Apart(s, i) && Shows(c, s0, s, i, took, overlong)
    requires TakesIn(s, Block(i, offset, data), i)
    ensures Shows(c, s0, Next(c, s, Block(i, offset, data), sha1), i, true,
                  overlong || Overlong(c, Block(i, offset, data), i))
  {
    var t := Next(c, s, Block(i, offset, data), sha1);
    var more := s.workers[i].subpieces[offset := data];
    OneMoreOut(c.WorkerLength(i), s.workers[i].subpieces, offset, data);
    assert t.workers[i] == Progress(more, IsComplete(c.WorkerLength(i), more));
    assert offset in more && |more| > 0;
    assert i !in s.disk && i !in s.pending && i !in s.rejected;
  }

  lemma {:induction false} SaveShows(c: Config, s0: State, s: State, e: Event, sha1: HashFunction, i: nat, took: bool,
                                     overlong: bool)
    requires c.m.Valid() && e.Save? && Enabled(c, s, e) && Apart(s, i) && Shows(c, s0, s, i, took, overlong)
    ensures Shows(c, s0, Next(c, s, e, sha1), i, took, overlong)
  {
  }

  lemma {:induction false} TickShows(c: Config, s0: State, s: State, sha1: HashFunction, i: nat, took: bool,
                                     overlong: bool)
    requires c.m.Valid() && Apart(s, i) && Shows(c, s0, s, i, took, overlong)
    requires AccountsFor(c, s, sha1, i)
    ensures Shows(c, s0, Next(c, s, Tick, sha1), i, took, overlong)
  {
    var t := Next(c, s, Tick, sha1);
    assert i in t.workers ==> t.workers[i] == s.workers[i];
  }

  lemma {:induction false} RunShows(c: Config, s0: State, es: seq<Event>, sha1: HashFunction, i: nat)
    requires c.m.Valid() && Started(c, s0, sha1) && Run(c, s0, es, sha1)
    ensures Shows(c, s0, Exec(c, s0, es, sha1), i, TookIn(c, s0, es, sha1, i), TookOverlong(c, s0, es, sha1, i))
    decreases |es|
  {
    if es != [] {
      var before, e := es[..|es| - 1], es[|es| - 1];
      var s := Exec(c, s0, before, sha1);
      var took, overlong := TookIn(c, s0, before, sha1, i), TookOverlong(c, s0, before, sha1, i);
      RunShows(c, s0, before, sha1, i);
      RunKeeps(c, s0, before, sha1);
      assert Apart(s, i) && AccountsFor(c, s, sha1, i);
      match e
      case Spawn(j) => SpawnShows(c, s0, s, j, sha1, i, took, overlong);
      case Block(j, offset, data) => BlockShows(c, s0, s, j, offset, data, sha1, i, took, overlong);
      case Save(_, _) => SaveShows(c, s0, s, e, sha1, i, took, overlong);
      case Tick => TickShows(c, s0, s, sha1, i, took, overlong);
    }
  }

  /** Whatever blocks arrive, a piece that is held is on disk with the right hash, or can still be saved, if and
      only if it was there from the start or its worker has taken a block in -- only one that was given length 0 is
      cleared without any --, no save of it has failed, and its worker has taken in no block past its end. */
  lemma {:induction false} HeldIffSaved(c: Config, s0: State, es: seq<Event>, sha1: HashFunction, i: nat)
    requires c.m.Valid() && Started(c, s0, sha1) && Run(c, s0, es, sha1) && i in Exec(c, s0, es, sha1).held
    ensures var s := Exec(c, s0, es, sha1);
            OnDisk(c, s, sha1, i) || Savable(c, s, i)
            <==> (i in s0.held || TookIn(c, s0, es, sha1, i))
                 && !FailedSave(c, es, sha1, i) && !TookOverlong(c, s0, es, sha1, i)
    ensures c.WorkerLength(i) > 0 ==> i in s0.held || TookIn(c, s0, es, sha1, i)
  {
    RunKeeps(c, s0, es, sha1);
    RejectedIff(c, s0, es, sha1, i);
    RunShows(c, s0, es, sha1, i);
    assert Apart(Exec(c, s0, es, sha1), i) && AccountsFor(c, Exec(c, s0, es, sha1), sha1, i);
  }

  /** If no block for the piece goes past its end, that is to say if and only if no save of it has failed; and a
      last piece whose worker is given length 0 must have been there from the start or have had a block. */
  lemma {:induction false} HeldIffNoneFailed(c: Config, s0: State, es: seq<Event>, sha1: HashFunction, i: nat)
    requires c.m.Valid() && Started(c, s0, sha1) && Run(c, s0, es, sha1) && i in Exec(c, s0, es, sha1).held
    requires forall e :: e in es ==> !Overlong(c, e, i)
    ensures var s := Exec(c, s0, es, sha1);
            OnDisk(c, s, sha1, i) || Savable(c, s, i)
            <==> !FailedSave(c, es, sha1, i)
                 && (c.WorkerLength(i) == 0 ==> i in s0.held || TookIn(c, s0, es, sha1, i))
  {
    HeldIffSaved(c, s0, es, sha1, i);
    NoneOverlong(c, s0, es, sha1, i);
  }

  lemma {:induction false} NoneOverlong(c: Config, s0: State, es: seq<Event>, sha1: HashFunction, i: nat)
    requires c.m.Valid() && Run(c, s0, es, sha1) && forall e :: e in es ==> !Overlong(c, e, i)
    ensures !TookOverlong(c, s0, es, sha1, i)
    decreases |es|
  {
    if es != [] {
      Snoc(es);
      NoneOverlong(c, s0, es[..|es| - 1], sha1, i);
    }
  }

  // ----- delivering a whole piece -----

  /** Messages with blocks of piece i, one after another. */
  function Delivery(i: nat, msgs: seq<(nat, Bytes)>): seq<Event>
  {
    if msgs == [] then []
    else Delivery(i, msgs[..|msgs| - 1]) + [Block(i, msgs[|msgs| - 1].0, msgs[|msgs| - 1].1)]
  }

  /** The state in which the worker of piece i has come so far. */
  function WithProgress(s: State, i: nat, q: Progress): State
    requires i in s.workers
  {
    s.(workers := s.workers[i := q],
       pending := if !s.workers[i].exited && q.exited then s.pending[i := q.subpieces] else s.pending)
  }

  lemma {:induction false} WithSame(s: State, i: nat)
    requires i in s.workers
    ensures WithProgress(s, i, s.workers[i]) == s
  {
    assert s.workers[i := s.workers[i]] == s.workers;
  }

  lemma {:induction false} WithNext(c: Config, s: State, sha1: HashFunction, i: nat, q: Progress, offset: nat,
                                    data: Bytes)
    requires c.m.Valid() && i in s.workers && (s.workers[i].exited ==> q == s.workers[i])
    ensures Next(c, WithProgress(s, i, q), Block(i, offset, data), sha1)
         == WithProgress(s, i, Accept(c.WorkerLength(i), q, offset, data))
  {
    assert s.workers[i := q][i := q] == s.workers[i := q];
  }

  lemma {:induction false} FeedExited(pieceLength: nat, p: Progress, msgs: seq<(nat, Bytes)>)
    requires p.exited
    ensures Feed(pieceLength, p, msgs) == p
  {
    if msgs != [] {
      FeedExited(pieceLength, p, msgs[..|msgs| - 1]);
    }
  }

  /** A worker takes the messages in as Feed says, and nothing else changes. */
  lemma {:induction false} Deliver(c: Config, s: State, sha1: HashFunction, i: nat, msgs: seq<(nat, Bytes)>)
    requires c.m.Valid() && i in s.workers
    ensures Trace(c, s, Delivery(i, msgs), sha1)
            == Some(WithProgress(s, i, Feed(c.WorkerLength(i), s.workers[i], msgs)))
  {
    if msgs == [] {
      WithSame(s, i);
    } else {
      var n := |msgs| - 1;
      var q := Feed(c.WorkerLength(i), s.workers[i], msgs[..n]);
      Deliver(c, s, sha1, i, msgs[..n]);
      if s.workers[i].exited {
        FeedExited(c.WorkerLength(i), s.workers[i], msgs[..n]);
      }
      WithNext(c, s, sha1, i, q, msgs[n].0, msgs[n].1);
      TraceOne(c, s, Delivery(i, msgs[..n]), Block(i, msgs[n].0, msgs[n].1), WithProgress(s, i, q), sha1);
    }
  }

  /** Starting a worker and delivering messages to it. */
  function SpawnAndDelivery(i: nat, msgs: seq<(nat, Bytes)>): seq<Event>
  {
    [] + [Spawn(i)] + Delivery(i, msgs)
  }

  const IDLE: Progress := Progress(map[], false)

  lemma {:induction false} SpawnAndDeliver(c: Config, s: State, sha1: HashFunction, i: nat, msgs: seq<(nat, Bytes)>)
    requires c.m.Valid() && Enabled(c, s, Spawn(i))
    ensures Trace(c, s, SpawnAndDelivery(i, msgs), sha1) == Some(Supplied(s, i, Feed(c.WorkerLength(i), IDLE, msgs)))
  {
    var s1 := Next(c, s, Spawn(i), sha1);
    TraceOne(c, s, [], Spawn(i), s, sha1);
    Deliver(c, s1, sha1, i, msgs);
    TraceOn(c, s, [] + [Spawn(i)], s1, Delivery(i, msgs), sha1);
    Overwritten(s.workers, i, IDLE, Feed(c.WorkerLength(i), IDLE, msgs));
  }

  lemma {:induction false} Overwritten<V>(m: map<nat, V>, i: nat, x: V, y: V)
    ensures m[i := x][i := y] == m[i := y]
  {
  }

  /** A state with a worker for piece i that has come as far as q. */
  function Supplied(s: State, i: nat, q: Progress): State
  {
    s.(workers := s.workers[i := q], pending := if q.exited then s.pending[i := q.subpieces] else s.pending)
  }

  // ----- whole pieces -----

  /** The first n blocks of a piece. */
  function BlocksOf(piece: Bytes, n: nat): (r: seq<(nat, Bytes)>)
    requires n <= Blocks(|piece|)
    ensures |r| == n
  {
    if n == 0 then []
    else
      var o := 16384 * (n - 1);
      BlocksOf(piece, n - 1) + [(o, piece[o..Min(o + BLOCK, |piece|)])]
  }

  lemma {:induction false} BlocksAt(piece: Bytes, n: nat)
    requires n <= Blocks(|piece|)
    ensures forall k :: 0 <= k < n ==> BlocksOf(piece, n)[k].0 == 16384 * k
    ensures AllBlocks(piece, BlocksOf(piece, n))
  {
    if n > 0 {
      BlocksAt(piece, n - 1);
    }
  }

  function AllOf(piece: Bytes): seq<(nat, Bytes)>
  {
    BlocksOf(piece, Blocks(|piece|))
  }

  lemma {:induction false} AllOfCompletes(piece: Bytes, p: Progress)
    requires Sane(piece, p)
    ensures Whole(piece, Feed(|piece|, p, AllOf(piece)))
  {
    BlocksAt(piece, Blocks(|piece|));
    forall o: nat | o < |piece| && o % 16384 == 0 && o !in p.subpieces
      ensures exists k :: 0 <= k < |AllOf(piece)| && AllOf(piece)[k].0 == o
    {
      assert AllOf(piece)[o / 16384].0 == o;
    }
    FeedCompletes(piece, p, AllOf(piece));
  }

  /** That a save fails does happen: a piece that arrives whole, but with the wrong content, ends up held though
      it has not been saved. */
  lemma {:induction false} CorruptPieceIsHeld(c: Config, s0: State, sha1: HashFunction, i: nat, data: Bytes)
    returns (es: seq<Event>)
    requires c.m.Valid() && Started(c, s0, sha1) && Enabled(c, s0, Spawn(i))
    requires |data| == c.WorkerLength(i) > 0 && sha1(data) != c.m.hashes[i]
    ensures Run(c, s0, es, sha1) && FailedSave(c, es, sha1, i)
    ensures var s := Exec(c, s0, es, sha1); i in s.held && i !in s.disk && i !in s.pending
  {
    SpawnAndDeliver(c, s0, sha1, i, AllOf(data));
    AllOfCompletes(data, IDLE);
    var s := Supplied(s0, i, Feed(|data|, IDLE, AllOf(data)));
    TraceOne(c, s0, SpawnAndDelivery(i, AllOf(data)), Save(i, data), s, sha1);
    var t := Next(c, s, Save(i, data), sha1);
    TraceOne(c, s0, SpawnAndDelivery(i, AllOf(data)) + [Save(i, data)], Tick, t, sha1);
    assert i in Finished(c, t);
    es := SpawnAndDelivery(i, AllOf(data)) + [Save(i, data)] + [Tick];
    assert Save(i, data) in es;
  }

  // ----- a worker that is stuck -----

  /** n one-byte blocks behind the end of a piece. */
  function Behind(pieceLength: nat, n: nat): seq<(nat, Bytes)>
  {
    if n == 0 then [] else Behind(pieceLength, n - 1) + [(pieceLength + n - 1, [0])]
  }

  lemma {:induction false} FeedBehind(pieceLength: nat, n: nat)
    requires n <= Blocks(pieceLength) && pieceLength > 0
    ensures var q := Feed(pieceLength, IDLE, Behind(pieceLength, n));
            && |q.subpieces| == n && (q.exited <==> 16384 * n >= pieceLength)
            && (forall o :: o in q.subpieces ==> o < pieceLength + n)
            && (n > 0 ==> pieceLength in q.subpieces && q.subpieces[pieceLength] == [0])
  {
    if n > 0 {
      FeedBehind(pieceLength, n - 1);
      DropLast(Behind(pieceLength, n - 1), (pieceLength + n - 1, [0]));
    }
  }

  /** A worker gets as many blocks as its piece has, all of them behind its end. It counts as complete and the
      piece as held; but bytes panics, so that no save of it is ever possible. */
  lemma {:induction false} StuckPieceIsHeld(c: Config, s0: State, sha1: HashFunction, i: nat) returns (es: seq<Event>)
    requires c.m.Valid() && Started(c, s0, sha1) && Enabled(c, s0, Spawn(i)) && c.WorkerLength(i) > 0
    ensures Run(c, s0, es, sha1) && !FailedSave(c, es, sha1, i)
    ensures var s := Exec(c, s0, es, sha1);
            i in s.held && i !in s.disk && Stuck(c, s, i) && forall buf :: !Enabled(c, s, Save(i, buf))
  {
    var len := c.WorkerLength(i);
    var msgs := Behind(len, Blocks(len));
    SpawnAndDeliver(c, s0, sha1, i, msgs);
    FeedBehind(len, Blocks(len));
    var s := Supplied(s0, i, Feed(len, IDLE, msgs));
    es := SpawnAndDelivery(i, msgs) + [Tick];
    TraceOne(c, s0, SpawnAndDelivery(i, msgs), Tick, s, sha1);
    assert i in Finished(c, s);
    assert len in s.pending[i] && len + |s.pending[i][len]| > len;
    RejectedIff(c, s0, es, sha1, i);
  }
}
