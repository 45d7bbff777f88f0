/** The downloader of one torrent as a state machine (internal/data/client.go, internal/data/worker.go).

    A step is what happens without interruption: starting a worker, a worker taking in one block, a worker
    saving its piece, and the tick that clears completed workers. A block, the save it leads to and the tick
    that sees it are separate steps, so that a tick may come between the last block and the save.
 */
module Downloads {
  import opened Basics
  import opened Torrents
  import opened Workers

  /** What stays fixed during one download: the torrent, the ignored pieces, and how many pieces may be in
      flight at once. */
  datatype Config = Config(m: Meta, ignored: set<nat>, maxPending: nat)
  {
    function N(): nat { |m.hashes| }

    /** The length downloadPiece gives to the worker of piece i. */
    function WorkerLength(i: nat): nat
      requires m.pieceLength > 0
    {
      if i == |m.hashes| - 1 then Rem(m.Total(), m.pieceLength) else m.pieceLength
    }
  }

  datatype State = State(
    held: set<nat>,                        // the bits set in `pieces`
    workers: map<nat, Progress>,           // by piece index
    pending: map<nat, map<nat, Bytes>>,    // the blocks of workers that are about to save
    disk: map<int, Bytes>,                 // the saved pieces
    rejected: set<nat>,                    // pieces whose save failed verification
    announced: multiset<nat>)              // DownloadCompleteEvents

  datatype Event = Spawn(i: nat) | Block(i: nat, offset: nat, data: Bytes) | Save(i: nat, buf: Bytes) | Tick

  /** Starting a worker comes with the checks of downloadPiece and those that all its callers make; when the loop of
      the client starts one is in module Loops. Saving computes some overlay of the blocks, unless one of them is
      out of bounds. */
  ghost predicate Enabled(c: Config, s: State, e: Event)
    requires c.m.Valid()
  {
    match e
    case Spawn(i) => i < c.N() && i !in s.held && i !in c.ignored && i !in s.workers && |s.workers| <= c.maxPending
    case Block(_, _, _) => true
    case Save(i, buf) => i in s.pending && !OutOfBounds(c.WorkerLength(i), s.pending[i])
      && Overlay(buf, c.WorkerLength(i), s.pending[i])
    case Tick => true
  }

  ghost function Finished(c: Config, s: State): set<nat>
    requires c.m.Valid()
  {
    set i | i in s.workers && IsComplete(c.WorkerLength(i), s.workers[i].subpieces)
  }

  ghost function Next(c: Config, s: State, e: Event, sha1: HashFunction): State
    requires c.m.Valid() && Enabled(c, s, e)
  {
    match e
    case Spawn(i) => s.(workers := s.workers[i := Progress(map[], false)])
    case Block(i, offset, data) =>
      if i !in s.workers then s
      else
        var p := s.workers[i];
        var p' := Accept(c.WorkerLength(i), p, offset, data);
        s.(workers := s.workers[i := p'],
           pending := if !p.exited && p'.exited then s.pending[i := p'.subpieces] else s.pending)
    case Save(i, buf) =>
      if i < c.N() && sha1(buf) == c.m.hashes[i]
      then s.(pending := s.pending - {i}, disk := s.disk[i := buf])
      else s.(pending := s.pending - {i}, rejected := s.rejected + {i})
    case Tick =>
      var done := Finished(c, s);
      s.(held := s.held + done, workers := s.workers - done, announced := s.announced + multiset(done))
  }

  /** Where the steps lead to, if each of them is enabled in its turn. */
  ghost function Trace(c: Config, s: State, es: seq<Event>, sha1: HashFunction): Option<State>
    requires c.m.Valid()
  {
    if es == [] then Some(s)
    else
      match Trace(c, s, es[..|es| - 1], sha1)
      case None => None
      case Some(t) => if Enabled(c, t, es[|es| - 1]) then Some(Next(c, t, es[|es| - 1], sha1)) else None
  }

  ghost predicate Run(c: Config, s: State, es: seq<Event>, sha1: HashFunction)
    requires c.m.Valid()
  {
    Trace(c, s, es, sha1).Some?
  }

  ghost function Exec(c: Config, s: State, es: seq<Event>, sha1: HashFunction): State
    requires c.m.Valid() && Run(c, s, es, sha1)
  {
    Trace(c, s, es, sha1).value
  }

  /** A download starts after verifyPieces: the held pieces are those on disk, and what is on disk has the
      listed hash. */
  ghost predicate Started(c: Config, s: State, sha1: HashFunction)
  {
    && s.workers == map[] && s.pending == map[] && s.rejected == {} && s.announced == multiset{}
    && s.held <= Below(c.N())
    && (forall i :: i in s.disk ==> 0 <= i < c.N() && i in s.held && sha1(s.disk[i]) == c.m.hashes[i])
    && (forall i :: i in s.held ==> i in s.disk)
  }

  // ----- what every run keeps, whatever blocks arrive -----

  ghost predicate OnDisk(c: Config, s: State, sha1: HashFunction, i: nat)
  {
    i < c.N() && i in s.disk && sha1(s.disk[i]) == c.m.hashes[i]
  }

  /** The blocks of piece i went into a save: it succeeded, failed, or is still to come. */
  ghost predicate Accounted(c: Config, s: State, sha1: HashFunction, i: nat)
  {
    OnDisk(c, s, sha1, i) || i in s.pending || i in s.rejected
  }

  /** Pieces in flight are pieces of the torrent that are neither held nor ignored, and there is a bound on
      them. Nothing held is lost, and what is new was announced, once. */
  ghost predicate InFlight(c: Config, s0: State, s: State)
  {
    && s0.held <= s.held <= Below(c.N())
    && s.workers.Keys <= Below(c.N()) && s.workers.Keys !! s.held && s.workers.Keys !! c.ignored
    && |s.workers| <= c.maxPending + 1
    && s.announced == multiset(s.held - s0.held)
    && (s.held - s0.held) !! c.ignored
  }

  /** Every held piece is accounted for, but for one whose worker was given length 0. */
  ghost predicate Accounts(c: Config, s: State, sha1: HashFunction)
    requires c.m.Valid()
  {
    (forall i: nat :: AccountsFor(c, s, sha1, i)) && forall i :: i in s.disk ==> i >= 0
  }

  ghost predicate AccountsFor(c: Config, s: State, sha1: HashFunction, i: nat)
    requires c.m.Valid()
  {
    && (i in s.workers ==> WorkerAccounts(c, s, sha1, i))
    && (i in s.held ==> Accounted(c, s, sha1, i) || c.WorkerLength(i) == 0)
    && (i in s.disk ==> OnDisk(c, s, sha1, i))
  }

  ghost predicate WorkerAccounts(c: Config, s: State, sha1: HashFunction, i: nat)
    requires c.m.Valid() && i in s.workers
  {
    if s.workers[i].exited then Accounted(c, s, sha1, i)
    else IsComplete(c.WorkerLength(i), s.workers[i].subpieces) ==> c.WorkerLength(i) == 0
  }

  lemma {:induction false} StepKeepsInFlight(c: Config, s0: State, s: State, e: Event, sha1: HashFunction)
    requires c.m.Valid() && InFlight(c, s0, s) && Enabled(c, s, e)
    ensures InFlight(c, s0, Next(c, s, e, sha1))
    ensures s.held <= Next(c, s, e, sha1).held
  {
    match e
    case Spawn(i) =>
      assert Next(c, s, e, sha1).workers.Keys == s.workers.Keys + {i};
    case Block(i, offset, data) =>
      if i in s.workers {
        assert Next(c, s, e, sha1).workers.Keys == s.workers.Keys;
      }
    case Save(i, buf) =>
    case Tick =>
      TickKeepsInFlight(c, s0, s, sha1);
  }

  lemma {:induction false} TickKeepsInFlight(c: Config, s0: State, s: State, sha1: HashFunction)
    requires c.m.Valid() && InFlight(c, s0, s)
    ensures InFlight(c, s0, Next(c, s, Tick, sha1))
  {
    var t, done := Next(c, s, Tick, sha1), Finished(c, s);
    assert done <= s.workers.Keys && t.workers.Keys == s.workers.Keys - done;
    KeyCount(t.workers, s.workers);
    Announced(s.held, s0.held, done);
  }

  lemma {:induction false} KeyCount(a: map<nat, Progress>, b: map<nat, Progress>)
    requires a.Keys <= b.Keys
    ensures |a| <= |b|
  {
    SubsetCardinality(a.Keys, b.Keys);
    assert |a| == |a.Keys| && |b| == |b.Keys|;
  }

  lemma {:induction false} Announced(held: set<nat>, before: set<nat>, done: set<nat>)
    requires done !! held && before <= held
    ensures multiset(held + done - before) == multiset(held - before) + multiset(done)
  {
    assert held + done - before == (held - before) + done;
    assert (held - before) !! done;
  }

  lemma {:induction false} StepKeepsAccounts(c: Config, s: State, e: Event, sha1: HashFunction)
    requires c.m.Valid() && Accounts(c, s, sha1) && Enabled(c, s, e)
    ensures Accounts(c, Next(c, s, e, sha1), sha1)
  {
    forall i: nat ensures AccountsFor(c, Next(c, s, e, sha1), sha1, i) {
      StepAccountsFor(c, s, e, sha1, i);
    }
  }

  lemma {:induction false} StepAccountsFor(c: Config, s: State, e: Event, sha1: HashFunction, i: nat)
    requires c.m.Valid() && AccountsFor(c, s, sha1, i) && Enabled(c, s, e)
    ensures AccountsFor(c, Next(c, s, e, sha1), sha1, i)
  {
    match e
    case Spawn(_) =>
    case Block(j, offset, data) => BlockAccountsFor(c, s, j, offset, data, sha1, i);
    case Save(_, _) =>
    case Tick => TickAccountsFor(c, s, sha1, i);
  }

  lemma {:induction false} BlockAccountsFor(c: Config, s: State, j: nat, offset: nat, data: Bytes, sha1: HashFunction,
                                            i: nat)
    requires c.m.Valid() && AccountsFor(c, s, sha1, i)
    ensures AccountsFor(c, Next(c, s, Block(j, offset, data), sha1), sha1, i)
  {
  }

  lemma {:induction false} TickAccountsFor(c: Config, s: State, sha1: HashFunction, i: nat)
    requires c.m.Valid() && AccountsFor(c, s, sha1, i)
    ensures AccountsFor(c, Next(c, s, Tick, sha1), sha1, i)
  {
    var t := Next(c, s, Tick, sha1);
    assert i in t.workers ==> t.workers[i] == s.workers[i];
  }

  /** A piece is saved at most once: a running worker's piece is nowhere yet, and no piece is in two of
      the places a finished one may be in. */
  ghost predicate Exclusive(s: State)
  {
    forall i: nat :: Apart(s, i)
  }

  predicate Apart(s: State, i: nat)
  {
    && !(i in s.disk && i in s.pending) && !(i in s.disk && i in s.rejected) && !(i in s.pending && i in s.rejected)
    && (i in s.disk || i in s.pending || i in s.rejected ==> i in s.held || (i in s.workers && s.workers[i].exited))
    && !(i in s.workers && i in s.held)
  }

  ghost predicate ExitedAreComplete(c: Config, s: State)
    requires c.m.Valid()
  {
    forall i :: i in s.workers && s.workers[i].exited ==> IsComplete(c.WorkerLength(i), s.workers[i].subpieces)
  }

  lemma {:induction false} StepKeepsApart(c: Config, s: State, e: Event, sha1: HashFunction, i: nat)
    requires c.m.Valid() && Apart(s, i) && ExitedAreComplete(c, s) && Enabled(c, s, e)
    ensures Apart(Next(c, s, e, sha1), i)
  {
    match e
    case Spawn(_) =>
    case Block(_, _, _) =>
    case Save(_, _) =>
    case Tick =>
  }

  lemma {:induction false} StepKeepsExclusive(c: Config, s: State, e: Event, sha1: HashFunction)
    requires c.m.Valid() && Exclusive(s) && ExitedAreComplete(c, s) && Enabled(c, s, e)
    ensures Exclusive(Next(c, s, e, sha1))
  {
    forall i: nat ensures Apart(Next(c, s, e, sha1), i) {
      StepKeepsApart(c, s, e, sha1, i);
    }
  }

  lemma {:induction false} StepKeepsExited(c: Config, s: State, e: Event, sha1: HashFunction)
    requires c.m.Valid() && ExitedAreComplete(c, s) && Enabled(c, s, e)
    ensures ExitedAreComplete(c, Next(c, s, e, sha1))
  {
    match e
    case Spawn(i) =>
    case Block(i, offset, data) =>
    case Save(i, buf) =>
    case Tick =>
  }

  /** Over every run, whatever blocks arrive: pieces in flight stay within bounds, held pieces are never
      lost, every piece that is new was announced exactly once, and a held piece is on disk with the right
      hash, about to be saved, or its save failed -- unless its worker was given length 0. */
  lemma {:induction false} RunKeeps(c: Config, s0: State, es: seq<Event>, sha1: HashFunction)
    requires c.m.Valid() && Started(c, s0, sha1) && Run(c, s0, es, sha1)
    ensures var s := Exec(c, s0, es, sha1);
            && InFlight(c, s0, s) && Accounts(c, s, sha1) && Exclusive(s)
            && ExitedAreComplete(c, s)
    decreases |es|
  {
    if es != [] {
      var s, e := Exec(c, s0, es[..|es| - 1], sha1), es[|es| - 1];
      RunKeeps(c, s0, es[..|es| - 1], sha1);
      StepKeepsInFlight(c, s0, s, e, sha1);
      StepKeepsAccounts(c, s, e, sha1);
      StepKeepsExclusive(c, s, e, sha1);
      StepKeepsExited(c, s, e, sha1);
    }
  }

  lemma {:induction false} RunOne(c: Config, s0: State, es: seq<Event>, e: Event, s: State, sha1: HashFunction)
    requires c.m.Valid() && Run(c, s0, es, sha1) && Exec(c, s0, es, sha1) == s && Enabled(c, s, e)
    ensures Run(c, s0, es + [e], sha1) && Exec(c, s0, es + [e], sha1) == Next(c, s, e, sha1)
  {
    DropLast(es, e);
  }

  /** The same, of the trace alone. */
  lemma {:induction false} TraceOne(c: Config, s0: State, es: seq<Event>, e: Event, s: State, sha1: HashFunction)
    requires c.m.Valid() && Trace(c, s0, es, sha1) == Some(s) && Enabled(c, s, e)
    ensures Trace(c, s0, es + [e], sha1) == Some(Next(c, s, e, sha1))
  {
    DropLast(es, e);
  }

  /** A trace goes on where another one has led to. */
  lemma {:induction false} TraceOn(c: Config, s0: State, es: seq<Event>, s: State, more: seq<Event>, sha1: HashFunction)
    requires c.m.Valid() && Trace(c, s0, es, sha1) == Some(s)
    ensures Trace(c, s0, es + more, sha1) == Trace(c, s, more, sha1)
  {
    if more == [] {
      NilRight(es);
    } else {
      var n := |more| - 1;
      TraceOn(c, s0, es, s, more[..n], sha1);
      Snoc(more);
      Associate(es, more[..n], [more[n]]);
      DropLast(es + more[..n], more[n]);
    }
  }

  /** The missing pieces are a measure of the download: each announcement takes one of them, and none is
      announced twice. */
  lemma {:induction false} MissingIsMeasure(c: Config, s0: State, es: seq<Event>, sha1: HashFunction)
    requires c.m.Valid() && Started(c, s0, sha1) && Run(c, s0, es, sha1)
    ensures var s := Exec(c, s0, es, sha1);
            && |s.announced| + |Below(c.N()) - s.held| == |Below(c.N()) - s0.held|
            && forall i :: i in s.announced ==> s.announced[i] == 1 && i in s.held && i !in s0.held && i !in c.ignored
  {
    RunKeeps(c, s0, es, sha1);
    CountGained(Below(c.N()), Exec(c, s0, es, sha1).held, s0.held);
  }

  lemma {:induction false} CountGained(all: set<nat>, held: set<nat>, before: set<nat>)
    requires before <= held <= all
    ensures |multiset(held - before)| + |all - held| == |all - before|
  {
    assert all - before == (all - held) + (held - before);
    assert |all - before| == |all - held| + |held - before|;
  }

  // ----- genuine blocks -----

  /** Every block delivered for a piece is the block of the piece at that offset. */
  ghost predicate GenuineRun(c: Config, stream: Bytes, es: seq<Event>)
  {
    forall k :: 0 <= k < |es| ==> GenuineEvent(c, stream, es[k])
  }

  predicate GenuineEvent(c: Config, stream: Bytes, e: Event)
  {
    e.Block? ==> IsBlock(PieceOf(c.m.pieceLength, stream, e.i), e.offset, e.data)
  }

  /** The true bytes of piece i are on disk, or exactly they are about to be saved. */
  ghost predicate Secured(c: Config, stream: Bytes, s: State, i: nat)
    requires c.m.Valid()
  {
    var piece := PieceOf(c.m.pieceLength, stream, i);
    || (i in s.disk && s.disk[i] == piece)
    || (i in s.pending && !OutOfBounds(c.WorkerLength(i), s.pending[i])
        && forall buf :: Overlay(buf, c.WorkerLength(i), s.pending[i]) ==> buf == piece)
  }

  ghost predicate AllSecured(c: Config, stream: Bytes, s: State)
    requires c.m.Valid()
  {
    forall i :: i in s.held ==> Secured(c, stream, s, i)
  }

  /** The last piece needs no worker, or is shorter than the others: the code takes its length to be the
      remainder of the total, which is 0 when the total is a multiple of the piece length. */
  ghost predicate LastPieceSafe(c: Config, s0: State)
    requires c.m.Valid()
  {
    c.N() > 0 ==> Rem(c.m.Total(), c.m.pieceLength) != 0 || c.N() - 1 in c.ignored || c.N() - 1 in s0.held
  }

  lemma {:induction false} WorkerLengthRight(c: Config, stream: Bytes, i: nat)
    requires c.m.Valid() && |stream| == c.m.Total() && c.N() == c.m.Needed() && i < c.N()
    ensures |PieceOf(c.m.pieceLength, stream, i)| == c.WorkerLength(i)
         || (i == c.N() - 1 && Rem(c.m.Total(), c.m.pieceLength) == 0)
    ensures |PieceOf(c.m.pieceLength, stream, i)| > 0
  {
    var pl, total, n := c.m.pieceLength, c.m.Total(), c.N();
    CeilDivBounds(total, pl);
    QuotRem(total, pl);
    TimesMonotone(i, n - 1, pl);
    PieceIsSlice(pl, stream, i);
  }

  /** Blocks of one piece, as a worker or a save has them. */
  ghost predicate Good(c: Config, stream: Bytes, i: nat, subpieces: map<nat, Bytes>)
    requires c.m.Valid()
  {
    c.WorkerLength(i) == |PieceOf(c.m.pieceLength, stream, i)|
        && Genuine(PieceOf(c.m.pieceLength, stream, i), subpieces)
  }

  ghost predicate GenuineState(c: Config, stream: Bytes, s: State)
    requires c.m.Valid()
  {
    && (forall i :: i in s.workers ==> GenuineWorker(c, stream, s, i))
    && (forall i :: i in s.pending ==>
        i < c.N() && Good(c, stream, i, s.pending[i]) && IsComplete(c.WorkerLength(i), s.pending[i]))
    && (forall i :: i in s.held ==> Stored(c, stream, s, i))
    && s.rejected == {}
  }

  ghost predicate GenuineWorker(c: Config, stream: Bytes, s: State, i: nat)
    requires c.m.Valid() && i in s.workers
  {
    && i < c.N() && Good(c, stream, i, s.workers[i].subpieces)
    && (s.workers[i].exited <==> IsComplete(c.WorkerLength(i), s.workers[i].subpieces))
    && (s.workers[i].exited ==> Stored(c, stream, s, i))
  }

  ghost predicate Stored(c: Config, stream: Bytes, s: State, i: nat)
  {
    (i in s.disk && s.disk[i] == PieceOf(c.m.pieceLength, stream, i)) || i in s.pending
  }

  lemma {:induction false} AcceptKeepsGood(c: Config, stream: Bytes, i: nat, p: Progress, offset: nat, data: Bytes)
    requires c.m.Valid() && Good(c, stream, i, p.subpieces)
             && (p.exited <==> IsComplete(c.WorkerLength(i), p.subpieces))
    requires IsBlock(PieceOf(c.m.pieceLength, stream, i), offset, data)
    ensures var q := Accept(c.WorkerLength(i), p, offset, data);
            Good(c, stream, i, q.subpieces) && (q.exited <==> IsComplete(c.WorkerLength(i), q.subpieces))
  {
  }

  lemma {:induction false} GenuineStep(c: Config, stream: Bytes, s0: State, s: State, e: Event, sha1: HashFunction)
    requires c.m.Valid() && Describes(c.m, stream, sha1) && LastPieceSafe(c, s0)
    requires GenuineState(c, stream, s) && s0.held <= s.held && Enabled(c, s, e) && GenuineEvent(c, stream, e)
    ensures GenuineState(c, stream, Next(c, s, e, sha1))
  {
    match e
    case Spawn(i) =>
      WorkerLengthRight(c, stream, i);
      SpawnGenuine(c, stream, s, i, sha1);
    case Block(i, offset, data) =>
      if i in s.workers {
        AcceptKeepsGood(c, stream, i, s.workers[i], offset, data);
        BlockGenuine(c, stream, s, Next(c, s, e, sha1), i, Accept(c.WorkerLength(i), s.workers[i], offset, data));
      }
    case Save(i, buf) =>
      SaveGenuine(c, stream, s, i, buf, sha1);
    case Tick =>
      TickGenuine(c, stream, s, sha1);
  }

  lemma {:induction false} SpawnGenuine(c: Config, stream: Bytes, s: State, i: nat, sha1: HashFunction)
    requires c.m.Valid() && GenuineState(c, stream, s) && Enabled(c, s, Spawn(i))
    requires |PieceOf(c.m.pieceLength, stream, i)| == c.WorkerLength(i) > 0
    ensures GenuineState(c, stream, Next(c, s, Spawn(i), sha1))
  {
    forall j: nat | Stored(c, stream, s, j) ensures Stored(c, stream, Next(c, s, Spawn(i), sha1), j) {
    }
  }

  lemma {:induction false} BlockGenuine(c: Config, stream: Bytes, s: State, t: State, i: nat, q: Progress)
    requires c.m.Valid() && GenuineState(c, stream, s) && i in s.workers
    requires Good(c, stream, i, q.subpieces) && (q.exited <==> IsComplete(c.WorkerLength(i), q.subpieces))
    requires s.workers[i].exited ==> q.exited
    requires t == s.(workers := s.workers[i := q],
                     pending := if !s.workers[i].exited && q.exited then s.pending[i := q.subpieces] else s.pending)
    ensures GenuineState(c, stream, t)
  {
    assert GenuineWorker(c, stream, s, i);
    forall j: nat | Stored(c, stream, s, j) ensures Stored(c, stream, t, j) {
    }
    forall j | j in t.workers ensures GenuineWorker(c, stream, t, j) {
      if j != i {
        assert GenuineWorker(c, stream, s, j) && t.workers[j] == s.workers[j];
      }
    }
    forall j | j in t.pending
      ensures j < c.N() && Good(c, stream, j, t.pending[j]) && IsComplete(c.WorkerLength(j), t.pending[j])
    {
      if j != i || t.pending == s.pending {
        assert j in s.pending && t.pending[j] == s.pending[j];
      }
    }
    forall j | j in t.held ensures Stored(c, stream, t, j) {
      assert Stored(c, stream, s, j);
    }
  }

  lemma {:induction false} SaveGenuine(c: Config, stream: Bytes, s: State, i: nat, buf: Bytes, sha1: HashFunction)
    requires c.m.Valid() && Describes(c.m, stream, sha1) && GenuineState(c, stream, s) && Enabled(c, s, Save(i, buf))
    ensures GenuineState(c, stream, Next(c, s, Save(i, buf), sha1))
  {
    CompleteOverlayIsPiece(PieceOf(c.m.pieceLength, stream, i), s.pending[i], buf);
    forall j: nat | Stored(c, stream, s, j) ensures Stored(c, stream, Next(c, s, Save(i, buf), sha1), j) {
    }
  }

  lemma {:induction false} TickGenuine(c: Config, stream: Bytes, s: State, sha1: HashFunction)
    requires c.m.Valid() && GenuineState(c, stream, s)
    ensures GenuineState(c, stream, Next(c, s, Tick, sha1))
  {
    forall j: nat | Stored(c, stream, s, j) ensures Stored(c, stream, Next(c, s, Tick, sha1), j) {
    }
  }

  lemma {:induction false} GenuineRunKeeps(c: Config, stream: Bytes, s0: State, es: seq<Event>, sha1: HashFunction)
    requires c.m.Valid() && Describes(c.m, stream, sha1) && Started(c, s0, sha1) && LastPieceSafe(c, s0)
    requires CollisionFree(sha1, PieceSet(c.m, stream) + s0.disk.Values)
    requires Run(c, s0, es, sha1) && GenuineRun(c, stream, es)
    ensures var s := Exec(c, s0, es, sha1); GenuineState(c, stream, s) && s0.held <= s.held
    decreases |es|
  {
    if es == [] {
      forall i | i in s0.held ensures Stored(c, stream, s0, i) {
        assert s0.disk[i] in s0.disk.Values;
        assert PieceSet(c.m, stream) + {s0.disk[i]} <= PieceSet(c.m, stream) + s0.disk.Values;
        VerifiedIsPiece(c.m, stream, sha1, i, s0.disk[i]);
      }
    } else {
      var es' := es[..|es| - 1];
      GenuineRunKeeps(c, stream, s0, es', sha1);
      GenuineStep(c, stream, s0, Exec(c, s0, es', sha1), es[|es| - 1], sha1);
    }
  }

  lemma {:induction false} GenuineIsSecured(c: Config, stream: Bytes, s: State)
    requires c.m.Valid() && GenuineState(c, stream, s)
    ensures AllSecured(c, stream, s)
  {
    forall i | i in s.held ensures Secured(c, stream, s, i) {
      assert Stored(c, stream, s, i);
      if i in s.pending {
        var piece := PieceOf(c.m.pieceLength, stream, i);
        NoneOutOfBounds(piece, s.pending[i]);
        forall buf | Overlay(buf, c.WorkerLength(i), s.pending[i]) ensures buf == piece {
          CompleteOverlayIsPiece(piece, s.pending[i], buf);
        }
      }
    }
  }

  /** With genuine blocks, over every run, a held piece is on disk with its true bytes or exactly those are
      about to be saved, and no save fails -- if and only if the last piece is safe. Otherwise starting the
      last piece and one tick are enough to hold it without a byte of it. */
  lemma {:induction false} HeldIsSecuredIff(c: Config, stream: Bytes, s0: State, sha1: HashFunction)
    requires c.m.Valid() && Describes(c.m, stream, sha1) && Started(c, s0, sha1)
    requires CollisionFree(sha1, PieceSet(c.m, stream) + s0.disk.Values)
    ensures LastPieceSafe(c, s0)
       <==> forall es :: Run(c, s0, es, sha1) && GenuineRun(c, stream, es) ==>
              AllSecured(c, stream, Exec(c, s0, es, sha1)) && Exec(c, s0, es, sha1).rejected == {}
  {
    if LastPieceSafe(c, s0) {
      forall es | Run(c, s0, es, sha1) && GenuineRun(c, stream, es)
        ensures AllSecured(c, stream, Exec(c, s0, es, sha1)) && Exec(c, s0, es, sha1).rejected == {}
      {
        GenuineRunKeeps(c, stream, s0, es, sha1);
        GenuineIsSecured(c, stream, Exec(c, s0, es, sha1));
      }
    } else {
      var es := EmptyLastPiece(c, stream, s0, sha1);
      assert Run(c, s0, es, sha1) && GenuineRun(c, stream, es) && !AllSecured(c, stream, Exec(c, s0, es, sha1));
    }
  }

  lemma {:induction false} EmptyLastPiece(c: Config, stream: Bytes, s0: State, sha1: HashFunction)
    returns (es: seq<Event>)
    requires c.m.Valid() && Describes(c.m, stream, sha1) && Started(c, s0, sha1) && !LastPieceSafe(c, s0)
    ensures Run(c, s0, es, sha1) && GenuineRun(c, stream, es)
    ensures c.N() - 1 in Exec(c, s0, es, sha1).held && !Secured(c, stream, Exec(c, s0, es, sha1), c.N() - 1)
  {
    var n := c.N() - 1;
    es := [] + [Spawn(n)] + [Tick];
    HeldEmpty(c, s0, sha1, n);
    NotSecured(c, stream, Exec(c, s0, es, sha1), n);
  }

  /** A piece whose worker is given length 0 is held after a tick, and nothing has been saved. */
  lemma {:induction false} HeldEmpty(c: Config, s: State, sha1: HashFunction, i: nat)
    requires c.m.Valid() && Enabled(c, s, Spawn(i)) && c.WorkerLength(i) == 0
    ensures var es := [] + [Spawn(i)] + [Tick];
            && Run(c, s, es, sha1) && i in Exec(c, s, es, sha1).held
            && Exec(c, s, es, sha1).disk == s.disk && Exec(c, s, es, sha1).pending == s.pending
  {
    var s1 := Next(c, s, Spawn(i), sha1);
    TraceOne(c, s, [], Spawn(i), s, sha1);
    TraceOne(c, s, [] + [Spawn(i)], Tick, s1, sha1);
    assert i in Finished(c, s1);
  }

  lemma {:induction false} NotSecured(c: Config, stream: Bytes, s: State, i: nat)
    requires c.m.Valid() && i !in s.disk && i !in s.pending
    ensures !Secured(c, stream, s, i)
  {
  }
}
