/** Downloader and assembler over whole runs: any interleaving of the steps of the downloader and of passes of the
    assembler (internal/data/client.go, lines 100-127 and 179-234). The client makes a pass when it starts and after
    every tick; here one may come at any time. */
module WholeRuns {
  import opened Basics
  import opened Torrents
  import opened Downloads
  import opened WholeDownloads
  import Assembler
  import Bits
  import Completion
  import Loops

  /** The downloader, the files written so far, and whether the program is still up: a pass may panic. */
  datatype System = System(down: State, session: Assembler.Session, up: bool)

  /** The assembler is given the bit field of the held pieces; what lies behind each piece in memory is anything. */
  datatype Move = Step(e: Event) | Assemble(held: seq<bv8>, tails: int -> Bytes)

  ghost predicate Possible(c: Config, y: System, mv: Move)
    requires c.m.Valid()
  {
    y.up &&
    match mv
    case Step(e) => Enabled(c, y.down, e)
    case Assemble(held, _) => Bits.Indices(held) == y.down.held
  }

  function OrderOf(c: Config, dir: string, y: System, held: seq<bv8>, tails: int -> Bytes): Assembler.Order
  {
    Assembler.Order(c.m, dir, held, y.down.disk, tails)
  }

  ghost function After(c: Config, dir: string, y: System, mv: Move, sha1: HashFunction): System
    requires c.m.Valid() && Possible(c, y, mv)
  {
    match mv
    case Step(e) => System(Next(c, y.down, e, sha1), y.session, true)
    case Assemble(held, tails) =>
      var (session, ok) := Assembler.WholePass(OrderOf(c, dir, y, held, tails), y.session);
      System(y.down, session, ok)
  }

  /** Where the moves lead to, if each of them is possible. */
  ghost function Course(c: Config, dir: string, y: System, moves: seq<Move>, sha1: HashFunction): Option<System>
    requires c.m.Valid()
  {
    if moves == [] then Some(y)
    else
      match Course(c, dir, y, moves[..|moves| - 1], sha1)
      case None => None
      case Some(z) =>
        if Possible(c, z, moves[|moves| - 1]) then Some(After(c, dir, z, moves[|moves| - 1], sha1)) else None
  }

  /** The steps of the downloader among the moves. */
  function Steps(moves: seq<Move>): seq<Event>
  {
    if moves == [] then []
    else Steps(moves[..|moves| - 1]) + if moves[|moves| - 1].Step? then [moves[|moves| - 1].e] else []
  }

  /** A pass comes after every tick, and at no other time. */
  predicate Beats(moves: seq<Move>)
  {
    var n := |moves|;
    moves != [] ==>
      if moves[n - 1].Step? then !moves[n - 1].e.Tick? && Beats(moves[..n - 1])
      else n >= 2 && moves[n - 2] == Step(Tick) && Beats(moves[..n - 2])
  }

  lemma {:induction false} CourseOne(c: Config, dir: string, y: System, moves: seq<Move>, mv: Move, z: System,
                                     sha1: HashFunction)
    requires c.m.Valid() && Course(c, dir, y, moves, sha1) == Some(z) && Possible(c, z, mv)
    ensures Course(c, dir, y, moves + [mv], sha1) == Some(After(c, dir, z, mv, sha1))
    ensures Steps(moves + [mv]) == Steps(moves) + if mv.Step? then [mv.e] else []
  {
    DropLast(moves, mv);
  }

  lemma {:induction false} CourseOn(c: Config, dir: string, y: System, moves: seq<Move>, z: System, more: seq<Move>,
                                    sha1: HashFunction)
    requires c.m.Valid() && Course(c, dir, y, moves, sha1) == Some(z)
    ensures Course(c, dir, y, moves + more, sha1) == Course(c, dir, z, more, sha1)
    ensures Steps(moves + more) == Steps(moves) + Steps(more)
  {
    if more == [] {
      NilRight(moves);
      NilRight(Steps(moves));
    } else {
      var n := |more| - 1;
      CourseOn(c, dir, y, moves, z, more[..n], sha1);
      Snoc(more);
      Associate(moves, more[..n], [more[n]]);
      DropLast(moves + more[..n], more[n]);
      Associate(Steps(moves), Steps(more[..n]), if more[n].Step? then [more[n].e] else []);
    }
  }

  /** The downloader goes its own way. */
  lemma {:induction false} StepsTrace(c: Config, dir: string, y: System, moves: seq<Move>, z: System,
                                      sha1: HashFunction)
    requires c.m.Valid() && Course(c, dir, y, moves, sha1) == Some(z)
    ensures Trace(c, y.down, Steps(moves), sha1) == Some(z.down)
  {
    if moves != [] {
      var n := |moves| - 1;
      var x := Course(c, dir, y, moves[..n], sha1).value;
      StepsTrace(c, dir, y, moves[..n], x, sha1);
      match moves[n]
      case Step(e) => TraceOne(c, y.down, Steps(moves[..n]), e, x.down, sha1);
      case Assemble(_, _) => NilRight(Steps(moves[..n]));
    }
  }

  /** What is saved stays. */
  lemma {:induction false} SavedBefore(c: Config, s0: State, es: seq<Event>, s: State, e: Event, sha1: HashFunction,
                                       all: set<Bytes>)
    requires c.m.Valid() && Started(c, s0, sha1) && Trace(c, s0, es, sha1) == Some(s) && Enabled(c, s, e)
    requires SavedIn(Next(c, s, e, sha1).disk, all)
    ensures SavedIn(s.disk, all)
  {
    RunKeeps(c, s0, es, sha1);
    forall p | p in s.disk ensures s.disk[p] in all {
      assert p >= 0 && Apart(s, p);
      DiskStays(c, s, e, sha1, p);
    }
  }

  lemma {:induction false} DiskStays(c: Config, s: State, e: Event, sha1: HashFunction, p: nat)
    requires c.m.Valid() && Enabled(c, s, e) && Apart(s, p) && p in s.disk
    ensures p in Next(c, s, e, sha1).disk && Next(c, s, e, sha1).disk[p] == s.disk[p]
  {
    match e
    case Spawn(_) =>
    case Block(_, _, _) =>
    case Save(_, _) =>
    case Tick =>
  }

  // ----- whole runs -----

  /** What a run starts from: a started download, and a session in which the files of this torrent that have been
      marked are there. `all` has the contents that occur. */
  ghost predicate Begins(c: Config, dir: string, stream: Bytes, y: System, sha1: HashFunction, all: set<Bytes>)
  {
    && Behind(c, stream, y.down, [], y.down, sha1, all) && y.down.disk.Values <= all
    && Assembler.Distinct(c.m.names) && y.up && Assembler.Sound(c.m, dir, stream, y.session)
  }

  lemma {:induction false} HarmlessLater(c: Config, s0: State, before: set<string>, after: set<string>)
    requires c.m.Valid() && AllHarmless(c, s0, before) && before <= after
    ensures AllHarmless(c, s0, after)
  {
    forall i | 0 <= i < |c.m.lengths| ensures Harmless(c, s0, after, i) {
      assert Harmless(c, s0, before, i);
    }
  }

  /** Over every run, whatever blocks arrive, whenever passes come and whatever lies behind the pieces: when all
      files are harmless at the start, every pass goes through and the session stays sound. */
  lemma {:induction false} CourseKeepsSound(c: Config, dir: string, stream: Bytes, y: System, moves: seq<Move>,
                                            z: System, sha1: HashFunction, all: set<Bytes>)
    requires Begins(c, dir, stream, y, sha1, all) && AllHarmless(c, y.down, y.session.written)
    requires Course(c, dir, y, moves, sha1) == Some(z) && SavedIn(z.down.disk, all)
    ensures z.up && Assembler.Sound(c.m, dir, stream, z.session) && y.session.written <= z.session.written
  {
    if moves != [] {
      var n := |moves| - 1;
      var x := Course(c, dir, y, moves[..n], sha1).value;
      StepsTrace(c, dir, y, moves[..n], x, sha1);
      if moves[n].Step? {
        SavedBefore(c, y.down, Steps(moves[..n]), x.down, moves[n].e, sha1, all);
      }
      CourseKeepsSound(c, dir, stream, y, moves[..n], x, sha1, all);
      if moves[n].Assemble? {
        HarmlessLater(c, y.down, y.session.written, x.session.written);
        PassKeepsSound(c, stream, y.down, Steps(moves[..n]), x.down, sha1, all,
                       OrderOf(c, dir, x, moves[n].held, moves[n].tails), x.session);
      }
    }
  }

  // ----- a run of the downloader, with a pass after every tick -----

  const NOTHING: int -> Bytes := (_: int) => []

  /** A tick and a pass, with nothing behind the pieces. */
  lemma {:induction false} Beat(c: Config, dir: string, stream: Bytes, s0: State, es: seq<Event>, y: System,
                                sha1: HashFunction, all: set<Bytes>)
    returns (o: Assembler.Order, z: System)
    requires Behind(c, stream, s0, es, y.down, sha1, all) && y.up
    ensures Reached(c, stream, s0, es + [Tick], Next(c, y.down, Tick, sha1), sha1, all, o)
    ensures o.dir == dir && o.tails == NOTHING
    ensures z == System(Next(c, y.down, Tick, sha1), Assembler.WholePass(o, y.session).0,
                        Assembler.WholePass(o, y.session).1)
    ensures var t := System(Next(c, y.down, Tick, sha1), y.session, true);
            && Possible(c, t, Assemble(o.held, NOTHING))
            && z == After(c, dir, t, Assemble(o.held, NOTHING), sha1)
  {
    var t := Next(c, y.down, Tick, sha1);
    TraceOne(c, s0, es, Tick, y.down, sha1);
    RunKeeps(c, s0, es + [Tick], sha1);
    var held := Bits.FieldFor(t.held, c.N());
    o := Assembler.Order(c.m, dir, held, t.disk, NOTHING);
    var (session, ok) := Assembler.WholePass(o, y.session);
    z := System(t, session, ok);
  }

  /** Such a pass does not mark a file that does not fit. */
  lemma {:induction false} UnfitStays(c: Config, stream: Bytes, s0: State, es: seq<Event>, s: State,
                                      sha1: HashFunction, all: set<Bytes>, o: Assembler.Order,
                                      session: Assembler.Session, i: nat)
    requires Reached(c, stream, s0, es, s, sha1, all, o) && Assembler.Distinct(c.m.names) && o.tails == NOTHING
    requires i < |c.m.lengths| && !Assembler.Fits(c.m, i) && Assembler.WholePass(o, session).1
    ensures c.m.names[i] in Assembler.WholePass(o, session).0.written <==> c.m.names[i] in session.written
  {
    ReachedIsGiven(c, stream, s0, es, s, sha1, all, o);
    Assembler.FileAfterPass(o, stream, session, i);
    NothingBehind(o, i);
  }

  lemma {:induction false} NothingBehind(o: Assembler.Order, i: nat)
    requires o.m.Valid() && i < |o.m.lengths| && o.tails == NOTHING && !Assembler.Fits(o.m, i)
    ensures Assembler.Overrun(o.m, i) > |Assembler.TailOf(o, i)| && !Assembler.Ready(o, i)
  {
  }

  /** A file that does not fit is marked only if it was. */
  ghost predicate UnfitStay(m: Meta, before: set<string>, after: set<string>)
    requires m.Valid()
  {
    forall i :: 0 <= i < |m.lengths| && !Assembler.Fits(m, i) && m.names[i] in after ==> m.names[i] in before
  }

  /** The moves take y to z along es, with a pass after every tick, unless a pass on the way panics. */
  ghost predicate Woven(c: Config, dir: string, y: System, es: seq<Event>, t: State, moves: seq<Move>, z: System,
                        sha1: HashFunction, all: set<Bytes>)
    requires c.m.Valid()
  {
    && Course(c, dir, y, moves, sha1) == Some(z) && Beats(moves) && SavedIn(z.down.disk, all)
    && Steps(moves) <= es
    && (z.up ==> Steps(moves) == es && z.down == t && UnfitStay(c.m, y.session.written, z.session.written))
  }

  lemma {:induction false} Weave(c: Config, dir: string, stream: Bytes, s0: State, es0: seq<Event>, y: System,
                                 es: seq<Event>, t: State, sha1: HashFunction, all: set<Bytes>)
    returns (moves: seq<Move>, z: System)
    requires Behind(c, stream, s0, es0 + es, t, sha1, all) && Assembler.Distinct(c.m.names) && y.up
    requires Trace(c, s0, es0, sha1) == Some(y.down) && Trace(c, y.down, es, sha1) == Some(t)
    ensures Woven(c, dir, y, es, t, moves, z, sha1, all)
    decreases |es|
  {
    if es == [] {
      moves, z := [], y;
    } else {
      var n := |es| - 1;
      var u := Trace(c, y.down, es[..n], sha1).value;
      TraceOn(c, s0, es0, y.down, es[..n], sha1);
      SavedBefore(c, s0, es0 + es[..n], u, es[n], sha1, all);
      moves, z := Weave(c, dir, stream, s0, es0, y, es[..n], u, sha1, all);
      if z.up {
        Snoc(es);
        if es[n].Tick? {
          var o;
          moves, z, o := WeaveBeat(c, dir, stream, s0, es0 + es[..n], y, es[..n], moves, z, sha1, all);
        } else {
          moves, z := WeaveStep(c, dir, y, es[..n], moves, z, es[n], sha1, all);
        }
      }
    }
  }

  lemma {:induction false} WeaveStep(c: Config, dir: string, y: System, es: seq<Event>, moves: seq<Move>, z: System,
                                     e: Event, sha1: HashFunction, all: set<Bytes>)
    returns (more: seq<Move>, w: System)
    requires c.m.Valid() && Woven(c, dir, y, es, z.down, moves, z, sha1, all) && z.up
    requires !e.Tick? && Enabled(c, z.down, e) && SavedIn(Next(c, z.down, e, sha1).disk, all)
    ensures Woven(c, dir, y, es + [e], Next(c, z.down, e, sha1), more, w, sha1, all)
  {
    CourseOne(c, dir, y, moves, Step(e), z, sha1);
    DropLast(moves, Step(e));
    more, w := moves + [Step(e)], After(c, dir, z, Step(e), sha1);
  }

  lemma {:induction false} WeaveBeat(c: Config, dir: string, stream: Bytes, s0: State, es1: seq<Event>, y: System,
                                     es: seq<Event>, moves: seq<Move>, z: System, sha1: HashFunction, all: set<Bytes>)
    returns (more: seq<Move>, w: System, o: Assembler.Order)
    requires Behind(c, stream, s0, es1, z.down, sha1, all) && Assembler.Distinct(c.m.names)
    requires Woven(c, dir, y, es, z.down, moves, z, sha1, all) && z.up
    ensures Woven(c, dir, y, es + [Tick], Next(c, z.down, Tick, sha1), more, w, sha1, all)
    ensures Reached(c, stream, s0, es1 + [Tick], Next(c, z.down, Tick, sha1), sha1, all, o)
    ensures o.dir == dir && o.tails == NOTHING && (w.session, w.up) == Assembler.WholePass(o, z.session)
  {
    o, w := Beat(c, dir, stream, s0, es1, z, sha1, all);
    more := moves + [Step(Tick)] + [Assemble(o.held, NOTHING)];
    var t := After(c, dir, z, Step(Tick), sha1);
    CourseOne(c, dir, y, moves, Step(Tick), z, sha1);
    CourseOne(c, dir, y, moves + [Step(Tick)], Assemble(o.held, NOTHING), t, sha1);
    BeatsOn(moves, Assemble(o.held, NOTHING));
    NilRight(Steps(moves) + [Tick]);
    if w.up {
      forall i | 0 <= i < |c.m.lengths| && !Assembler.Fits(c.m, i) && c.m.names[i] in w.session.written
        ensures c.m.names[i] in y.session.written
      {
        UnfitStays(c, stream, s0, es1 + [Tick], t.down, sha1, all, o, z.session, i);
      }
    }
  }

  lemma {:induction false} BeatsOn(moves: seq<Move>, pass: Move)
    requires Beats(moves) && pass.Assemble?
    ensures Beats(moves + [Step(Tick)] + [pass])
  {
    var more := moves + [Step(Tick)] + [pass];
    assert more[..|more| - 2] == moves;
  }

  // ----- a run that breaks a file -----

  /** With genuine blocks, what is on disk is genuine, and so are the contents that occur. */
  lemma {:induction false} GenuineDisk(c: Config, stream: Bytes, s0: State, es: seq<Event>, s: State,
                                       sha1: HashFunction, all: set<Bytes>)
    requires Completion.Given(c, stream, s0, sha1) && Completion.Leads(c, stream, s0, es, s, sha1)
    requires PieceSet(c.m, stream) <= all
    ensures DiskIsGenuine(c.m, stream, s.disk) && SavedIn(s.disk, all)
  {
    RunKeeps(c, s0, es, sha1);
    GenuineRunKeeps(c, stream, s0, es, sha1);
    forall p | p in s.disk
      ensures 0 <= p < |c.m.hashes| && s.disk[p] == PieceOf(c.m.pieceLength, stream, p) && s.disk[p] in all
    {
      assert Apart(s, p) && AccountsFor(c, s, sha1, p);
      SavedIsGenuine(c, stream, s, p);
      assert p in Below(|c.m.hashes|);
      assert PieceOf(c.m.pieceLength, stream, p) in PieceSet(c.m, stream);
    }
  }

  lemma {:induction false} SavedIsGenuine(c: Config, stream: Bytes, s: State, p: nat)
    requires c.m.Valid() && GenuineState(c, stream, s) && p in s.disk && Apart(s, p)
    ensures s.disk[p] == PieceOf(c.m.pieceLength, stream, p)
  {
    if p in s.workers {
      assert GenuineWorker(c, stream, s, p);
    }
    assert Stored(c, stream, s, p);
  }

  /** Everything that can be held is held; and it is on disk, but for the last piece perhaps. */
  ghost predicate Filled(c: Config, s0: State, s: State)
  {
    && Below(c.N()) - c.ignored <= s.held && s0.held <= s.held
    && forall p :: p in s.held ==> p in s.disk || p == c.N() - 1
  }

  lemma {:induction false} FillUp(c: Config, stream: Bytes, s0: State, sha1: HashFunction, all: set<Bytes>)
    returns (es: seq<Event>, t: State)
    requires Behind(c, stream, s0, [], s0, sha1, all) && s0.disk.Values <= all
    ensures Completion.Leads(c, stream, s0, es, t, sha1) && Filled(c, s0, t) && SavedIn(t.disk, all)
  {
    if LastPieceSafe(c, s0) {
      es, t := FillSafely(c, stream, s0, sha1, all);
    } else {
      var n := c.N() - 1;
      var less := c.(ignored := c.ignored + {n});
      var s;
      es, s := FillSafely(less, stream, s0, sha1, all);
      LessIsRun(c, less, s0, es, s, sha1);
      RunKeeps(less, s0, es, sha1);
      NobodyLeft(less, s0, s);
      var last;
      last, t := HoldEmpty(c, stream, s, sha1, n);
      Completion.LeadsOn(c, stream, s0, es, s, last, t, sha1);
      es := es + last;
    }
  }

  lemma {:induction false} NobodyLeft(c: Config, s0: State, s: State)
    requires InFlight(c, s0, s) && Below(c.N()) - c.ignored <= s.held
    ensures s.workers == map[]
  {
    assert s.workers.Keys <= Below(c.N()) - c.ignored - s.held;
    assert s.workers.Keys == {};
  }

  /** A piece whose worker gets length 0 is held after a tick. */
  lemma {:induction false} HoldEmpty(c: Config, stream: Bytes, s: State, sha1: HashFunction, i: nat)
    returns (es: seq<Event>, t: State)
    requires c.m.Valid() && s.workers == map[] && i < c.N() && i !in s.held && i !in c.ignored
    requires c.WorkerLength(i) == 0
    ensures Completion.Leads(c, stream, s, es, t, sha1) && t.held == s.held + {i} && t.disk == s.disk
  {
    var s1 := Next(c, s, Spawn(i), sha1);
    Completion.OneGenuine(c, stream, s, Spawn(i), sha1);
    Completion.OneGenuine(c, stream, s1, Tick, sha1);
    t := Next(c, s1, Tick, sha1);
    es := [] + [Spawn(i)] + ([] + [Tick]);
    Completion.LeadsOn(c, stream, s, [] + [Spawn(i)], s1, [] + [Tick], t, sha1);
    OnlyEmpty(c, s1, i);
  }

  lemma {:induction false} OnlyEmpty(c: Config, s: State, i: nat)
    requires c.m.Valid() && s.workers.Keys == {i} && c.WorkerLength(i) == 0
    ensures Finished(c, s) == {i}
  {
    assert i in s.workers;
  }

  lemma {:induction false} FillSafely(c: Config, stream: Bytes, s0: State, sha1: HashFunction, all: set<Bytes>)
    returns (es: seq<Event>, t: State)
    requires Behind(c, stream, s0, [], s0, sha1, all) && s0.disk.Values <= all && LastPieceSafe(c, s0)
    ensures Completion.Leads(c, stream, s0, es, t, sha1) && Below(c.N()) - c.ignored <= t.held && s0.held <= t.held
    ensures forall p :: p in t.held ==> p in t.disk
    ensures SavedIn(t.disk, all)
  {
    assert PieceSet(c.m, stream) + s0.disk.Values <= all;
    assert CollisionFree(sha1, PieceSet(c.m, stream) + s0.disk.Values);
    var more;
    more, t := Completion.CanComplete(c, stream, s0, [], s0, sha1);
    es := [] + more;
    GenuineDisk(c, stream, s0, es, t, sha1, all);
    GenuineRunKeeps(c, stream, s0, es, sha1);
    forall p | p in t.held ensures p in t.disk {
      assert Stored(c, stream, t, p);
    }
  }

  /** A run under which more is ignored is a run. */
  lemma {:induction false} LessIsRun(c: Config, less: Config, s0: State, es: seq<Event>, s: State, sha1: HashFunction)
    requires c.m.Valid() && less.m == c.m && less.maxPending == c.maxPending && c.ignored <= less.ignored
    requires Trace(less, s0, es, sha1) == Some(s)
    ensures Trace(c, s0, es, sha1) == Some(s)
  {
    if es != [] {
      var n := |es| - 1;
      var t := Trace(less, s0, es[..n], sha1).value;
      LessIsRun(c, less, s0, es[..n], t, sha1);
      SameStep(c, less, t, es[n], sha1);
    }
  }

  lemma {:induction false} SameStep(c: Config, less: Config, s: State, e: Event, sha1: HashFunction)
    requires c.m.Valid() && less.m == c.m && less.maxPending == c.maxPending && c.ignored <= less.ignored
    requires Enabled(less, s, e)
    ensures Enabled(c, s, e) && Next(c, s, e, sha1) == Next(less, s, e, sha1)
  {
    match e
    case Spawn(_) =>
    case Block(_, _, _) =>
    case Save(_, _) =>
    case Tick => assert Finished(c, s) == Finished(less, s);
  }

  /** The pieces of an obtainable file are held then, and the first one of a file that does not fit is on disk. */
  lemma {:induction false} FilledFile(c: Config, s0: State, s: State, held: seq<bv8>, i: nat)
    requires c.m.Valid() && c.m.InRange() && i < |c.m.lengths| && Obtainable(c, s0, i) && Filled(c, s0, s)
    requires s.held <= Bits.Indices(held)
    ensures Assembler.IsDone(c.m, c.m.FileAt(i), held)
    ensures !Assembler.Fits(c.m, i) ==>
      c.m.First(i) < c.N() && PieceIndex(c.m.hashes, c.m.hashes[c.m.First(i)]) in s.disk
  {
    Bits.IndicesAre(held);
    forall h | h in c.m.FileAt(i).pieces
      ensures PieceIndex(c.m.hashes, h) in s.held && Bits.Get(held, PieceIndex(c.m.hashes, h))
    {
      assert h in c.m.hashes;
      PieceIndexIsFirst(c.m.hashes, h, 0);
      assert PieceIndex(c.m.hashes, h) in Below(c.N());
    }
    if !Assembler.Fits(c.m, i) {
      SpanBounds(c.m.Offset(i), c.m.lengths[i], c.m.pieceLength);
      ListedHashIsFound(c.m.hashes, c.m.First(i), 0);
      assert c.m.FileAt(i).pieces[0] == c.m.hashes[c.m.First(i)];
    }
  }

  /** At a pass over such a state, a file that can be had, does not fit and has not been marked makes the program
      panic when nothing lies behind its first piece. */
  lemma {:induction false} PanicsThen(c: Config, stream: Bytes, s0: State, es: seq<Event>, s: State, sha1: HashFunction,
                                      all: set<Bytes>, o: Assembler.Order, session: Assembler.Session, i: nat)
    requires Reached(c, stream, s0, es, s, sha1, all, o) && Assembler.Distinct(c.m.names) && o.tails == NOTHING
    requires Filled(c, s0, s) && i < |c.m.lengths| && !Harmless(c, s0, session.written, i)
    ensures !Assembler.WholePass(o, session).1
  {
    ReachedIsGiven(c, stream, s0, es, s, sha1, all, o);
    FilledFile(c, s0, s, o.held, i);
    FaultyIff(o, Lost(c, s), i);
    NothingBehind(o, i);
    Assembler.GoesThroughIff(o, stream, session);
    assert Assembler.Faulty(o, i);
  }

  lemma {:induction false} TickKeepsFilled(c: Config, s0: State, s: State, sha1: HashFunction)
    requires c.m.Valid() && InFlight(c, s0, s) && Filled(c, s0, s) && s.workers == map[]
    ensures Filled(c, s0, Next(c, s, Tick, sha1))
  {
    assert Finished(c, s) == {};
    assert Next(c, s, Tick, sha1).held == s.held;
  }

  /** When some file is not harmless, there is a run with genuine blocks only, and a pass after every tick, that
      ends with a panic. */
  lemma {:induction false} BreaksOtherwise(c: Config, dir: string, stream: Bytes, y: System, sha1: HashFunction,
                                           all: set<Bytes>, i: nat)
    returns (moves: seq<Move>, z: System)
    requires Begins(c, dir, stream, y, sha1, all)
    requires i < |c.m.lengths| && !Harmless(c, y.down, y.session.written, i)
    ensures Course(c, dir, y, moves, sha1) == Some(z) && SavedIn(z.down.disk, all) && !z.up
    ensures GenuineRun(c, stream, Steps(moves)) && Beats(moves)
  {
    var es, t := FillUp(c, stream, y.down, sha1, all);
    assert [] + es == es;
    moves, z := Weave(c, dir, stream, y.down, [], y, es, t, sha1, all);
    if z.up {
      moves, z := BreakAtLast(c, dir, stream, y, es, moves, z, sha1, all, i);
    }
  }

  lemma {:induction false} BreakAtLast(c: Config, dir: string, stream: Bytes, y: System, es: seq<Event>,
                                       moves: seq<Move>, x: System, sha1: HashFunction, all: set<Bytes>, i: nat)
    returns (more: seq<Move>, z: System)
    requires Begins(c, dir, stream, y, sha1, all)
    requires i < |c.m.lengths| && !Harmless(c, y.down, y.session.written, i)
    requires Completion.Leads(c, stream, y.down, es, x.down, sha1) && Filled(c, y.down, x.down) && x.up
    requires Woven(c, dir, y, es, x.down, moves, x, sha1, all)
    ensures Course(c, dir, y, more, sha1) == Some(z) && SavedIn(z.down.disk, all) && !z.up
    ensures GenuineRun(c, stream, Steps(more)) && Beats(more)
  {
    RunKeeps(c, y.down, es, sha1);
    NobodyLeft(c, y.down, x.down);
    TickKeepsFilled(c, y.down, x.down, sha1);
    var o;
    more, z, o := WeaveBeat(c, dir, stream, y.down, es, y, es, moves, x, sha1, all);
    PanicsThen(c, stream, y.down, es + [Tick], Next(c, x.down, Tick, sha1), sha1, all, o, x.session, i);
  }

  // ----- the main results -----

  /** From a sound session, every pass of every run goes through, and leaves each marked file with its true bytes, if
      and only if every file fits, or was marked before, or has a piece that is ignored and not there. The runs are
      those of any steps and any passes, with any blocks and with anything behind the pieces in memory. */
  lemma {:induction false} SoundIffHarmless(c: Config, dir: string, stream: Bytes, y: System, sha1: HashFunction,
                                            all: set<Bytes>)
    requires Begins(c, dir, stream, y, sha1, all)
    ensures AllHarmless(c, y.down, y.session.written)
       <==> forall moves, z :: Course(c, dir, y, moves, sha1) == Some(z) && SavedIn(z.down.disk, all) ==>
              z.up && Assembler.Sound(c.m, dir, stream, z.session)
  {
    if AllHarmless(c, y.down, y.session.written) {
      forall moves, z | Course(c, dir, y, moves, sha1) == Some(z) && SavedIn(z.down.disk, all)
        ensures z.up && Assembler.Sound(c.m, dir, stream, z.session)
      {
        CourseKeepsSound(c, dir, stream, y, moves, z, sha1, all);
      }
    } else {
      var i :| 0 <= i < |c.m.lengths| && !Harmless(c, y.down, y.session.written, i);
      var moves, z := BreaksOtherwise(c, dir, stream, y, sha1, all, i);
      assert Course(c, dir, y, moves, sha1) == Some(z) && SavedIn(z.down.disk, all) && !z.up;
    }
  }

  /** The program is up, and every file that can be had has been written and is right. */
  ghost predicate Delivered(c: Config, dir: string, stream: Bytes, s0: State, z: System)
    requires c.m.Valid()
  {
    z.up && forall i :: 0 <= i < |c.m.lengths| && Obtainable(c, s0, i) ==>
      c.m.names[i] in z.session.written && Assembler.Holds(c.m, dir, stream, z.session.downloads, i)
  }

  /** The moves lead from y to z, with genuine blocks only. */
  ghost predicate Leads(c: Config, dir: string, stream: Bytes, y: System, moves: seq<Move>, z: System,
                        sha1: HashFunction)
    requires c.m.Valid()
  {
    Course(c, dir, y, moves, sha1) == Some(z) && GenuineRun(c, stream, Steps(moves))
  }

  lemma {:induction false} LeadsOn(c: Config, dir: string, stream: Bytes, y: System, moves: seq<Move>, x: System,
                                   more: seq<Move>, z: System, sha1: HashFunction)
    requires c.m.Valid() && Leads(c, dir, stream, y, moves, x, sha1) && Leads(c, dir, stream, x, more, z, sha1)
    ensures Leads(c, dir, stream, y, moves + more, z, sha1)
  {
    CourseOn(c, dir, y, moves, x, more, sha1);
    Completion.GenuineAppend(c, stream, Steps(moves), Steps(more));
  }

  /** What such moves keep. */
  lemma {:induction false} LeadsKeeps(c: Config, dir: string, stream: Bytes, y: System, moves: seq<Move>, z: System,
                                      sha1: HashFunction, all: set<Bytes>)
    requires Begins(c, dir, stream, y, sha1, all) && LastPieceSafe(c, y.down)
    requires Leads(c, dir, stream, y, moves, z, sha1)
    ensures Completion.Given(c, stream, y.down, sha1)
    ensures Completion.Leads(c, stream, y.down, Steps(moves), z.down, sha1)
    ensures SavedIn(z.down.disk, all)
    ensures AllHarmless(c, y.down, y.session.written) ==>
              z.up && Assembler.Sound(c.m, dir, stream, z.session) && y.session.written <= z.session.written
  {
    assert PieceSet(c.m, stream) + y.down.disk.Values <= all;
    assert CollisionFree(sha1, PieceSet(c.m, stream) + y.down.disk.Values);
    StepsTrace(c, dir, y, moves, z, sha1);
    GenuineDisk(c, stream, y.down, Steps(moves), z.down, sha1, all);
    if AllHarmless(c, y.down, y.session.written) {
      CourseKeepsSound(c, dir, stream, y, moves, z, sha1, all);
    }
  }

  /** Everything that can be held is held and on disk. */
  ghost predicate Stocked(c: Config, s0: State, s: State)
  {
    Filled(c, s0, s) && forall p :: p in s.held ==> p in s.disk
  }

  lemma {:induction false} StockedAtTick(c: Config, stream: Bytes, s0: State, es: seq<Event>, s: State,
                                         sha1: HashFunction)
    requires Completion.Given(c, stream, s0, sha1) && Completion.Leads(c, stream, s0, es, s, sha1)
    requires Below(c.N()) - c.ignored <= s.held && s.pending == map[]
    ensures Stocked(c, s0, Next(c, s, Tick, sha1))
  {
    GenuineRunKeeps(c, stream, s0, es, sha1);
    RunKeeps(c, s0, es, sha1);
    NobodyLeft(c, s0, s);
    forall p | p in s.held ensures p in s.disk {
      assert Stored(c, stream, s, p);
    }
    TickKeepsFilled(c, s0, s, sha1);
  }

  /** A pass over such a state marks every file that can be had and is harmless. */
  lemma {:induction false} MarksAll(c: Config, stream: Bytes, s0: State, es: seq<Event>, s: State, sha1: HashFunction,
                                    all: set<Bytes>, o: Assembler.Order, session: Assembler.Session, i: nat)
    requires Reached(c, stream, s0, es, s, sha1, all, o) && Assembler.Distinct(c.m.names)
    requires Stocked(c, s0, s) && i < |c.m.lengths| && Harmless(c, s0, session.written, i) && Obtainable(c, s0, i)
    requires Assembler.WholePass(o, session).1
    ensures c.m.names[i] in Assembler.WholePass(o, session).0.written
  {
    ReachedIsGiven(c, stream, s0, es, s, sha1, all, o);
    FilledFile(c, s0, s, o.held, i);
    Assembler.FileAfterPass(o, stream, session, i);
    if c.m.names[i] !in session.written {
      StockedIsReady(c, s0, s, o, i);
    }
  }

  lemma {:induction false} StockedIsReady(c: Config, s0: State, s: State, o: Assembler.Order, i: nat)
    requires c.m.Valid() && c.m.InRange() && o.m == c.m && o.disk == s.disk && Bits.Indices(o.held) == s.held
    requires Stocked(c, s0, s) && i < |c.m.lengths| && Assembler.Fits(c.m, i) && Left(o, Lost(c, s))
    requires Assembler.IsDone(c.m, c.m.FileAt(i), o.held)
    ensures Assembler.Ready(o, i)
  {
    Bits.IndicesAre(o.held);
    ReadyIff(o, Lost(c, s), i);
    forall h | h in o.m.FileAt(i).pieces ensures !IsLost(o, Lost(c, s), h) {
      assert Bits.Get(o.held, PieceIndex(o.m.hashes, h));
    }
  }

  /** Where the downloader can go on to hold and save everything that is wanted, the system can go on with it, with a
      pass after every tick, and one more tick, to deliver everything. */
  lemma {:induction false} FinishAlong(c: Config, dir: string, stream: Bytes, y: System, moves: seq<Move>, x: System,
                                       es: seq<Event>, t: State, sha1: HashFunction, all: set<Bytes>)
    returns (more: seq<Move>, z: System)
    requires Begins(c, dir, stream, y, sha1, all) && LastPieceSafe(c, y.down)
    requires AllHarmless(c, y.down, y.session.written) && Leads(c, dir, stream, y, moves, x, sha1)
    requires Completion.Leads(c, stream, x.down, es, t, sha1)
    requires Below(c.N()) - c.ignored <= t.held && t.pending == map[]
    ensures Leads(c, dir, stream, x, more, z, sha1) && Beats(more) && Steps(more) == es + [Tick]
    ensures Delivered(c, dir, stream, y.down, z)
  {
    var first, w := WeaveOn(c, dir, stream, y, moves, x, es, t, sha1, all);
    var o;
    more, z, o := WeaveBeat(c, dir, stream, y.down, Steps(moves) + es, x, es, first, w, sha1, all);
    LeadsOn(c, dir, stream, y, moves, x, more, z, sha1);
    LeadsKeeps(c, dir, stream, y, moves + more, z, sha1, all);
    StockedAtTick(c, stream, y.down, Steps(moves) + es, t, sha1);
    HarmlessLater(c, y.down, y.session.written, w.session.written);
    forall i | 0 <= i < |c.m.lengths| && Obtainable(c, y.down, i)
      ensures c.m.names[i] in z.session.written && Assembler.Holds(c.m, dir, stream, z.session.downloads, i)
    {
      MarksAll(c, stream, y.down, Steps(moves) + es + [Tick], z.down, sha1, all, o, w.session, i);
    }
  }

  /** Every pass on the way goes through. */
  lemma {:induction false} WeaveOn(c: Config, dir: string, stream: Bytes, y: System, moves: seq<Move>, x: System,
                                   es: seq<Event>, t: State, sha1: HashFunction, all: set<Bytes>)
    returns (first: seq<Move>, w: System)
    requires Begins(c, dir, stream, y, sha1, all) && LastPieceSafe(c, y.down)
    requires AllHarmless(c, y.down, y.session.written) && Leads(c, dir, stream, y, moves, x, sha1)
    requires Completion.Leads(c, stream, x.down, es, t, sha1)
    ensures Woven(c, dir, x, es, t, first, w, sha1, all) && w.up && y.session.written <= w.session.written
    ensures Completion.Given(c, stream, y.down, sha1)
    ensures Completion.Leads(c, stream, y.down, Steps(moves) + es, t, sha1)
    ensures Behind(c, stream, y.down, Steps(moves) + es, t, sha1, all)
  {
    LeadsKeeps(c, dir, stream, y, moves, x, sha1, all);
    Completion.LeadsOn(c, stream, y.down, Steps(moves), x.down, es, t, sha1);
    GenuineDisk(c, stream, y.down, Steps(moves) + es, t, sha1, all);
    first, w := Weave(c, dir, stream, y.down, Steps(moves), x, es, t, sha1, all);
    assert GenuineRun(c, stream, Steps(first));
    LeadsOn(c, dir, stream, y, moves, x, first, w, sha1);
    LeadsKeeps(c, dir, stream, y, moves + first, w, sha1, all);
  }

  /** With genuine blocks and a safe last piece: wherever the system has come to, it can go on to deliver every file
      that can be had, with a pass after every tick, if and only if all files are harmless. */
  lemma {:induction false} CanDeliverIff(c: Config, dir: string, stream: Bytes, y: System, sha1: HashFunction,
                                         all: set<Bytes>)
    requires Begins(c, dir, stream, y, sha1, all) && LastPieceSafe(c, y.down)
    ensures AllHarmless(c, y.down, y.session.written)
       <==> forall moves, x :: Leads(c, dir, stream, y, moves, x, sha1) ==>
              exists more, z :: Leads(c, dir, stream, x, more, z, sha1) && Beats(more)
                && Delivered(c, dir, stream, y.down, z)
  {
    if AllHarmless(c, y.down, y.session.written) {
      forall moves, x | Leads(c, dir, stream, y, moves, x, sha1)
        ensures exists more, z :: Leads(c, dir, stream, x, more, z, sha1) && Beats(more)
                  && Delivered(c, dir, stream, y.down, z)
      {
        var more, z := CanBeAssembled(c, dir, stream, y, moves, x, sha1, all);
      }
    } else {
      var i :| 0 <= i < |c.m.lengths| && !Harmless(c, y.down, y.session.written, i);
      var moves, x := BreaksOtherwise(c, dir, stream, y, sha1, all, i);
      assert Leads(c, dir, stream, y, moves, x, sha1);
      forall more, z | Leads(c, dir, stream, x, more, z, sha1) ensures !z.up {
        StaysDown(c, dir, x, more, z, sha1);
      }
    }
  }

  /** After a panic nothing happens. */
  lemma {:induction false} StaysDown(c: Config, dir: string, x: System, more: seq<Move>, z: System, sha1: HashFunction)
    requires c.m.Valid() && !x.up && Course(c, dir, x, more, sha1) == Some(z)
    ensures more == [] && z == x
  {
    if more != [] {
      StaysDown(c, dir, x, more[..|more| - 1], Course(c, dir, x, more[..|more| - 1], sha1).value, sha1);
    }
  }

  /** From every sound session and every system that a run with genuine blocks has reached from it: the files that
      can be had can be delivered. If nothing is ignored, they are the whole stream, file after file. */
  lemma {:induction false} CanBeAssembled(c: Config, dir: string, stream: Bytes, y: System, moves: seq<Move>,
                                          x: System, sha1: HashFunction, all: set<Bytes>)
    returns (more: seq<Move>, z: System)
    requires Begins(c, dir, stream, y, sha1, all) && LastPieceSafe(c, y.down)
    requires AllHarmless(c, y.down, y.session.written) && Leads(c, dir, stream, y, moves, x, sha1)
    ensures Leads(c, dir, stream, x, more, z, sha1) && Beats(more) && Delivered(c, dir, stream, y.down, z)
    ensures c.ignored == {} ==> Assembler.HoldsStream(c.m, dir, stream, z.session.downloads)
  {
    LeadsKeeps(c, dir, stream, y, moves, x, sha1, all);
    var es, t := Completion.CanComplete(c, stream, y.down, Steps(moves), x.down, sha1);
    Completion.LeadsAfter(c, stream, y.down, Steps(moves), x.down, es, t, sha1);
    more, z := FinishAlong(c, dir, stream, y, moves, x, es, t, sha1, all);
    if c.ignored == {} {
      WholeStream(c, dir, stream, y.down, z);
    }
  }

  /** Left alone, the loop of the client can do that if it may start pieces at all, or those that are missing are in
      flight. */
  lemma {:induction false} LoopCanAssemble(c: Config, dir: string, stream: Bytes, y: System, moves: seq<Move>,
                                           x: System, sha1: HashFunction, all: set<Bytes>)
    returns (turns: seq<Loops.Turn>, more: seq<Move>, z: System)
    requires Begins(c, dir, stream, y, sha1, all) && LastPieceSafe(c, y.down)
    requires AllHarmless(c, y.down, y.session.written) && Leads(c, dir, stream, y, moves, x, sha1)
    requires Loops.Unhindered(c, x.down)
    ensures Loops.Alone(turns) && Steps(more) == Loops.Unrolled(c, x.down, turns, sha1) + [Tick]
    ensures Leads(c, dir, stream, x, more, z, sha1) && Beats(more) && Delivered(c, dir, stream, y.down, z)
    ensures c.ignored == {} ==> Assembler.HoldsStream(c.m, dir, stream, z.session.downloads)
  {
    LeadsKeeps(c, dir, stream, y, moves, x, sha1, all);
    var t;
    turns, t := Loops.LoopCompletes(c, stream, y.down, Steps(moves), x.down, sha1);
    Loops.UnrolledIsGenuine(c, stream, x.down, turns, t, sha1);
    more, z := FinishAlong(c, dir, stream, y, moves, x, Loops.Unrolled(c, x.down, turns, sha1), t, sha1, all);
    if c.ignored == {} {
      WholeStream(c, dir, stream, y.down, z);
    }
  }

  lemma {:induction false} WholeStream(c: Config, dir: string, stream: Bytes, s0: State, z: System)
    requires c.m.Valid() && |stream| == c.m.Total() && c.ignored == {} && Delivered(c, dir, stream, s0, z)
    ensures Assembler.HoldsStream(c.m, dir, stream, z.session.downloads)
  {
    forall i | 0 <= i < |c.m.lengths| ensures Assembler.Holds(c.m, dir, stream, z.session.downloads, i) {
      assert Obtainable(c, s0, i);
    }
    Assembler.HoldsAll(c.m, dir, stream, z.session.downloads);
  }

  // ----- when the last piece is not safe -----

  /** A worker of length 0 has nothing to save: whatever blocks arrive, that piece never gets on disk. */
  lemma {:induction false} LastNeverSaved(c: Config, stream: Bytes, s0: State, es: seq<Event>, s: State,
                                          sha1: HashFunction, all: set<Bytes>)
    requires Behind(c, stream, s0, es, s, sha1, all) && !LastPieceSafe(c, s0)
    ensures c.N() - 1 !in s.disk
  {
    if es != [] {
      var n, e := |es| - 1, es[|es| - 1];
      var u := Trace(c, s0, es[..n], sha1).value;
      SavedBefore(c, s0, es[..n], u, e, sha1, all);
      LastNeverSaved(c, stream, s0, es[..n], u, sha1, all);
      if c.N() - 1 in s.disk {
        SavedEmpty(c, u, e, sha1, c.N() - 1);
        RunDisk(c, stream, s0, es, s, sha1, all);
        WorkerLengthRight(c, stream, c.N() - 1);
        assert false;
      }
    }
  }

  lemma {:induction false} SavedEmpty(c: Config, s: State, e: Event, sha1: HashFunction, i: nat)
    requires c.m.Valid() && Enabled(c, s, e) && c.WorkerLength(i) == 0 && i !in s.disk && i in Next(c, s, e, sha1).disk
    ensures Next(c, s, e, sha1).disk[i] == []
  {
    match e
    case Save(_, _) =>
    case Block(_, _, _) =>
    case _ =>
  }

  /** With genuine blocks, there is a run that gets every piece that is not ignored on disk if and only if the last
      piece is safe. */
  lemma {:induction false} AllSavedIff(c: Config, stream: Bytes, s0: State, sha1: HashFunction, all: set<Bytes>)
    requires Behind(c, stream, s0, [], s0, sha1, all) && s0.disk.Values <= all
    ensures LastPieceSafe(c, s0)
       <==> exists es, t :: Completion.Leads(c, stream, s0, es, t, sha1) && SavedIn(t.disk, all)
              && forall i :: i in Below(c.N()) - c.ignored ==> i in t.disk
  {
    if LastPieceSafe(c, s0) {
      var es, t := FillSafely(c, stream, s0, sha1, all);
      assert Completion.Leads(c, stream, s0, es, t, sha1) && SavedIn(t.disk, all);
    } else {
      var n := c.N() - 1;
      assert n in Below(c.N()) - c.ignored;
      forall es, t | Completion.Leads(c, stream, s0, es, t, sha1) && SavedIn(t.disk, all) ensures n !in t.disk {
        LastNeverSaved(c, stream, s0, es, t, sha1, all);
      }
    }
  }

  /** So no run ever marks a file that needs it. */
  lemma {:induction false} LastNeverDelivered(c: Config, dir: string, stream: Bytes, y: System, moves: seq<Move>,
                                              z: System, sha1: HashFunction, all: set<Bytes>, i: nat, h: Digest)
    requires Begins(c, dir, stream, y, sha1, all) && !LastPieceSafe(c, y.down)
    requires i < |c.m.lengths| && h in c.m.FileAt(i).pieces && PieceIndex(c.m.hashes, h) == c.N() - 1
    requires c.m.names[i] !in y.session.written
    requires Course(c, dir, y, moves, sha1) == Some(z) && z.up && SavedIn(z.down.disk, all)
    ensures c.m.names[i] !in z.session.written
  {
    if moves != [] {
      var n, mv := |moves| - 1, moves[|moves| - 1];
      var x := Course(c, dir, y, moves[..n], sha1).value;
      StepsTrace(c, dir, y, moves[..n], x, sha1);
      if mv.Step? {
        SavedBefore(c, y.down, Steps(moves[..n]), x.down, mv.e, sha1, all);
      }
      LastNeverDelivered(c, dir, stream, y, moves[..n], x, sha1, all, i, h);
      if mv.Assemble? {
        var o := OrderOf(c, dir, x, mv.held, mv.tails);
        LastNeverSaved(c, stream, y.down, Steps(moves[..n]), x.down, sha1, all);
        ReachedIsGiven(c, stream, y.down, Steps(moves[..n]), x.down, sha1, all, o);
        Assembler.FileAfterPass(o, stream, x.session, i);
        NotReady(o, i, h);
      }
    }
  }

  lemma {:induction false} NotReady(o: Assembler.Order, i: nat, h: Digest)
    requires o.m.Valid() && i < |o.m.lengths| && h in o.m.FileAt(i).pieces
    requires PieceIndex(o.m.hashes, h) !in o.disk
    ensures !Assembler.Ready(o, i)
  {
    var file := o.m.FileAt(i);
    var j :| 0 <= j < |file.pieces| && file.pieces[j] == h;
    assert Assembler.Loads(o, file.pieces)[j].None?;
  }
}
