/** From the first block to the last file: the downloader (Downloads) and the assembler (Assembler) together.
    At every tick, the client has the files assembled from the pieces that are on disk
    (internal/data/client.go, lines 206-225). */
module WholeDownloads {
  import opened Basics
  import opened Torrents
  import opened Workers
  import opened Downloads
  import Assembler
  import Bits
  import Clients

  // ----- what a run leaves to the assembler -----

  /** s is what a run leads to, whatever blocks have arrived. `all` has the pieces of the stream and the contents
      that were saved, and no two of them share a hash. */
  ghost predicate Behind(c: Config, stream: Bytes, s0: State, es: seq<Event>, s: State, sha1: HashFunction,
                         all: set<Bytes>)
  {
    && c.m.Valid() && c.m.InRange() && Describes(c.m, stream, sha1)
    && Started(c, s0, sha1) && Trace(c, s0, es, sha1) == Some(s)
    && CollisionFree(sha1, all) && PieceSet(c.m, stream) <= all && SavedIn(s.disk, all)
  }

  ghost predicate SavedIn(disk: map<int, Bytes>, all: set<Bytes>)
  {
    forall p :: p in disk ==> disk[p] in all
  }

  ghost predicate DiskIsGenuine(m: Meta, stream: Bytes, disk: map<int, Bytes>)
  {
    forall p :: p in disk ==> 0 <= p < |m.hashes| && disk[p] == PieceOf(m.pieceLength, stream, p)
  }

  /** Whatever blocks have arrived, each piece on disk is that piece of the stream. */
  lemma {:induction false} RunDisk(c: Config, stream: Bytes, s0: State, es: seq<Event>, s: State, sha1: HashFunction,
                                   all: set<Bytes>)
    requires Behind(c, stream, s0, es, s, sha1, all)
    ensures DiskIsGenuine(c.m, stream, s.disk)
  {
    RunKeeps(c, s0, es, sha1);
    forall p | p in s.disk ensures 0 <= p < |c.m.hashes| && s.disk[p] == PieceOf(c.m.pieceLength, stream, p) {
      assert AccountsFor(c, s, sha1, p);
      assert PieceSet(c.m, stream) + {s.disk[p]} <= all;
      VerifiedIsPiece(c.m, stream, sha1, p, s.disk[p]);
    }
  }

  /** The bit field `held` stands for the held pieces of such a state. Saves may be outstanding, or have failed:
      a tick may come between the last block of a piece and its save. */
  ghost predicate Reached(c: Config, stream: Bytes, s0: State, es: seq<Event>, s: State, sha1: HashFunction,
                          all: set<Bytes>, o: Assembler.Order)
  {
    Behind(c, stream, s0, es, s, sha1, all) && o.m == c.m && o.disk == s.disk && Bits.Indices(o.held) == s.held
  }

  /** Genuine pieces verify, and none of them collides with another. */
  lemma {:induction false} GenuineReadsRight(m: Meta, stream: Bytes, disk: map<int, Bytes>, sha1: HashFunction)
    requires m.Valid() && Describes(m, stream, sha1) && CollisionFree(sha1, PieceSet(m, stream))
    requires DiskIsGenuine(m, stream, disk)
    ensures Assembler.ReadsRight(m, disk, stream, |m.hashes|)
  {
    forall p | p in disk ensures disk[p] in PieceSet(m, stream) && sha1(disk[p]) == m.hashes[p] {
      assert p in Below(|m.hashes|);
    }
    Assembler.VerifiedReadsRight(m, disk, stream, sha1, PieceSet(m, stream), |m.hashes|);
  }

  /** The pieces that may be held without being on disk: their save is outstanding or has failed, or it is the
      last one, whose worker was given length 0. */
  ghost function Lost(c: Config, s: State): set<nat>
    requires c.m.Valid()
  {
    s.pending.Keys + s.rejected
    + if c.N() > 0 && c.WorkerLength(c.N() - 1) == 0 && c.N() - 1 !in s.disk then {c.N() - 1} else {}
  }

  /** The pieces held are those on disk and some of those that are lost, and no piece is both. */
  ghost predicate Left(o: Assembler.Order, lost: set<nat>)
  {
    forall p: nat :: (Bits.Get(o.held, p) ==> p in o.disk || p in lost) && !(p in o.disk && p in lost)
  }

  /** What the assembler relies on holds after any such run. */
  lemma {:induction false} ReachedIsGiven(c: Config, stream: Bytes, s0: State, es: seq<Event>, s: State,
                                          sha1: HashFunction, all: set<Bytes>, o: Assembler.Order)
    requires Reached(c, stream, s0, es, s, sha1, all, o)
    ensures Assembler.Given(o.m, o.disk, stream) && Left(o, Lost(c, s))
  {
    RunDisk(c, stream, s0, es, s, sha1, all);
    GenuineReadsRight(c.m, stream, o.disk, sha1);
    RunKeeps(c, s0, es, sha1);
    Bits.IndicesAre(o.held);
    forall p: nat ensures (Bits.Get(o.held, p) ==> p in o.disk || p in Lost(c, s)) && !(p in o.disk && p in Lost(c, s))
    {
      LostIfNotSaved(c, s, sha1, p);
    }
  }

  lemma {:induction false} LostIfNotSaved(c: Config, s: State, sha1: HashFunction, p: nat)
    requires c.m.Valid() && (p in s.held ==> p < c.N()) && Apart(s, p) && AccountsFor(c, s, sha1, p)
    ensures (p in s.held ==> p in s.disk || p in Lost(c, s)) && !(p in s.disk && p in Lost(c, s))
  {
  }

  /** The piece with this hash is lost, as the assembler looks it up. */
  predicate IsLost(o: Assembler.Order, lost: set<nat>, hash: Digest)
  {
    PieceIndex(o.m.hashes, hash) in lost
  }

  lemma {:induction false} LoadedIff(o: Assembler.Order, lost: set<nat>, file: File, h: Digest)
    requires Left(o, lost) && Assembler.IsDone(o.m, file, o.held) && h in file.pieces
    ensures Assembler.LoadBuffer(o, h).Some? <==> !IsLost(o, lost, h)
  {
    var p: nat := PieceIndex(o.m.hashes, h);
    assert Bits.Get(o.held, p);
  }

  /** A file can be assembled, rightly or not, if it is done, none of its pieces is lost, and what lies behind its
      first piece is enough for its overrun. */
  lemma {:induction false} ReadyIff(o: Assembler.Order, lost: set<nat>, i: nat)
    requires o.m.Valid() && o.m.InRange() && i < |o.m.lengths| && Left(o, lost)
    ensures Assembler.Ready(o, i) <==>
      Assembler.IsDone(o.m, o.m.FileAt(i), o.held)
      && (forall h :: h in o.m.FileAt(i).pieces ==> !IsLost(o, lost, h))
      && Assembler.Overrun(o.m, i) <= |Assembler.TailOf(o, i)|
  {
    Assembler.FirstLoad(o, i);
    var file := o.m.FileAt(i);
    var loads := Assembler.Loads(o, file.pieces);
    if Assembler.IsDone(o.m, file, o.held) {
      forall j | 0 <= j < |loads| ensures loads[j].Some? <==> !IsLost(o, lost, file.pieces[j]) {
        LoadedIff(o, lost, file, file.pieces[j]);
      }
      if Assembler.AllLoaded(loads) {
        forall h | h in file.pieces ensures !IsLost(o, lost, h) {
          var j :| 0 <= j < |file.pieces| && file.pieces[j] == h;
          assert loads[j].Some?;
        }
      }
    }
  }

  /** It makes the pass panic if it is done, its first piece is saved, and its overrun is more than what lies
      behind that. */
  lemma {:induction false} FaultyIff(o: Assembler.Order, lost: set<nat>, i: nat)
    requires o.m.Valid() && o.m.InRange() && i < |o.m.lengths| && Left(o, lost)
    ensures o.m.First(i) < |o.m.hashes|
    ensures Assembler.Faulty(o, i) <==>
      Assembler.IsDone(o.m, o.m.FileAt(i), o.held) && !IsLost(o, lost, o.m.hashes[o.m.First(i)])
      && Assembler.Overrun(o.m, i) > |Assembler.TailOf(o, i)|
  {
    Assembler.FirstLoad(o, i);
    SpanBounds(o.m.Offset(i), o.m.lengths[i], o.m.pieceLength);
    var file := o.m.FileAt(i);
    assert file.pieces[0] == o.m.hashes[o.m.First(i)];
    if Assembler.IsDone(o.m, file, o.held) {
      LoadedIff(o, lost, file, file.pieces[0]);
    }
  }

  // ----- a pass at a tick -----

  /** Every piece of file i, as the assembler looks it up, was there from the start or is not ignored. */
  ghost predicate Obtainable(c: Config, s0: State, i: nat)
    requires c.m.Valid() && i < |c.m.lengths|
  {
    forall h :: h in c.m.FileAt(i).pieces ==>
      PieceIndex(c.m.hashes, h) !in c.ignored || PieceIndex(c.m.hashes, h) in s0.held
  }

  /** File i fits, or was marked before, or is never done. */
  ghost predicate Harmless(c: Config, s0: State, written: set<string>, i: nat)
    requires c.m.Valid() && i < |c.m.lengths|
  {
    Assembler.Fits(c.m, i) || c.m.names[i] in written || !Obtainable(c, s0, i)
  }

  ghost predicate AllHarmless(c: Config, s0: State, written: set<string>)
    requires c.m.Valid()
  {
    forall i :: 0 <= i < |c.m.lengths| ==> Harmless(c, s0, written, i)
  }

  lemma {:induction false} DoneIsObtainable(c: Config, stream: Bytes, s0: State, es: seq<Event>, s: State,
                                            sha1: HashFunction, all: set<Bytes>, o: Assembler.Order, i: nat)
    requires Reached(c, stream, s0, es, s, sha1, all, o) && i < |c.m.lengths|
    requires Assembler.IsDone(o.m, o.m.FileAt(i), o.held)
    ensures Obtainable(c, s0, i)
  {
    RunKeeps(c, s0, es, sha1);
    Bits.IndicesAre(o.held);
    forall h | h in c.m.FileAt(i).pieces
      ensures PieceIndex(c.m.hashes, h) !in c.ignored || PieceIndex(c.m.hashes, h) in s0.held
    {
      var p: nat := PieceIndex(c.m.hashes, h);
      assert p in s.held;
      if p !in s0.held {
        assert p in s.held - s0.held;
      }
    }
  }

  /** When all files are harmless, a pass in a sound session goes through, and the session stays sound. */
  lemma {:induction false} PassKeepsSound(c: Config, stream: Bytes, s0: State, es: seq<Event>, s: State,
                                          sha1: HashFunction, all: set<Bytes>, o: Assembler.Order,
                                          session: Assembler.Session)
    requires Reached(c, stream, s0, es, s, sha1, all, o) && Assembler.Distinct(o.m.names)
    requires Assembler.Sound(o.m, o.dir, stream, session) && AllHarmless(c, s0, session.written)
    ensures var (t, ok) := Assembler.WholePass(o, session);
            ok && Assembler.Sound(o.m, o.dir, stream, t) && session.written <= t.written
  {
    ReachedIsGiven(c, stream, s0, es, s, sha1, all, o);
    forall i | 0 <= i < |o.m.names| && o.m.names[i] !in session.written
      ensures !Assembler.Faulty(o, i)
      ensures o.m.Start(i) + o.m.lengths[i] <= |stream| && (Assembler.Ready(o, i) ==> Assembler.Clean(o, stream, i))
    {
      Assembler.FileInStream(o.m, i);
      assert Harmless(c, s0, session.written, i);
      if Assembler.IsDone(o.m, o.m.FileAt(i), o.held) {
        DoneIsObtainable(c, stream, s0, es, s, sha1, all, o, i);
        Assembler.CleanIsRight(o, stream, i);
      }
    }
    Assembler.GoesThroughIff(o, stream, session);
    Assembler.SoundIff(o, stream, session);
  }

  /** A pass of the assembler at any tick of the downloader, whatever blocks have arrived, also while saves are
      outstanding or after some have failed. With distinct names it goes through if and only if every file that
      would make it panic has been marked before. Then it marks the ready files; what it writes for one that was
      not marked is right if and only if the file is clean; and a sound session stays sound if and only if all of
      those are. When all files are harmless, it goes through and stays sound. */
  method AssembleAtTick(a: Assembler.Assembler, o: Assembler.Order, files: seq<File>,
                        ghost c: Config, ghost stream: Bytes, ghost s0: State, ghost es: seq<Event>, ghost s: State,
                        ghost sha1: HashFunction, ghost all: set<Bytes>)
    returns (ok: bool)
    requires Reached(c, stream, s0, es, s, sha1, all, o) && o.m.LaidOut(files) && Assembler.Distinct(o.m.names)
    modifies a
    ensures (a.View(), ok) == Assembler.WholePass(o, old(a.View()))
    ensures ok <==> forall i :: 0 <= i < |files| && Assembler.Faulty(o, i) ==> o.m.names[i] in old(a.written)
    ensures ok ==> forall i :: 0 <= i < |files| ==>
      (o.m.names[i] in a.written <==> o.m.names[i] in old(a.written) || Assembler.Ready(o, i))
    ensures forall i :: 0 <= i < |files| ==> o.m.Start(i) + o.m.lengths[i] <= |stream|
    ensures ok ==> forall i :: 0 <= i < |files| && Assembler.Ready(o, i) && o.m.names[i] !in old(a.written) ==>
      (Assembler.Holds(o.m, o.dir, stream, a.downloads, i) <==> Assembler.Clean(o, stream, i))
    ensures ok && old(Assembler.Sound(o.m, o.dir, stream, a.View())) ==>
      (Assembler.Sound(o.m, o.dir, stream, a.View()) <==>
       forall i :: 0 <= i < |files| && Assembler.Ready(o, i) && o.m.names[i] !in old(a.written) ==>
           Assembler.Clean(o, stream, i))
    ensures old(Assembler.Sound(o.m, o.dir, stream, a.View())) && AllHarmless(c, s0, old(a.written)) ==>
      ok && Assembler.Sound(o.m, o.dir, stream, a.View())
  {
    ghost var before := a.View();
    ReachedIsGiven(c, stream, s0, es, s, sha1, all, o);
    Assembler.GoesThroughIff(o, stream, before);
    ok := a.AssembleTorrent(o, files);
    forall i | 0 <= i < |files| ensures o.m.Start(i) + o.m.lengths[i] <= |stream| {
      Assembler.FileInStream(o.m, i);
    }
    if ok {
      forall i | 0 <= i < |files|
        ensures o.m.names[i] in a.written <==> o.m.names[i] in before.written || Assembler.Ready(o, i)
        ensures Assembler.Ready(o, i) && o.m.names[i] !in before.written ==>
                  (Assembler.Holds(o.m, o.dir, stream, a.downloads, i) <==> Assembler.Clean(o, stream, i))
      {
        Assembler.FileAfterPass(o, stream, before, i);
      }
    }
    SoundAfterPass(c, stream, s0, es, s, sha1, all, o, before);
  }

  /** What a pass in a sound session comes to. */
  lemma {:induction false} SoundAfterPass(c: Config, stream: Bytes, s0: State, es: seq<Event>, s: State,
                                          sha1: HashFunction, all: set<Bytes>, o: Assembler.Order,
                                          session: Assembler.Session)
    requires Reached(c, stream, s0, es, s, sha1, all, o) && Assembler.Distinct(o.m.names)
    ensures forall i :: 0 <= i < |o.m.names| ==> o.m.Start(i) + o.m.lengths[i] <= |stream|
    ensures var (t, ok) := Assembler.WholePass(o, session);
            Assembler.Sound(o.m, o.dir, stream, session) ==>
              && (ok ==> (Assembler.Sound(o.m, o.dir, stream, t) <==>
                    forall i :: 0 <= i < |o.m.names| && Assembler.Ready(o, i) && o.m.names[i] !in session.written ==>
                      Assembler.Clean(o, stream, i)))
              && (AllHarmless(c, s0, session.written) ==> ok && Assembler.Sound(o.m, o.dir, stream, t))
  {
    forall i | 0 <= i < |o.m.names| ensures o.m.Start(i) + o.m.lengths[i] <= |stream| {
      Assembler.FileInStream(o.m, i);
    }
    ReachedIsGiven(c, stream, s0, es, s, sha1, all, o);
    if Assembler.Sound(o.m, o.dir, stream, session) {
      if Assembler.WholePass(o, session).1 {
        Assembler.SoundIff(o, stream, session);
      }
      if AllHarmless(c, s0, session.written) {
        PassKeepsSound(c, stream, s0, es, s, sha1, all, o, session);
      }
    }
  }

  // ----- once all pieces are there -----

  ghost predicate AllHeld(m: Meta, held: seq<bv8>)
  {
    forall p: nat :: p < |m.hashes| ==> Bits.Get(held, p)
  }

  lemma {:induction false} AllDone(m: Meta, held: seq<bv8>, i: nat)
    requires m.Valid() && m.InRange() && i < |m.lengths| && AllHeld(m, held)
    ensures Assembler.IsDone(m, m.FileAt(i), held)
  {
    var file := m.FileAt(i);
    forall h | h in file.pieces ensures PieceIndex(m.hashes, h) >= 0 && Bits.Get(held, PieceIndex(m.hashes, h)) {
      assert h in m.hashes;
      PieceIndexIsFirst(m.hashes, h, 0);
    }
  }

  /** Once all pieces are held and none is lost, a pass in a sound session goes through and leaves every file of the
      torrent in its directory, one after another the whole stream, if and only if each file is clean or has
      been marked before. Files that fit are clean. */
  lemma {:induction false} CompleteIff(c: Config, stream: Bytes, s0: State, es: seq<Event>, s: State,
                                       sha1: HashFunction, all: set<Bytes>, o: Assembler.Order,
                                       session: Assembler.Session)
    requires Reached(c, stream, s0, es, s, sha1, all, o) && Assembler.Distinct(o.m.names)
    requires Lost(c, s) == {} && AllHeld(o.m, o.held) && Assembler.Sound(o.m, o.dir, stream, session)
    ensures forall i :: 0 <= i < |o.m.names| ==> o.m.Start(i) + o.m.lengths[i] <= |stream|
    ensures var (t, ok) := Assembler.WholePass(o, session);
            && (ok && (forall i :: 0 <= i < |o.m.names| ==> Assembler.Holds(o.m, o.dir, stream, t.downloads, i))
                <==> forall i :: 0 <= i < |o.m.names| ==>
                  o.m.names[i] in session.written || Assembler.Clean(o, stream, i))
            && ((forall i :: 0 <= i < |o.m.names| ==> Assembler.Holds(o.m, o.dir, stream, t.downloads, i)) ==>
                Assembler.HoldsStream(o.m, o.dir, stream, t.downloads))
  {
    var n := |o.m.names|;
    var (t, ok) := Assembler.WholePass(o, session);
    ReachedIsGiven(c, stream, s0, es, s, sha1, all, o);
    Assembler.GoesThroughIff(o, stream, session);
    forall i | 0 <= i < n
      ensures o.m.Start(i) + o.m.lengths[i] <= |stream|
      ensures Assembler.Ready(o, i) <==> Assembler.Overrun(o.m, i) <= |Assembler.TailOf(o, i)|
      ensures Assembler.Faulty(o, i) <==> Assembler.Overrun(o.m, i) > |Assembler.TailOf(o, i)|
      ensures ok ==> (Assembler.Holds(o.m, o.dir, stream, t.downloads, i)
                      <==> o.m.names[i] in session.written || Assembler.Clean(o, stream, i))
    {
      Assembler.FileInStream(o.m, i);
      AllDone(o.m, o.held, i);
      ReadyIff(o, {}, i);
      FaultyIff(o, {}, i);
      if ok {
        Assembler.FileAfterPass(o, stream, session, i);
      }
    }
    if forall i :: 0 <= i < n ==> Assembler.Holds(o.m, o.dir, stream, t.downloads, i) {
      Assembler.HoldsAll(o.m, o.dir, stream, t.downloads);
    }
  }

  /** Every piece that WithFiles does not ignore is held: then every selected file is done. */
  lemma {:induction false} SelectedAreDone(c: Config, files: seq<File>, fileIdx: seq<nat>, held: seq<bv8>, k: nat)
    requires c.m.Valid() && c.m.InRange() && c.m.LaidOut(files) && Clients.Selects(files, fileIdx) && k < |fileIdx|
    requires c.ignored == Below(c.N()) - Clients.Wanted(c.m, files, fileIdx)
    requires Below(c.N()) - c.ignored <= Bits.Indices(held)
    ensures Assembler.IsDone(c.m, files[fileIdx[k]], held)
  {
    Bits.IndicesAre(held);
    forall x: nat | x < c.N() && x !in c.ignored ensures Bits.Get(held, x) {
      assert x in Below(c.N()) - c.ignored;
    }
    Clients.PartialIsEnough(c.m, files, fileIdx, held, fileIdx[k]);
  }
}
