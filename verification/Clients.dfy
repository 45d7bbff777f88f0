/** The client of one torrent: which pieces it has, ignores and downloads (internal/data/client.go,
    internal/data/message.go). Its methods take the steps of the machine in module Downloads. */
module Clients {
  import opened Basics
  import opened Torrents
  import opened Workers
  import opened Downloads
  import Assembler
  import Bits
  import Loops
  import PieceCache
  import Transfers

  const TOP_SPEED: nat := 50 * 1024 * 1024

  function MaxPendingPieces(pieceSize: nat): nat
    requires pieceSize > 0
  {
    TOP_SPEED / pieceSize
  }

  /** As many pieces as fit into 50 MiB; while pieces are no longer than that, the loop of the client may start
      them. */
  lemma {:induction false} MayStartIff(pieceSize: nat)
    requires pieceSize > 0
    ensures Times(MaxPendingPieces(pieceSize), pieceSize) <= 52428800
    ensures 52428800 < Times(MaxPendingPieces(pieceSize) + 1, pieceSize)
    ensures MaxPendingPieces(pieceSize) > 0 <==> pieceSize <= 52428800
  {
    Native(TOP_SPEED, pieceSize);
    QuotRem(TOP_SPEED, pieceSize);
    assert Times(1, pieceSize) == Times(0, pieceSize) + pieceSize;
    if MaxPendingPieces(pieceSize) > 0 {
      TimesMonotone(1, MaxPendingPieces(pieceSize), pieceSize);
    }
  }

  /** What downloadPiece does; it panics at the hash of a piece that does not exist. */
  datatype Start = Started | Declined | Panic

  /** A worker as the client sees it: the length it was given, and its progress. */
  datatype Job = Job(pieceLength: nat, progress: Progress)

  function Progresses(jobs: map<nat, Job>): map<nat, Progress>
  {
    map i | i in jobs :: jobs[i].progress
  }

  ghost predicate RightLengths(m: Meta, jobs: map<nat, Job>)
    requires m.Valid()
  {
    forall i :: i in jobs ==> i < |m.hashes| && jobs[i].pieceLength == Config(m, {}, 0).WorkerLength(i)
  }

  /** A piece as the piece manager gives it, with what lies behind it in memory. */
  function Loaded(disk: map<int, Bytes>, tails: int -> Bytes, index: nat): Option<Buffer>
  {
    if index in disk then Some(Buffer(disk[index], tails(index))) else None
  }

  /** The files of the piece manager for one torrent. */
  ghost predicate Stores(files: map<PieceCache.Key, Bytes>, hash: PieceCache.InfoHash, disk: map<int, Bytes>)
  {
    forall k: nat ::
      && (PieceCache.Key(hash, k) in files <==> k in disk)
      && (k in disk ==> files[PieceCache.Key(hash, k)] == disk[k])
  }

  lemma {:induction false} StoresPut(files: map<PieceCache.Key, Bytes>, hash: PieceCache.InfoHash,
                                     disk: map<int, Bytes>, i: nat, data: Bytes)
    requires Stores(files, hash, disk)
    ensures Stores(files[PieceCache.Key(hash, i) := data], hash, disk[i := data])
  {
  }

  class Client {
    const m: Meta
    var pieces: array<bv8>
    var ignoredPieces: array<bv8>
    var workers: map<nat, Job>
    var uploaded: nat
    var emitted: seq<nat>                        // the pieces announced by DownloadCompleteEvents
    ghost var pending: map<nat, map<nat, Bytes>> // what the workers' goroutines and the piece manager have
    ghost var disk: map<int, Bytes>
    ghost var rejected: set<nat>

    ghost predicate Valid()
      reads this
    {
      && m.Valid()
      && pieces != ignoredPieces
      && 8 * pieces.Length >= |m.hashes| && 8 * ignoredPieces.Length >= |m.hashes|
      && RightLengths(m, workers)
      && forall i :: i in pending ==> i < |m.hashes|
    }

    ghost function Cfg(): Config
      requires m.Valid()
      reads this, ignoredPieces
    {
      Config(m, Bits.Indices(ignoredPieces[..]), MaxPendingPieces(m.pieceLength))
    }

    ghost function View(): State
      reads this, pieces
    {
      State(Bits.Indices(pieces[..]), Progresses(workers), pending, disk, rejected, multiset(emitted))
    }

    /** New without options: nothing held, nothing ignored, whatever is on disk. */
    constructor (m: Meta, ghost disk: map<int, Bytes>)
      requires m.Valid()
      ensures Valid() && this.m == m && fresh(pieces) && fresh(ignoredPieces) && Cfg().ignored == {}
      ensures View() == Fresh(disk) && uploaded == 0
    {
      this.m := m;
      workers, uploaded, emitted := map[], 0, [];
      this.pending, this.disk, this.rejected := map[], disk, {};
      pieces, ignoredPieces := new bv8[0], new bv8[0];
      new;
      pieces := Bits.NewBitField(|m.hashes|);
      ignoredPieces := Bits.NewBitField(|m.hashes|);
    }

    /** downloadPiece starts a worker unless the piece is in flight or ignored or too many are in flight.
        It does not look at the held pieces: its callers do. */
    method DownloadPiece(index: nat) returns (r: Start)
      requires Valid()
      modifies this`workers
      ensures Valid()
      ensures r == if index in old(workers) || index in Cfg().ignored || |old(workers)| > Cfg().maxPending then Declined
                   else if index >= |m.hashes| then Panic
                   else Started
      ensures r != Started ==> workers == old(workers)
      ensures r == Started ==> workers == old(workers)[index := Job(Cfg().WorkerLength(index), Progress(map[], false))]
    {
      Bits.IndicesAre(ignoredPieces[..]);
      if index in workers || Bits.Get(ignoredPieces[..], index) {
        return Declined;
      }
      if |workers| > MaxPendingPieces(m.pieceLength) {
        return Declined;
      }
      var pieceLength := m.pieceLength;
      if index == |m.hashes| - 1 {
        pieceLength := m.Total() % pieceLength;
        Native(m.Total(), m.pieceLength);
      }
      if index >= |m.hashes| {
        return Panic;
      }
      workers := workers[index := Job(pieceLength, Progress(map[], false))];
      return Started;
    }

    /** For a piece of the torrent that is not held, downloadPiece takes the step that starts it, if that is
        possible. */
    method StartMissing(index: nat, ghost sha1: HashFunction) returns (r: Start)
      requires Valid() && index !in Bits.Indices(pieces[..])
      modifies this`workers
      ensures Valid()
      ensures r == Started <==> Enabled(Cfg(), old(View()), Spawn(index))
      ensures r == Panic ==> index >= |m.hashes|
      ensures View() == if r == Started then Next(Cfg(), old(View()), Spawn(index), sha1) else old(View())
      ensures r != Started ==> workers == old(workers)
    {
      ProgressKeys(workers);
      r := DownloadPiece(index);
      ProgressUpdate(old(workers), index, Job(Cfg().WorkerLength(index), Progress(map[], false)));
    }

    /** RequestPiece (internal/data/service.go), for an index that a remote peer has named: check that the piece
        is missing, then start it. */
    method RequestPiece(index: nat, ghost sha1: HashFunction) returns (r: Start)
      requires Valid()
      modifies this`workers
      ensures Valid()
      ensures r == Panic <==> index >= |m.hashes| && index !in Bits.Indices(pieces[..]) && index !in old(workers)
                              && index !in Cfg().ignored && |old(workers)| <= Cfg().maxPending
      ensures View() == if Enabled(Cfg(), old(View()), Spawn(index))
                        then Next(Cfg(), old(View()), Spawn(index), sha1) else old(View())
    {
      Bits.IndicesAre(pieces[..]);
      if Bits.Get(pieces[..], index) {
        return Declined;
      }
      ProgressKeys(workers);
      r := DownloadPiece(index);
      ProgressUpdate(old(workers), index, Job(Cfg().WorkerLength(index), Progress(map[], false)));
    }

    /** handleAllowedFastMessage, which looks at the index first. */
    method HandleAllowedFast(index: nat, ghost sha1: HashFunction)
      requires Valid()
      modifies this`workers
      ensures Valid()
      ensures View() == if Enabled(Cfg(), old(View()), Spawn(index))
                        then Next(Cfg(), old(View()), Spawn(index), sha1) else old(View())
    {
      Bits.IndicesAre(pieces[..]);
      if Bits.Get(pieces[..], index) || index >= |m.hashes| {
        return;
      }
      var _ := StartMissing(index, sha1);
    }

    ghost predicate Candidate(i: nat)
      reads this, pieces, ignoredPieces
    {
      i < |m.hashes| && i !in Bits.Indices(pieces[..]) && i !in Bits.Indices(ignoredPieces[..]) && i !in workers
    }

    ghost predicate HasCandidate()
      reads this, pieces, ignoredPieces
    {
      exists i: nat :: Candidate(i)
    }

    ghost predicate First(i: nat)
      reads this, pieces, ignoredPieces
    {
      Candidate(i) && forall j: nat :: Candidate(j) ==> i <= j
    }

    /** nextNPieces: up to n picks among the first candidates, where one may be picked several times. It
        comes back empty-handed exactly when there is no candidate, or n is not positive. */
    method NextNPieces(n: int) returns (out: seq<nat>)
      requires Valid()
      ensures forall x :: x in out ==>
          x < |m.hashes| && x !in Bits.Indices(pieces[..]) && x !in Cfg().ignored && x !in workers
      ensures |out| <= Max0(n)
      ensures n == 1 ==> forall x :: x in out ==> First(x)
      ensures out == [] <==> n <= 0 || !HasCandidate()
    {
      Bits.IndicesAre(pieces[..]);
      Bits.IndicesAre(ignoredPieces[..]);
      var remaining: seq<nat> := [];
      for i := 0 to |m.hashes|
        invariant forall x :: x in remaining ==> Candidate(x)
        invariant forall x: nat :: x < i && Candidate(x) ==> x in remaining
        invariant forall k :: 0 <= k < |remaining| ==> remaining[0] <= remaining[k] < i
      {
        if Bits.Get(pieces[..], i) || Bits.Get(ignoredPieces[..], i) || i in workers {
          continue;
        }
        remaining := remaining + [i];
      }
      var count := Min(n, |remaining|);
      out := [];
      while |out| < count
        invariant forall x :: x in out ==> Candidate(x)
        invariant |out| <= Max0(count)
        invariant n == 1 ==> forall x :: x in out ==> x == remaining[0]
        decreases count - |out|
      {
        var i: nat :| i < count;
        out := out + [remaining[i]];
      }
      if remaining != [] {
        assert Candidate(remaining[0]);
      }
    }

    /** downloadN: some steps that start a worker, and one at least if there is a candidate and room. For n = 1 it
        can only be the first candidate. */
    method DownloadN(n: int, ghost sha1: HashFunction) returns (ghost es: seq<Event>)
      requires Valid()
      modifies this`workers
      ensures Valid()
      ensures Run(Cfg(), old(View()), es, sha1) && View() == Exec(Cfg(), old(View()), es, sha1)
      ensures AllSpawn(es)
      ensures n > 0 && old(HasCandidate()) && |old(workers)| <= Cfg().maxPending ==> es != []
      ensures n == 1 ==> |es| <= 1 && forall e :: e in es ==> old(First(e.i))
    {
      var picks := NextNPieces(n);
      assert picks != [] ==> picks[0] in picks;
      es := DownloadPicks(picks, sha1);
    }

    /** Its loop. */
    method DownloadPicks(picks: seq<nat>, ghost sha1: HashFunction) returns (ghost es: seq<Event>)
      requires Valid() && forall x :: x in picks ==> x < |m.hashes| && x !in Bits.Indices(pieces[..])
      modifies this`workers
      ensures Valid()
      ensures Run(Cfg(), old(View()), es, sha1) && View() == Exec(Cfg(), old(View()), es, sha1)
      ensures AllSpawn(es) && |es| <= |picks| && Among(es, picks)
      ensures (picks != [] && picks[0] !in old(workers) && picks[0] !in Cfg().ignored
               && |old(workers)| <= Cfg().maxPending) ==> es != []
    {
      ghost var c, s0, w0 := Cfg(), View(), workers;
      es := [];
      for k := 0 to |picks|
        invariant Valid() && Cfg() == c
        invariant Run(c, s0, es, sha1) && View() == Exec(c, s0, es, sha1)
        invariant AllSpawn(es) && |es| <= k && Among(es, picks)
        invariant k == 0 ==> workers == w0
        invariant k > 0 && picks[0] !in w0 && picks[0] !in c.ignored && |w0| <= c.maxPending ==> es != []
      {
        assert picks[k] in picks;
        es := DownloadOne(picks[k], s0, es, sha1);
      }
    }

    /** The body of that loop. */
    method DownloadOne(index: nat, ghost s0: State, ghost es: seq<Event>, ghost sha1: HashFunction)
      returns (ghost more: seq<Event>)
      requires Valid() && index < |m.hashes| && index !in Bits.Indices(pieces[..])
      requires Run(Cfg(), s0, es, sha1) && View() == Exec(Cfg(), s0, es, sha1)
      modifies this`workers
      ensures Valid()
      ensures Run(Cfg(), s0, more, sha1) && View() == Exec(Cfg(), s0, more, sha1)
      ensures more == es + [Spawn(index)] || (more == es && workers == old(workers))
      ensures index !in old(workers) && index !in Cfg().ignored && |old(workers)| <= Cfg().maxPending ==> more != es
    {
      ghost var s := View();
      ProgressKeys(workers);
      var started := StartMissing(index, sha1);
      more := es;
      if started == Started {
        RunOne(Cfg(), s0, es, Spawn(index), s, sha1);
        more := es + [Spawn(index)];
      }
    }

    /** done: with no bit set at or past the number of pieces, it tells whether every piece is held. */
    method Done() returns (r: bool)
      requires Valid() && Bits.Indices(pieces[..]) <= Below(|m.hashes|)
      ensures r <==> forall i: nat :: i < |m.hashes| ==> i in Bits.Indices(pieces[..])
    {
      var sum := Bits.GetSum(pieces);
      Bits.IndicesAre(pieces[..]);
      Bits.SumMeansAll(pieces[..], |m.hashes|);
      return sum == |m.hashes|;
    }

    /** handlePieceMessage, and the worker's taking in the block: a block for a piece that is not in flight
        is dropped. */
    method HandlePieceMessage(index: nat, offset: nat, data: Bytes, ghost sha1: HashFunction)
      requires Valid()
      modifies this`pending, this`workers
      ensures Valid()
      ensures View() == Next(Cfg(), old(View()), Block(index, offset, data), sha1)
    {
      if index !in workers {
        return;
      }
      var w := workers[index];
      var p := Accept(w.pieceLength, w.progress, offset, data);
      if !w.progress.exited && p.exited {
        pending := pending[index := p.subpieces];
      }
      workers := workers[index := Job(w.pieceLength, p)];
      ProgressUpdate(old(workers), index, Job(w.pieceLength, p));
    }

    ghost function Completed(): set<nat>
      reads this
    {
      set i | i in workers && IsComplete(workers[i].pieceLength, workers[i].progress.subpieces)
    }

    /** The loop of clearCompletedPieces: `out` lists the completed workers, in some order. */
    method TakeCompleted() returns (out: seq<nat>)
      requires Valid()
      modifies this`workers, pieces
      ensures pieces.Length == old(pieces.Length)
      ensures workers == old(workers) - old(Completed())
      ensures Bits.Indices(pieces[..]) == old(Bits.Indices(pieces[..])) + old(Completed())
      ensures multiset(out) == multiset(old(Completed()))
    {
      out := [];
      var left := workers.Keys;
      ghost var all, held0, fin, done := workers, Bits.Indices(pieces[..]), Completed(), {};
      while left != {}
        invariant pieces.Length == old(pieces.Length)
        invariant Taking(all, fin, left, done, workers, out)
        invariant Bits.Indices(pieces[..]) == held0 + done
        decreases |left|
      {
        var idx: nat :| idx in left;
        TakeStep(all, fin, left, done, workers, out, idx);
        left := left - {idx};
        var w := workers[idx];
        if IsComplete(w.pieceLength, w.progress.subpieces) {
          workers := workers - {idx};
          var _ := Bits.Set(pieces, idx);
          out := out + [idx];
          SetPlus(held0, done, idx);
          done := done + {idx};
        }
      }
      TakenAll(all, fin, done, workers, out);
    }

    /** clearCompletedPieces: the tick. Every completed worker goes, its piece is held from now on, and is
        announced. */
    method ClearCompletedPieces(ghost sha1: HashFunction)
      requires Valid()
      modifies this`workers, this`emitted, pieces
      ensures Valid()
      ensures Cfg() == old(Cfg()) && View() == Next(Cfg(), old(View()), Tick, sha1)
    {
      ghost var c, s, fin := Cfg(), View(), Completed();
      FinishedWorkers(c, s, workers);
      var out := TakeCompleted();
      ProgressMinus(old(workers), fin);
      emitted := emitted + out;
      TickIs(c, s, View(), fin, sha1);
    }

    /** What the loop of download does at a tick before it has the files assembled: clear, and start one piece if
        fewer than maxPending are in flight. */
    method OnTick(ghost sha1: HashFunction)
      requires Valid()
      modifies this`workers, this`emitted, pieces
      ensures Valid()
      ensures Cfg() == old(Cfg()) && View() == Loops.AfterBeat(Cfg(), old(View()), sha1)
    {
      ClearCompletedPieces(sha1);
      ghost var c, t := Cfg(), View();
      CandidatesAre(this);
      ProgressKeys(workers);
      if |workers| < MaxPendingPieces(m.pieceLength) {
        ghost var es := DownloadN(1, sha1);
        FirstOnly(c, t, es, sha1);
      }
    }

    /** A completed worker, as its goroutine goes on: bytes, Verify and Save. None stands for the panic of bytes.
        The piece manager's files of this torrent are what the machine calls the disk. */
    method SaveWorker(i: nat, w: Worker, pm: PieceCache.PieceManager, hash: PieceCache.InfoHash,
                      ghost sha1: HashFunction)
      returns (r: Option<PieceCache.Answer>)
      requires Valid() && i in pending
      requires w.index == i && w.pieceLength == Cfg().WorkerLength(i) && w.subpieces == pending[i]
      requires hash in pm.registered && pm.c.pieces(hash) == m.hashes && pm.c.sha1 == sha1
      requires Stores(pm.disk, hash, disk)
      modifies this`pending, this`disk, this`rejected, pm`disk
      ensures Valid() && Cfg() == old(Cfg()) && Stores(pm.disk, hash, disk)
      ensures r.None? <==> OutOfBounds(Cfg().WorkerLength(i), old(pending[i]))
      ensures r.None? ==> View() == old(View()) && pm.disk == old(pm.disk)
      ensures r.Some? ==> exists buf :: Enabled(Cfg(), old(View()), Save(i, buf))
                            && View() == Next(Cfg(), old(View()), Save(i, buf), sha1)
                            && r.value == if sha1(buf) == m.hashes[i] then PieceCache.Done else PieceCache.Corrupt
    {
      var buf := w.GetBytes();
      if buf.None? {
        return None;
      }
      var answer := SaveTo(pm, hash, i, buf.value, m.hashes);
      Saved(i, buf.value, sha1);
      StoresPut(old(pm.disk), hash, old(disk), i, buf.value);
      return Some(answer);
    }

    /** The piece is no longer about to be saved. */
    ghost method Saved(i: nat, buf: Bytes, sha1: HashFunction)
      requires Valid() && Enabled(Cfg(), View(), Save(i, buf))
      modifies this`pending, this`disk, this`rejected
      ensures Valid() && View() == Next(Cfg(), old(View()), Save(i, buf), sha1)
    {
      pending := pending - {i};
      if sha1(buf) == m.hashes[i] {
        disk := disk[i := buf];
      } else {
        rejected := rejected + {i};
      }
    }

    /** A new client, whose disk has pieces of the torrent only, is started by verifyPieces if and only if that
        succeeds. */
    method StartDownload(disk: map<int, Bytes>, sha1: HashFunction) returns (ok: bool)
      requires Valid() && View() == Fresh(disk) && forall i :: i in disk ==> 0 <= i < |m.hashes|
      modifies pieces
      ensures Valid() && Cfg() == old(Cfg())
      ensures ok <==> Downloads.Started(Cfg(), View(), sha1)
      ensures ok <==> forall i :: i in disk ==> sha1(disk[i]) == m.hashes[i]
    {
      ok := VerifyPieces(disk, sha1);
      StartedIff(Cfg(), disk, View(), sha1);
      AllVerifyIs(disk, m.hashes, sha1, |m.hashes|);
    }

    /** verifyPieces marks the pieces that can be loaded and have the listed hash; the first one that can be
        loaded but does not have it makes it fail. It is what leads from a new client to a started download. */
    method VerifyPieces(disk: map<int, Bytes>, sha1: HashFunction) returns (ok: bool)
      requires Valid()
      modifies pieces
      ensures Valid() && Cfg() == old(Cfg())
      ensures ok <==> AllVerify(disk, m.hashes, sha1, |m.hashes|)
      ensures ok ==> Bits.Indices(pieces[..]) == old(Bits.Indices(pieces[..])) + OnDiskBelow(disk, |m.hashes|)
      ensures !ok ==> exists bad: nat :: bad < |m.hashes| && AllVerify(disk, m.hashes, sha1, bad)
                        && !AllVerify(disk, m.hashes, sha1, bad + 1)
                        && Bits.Indices(pieces[..]) == old(Bits.Indices(pieces[..])) + OnDiskBelow(disk, bad)
    {
      for idx := 0 to |m.hashes|
        invariant pieces.Length == old(pieces.Length)
        invariant AllVerify(disk, m.hashes, sha1, idx)
        invariant Bits.Indices(pieces[..]) == old(Bits.Indices(pieces[..])) + OnDiskBelow(disk, idx)
      {
        if idx !in disk {
          continue;
        }
        if sha1(disk[idx]) != m.hashes[idx] {
          assert !AllVerify(disk, m.hashes, sha1, idx + 1);
          if AllVerify(disk, m.hashes, sha1, |m.hashes|) {
            VerifyPrefix(disk, m.hashes, sha1, idx + 1, |m.hashes|);
          }
          return false;
        }
        var _ := Bits.Set(pieces, idx);
      }
      return true;
    }

    /** handleRequestMessage: a held piece that can be loaded is served, and counted. The bytes asked for are given,
        those behind the piece in memory included; where there are not enough, or the 32-bit sum wraps, it panics. */
    method HandleRequestMessage(req: Request, disk: map<int, Bytes>, tails: int -> Bytes) returns (r: Transfers.Served)
      requires Valid()
      modifies this`uploaded
      ensures r == Transfers.Serve(req.index in Bits.Indices(pieces[..]), Loaded(disk, tails, req.index), req)
      ensures uploaded == old(uploaded) + if r.Sent? then |r.data| else 0
      ensures r.Refused? <==> req.index !in Bits.Indices(pieces[..]) || req.index !in disk
      ensures r.Sent? <==>
        && req.index in Bits.Indices(pieces[..]) && req.index in disk
        && var end := (req.offset + req.length) % 0x1_0000_0000;
           req.offset <= end <= |disk[req.index]| + |tails(req.index)|
      ensures r.Sent? ==>
        r.data == (disk[req.index] + tails(req.index))[req.offset..(req.offset + req.length) % 0x1_0000_0000]
    {
      Bits.IndicesAre(pieces[..]);
      if !Bits.Get(pieces[..], req.index) {
        return Transfers.Refused;
      }
      var loaded := Loaded(disk, tails, req.index);
      if loaded.None? {
        return Transfers.Refused;
      }
      var data := loaded.value.Slice(req.offset, (req.offset + req.length) % 0x1_0000_0000);
      if data.None? {
        return Transfers.Panic;
      }
      uploaded := uploaded + |data.value|;
      return Transfers.Sent(data.value);
    }

    /** WithFiles ignores every piece but the ones the selected files list, each looked up by its hash. It panics
        at the index of a file that does not exist, and then changes nothing. */
    method WithFiles(files: seq<File>, fileIdx: seq<int>) returns (ok: bool)
      requires Valid()
      modifies this`ignoredPieces
      ensures Valid()
      ensures ok <==> Selects(files, fileIdx)
      ensures ok ==> fresh(ignoredPieces) && Cfg().ignored == Below(|m.hashes|) - Wanted(m, files, fileIdx)
      ensures ok ==> forall x: nat ::
        x in Cfg().ignored <==> x < |m.hashes| && !exists i, h :: i in fileIdx && h in files[i].pieces
                                                             && PieceIndex(m.hashes, h) == x
      ensures !ok ==> ignoredPieces == old(ignoredPieces)
    {
      var bf := Bits.Ones(|m.hashes|);
      ghost var all := Below(|m.hashes|);
      for k := 0 to |fileIdx|
        invariant fresh(bf) && bf.Length == (|m.hashes| + 7) / 8
        invariant ignoredPieces == old(ignoredPieces)
        invariant Selects(files, fileIdx[..k])
        invariant Bits.Indices(bf[..]) == all - Wanted(m, files, fileIdx[..k])
      {
        if !(0 <= fileIdx[k] < |files|) {
          assert !Selects(files, fileIdx);
          return false;
        }
        var file := files[fileIdx[k]];
        ghost var before := Bits.Indices(bf[..]);
        for j := 0 to |file.pieces|
          invariant fresh(bf) && bf.Length == (|m.hashes| + 7) / 8 && ignoredPieces == old(ignoredPieces)
          invariant Bits.Indices(bf[..]) == before - Lookups(m, file.pieces[..j])
        {
          var pcIdx := GetPieceIndex(m.hashes, file.pieces[j]);
          if pcIdx >= 0 {
            var _ := Bits.Unset(bf, pcIdx);
          }
          LookupsStep(m, file.pieces, j, before);
        }
        assert file.pieces[..|file.pieces|] == file.pieces;
        SelectsStep(files, fileIdx, k);
        WantedStep(m, files, fileIdx, k, all);
      }
      assert fileIdx[..|fileIdx|] == fileIdx;
      ignoredPieces := bf;
      forall x: nat
        ensures x in Wanted(m, files, fileIdx)
           <==> exists i, h :: i in fileIdx && h in files[i].pieces && PieceIndex(m.hashes, h) == x
      {
        WantedAre(m, files, fileIdx, x);
      }
      return true;
    }
  }

  method SaveTo(pm: PieceCache.PieceManager, hash: PieceCache.InfoHash, i: nat, data: Bytes, hashes: seq<Digest>)
    returns (answer: PieceCache.Answer)
    requires hash in pm.registered && pm.c.pieces(hash) == hashes && i < |hashes|
    modifies pm`disk
    ensures answer == if pm.c.sha1(data) == hashes[i] then PieceCache.Done else PieceCache.Corrupt
    ensures pm.disk == if pm.c.sha1(data) == hashes[i] then old(pm.disk)[PieceCache.Key(hash, i) := data]
                       else old(pm.disk)
  {
    answer := pm.SavePiece(PieceCache.Key(hash, i), data);
  }

  // ----- a whole piece served -----

  /** A client that holds a piece is asked for all its blocks, as a fresh worker asks: every answer is the block,
      and what the client counts as uploaded grows by the length of the piece. */
  method ServePiece(c: Client, index: nat, disk: map<int, Bytes>, tails: int -> Bytes) returns (answers: seq<Bytes>)
    requires c.Valid() && index in Bits.Indices(c.pieces[..])
    requires index in disk && |disk[index]| <= 0x1_0000_0000 - BLOCK
    modifies c`uploaded
    ensures c.uploaded == old(c.uploaded) + |disk[index]|
    ensures var reqs := Missing(index, |disk[index]|, {}, 0);
            |answers| == |reqs| && forall k :: 0 <= k < |reqs| ==> IsBlock(disk[index], reqs[k].offset, answers[k])
  {
    var reqs := FreshRequests(index, |disk[index]|);
    Transfers.MissingAre(index, |disk[index]|, {}, 0);
    Transfers.RequestsAddUp(index, |disk[index]|, 0);
    answers := ServeRequests(c, index, reqs, disk, tails);
  }

  /** What a new worker asks for. */
  method FreshRequests(index: nat, pieceLength: nat) returns (reqs: seq<Request>)
    requires pieceLength <= 0x1_0000_0000 - BLOCK
    ensures reqs == Missing(index, pieceLength, {}, 0)
  {
    var worker := new Worker(index, pieceLength);
    assert worker.subpieces.Keys == {};
    reqs := worker.RequestPiece();
  }

  method ServeRequests(c: Client, index: nat, reqs: seq<Request>, disk: map<int, Bytes>, tails: int -> Bytes)
    returns (answers: seq<Bytes>)
    requires c.Valid() && index in Bits.Indices(c.pieces[..])
    requires index in disk && |disk[index]| <= 0x1_0000_0000 - BLOCK
    requires forall r :: r in reqs ==> Transfers.IsRequest(r, index, |disk[index]|, {})
    modifies c`uploaded
    ensures c.uploaded == old(c.uploaded) + Transfers.Volume(reqs)
    ensures |answers| == |reqs| && forall k :: 0 <= k < |reqs| ==> IsBlock(disk[index], reqs[k].offset, answers[k])
  {
    answers := [];
    for k := 0 to |reqs|
      invariant c.uploaded == old(c.uploaded) + Transfers.Volume(reqs[..k])
      invariant |answers| == k && forall j :: 0 <= j < k ==> IsBlock(disk[index], reqs[j].offset, answers[j])
    {
      assert reqs[k] in reqs && reqs[..k + 1][..k] == reqs[..k];
      Transfers.RequestIsServed(disk[index], tails(index), index, {}, reqs[k]);
      var r := c.HandleRequestMessage(reqs[k], disk, tails);
      answers := answers + [r.data];
    }
    assert reqs[..|reqs|] == reqs;
  }

  lemma {:induction false} LookupsStep(m: Meta, hashes: seq<Digest>, j: nat, before: set<nat>)
    requires j < |hashes|
    ensures var i := PieceIndex(m.hashes, hashes[j]);
            before - Lookups(m, hashes[..j + 1]) == before - Lookups(m, hashes[..j]) - if i >= 0 then {i} else {}
  {
    assert hashes[..j + 1][..j] == hashes[..j];
  }

  lemma {:induction false} SelectsStep(files: seq<File>, fileIdx: seq<int>, k: nat)
    requires k < |fileIdx| && Selects(files, fileIdx[..k]) && 0 <= fileIdx[k] < |files|
    ensures Selects(files, fileIdx[..k + 1])
  {
    forall j | 0 <= j < k ensures 0 <= fileIdx[j] < |files| {
      assert fileIdx[..k][j] == fileIdx[j];
    }
  }

  lemma {:induction false} WantedStep(m: Meta, files: seq<File>, fileIdx: seq<int>, k: nat, all: set<nat>)
    requires k < |fileIdx| && Selects(files, fileIdx[..k + 1])
    ensures Selects(files, fileIdx[..k])
    ensures 0 <= fileIdx[k] < |files|
    ensures all - Wanted(m, files, fileIdx[..k + 1])
            == all - Wanted(m, files, fileIdx[..k]) - Lookups(m, files[fileIdx[k]].pieces)
  {
    assert fileIdx[..k + 1][..k] == fileIdx[..k] && fileIdx[..k + 1][k] == fileIdx[k];
  }

  lemma {:induction false} ProgressKeys(jobs: map<nat, Job>)
    ensures Progresses(jobs).Keys == jobs.Keys && |Progresses(jobs)| == |jobs|
  {
    assert Progresses(jobs).Keys == jobs.Keys;
    assert |Progresses(jobs)| == |Progresses(jobs).Keys| && |jobs| == |jobs.Keys|;
  }

  lemma {:induction false} ProgressMinus(jobs: map<nat, Job>, done: set<nat>)
    ensures Progresses(jobs - done) == Progresses(jobs) - done
  {
  }

  lemma {:induction false} TickIs(c: Config, s: State, t: State, fin: set<nat>, sha1: HashFunction)
    requires c.m.Valid() && fin == Finished(c, s)
    requires t == State(s.held + fin, s.workers - fin, s.pending, s.disk, s.rejected, s.announced + multiset(fin))
    ensures t == Next(c, s, Tick, sha1)
  {
  }

  lemma {:induction false} ProgressUpdate(jobs: map<nat, Job>, i: nat, job: Job)
    ensures Progresses(jobs[i := job]) == Progresses(jobs)[i := job.progress]
  {
  }

  lemma {:induction false} FinishedWorkers(c: Config, s: State, jobs: map<nat, Job>)
    requires c.m.Valid() && RightLengths(c.m, jobs) && s.workers == Progresses(jobs)
    ensures Finished(c, s) == set i | i in jobs && IsComplete(jobs[i].pieceLength, jobs[i].progress.subpieces)
  {
  }

  /** Where the loop of clearCompletedPieces stands: `left` is still to be visited, `done` was taken. */
  ghost predicate Taking(all: map<nat, Job>, fin: set<nat>, left: set<nat>, done: set<nat>, now: map<nat, Job>,
                         out: seq<nat>)
  {
    left <= all.Keys && done == fin - left && now == all - done && multiset(out) == multiset(done)
  }

  lemma {:induction false} TakenAll(all: map<nat, Job>, fin: set<nat>, done: set<nat>, now: map<nat, Job>,
                                    out: seq<nat>)
    requires Taking(all, fin, {}, done, now, out)
    ensures done == fin && now == all - fin && multiset(out) == multiset(fin)
  {
    assert fin - {} == fin;
  }

  lemma {:induction false} SetPlus(a: set<nat>, b: set<nat>, x: nat)
    ensures a + b + {x} == a + (b + {x})
  {
  }

  lemma {:induction false} TakeStep(all: map<nat, Job>, fin: set<nat>, left: set<nat>, done: set<nat>,
                                    now: map<nat, Job>, out: seq<nat>, idx: nat)
    requires Taking(all, fin, left, done, now, out) && idx in left
    ensures idx in now && now[idx] == all[idx]
    ensures idx in fin ==> Taking(all, fin, left - {idx}, done + {idx}, now - {idx}, out + [idx])
    ensures idx !in fin ==> Taking(all, fin, left - {idx}, done, now, out)
  {
    if idx in fin {
      assert fin - (left - {idx}) == done + {idx};
      assert now - {idx} == all - (done + {idx});
      assert multiset(done + {idx}) == multiset(done) + multiset{idx};
    } else {
      assert fin - (left - {idx}) == done;
    }
  }

  lemma {:induction false} CandidatesAre(client: Client)
    requires client.Valid()
    ensures forall i: nat :: client.Candidate(i) <==> i in Loops.Candidates(client.Cfg(), client.View())
    ensures client.HasCandidate() <==> Loops.Candidates(client.Cfg(), client.View()) != {}
  {
    ProgressKeys(client.workers);
    assert forall i: nat :: client.Candidate(i) <==> i in Loops.Candidates(client.Cfg(), client.View());
    if Loops.Candidates(client.Cfg(), client.View()) != {} {
      var i :| i in Loops.Candidates(client.Cfg(), client.View());
      assert client.Candidate(i);
    }
  }

  predicate AllSpawn(es: seq<Event>)
  {
    forall e :: e in es ==> e.Spawn?
  }

  predicate Among(es: seq<Event>, picks: seq<nat>)
    requires AllSpawn(es)
  {
    forall e :: e in es ==> e.i in picks
  }

  /** When there is room and downloadN(1) starts nothing but the first candidate, it does just that. */
  lemma {:induction false} FirstOnly(c: Config, s: State, es: seq<Event>, sha1: HashFunction)
    requires c.m.Valid() && Run(c, s, es, sha1) && |s.workers| < c.maxPending && |es| <= 1
    requires AllSpawn(es) && forall e :: e in es ==>
      e.i in Loops.Candidates(c, s) && forall i :: i in Loops.Candidates(c, s) ==> e.i <= i
    requires Loops.Candidates(c, s) != {} ==> es != []
    ensures Exec(c, s, es, sha1)
         == if Loops.HasRoom(c, s) then Next(c, s, Spawn(Loops.Least(Loops.Candidates(c, s))), sha1) else s
  {
    if es != [] {
      assert es[0] in es && es[0].i in Loops.Candidates(c, s);
      var i := Loops.Least(Loops.Candidates(c, s));
      assert es[0] == Spawn(i);
      assert es == [] + [Spawn(i)];
      TraceOne(c, s, [], Spawn(i), s, sha1);
    }
  }

  // ----- verifyPieces -----

  /** A client that has not verified anything yet. */
  function Fresh(disk: map<int, Bytes>): State
  {
    State({}, map[], map[], disk, {}, multiset{})
  }

  lemma {:induction false} OnDiskBelowIs(disk: map<int, Bytes>, n: nat)
    ensures forall i: nat :: i in OnDiskBelow(disk, n) <==> i < n && i in disk
  {
    if n > 0 {
      OnDiskBelowIs(disk, n - 1);
    }
  }

  lemma {:induction false} AllVerifyIs(disk: map<int, Bytes>, hashes: seq<Digest>, sha1: HashFunction, n: nat)
    requires n <= |hashes|
    ensures AllVerify(disk, hashes, sha1, n) <==> forall i: nat :: i < n && i in disk ==> sha1(disk[i]) == hashes[i]
  {
    if n > 0 {
      AllVerifyIs(disk, hashes, sha1, n - 1);
    }
  }

  /** A download is started once everything on disk is verified and marked. */
  lemma {:induction false} StartedIff(c: Config, disk: map<int, Bytes>, s: State, sha1: HashFunction)
    requires forall i :: i in disk ==> 0 <= i < c.N()
    requires s == Fresh(disk).(held := s.held)
    requires AllVerify(disk, c.m.hashes, sha1, c.N()) ==> s.held == OnDiskBelow(disk, c.N())
    ensures Downloads.Started(c, s, sha1) <==> AllVerify(disk, c.m.hashes, sha1, c.N())
  {
    AllVerifyIs(disk, c.m.hashes, sha1, c.N());
    OnDiskBelowIs(disk, c.N());
    if Downloads.Started(c, s, sha1) {
      forall i: nat | i < c.N() && i in disk ensures sha1(disk[i]) == c.m.hashes[i] {
        assert i in s.disk;
      }
    }
  }

  /** The pieces below n that are on disk, and whether they all have the listed hash. */
  ghost function OnDiskBelow(disk: map<int, Bytes>, n: nat): set<nat>
  {
    if n == 0 then {} else OnDiskBelow(disk, n - 1) + if n - 1 in disk then {n - 1} else {}
  }

  ghost predicate AllVerify(disk: map<int, Bytes>, hashes: seq<Digest>, sha1: HashFunction, n: nat)
    requires n <= |hashes|
  {
    n > 0 ==> AllVerify(disk, hashes, sha1, n - 1) && (n - 1 in disk ==> sha1(disk[n - 1]) == hashes[n - 1])
  }

  lemma {:induction false} VerifyPrefix(disk: map<int, Bytes>, hashes: seq<Digest>, sha1: HashFunction, k: nat, n: nat)
    requires k <= n <= |hashes| && AllVerify(disk, hashes, sha1, n)
    ensures AllVerify(disk, hashes, sha1, k)
  {
    if k < n {
      VerifyPrefix(disk, hashes, sha1, k, n - 1);
    }
  }

  /** The indices at which the given hashes are found. */
  ghost function Lookups(m: Meta, hashes: seq<Digest>): set<nat>
  {
    if hashes == [] then {}
    else
      var i := PieceIndex(m.hashes, hashes[|hashes| - 1]);
      Lookups(m, hashes[..|hashes| - 1]) + if i >= 0 then {i} else {}
  }

  predicate Selects(files: seq<File>, fileIdx: seq<int>)
  {
    forall k :: 0 <= k < |fileIdx| ==> 0 <= fileIdx[k] < |files|
  }

  ghost function Wanted(m: Meta, files: seq<File>, fileIdx: seq<int>): set<nat>
    requires Selects(files, fileIdx)
  {
    if fileIdx == [] then {}
    else Wanted(m, files, fileIdx[..|fileIdx| - 1]) + Lookups(m, files[fileIdx[|fileIdx| - 1]].pieces)
  }

  /** The indices that the selection looks up: no others are taken off the ignored ones. */
  lemma {:induction false} WantedAre(m: Meta, files: seq<File>, fileIdx: seq<int>, x: nat)
    requires Selects(files, fileIdx)
    ensures x in Wanted(m, files, fileIdx)
       <==> exists i, h :: i in fileIdx && h in files[i].pieces && PieceIndex(m.hashes, h) == x
  {
    if fileIdx != [] {
      var n := |fileIdx| - 1;
      Snoc(fileIdx);
      WantedAre(m, files, fileIdx[..n], x);
      LookupsAre(m, files[fileIdx[n]].pieces, x);
      if x in Wanted(m, files, fileIdx[..n]) {
        var i, h :| i in fileIdx[..n] && h in files[i].pieces && PieceIndex(m.hashes, h) == x;
        assert i in fileIdx;
      }
    }
  }

  lemma {:induction false} LookupsAre(m: Meta, hashes: seq<Digest>, x: nat)
    ensures x in Lookups(m, hashes) <==> exists h :: h in hashes && PieceIndex(m.hashes, h) == x
  {
    if hashes != [] {
      Snoc(hashes);
      LookupsAre(m, hashes[..|hashes| - 1], x);
    }
  }

  lemma {:induction false} LookupIn(m: Meta, hashes: seq<Digest>, h: Digest)
    requires h in hashes && PieceIndex(m.hashes, h) >= 0
    ensures PieceIndex(m.hashes, h) in Lookups(m, hashes)
  {
    if hashes[|hashes| - 1] != h {
      LookupIn(m, hashes[..|hashes| - 1], h);
    }
  }

  lemma {:induction false} WantedIn(m: Meta, files: seq<File>, fileIdx: seq<int>, i: nat, x: nat)
    requires Selects(files, fileIdx) && i in fileIdx && x in Lookups(m, files[i].pieces)
    ensures x in Wanted(m, files, fileIdx)
  {
    if fileIdx[|fileIdx| - 1] != i {
      WantedIn(m, files, fileIdx[..|fileIdx| - 1], i, x);
    }
  }

  /** A partial download is enough: once every piece that WithFiles does not ignore is held, every
      selected file is done, even when the torrent lists one hash several times. */
  lemma {:induction false} PartialIsEnough(m: Meta, files: seq<File>, fileIdx: seq<int>, held: seq<bv8>, i: nat)
    requires m.Valid() && m.InRange() && m.LaidOut(files)
    requires Selects(files, fileIdx) && i in fileIdx
    requires forall x: nat :: x < |m.hashes| && x !in Below(|m.hashes|) - Wanted(m, files, fileIdx) ==>
        Bits.Get(held, x)
    ensures Assembler.IsDone(m, files[i], held)
  {
    forall h | h in files[i].pieces ensures PieceIndex(m.hashes, h) >= 0 && Bits.Get(held, PieceIndex(m.hashes, h)) {
      assert h in m.hashes;
      PieceIndexIsFirst(m.hashes, h, 0);
      LookupIn(m, files[i].pieces, h);
      WantedIn(m, files, fileIdx, i, PieceIndex(m.hashes, h));
    }
  }

  function Max0(n: int): nat
  {
    if n < 0 then 0 else n
  }
}
