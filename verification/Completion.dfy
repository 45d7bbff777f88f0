/** From every state that a run with genuine blocks reaches, some more of the same leads to all wanted pieces being
    held and saved. Pieces are started at any time here, as an AllowedFast message from a peer does; what the loop of
    the client can do alone is in module Loops. */
module Completion {
  import opened Basics
  import opened Torrents
  import opened Workers
  import opened Transfers
  import opened Downloads
  import opened Outcomes

  /** What a download starts from. */
  ghost predicate Given(c: Config, stream: Bytes, s0: State, sha1: HashFunction)
  {
    && c.m.Valid() && Describes(c.m, stream, sha1) && Started(c, s0, sha1) && LastPieceSafe(c, s0)
    && CollisionFree(sha1, PieceSet(c.m, stream) + s0.disk.Values)
  }

  /** The steps lead to s, with genuine blocks only. */
  ghost predicate Leads(c: Config, stream: Bytes, s0: State, es: seq<Event>, s: State, sha1: HashFunction)
    requires c.m.Valid()
  {
    Trace(c, s0, es, sha1) == Some(s) && GenuineRun(c, stream, es)
  }

  lemma {:induction false} LeadsOn(c: Config, stream: Bytes, s0: State, es: seq<Event>, s: State, more: seq<Event>,
                                   t: State, sha1: HashFunction)
    requires c.m.Valid() && Leads(c, stream, s0, es, s, sha1) && Leads(c, stream, s, more, t, sha1)
    ensures Leads(c, stream, s0, es + more, t, sha1)
  {
    TraceOn(c, s0, es, s, more, sha1);
    GenuineAppend(c, stream, es, more);
  }

  lemma {:induction false} LeadsAfter(c: Config, stream: Bytes, s0: State, es: seq<Event>, s: State, more: seq<Event>,
                                      t: State, sha1: HashFunction)
    requires c.m.Valid() && Leads(c, stream, s0, es, s, sha1) && Leads(c, stream, s0, es + more, t, sha1)
    ensures Leads(c, stream, s, more, t, sha1)
  {
    TraceOn(c, s0, es, s, more, sha1);
    forall k | 0 <= k < |more| ensures GenuineEvent(c, stream, more[k]) {
      assert more[k] == (es + more)[|es| + k];
    }
  }

  lemma {:induction false} GenuineAppend(c: Config, stream: Bytes, es: seq<Event>, more: seq<Event>)
    requires GenuineRun(c, stream, es) && GenuineRun(c, stream, more)
    ensures GenuineRun(c, stream, es + more)
  {
    forall k | 0 <= k < |es + more| ensures GenuineEvent(c, stream, (es + more)[k]) {
      if k < |es| {
        assert (es + more)[k] == es[k];
      } else {
        assert (es + more)[k] == more[k - |es|];
      }
    }
  }

  /** What is known of every state in between. */
  ghost predicate Kept(c: Config, stream: Bytes, s0: State, s: State)
    requires c.m.Valid()
  {
    GenuineState(c, stream, s) && InFlight(c, s0, s)
  }

  lemma {:induction false} LeadsKeeps(c: Config, stream: Bytes, s0: State, es: seq<Event>, s: State, sha1: HashFunction)
    requires Given(c, stream, s0, sha1) && Leads(c, stream, s0, es, s, sha1)
    ensures Kept(c, stream, s0, s)
  {
    GenuineRunKeeps(c, stream, s0, es, sha1);
    RunKeeps(c, s0, es, sha1);
  }

  // ----- one more piece -----

  ghost function Wanted(c: Config, s: State): set<nat>
  {
    Below(c.N()) - c.ignored - s.held
  }

  lemma {:induction false} DeliveryIsGenuine(c: Config, stream: Bytes, i: nat, msgs: seq<(nat, Bytes)>)
    requires Transfers.AllBlocks(PieceOf(c.m.pieceLength, stream, i), msgs)
    ensures GenuineRun(c, stream, Delivery(i, msgs))
  {
    if msgs != [] {
      var n := |msgs| - 1;
      DeliveryIsGenuine(c, stream, i, msgs[..n]);
      GenuineAppend(c, stream, Delivery(i, msgs[..n]), [Block(i, msgs[n].0, msgs[n].1)]);
    }
  }

  /** The worker of piece i is given what it misses. */
  lemma {:induction false} Supply(c: Config, stream: Bytes, s: State, sha1: HashFunction, i: nat)
    requires c.m.Valid() && i in s.workers && GenuineWorker(c, stream, s, i)
    ensures var piece := PieceOf(c.m.pieceLength, stream, i);
            var q := Feed(|piece|, s.workers[i], AllOf(piece));
            Leads(c, stream, s, Delivery(i, AllOf(piece)), WithProgress(s, i, q), sha1)
                && IsComplete(c.WorkerLength(i), q.subpieces)
  {
    var piece := PieceOf(c.m.pieceLength, stream, i);
    Deliver(c, s, sha1, i, AllOf(piece));
    AllOfCompletes(piece, s.workers[i]);
    BlocksAt(piece, Blocks(|piece|));
    DeliveryIsGenuine(c, stream, i, AllOf(piece));
  }

  /** One step with nothing but a genuine block in it. */
  lemma {:induction false} OneGenuine(c: Config, stream: Bytes, s: State, e: Event, sha1: HashFunction)
    requires c.m.Valid() && Enabled(c, s, e) && GenuineEvent(c, stream, e)
    ensures Leads(c, stream, s, [] + [e], Next(c, s, e, sha1), sha1)
  {
    TraceOne(c, s, [], e, s, sha1);
  }

  lemma {:induction false} Spawned(c: Config, s: State, i: nat, sha1: HashFunction)
    requires c.m.Valid() && Enabled(c, s, Spawn(i))
    ensures var t := Next(c, s, Spawn(i), sha1); i in t.workers && t.workers[i] == IDLE && i < c.N()
  {
  }

  /** A worker is started for piece i. */
  lemma {:induction false} Start(c: Config, stream: Bytes, s: State, sha1: HashFunction, i: nat)
    requires c.m.Valid() && Enabled(c, s, Spawn(i)) && |PieceOf(c.m.pieceLength, stream, i)| == c.WorkerLength(i) > 0
    ensures var t := Next(c, s, Spawn(i), sha1);
            Leads(c, stream, s, [] + [Spawn(i)], t, sha1) && i in t.workers && GenuineWorker(c, stream, t, i)
  {
    OneGenuine(c, stream, s, Spawn(i), sha1);
    Spawned(c, s, i, sha1);
    IdleIsGenuine(c, stream, Next(c, s, Spawn(i), sha1), i);
  }

  lemma {:induction false} IdleIsGenuine(c: Config, stream: Bytes, s: State, i: nat)
    requires c.m.Valid() && i in s.workers && s.workers[i] == IDLE && i < c.N()
    requires |PieceOf(c.m.pieceLength, stream, i)| == c.WorkerLength(i) > 0
    ensures GenuineWorker(c, stream, s, i)
  {
  }

  /** The worker of piece i, with a complete piece, is cleared at the next tick. */
  lemma {:induction false} Clear(c: Config, stream: Bytes, s: State, sha1: HashFunction, i: nat)
    requires c.m.Valid() && i in s.workers && IsComplete(c.WorkerLength(i), s.workers[i].subpieces)
    ensures var t := Next(c, s, Tick, sha1);
            Leads(c, stream, s, [] + [Tick], t, sha1) && s.held + {i} <= t.held
  {
    OneGenuine(c, stream, s, Tick, sha1);
    assert i in Finished(c, s);
  }

  lemma {:induction false} WantedIsSafe(c: Config, stream: Bytes, s0: State, s: State, sha1: HashFunction, i: nat)
    requires Given(c, stream, s0, sha1) && Kept(c, stream, s0, s) && i in Wanted(c, s)
    ensures |PieceOf(c.m.pieceLength, stream, i)| == c.WorkerLength(i) > 0
  {
    WorkerLengthRight(c, stream, i);
  }

  /** Complete the piece of a worker. */
  lemma {:induction false} FinishWorker(c: Config, stream: Bytes, s: State, sha1: HashFunction, i: nat)
    returns (more: seq<Event>, t: State)
    requires c.m.Valid() && i in s.workers && GenuineWorker(c, stream, s, i)
    ensures Leads(c, stream, s, more, t, sha1) && s.held + {i} <= t.held
  {
    var piece := PieceOf(c.m.pieceLength, stream, i);
    var s1 := WithProgress(s, i, Feed(|piece|, s.workers[i], AllOf(piece)));
    Supply(c, stream, s, sha1, i);
    Clear(c, stream, s1, sha1, i);
    t := Next(c, s1, Tick, sha1);
    more := Delivery(i, AllOf(piece)) + ([] + [Tick]);
    LeadsOn(c, stream, s, Delivery(i, AllOf(piece)), s1, [] + [Tick], t, sha1);
  }

  /** One more wanted piece: that of a worker, if there is one, or that of a new one. */
  lemma {:induction false} OneMore(c: Config, stream: Bytes, s0: State, s: State, sha1: HashFunction)
    returns (more: seq<Event>, t: State)
    requires Given(c, stream, s0, sha1) && Kept(c, stream, s0, s) && Wanted(c, s) != {}
    ensures Leads(c, stream, s, more, t, sha1) && Wanted(c, t) < Wanted(c, s)
  {
    if i: nat :| i in s.workers {
      assert GenuineWorker(c, stream, s, i) && i in Wanted(c, s);
      more, t := FinishWorker(c, stream, s, sha1, i);
      assert i !in Wanted(c, t);
    } else {
      var i: nat :| i in Wanted(c, s);
      WantedIsSafe(c, stream, s0, s, sha1, i);
      assert |s.workers| == 0;
      Start(c, stream, s, sha1, i);
      var s1 := Next(c, s, Spawn(i), sha1);
      var rest;
      rest, t := FinishWorker(c, stream, s1, sha1, i);
      more := [] + [Spawn(i)] + rest;
      LeadsOn(c, stream, s, [] + [Spawn(i)], s1, rest, t, sha1);
      assert i !in Wanted(c, t);
    }
  }

  // ----- all of them -----

  lemma {:induction false} AllWanted(c: Config, stream: Bytes, s0: State, es: seq<Event>, s: State, sha1: HashFunction)
    returns (more: seq<Event>, t: State)
    requires Given(c, stream, s0, sha1) && Leads(c, stream, s0, es, s, sha1)
    ensures Leads(c, stream, s0, es + more, t, sha1) && Wanted(c, t) == {}
    decreases Wanted(c, s)
  {
    if Wanted(c, s) == {} {
      more, t := [], s;
      NilRight(es);
    } else {
      LeadsKeeps(c, stream, s0, es, s, sha1);
      var step, s1 := OneMore(c, stream, s0, s, sha1);
      LeadsOn(c, stream, s0, es, s, step, s1, sha1);
      var rest;
      rest, t := AllWanted(c, stream, s0, es + step, s1, sha1);
      more := step + rest;
      Associate(es, step, rest);
    }
  }

  /** One outstanding save is carried out. */
  lemma {:induction false} SaveOne(c: Config, stream: Bytes, s: State, sha1: HashFunction, i: nat)
    requires c.m.Valid() && GenuineState(c, stream, s) && i in s.pending
    ensures var e := Save(i, PieceOf(c.m.pieceLength, stream, i));
            Enabled(c, s, e) && Leads(c, stream, s, [] + [e], Next(c, s, e, sha1), sha1)
            && Next(c, s, e, sha1).held == s.held && Next(c, s, e, sha1).pending.Keys < s.pending.Keys
  {
    var piece := PieceOf(c.m.pieceLength, stream, i);
    WholeWhenDone(piece, Progress(s.pending[i], true));
    var e := Save(i, piece);
    OneGenuine(c, stream, s, e, sha1);
    assert i !in Next(c, s, e, sha1).pending;
  }

  lemma {:induction false} AllSaved(c: Config, stream: Bytes, s0: State, es: seq<Event>, s: State, sha1: HashFunction)
    returns (more: seq<Event>, t: State)
    requires Given(c, stream, s0, sha1) && Leads(c, stream, s0, es, s, sha1)
    ensures Leads(c, stream, s0, es + more, t, sha1) && t.held == s.held && t.pending == map[]
    decreases s.pending.Keys
  {
    if i: nat :| i in s.pending {
      LeadsKeeps(c, stream, s0, es, s, sha1);
      SaveOne(c, stream, s, sha1, i);
      var e := Save(i, PieceOf(c.m.pieceLength, stream, i));
      LeadsOn(c, stream, s0, es, s, [] + [e], Next(c, s, e, sha1), sha1);
      var rest;
      rest, t := AllSaved(c, stream, s0, es + ([] + [e]), Next(c, s, e, sha1), sha1);
      more := [] + [e] + rest;
      Associate(es, [] + [e], rest);
    } else {
      more, t := [], s;
      NilRight(es);
      assert s.pending.Keys == {};
    }
  }

  /** From every state that a run with genuine blocks has reached, whatever workers are on their way and however
      many may be, it can go on to a state in which every piece that is not ignored is held and no save is
      outstanding; provided that peers have pieces started where the loop of the client does not. */
  lemma {:induction false} CanComplete(c: Config, stream: Bytes, s0: State, es: seq<Event>, s: State,
                                       sha1: HashFunction)
    returns (more: seq<Event>, t: State)
    requires Given(c, stream, s0, sha1) && Leads(c, stream, s0, es, s, sha1)
    ensures Leads(c, stream, s0, es + more, t, sha1)
    ensures Below(c.N()) - c.ignored <= t.held && t.pending == map[]
  {
    var wanted, s1 := AllWanted(c, stream, s0, es, s, sha1);
    NothingWanted(c, s1);
    var saves;
    saves, t := AllSaved(c, stream, s0, es + wanted, s1, sha1);
    more := wanted + saves;
    Associate(es, wanted, saves);
  }

  lemma {:induction false} NothingWanted(c: Config, s: State)
    requires Wanted(c, s) == {}
    ensures Below(c.N()) - c.ignored <= s.held
  {
    forall i | i in Below(c.N()) - c.ignored ensures i in s.held {
      assert i !in Wanted(c, s);
    }
  }
}
