/** The loop of download (internal/data/client.go, lines 179-234), which starts a piece only at a tick, and only while
    fewer than maxPending are in flight. Everything else that starts pieces is a message from a peer. */
module Loops {
  import opened Basics
  import opened Torrents
  import opened Workers
  import opened Transfers
  import opened Downloads
  import opened Outcomes
  import opened Completion

  /** The loop takes in a message, or it beats; in between, workers save and peers may have pieces started. */
  datatype Turn = Step(e: Event) | Beat

  /** What nextNPieces may pick from. */
  ghost function Candidates(c: Config, s: State): set<nat>
  {
    Wanted(c, s) - s.workers.Keys
  }

  ghost function Least(s: set<nat>): (r: nat)
    requires s != {}
    ensures r in s && forall x :: x in s ==> r <= x
  {
    var x :| x in s;
    if s == {x} then x
    else
      assert s == (s - {x}) + {x};
      var r := Least(s - {x});
      if x < r then x else r
  }

  ghost predicate HasRoom(c: Config, s: State)
  {
    |s.workers| < c.maxPending && Candidates(c, s) != {}
  }

  /** The events of a beat: the completed workers are cleared; then, if there is room, the first candidate is
      started. */
  ghost function OnBeat(c: Config, s: State, sha1: HashFunction): seq<Event>
    requires c.m.Valid()
  {
    var t := Next(c, s, Tick, sha1);
    if HasRoom(c, t) then [] + [Tick] + [Spawn(Least(Candidates(c, t)))] else [] + [Tick]
  }

  ghost function AfterBeat(c: Config, s: State, sha1: HashFunction): State
    requires c.m.Valid()
  {
    var t := Next(c, s, Tick, sha1);
    if HasRoom(c, t) then Next(c, t, Spawn(Least(Candidates(c, t))), sha1) else t
  }

  ghost predicate Possible(c: Config, s: State, turn: Turn)
    requires c.m.Valid()
  {
    turn.Step? ==> !turn.e.Tick? && Enabled(c, s, turn.e)
  }

  ghost function After(c: Config, s: State, turn: Turn, sha1: HashFunction): State
    requires c.m.Valid() && Possible(c, s, turn)
  {
    match turn
    case Step(e) => Next(c, s, e, sha1)
    case Beat => AfterBeat(c, s, sha1)
  }

  ghost function Events(c: Config, s: State, turn: Turn, sha1: HashFunction): seq<Event>
    requires c.m.Valid()
  {
    match turn
    case Step(e) => [] + [e]
    case Beat => OnBeat(c, s, sha1)
  }

  /** Where the turns lead to, if each of them is possible. */
  ghost function Play(c: Config, s: State, turns: seq<Turn>, sha1: HashFunction): Option<State>
    requires c.m.Valid()
  {
    if turns == [] then Some(s)
    else
      match Play(c, s, turns[..|turns| - 1], sha1)
      case None => None
      case Some(t) => if Possible(c, t, turns[|turns| - 1]) then Some(After(c, t, turns[|turns| - 1], sha1)) else None
  }

  /** The same turns, as events. */
  ghost function Unrolled(c: Config, s: State, turns: seq<Turn>, sha1: HashFunction): seq<Event>
    requires c.m.Valid()
  {
    if turns == [] then []
    else
      var before := turns[..|turns| - 1];
      Unrolled(c, s, before, sha1) +
      match Play(c, s, before, sha1)
      case None => []
      case Some(t) => Events(c, t, turns[|turns| - 1], sha1)
  }

  /** All blocks that come in are genuine. */
  ghost predicate GenuineTurns(c: Config, stream: Bytes, turns: seq<Turn>)
  {
    forall k :: 0 <= k < |turns| && turns[k].Step? ==> GenuineEvent(c, stream, turns[k].e)
  }

  /** The loop is left alone: no peer has a piece started. */
  ghost predicate Alone(turns: seq<Turn>)
  {
    forall k :: 0 <= k < |turns| && turns[k].Step? ==> !turns[k].e.Spawn?
  }

  /** The turns lead from s to t, with genuine blocks only. */
  ghost predicate Plays(c: Config, stream: Bytes, s: State, turns: seq<Turn>, t: State, sha1: HashFunction)
    requires c.m.Valid()
  {
    Play(c, s, turns, sha1) == Some(t) && GenuineTurns(c, stream, turns)
  }

  lemma {:induction false} BeatIsTrace(c: Config, s: State, sha1: HashFunction)
    requires c.m.Valid()
    ensures Trace(c, s, OnBeat(c, s, sha1), sha1) == Some(AfterBeat(c, s, sha1))
  {
    var t := Next(c, s, Tick, sha1);
    TraceOne(c, s, [], Tick, s, sha1);
    if HasRoom(c, t) {
      TraceOne(c, s, [] + [Tick], Spawn(Least(Candidates(c, t))), t, sha1);
    }
  }

  lemma {:induction false} TurnIsTrace(c: Config, s: State, turn: Turn, sha1: HashFunction)
    requires c.m.Valid() && Possible(c, s, turn)
    ensures Trace(c, s, Events(c, s, turn, sha1), sha1) == Some(After(c, s, turn, sha1))
  {
    match turn
    case Step(e) => TraceOne(c, s, [], e, s, sha1);
    case Beat => BeatIsTrace(c, s, sha1);
  }

  /** The loop takes no step that the downloader does not have. */
  lemma {:induction false} PlayIsTrace(c: Config, s: State, turns: seq<Turn>, t: State, sha1: HashFunction)
    requires c.m.Valid() && Play(c, s, turns, sha1) == Some(t)
    ensures Trace(c, s, Unrolled(c, s, turns, sha1), sha1) == Some(t)
  {
    if turns != [] {
      var before, turn := turns[..|turns| - 1], turns[|turns| - 1];
      var s1 := Play(c, s, before, sha1).value;
      PlayIsTrace(c, s, before, s1, sha1);
      TurnIsTrace(c, s1, turn, sha1);
      TraceOn(c, s, Unrolled(c, s, before, sha1), s1, Events(c, s1, turn, sha1), sha1);
    }
  }

  lemma {:induction false} UnrolledIsGenuine(c: Config, stream: Bytes, s: State, turns: seq<Turn>, t: State,
                                             sha1: HashFunction)
    requires c.m.Valid() && Plays(c, stream, s, turns, t, sha1)
    ensures Leads(c, stream, s, Unrolled(c, s, turns, sha1), t, sha1)
  {
    PlayIsTrace(c, s, turns, t, sha1);
    if turns != [] {
      var before, turn := turns[..|turns| - 1], turns[|turns| - 1];
      var s1 := Play(c, s, before, sha1).value;
      UnrolledIsGenuine(c, stream, s, before, s1, sha1);
      EventsAreGenuine(c, stream, s1, turn, sha1);
      GenuineAppend(c, stream, Unrolled(c, s, before, sha1), Events(c, s1, turn, sha1));
    }
  }

  lemma {:induction false} EventsAreGenuine(c: Config, stream: Bytes, s: State, turn: Turn, sha1: HashFunction)
    requires c.m.Valid() && (turn.Step? ==> GenuineEvent(c, stream, turn.e))
    ensures GenuineRun(c, stream, Events(c, s, turn, sha1))
  {
  }

  /** Where a run has led to, the turns lead on. */
  lemma {:induction false} PlayLeads(c: Config, stream: Bytes, s0: State, es: seq<Event>, s: State, turns: seq<Turn>,
                                     t: State, sha1: HashFunction)
    requires c.m.Valid() && Leads(c, stream, s0, es, s, sha1) && Plays(c, stream, s, turns, t, sha1)
    ensures Leads(c, stream, s0, es + Unrolled(c, s, turns, sha1), t, sha1)
  {
    UnrolledIsGenuine(c, stream, s, turns, t, sha1);
    LeadsOn(c, stream, s0, es, s, Unrolled(c, s, turns, sha1), t, sha1);
  }

  // ----- a beat, piece by piece -----

  /** The worker of piece i has as many blocks, counted at full size, as it was told that its piece is long. */
  predicate HasAll(c: Config, s: State, i: nat)
    requires c.m.Valid()
  {
    i in s.workers && 16384 * |s.workers[i].subpieces| >= c.WorkerLength(i)
  }

  /** Piece i is missing, wanted, and in nobody's hands once the completed workers are gone. */
  predicate IsLeft(c: Config, s: State, i: nat)
    requires c.m.Valid()
  {
    i < |c.m.hashes| && i !in s.held && i !in c.ignored && i !in s.workers
  }

  /** What a beat does: completed workers go and their pieces are held from then on. */
  lemma {:induction false} BeatHolds(c: Config, s: State, sha1: HashFunction, i: nat)
    requires c.m.Valid()
    ensures var t := AfterBeat(c, s, sha1);
            && (i in t.held <==> i in s.held || HasAll(c, s, i))
            && (i in s.workers && !HasAll(c, s, i) ==> i in t.workers && t.workers[i] == s.workers[i])
            && t.pending == s.pending && t.disk == s.disk && t.rejected == s.rejected
            && t.announced[i] == s.announced[i] + if HasAll(c, s, i) then 1 else 0
  {
    TickHolds(c, s, sha1, i);
    SpawnKeeps(c, Next(c, s, Tick, sha1), AfterBeat(c, s, sha1), sha1, i);
  }

  lemma {:induction false} TickHolds(c: Config, s: State, sha1: HashFunction, i: nat)
    requires c.m.Valid()
    ensures var t := Next(c, s, Tick, sha1);
            && (i in t.held <==> i in s.held || HasAll(c, s, i))
            && (i in s.workers && !HasAll(c, s, i) ==> i in t.workers && t.workers[i] == s.workers[i])
            && t.pending == s.pending && t.disk == s.disk && t.rejected == s.rejected
            && t.announced[i] == s.announced[i] + if HasAll(c, s, i) then 1 else 0
  {
    assert i in Finished(c, s) <==> HasAll(c, s, i);
  }

  lemma {:induction false} SpawnKeeps(c: Config, s: State, t: State, sha1: HashFunction, i: nat)
    requires c.m.Valid()
    requires t == if HasRoom(c, s) then Next(c, s, Spawn(Least(Candidates(c, s))), sha1) else s
    ensures t.held == s.held && t.pending == s.pending && t.disk == s.disk && t.rejected == s.rejected
    ensures t.announced == s.announced && (i in s.workers ==> i in t.workers && t.workers[i] == s.workers[i])
  {
  }

  /** One new worker, for the first piece that is left, comes exactly if there is such a piece and fewer than
      maxPending workers stay. */
  lemma {:induction false} BeatStartsFirst(c: Config, s: State, sha1: HashFunction, i: nat)
    requires c.m.Valid()
    ensures var t := AfterBeat(c, s, sha1);
            i in t.workers && (i !in s.workers || HasAll(c, s, i))
            <==> Staying(c, s) < c.maxPending && IsLeft(c, s, i) && forall j: nat :: j < i ==> !IsLeft(c, s, j)
    ensures i in AfterBeat(c, s, sha1).workers && (i !in s.workers || HasAll(c, s, i)) ==>
      AfterBeat(c, s, sha1).workers[i] == Progress(map[], false)
  {
    var t := Next(c, s, Tick, sha1);
    StayingAre(c, s, sha1);
    LeftAre(c, s, sha1);
    if i !in s.workers || HasAll(c, s, i) {
      assert i in Finished(c, s) <==> HasAll(c, s, i);
      NewWorker(c, t, AfterBeat(c, s, sha1), sha1, i);
    } else {
      assert !IsLeft(c, s, i);
    }
  }

  lemma {:induction false} NewWorker(c: Config, s: State, t: State, sha1: HashFunction, i: nat)
    requires c.m.Valid() && i !in s.workers
    requires t == if HasRoom(c, s) then Next(c, s, Spawn(Least(Candidates(c, s))), sha1) else s
    ensures i in t.workers <==>
      |s.workers| < c.maxPending && i in Candidates(c, s) && forall j: nat :: j < i ==> j !in Candidates(c, s)
    ensures i in t.workers ==> t.workers[i] == Progress(map[], false)
  {
    if HasRoom(c, s) {
      var j := Least(Candidates(c, s));
      assert i in t.workers <==> i == j;
    }
  }

  /** How many workers have not got all their blocks. */
  ghost function Staying(c: Config, s: State): nat
    requires c.m.Valid()
  {
    |set i | i in s.workers && !HasAll(c, s, i)|
  }

  lemma {:induction false} StayingAre(c: Config, s: State, sha1: HashFunction)
    requires c.m.Valid()
    ensures |Next(c, s, Tick, sha1).workers| == Staying(c, s)
  {
    var t := Next(c, s, Tick, sha1);
    assert t.workers.Keys == set i | i in s.workers && !HasAll(c, s, i);
    assert |t.workers| == |t.workers.Keys|;
  }

  lemma {:induction false} LeftAre(c: Config, s: State, sha1: HashFunction)
    requires c.m.Valid()
    ensures forall i: nat :: i in Candidates(c, Next(c, s, Tick, sha1)) <==> IsLeft(c, s, i)
  {
    var t := Next(c, s, Tick, sha1);
    forall i: nat ensures i in Candidates(c, t) <==> IsLeft(c, s, i) {
      assert i in t.held <==> i in s.held || HasAll(c, s, i);
      assert i in t.workers <==> i in s.workers && !HasAll(c, s, i);
      assert i in Below(c.N()) <==> i < c.N();
    }
  }

  // ----- playing on -----

  lemma {:induction false} PlayOne(c: Config, stream: Bytes, s: State, turn: Turn, sha1: HashFunction)
    requires c.m.Valid() && Possible(c, s, turn) && (turn.Step? ==> GenuineEvent(c, stream, turn.e))
    ensures Plays(c, stream, s, [turn], After(c, s, turn, sha1), sha1)
  {
    assert [turn][..0] == [];
  }

  lemma {:induction false} PlayOn(c: Config, s: State, turns: seq<Turn>, t: State, more: seq<Turn>, sha1: HashFunction)
    requires c.m.Valid() && Play(c, s, turns, sha1) == Some(t)
    ensures Play(c, s, turns + more, sha1) == Play(c, t, more, sha1)
  {
    if more == [] {
      NilRight(turns);
    } else {
      var n := |more| - 1;
      PlayOn(c, s, turns, t, more[..n], sha1);
      Snoc(more);
      Associate(turns, more[..n], [more[n]]);
      DropLast(turns + more[..n], more[n]);
    }
  }

  lemma {:induction false} PlaysOn(c: Config, stream: Bytes, s: State, turns: seq<Turn>, s1: State, more: seq<Turn>,
                                   t: State, sha1: HashFunction)
    requires c.m.Valid() && Plays(c, stream, s, turns, s1, sha1) && Plays(c, stream, s1, more, t, sha1)
    requires Alone(turns) && Alone(more)
    ensures Plays(c, stream, s, turns + more, t, sha1) && Alone(turns + more)
  {
    PlayOn(c, s, turns, s1, more, sha1);
  }

  /** Messages with blocks, as turns. */
  function Turns(es: seq<Event>): (r: seq<Turn>)
    ensures |r| == |es| && forall k :: 0 <= k < |es| ==> r[k] == Step(es[k])
  {
    seq(|es|, k requires 0 <= k < |es| => Step(es[k]))
  }

  lemma {:induction false} TurnsLead(c: Config, stream: Bytes, s: State, es: seq<Event>, t: State, sha1: HashFunction)
    requires c.m.Valid() && Leads(c, stream, s, es, t, sha1) && forall e :: e in es ==> e.Block? || e.Save?
    ensures Plays(c, stream, s, Turns(es), t, sha1) && Alone(Turns(es))
  {
    TurnsPlay(c, s, es, t, sha1);
  }

  lemma {:induction false} TurnsPlay(c: Config, s: State, es: seq<Event>, t: State, sha1: HashFunction)
    requires c.m.Valid() && Trace(c, s, es, sha1) == Some(t) && forall e :: e in es ==> !e.Tick?
    ensures Play(c, s, Turns(es), sha1) == Some(t)
  {
    if es != [] {
      var n := |es| - 1;
      TurnsPlay(c, s, es[..n], Trace(c, s, es[..n], sha1).value, sha1);
      assert Turns(es)[..n] == Turns(es[..n]);
    }
  }

  lemma {:induction false} DeliveryIsBlocks(i: nat, msgs: seq<(nat, Bytes)>)
    ensures forall e :: e in Delivery(i, msgs) ==> e.Block?
  {
    if msgs != [] {
      DeliveryIsBlocks(i, msgs[..|msgs| - 1]);
    }
  }

  // ----- can the loop go on to the end? -----

  /** The loop may start pieces, or needs not to. */
  ghost predicate Unhindered(c: Config, s: State)
  {
    c.maxPending > 0 || Wanted(c, s) <= s.workers.Keys
  }

  /** Complete the piece of a worker. */
  lemma {:induction false} ServeOne(c: Config, stream: Bytes, s0: State, s: State, sha1: HashFunction, i: nat)
    returns (turns: seq<Turn>, t: State)
    requires c.m.Valid() && Kept(c, stream, s0, s) && i in s.workers && Unhindered(c, s)
    ensures Plays(c, stream, s, turns, t, sha1) && Alone(turns)
    ensures Wanted(c, t) < Wanted(c, s) && Unhindered(c, t)
  {
    assert GenuineWorker(c, stream, s, i) && i in Wanted(c, s);
    var piece := PieceOf(c.m.pieceLength, stream, i);
    var s1 := WithProgress(s, i, Feed(|piece|, s.workers[i], AllOf(piece)));
    Supply(c, stream, s, sha1, i);
    DeliveryIsBlocks(i, AllOf(piece));
    TurnsLead(c, stream, s, Delivery(i, AllOf(piece)), s1, sha1);
    PlayOne(c, stream, s1, Beat, sha1);
    t := AfterBeat(c, s1, sha1);
    turns := Turns(Delivery(i, AllOf(piece))) + [Beat];
    PlaysOn(c, stream, s, Turns(Delivery(i, AllOf(piece))), s1, [Beat], t, sha1);
    BeatGains(c, s1, sha1, i);
    assert s1.workers.Keys == s.workers.Keys;
  }

  /** A beat clears the completed workers; the others stay. */
  lemma {:induction false} BeatGains(c: Config, s: State, sha1: HashFunction, i: nat)
    requires c.m.Valid() && i in s.workers && IsComplete(c.WorkerLength(i), s.workers[i].subpieces)
    ensures var t := AfterBeat(c, s, sha1);
            && s.held + {i} <= t.held
            && (Wanted(c, s) <= s.workers.Keys ==> Wanted(c, t) <= t.workers.Keys)
  {
    assert i in Finished(c, s);
  }

  /** One more wanted piece: that of a worker, or one that a beat starts. */
  lemma {:induction false} ServeMore(c: Config, stream: Bytes, s0: State, es: seq<Event>, s: State, sha1: HashFunction)
    returns (turns: seq<Turn>, t: State)
    requires Given(c, stream, s0, sha1) && Leads(c, stream, s0, es, s, sha1) && Wanted(c, s) != {} && Unhindered(c, s)
    ensures Plays(c, stream, s, turns, t, sha1) && Alone(turns)
    ensures Wanted(c, t) < Wanted(c, s) && Unhindered(c, t)
  {
    LeadsKeeps(c, stream, s0, es, s, sha1);
    if i: nat :| i in s.workers {
      turns, t := ServeOne(c, stream, s0, s, sha1, i);
    } else {
      assert s.workers == map[];
      turns, t := StartAndServe(c, stream, s0, es, s, sha1);
    }
  }

  lemma {:induction false} StartAndServe(c: Config, stream: Bytes, s0: State, es: seq<Event>, s: State,
                                         sha1: HashFunction)
    returns (turns: seq<Turn>, t: State)
    requires Given(c, stream, s0, sha1) && Leads(c, stream, s0, es, s, sha1)
    requires s.workers == map[] && c.maxPending > 0 && Wanted(c, s) != {}
    ensures Plays(c, stream, s, turns, t, sha1) && Alone(turns)
    ensures Wanted(c, t) < Wanted(c, s) && Unhindered(c, t)
  {
    var s1, i := KeptByBeat(c, stream, s0, es, s, sha1);
    var rest;
    rest, t := ServeOne(c, stream, s0, s1, sha1, i);
    turns := [Beat] + rest;
    PlaysOn(c, stream, s, [Beat], s1, rest, t, sha1);
  }

  /** With no worker and room for one, a beat starts the first candidate. */
  lemma {:induction false} BeatStarts(c: Config, s: State, sha1: HashFunction)
    requires c.m.Valid() && s.workers == map[] && c.maxPending > 0 && Wanted(c, s) != {}
    ensures Candidates(c, s) == Wanted(c, s)
    ensures var t := AfterBeat(c, s, sha1); Least(Candidates(c, s)) in t.workers && t.held == s.held
  {
    assert Finished(c, s) == {};
    assert s.workers - {} == s.workers && s.held + {} == s.held;
    assert Next(c, s, Tick, sha1).workers == s.workers && Next(c, s, Tick, sha1).held == s.held;
  }

  lemma {:induction false} KeptByBeat(c: Config, stream: Bytes, s0: State, es: seq<Event>, s: State, sha1: HashFunction)
    returns (t: State, i: nat)
    requires Given(c, stream, s0, sha1) && Leads(c, stream, s0, es, s, sha1)
    requires s.workers == map[] && c.maxPending > 0 && Wanted(c, s) != {}
    ensures Plays(c, stream, s, [Beat], t, sha1) && i in t.workers && Wanted(c, t) == Wanted(c, s)
    ensures Kept(c, stream, s0, t)
  {
    t, i := StartByBeat(c, stream, s, sha1);
    PlayLeads(c, stream, s0, es, s, [Beat], t, sha1);
    LeadsKeeps(c, stream, s0, es + Unrolled(c, s, [Beat], sha1), t, sha1);
  }

  lemma {:induction false} StartByBeat(c: Config, stream: Bytes, s: State, sha1: HashFunction)
    returns (t: State, i: nat)
    requires c.m.Valid() && s.workers == map[] && c.maxPending > 0 && Wanted(c, s) != {}
    ensures Plays(c, stream, s, [Beat], t, sha1) && i in t.workers && Wanted(c, t) == Wanted(c, s)
  {
    t, i := AfterBeat(c, s, sha1), Least(Candidates(c, s));
    BeatStarts(c, s, sha1);
    PlayOne(c, stream, s, Beat, sha1);
  }

  lemma {:induction false} ServeAll(c: Config, stream: Bytes, s0: State, es: seq<Event>, s: State, sha1: HashFunction)
    returns (turns: seq<Turn>, t: State)
    requires Given(c, stream, s0, sha1) && Leads(c, stream, s0, es, s, sha1) && Unhindered(c, s)
    ensures Plays(c, stream, s, turns, t, sha1) && Alone(turns) && Wanted(c, t) == {}
    decreases Wanted(c, s)
  {
    if Wanted(c, s) == {} {
      turns, t := [], s;
    } else {
      var first, s1 := ServeMore(c, stream, s0, es, s, sha1);
      PlayLeads(c, stream, s0, es, s, first, s1, sha1);
      var rest;
      rest, t := ServeAll(c, stream, s0, es + Unrolled(c, s, first, sha1), s1, sha1);
      turns := first + rest;
      PlaysOn(c, stream, s, first, s1, rest, t, sha1);
    }
  }

  lemma {:induction false} SaveTurn(c: Config, stream: Bytes, s0: State, es: seq<Event>, s: State, sha1: HashFunction,
                                    i: nat)
    returns (e: Event, t: State)
    requires Given(c, stream, s0, sha1) && Leads(c, stream, s0, es, s, sha1) && i in s.pending
    ensures Leads(c, stream, s0, es + ([] + [e]), t, sha1)
    ensures Plays(c, stream, s, [Step(e)], t, sha1) && Alone([Step(e)])
    ensures t.held == s.held && t.pending.Keys < s.pending.Keys
  {
    LeadsKeeps(c, stream, s0, es, s, sha1);
    SaveOne(c, stream, s, sha1, i);
    e := Save(i, PieceOf(c.m.pieceLength, stream, i));
    t := Next(c, s, e, sha1);
    LeadsOn(c, stream, s0, es, s, [] + [e], t, sha1);
    PlayOne(c, stream, s, Step(e), sha1);
  }

  /** The outstanding saves are carried out. */
  lemma {:induction false} SaveAll(c: Config, stream: Bytes, s0: State, es: seq<Event>, s: State, sha1: HashFunction)
    returns (turns: seq<Turn>, t: State)
    requires Given(c, stream, s0, sha1) && Leads(c, stream, s0, es, s, sha1)
    ensures Plays(c, stream, s, turns, t, sha1) && Alone(turns) && t.held == s.held && t.pending == map[]
    decreases s.pending.Keys
  {
    if i: nat :| i in s.pending {
      var e, s1 := SaveTurn(c, stream, s0, es, s, sha1, i);
      var rest;
      rest, t := SaveAll(c, stream, s0, es + ([] + [e]), s1, sha1);
      turns := [Step(e)] + rest;
      PlaysOn(c, stream, s, [Step(e)], s1, rest, t, sha1);
    } else {
      turns, t := [], s;
      assert s.pending.Keys == {};
    }
  }

  /** Every piece that is not ignored is held, and no save is outstanding. */
  ghost predicate AllThere(c: Config, s: State)
  {
    Below(c.N()) - c.ignored <= s.held && s.pending == map[]
  }

  /** Left alone, a loop that may start no piece only finishes what is in flight. */
  lemma {:induction false} NothingNew(c: Config, s: State, turns: seq<Turn>, t: State, sha1: HashFunction)
    requires c.m.Valid() && c.maxPending == 0 && Play(c, s, turns, sha1) == Some(t) && Alone(turns)
    ensures t.held + t.workers.Keys <= s.held + s.workers.Keys
  {
    if turns != [] {
      var n := |turns| - 1;
      var u := Play(c, s, turns[..n], sha1).value;
      NothingNew(c, s, turns[..n], u, sha1);
      match turns[n]
      case Step(e) => NoNewWorker(c, u, e, sha1);
      case Beat => NoNewWorker(c, u, Tick, sha1);
    }
  }

  lemma {:induction false} NoNewWorker(c: Config, s: State, e: Event, sha1: HashFunction)
    requires c.m.Valid() && !e.Spawn? && Enabled(c, s, e)
    ensures Next(c, s, e, sha1).held + Next(c, s, e, sha1).workers.Keys <= s.held + s.workers.Keys
  {
    match e
    case Block(i, offset, data) =>
      if i in s.workers {
        assert Next(c, s, e, sha1).workers.Keys == s.workers.Keys;
      }
    case Save(_, _) =>
    case Tick =>
      assert Next(c, s, e, sha1).workers.Keys == s.workers.Keys - Finished(c, s);
  }

  /** From a state that a run with genuine blocks has reached, the loop alone can go on to hold and save every piece
      that is not ignored if and only if it may start pieces at all, or those that are missing are in flight. */
  lemma {:induction false} LoopCompletesIff(c: Config, stream: Bytes, s0: State, es: seq<Event>, s: State,
                                            sha1: HashFunction)
    requires Given(c, stream, s0, sha1) && Leads(c, stream, s0, es, s, sha1)
    ensures c.maxPending > 0 || Wanted(c, s) <= s.workers.Keys
       <==> exists turns, t :: Plays(c, stream, s, turns, t, sha1) && Alone(turns) && AllThere(c, t)
  {
    if Unhindered(c, s) {
      var turns, t := LoopCompletes(c, stream, s0, es, s, sha1);
    } else {
      forall turns, t | Plays(c, stream, s, turns, t, sha1) && Alone(turns) ensures !AllThere(c, t) {
        NothingNew(c, s, turns, t, sha1);
        var i :| i in Wanted(c, s) && i !in s.workers.Keys;
        assert i !in t.held;
      }
    }
  }

  lemma {:induction false} LoopCompletes(c: Config, stream: Bytes, s0: State, es: seq<Event>, s: State,
                                         sha1: HashFunction)
    returns (turns: seq<Turn>, t: State)
    requires Given(c, stream, s0, sha1) && Leads(c, stream, s0, es, s, sha1) && Unhindered(c, s)
    ensures Plays(c, stream, s, turns, t, sha1) && Alone(turns) && AllThere(c, t)
  {
    var first, s1 := ServeAll(c, stream, s0, es, s, sha1);
    PlayLeads(c, stream, s0, es, s, first, s1, sha1);
    var saves;
    saves, t := SaveAll(c, stream, s0, es + Unrolled(c, s, first, sha1), s1, sha1);
    turns := first + saves;
    PlaysOn(c, stream, s, first, s1, saves, t, sha1);
    NothingWanted(c, s1);
  }

  /** What download starts with, before its loop: the first candidate, without looking at the limit. With pieces so
      long that the limit is 0, the loop alone then completes the download if and only if no other piece is
      missing. */
  lemma {:induction false} StartedLoopIff(c: Config, stream: Bytes, s0: State, s: State, sha1: HashFunction)
    requires Given(c, stream, s0, sha1) && Wanted(c, s0) != {}
    requires s == Next(c, s0, Spawn(Least(Candidates(c, s0))), sha1)
    ensures c.maxPending > 0 || |Wanted(c, s0)| == 1
       <==> exists turns, t :: Plays(c, stream, s, turns, t, sha1) && Alone(turns) && AllThere(c, t)
  {
    var i := Least(Candidates(c, s0));
    FirstStarted(c, s0, sha1, i);
    OneGenuine(c, stream, s0, Spawn(i), sha1);
    LoopCompletesIff(c, stream, s0, [] + [Spawn(i)], s, sha1);
    SubsetCardinality({i}, Wanted(c, s0));
  }

  lemma {:induction false} FirstStarted(c: Config, s0: State, sha1: HashFunction, i: nat)
    requires c.m.Valid() && Started(c, s0, sha1) && i in Wanted(c, s0)
    ensures Enabled(c, s0, Spawn(i))
    ensures var s := Next(c, s0, Spawn(i), sha1); s.workers.Keys == {i} && Wanted(c, s) == Wanted(c, s0)
  {
    assert Next(c, s0, Spawn(i), sha1).workers.Keys == s0.workers.Keys + {i};
  }

  // ----- when every worker is served -----

  /** At each beat, every worker has all its blocks. */
  ghost predicate Served(c: Config, s: State, turns: seq<Turn>, sha1: HashFunction)
    requires c.m.Valid() && Play(c, s, turns, sha1).Some?
  {
    turns != [] ==>
      var t := Play(c, s, turns[..|turns| - 1], sha1).value;
      && Served(c, s, turns[..|turns| - 1], sha1)
      && (turns[|turns| - 1].Beat? ==>
          forall i :: i in t.workers ==> IsComplete(c.WorkerLength(i), t.workers[i].subpieces))
  }

  function Beats(turns: seq<Turn>): nat
  {
    if turns == [] then 0 else Beats(turns[..|turns| - 1]) + if turns[|turns| - 1].Beat? then 1 else 0
  }

  /** After the first beat there is always a worker while pieces are wanted, and each later beat takes one of them. */
  ghost predicate Gains(c: Config, before: nat, t: State, beats: nat)
  {
    if beats == 0 then |Wanted(c, t)| <= before
    else Wanted(c, t) != {} ==> t.workers != map[] && |Wanted(c, t)| + beats - 1 <= before
  }

  lemma {:induction false} ServedTick(c: Config, s: State, sha1: HashFunction)
    requires c.m.Valid() && forall i :: i in s.workers ==> IsComplete(c.WorkerLength(i), s.workers[i].subpieces)
    ensures Next(c, s, Tick, sha1).workers == map[] && Next(c, s, Tick, sha1).held == s.held + s.workers.Keys
  {
    assert Finished(c, s) == s.workers.Keys;
    assert s.workers - s.workers.Keys == map[];
  }

  lemma {:induction false} ServedBeat(c: Config, s0: State, s: State, sha1: HashFunction)
    requires c.m.Valid() && InFlight(c, s0, s) && c.maxPending > 0
    requires forall i :: i in s.workers ==> IsComplete(c.WorkerLength(i), s.workers[i].subpieces)
    ensures var t := AfterBeat(c, s, sha1);
            && Wanted(c, t) == Wanted(c, s) - s.workers.Keys
            && (Wanted(c, t) != {} ==> t.workers != map[])
            && (s.workers != map[] ==> |Wanted(c, t)| + 1 <= |Wanted(c, s)|)
  {
    var u, t := Next(c, s, Tick, sha1), AfterBeat(c, s, sha1);
    ServedTick(c, s, sha1);
    WantedLess(c, s, u);
    if Wanted(c, u) != {} {
      Refill(c, u, sha1);
    }
    assert t.held == u.held;
    WantedLess(c, s, t);
    if s.workers != map[] {
      var i :| i in s.workers;
      assert i in Wanted(c, s) && i !in Wanted(c, t);
      SubsetCardinality(Wanted(c, t), Wanted(c, s));
    }
  }

  lemma {:induction false} Refill(c: Config, s: State, sha1: HashFunction)
    requires c.m.Valid() && s.workers == map[] && c.maxPending > 0 && Wanted(c, s) != {}
    ensures HasRoom(c, s) && Next(c, s, Spawn(Least(Candidates(c, s))), sha1).workers != map[]
  {
    assert Candidates(c, s) == Wanted(c, s);
    assert Least(Candidates(c, s)) in Next(c, s, Spawn(Least(Candidates(c, s))), sha1).workers;
  }

  lemma {:induction false} WantedLess(c: Config, s: State, t: State)
    requires t.held == s.held + s.workers.Keys
    ensures Wanted(c, t) == Wanted(c, s) - s.workers.Keys
  {
  }

  lemma {:induction false} OtherTurn(c: Config, s: State, e: Event, sha1: HashFunction)
    requires c.m.Valid() && !e.Tick? && Enabled(c, s, e)
    ensures Next(c, s, e, sha1).held == s.held && s.workers.Keys <= Next(c, s, e, sha1).workers.Keys
  {
  }

  lemma {:induction false} BeatKeepsInFlight(c: Config, s0: State, s: State, sha1: HashFunction)
    requires c.m.Valid() && InFlight(c, s0, s)
    ensures InFlight(c, s0, AfterBeat(c, s, sha1))
  {
    var t := Next(c, s, Tick, sha1);
    StepKeepsInFlight(c, s0, s, Tick, sha1);
    if HasRoom(c, t) {
      StepKeepsInFlight(c, s0, t, Spawn(Least(Candidates(c, t))), sha1);
    }
  }

  /** Whatever else happens in between, and whatever blocks arrive: when every worker is served before each beat,
      each beat but the first takes at least one missing piece, until none is left. */
  lemma {:induction false} BeatsGain(c: Config, s0: State, s: State, turns: seq<Turn>, t: State, sha1: HashFunction)
    requires c.m.Valid() && InFlight(c, s0, s) && c.maxPending > 0
    requires Play(c, s, turns, sha1) == Some(t) && Served(c, s, turns, sha1)
    ensures InFlight(c, s0, t) && Gains(c, |Wanted(c, s)|, t, Beats(turns))
  {
    if turns != [] {
      var before, turn := turns[..|turns| - 1], turns[|turns| - 1];
      var u := Play(c, s, before, sha1).value;
      BeatsGain(c, s0, s, before, u, sha1);
      match turn
      case Step(e) =>
        StepKeepsInFlight(c, s0, u, e, sha1);
        OtherTurn(c, u, e, sha1);
        assert Wanted(c, t) == Wanted(c, u);
      case Beat =>
        BeatKeepsInFlight(c, s0, u, sha1);
        ServedBeat(c, s0, u, sha1);
        SubsetCardinality(Wanted(c, t), Wanted(c, u));
    }
  }

  /** So one beat more than there are missing pieces is always enough. */
  lemma {:induction false} ServedLoopCompletes(c: Config, s0: State, es: seq<Event>, s: State, turns: seq<Turn>,
                                               t: State, sha1: HashFunction)
    requires c.m.Valid() && Started(c, s0, sha1) && Trace(c, s0, es, sha1) == Some(s) && c.maxPending > 0
    requires Play(c, s, turns, sha1) == Some(t) && Served(c, s, turns, sha1) && Beats(turns) > |Wanted(c, s)|
    ensures Below(c.N()) - c.ignored <= t.held
  {
    RunKeeps(c, s0, es, sha1);
    BeatsGain(c, s0, s, turns, t, sha1);
    assert Wanted(c, t) == {};
    NothingWanted(c, t);
  }
}
