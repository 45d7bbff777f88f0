/** Connection slots (internal/conn/service.go). A buffered channel counts the slots in use, and a map of hosts
    says whose slot is still to be given back. Dialling, accepting and closing happen at the same time in many
    goroutines; the lock protects the map only, so that the channel can change while it is held.

    A connection is a number of its own: the map is keyed by the address object of the connection. */
module Connections {
  import opened Basics

  type Conn = nat

  // ----- the service -----

  datatype Shared = Shared(conns: nat, hosts: set<Conn>)

  class ConnectionService {
    const max: nat
    var conns: nat
    var hosts: set<Conn>

    ghost function View(): Shared
      reads this
    {
      Shared(conns, hosts)
    }

    constructor (max: nat)
      ensures this.max == max && View() == Shared(0, {})
    {
      this.max := max;
      conns, hosts := 0, {};
    }

    /** The select in front of Dial and of the accept loop: a slot if there is one. */
    method TakeSlot() returns (ok: bool)
      modifies this`conns
      ensures ok <==> old(conns) < max
      ensures View() == Shared(old(conns) + (if ok then 1 else 0), old(hosts))
    {
      ok := conns < max;
      if ok {
        conns := conns + 1;
      }
    }

    /** closeConn: the receive must not block, or the lock would be held for ever. */
    method CloseConn(c: Conn) returns (released: bool)
      requires c in hosts ==> conns > 0
      modifies this
      ensures released <==> c in old(hosts)
      ensures View() == if released then Shared(old(conns) - 1, old(hosts) - {c}) else old(View())
    {
      if c !in hosts {
        return false;
      }
      hosts := hosts - {c};
      conns := conns - 1;
      return true;
    }
  }

  // ----- the protocol -----

  /** How far a connection has come. `Live` is a peer that has been handed out, with closeConn hooked to its
      Close; a failed handshake goes through `Failing` instead. */
  datatype Phase = Refused | Slot(dialed: bool) | Listed(dialed: bool) | Live | Failing | Failed

  datatype Event =
    | Take(c: Conn, dialed: bool)   // the select
    | List(c: Conn)                 // the entry in hosts, under the lock
    | Hook(c: Conn)                 // OnClose(closeConn), and the peer is handed out
    | Fail(c: Conn)                 // acceptHandshake returns an error
    | GiveBack(c: Conn)             // the receive of the accept loop after that
    | StartClose(c: Conn)           // a call of Close finds the peer not closed
    | Lock(c: Conn)                 // closeConn: lock, look up, delete
    | Receive                       // closeConn: receive, unlock; Close marks the peer

  /** `calls` are the calls of Close on their way to closeConn, `locked` is the one that holds the lock
      between its delete and its receive, and `released` lists the slots given back. */
  datatype State = State(max: nat, shared: Shared, phase: map<Conn, Phase>, closed: set<Conn>,
                         calls: multiset<Conn>, locked: Option<Conn>, released: seq<Conn>)

  function Initial(max: nat): State
  {
    State(max, Shared(0, {}), map[], {}, multiset{}, None, [])
  }

  predicate In(s: State, c: Conn, p: Phase)
  {
    c in s.phase && s.phase[c] == p
  }

  predicate Enabled(s: State, e: Event)
  {
    match e
    case Take(c, _) => c !in s.phase
    case List(c) => (In(s, c, Slot(true)) || In(s, c, Slot(false))) && s.locked == None
    case Hook(c) => In(s, c, Listed(true)) || In(s, c, Listed(false))
    case Fail(c) => In(s, c, Listed(false))
    case GiveBack(c) => In(s, c, Failing) && s.shared.conns > 0
    case StartClose(c) => In(s, c, Live) && c !in s.closed
    case Lock(c) => c in s.calls && s.locked == None
    case Receive => s.locked.Some? && s.shared.conns > 0
  }

  function Next(s: State, e: Event): State
    requires Enabled(s, e)
  {
    match e
    case Take(c, dialed) =>
      if s.shared.conns < s.max then s.(shared := Shared(s.shared.conns + 1, s.shared.hosts),
                                        phase := s.phase[c := Slot(dialed)])
      else s.(phase := s.phase[c := Refused])
    case List(c) => s.(shared := Shared(s.shared.conns, s.shared.hosts + {c}),
                       phase := s.phase[c := Listed(s.phase[c].dialed)])
    case Hook(c) => s.(phase := s.phase[c := Live])
    case Fail(c) => s.(phase := s.phase[c := Failing])
    case GiveBack(c) => s.(shared := Shared(s.shared.conns - 1, s.shared.hosts), phase := s.phase[c := Failed],
                           released := s.released + [c])
    case StartClose(c) => s.(calls := s.calls + multiset{c})
    case Lock(c) =>
      if c in s.shared.hosts then s.(shared := Shared(s.shared.conns, s.shared.hosts - {c}),
                                     calls := s.calls - multiset{c}, locked := Some(c))
      else s.(calls := s.calls - multiset{c}, closed := s.closed + {c})
    case Receive =>
      var c := s.locked.value;
      s.(shared := Shared(s.shared.conns - 1, s.shared.hosts), locked := None, closed := s.closed + {c},
         released := s.released + [c])
  }

  predicate Run(s: State, events: seq<Event>)
    decreases |events|
  {
    events == [] || (Enabled(s, events[0]) && Run(Next(s, events[0]), events[1..]))
  }

  function Exec(s: State, events: seq<Event>): State
    requires Run(s, events)
    decreases |events|
  {
    if events == [] then s else Exec(Next(s, events[0]), events[1..])
  }

  // ----- what every step keeps -----

  /** The connections that have acquired a slot. */
  ghost function AcquiredSet(s: State): set<Conn>
  {
    set c | c in s.phase && s.phase[c] != Refused
  }

  /** Those that have not given it back. */
  ghost function Holders(s: State): set<Conn>
  {
    set c | c in AcquiredSet(s) && c !in s.released
  }

  /** What holds of each connection. The map of hosts lists those that have not given their slot back, once
      they are entered, but for the one that is just being closed; and, besides, every connection whose
      handshake has failed. */
  predicate Consistent(s: State, c: Conn)
  {
    && (c in s.shared.hosts <==>
          c in s.phase && (s.phase[c].Listed? || s.phase[c] == Failing || s.phase[c] == Failed
                           || (s.phase[c] == Live && c !in s.released && s.locked != Some(c))))
    && (s.locked == Some(c) ==> In(s, c, Live) && c !in s.released)
    && (c in s.calls ==> In(s, c, Live))
    && (c in s.closed ==> In(s, c, Live) && c in s.released)
    && (c in s.released ==> In(s, c, Live) || In(s, c, Failed))
    && (In(s, c, Failed) ==> c in s.released)
  }

  predicate ReleasedOnce(s: State)
  {
    forall i, j :: 0 <= i < j < |s.released| ==> s.released[i] != s.released[j]
  }

  ghost predicate Inv(s: State)
  {
    && s.shared.conns == |Holders(s)| <= s.max
    && ReleasedOnce(s)
    && forall c :: Consistent(s, c)
  }

  /** The steps on the way in. */
  lemma {:induction false} OpeningKeepsConsistent(s: State, e: Event, c: Conn)
    requires Consistent(s, c) && Enabled(s, e) && (e.Take? || e.List? || e.Hook? || e.Fail?)
    ensures Consistent(Next(s, e), c)
  {
    match e
    case Take(_, _) =>
    case List(_) =>
    case Hook(_) =>
    case Fail(_) =>
  }

  lemma {:induction false} StepKeepsConsistent(s: State, e: Event, c: Conn)
    requires Consistent(s, c) && Enabled(s, e)
    ensures Consistent(Next(s, e), c)
  {
    match e
    case GiveBack(_) =>
    case StartClose(_) =>
    case Lock(_) =>
    case Receive =>
    case _ =>
      OpeningKeepsConsistent(s, e, c);
  }

  lemma {:induction false} TakeHolders(s: State, c: Conn, dialed: bool)
    requires Enabled(s, Take(c, dialed)) && Consistent(s, c)
    ensures Holders(Next(s, Take(c, dialed))) == if s.shared.conns < s.max then Holders(s) + {c} else Holders(s)
    ensures c !in Holders(s)
  {
  }

  lemma {:induction false} GiveBackHolders(s: State, c: Conn)
    requires Enabled(s, GiveBack(c)) && Consistent(s, c)
    ensures c in Holders(s) && Holders(Next(s, GiveBack(c))) == Holders(s) - {c}
  {
  }

  lemma {:induction false} ReceiveHolders(s: State)
    requires Enabled(s, Receive) && Consistent(s, s.locked.value)
    ensures s.locked.value in Holders(s) && Holders(Next(s, Receive)) == Holders(s) - {s.locked.value}
  {
  }

  lemma {:induction false} OtherHolders(s: State, e: Event)
    requires Enabled(s, e) && !e.Take? && !e.GiveBack? && !e.Receive?
    ensures Holders(Next(s, e)) == Holders(s)
    ensures Next(s, e).shared.conns == s.shared.conns && Next(s, e).released == s.released
  {
    match e
    case List(_) =>
    case Hook(_) =>
    case Fail(_) =>
    case StartClose(_) =>
    case Lock(_) =>
  }

  lemma {:induction false} StepKeepsHolders(s: State, e: Event)
    requires Inv(s) && Enabled(s, e)
    ensures Next(s, e).shared.conns == |Holders(Next(s, e))| <= s.max && ReleasedOnce(Next(s, e))
  {
    match e
    case Take(c, dialed) =>
      TakeHolders(s, c, dialed);
    case GiveBack(c) =>
      GiveBackHolders(s, c);
    case Receive =>
      ReceiveHolders(s);
    case _ =>
      OtherHolders(s, e);
  }

  lemma {:induction false} StepKeepsInv(s: State, e: Event)
    requires Inv(s) && Enabled(s, e)
    ensures Inv(Next(s, e)) && Next(s, e).max == s.max
  {
    StepKeepsHolders(s, e);
    forall c ensures Consistent(Next(s, e), c) {
      StepKeepsConsistent(s, e, c);
    }
  }

  /** Over every interleaving. */
  lemma {:induction false} RunKeepsInv(s: State, events: seq<Event>)
    requires Inv(s) && Run(s, events)
    ensures Inv(Exec(s, events)) && Exec(s, events).max == s.max
    decreases |events|
  {
    if events != [] {
      StepKeepsInv(s, events[0]);
      RunKeepsInv(Next(s, events[0]), events[1..]);
    }
  }

  lemma {:induction false} InitialInv(max: nat)
    ensures Inv(Initial(max))
  {
    assert Holders(Initial(max)) == {};
  }

  // ----- what the events say -----

  /** How connection c stands, by the events that have happened. */
  ghost predicate Recorded(s: State, c: Conn, h: multiset<Event>)
  {
    && (c in s.phase <==> Take(c, true) in h || Take(c, false) in h)
    && (In(s, c, Slot(true)) || In(s, c, Slot(false)) ==> List(c) !in h)
    && (c in s.phase && s.phase[c].Listed? ==> List(c) in h && Hook(c) !in h && Fail(c) !in h)
    && (List(c) in h <==> c in s.phase && s.phase[c] != Refused && !s.phase[c].Slot?)
    && (Hook(c) in h <==> In(s, c, Live))
    && (Fail(c) in h <==> In(s, c, Failing) || In(s, c, Failed))
    && (GiveBack(c) in h <==> In(s, c, Failed))
    && (c in s.phase && (s.phase[c].Slot? || s.phase[c].Listed?) ==> Take(c, s.phase[c].dialed) in h)
    && (Fail(c) in h ==> Take(c, false) in h)
    && h[StartClose(c)] == s.calls[c] + h[Lock(c)]
    && (Lock(c) in h <==> s.locked == Some(c) || (In(s, c, Live) && c in s.released))
    && (c in s.closed <==> In(s, c, Live) && c in s.released)
  }

  predicate Opens(e: Event, c: Conn)
  {
    e in {Take(c, true), Take(c, false), List(c), Hook(c), Fail(c), GiveBack(c)}
  }

  /** A step that is about another connection. */
  lemma {:induction false} OtherRecorded(s: State, t: State, c: Conn, h: multiset<Event>, e: Event)
    requires Recorded(s, c, h)
    requires !Opens(e, c) && e != StartClose(c) && e != Lock(c)
    requires (c in t.phase <==> c in s.phase) && (c in s.phase ==> t.phase[c] == s.phase[c])
    requires t.calls[c] == s.calls[c] && (t.locked == Some(c) <==> s.locked == Some(c))
    requires (c in t.released <==> c in s.released) && (c in t.closed <==> c in s.closed)
    ensures Recorded(t, c, h + multiset{e})
  {
  }

  lemma {:induction false} OpeningRecorded(s: State, e: Event, c: Conn, h: multiset<Event>)
    requires Consistent(s, c) && Recorded(s, c, h) && Enabled(s, e)
    requires Opens(e, c)
    ensures Recorded(Next(s, e), c, h + multiset{e})
  {
    match e
    case Take(_, _) =>
    case List(_) =>
    case Hook(_) =>
    case Fail(_) =>
    case GiveBack(_) =>
  }

  lemma {:induction false} ClosingRecorded(s: State, e: Event, c: Conn, h: multiset<Event>)
    requires Consistent(s, c) && Recorded(s, c, h) && Enabled(s, e)
    requires e == StartClose(c) || e == Lock(c) || (e == Receive && s.locked == Some(c))
    ensures Recorded(Next(s, e), c, h + multiset{e})
  {
    match e
    case StartClose(_) =>
    case Lock(_) =>
    case Receive =>
  }

  lemma {:induction false} StepKeepsRecorded(s: State, e: Event, c: Conn, h: multiset<Event>)
    requires Consistent(s, c) && Recorded(s, c, h) && Enabled(s, e)
    ensures Recorded(Next(s, e), c, h + multiset{e})
  {
    if Opens(e, c) {
      OpeningRecorded(s, e, c, h);
    } else if e == StartClose(c) || e == Lock(c) || (e == Receive && s.locked == Some(c)) {
      ClosingRecorded(s, e, c, h);
    } else {
      OtherRecorded(s, Next(s, e), c, h, e);
    }
  }

  lemma {:induction false} RunKeepsRecorded(s: State, events: seq<Event>, c: Conn, h: multiset<Event>)
    requires Inv(s) && Recorded(s, c, h) && Run(s, events)
    ensures Recorded(Exec(s, events), c, h + multiset(events))
    decreases |events|
  {
    if events != [] {
      StepKeepsRecorded(s, events[0], c, h);
      StepKeepsInv(s, events[0]);
      RunKeepsRecorded(Next(s, events[0]), events[1..], c, h + multiset{events[0]});
      assert events == [events[0]] + events[1..];
      assert multiset(events) == multiset{events[0]} + multiset(events[1..]);
    }
  }

  /** Over every run, the state of each connection tells which of its events have happened. */
  lemma {:induction false} StateRecordsRun(max: nat, events: seq<Event>, c: Conn)
    requires Run(Initial(max), events)
    ensures Recorded(Exec(Initial(max), events), c, multiset(events))
  {
    InitialInv(max);
    RunKeepsRecorded(Initial(max), events, c, multiset{});
  }

  /** Whether it gets a slot depends on there being one; it is refused otherwise, and that is the end of it. */
  lemma {:induction false} TakesIfFree(s: State, c: Conn, dialed: bool)
    requires c !in s.phase
    ensures Enabled(s, Take(c, dialed))
    ensures var t := Next(s, Take(c, dialed));
            && t.shared == Shared(s.shared.conns + (if s.shared.conns < s.max then 1 else 0), s.shared.hosts)
            && t.phase == s.phase[c := if s.shared.conns < s.max then Slot(dialed) else Refused]
  {
  }

  /** The way of a connection in and out again, whether it was dialled or accepted, with nobody else at work: it can
      always be gone, and leaves slots and hosts as they were. */
  lemma {:induction false} InAndOut(s: State, c: Conn, dialed: bool)
    requires Inv(s) && c !in s.phase && s.shared.conns < s.max && s.locked == None
    ensures var way := [Take(c, dialed), List(c), Hook(c), StartClose(c), Lock(c), Receive];
            Run(s, way) && Exec(s, way).shared == s.shared && Exec(s, way).locked == None
            && c in Exec(s, way).closed && Exec(s, way).released == s.released + [c]
  {
    assert Consistent(s, c);
    var s1 := Next(s, Take(c, dialed));
    var s2 := Next(s1, List(c));
    var s3 := Next(s2, Hook(c));
    StepKeepsConsistent(s, Take(c, dialed), c);
    StepKeepsConsistent(s1, List(c), c);
    StepKeepsConsistent(s2, Hook(c), c);
    var out := [StartClose(c), Lock(c), Receive];
    Leaves(s3, c);
    Prepend(s2, Hook(c), out);
    Prepend(s1, List(c), [Hook(c)] + out);
    Prepend(s, Take(c, dialed), [List(c)] + ([Hook(c)] + out));
    assert [Take(c, dialed)] + ([List(c)] + ([Hook(c)] + out))
           == [Take(c, dialed), List(c), Hook(c), StartClose(c), Lock(c), Receive];
  }

  lemma {:induction false} Prepend(s: State, e: Event, events: seq<Event>)
    requires Enabled(s, e) && Run(Next(s, e), events)
    ensures Run(s, [e] + events) && Exec(s, [e] + events) == Exec(Next(s, e), events)
  {
    assert ([e] + events)[1..] == events;
  }

  /** A live connection that nobody closes yet can be closed, and its slot is given back. */
  lemma {:induction false} Leaves(s: State, c: Conn)
    requires Consistent(s, c) && In(s, c, Live) && c !in s.released && c !in s.closed
    requires s.locked == None && s.shared.conns > 0
    ensures var way := [StartClose(c), Lock(c), Receive];
            Run(s, way) && Exec(s, way).shared == Shared(s.shared.conns - 1, s.shared.hosts - {c})
            && Exec(s, way).locked == None && c in Exec(s, way).closed && Exec(s, way).released == s.released + [c]
  {
    var s1 := Next(s, StartClose(c));
    var s2 := Next(s1, Lock(c));
    assert Run(Next(s2, Receive), []);
    Prepend(s2, Receive, []);
    Prepend(s1, Lock(c), [Receive] + []);
    Prepend(s, StartClose(c), [Lock(c)] + ([Receive] + []));
    assert [StartClose(c)] + ([Lock(c)] + ([Receive] + [])) == [StartClose(c), Lock(c), Receive];
  }

  // ----- the main results -----

  lemma {:induction false} Conserved(s: State)
    requires Inv(s)
    ensures |AcquiredSet(s)| == s.shared.conns + |s.released|
  {
    var given := set c | c in s.released;
    GivenCount(s.released, given);
    forall c | c in given ensures c in AcquiredSet(s) {
      assert Consistent(s, c);
    }
    assert AcquiredSet(s) == Holders(s) + given;
  }

  lemma {:induction false} GivenCount(released: seq<Conn>, given: set<Conn>)
    requires forall i, j :: 0 <= i < j < |released| ==> released[i] != released[j]
    requires given == set c | c in released
    ensures |given| == |released|
  {
    if released != [] {
      var n := |released| - 1;
      assert released == released[..n] + [released[n]];
      var most := set c | c in released[..n];
      GivenCount(released[..n], most);
      assert given == most + {released[n]};
    }
  }

  /** Over every run of the protocol, the slots in use stay within the limit and are those that were acquired
      and not released; none is released twice, or without having been acquired. */
  lemma {:induction false} SlotsAreCounted(max: nat, events: seq<Event>)
    requires Run(Initial(max), events)
    ensures var s := Exec(Initial(max), events);
            && s.shared.conns <= max
            && |AcquiredSet(s)| == s.shared.conns + |s.released|
            && ReleasedOnce(s)
            && forall c :: c in s.released ==> c in AcquiredSet(s)
  {
    var s := Exec(Initial(max), events);
    InitialInv(max);
    RunKeepsInv(Initial(max), events);
    Conserved(s);
    forall c | c in s.released ensures c in AcquiredSet(s) {
      assert Consistent(s, c);
    }
  }

  /** No receive ever blocks, neither that of closeConn, with the lock in its hands, nor that after a failed
      handshake; and once a Close has come to its end, the slot is back. */
  lemma {:induction false} ReceivesDoNotBlock(max: nat, events: seq<Event>)
    requires Run(Initial(max), events)
    ensures var s := Exec(Initial(max), events);
            && (s.locked.Some? ==> Enabled(s, Receive))
            && (forall c :: In(s, c, Failing) ==> Enabled(s, GiveBack(c)))
            && (forall c :: c in s.closed ==> c in s.released)
  {
    var s := Exec(Initial(max), events);
    InitialInv(max);
    RunKeepsInv(Initial(max), events);
    if s.locked.Some? {
      assert Consistent(s, s.locked.value) && s.locked.value in Holders(s);
    }
    forall c | In(s, c, Failing) ensures Enabled(s, GiveBack(c)) {
      assert Consistent(s, c) && c in Holders(s);
    }
    forall c | c in s.closed ensures c in s.released {
      assert Consistent(s, c);
    }
  }

  /** What the map of hosts holds while nobody is closing: the connections in use that have been entered, and
      all those whose handshake has failed, for ever. */
  lemma {:induction false} HostsAreHoldersAndFailures(max: nat, events: seq<Event>, c: Conn)
    requires Run(Initial(max), events) && Exec(Initial(max), events).locked == None
    ensures var s := Exec(Initial(max), events);
            c in s.shared.hosts <==> In(s, c, Failed) || (c in Holders(s) && !s.phase[c].Slot?)
  {
    InitialInv(max);
    RunKeepsInv(Initial(max), events);
    assert Consistent(Exec(Initial(max), events), c);
  }

  /** A failed handshake leaves its entry behind although its slot is free again. */
  lemma {:induction false} FailureStays()
    ensures var events := [Take(7, false), List(7), Fail(7), GiveBack(7)];
            Run(Initial(1), events) && Exec(Initial(1), events).shared == Shared(0, {7})
  {
    var s0 := Initial(1);
    var s1 := Next(s0, Take(7, false));
    var s2 := Next(s1, List(7));
    var s3 := Next(s2, Fail(7));
    var s4 := Next(s3, GiveBack(7));
    assert Run(s4, []);
    assert Run(s3, [GiveBack(7)]) && Exec(s3, [GiveBack(7)]) == s4;
    assert [Fail(7), GiveBack(7)][1..] == [GiveBack(7)];
    assert Run(s2, [Fail(7), GiveBack(7)]) && Exec(s2, [Fail(7), GiveBack(7)]) == s4;
    assert [List(7), Fail(7), GiveBack(7)][1..] == [Fail(7), GiveBack(7)];
    assert Run(s1, [List(7), Fail(7), GiveBack(7)]) && Exec(s1, [List(7), Fail(7), GiveBack(7)]) == s4;
    assert [Take(7, false), List(7), Fail(7), GiveBack(7)][1..] == [List(7), Fail(7), GiveBack(7)];
  }

  /** The method CloseConn of the service, where the protocol may take the lock: its receive finds a slot, and
      its effect is that of the two steps. */
  lemma {:induction false} CloseConnIsLockAndReceive(s: State, c: Conn)
    requires Inv(s) && Enabled(s, Lock(c))
    ensures c in s.shared.hosts ==> s.shared.conns > 0
    ensures c in s.shared.hosts ==> Enabled(Next(s, Lock(c)), Receive)
    ensures c in s.shared.hosts ==>
        Next(Next(s, Lock(c)), Receive).shared == Shared(s.shared.conns - 1, s.shared.hosts - {c})
    ensures c !in s.shared.hosts ==> Next(s, Lock(c)).shared == s.shared
  {
    assert Consistent(s, c);
    if c in s.shared.hosts {
      assert c in Holders(s);
    }
  }
}
