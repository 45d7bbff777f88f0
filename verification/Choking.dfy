/** Who is unchoked: the swarm of a torrent (internal/peers/service.go) and the rounds of unchoke
    (internal/session/session.go). */
module Choking {
  import opened Basics
  import Peers
  import Wire

  type Addr = string

  /** What the session asks of a peer besides its flags: how much it has sent, its pieces, the outstanding requests
      by index and offset, the pieces it may ask for while choked, and whether it has been silent. */
  datatype Stats = Stats(uploadRate: int, uploaded: int, pieces: set<nat>, requests: set<(nat, nat)>,
                         fast: set<nat>, idle: bool)

  datatype Peer = Peer(choked: bool, blocking: bool, interested: bool, interesting: bool, closed: bool, stats: Stats)

  type Swarm = map<Addr, Peer>

  // ----- counting -----

  ghost function Those(m: Swarm, f: Peer -> bool): set<Addr>
  {
    set a | a in m && f(m[a])
  }

  function IsOpen(): Peer -> bool { (p: Peer) => !p.closed }
  function IsOpenChoked(): Peer -> bool { (p: Peer) => !p.closed && p.choked }
  function IsOpenBlocking(): Peer -> bool { (p: Peer) => !p.closed && p.blocking }
  function IsOpenInterested(): Peer -> bool { (p: Peer) => !p.closed && p.interested }
  function IsOpenInteresting(): Peer -> bool { (p: Peer) => !p.closed && p.interesting }
  function IsUnchoked(): Peer -> bool { (p: Peer) => !p.choked }
  function IsCandidate(): Peer -> bool { (p: Peer) => p.choked && p.interested }

  datatype SwarmStat = SwarmStat(peers: nat, choked: nat, blocking: nat, interested: nat, interesting: nat)

  ghost function Number(m: Swarm, f: Peer -> bool, visited: set<Addr>): nat
  {
    |Those(m, f) * visited|
  }

  ghost function Counted(m: Swarm, visited: set<Addr>): SwarmStat
  {
    SwarmStat(Number(m, IsOpen(), visited), Number(m, IsOpenChoked(), visited), Number(m, IsOpenBlocking(), visited),
              Number(m, IsOpenInterested(), visited), Number(m, IsOpenInteresting(), visited))
  }

  function CountOne(stat: SwarmStat, p: Peer): SwarmStat
  {
    if p.closed then stat
    else SwarmStat(stat.peers + 1, stat.choked + (if p.choked then 1 else 0),
                   stat.blocking + (if p.blocking then 1 else 0),
                   stat.interested + (if p.interested then 1 else 0),
                   stat.interesting + (if p.interesting then 1 else 0))
  }

  lemma {:induction false} NumberStep(m: Swarm, f: Peer -> bool, visited: set<Addr>, a: Addr)
    requires a in m && a !in visited
    ensures Number(m, f, visited + {a}) == Number(m, f, visited) + if f(m[a]) then 1 else 0
  {
    if f(m[a]) {
      assert Those(m, f) * (visited + {a}) == Those(m, f) * visited + {a};
    } else {
      assert Those(m, f) * (visited + {a}) == Those(m, f) * visited;
    }
  }

  lemma {:induction false} CountedStep(m: Swarm, rest: set<Addr>, a: Addr)
    requires a in m && a in rest
    ensures Counted(m, m.Keys - (rest - {a})) == CountOne(Counted(m, m.Keys - rest), m[a])
  {
    NumberRest(m, IsOpen(), rest, a);
    NumberRest(m, IsOpenChoked(), rest, a);
    NumberRest(m, IsOpenBlocking(), rest, a);
    NumberRest(m, IsOpenInterested(), rest, a);
    NumberRest(m, IsOpenInteresting(), rest, a);
  }

  lemma {:induction false} NumberRest(m: Swarm, f: Peer -> bool, rest: set<Addr>, a: Addr)
    requires a in m && a in rest
    ensures Number(m, f, m.Keys - (rest - {a})) == Number(m, f, m.Keys - rest) + if f(m[a]) then 1 else 0
  {
    assert m.Keys - (rest - {a}) == (m.Keys - rest) + {a};
    NumberStep(m, f, m.Keys - rest, a);
  }

  lemma {:induction false} CountedEnds(m: Swarm)
    ensures Counted(m, m.Keys - m.Keys) == NOBODY
    ensures Counted(m, m.Keys - {}) == StatOf(m)
  {
    assert m.Keys - m.Keys == {} && m.Keys - {} == m.Keys;
    assert forall f: Peer -> bool :: Those(m, f) * {} == {} && Those(m, f) * m.Keys == Those(m, f);
  }

  lemma {:induction false} ThoseAre(m: Swarm)
    ensures Those(m, IsOpen()) == set a | a in m && !m[a].closed
    ensures Those(m, IsOpenChoked()) == set a | a in m && !m[a].closed && m[a].choked
    ensures Those(m, IsOpenBlocking()) == set a | a in m && !m[a].closed && m[a].blocking
    ensures Those(m, IsOpenInterested()) == set a | a in m && !m[a].closed && m[a].interested
    ensures Those(m, IsOpenInteresting()) == set a | a in m && !m[a].closed && m[a].interesting
  {
  }

  const NOBODY: SwarmStat := SwarmStat(0, 0, 0, 0, 0)

  /** How many open peers there are, and with which flags. */
  ghost function StatOf(m: Swarm): SwarmStat
  {
    SwarmStat(|Those(m, IsOpen())|, |Those(m, IsOpenChoked())|, |Those(m, IsOpenBlocking())|,
              |Those(m, IsOpenInterested())|, |Those(m, IsOpenInteresting())|)
  }

  // ----- the rounds on values -----

  datatype Event =
    | Join(a: Addr, heard: bool, stats: Stats)  // an Interested message may have come before the peer is added
    | Leave(a: Addr)
    | Close(a: Addr)
    | Interested(a: Addr)
    | NotInterested(a: Addr)
    | Changes(a: Addr, blocking: bool, interesting: bool, stats: Stats)  // whatever else is known of a peer
    | Round(first: Option<Addr>, second: Option<Addr>)

  ghost function Unchoked(m: Swarm): set<Addr>
  {
    set a | a in m && !m[a].choked
  }

  ghost function OpenUnchoked(m: Swarm): set<Addr>
  {
    set a | a in m && !m[a].closed && !m[a].choked
  }

  ghost function Closed(m: Swarm): set<Addr>
  {
    set a | a in m && m[a].closed
  }

  predicate Candidate(m: Swarm, a: Addr)
  {
    a in m && m[a].choked && m[a].interested
  }

  function AfterFirst(m: Swarm, first: Option<Addr>): Swarm
    requires first.Some? ==> first.value in m
  {
    if first.Some? then m[first.value := m[first.value].(choked := false)] else m
  }

  function AfterSecond(m: Swarm, second: Option<Addr>): Swarm
    requires second.Some? ==> second.value in m
  {
    if second.Some? then m[second.value := m[second.value].(choked := true)] else m
  }

  /** A round picks some candidate, if there is one; and if four or more open peers were unchoked before, it
      then picks some unchoked peer. */
  ghost predicate Picks(m: Swarm, first: Option<Addr>, second: Option<Addr>)
  {
    && (if first.Some? then Candidate(m, first.value) else forall a :: !Candidate(m, a))
    && (if second.Some? then |OpenUnchoked(m)| >= 4 && second.value in Unchoked(AfterFirst(m, first))
        else |OpenUnchoked(m)| >= 4 ==> Unchoked(AfterFirst(m, first)) == {})
  }

  ghost predicate Enabled(m: Swarm, e: Event)
  {
    match e
    case Join(a, _, _) => a !in m
    case Leave(a) => a in m
    case Close(a) => a in m && !m[a].closed
    case Interested(a) => a in m && !m[a].closed
    case NotInterested(a) => a in m && !m[a].closed
    case Changes(a, _, _, _) => a in m
    case Round(first, second) => Picks(m, first, second)
  }

  /** An Interested message has been received. */
  predicate Hears(e: Event)
  {
    e.Interested? || (e.Join? && e.heard)
  }

  ghost function Next(m: Swarm, e: Event): Swarm
    requires Enabled(m, e)
  {
    match e
    case Join(a, heard, stats) => m[a := Peer(!heard, true, heard, false, false, stats)]
    case Leave(a) => m - {a}
    case Close(a) => m[a := m[a].(closed := true)]
    case Interested(a) => m[a := m[a].(interested := true, choked := false)]
    case NotInterested(a) => m[a := m[a].(interested := false)]
    case Changes(a, blocking, interesting, stats) =>
      m[a := m[a].(blocking := blocking, interesting := interesting, stats := stats)]
    case Round(first, second) => AfterSecond(AfterFirst(m, first), second)
  }

  ghost predicate Run(m: Swarm, events: seq<Event>)
    decreases |events|
  {
    events == [] || (Enabled(m, events[0]) && Run(Next(m, events[0]), events[1..]))
  }

  ghost function Exec(m: Swarm, events: seq<Event>): Swarm
    requires Run(m, events)
    decreases |events|
  {
    if events == [] then m else Exec(Next(m, events[0]), events[1..])
  }

  function Tally(events: seq<Event>): (r: (nat, nat))
  {
    if events == [] then (0, 0)
    else
      var (i, c) := Tally(events[1..]);
      if Hears(events[0]) then (i + 1, c) else if events[0].Close? then (i, c + 1) else (i, c)
  }

  // ----- sorting -----

  type Less = (Peer, Peer) -> bool

  /** The orders that sorting is meant for. */
  ghost predicate WeakOrder(less: Less)
  {
    && (forall p, q :: less(p, q) ==> !less(q, p))
    && (forall p, q, r :: !less(p, q) && !less(q, r) ==> !less(p, r))
  }

  predicate NoDuplicates(s: seq<Addr>)
  {
    forall i, j :: 0 <= i < j < |s| ==> s[i] != s[j]
  }

  /** The elements of `all`, each once. */
  ghost predicate Lists(s: seq<Addr>, all: set<Addr>)
  {
    NoDuplicates(s) && forall a :: a in s <==> a in all
  }

  ghost predicate Sorted(m: Swarm, s: seq<Addr>, less: Less)
  {
    && (forall i :: 0 <= i < |s| ==> s[i] in m)
    && forall i, j :: 0 <= i < j < |s| ==> !less(m[s[j]], m[s[i]])
  }

  lemma {:induction false} ListsMore(s: seq<Addr>, all: set<Addr>, a: Addr)
    requires Lists(s, all) && a !in all
    ensures Lists(s + [a], all + {a})
  {
  }

  /** Where a new peer comes into a sorted list: behind all that it is not less than. */
  function Insert(m: Swarm, s: seq<Addr>, a: Addr, less: Less): seq<Addr>
    requires a in m && forall b :: b in s ==> b in m
  {
    if s == [] || !less(m[a], m[s[|s| - 1]]) then s + [a]
    else Insert(m, s[..|s| - 1], a, less) + [s[|s| - 1]]
  }

  function StableSort(m: Swarm, s: seq<Addr>, less: Less): (r: seq<Addr>)
    requires forall b :: b in s ==> b in m
    ensures multiset(r) == multiset(s)
  {
    if s == [] then []
    else
      Snoc(s);
      InsertMultiset(m, StableSort(m, s[..|s| - 1], less), s[|s| - 1], less);
      Insert(m, StableSort(m, s[..|s| - 1], less), s[|s| - 1], less)
  }

  lemma {:induction false} InsertMultiset(m: Swarm, s: seq<Addr>, a: Addr, less: Less)
    requires a in m
    ensures (forall b :: b in s <==> b in multiset(s))
            && ((forall b :: b in multiset(s) ==> b in m) ==> forall b :: b in s ==> b in m)
    ensures (forall b :: b in s ==> b in m) ==> multiset(Insert(m, s, a, less)) == multiset(s) + multiset{a}
  {
    if s != [] && forall b :: b in s ==> b in m {
      var n := |s| - 1;
      Snoc(s);
      InsertMultiset(m, s[..n], a, less);
    }
  }

  lemma {:induction false} InsertSorted(m: Swarm, s: seq<Addr>, a: Addr, less: Less)
    requires a in m && (forall b :: b in s ==> b in m) && Sorted(m, s, less) && WeakOrder(less)
    ensures Sorted(m, Insert(m, s, a, less), less)
    ensures forall b :: b in Insert(m, s, a, less) <==> b in s || b == a
  {
    if s != [] {
      var n := |s| - 1;
      if less(m[a], m[s[n]]) {
        InsertSorted(m, s[..n], a, less);
        Snoc(s);
        AppendSorted(m, Insert(m, s[..n], a, less), s[n], less);
      } else {
        AppendSorted(m, s, a, less);
      }
    }
  }

  /** A peer that is less than no other one may come last. */
  lemma {:induction false} AppendSorted(m: Swarm, s: seq<Addr>, a: Addr, less: Less)
    requires a in m && Sorted(m, s, less) && WeakOrder(less)
    requires forall b :: b in s && b in m ==>
        !less(m[a], m[b]) || (s != [] && s[|s| - 1] in m && !less(m[a], m[s[|s| - 1]]))
    ensures Sorted(m, s + [a], less)
  {
    forall i | 0 <= i < |s| ensures !less(m[a], m[s[i]]) {
      assert s[i] in s;
      if i < |s| - 1 {
        assert !less(m[s[|s| - 1]], m[s[i]]);
      }
    }
  }

  lemma {:induction false} SortSorts(m: Swarm, s: seq<Addr>, less: Less)
    requires (forall b :: b in s ==> b in m) && WeakOrder(less)
    ensures Sorted(m, StableSort(m, s, less), less)
  {
    if s != [] {
      var n := |s| - 1;
      SortSorts(m, s[..n], less);
      InsertMultiset(m, StableSort(m, s[..n], less), s[n], less);
      InsertSorted(m, StableSort(m, s[..n], less), s[n], less);
    }
  }

  lemma {:induction false} SortLists(m: Swarm, s: seq<Addr>, less: Less)
    requires Lists(s, m.Keys)
    ensures Lists(StableSort(m, s, less), m.Keys)
    ensures WeakOrder(less) ==> Sorted(m, StableSort(m, s, less), less)
  {
    var r := StableSort(m, s, less);
    if WeakOrder(less) {
      SortSorts(m, s, less);
    }
    assert forall b :: b in r <==> b in multiset(r);
    OnceEach(s);
    EachOnce(r);
  }

  lemma {:induction false} OnceEach(s: seq<Addr>)
    requires NoDuplicates(s)
    ensures forall a :: multiset(s)[a] <= 1
  {
    if s != [] {
      Snoc(s);
      OnceEach(s[..|s| - 1]);
      assert s[|s| - 1] !in s[..|s| - 1];
    }
  }

  lemma {:induction false} EachOnce(s: seq<Addr>)
    requires forall a :: multiset(s)[a] <= 1
    ensures NoDuplicates(s)
  {
    if s != [] {
      var n := |s| - 1;
      Snoc(s);
      assert multiset(s) == multiset(s[..n]) + multiset{s[n]};
      assert forall a :: multiset(s[..n])[a] <= multiset(s)[a];
      EachOnce(s[..n]);
      assert s[n] !in multiset(s[..n]);
      assert s[n] !in s[..n];
    }
  }

  // ----- choosing -----

  /** Those of the first k listed peers that pass the filter, in the order of the list. */
  ghost predicate Chosen(m: Swarm, sorted: seq<Addr>, k: nat, filter: Peer -> bool, out: seq<Addr>)
  {
    k <= |sorted| && Lists(sorted, m.Keys) && out == Passing(m, sorted[..k], filter)
  }

  function Passing(m: Swarm, s: seq<Addr>, filter: Peer -> bool): seq<Addr>
  {
    if s == [] then []
    else
      var a := s[|s| - 1];
      Passing(m, s[..|s| - 1], filter) + if a in m && filter(m[a]) then [a] else []
  }

  lemma {:induction false} ChooseNext(m: Swarm, sorted: seq<Addr>, k: nat, filter: Peer -> bool, out: seq<Addr>)
    requires Chosen(m, sorted, k, filter, out) && k < |sorted|
    ensures sorted[k] in m
    ensures Chosen(m, sorted, k + 1, filter, out + if filter(m[sorted[k]]) then [sorted[k]] else [])
  {
    assert sorted[..k + 1][..k] == sorted[..k];
    assert sorted[k] in sorted;
  }

  lemma {:induction false} PassingAre(m: Swarm, s: seq<Addr>, filter: Peer -> bool)
    requires NoDuplicates(s)
    ensures forall a :: a in Passing(m, s, filter) <==> a in s && a in Those(m, filter)
    ensures NoDuplicates(Passing(m, s, filter))
  {
    if s != [] {
      Snoc(s);
      PassingAre(m, s[..|s| - 1], filter);
      assert s[|s| - 1] !in s[..|s| - 1];
    }
  }

  lemma {:induction false} PassingSorted(m: Swarm, s: seq<Addr>, filter: Peer -> bool, less: Less)
    requires NoDuplicates(s) && Sorted(m, s, less)
    ensures Sorted(m, Passing(m, s, filter), less)
  {
    if s != [] {
      var n := |s| - 1;
      PassingSorted(m, s[..n], filter, less);
      PassingAre(m, s[..n], filter);
      forall a | a in Passing(m, s[..n], filter) ensures !less(m[s[n]], m[a]) {
        var i :| 0 <= i < n && s[..n][i] == a;
        assert s[i] == a;
      }
    }
  }

  lemma {:induction false} ChosenMeans(m: Swarm, sorted: seq<Addr>, k: nat, filter: Peer -> bool, out: seq<Addr>,
                                       orderBy: Option<Less>)
    requires Chosen(m, sorted, k, filter, out)
    requires orderBy.Some? && WeakOrder(orderBy.value) ==> Sorted(m, sorted, orderBy.value)
    ensures NoDuplicates(out) && forall a :: a in out ==> a in Those(m, filter)
    ensures k == |sorted| ==> forall a :: a in Those(m, filter) ==> a in out
    ensures orderBy.Some? && WeakOrder(orderBy.value) ==>
      Sorted(m, out, orderBy.value)
      && forall a, b :: a in out && b in Those(m, filter) && b !in out ==> !orderBy.value(m[b], m[a])
  {
    PassingAre(m, sorted[..k], filter);
    if k == |sorted| {
      assert sorted[..k] == sorted;
    }
    if orderBy.Some? && WeakOrder(orderBy.value) {
      PassingSorted(m, sorted[..k], filter, orderBy.value);
      forall a, b | a in out && b in Those(m, filter) && b !in out ensures !orderBy.value(m[b], m[a]) {
        var i :| 0 <= i < k && sorted[..k][i] == a;
        assert b in sorted;
        var j :| 0 <= j < |sorted| && sorted[j] == b;
        assert forall q :: 0 <= q < k ==> sorted[q] in sorted[..k];
        assert j >= k && sorted[i] == a;
      }
    }
  }

  // ----- whom to ask for a block -----

  /** The order in which the session wants peers: by what they have sent lately, then by what they have sent. */
  function ByUpload(): Less
  {
    (p: Peer, q: Peer) =>
      p.stats.uploadRate > q.stats.uploadRate
      || (p.stats.uploadRate == q.stats.uploadRate && p.stats.uploaded > q.stats.uploaded)
  }

  lemma {:induction false} ByUploadIsWeak()
    ensures WeakOrder(ByUpload())
  {
  }

  function CanServe(index: nat, offset: nat): Peer -> bool
  {
    (p: Peer) =>
      index in p.stats.pieces
      && (index in p.stats.fast || (!p.blocking && (index, offset) !in p.stats.requests && !p.stats.idle))
  }

  /** The same, field by field: the peer has the piece; and it may be asked for it even while it chokes the client,
      or it does not, has not been asked for this block, and is not silent. */
  predicate Serves(s: Stats, blocking: bool, index: nat, offset: nat)
  {
    && index in s.pieces
    && (index in s.fast || !(blocking || (index, offset) in s.requests || s.idle))
  }

  /** The peers that pass the filter and come before a. */
  ghost function Faster(m: Swarm, filter: Peer -> bool, a: Addr): set<Addr>
    requires a in m
  {
    set b | b in Those(m, filter) && ByUpload()(m[b], m[a])
  }

  lemma {:induction false} FewFaster(m: Swarm, filter: Peer -> bool, out: seq<Addr>, a: Addr)
    requires NoDuplicates(out) && a in out && forall b :: b in out ==> b in Those(m, filter)
    requires forall b :: b in Those(m, filter) && b !in out ==> !ByUpload()(m[b], m[a])
    ensures |Faster(m, filter, a)| < |out|
  {
    var all := set b | b in out;
    Elements(out, all);
    assert Faster(m, filter, a) <= all - {a};
    SubsetCardinality(Faster(m, filter, a), all - {a});
  }

  lemma {:induction false} Elements(s: seq<Addr>, all: set<Addr>)
    requires NoDuplicates(s) && all == set b | b in s
    ensures |all| == |s|
  {
    if s != [] {
      var n := |s| - 1;
      Snoc(s);
      var most := set b | b in s[..n];
      Elements(s[..n], most);
      assert all == most + {s[n]};
    }
  }

  // ----- the service itself -----

  class PeerService {
    var peers: Swarm

    constructor ()
      ensures peers == map[]
    {
      peers := map[];
    }

    /** A peer that is already there stays as it is; a closed one is not taken. */
    method Add(a: Addr, p: Peer)
      modifies this
      ensures peers == if p.closed || a in old(peers) then old(peers) else old(peers)[a := p]
    {
      if p.closed {
        return;
      }
      if a !in peers {
        peers := peers[a := p];
      }
    }

    method Remove(a: Addr)
      modifies this
      ensures peers == old(peers) - {a}
    {
      peers := peers - {a};
    }

    /** The map is walked in any order; then the peers are sorted, if an order is asked for. */
    method GetPeersSorted(orderBy: Option<Less>) returns (cpy: seq<Addr>)
      ensures Lists(cpy, peers.Keys)
      ensures orderBy.Some? && WeakOrder(orderBy.value) ==> Sorted(peers, cpy, orderBy.value)
    {
      cpy := [];
      var rest := peers.Keys;
      while rest != {}
        invariant rest <= peers.Keys && Lists(cpy, peers.Keys - rest)
        decreases rest
      {
        var a :| a in rest;
        ListsMore(cpy, peers.Keys - rest, a);
        assert peers.Keys - (rest - {a}) == peers.Keys - rest + {a};
        cpy, rest := cpy + [a], rest - {a};
      }
      assert peers.Keys - rest == peers.Keys;
      if orderBy.Some? {
        SortLists(peers, cpy, orderBy.value);
        cpy := StableSort(peers, cpy, orderBy.value);
      }
    }

    /** Peers that pass the filter, no more than the limit, if it is positive; and all of them, if they are fewer.
        With an order, they come in that order, and no other peer that passes the filter is before any of them. */
    method Get(limit: int, orderBy: Option<Less>, filter: Peer -> bool) returns (out: seq<Addr>)
      ensures NoDuplicates(out)
      ensures forall a :: a in out ==> a in Those(peers, filter)
      ensures limit > 0 ==> |out| <= limit
      ensures limit <= 0 || |out| < limit ==> forall a :: a in Those(peers, filter) ==> a in out
      ensures orderBy.Some? && WeakOrder(orderBy.value) ==>
        Sorted(peers, out, orderBy.value)
        && forall a, b :: a in out && b in Those(peers, filter) && b !in out ==> !orderBy.value(peers[b], peers[a])
    {
      var sorted := GetPeersSorted(orderBy);
      out := [];
      for k := 0 to |sorted|
        invariant Chosen(peers, sorted, k, filter, out)
        invariant limit > 0 ==> |out| <= limit
      {
        if limit > 0 && |out| == limit {
          ChosenMeans(peers, sorted, k, filter, out, orderBy);
          return out;
        }
        ChooseNext(peers, sorted, k, filter, out);
        if filter(peers[sorted[k]]) {
          out := out + [sorted[k]];
        }
      }
      ChosenMeans(peers, sorted, |sorted|, filter, out, orderBy);
    }

    /** handleRequestMessage of the session: one of the five fastest peers that can serve a block is asked for it, any
        of them; nobody exactly when there is none. */
    method ChooseServer(index: nat, offset: nat) returns (chosen: Option<Addr>)
      ensures chosen.None? <==> forall a :: a in peers ==> !Serves(peers[a].stats, peers[a].blocking, index, offset)
      ensures chosen.Some? ==>
        && chosen.value in peers
        && var p := peers[chosen.value];
           index in p.stats.pieces
           && (index in p.stats.fast || (!p.blocking && (index, offset) !in p.stats.requests && !p.stats.idle))
      ensures chosen.None? ==> forall a :: a in peers && index in peers[a].stats.pieces ==>
        index !in peers[a].stats.fast
        && (peers[a].blocking || (index, offset) in peers[a].stats.requests || peers[a].stats.idle)
      ensures chosen.Some? ==>
        |set a | a in peers && Serves(peers[a].stats, peers[a].blocking, index, offset)
                    && (peers[a].stats.uploadRate > peers[chosen.value].stats.uploadRate
                        || (peers[a].stats.uploadRate == peers[chosen.value].stats.uploadRate
                            && peers[a].stats.uploaded > peers[chosen.value].stats.uploaded))| < 5
    {
      ByUploadIsWeak();
      var res := Get(5, Some(ByUpload()), CanServe(index, offset));
      assert forall a :: (a in Those(peers, CanServe(index, offset))
                          <==> a in peers && Serves(peers[a].stats, peers[a].blocking, index, offset));
      if res == [] {
        return None;
      }
      var k: nat :| k < |res|;
      FewFaster(peers, CanServe(index, offset), res, res[k]);
      assert (set a | a in peers && Serves(peers[a].stats, peers[a].blocking, index, offset)
                      && (peers[a].stats.uploadRate > peers[res[k]].stats.uploadRate
                          || (peers[a].stats.uploadRate == peers[res[k]].stats.uploadRate
                              && peers[a].stats.uploaded > peers[res[k]].stats.uploaded)))
             == Faster(peers, CanServe(index, offset), res[k]);
      return Some(res[k]);
    }

    /** The statistics of the open peers. */
    method Swarms() returns (stat: SwarmStat)
      ensures stat == StatOf(peers)
      ensures stat.peers == |set a | a in peers && !peers[a].closed|
      ensures stat.choked == |set a | a in peers && !peers[a].closed && peers[a].choked|
      ensures stat.blocking == |set a | a in peers && !peers[a].closed && peers[a].blocking|
      ensures stat.interested == |set a | a in peers && !peers[a].closed && peers[a].interested|
      ensures stat.interesting == |set a | a in peers && !peers[a].closed && peers[a].interesting|
    {
      CountedEnds(peers);
      ThoseAre(peers);
      stat := NOBODY;
      var rest := peers.Keys;
      while rest != {}
        invariant rest <= peers.Keys
        invariant stat == Counted(peers, peers.Keys - rest)
        decreases rest
      {
        var a :| a in rest;
        CountedStep(peers, rest, a);
        stat := CountOne(stat, peers[a]);
        rest := rest - {a};
      }
    }

    /** One round of unchoke for this swarm. */
    method Unchoke() returns (first: Option<Addr>, second: Option<Addr>)
      modifies this
      ensures Enabled(old(peers), Round(first, second)) && peers == Next(old(peers), Round(first, second))
      ensures first.Some? ==>
        first.value in old(peers) && old(peers)[first.value].choked && old(peers)[first.value].interested
      ensures first.None? ==> forall a :: a in old(peers) && old(peers)[a].interested ==> !old(peers)[a].choked
      ensures peers.Keys == old(peers).Keys
      ensures forall a :: a in peers ==> peers[a] == old(peers)[a].(choked := peers[a].choked)
      ensures forall a :: a in peers ==>
        (peers[a].choked <==> second == Some(a) || (first != Some(a) && old(peers)[a].choked))
    {
      ghost var m := peers;
      var stat := Swarms();
      OpenSplits(m);
      var res := Get(1, None, IsCandidate());
      first, second := None, None;
      if res == [] {
        forall a ensures !Candidate(m, a) {
          assert a !in Those(m, IsCandidate());
        }
      } else {
        first := Some(res[0]);
        assert res[0] in Those(m, IsCandidate());
        peers := peers[res[0] := peers[res[0]].(choked := false)];
      }
      assert peers == AfterFirst(m, first);
      if stat.peers - stat.choked >= 4 {
        res := Get(1, None, IsUnchoked());
        assert Those(peers, IsUnchoked()) == Unchoked(peers);
        if res != [] {
          second := Some(res[0]);
          assert res[0] in Those(peers, IsUnchoked());
          peers := peers[res[0] := peers[res[0]].(choked := true)];
        }
      }
      RoundIs(m, first, second);
      PicksFirst(m, first, second);
    }
  }

  lemma {:induction false} RoundIs(m: Swarm, first: Option<Addr>, second: Option<Addr>)
    requires Picks(m, first, second)
    ensures var n := Next(m, Round(first, second));
            && n.Keys == m.Keys
            && (forall a :: a in n ==> n[a] == m[a].(choked := n[a].choked))
            && (forall a :: a in n ==> (n[a].choked <==> second == Some(a) || (first != Some(a) && m[a].choked)))
  {
    var n := Next(m, Round(first, second));
    assert AfterFirst(m, first).Keys == m.Keys;
    assert n.Keys == m.Keys;
    forall a | a in m
      ensures n[a] == m[a].(choked := n[a].choked)
      ensures n[a].choked <==> second == Some(a) || (first != Some(a) && m[a].choked)
    {
      RoundAt(m, first, second, a);
    }
  }

  lemma {:induction false} RoundAt(m: Swarm, first: Option<Addr>, second: Option<Addr>, a: Addr)
    requires a in m && (first.Some? ==> first.value in m) && (second.Some? ==> second.value in m)
    ensures a in AfterFirst(m, first) && a in AfterSecond(AfterFirst(m, first), second)
    ensures AfterSecond(AfterFirst(m, first), second)[a]
         == m[a].(choked := second == Some(a) || (first != Some(a) && m[a].choked))
  {
    var n := AfterFirst(m, first);
    assert n[a] == m[a].(choked := first != Some(a) && m[a].choked);
  }

  lemma {:induction false} PicksFirst(m: Swarm, first: Option<Addr>, second: Option<Addr>)
    requires Picks(m, first, second)
    ensures first.Some? ==> first.value in m && m[first.value].choked && m[first.value].interested
    ensures first.None? ==> forall a :: a in m && m[a].interested ==> !m[a].choked
  {
    if first.None? {
      forall a | a in m && m[a].interested ensures !m[a].choked {
        assert !Candidate(m, a);
      }
    }
  }

  lemma {:induction false} OpenSplits(m: Swarm)
    ensures |Those(m, IsOpen())| - |Those(m, IsOpenChoked())| == |OpenUnchoked(m)|
  {
    assert Those(m, IsOpen()) == Those(m, IsOpenChoked()) + OpenUnchoked(m);
  }

  // ----- the steps, peer by peer -----

  /** What the swarm sees of a peer. */
  function SeenOf(s: Peers.PeerState, stats: Stats): Peer
  {
    Peer(s.choked, s.blocking, s.interested, s.interesting, s.closed, stats)
  }

  /** The steps of the swarm are what happens to the peer that they are about: what it receives, what is sent to it,
      and its closing. All other peers stay as they are. */
  lemma {:induction false} StepsOfPeers(m: Swarm, a: Addr, s: Peers.PeerState, stats: Stats)
    requires a in m && m[a] == SeenOf(s, stats)
    ensures Enabled(m, Interested(a)) <==> !s.closed
    ensures !s.closed ==> Next(m, Interested(a)) == m[a := SeenOf(Peers.Received(s, Wire.Interested, true), stats)]
    ensures Enabled(m, NotInterested(a)) <==> !s.closed
    ensures !s.closed ==>
      Next(m, NotInterested(a)) == m[a := SeenOf(Peers.Received(s, Wire.NotInterested, true), stats)]
    ensures Enabled(m, Close(a)) <==> !s.closed
    ensures !s.closed ==> Next(m, Close(a)) == m[a := SeenOf(Peers.Step(s, Peers.Closes), stats)]
    ensures Enabled(m, Leave(a)) && Next(m, Leave(a)) == m - {a}
  {
  }

  lemma {:induction false} ToldByRound(m: Swarm, a: Addr, s: Peers.PeerState, stats: Stats)
    requires a in m && m[a] == SeenOf(s, stats) && !s.closed
    ensures AfterFirst(m, Some(a)) == m[a := SeenOf(Peers.Sent(s, Wire.Unchoke, true), stats)]
    ensures AfterSecond(m, Some(a)) == m[a := SeenOf(Peers.Sent(s, Wire.Choke, true), stats)]
  {
  }

  /** Whatever else is known of it may change at any time. */
  lemma {:induction false} OtherChanges(m: Swarm, a: Addr, s: Peers.PeerState, stats: Stats, t: Peers.PeerState,
                                        other: Stats)
    requires a in m && m[a] == SeenOf(s, stats)
    requires t == s.(blocking := t.blocking, interesting := t.interesting)
    ensures var e := Changes(a, t.blocking, t.interesting, other);
            Enabled(m, e) && Next(m, e) == m[a := SeenOf(t, other)]
  {
  }

  /** A peer joins as it is before any message, or after an Interested message. */
  lemma {:induction false} JoinsAs(m: Swarm, a: Addr, stats: Stats)
    ensures Enabled(m, Join(a, false, stats)) <==> a !in m
    ensures Enabled(m, Join(a, true, stats)) <==> a !in m
    ensures a !in m ==> Next(m, Join(a, false, stats)) == m[a := SeenOf(Peers.FRESH, stats)]
    ensures a !in m ==>
      Next(m, Join(a, true, stats)) == m[a := SeenOf(Peers.Received(Peers.FRESH, Wire.Interested, true), stats)]
  {
  }

  // ----- the accounts of a round -----

  lemma {:induction false} OpenAreUnchoked(m: Swarm)
    ensures |OpenUnchoked(m)| <= |Unchoked(m)| <= |OpenUnchoked(m)| + |Closed(m)|
  {
    SubsetCardinality(OpenUnchoked(m), Unchoked(m));
    SubsetCardinality(Unchoked(m) - OpenUnchoked(m), Closed(m));
    assert Unchoked(m) == OpenUnchoked(m) + (Unchoked(m) - OpenUnchoked(m));
  }

  lemma {:induction false} FirstAdds(m: Swarm, a: Addr)
    requires a in m && m[a].choked
    ensures Unchoked(AfterFirst(m, Some(a))) == Unchoked(m) + {a} && a !in Unchoked(m)
  {
  }

  lemma {:induction false} SecondTakes(m: Swarm, a: Addr)
    requires a in Unchoked(m)
    ensures Unchoked(AfterSecond(m, Some(a))) == Unchoked(m) - {a}
  {
  }

  /** A round unchokes one peer if there is a candidate, and chokes one if four or more open peers were
      unchoked before. */
  lemma {:induction false} RoundAccounts(m: Swarm, first: Option<Addr>, second: Option<Addr>)
    requires Picks(m, first, second)
    ensures |Unchoked(Next(m, Round(first, second)))|
         == |Unchoked(m)| + (if exists a :: Candidate(m, a) then 1 else 0) - (if |OpenUnchoked(m)| >= 4 then 1 else 0)
  {
    OpenAreUnchoked(m);
    var n := AfterFirst(m, first);
    if first.Some? {
      FirstAdds(m, first.value);
    }
    assert |Unchoked(n)| == |Unchoked(m)| + if first.Some? then 1 else 0;
    if second.Some? {
      SecondTakes(n, second.value);
    }
  }

  /** The number of unchoked peers is at most 4, plus the Interested messages and the closings so far. */
  ghost predicate Bounded(m: Swarm, interested: nat, closings: nat)
  {
    |Unchoked(m)| <= 4 + interested + closings && |Closed(m)| <= closings
  }

  ghost function With(s: set<Addr>, a: Addr, b: bool): set<Addr>
  {
    if b then s + {a} else s
  }

  lemma {:induction false} StepSets(m: Swarm, e: Event)
    requires Enabled(m, e) && !e.Round?
    ensures var n := Next(m, e);
            match e
            case Join(a, heard, _) => Unchoked(n) == With(Unchoked(m), a, heard) && Closed(n) == Closed(m)
            case Leave(a) => Unchoked(n) == Unchoked(m) - {a} && Closed(n) == Closed(m) - {a}
            case Close(a) => Unchoked(n) == Unchoked(m) && Closed(n) == Closed(m) + {a}
            case Interested(a) => Unchoked(n) == Unchoked(m) + {a} && Closed(n) == Closed(m)
            case _ => Unchoked(n) == Unchoked(m) && Closed(n) == Closed(m)
  {
    match e
    case Join(_, _, _) =>
    case Leave(_) =>
    case Close(_) =>
    case Interested(_) =>
    case NotInterested(_) =>
    case Changes(_, _, _, _) =>
  }

  lemma {:induction false} RoundKeepsBound(m: Swarm, first: Option<Addr>, second: Option<Addr>, interested: nat,
                                           closings: nat)
    requires Picks(m, first, second) && Bounded(m, interested, closings)
    ensures Bounded(Next(m, Round(first, second)), interested, closings)
  {
    RoundAccounts(m, first, second);
    OpenAreUnchoked(m);
    assert Closed(Next(m, Round(first, second))) == Closed(m);
  }

  lemma {:induction false} StepKeepsBound(m: Swarm, e: Event, interested: nat, closings: nat)
    requires Enabled(m, e) && Bounded(m, interested, closings)
    ensures Bounded(Next(m, e), interested + (if Hears(e) then 1 else 0), closings + (if e.Close? then 1 else 0))
  {
    if e.Round? {
      RoundKeepsBound(m, e.first, e.second, interested, closings);
    } else {
      StepSets(m, e);
    }
  }

  lemma {:induction false} RunKeepsBound(m: Swarm, events: seq<Event>, interested: nat, closings: nat)
    requires Run(m, events) && Bounded(m, interested, closings)
    ensures Bounded(Exec(m, events), interested + Tally(events).0, closings + Tally(events).1)
    decreases |events|
  {
    if events != [] {
      StepKeepsBound(m, events[0], interested, closings);
      RunKeepsBound(Next(m, events[0]), events[1..], interested + (if Hears(events[0]) then 1 else 0),
                    closings + (if events[0].Close? then 1 else 0));
    }
  }

  /** Over every run from an empty swarm. While no peer closes, the last term is 0. */
  lemma {:induction false} UnchokedIsBounded(events: seq<Event>)
    requires Run(map[], events)
    ensures |Unchoked(Exec(map[], events))| <= 4 + Tally(events).0 + Tally(events).1
  {
    RunKeepsBound(map[], events, 0, 0);
  }

  // ----- rounds without candidates -----

  ghost predicate Quiet(m: Swarm, events: seq<Event>)
    requires Run(m, events)
    decreases |events|
  {
    events == [] || (events[0].Round? && (forall a :: !Candidate(m, a)) && Quiet(Next(m, events[0]), events[1..]))
  }

  /** In a swarm of open peers, rounds that find no candidate take the number of unchoked peers down to 3,
      one by one, and leave it there. */
  lemma {:induction false} QuietRoundsShrink(m: Swarm, events: seq<Event>)
    requires Run(m, events) && Quiet(m, events) && Closed(m) == {}
    ensures var n := |Unchoked(m)|;
            |Unchoked(Exec(m, events))| == if n < 4 then n else if n - |events| < 3 then 3 else n - |events|
    decreases |events|
  {
    if events != [] {
      var e := events[0];
      RoundAccounts(m, e.first, e.second);
      OpenAreUnchoked(m);
      assert Closed(Next(m, e)) == {};
      QuietRoundsShrink(Next(m, e), events[1..]);
    }
  }
}
