/** The piece manager (internal/pieces/service.go): files on disk behind a cache in memory. Load fills the
    cache; Save writes the file and leaves the cache alone. The worker saves a piece only after Verify. */
module PieceCache {
  import opened Basics
  import Torrents

  type InfoHash = Bytes

  /** The program's maps of maps, by torrent and index, are maps on pairs here. */
  datatype Key = Key(hash: InfoHash, index: nat)

  /** The info hash of a torrent determines the hashes of its pieces. */
  datatype Config = Config(sha1: HashFunction, pieces: InfoHash -> seq<Digest>)

  datatype State = State(registered: set<InfoHash>, cache: map<Key, Bytes>, disk: map<Key, Bytes>,
                         requests: map<Key, nat>)

  datatype Event =
    | Register(hash: InfoHash)
    | Load(key: Key)
    | Save(key: Key, data: Bytes)
    | SavePiece(key: Key, data: Bytes)

  datatype Answer = Done | Loaded(data: Bytes) | UnknownHash | NotFound | Corrupt | Panic

  // ----- the steps on values -----

  function Verdict(c: Config, registered: set<InfoHash>, key: Key, data: Bytes): Answer
  {
    if key.hash !in registered then UnknownHash
    else if key.index >= |c.pieces(key.hash)| then Panic
    else if c.sha1(data) == c.pieces(key.hash)[key.index] then Done
    else Corrupt
  }

  function WithoutTorrent<V>(m: map<Key, V>, hash: InfoHash): (r: map<Key, V>)
    ensures forall k :: k in r <==> k in m && k.hash != hash
    ensures forall k :: k in r ==> r[k] == m[k]
  {
    map k | k in m && k.hash != hash :: m[k]
  }

  function Requested(requests: map<Key, nat>, key: Key): map<Key, nat>
  {
    requests[key := (if key in requests then requests[key] else 0) + 1]
  }

  function Step(c: Config, s: State, e: Event): (State, Answer)
  {
    match e
    case Register(hash) =>
      (s.(registered := s.registered + {hash}, cache := WithoutTorrent(s.cache, hash),
          requests := WithoutTorrent(s.requests, hash)), Done)
    case Load(key) =>
      if key.hash !in s.registered then (s, UnknownHash)
      else
        var t := s.(requests := Requested(s.requests, key));
        if key in s.cache then (t, Loaded(s.cache[key]))
        else if key in s.disk then (t.(cache := s.cache[key := s.disk[key]]), Loaded(s.disk[key]))
        else (t, NotFound)
    case Save(key, data) =>
      if key.hash !in s.registered then (s, UnknownHash) else (s.(disk := s.disk[key := data]), Done)
    case SavePiece(key, data) =>
      var verdict := Verdict(c, s.registered, key, data);
      (if verdict == Done then s.(disk := s.disk[key := data]) else s, verdict)
  }

  /** The same service without a cache. */
  function Direct(c: Config, registered: set<InfoHash>, disk: map<Key, Bytes>, e: Event)
    : (set<InfoHash>, map<Key, Bytes>, Answer)
  {
    match e
    case Register(hash) => (registered + {hash}, disk, Done)
    case Load(key) =>
      (registered, disk,
       if key.hash !in registered then UnknownHash else if key in disk then Loaded(disk[key]) else NotFound)
    case Save(key, data) =>
      if key.hash !in registered then (registered, disk, UnknownHash) else (registered, disk[key := data], Done)
    case SavePiece(key, data) =>
      var verdict := Verdict(c, registered, key, data);
      (registered, if verdict == Done then disk[key := data] else disk, verdict)
  }

  function Answers(c: Config, s: State, events: seq<Event>): seq<Answer>
    decreases |events|
  {
    if events == [] then [] else
    var (t, answer) := Step(c, s, events[0]);
    [answer] + Answers(c, t, events[1..])
  }

  function DirectAnswers(c: Config, registered: set<InfoHash>, disk: map<Key, Bytes>, events: seq<Event>): seq<Answer>
    decreases |events|
  {
    if events == [] then [] else
    var (r, d, answer) := Direct(c, registered, disk, events[0]);
    [answer] + DirectAnswers(c, r, d, events[1..])
  }

  function Exec(c: Config, s: State, events: seq<Event>): State
    decreases |events|
  {
    if events == [] then s else Exec(c, Step(c, s, events[0]).0, events[1..])
  }

  // ----- the service itself -----

  class PieceManager {
    const c: Config
    var registered: set<InfoHash>
    var cache: map<Key, Bytes>
    var requests: map<Key, nat>
    var disk: map<Key, Bytes>

    ghost function View(): State
      reads this
    {
      State(registered, cache, disk, requests)
    }

    constructor (c: Config, disk: map<Key, Bytes>)
      ensures this.c == c && View() == State({}, map[], disk, map[])
    {
      this.c, this.disk := c, disk;
      registered, cache, requests := {}, map[], map[];
    }

    method Register(hash: InfoHash)
      modifies this
      ensures (View(), Done) == Step(c, old(View()), Event.Register(hash))
      ensures registered == old(registered) + {hash} && disk == old(disk)
      ensures forall k :: k in cache <==> k in old(cache) && k.hash != hash
      ensures forall k :: k in cache ==> cache[k] == old(cache)[k]
      ensures forall k :: k in requests <==> k in old(requests) && k.hash != hash
      ensures forall k :: k in requests ==> requests[k] == old(requests)[k]
    {
      registered := registered + {hash};
      cache := WithoutTorrent(cache, hash);
      requests := WithoutTorrent(requests, hash);
    }

    method Save(key: Key, data: Bytes) returns (r: Answer)
      modifies this`disk
      ensures (View(), r) == Step(c, old(View()), Event.Save(key, data))
      ensures r == if key.hash in registered then Done else UnknownHash
      ensures disk == if key.hash in registered then old(disk)[key := data] else old(disk)
    {
      if key.hash !in registered {
        return UnknownHash;
      }
      disk := disk[key := data];
      return Done;
    }

    method Load(key: Key) returns (r: Answer)
      modifies this`cache, this`requests
      ensures (View(), r) == Step(c, old(View()), Event.Load(key))
      ensures key.hash !in registered ==> r == UnknownHash && cache == old(cache) && requests == old(requests)
      ensures key.hash in registered ==>
        && (key in old(cache) ==> r == Loaded(old(cache)[key]) && cache == old(cache))
        && (key !in old(cache) && key in disk ==> r == Loaded(disk[key]) && cache == old(cache)[key := disk[key]])
        && (key !in old(cache) && key !in disk ==> r == NotFound && cache == old(cache))
        && requests == old(requests)[key := 1 + if key in old(requests) then old(requests)[key] else 0]
    {
      if key.hash !in registered {
        return UnknownHash;
      }
      requests := Requested(requests, key);
      if key in cache {
        return Loaded(cache[key]);
      }
      if key !in disk {
        return NotFound;
      }
      cache := cache[key := disk[key]];
      return Loaded(cache[key]);
    }

    method Verify(key: Key, data: Bytes) returns (r: Answer)
      ensures r == Verdict(c, registered, key, data)
      ensures r == UnknownHash <==> key.hash !in registered
      ensures r == Panic <==> key.hash in registered && key.index >= |c.pieces(key.hash)|
      ensures r == Done <==>
        key.hash in registered && key.index < |c.pieces(key.hash)| && c.sha1(data) == c.pieces(key.hash)[key.index]
      ensures r in {UnknownHash, Panic, Done, Corrupt}
    {
      if key.hash !in registered {
        return UnknownHash;
      }
      if key.index >= |c.pieces(key.hash)| {
        return Panic;
      }
      return if c.sha1(data) == c.pieces(key.hash)[key.index] then Done else Corrupt;
    }

    /** savePiece of the worker. */
    method SavePiece(key: Key, data: Bytes) returns (r: Answer)
      modifies this`disk
      ensures (View(), r) == Step(c, old(View()), Event.SavePiece(key, data))
      ensures r == Done <==>
        key.hash in registered && key.index < |c.pieces(key.hash)| && c.sha1(data) == c.pieces(key.hash)[key.index]
      ensures disk == if r == Done then old(disk)[key := data] else old(disk)
    {
      r := Verify(key, data);
      if r != Done {
        return r;
      }
      r := Save(key, data);
    }
  }

  // ----- the cache against the disk -----

  ghost predicate Agrees(s: State)
  {
    forall k :: k in s.cache ==> k in s.disk && s.disk[k] == s.cache[k]
  }

  ghost predicate Genuine(c: Config, disk: map<Key, Bytes>)
  {
    forall k :: k in disk ==> k.index < |c.pieces(k.hash)| && c.sha1(disk[k]) == c.pieces(k.hash)[k.index]
  }

  /** One step keeps the agreement, except that a Save keeps it exactly when the piece is not in the cache, or
      is there with the same bytes. */
  lemma {:induction false} SaveKeepsAgreement(c: Config, s: State, e: Event)
    requires Agrees(s)
    ensures Agrees(Step(c, s, e).0) <==>
            match e
            case Save(key, data) => key.hash !in s.registered || key !in s.cache || s.cache[key] == data
            case SavePiece(key, data) => Verdict(c, s.registered, key, data) != Done || key !in s.cache
              || s.cache[key] == data
            case _ => true
  {
    var t := Step(c, s, e).0;
    match e
    case Save(key, data) =>
      if key in s.cache {
        assert key in t.cache;
      }
    case SavePiece(key, data) =>
      if key in s.cache {
        assert key in t.cache;
      }
    case _ =>
  }

  /** All the contents that ever get to the disk. */
  function Contents(disk: map<Key, Bytes>, events: seq<Event>): set<Bytes>
  {
    disk.Values + set e | e in events && e.SavePiece? :: e.data
  }

  /** A verified save puts no new bytes in the place of a genuine piece. */
  lemma {:induction false} SameContents(c: Config, s: State, key: Key, data: Bytes, all: set<Bytes>)
    requires Genuine(c, s.disk) && Torrents.CollisionFree(c.sha1, all)
    requires s.disk.Values <= all && data in all
    requires key in s.disk && Verdict(c, s.registered, key, data) == Done
    ensures s.disk[key] == data
  {
    assert s.disk[key] in all;
  }

  lemma {:induction false} PutKeepsAgreement(c: Config, s: State, key: Key, data: Bytes, all: set<Bytes>)
    requires Agrees(s) && Genuine(c, s.disk) && Verdict(c, s.registered, key, data) == Done
    requires Torrents.CollisionFree(c.sha1, all) && s.disk.Values <= all && data in all
    ensures var t := s.(disk := s.disk[key := data]); Agrees(t) && Genuine(c, t.disk) && t.disk.Values <= all
  {
    var t := s.(disk := s.disk[key := data]);
    if key in s.disk {
      SameContents(c, s, key, data, all);
      assert t.disk == s.disk;
    } else {
      assert t.disk.Values <= s.disk.Values + {data};
    }
  }

  lemma {:induction false} StepKeepsAgreement(c: Config, s: State, e: Event, all: set<Bytes>)
    requires Agrees(s) && Genuine(c, s.disk) && !e.Save?
    requires Torrents.CollisionFree(c.sha1, all) && s.disk.Values <= all && (e.SavePiece? ==> e.data in all)
    ensures var t := Step(c, s, e).0; Agrees(t) && Genuine(c, t.disk) && t.disk.Values <= all
  {
    match e
    case SavePiece(key, data) =>
      if Verdict(c, s.registered, key, data) == Done {
        PutKeepsAgreement(c, s, key, data, all);
      }
    case _ =>
      OthersKeepAgreement(c, s, e);
  }

  lemma {:induction false} OthersKeepAgreement(c: Config, s: State, e: Event)
    requires Agrees(s) && (e.Load? || e.Register?)
    ensures Agrees(Step(c, s, e).0) && Step(c, s, e).0.disk == s.disk
  {
  }

  lemma {:induction false} StepAnswers(c: Config, s: State, e: Event)
    requires Agrees(s)
    ensures Direct(c, s.registered, s.disk, e) == (Step(c, s, e).0.registered, Step(c, s, e).0.disk, Step(c, s, e).1)
  {
  }

  lemma {:induction false} RunRefines(c: Config, s: State, events: seq<Event>, all: set<Bytes>)
    requires Agrees(s) && Genuine(c, s.disk) && Torrents.CollisionFree(c.sha1, all)
    requires s.disk.Values <= all && forall e :: e in events ==> !e.Save? && (e.SavePiece? ==> e.data in all)
    ensures Answers(c, s, events) == DirectAnswers(c, s.registered, s.disk, events)
    ensures Agrees(Exec(c, s, events)) && Genuine(c, Exec(c, s, events).disk)
    decreases |events|
  {
    if events != [] {
      StepAnswers(c, s, events[0]);
      StepKeepsAgreement(c, s, events[0], all);
      RunRefines(c, Step(c, s, events[0]).0, events[1..], all);
    }
  }

  /** Over every run of Register, Load and verified saves on a disk of genuine pieces, the cache makes no
      difference to any answer, and agrees with the disk, although no save ever refreshes it. */
  lemma {:induction false} CacheIsTransparent(c: Config, disk: map<Key, Bytes>, events: seq<Event>)
    requires Genuine(c, disk) && Torrents.CollisionFree(c.sha1, Contents(disk, events))
    requires forall e :: e in events ==> !e.Save?
    ensures var s := State({}, map[], disk, map[]);
            && Answers(c, s, events) == DirectAnswers(c, {}, disk, events)
            && Agrees(Exec(c, s, events)) && Genuine(c, Exec(c, s, events).disk)
  {
    RunRefines(c, State({}, map[], disk, map[]), events, Contents(disk, events));
  }

  /** A save that is not verified leaves the old bytes in the cache: Load goes on giving those. */
  lemma {:induction false} UnverifiedSaveIsNotSeen(c: Config, hash: InfoHash, before: Bytes, after: Bytes)
    requires before != after
    ensures var k := Key(hash, 0);
            var s := State({hash}, map[], map[k := before], map[]);
            var t := Step(c, Step(c, s, Load(k)).0, Save(k, after)).0;
            Step(c, t, Load(k)).1 == Loaded(before) && t.disk[k] == after
  {
  }
}
