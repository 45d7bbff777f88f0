/** One peer (pkg/btorrent/peer/peer.go): what sending and receiving messages does to its flags, its list of
    outstanding requests, its bit field and its counters. */
module Peers {
  import opened Basics
  import opened Numbers
  import opened Wire
  import Bits

  type Pending = m: Message | m.Request? witness Request(0, 0, 0)

  /** `wire` lists the messages that were written to the connection. */
  datatype PeerState = PeerState(blocking: bool, choked: bool, interested: bool, interesting: bool, closed: bool,
                                 requests: seq<Pending>, uploaded: nat, downloaded: nat, wire: seq<Message>)

  const FRESH: PeerState := PeerState(true, true, false, false, false, [], 0, 0, [])

  /** `writes` says whether the connection takes the message that the event writes, if it is still open. */
  datatype Event = Sends(msg: Message, writes: bool) | Receives(msg: Message, writes: bool) | Closes

  // ----- the steps on values -----

  function Flagged(s: PeerState, msg: Message): PeerState
  {
    match msg
    case Unchoke => s.(choked := false)
    case Choke => s.(choked := true)
    case Interested => s.(interesting := true)
    case NotInterested => s.(interesting := false)
    case Request(_, _, _) => s.(requests := s.requests + [msg])
    case Piece(_, _, data) => s.(downloaded := s.downloaded + |data|)
    case _ => s
  }

  function Sent(s: PeerState, msg: Message, writes: bool): PeerState
  {
    if msg == Interested && s.interesting then s
    else if writes && !s.closed then Flagged(s, msg).(wire := s.wire + [msg])
    else Flagged(s, msg).(closed := true)
  }

  /** A Piece removes the requests that have its index or its offset, a Reject those that have its index. */
  predicate Removes(msg: Message, r: Pending)
  {
    match msg
    case Choke => true
    case Piece(index, offset, _) => r.index == index || r.offset == offset
    case Reject(index, _, _) => r.index == index
    case _ => false
  }

  function Remaining(msg: Message, requests: seq<Pending>): seq<Pending>
  {
    if requests == [] then []
    else
      var most, last := Remaining(msg, requests[..|requests| - 1]), requests[|requests| - 1];
      if Removes(msg, last) then most else most + [last]
  }

  function Received(s: PeerState, msg: Message, writes: bool): PeerState
  {
    match msg
    case Piece(_, _, data) => s.(uploaded := s.uploaded + |data|, requests := Remaining(msg, s.requests))
    case Choke => s.(blocking := true, requests := Remaining(msg, s.requests))
    case Unchoke => s.(blocking := false)
    case Interested => Sent(s.(interested := true), Unchoke, writes)
    case NotInterested => s.(interested := false)
    case Reject(_, _, _) => s.(requests := Remaining(msg, s.requests))
    case _ => s
  }

  function Step(s: PeerState, e: Event): PeerState
  {
    match e
    case Sends(msg, writes) => Sent(s, msg, writes)
    case Receives(msg, writes) => Received(s, msg, writes)
    case Closes => s.(closed := true)
  }

  function After(history: seq<Event>): PeerState
  {
    if history == [] then FRESH else Step(After(history[..|history| - 1]), history[|history| - 1])
  }

  /** What a message does to the indices in the peer's bit field of `size` bytes. */
  ghost function PiecesAfter(pieces: set<nat>, size: nat, msg: Message): set<nat>
  {
    match msg
    case Have(index) => if index < 8 * size then pieces + {index} else pieces
    case BitField(bits) => Bits.Indices(AsBits(bits))
    case HaveAll => Below(size)
    case _ => pieces
  }

  /** And to the number of bytes of that field. */
  function SizeAfter(size: nat, msg: Message): nat
  {
    match msg
    case BitField(bits) => |bits|
    case HaveAll => (size + 7) / 8
    case _ => size
  }

  function AsBits(bits: Bytes): (r: seq<bv8>)
    ensures |r| == |bits|
  {
    seq(|bits|, i requires 0 <= i < |bits| => bits[i] as bv8)
  }

  // ----- the peer itself -----

  class Peer {
    var blocking: bool
    var choked: bool
    var interested: bool
    var interesting: bool
    var closed: bool
    var requests: seq<Pending>
    var uploaded: nat
    var downloaded: nat
    var pieces: array<bv8>
    ghost var wire: seq<Message>
    var onClose: seq<nat>
    ghost var ran: seq<nat>

    ghost function View(): PeerState
      reads this
    {
      PeerState(blocking, choked, interested, interesting, closed, requests, uploaded, downloaded, wire)
    }

    ghost function Has(): set<nat>
      reads this, pieces
    {
      Bits.Indices(pieces[..])
    }

    constructor (nPieces: nat)
      ensures View() == FRESH && Has() == {} && fresh(pieces) && pieces.Length == (nPieces + 7) / 8
      ensures onClose == [] && ran == []
    {
      blocking, choked, interested, interesting, closed := true, true, false, false, false;
      requests, uploaded, downloaded, wire := [], 0, 0, [];
      onClose, ran := [], [];
      var field := Bits.NewBitField(nPieces);
      pieces := field;
    }

    method OnClose(fn: nat)
      modifies this`onClose
      ensures onClose == old(onClose) + [fn]
    {
      onClose := onClose + [fn];
    }

    /** The hooks are run by the first Close only. */
    method Close()
      modifies this`closed, this`ran
      ensures View() == Step(old(View()), Closes)
      ensures ran == if old(closed) then old(ran) else old(ran) + onClose
    {
      if closed {
        return;
      }
      for i := 0 to |onClose|
        invariant ran == old(ran) + onClose[..i]
        invariant !closed
      {
        ran := ran + [onClose[i]];
      }
      assert onClose[..|onClose|] == onClose;
      closed := true;
    }

    method IsServing(index: uint32, offset: uint32) returns (found: bool)
      ensures found <==> exists r :: r in requests && r.index == index && r.offset == offset
    {
      for i := 0 to |requests|
        invariant forall j :: 0 <= j < i ==> !(requests[j].index == index && requests[j].offset == offset)
      {
        if requests[i].index == index && requests[i].offset == offset {
          return true;
        }
      }
      return false;
    }

    method Send(msg: Message, writes: bool) returns (ok: bool)
      modifies this
      ensures View() == Step(old(View()), Sends(msg, writes))
      ensures pieces == old(pieces)
    {
      if msg == Interested && interesting {
        return true;
      }
      Flag(msg);
      ok := Write(msg, writes);
      if !ok {
        Close();
      }
    }

    /** The message switch of Send. */
    method Flag(msg: Message)
      modifies this
      ensures View() == Flagged(old(View()), msg)
      ensures pieces == old(pieces) && onClose == old(onClose) && ran == old(ran)
    {
      match msg {
        case Unchoke => choked := false;
        case Choke => choked := true;
        case Interested => interesting := true;
        case NotInterested => interesting := false;
        case Request(_, _, _) => requests := requests + [msg];
        case Piece(_, _, data) => downloaded := downloaded + |data|;
        case _ =>
      }
    }

    method Write(msg: Message, writes: bool) returns (ok: bool)
      modifies this`wire
      ensures ok <==> writes && !closed
      ensures wire == if ok then old(wire) + [msg] else old(wire)
    {
      ok := writes && !closed;
      if ok {
        wire := wire + [msg];
      }
    }

    method Remove(msg: Message)
      requires msg.Piece? || msg.Reject?
      modifies this`requests
      ensures requests == Remaining(msg, old(requests))
    {
      var out: seq<Pending> := [];
      for i := 0 to |requests|
        invariant out == Remaining(msg, requests[..i])
      {
        assert requests[..i + 1][..i] == requests[..i];
        var r := requests[i];
        if msg.Piece? {
          if r.index != msg.index && r.offset != msg.offset {
            out := out + [r];
          }
        } else if r.index != msg.index {
          out := out + [r];
        }
      }
      assert requests[..|requests|] == requests;
      requests := out;
    }

    /** The message switch of Listen: first the peer's bit field, then everything else. */
    method Handle(msg: Message, writes: bool)
      modifies this, pieces
      ensures View() == Step(old(View()), Receives(msg, writes))
      ensures Has() == PiecesAfter(old(Has()), old(pieces.Length), msg)
      ensures pieces.Length == SizeAfter(old(pieces.Length), msg)
      ensures pieces == old(pieces) || fresh(pieces)
    {
      HandlePieces(msg);
      HandleRest(msg, writes);
    }

    method HandlePieces(msg: Message)
      modifies this`pieces, pieces
      ensures Has() == PiecesAfter(old(Has()), old(pieces.Length), msg)
      ensures pieces.Length == SizeAfter(old(pieces.Length), msg)
      ensures pieces == old(pieces) || fresh(pieces)
    {
      match msg {
        case Have(index) =>
          var ok := Bits.Set(pieces, index);
        case BitField(bits) =>
          pieces := new bv8[|bits|](i requires 0 <= i < |bits| => bits[i] as bv8);
          assert pieces[..] == AsBits(bits);
        case HaveAll =>
          var ones := Bits.Ones(pieces.Length);  // a number of bytes, not of bits
          pieces := ones;
        case _ =>
      }
    }

    /** The loop of Listen over messages that arrive; `writes` is for the answers. An index is in the peer's field if
        and only if the field had it when it was last set as a whole, or a Have came after that and the field had
        room for it. */
    method Listen(msgs: seq<Message>, writes: seq<bool>)
      requires |writes| == |msgs|
      modifies this, pieces
      ensures View() == Receiving(old(View()), msgs, writes)
      ensures pieces.Length == FieldSize(old(pieces.Length), msgs)
      ensures var r, size := LastReset(msgs), FieldSize(old(pieces.Length), msgs);
              forall k: nat :: Bits.Get(pieces[..], k) <==>
                || (r == 0 && Bits.Get(old(pieces[..]), k))
                || (r > 0 && msgs[r - 1].BitField? && BitOf(msgs[r - 1].bits, k))
                || (r > 0 && msgs[r - 1].HaveAll? && k < FieldSize(old(pieces.Length), msgs[..r - 1]))
                || exists j :: r <= j < |msgs| && msgs[j].Have? && msgs[j].index == k && k < 8 * size
    {
      ghost var start := pieces[..];
      Bits.IndicesAre(start);
      for n := 0 to |msgs|
        modifies this, pieces
        invariant pieces == old(pieces) || fresh(pieces)
        invariant View() == Receiving(old(View()), msgs[..n], writes[..n])
        invariant pieces.Length == FieldSize(|start|, msgs[..n])
        invariant forall k: nat :: k in Has() <==> Announced(start, msgs[..n], k)
      {
        assert msgs[..n + 1][..n] == msgs[..n] && writes[..n + 1][..n] == writes[..n];
        ghost var had := Has();
        Handle(msgs[n], writes[n]);
        AnnouncedOn(start, msgs, n, had, Has());
      }
      assert msgs[..|msgs|] == msgs && writes[..|msgs|] == writes;
      AnnouncedIs(start, msgs, pieces[..]);
    }

    method HandleRest(msg: Message, writes: bool)
      modifies this
      ensures View() == Step(old(View()), Receives(msg, writes))
      ensures pieces == old(pieces)
    {
      match msg {
        case Piece(_, _, data) =>
          uploaded := uploaded + |data|;
          Remove(msg);
        case Choke =>
          blocking := true;
          RemainingNone(requests);
          requests := [];
        case Unchoke =>
          blocking := false;
        case Interested =>
          interested := true;
          var ok := Send(Unchoke, writes);
        case NotInterested =>
          interested := false;
        case Reject(_, _, _) =>
          Remove(msg);
        case _ =>
      }
    }
  }

  /** The state after the messages, one by one. */
  function Receiving(s: PeerState, msgs: seq<Message>, writes: seq<bool>): PeerState
    requires |writes| == |msgs|
  {
    if msgs == [] then s
    else
      var n := |msgs| - 1;
      Step(Receiving(s, msgs[..n], writes[..n]), Receives(msgs[n], writes[n]))
  }

  // ----- the pieces of the peer -----

  /** How many messages there are up to the last one that sets the whole field. */
  function LastReset(msgs: seq<Message>): (r: nat)
    ensures r <= |msgs|
    ensures r > 0 ==> msgs[r - 1].BitField? || msgs[r - 1].HaveAll?
    ensures forall j :: r <= j < |msgs| ==> !msgs[j].BitField? && !msgs[j].HaveAll?
  {
    if msgs == [] then 0
    else if msgs[|msgs| - 1].BitField? || msgs[|msgs| - 1].HaveAll? then |msgs|
    else LastReset(msgs[..|msgs| - 1])
  }

  /** How many bytes the field has: as many as the last BitField; but HaveAll takes it to an eighth. */
  function FieldSize(size: nat, msgs: seq<Message>): nat
  {
    if msgs == [] then size
    else
      var before := FieldSize(size, msgs[..|msgs| - 1]);
      match msgs[|msgs| - 1]
      case BitField(bits) => |bits|
      case HaveAll => (before + 7) / 8
      case _ => before
  }

  /** Bit k of the bytes of a message, the first bit of a byte being its highest. */
  predicate BitOf(bits: Bytes, k: nat)
  {
    k / 8 < |bits| && bits[k / 8] as nat / Power2(7 - k % 8) % 2 == 1
  }

  function Power2(n: nat): (r: nat)
    ensures r > 0
  {
    if n == 0 then 1 else 2 * Power2(n - 1)
  }

  /** What is said of index k in the end. */
  ghost predicate Announced(start: seq<bv8>, msgs: seq<Message>, k: nat)
  {
    var r := LastReset(msgs);
    || (if r == 0 then Bits.Get(start, k)
        else if msgs[r - 1].BitField? then BitOf(msgs[r - 1].bits, k)
        else k < FieldSize(|start|, msgs[..r - 1]))
    || exists j :: r <= j < |msgs| && msgs[j].Have? && msgs[j].index == k && k < 8 * FieldSize(|start|, msgs)
  }

  lemma {:induction false} BitsOfByte(b: byte, i: nat)
    requires i < 8
    ensures Bits.Bit(b as bv8, i) <==> b as nat / Power2(7 - i) % 2 == 1
  {
    if i < 4 {
      HighBits(b, i);
    } else {
      LowBits(b, i);
    }
  }

  lemma {:induction false} HighBits(b: byte, i: nat)
    requires i < 4
    ensures Bits.Bit(b as bv8, i) <==> b as nat / Power2(7 - i) % 2 == 1
  {
    Bits.MaskValues();
    assert Power2(7) == 128 && Power2(6) == 64 && Power2(5) == 32 && Power2(4) == 16;
    if i < 2 {
      assert i == 0 || i == 1;
    } else {
      assert i == 2 || i == 3;
    }
  }

  lemma {:induction false} LowBits(b: byte, i: nat)
    requires 4 <= i < 8
    ensures Bits.Bit(b as bv8, i) <==> b as nat / Power2(7 - i) % 2 == 1
  {
    Bits.MaskValues();
    assert Power2(3) == 8 && Power2(2) == 4 && Power2(1) == 2 && Power2(0) == 1;
    if i < 6 {
      assert i == 4 || i == 5;
    } else {
      assert i == 6 || i == 7;
    }
  }

  lemma {:induction false} AnnouncedStep(start: seq<bv8>, msgs: seq<Message>, n: nat, had: set<nat>, k: nat)
    requires n < |msgs| && (k in had <==> Announced(start, msgs[..n], k))
    ensures k in PiecesAfter(had, FieldSize(|start|, msgs[..n]), msgs[n]) <==> Announced(start, msgs[..n + 1], k)
  {
    var before, after, m := msgs[..n], msgs[..n + 1], msgs[n];
    assert after[..n] == before && after[n] == m;
    if m.BitField? {
      BitsOfField(m.bits, k);
      assert LastReset(after) == n + 1;
    } else if m.HaveAll? {
      assert LastReset(after) == n + 1 && after[..n] == before;
    } else {
      var r := LastReset(before);
      assert LastReset(after) == r && FieldSize(|start|, after) == FieldSize(|start|, before);
      if r > 0 {
        assert after[r - 1] == before[r - 1] && after[..r - 1] == before[..r - 1];
      }
      SomeHave(before, m, after, r, k, 8 * FieldSize(|start|, before));
    }
  }

  lemma {:induction false} AnnouncedOn(start: seq<bv8>, msgs: seq<Message>, n: nat, had: set<nat>, has: set<nat>)
    requires n < |msgs| && forall k: nat :: k in had <==> Announced(start, msgs[..n], k)
    requires has == PiecesAfter(had, FieldSize(|start|, msgs[..n]), msgs[n])
    ensures forall k: nat :: k in has <==> Announced(start, msgs[..n + 1], k)
  {
    forall k: nat ensures k in has <==> Announced(start, msgs[..n + 1], k) {
      AnnouncedStep(start, msgs, n, had, k);
    }
  }

  lemma {:induction false} AnnouncedIs(start: seq<bv8>, msgs: seq<Message>, field: seq<bv8>)
    requires forall k: nat :: k in Bits.Indices(field) <==> Announced(start, msgs, k)
    ensures var r, size := LastReset(msgs), FieldSize(|start|, msgs);
            forall k: nat :: Bits.Get(field, k) <==>
              || (r == 0 && Bits.Get(start, k))
              || (r > 0 && msgs[r - 1].BitField? && BitOf(msgs[r - 1].bits, k))
              || (r > 0 && msgs[r - 1].HaveAll? && k < FieldSize(|start|, msgs[..r - 1]))
              || exists j :: r <= j < |msgs| && msgs[j].Have? && msgs[j].index == k && k < 8 * size
  {
    Bits.IndicesAre(field);
    assert forall k: nat :: Bits.Get(field, k) <==> Announced(start, msgs, k);
  }

  lemma {:induction false} SomeHave(before: seq<Message>, m: Message, after: seq<Message>, r: nat, k: nat, room: nat)
    requires |after| == |before| + 1 && after[..|before|] == before && after[|before|] == m && r <= |before|
    ensures (exists j :: r <= j < |after| && after[j].Have? && after[j].index == k && k < room)
       <==> (exists j :: r <= j < |before| && before[j].Have? && before[j].index == k && k < room)
            || (m.Have? && m.index == k && k < room)
  {
    if j :| r <= j < |before| && before[j].Have? && before[j].index == k && k < room {
      assert after[j] == before[j];
    }
    if j :| r <= j < |after| && after[j].Have? && after[j].index == k && k < room {
      assert j < |before| ==> before[j] == after[j];
    }
  }

  lemma {:induction false} BitsOfField(bits: Bytes, k: nat)
    ensures k in Bits.Indices(AsBits(bits)) <==> BitOf(bits, k)
  {
    Bits.IndicesAre(AsBits(bits));
    if k / 8 < |bits| {
      BitsOfByte(bits[k / 8], k % 8);
    }
  }

  lemma {:induction false} RemainingNone(requests: seq<Pending>)
    ensures Remaining(Choke, requests) == []
  {
    if requests != [] {
      RemainingNone(requests[..|requests| - 1]);
    }
  }

  // ----- outstanding requests over a history -----

  /** Requests leave the list as the code has it, or, if `strict`, only for a Piece with both the index and the
      offset of the request. */
  predicate Ends(msg: Message, r: Pending, strict: bool)
  {
    if msg.Piece? then
      if strict then msg.index == r.index && msg.offset == r.offset else msg.index == r.index || msg.offset == r.offset
    else msg == Choke || (msg.Reject? && msg.index == r.index)
  }

  predicate EndedIn(history: seq<Event>, r: Pending, strict: bool)
  {
    exists e :: e in history && e.Receives? && Ends(e.msg, r, strict)
  }

  predicate Asks(e: Event)
  {
    e.Sends? && e.msg.Request?
  }

  /** The requests sent that nothing received later has ended, in the order of sending. */
  function Outstanding(history: seq<Event>, strict: bool): seq<Pending>
  {
    if history == [] then []
    else
      var rest := Outstanding(history[1..], strict);
      if Asks(history[0]) && !EndedIn(history[1..], history[0].msg, strict) then [history[0].msg] + rest else rest
  }

  function Kept(msg: Message, requests: seq<Pending>): seq<Pending>
  {
    if requests == [] then []
    else if Ends(msg, requests[0], false) then Kept(msg, requests[1..])
    else [requests[0]] + Kept(msg, requests[1..])
  }

  lemma {:induction false} KeptAppend(msg: Message, requests: seq<Pending>, r: Pending)
    ensures Kept(msg, requests + [r]) == Kept(msg, requests) + if Ends(msg, r, false) then [] else [r]
  {
    if requests == [] {
      assert [r][1..] == [];
    } else {
      KeptAppend(msg, requests[1..], r);
      TailAppend(requests, r);
    }
  }

  lemma {:induction false} RemainingIsKept(msg: Message, requests: seq<Pending>)
    ensures Remaining(msg, requests) == Kept(msg, requests)
  {
    if requests != [] {
      var n := |requests| - 1;
      RemainingIsKept(msg, requests[..n]);
      KeptAppend(msg, requests[..n], requests[n]);
      Snoc(requests);
    }
  }

  lemma {:induction false} EndedAppend(history: seq<Event>, e: Event, r: Pending, strict: bool)
    ensures EndedIn(history + [e], r, strict)
          <==> EndedIn(history, r, strict) || (e.Receives? && Ends(e.msg, r, strict))
  {
    if e.Receives? && Ends(e.msg, r, strict) {
      assert e in history + [e];
    }
    if EndedIn(history, r, strict) {
      var x :| x in history && x.Receives? && Ends(x.msg, r, strict);
      assert x in history + [e];
    }
  }

  /** One more event, seen from the front of the history. */
  lemma {:induction false} OutstandingAppend(history: seq<Event>, e: Event)
    ensures Outstanding(history + [e], false) ==
            if e.Receives? then Kept(e.msg, Outstanding(history, false))
            else if Asks(e) then Outstanding(history, false) + [e.msg]
            else Outstanding(history, false)
  {
    if history == [] {
      assert ([] + [e])[1..] == [];
      assert Outstanding([], false) == [];
    } else {
      OutstandingAppend(history[1..], e);
      TailAppend(history, e);
      if Asks(history[0]) {
        var r: Pending := history[0].msg;
        EndedAppend(history[1..], e, r, false);
        var rest := Outstanding(history[1..], false);
        assert ([r] + rest)[1..] == rest;
      }
    }
  }

  lemma {:induction false} SentRequests(s: PeerState, msg: Message, writes: bool)
    ensures Sent(s, msg, writes).requests == if msg.Request? then s.requests + [msg] else s.requests
  {
  }

  lemma {:induction false} ReceivedRequests(s: PeerState, msg: Message, writes: bool)
    ensures Received(s, msg, writes).requests ==
            if msg.Choke? || msg.Piece? || msg.Reject? then Remaining(msg, s.requests) else s.requests
  {
    if msg == Interested {
      SentRequests(s.(interested := true), Unchoke, writes);
    }
  }

  lemma {:induction false} StepRequests(s: PeerState, e: Event)
    ensures Step(s, e).requests ==
            if e.Receives? then Kept(e.msg, s.requests) else if Asks(e) then s.requests + [e.msg] else s.requests
  {
    match e
    case Sends(msg, writes) =>
      SentRequests(s, msg, writes);
    case Receives(msg, writes) =>
      ReceivedRequests(s, msg, writes);
      RemainingIsKept(msg, s.requests);
      if !msg.Choke? && !msg.Piece? && !msg.Reject? {
        KeptAll(msg, s.requests);
      }
    case Closes =>
  }

  lemma {:induction false} KeptAll(msg: Message, requests: seq<Pending>)
    requires !msg.Choke? && !msg.Piece? && !msg.Reject?
    ensures Kept(msg, requests) == requests
  {
    if requests != [] {
      KeptAll(msg, requests[1..]);
    }
  }

  /** The list of requests, after any history: exactly the requests sent since which no Choke, no Reject with
      the index and no Piece with the index or the offset has been received. */
  lemma {:induction false} RequestsAreOutstanding(history: seq<Event>)
    ensures After(history).requests == Outstanding(history, false)
  {
    if history != [] {
      var n := |history| - 1;
      RequestsAreOutstanding(history[..n]);
      OutstandingAppend(history[..n], history[n]);
      StepRequests(After(history[..n]), history[n]);
      Snoc(history);
    }
  }

  // ----- index or offset, index and offset -----

  /** Every request that something has ended has also been ended by a Piece of its own, a Choke or a Reject. */
  predicate NoneLost(history: seq<Event>)
  {
    forall i :: 0 <= i < |history| && Asks(history[i]) && EndedIn(history[i + 1..], history[i].msg, false)
                ==> EndedIn(history[i + 1..], history[i].msg, true)
  }

  lemma {:induction false} StrictEnds(history: seq<Event>, r: Pending)
    requires EndedIn(history, r, true)
    ensures EndedIn(history, r, false)
  {
    var e :| e in history && e.Receives? && Ends(e.msg, r, true);
    assert Ends(e.msg, r, false);
  }

  lemma {:induction false} StrictKeepsMore(history: seq<Event>)
    ensures |Outstanding(history, false)| <= |Outstanding(history, true)|
  {
    if history != [] {
      StrictKeepsMore(history[1..]);
      if Asks(history[0]) && EndedIn(history[1..], history[0].msg, true) {
        StrictEnds(history[1..], history[0].msg);
      }
    }
  }

  predicate HeadLost(history: seq<Event>)
    requires history != []
  {
    Asks(history[0]) && EndedIn(history[1..], history[0].msg, false) && !EndedIn(history[1..], history[0].msg, true)
  }

  lemma {:induction false} NoneLostSplit(history: seq<Event>)
    requires history != []
    ensures NoneLost(history) <==> !HeadLost(history) && NoneLost(history[1..])
  {
    var rest := history[1..];
    assert forall i :: 0 <= i < |rest| ==> rest[i] == history[i + 1] && rest[i + 1..] == history[i + 2..];
    if NoneLost(history) {
      forall i | 0 <= i < |rest| && Asks(rest[i]) && EndedIn(rest[i + 1..], rest[i].msg, false)
        ensures EndedIn(rest[i + 1..], rest[i].msg, true)
      {
        assert Asks(history[i + 1]);
      }
    }
    if !HeadLost(history) && NoneLost(rest) {
      forall i | 0 <= i < |history| && Asks(history[i]) && EndedIn(history[i + 1..], history[i].msg, false)
        ensures EndedIn(history[i + 1..], history[i].msg, true)
      {
        if i > 0 {
          assert Asks(rest[i - 1]);
        }
      }
    }
  }

  /** The list is the intended one exactly when no Piece for another block has taken a request along. */
  lemma {:induction false} IntendedRequests(history: seq<Event>)
    ensures After(history).requests == Outstanding(history, true) <==> NoneLost(history)
  {
    RequestsAreOutstanding(history);
    SameOutstanding(history);
  }

  lemma {:induction false} SameOutstanding(history: seq<Event>)
    ensures Outstanding(history, false) == Outstanding(history, true) <==> NoneLost(history)
  {
    if history != [] {
      var rest := history[1..];
      NoneLostSplit(history);
      SameOutstanding(rest);
      StrictKeepsMore(rest);
      if Asks(history[0]) {
        var r: Pending := history[0].msg;
        if EndedIn(rest, r, true) {
          StrictEnds(rest, r);
        }
        assert ([r] + Outstanding(rest, false))[1..] == Outstanding(rest, false);
        assert ([r] + Outstanding(rest, true))[1..] == Outstanding(rest, true);
      }
    }
  }

  lemma {:induction false} AfterAppend(history: seq<Event>, e: Event)
    ensures After(history + [e]).requests ==
            if e.Receives? then Kept(e.msg, After(history).requests)
            else if Asks(e) then After(history).requests + [e.msg]
            else After(history).requests
  {
    assert (history + [e])[..|history|] == history;
    StepRequests(After(history), e);
  }

  lemma {:induction false} KeptPair(msg: Message, a: Pending, b: Pending)
    requires Ends(msg, a, false) && Ends(msg, b, false)
    ensures Kept(msg, [a, b]) == []
  {
    assert [a, b][1..] == [b] && [b][1..] == [];
    assert Kept(msg, [b]) == [];
  }

  /** Two blocks of one piece are asked for. */
  function Asked(index: uint32): seq<Event>
  {
    [Sends(Request(index, 0, 16384), true)] + [Sends(Request(index, 16384, 16384), true)]
  }

  lemma {:induction false} AskedAre(index: uint32)
    ensures After(Asked(index)).requests == [Request(index, 0, 16384), Request(index, 16384, 16384)]
  {
    var first: seq<Event> := [Sends(Request(index, 0, 16384), true)];
    AfterAppend([], first[0]);
    assert [] + first == first;
    assert After([]).requests == [];
    AfterAppend(first, Sends(Request(index, 16384, 16384), true));
  }

  /** The answer to the first ends both requests. */
  lemma {:induction false} AnswerEndsBoth(index: uint32, data: Bytes)
    ensures After(Asked(index) + [Receives(Piece(index, 0, data), true)]).requests == []
  {
    AskedAre(index);
    AfterAppend(Asked(index), Receives(Piece(index, 0, data), true));
    KeptPair(Piece(index, 0, data), Request(index, 0, 16384), Request(index, 16384, 16384));
  }

  // ----- the wire -----

  /** The last word on the wire about the client's interest. */
  predicate SaysInterested(wire: seq<Message>)
  {
    wire != [] && (wire[|wire| - 1] == Interested
                   || (wire[|wire| - 1] != NotInterested && SaysInterested(wire[..|wire| - 1])))
  }

  predicate Alternates(wire: seq<Message>)
  {
    forall i, j :: 0 <= i < j < |wire| && wire[i] == Interested && wire[j] == Interested
                   ==> exists k :: i < k < j && wire[k] == NotInterested
  }

  lemma {:induction false} SaysInterestedUntil(wire: seq<Message>, i: nat)
    requires i < |wire| && wire[i] == Interested && !SaysInterested(wire)
    ensures exists k :: i < k < |wire| && wire[k] == NotInterested
  {
    var n := |wire| - 1;
    if wire[n] != NotInterested {
      SaysInterestedUntil(wire[..n], i);
      var k :| i < k < n && wire[..n][k] == NotInterested;
      assert wire[k] == NotInterested;
    } else {
      assert i < n;
    }
  }

  lemma {:induction false} AlternatesAppend(wire: seq<Message>, msg: Message)
    requires Alternates(wire) && (msg == Interested ==> !SaysInterested(wire))
    ensures Alternates(wire + [msg])
  {
    var longer := wire + [msg];
    forall i, j | 0 <= i < j < |longer| && longer[i] == Interested && longer[j] == Interested
      ensures exists k :: i < k < j && longer[k] == NotInterested
    {
      if j < |wire| {
        assert wire[i] == Interested && wire[j] == Interested;
        var k :| i < k < j && wire[k] == NotInterested;
        assert longer[k] == NotInterested;
      } else {
        SaysInterestedUntil(wire, i);
        var k :| i < k < |wire| && wire[k] == NotInterested;
        assert longer[k] == NotInterested;
      }
    }
  }

  predicate WireInv(s: PeerState)
  {
    Alternates(s.wire) && (!s.closed ==> (s.interesting <==> SaysInterested(s.wire)))
  }

  lemma {:induction false} SentWire(s: PeerState, msg: Message, writes: bool)
    requires WireInv(s)
    ensures WireInv(Sent(s, msg, writes))
  {
    if !(msg == Interested && s.interesting) && writes && !s.closed {
      AlternatesAppend(s.wire, msg);
      DropLast(s.wire, msg);
    }
  }

  lemma {:induction false} StepWire(s: PeerState, e: Event)
    requires WireInv(s)
    ensures WireInv(Step(s, e))
  {
    match e
    case Sends(msg, writes) => SentWire(s, msg, writes);
    case Receives(msg, writes) =>
      if msg == Interested {
        SentWire(s.(interested := true), Unchoke, writes);
      } else {
        ReceivedWire(s, msg, writes);
      }
    case Closes =>
  }

  lemma {:induction false} ReceivedWire(s: PeerState, msg: Message, writes: bool)
    requires msg != Interested
    ensures var t := Received(s, msg, writes);
            t.wire == s.wire && t.closed == s.closed && t.interesting == s.interesting
  {
  }

  /** Two Interested messages never go out without a NotInterested between them. */
  lemma {:induction false} InterestAlternates(history: seq<Event>)
    ensures WireInv(After(history))
  {
    if history != [] {
      InterestAlternates(history[..|history| - 1]);
      StepWire(After(history[..|history| - 1]), history[|history| - 1]);
    }
  }

  // ----- flags and counters -----

  /** Some event of the first kind has no event of the second kind after it. */
  predicate LastSays(history: seq<Event>, on: Event -> bool, off: Event -> bool)
  {
    exists i :: 0 <= i < |history| && on(history[i]) && forall j :: i < j < |history| ==> !off(history[j])
  }

  lemma {:induction false} LastSaysAppend(history: seq<Event>, e: Event, on: Event -> bool, off: Event -> bool)
    ensures LastSays(history + [e], on, off) <==> on(e) || (LastSays(history, on, off) && !off(e))
  {
    var longer := history + [e];
    var n := |history|;
    assert longer[n] == e;
    if LastSays(history, on, off) && !off(e) {
      var i :| 0 <= i < n && on(history[i]) && forall j :: i < j < n ==> !off(history[j]);
      assert on(longer[i]) && forall j :: i < j <= n ==> !off(longer[j]);
    }
    if LastSays(longer, on, off) && !on(e) {
      var i :| 0 <= i <= n && on(longer[i]) && forall j :: i < j <= n ==> !off(longer[j]);
      assert on(history[i]) && forall j :: i < j < n ==> history[j] == longer[j];
    }
  }

  function Hears(m: Message): Event -> bool { (e: Event) => e.Receives? && e.msg == m }
  function Tells(m: Message): Event -> bool { (e: Event) => e.Sends? && e.msg == m }

  /** A peer is unchoked by being told so, and also whenever it says that it is interested. */
  function Frees(): Event -> bool {
    (e: Event) => (e.Sends? && e.msg == Unchoke) || (e.Receives? && e.msg == Interested)
  }

  lemma {:induction false} SentFlags(s: PeerState, msg: Message, writes: bool)
    ensures var t := Sent(s, msg, writes);
            && t.blocking == s.blocking && t.interested == s.interested && t.uploaded == s.uploaded
            && t.choked == (if msg.Unchoke? then false else if msg.Choke? then true else s.choked)
            && t.interesting == (if msg.Interested? then true else if msg.NotInterested? then false else s.interesting)
            && t.downloaded == s.downloaded + if msg.Piece? then |msg.data| else 0
  {
  }

  lemma {:induction false} ReceivedFlags(s: PeerState, msg: Message, writes: bool)
    ensures var t := Received(s, msg, writes);
            && t.blocking == (if msg.Choke? then true else if msg.Unchoke? then false else s.blocking)
            && t.interested == (if msg.Interested? then true else if msg.NotInterested? then false else s.interested)
            && t.choked == (!msg.Interested? && s.choked) && t.interesting == s.interesting
            && t.uploaded == s.uploaded + (if msg.Piece? then |msg.data| else 0) && t.downloaded == s.downloaded
  {
    if msg.Interested? {
      SentFlags(s.(interested := true), Unchoke, writes);
    }
  }

  lemma {:induction false} StepFlags(s: PeerState, e: Event)
    ensures !Step(s, e).blocking <==> Hears(Unchoke)(e) || (!s.blocking && !Hears(Choke)(e))
    ensures Step(s, e).interested <==> Hears(Interested)(e) || (s.interested && !Hears(NotInterested)(e))
    ensures !Step(s, e).choked <==> Frees()(e) || (!s.choked && !Tells(Choke)(e))
    ensures Step(s, e).interesting <==> Tells(Interested)(e) || (s.interesting && !Tells(NotInterested)(e))
  {
    match e
    case Sends(msg, writes) => SentFlags(s, msg, writes);
    case Receives(msg, writes) => ReceivedFlags(s, msg, writes);
    case Closes =>
  }

  /** The flags say what came last: the peer's word on choking and on its interest, and the client's own. */
  lemma {:induction false} FlagsFollow(history: seq<Event>)
    ensures !After(history).blocking <==> LastSays(history, Hears(Unchoke), Hears(Choke))
    ensures After(history).interested <==> LastSays(history, Hears(Interested), Hears(NotInterested))
    ensures !After(history).choked <==> LastSays(history, Frees(), Tells(Choke))
    ensures After(history).interesting <==> LastSays(history, Tells(Interested), Tells(NotInterested))
  {
    if history != [] {
      var n := |history| - 1;
      var most, e := history[..n], history[n];
      FlagsFollow(most);
      StepFlags(After(most), e);
      LastSaysAppend(most, e, Hears(Unchoke), Hears(Choke));
      LastSaysAppend(most, e, Hears(Interested), Hears(NotInterested));
      LastSaysAppend(most, e, Frees(), Tells(Choke));
      LastSaysAppend(most, e, Tells(Interested), Tells(NotInterested));
      Snoc(history);
    }
  }

  // ----- what goes on the wire -----

  /** The event would write a message: an Interested that says nothing new is not sent, and an Interested from the
      peer is answered. */
  predicate Writes(history: seq<Event>, e: Event)
  {
    match e
    case Sends(msg, _) => msg != Interested || !LastSays(history, Tells(Interested), Tells(NotInterested))
    case Receives(msg, _) => msg == Interested
    case Closes => false
  }

  /** The peer has not been closed, neither on request nor because a write has failed. */
  predicate Open(history: seq<Event>)
  {
    forall i :: 0 <= i < |history| ==> !history[i].Closes? && (Writes(history[..i], history[i]) ==> history[i].writes)
  }

  function MessageOf(e: Event): Message
    requires !e.Closes?
  {
    if e.Sends? then e.msg else Unchoke
  }

  /** The messages that have been written, while the peer was open and the connection took them. */
  function Written(history: seq<Event>): seq<Message>
  {
    if history == [] then []
    else
      var n := |history| - 1;
      Written(history[..n])
      + if Open(history) && Writes(history[..n], history[n]) then [MessageOf(history[n])] else []
  }

  lemma {:induction false} OpenAppend(history: seq<Event>, e: Event)
    ensures Open(history + [e]) <==> Open(history) && !e.Closes? && (Writes(history, e) ==> e.writes)
  {
    var longer := history + [e];
    assert longer[..|history|] == history && longer[|history|] == e;
    assert forall i :: 0 <= i < |history| ==> longer[i] == history[i] && longer[..i] == history[..i];
  }

  /** Over any history, what is on the wire and whether the peer is closed. */
  lemma {:induction false} WireIs(history: seq<Event>)
    ensures After(history).wire == Written(history)
    ensures After(history).closed <==> !Open(history)
  {
    if history != [] {
      var n := |history| - 1;
      WireIs(history[..n]);
      FlagsFollow(history[..n]);
      OpenAppend(history[..n], history[n]);
      Snoc(history);
      WireStep(After(history[..n]), history[n], Writes(history[..n], history[n]));
    }
  }

  lemma {:induction false} WireStep(s: PeerState, e: Event, writes: bool)
    requires writes <==> (e.Sends? && !(e.msg == Interested && s.interesting)) || (e.Receives? && e.msg == Interested)
    ensures var t := Step(s, e);
            && (t.closed <==> s.closed || e.Closes? || (writes && !e.writes))
            && t.wire == s.wire + if writes && !t.closed then [MessageOf(e)] else []
  {
    match e
    case Sends(msg, w) => NilRight(s.wire);
    case Receives(msg, w) =>
      NilRight(s.wire);
      if msg != Interested {
        ReceivedWire(s, msg, w);
      }
    case Closes => NilRight(s.wire);
  }

  function VolumeIn(e: Event): nat
  {
    if e.Receives? && e.msg.Piece? then |e.msg.data| else 0
  }

  function VolumeOut(e: Event): nat
  {
    if e.Sends? && e.msg.Piece? then |e.msg.data| else 0
  }

  /** The bytes of the pieces received, and of those sent. */
  function Volume(history: seq<Event>): (nat, nat)
  {
    if history == [] then (0, 0)
    else
      var (up, down) := Volume(history[1..]);
      (up + VolumeIn(history[0]), down + VolumeOut(history[0]))
  }

  lemma {:induction false} VolumeAppend(history: seq<Event>, e: Event)
    ensures Volume(history + [e]) == (Volume(history).0 + VolumeIn(e), Volume(history).1 + VolumeOut(e))
  {
    if history == [] {
      assert [] + [e] == [e];
      assert Volume([]) == (0, 0);
    } else {
      VolumeAppend(history[1..], e);
      TailAppend(history, e);
    }
  }

  lemma {:induction false} StepCounters(s: PeerState, e: Event)
    ensures Step(s, e).uploaded == s.uploaded + VolumeIn(e) && Step(s, e).downloaded == s.downloaded + VolumeOut(e)
  {
    match e
    case Sends(msg, writes) => SentFlags(s, msg, writes);
    case Receives(msg, writes) => ReceivedFlags(s, msg, writes);
    case Closes =>
  }

  lemma {:induction false} CountersAddUp(history: seq<Event>)
    ensures After(history).uploaded == Volume(history).0 && After(history).downloaded == Volume(history).1
  {
    if history != [] {
      var n := |history| - 1;
      CountersAddUp(history[..n]);
      StepCounters(After(history[..n]), history[n]);
      VolumeAppend(history[..n], history[n]);
      Snoc(history);
    }
  }

  // ----- HaveAll -----

  /** A peer that says it has everything is taken to have as many pieces as its bit field has bytes: all n of
      them only if there is at most one. */
  lemma {:induction false} HaveAllIsTooLittle(pieces: set<nat>, n: nat)
    ensures Below(n) <= PiecesAfter(pieces, (n + 7) / 8, HaveAll) <==> n <= 1
  {
    if n > 1 {
      assert n - 1 in Below(n) && n - 1 !in Below((n + 7) / 8);
    }
  }
}
