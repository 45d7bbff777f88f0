/** The announce response of the UDP tracker protocol (BEP 15): unmarshalResponse of
    pkg/btorrent/tracker/udp.go and Response.Bytes of pkg/btorrent/tracker/tracker.go. */
module Tracker {
  import opened Basics
  import opened Numbers

  type uint16 = x: int | 0 <= x < 0x1_0000

  const ANNOUNCE: uint32 := 1
  const ERROR: uint32 := 3

  /** An address has 4 or 16 bytes, but nothing enforces it. */
  datatype PeerInfo = PeerInfo(ip: Bytes, port: uint16)

  datatype Announce = Announce(action: uint32, txId: uint32, interval: uint32, leechers: uint32, seeders: uint32,
                               peers: seq<PeerInfo>)

  datatype Outcome = Ok | TooShort | TrackerError(text: Bytes) | WrongAction(got: uint32)

  // ----- addresses -----

  /** net.IP.To4: an IPv4 address, also one mapped into IPv6; nothing otherwise. */
  function To4(ip: Bytes): (r: Bytes)
    ensures |r| == 4 || r == []
    ensures |ip| == 4 ==> r == ip
  {
    if |ip| == 4 then ip
    else if |ip| == 16 && ip[..12] == [0, 0, 0, 0, 0, 0, 0, 0, 0, 0, 0xff, 0xff] then ip[12..]
    else []
  }

  predicate IsIPv4(p: PeerInfo)
  {
    To4(p.ip) != []
  }

  function PeerBytes(p: PeerInfo): Bytes
  {
    To4(p.ip) + BigEndian(p.port, 2)
  }

  function PeersBytes(peers: seq<PeerInfo>): Bytes
  {
    if peers == [] then [] else PeerBytes(peers[0]) + PeersBytes(peers[1..])
  }

  function Normal(p: PeerInfo): PeerInfo
  {
    PeerInfo(To4(p.ip), p.port)
  }

  // ----- the datagram -----

  function Header(v: Announce): (r: Bytes)
    ensures |r| == 20
  {
    U32(v.action) + U32(v.txId) + U32(v.interval) + U32(v.leechers) + U32(v.seeders)
  }

  function Encoded(v: Announce): Bytes
  {
    Header(v) + PeersBytes(v.peers)
  }

  function ReadU16(b: Bytes): uint16
    requires |b| == 2
  {
    ReadInRange(b);
    FourBytes();
    ReadBigEndian(b)
  }

  /** One peer takes up 6 bytes. */
  function PeerOf(b: Bytes): PeerInfo
    requires |b| == 6
  {
    PeerInfo(b[..4], ReadU16(b[4..]))
  }

  /** The peers in what follows the header; an incomplete one is left out. */
  function PeersIn(rest: Bytes): (r: seq<PeerInfo>)
    ensures 6 * |r| <= |rest| < 6 * |r| + 6
  {
    if |rest| < 6 then [] else [PeerOf(rest[..6])] + PeersIn(rest[6..])
  }

  /** Each peer is read from its own 6 bytes. */
  lemma {:induction false} PeersInAt(rest: Bytes, i: nat)
    requires 6 * i + 6 <= |rest|
    ensures i < |PeersIn(rest)| && PeersIn(rest)[i] == PeerOf(rest[6 * i..6 * i + 6])
  {
    if i > 0 {
      PeersInAt(rest[6..], i - 1);
      assert rest[6..] == rest[6..|rest|];
      SubSlice(rest, 6, |rest|, 6 * (i - 1), 6 * (i - 1) + 6);
      assert PeersIn(rest)[i] == PeersIn(rest[6..])[i - 1];
    }
  }

  /** What a successful announce says. */
  function Decoded(data: Bytes): Announce
    requires |data| >= 20
  {
    Announce(ReadU32(data[..4]), ReadU32(data[4..8]), ReadU32(data[8..12]), ReadU32(data[12..16]),
             ReadU32(data[16..20]),
             PeersIn(data[20..]))
  }

  /** unmarshalResponse on a response with the given fields: on an error, no more than the action has been
      filled in; the peers are appended to those already there. */
  function Unmarshalled(v: Announce, data: Bytes): (Announce, Outcome)
  {
    if |data| < 20 then (v, TooShort)
    else
      var action := ReadU32(data[..4]);
      if action == ERROR then (v.(action := action), TrackerError(data[4..]))
      else if action != ANNOUNCE then (v.(action := action), WrongAction(action))
      else (Decoded(data).(peers := v.peers + Decoded(data).peers), Ok)
  }

  const EMPTY: Announce := Announce(0, 0, 0, 0, 0, [])

  class Response {
    var action: uint32
    var txId: uint32
    var interval: uint32
    var leechers: uint32
    var seeders: uint32
    var peers: seq<PeerInfo>

    function View(): Announce
      reads this
    {
      Announce(action, txId, interval, leechers, seeders, peers)
    }

    constructor (v: Announce)
      ensures View() == v
    {
      action, txId, interval, leechers, seeders, peers := v.action, v.txId, v.interval, v.leechers, v.seeders, v.peers;
    }

    method Unmarshal(data: Bytes) returns (r: Outcome)
      modifies this
      ensures (View(), r) == Unmarshalled(old(View()), data)
    {
      if |data| < 20 {
        return TooShort;
      }
      action := ReadU32(data[..4]);
      if action == ERROR {
        return TrackerError(data[4..]);
      }
      if action != ANNOUNCE {
        return WrongAction(action);
      }
      txId := ReadU32(data[4..8]);
      interval := ReadU32(data[8..12]);
      leechers := ReadU32(data[12..16]);
      seeders := ReadU32(data[16..20]);

      var offset := 20;
      while |data[offset..]| >= 6
        modifies this`peers
        invariant 20 <= offset <= |data|
        invariant peers + PeersIn(data[offset..]) == old(peers) + PeersIn(data[20..])
      {
        NextPeer(data, offset);
        peers := peers + [PeerInfo(data[offset..offset + 4], ReadU16(data[offset + 4..offset + 6]))];
        offset := offset + 6;
      }
      assert PeersIn(data[offset..]) == [];
      NilRight(peers);
      return Ok;
    }

    method Bytes() returns (buf: Bytes)
      ensures buf == Encoded(View())
    {
      buf := U32(action) + U32(txId) + U32(interval) + U32(leechers) + U32(seeders);
      for i := 0 to |peers|
        invariant buf + PeersBytes(peers[i..]) == Encoded(View())
      {
        assert peers[i..][0] == peers[i] && peers[i..][1..] == peers[i + 1..];
        Associate(buf, PeerBytes(peers[i]), PeersBytes(peers[i + 1..]));
        Associate(buf, To4(peers[i].ip), BigEndian(peers[i].port, 2));
        buf := buf + To4(peers[i].ip) + BigEndian(peers[i].port, 2);
      }
      assert peers[|peers|..] == [];
    }
  }

  lemma {:induction false} NextPeer(data: Bytes, offset: nat)
    requires offset + 6 <= |data|
    ensures PeersIn(data[offset..])
            == [PeerInfo(data[offset..offset + 4], ReadU16(data[offset + 4..offset + 6]))] + PeersIn(data[offset + 6..])
  {
    var rest := data[offset..];
    assert rest[..6] == data[offset..offset + 6] && rest[6..] == data[offset + 6..];
    assert data[offset..offset + 6][..4] == data[offset..offset + 4]
           && data[offset..offset + 6][4..] == data[offset + 4..offset + 6];
  }

  // ----- byte by byte -----

  /** Which addresses are IPv4: those of four bytes, and those of sixteen that start with ten zeros and 0xffff. Their
      last four bytes are taken. */
  lemma {:induction false} To4Is(ip: Bytes)
    ensures To4(ip) != [] <==>
      |ip| == 4 || (|ip| == 16 && (forall i :: 0 <= i < 10 ==> ip[i] == 0) && ip[10] == 255 && ip[11] == 255)
    ensures To4(ip) != [] ==> To4(ip) == [ip[|ip| - 4], ip[|ip| - 3], ip[|ip| - 2], ip[|ip| - 1]]
  {
    if |ip| == 16 {
      var head := ip[..12];
      assert forall i :: 0 <= i < 12 ==> head[i] == ip[i];
      if (forall i :: 0 <= i < 10 ==> ip[i] == 0) && ip[10] == 255 && ip[11] == 255 {
        assert head == [0, 0, 0, 0, 0, 0, 0, 0, 0, 0, 0xff, 0xff];
      }
    }
  }

  lemma {:induction false} PortIs(b: Bytes)
    requires |b| == 2
    ensures ReadU16(b) == 0x100 * b[0] as nat + b[1] as nat
  {
    assert b[..1][..0] == [];
    assert ReadBigEndian(b[..1]) == b[0] as nat;
  }

  lemma {:induction false} PortBytes(port: uint16)
    ensures BigEndian(port, 2) == [(port / 0x100) as byte, (port % 0x100) as byte]
  {
    BigEndianIs(port, 2);
    BigEndianIs(port / 256, 1);
    assert BigEndian(port / 256 / 256, 0) == [];
  }

  /** What a datagram says, by position: five numbers, and then six bytes for each peer. */
  lemma {:induction false} DatagramRead(data: Bytes, i: nat)
    requires |data| >= 20 && NumberAt(data, 0) == 1
    ensures var (v, r) := Unmarshalled(EMPTY, data);
            && r == Ok && v.action == 1 && v.txId == NumberAt(data, 4) && v.interval == NumberAt(data, 8)
            && v.leechers == NumberAt(data, 12) && v.seeders == NumberAt(data, 16)
            && |v.peers| == (|data| - 20) / 6
            && (i < |v.peers| ==>
                  var at := 20 + 6 * i;
                  v.peers[i] == PeerInfo([data[at], data[at + 1], data[at + 2], data[at + 3]],
                                         0x100 * data[at + 4] as nat + data[at + 5] as nat))
  {
    HeaderNumbers(data);
    assert [] + PeersIn(data[20..]) == PeersIn(data[20..]);
    if i < (|data| - 20) / 6 {
      PeerAt(data, i);
    }
  }

  lemma {:induction false} PeerAt(data: Bytes, i: nat)
    requires 20 + 6 * i + 6 <= |data|
    ensures i < |PeersIn(data[20..])|
    ensures var at := 20 + 6 * i;
            PeersIn(data[20..])[i] == PeerInfo([data[at], data[at + 1], data[at + 2], data[at + 3]],
                                               0x100 * data[at + 4] as nat + data[at + 5] as nat)
  {
    var rest, at := data[20..], 20 + 6 * i;
    PeersInAt(rest, i);
    var b := rest[6 * i..6 * i + 6];
    assert forall j :: 0 <= j < 6 ==> b[j] == data[at + j];
    PortIs(b[4..]);
    assert b[..4] == [data[at], data[at + 1], data[at + 2], data[at + 3]];
  }

  lemma {:induction false} HeaderNumbers(data: Bytes)
    requires |data| >= 20
    ensures ReadU32(data[..4]) == NumberAt(data, 0)
    ensures ReadU32(data[4..8]) == NumberAt(data, 4) && ReadU32(data[8..12]) == NumberAt(data, 8)
    ensures ReadU32(data[12..16]) == NumberAt(data, 12) && ReadU32(data[16..20]) == NumberAt(data, 16)
  {
    assert data[0..4] == data[..4];
    ReadIsNumber(data, 0);
    ReadIsNumber(data, 4);
    ReadIsNumber(data, 8);
    ReadIsNumber(data, 12);
    ReadIsNumber(data, 16);
  }

  /** The other answers: too short, the tracker's own error, or not an announce. */
  lemma {:induction false} DatagramRefused(v: Announce, data: Bytes)
    ensures |data| < 20 ==> Unmarshalled(v, data) == (v, TooShort)
    ensures |data| >= 20 && NumberAt(data, 0) == 3 ==>
      Unmarshalled(v, data) == (v.(action := 3), TrackerError(data[4..]))
    ensures |data| >= 20 && NumberAt(data, 0) != 1 && NumberAt(data, 0) != 3 ==>
      Unmarshalled(v, data) == (v.(action := NumberAt(data, 0)), WrongAction(NumberAt(data, 0)))
    ensures |data| >= 20 && NumberAt(data, 0) == 1 ==>
      Unmarshalled(v, data) == (Unmarshalled(EMPTY, data).0.(peers := v.peers + Unmarshalled(EMPTY, data).0.peers), Ok)
  {
    if |data| >= 20 {
      HeaderNumbers(data);
      assert [] + Decoded(data).peers == Decoded(data).peers;
    }
  }

  /** What is written: the five numbers, and then for each peer its IPv4 address, if it has one, and its port. */
  lemma {:induction false} DatagramWritten(v: Announce, peers: seq<PeerInfo>, p: PeerInfo)
    ensures Encoded(v.(peers := [])) ==
            Quad(v.action) + Quad(v.txId) + Quad(v.interval) + Quad(v.leechers) + Quad(v.seeders)
    ensures Encoded(v.(peers := peers + [p])) ==
            Encoded(v.(peers := peers)) + To4(p.ip) + [(p.port / 0x100) as byte, (p.port % 0x100) as byte]
  {
    U32IsQuad(v.action);
    U32IsQuad(v.txId);
    U32IsQuad(v.interval);
    U32IsQuad(v.leechers);
    U32IsQuad(v.seeders);
    PortBytes(p.port);
    PeersAppend(peers, p);
    Associate(Header(v), PeersBytes(peers), PeerBytes(p));
    Associate(Header(v) + PeersBytes(peers), To4(p.ip), BigEndian(p.port, 2));
    assert Header(v) + [] == Header(v);
  }

  lemma {:induction false} PeersAppend(peers: seq<PeerInfo>, p: PeerInfo)
    ensures PeersBytes(peers + [p]) == PeersBytes(peers) + PeerBytes(p)
  {
    if peers == [] {
      assert [] + [p] == [p] && [p][1..] == [];
      assert PeersBytes([p]) == PeerBytes(p) + [];
    } else {
      TailAppend(peers, p);
      PeersAppend(peers[1..], p);
      Associate(PeerBytes(peers[0]), PeersBytes(peers[1..]), PeerBytes(p));
    }
  }

  // ----- there and back -----

  lemma {:induction false} HeaderBack(v: Announce, rest: Bytes)
    ensures var d := Header(v) + rest;
            ReadU32(d[..4]) == v.action && ReadU32(d[4..8]) == v.txId && ReadU32(d[8..12]) == v.interval
            && ReadU32(d[12..16]) == v.leechers && ReadU32(d[16..20]) == v.seeders
  {
    var d := Header(v) + rest;
    assert d[..4] == U32(v.action) && d[4..8] == U32(v.txId) && d[8..12] == U32(v.interval);
    assert d[12..16] == U32(v.leechers) && d[16..20] == U32(v.seeders);
    ReadWritten(v.action);
    ReadWritten(v.txId);
    ReadWritten(v.interval);
    ReadWritten(v.leechers);
    ReadWritten(v.seeders);
  }

  lemma {:induction false} PeerBack(p: PeerInfo)
    requires IsIPv4(p)
    ensures |PeerBytes(p)| == 6 && PeerOf(PeerBytes(p)) == Normal(p)
  {
    var b := PeerBytes(p);
    assert b[..4] == To4(p.ip) && b[4..] == BigEndian(p.port, 2);
    FourBytes();
    ReadBack(p.port, 2);
  }

  function Normals(peers: seq<PeerInfo>): (r: seq<PeerInfo>)
    ensures |r| == |peers| && forall i :: 0 <= i < |peers| ==> r[i] == Normal(peers[i])
  {
    if peers == [] then [] else [Normal(peers[0])] + Normals(peers[1..])
  }

  lemma {:induction false} PeersBack(peers: seq<PeerInfo>)
    requires forall p :: p in peers ==> IsIPv4(p)
    ensures |PeersBytes(peers)| == 6 * |peers| && PeersIn(PeersBytes(peers)) == Normals(peers)
  {
    if peers != [] {
      PeerBack(peers[0]);
      PeersBack(peers[1..]);
      Split(PeerBytes(peers[0]), PeersBytes(peers[1..]));
    }
  }

  lemma {:induction false} Split(a: Bytes, b: Bytes)
    ensures (a + b)[..|a|] == a && (a + b)[|a|..] == b
  {
  }

  /** Only an announce is taken for one. */
  lemma {:induction false} OutcomeOf(v: Announce)
    ensures |Encoded(v)| >= 20
    ensures Unmarshalled(EMPTY, Encoded(v)).1.Ok? <==> v.action == ANNOUNCE
    ensures v.action == ANNOUNCE ==> Unmarshalled(EMPTY, Encoded(v)).0 == Decoded(Encoded(v))
  {
    HeaderBack(v, PeersBytes(v.peers));
    assert [] + Decoded(Encoded(v)).peers == Decoded(Encoded(v)).peers;
  }

  lemma {:induction false} DecodedNormal(v: Announce)
    requires forall p :: p in v.peers ==> IsIPv4(p)
    ensures |Encoded(v)| == 20 + 6 * |v.peers| && Decoded(Encoded(v)) == v.(peers := Normals(v.peers))
  {
    HeaderBack(v, PeersBytes(v.peers));
    Split(Header(v), PeersBytes(v.peers));
    PeersBack(v.peers);
  }

  /** Every announce with IPv4 peers is unmarshalled to itself, its addresses in their 4-byte form. */
  lemma {:induction false} UnmarshalsNormal(v: Announce)
    requires v.action == ANNOUNCE && forall p :: p in v.peers ==> IsIPv4(p)
    ensures Unmarshalled(EMPTY, Encoded(v)) == (v.(peers := Normals(v.peers)), Ok)
  {
    OutcomeOf(v);
    DecodedNormal(v);
  }

  /** The exact round trip: it must be an announce, and all its addresses in their 4-byte form already. */
  lemma {:induction false} RoundTrip(v: Announce)
    ensures Unmarshalled(EMPTY, Encoded(v)) == (v, Ok)
          <==> v.action == ANNOUNCE && forall p :: p in v.peers ==> |p.ip| == 4
  {
    OutcomeOf(v);
    if v.action == ANNOUNCE && forall p :: p in v.peers ==> |p.ip| == 4 {
      DecodedNormal(v);
      NormalsSame(v.peers);
    }
    if v.action == ANNOUNCE && Decoded(Encoded(v)) == v {
      FourByteAddresses(Encoded(v)[20..], v.peers);
    }
  }

  lemma {:induction false} NormalsSame(peers: seq<PeerInfo>)
    requires forall p :: p in peers ==> |p.ip| == 4
    ensures Normals(peers) == peers
  {
    assert forall i :: 0 <= i < |peers| ==> peers[i] in peers;
  }

  lemma {:induction false} FourByteAddresses(rest: Bytes, peers: seq<PeerInfo>)
    requires peers == PeersIn(rest)
    ensures forall p :: p in peers ==> |p.ip| == 4
  {
    forall p | p in peers ensures |p.ip| == 4 {
      var i :| 0 <= i < |peers| && peers[i] == p;
      PeersInAt(rest, i);
    }
  }

  /** The other way round, from an announce nothing is lost but an incomplete last peer. */
  lemma {:induction false} EncodesBack(data: Bytes)
    requires Unmarshalled(EMPTY, data).1.Ok?
    ensures Encoded(Unmarshalled(EMPTY, data).0) == data[..20 + 6 * ((|data| - 20) / 6)]
  {
    assert [] + PeersIn(data[20..]) == PeersIn(data[20..]);
    HeaderWritten(data);
    PeersWritten(data[20..]);
    JoinHead(data, 20, 6 * ((|data| - 20) / 6));
  }

  lemma {:induction false} JoinHead(data: Bytes, m: nat, n: nat)
    requires m + n <= |data|
    ensures data[..m] + data[m..][..n] == data[..m + n]
  {
  }

  lemma {:induction false} HeaderWritten(data: Bytes)
    requires |data| >= 20
    ensures Header(Decoded(data)) == data[..20]
  {
    WrittenRead(data[..4]);
    WrittenRead(data[4..8]);
    WrittenRead(data[8..12]);
    WrittenRead(data[12..16]);
    WrittenRead(data[16..20]);
  }

  lemma {:induction false} PeersWritten(rest: Bytes)
    ensures PeersBytes(PeersIn(rest)) == rest[..6 * (|rest| / 6)]
  {
    if |rest| >= 6 {
      PeersWritten(rest[6..]);
      PeerWritten(rest[..6]);
      JoinHead(rest, 6, 6 * ((|rest| - 6) / 6));
      assert ([PeerOf(rest[..6])] + PeersIn(rest[6..]))[1..] == PeersIn(rest[6..]);
    }
  }

  lemma {:induction false} PeerWritten(b: Bytes)
    requires |b| == 6
    ensures PeerBytes(PeerOf(b)) == b
  {
    WriteBack(b[4..]);
    assert b[..4] + b[4..] == b;
  }
}
