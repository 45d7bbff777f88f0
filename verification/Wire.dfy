/** The peer wire protocol (pkg/btorrent/peer/message.go): messages as bytes, and the reader that takes them
    off a connection again. */
module Wire {
  import opened Basics
  import opened Numbers

  /** Extended messages carry a bencoded body, which stays uninterpreted here: `body` is everything after the
      message type. */
  datatype Message =
    | KeepAlive
    | Choke
    | Unchoke
    | Interested
    | NotInterested
    | Have(index: uint32)
    | BitField(bits: Bytes)
    | Request(index: uint32, offset: uint32, length: uint32)
    | Piece(index: uint32, offset: uint32, data: Bytes)
    | Cancel(index: uint32, offset: uint32, length: uint32)
    | Suggest(index: uint32)
    | HaveAll
    | HaveNone
    | Reject(index: uint32, offset: uint32, length: uint32)
    | AllowedFast(index: uint32)
    | Extended(body: Bytes)

  const MAX_FRAME: nat := 32 * 1024

  // ----- encoding -----

  /** The length that Message.Bytes writes in front. For a Piece it is the length of the data plus `overhead`:
      the code says 8, but type, index and offset take up 9 bytes. */
  function Prefix(m: Message, overhead: nat): nat
  {
    match m
    case KeepAlive => 0
    case Have(_) => 5
    case Suggest(_) => 5
    case AllowedFast(_) => 5
    case Request(_, _, _) => 13
    case Cancel(_, _, _) => 13
    case Reject(_, _, _) => 13
    case BitField(bits) => |bits| + 1
    case Piece(_, _, data) => |data| + overhead
    case Extended(body) => |body| + 1
    case _ => 1
  }

  const CODE_OVERHEAD: nat := 8
  const RIGHT_OVERHEAD: nat := 9

  /** What Message.Bytes writes after the length: the type, then the payload. */
  function Body(m: Message): Bytes
  {
    match m
    case KeepAlive => []
    case Choke => [0]
    case Unchoke => [1]
    case Interested => [2]
    case NotInterested => [3]
    case Have(index) => [4] + U32(index)
    case BitField(bits) => [5] + bits
    case Request(index, offset, length) => [6] + Three(index, offset, length)
    case Piece(index, offset, data) => [7] + Block(index, offset, data)
    case Cancel(index, offset, length) => [8] + Three(index, offset, length)
    case Suggest(index) => [13] + U32(index)
    case HaveAll => [14]
    case HaveNone => [15]
    case Reject(index, offset, length) => [16] + Three(index, offset, length)
    case AllowedFast(index) => [17] + U32(index)
    case Extended(body) => [20] + body
  }

  function Three(a: uint32, b: uint32, c: uint32): Bytes
  {
    U32(a) + U32(b) + U32(c)
  }

  function Block(index: uint32, offset: uint32, data: Bytes): Bytes
  {
    U32(index) + U32(offset) + data
  }

  /** Message.Bytes. */
  function Encode(m: Message, overhead: nat): (s: Bytes)
    ensures |s| >= 4
  {
    U32(Prefix(m, overhead)) + Body(m)
  }

  function EncodeAll(ms: seq<Message>, overhead: nat): Bytes
  {
    if ms == [] then [] else Encode(ms[0], overhead) + EncodeAll(ms[1..], overhead)
  }

  // ----- decoding -----

  /** `Lost` is a nil message without an error. */
  datatype Result = Got(msg: Message) | Eof | TooLong | Truncated | Malformed | Panic | Lost

  /** UnmarshalExtMessage knows the extended handshake and the metadata messages by their code. */
  predicate KnownCode(code: byte)
  {
    code == 0 || code == 2
  }

  /** The message switch of UnmarshallMessage. Slicing a short Piece payload and looking at the type of an
      empty extended message panic; a type that is not known gives KeepAlive. */
  function Parse(messageType: byte, payload: Bytes): Result
  {
    match messageType as int
    case 0 => Got(Choke)
    case 1 => Got(Unchoke)
    case 2 => Got(Interested)
    case 3 => Got(NotInterested)
    case 4 => if |payload| != 4 then Malformed else Got(Have(ReadU32(payload)))
    case 5 => Got(BitField(payload))
    case 6 => if |payload| != 12 then Malformed
      else Got(Request(ReadU32(payload[..4]), ReadU32(payload[4..8]), ReadU32(payload[8..12])))
    case 7 => if |payload| < 8 then Panic else Got(Piece(ReadU32(payload[..4]), ReadU32(payload[4..8]), payload[8..]))
    case 8 => if |payload| != 12 then Malformed
      else Got(Cancel(ReadU32(payload[..4]), ReadU32(payload[4..8]), ReadU32(payload[8..12])))
    case 14 => Got(HaveAll)
    case 15 => Got(HaveNone)
    case 16 => if |payload| != 12 then Malformed
      else Got(Reject(ReadU32(payload[..4]), ReadU32(payload[4..8]), ReadU32(payload[8..12])))
    case 17 => if |payload| != 4 then Malformed else Got(AllowedFast(ReadU32(payload)))
    case 20 => if payload == [] then Panic else if KnownCode(payload[0]) then Got(Extended(payload)) else Lost
    case _ => Got(KeepAlive)
  }

  /** What is read after the header, as a stream of bytes: the result and what is left. */
  function DecodeBody(n: nat, s: Bytes): (r: (Result, Bytes))
    ensures |r.1| <= |s|
  {
    if n == 0 then (Got(KeepAlive), s)
    else if n > MAX_FRAME then (TooLong, s)
    else if |s| < n then (Truncated, [])
    else (Parse(s[0], s[1..n]), s[n..])
  }

  /** The header buffer starts out as zeros; a header that is cut short leaves some of them. */
  function Header(b: Bytes): Bytes
    requires |b| <= 4
  {
    b + [0, 0, 0, 0][|b|..]
  }

  /** One message off a stream that delivers whole headers. */
  function Decode(s: Bytes): (r: (Result, Bytes))
    ensures s != [] ==> |r.1| < |s|
  {
    if s == [] then (Eof, [])
    else
      var h := Min(4, |s|);
      DecodeBody(ReadU32(Header(s[..h])), s[h..])
  }

  /** Messages until something else comes, and what came. */
  function DecodeAll(s: Bytes): (seq<Message>, Result)
    decreases |s|
  {
    match Decode(s)
    case (Got(m), rest) => if s == [] then ([], Eof) else var (ms, end) := DecodeAll(rest); ([m] + ms, end)
    case (end, _) => ([], end)
  }

  // ----- one message there and back -----

  /** The messages that survive: the frame must not be longer than 32 KiB, an extended message needs a code that is
      known, Suggest has no decoder, and the prefix of a Piece must count all 9 bytes. */
  predicate Supported(m: Message, overhead: nat)
  {
    match m
    case BitField(bits) => |bits| + 1 <= MAX_FRAME
    case Piece(_, _, data) => overhead == RIGHT_OVERHEAD && |data| + 9 <= MAX_FRAME
    case Extended(body) => body != [] && KnownCode(body[0]) && |body| + 1 <= MAX_FRAME
    case Suggest(_) => false
    case _ => true
  }

  lemma {:induction false} ReadThree(a: uint32, b: uint32, c: uint32)
    ensures var p := Three(a, b, c);
            |p| == 12 && ReadU32(p[..4]) == a && ReadU32(p[4..8]) == b && ReadU32(p[8..12]) == c
  {
    var p := Three(a, b, c);
    assert p[..4] == U32(a) && p[4..8] == U32(b) && p[8..12] == U32(c);
    ReadWritten(a);
    ReadWritten(b);
    ReadWritten(c);
  }

  lemma {:induction false} ReadBlock(a: uint32, b: uint32, data: Bytes)
    ensures var p := Block(a, b, data);
            |p| == 8 + |data| && ReadU32(p[..4]) == a && ReadU32(p[4..8]) == b && p[8..] == data
  {
    var p := Block(a, b, data);
    assert p[..4] == U32(a) && p[4..8] == U32(b) && p[8..] == data;
    ReadWritten(a);
    ReadWritten(b);
  }

  /** The prefix is the length of the body, but for a Piece with the wrong overhead. */
  lemma {:induction false} PrefixIsLength(m: Message, overhead: nat)
    ensures m.Piece? ==> Prefix(m, overhead) == |Body(m)| - 9 + overhead && |Body(m)| == 9 + |m.data|
    ensures !m.Piece? ==> Prefix(m, overhead) == |Body(m)|
    ensures Body(m) == [] <==> m == KeepAlive
  {
  }

  lemma {:induction false} ParseNumber(index: uint32)
    ensures Parse(4, U32(index)) == Got(Have(index)) && Parse(17, U32(index)) == Got(AllowedFast(index))
  {
    ReadWritten(index);
  }

  lemma {:induction false} ParseThree(a: uint32, b: uint32, c: uint32)
    ensures Parse(6, Three(a, b, c)) == Got(Request(a, b, c))
    ensures Parse(8, Three(a, b, c)) == Got(Cancel(a, b, c))
    ensures Parse(16, Three(a, b, c)) == Got(Reject(a, b, c))
  {
    ReadThree(a, b, c);
  }

  lemma {:induction false} ParsePiece(index: uint32, offset: uint32, data: Bytes)
    ensures Parse(7, Block(index, offset, data)) == Got(Piece(index, offset, data))
  {
    ReadBlock(index, offset, data);
  }

  lemma {:induction false} Unframe(t: byte, payload: Bytes)
    ensures ([t] + payload)[0] == t && ([t] + payload)[1..] == payload
  {
  }

  /** An extended message without a code that is known. */
  predicate Unknown(m: Message)
  {
    m.Extended? && (m.body == [] || !KnownCode(m.body[0]))
  }

  /** The switch undoes the encoding of a payload it has a case for. */
  lemma {:induction false} ParseBody(m: Message)
    requires m != KeepAlive && !m.Suggest? && !Unknown(m)
    ensures Body(m) != [] && Parse(Body(m)[0], Body(m)[1..]) == Got(m)
  {
    match m
    case Have(index) => Unframe(4, U32(index)); ParseNumber(index);
    case AllowedFast(index) => Unframe(17, U32(index)); ParseNumber(index);
    case Request(index, offset, length) => Unframe(6, Three(index, offset, length)); ParseThree(index, offset, length);
    case Cancel(index, offset, length) => Unframe(8, Three(index, offset, length)); ParseThree(index, offset, length);
    case Reject(index, offset, length) => Unframe(16, Three(index, offset, length)); ParseThree(index, offset, length);
    case Piece(index, offset, data) => Unframe(7, Block(index, offset, data)); ParsePiece(index, offset, data);
    case BitField(bits) => Unframe(5, bits);
    case Extended(body) => Unframe(20, body);
    case _ =>
  }

  /** Which frames can give m at all: those with its type, and with its length unless m has no payload. */
  lemma {:induction false} ParseShape(t: byte, payload: Bytes, m: Message)
    requires Parse(t, payload) == Got(m) && m != KeepAlive
    ensures Body(m) != [] && Body(m)[0] == t
    ensures |Body(m)| == |payload| + 1 || |Body(m)| == 1
    ensures !m.Suggest? && !Unknown(m)
  {
  }

  /** A frame in a stream, cut as its prefix says. */
  lemma {:induction false} DecodeFrame(n: nat, body: Bytes)
    ensures Decode(U32(n) + body) == DecodeBody(n % 0x1_0000_0000, body)
  {
    var s := U32(n) + body;
    assert s[..4] == U32(n) && s[4..] == body;
    ReadWritten(n);
    assert Header(s[..4]) == U32(n);
  }

  lemma {:induction false} BodyGives(n: nat, s: Bytes, m: Message)
    requires DecodeBody(n, s).0 == Got(m) && m != KeepAlive
    ensures 1 <= n <= MAX_FRAME && n <= |s| && Body(m) != [] && s[0] == Body(m)[0]
    ensures |Body(m)| == n || |Body(m)| == 1
    ensures !m.Suggest? && !Unknown(m)
  {
    ParseShape(s[0], s[1..n], m);
  }

  /** An encoding in a stream, cut as its prefix says. */
  lemma {:induction false} DecodeEncoded(m: Message, overhead: nat, rest: Bytes)
    ensures Decode(Encode(m, overhead) + rest) == DecodeBody(Prefix(m, overhead) % 0x1_0000_0000, Body(m) + rest)
  {
    var n, body := Prefix(m, overhead), Body(m);
    assert Encode(m, overhead) == U32(n) + body;
    assert U32(n) + body + rest == U32(n) + (body + rest);
    DecodeFrame(n, body + rest);
  }

  lemma {:induction false} CutBody(n: nat, t: byte, payload: Bytes, rest: Bytes)
    requires n == |payload| + 1 <= MAX_FRAME
    ensures DecodeBody(n, [t] + payload + rest) == (Parse(t, payload), rest)
  {
    var s := [t] + payload + rest;
    assert s[1..n] == payload && s[n..] == rest && s[0] == t;
  }

  lemma {:induction false} BodyGivesSelf(m: Message, rest: Bytes)
    requires Supported(m, RIGHT_OVERHEAD)
    ensures DecodeBody(|Body(m)|, Body(m) + rest) == (Got(m), rest)
  {
    if m == KeepAlive {
      assert Body(m) + rest == rest;
    } else {
      ParseBody(m);
      PrefixIsLength(m, RIGHT_OVERHEAD);
      var t, payload := Body(m)[0], Body(m)[1..];
      assert Body(m) == [t] + payload;
      CutBody(|Body(m)|, t, payload, rest);
    }
  }

  lemma {:induction false} UnsupportedBody(m: Message, overhead: nat, rest: Bytes)
    requires overhead == CODE_OVERHEAD || overhead == RIGHT_OVERHEAD
    requires !Supported(m, overhead)
    ensures DecodeBody(Prefix(m, overhead) % 0x1_0000_0000, Body(m) + rest).0 != Got(m)
  {
    if DecodeBody(Prefix(m, overhead) % 0x1_0000_0000, Body(m) + rest).0 == Got(m) {
      PrefixIsLength(m, overhead);
      BodyGives(Prefix(m, overhead) % 0x1_0000_0000, Body(m) + rest, m);
    }
  }

  lemma {:induction false} SupportedPrefix(m: Message, overhead: nat)
    requires Supported(m, overhead)
    ensures Prefix(m, overhead) % 0x1_0000_0000 == |Body(m)| && Supported(m, RIGHT_OVERHEAD)
  {
    PrefixIsLength(m, overhead);
    assert |Body(m)| <= MAX_FRAME;
  }

  lemma {:induction false} Supports(m: Message, overhead: nat, rest: Bytes)
    requires Supported(m, overhead)
    ensures Decode(Encode(m, overhead) + rest) == (Got(m), rest)
  {
    DecodeEncoded(m, overhead, rest);
    SupportedPrefix(m, overhead);
    BodyGivesSelf(m, rest);
  }

  /** A message comes back, with what follows it untouched, exactly when it is supported. */
  lemma {:induction false} RoundTrip(m: Message, overhead: nat, rest: Bytes)
    requires overhead == CODE_OVERHEAD || overhead == RIGHT_OVERHEAD
    ensures Supported(m, overhead) ==> Decode(Encode(m, overhead) + rest) == (Got(m), rest)
    ensures Decode(Encode(m, overhead) + rest).0 == Got(m) ==> Supported(m, overhead)
  {
    if Supported(m, overhead) {
      Supports(m, overhead, rest);
    } else {
      DecodeEncoded(m, overhead, rest);
      UnsupportedBody(m, overhead, rest);
    }
  }

  lemma {:induction false} PieceParts(index: uint32, offset: uint32, data: Bytes)
    requires |data| + 8 <= MAX_FRAME
    ensures Prefix(Piece(index, offset, data), CODE_OVERHEAD) % 0x1_0000_0000 == |data| + 8
    ensures Body(Piece(index, offset, data)) == [7] + Block(index, offset, data)
  {
  }

  lemma {:induction false} PieceFrame(index: uint32, offset: uint32, data: Bytes, rest: Bytes)
    requires |data| + 8 <= MAX_FRAME
    ensures Decode(Encode(Piece(index, offset, data), CODE_OVERHEAD) + rest)
            == DecodeBody(|data| + 8, [7] + Block(index, offset, data) + rest)
  {
    PieceParts(index, offset, data);
    DecodeEncoded(Piece(index, offset, data), CODE_OVERHEAD, rest);
  }

  lemma {:induction false} LeftBehind(t: byte, payload: Bytes, last: byte, rest: Bytes)
    requires |payload| + 1 <= MAX_FRAME
    ensures DecodeBody(|payload| + 1, [t] + (payload + [last]) + rest) == (Parse(t, payload), [last] + rest)
  {
    assert [t] + (payload + [last]) + rest == [t] + payload + ([last] + rest);
    CutBody(|payload| + 1, t, payload, [last] + rest);
  }

  lemma {:induction false} CutBlock(index: uint32, offset: uint32, data: Bytes)
    ensures Block(index, offset, data)
            == (if data == [] then U32(index) + U32(offset)[..3] else Block(index, offset, data[..|data| - 1]))
                                          + [if data == [] then U32(offset)[3] else data[|data| - 1]]
  {
  }

  /** What the code's own prefix does to a Piece: the last byte of the data is cut off and stays behind in
      the stream, where the next header is expected. Without data even the offset is cut. */
  lemma {:induction false} PieceLosesLastByte(index: uint32, offset: uint32, data: Bytes, rest: Bytes)
    requires |data| + 8 <= MAX_FRAME
    ensures Decode(Encode(Piece(index, offset, data), CODE_OVERHEAD) + rest)
         == if data == [] then (Panic, [U32(offset)[3]] + rest)
            else (Got(Piece(index, offset, data[..|data| - 1])), [data[|data| - 1]] + rest)
  {
    PieceFrame(index, offset, data, rest);
    CutBlock(index, offset, data);
    if data == [] {
      LeftBehind(7, U32(index) + U32(offset)[..3], U32(offset)[3], rest);
    } else {
      LeftBehind(7, Block(index, offset, data[..|data| - 1]), data[|data| - 1], rest);
      ParsePiece(index, offset, data[..|data| - 1]);
    }
  }

  lemma {:induction false} SuggestBecomesKeepAlive(index: uint32, overhead: nat, rest: Bytes)
    ensures Decode(Encode(Suggest(index), overhead) + rest) == (Got(KeepAlive), rest)
  {
    DecodeEncoded(Suggest(index), overhead, rest);
    CutBody(5, 13, U32(index), rest);
  }

  // ----- the frames, byte by byte -----

  /** What is on the wire for each message: the length in four bytes, the type by the numbers of BEP 3, BEP 6 and
      BEP 10, and then the fields in order. Only the length of a Piece depends on the overhead. */
  lemma {:induction false} FrameOf(m: Message, overhead: nat)
    ensures Encode(m, overhead)
         == match m
            case KeepAlive => [0, 0, 0, 0]
            case Choke => [0, 0, 0, 1, 0]
            case Unchoke => [0, 0, 0, 1, 1]
            case Interested => [0, 0, 0, 1, 2]
            case NotInterested => [0, 0, 0, 1, 3]
            case Have(index) => [0, 0, 0, 5, 4] + Quad(index)
            case BitField(bits) => Quad(|bits| + 1) + [5] + bits
            case Request(index, offset, length) => [0, 0, 0, 13, 6] + Quad(index) + Quad(offset) + Quad(length)
            case Piece(index, offset, data) => Quad(|data| + overhead) + [7] + Quad(index) + Quad(offset) + data
            case Cancel(index, offset, length) => [0, 0, 0, 13, 8] + Quad(index) + Quad(offset) + Quad(length)
            case Suggest(index) => [0, 0, 0, 5, 13] + Quad(index)
            case HaveAll => [0, 0, 0, 1, 14]
            case HaveNone => [0, 0, 0, 1, 15]
            case Reject(index, offset, length) => [0, 0, 0, 13, 16] + Quad(index) + Quad(offset) + Quad(length)
            case AllowedFast(index) => [0, 0, 0, 5, 17] + Quad(index)
            case Extended(body) => Quad(|body| + 1) + [20] + body
  {
    match m
    case Have(index) => NumberFrames(index, overhead);
    case Suggest(index) => NumberFrames(index, overhead);
    case AllowedFast(index) => NumberFrames(index, overhead);
    case Request(index, offset, length) => ThreeFrames(index, offset, length, overhead);
    case Cancel(index, offset, length) => ThreeFrames(index, offset, length, overhead);
    case Reject(index, offset, length) => ThreeFrames(index, offset, length, overhead);
    case Piece(index, offset, data) => PieceFrameIs(index, offset, data, overhead);
    case BitField(bits) => BytesFrames(bits, overhead);
    case Extended(body) => BytesFrames(body, overhead);
    case _ => PlainFrames(overhead);
  }

  lemma {:induction false} PlainFrames(overhead: nat)
    ensures Encode(KeepAlive, overhead) == [0, 0, 0, 0]
    ensures Encode(Choke, overhead) == [0, 0, 0, 1, 0] && Encode(Unchoke, overhead) == [0, 0, 0, 1, 1]
    ensures Encode(Interested, overhead) == [0, 0, 0, 1, 2] && Encode(NotInterested, overhead) == [0, 0, 0, 1, 3]
    ensures Encode(HaveAll, overhead) == [0, 0, 0, 1, 14] && Encode(HaveNone, overhead) == [0, 0, 0, 1, 15]
  {
    U32IsQuad(0);
    U32IsQuad(1);
    SmallQuads();
  }

  lemma {:induction false} NumberFrames(index: uint32, overhead: nat)
    ensures Encode(Have(index), overhead) == [0, 0, 0, 5, 4] + Quad(index)
    ensures Encode(Suggest(index), overhead) == [0, 0, 0, 5, 13] + Quad(index)
    ensures Encode(AllowedFast(index), overhead) == [0, 0, 0, 5, 17] + Quad(index)
  {
    U32IsQuad(5);
    SmallQuads();
    NumberFrame(4, index);
    NumberFrame(13, index);
    NumberFrame(17, index);
  }

  lemma {:induction false} ThreeFrames(a: uint32, b: uint32, c: uint32, overhead: nat)
    ensures Encode(Request(a, b, c), overhead) == [0, 0, 0, 13, 6] + Quad(a) + Quad(b) + Quad(c)
    ensures Encode(Cancel(a, b, c), overhead) == [0, 0, 0, 13, 8] + Quad(a) + Quad(b) + Quad(c)
    ensures Encode(Reject(a, b, c), overhead) == [0, 0, 0, 13, 16] + Quad(a) + Quad(b) + Quad(c)
  {
    U32IsQuad(13);
    SmallQuads();
    ThreeFrame(6, a, b, c);
    ThreeFrame(8, a, b, c);
    ThreeFrame(16, a, b, c);
  }

  lemma {:induction false} PieceFrameIs(index: uint32, offset: uint32, data: Bytes, overhead: nat)
    ensures Encode(Piece(index, offset, data), overhead)
         == Quad(|data| + overhead) + [7] + Quad(index) + Quad(offset) + data
  {
    U32IsQuad(|data| + overhead);
    BlockFrame(index, offset, data, Quad(|data| + overhead));
  }

  lemma {:induction false} BytesFrames(data: Bytes, overhead: nat)
    ensures Encode(BitField(data), overhead) == Quad(|data| + 1) + [5] + data
    ensures Encode(Extended(data), overhead) == Quad(|data| + 1) + [20] + data
  {
    U32IsQuad(|data| + 1);
    Associate(Quad(|data| + 1), [5], data);
    Associate(Quad(|data| + 1), [20], data);
  }

  lemma {:induction false} SmallQuads()
    ensures Quad(0) == [0, 0, 0, 0] && Quad(1) == [0, 0, 0, 1] && Quad(5) == [0, 0, 0, 5] && Quad(13) == [0, 0, 0, 13]
  {
  }

  lemma {:induction false} NumberFrame(t: byte, index: uint32)
    ensures [0, 0, 0, 5] + ([t] + U32(index)) == [0, 0, 0, 5, t] + Quad(index)
  {
    U32IsQuad(index);
  }

  lemma {:induction false} ThreeFrame(t: byte, a: uint32, b: uint32, c: uint32)
    ensures [0, 0, 0, 13] + ([t] + Three(a, b, c)) == [0, 0, 0, 13, t] + Quad(a) + Quad(b) + Quad(c)
  {
    U32IsQuad(a);
    U32IsQuad(b);
    U32IsQuad(c);
  }

  lemma {:induction false} BlockFrame(index: uint32, offset: uint32, data: Bytes, n: Bytes)
    ensures n + ([7] + Block(index, offset, data)) == n + [7] + Quad(index) + Quad(offset) + data
  {
    U32IsQuad(index);
    U32IsQuad(offset);
  }

  /** What a frame of type t with this payload is taken for: the types in both directions are the same, but 13 is
      taken for a KeepAlive, as unknown ones are. */
  lemma {:induction false} FrameGives(t: byte, payload: Bytes, rest: Bytes)
    requires |payload| < 32768
    ensures var (r, left) := Decode(Quad(|payload| + 1) + [t] + payload + rest);
            left == rest
            && (t == 0 ==> r == Got(Choke)) && (t == 1 ==> r == Got(Unchoke))
            && (t == 2 ==> r == Got(Interested)) && (t == 3 ==> r == Got(NotInterested))
            && (t == 4 ==> r == if |payload| == 4 then Got(Have(NumberAt(payload, 0))) else Malformed)
            && (t == 5 ==> r == Got(BitField(payload)))
            && (t == 6 ==> r == if |payload| == 12
                  then Got(Request(NumberAt(payload, 0), NumberAt(payload, 4), NumberAt(payload, 8))) else Malformed)
            && (t == 7 ==> r == if |payload| < 8 then Panic
                  else Got(Piece(NumberAt(payload, 0), NumberAt(payload, 4), payload[8..])))
            && (t == 8 ==> r == if |payload| == 12
                  then Got(Cancel(NumberAt(payload, 0), NumberAt(payload, 4), NumberAt(payload, 8))) else Malformed)
            && (t == 14 ==> r == Got(HaveAll)) && (t == 15 ==> r == Got(HaveNone))
            && (t == 16 ==> r == if |payload| == 12
                  then Got(Reject(NumberAt(payload, 0), NumberAt(payload, 4), NumberAt(payload, 8))) else Malformed)
            && (t == 17 ==> r == if |payload| == 4 then Got(AllowedFast(NumberAt(payload, 0))) else Malformed)
            && (t == 20 ==> r == if payload == [] then Panic
                  else if payload[0] == 0 || payload[0] == 2 then Got(Extended(payload)) else Lost)
            && (9 <= t <= 13 || 18 <= t <= 19 || t > 20 ==> r == Got(KeepAlive))
  {
    FrameCut(t, payload, rest);
    PayloadNumbers(payload);
  }

  lemma {:induction false} FrameCut(t: byte, payload: Bytes, rest: Bytes)
    requires |payload| < 32768
    ensures Decode(Quad(|payload| + 1) + [t] + payload + rest) == (Parse(t, payload), rest)
  {
    var n := |payload| + 1;
    assert Quad(n) + [t] + payload + rest == Quad(n) + ([t] + payload + rest);
    DecodeQuad(n, [t] + payload + rest);
    CutBody(n, t, payload, rest);
  }

  lemma {:induction false} DecodeQuad(n: uint32, s: Bytes)
    ensures Decode(Quad(n) + s) == DecodeBody(n, s)
  {
    SmallRest(n);
    U32IsQuad(n);
    DecodeFrame(n, s);
  }

  lemma {:induction false} SmallRest(n: uint32)
    ensures n % 0x1_0000_0000 == n
  {
  }

  lemma {:induction false} PayloadNumbers(payload: Bytes)
    ensures |payload| == 4 ==> ReadU32(payload) == NumberAt(payload, 0)
    ensures |payload| >= 8 ==>
      ReadU32(payload[..4]) == NumberAt(payload, 0) && ReadU32(payload[4..8]) == NumberAt(payload, 4)
    ensures |payload| >= 12 ==> ReadU32(payload[8..12]) == NumberAt(payload, 8)
  {
    if |payload| >= 4 {
      ReadIsNumber(payload, 0);
      assert payload[0..4] == payload[..4] && (|payload| == 4 ==> payload[..4] == payload);
    }
    if |payload| >= 8 {
      ReadIsNumber(payload, 4);
    }
    if |payload| >= 12 {
      ReadIsNumber(payload, 8);
    }
  }

  /** What there is instead of a frame: nothing, a length of 0 or of more than 32 KiB, or fewer bytes than the length
      says. */
  lemma {:induction false} NoFrame(n: uint32, s: Bytes)
    ensures Decode([]) == (Eof, [])
    ensures n == 0 ==> Decode(Quad(n) + s) == (Got(KeepAlive), s)
    ensures n > 32768 ==> Decode(Quad(n) + s) == (TooLong, s)
    ensures |s| < n <= 32768 ==> Decode(Quad(n) + s) == (Truncated, [])
  {
    DecodeQuad(n, s);
  }

  // ----- whole streams -----

  predicate AllSupported(ms: seq<Message>, overhead: nat)
  {
    ms != [] ==> Supported(ms[0], overhead) && AllSupported(ms[1..], overhead)
  }

  lemma {:induction false} AllSupportedAre(ms: seq<Message>, overhead: nat)
    ensures AllSupported(ms, overhead) <==> forall m :: m in ms ==> Supported(m, overhead)
  {
    if ms != [] {
      AllSupportedAre(ms[1..], overhead);
      assert forall m :: m in ms <==> m == ms[0] || m in ms[1..];
    }
  }

  /** One more message in front of a stream. */
  lemma {:induction false} DecodeAllStep(m: Message, s: Bytes, rest: Bytes)
    requires s != []
    ensures Decode(s) == (Got(m), rest) ==> DecodeAll(s) == ([m] + DecodeAll(rest).0, DecodeAll(rest).1)
    ensures Decode(s).0 != Got(m) ==> DecodeAll(s).0 == [] || DecodeAll(s).0[0] != m
  {
  }

  lemma {:induction false} ConsSame(m: Message, xs: seq<Message>, ms: seq<Message>)
    requires ms != [] && ms[0] == m
    ensures [m] + xs == ms <==> xs == ms[1..]
  {
    assert ([m] + xs)[1..] == xs;
    if xs == ms[1..] {
      assert [ms[0]] + ms[1..] == ms;
    }
  }

  /** A list of messages is read back from the concatenation of its encodings, with nothing left over, exactly
      when each of them is supported. */
  lemma {:induction false} StreamRoundTrip(ms: seq<Message>, overhead: nat)
    requires overhead == CODE_OVERHEAD || overhead == RIGHT_OVERHEAD
    ensures DecodeAll(EncodeAll(ms, overhead)) == (ms, Eof) <==> AllSupported(ms, overhead)
  {
    if ms != [] {
      var rest := EncodeAll(ms[1..], overhead);
      var s := Encode(ms[0], overhead) + rest;
      assert EncodeAll(ms, overhead) == s;
      RoundTrip(ms[0], overhead, rest);
      StreamRoundTrip(ms[1..], overhead);
      DecodeAllStep(ms[0], s, rest);
      ConsSame(ms[0], DecodeAll(rest).0, ms);
    }
  }

  // ----- the handshake -----

  /** The three fields at the end are arrays of fixed length in the program. */
  datatype Handshake = Handshake(pstrLen: byte, pstr: Bytes, reserved: Bytes, infoHash: Bytes, peerId: Bytes)
  {
    predicate Sized() {
      |reserved| == 8 && |infoHash| == 20 && |peerId| == 20
    }

    function Encoded(): Bytes {
      [pstrLen] + pstr + reserved + infoHash + peerId
    }
  }

  /** UnmarshalHandshake: 68 bytes are taken off the stream, whatever their first byte says. */
  function UnmarshalHandshake(s: Bytes): (r: (Option<Handshake>, Bytes))
    ensures r.0.None? <==> |s| < 68
    ensures r.0.Some? ==> r.0.value.Sized() && r.0.value.Encoded() + r.1 == s
  {
    if |s| < 68 then (None, [])
    else (Some(Handshake(s[0], s[1..20], s[20..28], s[28..48], s[48..68])), s[68..])
  }

  /** The protocol string must have its 19 bytes, and then its stated length is carried along unchecked. */
  lemma {:induction false} HandshakeRoundTrip(h: Handshake, rest: Bytes)
    requires h.Sized()
    ensures UnmarshalHandshake(h.Encoded() + rest) == (Some(h), rest) <==> |h.pstr| == 19
  {
    var s := h.Encoded() + rest;
    if |h.pstr| == 19 {
      assert s[1..20] == h.pstr && s[20..28] == h.reserved && s[28..48] == h.infoHash && s[48..68] == h.peerId
             && s[68..] == rest;
    }
  }

  /** Where the fields of a handshake are in the 68 bytes. */
  lemma {:induction false} HandshakeAt(s: Bytes, i: nat)
    requires |s| >= 68
    ensures var (r, rest) := UnmarshalHandshake(s);
            && r.Some? && rest == s[68..] && r.value.pstrLen == s[0]
            && |r.value.pstr| == 19 && |r.value.reserved| == 8 && |r.value.infoHash| == 20 && |r.value.peerId| == 20
            && (i < 19 ==> r.value.pstr[i] == s[1 + i]) && (i < 8 ==> r.value.reserved[i] == s[20 + i])
            && (i < 20 ==> r.value.infoHash[i] == s[28 + i] && r.value.peerId[i] == s[48 + i])
  {
  }

  lemma {:induction false} HandshakeWrites(h: Handshake, i: nat)
    requires h.Sized() && |h.pstr| == 19
    ensures var s := h.Encoded();
            && |s| == 68 && s[0] == h.pstrLen
            && (i < 19 ==> s[1 + i] == h.pstr[i]) && (i < 8 ==> s[20 + i] == h.reserved[i])
            && (i < 20 ==> s[28 + i] == h.infoHash[i] && s[48 + i] == h.peerId[i])
  {
  }
}
