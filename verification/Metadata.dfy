/** Fetching the info dictionary from a peer (BEP 9): pkg/btorrent/peer/meta.go and util.go.

    The dictionary travels in pieces of 16 KiB. The collecting loop stores whatever piece arrives in its slot,
    and stops when the sizes of the slots add up to the announced size. */
module Metadata {
  import opened Basics

  const PIECE: nat := 16384

  datatype MetaRequest = MetaRequest(piece: nat, code: byte)

  /** What comes off the peer's message channel. A request or a reject is decoded like a data message for
      piece 0 without any data. */
  datatype Incoming = MetaPiece(index: int, data: Bytes) | Other

  const REJECT: Incoming := MetaPiece(0, [])

  /** The loop has ended with a dictionary, has hit a slot that does not exist, or is still waiting. */
  datatype Outcome = Complete(info: Bytes) | Panic | Waiting(pieces: seq<Bytes>)

  // ----- the requests -----

  /** Division truncates towards zero: a size between -16383 and -1 still asks for one piece. */
  function PieceCount(size: int): nat
  {
    if size >= 0 then (size + 16383) / 16384
    else if size + PIECE > 0 then 1
    else 0
  }

  method RequestInfoDict(code: int, size: int) returns (out: seq<MetaRequest>)
    ensures |out| == PieceCount(size)
    ensures size >= 0 ==> 16384 * |out| - 16384 < size <= 16384 * |out| || (size == 0 && out == [])
    ensures size < 0 ==> |out| == if size > -16384 then 1 else 0
    ensures forall i :: 0 <= i < |out| ==> out[i] == MetaRequest(i, (code % 256) as byte)
  {
    var quot := if size >= 0 then size / 16384 else -(-size / 16384);
    var nPieces := if size % 16384 == 0 then quot else quot + 1;
    out := [];
    var i := 0;
    while i < nPieces
      invariant 0 <= i && (i == 0 || i <= nPieces)
      invariant |out| == i
      invariant forall j :: 0 <= j < i ==> out[j] == MetaRequest(j, (code % 256) as byte)
    {
      out := out + [MetaRequest(i, (code % 256) as byte)];
      i := i + 1;
    }
  }

  // ----- sizes and contents -----

  function Size(pieces: seq<Bytes>): nat
  {
    if pieces == [] then 0 else Size(pieces[..|pieces| - 1]) + |pieces[|pieces| - 1]|
  }

  method SizeOf(pieces: seq<Bytes>) returns (sum: nat)
    ensures sum == Size(pieces)
  {
    sum := 0;
    for i := 0 to |pieces|
      invariant sum == Size(pieces[..i])
    {
      assert pieces[..i + 1][..i] == pieces[..i];
      sum := sum + |pieces[i]|;
    }
    assert pieces[..|pieces|] == pieces;
  }

  method Flatten(pieces: seq<Bytes>) returns (out: Bytes)
    ensures out == Concat(pieces)
  {
    out := [];
    for i := 0 to |pieces|
      invariant out == Concat(pieces[..i])
    {
      assert pieces[..i + 1][..i] == pieces[..i];
      out := out + pieces[i];
    }
    assert pieces[..|pieces|] == pieces;
  }

  // ----- the collecting loop -----

  /** The slots after some messages: the last write to a slot is what counts. */
  function Stored(msgs: seq<Incoming>, n: nat): (pieces: seq<Bytes>)
    ensures |pieces| == n
  {
    if msgs == [] then seq(n, _ => [])
    else
      var before := Stored(msgs[..|msgs| - 1], n);
      match msgs[|msgs| - 1]
      case MetaPiece(index, data) => if 0 <= index < n then before[index := data] else before
      case Other => before
  }

  /** The loop, as a function of the messages to come. */
  function Collect(pieces: seq<Bytes>, msgs: seq<Incoming>, size: int): Outcome
    decreases |msgs|
  {
    if msgs == [] then Waiting(pieces)
    else
      match msgs[0]
      case Other => Collect(pieces, msgs[1..], size)
      case MetaPiece(index, data) =>
        if !(0 <= index < |pieces|) then Panic
        else
          var next := pieces[index := data];
          if Size(next) == size then Complete(Concat(next)) else Collect(next, msgs[1..], size)
  }

  /** getInfoDict, for the messages that arrive until the context is done. */
  method GetInfoDict(msgs: seq<Incoming>, code: int, size: int) returns (r: Outcome)
    ensures r == Collect(seq(PieceCount(size), _ => []), msgs, size)
  {
    var reqs := RequestInfoDict(code, size);
    var pieces: seq<Bytes> := seq(|reqs|, _ => []);
    for i := 0 to |msgs|
      invariant |pieces| == |reqs|
      invariant Collect(pieces, msgs[i..], size) == Collect(seq(PieceCount(size), _ => []), msgs, size)
    {
      assert msgs[i..][1..] == msgs[i + 1..];
      match msgs[i]
      case Other =>
      case MetaPiece(index, data) =>
        if !(0 <= index < |pieces|) {
          return Panic;
        }
        pieces := pieces[index := data];
        var sum := SizeOf(pieces);
        if sum == size {
          var info := Flatten(pieces);
          return Complete(info);
        }
    }
    return Waiting(pieces);
  }

  // ----- genuine pieces -----

  function Slice(info: Bytes, i: nat): (r: Bytes)
    requires 16384 * i < |info|
    ensures 0 < |r| <= PIECE
  {
    info[16384 * i..Min(16384 * (i + 1), |info|)]
  }

  /** A message that does no harm: not a data message, or a true slice, or a reject. */
  predicate Honest(msg: Incoming, info: Bytes)
  {
    match msg
    case Other => true
    case MetaPiece(index, data) =>
      if data == [] then index == 0 && info != []
      else 0 <= index && 16384 * index < |info| && data == Slice(info, index)
  }

  predicate AllHonest(msgs: seq<Incoming>, info: Bytes)
  {
    forall m :: m in msgs ==> Honest(m, info)
  }

  predicate Fills(pieces: seq<Bytes>, info: Bytes)
  {
    |pieces| == PieceCount(|info|) && forall i :: 0 <= i < |pieces| ==> pieces[i] == [] || pieces[i] == Slice(info, i)
  }

  /** Slots that hold their slice or nothing: the sizes add up exactly when no slot of the first k is empty,
      and then the contents do too. */
  lemma {:induction false} FilledPrefix(pieces: seq<Bytes>, info: Bytes, k: nat)
    requires Fills(pieces, info) && k <= |pieces|
    ensures Size(pieces[..k]) <= Min(16384 * k, |info|)
    ensures Size(pieces[..k]) == Min(16384 * k, |info|) <==> forall i :: 0 <= i < k ==> pieces[i] != []
    ensures Size(pieces[..k]) == Min(16384 * k, |info|) ==> Concat(pieces[..k]) == info[..Min(16384 * k, |info|)]
  {
    if k > 0 {
      FilledPrefix(pieces, info, k - 1);
      assert pieces[..k][..k - 1] == pieces[..k - 1];
      assert 16384 * (k - 1) < |info|;
      if pieces[k - 1] != [] {
        assert info[..16384 * (k - 1)] + Slice(info, k - 1) == info[..Min(16384 * k, |info|)];
      }
    }
  }

  lemma {:induction false} Filled(pieces: seq<Bytes>, info: Bytes)
    requires Fills(pieces, info)
    ensures Size(pieces) == |info| <==> forall i :: 0 <= i < |pieces| ==> pieces[i] != []
    ensures Size(pieces) == |info| ==> Concat(pieces) == info
  {
    FilledPrefix(pieces, info, |pieces|);
    assert pieces[..|pieces|] == pieces;
  }

  lemma {:induction false} StoredFills(msgs: seq<Incoming>, info: Bytes)
    requires AllHonest(msgs, info)
    ensures Fills(Stored(msgs, PieceCount(|info|)), info)
  {
    if msgs != [] {
      var last := msgs[|msgs| - 1];
      assert last in msgs && Honest(last, info);
      StoredFills(msgs[..|msgs| - 1], info);
    }
  }

  /** Slot i has been given its slice and, for slot 0, no reject has come since. */
  predicate Arrived(msgs: seq<Incoming>, i: nat)
  {
    msgs != [] && match msgs[|msgs| - 1]
                  case MetaPiece(index, data) => if index == i then data != [] else Arrived(msgs[..|msgs| - 1], i)
                  case Other => Arrived(msgs[..|msgs| - 1], i)
  }

  lemma {:induction false} StoredIsArrived(msgs: seq<Incoming>, n: nat, i: nat)
    requires i < n
    ensures Stored(msgs, n)[i] != [] <==> Arrived(msgs, i)
  {
    if msgs != [] {
      StoredIsArrived(msgs[..|msgs| - 1], n, i);
    }
  }

  /** Without rejects, that is just to have arrived at all. */
  lemma {:induction false} ArrivedAtAll(msgs: seq<Incoming>, info: Bytes, i: nat)
    requires AllHonest(msgs, info) && REJECT !in msgs && 16384 * i < |info|
    ensures Arrived(msgs, i) <==> MetaPiece(i, Slice(info, i)) in msgs
  {
    if msgs != [] {
      var most, last := msgs[..|msgs| - 1], msgs[|msgs| - 1];
      assert msgs == most + [last] && Honest(last, info);
      ArrivedAtAll(most, info, i);
    }
  }

  predicate AllArrived(msgs: seq<Incoming>, info: Bytes)
  {
    forall i :: 0 <= i < PieceCount(|info|) ==> Arrived(msgs, i)
  }

  /** From honest messages, in any order and with repeats: the sizes add up to the size of the dictionary
      exactly when all its pieces have arrived, and then the slots together are the dictionary. */
  lemma {:induction false} CompleteMeansArrived(msgs: seq<Incoming>, info: Bytes)
    requires AllHonest(msgs, info)
    ensures var pieces := Stored(msgs, PieceCount(|info|));
            (Size(pieces) == |info| <==> AllArrived(msgs, info)) && (AllArrived(msgs, info) ==> Concat(pieces) == info)
  {
    var n := PieceCount(|info|);
    var pieces := Stored(msgs, n);
    StoredFills(msgs, info);
    Filled(pieces, info);
    forall i | 0 <= i < n ensures pieces[i] != [] <==> Arrived(msgs, i) {
      StoredIsArrived(msgs, n, i);
    }
  }

  /** Some of the first messages have brought all the pieces. */
  ghost predicate Comes(msgs: seq<Incoming>, info: Bytes)
  {
    exists k :: 0 <= k <= |msgs| && AllArrived(msgs[..k], info)
  }

  /** The whole fetch of a non-empty dictionary from an honest peer: it ends with the dictionary as soon as
      some prefix of the messages has brought all pieces, and otherwise goes on waiting. */
  lemma {:induction false} FetchIsExact(msgs: seq<Incoming>, info: Bytes)
    requires AllHonest(msgs, info) && info != []
    ensures Collect(seq(PieceCount(|info|), _ => []), msgs, |info|)
         == if Comes(msgs, info) then Complete(info) else Waiting(Stored(msgs, PieceCount(|info|)))
  {
    assert msgs[0..] == msgs && msgs[..0] == [];
    assert !AllArrived([], info) by {
      assert !Arrived([], 0);
    }
    FetchFrom(msgs, info, 0);
  }

  lemma {:induction false} FetchFrom(msgs: seq<Incoming>, info: Bytes, j: nat)
    requires AllHonest(msgs, info) && info != [] && j <= |msgs|
    requires forall k :: 0 <= k <= j ==> !AllArrived(msgs[..k], info)
    ensures Collect(Stored(msgs[..j], PieceCount(|info|)), msgs[j..], |info|)
         == if Comes(msgs, info) then Complete(info) else Waiting(Stored(msgs, PieceCount(|info|)))
    decreases |msgs| - j
  {
    if j == |msgs| {
      assert msgs[..j] == msgs;
    } else {
      FetchStep(msgs, info, j);
      if !AllArrived(msgs[..j + 1], info) {
        FetchFrom(msgs, info, j + 1);
      }
    }
  }

  /** One message more: the loop ends if it makes the pieces complete. */
  lemma {:induction false} FetchStep(msgs: seq<Incoming>, info: Bytes, j: nat)
    requires AllHonest(msgs, info) && j < |msgs| && !AllArrived(msgs[..j], info)
    ensures var n := PieceCount(|info|);
            Collect(Stored(msgs[..j], n), msgs[j..], |info|)
            == if AllArrived(msgs[..j + 1], info) then Complete(info)
               else Collect(Stored(msgs[..j + 1], n), msgs[j + 1..], |info|)
  {
    var n, m := PieceCount(|info|), msgs[j];
    assert m in msgs && Honest(m, info);
    StoredStep(msgs, n, j);
    HonestPrefix(msgs, info, j + 1);
    CompleteMeansArrived(msgs[..j + 1], info);
    CollectStep(Stored(msgs[..j], n), msgs, j, |info|);
    if m == Other {
      OtherArrives(msgs, info, j);
    }
  }

  lemma {:induction false} HonestPrefix(msgs: seq<Incoming>, info: Bytes, k: nat)
    requires AllHonest(msgs, info) && k <= |msgs|
    ensures AllHonest(msgs[..k], info)
  {
    assert forall x :: x in msgs[..k] ==> x in msgs;
  }

  lemma {:induction false} StoredStep(msgs: seq<Incoming>, n: nat, j: nat)
    requires j < |msgs|
    ensures Stored(msgs[..j + 1], n) == match msgs[j]
                                        case MetaPiece(index, data) =>
                                          if 0 <= index < n then Stored(msgs[..j], n)[index := data]
                                              else Stored(msgs[..j], n)
                                        case Other => Stored(msgs[..j], n)
  {
    assert msgs[..j + 1][..j] == msgs[..j];
  }

  lemma {:induction false} CollectStep(pieces: seq<Bytes>, msgs: seq<Incoming>, j: nat, size: int)
    requires j < |msgs|
    ensures Collect(pieces, msgs[j..], size) ==
            match msgs[j]
            case Other => Collect(pieces, msgs[j + 1..], size)
            case MetaPiece(index, data) =>
              if !(0 <= index < |pieces|) then Panic
              else if Size(pieces[index := data]) == size then Complete(Concat(pieces[index := data]))
              else Collect(pieces[index := data], msgs[j + 1..], size)
  {
    assert msgs[j..][1..] == msgs[j + 1..];
  }

  lemma {:induction false} OtherArrives(msgs: seq<Incoming>, info: Bytes, j: nat)
    requires j < |msgs| && msgs[j] == Other
    ensures AllArrived(msgs[..j + 1], info) <==> AllArrived(msgs[..j], info)
  {
    var now, before := msgs[..j + 1], msgs[..j];
    assert now[..j] == before;
    assert now[|now| - 1] == Other;
    forall i | 0 <= i < PieceCount(|info|) ensures Arrived(now, i) == Arrived(before, i) {
    }
    if AllArrived(now, info) {
      forall i | 0 <= i < PieceCount(|info|) ensures Arrived(before, i) {
        assert Arrived(now, i);
      }
    }
  }
}
