/** The bit fields of pkg/bits/bits.go.

    A BitField is a Go byte slice whose methods change the bytes in place. Bit k lives in byte k / 8
    under the mask 128 >> (k % 8). Everything is stated against `Indices`, the mathematical set of the
    indices whose bit is 1.
 */
module Bits {
  import opened Basics

  /** 128 >> i, by i single shifts. */
  function Mask(i: nat): bv8
    requires i < 8
  {
    if i == 0 then 128 else Mask(i - 1) >> 1
  }

  predicate Bit(b: bv8, i: nat)
    requires i < 8
  {
    b & Mask(i) == Mask(i)
  }

  /** BitField.Get: an index past the end reads as 0. */
  predicate Get(bf: seq<bv8>, index: nat)
  {
    index / 8 < |bf| && Bit(bf[index / 8], index % 8)
  }

  /** The set a bit field stands for. */
  ghost function Indices(bf: seq<bv8>): set<nat>
  {
    IndicesBelow(bf, 8 * |bf|)
  }

  ghost function IndicesBelow(bf: seq<bv8>, n: nat): set<nat>
  {
    if n == 0 then {} else IndicesBelow(bf, n - 1) + if Get(bf, n - 1) then {n - 1} else {}
  }

  /** Membership is Get. */
  lemma {:induction false} IndicesAre(bf: seq<bv8>)
    ensures forall k: nat :: k in Indices(bf) <==> Get(bf, k)
    ensures Indices(bf) <= Below(8 * |bf|)
  {
    IndicesBelowAre(bf, 8 * |bf|);
  }

  lemma {:induction false} IndicesBelowAre(bf: seq<bv8>, n: nat)
    ensures forall k: nat :: k in IndicesBelow(bf, n) <==> k < n && Get(bf, k)
  {
    if n > 0 {
      IndicesBelowAre(bf, n - 1);
    }
  }

  // ----- single bytes -----

  lemma {:induction false} MaskValues()
    ensures Mask(0) == 128 && Mask(1) == 64 && Mask(2) == 32 && Mask(3) == 16
    ensures Mask(4) == 8 && Mask(5) == 4 && Mask(6) == 2 && Mask(7) == 1
  {
    assert Mask(1) == 64;
    assert Mask(2) == 32;
    assert Mask(3) == 16;
    assert Mask(4) == 8;
    assert Mask(5) == 4;
    assert Mask(6) == 2;
  }

  lemma {:induction false} SetBit(b: bv8, i: nat, j: nat)
    requires i < 8 && j < 8
    ensures Bit(b | Mask(i), j) <==> j == i || Bit(b, j)
  {
    MaskValues();
  }

  lemma {:induction false} UnsetBit(b: bv8, i: nat, j: nat)
    requires i < 8 && j < 8
    ensures Bit(b & !Mask(i), j) <==> j != i && Bit(b, j)
  {
    MaskValues();
  }

  lemma {:induction false} NonzeroBit(b: bv8)
    ensures b != 0 <==> exists j: nat :: j < 8 && Bit(b, j)
  {
    MaskValues();
    if b != 0 {
      assert Bit(b, 0) || Bit(b, 1) || Bit(b, 2) || Bit(b, 3) || Bit(b, 4) || Bit(b, 5) || Bit(b, 6) || Bit(b, 7);
    }
  }

  /** Every finite set of indices has a field. */
  lemma {:induction false} FieldFor(s: set<nat>, n: nat) returns (bf: seq<bv8>)
    requires s <= Below(n)
    ensures Indices(bf) == s
    decreases n
  {
    if n == 0 {
      bf := [];
    } else {
      var was := FieldFor(s - {n - 1}, n - 1);
      bf := was;
      if n - 1 in s {
        var wide := was + seq((n - 1) / 8 + 1, _ => 0);
        bf := wide[(n - 1) / 8 := wide[(n - 1) / 8] | Mask((n - 1) % 8)];
        forall k: nat ensures Get(bf, k) <==> k == n - 1 || Get(was, k) {
          WidenedGet(was, (n - 1) / 8 + 1, k);
          if k / 8 == (n - 1) / 8 {
            SetBit(wide[(n - 1) / 8], (n - 1) % 8, k % 8);
          }
        }
        IndicesAre(was);
        IndicesAre(bf);
      }
    }
  }

  /** Zero bytes at the end change nothing. */
  lemma {:induction false} WidenedGet(bf: seq<bv8>, n: nat, k: nat)
    ensures Get(bf + seq(n, _ => 0), k) <==> Get(bf, k)
  {
    if |bf| <= k / 8 < |bf| + n {
      NonzeroBit(0);
    }
  }

  // ----- in-place updates -----

  method NewBitField(bits: nat) returns (bf: array<bv8>)
    ensures fresh(bf) && bf.Length == (bits + 7) / 8
    ensures Indices(bf[..]) == {}
  {
    bf := new bv8[if bits % 8 == 0 then bits / 8 else bits / 8 + 1](_ => 0);
    forall k: nat ensures !Get(bf[..], k) {
      if k / 8 < bf.Length {
        NonzeroBit(bf[k / 8]);
      }
    }
    IndicesAre(bf[..]);
  }

  /** Set fails exactly when the byte of `index` is past the end; otherwise it adds `index` and nothing else. */
  method Set(bf: array<bv8>, index: nat) returns (ok: bool)
    modifies bf
    ensures ok <==> index < 8 * bf.Length
    ensures Indices(bf[..]) == old(Indices(bf[..])) + if ok then {index} else {}
  {
    var offset, localIndex := index / 8, index % 8;
    if offset >= bf.Length {
      return false;
    }
    ghost var was := bf[..];
    bf[offset] := bf[offset] | Mask(localIndex);
    forall k: nat ensures Get(bf[..], k) <==> k == index || Get(was, k) {
      if k / 8 == offset {
        SetBit(was[offset], localIndex, k % 8);
      }
    }
    IndicesAre(was);
    IndicesAre(bf[..]);
    return true;
  }

  method Unset(bf: array<bv8>, index: nat) returns (ok: bool)
    modifies bf
    ensures ok <==> index < 8 * bf.Length
    ensures Indices(bf[..]) == old(Indices(bf[..])) - {index}
  {
    var offset, localIndex := index / 8, index % 8;
    if offset >= bf.Length {
      IndicesAre(bf[..]);
      return false;
    }
    ghost var was := bf[..];
    bf[offset] := bf[offset] & !Mask(localIndex);
    forall k: nat ensures Get(bf[..], k) <==> k != index && Get(was, k) {
      if k / 8 == offset {
        UnsetBit(was[offset], localIndex, k % 8);
      }
    }
    IndicesAre(was);
    IndicesAre(bf[..]);
    return true;
  }

  /** Ones(n) stands for {0, ..., n - 1}: in particular the spare bits of its last byte are 0. */
  method Ones(n: nat) returns (bf: array<bv8>)
    ensures fresh(bf) && bf.Length == (n + 7) / 8
    ensures Indices(bf[..]) == Below(n)
  {
    bf := NewBitField(n);
    for i := 0 to n
      invariant fresh(bf) && bf.Length == (n + 7) / 8
      invariant Indices(bf[..]) == Below(i)
    {
      var _ := Set(bf, i);
      assert Below(i + 1) == Below(i) + {i};
    }
  }

  // ----- queries -----

  lemma {:induction false} BitOfByte(bf: seq<bv8>, j: nat, i: nat)
    requires j < |bf| && i < 8
    ensures 8 * j + i in Indices(bf) <==> Bit(bf[j], i)
  {
    IndicesAre(bf);
    assert (8 * j + i) / 8 == j && (8 * j + i) % 8 == i;
  }

  ghost function SumBelow(bf: seq<bv8>, n: nat): nat
  {
    Count(Indices(bf), n)
  }

  lemma {:induction false} SumStep(bf: seq<bv8>, j: nat, i: nat)
    requires j < |bf| && i < 8
    ensures SumBelow(bf, 8 * j + i + 1) == SumBelow(bf, 8 * j + i) + if Bit(bf[j], i) then 1 else 0
  {
    BitOfByte(bf, j, i);
  }

  lemma {:induction false} SumIsCardinality(bf: seq<bv8>)
    ensures SumBelow(bf, 8 * |bf|) == |Indices(bf)|
  {
    CountIsCardinality(Indices(bf), 8 * |bf|);
    IndicesAre(bf);
    assert Indices(bf) * Below(8 * |bf|) == Indices(bf);
  }

  /** GetSum counts the elements of the set. */
  method GetSum(bf: array<bv8>) returns (sum: nat)
    ensures sum == |Indices(bf[..])|
  {
    sum := 0;
    ghost var s := bf[..];
    for j := 0 to bf.Length
      invariant sum == SumBelow(s, 8 * j)
    {
      var b := bf[j];
      for i := 0 to 8
        invariant sum == SumBelow(s, 8 * j + i)
      {
        SumStep(s, j, i);
        if Bit(b, i) {
          sum := sum + 1;
        }
      }
    }
    SumIsCardinality(s);
  }

  /** GetMaxIndex is the largest element of a non-empty set. An empty one gives 0, so that a result of
      0 does not tell {0} from {}. */
  method GetMaxIndex(bf: array<bv8>) returns (r: nat)
    ensures Indices(bf[..]) == {} ==> r == 0
    ensures Indices(bf[..]) != {} ==> r in Indices(bf[..])
    ensures forall k :: k in Indices(bf[..]) ==> k <= r
  {
    ghost var s := bf[..];
    IndicesAre(s);
    var i: int := bf.Length - 1;
    while i >= 0
      invariant -1 <= i < bf.Length
      invariant Indices(s) <= Below(8 * (i + 1))
    {
      var b := bf[i];
      assert b == s[i];
      NonzeroBit(b);
      if b > 0 {
        for j := 0 to 8
          invariant forall k: nat :: k < 8 && Bit(b, k) ==> k <= 7 - j
        {
          if Bit(b, 7 - j) {  // the mask is 1 << j
            var offset, localIndex := i * 8, 7 - j;
            HighestBit(s, i, localIndex);
            return offset + localIndex;
          }
        }
        assert false;
      }
      ZeroByte(s, i);
      i := i - 1;
    }
    return 0;
  }

  lemma {:induction false} HighestBit(bf: seq<bv8>, i: nat, l: nat)
    requires i < |bf| && l < 8 && Indices(bf) <= Below(8 * (i + 1))
    requires Bit(bf[i], l) && forall k: nat :: k < 8 && Bit(bf[i], k) ==> k <= l
    ensures 8 * i + l in Indices(bf)
    ensures forall k :: k in Indices(bf) ==> k <= 8 * i + l
  {
    BitOfByte(bf, i, l);
    IndicesAre(bf);
    forall k | k in Indices(bf) ensures k <= 8 * i + l {
      assert k in Below(8 * (i + 1));
      if k / 8 == i {
        assert Bit(bf[i], k % 8);
      }
    }
  }

  lemma {:induction false} ZeroByte(bf: seq<bv8>, i: nat)
    requires i < |bf| && Indices(bf) <= Below(8 * (i + 1))
    requires forall j: nat :: j < 8 ==> !Bit(bf[i], j)
    ensures Indices(bf) <= Below(8 * i)
  {
    IndicesAre(bf);
    forall k | k in Indices(bf) ensures k < 8 * i {
      assert k in Below(8 * (i + 1)) && k / 8 <= i;
    }
  }

  /** GetOnes lists the set indices of one byte of a field in ascending order. */
  method GetOnes(offset: nat, b: bv8) returns (out: seq<nat>)
    ensures forall x, y :: 0 <= x < y < |out| ==> out[x] < out[y]
    ensures forall k: nat :: k in out <==> offset * 8 <= k < offset * 8 + 8 && Bit(b, k - offset * 8)
  {
    out := [];
    var startIndex := offset * 8;
    for i := 0 to 8
      invariant forall x, y :: 0 <= x < y < |out| ==> out[x] < out[y]
      invariant forall x :: 0 <= x < |out| ==> out[x] < startIndex + i
      invariant forall k: nat :: k in out <==> startIndex <= k < startIndex + i && Bit(b, k - startIndex)
    {
      if Bit(b, i) {
        out := out + [startIndex + i];
      }
    }
  }

  // ----- what the client's completeness test rests on -----

  /** Comparing the sum with n tells whether all of 0, ..., n - 1 are set, provided that no bit at n or
      above is. */
  lemma {:induction false} SumMeansAll(bf: seq<bv8>, n: nat)
    requires Indices(bf) <= Below(n)
    ensures |Indices(bf)| == n <==> forall k: nat :: k < n ==> Get(bf, k)
  {
    IndicesAre(bf);
    BelowSize(n);
    SubsetCardinality(Indices(bf), Below(n));
    if forall k: nat :: k < n ==> Get(bf, k) {
      assert Indices(bf) == Below(n);
    }
    if Indices(bf) == Below(n) {
      forall k: nat | k < n ensures Get(bf, k) {
        assert k in Below(n);
      }
    }
  }

  /** Without that proviso the sum is not enough: a spare bit stands in for a missing piece. */
  lemma {:induction false} SpareBitFoolsSum()
    ensures |Indices([64])| == 1 && !Get([64], 0)
  {
    var bf: seq<bv8> := [64];
    MaskValues();
    assert Bit(64, 1);
    forall k: nat | k < 8 && k != 1 ensures !Bit(64, k) {
      assert k == 0 || k == 2 || k == 3 || k == 4 || k == 5 || k == 6 || k == 7;
    }
    assert Get(bf, 1) && !Get(bf, 0);
    IndicesAre(bf);
    assert Indices(bf) == {1};
  }
}
