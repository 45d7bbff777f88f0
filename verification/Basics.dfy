/** Small shared vocabulary: outcomes, bytes, multiples and quotients, finite index sets and running sums. */
module Basics {

  datatype Option<+T> = None | Some(value: T)

  newtype byte = x: int | 0 <= x < 256

  type Bytes = seq<byte>

  /** The SHA-1 function is a parameter of everything that needs it; nothing is assumed of it here. */
  type Digest = seq<byte>
  type HashFunction = Bytes -> Digest

  /** A Go slice of bytes. The buffer it was read into may go on behind it: slicing is checked against the
      capacity of the buffer, not against the length of the data. */
  datatype Buffer = Buffer(data: Bytes, tail: Bytes)
  {
    function Capacity(): nat { |data| + |tail| }

    function Slice(lo: nat, hi: nat): Option<Bytes> {
      if lo <= hi <= Capacity() then Some((data + tail)[lo..hi]) else None
    }
  }

  function Min(a: int, b: int): int {
    if a < b then a else b
  }

  // ----- multiples, quotients and remainders -----
  //
  // Multiplication and division by a variable, as repeated addition and subtraction: the proofs then need
  // linear arithmetic only. `Native` says that these are the built-in operators.

  function Times(k: nat, b: nat): nat
  {
    if k == 0 then 0 else Times(k - 1, b) + b
  }

  function Quot(a: nat, b: nat): nat
    requires b > 0
  {
    if a < b then 0 else Quot(a - b, b) + 1
  }

  function Rem(a: nat, b: nat): nat
    requires b > 0
  {
    if a < b then a else Rem(a - b, b)
  }

  function CeilDiv(a: nat, b: nat): nat
    requires b > 0
  {
    if Rem(a, b) == 0 then Quot(a, b) else Quot(a, b) + 1
  }

  lemma {:induction false} TimesIsProduct(k: nat, b: nat)
    ensures Times(k, b) == k * b
  {
    if k > 0 {
      TimesIsProduct(k - 1, b);
      assert k * b == (k - 1) * b + b;
    }
  }

  lemma {:induction false} QuotRem(a: nat, b: nat)
    requires b > 0
    ensures a == Times(Quot(a, b), b) + Rem(a, b)
    ensures Rem(a, b) < b
  {
    if a >= b {
      QuotRem(a - b, b);
    }
  }

  lemma {:induction false} TimesMonotone(x: nat, y: nat, b: nat)
    requires x <= y
    ensures Times(x, b) <= Times(y, b)
    ensures x < y ==> Times(x, b) + b <= Times(y, b)
    decreases y
  {
    if x < y {
      TimesMonotone(x, y - 1, b);
    }
  }

  lemma {:induction false} TimesAdd(x: nat, y: nat, b: nat)
    ensures Times(x + y, b) == Times(x, b) + Times(y, b)
  {
    if y > 0 {
      TimesAdd(x, y - 1, b);
      assert x + y - 1 == x + (y - 1);
    }
  }

  lemma {:induction false} QuotUnique(a: nat, b: nat, q: nat)
    requires b > 0 && Times(q, b) <= a < Times(q, b) + b
    ensures Quot(a, b) == q && Rem(a, b) == a - Times(q, b)
  {
    QuotRem(a, b);
    if Quot(a, b) <= q {
      TimesMonotone(Quot(a, b), q, b);
    } else {
      TimesMonotone(q, Quot(a, b), b);
    }
  }

  lemma {:induction false} Native(a: nat, b: nat)
    requires b > 0
    ensures Quot(a, b) == a / b && Rem(a, b) == a % b
  {
    var q := a / b;
    TimesIsProduct(q, b);
    assert a == q * b + a % b;
    QuotUnique(a, b, q);
  }

  lemma {:induction false} CeilDivBounds(a: nat, b: nat)
    requires b > 0
    ensures a <= Times(CeilDiv(a, b), b) < a + b
  {
    QuotRem(a, b);
  }

  lemma {:induction false} CeilDivUnique(a: nat, b: nat, k: nat)
    requires b > 0 && a <= Times(k, b) < a + b
    ensures k == CeilDiv(a, b)
  {
    CeilDivBounds(a, b);
    var c := CeilDiv(a, b);
    if c <= k {
      TimesMonotone(c, k, b);
    } else {
      TimesMonotone(k, c, b);
    }
  }

  // ----- finite index sets -----

  predicate Index(k: nat) { true }

  ghost function Below(n: nat): set<nat>
  {
    set k: nat | k < n && Index(k)
  }

  lemma {:induction false} BelowSize(n: nat)
    ensures |Below(n)| == n
  {
    if n > 0 {
      BelowSize(n - 1);
      assert Below(n) == Below(n - 1) + {n - 1};
    }
  }

  ghost function Count(s: set<nat>, n: nat): nat
  {
    if n == 0 then 0 else Count(s, n - 1) + if n - 1 in s then 1 else 0
  }

  lemma {:induction false} CountIsCardinality(s: set<nat>, n: nat)
    ensures Count(s, n) == |s * Below(n)|
  {
    if n == 0 {
      assert s * Below(0) == {};
    } else {
      CountIsCardinality(s, n - 1);
      if n - 1 in s {
        assert s * Below(n) == s * Below(n - 1) + {n - 1};
      } else {
        assert s * Below(n) == s * Below(n - 1);
      }
    }
  }

  lemma {:induction false} SubsetCardinality<T>(a: set<T>, b: set<T>)
    requires a <= b
    ensures |a| <= |b|
    ensures |a| == |b| <==> a == b
  {
    assert b == a + (b - a);
    assert |b| == |a| + |b - a|;
    if a != b {
      var x :| x in b - a;
      assert |b - a| > 0;
    }
  }

  // ----- slices -----

  lemma {:induction false} SubSlice<T>(xs: seq<T>, s: nat, e: nat, a: nat, b: nat)
    requires s <= e <= |xs| && a <= b <= e - s
    ensures xs[s..e][a..b] == xs[s + a..s + b]
  {
    var t := xs[s..e];
    assert forall q {:trigger t[q]} :: 0 <= q < e - s ==> t[q] == xs[s + q];
  }

  lemma {:induction false} Snoc<T>(xs: seq<T>)
    requires xs != []
    ensures xs == xs[..|xs| - 1] + [xs[|xs| - 1]]
  {
  }

  lemma {:induction false} DropLast<T>(xs: seq<T>, x: T)
    ensures (xs + [x])[..|xs|] == xs && (xs + [x])[..|xs + [x]| - 1] == xs
  {
  }

  lemma {:induction false} TailAppend<T>(xs: seq<T>, x: T)
    requires xs != []
    ensures (xs + [x])[0] == xs[0] && (xs + [x])[1..] == xs[1..] + [x]
  {
  }

  lemma {:induction false} NilRight<T>(xs: seq<T>)
    ensures xs + [] == xs
  {
  }

  lemma {:induction false} NilLeft<T>(xs: seq<T>)
    ensures [] + xs == xs
  {
  }

  lemma {:induction false} Associate<T>(xs: seq<T>, ys: seq<T>, zs: seq<T>)
    ensures xs + ys + zs == xs + (ys + zs)
  {
  }

  // ----- running sums -----

  function Sum(xs: seq<nat>): nat
  {
    if xs == [] then 0 else Sum(xs[..|xs| - 1]) + xs[|xs| - 1]
  }

  lemma {:induction false} SumStep(xs: seq<nat>, i: nat)
    requires i < |xs|
    ensures Sum(xs[..i + 1]) == Sum(xs[..i]) + xs[i]
  {
    assert xs[..i + 1][..i] == xs[..i];
  }

  lemma {:induction false} SumPrefix(xs: seq<nat>, i: nat, j: nat)
    requires i <= j <= |xs|
    ensures Sum(xs[..i]) <= Sum(xs[..j])
    decreases j - i
  {
    if i < j {
      SumStep(xs, j - 1);
      SumPrefix(xs, i, j - 1);
    }
  }

  // ----- concatenation -----

  function Concat<T>(xs: seq<seq<T>>): seq<T>
  {
    if xs == [] then [] else Concat(xs[..|xs| - 1]) + xs[|xs| - 1]
  }
}
