/** The allowed fast set of a peer (BEP 6): GenFastSet of pkg/btorrent/torrent.go. Piece indices are drawn
    from a chain of hashes, five words a hash, until k different ones have turned up. */
module FastSets {
  import opened Basics
  import opened Numbers
  import Tracker

  // ----- the draws -----

  /** The first four bytes at position `at` of a digest; a digest that is too short reads as 0. (SHA-1 digests
      have 20 bytes.) */
  function Word(digest: Bytes, at: nat): nat
  {
    if at + 4 <= |digest| then ReadU32(digest[at..at + 4]) else 0
  }

  /** A chain of hashes that starts from a seed, for a torrent with so many pieces. */
  datatype Draw = Draw(sha1: HashFunction, seed: Bytes, pieces: nat)
  {
    predicate Valid() {
      pieces > 0
    }

    function Hash(j: nat): Bytes
      requires Valid()
    {
      if j == 0 then seed else sha1(Hash(j - 1))
    }

    /** Word i of a digest, modulo the piece count. */
    function Index(digest: Bytes, i: nat): nat
      requires Valid()
    {
      Rem(Word(digest, i * 4), pieces)
    }

    /** The draws of the first h hashes and the first i of the next one. */
    function Values(h: nat, i: nat): (r: seq<nat>)
      requires Valid() && i <= 5
      ensures |r| == 5 * h + i
      decreases h, i
    {
      if i > 0 then Values(h, i - 1) + [Index(Hash(h + 1), i - 1)]
      else if h > 0 then Values(h - 1, 5)
      else []
    }

    /** Some number of hashes has k different values. */
    ghost predicate Possible(k: nat)
      requires Valid()
    {
      exists h: nat :: |Distinct(Values(h, 0))| >= k
    }
  }

  /** The seed of the code: three bytes of the address, and the info hash. */
  function CodeDraw(sha1: HashFunction, ip: Bytes, infoHash: Bytes, pieces: nat): Draw
    requires |ip| >= 3
  {
    Draw(sha1, ip[..3] + infoHash, pieces)
  }

  /** The seed of BEP 6: the four bytes of the IPv4 address, the last one set to 0. An IPv4 peer may well have an
      address of 16 bytes, if it was accepted where IPv6 is listened for as well. */
  function StandardDraw(sha1: HashFunction, ip: Bytes, infoHash: Bytes, pieces: nat): Draw
    requires Tracker.To4(ip) != []
  {
    Draw(sha1, Tracker.To4(ip)[..3] + [0] + infoHash, pieces)
  }

  /** A sequence with every value at its first occurrence only. */
  function Distinct(s: seq<nat>): seq<nat>
  {
    if s == [] then []
    else
      Add(Distinct(s[..|s| - 1]), s[|s| - 1])
  }

  function Add(s: seq<nat>, x: nat): seq<nat>
  {
    if x in s then s else s + [x]
  }

  // ----- the loop -----

  method PieceIn(idx: nat, pieces: seq<nat>) returns (found: bool)
    ensures found <==> idx in pieces
  {
    for i := 0 to |pieces|
      invariant idx !in pieces[..i]
    {
      if idx == pieces[i] {
        return true;
      }
    }
    assert pieces == pieces[..|pieces|];
    return false;
  }

  /** f applied n times. */
  function Applied(f: HashFunction, n: nat, x: Bytes): Bytes
  {
    if n == 0 then x else f(Applied(f, n - 1, x))
  }

  /** x is draw q: word q % 5 of the hash that comes after q / 5 others, as a big-endian number, modulo the number of
      pieces. */
  predicate IsDraw(sha1: HashFunction, seed: Bytes, pieces: nat, q: nat, x: nat)
    requires pieces > 0
  {
    var g, at := Applied(sha1, q / 5 + 1, seed), 4 * (q % 5);
    |g| == 20 ==>
      x == (0x100_0000 * g[at] as nat + 0x1_0000 * g[at + 1] as nat + 0x100 * g[at + 2] as nat + g[at + 3] as nat)
           % pieces
  }

  /** `out` has each of the draws once, in the order of their first occurrences; and the last draw is new. */
  ghost predicate FirstOccurrences(draws: seq<nat>, out: seq<nat>)
  {
    && NoDuplicates(out) && (forall x :: x in out <==> x in draws)
    && (forall a, b :: 0 <= a < b < |out| ==> Before(draws, out[a], out[b]))
    && (draws != [] ==> draws[|draws| - 1] !in draws[..|draws| - 1])
  }

  /** x is drawn before y is. */
  ghost predicate Before(draws: seq<nat>, x: nat, y: nat)
  {
    exists v :: 0 <= v < |draws| && draws[v] == x && y !in draws[..v + 1]
  }

  /** The set of the code: the first k different draws. `draws` are those that it takes, from h hashes and i words of
      another one. */
  method GenFastSet(sha1: HashFunction, ip: Bytes, infoHash: Bytes, pieces: nat, k: nat)
    returns (out: seq<nat>, ghost h: nat, ghost i: nat, ghost draws: seq<nat>)
    requires |ip| >= 3 && pieces > 0 && CodeDraw(sha1, ip, infoHash, pieces).Possible(k)
    ensures i <= 5 && |out| == k && out == Distinct(CodeDraw(sha1, ip, infoHash, pieces).Values(h, i))
    ensures draws == CodeDraw(sha1, ip, infoHash, pieces).Values(h, i) && FirstOccurrences(draws, out)
    ensures forall q :: 0 <= q < |draws| ==> IsDraw(sha1, [ip[0], ip[1], ip[2]] + infoHash, pieces, q, draws[q])
  {
    out, h, i := FirstDraws(CodeDraw(sha1, ip, infoHash, pieces), k);
    draws := CodeDraw(sha1, ip, infoHash, pieces).Values(h, i);
    OrderedFirsts(draws);
    CodeDraws(sha1, ip, infoHash, pieces, h, i);
  }

  /** Its loop, from the seed on. */
  method FirstDraws(d: Draw, k: nat) returns (out: seq<nat>, ghost h: nat, ghost i: nat)
    requires d.Valid() && d.Possible(k)
    ensures i <= 5 && |out| == k && out == Distinct(d.Values(h, i)) && EndsNew(d.Values(h, i))
  {
    ghost var enough: nat :| |Distinct(d.Values(enough, 0))| >= k;
    out, h, i := [], 0, 0;
    var hash := d.seed;
    while |out| < k
      invariant i <= 5 && |out| <= k && out == Distinct(d.Values(h, i))
      invariant |out| < k ==> i == 0 && hash == d.Hash(h)
      invariant |out| == k ==> EndsNew(d.Values(h, i))
      decreases enough - h, k - |out|
    {
      FewerValues(d, h, enough);
      hash := d.sha1(hash);
      out, i := FromHash(d, k, hash, h, out);
      if i == 5 {
        SameValues(d, h);
        h, i := h + 1, 0;
      }
    }
  }

  /** What BEP 6 draws from: the IPv4 address with a 0 in the place of its last byte. */
  lemma {:induction false} StandardDraws(sha1: HashFunction, ip: Bytes, infoHash: Bytes, pieces: nat, h: nat, i: nat)
    requires Tracker.To4(ip) != [] && pieces > 0 && i <= 5
    ensures var (draws, a) := (StandardDraw(sha1, ip, infoHash, pieces).Values(h, i), Tracker.To4(ip));
            |draws| == 5 * h + i
            && forall q :: 0 <= q < |draws| ==> IsDraw(sha1, [a[0], a[1], a[2], 0] + infoHash, pieces, q, draws[q])
  {
    var d, a := StandardDraw(sha1, ip, infoHash, pieces), Tracker.To4(ip);
    assert a[..3] + [0] == [a[0], a[1], a[2], 0];
    forall q | 0 <= q < |d.Values(h, i)|
      ensures IsDraw(sha1, [a[0], a[1], a[2], 0] + infoHash, pieces, q, d.Values(h, i)[q])
    {
      ValuesAreDraws(d, h, i, q);
    }
  }

  lemma {:induction false} CodeDraws(sha1: HashFunction, ip: Bytes, infoHash: Bytes, pieces: nat, h: nat, i: nat)
    requires |ip| >= 3 && pieces > 0 && i <= 5
    ensures var draws := CodeDraw(sha1, ip, infoHash, pieces).Values(h, i);
            forall q :: 0 <= q < |draws| ==> IsDraw(sha1, [ip[0], ip[1], ip[2]] + infoHash, pieces, q, draws[q])
  {
    var d := CodeDraw(sha1, ip, infoHash, pieces);
    assert ip[..3] == [ip[0], ip[1], ip[2]];
    forall q | 0 <= q < |d.Values(h, i)|
      ensures IsDraw(sha1, [ip[0], ip[1], ip[2]] + infoHash, pieces, q, d.Values(h, i)[q])
    {
      ValuesAreDraws(d, h, i, q);
    }
  }

  /** The same without any of these notions: draw 5 * j + i, for hashes of 20 bytes. */
  lemma {:induction false} DrawAt(sha1: HashFunction, ip: Bytes, infoHash: Bytes, pieces: nat, h: nat, j: nat, i: nat)
    requires |ip| >= 3 && pieces > 0 && j < h && i < 5
    requires |Applied(sha1, j + 1, [ip[0], ip[1], ip[2]] + infoHash)| == 20
    ensures var g, at := Applied(sha1, j + 1, [ip[0], ip[1], ip[2]] + infoHash), 4 * i;
            CodeDraw(sha1, ip, infoHash, pieces).Values(h, 0)[5 * j + i]
            == (0x100_0000 * g[at] as nat + 0x1_0000 * g[at + 1] as nat + 0x100 * g[at + 2] as nat + g[at + 3] as nat)
               % pieces
  {
    CodeDraws(sha1, ip, infoHash, pieces, h, 0);
    assert (5 * j + i) / 5 == j && (5 * j + i) % 5 == i;
    assert IsDraw(sha1, [ip[0], ip[1], ip[2]] + infoHash, pieces, 5 * j + i,
                  CodeDraw(sha1, ip, infoHash, pieces).Values(h, 0)[5 * j + i]);
  }

  predicate EndsNew(draws: seq<nat>)
  {
    draws != [] ==> draws[|draws| - 1] !in draws[..|draws| - 1]
  }

  lemma {:induction false} SameValues(d: Draw, h: nat)
    requires d.Valid()
    ensures d.Values(h + 1, 0) == d.Values(h, 5)
  {
  }

  lemma {:induction false} OrderedFirsts(draws: seq<nat>)
    requires EndsNew(draws)
    ensures FirstOccurrences(draws, Distinct(draws))
  {
    var out := Distinct(draws);
    DistinctAre(draws);
    forall a, b | 0 <= a < b < |out| ensures Before(draws, out[a], out[b]) {
      InOrder(draws, b);
      var v :| 0 <= v < |draws| && draws[v] == out[b] && Distinct(draws[..v]) == out[..b] && draws[v] !in draws[..v];
      DistinctAre(draws[..v]);
      assert out[..b][a] in out[..b];
      var u :| 0 <= u < v && draws[..v][u] == out[a];
      assert forall y :: y in draws[..u + 1] ==> y in draws[..v] by {
        assert draws[..v][..u + 1] == draws[..u + 1];
      }
    }
  }

  lemma {:induction false} HashIsApplied(d: Draw, j: nat)
    requires d.Valid()
    ensures d.Hash(j) == Applied(d.sha1, j, d.seed)
  {
    if j > 0 {
      HashIsApplied(d, j - 1);
    }
  }

  lemma {:induction false} ValuesAreDraws(d: Draw, h: nat, i: nat, q: nat)
    requires d.Valid() && i <= 5 && q < 5 * h + i
    ensures IsDraw(d.sha1, d.seed, d.pieces, q, d.Values(h, i)[q])
    decreases h, i
  {
    if i > 0 && q < 5 * h + i - 1 {
      ValuesAreDraws(d, h, i - 1, q);
      assert d.Values(h, i)[q] == d.Values(h, i - 1)[q];
    } else if i == 0 {
      ValuesAreDraws(d, h - 1, 5, q);
    } else {
      assert q / 5 == h && q % 5 == i - 1;
      HashIsApplied(d, h + 1);
      if |d.Hash(h + 1)| == 20 {
        WordIsDraw(d, d.Hash(h + 1), i - 1);
      }
    }
  }

  lemma {:induction false} WordIsDraw(d: Draw, g: Bytes, i: nat)
    requires d.Valid() && i < 5 && |g| == 20
    ensures var at := 4 * i;
            d.Index(g, i) == (0x100_0000 * g[at] as nat + 0x1_0000 * g[at + 1] as nat + 0x100 * g[at + 2] as nat
                              + g[at + 3] as nat) % d.pieces
  {
    var at := i * 4;
    ReadFour(g[at..at + 4]);
    Native(Word(g, at), d.pieces);
  }

  /** The inner loop: the five words of one hash. */
  method FromHash(d: Draw, k: nat, hash: Bytes, ghost h: nat, soFar: seq<nat>) returns (out: seq<nat>, i: nat)
    requires d.Valid() && hash == d.Hash(h + 1)
    requires |soFar| < k && soFar == Distinct(d.Values(h, 0))
    ensures i <= 5 && |out| <= k && out == Distinct(d.Values(h, i))
    ensures |out| < k ==> i == 5
    ensures |out| == k ==> EndsNew(d.Values(h, i))
  {
    out, i := soFar, 0;
    while i < 5 && |out| < k
      invariant i <= 5 && |out| <= k
      invariant out == Distinct(d.Values(h, i))
      invariant |out| == k ==> EndsNew(d.Values(h, i))
    {
      var index := d.Index(hash, i);
      OneMore(d, h, i);
      var seen := PieceIn(index, out);
      if !seen {
        NewDraw(d, h, i);
        out := out + [index];
      }
      i := i + 1;
    }
  }

  lemma {:induction false} NewDraw(d: Draw, h: nat, i: nat)
    requires d.Valid() && i < 5 && d.Index(d.Hash(h + 1), i) !in Distinct(d.Values(h, i))
    ensures EndsNew(d.Values(h, i + 1))
  {
    DistinctAre(d.Values(h, i));
    assert d.Values(h, i + 1)[..5 * h + i] == d.Values(h, i);
  }

  lemma {:induction false} OneMore(d: Draw, h: nat, i: nat)
    requires d.Valid() && i < 5
    ensures Distinct(d.Values(h, i + 1)) == Add(Distinct(d.Values(h, i)), d.Index(d.Hash(h + 1), i))
  {
    assert d.Values(h, i + 1)[..5 * h + i] == d.Values(h, i);
  }

  // ----- what comes out -----

  predicate NoDuplicates(s: seq<nat>)
  {
    forall i, j :: 0 <= i < j < |s| ==> s[i] != s[j]
  }

  /** Exactly the values of the sequence, none of them twice. */
  lemma {:induction false} DistinctAre(s: seq<nat>)
    ensures NoDuplicates(Distinct(s))
    ensures forall x :: x in Distinct(s) <==> x in s
  {
    if s != [] {
      var n := |s| - 1;
      DistinctAre(s[..n]);
      assert s == s[..n] + [s[n]];
    }
  }

  /** The order is that of the first occurrences: what stands before a value is what came before its first
      occurrence. */
  lemma {:induction false} InOrder(s: seq<nat>, i: nat)
    requires i < |Distinct(s)|
    ensures exists v ::
              0 <= v < |s| && s[v] == Distinct(s)[i] && Distinct(s[..v]) == Distinct(s)[..i] && s[v] !in s[..v]
  {
    var n := |s| - 1;
    var most := Distinct(s[..n]);
    DistinctAre(s[..n]);
    if i < |most| {
      InOrder(s[..n], i);
      var v :| 0 <= v < n && s[..n][v] == most[i] && Distinct(s[..n][..v]) == most[..i] && s[..n][v] !in s[..n][..v];
      assert s[..n][..v] == s[..v] && Distinct(s)[..i] == most[..i];
    } else {
      assert s[n] == Distinct(s)[i] && Distinct(s[..n]) == Distinct(s)[..i];
    }
  }

  lemma {:induction false} DistinctPrefix(s: seq<nat>, v: nat)
    requires v <= |s|
    ensures Distinct(s[..v]) <= Distinct(s)
  {
    if v == |s| {
      assert s[..v] == s;
    } else {
      var n := |s| - 1;
      DistinctPrefix(s[..n], v);
      assert s[..n][..v] == s[..v];
    }
  }

  lemma {:induction false} ValuesPrefix(d: Draw, h: nat, i: nat, l: nat)
    requires d.Valid() && i <= 5 && h <= l && (h == l ==> i == 0)
    ensures d.Values(l, 0)[..5 * h + i] == d.Values(h, i)
    decreases l
  {
    if h < l {
      var last := d.Values(l - 1, 5);
      assert last == d.Values(l, 0);
      LastHash(d, l - 1, if h == l - 1 then i else 0);
      if h < l - 1 {
        ValuesPrefix(d, h, i, l - 1);
        assert last[..5 * h + i] == last[..5 * (l - 1)][..5 * h + i];
      }
    }
  }

  lemma {:induction false} LastHash(d: Draw, h: nat, i: nat)
    requires d.Valid() && i <= 5
    ensures d.Values(h, 5)[..5 * h + i] == d.Values(h, i)
    decreases 5 - i
  {
    if i < 5 {
      LastHash(d, h, i + 1);
      assert d.Values(h, 5)[..5 * h + i] == d.Values(h, i + 1)[..5 * h + i];
    }
  }

  /** All draws are prefixes of longer ones, and so are their distinct values. */
  lemma {:induction false} MoreDraws(d: Draw, h: nat, i: nat, l: nat)
    requires d.Valid() && i <= 5 && h <= l && (h == l ==> i == 0)
    ensures Distinct(d.Values(h, i)) <= Distinct(d.Values(l, 0))
  {
    ValuesPrefix(d, h, i, l);
    DistinctPrefix(d.Values(l, 0), 5 * h + i);
  }

  lemma {:induction false} FewerValues(d: Draw, h: nat, l: nat)
    requires d.Valid() && |Distinct(d.Values(h, 0))| < |Distinct(d.Values(l, 0))|
    ensures h < l
  {
    if l <= h {
      MoreDraws(d, l, 0, h);
    }
  }

  /** A smaller set is a prefix of a larger one; in particular the result does not depend on how many draws
      it took. */
  lemma {:induction false} SmallerIsPrefix(d: Draw, h: nat, i: nat, l: nat, j: nat)
    requires d.Valid() && i <= 5 && j <= 5
    requires |Distinct(d.Values(h, i))| <= |Distinct(d.Values(l, j))|
    ensures Distinct(d.Values(h, i)) <= Distinct(d.Values(l, j))
  {
    var all := h + l + 1;
    MoreDraws(d, h, i, all);
    MoreDraws(d, l, j, all);
  }

  lemma {:induction false} ValuesInRange(d: Draw, h: nat, i: nat)
    requires d.Valid() && i <= 5
    ensures forall x :: x in d.Values(h, i) ==> x < d.pieces
    decreases h, i
  {
    if i > 0 {
      ValuesInRange(d, h, i - 1);
      QuotRem(Word(d.Hash(h + 1), (i - 1) * 4), d.pieces);
    } else if h > 0 {
      ValuesInRange(d, h - 1, 5);
    }
  }

  /** k different pieces, every one of them of this torrent. */
  lemma {:induction false} SetOfPieces(d: Draw, h: nat, i: nat)
    requires d.Valid() && i <= 5
    ensures var out := Distinct(d.Values(h, i));
            NoDuplicates(out) && |out| <= d.pieces && forall x :: x in out ==> x < d.pieces
  {
    DistinctAre(d.Values(h, i));
    ValuesInRange(d, h, i);
    Pigeonhole(Distinct(d.Values(h, i)), d.pieces);
  }

  /** With fewer than k pieces no number of hashes is enough: the loop cannot end. */
  lemma {:induction false} ImpossibleBeyondPieces(d: Draw, k: nat)
    requires d.Valid() && k > d.pieces
    ensures !d.Possible(k)
  {
    forall h: nat ensures |Distinct(d.Values(h, 0))| < k {
      SetOfPieces(d, h, 0);
    }
  }

  lemma {:induction false} Pigeonhole(s: seq<nat>, n: nat)
    requires NoDuplicates(s) && forall x :: x in s ==> x < n
    ensures |s| <= n
  {
    var values := set x | x in s;
    ValuesCount(s, values);
    assert values <= Below(n);
    BelowSize(n);
    SubsetCardinality(values, Below(n));
  }

  lemma {:induction false} ValuesCount(s: seq<nat>, values: set<nat>)
    requires NoDuplicates(s) && values == set x | x in s
    ensures |values| == |s|
  {
    if s != [] {
      var n := |s| - 1;
      assert s == s[..n] + [s[n]];
      var most := set x | x in s[..n];
      ValuesCount(s[..n], most);
      assert values == most + {s[n]};
    }
  }

  // ----- the seed -----

  /** What the loop may return for k. */
  ghost predicate Returns(d: Draw, k: nat, out: seq<nat>)
    requires d.Valid()
  {
    |out| == k && exists h: nat, i: nat :: i <= 5 && out == Distinct(d.Values(h, i))
  }

  ghost function Elements(s: seq<nat>): set<nat>
  {
    set x | x in s
  }

  /** The code returns the set that BEP 6 describes, whenever both return one. */
  ghost predicate Standard(sha1: HashFunction, ip: Bytes, infoHash: Bytes, pieces: nat, k: nat)
    requires Tracker.To4(ip) != [] && pieces > 0
  {
    var code, standard := CodeDraw(sha1, ip, infoHash, pieces), StandardDraw(sha1, ip, infoHash, pieces);
    forall a, b :: Returns(code, k, a) && Returns(standard, k, b) ==> Elements(a) == Elements(b)
  }

  /** Of a torrent's all pieces there is only one set. */
  lemma {:induction false} AllPieces(d: Draw, k: nat, out: seq<nat>)
    requires d.Valid() && Returns(d, k, out) && k >= d.pieces
    ensures Elements(out) == Below(d.pieces)
  {
    var h: nat, i: nat :| i <= 5 && out == Distinct(d.Values(h, i));
    SetOfPieces(d, h, i);
    ValuesCount(out, Elements(out));
    BelowSize(d.pieces);
    assert Elements(out) <= Below(d.pieces);
    SubsetCardinality(Elements(out), Below(d.pieces));
  }

  /** Digests that count: five times the same number. */
  function Five(n: nat): (r: Bytes)
    ensures |r| == 20
  {
    Repeated(U32(n), 5)
  }

  function Repeated(word: Bytes, times: nat): (r: Bytes)
    requires |word| == 4
    ensures |r| == 4 * times
  {
    if times == 0 then [] else Repeated(word, times - 1) + word
  }

  lemma {:induction false} RepeatedAt(word: Bytes, times: nat, i: nat)
    requires |word| == 4 && i < times
    ensures Repeated(word, times)[i * 4..i * 4 + 4] == word
  {
    if i < times - 1 {
      RepeatedAt(word, times - 1, i);
      assert Repeated(word, times)[i * 4..i * 4 + 4] == Repeated(word, times - 1)[i * 4..i * 4 + 4];
    }
  }

  /** A hash function that tells a seed of 23 bytes from one of 24 and otherwise goes on counting. */
  function Counting(): HashFunction
  {
    (b: Bytes) => if |b| == 23 then Five(0) else if |b| == 24 then Five(1) else Five(Word(b, 0) + 1)
  }

  lemma {:induction false} FiveWords(n: nat, i: nat)
    requires n < 0x1_0000_0000 && i < 5
    ensures Word(Five(n), i * 4) == n
  {
    RepeatedAt(U32(n), 5, i);
    ReadWritten(n);
  }

  /** From a digest the hash function goes on to the next one. */
  ghost predicate GoesOn(f: HashFunction)
  {
    forall n: nat :: n < 0x1_0000_0000 ==> f(Five(n)) == Five(n + 1)
  }

  lemma {:induction false} CountingGoesOn()
    ensures GoesOn(Counting())
  {
    forall n: nat | n < 0x1_0000_0000 ensures Counting()(Five(n)) == Five(n + 1) {
      CountsOn(n);
    }
  }

  lemma {:induction false} CountsOn(n: nat)
    requires n < 0x1_0000_0000
    ensures Counting()(Five(n)) == Five(n + 1)
  {
    FiveWords(n, 0);
  }

  /** From a start the counting chain goes through the numbers. */
  lemma {:induction false} CountsUp(d: Draw, start: nat, h: nat)
    requires d.Valid() && GoesOn(d.sha1) && d.sha1(d.seed) == Five(start) && start + h < 0x1_0000_0000
    ensures d.Hash(h + 1) == Five(start + h)
  {
    if h == 0 {
      assert d.Hash(0) == d.seed;
    } else {
      CountsUp(d, start, h - 1);
      NextHash(d, h);
      assert start + (h - 1) + 1 == start + h;
    }
  }

  lemma {:induction false} NextHash(d: Draw, j: nat)
    requires d.Valid()
    ensures d.Hash(j + 1) == d.sha1(d.Hash(j))
  {
  }

  function Range(start: nat, n: nat): (r: seq<nat>)
    ensures |r| == n && forall i :: 0 <= i < n ==> r[i] == start + i
  {
    if n == 0 then [] else Range(start, n - 1) + [start + n - 1]
  }

  lemma {:induction false} SmallRem(a: nat, b: nat)
    requires a < b
    ensures Rem(a, b) == a
  {
  }

  lemma {:induction false} DrawsSame(d: Draw, h: nat, v: nat, i: nat)
    requires d.Valid() && i <= 5 && d.Hash(h + 1) == Five(v) && v < d.pieces <= 0x1_0000_0000
    ensures Distinct(d.Values(h, i)) == if i == 0 then Distinct(d.Values(h, 0)) else Add(Distinct(d.Values(h, 0)), v)
  {
    if i > 0 {
      DrawsSame(d, h, v, i - 1);
      OneMore(d, h, i - 1);
      FiveWords(v, i - 1);
      SmallRem(v, d.pieces);
    }
  }

  lemma {:induction false} DrawsOn(d: Draw, h: nat, v: nat)
    requires d.Valid() && d.Hash(h + 1) == Five(v) && v < d.pieces <= 0x1_0000_0000
    ensures Distinct(d.Values(h + 1, 0)) == Add(Distinct(d.Values(h, 0)), v)
  {
    DrawsSame(d, h, v, 5);
    assert d.Values(h + 1, 0) == d.Values(h, 5);
  }

  lemma {:induction false} RangeOn(start: nat, n: nat)
    ensures Add(Range(start, n), start + n) == Range(start, n + 1)
  {
  }

  /** While the numbers stay below the piece count, they are the values drawn, each five times. */
  lemma {:induction false} CountingDraws(d: Draw, start: nat, h: nat)
    requires d.Valid() && GoesOn(d.sha1) && d.sha1(d.seed) == Five(start)
             && start + h <= d.pieces <= 0x1_0000_0000
    ensures Distinct(d.Values(h, 0)) == Range(start, h)
  {
    if h > 0 {
      var g := h - 1;
      CountingDraws(d, start, g);
      CountsUp(d, start, g);
      DrawsOn(d, g, start + g);
      RangeOn(start, g);
    }
  }

  /** The three bytes make a difference: the code returns the set of BEP 6, whatever the hash function, if and
      only if it is asked for no pieces, or for all of them. */
  lemma {:induction false} StandardIff(ip: Bytes, infoHash: Bytes, pieces: nat, k: nat)
    requires Tracker.To4(ip) != [] && |infoHash| == 20 && 0 < pieces <= 0x1_0000_0000
    ensures k == 0 || k >= pieces <==> forall sha1: HashFunction :: Standard(sha1, ip, infoHash, pieces, k)
  {
    if k == 0 || k >= pieces {
      forall sha1: HashFunction ensures Standard(sha1, ip, infoHash, pieces, k) {
        EnoughOrNone(sha1, ip, infoHash, pieces, k);
      }
    } else {
      CountingDiffers(ip, infoHash, pieces, k);
    }
  }

  lemma {:induction false} EnoughOrNone(sha1: HashFunction, ip: Bytes, infoHash: Bytes, pieces: nat, k: nat)
    requires Tracker.To4(ip) != [] && pieces > 0 && (k == 0 || k >= pieces)
    ensures Standard(sha1, ip, infoHash, pieces, k)
  {
    var c, d := CodeDraw(sha1, ip, infoHash, pieces), StandardDraw(sha1, ip, infoHash, pieces);
    forall a, b | Returns(c, k, a) && Returns(d, k, b) ensures Elements(a) == Elements(b) {
      if k > 0 {
        AllPieces(c, k, a);
        AllPieces(d, k, b);
      }
    }
  }

  lemma {:induction false} CountingDiffers(ip: Bytes, infoHash: Bytes, pieces: nat, k: nat)
    requires Tracker.To4(ip) != [] && |infoHash| == 20 && 0 < k < pieces <= 0x1_0000_0000
    ensures !Standard(Counting(), ip, infoHash, pieces, k)
  {
    var c, d := CodeDraw(Counting(), ip, infoHash, pieces), StandardDraw(Counting(), ip, infoHash, pieces);
    CountingGoesOn();
    CountingStarts(c.seed);
    CountingStarts(d.seed);
    CountingReturns(c, 0, k);
    CountingReturns(d, 1, k);
    RangesDiffer(k);
  }

  lemma {:induction false} CountingStarts(seed: Bytes)
    ensures |seed| == 23 ==> Counting()(seed) == Five(0)
    ensures |seed| == 24 ==> Counting()(seed) == Five(1)
  {
  }

  lemma {:induction false} CountingReturns(d: Draw, start: nat, k: nat)
    requires d.Valid() && GoesOn(d.sha1) && d.sha1(d.seed) == Five(start)
             && start + k <= d.pieces <= 0x1_0000_0000
    ensures Returns(d, k, Range(start, k))
  {
    CountingDraws(d, start, k);
  }

  lemma {:induction false} RangesDiffer(k: nat)
    requires k > 0
    ensures Elements(Range(0, k)) != Elements(Range(1, k))
  {
    assert Range(0, k)[0] == 0 && 0 in Elements(Range(0, k)) && 0 !in Elements(Range(1, k));
  }

  /** Of an address of 16 bytes the code takes three that are 0 in every mapped one: all such peers get the same
      set. */
  lemma {:induction false} MappedAlike(sha1: HashFunction, ip: Bytes, other: Bytes, infoHash: Bytes, pieces: nat,
                                       k: nat, a: seq<nat>, b: seq<nat>)
    requires |ip| == |other| == 16 && Tracker.To4(ip) != [] && Tracker.To4(other) != [] && pieces > 0
    requires Returns(CodeDraw(sha1, ip, infoHash, pieces), k, a)
    requires Returns(CodeDraw(sha1, other, infoHash, pieces), k, b)
    ensures a == b
  {
    var d := CodeDraw(sha1, ip, infoHash, pieces);
    assert ip[..12][..3] == ip[..3] && other[..12][..3] == other[..3];
    assert CodeDraw(sha1, other, infoHash, pieces) == d;
    var h: nat, i: nat :| i <= 5 && a == Distinct(d.Values(h, i));
    var l: nat, j: nat :| j <= 5 && b == Distinct(d.Values(l, j));
    SmallerIsPrefix(d, h, i, l, j);
  }
}
