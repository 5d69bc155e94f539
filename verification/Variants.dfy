/** Bucketing: the FNV-1a hash of a user onto 0..9999, and weighted variants over those buckets. */
module Variants {
  type Bucket = b: int | 0 <= b < 10000

  const BUCKETS: int := 10000

  // ---- the hash ------------------------------------------------------------------------------

  const FNV_OFFSET: bv32 := 0x811c_9dc5

  function FnvStep(h: bv32, unit: bv16): bv32 {
    (h ^ (unit as bv32)) * 0x0100_0193
  }

  function Fnv(s: seq<bv16>): bv32 {
    if s == [] then FNV_OFFSET else FnvStep(Fnv(s[..|s| - 1]), s[|s| - 1])
  }

  /** UTF-16 code units of "seed:key"; 0x3A is the colon. */
  function Seeded(seed: seq<bv16>, key: seq<bv16>): seq<bv16> {
    seed + [0x3A] + key
  }

  method HashBucket(seed: seq<bv16>, key: seq<bv16>) returns (b: Bucket)
    ensures b == Fnv(Seeded(seed, key)) as int % BUCKETS
  {
    var s := Seeded(seed, key);
    var h := FNV_OFFSET;
    for i := 0 to |s|
      invariant h == Fnv(s[..i])
    {
      assert s[..i + 1][..i] == s[..i];
      h := FnvStep(h, s[i]);
    }
    assert s[..|s|] == s;
    b := h as int % BUCKETS;
  }

  /** Published FNV-1a values: of nothing, of "a" and of "foobar". */
  lemma FnvVectors()
    ensures Fnv([]) == 0x811c_9dc5
    ensures Fnv([0x61]) == 0xe40c_292c
    ensures Fnv([0x66, 0x6f, 0x6f, 0x62, 0x61, 0x72]) == 0xbf9c_f968
  {
    hide Fnv;
    assert Fnv([]) == FNV_OFFSET by { FnvOfNothing(); }
    FnvNext([], 0x61, [0x61]);
    FnvNext([], 0x66, [0x66]);
    FnvNext([0x66], 0x6f, [0x66, 0x6f]);
    FnvNext([0x66, 0x6f], 0x6f, [0x66, 0x6f, 0x6f]);
    FnvNext([0x66, 0x6f, 0x6f], 0x62, [0x66, 0x6f, 0x6f, 0x62]);
    FnvNext([0x66, 0x6f, 0x6f, 0x62], 0x61, [0x66, 0x6f, 0x6f, 0x62, 0x61]);
    FnvNext([0x66, 0x6f, 0x6f, 0x62, 0x61], 0x72, [0x66, 0x6f, 0x6f, 0x62, 0x61, 0x72]);
  }

  lemma FnvOfNothing()
    ensures Fnv([]) == FNV_OFFSET
  {
  }

  lemma FnvNext(s: seq<bv16>, unit: bv16, t: seq<bv16>)
    requires t == s + [unit]
    ensures Fnv(t) == FnvStep(Fnv(s), unit)
  {
    assert (s + [unit])[..|s|] == s;
  }

  // ---- weighted variants ---------------------------------------------------------------------

  function Weight(w: real): real {
    if w < 0.0 then 0.0 else w
  }

  /** Total weight of the first `n` variants. */
  function Prefix(ws: seq<real>, n: nat): real
    requires n <= |ws|
  {
    if n == 0 then 0.0 else Prefix(ws, n - 1) + Weight(ws[n - 1])
  }

  function Total(ws: seq<real>): real {
    Prefix(ws, |ws|)
  }

  /** A bucket's position on the scale 0..total. */
  function Scaled(b: int, total: real): real {
    b as real / 10000.0 * total
  }

  lemma {:induction false} PrefixMonotone(ws: seq<real>, i: nat, j: nat)
    requires i <= j <= |ws|
    ensures 0.0 <= Prefix(ws, i) <= Prefix(ws, j)
    decreases j
  {
    if i < j {
      PrefixMonotone(ws, i, j - 1);
    } else if i > 0 {
      PrefixMonotone(ws, i - 1, i - 1);
    }
  }

  /** The first index whose running total exceeds `x`; |ws| when there is none. */
  function FirstAbove(ws: seq<real>, x: real, from: nat): (i: nat)
    requires from <= |ws|
    ensures from <= i <= |ws|
    ensures i < |ws| ==> x < Prefix(ws, i + 1)
    ensures forall k :: from < k <= i ==> Prefix(ws, k) <= x
    decreases |ws| - from
  {
    if from == |ws| then from
    else if x < Prefix(ws, from + 1) then from
    else FirstAbove(ws, x, from + 1)
  }

  function Pick(ws: seq<real>, b: int): (i: nat)
    requires |ws| > 0
    ensures i < |ws|
  {
    if Total(ws) <= 0.0 then 0
    else
      var i := FirstAbove(ws, Scaled(b, Total(ws)), 0);
      if i < |ws| then i else |ws| - 1
  }

  method PickVariant(ws: seq<real>, b: int) returns (pick: nat)
    requires |ws| > 0
    ensures pick == Pick(ws, b)
  {
    var total := 0.0;
    for i := 0 to |ws|
      invariant total == Prefix(ws, i)
    {
      total := total + Weight(ws[i]);
    }
    if total <= 0.0 {
      return 0;
    }
    var scaled := Scaled(b, total);
    var acc := 0.0;
    for i := 0 to |ws|
      invariant acc == Prefix(ws, i)
      invariant FirstAbove(ws, scaled, 0) == FirstAbove(ws, scaled, i)
    {
      acc := acc + Weight(ws[i]);
      if scaled < acc {
        return i;
      }
    }
    return |ws| - 1;
  }

  // ---- how many buckets a variant gets -------------------------------------------------------

  /** Least integer not below `x`. */
  function Ceiling(x: real): (c: int)
    ensures x <= c as real < x + 1.0
  {
    -(-x).Floor
  }

  /** The running weight of the first `i` variants, in buckets. */
  ghost function Position(ws: seq<real>, i: nat): real
    requires i <= |ws| && Total(ws) > 0.0
  {
    10000.0 * Prefix(ws, i) / Total(ws)
  }

  ghost function Edge(ws: seq<real>, i: nat): int
    requires i <= |ws| && Total(ws) > 0.0
  {
    Ceiling(Position(ws, i))
  }

  ghost function BucketsOf(ws: seq<real>, i: nat): set<int>
    requires i < |ws|
  {
    set b: int | 0 <= b < BUCKETS && Pick(ws, b) == i
  }

  lemma ScaleBack(b: int, x: real, total: real)
    requires total > 0.0
    ensures Scaled(b, total) < x <==> b < Ceiling(10000.0 * x / total)
  {
    var c := 10000.0 * x / total;
    assert c * total == 10000.0 * x;
    assert Scaled(b, total) * 10000.0 == b as real * total;
    if b as real < c {
      assert b as real * total < c * total;
    } else {
      assert b as real * total >= c * total;
    }
    var e := Ceiling(c);
    assert b < e ==> b as real <= (e - 1) as real;
    assert b >= e ==> b as real >= e as real;
  }

  lemma PositionGrows(ws: seq<real>, i: nat)
    requires i <= |ws| && Total(ws) > 0.0
    ensures 0.0 <= Position(ws, i) <= 10000.0
    ensures Position(ws, |ws|) == 10000.0 && Position(ws, 0) == 0.0
    ensures i < |ws| ==> Position(ws, i + 1) == Position(ws, i) + 10000.0 * Weight(ws[i]) / Total(ws)
    ensures i < |ws| ==> Position(ws, i) <= Position(ws, i + 1)
  {
    var x, t := Prefix(ws, i), Total(ws);
    PrefixMonotone(ws, i, |ws|);
    Share(x, t);
    Share(t, t);
    Share(0.0, t);
    if i < |ws| {
      var w := Weight(ws[i]);
      assert 10000.0 * (x + w) / t == 10000.0 * x / t + 10000.0 * w / t;
      PrefixMonotone(ws, i + 1, |ws|);
      Share(w, t);
    }
  }

  lemma Share(x: real, t: real)
    requires 0.0 <= x <= t && t > 0.0
    ensures 0.0 <= 10000.0 * x / t <= 10000.0
    ensures x == t ==> 10000.0 * x / t == 10000.0
    ensures x == 0.0 ==> 10000.0 * x / t == 0.0
  {
    var q := 10000.0 * x / t;
    assert q * t == 10000.0 * x;
  }

  /**
   * A bucket goes to variant `i` exactly when it lies between two rounded running weights. So the
   * search never falls off the end: the source's last-resort return is dead code.
   */
  lemma PickBetweenEdges(ws: seq<real>, b: Bucket, i: nat)
    requires i < |ws| && Total(ws) > 0.0
    ensures Pick(ws, b) == i <==> Edge(ws, i) <= b < Edge(ws, i + 1)
    ensures FirstAbove(ws, Scaled(b, Total(ws)), 0) < |ws|
  {
    var t := Total(ws);
    var x := Scaled(b, t);
    PositionGrows(ws, |ws|);
    ScaleBack(b, Prefix(ws, |ws|), t);
    var first := FirstAbove(ws, x, 0);
    assert first < |ws|;
    ScaleBack(b, Prefix(ws, i), t);
    ScaleBack(b, Prefix(ws, i + 1), t);
    if i < first {
      assert Prefix(ws, i + 1) <= x;
    } else if first < i {
      PrefixMonotone(ws, first + 1, i);
    } else if i == 0 {
      PositionGrows(ws, 0);
    } else {
      assert Prefix(ws, i) <= x;
    }
  }

  /** The sum of the positive weights. */
  ghost function PositiveSum(ws: seq<real>): real {
    if ws == [] then 0.0
    else PositiveSum(ws[..|ws| - 1]) + if ws[|ws| - 1] > 0.0 then ws[|ws| - 1] else 0.0
  }

  lemma {:induction false} PrefixIsPositiveSum(ws: seq<real>, n: nat)
    requires n <= |ws|
    ensures Prefix(ws, n) == PositiveSum(ws[..n])
  {
    if n > 0 {
      PrefixIsPositiveSum(ws, n - 1);
      assert ws[..n][..n - 1] == ws[..n - 1];
    }
  }

  /** The bucket's share of the buckets ends before x, on a scale of the given length. */
  ghost predicate Before(b: int, x: real, total: real) {
    b as real * total < 10000.0 * x
  }

  /** Bucket b belongs to variant i: the first one if no weight is positive, and otherwise the one whose
      share of the weights, laid end to end, contains the bucket's share of the buckets. */
  ghost predicate Serves(ws: seq<real>, b: int, i: nat) {
    i < |ws| &&
    if PositiveSum(ws) <= 0.0 then i == 0
    else !Before(b, PositiveSum(ws[..i]), PositiveSum(ws)) && Before(b, PositiveSum(ws[..i + 1]), PositiveSum(ws))
  }

  lemma ScaledBelow(b: int, x: real, total: real)
    ensures Scaled(b, total) < x <==> Before(b, x, total)
  {
    assert Scaled(b, total) * 10000.0 == b as real * total;
  }

  lemma PickInShare(ws: seq<real>, b: Bucket, i: nat)
    requires i < |ws| && Total(ws) > 0.0
    ensures Pick(ws, b) == i <==> !(Scaled(b, Total(ws)) < Prefix(ws, i)) && Scaled(b, Total(ws)) < Prefix(ws, i + 1)
  {
    PickBetweenEdges(ws, b, i);
    ScaleBack(b, Prefix(ws, i), Total(ws));
    ScaleBack(b, Prefix(ws, i + 1), Total(ws));
    hide Pick, Scaled, Prefix, Total, Ceiling;
  }

  lemma PickServes(ws: seq<real>, b: Bucket, i: nat)
    requires |ws| > 0
    ensures Pick(ws, b) == i <==> Serves(ws, b, i)
  {
    hide Before, Scaled;
    assert ws[..|ws|] == ws;
    PrefixIsPositiveSum(ws, |ws|);
    if Total(ws) > 0.0 && i < |ws| {
      PickInShare(ws, b, i);
      PrefixIsPositiveSum(ws, i);
      PrefixIsPositiveSum(ws, i + 1);
      ScaledBelow(b, Prefix(ws, i), Total(ws));
      ScaledBelow(b, Prefix(ws, i + 1), Total(ws));
      hide Pick, Prefix, PositiveSum;
    }
  }

  ghost function Interval(lo: int, hi: int): (s: set<int>)
    requires lo <= hi
    ensures forall b :: b in s <==> lo <= b < hi
    ensures |s| == hi - lo
    decreases hi - lo
  {
    if lo == hi then {} else Interval(lo, hi - 1) + {hi - 1}
  }

  lemma VariantBuckets(ws: seq<real>, i: nat)
    requires i < |ws| && Total(ws) > 0.0
    ensures |BucketsOf(ws, i)| == Edge(ws, i + 1) - Edge(ws, i)
  {
    PositionGrows(ws, i);
    PositionGrows(ws, i + 1);
    var s, lo, hi := BucketsOf(ws, i), Edge(ws, i), Edge(ws, i + 1);
    forall b: int
      ensures b in s <==> lo <= b < hi
    {
      if 0 <= b < BUCKETS {
        PickBetweenEdges(ws, b, i);
      }
    }
    assert s == Interval(lo, hi);
  }

  /** Each variant gets its proportional share of the 10000 buckets, to within one bucket. */
  lemma FairShare(ws: seq<real>, i: nat)
    requires i < |ws| && PositiveSum(ws) > 0.0
    ensures var share := 10000.0 * (if ws[i] > 0.0 then ws[i] else 0.0) / PositiveSum(ws);
            share - 1.0 < |BucketsOf(ws, i)| as real < share + 1.0
    ensures ws[i] <= 0.0 ==> BucketsOf(ws, i) == {}
  {
    assert ws[..|ws|] == ws;
    PrefixIsPositiveSum(ws, |ws|);
    VariantBuckets(ws, i);
    PositionGrows(ws, i);
  }

  ghost function BucketCount(ws: seq<real>, n: nat): nat
    requires n <= |ws|
  {
    if n == 0 then 0 else BucketCount(ws, n - 1) + |BucketsOf(ws, n - 1)|
  }

  lemma {:induction false} BucketCountIsEdge(ws: seq<real>, n: nat)
    requires n <= |ws| && Total(ws) > 0.0
    ensures BucketCount(ws, n) == Edge(ws, n)
  {
    if n == 0 {
      PositionGrows(ws, 0);
    } else {
      BucketCountIsEdge(ws, n - 1);
      VariantBuckets(ws, n - 1);
    }
  }

  /** No bucket is lost and none is given twice. */
  lemma BucketsAddUp(ws: seq<real>)
    requires PositiveSum(ws) > 0.0
    ensures BucketCount(ws, |ws|) == BUCKETS
    ensures forall i, j | 0 <= i < j < |ws| :: BucketsOf(ws, i) !! BucketsOf(ws, j)
  {
    assert ws[..|ws|] == ws;
    PrefixIsPositiveSum(ws, |ws|);
    BucketCountIsEdge(ws, |ws|);
    PositionGrows(ws, |ws|);
  }
}
