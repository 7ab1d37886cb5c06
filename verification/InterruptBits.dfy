/**
Acknowledged interrupt values as occurrence counts of single bits, which is how two interrupt
streams are compared: bits may be coalesced into one value or split over several.
 */
module InterruptBits {

  function Pow2(n: nat): (p: nat)
    ensures p > 0
  {
    if n == 0 then 1 else 2 * Pow2(n - 1)
  }

  lemma {:induction false} Pow2Increases(m: nat, n: nat)
    requires m < n
    ensures Pow2(m) < Pow2(n)
  {
    if m < n - 1 {
      Pow2Increases(m, n - 1);
    }
  }

  // ----- counting bits -----

  function BitsFrom(value: nat, bit: nat): multiset<nat> {
    if value == 0 then multiset{}
    else (if value % 2 == 1 then multiset{bit} else multiset{}) + BitsFrom(value / 2, bit + 1)
  }

  /** For every bit number, in how many of `values` the bit is set. */
  function BitCounts(values: seq<nat>): multiset<nat> {
    if values == [] then multiset{} else BitsFrom(values[0], 0) + BitCounts(values[1..])
  }

  method InterruptBitCounts(values: seq<nat>) returns (counts: multiset<nat>)
    ensures counts == BitCounts(values)
  {
    counts := multiset{};
    for index := 0 to |values|
      invariant counts + BitCounts(values[index..]) == BitCounts(values)
    {
      assert values[index..][1..] == values[index + 1..];
      var value, bit := values[index], 0;
      while value != 0
        invariant counts + BitsFrom(value, bit) + BitCounts(values[index + 1..]) == BitCounts(values)
      {
        if value % 2 == 1 {
          counts := counts + multiset{bit};
        }
        value := value / 2;
        bit := bit + 1;
      }
    }
  }

  lemma DivisionIs(a: nat, d: nat, q: nat, r: nat)
    requires d > 0 && a == q * d + r && r < d
    ensures a / d == q
  {
    var e: int := a / d - q;
    var n: int := d;
    assert (e >= 1 ==> e * n >= n) && (e <= -1 ==> e * n <= -n);
    assert a == (a / d) * d + a % d;
    assert e * d == r - a % d;
  }

  lemma HalveThenDivide(value: nat, m: nat)
    requires m > 0
    ensures value / (2 * m) == value / 2 / m
  {
    var half := value / 2;
    var q, r := half / m, half % m;
    assert half == q * m + r;
    assert q * (2 * m) == 2 * (q * m);
    DivisionIs(value, 2 * m, q, 2 * r + value % 2);
  }

  /** Bit k of a value. */
  function Bit(value: nat, k: nat): nat {
    if k == 0 then value % 2 else Bit(value / 2, k - 1)
  }

  lemma {:induction false} BitIsBinaryDigit(value: nat, k: nat)
    ensures Bit(value, k) == value / Pow2(k) % 2
  {
    if k > 0 {
      BitIsBinaryDigit(value / 2, k - 1);
      HalveThenDivide(value, Pow2(k - 1));
    }
  }

  lemma {:induction false} BitsFromIsBit(value: nat, bit: nat, k: nat)
    ensures BitsFrom(value, bit)[k] == if k < bit then 0 else Bit(value, k - bit)
    decreases value
  {
    if value == 0 {
      if k >= bit { NoBits(k - bit); }
    } else {
      var rest := BitsFrom(value / 2, bit + 1);
      BitsFromIsBit(value / 2, bit + 1, k);
      assert k <= bit ==> rest[k] == 0;
    }
  }

  lemma {:induction false} NoBits(k: nat)
    ensures Bit(0, k) == 0
  {
    if k > 0 { NoBits(k - 1); }
  }

  /** Bit k is counted exactly when it is set in the binary numeral of the value. */
  lemma CountedIffSet(value: nat, k: nat)
    ensures BitsFrom(value, 0)[k] == value / Pow2(k) % 2
  {
    BitsFromIsBit(value, 0, k);
    BitIsBinaryDigit(value, k);
  }

  // ----- coalescing -----

  function BitAnd(a: nat, b: nat): nat {
    if a == 0 || b == 0 then 0
    else 2 * BitAnd(a / 2, b / 2) + (if a % 2 == 1 && b % 2 == 1 then 1 else 0)
  }

  function BitOr(a: nat, b: nat): nat {
    if a == 0 then b else if b == 0 then a
    else 2 * BitOr(a / 2, b / 2) + (if a % 2 == 1 || b % 2 == 1 then 1 else 0)
  }

  lemma {:induction false} DisjointOrIsSum(a: nat, b: nat)
    requires BitAnd(a, b) == 0
    ensures BitOr(a, b) == a + b
    decreases a
  {
    if a != 0 && b != 0 {
      DisjointOrIsSum(a / 2, b / 2);
    }
  }

  lemma {:induction false} BitOfDisjointSum(a: nat, b: nat, k: nat)
    requires BitAnd(a, b) == 0
    ensures Bit(a + b, k) == Bit(a, k) + Bit(b, k)
    decreases k
  {
    if a == 0 || b == 0 {
      NoBits(k);
    } else {
      assert a % 2 == 0 || b % 2 == 0;
      if k > 0 {
        BitOfDisjointSum(a / 2, b / 2, k - 1);
        assert (a + b) / 2 == a / 2 + b / 2;
      }
    }
  }

  /** Values with no bit in common can be acknowledged together or apart: the counts are the same. */
  lemma CoalescedBits(a: nat, b: nat)
    requires BitAnd(a, b) == 0
    ensures BitsFrom(BitOr(a, b), 0) == BitsFrom(a, 0) + BitsFrom(b, 0)
  {
    DisjointOrIsSum(a, b);
    var both := BitOr(a, b);
    forall k: nat
      ensures BitsFrom(both, 0)[k] == BitsFrom(a, 0)[k] + BitsFrom(b, 0)[k]
    {
      BitOfDisjointSum(a, b, k);
      BitsFromIsBit(both, 0, k);
      BitsFromIsBit(a, 0, k);
      BitsFromIsBit(b, 0, k);
    }
  }

  lemma {:induction false} BitCountsConcat(a: seq<nat>, b: seq<nat>)
    ensures BitCounts(a + b) == BitCounts(a) + BitCounts(b)
  {
    if a == [] {
      assert a + b == b;
    } else {
      assert (a + b)[1..] == a[1..] + b;
      BitCountsConcat(a[1..], b);
    }
  }

  // ----- splitting into single bits -----

  function SingleBits(value: nat, bit: nat): seq<nat> {
    if value == 0 then []
    else (if value % 2 == 1 then [Pow2(bit)] else []) + SingleBits(value / 2, bit + 1)
  }

  /** Every value replaced by the single-bit values it is made of. */
  function SplitValues(values: seq<nat>): seq<nat> {
    if values == [] then [] else SingleBits(values[0], 0) + SplitValues(values[1..])
  }

  ghost predicate IsPow2(x: nat) {
    exists k: nat :: x == Pow2(k)
  }

  lemma {:induction false} SingleBitsCount(value: nat, bit: nat, k: nat)
    ensures multiset(SingleBits(value, bit))[Pow2(k)] == BitsFrom(value, bit)[k]
    ensures forall x :: x in SingleBits(value, bit) ==> IsPow2(x)
    decreases value
  {
    if value != 0 {
      SingleBitsCount(value / 2, bit + 1, k);
      if k < bit { Pow2Increases(k, bit); } else if bit < k { Pow2Increases(bit, k); }
    }
  }

  lemma {:induction false} SplitValuesCount(values: seq<nat>, k: nat)
    ensures multiset(SplitValues(values))[Pow2(k)] == BitCounts(values)[k]
    ensures forall x :: x in SplitValues(values) ==> IsPow2(x)
  {
    if values != [] {
      SingleBitsCount(values[0], 0, k);
      SplitValuesCount(values[1..], k);
    }
  }

  /** Two streams have the same bit counts exactly when, split into single bits, one is a permutation of the other. */
  lemma SameBitsIffPermutedSplits(a: seq<nat>, b: seq<nat>)
    ensures BitCounts(a) == BitCounts(b) <==> multiset(SplitValues(a)) == multiset(SplitValues(b))
  {
    var sa: multiset<nat>, sb: multiset<nat> := multiset(SplitValues(a)), multiset(SplitValues(b));
    if BitCounts(a) == BitCounts(b) {
      forall x: nat
        ensures sa[x] == sb[x]
      {
        SplitValuesCount(a, 0);
        SplitValuesCount(b, 0);
        if IsPow2(x) {
          var k: nat :| x == Pow2(k);
          SplitValuesCount(a, k);
          SplitValuesCount(b, k);
        } else {
          assert x !in sa && x !in sb;
        }
      }
      assert sa == sb;
    }
    if sa == sb {
      forall k: nat
        ensures BitCounts(a)[k] == BitCounts(b)[k]
      {
        SplitValuesCount(a, k);
        SplitValuesCount(b, k);
      }
      assert BitCounts(a) == BitCounts(b);
    }
  }

  // ----- conservation -----

  /** The weight of the counts of bits `bit` to `width` - 1. */
  function Weight(counts: multiset<nat>, bit: nat, width: nat): nat
    requires bit <= width
    decreases width - bit
  {
    if bit == width then 0 else counts[bit] * Pow2(bit) + Weight(counts, bit + 1, width)
  }

  lemma {:induction false} WeightAdds(a: multiset<nat>, b: multiset<nat>, bit: nat, width: nat)
    requires bit <= width
    ensures Weight(a + b, bit, width) == Weight(a, bit, width) + Weight(b, bit, width)
    decreases width - bit
  {
    if bit < width {
      WeightAdds(a, b, bit + 1, width);
      assert (a[bit] + b[bit]) * Pow2(bit) == a[bit] * Pow2(bit) + b[bit] * Pow2(bit);
    }
  }

  lemma {:induction false} NothingWeighsNothing(bit: nat, width: nat)
    requires bit <= width
    ensures Weight(multiset{}, bit, width) == 0
    decreases width - bit
  {
    if bit < width {
      NothingWeighsNothing(bit + 1, width);
    }
  }

  lemma {:induction false} ValueIsWeight(counts: multiset<nat>, value: nat, bit: nat, width: nat)
    requires bit <= width && value < Pow2(width - bit)
    requires forall k | bit <= k < width :: counts[k] == Bit(value, k - bit)
    ensures Weight(counts, bit, width) == value * Pow2(bit)
    decreases width - bit
  {
    if bit < width {
      ValueIsWeight(counts, value / 2, bit + 1, width);
      assert counts[bit] == value % 2;
      HalvesTimes(value, value / 2, value % 2, Pow2(bit), Pow2(bit + 1));
    }
  }

  lemma HalvesTimes(value: nat, half: nat, odd: nat, p: nat, twice: nat)
    requires value == 2 * half + odd && twice == 2 * p
    ensures odd * p + half * twice == value * p
  {
    assert half * (2 * p) == (2 * half) * p;
  }

  lemma WeightOfValue(value: nat, width: nat)
    requires value < Pow2(width)
    ensures Weight(BitsFrom(value, 0), 0, width) == value
  {
    var bits := BitsFrom(value, 0);
    forall k | 0 <= k < width
      ensures bits[k] == Bit(value, k)
    {
      BitsFromIsBit(value, 0, k);
    }
    ValueIsWeight(bits, value, 0, width);
  }

  function Sum(values: seq<nat>): nat {
    if values == [] then 0 else values[0] + Sum(values[1..])
  }

  /** The counts lose nothing: weighed by 2^bit they sum to the acknowledged values. */
  lemma {:induction false} ValuesAreConserved(values: seq<nat>, width: nat)
    requires forall i | 0 <= i < |values| :: values[i] < Pow2(width)
    ensures Weight(BitCounts(values), 0, width) == Sum(values)
  {
    if values == [] {
      NothingWeighsNothing(0, width);
    } else {
      WeightOfValue(values[0], width);
      ValuesAreConserved(values[1..], width);
      WeightAdds(BitsFrom(values[0], 0), BitCounts(values[1..]), 0, width);
    }
  }
}
