/** The exact comparison of two programming streams, with its mismatch evidence. */
module SequenceDiff {
  import opened Outcomes
  import opened TraceEvents

  datatype Signature = Signature(operation: Operation, offset: string, length: nat, data: string, response: string)

  datatype Counts = Counts(
    reference: nat,
    candidate: nat,
    missing: nat,
    unexpected: nat,
    reordered: nat,
    valueMismatched: nat)

  datatype Report = Report(matches: bool, counts: Counts, firstMismatch: Option<nat>)

  /** What is compared of an item: everything but its register name. */
  function SignatureOf(item: Item): Signature {
    Signature(item.operation, item.offset, item.length, item.data, item.response)
  }

  function Signatures(items: seq<Item>): (signatures: seq<Signature>)
    ensures |signatures| == |items|
    ensures forall i | 0 <= i < |items| :: signatures[i] == SignatureOf(items[i])
  {
    seq(|items|, i requires 0 <= i < |items| => SignatureOf(items[i]))
  }

  /** `n` is the length of the longest common prefix of `a` and `b`. */
  predicate IsCommonPrefixLength<T(==)>(a: seq<T>, b: seq<T>, n: nat) {
    && n <= |a| && n <= |b|
    && a[..n] == b[..n]
    && (n < |a| && n < |b| ==> a[n] != b[n])
  }

  /** Same operation at the same offset, with other data. */
  predicate IsValueMismatch(expected: Signature, actual: Signature) {
    expected.operation == actual.operation && expected.offset == actual.offset && expected.data != actual.data
  }

  /** Different transactions that both occur, somewhere, in the other stream. */
  predicate IsReordered(expected: Signature, actual: Signature, reference: seq<Signature>, candidate: seq<Signature>) {
    expected != actual && !IsValueMismatch(expected, actual) && expected in candidate && actual in reference
  }

  function Reordered(reference: seq<Signature>, candidate: seq<Signature>): (Signature, Signature) -> bool {
    (expected, actual) => IsReordered(expected, actual, reference, candidate)
  }

  /** The positions below `n` at which the streams satisfy `p`. */
  ghost function Positions(reference: seq<Signature>, candidate: seq<Signature>, n: nat,
                           p: (Signature, Signature) -> bool): set<nat>
    requires n <= |reference| && n <= |candidate|
  {
    set i: nat | i < n && p(reference[i], candidate[i])
  }

  lemma NextPosition(reference: seq<Signature>, candidate: seq<Signature>, n: nat, p: (Signature, Signature) -> bool)
    requires n < |reference| && n < |candidate|
    ensures |Positions(reference, candidate, n + 1, p)|
         == |Positions(reference, candidate, n, p)| + if p(reference[n], candidate[n]) then 1 else 0
  {
    var before, after := Positions(reference, candidate, n, p), Positions(reference, candidate, n + 1, p);
    if p(reference[n], candidate[n]) {
      assert after == before + {n};
    } else {
      assert after == before;
    }
  }

  method FirstDifference(r: seq<Signature>, c: seq<Signature>) returns (first: Option<nat>)
    ensures first.None? <==> r == c
    ensures first.Some? ==> IsCommonPrefixLength(r, c, first.value)
  {
    var n := Shorter(|r|, |c|);
    for index := 0 to n
      invariant r[..index] == c[..index]
    {
      if r[index] != c[index] {
        return Some(index);
      }
    }
    if |r| != |c| {
      return Some(n);
    }
    assert r[..n] == r && c[..n] == c;
    first := None;
  }

  method ClassifyDifferences(r: seq<Signature>, c: seq<Signature>) returns (reordered: nat, valueMismatched: nat)
    ensures valueMismatched == |Positions(r, c, Shorter(|r|, |c|), IsValueMismatch)|
    ensures reordered == |Positions(r, c, Shorter(|r|, |c|), Reordered(r, c))|
  {
    reordered, valueMismatched := 0, 0;
    for index := 0 to Shorter(|r|, |c|)
      invariant valueMismatched == |Positions(r, c, index, IsValueMismatch)|
      invariant reordered == |Positions(r, c, index, Reordered(r, c))|
    {
      var expected, actual := r[index], c[index];
      NextPosition(r, c, index, IsValueMismatch);
      NextPosition(r, c, index, Reordered(r, c));
      if expected == actual {
        continue;
      }
      var sameLocation := expected.operation == actual.operation && expected.offset == actual.offset;
      if sameLocation && expected.data != actual.data {
        valueMismatched := valueMismatched + 1;
      } else if expected in multiset(c) && actual in multiset(r) {
        reordered := reordered + 1;
      }
    }
  }

  method CompareSequence(reference: seq<Item>, candidate: seq<Item>) returns (report: Report)
    ensures IsSequenceReport(Signatures(reference), Signatures(candidate), report)
  {
    var r, c := Signatures(reference), Signatures(candidate);
    var firstIndex := FirstDifference(r, c);
    var missing, unexpected := |multiset(r) - multiset(c)|, |multiset(c) - multiset(r)|;
    var reordered, valueMismatched := ClassifyDifferences(r, c);
    report := Report(r == c, Counts(|r|, |c|, missing, unexpected, reordered, valueMismatched), firstIndex);
  }

  /** What a report on two streams of signatures must say. */
  ghost predicate IsSequenceReport(r: seq<Signature>, c: seq<Signature>, report: Report) {
    var n := Shorter(|r|, |c|);
    && report.matches == (r == c)
    && (report.firstMismatch.None? <==> r == c)
    && (report.firstMismatch.Some? ==> IsCommonPrefixLength(r, c, report.firstMismatch.value))
    && report.counts.reference == |r| && report.counts.candidate == |c|
    && report.counts.missing == |multiset(r) - multiset(c)|
    && report.counts.unexpected == |multiset(c) - multiset(r)|
    && report.counts.valueMismatched == |Positions(r, c, n, IsValueMismatch)|
    && report.counts.reordered == |Positions(r, c, n, Reordered(r, c))|
  }

  function Shorter(a: nat, b: nat): nat {
    if a < b then a else b
  }

  // ----- the algebra of the evidence -----

  lemma MultisetDifference<T>(a: multiset<T>, b: multiset<T>)
    ensures |a - b| + |b| == |b - a| + |a|
  {
    assert a + (b - a) == b + (a - b);
    assert |a + (b - a)| == |a| + |b - a|;
    assert |b + (a - b)| == |b| + |a - b|;
  }

  /**
  The algebra of every report: reference + unexpected = candidate + missing, and when nothing is
  missing or unexpected, every differing position is counted exactly once.
   */
  lemma ReportBalances(r: seq<Signature>, c: seq<Signature>, report: Report)
    requires IsSequenceReport(r, c, report)
    ensures var counts := report.counts;
            && counts.reference + counts.unexpected == counts.candidate + counts.missing
            && (counts.missing == 0 && counts.unexpected == 0 ==>
                  && |r| == |c|
                  && counts.reordered + counts.valueMismatched == |set i: nat | i < |r| && r[i] != c[i]|)
  {
    MultisetDifference(multiset(r), multiset(c));
    if report.counts.missing == 0 && report.counts.unexpected == 0 {
      EveryDifferenceIsClassified(r, c);
    }
  }

  lemma OneKindEach(expected: Signature, actual: Signature, r: seq<Signature>, c: seq<Signature>)
    requires expected in c && actual in r
    ensures expected != actual <==> IsValueMismatch(expected, actual) || Reordered(r, c)(expected, actual)
    ensures !(IsValueMismatch(expected, actual) && Reordered(r, c)(expected, actual))
  {
  }

  lemma EveryDifferenceIsClassified(r: seq<Signature>, c: seq<Signature>)
    requires multiset(r) == multiset(c) && |r| == |c|
    ensures |Positions(r, c, |r|, IsValueMismatch)| + |Positions(r, c, |r|, Reordered(r, c))|
         == |set i: nat | i < |r| && r[i] != c[i]|
  {
    var value, moved := Positions(r, c, |r|, IsValueMismatch), Positions(r, c, |r|, Reordered(r, c));
    var different := set i: nat | i < |r| && r[i] != c[i];
    forall i: nat | i < |r|
      ensures i in different <==> i in value || i in moved
      ensures !(i in value && i in moved)
    {
      assert r[i] in multiset(r) && c[i] in multiset(c);
      OneKindEach(r[i], c[i], r, c);
    }
    assert different == value + moved;
    assert value !! moved;
  }

  /** A counted position holds other data at the same place, or two transactions that each stand elsewhere too. */
  lemma {:induction false} DifferenceKinds(r: seq<Signature>, c: seq<Signature>, n: nat, i: nat)
    requires n <= |r| && n <= |c| && i < n
    ensures i in Positions(r, c, n, IsValueMismatch)
       <==> r[i].operation == c[i].operation && r[i].offset == c[i].offset && r[i].data != c[i].data
    ensures i in Positions(r, c, n, Reordered(r, c))
       <==> && r[i] != c[i] && i !in Positions(r, c, n, IsValueMismatch)
            && (exists j | 0 <= j < |c| && j != i :: c[j] == r[i])
            && (exists j | 0 <= j < |r| && j != i :: r[j] == c[i])
  {
  }

  // ----- reports the other way round -----

  function Mirrored(counts: Counts): Counts {
    Counts(counts.candidate, counts.reference, counts.unexpected, counts.missing,
           counts.reordered, counts.valueMismatched)
  }

  lemma NoShorterPrefix<T>(a: seq<T>, b: seq<T>, m: nat, n: nat)
    requires m < n && n <= |a| && n <= |b| && a[..n] == b[..n]
    ensures !IsCommonPrefixLength(a, b, m)
  {
    assert a[m] == a[..n][m] == b[..n][m];
  }

  lemma CommonPrefixUnique<T>(a: seq<T>, b: seq<T>, m: nat, n: nat)
    requires IsCommonPrefixLength(a, b, m) && IsCommonPrefixLength(b, a, n)
    ensures m == n
  {
    if m < n {
      NoShorterPrefix(a, b, m, n);
    } else if n < m {
      NoShorterPrefix(b, a, n, m);
    }
  }

  /** The report on two streams in the other order has the same verdict and divergence, and mirrored counts. */
  lemma ReportsMirror(r: seq<Signature>, c: seq<Signature>, forth: Report, back: Report)
    requires IsSequenceReport(r, c, forth) && IsSequenceReport(c, r, back)
    ensures back == Report(forth.matches, Mirrored(forth.counts), forth.firstMismatch)
  {
    var n := Shorter(|r|, |c|);
    assert Positions(r, c, n, IsValueMismatch) == Positions(c, r, n, IsValueMismatch);
    assert Positions(r, c, n, Reordered(r, c)) == Positions(c, r, n, Reordered(c, r)) by {
      assert forall i: nat | i < n :: Reordered(r, c)(r[i], c[i]) == Reordered(c, r)(c[i], r[i]);
    }
    if r != c {
      CommonPrefixUnique(r, c, forth.firstMismatch.value, back.firstMismatch.value);
    }
  }
}
