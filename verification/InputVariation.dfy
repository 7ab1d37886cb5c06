/**
The accuracy of a multi-input campaign: every session measures each of the twenty inputs equally
often, and the classification of an input never changes.
 */
module InputVariation {
  import opened Outcomes

  const INPUTS: nat := 20

  /** A session: the classification match of every input, and the inputs of its measured samples in order. */
  datatype Archive = Archive(results: map<int, int>, measured: seq<int>)

  datatype Row = Row(input: int, matched: int)

  datatype ImportError =
    | NoSessions | IncompleteResults(session: nat)
    | UnknownInput(session: nat) | Unbalanced(session: nat) | Changed(input: nat)

  // ----- counting -----

  function CountOf(measured: seq<int>, i: int): nat {
    if measured == [] then 0
    else CountOf(measured[..|measured| - 1], i) + if measured[|measured| - 1] == i then 1 else 0
  }

  function Inputs(rows: seq<Row>): seq<int> {
    seq(|rows|, k requires 0 <= k < |rows| => rows[k].input)
  }

  function Matches(rows: seq<Row>): int {
    if rows == [] then 0 else Matches(rows[..|rows| - 1]) + rows[|rows| - 1].matched
  }

  /** The sum of f over the first n inputs, each as often as it was measured. */
  function Weighted(measured: seq<int>, f: int -> int, n: nat): int {
    if n == 0 then 0 else Weighted(measured, f, n - 1) + CountOf(measured, n - 1) * f(n - 1)
  }

  function Total(f: int -> int, n: nat): int {
    if n == 0 then 0 else Total(f, n - 1) + f(n - 1)
  }

  function Values(measured: seq<int>, f: int -> int): int {
    if measured == [] then 0 else Values(measured[..|measured| - 1], f) + f(measured[|measured| - 1])
  }

  lemma {:induction false} WeightedNext(measured: seq<int>, x: int, f: int -> int, n: nat)
    ensures Weighted(measured + [x], f, n) == Weighted(measured, f, n) + if 0 <= x < n then f(x) else 0
  {
    if n > 0 {
      WeightedNext(measured, x, f, n - 1);
      assert (measured + [x])[..|measured|] == measured;
      OneMore(CountOf(measured, n - 1), f(n - 1));
    }
  }

  lemma OneMore(count: int, value: int)
    ensures (count + 1) * value == count * value + value
  {
  }

  lemma {:induction false} WeightedNothing(f: int -> int, n: nat)
    ensures Weighted([], f, n) == 0
  {
    if n > 0 {
      WeightedNothing(f, n - 1);
    }
  }

  /** Summing over the samples is summing over the inputs, weighted by their counts. */
  lemma {:induction false} ValuesAreWeighted(measured: seq<int>, f: int -> int, n: nat)
    requires forall x | x in measured :: 0 <= x < n
    ensures Values(measured, f) == Weighted(measured, f, n)
  {
    if measured == [] {
      WeightedNothing(f, n);
    } else {
      var last := |measured| - 1;
      assert measured[last] in measured && forall x | x in measured[..last] :: x in measured;
      ValuesAreWeighted(measured[..last], f, n);
      WeightedNext(measured[..last], measured[last], f, n);
      assert measured[..last] + [measured[last]] == measured;
    }
  }

  lemma {:induction false} EqualWeights(measured: seq<int>, f: int -> int, n: nat, count: nat)
    requires forall i | 0 <= i < n :: CountOf(measured, i) == count
    ensures Weighted(measured, f, n) == count * Total(f, n)
  {
    if n > 0 {
      EqualWeights(measured, f, n - 1, count);
      Distribute(count, Total(f, n - 1), f(n - 1));
    }
  }

  lemma Distribute(count: int, a: int, b: int)
    ensures count * (a + b) == count * a + count * b
  {
  }

  lemma {:induction false} LengthIsValues(measured: seq<int>)
    ensures Values(measured, _ => 1) == |measured|
  {
    if measured != [] {
      LengthIsValues(measured[..|measured| - 1]);
    }
  }

  lemma {:induction false} TotalOfOnes(n: nat)
    ensures Total(_ => 1, n) == n
  {
    if n > 0 {
      TotalOfOnes(n - 1);
    }
  }

  lemma {:induction false} CountConcat(a: seq<int>, b: seq<int>, i: int)
    ensures CountOf(a + b, i) == CountOf(a, i) + CountOf(b, i)
  {
    if b == [] {
      assert a + b == a;
    } else {
      CountConcat(a, b[..|b| - 1], i);
      assert (a + b)[..|a + b| - 1] == a + b[..|b| - 1];
    }
  }

  // ----- balance -----

  predicate Known(measured: seq<int>) {
    forall x | x in measured :: 0 <= x < INPUTS
  }

  predicate Equally(measured: seq<int>, count: nat) {
    forall i | 0 <= i < INPUTS :: CountOf(measured, i) == count
  }

  /** Every input was measured equally often, and at all. */
  predicate Balanced(measured: seq<int>) {
    Known(measured) && CountOf(measured, 0) > 0 && Equally(measured, CountOf(measured, 0))
  }

  /** Balanced sessions together are balanced, however their counts differ. */
  lemma BalanceAdds(a: seq<int>, b: seq<int>, m: nat, n: nat)
    requires Known(a) && Known(b) && Equally(a, m) && Equally(b, n)
    ensures Known(a + b) && Equally(a + b, m + n)
  {
    forall i | 0 <= i < INPUTS
      ensures CountOf(a + b, i) == m + n
    {
      CountConcat(a, b, i);
    }
  }

  // ----- accuracy -----

  datatype Accuracy = Accuracy(distinctMatches: int, repeatedMatches: int, repeatedTotal: nat)

  function DistinctPercent(accuracy: Accuracy): real {
    100.0 * accuracy.distinctMatches as real / INPUTS as real
  }

  function RepeatedPercent(accuracy: Accuracy): real
    requires accuracy.repeatedTotal > 0
  {
    100.0 * accuracy.repeatedMatches as real / accuracy.repeatedTotal as real
  }

  /** The classification of every input, as f has it. */
  predicate Constant(rows: seq<Row>, f: int -> int) {
    forall row | row in rows :: row.matched == f(row.input)
  }

  lemma {:induction false} MatchesAreValues(rows: seq<Row>, f: int -> int)
    requires Constant(rows, f)
    ensures Matches(rows) == Values(Inputs(rows), f)
  {
    if rows != [] {
      var last := |rows| - 1;
      assert forall row | row in rows[..last] :: row in rows;
      MatchesAreValues(rows[..last], f);
      assert Inputs(rows)[..last] == Inputs(rows[..last]);
      assert rows[last] in rows;
    }
  }

  /** Over balanced rows with constant classification, the matches are the distinct matches times the count. */
  lemma RepeatedIsDistinct(rows: seq<Row>, f: int -> int, count: nat)
    requires Constant(rows, f) && Known(Inputs(rows)) && Equally(Inputs(rows), count)
    ensures Matches(rows) == count * Total(f, INPUTS) && |rows| == count * INPUTS
  {
    var measured := Inputs(rows);
    MatchesAreValues(rows, f);
    ValuesAreWeighted(measured, f, INPUTS);
    EqualWeights(measured, f, INPUTS, count);
    LengthIsValues(measured);
    ValuesAreWeighted(measured, _ => 1, INPUTS);
    EqualWeights(measured, _ => 1, INPUTS, count);
    TotalOfOnes(INPUTS);
  }

  lemma SamePercent(accuracy: Accuracy, count: nat)
    requires count > 0 && accuracy.repeatedMatches == count * accuracy.distinctMatches
    requires accuracy.repeatedTotal == count * INPUTS
    ensures RepeatedPercent(accuracy) == DistinctPercent(accuracy)
  {
    var d, c := accuracy.distinctMatches as real, count as real;
    assert accuracy.repeatedMatches as real == c * d;
    assert RepeatedPercent(accuracy) == 100.0 * (c * d) / (c * 20.0);
    CancelCount(d, c);
  }

  lemma CancelCount(d: real, c: real)
    requires c > 0.0
    ensures c * 20.0 > 0.0 && 100.0 * (c * d) / (c * 20.0) == 100.0 * d / 20.0
  {
    var x := 100.0 * d / 20.0;
    assert x == 5.0 * d;
    assert x * (c * 20.0) == 100.0 * (c * d);
  }

  // ----- the import -----

  function Range(n: nat): (s: set<int>)
    ensures forall i :: i in s <==> 0 <= i < n
  {
    if n == 0 then {} else Range(n - 1) + {n - 1}
  }

  predicate CompleteResults(archive: Archive) {
    archive.results.Keys == Range(INPUTS)
  }

  predicate ArchiveAccepted(archive: Archive) {
    CompleteResults(archive) && Balanced(archive.measured)
  }

  /** The classification of an input in a session. */
  function MatchOf(archive: Archive, i: int): int {
    if i in archive.results then archive.results[i] else 0
  }

  /** The rows of the measured samples of a session. */
  function RowsOf(archive: Archive): seq<Row> {
    seq(|archive.measured|, k requires 0 <= k < |archive.measured| =>
      Row(archive.measured[k], MatchOf(archive, archive.measured[k])))
  }

  /** The rows of the first n sessions. */
  function AllRows(archives: seq<Archive>, n: nat): seq<Row>
    requires n <= |archives|
  {
    if n == 0 then [] else AllRows(archives, n - 1) + RowsOf(archives[n - 1])
  }

  /** The counts of the inputs in a list. */
  predicate Counted(counts: seq<nat>, measured: seq<int>) {
    |counts| == INPUTS && forall i | 0 <= i < INPUTS :: counts[i] == CountOf(measured, i)
  }

  lemma CountNext(counts: seq<nat>, measured: seq<int>, k: nat)
    requires k < |measured| && 0 <= measured[k] < INPUTS && Counted(counts, measured[..k])
    ensures Counted(counts[measured[k] := counts[measured[k]] + 1], measured[..k + 1])
  {
    assert measured[..k + 1][..k] == measured[..k];
  }

  lemma KnownNext(measured: seq<int>, k: nat)
    requires k < |measured| && 0 <= measured[k] < INPUTS && Known(measured[..k])
    ensures Known(measured[..k + 1])
  {
    assert measured[..k + 1] == measured[..k] + [measured[k]];
  }

  lemma RowNext(archive: Archive, k: nat)
    requires k < |archive.measured| && archive.measured[k] in archive.results
    ensures RowsOf(archive)[..k + 1]
         == RowsOf(archive)[..k] + [Row(archive.measured[k], archive.results[archive.measured[k]])]
  {
  }

  method IsEqually(counts: seq<nat>) returns (equally: bool)
    requires counts != []
    ensures equally <==> counts[0] > 0 && forall i | 0 <= i < |counts| :: counts[i] == counts[0]
  {
    equally := counts[0] > 0;
    for i := 0 to |counts|
      invariant equally <==> counts[0] > 0 && forall j | 0 <= j < i :: counts[j] == counts[0]
    {
      equally := equally && counts[i] == counts[0];
    }
  }

  /** The rows of a session; its counts are checked at the end. */
  method ImportSession(archive: Archive, session: nat) returns (r: Result<seq<Row>, ImportError>)
    ensures r.Ok? <==> ArchiveAccepted(archive)
    ensures r.Ok? ==> r.value == RowsOf(archive)
    ensures r.Err? ==> !r.error.Changed? && !r.error.NoSessions?
    ensures r.Err? && r.error.IncompleteResults? ==> !CompleteResults(archive)
    ensures r.Err? && r.error.UnknownInput? ==> !Known(archive.measured)
    ensures r.Err? && r.error.Unbalanced? ==> Known(archive.measured) && !Balanced(archive.measured)
  {
    var measured := archive.measured;
    if archive.results.Keys != Range(INPUTS) {
      return Err(IncompleteResults(session));
    }
    var rows: seq<Row> := [];
    var counts: seq<nat> := seq(INPUTS, _ => 0);
    for k := 0 to |measured|
      invariant Known(measured[..k]) && Counted(counts, measured[..k])
      invariant rows == RowsOf(archive)[..k]
    {
      var input := measured[k];
      if !(0 <= input < INPUTS) {
        assert input in measured;
        return Err(UnknownInput(session));
      }
      CountNext(counts, measured, k);
      KnownNext(measured, k);
      RowNext(archive, k);
      rows := rows + [Row(input, archive.results[input])];
      counts := counts[input := counts[input] + 1];
    }
    assert measured[..|measured|] == measured;
    var equally := IsEqually(counts);
    if !equally {
      return Err(Unbalanced(session));
    }
    r := Ok(rows);
  }

  predicate HasInput(rows: seq<Row>, input: int) {
    exists row | row in rows :: row.input == input
  }

  predicate Contradicted(rows: seq<Row>, input: int) {
    exists a, b | a in rows && b in rows :: a.input == b.input == input && a.matched != b.matched
  }

  predicate Classified(rows: seq<Row>, input: int, matched: int) {
    HasInput(rows, input) && forall row | row in rows && row.input == input :: row.matched == matched
  }

  /** The one classification of an input over all rows, or nothing. */
  method Classification(rows: seq<Row>, input: int) returns (matched: Option<int>)
    ensures matched.Some? ==> Classified(rows, input, matched.value)
    ensures matched.None? ==> !HasInput(rows, input) || Contradicted(rows, input)
  {
    matched := None;
    ghost var first := Row(input, 0);
    for k := 0 to |rows|
      invariant matched.Some? ==> first in rows && first == Row(input, matched.value)
      invariant matched.Some? ==> forall j | 0 <= j < k :: rows[j].input == input ==> rows[j].matched == matched.value
      invariant matched.None? ==> forall j | 0 <= j < k :: rows[j].input != input
    {
      if rows[k].input == input {
        if matched.Some? && matched.value != rows[k].matched {
          assert rows[k] in rows;
          return None;
        }
        matched, first := Some(rows[k].matched), rows[k];
      }
    }
  }

  // ----- all sessions together -----

  predicate AllAccepted(archives: seq<Archive>, n: nat)
    requires n <= |archives|
  {
    forall k | 0 <= k < n :: ArchiveAccepted(archives[k])
  }

  /** No input is classified differently in two sessions. */
  predicate Agree(archives: seq<Archive>) {
    forall k, i | 0 <= k < |archives| && 0 <= i < INPUTS :: MatchOf(archives[k], i) == MatchOf(archives[0], i)
  }

  /** The measured rows of the whole campaign. */
  function CampaignRows(archives: seq<Archive>): seq<Row> {
    AllRows(archives, |archives|)
  }

  predicate Accepted(archives: seq<Archive>) {
    archives != [] && AllAccepted(archives, |archives|) && Agree(archives)
  }

  /** The sum of the counts of the first n sessions. */
  function Repeats(archives: seq<Archive>, n: nat): nat
    requires n <= |archives|
  {
    if n == 0 then 0 else Repeats(archives, n - 1) + CountOf(archives[n - 1].measured, 0)
  }

  lemma {:induction false} AllRowsAreBalanced(archives: seq<Archive>, n: nat)
    requires n <= |archives| && AllAccepted(archives, n)
    ensures Known(Inputs(AllRows(archives, n))) && Equally(Inputs(AllRows(archives, n)), Repeats(archives, n))
    ensures n > 0 ==> Repeats(archives, n) > 0
  {
    if n > 0 {
      var before, own := AllRows(archives, n - 1), RowsOf(archives[n - 1]);
      AllRowsAreBalanced(archives, n - 1);
      assert ArchiveAccepted(archives[n - 1]);
      assert Inputs(own) == archives[n - 1].measured;
      assert Inputs(before + own) == Inputs(before) + Inputs(own);
      BalanceAdds(Inputs(before), Inputs(own), Repeats(archives, n - 1), CountOf(archives[n - 1].measured, 0));
    }
  }

  lemma {:induction false} RowsComeFromSessions(archives: seq<Archive>, n: nat, row: Row) returns (k: nat)
    requires n <= |archives| && row in AllRows(archives, n)
    ensures k < n && row.input in archives[k].measured && row.matched == MatchOf(archives[k], row.input)
  {
    if row in RowsOf(archives[n - 1]) {
      k := n - 1;
    } else {
      k := RowsComeFromSessions(archives, n - 1, row);
    }
  }

  lemma {:induction false} SessionRowsAreThere(archives: seq<Archive>, n: nat, k: nat, i: int)
    requires k < n <= |archives| && i in archives[k].measured
    ensures Row(i, MatchOf(archives[k], i)) in AllRows(archives, n)
  {
    if k == n - 1 {
      var j :| 0 <= j < |archives[k].measured| && archives[k].measured[j] == i;
      assert RowsOf(archives[k])[j] == Row(i, MatchOf(archives[k], i));
    } else {
      SessionRowsAreThere(archives, n - 1, k, i);
    }
  }

  lemma {:induction false} CountedIsMeasured(measured: seq<int>, i: int)
    requires CountOf(measured, i) > 0
    ensures i in measured
  {
    if measured[|measured| - 1] != i {
      CountedIsMeasured(measured[..|measured| - 1], i);
    }
  }

  /** A classification that all rows share is that of every session. */
  lemma ClassifiedBySessions(archives: seq<Archive>, i: int, matched: int)
    requires AllAccepted(archives, |archives|) && 0 <= i < INPUTS
    requires Classified(CampaignRows(archives), i, matched)
    ensures forall k | 0 <= k < |archives| :: MatchOf(archives[k], i) == matched
  {
    forall k | 0 <= k < |archives|
      ensures MatchOf(archives[k], i) == matched
    {
      assert ArchiveAccepted(archives[k]);
      CountedIsMeasured(archives[k].measured, i);
      SessionRowsAreThere(archives, |archives|, k, i);
    }
  }

  /** When the sessions agree, no input goes without its classification. */
  lemma AgreementClassifies(archives: seq<Archive>, i: int)
    requires Accepted(archives) && 0 <= i < INPUTS
    ensures HasInput(CampaignRows(archives), i) && !Contradicted(CampaignRows(archives), i)
  {
    var rows := CampaignRows(archives);
    assert ArchiveAccepted(archives[0]);
    CountedIsMeasured(archives[0].measured, i);
    SessionRowsAreThere(archives, |archives|, 0, i);
    forall row | row in rows && row.input == i
      ensures row.matched == MatchOf(archives[0], i)
    {
      var k := RowsComeFromSessions(archives, |archives|, row);
    }
  }

  lemma RowsAreConstant(archives: seq<Archive>)
    requires Accepted(archives)
    ensures Constant(CampaignRows(archives), i => MatchOf(archives[0], i))
  {
    forall row | row in CampaignRows(archives)
      ensures row.matched == MatchOf(archives[0], row.input)
    {
      var k := RowsComeFromSessions(archives, |archives|, row);
      assert ArchiveAccepted(archives[k]);
    }
  }

  /** The sum of the classifications of the first n inputs. */
  function DistinctOf(archive: Archive, n: nat): int {
    if n == 0 then 0 else DistinctOf(archive, n - 1) + MatchOf(archive, n - 1)
  }

  lemma {:induction false} DistinctIsTotal(archive: Archive, n: nat)
    ensures DistinctOf(archive, n) == Total(i => MatchOf(archive, i), n)
  {
    if n > 0 {
      DistinctIsTotal(archive, n - 1);
    }
  }

  /** What an accepted campaign reports. */
  function AccuracyOf(archives: seq<Archive>): Accuracy
    requires archives != []
  {
    var rows := CampaignRows(archives);
    Accuracy(DistinctOf(archives[0], INPUTS), Matches(rows), |rows|)
  }

  /** Repeating the inputs, however often in each session, leaves the accuracy as it is. */
  lemma RepeatedAccuracyIsDistinct(archives: seq<Archive>)
    requires Accepted(archives)
    ensures AccuracyOf(archives).repeatedTotal == Repeats(archives, |archives|) * INPUTS > 0
    ensures RepeatedPercent(AccuracyOf(archives)) == DistinctPercent(AccuracyOf(archives))
  {
    var count := Repeats(archives, |archives|);
    AllRowsAreBalanced(archives, |archives|);
    RowsAreConstant(archives);
    RepeatedIsDistinct(CampaignRows(archives), i => MatchOf(archives[0], i), count);
    DistinctIsTotal(archives[0], INPUTS);
    SamePercent(AccuracyOf(archives), count);
  }

  method ImportRows(archives: seq<Archive>) returns (r: Result<seq<Row>, ImportError>)
    ensures r.Ok? <==> AllAccepted(archives, |archives|)
    ensures r.Ok? ==> r.value == CampaignRows(archives)
    ensures r.Err? ==> !r.error.Changed? && !r.error.NoSessions?
  {
    var rows: seq<Row> := [];
    for session := 0 to |archives|
      invariant AllAccepted(archives, session) && rows == AllRows(archives, session)
    {
      var imported := ImportSession(archives[session], session);
      if imported.Err? {
        return imported;
      }
      rows := rows + imported.value;
    }
    r := Ok(rows);
  }

  predicate AgreeOn(archives: seq<Archive>, i: int)
    requires archives != []
  {
    forall k | 0 <= k < |archives| :: MatchOf(archives[k], i) == MatchOf(archives[0], i)
  }

  /** The sessions agree on the first n inputs. */
  predicate AgreeBelow(archives: seq<Archive>, n: nat)
    requires archives != []
  {
    n == 0 || (AgreeBelow(archives, n - 1) && AgreeOn(archives, n - 1))
  }

  lemma {:induction false} AgreeBelowIs(archives: seq<Archive>, n: nat)
    requires archives != [] && AgreeBelow(archives, n)
    ensures forall i | 0 <= i < n :: AgreeOn(archives, i)
  {
    if n > 0 {
      AgreeBelowIs(archives, n - 1);
    }
  }

  lemma AgreeOnAll(archives: seq<Archive>)
    requires archives != [] && AgreeBelow(archives, INPUTS)
    ensures Agree(archives)
  {
    AgreeBelowIs(archives, INPUTS);
    forall k, i | 0 <= k < |archives| && 0 <= i < INPUTS
      ensures MatchOf(archives[k], i) == MatchOf(archives[0], i)
    {
      assert AgreeOn(archives, i);
    }
  }

  /** The distinct matches; every input has one classification over all rows. */
  method PerInput(ghost archives: seq<Archive>, rows: seq<Row>) returns (r: Result<int, ImportError>)
    requires archives != [] && AllAccepted(archives, |archives|) && rows == CampaignRows(archives)
    ensures r.Ok? <==> Agree(archives)
    ensures r.Ok? ==> r.value == DistinctOf(archives[0], INPUTS)
    ensures r.Err? ==> r.error.Changed?
  {
    var distinct := 0;
    for input := 0 to INPUTS
      invariant AgreeBelow(archives, input)
      invariant distinct == DistinctOf(archives[0], input)
    {
      var matched := Classification(rows, input);
      if matched.None? {
        if Agree(archives) {
          AgreementClassifies(archives, input);
        }
        return Err(Changed(input));
      }
      ClassifiedBySessions(archives, input, matched.value);
      distinct := distinct + matched.value;
    }
    AgreeOnAll(archives);
    r := Ok(distinct);
  }

  method ImportInputVariation(archives: seq<Archive>) returns (r: Result<Accuracy, ImportError>)
    ensures r.Ok? <==> Accepted(archives)
    ensures r.Ok? ==> r.value == AccuracyOf(archives)
    ensures r == Err(NoSessions) <==> archives == []
    ensures r.Err? && r.error.Changed? ==> !Agree(archives)
  {
    if archives == [] {
      return Err(NoSessions);
    }
    var imported := ImportRows(archives);
    if imported.Err? {
      return Err(imported.error);
    }
    var rows := imported.value;
    var distinct := PerInput(archives, rows);
    if distinct.Err? {
      return Err(distinct.error);
    }
    r := Ok(Accuracy(distinct.value, Matches(rows), |rows|));
  }
}
