/**
Where the time of an inference goes: the eleven profiled phases of each cold or warm run are folded
into aggregates, and the means of the aggregates are compared with the end-to-end mean.
 */
module PhaseAccounting {
  import opened Outcomes
  import opened OrderStatistics
  import opened Arithmetic

  datatype Phase =
    | RuntimeCreate | LoadableRead | RuntimeLoad | EmuInit | InputSetup | OutputSetup
    | OutputWrite | BufferCleanup | EmuStop | RuntimeUnload | RuntimeDestroy

  function AllPhases(): seq<Phase> { seq(11, k => PhaseAt(k)) }

  function PhaseAt(k: int): Phase {
    match k
    case 0 => RuntimeCreate
    case 1 => LoadableRead
    case 2 => RuntimeLoad
    case 3 => EmuInit
    case 4 => InputSetup
    case 5 => OutputSetup
    case 6 => OutputWrite
    case 7 => BufferCleanup
    case 8 => EmuStop
    case 9 => RuntimeUnload
    case _ => RuntimeDestroy
  }

  datatype Part =
    | RuntimeInitialization | ModelLoading | BufferPreparation | RuntimeExecution
    | ResultHandling | Teardown | Unprofiled

  function AllParts(): seq<Part> { seq(7, k => PartAt(k)) }

  function PartAt(k: int): Part {
    match k
    case 0 => RuntimeInitialization
    case 1 => ModelLoading
    case 2 => BufferPreparation
    case 3 => RuntimeExecution
    case 4 => ResultHandling
    case 5 => Teardown
    case _ => Unprofiled
  }

  /** One measured inference, all times in nanoseconds. */
  datatype Row = Row(session: string, profile: string, phase: Phase -> int, execution: int, extract: int, latency: int)

  datatype PhaseError = NoRows | NotOneInference | PhasesExceedLatency | NothingObserved

  // ----- rows grouped by profile -----

  datatype Group = Group(session: string, profile: string, rows: seq<Row>)

  predicate SameProfile(group: Group, row: Row) {
    group.session == row.session && group.profile == row.profile
  }

  /** The groups with `row` appended to the one of its profile, which is created if missing. */
  function AddRow(groups: seq<Group>, row: Row): seq<Group> {
    if groups == [] then [Group(row.session, row.profile, [row])]
    else if SameProfile(groups[0], row) then [groups[0].(rows := groups[0].rows + [row])] + groups[1..]
    else [groups[0]] + AddRow(groups[1..], row)
  }

  /** The groups of the first n rows, in order of first appearance. */
  function GroupsBefore(rows: seq<Row>, n: nat): seq<Group>
    requires n <= |rows|
  {
    if n == 0 then [] else AddRow(GroupsBefore(rows, n - 1), rows[n - 1])
  }

  predicate DistinctProfiles(rows: seq<Row>) {
    forall i, j | 0 <= i < j < |rows| :: rows[i].session != rows[j].session || rows[i].profile != rows[j].profile
  }

  function Singles(rows: seq<Row>): seq<Group> {
    seq(|rows|, i requires 0 <= i < |rows| => Group(rows[i].session, rows[i].profile, [rows[i]]))
  }

  predicate AllSingle(groups: seq<Group>) {
    forall i | 0 <= i < |groups| :: |groups[i].rows| == 1
  }

  predicate NonEmpty(groups: seq<Group>) {
    forall i | 0 <= i < |groups| :: groups[i].rows != []
  }

  lemma {:induction false} AddToOthers(groups: seq<Group>, row: Row)
    requires forall i | 0 <= i < |groups| :: !SameProfile(groups[i], row)
    ensures AddRow(groups, row) == groups + [Group(row.session, row.profile, [row])]
  {
    if groups != [] {
      AddToOthers(groups[1..], row);
    }
  }

  lemma {:induction false} AddToOwn(groups: seq<Group>, row: Row, i: nat)
    requires i < |groups| && SameProfile(groups[i], row) && NonEmpty(groups)
    ensures !AllSingle(AddRow(groups, row)) && NonEmpty(AddRow(groups, row))
  {
    var after := AddRow(groups, row);
    if SameProfile(groups[0], row) {
      assert |after[0].rows| == |groups[0].rows| + 1;
      assert forall k | 0 < k < |groups| :: after[k] == groups[k];
    } else {
      AddToOwn(groups[1..], row, i - 1);
      var rest := AddRow(groups[1..], row);
      var k :| 0 <= k < |rest| && |rest[k].rows| != 1;
      assert after[k + 1] == rest[k];
    }
  }

  /** A group that is not a single row never becomes one. */
  lemma {:induction false} NotSingleStays(groups: seq<Group>, row: Row)
    requires !AllSingle(groups) && NonEmpty(groups)
    ensures !AllSingle(AddRow(groups, row)) && NonEmpty(AddRow(groups, row))
  {
    var k :| 0 <= k < |groups| && |groups[k].rows| != 1;
    var after := AddRow(groups, row);
    AddGrows(groups, row);
    assert |after[k].rows| >= |groups[k].rows|;
  }

  lemma {:induction false} AddGrows(groups: seq<Group>, row: Row)
    ensures |AddRow(groups, row)| >= |groups|
    ensures forall k | 0 <= k < |groups| :: |AddRow(groups, row)[k].rows| >= |groups[k].rows|
    ensures NonEmpty(groups) ==> NonEmpty(AddRow(groups, row))
  {
    if groups != [] && !SameProfile(groups[0], row) {
      AddGrows(groups[1..], row);
    }
  }

  /** Every profile has one row exactly when the profiles of the rows are distinct. */
  lemma {:induction false} GroupsAreSingle(rows: seq<Row>, n: nat)
    requires n <= |rows|
    ensures NonEmpty(GroupsBefore(rows, n))
    ensures AllSingle(GroupsBefore(rows, n)) <==> DistinctProfiles(rows[..n])
    ensures DistinctProfiles(rows[..n]) ==> GroupsBefore(rows, n) == Singles(rows[..n])
  {
    if n > 0 {
      GroupsAreSingle(rows, n - 1);
      var before, row, groups := rows[..n - 1], rows[n - 1], GroupsBefore(rows, n - 1);
      assert rows[..n] == before + [row];
      if DistinctProfiles(before) {
        AddToSingles(before, row);
      } else {
        NotSingleStays(groups, row);
        StillNotDistinct(before, row);
      }
    }
  }

  lemma AddToSingles(before: seq<Row>, row: Row)
    requires DistinctProfiles(before)
    ensures NonEmpty(AddRow(Singles(before), row))
    ensures AllSingle(AddRow(Singles(before), row)) <==> DistinctProfiles(before + [row])
    ensures DistinctProfiles(before + [row]) ==> AddRow(Singles(before), row) == Singles(before + [row])
  {
    var groups := Singles(before);
    if i: nat :| i < |groups| && SameProfile(groups[i], row) {
      AddToOwn(groups, row, i);
      assert before[i].session == row.session && before[i].profile == row.profile;
      AppendedNotDistinct(before, row, i);
    } else {
      AddToOthers(groups, row);
      assert forall i | 0 <= i < |before| :: SameProfile(groups[i], row)
                                             <==> before[i].session == row.session && before[i].profile == row.profile;
      AppendedDistinct(before, row);
    }
  }

  lemma StillNotDistinct(before: seq<Row>, row: Row)
    requires !DistinctProfiles(before)
    ensures !DistinctProfiles(before + [row])
  {
    var i, j :|
      0 <= i < j < |before| && before[i].session == before[j].session && before[i].profile == before[j].profile;
    var rows := before + [row];
    assert rows[i] == before[i] && rows[j] == before[j];
  }

  lemma AppendedNotDistinct(before: seq<Row>, row: Row, i: nat)
    requires i < |before| && before[i].session == row.session && before[i].profile == row.profile
    ensures !DistinctProfiles(before + [row])
  {
    var rows := before + [row];
    assert rows[i] == before[i] && rows[|before|] == row;
  }

  lemma AppendedDistinct(before: seq<Row>, row: Row)
    requires DistinctProfiles(before)
    requires forall i | 0 <= i < |before| :: before[i].session != row.session || before[i].profile != row.profile
    ensures DistinctProfiles(before + [row])
    ensures Singles(before + [row]) == Singles(before) + [Group(row.session, row.profile, [row])]
  {
  }

  /** Only rows of the list are grouped. */
  lemma {:induction false} GroupRowsAreRows(rows: seq<Row>, n: nat, i: nat, k: nat)
    requires n <= |rows| && i < |GroupsBefore(rows, n)| && k < |GroupsBefore(rows, n)[i].rows|
    ensures GroupsBefore(rows, n)[i].rows[k] in rows
  {
    if n > 0 {
      var before := GroupsBefore(rows, n - 1);
      AddedRow(before, rows[n - 1], i, k);
      if i < |before| && k < |before[i].rows| && GroupsBefore(rows, n)[i].rows[k] == before[i].rows[k] {
        GroupRowsAreRows(rows, n - 1, i, k);
      }
    }
  }

  lemma {:induction false} AddedRow(groups: seq<Group>, row: Row, i: nat, k: nat)
    requires i < |AddRow(groups, row)| && k < |AddRow(groups, row)[i].rows|
    ensures var found := AddRow(groups, row)[i].rows[k];
            found == row || (i < |groups| && k < |groups[i].rows| && found == groups[i].rows[k])
  {
    if groups != [] && !SameProfile(groups[0], row) && i > 0 {
      AddedRow(groups[1..], row, i - 1, k);
    }
  }

  method ProfileGroups(rows: seq<Row>) returns (groups: seq<Group>)
    ensures AllSingle(groups) <==> DistinctProfiles(rows)
    ensures DistinctProfiles(rows) ==> groups == Singles(rows)
    ensures NonEmpty(groups)
    ensures groups == GroupsBefore(rows, |rows|)
    ensures groups == [] <==> rows == []
  {
    groups := [];
    for i := 0 to |rows|
      invariant groups == GroupsBefore(rows, i)
      invariant groups == [] <==> i == 0
    {
      groups := AddRow(groups, rows[i]);
    }
    GroupsAreSingle(rows, |rows|);
    assert rows[..|rows|] == rows;
  }

  // ----- the aggregates of one row -----

  function Aggregate(row: Row, part: Part): int
    requires part != Unprofiled
  {
    match part
    case RuntimeInitialization => row.phase(RuntimeCreate) + row.phase(EmuInit)
    case ModelLoading => row.phase(LoadableRead) + row.phase(RuntimeLoad)
    case BufferPreparation => row.phase(InputSetup) + row.phase(OutputSetup)
    case RuntimeExecution => row.execution
    case ResultHandling => row.extract + row.phase(OutputWrite)
    case Teardown =>
      row.phase(BufferCleanup) + row.phase(EmuStop) + row.phase(RuntimeUnload) + row.phase(RuntimeDestroy)
  }

  function Accounted(row: Row): int {
    Aggregate(row, RuntimeInitialization) + Aggregate(row, ModelLoading) + Aggregate(row, BufferPreparation)
    + Aggregate(row, RuntimeExecution) + Aggregate(row, ResultHandling) + Aggregate(row, Teardown)
  }

  function Time(row: Row, part: Part): int {
    if part == Unprofiled then Max(0, row.latency - Accounted(row)) else Aggregate(row, part)
  }

  function SumOver<K>(keys: seq<K>, f: K -> int): int {
    if keys == [] then 0 else f(keys[0]) + SumOver(keys[1..], f)
  }

  lemma SumOfFour<K>(keys: seq<K>, f: K -> int)
    requires |keys| == 4
    ensures SumOver(keys, f) == f(keys[0]) + f(keys[1]) + f(keys[2]) + f(keys[3])
  {
    assert SumOver(keys[1..], f) == f(keys[1]) + SumOver(keys[2..], f) by {
      assert keys[1..][1..] == keys[2..];
    }
    SumOfTwo(keys[2..], f);
  }

  lemma SumOfTwo<K>(keys: seq<K>, f: K -> int)
    requires |keys| == 2
    ensures SumOver(keys, f) == f(keys[0]) + f(keys[1])
  {
    assert SumOver(keys[1..], f) == f(keys[1]) + SumOver(keys[1..][1..], f);
  }

  lemma SumOfEleven<K>(keys: seq<K>, f: K -> int)
    requires |keys| == 11
    ensures SumOver(keys, f) == f(keys[0]) + f(keys[1]) + f(keys[2]) + f(keys[3]) + f(keys[4]) + f(keys[5])
                                + f(keys[6]) + f(keys[7]) + f(keys[8]) + f(keys[9]) + f(keys[10])
  {
    SumOfFour(keys[..4], f);
    assert keys == keys[..4] + keys[4..];
    SumOverConcat(keys[..4], keys[4..], f);
    SumOfSeven(keys[4..], f);
  }

  lemma SumOfSeven<K>(keys: seq<K>, f: K -> int)
    requires |keys| == 7
    ensures SumOver(keys, f)
         == f(keys[0]) + f(keys[1]) + f(keys[2]) + f(keys[3]) + f(keys[4]) + f(keys[5]) + f(keys[6])
  {
    SumOfFour(keys[..4], f);
    assert keys == keys[..4] + keys[4..];
    SumOverConcat(keys[..4], keys[4..], f);
    assert keys[4..] == [keys[4]] + keys[5..];
    SumOfTwo(keys[5..], f);
  }

  /** The aggregates count each of the eleven phases once. */
  lemma EveryPhaseOnce(row: Row)
    ensures Accounted(row) == SumOver(AllPhases(), row.phase) + row.execution + row.extract
  {
    SumOfEleven(AllPhases(), row.phase);
  }

  lemma {:induction false} SumOverConcat<K>(a: seq<K>, b: seq<K>, f: K -> int)
    ensures SumOver(a + b, f) == SumOver(a, f) + SumOver(b, f)
  {
    if a == [] {
      assert a + b == b;
    } else {
      SumOverConcat(a[1..], b, f);
      assert (a + b)[1..] == a[1..] + b;
    }
  }

  lemma {:induction false} SumOverEqual<K>(keys: seq<K>, f: K -> int, g: K -> int)
    requires forall key | key in keys :: f(key) == g(key)
    ensures SumOver(keys, f) == SumOver(keys, g)
  {
    if keys != [] {
      SumOverEqual(keys[1..], f, g);
    }
  }

  /** The parts of an accepted row sum to its end-to-end latency. */
  lemma PartsSumToLatency(row: Row)
    requires Accounted(row) <= row.latency
    ensures SumOver(AllParts(), part => Time(row, part)) == row.latency
  {
    SumOfSeven(AllParts(), part => Time(row, part));
  }

  // ----- means over the rows -----

  function Latency(row: Row): int { row.latency }

  function Execution(row: Row): int { row.execution }

  function Extract(row: Row): int { row.extract }

  function Observed(row: Row): int { row.execution + row.extract }

  function Rest(row: Row): int { Time(row, Unprofiled) }

  function PhaseTime(row: Row, phase: Phase): int { row.phase(phase) }

  function Phases(row: Row): int { SumOver(AllPhases(), row.phase) }

  /** The mean of an integer column. */
  function MeanOf(rows: seq<Row>, f: Row -> int): real
    requires rows != []
  {
    SumOver(rows, f) as real / |rows| as real
  }

  /** One mean for each key. */
  function MeansOf<K>(rows: seq<Row>, keys: seq<K>, f: (Row, K) -> int): seq<real>
    requires rows != []
  {
    seq(|keys|, k requires 0 <= k < |keys| => MeanOf(rows, row => f(row, keys[k])))
  }

  function Column(rows: seq<Row>, f: Row -> int): seq<real> {
    seq(|rows|, i requires 0 <= i < |rows| => f(rows[i]) as real)
  }

  /** The mean of a column is the mean of its list of values. */
  lemma MeanIsMean(rows: seq<Row>, f: Row -> int)
    requires rows != []
    ensures MeanOf(rows, f) == Mean(Column(rows, f))
  {
    ColumnSum(rows, f);
  }

  lemma {:induction false} ColumnSum(rows: seq<Row>, f: Row -> int)
    ensures Sum(Column(rows, f)) == SumOver(rows, f) as real
  {
    if rows != [] {
      ColumnSum(rows[1..], f);
      assert Column(rows, f)[1..] == Column(rows[1..], f);
    }
  }

  /** Summing by key and then by row is summing by row and then by key. */
  lemma {:induction false} SumsSwap<K>(rows: seq<Row>, keys: seq<K>, f: (Row, K) -> int)
    ensures SumOver(keys, key => SumOver(rows, row => f(row, key)))
         == SumOver(rows, row => SumOver(keys, key => f(row, key)))
  {
    var byKey, byRow := key => SumOver(rows, row => f(row, key)), row => SumOver(keys, key => f(row, key));
    if keys == [] {
      SumOfZeros(rows, byRow);
    } else {
      var key, rest := keys[0], keys[1..];
      SumsSwap(rows, rest, f);
      var first, others := row => f(row, key), row => SumOver(rest, k => f(row, k));
      SumOverPlus(rows, first, others, byRow);
    }
  }

  lemma {:induction false} SumOfZeros<K>(keys: seq<K>, f: K -> int)
    requires forall key | key in keys :: f(key) == 0
    ensures SumOver(keys, f) == 0
  {
    if keys != [] {
      SumOfZeros(keys[1..], f);
    }
  }

  lemma {:induction false} SumOverPlus<K>(keys: seq<K>, f: K -> int, g: K -> int, h: K -> int)
    requires forall key | key in keys :: h(key) == f(key) + g(key)
    ensures SumOver(keys, h) == SumOver(keys, f) + SumOver(keys, g)
  {
    if keys != [] {
      SumOverPlus(keys[1..], f, g, h);
    }
  }

  lemma {:induction false} SumOfMeans<K>(rows: seq<Row>, keys: seq<K>, f: (Row, K) -> int)
    requires rows != []
    ensures Sum(MeansOf(rows, keys, f))
         == SumOver(keys, key => SumOver(rows, row => f(row, key))) as real / |rows| as real
  {
    if keys != [] {
      var total := SumOver(keys[1..], key => SumOver(rows, row => f(row, key)));
      SumOfMeans(rows, keys[1..], f);
      assert MeansOf(rows, keys, f)[1..] == MeansOf(rows, keys[1..], f);
      AddQuotients(SumOver(rows, row => f(row, keys[0])) as real, total as real, |rows| as real);
    }
  }

  /** The means of the keys sum to the mean of their sums. */
  lemma MeansSum<K>(rows: seq<Row>, keys: seq<K>, f: (Row, K) -> int, total: Row -> int)
    requires rows != []
    requires forall row | row in rows :: SumOver(keys, key => f(row, key)) == total(row)
    ensures Sum(MeansOf(rows, keys, f)) == MeanOf(rows, total)
  {
    SumOfMeans(rows, keys, f);
    SumsSwap(rows, keys, f);
    SumOverEqual(rows, row => SumOver(keys, key => f(row, key)), total);
  }

  // ----- cold and warm runs -----

  datatype Breakdown = Breakdown(detailed: seq<real>, aggregates: seq<real>, endToEnd: real, percentages: seq<real>)

  function Percentages(means: seq<real>, total: real): seq<real> {
    seq(|means|, k requires 0 <= k < |means| => if total != 0.0 then means[k] * 100.0 / total else 0.0)
  }

  function BreakdownOf(rows: seq<Row>): Breakdown
    requires rows != []
  {
    var means := MeansOf(rows, AllParts(), Time);
    var endToEnd := MeanOf(rows, Latency);
    Breakdown(MeansOf(rows, AllPhases(), PhaseTime), means, endToEnd, Percentages(means, endToEnd))
  }

  ghost predicate Accepted(rows: seq<Row>) {
    rows != [] && DistinctProfiles(rows) && forall row | row in rows :: Accounted(row) <= row.latency
  }

  function Representatives(groups: seq<Group>): seq<Row>
    requires NonEmpty(groups)
  {
    seq(|groups|, i requires 0 <= i < |groups| => groups[i].rows[0])
  }

  method SummarizeProfiles(rows: seq<Row>) returns (r: Result<Breakdown, PhaseError>)
    ensures r.Ok? <==> Accepted(rows)
    ensures r.Ok? ==> r.value == BreakdownOf(rows)
    ensures r == Err(NoRows) <==> rows == []
    ensures r == Err(NotOneInference) ==> !DistinctProfiles(rows)
    ensures r == Err(PhasesExceedLatency) ==> exists row | row in rows :: Accounted(row) > row.latency
  {
    if rows == [] {
      return Err(NoRows);
    }
    var groups := ProfileGroups(rows);
    var representatives := Representatives(groups);
    var kept: seq<Row> := [];
    for i := 0 to |groups|
      invariant forall j | 0 <= j < i :: |groups[j].rows| == 1
      invariant kept == representatives[..i]
      invariant forall row | row in kept :: Accounted(row) <= row.latency
    {
      if |groups[i].rows| != 1 {
        return Err(NotOneInference);
      }
      var row := groups[i].rows[0];
      if Accounted(row) > row.latency {
        GroupRowsAreRows(rows, |rows|, i, 0);
        return Err(PhasesExceedLatency);
      }
      kept := kept + [row];
    }
    assert kept == rows;
    r := Ok(BreakdownOf(kept));
  }

  // ----- conservation -----

  lemma {:induction false} SumOfPercentages(means: seq<real>, total: real)
    ensures Sum(Percentages(means, total)) == if total != 0.0 then Sum(means) * 100.0 / total else 0.0
  {
    if means != [] {
      SumOfPercentages(means[1..], total);
      assert Percentages(means, total)[1..] == Percentages(means[1..], total);
      if total != 0.0 {
        AddQuotients(means[0] * 100.0, Sum(means[1..]) * 100.0, total);
      }
    }
  }

  lemma WholeInPercent(total: real)
    requires total != 0.0
    ensures total * 100.0 / total == 100.0
  {
  }

  lemma PartMeansSum(rows: seq<Row>)
    requires Accepted(rows)
    ensures Sum(MeansOf(rows, AllParts(), Time)) == MeanOf(rows, Latency)
  {
    forall row | row in rows
      ensures SumOver(AllParts(), part => Time(row, part)) == Latency(row)
    {
      PartsSumToLatency(row);
    }
    MeansSum(rows, AllParts(), Time, Latency);
  }

  /** The aggregate means sum to the end-to-end mean, and the percentages to 100 unless that mean is 0. */
  lemma TimeIsConserved(rows: seq<Row>)
    requires Accepted(rows)
    ensures Sum(BreakdownOf(rows).aggregates) == BreakdownOf(rows).endToEnd
    ensures Sum(BreakdownOf(rows).percentages) == if BreakdownOf(rows).endToEnd != 0.0 then 100.0 else 0.0
  {
    PartMeansSum(rows);
    SharesSum(MeansOf(rows, AllParts(), Time), MeanOf(rows, Latency));
  }

  lemma SharesSum(means: seq<real>, total: real)
    requires Sum(means) == total
    ensures Sum(Percentages(means, total)) == if total != 0.0 then 100.0 else 0.0
  {
    SumOfPercentages(means, total);
    if total != 0.0 {
      WholeInPercent(total);
    }
  }

  lemma PhaseMeansSum(rows: seq<Row>)
    requires rows != []
    ensures Sum(MeansOf(rows, AllPhases(), PhaseTime)) == MeanOf(rows, Phases)
  {
    forall row | row in rows
      ensures SumOver(AllPhases(), phase => PhaseTime(row, phase)) == Phases(row)
    {
      SumOverEqual(AllPhases(), phase => PhaseTime(row, phase), row.phase);
    }
    MeansSum(rows, AllPhases(), PhaseTime, Phases);
  }

  /**
  The detailed means of the eleven phases, with execution, extraction and the unprofiled rest, are
  all the time there is.
   */
  lemma PhasesAreConserved(rows: seq<Row>)
    requires Accepted(rows)
    ensures Sum(BreakdownOf(rows).detailed) + MeanOf(rows, Execution) + MeanOf(rows, Extract) + MeanOf(rows, Rest)
         == BreakdownOf(rows).endToEnd
  {
    PhaseMeansSum(rows);
    forall row | row in rows
      ensures Phases(row) + Execution(row) + Extract(row) + Rest(row) == Latency(row)
    {
      EveryPhaseOnce(row);
    }
    MeanOfFour(rows, Phases, Execution, Extract, Rest, Latency);
  }

  lemma MeanOfFour(rows: seq<Row>, a: Row -> int, b: Row -> int, c: Row -> int, d: Row -> int, total: Row -> int)
    requires rows != []
    requires forall row | row in rows :: a(row) + b(row) + c(row) + d(row) == total(row)
    ensures MeanOf(rows, a) + MeanOf(rows, b) + MeanOf(rows, c) + MeanOf(rows, d) == MeanOf(rows, total)
  {
    var ab, cd := row => a(row) + b(row), row => c(row) + d(row);
    SumOverPlus(rows, a, b, ab);
    SumOverPlus(rows, c, d, cd);
    SumOverPlus(rows, ab, cd, total);
    var n := |rows| as real;
    AddQuotients(SumOver(rows, a) as real, SumOver(rows, b) as real, n);
    AddQuotients(SumOver(rows, c) as real, SumOver(rows, d) as real, n);
    AddQuotients(SumOver(rows, ab) as real, SumOver(rows, cd) as real, n);
  }

  // ----- which part owns which column -----

  /** A measured column of a row: one of the phases, the execution or the extraction of outputs. */
  datatype Entry = OfPhase(phase: Phase) | OfExecution | OfExtract

  function Owner(column: Entry): Part {
    match column
    case OfPhase(RuntimeCreate) => RuntimeInitialization
    case OfPhase(EmuInit) => RuntimeInitialization
    case OfPhase(LoadableRead) => ModelLoading
    case OfPhase(RuntimeLoad) => ModelLoading
    case OfPhase(InputSetup) => BufferPreparation
    case OfPhase(OutputSetup) => BufferPreparation
    case OfExecution => RuntimeExecution
    case OfExtract => ResultHandling
    case OfPhase(OutputWrite) => ResultHandling
    case OfPhase(_) => Teardown
  }

  function EntryAt(k: int): Entry {
    if k < 11 then OfPhase(PhaseAt(k)) else if k == 11 then OfExecution else OfExtract
  }

  function AllEntries(): seq<Entry> { seq(13, k => EntryAt(k)) }

  function ColumnTime(row: Row, column: Entry): int {
    match column
    case OfPhase(phase) => row.phase(phase)
    case OfExecution => row.execution
    case OfExtract => row.extract
  }

  /** The time of a column where a part owns it. */
  function OwnedTime(row: Row, part: Part, column: Entry): int {
    if Owner(column) == part then ColumnTime(row, column) else 0
  }

  lemma {:induction false} SumOfThirteen<K>(keys: seq<K>, f: K -> int)
    requires |keys| == 13
    ensures SumOver(keys, f) == f(keys[0]) + f(keys[1]) + f(keys[2]) + f(keys[3]) + f(keys[4]) + f(keys[5])
                                + f(keys[6]) + f(keys[7]) + f(keys[8]) + f(keys[9]) + f(keys[10])
                                + f(keys[11]) + f(keys[12])
  {
    SumOfEleven(keys[..11], f);
    assert keys == keys[..11] + keys[11..];
    SumOverConcat(keys[..11], keys[11..], f);
    SumOfTwo(keys[11..], f);
  }

  /** A part of a row is the sum of exactly the columns it owns. */
  lemma {:induction false} PartIsItsColumns(row: Row, part: Part)
    requires part != Unprofiled
    ensures Time(row, part) == SumOver(AllEntries(), column => OwnedTime(row, part, column))
  {
    SumOfThirteen(AllEntries(), column => OwnedTime(row, part, column));
  }

  function TimeOf(part: Part): Row -> int {
    row => Time(row, part)
  }

  function TimeIn(phase: Phase): Row -> int {
    (row: Row) => row.phase(phase)
  }

  lemma {:induction false} MeansAt<K>(rows: seq<Row>, keys: seq<K>, f: (Row, K) -> int, k: nat, g: Row -> int)
    requires rows != [] && k < |keys| && forall row | row in rows :: f(row, keys[k]) == g(row)
    ensures MeansOf(rows, keys, f)[k] == MeanOf(rows, g)
  {
    SumOverEqual(rows, row => f(row, keys[k]), g);
  }

  lemma {:induction false} AggregateIs(rows: seq<Row>, k: nat)
    requires rows != [] && k < 7
    ensures BreakdownOf(rows).aggregates[k] == MeanOf(rows, TimeOf(PartAt(k)))
  {
    MeansAt(rows, AllParts(), Time, k, TimeOf(PartAt(k)));
  }

  lemma {:induction false} DetailIs(rows: seq<Row>, k: nat)
    requires rows != [] && k < 11
    ensures BreakdownOf(rows).detailed[k] == MeanOf(rows, TimeIn(PhaseAt(k)))
  {
    MeansAt(rows, AllPhases(), PhaseTime, k, TimeIn(PhaseAt(k)));
  }

  // ----- moving time between columns -----

  /** The row with `d` more in one column, and the same latency. */
  function Charged(row: Row, column: Entry, d: int): Row {
    match column
    case OfPhase(phase) => row.(phase := p => if p == phase then row.phase(p) + d else row.phase(p))
    case OfExecution => row.(execution := row.execution + d)
    case OfExtract => row.(extract := row.extract + d)
  }

  /** What charging `d` to a column adds to a part: all of it to its owner, and less of it unprofiled. */
  function Share(part: Part, column: Entry, d: int): int {
    if part == Owner(column) then d else if part == Unprofiled then -d else 0
  }

  lemma {:induction false} ChargedColumn(row: Row, column: Entry, d: int, other: Entry)
    ensures ColumnTime(Charged(row, column, d), other) == ColumnTime(row, other) + if other == column then d else 0
  {
  }

  lemma {:induction false} ChargedSum(row: Row, column: Entry, d: int, part: Part, columns: seq<Entry>)
    requires forall i, j | 0 <= i < j < |columns| :: columns[i] != columns[j]
    ensures SumOver(columns, c => OwnedTime(Charged(row, column, d), part, c))
         == SumOver(columns, c => OwnedTime(row, part, c)) + if column in columns && Owner(column) == part then d else 0
  {
    if columns != [] {
      ChargedSum(row, column, d, part, columns[1..]);
      ChargedColumn(row, column, d, columns[0]);
    }
  }

  lemma {:induction false} EntriesAreAll(column: Entry)
    ensures column in AllEntries()
    ensures forall i, j | 0 <= i < j < 13 :: AllEntries()[i] != AllEntries()[j]
  {
    var k := match column {
      case OfPhase(RuntimeCreate) => 0
      case OfPhase(LoadableRead) => 1
      case OfPhase(RuntimeLoad) => 2
      case OfPhase(EmuInit) => 3
      case OfPhase(InputSetup) => 4
      case OfPhase(OutputSetup) => 5
      case OfPhase(OutputWrite) => 6
      case OfPhase(BufferCleanup) => 7
      case OfPhase(EmuStop) => 8
      case OfPhase(RuntimeUnload) => 9
      case OfPhase(RuntimeDestroy) => 10
      case OfExecution => 11
      case OfExtract => 12
    };
    assert AllEntries()[k] == column;
  }

  lemma {:induction false} ChargeOwner(row: Row, column: Entry, d: int, part: Part)
    requires part != Unprofiled
    ensures Time(Charged(row, column, d), part) == Time(row, part) + if part == Owner(column) then d else 0
  {
    PartIsItsColumns(row, part);
    PartIsItsColumns(Charged(row, column, d), part);
    EntriesAreAll(column);
    ChargedSum(row, column, d, part, AllEntries());
  }

  lemma {:induction false} ChargeAccounted(row: Row, column: Entry, d: int)
    ensures Accounted(Charged(row, column, d)) == Accounted(row) + d
  {
    ChargeOwner(row, column, d, RuntimeInitialization);
    ChargeOwner(row, column, d, ModelLoading);
    ChargeOwner(row, column, d, BufferPreparation);
    ChargeOwner(row, column, d, RuntimeExecution);
    ChargeOwner(row, column, d, ResultHandling);
    ChargeOwner(row, column, d, Teardown);
    assert Owner(column) != Unprofiled;
  }

  lemma {:induction false} ChargeMoves(row: Row, column: Entry, d: int, part: Part)
    requires Accounted(row) <= row.latency && Accounted(row) + d <= row.latency
    ensures Time(Charged(row, column, d), part) == Time(row, part) + Share(part, column, d)
  {
    if part == Unprofiled {
      ChargeAccounted(row, column, d);
    } else {
      ChargeOwner(row, column, d, part);
    }
  }

  lemma {:induction false} SumUpdated<K>(keys: seq<K>, i: nat, key: K, f: K -> int)
    requires i < |keys|
    ensures SumOver(keys[i := key], f) == SumOver(keys, f) + f(key) - f(keys[i])
  {
    if i > 0 {
      assert keys[i := key][1..] == keys[1..][i - 1 := key];
      SumUpdated(keys[1..], i - 1, key, f);
    } else {
      assert keys[0 := key][1..] == keys[1..];
    }
  }

  lemma {:induction false} MeanUpdated(rows: seq<Row>, i: nat, row: Row, f: Row -> int, d: int)
    requires i < |rows| && f(row) == f(rows[i]) + d
    ensures MeanOf(rows[i := row], f) == MeanOf(rows, f) + d as real / |rows| as real
  {
    SumUpdated(rows, i, row, f);
    AddQuotients(SumOver(rows, f) as real, d as real, |rows| as real);
  }

  lemma {:induction false} ChargedMean(rows: seq<Row>, i: nat, column: Entry, d: int, k: nat)
    requires i < |rows| && k < 7
    requires Accounted(rows[i]) <= rows[i].latency && Accounted(rows[i]) + d <= rows[i].latency
    ensures BreakdownOf(rows[i := Charged(rows[i], column, d)]).aggregates[k]
         == BreakdownOf(rows).aggregates[k] + Share(PartAt(k), column, d) as real / |rows| as real
  {
    var row := Charged(rows[i], column, d);
    ChargeMoves(rows[i], column, d, PartAt(k));
    AggregateIs(rows, k);
    AggregateIs(rows[i := row], k);
    MeanUpdated(rows, i, row, TimeOf(PartAt(k)), Share(PartAt(k), column, d));
  }

  lemma {:induction false} ChargedEnd(rows: seq<Row>, i: nat, column: Entry, d: int)
    requires i < |rows|
    ensures BreakdownOf(rows[i := Charged(rows[i], column, d)]).endToEnd == BreakdownOf(rows).endToEnd
  {
    MeanUpdated(rows, i, Charged(rows[i], column, d), Latency, 0);
  }

  /**
  Charging `d` more to one column of one row, within its latency, moves d / |rows| from the
  unprofiled mean to the mean of the part that owns the column, and changes nothing else.
   */
  lemma {:induction false} ChargeGoesToOwner(rows: seq<Row>, i: nat, column: Entry, d: int, k: nat)
    requires Accepted(rows) && i < |rows| && k < 7 && Accounted(rows[i]) + d <= rows[i].latency
    ensures Accepted(rows[i := Charged(rows[i], column, d)])
    ensures BreakdownOf(rows[i := Charged(rows[i], column, d)]).endToEnd == BreakdownOf(rows).endToEnd
    ensures BreakdownOf(rows[i := Charged(rows[i], column, d)]).aggregates[k]
         == BreakdownOf(rows).aggregates[k] + Share(PartAt(k), column, d) as real / |rows| as real
  {
    assert rows[i] in rows;
    ChargeAccounted(rows[i], column, d);
    StillAccepted(rows, i, Charged(rows[i], column, d));
    ChargedMean(rows, i, column, d, k);
    ChargedEnd(rows, i, column, d);
  }

  lemma {:induction false} StillAccepted(rows: seq<Row>, i: nat, row: Row)
    requires Accepted(rows) && i < |rows| && Accounted(row) <= row.latency
    requires row.session == rows[i].session && row.profile == rows[i].profile
    ensures Accepted(rows[i := row])
  {
  }

  /** And the detailed mean of a phase changes only with that phase. */
  lemma {:induction false} ChargeShowsInDetail(rows: seq<Row>, i: nat, column: Entry, d: int, k: nat)
    requires i < |rows| && k < 11
    ensures BreakdownOf(rows[i := Charged(rows[i], column, d)]).detailed[k]
         == BreakdownOf(rows).detailed[k] + (if column == OfPhase(PhaseAt(k)) then d else 0) as real / |rows| as real
  {
    var row, change := Charged(rows[i], column, d), if column == OfPhase(PhaseAt(k)) then d else 0;
    DetailIs(rows, k);
    DetailIs(rows[i := row], k);
    ChargedColumn(rows[i], column, d, OfPhase(PhaseAt(k)));
    MeanUpdated(rows, i, row, TimeIn(PhaseAt(k)), change);
  }

  /** Each percentage is the share of its own part. */
  lemma {:induction false} PercentagesAreShares(rows: seq<Row>, k: nat)
    requires rows != [] && k < 7
    ensures var breakdown := BreakdownOf(rows);
            if breakdown.endToEnd == 0.0 then breakdown.percentages[k] == 0.0
            else breakdown.percentages[k] * breakdown.endToEnd == breakdown.aggregates[k] * 100.0
  {
  }

  // ----- steady runs -----

  datatype Steady = Steady(execution: real, handling: real, observed: real, percentages: seq<real>)

  /** Steady profiles have many measured inferences; nothing guards the division by the observed mean. */
  method SummarizeSteady(rows: seq<Row>) returns (r: Result<Steady, PhaseError>)
    ensures r == Err(NoRows) <==> rows == []
    ensures r == Err(NothingObserved) <==> rows != [] && MeanOf(rows, Observed) == 0.0
    ensures r.Ok? ==>
              && rows != []
              && r.value.observed == MeanOf(rows, Observed)
              && r.value.execution + r.value.handling == r.value.observed
              && r.value.execution == MeanOf(rows, Execution)
              && |r.value.percentages| == 2 && Sum(r.value.percentages) == 100.0
              && r.value.percentages[0] * r.value.observed == r.value.execution * 100.0
  {
    if rows == [] {
      return Err(NoRows);
    }
    var execution, handling := MeanOf(rows, Execution), MeanOf(rows, Extract);
    var observed := execution + handling;
    MeanOfTwo(rows, Execution, Extract, Observed);
    if observed == 0.0 {
      return Err(NothingObserved);
    }
    SharesOfTwo(execution, handling, observed);
    r := Ok(Steady(execution, handling, observed, [execution * 100.0 / observed, handling * 100.0 / observed]));
  }

  lemma MeanOfTwo(rows: seq<Row>, a: Row -> int, b: Row -> int, total: Row -> int)
    requires rows != [] && forall row | row in rows :: a(row) + b(row) == total(row)
    ensures MeanOf(rows, a) + MeanOf(rows, b) == MeanOf(rows, total)
  {
    SumOverPlus(rows, a, b, total);
    AddQuotients(SumOver(rows, a) as real, SumOver(rows, b) as real, |rows| as real);
  }

  lemma SharesOfTwo(a: real, b: real, total: real)
    requires a + b == total && total != 0.0
    ensures Sum([a * 100.0 / total, b * 100.0 / total]) == 100.0
    ensures a * 100.0 / total * total == a * 100.0
  {
    var shares := [a * 100.0 / total, b * 100.0 / total];
    assert Sum(shares[1..]) == shares[1];
    AddQuotients(a * 100.0, b * 100.0, total);
    WholeInPercent(total);
  }
}
