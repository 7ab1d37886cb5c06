/**
Power evidence: the rows of a sampler file grouped into sweeps, and the sweeps into one trace per
rail, per domain, and for everything monitored.
 */
module PowerEvidence {
  import opened Arithmetic
  import opened Lists
  import opened Outcomes
  import opened PowerTrace

  datatype Row = Row(sample: int, timestamp: int, domain: string, rail: string, powerUw: int)

  function Watts(row: Row): real {
    row.powerUw as real / 1_000_000.0
  }

  function RailKey(row: Row): string {
    row.domain + ":" + row.rail
  }

  // ----- insertion-ordered dictionaries of watts -----

  type Dict = seq<(string, real)>

  function Keys(dict: Dict): set<string> {
    set i | 0 <= i < |dict| :: dict[i].0
  }

  predicate DistinctKeys(dict: Dict) {
    forall i, j | 0 <= i < j < |dict| :: dict[i].0 != dict[j].0
  }

  function Value(dict: Dict, key: string): real {
    if dict == [] then 0.0 else if dict[0].0 == key then dict[0].1 else Value(dict[1..], key)
  }

  /** The dictionary with `watts` added to the entry of `key`, which is created if missing. */
  function Accumulate(dict: Dict, key: string, watts: real): Dict {
    if dict == [] then [(key, watts)]
    else if dict[0].0 == key then [(key, dict[0].1 + watts)] + dict[1..]
    else [dict[0]] + Accumulate(dict[1..], key, watts)
  }

  function Total(dict: Dict): real {
    if dict == [] then 0.0 else dict[0].1 + Total(dict[1..])
  }

  lemma {:induction false} AccumulateFacts(dict: Dict, key: string, watts: real)
    ensures Total(Accumulate(dict, key, watts)) == Total(dict) + watts
    ensures Keys(Accumulate(dict, key, watts)) == Keys(dict) + {key}
    ensures DistinctKeys(dict) ==> DistinctKeys(Accumulate(dict, key, watts))
  {
    var after := Accumulate(dict, key, watts);
    if dict == [] {
    } else if dict[0].0 == key {
      assert forall i | 0 <= i < |dict| :: after[i].0 == dict[i].0;
    } else {
      var rest := dict[1..];
      AccumulateFacts(rest, key, watts);
      KeysOfCons(dict[0], rest);
      KeysOfCons(dict[0], Accumulate(rest, key, watts));
      assert dict == [dict[0]] + rest;
      if DistinctKeys(dict) {
        assert DistinctKeys(rest) && dict[0].0 !in Keys(rest);
        DistinctCons(dict[0], Accumulate(rest, key, watts));
      }
    }
  }

  /** Accumulating adds the watts to its own key and to no other. */
  lemma {:induction false} AccumulateValue(dict: Dict, key: string, watts: real, k: string)
    ensures Value(Accumulate(dict, key, watts), k) == Value(dict, k) + if k == key then watts else 0.0
  {
    if dict != [] && dict[0].0 != key {
      AccumulateValue(dict[1..], key, watts, k);
    }
  }

  lemma KeysOfCons(entry: (string, real), dict: Dict)
    ensures Keys([entry] + dict) == {entry.0} + Keys(dict)
  {
    var whole := [entry] + dict;
    assert whole[0] == entry && forall i | 0 <= i < |dict| :: whole[i + 1] == dict[i];
  }

  lemma DistinctCons(entry: (string, real), dict: Dict)
    requires DistinctKeys(dict) && entry.0 !in Keys(dict)
    ensures DistinctKeys([entry] + dict)
  {
    var whole := [entry] + dict;
    forall i, j | 0 <= i < j < |whole|
      ensures whole[i].0 != whole[j].0
    {
      assert whole[j] == dict[j - 1];
      if i > 0 { assert whole[i] == dict[i - 1]; }
    }
  }

  // ----- sums over an enumeration of keys -----

  function SumValues(dict: Dict, keys: seq<string>): real {
    if keys == [] then 0.0 else Value(dict, keys[0]) + SumValues(dict, keys[1..])
  }

  predicate Distinct(keys: seq<string>) {
    forall i, j | 0 <= i < j < |keys| :: keys[i] != keys[j]
  }

  lemma {:induction false} SumValuesCons(entry: (string, real), dict: Dict, keys: seq<string>)
    requires Distinct(keys) && entry.0 !in Keys(dict)
    ensures SumValues([entry] + dict, keys) == SumValues(dict, keys) + if entry.0 in keys then entry.1 else 0.0
  {
    assert ([entry] + dict)[1..] == dict;
    if keys != [] {
      SumValuesCons(entry, dict, keys[1..]);
      if keys[0] == entry.0 {
        assert entry.0 !in keys[1..];
        ValueMissing(dict, entry.0);
      }
    }
  }

  lemma {:induction false} ValueMissing(dict: Dict, key: string)
    requires key !in Keys(dict)
    ensures Value(dict, key) == 0.0
  {
    if dict != [] {
      KeysOfCons(dict[0], dict[1..]);
      assert dict == [dict[0]] + dict[1..];
      ValueMissing(dict[1..], key);
    }
  }

  lemma {:induction false} SumNothing(keys: seq<string>)
    ensures SumValues([], keys) == 0.0
  {
    if keys != [] {
      SumNothing(keys[1..]);
    }
  }

  /** Over any enumeration of the keys, the values sum to the total. */
  lemma {:induction false} SumIsTotal(dict: Dict, keys: seq<string>)
    requires DistinctKeys(dict) && Distinct(keys)
    requires forall key :: key in Keys(dict) ==> key in keys
    ensures SumValues(dict, keys) == Total(dict)
  {
    if dict == [] {
      SumNothing(keys);
    } else {
      var rest := dict[1..];
      assert dict == [dict[0]] + rest;
      KeysOfCons(dict[0], rest);
      assert dict[0].0 !in Keys(rest);
      SumIsTotal(rest, keys);
      SumValuesCons(dict[0], rest, keys);
    }
  }

  // ----- sweeps -----

  datatype Sweep = Sweep(timestamp: int, domains: Dict, rails: Dict)

  datatype ParseError =
    | InconsistentTimestamp(row: nat)
    | DuplicateRail(row: nat)
    | RailSetChanged

  /** Equal up to a relative tolerance of 1e-9. */
  predicate IsClose(a: int, b: int) {
    Abs(a - b) * 1_000_000_000 <= Max(Abs(a), Abs(b))
  }

  /** Below a second of nanoseconds only equal timestamps are close ... */
  lemma CloseBelowTolerance(a: int, b: int)
    requires 0 <= a < 1_000_000_000 && 0 <= b < 1_000_000_000
    ensures IsClose(a, b) <==> a == b
  {
  }

  /** ... and from then on neighbours are. */
  lemma CloseNeighbours(a: int)
    requires a >= 999_999_999
    ensures IsClose(a, a + 1) && IsClose(a + 1, a)
  {
  }

  function Abs(x: int): int { if x < 0 then -x else x }

  /** The rows of one sweep among the first n, in file order. */
  function RowsBefore(rows: seq<Row>, n: nat, sample: int): seq<Row>
    requires n <= |rows|
  {
    if n == 0 then []
    else RowsBefore(rows, n - 1, sample) + (if rows[n - 1].sample == sample then [rows[n - 1]] else [])
  }

  /** The rows of one sweep. */
  function RowsOf(rows: seq<Row>, sample: int): seq<Row> {
    RowsBefore(rows, |rows|, sample)
  }

  function DomainSums(rows: seq<Row>): Dict {
    if rows == [] then []
    else
      var n := |rows| - 1;
      Accumulate(DomainSums(rows[..n]), rows[n].domain, Watts(rows[n]))
  }

  function RailReadings(rows: seq<Row>): Dict {
    if rows == [] then []
    else
      var n := |rows| - 1;
      RailReadings(rows[..n]) + [(RailKey(rows[n]), Watts(rows[n]))]
  }

  function SweepOf(rows: seq<Row>): Sweep
    requires rows != []
  {
    Sweep(rows[0].timestamp, DomainSums(rows), RailReadings(rows))
  }

  predicate HasSweep(sweeps: map<int, Sweep>, rows: seq<Row>, n: nat, sample: int)
    requires n <= |rows|
  {
    var own := RowsBefore(rows, n, sample);
    (sample in sweeps <==> own != []) && (sample in sweeps ==> sweeps[sample] == SweepOf(own))
  }

  /** One sweep per sample index, made of exactly the first n rows with that index. */
  ghost predicate Groups(sweeps: map<int, Sweep>, rows: seq<Row>, n: nat)
    requires n <= |rows|
  {
    forall sample: int :: HasSweep(sweeps, rows, n, sample)
  }

  /** Row i does not contradict the earlier rows of its sweep. */
  predicate Consistent(rows: seq<Row>, i: nat)
    requires i < |rows|
  {
    var earlier := RowsBefore(rows, i, rows[i].sample);
    earlier != [] ==>
      && IsClose(earlier[0].timestamp, rows[i].timestamp)
      && RailKey(rows[i]) !in Keys(RailReadings(earlier))
  }

  /** Row j is the first row of the sweep of row i. */
  predicate IsFirstOf(rows: seq<Row>, j: nat, i: nat)
    requires j < i < |rows|
  {
    rows[j].sample == rows[i].sample && forall k | 0 <= k < j :: rows[k].sample != rows[i].sample
  }

  lemma {:induction false} FirstRow(rows: seq<Row>, n: nat, sample: int)
    requires n <= |rows|
    ensures RowsBefore(rows, n, sample) == [] <==> forall j | 0 <= j < n :: rows[j].sample != sample
    ensures forall j | 0 <= j < n && rows[j].sample == sample && (forall k | 0 <= k < j :: rows[k].sample != sample) ::
              RowsBefore(rows, n, sample)[0] == rows[j]
  {
    if n > 0 {
      FirstRow(rows, n - 1, sample);
    }
  }

  lemma {:induction false} KeyOfAppended(readings: Dict, entry: (string, real), key: string)
    ensures key in Keys(readings + [entry]) <==> key in Keys(readings) || key == entry.0
  {
    var all := readings + [entry];
    assert all[|readings|] == entry && forall i | 0 <= i < |readings| :: all[i] == readings[i];
  }

  /** One of the first n rows reads this rail in this sweep. */
  predicate ReadsRail(rows: seq<Row>, n: nat, sample: int, key: string)
    requires n <= |rows|
  {
    exists j | 0 <= j < n :: rows[j].sample == sample && RailKey(rows[j]) == key
  }

  lemma {:induction false} ReadsRailNext(rows: seq<Row>, n: nat, sample: int, key: string)
    requires n < |rows|
    ensures ReadsRail(rows, n + 1, sample, key)
       <==> ReadsRail(rows, n, sample, key) || (rows[n].sample == sample && RailKey(rows[n]) == key)
  {
  }

  /** The sweep's readings so far hold this rail. */
  predicate HoldsRail(rows: seq<Row>, n: nat, sample: int, key: string)
    requires n <= |rows|
  {
    key in Keys(RailReadings(RowsBefore(rows, n, sample)))
  }

  lemma {:induction false} HoldsRailNext(rows: seq<Row>, n: nat, sample: int, key: string)
    requires n < |rows|
    ensures HoldsRail(rows, n + 1, sample, key)
       <==> HoldsRail(rows, n, sample, key) || (rows[n].sample == sample && RailKey(rows[n]) == key)
  {
    var earlier, row := RowsBefore(rows, n, sample), rows[n];
    NothingMore(earlier);
    if row.sample == sample {
      SweepNext(earlier, row);
      KeyOfAppended(RailReadings(earlier), (RailKey(row), Watts(row)), key);
    }
  }

  lemma {:induction false} RailRead(rows: seq<Row>, n: nat, sample: int, key: string)
    requires n <= |rows|
    ensures HoldsRail(rows, n, sample, key) <==> ReadsRail(rows, n, sample, key)
  {
    if n > 0 {
      RailRead(rows, n - 1, sample, key);
      ReadsRailNext(rows, n - 1, sample, key);
      HoldsRailNext(rows, n - 1, sample, key);
    }
  }

  /** A row is consistent exactly when it is close in time to the first of its index and its rail is new there. */
  lemma {:induction false} ConsistentIff(rows: seq<Row>, i: nat)
    requires i < |rows|
    ensures Consistent(rows, i)
       <==> && (forall j | 0 <= j < i && IsFirstOf(rows, j, i) :: IsClose(rows[j].timestamp, rows[i].timestamp))
            && (forall j | 0 <= j < i && rows[j].sample == rows[i].sample :: RailKey(rows[j]) != RailKey(rows[i]))
  {
    FirstRow(rows, i, rows[i].sample);
    RailRead(rows, i, rows[i].sample, RailKey(rows[i]));
    if RowsBefore(rows, i, rows[i].sample) != [] {
      var j := FirstOf(rows, i, rows[i].sample);
      assert IsFirstOf(rows, j, i);
    }
  }

  lemma {:induction false} FirstOf(rows: seq<Row>, n: nat, sample: int) returns (j: nat)
    requires n <= |rows| && RowsBefore(rows, n, sample) != []
    ensures j < n && rows[j].sample == sample && forall k | 0 <= k < j :: rows[k].sample != sample
  {
    if RowsBefore(rows, n - 1, sample) != [] {
      j := FirstOf(rows, n - 1, sample);
    } else {
      FirstRow(rows, n - 1, sample);
      j := n - 1;
    }
  }

  /** The error names what its row contradicts: the time of its sweep, or else a rail it has already read. */
  predicate IsErrorOf(error: ParseError, rows: seq<Row>) {
    match error
    case RailSetChanged => false
    case InconsistentTimestamp(i) =>
      && i < |rows|
      && var earlier := RowsBefore(rows, i, rows[i].sample);
         earlier != [] && !IsClose(earlier[0].timestamp, rows[i].timestamp)
    case DuplicateRail(i) =>
      && i < |rows|
      && var earlier := RowsBefore(rows, i, rows[i].sample);
         && earlier != [] && IsClose(earlier[0].timestamp, rows[i].timestamp)
         && RailKey(rows[i]) in Keys(RailReadings(earlier))
  }

  lemma SweepNext(earlier: seq<Row>, row: Row)
    ensures DomainSums(earlier + [row]) == Accumulate(DomainSums(earlier), row.domain, Watts(row))
    ensures RailReadings(earlier + [row]) == RailReadings(earlier) + [(RailKey(row), Watts(row))]
  {
    assert (earlier + [row])[..|earlier|] == earlier;
  }

  /** The sweeps after one more consistent row. */
  function AddRow(sweeps: map<int, Sweep>, row: Row): map<int, Sweep> {
    var sweep := if row.sample in sweeps then sweeps[row.sample] else Sweep(row.timestamp, [], []);
    sweeps[row.sample := Sweep(sweep.timestamp,
                               Accumulate(sweep.domains, row.domain, Watts(row)),
                               sweep.rails + [(RailKey(row), Watts(row))])]
  }

  lemma HasSweepNext(sweeps: map<int, Sweep>, rows: seq<Row>, i: nat, sample: int)
    requires i < |rows| && HasSweep(sweeps, rows, i, sample)
    ensures HasSweep(AddRow(sweeps, rows[i]), rows, i + 1, sample)
  {
    var row, earlier := rows[i], RowsBefore(rows, i, sample);
    if sample == row.sample {
      var own := earlier + [row];
      SweepNext(earlier, row);
      assert own[0] == if earlier == [] then row else earlier[0];
      assert earlier == [] ==> DomainSums(earlier) == [] && RailReadings(earlier) == [];
      assert AddRow(sweeps, row)[sample] == SweepOf(own);
    } else {
      assert earlier + [] == earlier;
    }
  }

  lemma GroupsNext(sweeps: map<int, Sweep>, rows: seq<Row>, i: nat)
    requires i < |rows| && Groups(sweeps, rows, i)
    ensures Groups(AddRow(sweeps, rows[i]), rows, i + 1)
  {
    var after, next := AddRow(sweeps, rows[i]), i + 1;
    forall sample: int
      ensures HasSweep(after, rows, next, sample)
    {
      assert HasSweep(sweeps, rows, i, sample);
      HasSweepNext(sweeps, rows, i, sample);
    }
  }

  // ----- what a sweep says of each domain and each rail -----

  /** The microwatts of one domain in the rows of one index among the first n. */
  function DomainMicrowatts(rows: seq<Row>, n: nat, sample: int, domain: string): int
    requires n <= |rows|
  {
    if n == 0 then 0
    else DomainMicrowatts(rows, n - 1, sample, domain)
         + if rows[n - 1].sample == sample && rows[n - 1].domain == domain then rows[n - 1].powerUw else 0
  }

  lemma {:induction false} MillionthsAdd(a: int, b: int)
    ensures (a + b) as real / 1_000_000.0 == a as real / 1_000_000.0 + b as real / 1_000_000.0
  {
    AddQuotients(a as real, b as real, 1_000_000.0);
  }

  lemma {:induction false} DomainPower(rows: seq<Row>, n: nat, sample: int, domain: string)
    requires n <= |rows|
    ensures Value(DomainSums(RowsBefore(rows, n, sample)), domain)
         == DomainMicrowatts(rows, n, sample, domain) as real / 1_000_000.0
  {
    if n > 0 {
      var earlier, row := RowsBefore(rows, n - 1, sample), rows[n - 1];
      DomainPower(rows, n - 1, sample, domain);
      NothingMore(earlier);
      if row.sample == sample {
        SweepNext(earlier, row);
        AccumulateValue(DomainSums(earlier), row.domain, Watts(row), domain);
        if row.domain == domain {
          MillionthsAdd(DomainMicrowatts(rows, n - 1, sample, domain), row.powerUw);
        }
      }
    }
  }

  lemma {:induction false} ReadingOf(dict: Dict, j: nat)
    requires DistinctKeys(dict) && j < |dict|
    ensures Value(dict, dict[j].0) == dict[j].1
  {
    if j > 0 {
      ReadingOf(dict[1..], j - 1);
    }
  }

  /** Row i of an index is its rail's reading. */
  lemma {:induction false} RailReading(rows: seq<Row>, n: nat, i: nat) returns (j: nat)
    requires i < n <= |rows|
    ensures j < |RailReadings(RowsBefore(rows, n, rows[i].sample))|
    ensures RailReadings(RowsBefore(rows, n, rows[i].sample))[j] == (RailKey(rows[i]), Watts(rows[i]))
  {
    var earlier, last := RowsBefore(rows, n - 1, rows[i].sample), rows[n - 1];
    SweepNext(earlier, last);
    NothingMore(earlier);
    if i == n - 1 {
      j := |RailReadings(earlier)|;
    } else {
      j := RailReading(rows, n - 1, i);
    }
  }

  /** The sweep of one index reads every domain and every rail as its rows do. */
  ghost predicate IsMetered(domains: Dict, rails: Dict, rows: seq<Row>, sample: int) {
    && (forall domain :: Value(domains, domain) == DomainMicrowatts(rows, |rows|, sample, domain) as real / 1_000_000.0)
    && (forall i | 0 <= i < |rows| && rows[i].sample == sample ::
          Value(rails, RailKey(rows[i])) == rows[i].powerUw as real / 1_000_000.0)
  }

  lemma {:induction false} SweepIsMetered(rows: seq<Row>, sample: int)
    requires forall i | 0 <= i < |rows| :: Consistent(rows, i)
    ensures IsMetered(DomainSums(RowsOf(rows, sample)), RailReadings(RowsOf(rows, sample)), rows, sample)
  {
    forall domain
      ensures Value(DomainSums(RowsOf(rows, sample)), domain)
           == DomainMicrowatts(rows, |rows|, sample, domain) as real / 1_000_000.0
    {
      DomainPower(rows, |rows|, sample, domain);
    }
    RailsDistinct(rows, |rows|, sample);
    forall i | 0 <= i < |rows| && rows[i].sample == sample
      ensures Value(RailReadings(RowsOf(rows, sample)), RailKey(rows[i])) == rows[i].powerUw as real / 1_000_000.0
    {
      var j := RailReading(rows, |rows|, i);
      ReadingOf(RailReadings(RowsOf(rows, sample)), j);
    }
  }

  lemma {:induction false} SweepsAreMetered(sweeps: map<int, Sweep>, rows: seq<Row>)
    requires Groups(sweeps, rows, |rows|) && forall i | 0 <= i < |rows| :: Consistent(rows, i)
    ensures forall sample | sample in sweeps :: IsMetered(sweeps[sample].domains, sweeps[sample].rails, rows, sample)
  {
    forall sample | sample in sweeps
      ensures IsMetered(sweeps[sample].domains, sweeps[sample].rails, rows, sample)
    {
      assert HasSweep(sweeps, rows, |rows|, sample);
      SweepIsMetered(rows, sample);
    }
  }

  method GroupRows(rows: seq<Row>) returns (r: Result<map<int, Sweep>, ParseError>)
    ensures r.Ok? <==> forall i | 0 <= i < |rows| :: Consistent(rows, i)
    ensures r.Ok? ==> Groups(r.value, rows, |rows|)
    ensures r.Ok? ==> forall sample | sample in r.value ::
                        IsMetered(r.value[sample].domains, r.value[sample].rails, rows, sample)
    ensures r.Err? ==>
              && IsErrorOf(r.error, rows) && !Consistent(rows, r.error.row)
              && forall j | 0 <= j < r.error.row :: Consistent(rows, j)
  {
    var sweeps: map<int, Sweep> := map[];
    for i := 0 to |rows|
      invariant forall j | 0 <= j < i :: Consistent(rows, j)
      invariant Groups(sweeps, rows, i)
    {
      var row := rows[i];
      assert HasSweep(sweeps, rows, i, row.sample);
      GroupsNext(sweeps, rows, i);
      if row.sample in sweeps {
        if !IsClose(sweeps[row.sample].timestamp, row.timestamp) {
          assert !Consistent(rows, i);
          return Err(InconsistentTimestamp(i));
        }
        if RailKey(row) in Keys(sweeps[row.sample].rails) {
          assert !Consistent(rows, i);
          return Err(DuplicateRail(i));
        }
      }
      sweeps := AddRow(sweeps, row);
    }
    SweepsAreMetered(sweeps, rows);
    r := Ok(sweeps);
  }

  // ----- evidence: the sweeps of a file, in sample order -----

  /** The ordered list with `sample` in it. */
  function Insert(order: seq<int>, sample: int): seq<int> {
    if order == [] || sample < order[0] then [sample] + order
    else if sample == order[0] then order
    else [order[0]] + Insert(order[1..], sample)
  }

  lemma {:induction false} InsertFacts(order: seq<int>, sample: int)
    requires Ordered(order)
    ensures Ordered(Insert(order, sample))
    ensures forall s :: s in Insert(order, sample) <==> s == sample || s in order
  {
    if order != [] && order[0] < sample {
      InsertFacts(order[1..], sample);
      var rest := Insert(order[1..], sample);
      assert forall s :: s in order <==> s == order[0] || s in order[1..];
      assert forall i | 0 <= i < |rest| :: rest[i] in rest;
    }
  }

  method SortedSamples(rows: seq<Row>) returns (order: seq<int>)
    ensures Ordered(order)
    ensures forall sample :: sample in order <==> RowsOf(rows, sample) != []
    ensures order == [] <==> rows == []
  {
    order := [];
    for i := 0 to |rows|
      invariant Ordered(order)
      invariant forall sample :: sample in order <==> RowsBefore(rows, i, sample) != []
      invariant order == [] <==> i == 0
    {
      InsertFacts(order, rows[i].sample);
      order := Insert(order, rows[i].sample);
    }
  }

  type Evidence = seq<Sweep>

  predicate SameRails(evidence: Evidence) {
    forall i, j | 0 <= i < j < |evidence| :: Keys(evidence[i].rails) == Keys(evidence[j].rails)
  }

  ghost predicate IsSampleOrder(order: seq<int>, rows: seq<Row>) {
    Ordered(order) && forall sample :: sample in order <==> RowsOf(rows, sample) != []
  }

  /** `evidence` is the sweeps of `rows`, one per sample index, by increasing index. */
  ghost predicate IsEvidence(rows: seq<Row>, order: seq<int>, evidence: Evidence) {
    && IsSampleOrder(order, rows)
    && |evidence| == |order|
    && forall i | 0 <= i < |order| ::
         RowsOf(rows, order[i]) != [] && evidence[i] == SweepOf(RowsOf(rows, order[i]))
  }

  method FindRailChange(evidence: Evidence) returns (changed: Option<nat>)
    requires evidence != []
    ensures changed.None? ==> SameRails(evidence)
    ensures changed.Some? ==>
              changed.value < |evidence| && Keys(evidence[changed.value].rails) != Keys(evidence[0].rails)
  {
    var rails := Keys(evidence[0].rails);
    for i := 1 to |evidence|
      invariant forall j | 0 <= j < i :: Keys(evidence[j].rails) == rails
    {
      if Keys(evidence[i].rails) != rails {
        return Some(i);
      }
    }
    changed := None;
  }

  method Parse(rows: seq<Row>) returns (r: Result<Evidence, ParseError>, ghost order: seq<int>)
    ensures r.Ok? ==>
              && (forall i | 0 <= i < |rows| :: Consistent(rows, i))
              && r.value != [] && IsEvidence(rows, order, r.value) && SameRails(r.value)
              && forall i | 0 <= i < |order| :: IsMetered(r.value[i].domains, r.value[i].rails, rows, order[i])
    ensures r.Err? && !r.error.RailSetChanged? ==>
              && IsErrorOf(r.error, rows) && !Consistent(rows, r.error.row)
              && forall j | 0 <= j < r.error.row :: Consistent(rows, j)
    ensures r.Err? && r.error.RailSetChanged? ==>
              rows == [] || exists a, b :: RowsOf(rows, a) != [] && RowsOf(rows, b) != []
                                && Keys(SweepOf(RowsOf(rows, a)).rails) != Keys(SweepOf(RowsOf(rows, b)).rails)
  {
    order := [];
    var grouped := GroupRows(rows);
    if grouped.Err? {
      return Err(grouped.error), order;
    }
    var sweeps := grouped.value;
    var samples := SortedSamples(rows);
    if samples == [] {
      return Err(RailSetChanged), order;
    }
    forall i | 0 <= i < |samples|
      ensures HasSweep(sweeps, rows, |rows|, samples[i]) && samples[i] in sweeps
    {
      assert samples[i] in samples;
    }
    var evidence := seq(|samples|, i requires 0 <= i < |samples| => sweeps[samples[i]]);
    var changed := FindRailChange(evidence);
    if changed.Some? {
      ghost var a, b := samples[0], samples[changed.value];
      assert RowsOf(rows, a) != [] && RowsOf(rows, b) != []
             && Keys(SweepOf(RowsOf(rows, a)).rails) != Keys(SweepOf(RowsOf(rows, b)).rails);
      return Err(RailSetChanged), order;
    }
    order := samples;
    r := Ok(evidence);
  }

  // ----- what every parsed sweep satisfies -----

  predicate WellFormed(sweep: Sweep) {
    && DistinctKeys(sweep.rails) && DistinctKeys(sweep.domains)
    && Total(sweep.domains) == Total(sweep.rails)
    && sweep.rails != []
  }

  lemma {:induction false} TotalAppend(dict: Dict, entry: (string, real))
    ensures Total(dict + [entry]) == Total(dict) + entry.1
  {
    if dict == [] {
      assert dict + [entry] == [entry];
    } else {
      assert (dict + [entry])[1..] == dict[1..] + [entry];
      TotalAppend(dict[1..], entry);
    }
  }

  /** The watts of a sweep are the same counted by domain and by rail. */
  lemma {:induction false} DomainsAndRailsAgree(rows: seq<Row>)
    ensures Total(DomainSums(rows)) == Total(RailReadings(rows))
    ensures DistinctKeys(DomainSums(rows))
    ensures |RailReadings(rows)| == |rows|
  {
    if rows != [] {
      var n := |rows| - 1;
      DomainsAndRailsAgree(rows[..n]);
      AccumulateFacts(DomainSums(rows[..n]), rows[n].domain, Watts(rows[n]));
      TotalAppend(RailReadings(rows[..n]), (RailKey(rows[n]), Watts(rows[n])));
    }
  }

  lemma {:induction false} RailsDistinct(rows: seq<Row>, count: nat, sample: int)
    requires count <= |rows| && forall i | 0 <= i < count :: Consistent(rows, i)
    ensures DistinctKeys(RailReadings(RowsBefore(rows, count, sample)))
  {
    if count > 0 {
      var i := count - 1;
      RailsDistinct(rows, i, sample);
      var earlier := RowsBefore(rows, i, sample);
      if rows[i].sample == sample {
        SweepNext(earlier, rows[i]);
        var readings := RailReadings(earlier);
        assert Consistent(rows, i);
        assert earlier == [] ==> readings == [];
        assert forall j | 0 <= j < |readings| :: readings[j].0 in Keys(readings);
      } else {
        assert earlier + [] == earlier;
      }
    }
  }

  /** Every sweep of accepted evidence is well formed. */
  lemma EvidenceWellFormed(rows: seq<Row>, order: seq<int>, evidence: Evidence)
    requires forall i | 0 <= i < |rows| :: Consistent(rows, i)
    requires IsEvidence(rows, order, evidence)
    ensures forall i | 0 <= i < |evidence| :: WellFormed(evidence[i])
  {
    forall i | 0 <= i < |evidence|
      ensures WellFormed(evidence[i])
    {
      DomainsAndRailsAgree(RowsOf(rows, order[i]));
      RailsDistinct(rows, |rows|, order[i]);
    }
  }

  // ----- traces -----

  const MONITORED := "MONITORED"

  datatype Scope = Rail(key: string) | Domain(name: string)

  /** The samples a sweep appends to the trace of a scope. */
  function Contribution(sweep: Sweep, scope: Scope): Series {
    match scope
    case Rail(key) =>
      if key in Keys(sweep.rails) then [Sample(sweep.timestamp, Value(sweep.rails, key))] else []
    case Domain(name) =>
      (if name in Keys(sweep.domains) then [Sample(sweep.timestamp, Value(sweep.domains, name))] else [])
      + (if name == MONITORED then [Sample(sweep.timestamp, Total(sweep.rails))] else [])
  }

  function SeriesOf(evidence: Evidence, scope: Scope): Series {
    if evidence == [] then [] else Contribution(evidence[0], scope) + SeriesOf(evidence[1..], scope)
  }
}
