# Verified model of the NVDLA test framework's analysis core

The repository drives an NVDLA accelerator under a virtual platform and on a board, and decides from
the evidence of those runs whether a driver behaves, how long inferences take and how much energy
they use. This project models the algorithms that make those decisions and proves what they promise.

- **Differential trace equivalence** (`TraceCapture`, `TraceEvents`, `TraceNormalize`,
  `InterruptService`, `PolledService`, `InterruptBits`, `SequenceDiff`, `TraceCompare`,
  `TraceVerdict`). A log is captured as register transactions; repeated status reads are dropped
  through a map of last values per register, DMA addresses are masked, and the rest is split into a
  programming and an interrupt channel. Programming must match exactly; interrupts are scanned as
  read / acknowledge / clear-confirm cycles and compared by how often each bit was acknowledged.
  Data is text with a numeric value, as in the source: an acknowledge is compared as text and a zero
  as a number.
- **Power** (`PowerTrace`, `PowerAtTime`, `PowerEvidence`, `PowerSummary`, `PowerConservation`,
  `DomainConservation`, `SweepFiles`, `AmbiguousDomains`, `CpuPower`). Sampled rows become sweeps,
  sweeps become one piecewise-linear trace per rail and per domain and for all that is monitored,
  and each trace is clipped to the launch interval and integrated by trapezoids. Watts are reals and
  timestamps integers. A second importer does the same independently.
- **The sampling protocol** (`SamplerProtocol`, `SamplerEvidence`). Sampler, driver script and timed
  launcher are one interleaved step system over a ready file, a stop file and a monotonic clock.
- **Statistics and time accounting** (`OrderStatistics`, `PhaseAccounting`, `InputVariation`,
  `AxisTicks`): percentiles, Tukey fences and bootstrap intervals over the reals, the phases of cold
  and warm runs, the accuracy of balanced campaigns, and chart axes.
- **The flatbuffer protocol** (`Framing`, `FrameTransport`, `FlatbufProtocol`,
  `RuntimeSession`). Length-prefixed frames over a socket that delivers bytes in pieces of any size,
  with a Python and a C client, and a runtime that answers what it is asked.
- **The report scanner** (`MarkdownBlocks`, `TableRows`), **nested reads** (`NestedReads`) and the
  **chunked file comparison** (`FileComparison`).

Code that updates lists, dictionaries, buffers and counters is imperative here too: methods with
loops, proved against specification functions. The main results are lemmas about those functions.
`Outcomes`, `Lists` and `Arithmetic` hold result types and small facts that several modules use.

Some results differ from what the documentation or a first reading suggests:

- `docs/differential-vp-trace-strategy.md` lines 38-41 ask that every nonzero status read be acknowledged
  and followed by a zero status read. The scanner asks this of the normalised channel, where a read that
  repeats the remembered text is gone: a status read again before its acknowledge, or still set when it
  is read after it, goes unnoticed. `TraceCompare.AcceptedIffPolledService` says exactly which raw
  channels pass, and `RepeatedPollIsAbsorbed` and `UnclearedIsAbsorbed` give the two kinds of channel
  that pass although the scanner rejects them as they are.
- Power is always conserved over rails. A rail is identified by `domain:rail`, so rail `B` of domain
  `PS:A` and rail `A:B` of domain `PS` are the same rail to the importer, and a domain can be missing
  from some sweeps. Its trace then interpolates a power that no sensor read, and the domains exceed what
  is monitored by exactly the energy of that power. With positive readings they add up exactly when
  every sweep around the launch interval lists every domain; domain names without a colon are enough.
  `AmbiguousDomains` gives accepted files, of any length from four sweeps on, in which they do not.
- A domain called `MONITORED` would double every sample of that trace, and is always rejected.
- At most a quarter of the values, rounded down, can lie beyond each Tukey fence.
- The percentages of a cold or warm report sum to 100 exactly when the end-to-end mean is not zero,
  and are all zero otherwise; steady reports divide without that guard.
- The C client makes an output count of 0 from an empty reply, which the Python client rejects, and it
  does not see text after a zero byte. A session that ends well in C ends alike in Python exactly when no
  text reply holds "ERR" anywhere and the count is neither empty nor holds a zero byte.
- A launcher interval of zero length can be clipped, but the importers reject it as an interval.

## Model

| member | source | states |
|---|---|---|
| `TraceCapture.ParseVpTransactions` | tools/nvdla_test_framework/trace.py:57-89 | succeeds exactly when no line is malformed, with one event per transaction, in order, numbered from 0; otherwise the number of the first malformed line |
| `TraceCapture.SummarizeTrace` | tools/nvdla_test_framework/trace.py:126-139 | the counters of a list of events |
| `TraceCapture.SummaryCounts` | tools/nvdla_test_framework/trace.py:126-139 | each counter counts every event once, the register counter the CSB events, and the non-OK total exactly the responses other than ok |
| `TraceCapture.SummaryTallies` | tools/nvdla_test_framework/trace.py:126-139 | the counters are the multisets of interfaces, of interfaces with operations, of responses, and of the register names or offsets of the CSB events |
| `TraceCapture.CanonicalizeVpTrace` | tools/nvdla_test_framework/trace.py:142-203 | the streaming pass fails on the line the whole-log parser fails on, and otherwise gives the same summary, the CSB events renumbered, both raw logs and both event counts |
| `TraceCapture.RawTextsAre` | tools/nvdla_test_framework/trace.py:142-203 | a raw log is the texts of exactly the transactions of its interface, in order |
| `TraceCapture.CanonicalFileNormalizesAlike` | tools/nvdla_test_framework/trace.py:182-189 | the CSB event file holds everything the comparison reads: it normalises exactly as all events do |
| `TraceEvents.HexRoundTrip` | tools/nvdla_test_framework/trace.py:411 | a number printed in hexadecimal, with any leading zeros, has its value |
| `TraceNormalize.NormalizeCsbEvents` | tools/nvdla_test_framework/trace.py:261-308 | raises on the first DMA write whose data has no value and only then; otherwise the list is the records, in order, of exactly the CSB events that are no state read repeating the last one of its register, each with the fields of its event and only the data of DMA address writes masked; kept + collapsed = CSB events, masked writes are counted |
| `TraceNormalize.NormalFormIsRecords` | tools/nvdla_test_framework/trace.py:272-300 | the normal form of any trace is these records |
| `TraceNormalize.CleanIffCompliant` | tools/nvdla_test_framework/trace.py:245-258 | no error is reported exactly when every CSB event has response ok and every DMA address is zero where zero is allowed, or in range and a multiple of 4 |
| `TraceNormalize.ErrorsAreFaults` | tools/nvdla_test_framework/trace.py:240-258 | exactly the non-OK responses and the faults of DMA address writes are listed, each fault by its own condition on register and value |
| `TraceNormalize.NormalizeKeepsTransitions` | tools/nvdla_test_framework/trace.py:272-300 | per register the surviving reads are the raw ones without adjacent repeats and have no equal neighbours; other transactions all stay, in order; normalising twice changes nothing |
| `TraceNormalize.CollapseKeepsTransitions` | tools/nvdla_test_framework/trace.py:279-284 | from any remembered state, exactly the reads that repeat their register's last value go |
| `TraceNormalize.PollingInvariant` | tools/nvdla_test_framework/trace.py:279-284 | an extra state read that returns what that register's previous read returned, inserted anywhere, leaves the normal form identical |
| `TraceNormalize.RelocationInvariant` | tools/nvdla_test_framework/trace.py:294-299 | changing the data of any DMA address writes leaves the normal form identical |
| `TraceNormalize.ProjectionCommutes` | tools/nvdla_test_framework/trace.py:272-300 | collapsing and projecting onto a channel commute, because last values are kept per register |
| `TraceNormalize.NormalizeProjection` | tools/nvdla_test_framework/trace.py:386-390 | a channel of the normal form depends on that channel of the raw trace alone |
| `InterruptService.SummarizeInterruptService` | tools/nvdla_test_framework/trace.py:405-463 | raises exactly on data without a value; otherwise acknowledged are, in order, the values at exactly the positions where a nonzero read, a write of its text and a zero read stand, and the errors are, in order, what is wrong with each item, by position and reason |
| `InterruptService.AllAcknowledged` | tools/nvdla_test_framework/trace.py:409-453 | the same of the specified scan: resynchronising skips no full cycle and acknowledges nothing else |
| `InterruptService.AllErrors` | tools/nvdla_test_framework/trace.py:409-453 | and reports every item that answers or starts a cycle wrongly, once, and nothing else |
| `InterruptService.ScannerRecognises` | tools/nvdla_test_framework/trace.py:409-453 | no error is reported exactly when the list is a sequence of idle polls and full cycles; that decomposition is unique and its values are the acknowledged ones |
| `InterruptService.UnitsAccepted` | tools/nvdla_test_framework/trace.py:405-463 | every sequence of units is accepted with its own values, and 3 · batches + idle polls = length |
| `InterruptService.DecompositionUnique` | tools/nvdla_test_framework/trace.py:409-453 | two decompositions of one list are equal |
| `InterruptService.ScanUnits` | tools/nvdla_test_framework/trace.py:409-453 | scanning past correct service adds its values and no error to what follows |
| `InterruptService.ScanRaisesIff` | tools/nvdla_test_framework/trace.py:411 | the scanner raises exactly when some item's data has no value, whichever items it skips as confirmations |
| `InterruptBits.InterruptBitCounts` | tools/nvdla_test_framework/trace.py:393-402 | the loop over a shifting value counts the specified bits |
| `InterruptBits.CountedIffSet` | tools/nvdla_test_framework/trace.py:395-401 | bit k of a value is counted exactly when value / 2^k is odd |
| `InterruptBits.CoalescedBits` | tools/nvdla_test_framework/trace.py:393-402 | values with no common bit can be acknowledged together or apart |
| `InterruptBits.SameBitsIffPermutedSplits` | tools/nvdla_test_framework/trace.py:393-402 | two lists of values have the same counts exactly when, split into single bits, one is a permutation of the other |
| `InterruptBits.ValuesAreConserved` | tools/nvdla_test_framework/trace.py:393-402 | the counts weighed by 2^bit sum to the acknowledged values |
| `SequenceDiff.CompareSequence` | tools/nvdla_test_framework/trace.py:339-383 | match, first difference, multiset differences and the classified positions of two streams |
| `SequenceDiff.FirstDifference` | tools/nvdla_test_framework/trace.py:342-348 | none exactly when the streams are equal, otherwise the length of their longest common prefix |
| `SequenceDiff.ClassifyDifferences` | tools/nvdla_test_framework/trace.py:354-363 | the numbers of positions with other data at the same place, and with transactions that occur elsewhere in the other stream |
| `SequenceDiff.ReportBalances` | tools/nvdla_test_framework/trace.py:350-363 | reference + unexpected = candidate + missing, always; with neither missing nor unexpected, every differing position is counted once |
| `SequenceDiff.EveryDifferenceIsClassified` | tools/nvdla_test_framework/trace.py:354-363 | over permuted streams each differing position is either a value mismatch or reordered, never both |
| `SequenceDiff.DifferenceKinds` | tools/nvdla_test_framework/trace.py:354-363 | a counted position has other data at the same place, or two transactions that both stand at another position of the other stream |
| `SequenceDiff.ReportsMirror` | tools/nvdla_test_framework/trace.py:339-383 | the report on two streams in the other order has the same verdict and first difference, and mirrored counts |
| `TraceCompare.CompareInterruptService` | tools/nvdla_test_framework/trace.py:466-501 | match exactly when both streams are accepted with equal bit counts; missing and unexpected are the differences of the counts |
| `TraceCompare.CompareNormalizedTraces` | tools/nvdla_test_framework/trace.py:504-533 | match exactly when both channels match; the first mismatch is absent exactly then and otherwise that of the first differing channel; counts are sums over channels |
| `TraceCompare.ReportsAreSymmetric` | tools/nvdla_test_framework/trace.py:504-533 | swapping the traces keeps the error, the verdict and the first mismatch, and mirrors the counts |
| `TraceCompare.MatchesCompose` | tools/nvdla_test_framework/trace.py:504-533 | reports that match compose: the third comparison raises nothing and matches |
| `TraceCompare.ReportOnItself` | tools/nvdla_test_framework/trace.py:504-533 | a trace held against itself raises exactly on interrupt data without a value, matches exactly when its interrupts are accepted, and has no differences |
| `TraceCompare.NormalizingKeepsService` | tools/nvdla_test_framework/trace.py:261-308 | an accepted raw interrupt channel is still accepted after normalising, with the same acknowledged values |
| `PolledService.AcceptedIffPolled` | tools/nvdla_test_framework/trace.py:279-284 | from any state at rest, a channel is accepted after repeated reads are dropped exactly when it is a sequence of idle polls and cycles whose status may be read again before and after the acknowledge, and the acknowledged values are those of the cycles |
| `PolledService.PlainIffAccepted` | tools/nvdla_test_framework/trace.py:409-453 | of these the scanner accepts as they stand exactly those in which no read repeats |
| `TraceCompare.AcceptedIffPolledService` | tools/nvdla_test_framework/trace.py:261-308 | both, for the interrupt channel of any trace |
| `TraceCompare.RepeatedPollIsAbsorbed` | tools/nvdla_test_framework/trace.py:279-284 | a repeated nonzero poll is an error in the raw channel and absorbed by normalising |
| `TraceCompare.UnclearedIsAbsorbed` | tools/nvdla_test_framework/trace.py:436-448 | so is a status still set when it is read after its acknowledge: not cleared in the raw channel, accepted in the normalised one |
| `TraceCompare.VerdictFromRawChannels` | tools/nvdla_test_framework/trace.py:504-533 | any two traces match exactly when their raw programming channels agree up to repeated reads and their raw interrupts are polled service with equal bit counts |
| `TraceVerdict.VerdictFromEvents` | tools/nvdla_test_framework/trace.py:504-533 | two traces match exactly when their kept programming events agree one by one in operation, offset, length, response and data, but for the data of DMA address writes, and their raw interrupts are polled service with equal bit counts |
| `TraceVerdict.ProgrammedValuesMatter` | tools/nvdla_test_framework/trace.py:290-299 | traces that write different values to a register that holds no DMA address, at the same place, never match |
| `TraceVerdict.RawInterruptsAre` | tools/nvdla_test_framework/trace.py:386-390 | the interrupt channel is exactly the transactions with the status register, in order, with their own data |
| `TraceCompare.InterleavingInvariant` | tools/nvdla_test_framework/trace.py:504-527 | however the two channels of a trace are shuffled together, every verdict is the same, and the shuffles match each other exactly when the raw interrupts are polled service |
| `TraceCompare.CoalescingInvariant` | tools/nvdla_test_framework/trace.py:466-475 | on raw traces with the same programming: a cycle of value a or b, with a and b disjoint, can be replaced by cycles a and b, anywhere after polled service and whatever follows, without changing any verdict |
| `TraceCompare.ChannelCoalescing` | tools/nvdla_test_framework/trace.py:466-475 | the same for channels that are compared as they are |
| `TraceCompare.MatchIffPermutedSplits` | tools/nvdla_test_framework/trace.py:466-475 | accepted streams match exactly when their single-bit splits are permutations of each other |
| `PowerTrace.ClipTrace` | tools/nvdla_test_framework/performance.py:508-521 | the clipped list, or the error of an interval the trace does not bracket |
| `PowerTrace.InterpolateInHull` | tools/nvdla_test_framework/performance.py:497-506 | on an increasing trace interpolation succeeds exactly within the first and last sample, and stays in the hull of the powers |
| `PowerTrace.ClipShape` | tools/nvdla_test_framework/performance.py:508-521 | clipping succeeds exactly when both bounds are covered; the result is increasing, starts and ends at the bounds and stays in the hull |
| `PowerTrace.ClipEnergy` | tools/nvdla_test_framework/performance.py:488-521 | the integral of a clipped trace is a difference of one antiderivative at the bounds |
| `PowerTrace.EnergyAdditive` | tools/nvdla_test_framework/performance.py:488-521 | energy over [a, c] is that over [a, b] plus that over [b, c], also when b falls inside a segment |
| `PowerTrace.ClipWhole` | tools/nvdla_test_framework/performance.py:508-521 | clipping to the whole trace changes nothing |
| `PowerTrace.EnergyInHull` | tools/nvdla_test_framework/performance.py:488-521 | least power · duration <= energy <= greatest power · duration |
| `PowerTrace.ConstantEnergy` | tools/nvdla_test_framework/performance.py:488-495 | under constant power, joules are watts times nanoseconds by a billion |
| `PowerTrace.ClipAdds` | tools/nvdla_test_framework/performance.py:508-521 | clipping commutes with adding traces on common timestamps |
| `PowerTrace.EnergyAdds` | tools/nvdla_test_framework/performance.py:488-521 | so do interpolation and integration |
| `PowerAtTime.LinearBetween` | tools/nvdla_test_framework/performance.py:497-506 | between two times without a sample between them, interpolation is the line through the powers at both |
| `PowerAtTime.SamePowerSameEnergy` | tools/nvdla_test_framework/performance.py:488-521 | traces with the same power at every time of an interval have the same energy over it, however they are sampled |
| `PowerAtTime.NoEnergyIffZeroAround` | tools/nvdla_test_framework/performance.py:488-521 | nonnegative samples have no energy over an interval exactly when all samples from the last at or before it to the first at or after it are zero |
| `PowerEvidence.GroupRows` | tools/nvdla_test_framework/performance.py:453-470 | rows are grouped into sweeps by index, each domain with the sum of its rows and each rail with its row; the first row that contradicts its sweep's time or repeats a rail is the error, named by its cause, and nothing else is |
| `PowerEvidence.ConsistentIff` | tools/nvdla_test_framework/performance.py:464-468 | a row is consistent exactly when it is close in time to the first row of its index and no earlier row of that index has its rail key |
| `PowerEvidence.SortedSamples` | tools/nvdla_test_framework/performance.py:476 | the sample indices that occur, increasing |
| `PowerEvidence.Parse` | tools/nvdla_test_framework/performance.py:431-486 | accepted rows give one sweep per index, by increasing index, all with the same rails, each domain and rail with the microwatts of its rows; each error has its cause |
| `PowerEvidence.DomainPower` | tools/nvdla_test_framework/performance.py:470 | the watts of a domain in a sweep are the sum over exactly its rows of that index |
| `PowerEvidence.DomainsAndRailsAgree` | tools/nvdla_test_framework/performance.py:469-470 | a sweep has the same total watts by domain and by rail |
| `PowerSummary.MeasurementsAdd` | tools/nvdla_test_framework/performance.py:553-578 | the measurement of two scopes sampled together is the sum of their measurements |
| `PowerSummary.SummaryMeans` | tools/nvdla_test_framework/performance.py:564-576 | mean times duration is energy, idle and incremental mean add up to the active mean, and incremental energy is incremental mean times launch duration |
| `PowerSummary.ActiveEnergyWithin` | tools/nvdla_test_framework/performance.py:562-570 | active energy lies between the least and the greatest sampled power times the launch duration |
| `PowerSummary.MonitoredDomainRejected` | tools/nvdla_test_framework/performance.py:556-565 | evidence with a domain of the reserved name has a trace that is not increasing |
| `PowerSummary.WholeIsSumOfParts` | tools/nvdla_test_framework/performance.py:553-609 | the energies of everything monitored are the sums over any complete list of parts |
| `PowerSummary.PowerIsConserved` | tools/nvdla_test_framework/performance.py:553-609 | so are idle mean, active mean, active energy and incremental energy |
| `PowerConservation.RailsConserved` | tools/nvdla_test_framework/performance.py:600-609 | for any accepted evidence, the summary of everything monitored is the sum of the rails' summaries |
| `PowerConservation.ConservedOverSameParts` | tools/nvdla_test_framework/performance.py:600-609 | the same over domains, whatever the readings, when every sweep lists the same domains |
| `PowerConservation.DomainsConserved` | tools/nvdla_test_framework/performance.py:600-609 | for which colon-free domain names are enough |
| `PowerConservation.AlignedIffSameDomains` | tools/nvdla_test_framework/performance.py:481-485 | the domains' traces are sampled at the times of the monitored trace exactly when every sweep lists the same domains |
| `DomainConservation.EnergyOfDomain` | tools/nvdla_test_framework/performance.py:497-521 | the energy of a domain is that of its readings plus that of the power interpolated for it at sweeps that do not list it |
| `DomainConservation.DomainsExceedByInvented` | tools/nvdla_test_framework/performance.py:481-521 | whatever the readings, the domains' energies exceed that of everything monitored by exactly the energy of the interpolated power |
| `DomainConservation.DomainsAddUpIff` | tools/nvdla_test_framework/performance.py:553-604 | with positive readings, the domains' active energies are at least the monitored one, and equal to it exactly when every sweep from the last at or before the launch to the first at or after it lists every domain |
| `DomainConservation.ConservedIff` | tools/nvdla_test_framework/performance.py:553-604 | under the same condition and no other the whole summary is conserved over domains, when idle sweeps all list the same domains |
| `DomainConservation.MissingDomainBreaks` | tools/nvdla_test_framework/performance.py:553-604 | and where a sweep around the launch lacks a domain it is not, whatever the idle file holds |
| `AmbiguousDomains.AmbiguousIsAccepted` | tools/nvdla_test_framework/performance.py:453-485 | a file of any number of sweeps from four on whose rail keys do not identify domains parses and is accepted |
| `AmbiguousDomains.AmbiguousDomainsDoNotAddUp` | tools/nvdla_test_framework/performance.py:466-485 | its summary is conserved over rails and not over domains |
| `SweepFiles.FileParses` | tools/nvdla_test_framework/performance.py:453-486 | a file that comes in consistent blocks, one per index and with the same rails, parses into exactly the sweeps of its blocks |
| `CpuPower.ReadSweeps` | tools/nvdla_test_framework/cpu_performance.py:86-101 | the second importer's sweeps: each domain of each index with the sum over exactly its rows |
| `CpuPower.ReadEvidence` | tools/nvdla_test_framework/cpu_performance.py:86-101 | those sweeps by increasing index |
| `CpuPower.ReadIsProjection` | tools/nvdla_test_framework/cpu_performance.py:86-101 | from rows the first importer accepts, the second reads the same sweeps without their rails |
| `CpuPower.CpuMeasure` | tools/nvdla_test_framework/cpu_performance.py:131-145 | its clipped energies, or the error of an interval the trace does not bracket |
| `CpuPower.InterpolationsAgree` | tools/nvdla_test_framework/cpu_performance.py:103-112 | on an increasing trace the two interpolations agree everywhere, errors included |
| `CpuPower.MeasurementsAgree` | tools/nvdla_test_framework/cpu_performance.py:114-145 | on any trace the first importer measures, the second measures the same idle and active energies |
| `CpuPower.ImportersAgree` | tools/nvdla_test_framework/cpu_performance.py:120-145 | whatever rows the first importer accepts the second accepts, with the same measurements of PS, PL and everything monitored |
| `SamplerProtocol.StepKeepsInvariant` | tools/power/nvdla-power-sampler.c:322-371 | every step of sampler, driver and launcher keeps the protocol invariant |
| `SamplerProtocol.TraceBracketsLaunch` | tools/runtime/nvdla-benchmark-launch.c:180-245 | in every interleaving, a collected trace has at least two complete sweeps in time order whose first and last timestamps bracket the launch |
| `SamplerProtocol.SomeRunCollects` | tools/board/nvdla-board-cpu-benchmark:419-467 | with any number of sensors there is a run in which the driver collects the trace |
| `SamplerProtocol.AdvanceDeadline` | tools/power/nvdla-power-sampler.c:363-366 | the next deadline is exactly one interval later, with nanoseconds in range |
| `SamplerProtocol.Deadlines` | tools/power/nvdla-power-sampler.c:317-371 | the k-th deadline is exactly k intervals after the start: no drift |
| `SamplerEvidence.FileParses` | tools/power/nvdla-power-sampler.c:337-352 | the lines a sampler writes parse to one sweep per sample, with the same rails and domains in each |
| `SamplerEvidence.SensorsAreRead` | tools/power/nvdla-power-sampler.c:337-352 | every rail of every sweep of the file reads what its sensor read |
| `SamplerEvidence.CollectedTraceClips` | tools/nvdla_test_framework/performance.py:508-521 | in every run the collected file parses, and clipping any of its traces to the launch interval succeeds |
| `SamplerEvidence.CollectedSummaryIsConserved` | tools/nvdla_test_framework/performance.py:553-609 | for every run and an idle file of the same sensors, an accepted summary is conserved over rails and over domains |
| `OrderStatistics.PercentileDefinedIff` | tools/nvdla_test_framework/performance.py:351-361 | an empty list is an error of its own; otherwise it is defined exactly when the position (n - 1) · quantile is from -n to n - 1, as it is for every quantile from 0 to 1 |
| `OrderStatistics.PercentileIgnoresOrder` | tools/nvdla_test_framework/performance.py:351-361 | the percentile depends on the multiset of values alone |
| `OrderStatistics.PercentileIsLineAt` | tools/nvdla_test_framework/performance.py:355-361 | a percentile is the line through the sorted values, read at (n - 1) · quantile |
| `OrderStatistics.LineBetweenRanks` | tools/nvdla_test_framework/performance.py:358-361 | between two ranks that line divides the two values in the proportion of the position |
| `OrderStatistics.PercentileMonotone` | tools/nvdla_test_framework/performance.py:355-361 | it is monotone in the quantile |
| `OrderStatistics.PercentileRange` | tools/nvdla_test_framework/performance.py:355-361 | it runs from the minimum at 0 to the maximum at 1 |
| `OrderStatistics.PercentileIsMedian` | tools/nvdla_test_framework/performance.py:355-361 | at 0.5 it is the median |
| `OrderStatistics.MeanInRange` | tools/nvdla_test_framework/performance.py:364-373 | the mean lies between minimum and maximum |
| `OrderStatistics.SummaryIsOrdered` | tools/nvdla_test_framework/performance.py:364-392 | minimum <= p5 <= q1 <= median <= q3 <= p95 <= maximum, and the fences enclose the quartiles |
| `OrderStatistics.SummaryTails` | tools/nvdla_test_framework/performance.py:387-388 | p5 and p95 are the percentiles of a twentieth and of nineteen twentieths |
| `OrderStatistics.FewOutliers` | tools/nvdla_test_framework/performance.py:369-391 | at most n/4 values, rounded down, lie below the lower fence and as many above the upper |
| `OrderStatistics.BootstrapSessionMedians` | tools/nvdla_test_framework/performance.py:401-423 | for every sequence of random choices: bounds are the percentiles of the resampled medians, lower <= upper, both within the range of the session medians; no sessions or no iterations is an error |
| `PhaseAccounting.ProfileGroups` | tools/nvdla_test_framework/performance.py:643-649 | every group has one row exactly when no two rows share a profile, and then the groups are the rows in order |
| `PhaseAccounting.SummarizeProfiles` | tools/nvdla_test_framework/performance.py:652-741 | accepted exactly when there are rows, profiles are distinct and no row accounts for more than its latency; then the specified breakdown |
| `PhaseAccounting.EveryPhaseOnce` | tools/nvdla_test_framework/performance.py:689-719 | the aggregates count each of the eleven phases once, with execution and extraction |
| `PhaseAccounting.PartIsItsColumns` | tools/nvdla_test_framework/performance.py:694-715 | each part of a row is the sum of exactly the columns that a table assigns to it |
| `PhaseAccounting.ChargeGoesToOwner` | tools/nvdla_test_framework/performance.py:694-735 | adding d to one phase, the execution or the extraction of one row, within its latency, adds d / rows to the mean of the part that owns it, takes it from the unprofiled mean and changes no other mean |
| `PhaseAccounting.ChargeShowsInDetail` | tools/nvdla_test_framework/performance.py:658-663 | and changes the detailed mean of that phase alone |
| `PhaseAccounting.TimeIsConserved` | tools/nvdla_test_framework/performance.py:720-741 | aggregate means sum to the end-to-end mean, and percentages to 100 unless that mean is zero |
| `PhaseAccounting.PercentagesAreShares` | tools/nvdla_test_framework/performance.py:741-744 | each percentage is the share of its own part in the end-to-end mean |
| `PhaseAccounting.PhasesAreConserved` | tools/nvdla_test_framework/performance.py:652-741 | the eleven detailed means with execution, extraction and the unprofiled rest sum to the end-to-end mean |
| `PhaseAccounting.MeanIsMean` | tools/nvdla_test_framework/performance.py:655-660 | the mean of a column is the mean of its list of values |
| `PhaseAccounting.SummarizeSteady` | tools/nvdla_test_framework/performance.py:661-687 | the two shares of a steady iteration sum to 100; a zero observed mean is an error |
| `InputVariation.ImportSession` | tools/nvdla_test_framework/input_variation.py:80-126 | a session is accepted exactly when its result table is complete and every input was measured equally often, and at all |
| `InputVariation.ImportInputVariation` | tools/nvdla_test_framework/input_variation.py:24-187 | a campaign is accepted exactly when all sessions are and none classifies an input differently |
| `InputVariation.BalanceAdds` | tools/nvdla_test_framework/input_variation.py:125-126 | sessions with different repeat counts are balanced together |
| `InputVariation.RepeatedAccuracyIsDistinct` | tools/nvdla_test_framework/input_variation.py:155-187 | on every accepted campaign the accuracy over repeated observations is that over distinct inputs |
| `AxisTicks.TicksCover` | tools/nvdla_test_framework/performance.py:923-938 | four to six ticks from zero, the last the first multiple of the step to reach the largest value |
| `Framing.RoundTrip` | tools/runtime/nvdla_flatbuf_client.py:30-56 | a sent frame at the head of a stream is decoded to its payload and the bytes after it |
| `Framing.CRoundTrip` | tools/runtime/nvdla-flatbuf-client.c:62-120 | the C reader does so exactly for payloads of at most 64 MiB |
| `Framing.CFramesArePyFrames` | tools/runtime/nvdla-flatbuf-client.c:79-120 | every stream the C reader accepts the Python reader decodes to the same payload and rest |
| `Framing.TruncatedFrameFails` | tools/runtime/nvdla_flatbuf_client.py:36-56 | no frame is delivered from a stream that ends inside it |
| `Framing.FramesRoundTrip` | tools/runtime/nvdla_flatbuf_client.py:30-56 | any list of payloads is received exactly, consuming exactly its bytes |
| `Framing.FramesUnique` | tools/runtime/nvdla_flatbuf_client.py:30-33 | frame boundaries are never ambiguous |
| `Framing.PyIntOfDigits` | tools/runtime/nvdla_flatbuf_client.py:45-48 | the size text grammar gives a digit string its decimal value |
| `Framing.NoLeadingZero` | tools/runtime/nvdla_flatbuf_client.py:30-33 | sizes are sent without leading zeros |
| `FrameTransport.PySendFrame` | tools/runtime/nvdla_flatbuf_client.py:30-33 | exactly the frame is sent |
| `FrameTransport.PyRecvFrame` | tools/runtime/nvdla_flatbuf_client.py:36-56 | whatever the chunks, the decoded payload or error of the stream, and exactly its bytes consumed |
| `FrameTransport.PyRecvFrames` | tools/runtime/nvdla_flatbuf_client.py:36-56 | repeated receives decode frame after frame |
| `FrameTransport.WriteAll` | tools/runtime/nvdla-flatbuf-client.c:28-43 | whatever the partial writes, all bytes are sent in order |
| `FrameTransport.ReadAll` | tools/runtime/nvdla-flatbuf-client.c:45-60 | whatever the partial reads, the buffer is filled with the next bytes, or fails exactly when the stream is too short; the rest of the buffer is untouched |
| `FrameTransport.CSendFrame` | tools/runtime/nvdla-flatbuf-client.c:62-72 | exactly the frame is sent; the header always fits its buffer |
| `FrameTransport.CRecvSize` | tools/runtime/nvdla-flatbuf-client.c:87-107 | the size line: one to thirty digits, a newline, at most 64 MiB |
| `FrameTransport.CRecvFrame` | tools/runtime/nvdla-flatbuf-client.c:79-120 | succeeds exactly on the streams the decoder accepts, with the payload followed by a zero byte; otherwise the frame is empty |
| `FlatbufProtocol.PyRunProtocol` | tools/runtime/nvdla_flatbuf_client.py:65-113 | the session's outputs or error; the specified frames are sent however it ends, and exactly the replies consumed when it ends well |
| `FlatbufProtocol.CRunProtocol` | tools/runtime/nvdla-flatbuf-client.c:232-306 | the same for the C client |
| `FlatbufProtocol.SentWhole` | tools/runtime/nvdla_flatbuf_client.py:65-113 | in a session that ends well exactly the requests of the protocol are sent |
| `FlatbufProtocol.SentIsPrefix` | tools/runtime/nvdla-flatbuf-client.c:232-306 | whatever a runtime answers, both clients send a first part of a whole session's requests |
| `RuntimeSession.OutputRequestsAre` | tools/runtime/nvdla_flatbuf_client.py:97-101 | the frames sent for n outputs ask for each index from 0 to n - 1 once, in order |
| `RuntimeSession.ConversationIsServed` | tools/runtime/nvdla-flatbuf-client.c:232-306 | a client that receives exactly a passing runtime's answers to all it sends ends well, with the runtime's outputs 0 to n - 1 in order and nothing left unread, for both clients |
| `RuntimeSession.ConversationExists` | tests/test_runtime_client.py:24-50 | with every passing runtime there is such a conversation |
| `FlatbufProtocol.ServedWhole` | tools/runtime/nvdla_flatbuf_client.py:65-113 | every output of a runtime that follows the protocol arrives unchanged and in order, for both clients |
| `FlatbufProtocol.SessionsAgreeIff` | tools/runtime/nvdla-flatbuf-client.c:232-306 | a session that ends well in C ends alike in Python exactly when no text reply holds "ERR" anywhere and the count is neither empty nor holds a zero byte; otherwise Python refuses it or rejects the count |
| `FlatbufProtocol.EmptyCountDiffers` | tools/runtime/nvdla-flatbuf-client.c:269-274 | a session with an empty count reply ends well without outputs in C and with a count error in Python |
| `FlatbufProtocol.HiddenErrorDiffers` | tools/runtime/nvdla-flatbuf-client.c:128-131 | a session with "ERR" behind a zero byte in a text reply ends well in C and is refused in Python |
| `MarkdownBlocks.ConsumeList` | tools/render_milestone_report_pdf.py:337-380 | the items and end of a list, its index never beyond the lines |
| `MarkdownBlocks.ListCountsMarkers` | tools/render_milestone_report_pdf.py:337-380 | a list has exactly as many items as marker lines in its span |
| `MarkdownBlocks.ListHasOneKind` | tools/render_milestone_report_pdf.py:337-380 | every line of a list is a marker of its kind, a continuation or a blank between items; the last is not blank |
| `MarkdownBlocks.ItemsAreMarkers` | tools/render_milestone_report_pdf.py:344-367 | each item is a marker line of the list's kind and its continuation |
| `MarkdownBlocks.ItemsAreOrdered` | tools/render_milestone_report_pdf.py:344-379 | no item overlaps a later one |
| `MarkdownBlocks.ParseBlocks` | tools/render_milestone_report_pdf.py:409-487 | the scanner's loop ends with the specified blocks |
| `MarkdownBlocks.BlockAt` | tools/render_milestone_report_pdf.py:418-485 | a block starts at its line, advances, has the shape of its kind and extends as far as it can |
| `MarkdownBlocks.BlocksAreDisjoint` | tools/render_milestone_report_pdf.py:409-487 | block spans are in order, disjoint and within the lines |
| `MarkdownBlocks.EveryLineHasOneOwner` | tools/render_milestone_report_pdf.py:409-487 | every line that is not blank belongs to exactly one block, and no line to two |
| `MarkdownBlocks.ParseIsUnique` | tools/render_milestone_report_pdf.py:409-487 | any cut of the lines into blocks of the right shapes is the scanner's |
| `MarkdownBlocks.ParseIsTheOnlyCut` | tools/render_milestone_report_pdf.py:409-487 | the scanner's blocks cut all lines into the right shapes, one after the other, and every such cut is the scanner's |
| `MarkdownBlocks.BreaksBeforeTopHeadings` | tools/render_milestone_report_pdf.py:424-432 | every top heading gets a page break except one that is the first heading of all |
| `TableRows.SplitTableRow` | tools/render_milestone_report_pdf.py:258-277 | the row without its outer bars, cut into cells that are then stripped |
| `TableRows.CutJoins` | tools/render_milestone_report_pdf.py:268-276 | cutting loses no character: the cells joined by bars are the text |
| `TableRows.CutIsClean` | tools/render_milestone_report_pdf.py:268-276 | no cell holds a bar outside code, and every cut is outside code |
| `TableRows.CutIsUnique` | tools/render_milestone_report_pdf.py:268-276 | there is one way to cut a text into such cells |
| `TableRows.RowRoundTrip` | tools/render_milestone_report_pdf.py:258-276 | a row written with bars before, between and after clean cells is cut into these cells |
| `Lists.StripParts` | tools/render_milestone_report_pdf.py:258-276 | stripping takes off exactly the blank characters at both ends |
| `NestedReads.ParseUnreturnedCsbRead` | tools/nvdla_test_framework/board_artifact.py:83-104 | the top of the stack of pending reads |
| `NestedReads.PendingIsUnreturned` | tools/nvdla_test_framework/board_artifact.py:84-94 | however a trace is taken apart into returned reads, stray ends and unreturned reads, exactly the unreturned ones are pending |
| `NestedReads.NothingUnreturnedIff` | tools/nvdla_test_framework/board_artifact.py:96-97 | nothing is reported exactly when the trace is returned reads and stray ends only |
| `FileComparison.FirstMismatch` | tools/nvdla_test_framework/workloads.py:54-68 | for any chunk size, none exactly when the files are equal, otherwise the length of their longest common prefix |

## Left out

- Docker, QEMU, virtual-platform, serial and SSH orchestration, archives, hashing, manifests and provenance checks: external tools, or conjunctions that one reading settles.
- JSON, CSV, XML and regular expressions: models start from parsed rows, events and classified lines. A log line's interface marker is assumed to agree with its parsed interface.
- PDF, SVG and report layout, number formatting and file writing.
- Floating-point rounding: watts, seconds and statistics are reals. `math.isclose` on integer timestamps is an exact relative comparison with 1e-9.
- Standard deviation and coefficient of variation: square roots of reals.
- Signals, timeouts, EINTR, out-of-memory and failing sensors or sockets: transports deliver bytes in any pieces until the stream ends, clocks never go back, sensor reads succeed.
- The sampler's fixed-duration mode, which takes the idle trace, and the driver's give-up timeout beyond its being possible.
- Sensor discovery and sorting, CPU affinity and argument parsing of the C programs. A fixed list of sensors with distinct rail keys is given.
- Error objects and context windows of trace reports: only the index, kind and presence of errors and first mismatches are modelled.
- Per-inference energies: the energies are divided by one common constant.
- The dictionaries of traces per scope: a trace is a function of the sweeps and the scope's name.
- `DomainConservation.ConservedIff`: where idle sweeps list different domains, idle means are over different durations and can agree by coincidence, so nothing exact is said of the idle half there; the active half, `DomainConservation.DomainsAddUpIff`, has no such condition.
- `AxisTicks.TicksCover`: the power of ten that the decimal logarithm yields is a parameter, with the bounds the logarithm guarantees.
- `TableRows.SplitTableRow`: what counts as white space is a parameter.
- `Framing.PyIntOfDigits`: the interpreter's limit on the digits of an integer is not modelled; no size the C reader accepts comes near it.
- `FlatbufProtocol.PyRunProtocol`: how many bytes of a session that fails are consumed is not stated.
- `FlatbufProtocol.CRunProtocol`: the same.
- Reading the flatbuffer and writing output files in the two clients: the file's bytes are a parameter and the outputs a result.
- Image preprocessing, model conversion, diagnostics cascades and label helpers: easy members or external libraries.
