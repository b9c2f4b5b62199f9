# RedisMeter: a verified model

RedisMeter wraps `memtier_benchmark`. This project models the parts of it that
compute or coordinate something delicate, and proves what they promise:

- **Cluster routing** (`gf2.dfy`, `crc16.dfy`, `key_slot.dfy`, `text.dfy`,
  `cluster.dfy`, `topology.dfy`, `node_lines.dfy`, `slot_distribution.dfy`): the CRC16 loop as
  polynomial division over GF(2), hash tags, parsing of `CLUSTER NODES`, slot
  coverage against routability, and the slot and node counters.
- **Statistics and anomalies** (`reals.dfy`, `statistics.dfy`, `welch.dfy`,
  `anomaly*.dfy`, `comma_printer.dfy`): percentiles, Welch's t-test, the
  three-pass detector with its shared set of keys, how many runs each method can
  flag, independence of units and of run order, and the number printer.
- **Rate limiter** (`rate_limiter.dfy`): the lazily refilled token bucket and
  what it admits over any window of time.
- **WebSocket hub** (`hub.dfy`, `hub_runs.dfy`, `hub_panics.dfy`): the event loop
  over bounded channels, what each connection receives over every run, and when
  the loop panics.
- **Run importer** (`importer.dfy`, `importer_merge.dfy`, `importer_totals.dfy`):
  conflict resolution over a run store, as a merge of maps, what it counts, and
  what a dry run predicts.
- **Runner fleet** (`fleet.dfy`, `fleet_monitor.dfy`): provisioning by one
  goroutine per VM under any schedule, and the health monitor.
- **Bundles** (`bundle.dfy`, `bundle_import.dfy`): the writer and the loader as
  lists of zip entries, and the import counters.

`wrappers.dfy` and `sets.dfy` hold what several of these share.

`float64` is modelled by `real`, time by integer nanoseconds. What the outside
world answers (SSH, Azure, storage, clocks, JSON decoding) is a parameter, so
every theorem holds for all answers. `math.Sqrt` is a parameter `sqrt` with
`IsSqrt(sqrt)`: the non-negative root of every non-negative number. A division
by zero inside the detector gives the infinities and the not-a-number that
`float64` gives (`Anomalies.Quotient`).

Where code and promise differ, the code is modelled and the difference is a
theorem:

- A hub subscriber without a benchmark ID is filed under `*`, documented as all
  benchmarks, but no benchmark's broadcast reaches it; it gets all broadcasts
  exactly when all carry the ID `*` (`HubRuns.StarSeesNothing`,
  `HubRuns.StarSeesAllExactlyWhen`).
- `ClusterOK` counts claimed slots outside 0..16383 as well. It is set on an
  unroutable cluster exactly when there are such claims, as many as the missing
  slots, and unset on a routable one exactly when there are any
  (`Cluster.CoverageErrsExactlyWhen`); `1-16384` and `0-16384` are replies that
  show it (`NodeLines.CoverageAcceptsStray`, `NodeLines.CoverageRejectsStray`).
- "A call an hour/max after a denied call is allowed" holds for the next call.
  A later one is denied exactly when the calls between left the bucket empty and
  nothing has accrued since (`RateLimiters.NextCallAllowed`,
  `RateLimiters.LateCallDeniedExactly`, `RateLimiters.LaterCallMayBeDenied`).
- An import can panic: exactly when it renames a run whose ID has fewer than
  eight characters, because the ID is stored or was saved earlier in the batch
  (`ImporterMerge.PanicsExactlyWhen`). A dry run misses the second kind. Apart
  from that its totals are right under rename; under the other resolutions they
  are wrong exactly when two accepted runs share a new ID
  (`ImporterMerge.DryRunWrongExactlyWhen`, `ImporterMerge.TwiceTheSame`).
- The monitor reports completion while a VM that missed one or two checks is
  still running; when it does is stated exactly
  (`FleetMonitors.AllFinishedExactlyWhen`, `FleetMonitors.NilWithRunningVM`).
- A finished benchmark completes its VM only if the output is exactly `done`
  (`FleetMonitors.CompletesExactlyWhen`, `FleetMonitors.CompletesByReplies`). The
  command prints a newline after it, which is not trimmed, so no VM ever completes
  (`FleetMonitors.FinishedNotNoticed`), and a nil return means that all VMs were
  lost (`FleetMonitors.NilWithoutCompletion`, `FleetMonitors.AnswersBlockNil`).
- A VM whose resources could not be created is still configured, and listed as
  ready exactly when that works (`Fleets.ReadyExactlyWhen`,
  `Fleets.ListsUncreatedExactlyWhen`, `Fleets.NeverCreatedIsListed`).
- The hub's loop can panic: exactly when a connection is removed, registered
  again, and then unregistered or broadcast to (`HubPanics.PanicsOnceBack`,
  `HubPanics.PanicsExactlyWhen`, `HubRuns.ReRegistrationPanics`).
- Skipping keeps existing records exactly as long as no run for them was saved
  because reading failed (`ImporterMerge.SkipMergesAlways`,
  `ImporterMerge.SkipKeepsExactlyWhen`).
- Bundle files come back exactly when their names are clean relative paths
  (`Bundles.RoundTripExactlyWhen`).

`dafny verify dfyconfig.toml` checks the whole project.

## Model

| member | source | states |
|---|---|---|
| GF2.RemainderUnique | internal/cluster/cluster.go:248-261 | dividing by x^16 + x^12 + x^5 + 1 leaves at most one 16-bit remainder |
| GF2.RemainderAppended | internal/cluster/cluster.go:248-261 | a message followed by its remainder is divisible |
| GF2.BurstChangesRemainder | internal/cluster/cluster.go:248-261 | two messages with one remainder that differ only inside 16 consecutive bits are equal |
| GF2.FeedAllIsRemainder | internal/cluster/cluster.go:248-261 | the shift register holds the remainder of everything fed so far, for every message |
| Crc16.ShiftRegister | internal/cluster/cluster.go:252-258 | the inner loop over the eight bits of a byte is eight steps of the polynomial division |
| Crc16.ComputeCrc16 | internal/cluster/cluster.go:248-261 | the 16-bit shift/xor loop returns the remainder of message * x^16 by the XMODEM polynomial |
| Crc16.CrcExactlyRemainder | internal/cluster/cluster.go:248-261 | a word is the CRC of a message exactly when it is that remainder |
| Crc16.CheckValue | internal/cluster/cluster.go:248-261 | the CRC of the digits 1 to 9 is 0x31c3, the check value of CRC-16/XMODEM |
| Crc16.CrcLinear | internal/cluster/cluster.go:248-261 | the CRC of the xor of two messages of equal length is the xor of their CRCs |
| Crc16.CrcResidue | internal/cluster/cluster.go:248-261 | a message followed by two bytes has CRC 0 exactly when they are its CRC, high byte first |
| Crc16.BurstDetected | internal/cluster/cluster.go:248-261 | messages of equal length that differ only inside any 16-bit window have different CRCs |
| Crc16.AdjacentBytesDetected | internal/cluster/cluster.go:248-261 | keys of equal length that differ only within two adjacent bytes never share a CRC |
| KeySlot.FoldCrc | internal/cluster/cluster.go:244 | the slot is the low 14 bits of the CRC, in 0..16383 |
| KeySlot.SlotDigits | internal/cluster/cluster.go:244 | the k-th binary digit of the slot is the k-th bit of the CRC, for k below 14 |
| KeySlot.GetSlotForKey | internal/cluster/cluster.go:234-245 | the slot of a key is the folded CRC of its hashed part, in range for every key |
| KeySlot.TagIsHashed | internal/cluster/cluster.go:235-242 | a key with a non-empty first hash tag is hashed by the tag alone, one with an empty tag as a whole |
| KeySlot.PartlyHashedHasTag | internal/cluster/cluster.go:235-242 | only a key with a non-empty first hash tag is hashed in part |
| KeySlot.TagDecidesSlot | internal/cluster/cluster.go:234-245 | a key with first tag t has the slot of the key t |
| KeySlot.LastByteSeparates | internal/cluster/cluster.go:234-261 | keys without a brace that differ only in the last byte never share a slot |
| KeySlot.EverySlotHasKey | internal/cluster/cluster.go:234-261 | every slot is the slot of some key |
| Text.FieldsJoin | internal/cluster/cluster.go:133 | splitting words joined by blanks gives the words back |
| Text.FieldsAround | internal/cluster/cluster.go:133 | a space separates the words before it from those after it, whatever both sides are |
| Text.TrimSpaceIs | internal/cluster/cluster.go:87 | trimming takes spaces off both ends and nothing else |
| Text.AtoiDigits | internal/cluster/cluster.go:200-206 | reading a printed number that fits int64 gives the number |
| Text.AtoiSigned | internal/cluster/cluster.go:200-206 | a sign before the digits is obeyed, and values out of range are cut to the nearest int64 |
| Text.AtoiFollowed | internal/cluster/cluster.go:200-206 | digits followed by something else read as 0, unless they exceed 64 bits: then as the largest int64, whatever follows |
| Cluster.ReadRole | internal/cluster/cluster.go:152-165 | the flag loop yields the role of the last role flag, or unknown |
| Topologies.RoleByLastFlag | internal/cluster/cluster.go:152-165 | the last of the role flags decides the role |
| Topologies.NoRoleFlag | internal/cluster/cluster.go:152-165 | without one no role is set |
| Cluster.ReadSlots | internal/cluster/cluster.go:180-191 | the slot loop keeps the readable unbracketed ranges in order |
| Topologies.SlotFieldParts | internal/cluster/cluster.go:196-211 | a slot field with two dashes or more is refused |
| Topologies.AddressForms | internal/cluster/cluster.go:144-149 | host:port and host:port@bus give host and port, a bare host neither |
| Topologies.ManyColons | internal/cluster/cluster.go:144-149 | an address with two colons or more gives neither |
| Cluster.ParseNodeLine | internal/cluster/cluster.go:132-194 | every line with at least eight words parses to its fields, others are refused |
| Topologies.LineByLine | internal/cluster/cluster.go:90-98 | every line is read on its own, so one that does not parse disturbs no other |
| Topologies.OneLine | internal/cluster/cluster.go:90-136 | exactly the lines with fewer than eight words drop out |
| Cluster.ParseClusterInfo | internal/cluster/cluster.go:213-231 | the lines of CLUSTER INFO are applied in order |
| Topologies.KeyValueParts | internal/cluster/cluster.go:216-220 | an INFO line is split at its first colon |
| Topologies.KeyValueBack | internal/cluster/cluster.go:216-220 | and key, colon and value split back |
| Cluster.ClusterAnalyzer.GetTopology | internal/cluster/cluster.go:72-130 | on an answer the topology of the two replies is stored and returned; otherwise nothing changes |
| Topologies.LoadedNodes | internal/cluster/cluster.go:90-112 | the masters stored are exactly the nodes with that role and the replicas the others, both in order |
| Topologies.LoadedCoverage | internal/cluster/cluster.go:83-115 | CoveredSlots is the number of integers in some range of some node of role master, and TotalSlots is 16384 |
| Topologies.LoadedFields | internal/cluster/cluster.go:114-231 | CurrentEpoch and MyEpoch carry the value of the last INFO line for their key, or 0; ClusterOK that of the last state line, or whether the two slot counts agree |
| Cluster.ClusterAnalyzer.GetNodeForSlot | internal/cluster/cluster.go:264-281 | the first master with a range around the slot, or none |
| Cluster.AddSlots | internal/cluster/cluster.go:104-108 | the coverage loops add exactly the slots of a master's ranges |
| Cluster.OwnerClaims | internal/cluster/cluster.go:264-281 | a master is found for a slot exactly when some master claims it, and the one found does |
| Topologies.OwnerIsFirst | internal/cluster/cluster.go:264-281 | the master found is the first that claims the slot |
| Cluster.RoutableByKey | internal/cluster/cluster.go:234-281 | every slot has an owner exactly when every key is routed to one |
| Cluster.CoverageMeansRoutability | internal/cluster/cluster.go:72-130 | in the topology that is stored, if no claim lies outside 0..16383 and CLUSTER INFO has no state line, ClusterOK holds exactly when every key finds an owning master |
| Cluster.CoverageErrsExactlyWhen | internal/cluster/cluster.go:72-130 | for any reply without a state line, ClusterOK is set on an unroutable cluster exactly when there are stray claims and as many missing slots, and unset on a routable one exactly when there are stray claims and no missing slot |
| NodeLines.CoverageAcceptsStray | internal/cluster/cluster.go:104-115 | a master claiming 1-16384 sets ClusterOK although slot 0 has no owner |
| NodeLines.CoverageRejectsStray | internal/cluster/cluster.go:104-115 | a master claiming 0-16384 leaves ClusterOK unset although every slot has an owner |
| Cluster.InfoKeepsCoverage | internal/cluster/cluster.go:213-231 | CLUSTER INFO changes neither masters nor coverage |
| Cluster.SilentInfo | internal/cluster/cluster.go:213-231 | without a state line it leaves ClusterOK as counted |
| Cluster.InfoOverrides | internal/cluster/cluster.go:213-231 | otherwise the last state line alone decides ClusterOK, whatever was counted |
| Cluster.TagDecidesMaster | internal/cluster/cluster.go:234-281 | keys with one non-empty first hash tag are served by one master |
| NodeLines.NodeRoundTrip | internal/cluster/cluster.go:132-211 | parsing a printed node line recovers ID, host, port, role and exactly the unbracketed slot ranges |
| NodeLines.ReplyRoundTrip | internal/cluster/cluster.go:87-112 | parsing a printed CLUSTER NODES reply recovers every node in order |
| SlotDistributions.SlotDistribution.constructor | internal/cluster/cluster.go:319-324 | a new tracker has recorded no call |
| SlotDistributions.SlotDistribution.RecordKey | internal/cluster/cluster.go:327-335 | one more call is recorded, under the slot of its key and its node |
| SlotDistributions.SlotDistribution.GetSlotCounts | internal/cluster/cluster.go:338-347 | the counts of the slots of all calls |
| SlotDistributions.SlotDistribution.GetNodeCounts | internal/cluster/cluster.go:350-359 | the counts of the nodes of all calls |
| SlotDistributions.SlotDistribution.GetDistributionStats | internal/cluster/cluster.go:362-388 | TotalOps, the node sum and the group sum are all the number of calls; each group is exactly the slots of its thousand |
| SlotDistributions.SumCounts | internal/cluster/cluster.go:372-374 | the total over a map visited in any order |
| SlotDistributions.GroupCounts | internal/cluster/cluster.go:381-385 | grouping by thousands conserves the total, each group being the slots of its thousand |
| SlotDistributions.SlotsHitAreSlots | internal/cluster/cluster.go:327-335 | every slot counted is in 0..16383 |
| SlotDistributions.CountsConserve | internal/cluster/cluster.go:327-335 | after any run of calls the counters add up to the number of calls |
| SlotDistributions.CountsExact | internal/cluster/cluster.go:327-335 | each counter is how often its key was hit |
| SlotDistributions.ThousandExact | internal/cluster/cluster.go:381-385 | a group's figure is the number of calls to slots of its thousand |
| SlotDistributions.GroupNameInjective | internal/cluster/cluster.go:383 | different thousands print as different group names |
| SlotDistributions.GroupNameSpans | internal/cluster/cluster.go:383 | a group name consists of the first and the last slot of its thousand |
| CommaPrinter.IntToString | internal/analysis/anomaly.go:582-592 | the decimal digits of a non-negative number |
| CommaPrinter.PadLeft | internal/analysis/anomaly.go:574-580 | a number below 1000 as three digits |
| CommaPrinter.FormatWithCommas | internal/analysis/anomaly.go:553-572 | the truncated value in comma-separated groups |
| CommaPrinter.GroupsValue | internal/analysis/anomaly.go:553-572 | the first group has one to three digits and no leading zero, later ones three, and together they read the number |
| CommaPrinter.GroupsUnique | internal/analysis/anomaly.go:553-572 | no other such grouping reads the same number |
| CommaPrinter.CommasRoundTrip | internal/analysis/anomaly.go:553-592 | dropping the commas and reading decimal gives the number back |
| CommaPrinter.CommasExact | internal/analysis/anomaly.go:553-592 | a text is the printed form of n exactly when its groups are well formed and read n |
| CommaPrinter.PrintedExactly | internal/analysis/anomaly.go:553-572 | any value from 1 on prints as well-formed groups reading its integer part, any below 1 as 0 |
| CommaPrinter.CommasInjective | internal/analysis/anomaly.go:553-592 | different positive numbers print differently |
| Statistics.CalculateStatistics | internal/analysis/statistics.go:26-73 | extremes, linearly interpolated percentiles of the sorted sample in order, mean, population variance, its root and the coefficient of variation |
| Statistics.MeanAndVariance | internal/analysis/statistics.go:44-57 | the two accumulation loops compute mean and population variance |
| Statistics.Interpolates | internal/analysis/statistics.go:76-94 | between the k-th of the sorted values and the next, where p (n-1) / 100 lies, a percentile divides the step as p divides the segment |
| Statistics.PercentileExactly | internal/analysis/statistics.go:76-94 | a number is the p-th percentile exactly when it is that interpolation, the last value from 100 on |
| Statistics.PercentileMonotone | internal/analysis/statistics.go:76-94 | a higher percentile is never smaller, also across segments |
| Statistics.PercentileInRange | internal/analysis/statistics.go:76-94 | every percentile lies between the least and the greatest value |
| Statistics.PercentilesOrdered | internal/analysis/statistics.go:65-70 | P50 <= P90 <= P95 <= P99 within the extremes |
| Statistics.MedianIsPercentile50 | internal/analysis/anomaly.go:348-355 | the detector's middle-element median is the 50th percentile for every length |
| Statistics.PercentileScaled | internal/analysis/statistics.go:76-94 | percentiles scale with the values |
| Welch.MeanOf | internal/analysis/statistics.go:153-162 | the arithmetic mean, 0 for no values |
| Welch.VarianceOf | internal/analysis/statistics.go:165-175 | the sample variance, 0 below two values |
| Welch.TwoSampleTTest | internal/analysis/statistics.go:107-149 | t, mean difference and the truncated Welch degrees of freedom; the clamp to 1 never changes them |
| Welch.TTestMeans | internal/analysis/statistics.go:118-140 | for the squared errors a and b of the two means, t^2 (a + b) is the squared mean difference with its sign, and df is the largest integer not above (a + b)^2 / (a^2 / (n1 - 1) + b^2 / (n2 - 1)) |
| Welch.WelchDfBounds | internal/analysis/statistics.go:132-138 | the Welch quotient lies between the smaller sample's degrees of freedom and the pooled ones |
| Welch.DfBounds | internal/analysis/statistics.go:132-138 | min(n1, n2) - 1 <= df <= n1 + n2 - 2, at least 1, whenever the standard error is positive |
| Welch.SwapSamples | internal/analysis/statistics.go:107-149 | exchanging the samples negates t and the mean difference and keeps df |
| Anomalies.CalculateMetricStatistics | internal/analysis/anomaly.go:317-367 | the statistics of one metric: moments, median, quartiles and fences |
| AnomalyVerdicts.StatsDescribe | internal/analysis/anomaly.go:317-367 | mean, standard deviation, extremes, median, interpolated quartiles and fences of a metric, each by its own defining equation |
| Anomalies.CompareWithWindow | internal/analysis/anomaly.go:470-512 | the summing loop gives the verdict on one value against the mean of the window before it |
| AnomalyVerdicts.MovingAverageMeans | internal/analysis/anomaly.go:464-511 | from row `window` on, with m the mean of the window values before a row: flagged exactly when 100 (v - m) lies beyond threshold * m on the bad side, critical beyond twice that; m zero and negative included |
| AnomalyVerdicts.WindowFull | internal/analysis/anomaly.go:464 | earlier rows get no such verdict |
| AnomalyVerdicts.ZScoreMeans | internal/analysis/anomaly.go:369-416 | the z-score verdict: flagged exactly beyond threshold standard deviations on the bad side of the mean, with its severity, expected value and deviation |
| AnomalyVerdicts.QuartilesMean | internal/analysis/anomaly.go:419-458 | the quartile verdict: flagged exactly beyond a fence, with its severity, expected value and deviation |
| Anomalies.AnomalyReport.DetectZScoreAnomalies | internal/analysis/anomaly.go:369-417 | one z-score pass over the runs with the shared set |
| Anomalies.AnomalyReport.DetectIQRAnomalies | internal/analysis/anomaly.go:419-459 | one quartile-fence pass over the runs with the shared set |
| Anomalies.AnomalyReport.DetectMovingAverageAnomalies | internal/analysis/anomaly.go:461-513 | one moving-average pass over the runs with the shared set |
| Anomalies.AnomalyReport.CountAnomalies | internal/analysis/anomaly.go:178-189 | the severity counts and the number of distinct run IDs among the anomalies |
| Anomalies.AnomalyReport.DescribeMetrics | internal/analysis/anomaly.go:153-157 | the statistics of the three metrics |
| Anomalies.AnomalyReport.RunPasses | internal/analysis/anomaly.go:159-176 | three metrics under each method in order, the moving averages only with enough runs |
| Anomalies.ExtractColumns | internal/analysis/anomaly.go:138-151 | one column per metric for the runs with a summary, in order |
| AnomalyVerdicts.Defaults | internal/analysis/anomaly.go:34-66 | without settings the detector has its documented defaults, and it keeps every setting that is not zero |
| Anomalies.DetectAnomalies | internal/analysis/anomaly.go:127-192 | the whole report: nothing below the minimum of data points, else the nine passes and their totals |
| AnomalyVerdicts.EveryAnomalyJustified | internal/analysis/anomaly.go:127-192 | every reported anomaly is about a run of the batch and its reading of the metric, and the readings of that metric justify method, severity, expected value and deviation |
| AnomalyVerdicts.JustifiedIsReported | internal/analysis/anomaly.go:127-192 | with distinct run IDs every row and metric that the readings justify an anomaly for is reported |
| AnomalyVerdicts.OnlyWorseIsReported | internal/analysis/anomaly.go:369-513 | the z-score and moving-average methods report only throughput below and latency above what is expected, for positive moving averages |
| AnomalyBookkeeping.KeyTextInjective | internal/analysis/anomaly.go:376 | the last colon splits a key: run ID, whatever it holds, and colon-free metric name can be read off it |
| AnomalyBookkeeping.KeyInjective | internal/analysis/anomaly.go:376 | no two pairs of a run ID and a metric share a key |
| AnomalyBookkeeping.SeenIsReported | internal/analysis/anomaly.go:159-176 | after all nine passes the set holds exactly the keys of the anomalies and no key was reported twice |
| AnomalyBookkeeping.FirstMethodWins | internal/analysis/anomaly.go:159-176 | with distinct run IDs exactly the first of the three verdicts on each run and metric is reported |
| AnomalyBookkeeping.SeveritiesPartition | internal/analysis/anomaly.go:178-187 | warnings and critical anomalies add up to all anomalies |
| AnomalyBookkeeping.SeverityCounted | internal/analysis/anomaly.go:178-187 | each count is the number of anomalies of its severity |
| AnomalyBookkeeping.AnomalousRunsBound | internal/analysis/anomaly.go:188-189 | every anomalous run has between one and three anomalies, and the anomalies number between one and three times the anomalous runs |
| AnomalyUnits.StatsScaled | internal/analysis/anomaly.go:317-367 | scaling a metric by c > 0 scales its statistics |
| AnomalyUnits.UnitIndependence | internal/analysis/anomaly.go:127-192 | scaling each metric by its own positive factor keeps every reported run, metric, method, severity and deviation, in order |
| AnomalyOrder.OrderIndependence | internal/analysis/anomaly.go:369-459 | with distinct run IDs the z-score and quartile passes report the same anomalies for every order of the runs |
| AnomalyBounds.Cantelli | internal/analysis/anomaly.go:329-341 | if k > 0 of n values lie more than t standard deviations on one side of the mean, k (1 + t^2) < n |
| AnomalyBounds.FlaggedIsFar | internal/analysis/anomaly.go:371-416 | the z-score method flags exactly the values more than threshold standard deviations on the bad side of the mean; critical are those beyond 1.5 thresholds as well |
| AnomalyBounds.ZPassBounded | internal/analysis/anomaly.go:369-417 | a z-score pass that reports k > 0 of n values has k (1 + threshold^2) < n |
| AnomalyBounds.DefaultNeedsElevenRuns | internal/analysis/anomaly.go:34-50 | with the default threshold, set or left to default, no z-score anomaly is found among ten or fewer runs |
| AnomalyBounds.ElevenRunsCanFire | internal/analysis/anomaly.go:369-417 | a pass over eleven runs can report one |
| AnomalyBounds.FencesJudge | internal/analysis/anomaly.go:419-459 | with a multiplier of at most 3 the critical values are exactly those beyond three interquartile ranges, with one of at least 3 all flagged values are critical |
| AnomalyBounds.IqrPassBounded | internal/analysis/anomaly.go:419-459 | at most ceil((n-1)/4) values lie beyond either fence, and the median is never flagged |
| RateLimiters.RateLimiter.constructor | internal/alerting/notifiers.go:655-661 | a new bucket is full |
| RateLimiters.RateLimiter.Allow | internal/alerting/notifiers.go:663-681 | refill by the elapsed time, capped, then take a token if there is one |
| RateLimiters.RunKeeps | internal/alerting/notifiers.go:663-681 | over any run with a non-decreasing clock 0 <= tokens <= max |
| RateLimiters.Budget | internal/alerting/notifiers.go:663-681 | a run spends at most the tokens at hand and what accrues meanwhile |
| RateLimiters.WindowBound | internal/alerting/notifiers.go:663-681 | calls allowed between t1 and t2 number at most max + 1 + floor((t2 - t1) max / hour) |
| RateLimiters.WindowBoundTight | internal/alerting/notifiers.go:663-681 | for every limit of at least one and less than 3.6e12 an hour (one a nanosecond) some run reaches that bound |
| RateLimiters.WindowBoundMissed | internal/alerting/notifiers.go:663-681 | for limit 0 and from 3.6e12 an hour on no run does |
| RateLimiters.DeniedExactly | internal/alerting/notifiers.go:663-681 | a call is denied exactly when the bucket is empty and nothing has accrued |
| RateLimiters.NextCallAllowed | internal/alerting/notifiers.go:663-681 | the next call at least hour/max after a denied one is allowed |
| RateLimiters.SomeCallAllowed | internal/alerting/notifiers.go:663-681 | whatever calls come between, by hour/max after a denied call one was allowed |
| RateLimiters.LateCallDeniedExactly | internal/alerting/notifiers.go:663-681 | after a denial, any calls, and hour/max, a call is denied exactly when the calls between left the bucket empty and nothing has accrued since; one of them was then allowed |
| RateLimiters.LaterCallMayBeDenied | internal/alerting/notifiers.go:663-681 | a run in which a later call is denied because one in between took the token |
| RateLimiters.Conservation | internal/alerting/notifiers.go:663-681 | without capping, rounding loses less than half of what accrues |
| RateLimiters.AllowedBetweenDenials | internal/alerting/notifiers.go:663-681 | between two denials without capping more than ((t2 - t1) max / hour - 1) / 2 calls are allowed |
| Hubs.WebSocketHub.constructor | internal/api/websocket.go:66-80 | a new hub has no connections |
| Hubs.WebSocketHub.HandleRegister | internal/api/websocket.go:89-96 | a connection is filed under its benchmark |
| Hubs.WebSocketHub.HandleUnregister | internal/api/websocket.go:98-110 | a filed connection is closed and removed, and its benchmark's entry when empty |
| HubRuns.LastUnregisterForgets | internal/api/websocket.go:98-110 | a benchmark's entry goes exactly with its last connection |
| Hubs.WebSocketHub.Send | internal/api/websocket.go:116-122 | a channel with room takes the message, a full one is closed and forgotten, a closed one panics |
| Hubs.WebSocketHub.SendToAll | internal/api/websocket.go:115-123 | in whatever order they are visited, every connection of the benchmark is sent to |
| Hubs.WebSocketHub.HandleBroadcast | internal/api/websocket.go:112-125 | a broadcast reaches exactly the connections of its benchmark |
| Hubs.WebSocketHub.HandleConsume | internal/api/websocket.go:271-283 | the writer takes the oldest queued message, also from a closed channel |
| Hubs.WebSocketHub.Serve | internal/api/websocket.go:83-128 | any interleaving of events leaves the hub in the state their effects compose to |
| Hubs.WebSocketHub.ConnectionCount | internal/api/websocket.go:215-223 | the number of connections filed under a benchmark |
| HubRuns.RunIsSafe | internal/api/websocket.go:83-128 | if connections register at most once, no closed channel is sent to or closed again, and the map holds exactly the open connections under their own benchmark |
| HubRuns.CountsOpenConnections | internal/api/websocket.go:215-223 | the connections filed under a benchmark are its open ones |
| HubRuns.NoMessageIsLost | internal/api/websocket.go:83-128 | consumed plus queued messages are exactly the broadcasts for the connection's benchmark from registration to removal; it is filed exactly in between |
| HubRuns.SlowIsDropped | internal/api/websocket.go:116-122 | a connection that takes nothing is sent 256 messages; the next broadcast closes its channel and forgets it |
| HubRuns.StarSeesNothing | internal/api/websocket.go:184-188 | a connection without a benchmark ID receives nothing broadcast for a benchmark |
| HubRuns.StarSeesAllExactlyWhen | internal/api/websocket.go:83-128 | such a connection gets every broadcast between its registration and its removal exactly when all of them carry the ID `*` |
| HubPanics.PanicsExactlyWhen | internal/api/websocket.go:83-128 | for every sequence of events the hub panics exactly when a connection registers after its channel was closed and is later unregistered or its benchmark broadcast to |
| HubPanics.ClosedExactlyWhen | internal/api/websocket.go:98-125 | a channel is closed exactly when its connection was removed before, by an unregistration or a broadcast to its full queue; it is never opened again |
| HubPanics.PanicsOnceBack | internal/api/websocket.go:83-128 | in terms of events: the hub panics exactly when a connection is removed, registered again and then touched |
| HubRuns.ReRegistrationPanics | internal/api/websocket.go:89-125 | the shortest such runs: registering a removed connection again makes the next broadcast or unregistration panic |
| Importers.Importer.SaveRun | internal/importer/import.go:336 | a save that succeeds stores the run under its ID, one that fails changes nothing |
| Importers.Importer.HandleRun | internal/importer/import.go:315-365 | one run is failed, skipped, replaced, renamed or imported, and counted |
| Importers.Importer.ImportRuns | internal/importer/import.go:312-368 | the loop over a batch, renaming in place; a panic keeps what was saved and renamed before it |
| ImporterMerge.SkipMergesAlways | internal/importer/import.go:312-368 | whatever storage answers, skip mode leaves under each ID the last accepted and saved run whose read failed, else the existing record, else the first accepted and saved run |
| ImporterMerge.SkipMerges | internal/importer/import.go:312-368 | with working reads the existing record wins, then the first accepted and saved run |
| ImporterMerge.SkipKeepsExactlyWhen | internal/importer/import.go:312-368 | a record survives a skipping import exactly when no run of its ID was saved unread, or the last such run equals it |
| ImporterMerge.ReplaceMerges | internal/importer/import.go:312-368 | whatever storage answers, replace mode leaves the last accepted and saved run of every ID and keeps the others |
| ImporterMerge.AcceptedAreStored | internal/importer/import.go:312-368 | after an import every accepted ID whose save did not fail is stored |
| ImporterMerge.ReimportChangesNothing | internal/importer/import.go:312-368 | importing the batch again under skip changes nothing and skips every accepted run |
| ImporterMerge.EveryRunCounted | internal/importer/import.go:312-368 | imported, skipped, replaced and failed add up to the runs, whatever storage answers; only an unknown resolution drops conflicts |
| ImporterTotals.ValidateExactly | internal/importer/import.go:371-383 | a run is refused for the first of ID, status and creation time that it lacks |
| ImporterTotals.StoredExactlyWhen | internal/importer/import.go:312-368 | unless renaming, an ID is stored after a batch exactly when it was before or some accepted run with it could be saved |
| ImporterTotals.TotalsExactly | internal/importer/import.go:312-368 | under every resolution and whatever storage answers, each of the four counters is the number of runs with that fate, read off the batch, the store and the answers |
| ImporterTotals.ErrorsExactly | internal/importer/import.go:312-368 | the error list names exactly the refused runs, in order, each with its reason |
| ImporterTotals.RunsAfter | internal/importer/import.go:344-354 | only renaming changes a run of the batch, and nothing but its ID |
| ImporterMerge.PanicsExactlyWhen | internal/importer/import.go:312-368 | an import panics exactly when it renames and an accepted run with an ID shorter than eight characters finds the ID in the initial store or, unless this is a dry run, repeats the ID of an earlier accepted run that was saved; for all storage answers |
| ImporterMerge.TwiceTheSame | internal/importer/import.go:312-368 | one run twice into an empty store: renaming panics if its ID is short and imports both if not, any other resolution imports one; the dry run announces two every time |
| ImporterMerge.RenameKeepsRecords | internal/importer/import.go:344-354 | renaming keeps every existing record when the generated IDs are new |
| ImporterMerge.RenameMerges | internal/importer/import.go:312-368 | whatever storage answers, a renaming import leaves of every existing record the last run that was renamed to its ID or saved under it unread, or the record itself |
| ImporterMerge.DryRunSavesNothing | internal/importer/import.go:312-368 | a dry run leaves the store unchanged |
| ImporterMerge.DryRunPredicts | internal/importer/import.go:312-368 | if no accepted run has a new ID that an earlier run was saved under, a dry run reports the totals of the real run, the same IDs and the same panic |
| ImporterMerge.RenameCountsAlike | internal/importer/import.go:312-368 | under rename the dry run reports the totals of every real run that does not panic |
| ImporterMerge.DryRunWrongExactlyWhen | internal/importer/import.go:312-368 | for every resolution, if the saves succeed: under rename the dry run reports otherwise exactly when only the real run panics, on a short repeated ID; under any other exactly when two accepted runs share an ID that is not stored and reading works for the later one |
| Fleets.AnySchedule | internal/cloud/azure_provider.go:809-822 | every interleaving in which all goroutines finish leaves the same fleet |
| Fleets.AzureDeployment.constructor | internal/cloud/azure_provider.go:582-591 | a new deployment is initializing and has no VMs |
| Fleets.AzureDeployment.RunStage | internal/cloud/azure_provider.go:1043-1072 | one goroutine per VM, waited for; the resulting fleet and number of errors do not depend on the schedule |
| Fleets.AzureDeployment.ProvisionVMsParallel | internal/cloud/azure_provider.go:809-847 | succeeds exactly when enough VMs were created and none failed unless partial fleets are accepted |
| Fleets.AzureDeployment.ProvisionVMsSequential | internal/cloud/azure_provider.go:849-860 | succeeds exactly when none failed or partial fleets are accepted |
| Fleets.AzureDeployment.ProvisionVMs | internal/cloud/azure_provider.go:790-807 | one tracking object per VM, then parallel or sequential creation |
| Fleets.AzureDeployment.RunProvisioning | internal/cloud/azure_provider.go:644-687 | the pipeline succeeds exactly when every stage does and enough VMs are ready |
| Fleets.AzureDeployment.Provision | internal/cloud/azure_provider.go:578-641 | for every answer and schedule, success lists exactly the ready VMs, at least Count - FailureTolerance of them |
| Fleets.ProvidedExactlyWhen | internal/cloud/azure_provider.go:578-860 | a fleet is provided exactly when the group and the network were made, every VM came up or partial fleets are accepted, in parallel no more than FailureTolerance did not come up, and at least Count - FailureTolerance end ready |
| Fleets.FleetExactly | internal/cloud/azure_provider.go:862-1153 | a VM ends ready if waiting for it did not fail and its configuration works, otherwise failed |
| Fleets.ReadyInMeans | internal/cloud/azure_provider.go:606-620 | the list holds the positions of the ready VMs, each once and in order |
| Fleets.ReadyExactlyWhen | internal/cloud/azure_provider.go:862-1153 | a VM ends ready exactly when waiting for it did not fail and its configuration works |
| Fleets.ListsUncreatedExactlyWhen | internal/cloud/azure_provider.go:606-620 | a VM that was never created is listed exactly when its configuration works |
| Fleets.NeverCreatedIsListed | internal/cloud/azure_provider.go:578-860 | a fleet of one such VM is provided and lists it |
| FleetMonitors.FleetMonitor.CheckFleet | internal/cloud/azure_provider.go:1286-1323 | one round of health checks, the number of failed VMs and whether any answered as busy |
| FleetMonitors.FleetMonitor.MonitorExecution | internal/cloud/azure_provider.go:1268-1338 | the monitor's result for every sequence of ticks, cancellation and timeout |
| FleetMonitors.ReturnsExactlyWhen | internal/cloud/azure_provider.go:1268-1338 | a result is returned exactly when a cancellation, the timeout, or a tick that fails too many VMs or finds none busy comes while the monitor runs |
| FleetMonitors.FinalStays | internal/cloud/azure_provider.go:1287-1294 | Completed and Failed are absorbing |
| FleetMonitors.FailedAfterThree | internal/cloud/azure_provider.go:1297-1311 | the monitor fails a VM only after three consecutive lost checks |
| FleetMonitors.NilReturn | internal/cloud/azure_provider.go:1325-1335 | a nil return means at most FailureTolerance failed VMs, every other one completed or unreachable for one or two checks |
| FleetMonitors.AllFinishedExactlyWhen | internal/cloud/azure_provider.go:1297-1335 | the tick that returns nil leaves every VM finished exactly when it lost no check without failing the VM |
| FleetMonitors.NilWithRunningVM | internal/cloud/azure_provider.go:1297-1335 | one lost check of a single running VM ends the monitor with nil |
| FleetMonitors.CompletesExactlyWhen | internal/cloud/azure_provider.go:1286-1323 | from any start a VM completes exactly when an answer that is exactly "done" finds it unfinished while the monitor runs |
| FleetMonitors.CompletesByReplies | internal/cloud/azure_provider.go:1286-1323 | a VM healthy at the start completes exactly when, while the monitor runs, it answers exactly "done" before any three lost checks in a row |
| FleetMonitors.FailsByReplies | internal/cloud/azure_provider.go:1286-1323 | it is failed exactly when, while the monitor runs, three checks in a row are lost before any exact "done" |
| FleetMonitors.OnlyExactDoneCompletes | internal/cloud/azure_provider.go:1313 | without an answer that is exactly "done" a VM never completes |
| FleetMonitors.FinishedNotNoticed | internal/cloud/azure_provider.go:1297-1320 | a VM that answers what the command prints, "done" and a newline, counts as running however often it is asked |
| FleetMonitors.NilWithoutCompletion | internal/cloud/azure_provider.go:1286-1335 | if no answer is exactly "done", a nil return means that every VM failed or missed its last one or two checks |
| FleetMonitors.AnswersBlockNil | internal/cloud/azure_provider.go:1286-1335 | and one VM that answers every check prevents a nil return |
| Bundles.EntryNameKeepsExactlyClean | internal/bundle/bundle.go:357-358 | the entry of a file is its name in the folder exactly when the name is a clean non-empty relative path |
| Bundles.CleanDrops | internal/bundle/bundle.go:357-358 | in the joined path empty and "." elements drop out and ".." takes the element before it along |
| Bundles.WriteToZip | internal/bundle/bundle.go:310-368 | the entries are exactly the manifest, the non-empty sections and the files |
| Bundles.LoadFromZip | internal/bundle/bundle.go:522-582 | the entries are read in order, stopping at the first that does not parse |
| Bundles.LoadedField | internal/bundle/bundle.go:545-548 | each manifest field has the value of the last manifest entry that gives it; entries that do not give it leave it |
| Bundles.LoadedSection | internal/bundle/bundle.go:549-572 | each section holds what its last entry gives |
| Bundles.LoadedFile | internal/bundle/bundle.go:573-577 | each file under files/ holds the content of its last entry |
| Bundles.LoadFailsExactlyWhen | internal/bundle/bundle.go:544-581 | loading fails exactly when a manifest or section entry does not parse, and names the first |
| Bundles.RoundTrip | internal/bundle/bundle.go:310-582 | loading the written entries in any order gives the bundle back, for clean file names |
| Bundles.RoundTripExactlyWhen | internal/bundle/bundle.go:310-582 | and only for those |
| BundleImports.ImportSection | internal/bundle/bundle.go:405-418 | imported, skipped and refused items of one section are counted once each |
| BundleImports.SectionTally | internal/bundle/bundle.go:405-418 | imported are the items stored, skipped those already present, nothing of a disabled section |
| BundleImports.ImportLogs | internal/bundle/bundle.go:485-494 | logs are imported, or skipped and warned about |
| BundleImports.LogsTally | internal/bundle/bundle.go:485-494 | skipped are the logs refused, imported the others |
| BundleImports.Import | internal/bundle/bundle.go:401-497 | total imported + total skipped + warnings - LogsSkipped is the number of enabled items, and success is always reported |

## Left out

- HTTP handlers, the command line, terminal drawing, cloud SDK and SSH calls, OIDC, file and database storage, and the zip and JSON byte formats.
- Rounding, NaN inputs and signed zeros of `float64`, overflow of `int64(v)` in the printer, and p-values with their approximations.
- The `formatPrecise` printer, which drops leading zeros of a fraction, and the anomaly's score and description text.
- Cluster.ClusterAnalyzer.GetTopology: the loop over a range ending at the largest integer would not terminate in the original; ranges are sets here.
- SlotDistributions.SlotDistribution.GetDistributionStats: counters are unbounded, and groups are keyed by their thousand, with `GroupName` as the printed label.
- Anomalies.DetectAnomalies: negative moving-average windows index out of range in the original and are excluded; runs are not nil.
- Anomalies.CalculateMetricStatistics: the copy of the values kept in the statistics is not modelled.
- Statistics.PercentileMonotone: a negative percentile indexes out of range in the original; callers pass constants.
- AnomalyOrder.OrderIndependence: the moving-average passes depend on the order by design and are not part of the statement.
- The single-run check against historical data, which repeats the z-score and quartile verdicts.
- HubRuns.NoMessageIsLost: pings, which push to the channel from another goroutine, and re-subscription are not part of a run; a broadcast waiting in the hub's own buffer counts when it is taken out.
- Importers.Importer.SaveRun: a failed save is taken to leave the store unchanged, and the error texts are only their causes.
- Null entries in an imported JSON array, which the original dereferences.
- Fleets.AzureDeployment.Provision: events, timestamps and addresses are not kept; a VM's remote calls are grouped by where they can fail; retries, back-off and cancellation only decide whether a step fails.
- Staging and starting the benchmark before the monitor begins.
- Bundles.RoundTrip: raw JSON messages are compared by value, since writing re-indents them; names use `/` as separator.
- Regression direction, gate checks, alert rules, role tables, percent change and SKU catalogs.
