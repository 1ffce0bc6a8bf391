# Metric matching and target health checks, modelled in Dafny

This project models the label-matching and aggregation helpers of the
OpenShift origin end-to-end test for the cluster's Prometheus deployment
(`test/extended/prometheus/prometheus.go`). Those helpers decide whether a
decoded metrics exposition holds the expected samples and whether the
targets endpoint lists a healthy scrape target for each job:

- `findMetricsWithLabels` selects the samples of a metric family whose
  labels match a label predicate (a map of required name/value pairs);
- `findCountersWithLabels`, `findGaugesWithLabels` and `findMetricLabels`
  project the selected samples onto their counter value, gauge value or the
  value of one named label;
- `prometheusTargets.Expect` looks for an active target that matches a label
  predicate, has the expected health and has a scrape URL the pattern
  matches;
- `all` keeps the non-nil errors of a batch of `Expect` calls;
- `labels.With` copies a label map with one entry set, and `findEnvVar`
  finds the first environment variable of a name.

Each Go helper builds its result in a loop, so each is a Dafny `method` with
loop invariants, proved against a specification function; the lemmas beside
them state what the specification functions mean.

Files:

- `wrappers.dfy` — `Option` (Go's nil) and an order-preserving sub-sequence relation.
- `metrics.dfy` — module `Metrics`: families, samples, label pairs; the matcher.
- `extract.dfy` — module `Extract`: the three value extractors.
- `targets.dfy` — module `Targets`: the decoded target list and `Expect`.
- `helpers.dfy` — module `Helpers`: `all`, `labels.With`, `findEnvVar`.

Two notions of "the predicate holds" are pinned down. The matcher needs
every predicate entry present among the sample's labels with the same value
(`Metrics.SelectedIffSubMap`, for samples whose label names are distinct, as
in the exposition format). `Expect` reads a label the target lacks as the
empty string, as a Go map lookup does, so an entry requiring `""` is met by a
target without that label (`Targets.MissingLabelReadsEmpty`).

How the matcher works as written: for each sample it scans the labels in
order, records each predicate name whose label has the required value, stops
at the first predicate-named label whose value differs, and keeps the sample
when it recorded as many names as the predicate has entries. `Metrics.Matched`
is that scan; `Metrics.SelectedIsSubMap` shows a kept sample always carries
every entry, and `Metrics.SubMapIsSelected` shows the converse when label names
are distinct.

Three behaviours of the Go code are pinned down as written:

- A target's missing label reads as `""` (line 178), so `Expect` does not
  demand the predicate be a sub-map of the target's labels when a required
  value is empty.
- The scrape-URL test is the regular-expression library's unanchored search
  (line 189); patterns carry their own anchors.
- `findMetricLabels` takes the first label of the wanted name (lines 259-263).

## Model

| member | source | states |
|---|---|---|
| `Metrics.FindMetricsWithLabels` | test/extended/prometheus/prometheus.go:217-238 | A nil family yields no samples; otherwise the result is the family's samples that the per-sample scan keeps, in family order. |
| `Metrics.ScanLabels` | test/extended/prometheus/prometheus.go:223-231 | The loop over one sample's labels, with its break on the first conflicting value, records exactly the set `Matched` describes. |
| `Metrics.Matched` | test/extended/prometheus/prometheus.go:223-231 | The recorded names are always names the predicate mentions. |
| `Metrics.Selected` | test/extended/prometheus/prometheus.go:232 | The keep test `len(matched) == len(labels)` holds exactly when the scan recorded every name the predicate mentions. |
| `Metrics.MatchingSamples` | test/extended/prometheus/prometheus.go:222-236 | The matcher never returns more samples than the family holds. |
| `Metrics.MatchedSound` | test/extended/prometheus/prometheus.go:224-230 | A recorded name is carried by the sample with exactly the required value. |
| `Metrics.MatchedWithoutConflict` | test/extended/prometheus/prometheus.go:224-230 | When no label conflicts with the predicate, the scan records every predicate name the sample carries. |
| `Metrics.EmptyPredicateKeepsAll` | test/extended/prometheus/prometheus.go:222-237 | The empty predicate keeps every sample, so the whole family comes back in order. |
| `Metrics.MatchingIsSubsequence` | test/extended/prometheus/prometheus.go:222-236 | The result is an order-preserving sub-sequence of the family's samples. |
| `Metrics.MatchingAddsNothing` | test/extended/prometheus/prometheus.go:222-236 | No sample is added or duplicated: the result's multiset is contained in the family's. |
| `Metrics.MatchingMembership` | test/extended/prometheus/prometheus.go:222-236 | A sample is in the result if and only if it is in the family and the scan keeps it. |
| `Metrics.SelectedIsSubMap` | test/extended/prometheus/prometheus.go:222-234 | A kept sample carries every predicate entry with its exact value, whatever its labels. |
| `Metrics.SubMapIsSelected` | test/extended/prometheus/prometheus.go:222-234 | With distinct label names, a sample carrying every predicate entry is kept; extra labels are ignored. |
| `Metrics.SelectedIffSubMap` | test/extended/prometheus/prometheus.go:222-234 | With distinct label names, a sample is kept if and only if the predicate is a sub-map of its labels. |
| `Metrics.MissingLabelExcludes` | test/extended/prometheus/prometheus.go:225-234 | A sample lacking a label the predicate names is dropped, even when the required value is empty. |
| `Metrics.MatchingIsSubMapFilter` | test/extended/prometheus/prometheus.go:217-238 | Over samples with distinct label names, the result holds exactly the family's samples of which the predicate is a sub-map. |
| `Extract.CounterValue` | test/extended/prometheus/prometheus.go:243 | The nil-safe counter read: an absent counter reads as 0, and a non-zero reading is the sample's own counter value. |
| `Extract.GaugeValue` | test/extended/prometheus/prometheus.go:251 | The nil-safe gauge read: an absent gauge reads as 0, and a non-zero reading is the sample's own gauge value. |
| `Extract.FindCountersWithLabels` | test/extended/prometheus/prometheus.go:240-246 | One counter value per matched sample, in match order; an absent counter reads as zero and is kept. |
| `Extract.FindGaugesWithLabels` | test/extended/prometheus/prometheus.go:248-254 | One gauge value per matched sample, in match order; an absent gauge reads as zero and is kept. |
| `Extract.FirstValue` | test/extended/prometheus/prometheus.go:259-264 | A value found is that of the first label of that name, no earlier label having the name; nothing is found exactly when no label has that name. |
| `Extract.LabelValues` | test/extended/prometheus/prometheus.go:256-267 | At most one value per matched sample. |
| `Extract.FindMetricLabels` | test/extended/prometheus/prometheus.go:256-267 | The values of the first label of the wanted name across the matched samples, in match order, samples without it adding nothing; never more values than matches. |
| `Extract.LabelValuesAllPresent` | test/extended/prometheus/prometheus.go:256-267 | When every matched sample carries the label, there is exactly one value per sample and the i-th is the i-th sample's. |
| `Extract.LabelValuesNonePresent` | test/extended/prometheus/prometheus.go:256-267 | When no matched sample carries the label, the result is empty. |
| `Extract.FirstValueUnique` | test/extended/prometheus/prometheus.go:259-264 | With distinct label names, the first value of a label is found exactly when that label and value are present. |
| `Extract.MatchedFirstValue` | test/extended/prometheus/prometheus.go:224-230 | A name the matcher's scan recorded is found by the first-label lookup with the required value. |
| `Extract.ProjectPredicateLabel` | test/extended/prometheus/prometheus.go:256-267 | Projecting the matches onto a label the predicate fixes yields the required value once per matched sample. |
| `Extract.OneJobOfTwo` | test/extended/prometheus/prometheus.go:240-246 | With samples `{job="a"}=5` and `{job="b"}=1`, selecting job `a` yields one sample with counter value 5. |
| `Targets.LabelOrEmpty` | test/extended/prometheus/prometheus.go:178 | Go's map read: a missing label reads as `""`, and a non-empty reading is the label's value in the map. |
| `Targets.CheckLabels` | test/extended/prometheus/prometheus.go:176-182 | The label loop, in any map order and stopping at the first disagreement, answers true exactly when every entry agrees with the target's label (missing reading as `""`). |
| `Targets.Expect` | test/extended/prometheus/prometheus.go:174-195 | Passes exactly when some active target agrees on labels, has equal health and a matching URL; panics when the pattern is invalid and some target passes labels and health; otherwise fails with the predicate, health and pattern. |
| `Targets.ExpectOrderIndependent` | test/extended/prometheus/prometheus.go:174-194 | The outcome depends only on which targets are listed, not on their order. |
| `Targets.QualifyingTargetPasses` | test/extended/prometheus/prometheus.go:175-192 | One qualifying target anywhere in the list makes the call pass, whatever other targets sit beside it. |
| `Targets.MissingLabelReadsEmpty` | test/extended/prometheus/prometheus.go:178 | An entry requiring `""` is met by a target lacking that label, while the sample matcher drops a sample lacking it. |
| `Targets.OneHealthyTarget` | test/extended/prometheus/prometheus.go:174-194 | One `{job="x"}` target that is up: expecting "up" passes, expecting "down" fails naming the query. |
| `Helpers.All` | test/extended/prometheus/prometheus.go:153-161 | The result is the non-nil arguments in argument order. |
| `Helpers.NonNil` | test/extended/prometheus/prometheus.go:153-161 | Never more errors than arguments. |
| `Helpers.NonNilLength` | test/extended/prometheus/prometheus.go:153-161 | The number of collected errors is the number of non-nil arguments. |
| `Helpers.NonNilEmptyIff` | test/extended/prometheus/prometheus.go:153-161 | Nothing is collected if and only if every argument is nil. |
| `Helpers.NonNilInOrder` | test/extended/prometheus/prometheus.go:153-161 | The collected errors are the arguments with the nils dropped, order kept; an error is collected exactly when some argument holds it. |
| `Helpers.With` | test/extended/prometheus/prometheus.go:199-206 | A new map with `name` set to `value` and every other key mapped as in the receiver; no key is added or lost. |
| `Helpers.FindEnvVar` | test/extended/prometheus/prometheus.go:208-215 | The value of the first variable with the name, or `""` when none has it. |

## Left out

- The Ginkgo test bodies (lines 34-151): cluster setup, exec pods and assertions of the test harness.
- The retry loops of `wait.PollImmediate` (lines 80 and 119): a library call driven by the wall clock and sleeping; no poller exists in this file.
- Parsing of the text exposition format and JSON decoding of the targets response (lines 87-88 and 124): foreign decoders; the model starts from decoded families and target lists.
- Regular expressions (line 189): the caller passes a compile function giving a matcher or, for an invalid pattern, nothing; the model records the resulting panic, but not the library's syntax or search.
- The error text of `Expect` (line 194): formatting a Go map with `%v` is a library matter; the error carries the predicate, health and pattern as values instead.
- Counter and gauge values are `real`s copied through; floating point is not modelled, and the `> 0` checks belong to the test bodies.
- Samples keep only labels, counter and gauge; summaries, histograms and timestamps are not read by these helpers.
- `EnvVar` keeps only name and value; value-from references are not read by `findEnvVar`.
- `labels.With` leaving its receiver unchanged is automatic here: maps are values in Dafny, so Go's map aliasing is not modelled.
- The curl-over-pod helpers and the cluster lookups (lines 269-385): process, network and Kubernetes API calls.
