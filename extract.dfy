/**
 * The value extractors `findCountersWithLabels`, `findGaugesWithLabels` and
 * `findMetricLabels` of test/extended/prometheus/prometheus.go: projections
 * over the samples the label matcher keeps.
 */
module Extract {
  import opened Wrappers
  import opened Metrics

  /** A sample's counter value; an absent counter reads as zero, as the nil-safe getter does. */
  function CounterValue(s: Sample): (v: real)
    ensures s.counter.None? ==> v == 0.0
    ensures v != 0.0 ==> s.counter == Some(v)
  {
    if s.counter.Some? then s.counter.value else 0.0
  }

  /** A sample's gauge value; an absent gauge reads as zero. */
  function GaugeValue(s: Sample): (v: real)
    ensures s.gauge.None? ==> v == 0.0
    ensures v != 0.0 ==> s.gauge == Some(v)
  {
    if s.gauge.Some? then s.gauge.value else 0.0
  }

  /** `findCountersWithLabels`: one counter value per matched sample, in match order, zeros included. */
  method FindCountersWithLabels(f: Option<Family>, labels: Predicate) returns (result: seq<real>)
    ensures |result| == |MatcherResult(f, labels)|
    ensures forall i :: 0 <= i < |result| ==> result[i] == CounterValue(MatcherResult(f, labels)[i])
  {
    result := [];
    var ms := FindMetricsWithLabels(f, labels);
    for i := 0 to |ms|
      invariant |result| == i
      invariant forall j :: 0 <= j < i ==> result[j] == CounterValue(ms[j])
    {
      result := result + [CounterValue(ms[i])];
    }
  }

  /** `findGaugesWithLabels`: one gauge value per matched sample, in match order, zeros included. */
  method FindGaugesWithLabels(f: Option<Family>, labels: Predicate) returns (result: seq<real>)
    ensures |result| == |MatcherResult(f, labels)|
    ensures forall i :: 0 <= i < |result| ==> result[i] == GaugeValue(MatcherResult(f, labels)[i])
  {
    result := [];
    var ms := FindMetricsWithLabels(f, labels);
    for i := 0 to |ms|
      invariant |result| == i
      invariant forall j :: 0 <= j < i ==> result[j] == GaugeValue(ms[j])
    {
      result := result + [GaugeValue(ms[i])];
    }
  }

  /** The value of the first label called `name`, if there is one. */
  function FirstValue(labels: seq<LabelPair>, name: string): (r: Option<string>)
    ensures r.Some? ==> exists i :: 0 <= i < |labels| && labels[i] == LabelPair(name, r.value)
                              && forall j :: 0 <= j < i ==> labels[j].name != name
    ensures r.None? <==> forall i :: 0 <= i < |labels| ==> labels[i].name != name
  {
    if labels == [] then None
    else if labels[0].name == name then Some(labels[0].value)
    else FirstValue(labels[1..], name)
  }

  /** For each sample in order, the value of its first label called `name`; samples without one add nothing. */
  function LabelValues(samples: seq<Sample>, name: string): (r: seq<string>)
    ensures |r| <= |samples|
  {
    if samples == [] then []
    else
      var v := FirstValue(samples[|samples| - 1].labels, name);
      LabelValues(samples[..|samples| - 1], name) + (if v.Some? then [v.value] else [])
  }

  /** `findMetricLabels`: the values of label `wanted` over the matched samples, in match order. */
  method FindMetricLabels(f: Option<Family>, labels: Predicate, wanted: string) returns (result: seq<string>)
    ensures result == LabelValues(MatcherResult(f, labels), wanted)
    ensures |result| <= |MatcherResult(f, labels)|
  {
    result := [];
    var ms := FindMetricsWithLabels(f, labels);
    for i := 0 to |ms|
      invariant result == LabelValues(ms[..i], wanted)
    {
      var m := ms[i];
      for j := 0 to |m.labels|
        invariant FirstValue(m.labels, wanted) == FirstValue(m.labels[j..], wanted)
      {
        var l := m.labels[j];
        assert m.labels[j..][1..] == m.labels[j + 1..];
        if l.name == wanted {
          result := result + [l.value];
          break;
        }
      }
      assert ms[..i + 1][..i] == ms[..i];
    }
    assert ms[..|ms|] == ms;
  }

  // ---------------------------------------------------------------------------
  // What the label projection yields.

  /** When every sample carries the label, there is exactly one value per sample, in order. */
  lemma {:induction false} LabelValuesAllPresent(samples: seq<Sample>, name: string)
    requires forall i :: 0 <= i < |samples| ==> FirstValue(samples[i].labels, name).Some?
    ensures |LabelValues(samples, name)| == |samples|
    ensures forall i :: 0 <= i < |samples| ==>
      LabelValues(samples, name)[i] == FirstValue(samples[i].labels, name).value
  {
    if samples != [] {
      var init := samples[..|samples| - 1];
      LabelValuesAllPresent(init, name);
      var r := LabelValues(samples, name);
      assert r == LabelValues(init, name) + [FirstValue(samples[|samples| - 1].labels, name).value];
      forall i | 0 <= i < |samples| ensures r[i] == FirstValue(samples[i].labels, name).value {
        if i < |init| {
          assert samples[i] == init[i];
        }
      }
    }
  }

  /** When no sample carries the label, nothing is produced. */
  lemma {:induction false} LabelValuesNonePresent(samples: seq<Sample>, name: string)
    requires forall i :: 0 <= i < |samples| ==> FirstValue(samples[i].labels, name).None?
    ensures LabelValues(samples, name) == []
  {
    if samples != [] {
      LabelValuesNonePresent(samples[..|samples| - 1], name);
    }
  }

  /** With distinct label names, the first value of a label is its only value. */
  lemma FirstValueUnique(labels: seq<LabelPair>, name: string, v: string)
    requires UniqueNames(labels)
    ensures FirstValue(labels, name) == Some(v) <==> LabelPair(name, v) in labels
  {
  }

  /** A name the scan records is found by the first-label lookup with the required value. */
  lemma {:induction false} MatchedFirstValue(labels: seq<LabelPair>, pred: Predicate, n: string)
    requires n in Matched(labels, pred)
    ensures FirstValue(labels, n) == Some(pred[n])
  {
    if labels[0].name != n {
      MatchedFirstValue(labels[1..], pred, n);
    }
  }

  /**
   * Projecting the matches onto a label the predicate itself fixes yields the
   * required value once per matched sample, whatever the labels' names.
   */
  lemma ProjectPredicateLabel(samples: seq<Sample>, pred: Predicate, n: string)
    requires n in pred
    ensures |LabelValues(MatchingSamples(samples, pred), n)| == |MatchingSamples(samples, pred)|
    ensures forall i :: 0 <= i < |MatchingSamples(samples, pred)| ==>
      LabelValues(MatchingSamples(samples, pred), n)[i] == pred[n]
  {
    var ms := MatchingSamples(samples, pred);
    forall i | 0 <= i < |ms| ensures FirstValue(ms[i].labels, n) == Some(pred[n]) {
      MatchingMembership(samples, pred, ms[i]);
      SubsetOfEqualSize(Matched(ms[i].labels, pred), pred.Keys);
      MatchedFirstValue(ms[i].labels, pred, n);
    }
    LabelValuesAllPresent(ms, n);
  }

  /** Two samples of one counter, one per job: selecting one job yields that job's sample and its value. */
  lemma OneJobOfTwo()
    ensures var f := Family("requests_total", Counter,
                            [Sample([LabelPair("job", "a")], Some(5.0), None),
                             Sample([LabelPair("job", "b")], Some(1.0), None)]);
            var ms := MatcherResult(Some(f), map["job" := "a"]);
            |ms| == 1 && CounterValue(ms[0]) == 5.0
  {
  }
}
