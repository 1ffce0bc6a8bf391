/**
 * The sample model of a decoded metrics exposition and the label matcher
 * `findMetricsWithLabels` of test/extended/prometheus/prometheus.go.
 *
 * A family holds samples; a sample carries (name, value) label pairs and,
 * depending on the family's kind, a counter or a gauge value. A label
 * predicate is a map from label name to required value.
 */
module Metrics {
  import opened Wrappers

  datatype LabelPair = LabelPair(name: string, value: string)

  datatype MetricKind = Counter | Gauge | Summary | Untyped | Histogram

  /** Counter and gauge values are only copied through, never computed with. */
  datatype Sample = Sample(labels: seq<LabelPair>, counter: Option<real>, gauge: Option<real>)

  datatype Family = Family(name: string, kind: MetricKind, samples: seq<Sample>)

  type Predicate = map<string, string>

  /** The exposition format gives every label of one sample a distinct name. */
  predicate UniqueNames(labels: seq<LabelPair>)
  {
    forall i, j :: 0 <= i < j < |labels| ==> labels[i].name != labels[j].name
  }

  /** The intended meaning of a match: the predicate is a sub-map of the sample's labels. */
  ghost predicate SubMap(pred: Predicate, labels: seq<LabelPair>)
  {
    forall k :: k in pred ==> LabelPair(k, pred[k]) in labels
  }

  /**
   * The names the per-sample scan of the matcher records: scanning the labels
   * in order, a label whose name the predicate mentions is recorded when its
   * value is the required one, and the scan stops at the first one whose value
   * differs.
   */
  function Matched(labels: seq<LabelPair>, pred: Predicate): (m: set<string>)
    ensures m <= pred.Keys
  {
    if labels == [] then {}
    else if labels[0].name !in pred then Matched(labels[1..], pred)
    else if pred[labels[0].name] != labels[0].value then {}
    else {labels[0].name} + Matched(labels[1..], pred)
  }

  /** The per-sample scan of `findMetricsWithLabels`: the set of predicate names whose label agrees, up to the first conflict. */
  method ScanLabels(sampleLabels: seq<LabelPair>, labels: Predicate) returns (matched: set<string>)
    ensures matched == Matched(sampleLabels, labels)
  {
    matched := {};
    for j := 0 to |sampleLabels|
      invariant matched + Matched(sampleLabels[j..], labels) == Matched(sampleLabels, labels)
    {
      var l := sampleLabels[j];
      assert sampleLabels[j..][1..] == sampleLabels[j + 1..];
      if l.name in labels {
        if labels[l.name] != l.value {
          break;
        }
        matched := matched + {l.name};
      }
    }
  }

  /**
   * A sample is kept when it recorded as many names as the predicate has
   * entries, that is, when it recorded every name the predicate mentions.
   */
  predicate Selected(s: Sample, pred: Predicate)
    ensures Selected(s, pred) <==> Matched(s.labels, pred) == pred.Keys
  {
    SubsetOfEqualSize(Matched(s.labels, pred), pred.Keys);
    |Matched(s.labels, pred)| == |pred|
  }

  /** The samples the matcher keeps, in family order. */
  function MatchingSamples(samples: seq<Sample>, pred: Predicate): (r: seq<Sample>)
    ensures |r| <= |samples|
  {
    if samples == [] then []
    else
      var last := samples[|samples| - 1];
      MatchingSamples(samples[..|samples| - 1], pred) + (if Selected(last, pred) then [last] else [])
  }

  /** The matcher's result for a family that may be absent (a nil family has no samples). */
  function MatcherResult(f: Option<Family>, pred: Predicate): seq<Sample>
  {
    if f.None? then [] else MatchingSamples(f.value.samples, pred)
  }

  /** `findMetricsWithLabels`: the samples of `f` (nil: none) that the predicate selects. */
  method FindMetricsWithLabels(f: Option<Family>, labels: Predicate) returns (result: seq<Sample>)
    ensures f.None? ==> result == []
    ensures f.Some? ==> result == MatchingSamples(f.value.samples, labels)
    ensures result == MatcherResult(f, labels)
  {
    result := [];
    if f.None? {
      return;
    }
    var metrics := f.value.samples;
    for i := 0 to |metrics|
      invariant result == MatchingSamples(metrics[..i], labels)
    {
      var m := metrics[i];
      var matched := ScanLabels(m.labels, labels);
      assert metrics[..i + 1][..i] == metrics[..i];
      if |matched| != |labels| {
        continue;
      }
      result := result + [m];
    }
    assert metrics[..|metrics|] == metrics;
  }

  // ---------------------------------------------------------------------------
  // What the matcher's result is.

  /** Every sample is kept by the empty predicate, so the whole family comes back in order. */
  lemma {:induction false} EmptyPredicateKeepsAll(samples: seq<Sample>)
    ensures MatchingSamples(samples, map[]) == samples
  {
    if samples != [] {
      EmptyPredicateKeepsAll(samples[..|samples| - 1]);
    }
  }

  /** The result is the family with some samples dropped, order kept. */
  lemma {:induction false} MatchingIsSubsequence(samples: seq<Sample>, pred: Predicate)
    ensures IsSubsequence(MatchingSamples(samples, pred), samples)
  {
    if samples != [] {
      var init := samples[..|samples| - 1];
      var last := samples[|samples| - 1];
      MatchingIsSubsequence(init, pred);
      var r := MatchingSamples(samples, pred);
      if Selected(last, pred) {
        assert r[..|r| - 1] == MatchingSamples(init, pred);
      } else {
        assert r == MatchingSamples(init, pred);
        SubsequenceOfLonger(r, init, last);
      }
    }
  }

  lemma {:induction false} SubsequenceOfLonger<T>(a: seq<T>, b: seq<T>, x: T)
    requires IsSubsequence(a, b)
    ensures IsSubsequence(a, b + [x])
  {
  }

  /** No sample is added or repeated: each occurs in the result at most as often as in the family. */
  lemma {:induction false} MatchingAddsNothing(samples: seq<Sample>, pred: Predicate)
    ensures multiset(MatchingSamples(samples, pred)) <= multiset(samples)
  {
    if samples != [] {
      var init := samples[..|samples| - 1];
      MatchingAddsNothing(init, pred);
      assert samples == init + [samples[|samples| - 1]];
    }
  }

  /** Membership in the result is exactly "in the family and selected". */
  lemma {:induction false} MatchingMembership(samples: seq<Sample>, pred: Predicate, s: Sample)
    ensures s in MatchingSamples(samples, pred) <==> s in samples && Selected(s, pred)
  {
    if samples != [] {
      var init := samples[..|samples| - 1];
      MatchingMembership(init, pred, s);
      assert samples == init + [samples[|samples| - 1]];
    }
  }

  // ---------------------------------------------------------------------------
  // Selection against the sub-map meaning.

  /** Every name the scan records is carried by the sample with the required value. */
  lemma {:induction false} MatchedSound(labels: seq<LabelPair>, pred: Predicate, k: string)
    requires k in Matched(labels, pred)
    ensures LabelPair(k, pred[k]) in labels
  {
    if labels[0].name != k {
      MatchedSound(labels[1..], pred, k);
    }
  }

  lemma SubsetOfEqualSize(a: set<string>, b: set<string>)
    ensures a <= b && |a| == |b| ==> a == b
  {
    if a <= b && |a| == |b| {
      assert a * b == a;
      assert a + b == b;
      assert |b - a| == 0;
    }
  }

  /** A selected sample carries every predicate entry with its exact value. */
  lemma SelectedIsSubMap(s: Sample, pred: Predicate)
    requires Selected(s, pred)
    ensures SubMap(pred, s.labels)
  {
    SubsetOfEqualSize(Matched(s.labels, pred), pred.Keys);
    forall k | k in pred ensures LabelPair(k, pred[k]) in s.labels {
      MatchedSound(s.labels, pred, k);
    }
  }

  /** No label the predicate names carries another value. */
  ghost predicate NoConflict(labels: seq<LabelPair>, pred: Predicate)
  {
    forall i :: 0 <= i < |labels| && labels[i].name in pred ==> labels[i].value == pred[labels[i].name]
  }

  ghost function Names(labels: seq<LabelPair>): set<string>
  {
    set i | 0 <= i < |labels| :: labels[i].name
  }

  /** Without a conflicting label the scan records every predicate name the sample carries. */
  lemma {:induction false} MatchedWithoutConflict(labels: seq<LabelPair>, pred: Predicate)
    requires NoConflict(labels, pred)
    ensures Matched(labels, pred) == Names(labels) * pred.Keys
  {
    if labels != [] {
      var rest := labels[1..];
      assert NoConflict(rest, pred) by {
        forall i | 0 <= i < |rest| && rest[i].name in pred
          ensures rest[i].value == pred[rest[i].name]
        {
          assert rest[i] == labels[i + 1];
        }
      }
      MatchedWithoutConflict(rest, pred);
      assert Names(labels) == {labels[0].name} + Names(rest) by {
        forall n | n in Names(labels) ensures n in {labels[0].name} + Names(rest) {
          var i :| 0 <= i < |labels| && labels[i].name == n;
          if i > 0 {
            assert rest[i - 1].name == n;
          }
        }
        forall n | n in Names(rest) ensures n in Names(labels) {
          var i :| 0 <= i < |rest| && rest[i].name == n;
          assert labels[i + 1].name == n;
        }
      }
    }
  }

  /** With distinct label names, a sample carrying every predicate entry is selected. */
  lemma SubMapIsSelected(s: Sample, pred: Predicate)
    requires UniqueNames(s.labels)
    requires SubMap(pred, s.labels)
    ensures Selected(s, pred)
  {
    var labels := s.labels;
    forall i | 0 <= i < |labels| && labels[i].name in pred
      ensures labels[i].value == pred[labels[i].name]
    {
      var k := labels[i].name;
      assert LabelPair(k, pred[k]) in labels;
      var j :| 0 <= j < |labels| && labels[j] == LabelPair(k, pred[k]);
      assert i == j;
    }
    MatchedWithoutConflict(labels, pred);
    forall k | k in pred ensures k in Names(labels) {
      var j :| 0 <= j < |labels| && labels[j] == LabelPair(k, pred[k]);
    }
    assert Matched(labels, pred) == pred.Keys;
  }

  /** With distinct label names the matcher keeps a sample exactly when the predicate is a sub-map of its labels. */
  lemma SelectedIffSubMap(s: Sample, pred: Predicate)
    requires UniqueNames(s.labels)
    ensures Selected(s, pred) <==> SubMap(pred, s.labels)
  {
    if Selected(s, pred) {
      SelectedIsSubMap(s, pred);
    }
    if SubMap(pred, s.labels) {
      SubMapIsSelected(s, pred);
    }
  }

  /** A sample lacking a label the predicate names is never kept, even when the required value is "". */
  lemma MissingLabelExcludes(s: Sample, pred: Predicate, k: string)
    requires k in pred
    requires forall i :: 0 <= i < |s.labels| ==> s.labels[i].name != k
    ensures !Selected(s, pred)
  {
    assert LabelPair(k, pred[k]) !in s.labels;
    if Selected(s, pred) {
      SelectedIsSubMap(s, pred);
    }
  }

  /** Over a family whose samples have distinct label names, the result is exactly the samples the predicate is a sub-map of. */
  lemma MatchingIsSubMapFilter(samples: seq<Sample>, pred: Predicate)
    requires forall i :: 0 <= i < |samples| ==> UniqueNames(samples[i].labels)
    ensures forall s :: s in MatchingSamples(samples, pred) <==> s in samples && SubMap(pred, s.labels)
  {
    forall s ensures s in MatchingSamples(samples, pred) <==> s in samples && SubMap(pred, s.labels) {
      MatchingMembership(samples, pred, s);
      if s in samples {
        SelectedIffSubMap(s, pred);
      }
    }
  }
}
