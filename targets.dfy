/**
 * The decoded target list of the metrics server's targets endpoint and the
 * health check `prometheusTargets.Expect` of
 * test/extended/prometheus/prometheus.go.
 *
 * Regular expressions are a library matter: the caller passes `compile`,
 * which gives the matcher of a valid pattern (an unanchored search, so a
 * pattern must carry its own anchors) and None for a pattern the library
 * refuses.
 */
module Targets {
  import opened Wrappers
  import Metrics

  type Labels = map<string, string>

  type Matcher = string -> bool

  datatype ActiveTarget = ActiveTarget(labels: Labels, health: string, scrapeUrl: string)

  datatype TargetList = TargetList(status: string, activeTargets: seq<ActiveTarget>)

  /** The error `Expect` reports: no target for this predicate, health and pattern. */
  datatype ExpectError = NoMatch(labels: Labels, health: string, pattern: string)

  /**
   * What a call of `Expect` comes to: nil, the error value, or the panic of
   * compiling a pattern the regular-expression library refuses.
   */
  datatype Outcome = Pass | Fail(error: ExpectError) | PatternPanic

  /** A label lookup in a Go map: a missing name reads as the empty string. */
  function LabelOrEmpty(m: Labels, k: string): (v: string)
    ensures k !in m ==> v == ""
    ensures v != "" ==> k in m && m[k] == v
  {
    if k in m then m[k] else ""
  }

  /** Every predicate entry equals the target's label, missing labels reading as "". */
  predicate Agrees(targetLabels: Labels, l: Labels)
  {
    forall k :: k in l ==> LabelOrEmpty(targetLabels, k) == l[k]
  }

  /** A target that passes the label and health checks, so the scan reaches the pattern. */
  predicate ReachesPattern(t: ActiveTarget, l: Labels, health: string)
  {
    Agrees(t.labels, l) && t.health == health
  }

  /** A target that passes all three checks. */
  predicate Qualifies(t: ActiveTarget, l: Labels, health: string, urlMatches: Matcher)
  {
    ReachesPattern(t, l, health) && urlMatches(t.scrapeUrl)
  }

  /**
   * The outcome stated over the targets as a collection: the pattern is
   * compiled only when some target passes the label and health checks, and
   * then the call passes exactly when some target also has a matching URL.
   */
  ghost function ExpectOutcome(targets: seq<ActiveTarget>, l: Labels, health: string, pattern: string,
                               compile: string -> Option<Matcher>): Outcome
  {
    if !exists t :: t in targets && ReachesPattern(t, l, health) then Fail(NoMatch(l, health, pattern))
    else if compile(pattern).None? then PatternPanic
    else if exists t :: t in targets && Qualifies(t, l, health, compile(pattern).value) then Pass
    else Fail(NoMatch(l, health, pattern))
  }

  /** `prometheusTargets.Expect`: scan the active targets for one passing every check. */
  method Expect(targets: TargetList, l: Labels, health: string, scrapeURLPattern: string,
                compile: string -> Option<Matcher>) returns (r: Outcome)
    ensures r == ExpectOutcome(targets.activeTargets, l, health, scrapeURLPattern, compile)
  {
    var ts := targets.activeTargets;
    for i := 0 to |ts|
      invariant forall j :: 0 <= j < i ==>
        || !ReachesPattern(ts[j], l, health)
        || (compile(scrapeURLPattern).Some? && !Qualifies(ts[j], l, health, compile(scrapeURLPattern).value))
    {
      var target := ts[i];
      var agree := CheckLabels(target.labels, l);
      if !agree {
        continue;
      }
      if health != target.health {
        continue;
      }
      assert target in ts;
      var re := compile(scrapeURLPattern);
      if re.None? {
        return PatternPanic;
      }
      if !re.value(target.scrapeUrl) {
        continue;
      }
      return Pass;
    }
    return Fail(NoMatch(l, health, scrapeURLPattern));
  }

  /**
   * The label loop of `Expect`: visits the predicate's entries in whatever
   * order the map yields them and stops at the first disagreeing one.
   */
  method CheckLabels(targetLabels: Labels, l: Labels) returns (agree: bool)
    ensures agree <==> Agrees(targetLabels, l)
  {
    agree := true;
    var pending := l.Keys;
    while pending != {}
      invariant pending <= l.Keys
      invariant forall k :: k in l.Keys - pending ==> LabelOrEmpty(targetLabels, k) == l[k]
      decreases pending
    {
      var k :| k in pending;
      if LabelOrEmpty(targetLabels, k) != l[k] {
        agree := false;
        break;
      }
      pending := pending - {k};
    }
  }

  // ---------------------------------------------------------------------------
  // Properties of the outcome.

  /** The outcome depends only on which targets are listed, not on their order or repetition. */
  lemma ExpectOrderIndependent(a: seq<ActiveTarget>, b: seq<ActiveTarget>, l: Labels, health: string,
                               pattern: string, compile: string -> Option<Matcher>)
    requires forall t :: t in a <==> t in b
    ensures ExpectOutcome(a, l, health, pattern, compile) == ExpectOutcome(b, l, health, pattern, compile)
  {
  }

  /**
   * A qualifying target makes the call pass wherever it stands in the list,
   * whatever else is listed beside it (say, a target with the same labels and
   * health but a URL the pattern rejects).
   */
  lemma QualifyingTargetPasses(targets: seq<ActiveTarget>, i: nat, l: Labels, health: string,
                               pattern: string, compile: string -> Option<Matcher>)
    requires i < |targets|
    requires compile(pattern).Some?
    requires Qualifies(targets[i], l, health, compile(pattern).value)
    ensures ExpectOutcome(targets, l, health, pattern, compile) == Pass
  {
  }

  /**
   * The two notions of "satisfies the predicate" differ on a missing label:
   * a predicate entry requiring the empty value is met by a target lacking
   * that label, while the sample matcher drops a sample lacking it.
   */
  lemma MissingLabelReadsEmpty(targetLabels: Labels, s: Metrics.Sample, k: string)
    requires k !in targetLabels
    requires forall i :: 0 <= i < |s.labels| ==> s.labels[i].name != k
    ensures Agrees(targetLabels, map[k := ""])
    ensures !Metrics.Selected(s, map[k := ""])
  {
    Metrics.MissingLabelExcludes(s, map[k := ""], k);
  }

  /** One healthy target: asking for it as "up" passes, asking for it as "down" fails and names the query. */
  lemma OneHealthyTarget(pattern: string, compile: string -> Option<Matcher>)
    requires compile(pattern).Some? && compile(pattern).value("https://h/metrics")
    ensures var ts := [ActiveTarget(map["job" := "x"], "up", "https://h/metrics")];
            && ExpectOutcome(ts, map["job" := "x"], "up", pattern, compile) == Pass
            && ExpectOutcome(ts, map["job" := "x"], "down", pattern, compile) == Fail(NoMatch(map["job" := "x"], "down", pattern))
  {
    var t := ActiveTarget(map["job" := "x"], "up", "https://h/metrics");
    assert Qualifies(t, map["job" := "x"], "up", compile(pattern).value);
    assert t in [t];
  }
}
