/**
 * Running metrics and service-level agreements as the coordinator sees them.
 *
 * The metrics manager is a collaborator: it is modelled as a map from a
 * metric's identity (metric URI, resource URI) to the set of listeners
 * attached to it while it runs. An SLA names regular-expression patterns
 * over resource URIs and, per pattern, the metrics to run for the resources
 * the pattern matches. The regular-expression engine is a parameter.
 */
module Metrics {
  import opened Wrappers

  /** The identity of a configured metric: two metrics are equal iff both URIs are. */
  datatype MetricId = MetricId(metricUri: string, resourceUri: string)

  /** Listeners of metric values: the two the coordinator wires in, and any other. */
  datatype MetricListener = CostEvaluator | SlaValidator | OtherListener(id: nat)

  /** The running metrics, each with the listeners attached to it. */
  type Running = map<MetricId, set<MetricListener>>

  /** The listeners every SLA-prescribed metric is started with. */
  const SlaListeners: set<MetricListener> := {CostEvaluator, SlaValidator}

  /** Registration parameters of a resource. */
  type Params = map<string, string>

  /** `Pattern.matches(regex, input)`: the regular-expression engine is not modelled. */
  type Matcher = (string, string) -> bool

  /**
   * A service-level agreement: the involved patterns and, per pattern, the
   * declared resource type, the registration parameters and the metrics to
   * run. A pattern missing from a map is a getter returning `null`.
   */
  datatype Sla = Sla(
    patterns: seq<string>,
    types: map<string, string>,
    parameters: map<string, Params>,
    metrics: map<string, seq<string>>)

  /** The listeners attached to `id`; none when it is not running. */
  function ListenersOf(run: Running, id: MetricId): set<MetricListener>
  {
    if id in run then run[id] else {}
  }

  /**
   * `startMetricAndAddRunningMetricListener`: start `id` unless it runs
   * already, then attach `ls` to it.
   */
  function Listen(run: Running, id: MetricId, ls: set<MetricListener>): (r: Running)
    ensures r.Keys == run.Keys + {id}
    ensures r[id] == ListenersOf(run, id) + ls
    ensures forall other :: other in run && other != id ==> r[other] == run[other]
  {
    run[id := ListenersOf(run, id) + ls]
  }

  /** `removeMetricListener`: detach `l` from `id` if it runs. */
  function Unlisten(run: Running, id: MetricId, l: MetricListener): (r: Running)
    ensures r.Keys == run.Keys
    ensures id in run ==> r[id] == run[id] - {l}
    ensures id !in run ==> r == run
    ensures forall other :: other in run && other != id ==> r[other] == run[other]
  {
    if id in run then run[id := run[id] - {l}] else run
  }

  /** `stopMetric`: the metric stops and its listeners are discarded. */
  function Stop(run: Running, id: MetricId): (r: Running)
    ensures id !in r
    ensures forall other :: other != id ==> (other in r <==> other in run)
    ensures forall other :: other in r ==> r[other] == run[other]
  {
    run - {id}
  }

  /** The running metrics after every metric of `ids` was started with listeners `ls`. */
  function Attach(run: Running, ids: set<MetricId>, ls: set<MetricListener>): (r: Running)
    ensures r.Keys == run.Keys + ids
  {
    map id | id in run.Keys + ids :: ListenersOf(run, id) + (if id in ids then ls else {})
  }

  /** The running metrics after every metric of `ids` was stopped. */
  function Detach(run: Running, ids: set<MetricId>): (r: Running)
    ensures r.Keys == run.Keys - ids
  {
    map id | id in run.Keys - ids :: run[id]
  }

  /** Starting one more metric extends an attachment by that metric. */
  lemma ListenExtendsAttach(run: Running, ids: set<MetricId>, id: MetricId, ls: set<MetricListener>)
    ensures Listen(Attach(run, ids, ls), id, ls) == Attach(run, ids + {id}, ls)
  {
    var lhs, rhs := Listen(Attach(run, ids, ls), id, ls), Attach(run, ids + {id}, ls);
    assert lhs.Keys == rhs.Keys;
    forall k | k in lhs ensures lhs[k] == rhs[k] {
      ListenExtendsAttachAt(run, ids, id, ls, k);
    }
  }

  lemma ListenExtendsAttachAt(run: Running, ids: set<MetricId>, id: MetricId, ls: set<MetricListener>, k: MetricId)
    requires k in run.Keys + ids + {id}
    ensures Listen(Attach(run, ids, ls), id, ls)[k] == Attach(run, ids + {id}, ls)[k]
  {
    var mid := Attach(run, ids, ls);
    assert ListenersOf(mid, k) == ListenersOf(run, k) + (if k in ids then ls else {});
  }

  /**
   * Detaching the two SLA listeners from a metric and then stopping it
   * extends a detachment by that metric.
   */
  lemma StopExtendsDetach(run: Running, ids: set<MetricId>, id: MetricId)
    ensures Stop(Unlisten(Unlisten(Detach(run, ids), id, CostEvaluator), id, SlaValidator), id)
      == Detach(run, ids + {id})
  {
    var lhs, rhs := Stop(Unlisten(Unlisten(Detach(run, ids), id, CostEvaluator), id, SlaValidator), id),
      Detach(run, ids + {id});
    assert lhs.Keys == rhs.Keys;
  }

  /** A metric the SLA starts that was not running carries exactly the two SLA listeners. */
  lemma FreshMetricListeners(run: Running, ids: set<MetricId>, id: MetricId)
    requires id in ids && id !in run
    ensures Attach(run, ids, SlaListeners)[id] == {CostEvaluator, SlaValidator}
  {
  }

  /**
   * Stopping what was started restores the running metrics when none of
   * them was running before.
   */
  lemma {:induction false} DetachUndoesAttach(run: Running, ids: set<MetricId>, ls: set<MetricListener>)
    requires forall id :: id in ids ==> id !in run
    ensures Detach(Attach(run, ids, ls), ids) == run
  {
    var r := Detach(Attach(run, ids, ls), ids);
    assert r.Keys == run.Keys;
    forall id | id in r ensures r[id] == run[id] {
      assert id !in ids;
    }
  }

  /** Stopping a set of metrics undoes any attachment within it. */
  lemma DetachAttachWithin(run: Running, a: set<MetricId>, b: set<MetricId>, ls: set<MetricListener>)
    requires a <= b
    ensures Detach(Attach(run, a, ls), b) == Detach(run, b)
  {
    var lhs, rhs := Detach(Attach(run, a, ls), b), Detach(run, b);
    assert lhs.Keys == rhs.Keys;
    forall id | id in lhs ensures lhs[id] == rhs[id] {
      assert id !in a;
    }
  }

  /** Attaching twice is attaching the union. */
  lemma AttachTwice(run: Running, a: set<MetricId>, b: set<MetricId>, ls: set<MetricListener>)
    ensures Attach(Attach(run, a, ls), b, ls) == Attach(run, a + b, ls)
  {
    var lhs, rhs := Attach(Attach(run, a, ls), b, ls), Attach(run, a + b, ls);
    forall k | k in lhs ensures lhs[k] == rhs[k] {
      AttachTwiceAt(run, a, b, ls, k);
    }
  }

  lemma AttachTwiceAt(run: Running, a: set<MetricId>, b: set<MetricId>, ls: set<MetricListener>, k: MetricId)
    requires k in run.Keys + a + b
    ensures Attach(Attach(run, a, ls), b, ls)[k] == Attach(run, a + b, ls)[k]
  {
    ListenersAfterAttach(run, a, ls, k);
    ListenersAfterAttach(Attach(run, a, ls), b, ls, k);
    ListenersAfterAttach(run, a + b, ls, k);
    AttachUnion(ListenersOf(run, k), ls, k in a, k in b);
  }

  /** Adding the same listeners once or twice gives the same set. */
  lemma AttachUnion(base: set<MetricListener>, ls: set<MetricListener>, inA: bool, inB: bool)
    ensures base + (if inA then ls else {}) + (if inB then ls else {}) == base + (if inA || inB then ls else {})
  {
  }

  /** The listeners of a metric after attaching `ls` to `ids`. */
  lemma ListenersAfterAttach(run: Running, ids: set<MetricId>, ls: set<MetricListener>, k: MetricId)
    ensures ListenersOf(Attach(run, ids, ls), k) == ListenersOf(run, k) + (if k in ids then ls else {})
  {
  }

  /** Stopping two sets of metrics in turn is stopping their union. */
  lemma DetachTwice(run: Running, a: set<MetricId>, b: set<MetricId>)
    ensures Detach(Detach(run, a), b) == Detach(run, a + b)
  {
    var lhs, rhs := Detach(Detach(run, a), b), Detach(run, a + b);
    assert lhs.Keys == rhs.Keys;
  }

  /** Stopping nothing changes nothing. */
  lemma DetachNothing(run: Running)
    ensures Detach(run, {}) == run
  {
    assert Detach(run, {}).Keys == run.Keys;
  }

  /** Attaching no metric changes nothing. */
  lemma AttachNothing(run: Running, ls: set<MetricListener>)
    ensures Attach(run, {}, ls) == run
  {
    var r := Attach(run, {}, ls);
    assert r.Keys == run.Keys;
    forall id | id in r ensures r[id] == run[id] {
    }
  }

  /** `getMetricsForResource(pattern)`: `None` is `null`. */
  function MetricsFor(s: Sla, p: string): (r: Option<seq<string>>)
    ensures r.None? <==> p !in s.metrics
  {
    if p in s.metrics then Some(s.metrics[p]) else None
  }

  /** The metric list of a pattern, a `null` list counting as empty (the way unconfiguring skips it). */
  function MetricList(s: Sla, p: string): seq<string>
  {
    if p in s.metrics then s.metrics[p] else []
  }

  /**
   * The metrics an SLA prescribes, through the patterns `ps`, for the
   * resources `uris`: metric `m` on `u` for every pattern `p` of `ps` that
   * matches `u` and lists `m`.
   */
  function Prescribed(s: Sla, matches: Matcher, ps: seq<string>, uris: set<string>): set<MetricId>
  {
    set p, u, m | p in ps && u in uris && matches(p, u) && m in MetricList(s, p) :: MetricId(m, u)
  }

  /** The metrics of the list `ms` on resource `u`. */
  function MetricsOn(ms: seq<string>, u: string): set<MetricId>
  {
    set m | m in ms :: MetricId(m, u)
  }

  /** One more metric of the list. */
  lemma MetricsOnPrefix(ms: seq<string>, k: nat, u: string)
    requires k < |ms|
    ensures MetricsOn(ms[..k + 1], u) == MetricsOn(ms[..k], u) + {MetricId(ms[k], u)}
  {
    assert ms[..k + 1] == ms[..k] + [ms[k]];
  }

  /** The metrics one pattern prescribes for one resource. */
  function PatternMetrics(s: Sla, matches: Matcher, p: string, u: string): set<MetricId>
  {
    if matches(p, u) then MetricsOn(MetricList(s, p), u) else {}
  }

  /** Prescribed metrics split over an appended pattern. */
  lemma PrescribedAppendPattern(s: Sla, matches: Matcher, ps: seq<string>, p: string, uris: set<string>)
    ensures Prescribed(s, matches, ps + [p], uris) == Prescribed(s, matches, ps, uris) + Prescribed(s, matches, [p], uris)
  {
  }

  /** Prescribed metrics of one pattern split over an added resource. */
  lemma PrescribedAddResource(s: Sla, matches: Matcher, ps: seq<string>, uris: set<string>, u: string)
    ensures Prescribed(s, matches, ps, uris + {u}) == Prescribed(s, matches, ps, uris) + Prescribed(s, matches, ps, {u})
  {
  }

  /** One pattern, one resource: exactly its listed metrics on that resource if it matches. */
  lemma PrescribedSingle(s: Sla, matches: Matcher, p: string, u: string)
    ensures Prescribed(s, matches, [p], {u}) == PatternMetrics(s, matches, p, u)
  {
    var lhs, rhs := Prescribed(s, matches, [p], {u}), PatternMetrics(s, matches, p, u);
    forall id | id in rhs ensures id in lhs {
      assert p in [p] && u in {u};
    }
  }

  /**
   * Everything prescribed through the patterns before index `i`, plus the
   * pattern at `i` for the resources in `done`, is what the patterns up to
   * and including `i` prescribe once `done` covers every resource.
   */
  lemma PrescribedNextPattern(s: Sla, matches: Matcher, i: nat, uris: set<string>)
    requires i < |s.patterns|
    ensures Prescribed(s, matches, s.patterns[..i + 1], uris)
      == Prescribed(s, matches, s.patterns[..i], uris) + Prescribed(s, matches, [s.patterns[i]], uris)
  {
    assert s.patterns[..i + 1] == s.patterns[..i] + [s.patterns[i]];
    PrescribedAppendPattern(s, matches, s.patterns[..i], s.patterns[i], uris);
  }

  /** One more pattern, for a single resource. */
  lemma PrescribedNextPatternOn(s: Sla, matches: Matcher, i: nat, u: string)
    requires i < |s.patterns|
    ensures Prescribed(s, matches, s.patterns[..i + 1], {u})
      == Prescribed(s, matches, s.patterns[..i], {u}) + PatternMetrics(s, matches, s.patterns[i], u)
    ensures !matches(s.patterns[i], u) ==>
      Prescribed(s, matches, s.patterns[..i + 1], {u}) == Prescribed(s, matches, s.patterns[..i], {u})
    ensures matches(s.patterns[i], u) && s.patterns[i] in s.metrics ==>
      Prescribed(s, matches, s.patterns[..i + 1], {u})
      == Prescribed(s, matches, s.patterns[..i], {u}) + MetricsOn(s.metrics[s.patterns[i]], u)
  {
    PrescribedNextPattern(s, matches, i, {u});
    PrescribedSingle(s, matches, s.patterns[i], u);
    if !matches(s.patterns[i], u) {
      assert Prescribed(s, matches, s.patterns[..i], {u}) + {} == Prescribed(s, matches, s.patterns[..i], {u});
    }
  }

  /** One pattern, one more resource. */
  lemma PrescribedNextResource(s: Sla, matches: Matcher, p: string, done: set<string>, u: string)
    ensures Prescribed(s, matches, [p], done + {u})
      == Prescribed(s, matches, [p], done) + PatternMetrics(s, matches, p, u)
  {
    PrescribedAddResource(s, matches, [p], done, u);
    PrescribedSingle(s, matches, p, u);
  }

  /** Pattern `p` would make configuring dereference a `null` metric list for `uris`. */
  predicate DereferencesNull(s: Sla, matches: Matcher, p: string, uris: set<string>)
  {
    p !in s.metrics && exists u :: u in uris && matches(p, u)
  }

  /**
   * The index of the first involved pattern, from `i` on, whose metric list
   * is `null` although some resource of `uris` matches it; `|s.patterns|`
   * when there is none. Configuring stops with a NullPointerException there.
   */
  function FirstNullFrom(s: Sla, matches: Matcher, uris: set<string>, i: nat): (n: nat)
    requires i <= |s.patterns|
    ensures i <= n <= |s.patterns|
    ensures forall j :: i <= j < n ==> !DereferencesNull(s, matches, s.patterns[j], uris)
    ensures n < |s.patterns| ==> DereferencesNull(s, matches, s.patterns[n], uris)
    decreases |s.patterns| - i
  {
    if i == |s.patterns| then i
    else if DereferencesNull(s, matches, s.patterns[i], uris) then i
    else FirstNullFrom(s, matches, uris, i + 1)
  }

  /**
   * Walking the patterns in order: a pattern before the first failing one
   * either is the first failing one or lets the walk go on.
   */
  lemma FirstNullStep(s: Sla, matches: Matcher, uris: set<string>, i: nat)
    requires i < |s.patterns| && i <= FirstNull(s, matches, uris)
    ensures DereferencesNull(s, matches, s.patterns[i], uris) ==> FirstNull(s, matches, uris) == i
    ensures !DereferencesNull(s, matches, s.patterns[i], uris) ==> i + 1 <= FirstNull(s, matches, uris)
  {
  }

  /** The first pattern that makes configuring for `uris` fail. */
  function FirstNull(s: Sla, matches: Matcher, uris: set<string>): nat
  {
    FirstNullFrom(s, matches, uris, 0)
  }

  /**
   * The metrics configuring `s` for `uris` starts before it completes or
   * fails: those prescribed by the patterns before the first failing one.
   */
  function Configured(s: Sla, matches: Matcher, uris: set<string>): set<MetricId>
  {
    Prescribed(s, matches, s.patterns[..FirstNull(s, matches, uris)], uris)
  }

  /** What configuring starts is always among what the SLA prescribes. */
  lemma ConfiguredWithinPrescribed(s: Sla, matches: Matcher, uris: set<string>)
    ensures Configured(s, matches, uris) <= Prescribed(s, matches, s.patterns, uris)
  {
    var k := FirstNull(s, matches, uris);
    forall id | id in Configured(s, matches, uris) ensures id in Prescribed(s, matches, s.patterns, uris) {
      var p, u, m :| p in s.patterns[..k] && u in uris && matches(p, u) && m in MetricList(s, p) && id == MetricId(m, u);
      assert p in s.patterns;
    }
  }

  /** An SLA that lists metrics for each of its patterns. */
  predicate Complete(s: Sla)
  {
    forall p :: p in s.patterns ==> p in s.metrics
  }

  /** A complete SLA never fails to configure: it starts every prescribed metric. */
  lemma CompleteConfiguresAll(s: Sla, matches: Matcher, uris: set<string>)
    requires Complete(s)
    ensures FirstNull(s, matches, uris) == |s.patterns|
    ensures Configured(s, matches, uris) == Prescribed(s, matches, s.patterns, uris)
  {
    assert s.patterns[..|s.patterns|] == s.patterns;
  }

  /**
   * Whether configuring fails depends only on the patterns whose list is
   * `null`: when it fails, a matching resource exists for that pattern.
   */
  lemma ConfigureFailureWitness(s: Sla, matches: Matcher, uris: set<string>)
    requires FirstNull(s, matches, uris) < |s.patterns|
    ensures exists p, u :: p in s.patterns && p !in s.metrics && u in uris && matches(p, u)
  {
    var p := s.patterns[FirstNull(s, matches, uris)];
    var u :| u in uris && matches(p, u);
  }
}
