/**
 * Rules of the rule processor, the events they are matched against, the
 * rule-to-query builder and the meaning of a generated query.
 *
 * The streaming engine (Esper) is not modelled: a generated query is given its
 * meaning here directly (each pattern is an SQL LIKE pattern over one field of
 * a metric event; the condition is decided by an oracle, since conditions such
 * as `value > 10.0` are floating point), and a custom statement is decided by
 * the same oracle.
 */
module RuleQuery {
  import opened Wrappers

  /** The action a rule asks the action executor to carry out. */
  datatype Action = Action(name: string)

  /** A configured metric: identity (metric URI, resource URI) and its poll interval. */
  datatype Metric = Metric(metricUri: string, resourceUri: string, pollInterval: int)

  /** A metric-value event: the metric, its value and the owning resource's type. */
  datatype MetricEvent = MetricEvent(metric: Metric, value: real, resourceType: string)

  /** A raw measurement event pushed by a probe. */
  datatype MeasurementEvent = MeasurementEvent(instanceUri: string, capabilityUri: string, timestamp: int, value: real)

  /** Everything the processor can hand to the engine's runtime. */
  datatype Event = MetricValue(metricEvent: MetricEvent) | Measurement(measurement: MeasurementEvent)

  /**
   * A rule: a unique name, an optional custom statement that bypasses query
   * generation, three optional LIKE patterns, an optional condition and an
   * optional action. A `None` field is a Java `null`.
   */
  datatype Rule = Rule(
    name: string,
    customStatement: Option<string>,
    resourceUri: Option<string>,
    metricUri: Option<string>,
    resourceTypeUri: Option<string>,
    condition: Option<string>,
    action: Option<Action>)

  /**
   * The engine's verdict on a condition or on a custom statement for one
   * event: the part of matching that the model does not interpret.
   */
  type Oracle = (string, Event) -> bool

  /** The query every generated statement starts with. */
  const SelectMetricEvents: string := "select metric, value from IMetricEvent"

  /** The filter conjuncts of the patterns that are set, in query order. */
  function Filters(r: Rule): (fs: seq<string>)
    ensures |fs| <= 3
    ensures fs == [] <==> r.resourceUri.None? && r.metricUri.None? && r.resourceTypeUri.None?
  {
    (if r.resourceUri.Some? then [LikeClause("metric.resourceURI", r.resourceUri.value)] else [])
    + (if r.metricUri.Some? then [LikeClause("metric.metricURI", r.metricUri.value)] else [])
    + (if r.resourceTypeUri.Some? then [LikeClause("resourceType", r.resourceTypeUri.value)] else [])
  }

  /** The filter `field like 'pattern'`. */
  function LikeClause(field: string, pattern: string): string
  {
    field + " like '" + pattern + "'"
  }

  /** The conjuncts joined by " and ". */
  function Conjunction(fs: seq<string>): string
  {
    if |fs| <= 1 then (if fs == [] then "" else fs[0])
    else fs[0] + " and " + Conjunction(fs[1..])
  }

  /** The suffix of `s` of the length of `w` is `w`. */
  predicate EndsWith(s: string, w: string)
  {
    |w| <= |s| && s[|s| - |w|..] == w
  }

  /**
   * The statement text compiled for a rule: the custom statement verbatim, or
   * the metric-event selection, filtered by the set patterns and restricted
   * by the condition when there is one.
   */
  function BuildQuery(r: Rule): (q: string)
    ensures r.customStatement.Some? ==> q == r.customStatement.value
    ensures r.customStatement.None? ==> SelectMetricEvents <= q
    ensures r.customStatement.None? && r.condition.Some? ==> EndsWith(q, " where " + r.condition.value)
    ensures r.customStatement.None? && Filters(r) == [] && r.condition.None? ==> q == SelectMetricEvents
  {
    match r.customStatement
    case Some(text) => text
    case None =>
      var fs := Filters(r);
      var filtered := SelectMetricEvents + (if fs == [] then "" else "(" + Conjunction(fs) + ")");
      var q := filtered + (if r.condition.Some? then " where " + r.condition.value else "");
      assert q[..|SelectMetricEvents|] == SelectMetricEvents;
      q
  }

  /**
   * SQL LIKE as the engine evaluates it: '%' matches any run of characters,
   * '_' any single character, every other character itself.
   */
  predicate Like(p: string, s: string)
    decreases |p| + |s|
  {
    if p == [] then s == []
    else if p[0] == '%' then Like(p[1..], s) || (s != [] && Like(p, s[1..]))
    else s != [] && (p[0] == '_' || p[0] == s[0]) && Like(p[1..], s[1..])
  }

  /** A pattern with no wildcard character. */
  predicate IsLiteral(p: string)
  {
    forall i :: 0 <= i < |p| ==> p[i] != '%' && p[i] != '_'
  }

  /** The pattern "%" matches every string. */
  lemma {:induction false} PercentMatchesAll(s: string)
    ensures Like("%", s)
  {
    if s != [] {
      PercentMatchesAll(s[1..]);
    }
  }

  /** A literal pattern matches exactly the string equal to it. */
  lemma {:induction false} LiteralMatchesItselfOnly(p: string, s: string)
    requires IsLiteral(p)
    ensures Like(p, s) <==> p == s
    decreases |p|
  {
    if p != [] {
      assert IsLiteral(p[1..]) by {
        forall i | 0 <= i < |p[1..]| ensures p[1..][i] != '%' && p[1..][i] != '_' {
          assert p[1..][i] == p[i + 1];
        }
      }
      if s != [] {
        LiteralMatchesItselfOnly(p[1..], s[1..]);
        if p[0] == s[0] && p[1..] == s[1..] {
          assert p == [p[0]] + p[1..] && s == [s[0]] + s[1..];
        }
      }
    }
  }

  /**
   * What the statement generated for rule `r` (no custom statement) selects:
   * metric events whose fields match every pattern that is set and for which
   * the condition, when set, holds.
   */
  predicate GeneratedMatches(r: Rule, e: MetricEvent, holds: Oracle)
  {
    && (r.resourceUri.None? || Like(r.resourceUri.value, e.metric.resourceUri))
    && (r.metricUri.None? || Like(r.metricUri.value, e.metric.metricUri))
    && (r.resourceTypeUri.None? || Like(r.resourceTypeUri.value, e.resourceType))
    && (r.condition.None? || holds(r.condition.value, MetricValue(e)))
  }

  /** Whether the statement compiled for `r` reports event `ev`. */
  predicate RuleMatches(r: Rule, ev: Event, holds: Oracle)
  {
    match r.customStatement
    case Some(text) => holds(text, ev)
    case None => ev.MetricValue? && GeneratedMatches(r, ev.metricEvent, holds)
  }

  /** A custom statement is compiled as given: no pattern field is consulted. */
  lemma CustomStatementIgnoresPatterns(r: Rule, text: string, r2: Rule)
    requires r.customStatement == Some(text) && r2 == r.(resourceUri := r2.resourceUri,
      metricUri := r2.metricUri, resourceTypeUri := r2.resourceTypeUri, condition := r2.condition)
    ensures BuildQuery(r) == BuildQuery(r2) == text
  {
  }

  /** With all three patterns and the condition set, the query text is fully determined. */
  lemma {:induction false} QueryWithAllFields(r: Rule, res: string, met: string, typ: string, cond: string)
    requires r.customStatement.None?
    requires r.resourceUri == Some(res) && r.metricUri == Some(met)
    requires r.resourceTypeUri == Some(typ) && r.condition == Some(cond)
    ensures BuildQuery(r) == SelectMetricEvents + "("
      + LikeClause("metric.resourceURI", res) + " and "
      + LikeClause("metric.metricURI", met) + " and "
      + LikeClause("resourceType", typ) + ")"
      + " where " + cond
  {
    var a, b, c := LikeClause("metric.resourceURI", res), LikeClause("metric.metricURI", met),
      LikeClause("resourceType", typ);
    assert Filters(r) == [a, b, c];
    assert Conjunction([b, c]) == b + " and " + c by {
      assert [b, c][1..] == [c];
    }
    assert Conjunction([a, b, c]) == a + " and " + (b + " and " + c) by {
      assert [a, b, c][1..] == [b, c];
    }
    var open := SelectMetricEvents + "(";
    var bc := b + " and " + c;
    assert BuildQuery(r) == SelectMetricEvents + ("(" + (a + " and " + bc) + ")") + (" where " + cond);
    calc {
      SelectMetricEvents + ("(" + (a + " and " + bc) + ")") + (" where " + cond);
      { Assoc(SelectMetricEvents, "(" + (a + " and " + bc), ")"); Assoc(SelectMetricEvents, "(", a + " and " + bc); }
      open + (a + " and " + bc) + ")" + (" where " + cond);
      { Assoc(open, a + " and ", bc); Assoc(open, a, " and "); }
      open + a + " and " + bc + ")" + (" where " + cond);
      { Assoc(open + a + " and ", b + " and ", c); Assoc(open + a + " and ", b, " and "); }
      open + a + " and " + b + " and " + c + ")" + (" where " + cond);
      { Assoc(open + a + " and " + b + " and " + c + ")", " where ", cond); }
      open + a + " and " + b + " and " + c + ")" + " where " + cond;
    }
  }

  /** Concatenation is associative (a step the solver needs named in long queries). */
  lemma Assoc(x: string, y: string, z: string)
    ensures x + (y + z) == x + y + z
  {
  }

  /** With no pattern and no condition the query selects every metric event. */
  lemma QueryWithNoFields(r: Rule)
    requires r.customStatement.None? && r.resourceUri.None? && r.metricUri.None?
    requires r.resourceTypeUri.None? && r.condition.None?
    ensures BuildQuery(r) == "select metric, value from IMetricEvent"
    ensures forall e: MetricEvent, holds: Oracle :: RuleMatches(r, MetricValue(e), holds)
  {
  }

  /** A rule whose three patterns are "%" reports every metric event its condition accepts. */
  lemma WildcardRuleMatches(r: Rule, e: MetricEvent, holds: Oracle)
    requires r.customStatement.None?
    requires r.resourceUri == Some("%") && r.metricUri == Some("%") && r.resourceTypeUri == Some("%")
    requires r.condition.Some? ==> holds(r.condition.value, MetricValue(e))
    ensures RuleMatches(r, MetricValue(e), holds)
  {
    PercentMatchesAll(e.metric.resourceUri);
    PercentMatchesAll(e.metric.metricUri);
    PercentMatchesAll(e.resourceType);
  }

  /**
   * A rule whose three patterns are literals reports a metric event exactly
   * when its fields equal the patterns and its condition holds.
   */
  lemma LiteralRuleMatches(r: Rule, e: MetricEvent, holds: Oracle)
    requires r.customStatement.None?
    requires r.resourceUri.Some? && r.metricUri.Some? && r.resourceTypeUri.Some?
    requires IsLiteral(r.resourceUri.value) && IsLiteral(r.metricUri.value) && IsLiteral(r.resourceTypeUri.value)
    ensures RuleMatches(r, MetricValue(e), holds) <==>
      && e.metric.resourceUri == r.resourceUri.value
      && e.metric.metricUri == r.metricUri.value
      && e.resourceType == r.resourceTypeUri.value
      && (r.condition.None? || holds(r.condition.value, MetricValue(e)))
  {
    LiteralMatchesItselfOnly(r.resourceUri.value, e.metric.resourceUri);
    LiteralMatchesItselfOnly(r.metricUri.value, e.metric.metricUri);
    LiteralMatchesItselfOnly(r.resourceTypeUri.value, e.resourceType);
  }

  /** Measurement events never reach a generated statement: it selects metric events only. */
  lemma GeneratedIgnoresMeasurements(r: Rule, m: MeasurementEvent, holds: Oracle)
    requires r.customStatement.None?
    ensures !RuleMatches(r, Measurement(m), holds)
  {
  }
}
