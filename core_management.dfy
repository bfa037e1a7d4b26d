/**
 * The central coordinator (`CoreManagementImpl`): it owns the SLA-validation
 * flag and the stored SLA, and wires the resource registry, the running
 * metrics and the SLA triad (current-cost evaluator, SLA validator, decision
 * maker) together. The collaborators are in-memory fields of the class.
 */
module Core {
  import opened Wrappers
  import opened Metrics
  import opened Registry

  /** The exceptions the coordinator's operations end with. */
  datatype CoreError =
    | Registration(registryError: RegistryError)  // a registry exception
    | NullMetricList                               // NullPointerException on a `null` metric list
    | SlaValidationAlreadyRunning                  // SLAException from startSLAValidation
    | SlaValidationNotRunning                      // SLAException from stopSLAValidation
    | NoSlaSet                                     // SLAException from retrieveCurrentSLA

  /** Normal completion or the exception an operation ends with. */
  type Outcome = Result<(), CoreError>

  datatype DiscoveryEventType = NewResourcesDiscovered | OtherDiscoveryEvent(name: string)

  /** A resource-discovery event: new resources under a parent, with their types and properties. */
  datatype DiscoveryEvent = DiscoveryEvent(
    eventType: DiscoveryEventType,
    parentUri: string,
    resources: seq<string>,
    types: map<string, string>,
    properties: map<string, Params>)

  /** `event.getResourcesTypes().get(u)`. */
  function TypeOf(ev: DiscoveryEvent, u: string): Option<string>
  {
    if u in ev.types then Some(ev.types[u]) else None
  }

  /** `event.getResourcesProperties().get(u)`, a missing entry read as no parameters. */
  function PropertiesOf(ev: DiscoveryEvent, u: string): Params
  {
    if u in ev.properties then ev.properties[u] else map[]
  }

  /** Registry, running metrics and the exception, if any, after part of a discovery batch. */
  datatype Discovery = Discovery(resources: Resources, running: Running, error: Option<CoreError>)

  /**
   * Processing the first `n` resources of a discovery event: each is added
   * as a child of the event's parent and, while an SLA is active, the
   * metrics the SLA prescribes for it are started; the first exception ends
   * the batch.
   */
  function DiscoverPrefix(reg: Resources, run: Running, ev: DiscoveryEvent, active: Option<Sla>,
                          matches: Matcher, n: nat): Discovery
    requires n <= |ev.resources|
  {
    if n == 0 then Discovery(reg, run, None)
    else DiscoverStep(DiscoverPrefix(reg, run, ev, active, matches, n - 1), ev, active, matches, ev.resources[n - 1])
  }

  /**
   * One resource `u` of a batch, after the batch so far ended in `prev`:
   * nothing after an exception; otherwise `u` is added as a child of the
   * event's parent and the metrics the active SLA prescribes for it are
   * started, up to the first `null` metric list.
   */
  function DiscoverStep(prev: Discovery, ev: DiscoveryEvent, active: Option<Sla>, matches: Matcher, u: string): Discovery
  {
    if prev.error.Some? then prev
    else
      match AddChild(prev.resources, ev.parentUri, u, TypeOf(ev, u), PropertiesOf(ev, u))
      case Err(e) => Discovery(prev.resources, prev.running, Some(Registration(e)))
      case Ok(reg') =>
        match active
        case None => Discovery(reg', prev.running, None)
        case Some(s) =>
          Discovery(reg', Attach(prev.running, Configured(s, matches, {u}), SlaListeners),
            if FirstNull(s, matches, {u}) < |s.patterns| then Some(NullMetricList) else None)
  }

  /** Processing a whole discovery batch. */
  function Discover(reg: Resources, run: Running, ev: DiscoveryEvent, active: Option<Sla>, matches: Matcher): Discovery
  {
    DiscoverPrefix(reg, run, ev, active, matches, |ev.resources|)
  }

  /** A batch under an unregistered parent registers nothing, starts nothing and ends at once. */
  lemma {:induction false} DiscoveryUnderUnregisteredParent(reg: Resources, run: Running, ev: DiscoveryEvent,
                                                            active: Option<Sla>, matches: Matcher, n: nat)
    requires ev.parentUri !in reg && 1 <= n <= |ev.resources|
    ensures DiscoverPrefix(reg, run, ev, active, matches, n)
      == Discovery(reg, run, Some(Registration(NotRegistered(ev.parentUri))))
  {
    if n > 1 {
      DiscoveryUnderUnregisteredParent(reg, run, ev, active, matches, n - 1);
    }
  }

  /** The children a batch registers: its first `n` resources under the event's parent. */
  function ChildrenOfEvent(ev: DiscoveryEvent, n: nat): Resources
    requires n <= |ev.resources|
  {
    map u | u in BatchUris(ev, n) :: ChildEntry(ev, u)
  }

  /** The registry entry of a resource of the batch: its mapped type and properties, under the event's parent. */
  function ChildEntry(ev: DiscoveryEvent, u: string): Resource
  {
    Resource(TypeOf(ev, u), PropertiesOf(ev, u), Some(ev.parentUri))
  }

  /** The resources of a batch are new and pairwise distinct. */
  predicate FreshResources(reg: Resources, ev: DiscoveryEvent)
  {
    && (forall i :: 0 <= i < |ev.resources| ==> ev.resources[i] !in reg)
    && (forall i, j :: 0 <= i < j < |ev.resources| ==> ev.resources[i] != ev.resources[j])
  }

  /** The metrics a batch starts: for each registered child, what the active SLA prescribes. */
  function BatchMetrics(active: Option<Sla>, matches: Matcher, ev: DiscoveryEvent, n: nat): set<MetricId>
    requires n <= |ev.resources|
  {
    match active
    case None => {}
    case Some(s) => Prescribed(s, matches, s.patterns, BatchUris(ev, n))
  }

  /** The first `n` resources of a batch. */
  function BatchUris(ev: DiscoveryEvent, n: nat): set<string>
    requires n <= |ev.resources|
  {
    set u | u in ev.resources[..n]
  }

  /**
   * A batch of new resources under a registered parent registers each of
   * them, in order, as a child of that parent with its mapped type and
   * properties, and starts for each the metrics an active (complete) SLA
   * prescribes for it, with the two SLA listeners.
   */
  lemma {:induction false} DiscoveryRegistersChildren(reg: Resources, run: Running, ev: DiscoveryEvent,
                                                      active: Option<Sla>, matches: Matcher, n: nat)
    requires ev.parentUri in reg && FreshResources(reg, ev) && n <= |ev.resources|
    requires active.Some? ==> Complete(active.value)
    ensures DiscoverPrefix(reg, run, ev, active, matches, n)
      == Discovery(reg + ChildrenOfEvent(ev, n), Attach(run, BatchMetrics(active, matches, ev, n), SlaListeners), None)
  {
    FreshBatchPrefixes(reg, ev, n);
    RegistersFreshPrefix(reg, run, ev, active, matches, n);
  }

  /** Each of the first `n` resources is new when its turn comes: the freshness the induction consumes. */
  predicate FreshPrefix(reg: Resources, ev: DiscoveryEvent, n: nat)
    requires n <= |ev.resources|
  {
    n == 0 || (FreshPrefix(reg, ev, n - 1) && ev.resources[n - 1] !in reg && ev.resources[n - 1] !in ev.resources[..n - 1])
  }

  /** A batch of new, distinct resources is fresh at every step. */
  lemma {:induction false} FreshBatchPrefixes(reg: Resources, ev: DiscoveryEvent, n: nat)
    requires FreshResources(reg, ev) && n <= |ev.resources|
    ensures FreshPrefix(reg, ev, n)
  {
    if n > 0 {
      FreshBatchPrefixes(reg, ev, n - 1);
      var earlier := ev.resources[..n - 1];
      forall i | 0 <= i < |earlier| ensures earlier[i] != ev.resources[n - 1] {
        assert earlier[i] == ev.resources[i];
      }
    }
  }

  /** `DiscoveryRegistersChildren` by induction on the prefix. */
  lemma {:induction false} RegistersFreshPrefix(reg: Resources, run: Running, ev: DiscoveryEvent,
                                                active: Option<Sla>, matches: Matcher, n: nat)
    requires ev.parentUri in reg && n <= |ev.resources| && FreshPrefix(reg, ev, n)
    requires active.Some? ==> Complete(active.value)
    ensures DiscoverPrefix(reg, run, ev, active, matches, n)
      == Discovery(reg + ChildrenOfEvent(ev, n), Attach(run, BatchMetrics(active, matches, ev, n), SlaListeners), None)
  {
    if n == 0 {
      EmptyBatch(reg, run, ev, active, matches);
    } else {
      RegistersFreshPrefix(reg, run, ev, active, matches, n - 1);
      RegistersChildrenStep(reg, run, ev, active, matches, n);
    }
  }

  /** The base case of `DiscoveryRegistersChildren`. */
  lemma EmptyBatch(reg: Resources, run: Running, ev: DiscoveryEvent, active: Option<Sla>, matches: Matcher)
    ensures DiscoverPrefix(reg, run, ev, active, matches, 0)
      == Discovery(reg + ChildrenOfEvent(ev, 0), Attach(run, BatchMetrics(active, matches, ev, 0), SlaListeners), None)
  {
    assert reg + ChildrenOfEvent(ev, 0) == reg;
    AttachNothing(run, SlaListeners);
  }

  /** The inductive step of `DiscoveryRegistersChildren`. */
  lemma RegistersChildrenStep(reg: Resources, run: Running, ev: DiscoveryEvent, active: Option<Sla>,
                              matches: Matcher, n: nat)
    requires ev.parentUri in reg && 1 <= n <= |ev.resources|
    requires active.Some? ==> Complete(active.value)
    requires DiscoverPrefix(reg, run, ev, active, matches, n - 1) == Discovery(reg + ChildrenOfEvent(ev, n - 1),
      Attach(run, BatchMetrics(active, matches, ev, n - 1), SlaListeners), None)
    requires ev.resources[n - 1] !in reg && ev.resources[n - 1] !in ev.resources[..n - 1]
    ensures DiscoverPrefix(reg, run, ev, active, matches, n)
      == Discovery(reg + ChildrenOfEvent(ev, n), Attach(run, BatchMetrics(active, matches, ev, n), SlaListeners), None)
  {
    var u := ev.resources[n - 1];
    var prev := DiscoverPrefix(reg, run, ev, active, matches, n - 1);
    NextIsFresh(reg, ev, n);
    DiscoverFreshStep(prev, ev, active, matches, u);
    if active.Some? {
      var s := active.value;
      BatchMetricsNext(s, matches, ev, n);
      AttachTwice(run, BatchMetrics(active, matches, ev, n - 1), Prescribed(s, matches, s.patterns, {u}), SlaListeners);
    }
    ChildrenOfEventNext(reg, ev, n);
  }

  /** One step of a batch that has not failed, for a fresh resource under a registered parent. */
  lemma DiscoverFreshStep(prev: Discovery, ev: DiscoveryEvent, active: Option<Sla>, matches: Matcher, u: string)
    requires prev.error.None? && ev.parentUri in prev.resources && u !in prev.resources
    requires active.Some? ==> Complete(active.value)
    ensures DiscoverStep(prev, ev, active, matches, u) == Discovery(
      prev.resources[u := ChildEntry(ev, u)],
      if active.None? then prev.running
      else Attach(prev.running, Prescribed(active.value, matches, active.value.patterns, {u}), SlaListeners),
      None)
  {
    if active.Some? {
      CompleteConfiguresAll(active.value, matches, {u});
    }
  }

  /** A resource new to the registry and not earlier in the batch is not registered after the earlier steps. */
  lemma NextIsFresh(reg: Resources, ev: DiscoveryEvent, n: nat)
    requires 1 <= n <= |ev.resources|
    requires ev.resources[n - 1] !in reg && ev.resources[n - 1] !in ev.resources[..n - 1]
    ensures ev.resources[n - 1] !in reg + ChildrenOfEvent(ev, n - 1)
  {
    assert ev.resources[n - 1] !in BatchUris(ev, n - 1);
  }

  /** The registry grows by one child per step of a batch. */
  lemma ChildrenOfEventNext(reg: Resources, ev: DiscoveryEvent, n: nat)
    requires 1 <= n <= |ev.resources|
    ensures (reg + ChildrenOfEvent(ev, n - 1))[ev.resources[n - 1] := ChildEntry(ev, ev.resources[n - 1])]
      == reg + ChildrenOfEvent(ev, n)
  {
    var u := ev.resources[n - 1];
    BatchUrisNext(ev, n);
    var before, after := ChildrenOfEvent(ev, n - 1), ChildrenOfEvent(ev, n);
    assert before[u := ChildEntry(ev, u)] == after by {
      assert after.Keys == before.Keys + {u};
    }
    MergeUpdate(reg, before, u, ChildEntry(ev, u));
  }

  /** One more resource of the batch. */
  lemma BatchUrisNext(ev: DiscoveryEvent, n: nat)
    requires 1 <= n <= |ev.resources|
    ensures BatchUris(ev, n) == BatchUris(ev, n - 1) + {ev.resources[n - 1]}
  {
    assert ev.resources[..n] == ev.resources[..n - 1] + [ev.resources[n - 1]];
  }

  /** Updating a merge updates its right operand. */
  lemma MergeUpdate<K, V>(a: map<K, V>, b: map<K, V>, k: K, v: V)
    ensures (a + b)[k := v] == a + b[k := v]
  {
  }

  /** The metrics of a batch grow by what the SLA prescribes for the next resource. */
  lemma BatchMetricsNext(s: Sla, matches: Matcher, ev: DiscoveryEvent, n: nat)
    requires 1 <= n <= |ev.resources|
    ensures BatchMetrics(Some(s), matches, ev, n)
      == BatchMetrics(Some(s), matches, ev, n - 1) + Prescribed(s, matches, s.patterns, {ev.resources[n - 1]})
  {
    var u := ev.resources[n - 1];
    var earlier := BatchUris(ev, n - 1);
    BatchUrisNext(ev, n);
    PrescribedAddResource(s, matches, s.patterns, earlier, u);
  }

  /**
   * Whatever the outcome, a discovery batch keeps every registered resource
   * as it was and registers only resources of the batch, each as a child of
   * the event's parent.
   */
  lemma {:induction false} DiscoveryOnlyAddsChildren(reg: Resources, run: Running, ev: DiscoveryEvent,
                                                     active: Option<Sla>, matches: Matcher, n: nat)
    requires n <= |ev.resources|
    ensures var d := DiscoverPrefix(reg, run, ev, active, matches, n);
      && (forall u :: u in reg ==> u in d.resources && d.resources[u] == reg[u])
      && (forall u :: u in d.resources && u !in reg ==>
            u in ev.resources[..n] && d.resources[u].parent == Some(ev.parentUri))
  {
    if n > 0 {
      DiscoveryOnlyAddsChildren(reg, run, ev, active, matches, n - 1);
      StepOnlyAddsChild(DiscoverPrefix(reg, run, ev, active, matches, n - 1), ev, active, matches, ev.resources[n - 1]);
      assert ev.resources[..n] == ev.resources[..n - 1] + [ev.resources[n - 1]];
    }
  }

  /** One step of a batch keeps every registered entry and adds at most its resource, as a child of the parent. */
  lemma StepOnlyAddsChild(prev: Discovery, ev: DiscoveryEvent, active: Option<Sla>, matches: Matcher, u: string)
    ensures var d := DiscoverStep(prev, ev, active, matches, u);
      && (forall k :: k in prev.resources ==> k in d.resources && d.resources[k] == prev.resources[k])
      && (forall k :: k in d.resources && k !in prev.resources ==> k == u && d.resources[k].parent == Some(ev.parentUri))
  {
  }

  /** The running metrics after withdrawing what the active SLA, if any, prescribes. */
  function Withdrawn(run: Running, active: Option<Sla>, matches: Matcher, uris: set<string>): Running
  {
    match active
    case None => run
    case Some(s) => Detach(run, Prescribed(s, matches, s.patterns, uris))
  }

  /**
   * After configuring a complete SLA, every metric it prescribes runs with
   * both SLA listeners attached, and with exactly those two when it was not
   * running before.
   */
  lemma ConfiguredMetricsRun(run: Running, s: Sla, matches: Matcher, uris: set<string>, id: MetricId)
    requires Complete(s) && id in Prescribed(s, matches, s.patterns, uris)
    ensures var after := Attach(run, Configured(s, matches, uris), SlaListeners);
      && id in after && SlaListeners <= after[id]
      && (id !in run ==> after[id] == {CostEvaluator, SlaValidator})
  {
    CompleteConfiguresAll(s, matches, uris);
    if id !in run {
      FreshMetricListeners(run, Configured(s, matches, uris), id);
    }
  }

  /**
   * Starting validation with an SLA and stopping it again restores the
   * running metrics, when none of the metrics the SLA prescribes was running
   * before.
   */
  lemma StartThenStopRestores(run: Running, s: Sla, matches: Matcher, uris: set<string>)
    requires forall id :: id in Prescribed(s, matches, s.patterns, uris) ==> id !in run
    ensures Withdrawn(Attach(run, Configured(s, matches, uris), SlaListeners), Some(s), matches, uris) == run
  {
    var p := Prescribed(s, matches, s.patterns, uris);
    ConfiguredWithinPrescribed(s, matches, uris);
    DetachAttachWithin(run, Configured(s, matches, uris), p, SlaListeners);
    assert Detach(run, p) == run by {
      assert Detach(run, p).Keys == run.Keys;
    }
  }

  /**
   * Start an SLA `s1`, update it to `s2`, stop: as written the stop withdraws
   * what `s1` prescribes, the SLA still stored, so a metric only `s2`
   * prescribes keeps running once validation has stopped.
   */
  lemma UpdateThenStopAsWritten(run: Running, uris: set<string>, s1: Sla, s2: Sla, matches: Matcher, id: MetricId)
    requires Complete(s2)
    requires id in Prescribed(s2, matches, s2.patterns, uris) && id !in Prescribed(s1, matches, s1.patterns, uris)
    ensures id in Withdrawn(Attach(Withdrawn(run, Some(s1), matches, uris), Configured(s2, matches, uris), SlaListeners),
      Some(s1), matches, uris)
  {
    CompleteConfiguresAll(s2, matches, uris);
  }

  /**
   * With the update storing `s2`, the same start, update and stop stops
   * every metric either SLA prescribes and leaves every other metric as it
   * was before the start.
   */
  lemma UpdateThenStopCorrected(run: Running, uris: set<string>, s1: Sla, s2: Sla, matches: Matcher)
    ensures Withdrawn(Attach(Withdrawn(run, Some(s1), matches, uris), Configured(s2, matches, uris), SlaListeners),
      Some(s2), matches, uris)
      == Detach(run, Prescribed(s1, matches, s1.patterns, uris) + Prescribed(s2, matches, s2.patterns, uris))
  {
    var p1, p2 := Prescribed(s1, matches, s1.patterns, uris), Prescribed(s2, matches, s2.patterns, uris);
    ConfiguredWithinPrescribed(s2, matches, uris);
    DetachAttachWithin(Detach(run, p1), Configured(s2, matches, uris), p2, SlaListeners);
    DetachTwice(run, p1, p2);
  }

  /** Listeners of resource events registered with the registry: a caller's own, or its proxy. */
  datatype ResourceListener = Client(id: nat) | Proxy(id: nat)

  /** The synthetic event that tells a new resource listener about a registered resource. */
  datatype InitialResourceEvent = InitialResourceEvent(listener: nat, uri: string)

  /** `sent` tells listener `l` about each URI of `uris` exactly once and about nothing else. */
  predicate ReplaysEachOnce(sent: seq<InitialResourceEvent>, l: nat, uris: set<string>)
  {
    && (forall i :: 0 <= i < |sent| ==> sent[i].listener == l && sent[i].uri in uris)
    && (forall u :: u in uris ==> InitialResourceEvent(l, u) in sent)
    && (forall i, j :: 0 <= i < j < |sent| ==> sent[i].uri != sent[j].uri)
  }

  /** Telling the listener about one more resource keeps each resource told exactly once. */
  lemma ReplayOneMore(sent: seq<InitialResourceEvent>, l: nat, told: set<string>, u: string)
    requires ReplaysEachOnce(sent, l, told) && u !in told
    ensures ReplaysEachOnce(sent + [InitialResourceEvent(l, u)], l, told + {u})
  {
    var sent' := sent + [InitialResourceEvent(l, u)];
    forall i, j | 0 <= i < j < |sent'| ensures sent'[i].uri != sent'[j].uri {
      if j == |sent| {
        assert sent'[i] == sent[i];
      }
    }
  }

  class CoreManagement {
    /** `Pattern.matches`. */
    const matches: Matcher
    /** `StringHelper.getParentURI`. */
    const parentOf: string -> string

    var slaValidationRunning: bool
    var serviceLevelAgreement: Option<Sla>

    /** The SLA each member of the triad was last set up with. */
    var costEvaluatorSla: Option<Sla>
    var slaValidatorSla: Option<Sla>
    var decisionMakerSla: Option<Sla>

    /** The resource registry. */
    var resources: Resources
    /** The metrics manager: running metrics and their listeners. */
    var running: Running

    /** `resourceListenersProxies`: a caller's listener to the proxy registered for it. */
    var resourceListenersProxies: map<nat, ResourceListener>
    /** The resource listeners the registry notifies. */
    var registryListeners: set<ResourceListener>
    /** Every initial resource event delivered so far, in order. */
    var initialEvents: seq<InitialResourceEvent>

    /** Alarm listeners of the criteria validator and of the SLA validator. */
    var criteriaAlarmListeners: set<nat>
    var validatorAlarmListeners: set<nat>

    ghost predicate Valid()
      reads this
    {
      && (slaValidationRunning ==> serviceLevelAgreement.Some?)
      && (forall l :: l in resourceListenersProxies ==> resourceListenersProxies[l] == Proxy(l))
    }

    /** The SLA whose metrics are running: the stored one while validation runs. */
    function Active(): Option<Sla>
      reads this
    {
      if slaValidationRunning then serviceLevelAgreement else None
    }

    constructor (matches: Matcher, parentOf: string -> string)
      ensures Valid()
      ensures this.matches == matches && this.parentOf == parentOf
      ensures !slaValidationRunning && serviceLevelAgreement.None?
      ensures costEvaluatorSla.None? && slaValidatorSla.None? && decisionMakerSla.None?
      ensures resources == map[] && running == map[]
      ensures resourceListenersProxies == map[] && registryListeners == {} && initialEvents == []
      ensures criteriaAlarmListeners == {} && validatorAlarmListeners == {}
    {
      this.matches, this.parentOf := matches, parentOf;
      slaValidationRunning, serviceLevelAgreement := false, None;
      costEvaluatorSla, slaValidatorSla, decisionMakerSla := None, None, None;
      resources, running := map[], map[];
      resourceListenersProxies, registryListeners, initialEvents := map[], {}, [];
      criteriaAlarmListeners, validatorAlarmListeners := {}, {};
    }

    /** Registers a resource as a child of its parent when the parent is registered, else as a root. */
    method RegisterResource(u: string, t: Option<string>, ps: Params) returns (outcome: Result<(), RegistryError>)
      modifies this`resources
      ensures outcome.Err? <==> u in old(resources)
      ensures outcome.Err? ==> outcome.error == AlreadyRegistered(u) && resources == old(resources)
      ensures outcome.Ok? ==> resources == old(resources)[u := Resource(t, ps,
        if parentOf(u) in old(resources) then Some(parentOf(u)) else None)]
    {
      var added := Register(resources, parentOf, u, t, ps);
      RegisterChildOrRoot(resources, parentOf, u, t, ps);
      if added.Ok? {
        resources := added.value;
        outcome := Ok(());
      } else {
        outcome := Err(added.error);
      }
    }

    /** Merges parameters into a registered resource; an unregistered one is refused. */
    method AddResourceParameters(u: string, ps: Params) returns (outcome: Result<(), RegistryError>)
      modifies this`resources
      ensures u !in old(resources) ==> outcome == Err(NotRegistered(u)) && resources == old(resources)
      ensures u in old(resources) ==> outcome.Ok? && resources == AddParameters(old(resources), u, ps).value
    {
      if u !in resources {
        return Err(NotRegistered(u));
      }
      resources := AddParameters(resources, u, ps).value;
      outcome := Ok(());
    }

    /** `unregisterResource`: removes the entry only; its children stay registered. */
    method UnregisterResource(u: string)
      modifies this`resources
      ensures resources == Unregister(old(resources), u)
    {
      resources := Unregister(resources, u);
    }

    /** Starts a metric unless it runs already and attaches the listeners to it. */
    method StartMetricAndAddRunningMetricListener(id: MetricId, ls: set<MetricListener>)
      modifies this`running
      ensures running == Listen(old(running), id, ls)
    {
      running := Listen(running, id, ls);
    }

    /** The one-listener form: a `null` listener neither starts the metric nor attaches anything. */
    method StartMetricWithListener(id: MetricId, l: Option<MetricListener>)
      modifies this`running
      ensures l.None? ==> running == old(running)
      ensures l.Some? ==> running == Listen(old(running), id, {l.value})
    {
      if l.Some? {
        StartMetricAndAddRunningMetricListener(id, {l.value});
      }
    }

    method RemoveRunningMetricListener(id: MetricId, l: MetricListener)
      modifies this`running
      ensures running == Unlisten(old(running), id, l)
    {
      running := Unlisten(running, id, l);
    }

    method StopMetric(id: MetricId)
      modifies this`running
      ensures running == Stop(old(running), id)
    {
      running := Stop(running, id);
    }

    /** An alarm listener is handed to both the criteria validator and the SLA validator. */
    method AddAlarmListener(l: nat)
      modifies this`criteriaAlarmListeners, this`validatorAlarmListeners
      ensures criteriaAlarmListeners == old(criteriaAlarmListeners) + {l}
      ensures validatorAlarmListeners == old(validatorAlarmListeners) + {l}
    {
      criteriaAlarmListeners := criteriaAlarmListeners + {l};
      validatorAlarmListeners := validatorAlarmListeners + {l};
    }

    method RemoveAlarmListener(l: nat)
      modifies this`criteriaAlarmListeners, this`validatorAlarmListeners
      ensures criteriaAlarmListeners == old(criteriaAlarmListeners) - {l}
      ensures validatorAlarmListeners == old(validatorAlarmListeners) - {l}
    {
      criteriaAlarmListeners := criteriaAlarmListeners - {l};
      validatorAlarmListeners := validatorAlarmListeners - {l};
    }

    /**
     * Registers a proxy for `l` with the registry, then tells `l` about every
     * registered resource, each exactly once.
     */
    method AddResourceListener(l: nat)
      requires Valid()
      modifies this`resourceListenersProxies, this`registryListeners, this`initialEvents
      ensures Valid()
      ensures resourceListenersProxies == old(resourceListenersProxies)[l := Proxy(l)]
      ensures registryListeners == old(registryListeners) + {Proxy(l)}
      ensures |old(initialEvents)| <= |initialEvents| && initialEvents[..|old(initialEvents)|] == old(initialEvents)
      ensures ReplaysEachOnce(initialEvents[|old(initialEvents)|..], l, resources.Keys)
    {
      resourceListenersProxies := resourceListenersProxies[l := Proxy(l)];
      registryListeners := registryListeners + {Proxy(l)};
      ReplayRegisteredResources(l);
    }

    /** The replay half of `AddResourceListener`: one initial event per registered resource, to `l`. */
    method ReplayRegisteredResources(l: nat)
      modifies this`initialEvents
      ensures |old(initialEvents)| <= |initialEvents| && initialEvents[..|old(initialEvents)|] == old(initialEvents)
      ensures ReplaysEachOnce(initialEvents[|old(initialEvents)|..], l, resources.Keys)
    {
      ghost var sent: seq<InitialResourceEvent> := [];
      var todo := resources.Keys;
      while todo != {}
        invariant todo <= resources.Keys
        invariant initialEvents == old(initialEvents) + sent
        invariant ReplaysEachOnce(sent, l, resources.Keys - todo)
        decreases todo
      {
        var u :| u in todo;
        ReplayOneMore(sent, l, resources.Keys - todo, u);
        VisitOne(resources.Keys, todo, u);
        initialEvents := initialEvents + [InitialResourceEvent(l, u)];
        sent := sent + [InitialResourceEvent(l, u)];
        todo := todo - {u};
      }
      assert initialEvents[|old(initialEvents)|..] == sent;
      assert resources.Keys - todo == resources.Keys;
    }

    /**
     * As written: when `l` has a proxy, the registry is asked to remove `l`
     * itself, which it never registered; the proxy stays registered.
     */
    method RemoveResourceListener(l: nat)
      modifies this`registryListeners
      ensures l in resourceListenersProxies ==> registryListeners == old(registryListeners) - {Client(l)}
      ensures l !in resourceListenersProxies ==> registryListeners == old(registryListeners)
    {
      if l in resourceListenersProxies {
        registryListeners := registryListeners - {Client(l)};
      }
    }

    /** Corrected: the proxy registered for `l` is removed, and so is the mapping. */
    method RemoveResourceListenerCorrected(l: nat)
      requires Valid()
      modifies this`registryListeners, this`resourceListenersProxies
      ensures Valid()
      ensures Proxy(l) !in registryListeners || l !in old(resourceListenersProxies)
      ensures l in old(resourceListenersProxies) ==> registryListeners == old(registryListeners) - {Proxy(l)}
      ensures l !in old(resourceListenersProxies) ==> registryListeners == old(registryListeners)
      ensures l !in resourceListenersProxies
    {
      if l in resourceListenersProxies {
        registryListeners := registryListeners - {resourceListenersProxies[l]};
        resourceListenersProxies := resourceListenersProxies - {l};
      }
    }

    /** Starts each metric of the list `ms` on resource `u` with the two SLA listeners. */
    method StartListedMetrics(ms: seq<string>, u: string)
      modifies this`running
      ensures running == Attach(old(running), MetricsOn(ms, u), SlaListeners)
    {
      ghost var run0 := running;
      assert MetricsOn(ms[..0], u) == {};
      AttachNothing(run0, SlaListeners);
      var k := 0;
      while k < |ms|
        invariant k <= |ms|
        invariant running == Attach(run0, MetricsOn(ms[..k], u), SlaListeners)
      {
        var id := MetricId(ms[k], u);
        StartMetricAndAddRunningMetricListener(id, SlaListeners);
        ListenExtendsAttach(run0, MetricsOn(ms[..k], u), id, SlaListeners);
        MetricsOnPrefix(ms, k, u);
        k := k + 1;
      }
      assert ms[..k] == ms;
    }

    /** Detaches the two SLA listeners from each metric of `ms` on `u` and stops it. */
    method StopListedMetrics(ms: seq<string>, u: string)
      modifies this`running
      ensures running == Detach(old(running), MetricsOn(ms, u))
    {
      ghost var run0 := running;
      assert MetricsOn(ms[..0], u) == {};
      DetachNothing(run0);
      var k := 0;
      while k < |ms|
        invariant k <= |ms|
        invariant running == Detach(run0, MetricsOn(ms[..k], u))
      {
        var id := MetricId(ms[k], u);
        RemoveRunningMetricListener(id, CostEvaluator);
        RemoveRunningMetricListener(id, SlaValidator);
        StopMetric(id);
        StopExtendsDetach(run0, MetricsOn(ms[..k], u), id);
        MetricsOnPrefix(ms, k, u);
        k := k + 1;
      }
      assert ms[..k] == ms;
    }

    /**
     * Starts, for a newly discovered resource, every metric the stored SLA
     * prescribes for it while validation runs. A matching pattern whose
     * metric list is `null` ends it with a NullPointerException.
     */
    method StartMetricsForNewResource(u: string) returns (outcome: Outcome)
      requires Valid()
      modifies this`running
      ensures !slaValidationRunning ==> outcome.Ok? && running == old(running)
      ensures slaValidationRunning ==>
        var s := serviceLevelAgreement.value;
        && running == Attach(old(running), Configured(s, matches, {u}), SlaListeners)
        && (outcome.Ok? <==> FirstNull(s, matches, {u}) == |s.patterns|)
        && (outcome.Err? ==> outcome.error == NullMetricList)
    {
      outcome := Ok(());
      if !slaValidationRunning {
        return;
      }
      var s := serviceLevelAgreement.value;
      ghost var run0 := running;
      AttachNothing(run0, SlaListeners);
      var i := 0;
      while i < |s.patterns|
        invariant i <= |s.patterns| && i <= FirstNull(s, matches, {u})
        invariant running == Attach(run0, Prescribed(s, matches, s.patterns[..i], {u}), SlaListeners)
      {
        var p := s.patterns[i];
        FirstNullStep(s, matches, {u}, i);
        ghost var prev := Prescribed(s, matches, s.patterns[..i], {u});
        if matches(p, u) {
          var ms := MetricsFor(s, p);
          if ms.None? {
            assert DereferencesNull(s, matches, p, {u});
            return Err(NullMetricList);
          }
          StartListedMetrics(ms.value, u);
          AttachTwice(run0, prev, MetricsOn(ms.value, u), SlaListeners);
        }
        PrescribedNextPatternOn(s, matches, i, u);
        i := i + 1;
      }
      assert s.patterns[..i] == s.patterns;
    }

    /**
     * Hands the SLA to the triad, then, pattern by pattern and for each
     * registered resource the pattern matches, re-registers the resource
     * (a no-op, as it is registered) and starts the metrics the SLA lists
     * for the pattern. A matching pattern whose metric list is `null` ends
     * it with a NullPointerException, after the metrics of the patterns
     * before it were started.
     */
    method ConfigureMonitoringForSla(s: Sla) returns (outcome: Outcome)
      modifies this`running, this`resources, this`costEvaluatorSla, this`slaValidatorSla, this`decisionMakerSla
      ensures costEvaluatorSla == Some(s) && slaValidatorSla == Some(s) && decisionMakerSla == Some(s)
      ensures resources == old(resources)
      ensures running == Attach(old(running), Configured(s, matches, resources.Keys), SlaListeners)
      ensures outcome.Ok? <==> FirstNull(s, matches, resources.Keys) == |s.patterns|
      ensures outcome.Err? ==> outcome.error == NullMetricList
    {
      costEvaluatorSla, slaValidatorSla, decisionMakerSla := Some(s), Some(s), Some(s);
      ghost var run0 := running;
      var uris := resources.Keys;
      AttachNothing(run0, SlaListeners);
      var i := 0;
      while i < |s.patterns|
        invariant i <= |s.patterns| && i <= FirstNull(s, matches, uris)
        invariant resources == old(resources)
        invariant running == Attach(run0, Prescribed(s, matches, s.patterns[..i], uris), SlaListeners)
        modifies this`running, this`resources
      {
        FirstNullStep(s, matches, uris, i);
        ghost var prev := Prescribed(s, matches, s.patterns[..i], uris);
        var configured := ConfigurePattern(s, s.patterns[i], uris);
        if !configured {
          return Err(NullMetricList);
        }
        AttachTwice(run0, prev, Prescribed(s, matches, [s.patterns[i]], uris), SlaListeners);
        PrescribedNextPattern(s, matches, i, uris);
        i := i + 1;
      }
      assert s.patterns[..i] == s.patterns;
      outcome := Ok(());
    }

    /**
     * One pattern of configuring: for each registered resource it matches,
     * the resource is re-registered and the pattern's metrics are started on
     * it. A `null` metric list is found at the first matching resource,
     * before anything of the pattern was started.
     */
    method ConfigurePattern(s: Sla, p: string, uris: set<string>) returns (configured: bool)
      requires uris <= resources.Keys
      modifies this`running, this`resources
      ensures resources == old(resources)
      ensures configured <==> !DereferencesNull(s, matches, p, uris)
      ensures configured ==> running == Attach(old(running), Prescribed(s, matches, [p], uris), SlaListeners)
      ensures !configured ==> running == old(running)
    {
      ghost var run0 := running;
      AttachNothing(run0, SlaListeners);
      var todo := uris;
      while todo != {}
        invariant todo <= uris
        invariant resources == old(resources)
        invariant p !in s.metrics ==> forall v :: v in uris - todo ==> !matches(p, v)
        invariant running == Attach(run0, Prescribed(s, matches, [p], uris - todo), SlaListeners)
        decreases todo
      {
        var u :| u in todo;
        ghost var done := uris - todo;
        var started := ConfigureResource(s, p, u);
        if !started {
          assert Prescribed(s, matches, [p], done) == {};
          return false;
        }
        AttachTwice(run0, Prescribed(s, matches, [p], done), PatternMetrics(s, matches, p, u), SlaListeners);
        PrescribedNextResource(s, matches, p, done, u);
        VisitOne(uris, todo, u);
        todo := todo - {u};
      }
      assert uris - todo == uris;
      configured := true;
    }

    /**
     * One pattern, one registered resource: when the pattern matches, the
     * resource is re-registered and the pattern's metrics are started on it.
     */
    method ConfigureResource(s: Sla, p: string, u: string) returns (started: bool)
      requires u in resources
      modifies this`running, this`resources
      ensures resources == old(resources)
      ensures started <==> !matches(p, u) || p in s.metrics
      ensures started ==> running == Attach(old(running), PatternMetrics(s, matches, p, u), SlaListeners)
      ensures !started ==> running == old(running)
    {
      started := true;
      if matches(p, u) {
        var registered := RegisterResource(u, SlaTypeOf(s, p), SlaParametersOf(s, p));
        var ms := MetricsFor(s, p);
        if ms.None? {
          return false;
        }
        StartListedMetrics(ms.value, u);
      } else {
        AttachNothing(running, SlaListeners);
      }
    }

    /**
     * Clears the triad's SLA, then stops every metric the SLA prescribes for
     * the registered resources; a pattern whose metric list is `null` is
     * skipped.
     */
    method UnconfigureMonitoringForSla(s: Sla)
      modifies this`running, this`costEvaluatorSla, this`slaValidatorSla, this`decisionMakerSla
      ensures costEvaluatorSla.None? && slaValidatorSla.None? && decisionMakerSla.None?
      ensures running == Detach(old(running), Prescribed(s, matches, s.patterns, resources.Keys))
    {
      costEvaluatorSla, slaValidatorSla, decisionMakerSla := None, None, None;
      ghost var run0 := running;
      var uris := resources.Keys;
      DetachNothing(run0);
      var i := 0;
      while i < |s.patterns|
        invariant i <= |s.patterns|
        invariant running == Detach(run0, Prescribed(s, matches, s.patterns[..i], uris))
        modifies this`running
      {
        ghost var prev := Prescribed(s, matches, s.patterns[..i], uris);
        UnconfigurePattern(s, s.patterns[i], uris);
        DetachTwice(run0, prev, Prescribed(s, matches, [s.patterns[i]], uris));
        PrescribedNextPattern(s, matches, i, uris);
        i := i + 1;
      }
      assert s.patterns[..i] == s.patterns;
    }

    /**
     * One pattern of unconfiguring: the pattern's metrics are stopped on
     * each resource of `uris` it matches; a `null` metric list is skipped.
     */
    method UnconfigurePattern(s: Sla, p: string, uris: set<string>)
      modifies this`running
      ensures running == Detach(old(running), Prescribed(s, matches, [p], uris))
    {
      ghost var run0 := running;
      DetachNothing(run0);
      var todo := uris;
      ghost var done: set<string> := {};
      while todo != {}
        invariant todo <= uris && done == uris - todo
        invariant running == Detach(run0, Prescribed(s, matches, [p], done))
        decreases todo
      {
        var u :| u in todo;
        ghost var prev := Prescribed(s, matches, [p], done);
        if matches(p, u) {
          var ms := MetricsFor(s, p);
          if ms.Some? {
            StopListedMetrics(ms.value, u);
            DetachTwice(run0, prev, MetricsOn(ms.value, u));
          } else {
            assert MetricsOn([], u) == {};
          }
        }
        PrescribedNextResource(s, matches, p, done, u);
        todo := todo - {u};
        done := done + {u};
      }
    }

    /**
     * Starts SLA validation: refused while it runs; otherwise the SLA is
     * stored, the flag raised, and monitoring configured for it.
     */
    method StartSlaValidation(s: Sla) returns (outcome: Outcome)
      requires Valid()
      modifies this`slaValidationRunning, this`serviceLevelAgreement, this`running, this`resources,
        this`costEvaluatorSla, this`slaValidatorSla, this`decisionMakerSla
      ensures Valid()
      ensures old(slaValidationRunning) ==>
        && outcome == Err(SlaValidationAlreadyRunning)
        && slaValidationRunning && serviceLevelAgreement == old(serviceLevelAgreement)
        && running == old(running) && resources == old(resources)
        && costEvaluatorSla == old(costEvaluatorSla) && slaValidatorSla == old(slaValidatorSla)
        && decisionMakerSla == old(decisionMakerSla)
      ensures !old(slaValidationRunning) ==>
        && slaValidationRunning && serviceLevelAgreement == Some(s) && resources == old(resources)
        && running == Attach(old(running), Configured(s, matches, resources.Keys), SlaListeners)
        && costEvaluatorSla == Some(s) && slaValidatorSla == Some(s) && decisionMakerSla == Some(s)
        && (outcome.Ok? <==> FirstNull(s, matches, resources.Keys) == |s.patterns|)
        && (outcome.Err? ==> outcome.error == NullMetricList)
    {
      if slaValidationRunning {
        return Err(SlaValidationAlreadyRunning);
      }
      slaValidationRunning := true;
      serviceLevelAgreement := Some(s);
      outcome := ConfigureMonitoringForSla(s);
    }

    /**
     * As written: while validation runs, the stored SLA's metrics are
     * stopped; then the new SLA is configured. The new SLA is never stored.
     */
    method UpdateSla(s: Sla) returns (outcome: Outcome)
      requires Valid()
      modifies this`running, this`resources, this`costEvaluatorSla, this`slaValidatorSla, this`decisionMakerSla
      ensures Valid()
      ensures resources == old(resources)
      ensures running == Attach(Withdrawn(old(running), Active(), matches, resources.Keys),
        Configured(s, matches, resources.Keys), SlaListeners)
      ensures costEvaluatorSla == Some(s) && slaValidatorSla == Some(s) && decisionMakerSla == Some(s)
      ensures outcome.Ok? <==> FirstNull(s, matches, resources.Keys) == |s.patterns|
      ensures outcome.Err? ==> outcome.error == NullMetricList
    {
      if slaValidationRunning {
        UnconfigureMonitoringForSla(serviceLevelAgreement.value);
      }
      outcome := ConfigureMonitoringForSla(s);
    }

    /** Corrected: as `UpdateSla`, and the new SLA replaces the stored one. */
    method UpdateSlaCorrected(s: Sla) returns (outcome: Outcome)
      requires Valid()
      modifies this`serviceLevelAgreement, this`running, this`resources,
        this`costEvaluatorSla, this`slaValidatorSla, this`decisionMakerSla
      ensures Valid()
      ensures serviceLevelAgreement == Some(s) && resources == old(resources)
      ensures running == Attach(Withdrawn(old(running), old(Active()), matches, resources.Keys),
        Configured(s, matches, resources.Keys), SlaListeners)
      ensures costEvaluatorSla == Some(s) && slaValidatorSla == Some(s) && decisionMakerSla == Some(s)
      ensures outcome.Ok? <==> FirstNull(s, matches, resources.Keys) == |s.patterns|
      ensures outcome.Err? ==> outcome.error == NullMetricList
    {
      if slaValidationRunning {
        UnconfigureMonitoringForSla(serviceLevelAgreement.value);
      }
      serviceLevelAgreement := Some(s);
      outcome := ConfigureMonitoringForSla(s);
    }

    /** Stops SLA validation: the stored SLA's metrics are stopped; refused when not running. */
    method StopSlaValidation() returns (outcome: Outcome)
      requires Valid()
      modifies this`slaValidationRunning, this`running,
        this`costEvaluatorSla, this`slaValidatorSla, this`decisionMakerSla
      ensures Valid()
      ensures !old(slaValidationRunning) ==>
        && outcome == Err(SlaValidationNotRunning) && running == old(running)
        && costEvaluatorSla == old(costEvaluatorSla) && slaValidatorSla == old(slaValidatorSla)
        && decisionMakerSla == old(decisionMakerSla)
      ensures old(slaValidationRunning) ==>
        && outcome.Ok? && !slaValidationRunning
        && running == Withdrawn(old(running), old(Active()), matches, resources.Keys)
        && costEvaluatorSla.None? && slaValidatorSla.None? && decisionMakerSla.None?
      ensures !slaValidationRunning
    {
      if !slaValidationRunning {
        return Err(SlaValidationNotRunning);
      }
      UnconfigureMonitoringForSla(serviceLevelAgreement.value);
      slaValidationRunning := false;
      outcome := Ok(());
    }

    /** The stored SLA while validation runs; an error otherwise. */
    method RetrieveCurrentSla() returns (r: Result<Sla, CoreError>)
      requires Valid()
      ensures r.Ok? <==> slaValidationRunning
      ensures r.Ok? ==> serviceLevelAgreement == Some(r.value)
      ensures r.Err? ==> r.error == NoSlaSet
    {
      if !slaValidationRunning {
        return Err(NoSlaSet);
      }
      r := Ok(serviceLevelAgreement.value);
    }

    /**
     * Handles a discovery event: for a new-resources event each resource is
     * added as a child of the event's parent and its SLA metrics started.
     * An unregistered parent is logged and ends the batch normally; any
     * other exception ends it and escapes. Other events are ignored.
     */
    method ProcessEvent(ev: DiscoveryEvent) returns (outcome: Outcome)
      requires Valid()
      modifies this`resources, this`running
      ensures ev.eventType != NewResourcesDiscovered ==>
        outcome.Ok? && resources == old(resources) && running == old(running)
      ensures ev.eventType == NewResourcesDiscovered ==>
        var d := Discover(old(resources), old(running), ev, Active(), matches);
        resources == d.resources && running == d.running && outcome == Escaping(d.error)
    {
      outcome := Ok(());
      if ev.eventType != NewResourcesDiscovered {
        return;
      }
      ghost var reg0, run0 := resources, running;
      var i := 0;
      while i < |ev.resources|
        invariant i <= |ev.resources|
        invariant DiscoverPrefix(reg0, run0, ev, Active(), matches, i) == Discovery(resources, running, None)
        invariant outcome == Ok(())
      {
        var u := ev.resources[i];
        var added := AddChild(resources, ev.parentUri, u, TypeOf(ev, u), PropertiesOf(ev, u));
        if added.Err? {
          ErrorEndsBatch(reg0, run0, ev, Active(), matches, i + 1, |ev.resources|);
          if added.error.NotRegistered? {
            return Ok(());
          }
          return Err(Registration(added.error));
        }
        resources := added.value;
        var started := StartMetricsForNewResource(u);
        if started.Err? {
          ErrorEndsBatch(reg0, run0, ev, Active(), matches, i + 1, |ev.resources|);
          return started;
        }
        i := i + 1;
      }
    }
  }

  /** Taking one more element out of the work set adds it to what was visited. */
  lemma VisitOne<T>(all: set<T>, todo: set<T>, x: T)
    requires todo <= all && x in todo
    ensures all - (todo - {x}) == (all - todo) + {x}
  {
  }

  /** `getResourceType(pattern)` of an SLA. */
  function SlaTypeOf(s: Sla, p: string): Option<string>
  {
    if p in s.types then Some(s.types[p]) else None
  }

  /** `getParameters(pattern)` of an SLA, a missing entry read as no parameters. */
  function SlaParametersOf(s: Sla, p: string): Params
  {
    if p in s.parameters then s.parameters[p] else map[]
  }

  /** How a discovery batch ends: an unregistered parent is caught and logged, anything else escapes. */
  function Escaping(error: Option<CoreError>): Outcome
  {
    match error
    case None => Ok(())
    case Some(Registration(NotRegistered(_))) => Ok(())
    case Some(e) => Err(e)
  }

  /** Once a batch has failed, the rest of it is not processed. */
  lemma {:induction false} ErrorEndsBatch(reg: Resources, run: Running, ev: DiscoveryEvent,
                                          active: Option<Sla>, matches: Matcher, n: nat, m: nat)
    requires n <= m <= |ev.resources|
    requires DiscoverPrefix(reg, run, ev, active, matches, n).error.Some?
    ensures DiscoverPrefix(reg, run, ev, active, matches, m) == DiscoverPrefix(reg, run, ev, active, matches, n)
    decreases m - n
  {
    if n < m {
      ErrorEndsBatch(reg, run, ev, active, matches, n, m - 1);
    }
  }

  /**
   * Validation runs with `s1`; updating to `s2` and stopping leaves running
   * a metric that only `s2` prescribes.
   */
  method UpdateThenStopLeaks(c: CoreManagement, s1: Sla, s2: Sla, id: MetricId)
    requires c.Valid() && c.slaValidationRunning && c.serviceLevelAgreement == Some(s1) && Complete(s2)
    requires id in Prescribed(s2, c.matches, s2.patterns, c.resources.Keys)
    requires id !in Prescribed(s1, c.matches, s1.patterns, c.resources.Keys)
    modifies c
    ensures id in c.running && !c.slaValidationRunning
  {
    var updated := c.UpdateSla(s2);
    var stopped := c.StopSlaValidation();
    UpdateThenStopAsWritten(old(c.running), c.resources.Keys, s1, s2, c.matches, id);
  }

  /** The same sequence with the corrected update stops every metric `s2` prescribes. */
  method UpdateThenStopCorrectedStopsAll(c: CoreManagement, s1: Sla, s2: Sla)
    requires c.Valid() && c.slaValidationRunning && c.serviceLevelAgreement == Some(s1)
    modifies c
    ensures !c.slaValidationRunning
    ensures c.running == Detach(old(c.running),
      Prescribed(s1, c.matches, s1.patterns, c.resources.Keys) + Prescribed(s2, c.matches, s2.patterns, c.resources.Keys))
  {
    var updated := c.UpdateSlaCorrected(s2);
    var stopped := c.StopSlaValidation();
    UpdateThenStopCorrected(old(c.running), c.resources.Keys, s1, s2, c.matches);
  }

  /** As written, removing a resource listener leaves its proxy subscribed to the registry. */
  method RemovedListenerStaysSubscribed(c: CoreManagement, l: nat)
    requires c.Valid()
    modifies c
    ensures Proxy(l) in c.registryListeners
  {
    c.AddResourceListener(l);
    c.RemoveResourceListener(l);
  }

  /** With the correction, the proxy is unsubscribed. */
  method RemovedListenerUnsubscribed(c: CoreManagement, l: nat)
    requires c.Valid()
    modifies c
    ensures Proxy(l) !in c.registryListeners && l !in c.resourceListenersProxies
  {
    c.AddResourceListener(l);
    c.RemoveResourceListenerCorrected(l);
  }
}
