# SAMM core: coordinator and rule processor

SAMM watches a tree of registered resources. It runs metrics on them and checks the measurements against a service level agreement (SLA). This project models two parts of its core in Dafny and proves properties of them.

**`CoreManagementImpl`** is the central coordinator. The model is the class `Core.CoreManagement`, and it owns two pieces of state:

- the SLA-validation flag;
- the stored SLA.

The coordinator's collaborators are modelled as plain state inside the class:

| Collaborator | Modelled as |
|---|---|
| resource registry | a map from URI to (type, parameters, parent) (`Registry`) |
| running-metrics manager | a map from `(metricURI, resourceURI)` to its listener set (`Metrics`) |
| cost evaluator, SLA validator, decision maker | three "current SLA" slots |
| two alarm-listener collections | two sets |
| resource-listener proxies | a map |
| resource listeners that get initial events | a log |

Starting, updating and stopping SLA validation run nested loops over patterns × registered resources × metrics. Each loop is written as an imperative method with invariants. These methods are proved against specification functions in `Metrics`:

- `Prescribed` is the set of metrics the SLA asks for.
- `Configured` is what the loops actually reach before the first null metric list.
- `Attach` and `Detach` describe what happens to the running metrics.

The loop that handles a discovery event is proved against `Core.Discover`, a fold over the event's resources. That fold stops at the first error, whether the source catches it or lets it escape.

**`EsperRuleProcessor`** is the rule processor. Its behaviour is fixed by its unit test. It has these parts:

- a pure rule→query builder (`RuleQuery.BuildQuery`);
- the SQL `LIKE` match that the generated query relies on (`RuleQuery.Like`);
- a named-rule table;
- a duplicate-free alarm-listener list, which `FireAlarm` iterates;
- match dispatch: a matching rule with an action submits that action, and a matching rule without one fires an alarm to every listener.

The streaming engine is modelled as follows:

- Sent events are recorded in a log.
- The action executor is a log of submitted actions.
- Listener calls are a log of `Delivery(listener, alarm)` records.
- Rule conditions and custom statements are decided by an oracle, `holds`.

Things the source takes from code that is not part of this model become parameters:

- `matches(pattern, uri)` stands for `java.util.regex.Pattern.matches`.
- `parentOf(uri)` stands for `StringHelper.getParentURI`.

`StringHelper` is not part of this model.

## Model

| member | source | states |
|---|---|---|
| RuleQuery.Filters | base/core/src/test/java/pl/edu/agh/samm/core/EsperRuleProcessorTest.java:123-130 | at most three `like` filters, none exactly when the rule names no resource, metric or resource type |
| RuleQuery.BuildQuery | base/core/src/test/java/pl/edu/agh/samm/core/EsperRuleProcessorTest.java:82-88 | a custom statement is used verbatim; otherwise the query selects metric events and ends with ` where <condition>` when a condition is set |
| RuleQuery.QueryWithAllFields | base/core/src/test/java/pl/edu/agh/samm/core/EsperRuleProcessorTest.java:119-131 | with all three patterns and a condition, the query is exactly the resourceURI/metricURI/resourceType `like` conjunction followed by the `where` clause |
| RuleQuery.QueryWithNoFields | base/core/src/test/java/pl/edu/agh/samm/core/EsperRuleProcessorTest.java:226-236 | a rule with no fields compiles to `select metric, value from IMetricEvent`, which matches every metric event |
| RuleQuery.CustomStatementIgnoresPatterns | base/core/src/test/java/pl/edu/agh/samm/core/EsperRuleProcessorTest.java:82-88 | when a custom statement is set, patterns and condition have no influence on the query |
| RuleQuery.PercentMatchesAll | base/core/src/test/java/pl/edu/agh/samm/core/EsperRuleProcessorTest.java:331-335 | the `LIKE` pattern `%` matches every string |
| RuleQuery.LiteralMatchesItselfOnly | base/core/src/test/java/pl/edu/agh/samm/core/EsperRuleProcessorTest.java:363-367 | a pattern without wildcards matches exactly itself (both directions) |
| RuleQuery.WildcardRuleMatches | base/core/src/test/java/pl/edu/agh/samm/core/EsperRuleProcessorTest.java:318-348 | a rule with `%` for all three patterns matches every metric event whose condition holds |
| RuleQuery.LiteralRuleMatches | base/core/src/test/java/pl/edu/agh/samm/core/EsperRuleProcessorTest.java:350-380 | a rule with literal patterns matches a metric event if and only if the event's resource, metric and type equal them and the condition holds |
| RuleQuery.GeneratedIgnoresMeasurements | base/core/src/test/java/pl/edu/agh/samm/core/EsperRuleProcessorTest.java:401-418 | a generated query selects from `IMetricEvent`, so no measurement event matches it |
| RuleProcessor.Without | base/core/src/test/java/pl/edu/agh/samm/core/EsperRuleProcessorTest.java:313 | removing a listener keeps exactly the other listeners, and removing an absent one changes nothing |
| RuleProcessor.WithoutKeepsNoDup | base/core/src/test/java/pl/edu/agh/samm/core/EsperRuleProcessorTest.java:311-313 | removal keeps the listener list duplicate-free |
| RuleProcessor.AddThenRemoveListener | base/core/src/test/java/pl/edu/agh/samm/core/EsperRuleProcessorTest.java:311-313 | adding a new listener and then removing it restores the list |
| RuleProcessor.Fan | base/core/src/test/java/pl/edu/agh/samm/core/EsperRuleProcessorTest.java:312 | firing an alarm makes one delivery per listener, in list order |
| RuleProcessor.FanReachesEachListener | base/core/src/test/java/pl/edu/agh/samm/core/EsperRuleProcessorTest.java:308-312 | a listener receives an alarm from a fire if and only if it is registered and the alarm is the one fired |
| RuleProcessor.FanDeliversOnce | base/core/src/test/java/pl/edu/agh/samm/core/EsperRuleProcessorTest.java:308-312 | in a duplicate-free list each registered listener receives the alarm exactly once |
| RuleProcessor.RemovedListenerGetsNothing | base/core/src/test/java/pl/edu/agh/samm/core/EsperRuleProcessorTest.java:313-314 | a removed listener receives nothing from later fires |
| RuleProcessor.DeliveriesAppend | base/core/src/test/java/pl/edu/agh/samm/core/EsperRuleProcessorTest.java:312-314 | the deliveries of two alarm sequences fired one after the other are the concatenation of their deliveries |
| RuleProcessor.DeliveredIff | base/core/src/test/java/pl/edu/agh/samm/core/EsperRuleProcessorTest.java:345-346 | listener `l` receives alarm `a` if and only if `l` is registered and `a` was raised |
| RuleProcessor.Submissions | base/core/src/test/java/pl/edu/agh/samm/core/EsperRuleProcessorTest.java:192-194 | a rule with an action submits it once per matched event; a rule without one submits nothing |
| RuleProcessor.Raised | base/core/src/test/java/pl/edu/agh/samm/core/EsperRuleProcessorTest.java:192-194 | a rule without an action raises one alarm, carrying the rule name and the event, per matched event; a rule with an action raises none |
| RuleProcessor.ActionsFromMatchingRules | base/core/src/test/java/pl/edu/agh/samm/core/EsperRuleProcessorTest.java:199-206 | an action is submitted for an event if and only if some statement with that action matches it |
| RuleProcessor.AlarmsFromMatchingRules | base/core/src/test/java/pl/edu/agh/samm/core/EsperRuleProcessorTest.java:343-346 | an alarm is raised for an event if and only if some action-less statement of that name matches it |
| RuleProcessor.MeasurementsReachOnlyCustomStatements | base/core/src/test/java/pl/edu/agh/samm/core/EsperRuleProcessorTest.java:401-418 | with only generated statements, a measurement event submits nothing and raises nothing |
| RuleProcessor.RuleWithActionSubmitsOnce | base/core/src/test/java/pl/edu/agh/samm/core/EsperRuleProcessorTest.java:193-206 | a matching rule with an action submits it exactly once and raises no alarm |
| RuleProcessor.WildcardRuleRaisesAlarm | base/core/src/test/java/pl/edu/agh/samm/core/EsperRuleProcessorTest.java:318-348 | adding a `%` rule and processing a metric event delivers exactly one alarm to the one listener |
| RuleProcessor.LiteralRuleRaisesAlarm | base/core/src/test/java/pl/edu/agh/samm/core/EsperRuleProcessorTest.java:350-380 | adding a literal rule for the event's own URIs and type delivers exactly one alarm to the one listener |
| RuleProcessor.SingleAlarm | base/core/src/test/java/pl/edu/agh/samm/core/EsperRuleProcessorTest.java:343-346 | a single matching action-less statement delivers exactly its alarm to a single listener |
| RuleProcessor.FirstNamed | base/core/src/test/java/pl/edu/agh/samm/core/EsperRuleProcessorTest.java:288-290 | finds the first statement with the name, or reports that none has it |
| RuleProcessor.RemoveNamed | base/core/src/test/java/pl/edu/agh/samm/core/EsperRuleProcessorTest.java:288-297 | removal fails with `NoSuchRule` if and only if no statement has the name, and otherwise removes exactly the first statement registered under the name, keeping the others in order |
| RuleProcessor.AddThenRemoveRule | base/core/src/test/java/pl/edu/agh/samm/core/EsperRuleProcessorTest.java:275-301 | adding a rule under a fresh name and removing it by name restores the table |
| RuleProcessor.RemoveDestroysCompiledRule | base/core/src/test/java/pl/edu/agh/samm/core/EsperRuleProcessorTest.java:288-297 | in a table built by `addRule`, the destroyed statement is the one compiled from the first rule with that name, and the rest keep their order |
| RuleProcessor.RemoveKeepsOtherNames | base/core/src/test/java/pl/edu/agh/samm/core/EsperRuleProcessorTest.java:288-297 | removal by name leaves statements of other names in the table |
| RuleProcessor.EsperRuleProcessor.constructor | base/core/src/test/java/pl/edu/agh/samm/core/EsperRuleProcessorTest.java:60 | a new processor has no rules, no listeners and empty logs |
| RuleProcessor.EsperRuleProcessor.AddRule | base/core/src/test/java/pl/edu/agh/samm/core/EsperRuleProcessorTest.java:119-141 | appends the statement compiled from the rule, under the rule's name |
| RuleProcessor.EsperRuleProcessor.RemoveRule | base/core/src/test/java/pl/edu/agh/samm/core/EsperRuleProcessorTest.java:288-297 | destroys the first statement registered under the name, keeping the others in order, or reports `NoSuchRule` and leaves the table unchanged |
| RuleProcessor.EsperRuleProcessor.ClearRules | base/core/src/test/java/pl/edu/agh/samm/core/EsperRuleProcessorTest.java:262-269 | destroys all statements |
| RuleProcessor.EsperRuleProcessor.AddAlarmListener | base/core/src/test/java/pl/edu/agh/samm/core/EsperRuleProcessorTest.java:311 | appends a listener that is not yet registered, keeping the list duplicate-free |
| RuleProcessor.EsperRuleProcessor.RemoveAlarmListener | base/core/src/test/java/pl/edu/agh/samm/core/EsperRuleProcessorTest.java:313 | removes the listener, which is then no longer registered |
| RuleProcessor.EsperRuleProcessor.FireAlarm | base/core/src/test/java/pl/edu/agh/samm/core/EsperRuleProcessorTest.java:308-314 | the loop calls `handleAlarm` on every registered listener in order |
| RuleProcessor.EsperRuleProcessor.OnUpdate | base/core/src/test/java/pl/edu/agh/samm/core/EsperRuleProcessorTest.java:204-206 | the update listener submits the action, or fires an alarm, once per event in the batch |
| RuleProcessor.EsperRuleProcessor.ProcessEvent | base/core/src/test/java/pl/edu/agh/samm/core/EsperRuleProcessorTest.java:199-206 | sends the event to the engine; every matching statement then dispatches through its update listener |
| RuleProcessor.EsperRuleProcessor.ProcessMetricEvent | base/core/src/test/java/pl/edu/agh/samm/core/EsperRuleProcessorTest.java:382-399 | sends the metric event to the engine runtime and dispatches the matches |
| RuleProcessor.EsperRuleProcessor.ProcessMeasurementEvent | base/core/src/test/java/pl/edu/agh/samm/core/EsperRuleProcessorTest.java:401-418 | sends the measurement event to the engine runtime and dispatches the matches |
| RuleProcessor.AlarmListenerRoundTrip | base/core/src/test/java/pl/edu/agh/samm/core/EsperRuleProcessorTest.java:303-316 | add, fire, remove, fire: the listener receives the alarm exactly once and is no longer registered |
| Registry.AddRoot | base/core/src/main/java/pl/edu/agh/samm/core/CoreManagementImpl.java:339-341 | adding a root fails with `AlreadyRegistered` if and only if the URI is taken, and otherwise adds a parentless entry |
| Registry.AddChild | base/core/src/main/java/pl/edu/agh/samm/core/CoreManagementImpl.java:359-361 | adding a child fails with `NotRegistered` when the parent is missing, fails when the URI is taken, and otherwise adds an entry linked to the parent |
| Registry.RegisterChildOrRoot | base/core/src/main/java/pl/edu/agh/samm/core/CoreManagementImpl.java:325-342 | registration fails if and only if the URI is already registered; otherwise it adds the URI as a child of its parent when the parent is registered, and as a root when it is not |
| Registry.RegisterTwiceFails | base/core/src/main/java/pl/edu/agh/samm/core/CoreManagementImpl.java:325-342 | a second registration of the same URI fails |
| Registry.AddParameters | base/core/src/main/java/pl/edu/agh/samm/core/CoreManagementImpl.java:344-351 | fails if and only if the URI is unregistered; otherwise it merges the new parameters over the old ones and changes nothing else |
| Registry.AddChildLinksOneChild | base/core/src/main/java/pl/edu/agh/samm/core/CoreManagementImpl.java:359-361 | a child registration adds exactly one child to its parent and none to any other resource |
| Registry.Unregister | base/core/src/main/java/pl/edu/agh/samm/core/CoreManagementImpl.java:524-527 | removes exactly that URI and keeps every other entry |
| Metrics.Listen | base/core/src/main/java/pl/edu/agh/samm/core/CoreManagementImpl.java:281-285 | starting a metric makes it run with its previous listeners (none if it was stopped) plus the given ones, and leaves other metrics unchanged |
| Metrics.Unlisten | base/core/src/main/java/pl/edu/agh/samm/core/CoreManagementImpl.java:257-260 | a running metric keeps all its listeners except the removed one; a stopped metric and all other metrics are unchanged |
| Metrics.Stop | base/core/src/main/java/pl/edu/agh/samm/core/CoreManagementImpl.java:219-222 | the metric no longer runs, and other metrics are unchanged |
| Metrics.Attach | base/core/src/main/java/pl/edu/agh/samm/core/CoreManagementImpl.java:469-476 | after the loop the running metrics are exactly the old ones plus the started ones |
| Metrics.Detach | base/core/src/main/java/pl/edu/agh/samm/core/CoreManagementImpl.java:494-501 | after the loop the running metrics are exactly the old ones minus the stopped ones |
| Metrics.ListenExtendsAttach | base/core/src/main/java/pl/edu/agh/samm/core/CoreManagementImpl.java:469-476 | one more start inside the loop equals attaching to one more metric |
| Metrics.StopExtendsDetach | base/core/src/main/java/pl/edu/agh/samm/core/CoreManagementImpl.java:494-501 | removing both listeners and stopping one more metric equals detaching one more metric |
| Metrics.FreshMetricListeners | base/core/src/main/java/pl/edu/agh/samm/core/CoreManagementImpl.java:472-475 | a metric that was not running runs with exactly the cost evaluator and the SLA validator |
| Metrics.DetachUndoesAttach | base/core/src/main/java/pl/edu/agh/samm/core/CoreManagementImpl.java:469-501 | stopping metrics that were freshly started restores the running set |
| Metrics.DetachAttachWithin | base/core/src/main/java/pl/edu/agh/samm/core/CoreManagementImpl.java:469-501 | stopping a superset of the started metrics erases the start |
| Metrics.AttachTwice | base/core/src/main/java/pl/edu/agh/samm/core/CoreManagementImpl.java:469-476 | two attach passes equal one pass over the union |
| Metrics.DetachTwice | base/core/src/main/java/pl/edu/agh/samm/core/CoreManagementImpl.java:494-501 | two detach passes equal one pass over the union |
| Metrics.MetricsFor | base/core/src/main/java/pl/edu/agh/samm/core/CoreManagementImpl.java:467 | a pattern's metric list is null if and only if the SLA has no entry for the pattern |
| Metrics.PrescribedAppendPattern | base/core/src/main/java/pl/edu/agh/samm/core/CoreManagementImpl.java:452-479 | the metrics prescribed by a pattern list are the union over its patterns |
| Metrics.PrescribedAddResource | base/core/src/main/java/pl/edu/agh/samm/core/CoreManagementImpl.java:454-478 | the metrics prescribed over a resource set are the union over its resources |
| Metrics.PrescribedSingle | base/core/src/main/java/pl/edu/agh/samm/core/CoreManagementImpl.java:455-477 | for one pattern and one resource, the prescription is that pattern's metrics when the resource matches, and nothing otherwise |
| Metrics.FirstNullFrom | base/core/src/main/java/pl/edu/agh/samm/core/CoreManagementImpl.java:452-469 | the index of the first pattern whose null metric list is dereferenced, with no such pattern before it |
| Metrics.ConfiguredWithinPrescribed | base/core/src/main/java/pl/edu/agh/samm/core/CoreManagementImpl.java:452-479 | configuring never starts a metric the SLA does not prescribe |
| Metrics.CompleteConfiguresAll | base/core/src/main/java/pl/edu/agh/samm/core/CoreManagementImpl.java:452-479 | when every pattern has a metric list, configuring reaches the end and starts every prescribed metric |
| Metrics.ConfigureFailureWitness | base/core/src/main/java/pl/edu/agh/samm/core/CoreManagementImpl.java:455-469 | configuring stops early only if some involved pattern without a metric list matches a registered resource |
| Core.DiscoveryUnderUnregisteredParent | base/core/src/main/java/pl/edu/agh/samm/core/CoreManagementImpl.java:358-366 | under an unregistered parent the first child fails with `NotRegistered`, which ends the batch with nothing registered and nothing started |
| Core.DiscoveryRegistersChildren | base/core/src/main/java/pl/edu/agh/samm/core/CoreManagementImpl.java:355-368 | under a registered parent, fresh resources are all added as its children with their event types and properties, and their SLA metrics are started |
| Core.DiscoveryOnlyAddsChildren | base/core/src/main/java/pl/edu/agh/samm/core/CoreManagementImpl.java:359-363 | a discovery keeps every existing entry and adds only listed resources, each under the event's parent |
| Core.ErrorEndsBatch | base/core/src/main/java/pl/edu/agh/samm/core/CoreManagementImpl.java:358-366 | once a resource fails, no later resource of the batch has any effect |
| Core.ConfiguredMetricsRun | base/core/src/main/java/pl/edu/agh/samm/core/CoreManagementImpl.java:452-478 | for a complete SLA every prescribed metric runs with both SLA listeners afterwards, and one that was not running has exactly those two |
| Core.StartThenStopRestores | base/core/src/main/java/pl/edu/agh/samm/core/CoreManagementImpl.java:448-507 | configuring and then unconfiguring an SLA whose metrics were not running restores the running set |
| Core.UpdateThenStopAsWritten | base/core/src/main/java/pl/edu/agh/samm/core/CoreManagementImpl.java:431-441 | after update and stop as written, a metric prescribed only by the new SLA keeps running |
| Core.UpdateThenStopCorrected | base/core/src/main/java/pl/edu/agh/samm/core/CoreManagementImpl.java:431-441 | when the update stores the new SLA, a later stop withdraws every metric of both SLAs |
| Core.ReplayOneMore | base/core/src/main/java/pl/edu/agh/samm/core/CoreManagementImpl.java:153-159 | each replay step sends one more resource that had not been sent before |
| Core.CoreManagement.constructor | base/core/src/main/java/pl/edu/agh/samm/core/CoreManagementImpl.java:63-75 | validation is off, there is no SLA, and the registry, metrics, listeners and triad slots are empty |
| Core.CoreManagement.RegisterResource | base/core/src/main/java/pl/edu/agh/samm/core/CoreManagementImpl.java:325-342 | fails if and only if the URI is registered; otherwise it registers it as a child of a registered parent, or as a root |
| Core.CoreManagement.AddResourceParameters | base/core/src/main/java/pl/edu/agh/samm/core/CoreManagementImpl.java:344-351 | an unregistered URI gives `NotRegistered` and leaves the registry unchanged; otherwise the parameters are merged |
| Core.CoreManagement.UnregisterResource | base/core/src/main/java/pl/edu/agh/samm/core/CoreManagementImpl.java:524-527 | removes the URI from the registry |
| Core.CoreManagement.StartMetricAndAddRunningMetricListener | base/core/src/main/java/pl/edu/agh/samm/core/CoreManagementImpl.java:281-285 | the metric runs with the given listeners added |
| Core.CoreManagement.StartMetricWithListener | base/core/src/main/java/pl/edu/agh/samm/core/CoreManagementImpl.java:295-303 | a null listener changes nothing; otherwise the metric runs with that listener |
| Core.CoreManagement.RemoveRunningMetricListener | base/core/src/main/java/pl/edu/agh/samm/core/CoreManagementImpl.java:257-260 | the listener is detached from the metric, which keeps its other listeners |
| Core.CoreManagement.StopMetric | base/core/src/main/java/pl/edu/agh/samm/core/CoreManagementImpl.java:219-222 | the metric is no longer running |
| Core.CoreManagement.AddAlarmListener | base/core/src/main/java/pl/edu/agh/samm/core/CoreManagementImpl.java:405-409 | the listener is added both to the knowledge alarm listener and to the SLA validator |
| Core.CoreManagement.RemoveAlarmListener | base/core/src/main/java/pl/edu/agh/samm/core/CoreManagementImpl.java:411-415 | the listener is removed from both |
| Core.CoreManagement.AddResourceListener | base/core/src/main/java/pl/edu/agh/samm/core/CoreManagementImpl.java:146-160 | stores a proxy for the listener, subscribes the proxy, and sends the listener one initial event per registered resource |
| Core.CoreManagement.ReplayRegisteredResources | base/core/src/main/java/pl/edu/agh/samm/core/CoreManagementImpl.java:153-159 | the loop sends exactly one initial event per registered resource, after the events already sent |
| Core.CoreManagement.RemoveResourceListener | base/core/src/main/java/pl/edu/agh/samm/core/CoreManagementImpl.java:162-168 | as written: when a proxy is known, it unsubscribes the unwrapped listener, not the proxy |
| Core.CoreManagement.RemoveResourceListenerCorrected | base/core/src/main/java/pl/edu/agh/samm/core/CoreManagementImpl.java:162-168 | unsubscribes the stored proxy and forgets it |
| Core.CoreManagement.StartListedMetrics | base/core/src/main/java/pl/edu/agh/samm/core/CoreManagementImpl.java:469-476 | starts every listed metric on the resource with both SLA listeners |
| Core.CoreManagement.StopListedMetrics | base/core/src/main/java/pl/edu/agh/samm/core/CoreManagementImpl.java:494-501 | detaches both SLA listeners from every listed metric on the resource and stops it |
| Core.CoreManagement.StartMetricsForNewResource | base/core/src/main/java/pl/edu/agh/samm/core/CoreManagementImpl.java:370-388 | does nothing while validation is off; otherwise starts the SLA metrics of every matching pattern, failing with a null dereference at the first matching pattern without a metric list |
| Core.CoreManagement.ConfigureMonitoringForSla | base/core/src/main/java/pl/edu/agh/samm/core/CoreManagementImpl.java:448-480 | sets all three triad slots, leaves the registry unchanged, starts exactly the metrics configured before the first null list, and fails if and only if there is one |
| Core.CoreManagement.ConfigurePattern | base/core/src/main/java/pl/edu/agh/samm/core/CoreManagementImpl.java:454-478 | configures one pattern over all registered resources, or reports the null metric list it would dereference |
| Core.CoreManagement.ConfigureResource | base/core/src/main/java/pl/edu/agh/samm/core/CoreManagementImpl.java:455-477 | for one resource: a non-matching resource is skipped; a matching one has its metrics started, unless its pattern has no metric list |
| Core.CoreManagement.UnconfigureMonitoringForSla | base/core/src/main/java/pl/edu/agh/samm/core/CoreManagementImpl.java:482-507 | clears the three triad slots and stops exactly the prescribed metrics, skipping patterns with a null metric list |
| Core.CoreManagement.UnconfigurePattern | base/core/src/main/java/pl/edu/agh/samm/core/CoreManagementImpl.java:486-505 | stops the metrics one pattern prescribes over the registered resources |
| Core.CoreManagement.StartSlaValidation | base/core/src/main/java/pl/edu/agh/samm/core/CoreManagementImpl.java:417-429 | while running it fails and changes nothing; otherwise it sets the flag, stores the SLA, sets the triad slots and configures monitoring |
| Core.CoreManagement.UpdateSla | base/core/src/main/java/pl/edu/agh/samm/core/CoreManagementImpl.java:431-441 | as written: unconfigures the stored SLA only while running, always configures the new one, and leaves the flag and the stored SLA unchanged |
| Core.CoreManagement.UpdateSlaCorrected | base/core/src/main/java/pl/edu/agh/samm/core/CoreManagementImpl.java:431-441 | as `UpdateSla`, and also stores the new SLA |
| Core.CoreManagement.StopSlaValidation | base/core/src/main/java/pl/edu/agh/samm/core/CoreManagementImpl.java:509-517 | fails and changes nothing when not running; otherwise it clears the triad slots, withdraws the stored SLA's metrics and clears the flag |
| Core.CoreManagement.RetrieveCurrentSla | base/core/src/main/java/pl/edu/agh/samm/core/CoreManagementImpl.java:557-563 | fails if and only if validation is off, and otherwise returns the stored SLA |
| Core.CoreManagement.ProcessEvent | base/core/src/main/java/pl/edu/agh/samm/core/CoreManagementImpl.java:353-368 | ignores other event types; otherwise it registers the resources in order, starting SLA metrics while validation runs, stops at the first error; an unregistered parent is caught and reported as success, while an already-registered resource or a null metric list escapes |
| Core.UpdateThenStopLeaks | base/core/src/main/java/pl/edu/agh/samm/core/CoreManagementImpl.java:431-441 | on the class, update then stop leaves a metric of the new SLA running while validation is off |
| Core.UpdateThenStopCorrectedStopsAll | base/core/src/main/java/pl/edu/agh/samm/core/CoreManagementImpl.java:431-441 | with the corrected update, update then stop withdraws the metrics of both SLAs |
| Core.RemovedListenerStaysSubscribed | base/core/src/main/java/pl/edu/agh/samm/core/CoreManagementImpl.java:146-168 | adding then removing a resource listener as written leaves its proxy subscribed |
| Core.RemovedListenerUnsubscribed | base/core/src/main/java/pl/edu/agh/samm/core/CoreManagementImpl.java:146-168 | with the corrected removal, the proxy is unsubscribed and forgotten |

## Left out

- Pattern matching: `java.util.regex.Pattern.matches` is not modelled; it is the `matches` parameter.
- Parent URIs: `StringHelper.getParentURI` is not modelled; it is the `parentOf` parameter.
- Rule engine: Esper compilation and evaluation are not modelled.
  - A generated query matches an event when its three `LIKE` filters match.
  - Conditions, and custom statements as a whole, are decided by the `holds` oracle, because they are floating-point or arbitrary EPL.
- Engine wiring: `setEpService` and `setActionExecutor` are not modelled; the engine and the executor are logs owned by the processor.
- Hidden collaborators: the running-metrics manager and the resource registry are modelled as in-memory state. Their real implementations are not part of this model. The error behaviour chosen for them is listed in the lines below.
- Metrics.Listen: starting a metric that already runs does not fail; it only adds the listeners. `startMetricAndAddRunningMetricListener` declares no exception (CoreManagementImpl.java:282-284). The only metric exception in the source, `MetricNotRunningException`, is declared by `addRunningMetricListener` (CoreManagementImpl.java:233-234), which is not modelled.
- Metrics.Unlisten: removing a listener from a metric that does not run changes nothing and does not fail. `removeRunningMetricListener` declares no exception (CoreManagementImpl.java:258).
- Metrics.Stop: stopping a metric that does not run changes nothing and does not fail. `stopMetric` declares no exception (CoreManagementImpl.java:220). This choice is what lets the stop loops of `Core.CoreManagement.UnconfigureMonitoringForSla` pass over a metric that is prescribed twice. `Core.StartThenStopRestores`, `Core.UpdateThenStopAsWritten` and `Core.UpdateThenStopCorrected` depend on it.
- Core.CoreManagement.ProcessEvent: a discovered resource that is already registered is assumed to make the registry's `addChildResource` throw an unchecked "already registered" exception. That exception escapes `processEvent`, because the source catches only `ResourceNotRegisteredException` (CoreManagementImpl.java:358-366). The registry implementation is not part of this model. If it ignored duplicates instead, the loop would go on with the next resource. `Registry.AddChild` checks for a missing parent before it checks for a taken URI. So an already-registered resource under an unregistered parent gives the caught `NotRegistered`, not the escaping "already registered"; this order is a choice about the registry, whose code is not part of this model.
- Core.CoreManagement.StartSlaValidation and Core.CoreManagement.UpdateSla: a null SLA cannot be expressed, because the parameter is an `Sla` value. In the source, `startSLAValidation(null)` sets the flag and stores null, and then throws a `NullPointerException` inside configure (CoreManagementImpl.java:424-427). From then on, every `stopSLAValidation` throws too.
- Core.PropertiesOf and Core.SlaParametersOf: a missing entry is read as an empty parameter map. The source passes `null` on to the registry (CoreManagementImpl.java:360-361 and 457-460), and the registry's treatment of `null` is not part of this model.
- Metric instances: `createRunningMetricInstance` is identified with the `(metricURI, resourceURI)` pair it is built from.
- Resource-listener proxies: a `ProxyResourceListener` is modelled as a value `Proxy(l)` that never equals the listener `l` it wraps. Its forwarding of events is not modelled. Repeated `addResourceListener(l)` calls create separate proxies in the source, and the earlier ones stay subscribed (CoreManagementImpl.java:148-150); the model merges them into the one value `Proxy(l)`.
- Initial events: exceptions thrown by a listener while it receives them are not modelled, because the source only logs them.
- Registering an SLA pattern's resource again: the `ResourceAlreadyRegisteredException` in the configure loop is caught, so that call is modelled as leaving the registry unchanged.
- `RuleProcessor.EsperRuleProcessor.AddAlarmListener`: the list is kept duplicate-free. The processor's implementation is not part of this model, and its test registers each listener once.
- `RuleProcessor.EsperRuleProcessor.AddRule`: a second rule with an existing name appends another statement, and removal takes the first one. The engine's own reaction to a duplicate name is not modelled.
- Alarm listeners of the knowledge component and the SLA validator: modelled as sets, because their implementations are not part of this model.
- Not modelled at all: logging, locking and thread safety, `startLearning` and experimentator delegation, plain getters and setters, `init`/`destroy`, the read-only pass-through queries such as `isMetricRunning`, and the one-line delegations `addRunningMetricListener`, `add/removeRunningMetricsManagerListener` and `updateMetricPollTimeInterval`.
- Not modelled at all: `FileConfigurator`, `DBListener`, the test workload application and the Eclipse UI.

## Findings

| source | as written | input that shows it | evidently intended | confidence | as-written member | corrected member |
|---|---|---|---|---|---|---|
| base/core/src/main/java/pl/edu/agh/samm/core/CoreManagementImpl.java:431-441 | `updateSLA` configures monitoring for the new SLA but never assigns `this.serviceLevelAgreement`, so a later `stopSLAValidation` unconfigures the old SLA | validation running with SLA `s1`; `updateSLA(s2)` where `s2` prescribes a metric `s1` does not; then `stopSLAValidation()`: that metric keeps running with validation off | the update stores `s2`, so that stopping withdraws what was started | high (not executed) | Core.CoreManagement.UpdateSla, Core.UpdateThenStopAsWritten, Core.UpdateThenStopLeaks | Core.CoreManagement.UpdateSlaCorrected, Core.UpdateThenStopCorrected, Core.UpdateThenStopCorrectedStopsAll |
| base/core/src/main/java/pl/edu/agh/samm/core/CoreManagementImpl.java:162-168 | `removeResourceListener` looks up the proxy but removes the unwrapped listener from the registry, where only the proxy was subscribed | `addResourceListener(l)` then `removeResourceListener(l)`: the proxy of `l` stays subscribed and `l` still receives events | remove the stored proxy (and forget it) | medium, depends on `ProxyResourceListener` not being equal to its target (not executed) | Core.CoreManagement.RemoveResourceListener, Core.RemovedListenerStaysSubscribed | Core.CoreManagement.RemoveResourceListenerCorrected, Core.RemovedListenerUnsubscribed |
