/**
 * The rule processor: a table of statements compiled from rules, a list of
 * alarm listeners, and the dispatch that runs when the engine reports that a
 * statement matched.
 *
 * The streaming engine's runtime is represented by the log of events handed
 * to it (`sentEvents`), the action executor by the log of submitted actions
 * (`submitted`), and the alarm listeners by the log of `handleAlarm` calls
 * (`delivered`). The engine's evaluation of a statement is `RuleMatches` from
 * `RuleQuery`, with conditions and custom statements decided by the oracle
 * `holds` the processor is built with.
 */
module RuleProcessor {
  import opened Wrappers
  import opened RuleQuery

  /** A statement registered with the engine under `name`, with query text `epl`, for `rule`. */
  datatype Statement = Statement(name: string, epl: string, rule: Rule)

  /** The alarm raised when a rule without an action matches an event. */
  datatype Alarm = Alarm(ruleName: string, event: Event)

  /** One call of `handleAlarm` on the alarm listener `listener`. */
  datatype Delivery = Delivery(listener: nat, alarm: Alarm)

  /** `removeRule` on a name under which no statement is registered. */
  datatype RuleError = NoSuchRule(name: string)

  /** A statement as `addRule` creates it: under the rule's name, with the rule's query. */
  predicate Compiled(st: Statement)
  {
    st.name == st.rule.name && st.epl == BuildQuery(st.rule)
  }

  /** No listener is registered twice. */
  predicate NoDup(ls: seq<nat>)
  {
    forall i, j :: 0 <= i < j < |ls| ==> ls[i] != ls[j]
  }

  // ---------------------------------------------------------------------
  // Alarm listeners
  // ---------------------------------------------------------------------

  /** The listener list with `l` taken out, the others kept in order. */
  function Without(ls: seq<nat>, l: nat): (r: seq<nat>)
    ensures forall x :: x in r <==> x in ls && x != l
    ensures l !in ls ==> r == ls
  {
    if ls == [] then []
    else (if ls[0] == l then [] else [ls[0]]) + Without(ls[1..], l)
  }

  /** Prepending a listener not yet in a duplicate-free list keeps it duplicate-free. */
  lemma NoDupCons(x: nat, s: seq<nat>)
    requires x !in s && NoDup(s)
    ensures NoDup([x] + s)
  {
    forall i, j | 0 <= i < j < |[x] + s| ensures ([x] + s)[i] != ([x] + s)[j] {
      assert ([x] + s)[j] == s[j - 1];
      if i > 0 {
        assert ([x] + s)[i] == s[i - 1];
      }
    }
  }

  /** Removing a listener keeps the list duplicate-free. */
  lemma {:induction false} WithoutKeepsNoDup(ls: seq<nat>, l: nat)
    requires NoDup(ls)
    ensures NoDup(Without(ls, l))
  {
    if ls != [] {
      assert NoDup(ls[1..]) by {
        forall i, j | 0 <= i < j < |ls[1..]| ensures ls[1..][i] != ls[1..][j] {
          assert ls[1..][i] == ls[i + 1] && ls[1..][j] == ls[j + 1];
        }
      }
      WithoutKeepsNoDup(ls[1..], l);
      if ls[0] != l {
        assert ls[0] !in ls[1..] by {
          forall k | 0 <= k < |ls[1..]| ensures ls[1..][k] != ls[0] {
            assert ls[1..][k] == ls[k + 1];
          }
        }
        NoDupCons(ls[0], Without(ls[1..], l));
      }
    }
  }

  /** Adding a listener that was not registered and then removing it restores the list. */
  lemma {:induction false} AddThenRemoveListener(ls: seq<nat>, l: nat)
    requires l !in ls
    ensures Without(ls + [l], l) == ls
  {
    if ls == [] {
      assert [l][1..] == [];
    } else {
      assert (ls + [l])[1..] == ls[1..] + [l];
      AddThenRemoveListener(ls[1..], l);
      assert ls == [ls[0]] + ls[1..];
    }
  }

  /** The `handleAlarm` calls of one `fireAlarm(a)`: one per listener, in list order. */
  function Fan(ls: seq<nat>, a: Alarm): (d: seq<Delivery>)
    ensures |d| == |ls|
    ensures forall i :: 0 <= i < |ls| ==> d[i] == Delivery(ls[i], a)
  {
    if ls == [] then [] else Fan(ls[..|ls| - 1], a) + [Delivery(ls[|ls| - 1], a)]
  }

  /** `fireAlarm(a)` reaches a listener exactly when it is registered, and with `a` only. */
  lemma FanReachesEachListener(ls: seq<nat>, a: Alarm, l: nat, b: Alarm)
    ensures Delivery(l, b) in Fan(ls, a) <==> l in ls && b == a
  {
    if l in ls && b == a {
      var i :| 0 <= i < |ls| && ls[i] == l;
      assert Fan(ls, a)[i] == Delivery(l, b);
    }
  }

  /** In a duplicate-free list each registered listener gets the alarm exactly once. */
  lemma {:induction false} FanDeliversOnce(ls: seq<nat>, a: Alarm, l: nat)
    requires NoDup(ls) && l in ls
    ensures multiset(Fan(ls, a))[Delivery(l, a)] == 1
  {
    var n := |ls| - 1;
    var front := ls[..n];
    assert ls == front + [ls[n]];
    assert NoDup(front);
    assert Fan(ls, a) == Fan(front, a) + [Delivery(ls[n], a)];
    if ls[n] == l {
      assert l !in front;
      FanReachesEachListener(front, a, l, a);
      assert Delivery(l, a) !in multiset(Fan(front, a));
    } else {
      assert l in front;
      FanDeliversOnce(front, a, l);
    }
  }

  /** A listener that was removed gets nothing from a later `fireAlarm`. */
  lemma RemovedListenerGetsNothing(ls: seq<nat>, l: nat, a: Alarm, b: Alarm)
    ensures Delivery(l, b) !in Fan(Without(ls, l), a)
  {
    FanReachesEachListener(Without(ls, l), a, l, b);
  }

  /** The `handleAlarm` calls of firing `alarms` in order. */
  function Deliveries(ls: seq<nat>, alarms: seq<Alarm>): seq<Delivery>
  {
    if alarms == [] then []
    else Deliveries(ls, alarms[..|alarms| - 1]) + Fan(ls, alarms[|alarms| - 1])
  }

  /** Firing one more alarm delivers it to every listener after the earlier deliveries. */
  lemma DeliveriesSnoc(ls: seq<nat>, xs: seq<Alarm>, x: Alarm)
    ensures Deliveries(ls, xs + [x]) == Deliveries(ls, xs) + Fan(ls, x)
  {
    assert (xs + [x])[..|xs|] == xs;
  }

  /** Firing `xs` then `ys` delivers what firing `xs` and then what firing `ys` delivers. */
  lemma {:induction false} DeliveriesAppend(ls: seq<nat>, xs: seq<Alarm>, ys: seq<Alarm>)
    ensures Deliveries(ls, xs + ys) == Deliveries(ls, xs) + Deliveries(ls, ys)
    decreases |ys|
  {
    if ys == [] {
      assert xs + ys == xs;
    } else {
      var m := |ys| - 1;
      var front := ys[..m];
      assert ys == front + [ys[m]];
      assert xs + ys == (xs + front) + [ys[m]];
      DeliveriesSnoc(ls, xs + front, ys[m]);
      DeliveriesSnoc(ls, front, ys[m]);
      DeliveriesAppend(ls, xs, front);
      AppendAssoc(Deliveries(ls, xs), Deliveries(ls, front), Fan(ls, ys[m]));
    }
  }

  /** Appending to a log is associative. */
  lemma AppendAssoc<T>(a: seq<T>, b: seq<T>, c: seq<T>)
    ensures (a + b) + c == a + (b + c)
  {
  }

  /** A log that held the deliveries of `xs` and then received those of `ys` holds those of `xs + ys`. */
  lemma LogExtends(start: seq<Delivery>, prev: seq<Delivery>, now: seq<Delivery>,
                   ls: seq<nat>, xs: seq<Alarm>, ys: seq<Alarm>)
    requires prev == start + Deliveries(ls, xs) && now == prev + Deliveries(ls, ys)
    ensures now == start + Deliveries(ls, xs + ys)
  {
    DeliveriesAppend(ls, xs, ys);
    AppendAssoc(start, Deliveries(ls, xs), Deliveries(ls, ys));
  }

  /** A log that held the deliveries of `xs` and then received one `fireAlarm(x)` holds those of `xs + [x]`. */
  lemma LogFire(start: seq<Delivery>, prev: seq<Delivery>, now: seq<Delivery>,
                ls: seq<nat>, xs: seq<Alarm>, x: Alarm)
    requires prev == start + Deliveries(ls, xs) && now == prev + Fan(ls, x)
    ensures now == start + Deliveries(ls, xs + [x])
  {
    DeliveriesSnoc(ls, xs, x);
    AppendAssoc(start, Deliveries(ls, xs), Fan(ls, x));
  }

  /** A listener gets an alarm from a sequence of firings exactly when both are in play. */
  lemma {:induction false} DeliveredIff(ls: seq<nat>, alarms: seq<Alarm>, l: nat, a: Alarm)
    ensures Delivery(l, a) in Deliveries(ls, alarms) <==> l in ls && a in alarms
  {
    if alarms != [] {
      var m := |alarms| - 1;
      DeliveredIff(ls, alarms[..m], l, a);
      FanReachesEachListener(ls, alarms[m], l, a);
      assert alarms == alarms[..m] + [alarms[m]];
    }
  }

  // ---------------------------------------------------------------------
  // Dispatch of a matched batch
  // ---------------------------------------------------------------------

  /** What the update listener of rule `r` submits to the action executor for a batch. */
  function Submissions(r: Rule, batch: seq<Event>): (s: seq<Action>)
    ensures r.action.None? ==> s == []
    ensures r.action.Some? ==> |s| == |batch| && forall i :: 0 <= i < |s| ==> s[i] == r.action.value
  {
    if batch == [] then []
    else Submissions(r, batch[..|batch| - 1]) + (if r.action.Some? then [r.action.value] else [])
  }

  /** The alarms the update listener of rule `r` fires for a batch. */
  function Raised(r: Rule, batch: seq<Event>): (a: seq<Alarm>)
    ensures r.action.Some? ==> a == []
    ensures r.action.None? ==> |a| == |batch| && forall i :: 0 <= i < |a| ==> a[i] == Alarm(r.name, batch[i])
  {
    if batch == [] then []
    else Raised(r, batch[..|batch| - 1]) + (if r.action.None? then [Alarm(r.name, batch[|batch| - 1])] else [])
  }

  /** One more event of a batch: its submission or its alarm comes after the earlier ones. */
  lemma DispatchStep(r: Rule, batch: seq<Event>, i: nat)
    requires i < |batch|
    ensures Submissions(r, batch[..i + 1]) == Submissions(r, batch[..i]) + Submissions(r, [batch[i]])
    ensures Raised(r, batch[..i + 1]) == Raised(r, batch[..i]) + Raised(r, [batch[i]])
  {
    assert batch[..i + 1][..i] == batch[..i];
    assert [batch[i]][..0] == [];
  }

  /** One more statement: what it triggers for `ev` comes after what the earlier ones trigger. */
  lemma EngineStep(sts: seq<Statement>, ev: Event, holds: Oracle, i: nat)
    requires i < |sts|
    ensures EngineActions(sts[..i + 1], ev, holds) == EngineActions(sts[..i], ev, holds)
      + (if RuleMatches(sts[i].rule, ev, holds) then Submissions(sts[i].rule, [ev]) else [])
    ensures EngineAlarms(sts[..i + 1], ev, holds) == EngineAlarms(sts[..i], ev, holds)
      + (if RuleMatches(sts[i].rule, ev, holds) then Raised(sts[i].rule, [ev]) else [])
  {
    assert sts[..i + 1][..i] == sts[..i];
  }

  /** The actions submitted when the engine matches `ev` against the statements in order. */
  function EngineActions(sts: seq<Statement>, ev: Event, holds: Oracle): seq<Action>
  {
    if sts == [] then []
    else
      var last := sts[|sts| - 1];
      EngineActions(sts[..|sts| - 1], ev, holds)
      + (if RuleMatches(last.rule, ev, holds) then Submissions(last.rule, [ev]) else [])
  }

  /** The alarms fired when the engine matches `ev` against the statements in order. */
  function EngineAlarms(sts: seq<Statement>, ev: Event, holds: Oracle): seq<Alarm>
  {
    if sts == [] then []
    else
      var last := sts[|sts| - 1];
      EngineAlarms(sts[..|sts| - 1], ev, holds)
      + (if RuleMatches(last.rule, ev, holds) then Raised(last.rule, [ev]) else [])
  }

  /** Statement `st` matches `ev` and carries action `act`. */
  predicate SubmitsFor(st: Statement, ev: Event, holds: Oracle, act: Action)
  {
    st.rule.action == Some(act) && RuleMatches(st.rule, ev, holds)
  }

  /** Statement `st` matches `ev`, carries no action, and so raises `al`. */
  predicate AlarmsFor(st: Statement, ev: Event, holds: Oracle, al: Alarm)
  {
    st.rule.action.None? && RuleMatches(st.rule, ev, holds) && al == Alarm(st.rule.name, ev)
  }

  /** What one statement contributes for `ev`. */
  lemma OneStatement(st: Statement, ev: Event, holds: Oracle, act: Action, al: Alarm)
    ensures act in (if RuleMatches(st.rule, ev, holds) then Submissions(st.rule, [ev]) else [])
      <==> SubmitsFor(st, ev, holds, act)
    ensures al in (if RuleMatches(st.rule, ev, holds) then Raised(st.rule, [ev]) else [])
      <==> AlarmsFor(st, ev, holds, al)
  {
    if RuleMatches(st.rule, ev, holds) {
      if st.rule.action.Some? {
        assert Submissions(st.rule, [ev]) == [st.rule.action.value];
      } else {
        assert Raised(st.rule, [ev]) == [Alarm(st.rule.name, ev)];
      }
    }
  }

  /** An action is submitted for `ev` exactly when a statement matching `ev` carries it. */
  lemma {:induction false} ActionsFromMatchingRules(sts: seq<Statement>, ev: Event, holds: Oracle, act: Action)
    ensures act in EngineActions(sts, ev, holds) <==> exists st :: st in sts && SubmitsFor(st, ev, holds, act)
  {
    if sts != [] {
      var m := |sts| - 1;
      ActionsFromMatchingRules(sts[..m], ev, holds, act);
      EngineStep(sts, ev, holds, m);
      OneStatement(sts[m], ev, holds, act, Alarm("", ev));
      StatementsSnoc(sts);
    }
  }

  /**
   * An alarm is fired for `ev` exactly when a statement matching `ev` has no
   * action, and it names that statement's rule and carries `ev`.
   */
  lemma {:induction false} AlarmsFromMatchingRules(sts: seq<Statement>, ev: Event, holds: Oracle, al: Alarm)
    ensures al in EngineAlarms(sts, ev, holds) <==> exists st :: st in sts && AlarmsFor(st, ev, holds, al)
  {
    if sts != [] {
      var m := |sts| - 1;
      AlarmsFromMatchingRules(sts[..m], ev, holds, al);
      EngineStep(sts, ev, holds, m);
      OneStatement(sts[m], ev, holds, Action(""), al);
      StatementsSnoc(sts);
    }
  }

  /** A non-empty table is its front and its last statement. */
  lemma StatementsSnoc(sts: seq<Statement>)
    requires sts != []
    ensures sts[..|sts| - 1 + 1] == sts
    ensures forall st :: st in sts <==> st in sts[..|sts| - 1] || st == sts[|sts| - 1]
  {
    assert sts == sts[..|sts| - 1] + [sts[|sts| - 1]];
  }

  /** A measurement event triggers nothing when no statement is a custom statement. */
  lemma {:induction false} MeasurementsReachOnlyCustomStatements(sts: seq<Statement>, m: MeasurementEvent, holds: Oracle)
    requires forall i :: 0 <= i < |sts| ==> sts[i].rule.customStatement.None?
    ensures EngineActions(sts, Measurement(m), holds) == []
    ensures EngineAlarms(sts, Measurement(m), holds) == []
  {
    if sts != [] {
      var n := |sts| - 1;
      assert forall i :: 0 <= i < n ==> sts[..n][i] == sts[i];
      MeasurementsReachOnlyCustomStatements(sts[..n], m, holds);
      GeneratedIgnoresMeasurements(sts[n].rule, m, holds);
    }
  }

  /** A matched rule with an action submits that action once and fires no alarm. */
  lemma RuleWithActionSubmitsOnce(st: Statement, ev: Event, holds: Oracle, act: Action)
    requires st.rule.action == Some(act) && RuleMatches(st.rule, ev, holds)
    ensures EngineActions([st], ev, holds) == [act]
    ensures EngineAlarms([st], ev, holds) == []
  {
    assert [st][..0] == [];
  }

  /**
   * A rule without an action whose three patterns are "%" makes a metric event
   * raise one alarm at the registered listener.
   */
  lemma WildcardRuleRaisesAlarm(r: Rule, e: MetricEvent, holds: Oracle, l: nat)
    requires r.customStatement.None? && r.action.None?
    requires r.resourceUri == Some("%") && r.metricUri == Some("%") && r.resourceTypeUri == Some("%")
    requires r.condition.Some? ==> holds(r.condition.value, MetricValue(e))
    ensures Deliveries([l], EngineAlarms([Statement(r.name, BuildQuery(r), r)], MetricValue(e), holds))
      == [Delivery(l, Alarm(r.name, MetricValue(e)))]
  {
    WildcardRuleMatches(r, e, holds);
    SingleAlarm(Statement(r.name, BuildQuery(r), r), MetricValue(e), holds, l);
  }

  /**
   * A rule without an action whose patterns are the literal fields of a metric
   * event makes that event raise one alarm at the registered listener.
   */
  lemma LiteralRuleRaisesAlarm(r: Rule, e: MetricEvent, holds: Oracle, l: nat)
    requires r.customStatement.None? && r.action.None?
    requires r.resourceUri == Some(e.metric.resourceUri) && r.metricUri == Some(e.metric.metricUri)
    requires r.resourceTypeUri == Some(e.resourceType)
    requires IsLiteral(e.metric.resourceUri) && IsLiteral(e.metric.metricUri) && IsLiteral(e.resourceType)
    requires r.condition.Some? ==> holds(r.condition.value, MetricValue(e))
    ensures Deliveries([l], EngineAlarms([Statement(r.name, BuildQuery(r), r)], MetricValue(e), holds))
      == [Delivery(l, Alarm(r.name, MetricValue(e)))]
  {
    LiteralRuleMatches(r, e, holds);
    SingleAlarm(Statement(r.name, BuildQuery(r), r), MetricValue(e), holds, l);
  }

  /** One matching statement without an action, one listener: one delivery. */
  lemma SingleAlarm(st: Statement, ev: Event, holds: Oracle, l: nat)
    requires st.rule.action.None? && RuleMatches(st.rule, ev, holds)
    ensures Deliveries([l], EngineAlarms([st], ev, holds)) == [Delivery(l, Alarm(st.rule.name, ev))]
  {
    assert [st][..0] == [] && [st][..1] == [st];
    EngineStep([st], ev, holds, 0);
    assert Raised(st.rule, [ev])[0] == Alarm(st.rule.name, ev);
    assert Raised(st.rule, [ev]) == [Alarm(st.rule.name, ev)];
    assert EngineAlarms([st], ev, holds) == [] + [Alarm(st.rule.name, ev)];
    DeliveriesSnoc([l], [], Alarm(st.rule.name, ev));
    assert Fan([l], Alarm(st.rule.name, ev))[0] == Delivery(l, Alarm(st.rule.name, ev));
  }

  // ---------------------------------------------------------------------
  // The statement table
  // ---------------------------------------------------------------------

  /** The position of the first statement registered under `name`, if any. */
  function FirstNamed(sts: seq<Statement>, name: string): (r: Option<nat>)
    ensures r.Some? ==> r.value < |sts| && sts[r.value].name == name
    ensures r.Some? ==> forall j :: 0 <= j < r.value ==> sts[j].name != name
    ensures r.None? <==> forall j :: 0 <= j < |sts| ==> sts[j].name != name
  {
    if sts == [] then None
    else if sts[0].name == name then Some(0)
    else
      match FirstNamed(sts[1..], name)
      case None => None
      case Some(k) => Some(k + 1)
  }

  /** The table after `removeRule(name)`: the statement `getStatement(name)` returns is destroyed. */
  function RemoveNamed(sts: seq<Statement>, name: string): (r: Result<seq<Statement>, RuleError>)
    ensures r.Err? <==> forall j :: 0 <= j < |sts| ==> sts[j].name != name
    ensures r.Err? ==> r.error == NoSuchRule(name)
    ensures r.Ok? ==> |r.value| == |sts| - 1
    ensures r.Ok? ==> exists i ::
      && 0 <= i < |sts| && sts[i].name == name
      && (forall j :: 0 <= j < i ==> sts[j].name != name)
      && r.value == sts[..i] + sts[i + 1..]
  {
    match FirstNamed(sts, name)
    case None => Err(NoSuchRule(name))
    case Some(i) => Ok(sts[..i] + sts[i + 1..])
  }

  /** Adding a statement under a fresh name and removing that name restores the table. */
  lemma AddThenRemoveRule(sts: seq<Statement>, st: Statement)
    requires forall j :: 0 <= j < |sts| ==> sts[j].name != st.name
    ensures RemoveNamed(sts + [st], st.name) == Ok(sts)
  {
    var all := sts + [st];
    assert all[|sts|].name == st.name;
    var k := FirstNamed(all, st.name);
    assert k == Some(|sts|);
    assert all[..|sts|] + all[|sts| + 1..] == sts;
  }

  /**
   * In a table of compiled statements, `removeRule(name)` destroys the
   * statement that was compiled from the first rule named `name`: its query is
   * the one `addRule` built for that rule, and the rest keep their order.
   */
  lemma RemoveDestroysCompiledRule(sts: seq<Statement>, name: string)
    requires forall k :: 0 <= k < |sts| ==> Compiled(sts[k])
    requires RemoveNamed(sts, name).Ok?
    ensures exists i ::
      && 0 <= i < |sts| && sts[i].rule.name == name && sts[i].epl == BuildQuery(sts[i].rule)
      && (forall j :: 0 <= j < i ==> sts[j].rule.name != name)
      && RemoveNamed(sts, name).value == sts[..i] + sts[i + 1..]
  {
    var i := FirstNamed(sts, name).value;
    assert Compiled(sts[i]);
    assert forall j :: 0 <= j < i ==> Compiled(sts[j]) && sts[j].name != name;
  }

  /**
   * Removal leaves every statement registered under another name, in order:
   * the statements not named `name` before and after agree.
   */
  lemma RemoveKeepsOtherNames(sts: seq<Statement>, name: string, st: Statement)
    requires RemoveNamed(sts, name).Ok?
    requires st.name != name
    ensures st in RemoveNamed(sts, name).value <==> st in sts
  {
    var i := FirstNamed(sts, name).value;
    assert sts == sts[..i] + [sts[i]] + sts[i + 1..];
  }

  // ---------------------------------------------------------------------
  // The processor
  // ---------------------------------------------------------------------

  class EsperRuleProcessor {
    /** The engine's verdict on conditions and custom statements. */
    const holds: Oracle
    /** The statements registered with the engine, oldest first. */
    var statements: seq<Statement>
    /** The registered alarm listeners, in registration order. */
    var alarmListeners: seq<nat>
    /** Every event handed to the engine's runtime. */
    var sentEvents: seq<Event>
    /** Every action handed to the action executor. */
    var submitted: seq<Action>
    /** Every `handleAlarm` call made on an alarm listener. */
    var delivered: seq<Delivery>

    /** Every statement was compiled from its rule; no listener is registered twice. */
    predicate Valid()
      reads this
    {
      && (forall i :: 0 <= i < |statements| ==> Compiled(statements[i]))
      && NoDup(alarmListeners)
    }

    constructor (holds: Oracle)
      ensures Valid()
      ensures this.holds == holds
      ensures statements == [] && alarmListeners == []
      ensures sentEvents == [] && submitted == [] && delivered == []
    {
      this.holds := holds;
      statements := [];
      alarmListeners := [];
      sentEvents := [];
      submitted := [];
      delivered := [];
    }

    /** `addRule`: compile the rule and register the statement under the rule's name. */
    method AddRule(r: Rule)
      requires Valid()
      modifies this`statements
      ensures Valid()
      ensures statements == old(statements) + [Statement(r.name, BuildQuery(r), r)]
    {
      statements := statements + [Statement(r.name, BuildQuery(r), r)];
    }

    /** `removeRule`: destroy the statement registered under `name`. */
    method RemoveRule(name: string) returns (outcome: Result<(), RuleError>)
      requires Valid()
      modifies this`statements
      ensures Valid()
      ensures RemoveNamed(old(statements), name).Err? ==>
        outcome == Err(NoSuchRule(name)) && statements == old(statements)
      ensures RemoveNamed(old(statements), name).Ok? ==>
        outcome == Ok(()) && statements == RemoveNamed(old(statements), name).value
    {
      var i := FirstNamed(statements, name);
      if i.None? {
        outcome := Err(NoSuchRule(name));
      } else {
        var k := i.value;
        ghost var before := statements;
        statements := statements[..k] + statements[k + 1..];
        assert forall j :: 0 <= j < |statements| ==>
          statements[j] == (if j < k then before[j] else before[j + 1]);
        outcome := Ok(());
      }
    }

    /** `clearRules`: destroy every statement. */
    method ClearRules()
      requires Valid()
      modifies this`statements
      ensures Valid()
      ensures statements == []
    {
      statements := [];
    }

    /** `addAlarmListener`: register `l` unless it is registered already. */
    method AddAlarmListener(l: nat)
      requires Valid()
      modifies this`alarmListeners
      ensures Valid()
      ensures alarmListeners == if l in old(alarmListeners) then old(alarmListeners) else old(alarmListeners) + [l]
    {
      if l !in alarmListeners {
        assert forall i :: 0 <= i < |alarmListeners| ==> (alarmListeners + [l])[i] == alarmListeners[i];
        alarmListeners := alarmListeners + [l];
      }
    }

    /** `removeAlarmListener`: unregister `l`. */
    method RemoveAlarmListener(l: nat)
      requires Valid()
      modifies this`alarmListeners
      ensures Valid()
      ensures alarmListeners == Without(old(alarmListeners), l)
      ensures l !in alarmListeners
    {
      WithoutKeepsNoDup(alarmListeners, l);
      alarmListeners := Without(alarmListeners, l);
    }

    /** `fireAlarm`: hand `a` to every registered listener, in registration order. */
    method FireAlarm(a: Alarm)
      modifies this`delivered
      ensures delivered == old(delivered) + Fan(alarmListeners, a)
    {
      var i := 0;
      while i < |alarmListeners|
        invariant 0 <= i <= |alarmListeners|
        invariant delivered == old(delivered) + Fan(alarmListeners[..i], a)
      {
        assert alarmListeners[..i + 1][..i] == alarmListeners[..i];
        delivered := delivered + [Delivery(alarmListeners[i], a)];
        i := i + 1;
      }
      assert alarmListeners[..i] == alarmListeners;
    }

    /** The update listener's handling of one matched event: submit the action, or fire an alarm. */
    method HandleMatch(r: Rule, ev: Event)
      modifies this`submitted, this`delivered
      ensures submitted == old(submitted) + Submissions(r, [ev])
      ensures delivered == old(delivered) + Deliveries(alarmListeners, Raised(r, [ev]))
    {
      assert [ev][..0] == [];
      if r.action.Some? {
        submitted := submitted + [r.action.value];
      } else {
        FireAlarm(Alarm(r.name, ev));
        DeliveriesSnoc(alarmListeners, [], Alarm(r.name, ev));
      }
    }

    /**
     * The update listener of the statement for rule `r`, called with a batch of
     * matched events: per event, the rule's action is submitted when it has one,
     * and an alarm is fired otherwise.
     */
    method OnUpdate(r: Rule, batch: seq<Event>)
      modifies this`submitted, this`delivered
      ensures submitted == old(submitted) + Submissions(r, batch)
      ensures delivered == old(delivered) + Deliveries(alarmListeners, Raised(r, batch))
    {
      var i := 0;
      while i < |batch|
        invariant 0 <= i <= |batch|
        invariant submitted == old(submitted) + Submissions(r, batch[..i])
        invariant delivered == old(delivered) + Deliveries(alarmListeners, Raised(r, batch[..i]))
      {
        DispatchStep(r, batch, i);
        ghost var prevSubmitted, prevDelivered := submitted, delivered;
        HandleMatch(r, batch[i]);
        AppendAssoc(old(submitted), Submissions(r, batch[..i]), Submissions(r, [batch[i]]));
        LogExtends(old(delivered), prevDelivered, delivered, alarmListeners, Raised(r, batch[..i]), Raised(r, [batch[i]]));
        i := i + 1;
      }
      assert batch[..i] == batch;
    }

    /**
     * The engine's handling of `ev` for one statement: the statement's update
     * listener is called with `ev` when the statement matches it.
     */
    method Evaluate(st: Statement, ev: Event)
      modifies this`submitted, this`delivered
      ensures submitted == old(submitted) + (if RuleMatches(st.rule, ev, holds) then Submissions(st.rule, [ev]) else [])
      ensures delivered == old(delivered)
        + Deliveries(alarmListeners, if RuleMatches(st.rule, ev, holds) then Raised(st.rule, [ev]) else [])
    {
      if RuleMatches(st.rule, ev, holds) {
        OnUpdate(st.rule, [ev]);
      } else {
        assert submitted == old(submitted) + [];
        assert delivered == old(delivered) + Deliveries(alarmListeners, []);
      }
    }

    /**
     * Hand `ev` to the runtime once; the engine then calls the update listener
     * of every statement that matches it, in registration order, with `ev`.
     */
    method ProcessEvent(ev: Event)
      modifies this`sentEvents, this`submitted, this`delivered
      ensures sentEvents == old(sentEvents) + [ev]
      ensures submitted == old(submitted) + EngineActions(statements, ev, holds)
      ensures delivered == old(delivered) + Deliveries(alarmListeners, EngineAlarms(statements, ev, holds))
    {
      sentEvents := sentEvents + [ev];
      var i := 0;
      while i < |statements|
        invariant 0 <= i <= |statements|
        invariant sentEvents == old(sentEvents) + [ev]
        invariant submitted == old(submitted) + EngineActions(statements[..i], ev, holds)
        invariant delivered == old(delivered) + Deliveries(alarmListeners, EngineAlarms(statements[..i], ev, holds))
      {
        EngineStep(statements, ev, holds, i);
        var st := statements[i];
        ghost var prevDelivered := delivered;
        ghost var matched := RuleMatches(st.rule, ev, holds);
        Evaluate(st, ev);
        AppendAssoc(old(submitted), EngineActions(statements[..i], ev, holds),
          if matched then Submissions(st.rule, [ev]) else []);
        LogExtends(old(delivered), prevDelivered, delivered, alarmListeners,
          EngineAlarms(statements[..i], ev, holds), if matched then Raised(st.rule, [ev]) else []);
        i := i + 1;
      }
      assert statements[..i] == statements;
    }

    /** `processMetricEvent`: forward a metric-value event. */
    method ProcessMetricEvent(e: MetricEvent)
      modifies this`sentEvents, this`submitted, this`delivered
      ensures sentEvents == old(sentEvents) + [MetricValue(e)]
      ensures submitted == old(submitted) + EngineActions(statements, MetricValue(e), holds)
      ensures delivered == old(delivered) + Deliveries(alarmListeners, EngineAlarms(statements, MetricValue(e), holds))
    {
      ProcessEvent(MetricValue(e));
    }

    /** `processMeasurementEvent`: forward a measurement event. */
    method ProcessMeasurementEvent(m: MeasurementEvent)
      modifies this`sentEvents, this`submitted, this`delivered
      ensures sentEvents == old(sentEvents) + [Measurement(m)]
      ensures submitted == old(submitted) + EngineActions(statements, Measurement(m), holds)
      ensures delivered == old(delivered) + Deliveries(alarmListeners, EngineAlarms(statements, Measurement(m), holds))
    {
      ProcessEvent(Measurement(m));
    }
  }

  /**
   * The listener scenario: a listener added to a processor with no listeners
   * receives the first alarm once, and after its removal receives nothing more.
   */
  method AlarmListenerRoundTrip(p: EsperRuleProcessor, l: nat, a: Alarm)
    requires p.Valid() && p.alarmListeners == []
    modifies p`alarmListeners, p`delivered
    ensures p.delivered == old(p.delivered) + [Delivery(l, a)]
    ensures p.alarmListeners == []
  {
    p.AddAlarmListener(l);
    p.FireAlarm(a);
    assert Fan([l], a) == [Delivery(l, a)];
    p.RemoveAlarmListener(l);
    p.FireAlarm(a);
  }
}
