// The controller as it runs: objects with mutable state, loops and retries. Each method is proved to do
// what the functions of Evaluation, Passes and Reconciler say.
module Controller {
  import opened Common
  import opened NodeModel
  import opened TaintStore
  import opened RuleModel
  import opened Evaluation
  import opened Passes
  import opened Helpers
  import opened Reconciler
  import NodePass

  const MAX_ATTEMPTS := 5

  datatype Reply = Patched(node: Node) | Conflict | Refused

  /**
   * The API server. Any call may fail, and a heartbeat may bump a node's version at any time; the disturbances count how
   * often either happened. An undisturbed call does what it is asked to.
   */
  class ApiServer {
    var nodes: map<string, Node>
    var versions: map<string, nat>
    var rules: map<string, Rule>
    ghost var disturbances: nat

    ghost predicate Valid()
      reads this
    {
      && WellKeyed(nodes)
      && versions.Keys == nodes.Keys
      && forall n :: n in rules ==> rules[n].name == n && Accepted(rules[n].status)
    }

    constructor (nodes: map<string, Node>, rules: map<string, Rule>)
      requires WellKeyed(nodes) && forall n :: n in rules ==> rules[n].name == n && Accepted(rules[n].status)
      ensures Valid() && this.nodes == nodes && this.rules == rules
    {
      this.nodes, this.rules := nodes, rules;
      this.versions := map n | n in nodes :: 1;
      this.disturbances := 0;
    }

    method GetNode(name: string) returns (node: Option<Node>, version: nat)
      requires Valid()
      modifies this`disturbances
      ensures Valid() && disturbances >= old(disturbances)
      ensures node.Some? ==> name in nodes && node.value == nodes[name] && version == versions[name]
      ensures disturbances == old(disturbances) && name in nodes ==> node.Some?
    {
      if name !in nodes {
        return None, 0;
      }
      if * {
        disturbances := disturbances + 1;
        return None, 0;
      }
      return Some(nodes[name]), versions[name];
    }

    method Heartbeat(name: string)
      requires Valid() && name in nodes
      modifies this`versions, this`disturbances
      ensures Valid() && disturbances > old(disturbances)
    {
      versions, disturbances := versions[name := versions[name] + 1], disturbances + 1;
    }

    /** The patch from base to updated, guarded by the version when one is given. */
    method PatchNode(base: Node, updated: Node, lock: Option<nat>) returns (reply: Reply)
      requires Valid() && updated == base.(taints := updated.taints, annotations := updated.annotations)
      modifies this`nodes, this`versions, this`disturbances
      ensures Valid() && disturbances >= old(disturbances)
      ensures var current := base.name in old(nodes) && (lock.Some? ==> lock.value == old(versions)[base.name]);
        disturbances == old(disturbances) && current ==> reply.Patched?
      ensures reply.Patched? ==>
        && base.name in old(nodes)
        && reply.node == Merge(old(nodes)[base.name], MergeFrom(base, updated, lock))
        && nodes == old(nodes)[base.name := reply.node]
        && (old(nodes)[base.name] == base ==> reply.node == updated)
      ensures !reply.Patched? ==> nodes == old(nodes)
    {
      if base.name !in nodes {
        return Refused;
      }
      if * {
        Heartbeat(base.name);
      }
      if lock.Some? && lock.value != versions[base.name] {
        return Conflict;
      }
      if * {
        disturbances := disturbances + 1;
        return Refused;
      }
      MergeRoundTrip(base, updated, lock);
      var merged := Merge(nodes[base.name], MergeFrom(base, updated, lock));
      nodes := nodes[base.name := merged];
      versions := versions[base.name := versions[base.name] + 1];
      return Patched(merged);
    }

    /** All nodes, in some order. */
    method ListNodes() returns (list: seq<Node>, ok: bool)
      requires Valid()
      modifies this`disturbances
      ensures Valid() && disturbances >= old(disturbances)
      ensures ok ==> Snapshot(list, nodes)
      ensures disturbances == old(disturbances) ==> ok
    {
      list := [];
      if * {
        disturbances := disturbances + 1;
        return list, false;
      }
      var todo := nodes.Keys;
      while todo != {}
        invariant todo <= nodes.Keys
        invariant Listed(list, nodes)
        invariant forall n :: n in nodes ==> (InList(list, n) <==> n !in todo)
      {
        var n :| n in todo;
        assert (list + [nodes[n]])[..|list|] == list;
        list := list + [nodes[n]];
        todo := todo - {n};
      }
      ok := true;
    }

    method GetRule(name: string) returns (rule: Option<Rule>, found: bool)
      requires Valid()
      modifies this`disturbances
      ensures Valid() && disturbances >= old(disturbances)
      ensures rule.Some? ==> name in rules && rule.value == rules[name]
      ensures !found ==> name !in rules && rule.None?
      ensures disturbances == old(disturbances) ==> found == (name in rules) && (name in rules ==> rule.Some?)
    {
      if * {
        disturbances := disturbances + 1;
        return None, true;
      }
      if name !in rules {
        return None, false;
      }
      return Some(rules[name]), true;
    }

    method PatchFinalizer(name: string, present: bool) returns (ok: bool)
      requires Valid()
      modifies this`rules, this`disturbances
      ensures Valid() && disturbances >= old(disturbances)
      ensures disturbances == old(disturbances) && name in old(rules) ==> ok
      ensures ok ==> name in old(rules) && rules == old(rules)[name := old(rules)[name].(finalizer := present)]
      ensures !ok ==> rules == old(rules)
    {
      if name !in rules {
        return false;
      }
      if * {
        disturbances := disturbances + 1;
        return false;
      }
      rules := rules[name := rules[name].(finalizer := present)];
      return true;
    }

    /** The status subresource; a status the schema does not accept is refused. */
    method PatchStatus(name: string, status: RuleStatus) returns (ok: bool)
      requires Valid()
      modifies this`rules, this`disturbances
      ensures Valid() && disturbances >= old(disturbances)
      ensures disturbances == old(disturbances) && name in old(rules) && Accepted(status) ==> ok
      ensures ok ==> name in old(rules) && Accepted(status)
      ensures ok ==> rules == old(rules)[name := old(rules)[name].(status := status)]
      ensures !ok ==> rules == old(rules)
    {
      if name !in rules || !Accepted(status) {
        return false;
      }
      if * {
        disturbances := disturbances + 1;
        return false;
      }
      rules := rules[name := rules[name].(status := status)];
      return true;
    }
  }

  /** The shared controller: the rule cache, the start times and the counters. */
  class RuleReadinessController {
    const api: ApiServer
    var ruleCache: map<string, Rule>
    var bootstrapStartTimes: map<string, nat>
    var metrics: Metrics

    constructor (api: ApiServer)
      ensures this.api == api && ruleCache == map[] && bootstrapStartTimes == map[]
    {
      this.api := api;
      this.ruleCache, this.bootstrapStartTimes := map[], map[];
      this.metrics := Metrics(map[], map[], map[], []);
    }

    /** The whole state, as one value. */
    ghost function View(): World
      reads this, api
    {
      World(api.nodes, api.rules, ruleCache, bootstrapStartTimes, metrics)
    }

    method Now() returns (now: nat) {
      now :| true;
    }

    // ------------------------------------------------------- taints of a node

    method AddTaintBySpec(node: Node, taint: Taint, ruleName: string, now: nat) returns (refreshed: Node, ok: bool)
      requires api.Valid()
      modifies this`bootstrapStartTimes, api`nodes, api`versions, api`disturbances
      ensures api.Valid() && api.disturbances >= old(api.disturbances)
      ensures api.disturbances == old(api.disturbances) && node.name in old(api.nodes) ==> ok
      ensures ok ==>
        && node.name in old(api.nodes)
        && (View(), refreshed) == AddStep(old(View()), node, taint, ruleName, now)
      ensures !ok ==> View() == old(View()) && refreshed == node
    {
      hide HasTaint, Merge, MergeFrom;
      refreshed, ok := node, false;
      for attempt := 0 to MAX_ATTEMPTS
        invariant api.Valid() && View() == old(View())
        invariant refreshed == node && !ok
        invariant api.disturbances >= old(api.disturbances) + attempt
      {
        var fetched, version := api.GetNode(node.name);
        if fetched.None? {
          return;
        }
        var latest := fetched.value;
        var present := HasTaintBySpec(latest.taints, taint);
        if present {
          ok := true;
          return;
        }
        var updated := latest.(taints := latest.taints + [taint]);
        var reply := api.PatchNode(latest, updated, Some(version));
        match reply {
          case Patched(stored) =>
            var key := BootstrapStartKey(ruleName, stored.name);
            if key !in bootstrapStartTimes {
              bootstrapStartTimes := bootstrapStartTimes[key := now];
            }
            refreshed, ok := stored, true;
            return;
          case Refused =>
            return;
          case Conflict =>
        }
      }
    }

    method RemoveTaintBySpec(node: Node, taint: Taint) returns (refreshed: Node, ok: bool)
      requires api.Valid()
      modifies api`nodes, api`versions, api`disturbances
      ensures api.Valid() && api.disturbances >= old(api.disturbances)
      ensures api.disturbances == old(api.disturbances) && node.name in old(api.nodes) ==> ok
      ensures ok ==> node.name in old(api.nodes) && (View(), refreshed) == RemoveStep(old(View()), node, taint)
      ensures !ok ==> View() == old(View()) && refreshed == node
    {
      hide RemoveTaint, HasTaint, Merge, MergeFrom;
      refreshed, ok := node, false;
      for attempt := 0 to MAX_ATTEMPTS
        invariant api.Valid() && View() == old(View())
        invariant refreshed == node && !ok
        invariant api.disturbances >= old(api.disturbances) + attempt
      {
        var fetched, version := api.GetNode(node.name);
        if fetched.None? {
          return;
        }
        var latest := fetched.value;
        var present := HasTaintBySpec(latest.taints, taint);
        if !present {
          ok := true;
          return;
        }
        var kept := WithoutTaint(latest.taints, taint);
        var updated := latest.(taints := kept);
        var reply := api.PatchNode(latest, updated, Some(version));
        match reply {
          case Patched(stored) =>
            refreshed, ok := stored, true;
            return;
          case Refused =>
            return;
          case Conflict =>
        }
      }
    }

    // ---------------------------------------------------- bootstrap completion

    method IsBootstrapCompleted(nodeName: string, ruleName: string) returns (completed: bool, ghost readFails: bool)
      requires api.Valid()
      modifies api`disturbances
      ensures api.Valid() && api.disturbances >= old(api.disturbances)
      ensures api.disturbances == old(api.disturbances) ==> !readFails
      ensures completed <==> !readFails && nodeName in api.nodes && Completed(api.nodes[nodeName], ruleName)
    {
      var node, _ := api.GetNode(nodeName);
      if node.None? {
        return false, nodeName in api.nodes;
      }
      return CompletedKey(ruleName) in node.value.annotations, false;
    }

    /** The start is taken off the record, its duration observed if there was one, and the completion counted. */
    method RecordCompletion(key: string, ruleName: string, now: nat)
      modifies this`bootstrapStartTimes, this`metrics
      ensures bootstrapStartTimes == old(bootstrapStartTimes) - {key}
      ensures metrics == old(metrics).(
        completed := Bump(old(metrics).completed, ruleName),
        durations := old(metrics).durations
          + if key in old(bootstrapStartTimes) then [Observation(ruleName, now - old(bootstrapStartTimes)[key])] else [])
    {
      if key in bootstrapStartTimes {
        metrics := metrics.(durations := metrics.durations + [Observation(ruleName, now - bootstrapStartTimes[key])]);
      }
      bootstrapStartTimes := bootstrapStartTimes - {key};
      metrics := metrics.(completed := Bump(metrics.completed, ruleName));
    }

    method MarkBootstrapCompleted(nodeName: string, ruleName: string, now: nat) returns (ghost fails: bool)
      requires api.Valid()
      modifies this`bootstrapStartTimes, this`metrics, api`nodes, api`versions, api`disturbances
      ensures api.Valid() && api.disturbances >= old(api.disturbances)
      ensures api.disturbances == old(api.disturbances) ==> !fails
      ensures View() == MarkStep(old(View()), nodeName, ruleName, Env(now, false, false, fails, false))
    {
      hide Merge, MergeFrom, BootstrapStartKey, Bump;
      fails := true;
      var patched := false;
      var key := BootstrapStartKey(ruleName, nodeName);
      for attempt := 0 to MAX_ATTEMPTS
        invariant api.Valid() && View() == old(View()) && fails && !patched
        invariant api.disturbances >= old(api.disturbances) + attempt
      {
        var fetched, _ := api.GetNode(nodeName);
        if fetched.None? {
          fails := nodeName in api.nodes;
          return;
        }
        var node := fetched.value;
        if CompletedKey(ruleName) in node.annotations {
          bootstrapStartTimes := bootstrapStartTimes - {key};
          fails := false;
          return;
        }
        var updated := node.(annotations := node.annotations[CompletedKey(ruleName) := "true"]);
        var reply := api.PatchNode(node, updated, None);
        match reply {
          case Patched(stored) =>
            RecordCompletion(key, ruleName, now);
            fails := false;
            return;
          case Refused =>
            return;
          case Conflict =>
        }
      }
    }

    // ---------------------------------------------------------- one evaluation

    /** The condition loop: the results, and whether every one is met. */
    method CheckConditions(spec: RuleSpec, node: Node) returns (results: seq<ConditionResult>, met: bool)
      ensures results == ResultsOf(spec.conditions, node.conditions)
      ensures met <==> Met(spec, node)
    {
      results, met := [], true;
      for i := 0 to |spec.conditions|
        invariant |results| == i
        invariant forall j :: 0 <= j < i ==> results[j] == ResultsOf(spec.conditions, node.conditions)[j]
        invariant met <==> forall j :: 0 <= j < i ==>
                    StatusOf(node.conditions, spec.conditions[j].ctype) == spec.conditions[j].required
      {
        var req := spec.conditions[i];
        var current := GetConditionStatus(node.conditions, req.ctype);
        if current != req.required {
          met := false;
        }
        results := results + [ConditionResult(req.ctype, current, req.required)];
      }
    }

    /** The taint action: remove, add, or at most note the start. */
    method ActOnTaint(rule: Rule, node: Node, met: bool, has: bool, now: nat)
      returns (refreshed: Node, ok: bool, ghost fails: bool)
      requires api.Valid() && met == Met(rule.spec, node) && has == HasTaint(node.taints, rule.spec.taint)
      modifies this`bootstrapStartTimes, this`metrics, api`nodes, api`versions, api`disturbances
      ensures api.Valid() && api.disturbances >= old(api.disturbances)
      ensures !ok ==> View() == old(View()) && refreshed == node && met == has
      ensures ok && met == has ==> node.name in old(api.nodes)
      ensures ok ==> (View(), refreshed) == Act(old(View()), rule, node, Env(now, false, false, fails, false))
      ensures api.disturbances == old(api.disturbances) ==> !fails && (node.name in old(api.nodes) ==> ok)
    {
      hide Met, HasTaint, BootstrapStartKey, Bump, AddStep, RemoveStep, MarkStep;
      refreshed, ok, fails := node, true, false;
      var spec := rule.spec;
      if met && has {
        refreshed, ok := RemoveTaintBySpec(node, spec.taint);
        if !ok {
          return;
        }
        metrics := metrics.(removes := Bump(metrics.removes, rule.name));
        if spec.mode == BootstrapOnly {
          fails := MarkBootstrapCompleted(node.name, rule.name, now);
        } else {
          bootstrapStartTimes := bootstrapStartTimes - {BootstrapStartKey(rule.name, node.name)};
        }
      } else if !met && !has {
        refreshed, ok := AddTaintBySpec(node, spec.taint, rule.name, now);
        if !ok {
          return;
        }
        metrics := metrics.(adds := Bump(metrics.adds, rule.name));
      } else if !met && has {
        var first := FindEvaluation(rule.status.evaluations, node.name);
        if first == |rule.status.evaluations| && spec.mode == BootstrapOnly {
          assert !Evaluated(rule.status.evaluations, node.name);
          var key := BootstrapStartKey(rule.name, node.name);
          if key !in bootstrapStartTimes {
            bootstrapStartTimes := bootstrapStartTimes[key := now];
          }
        }
      }
    }

    method EvaluateRuleForNode(rule: Rule, node: Node) returns (evaluated: Rule, refreshed: Node, ok: bool, ghost env: Env)
      requires api.Valid()
      modifies this`bootstrapStartTimes, this`metrics, api`nodes, api`versions, api`disturbances
      ensures api.Valid() && api.disturbances >= old(api.disturbances)
      ensures Outcome(View(), refreshed, evaluated, !ok) == Evaluate(old(View()), rule, node, env)
      ensures !env.readFails && !env.persistFails
      ensures api.disturbances == old(api.disturbances) ==> !env.taintFails && !env.markFails
    {
      hide Act, Met, HasTaint, ResultsOf, WithEvaluation;
      evaluated := rule;
      var spec := rule.spec;
      var results, met := CheckConditions(spec, node);
      var has := HasTaintBySpec(node.taints, spec.taint);
      var now := Now();
      ghost var fails;
      refreshed, ok, fails := ActOnTaint(rule, node, met, has, now);
      env := Env(now, false, !ok && node.name in api.nodes, fails, false);
      if !ok {
        return;
      }
      var present := HasTaintBySpec(refreshed.taints, spec.taint);
      var evaluations := UpdateNodeEvaluationStatus(rule.status.evaluations, refreshed.name, results,
                                                    if present then Present else Absent);
      evaluated := rule.(status := rule.status.(evaluations := evaluations));
    }

    /** Evaluate, and record a failure in the rule's status. */
    method EvaluateOrRecord(rule: Rule, node: Node) returns (evaluated: Rule, refreshed: Node, ok: bool, ghost env: Env)
      requires api.Valid()
      modifies this`bootstrapStartTimes, this`metrics, api`nodes, api`versions, api`disturbances
      ensures api.Valid() && !env.readFails && !env.persistFails && api.disturbances >= old(api.disturbances)
      ensures api.disturbances == old(api.disturbances) ==> !env.taintFails && !env.markFails
      ensures Outcome(View(), refreshed, evaluated, !ok) == Process(old(View()), rule, node, env)
    {
      evaluated, refreshed, ok, env := EvaluateRuleForNode(rule, node);
      if !ok {
        var _, met := CheckConditions(rule.spec, node);
        var failures := RecordNodeFailure(rule.status.failedNodes, node.name, EVALUATION_ERROR,
                                          if met then "failed to remove taint" else "failed to add taint");
        evaluated := rule.(status := rule.status.(failedNodes := failures));
      }
    }

    // ----------------------------------------------------- passes over all nodes

    method ProcessAllNodesForRule(rule: Rule)
      returns (processed: Rule, ok: bool, ghost list: seq<Node>, ghost envs: map<string, Env>)
      requires api.Valid()
      modifies this`bootstrapStartTimes, this`metrics, api`nodes, api`versions, api`disturbances
      ensures api.Valid() && api.disturbances >= old(api.disturbances)
      ensures api.disturbances == old(api.disturbances) ==> ok && NothingFails(envs)
      ensures !ok ==> View() == old(View()) && processed == rule
      ensures ok ==>
        && Snapshot(list, old(api.nodes))
        && var p := LivePass(old(View()), rule, list, envs);
           View() == p.world && processed == Finished(p)
    {
      hide Process, AppliesTo, NothingFails;
      processed, envs := rule, map[];
      NoneAskedNoneFails();
      var nodeList;
      nodeList, ok := api.ListNodes();
      list := nodeList;
      if !ok {
        return;
      }
      var appliedNodes: seq<string> := [];
      for i := 0 to |nodeList|
        invariant api.Valid() && api.disturbances >= old(api.disturbances)
        invariant api.disturbances == old(api.disturbances) ==> NothingFails(envs)
        invariant Pass(View(), processed, appliedNodes) == LivePass(old(View()), rule, list[..i], envs)
      {
        var node := nodeList[i];
        assert list[..i + 1][..i] == list[..i];
        if AppliesTo(rule, node) {
          appliedNodes := appliedNodes + [node.name];
          ghost var env;
          var refreshed, done;
          ListedPrefix(list, old(api.nodes), i);
          LivePassIgnoresOthers(old(View()), rule, list[..i], envs, node.name, CALM);
          processed, refreshed, done, env := EvaluateOrRecord(processed, node);
          LivePassIgnoresOthers(old(View()), rule, list[..i], envs, node.name, env);
          OneMoreDoesNotFail(envs, node.name, env);
          envs := envs[node.name := env];
        }
      }
      assert list[..|list|] == list;
      processed := processed.(status := processed.status.(observedGeneration := processed.generation,
                                                          appliedNodes := appliedNodes));
      if !rule.spec.dryRun {
        processed := processed.(status := processed.status.(dryRun := NoResults));
      }
    }

    method ProcessDryRun(rule: Rule) returns (processed: Rule, ok: bool, ghost list: seq<Node>)
      requires api.Valid()
      modifies api`disturbances
      ensures api.Valid() && api.disturbances >= old(api.disturbances)
      ensures api.disturbances == old(api.disturbances) ==> ok
      ensures !ok ==> processed == rule
      ensures ok ==> Snapshot(list, api.nodes) && processed == DryRunStatus(rule, list)
    {
      hide Int32, AppliesTo, Met, HasTaint, MissingConditions;
      processed := rule;
      var nodeList;
      nodeList, ok := api.ListNodes();
      list := nodeList;
      if !ok {
        return;
      }
      Int32Small(0);
      var affectedNodes, taintsToAdd, taintsToRemove, riskyOps := 0, 0, 0, 0;
      ghost var after := api.disturbances;
      for i := 0 to |nodeList|
        invariant api.Valid() && api.disturbances == after
        invariant var t := DryTally(rule, list[..i]);
          affectedNodes == Int32(t.affected) && taintsToAdd == Int32(t.adds)
          && taintsToRemove == Int32(t.removes) && riskyOps == Int32(t.risky)
      {
        var node := nodeList[i];
        assert list[..i + 1][..i] == list[..i];
        ghost var t := DryTally(rule, list[..i]);
        Int32Step(t.affected);
        Int32Step(t.adds);
        Int32Step(t.removes);
        Int32Step(t.risky);
        if AppliesTo(rule, node) {
          affectedNodes := Int32(affectedNodes + 1);
          var met, missing := SimulateConditions(rule.spec, node);
          var has := HasTaintBySpec(node.taints, rule.spec.taint);
          if met && has {
            taintsToRemove := Int32(taintsToRemove + 1);
          } else if !met && !has {
            taintsToAdd := Int32(taintsToAdd + 1);
          }
          if missing > 0 {
            riskyOps := Int32(riskyOps + 1);
          }
        }
      }
      assert list[..|list|] == list;
      processed := rule.(status := rule.status.(
        observedGeneration := rule.generation,
        dryRun := Results(affectedNodes, taintsToAdd, taintsToRemove, riskyOps)));
    }

    /** The dry pass's own condition loop. */
    method SimulateConditions(spec: RuleSpec, node: Node) returns (met: bool, missing: nat)
      ensures met <==> Met(spec, node)
      ensures missing > 0 <==> MissingConditions(spec, node)
    {
      met, missing := true, 0;
      for i := 0 to |spec.conditions|
        invariant met <==> forall j :: 0 <= j < i ==>
                    StatusOf(node.conditions, spec.conditions[j].ctype) == spec.conditions[j].required
        invariant missing > 0 <==> exists j :: 0 <= j < i && StatusOf(node.conditions, spec.conditions[j].ctype) == UNKNOWN
      {
        var current := GetConditionStatus(node.conditions, spec.conditions[i].ctype);
        if current == UNKNOWN {
          missing := missing + 1;
        }
        if current != spec.conditions[i].required {
          met := false;
        }
      }
    }

    method CleanupTaintsForRule(rule: Rule)
      returns (ok: bool, ghost listed: bool, ghost list: seq<Node>, ghost envs: map<string, Env>)
      requires api.Valid()
      modifies this`metrics, api`nodes, api`versions, api`disturbances
      ensures api.Valid() && api.disturbances >= old(api.disturbances)
      ensures api.disturbances == old(api.disturbances) ==> listed && NothingFails(envs)
      ensures !listed ==> !ok && View() == old(View())
      ensures listed ==>
        && Snapshot(list, old(api.nodes))
        && Cleanup(View(), !ok) == CleanupPass(old(View()), rule, list, Selected(rule), envs)
    {
      envs, ok := map[], true;
      var nodeList, answered := api.ListNodes();
      list, listed := nodeList, answered;
      if !answered {
        ok := false;
        return;
      }
      for i := 0 to |nodeList|
        invariant api.Valid() && api.disturbances >= old(api.disturbances)
        invariant api.disturbances == old(api.disturbances) ==> NothingFails(envs)
        invariant Cleanup(View(), !ok) == CleanupPass(old(View()), rule, list[..i], Selected(rule), envs)
      {
        var node := nodeList[i];
        assert list[..i + 1][..i] == list[..i];
        ListedPrefix(list, old(api.nodes), i);
        if AppliesTo(rule, node) {
          var removed;
          ghost var env;
          removed, env := CleanOneNode(rule, node);
          CleanupIgnoresOthers(old(View()), rule, list[..i], Selected(rule), envs, node.name, env);
          envs := envs[node.name := env];
          ok := ok && removed;
        }
      }
      assert list[..|list|] == list;
    }

    method CleanOneNode(rule: Rule, node: Node) returns (ok: bool, ghost env: Env)
      requires api.Valid()
      modifies this`metrics, api`nodes, api`versions, api`disturbances
      ensures api.Valid() && api.disturbances >= old(api.disturbances)
      ensures !env.readFails && !env.markFails && !env.persistFails
      ensures api.disturbances == old(api.disturbances) ==> !env.taintFails
      ensures forall failed :: Cleanup(View(), failed || !ok) == CleanNode(Cleanup(old(View()), failed), rule, node, env)
    {
      env, ok := CALM, true;
      var has := HasTaintBySpec(node.taints, rule.spec.taint);
      if has {
        var refreshed;
        refreshed, ok := RemoveTaintBySpec(node, rule.spec.taint);
        if ok {
          metrics := metrics.(removes := Bump(metrics.removes, rule.name));
        } else {
          env := CALM.(taintFails := node.name in api.nodes);
        }
      }
    }

    method CleanupNodesAfterSelectorChange(oldRule: Rule, newRule: Rule)
      returns (ok: bool, ghost listed: bool, ghost list: seq<Node>, ghost envs: map<string, Env>)
      requires api.Valid()
      modifies this`metrics, api`nodes, api`versions, api`disturbances
      ensures api.Valid() && api.disturbances >= old(api.disturbances)
      ensures api.disturbances == old(api.disturbances) ==> listed && NothingFails(envs)
      ensures !listed ==> !ok && View() == old(View())
      ensures listed ==> Snapshot(list, old(api.nodes))
      ensures listed && !Parses(oldRule.spec.nodeSelector) ==> !ok && View() == old(View())
      ensures listed && Parses(oldRule.spec.nodeSelector) ==>
        Cleanup(View(), !ok) == CleanupPass(old(View()), newRule, list, NoLongerSelected(oldRule, newRule), envs)
    {
      envs, ok := map[], true;
      var nodeList, answered := api.ListNodes();
      list, listed := nodeList, answered;
      if !answered || !Parses(oldRule.spec.nodeSelector) {
        ok := false;
        return;
      }
      for i := 0 to |nodeList|
        invariant api.Valid() && api.disturbances >= old(api.disturbances)
        invariant api.disturbances == old(api.disturbances) ==> NothingFails(envs)
        invariant Cleanup(View(), !ok)
               == CleanupPass(old(View()), newRule, list[..i], NoLongerSelected(oldRule, newRule), envs)
      {
        var node := nodeList[i];
        assert list[..i + 1][..i] == list[..i];
        ListedPrefix(list, old(api.nodes), i);
        var matchedOld := Matches(oldRule.spec.nodeSelector, node.labels);
        var matchesNew := AppliesTo(newRule, node);
        if matchedOld && !matchesNew {
          var removed;
          ghost var env;
          removed, env := CleanOneNode(newRule, node);
          CleanupIgnoresOthers(old(View()), newRule, list[..i], NoLongerSelected(oldRule, newRule), envs, node.name, env);
          envs := envs[node.name := env];
          ok := ok && removed;
        }
      }
      assert list[..|list|] == list;
    }

    // ------------------------------------------------------------ the rule cache

    method UpdateRuleCache(rule: Rule)
      modifies this`ruleCache
      ensures ruleCache == old(ruleCache)[rule.name := rule]
    {
      ruleCache := ruleCache[rule.name := rule];
    }

    method GetCachedRule(name: string) returns (rule: Option<Rule>)
      ensures rule == if name in ruleCache then Some(ruleCache[name]) else None
    {
      rule := if name in ruleCache then Some(ruleCache[name]) else None;
    }

    method RemoveRuleFromCache(name: string)
      modifies this`ruleCache
      ensures ruleCache == old(ruleCache) - {name}
    {
      ruleCache := ruleCache - {name};
    }

    // ------------------------------------------------------------ node reconcile

    /** The cached rules that select the node, in whatever order the map yields them. */
    method GetApplicableRulesForNode(node: Node) returns (applicable: seq<Rule>)
      requires forall k :: k in ruleCache ==> ruleCache[k].name == k
      ensures NodePass.IsOrder(applicable, ruleCache, node)
    {
      applicable := [];
      var todo := ruleCache.Keys;
      while todo != {}
        invariant todo <= ruleCache.Keys
        invariant Distinct(applicable)
        invariant forall r :: r in applicable <==>
                    r.name in ruleCache && ruleCache[r.name] == r && AppliesTo(r, node) && r.name !in todo
      {
        var name :| name in todo;
        if AppliesTo(ruleCache[name], node) {
          applicable := applicable + [ruleCache[name]];
        }
        todo := todo - {name};
      }
    }

    method PersistNodeStatus(rule: Rule, nodeName: string) returns (ghost fails: bool)
      requires api.Valid()
      modifies api`rules, api`disturbances
      ensures api.Valid() && api.disturbances >= old(api.disturbances)
      ensures api.disturbances == old(api.disturbances) ==> !fails
      ensures View() == NodePass.Persist(old(View()), rule, nodeName, CALM.(persistFails := fails))
    {
      fails := true;
      var latest, found := api.GetRule(rule.name);
      if latest.None? {
        fails := rule.name in api.rules;
        return;
      }
      var merged := MergeStatusForNode(latest.value.status, rule.status, nodeName);
      var ok := api.PatchStatus(rule.name, merged);
      fails := !ok && Accepted(merged);
    }

    /** One rule's turn: the skips, the evaluation, the cache and this node's part of the stored status. */
    method ProcessRule(rule: Rule, node: Node) returns (current: Node, ghost env: Env)
      requires api.Valid()
      modifies this`ruleCache, this`bootstrapStartTimes, this`metrics, api`nodes, api`versions, api`rules, api`disturbances
      ensures api.Valid() && api.disturbances >= old(api.disturbances)
      ensures api.disturbances == old(api.disturbances) ==>
        !env.readFails && !env.taintFails && !env.markFails && !env.persistFails
      ensures NodePass.Progress(View(), current) == NodePass.RuleStep(NodePass.Progress(old(View()), node), rule, env)
    {
      hide Process, Completed, NodePass.Persist;
      current, env := node, CALM;
      if rule.deleting {
        return;
      }
      ghost var readFails;
      var completed;
      completed, readFails := IsBootstrapCompleted(current.name, rule.name);
      env := CALM.(readFails := readFails);
      if completed && rule.spec.mode == BootstrapOnly {
        return;
      }
      if rule.spec.dryRun {
        return;
      }
      ghost var evalEnv, persistFails;
      var evaluated, done;
      evaluated, current, done, evalEnv := EvaluateOrRecord(rule, current);
      ruleCache := ruleCache[rule.name := evaluated];
      ghost var cached := View();
      persistFails := PersistNodeStatus(evaluated, current.name);
      env := evalEnv.(readFails := readFails, persistFails := persistFails);
      ProcessReadsOnlyItsPart(old(View()), rule, node, evalEnv, env);
      PersistReadsOnlyItsPart(cached, evaluated, current.name, CALM.(persistFails := persistFails), env);
    }

    method ProcessNodeAgainstAllRules(node: Node) returns (ghost order: seq<Rule>, ghost envs: map<string, Env>)
      requires api.Valid()
      requires forall k :: k in ruleCache ==> ruleCache[k].name == k
      modifies this`ruleCache, this`bootstrapStartTimes, this`metrics, api`nodes, api`versions, api`rules, api`disturbances
      ensures api.Valid() && api.disturbances >= old(api.disturbances)
      ensures api.disturbances == old(api.disturbances) ==> NothingFails(envs)
      ensures NodePass.IsOrder(order, old(ruleCache), node)
      ensures View() == NodePass.Pass(old(View()), node, order, envs).world
    {
      hide NodePass.RuleStep, NodePass.IsOrder;
      envs := map[];
      var rules := GetApplicableRulesForNode(node);
      order := rules;
      var current := node;
      for i := 0 to |rules|
        invariant api.Valid() && api.disturbances >= old(api.disturbances)
        invariant api.disturbances == old(api.disturbances) ==> NothingFails(envs)
        invariant NodePass.Progress(View(), current) == NodePass.Pass(old(View()), node, order[..i], envs)
      {
        var rule := rules[i];
        assert order[..i + 1][..i] == order[..i];
        NameNotBefore(order, old(ruleCache), node, i);
        ghost var env;
        current, env := ProcessRule(rule, current);
        NodePass.PassIgnoresOthers(old(View()), node, order[..i], envs, rule.name, env);
        envs := envs[rule.name := env];
      }
      assert order[..|order|] == order;
    }

    /** NodeReconciler.Reconcile: fetch the node, then process it. */
    method ReconcileNode(name: string) returns (fetched: bool, ghost order: seq<Rule>, ghost envs: map<string, Env>)
      requires api.Valid()
      requires forall k :: k in ruleCache ==> ruleCache[k].name == k
      modifies this`ruleCache, this`bootstrapStartTimes, this`metrics, api`nodes, api`versions, api`rules, api`disturbances
      ensures api.Valid() && api.disturbances >= old(api.disturbances)
      ensures api.disturbances == old(api.disturbances) ==> fetched == (name in old(api.nodes)) && NothingFails(envs)
      ensures fetched ==> View() == NodePass.Next(old(View()), NodePass.Reconcile(name, order, envs))
      ensures !fetched ==> View() == old(View())
    {
      order, envs := [], map[];
      var node, _ := api.GetNode(name);
      fetched := node.Some?;
      if fetched {
        order, envs := ProcessNodeAgainstAllRules(node.value);
      }
    }

    // ------------------------------------------------------------ rule reconcile

    /** The names of all nodes. */
    method ListNames() returns (existing: set<string>, ok: bool)
      requires api.Valid()
      modifies api`disturbances
      ensures api.Valid() && api.disturbances >= old(api.disturbances)
      ensures api.disturbances == old(api.disturbances) ==> ok
      ensures ok ==> existing == api.nodes.Keys
    {
      hide Snapshot;
      var nodeList;
      nodeList, ok := api.ListNodes();
      existing := {};
      ghost var after := api.disturbances;
      for i := 0 to |nodeList|
        invariant existing == NamesOf(nodeList[..i]) && api.Valid() && api.disturbances == after
      {
        assert nodeList[..i + 1][..i] == nodeList[..i];
        existing := existing + {nodeList[i].name};
      }
      assert nodeList[..|nodeList|] == nodeList;
      if ok {
        SnapshotNames(nodeList, api.nodes);
      }
    }

    method CleanupDeletedNodes(rule: Rule) returns (ok: bool, ghost listFails: bool, ghost patchFails: bool)
      requires api.Valid() && rule.name in api.rules
      modifies api`rules, api`disturbances
      ensures api.Valid() && api.disturbances >= old(api.disturbances)
      ensures api.disturbances == old(api.disturbances) ==> !listFails && !patchFails
      ensures var kept := EvaluationsIn(rule.status.evaluations, old(api.nodes).Keys);
        if listFails then !ok && View() == old(View())
        else if |kept| == |rule.status.evaluations| then ok && View() == old(View())
        else if patchFails then !ok && View() == old(View())
        else ok && View() == Pruned(old(View()), rule.name)
    {
      hide EvaluationsIn, Accepted, Snapshot;
      ok, listFails, patchFails := false, true, false;
      var existing, answered := ListNames();
      if !answered {
        return;
      }
      listFails := false;
      var kept := KeepExisting(rule.status.evaluations, existing);
      if |kept| == |rule.status.evaluations| {
        return true, false, patchFails;
      }
      var latest, found := api.GetRule(rule.name);
      if latest.None? {
        patchFails := true;
        return;
      }
      var freshKept := KeepExisting(latest.value.status.evaluations, existing);
      if |freshKept| == |latest.value.status.evaluations| {
        KeepExistingIsKeyed(latest.value.status.evaluations, existing);
        assert api.rules == api.rules[rule.name := latest.value];
        return true, false, false;
      }
      KeptStatusIsAccepted(latest.value.status, existing);
      ok := api.PatchStatus(rule.name, latest.value.status.(evaluations := freshKept));
      patchFails := !ok;
    }

    method ReconcileDelete(rule: Rule) returns (result: Result, ghost a: Answers)
      requires api.Valid() && rule.name in api.rules && api.rules[rule.name] == rule
      modifies this`ruleCache, this`metrics, api`nodes, api`versions, api`rules, api`disturbances
      ensures api.Valid() && api.disturbances >= old(api.disturbances)
      ensures rule.deleting && api.disturbances == old(api.disturbances) ==> Smooth(old(View()), rule.name, a)
      ensures (View(), result) == DeleteRule(old(View()), rule, a)
      ensures !a.cleanupListFails ==> Snapshot(a.cleanupList, old(api.nodes))
      ensures !a.getFails && a.passListFails
    {
      a := NO_ANSWER;
      UpdateRuleCache(rule);
      var ok;
      ghost var listed, list, envs;
      ok, listed, list, envs := CleanupTaintsForRule(rule);
      a := a.(cleanupListFails := !listed, cleanupList := list, cleanupEnvs := envs);
      if !ok {
        return Error, a;
      }
      RemoveRuleFromCache(rule.name);
      var patched := api.PatchFinalizer(rule.name, false);
      a := a.(finalizerFails := !patched);
      result := if patched then Result.Deleted else Error;
    }

    /** RuleReconciler.Reconcile. */
    method ReconcileRule(name: string) returns (result: Result, ghost a: Answers)
      requires api.Valid()
      modifies this`ruleCache, this`bootstrapStartTimes, this`metrics, api`nodes, api`versions, api`rules, api`disturbances
      ensures api.Valid() && api.disturbances >= old(api.disturbances)
      ensures api.disturbances == old(api.disturbances) ==> Smooth(old(View()), name, a)
      ensures (View(), result) == Reconcile(old(View()), name, a)
      ensures Truthful(old(View()), name, a)
    {
      a := NO_ANSWER;
      var fetched, found := api.GetRule(name);
      if fetched.None? {
        if found {
          return Error, a.(getFails := true);
        }
        RemoveRuleFromCache(name);
        return Gone, a;
      }
      var rule := fetched.value;
      if !rule.deleting && !rule.finalizer {
        var added := api.PatchFinalizer(name, true);
        a := a.(finalizerFails := !added);
        return if added then FinalizerAdded else Error, a;
      }
      if rule.deleting {
        result, a := ReconcileDelete(rule);
        return;
      }
      result, a := ReconcileLive(rule, a);
    }

    /** The rest of it, for a rule that is guarded and not marked deleted. */
    method ReconcileLive(rule: Rule, ghost before: Answers) returns (result: Result, ghost a: Answers)
      requires api.Valid() && rule.name in api.rules && api.rules[rule.name] == rule
      requires before == NO_ANSWER && rule.finalizer && !rule.deleting
      modifies this`ruleCache, this`bootstrapStartTimes, this`metrics, api`nodes, api`versions, api`rules, api`disturbances
      ensures api.Valid() && api.disturbances >= old(api.disturbances)
      ensures api.disturbances == old(api.disturbances) ==> Smooth(old(View()), rule.name, a)
      ensures (View(), result) == Reconcile(old(View()), rule.name, a)
      ensures Truthful(old(View()), rule.name, a)
    {
      hide Prepared, PassOver, Publish, Snapshot, Accepted, NothingFails;
      ghost var w := View();
      var ok;
      ok, a := PrepareRule(rule);
      NothingFailsNoTaintFailures(a.cleanupEnvs);
      if !ok {
        return Error, a;
      }
      ghost var prepared, cleaned := View(), a;
      PreparedKeepsRules(w, rule, a);
      var processed, passed;
      ghost var list, envs;
      processed, passed, list, envs := PassRule(rule);
      a := a.(passListFails := !passed, passList := list, passEnvs := envs);
      PreparedReadsItsPart(w, rule, cleaned, a);
      NothingFailsNoTaintFailures(a.passEnvs);
      if !passed {
        return Error, a;
      }
      ghost var over := a;
      result, a := PublishStatus(processed, a);
      PreparedReadsItsPart(w, rule, over, a);
      PassOverReadsItsPart(prepared, rule, over, a);
    }

    /** The first stage: the nodes an old selector left behind are cleaned, and the rule is cached. */
    method PrepareRule(rule: Rule) returns (ok: bool, ghost a: Answers)
      requires api.Valid()
      modifies this`ruleCache, this`metrics, api`nodes, api`versions, api`disturbances
      ensures api.Valid() && api.disturbances >= old(api.disturbances)
      ensures a == NO_ANSWER.(cleanupListFails := a.cleanupListFails, cleanupList := a.cleanupList, cleanupEnvs := a.cleanupEnvs)
      ensures api.disturbances == old(api.disturbances) ==>
        NothingFails(a.cleanupEnvs) && (NeedsSelectorCleanup(old(View()), rule) ==> !a.cleanupListFails)
      ensures Cleanup(View(), !ok) == Prepared(old(View()), rule, a)
      ensures !a.cleanupListFails ==> Snapshot(a.cleanupList, old(api.nodes))
    {
      hide CleanupPass, SelectorChanged, Snapshot, Parses, WellKeyed;
      a := NO_ANSWER;
      ghost var w := View();
      var cached := GetCachedRule(rule.name);
      if cached.Some? {
        var changed := NodeSelectorChanged(rule.spec.nodeSelector, cached.value.spec.nodeSelector);
        if changed {
          ghost var listed, list, envs;
          ok, listed, list, envs := CleanupNodesAfterSelectorChange(cached.value, rule);
          a := a.(cleanupListFails := !listed, cleanupList := list, cleanupEnvs := envs);
          assert Cleanup(View(), !ok) == SelectorCleanup(w, rule, a);
          if !ok {
            return;
          }
        }
      }
      UpdateRuleCache(rule);
      ok := true;
    }

    /** The second stage: the dry or the live pass over a listing. */
    method PassRule(rule: Rule)
      returns (processed: Rule, passed: bool, ghost list: seq<Node>, ghost envs: map<string, Env>)
      requires api.Valid()
      modifies this`bootstrapStartTimes, this`metrics, api`nodes, api`versions, api`disturbances
      ensures api.Valid() && api.disturbances >= old(api.disturbances)
      ensures api.disturbances == old(api.disturbances) ==> passed && NothingFails(envs)
      ensures !passed ==> View() == old(View())
      ensures passed ==> Snapshot(list, old(api.nodes)) && processed.name == rule.name
      ensures passed ==> forall a: Answers :: a.passList == list && a.passEnvs == envs ==>
        (View(), processed) == PassOver(old(View()), rule, a)
    {
      hide LivePass, DryTally, Snapshot;
      envs := map[];
      if rule.spec.dryRun {
        processed, passed, list := ProcessDryRun(rule);
      } else {
        processed := rule.(status := rule.status.(dryRun := NoResults));
        processed, passed, list, envs := ProcessAllNodesForRule(processed);
      }
    }

    /** Status update and cleanup of deleted nodes, which end every pass. */
    method PublishStatus(processed: Rule, ghost before: Answers) returns (result: Result, ghost a: Answers)
      requires api.Valid() && processed.name in api.rules
      requires !before.statusFails && !before.pruneListFails && !before.pruneFails
      modifies api`rules, api`disturbances
      ensures api.Valid() && api.disturbances >= old(api.disturbances)
      ensures api.disturbances == old(api.disturbances) ==> !a.statusFails && !a.pruneListFails && !a.pruneFails
      ensures (View(), result) == Publish(old(View()), processed, a)
      ensures a == before.(statusFails := a.statusFails, pruneListFails := a.pruneListFails, pruneFails := a.pruneFails)
    {
      hide EvaluationsIn, Accepted, WellKeyed;
      a := before;
      var published := api.PatchStatus(processed.name, processed.status);
      a := a.(statusFails := !published && Accepted(processed.status));
      if !published {
        return Error, a;
      }
      var pruned;
      ghost var listFails, patchFails;
      pruned, listFails, patchFails := CleanupDeletedNodes(processed);
      a := a.(pruneListFails := listFails, pruneFails := patchFails);
      result := if pruned then Done else Error;
    }
  }

  /** Nothing was asked yet, so nothing failed and nothing was listed. */
  ghost const NO_ANSWER := Answers(false, false, true, [], map[], true, [], map[], false, false, false)

  function NamesOf(list: seq<Node>): set<string> {
    if list == [] then {} else NamesOf(list[..|list| - 1]) + {list[|list| - 1].name}
  }

  /** Dropping entries never makes a status unacceptable. */
  lemma KeptStatusIsAccepted(s: RuleStatus, existing: set<string>)
    requires Accepted(s)
    ensures Accepted(s.(evaluations := EvaluationsIn(s.evaluations, existing)))
  {
    KeepExistingIsKeyed(s.evaluations, existing);
    FilterMembers(s.evaluations, (e: NodeEvaluation) => e.nodeName in existing);
    var kept := EvaluationsIn(s.evaluations, existing);
    forall i | 0 <= i < |kept| ensures kept[i].nodeName != "" && kept[i].taintStatus != Unset {
      assert kept[i] in kept;
    }
  }

  lemma PersistReadsOnlyItsPart(w: World, rule: Rule, nodeName: string, e: Env, f: Env)
    requires e.persistFails == f.persistFails
    ensures NodePass.Persist(w, rule, nodeName, e) == NodePass.Persist(w, rule, nodeName, f)
  {
  }

  lemma NoneAskedNoneFails()
    ensures NothingFails(map[])
  {
  }

  lemma OneMoreDoesNotFail(envs: map<string, Env>, name: string, env: Env)
    ensures NothingFails(envs) && !env.readFails && !env.taintFails && !env.markFails && !env.persistFails
      ==> NothingFails(envs[name := env])
  {
  }

  lemma NothingFailsNoTaintFailures(envs: map<string, Env>)
    ensures NothingFails(envs) ==> NoTaintFailures(envs)
  {
  }

  /** The preparation does not depend on the answers that come after it, nor the pass on those around it. */
  lemma PreparedReadsItsPart(w: World, rule: Rule, a: Answers, b: Answers)
    requires a.cleanupListFails == b.cleanupListFails && a.cleanupList == b.cleanupList && a.cleanupEnvs == b.cleanupEnvs
    ensures Prepared(w, rule, a) == Prepared(w, rule, b)
  {
    hide CleanupPass, SelectorChanged, Parses;
  }

  lemma PassOverReadsItsPart(w: World, rule: Rule, a: Answers, b: Answers)
    requires a.passList == b.passList && a.passEnvs == b.passEnvs
    ensures PassOver(w, rule, a) == PassOver(w, rule, b)
  {
  }

  lemma SnapshotNames(list: seq<Node>, nodes: map<string, Node>)
    requires Snapshot(list, nodes)
    ensures NamesOf(list) == nodes.Keys
  {
    forall n ensures n in NamesOf(list) <==> InList(list, n) {
      NamesByMember(list, n);
    }
    ListedNames(list, nodes);
  }

  lemma {:induction false} NamesByMember(list: seq<Node>, n: string)
    ensures n in NamesOf(list) <==> InList(list, n)
  {
    if list != [] {
      NamesByMember(list[..|list| - 1], n);
    }
  }

  lemma {:induction false} ListedNames(list: seq<Node>, nodes: map<string, Node>)
    requires Listed(list, nodes)
    ensures forall n :: InList(list, n) ==> n in nodes
  {
    if list != [] {
      ListedNames(list[..|list| - 1], nodes);
    }
  }

  /** In an order of the cached rules, no earlier rule has the name of a later one. */
  lemma NameNotBefore(order: seq<Rule>, cache: map<string, Rule>, node: Node, i: nat)
    requires NodePass.IsOrder(order, cache, node) && i < |order|
    ensures forall r :: r in order[..i] ==> r.name != order[i].name
  {
    forall r | r in order[..i] ensures r.name != order[i].name {
      var j :| 0 <= j < i && order[j] == r;
      assert r in order && order[i] in order;
    }
  }

  /** An evaluation does not depend on the reads and status writes around it. */
  lemma ProcessReadsOnlyItsPart(w: World, rule: Rule, node: Node, e: Env, f: Env)
    requires e.now == f.now && e.taintFails == f.taintFails && e.markFails == f.markFails
    ensures Process(w, rule, node, e) == Process(w, rule, node, f)
  {
  }
}
