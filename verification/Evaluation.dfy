// What one evaluation of one rule on one node does to the cluster and to the controller's own records,
// as a function of the whole state. The controller's methods are proved to compute these functions.
module Evaluation {
  import opened Common
  import opened NodeModel
  import opened RuleModel

  // ------------------------------------------------------------------ state

  datatype Observation = Observation(rule: string, seconds: int)

  datatype Metrics = Metrics(adds: map<string, nat>, removes: map<string, nat>,
                             completed: map<string, nat>, durations: seq<Observation>)

  /** The API server's nodes and rules, the controller's rule cache, its start times and its counters. */
  datatype World = World(nodes: map<string, Node>, rules: map<string, Rule>,
                         cache: map<string, Rule>, starts: map<string, nat>, metrics: Metrics)

  function CountOf(m: map<string, nat>, k: string): nat {
    if k in m then m[k] else 0
  }

  function Bump(m: map<string, nat>, k: string): map<string, nat> {
    m[k := CountOf(m, k) + 1]
  }

  predicate WellKeyed(nodes: map<string, Node>) {
    forall n :: n in nodes ==> nodes[n].name == n
  }

  /** The key of the start-time map. */
  function BootstrapStartKey(ruleName: string, nodeName: string): string {
    ruleName + ['\0'] + nodeName
  }

  const COMPLETED_PREFIX := "readiness.k8s.io/bootstrap-completed-"

  function CompletedKey(ruleName: string): string {
    COMPLETED_PREFIX + ruleName
  }

  predicate Completed(node: Node, ruleName: string) {
    CompletedKey(ruleName) in node.annotations
  }

  lemma CompletedKeyInjective(a: string, b: string)
    ensures CompletedKey(a) == CompletedKey(b) ==> a == b
  {
    var n := |COMPLETED_PREFIX|;
    assert CompletedKey(a)[n..] == a && CompletedKey(b)[n..] == b;
  }

  /** What the outside contributes to one evaluation: the clock, and which API calls fail. */
  datatype Env = Env(now: nat, readFails: bool, taintFails: bool, markFails: bool, persistFails: bool)

  const CALM := Env(0, false, false, false, false)

  function EnvAt(envs: map<string, Env>, name: string): Env {
    if name in envs then envs[name] else CALM
  }

  /** No call of these evaluations fails. */
  predicate NothingFails(envs: map<string, Env>) {
    forall n :: n in envs ==> !envs[n].readFails && !envs[n].taintFails && !envs[n].markFails && !envs[n].persistFails
  }

  // ------------------------------------------------------ operations on nodes

  function StoreIfAbsent(starts: map<string, nat>, key: string, now: nat): map<string, nat> {
    if key in starts then starts else starts[key := now]
  }

  /** A taint addition that does not fail: the new world, and the caller's refreshed copy of the node. */
  function AddStep(w: World, node: Node, t: Taint, ruleName: string, now: nat): (World, Node)
    requires node.name in w.nodes
  {
    var stored := w.nodes[node.name];
    if HasTaint(stored.taints, t) then (w, node)
    else
      var latest := stored.(taints := stored.taints + [t]);
      (w.(nodes := w.nodes[node.name := latest],
          starts := StoreIfAbsent(w.starts, BootstrapStartKey(ruleName, node.name), now)), latest)
  }

  function RemoveStep(w: World, node: Node, t: Taint): (World, Node)
    requires node.name in w.nodes
  {
    var stored := w.nodes[node.name];
    if !HasTaint(stored.taints, t) then (w, node)
    else
      var latest := stored.(taints := RemoveTaint(stored.taints, t));
      (w.(nodes := w.nodes[node.name := latest]), latest)
  }

  /** Marking bootstrap completion, unless an API call fails. */
  function MarkStep(w: World, nodeName: string, ruleName: string, env: Env): World {
    if env.markFails || nodeName !in w.nodes then w
    else
      var stored := w.nodes[nodeName];
      var key := BootstrapStartKey(ruleName, nodeName);
      if Completed(stored, ruleName) then w.(starts := w.starts - {key})
      else
        w.(nodes := w.nodes[nodeName := stored.(annotations := stored.annotations[CompletedKey(ruleName) := "true"])],
           starts := w.starts - {key},
           metrics := w.metrics.(
             completed := Bump(w.metrics.completed, ruleName),
             durations := w.metrics.durations
               + if key in w.starts then [Observation(ruleName, env.now - w.starts[key])] else []))
  }

  // ----------------------------------------------------------- one evaluation

  predicate AllMet(reqs: seq<ConditionRequirement>, conditions: seq<Condition>) {
    forall i :: 0 <= i < |reqs| ==> StatusOf(conditions, reqs[i].ctype) == reqs[i].required
  }

  predicate Met(spec: RuleSpec, node: Node) {
    AllMet(spec.conditions, node.conditions)
  }

  function ResultsOf(reqs: seq<ConditionRequirement>, conditions: seq<Condition>): seq<ConditionResult> {
    seq(|reqs|, i requires 0 <= i < |reqs| =>
      ConditionResult(reqs[i].ctype, StatusOf(conditions, reqs[i].ctype), reqs[i].required))
  }

  function Observed(taints: seq<Taint>, t: Taint): TaintStatus {
    if HasTaint(taints, t) then Present else Absent
  }

  /** The taints a node should have under a rule. */
  function DesiredTaints(spec: RuleSpec, node: Node): seq<Taint> {
    if Met(spec, node) then RemoveTaint(node.taints, spec.taint) else AddTaint(node.taints, spec.taint)
  }

  datatype Outcome = Outcome(world: World, node: Node, rule: Rule, failed: bool)

  /** Whether the evaluation asks the API server to change a taint. */
  predicate NeedsChange(spec: RuleSpec, node: Node) {
    Met(spec, node) == HasTaint(node.taints, spec.taint)
  }

  /** The taint action: what happens to the world and to the caller's copy of the node. */
  function Act(w: World, rule: Rule, node: Node, env: Env): (r: (World, Node))
    requires NeedsChange(rule.spec, node) ==> node.name in w.nodes
    ensures r.0.rules == w.rules && r.0.cache == w.cache
  {
    var spec := rule.spec;
    var key := BootstrapStartKey(rule.name, node.name);
    var met, has := Met(spec, node), HasTaint(node.taints, spec.taint);
    if met && has then
      var (w1, latest) := RemoveStep(w, node, spec.taint);
      var w2 := w1.(metrics := w1.metrics.(removes := Bump(w1.metrics.removes, rule.name)));
      (if spec.mode.BootstrapOnly? then MarkStep(w2, node.name, rule.name, env)
       else w2.(starts := w2.starts - {key}), latest)
    else if !met && !has then
      var (w1, latest) := AddStep(w, node, spec.taint, rule.name, env.now);
      (w1.(metrics := w1.metrics.(adds := Bump(w1.metrics.adds, rule.name))), latest)
    else if !met && spec.mode.BootstrapOnly? && !Evaluated(rule.status.evaluations, node.name) then
      (w.(starts := StoreIfAbsent(w.starts, key, env.now)), node)
    else (w, node)
  }

  /** One evaluation. A failed taint change leaves everything as it was. */
  function Evaluate(w: World, rule: Rule, node: Node, env: Env): (o: Outcome)
    ensures o.rule == rule.(status := rule.status.(evaluations := o.rule.status.evaluations))
  {
    if NeedsChange(rule.spec, node) && (env.taintFails || node.name !in w.nodes) then Outcome(w, node, rule, true)
    else
      var (w', latest) := Act(w, rule, node, env);
      var e := NodeEvaluation(latest.name, ResultsOf(rule.spec.conditions, node.conditions),
                              Observed(latest.taints, rule.spec.taint));
      Outcome(w', latest,
              rule.(status := rule.status.(evaluations := WithEvaluation(rule.status.evaluations, e))), false)
  }

  const EVALUATION_ERROR := "EvaluationError"

  function FailureMessage(spec: RuleSpec, node: Node): string {
    if Met(spec, node) then "failed to remove taint" else "failed to add taint"
  }

  /** An evaluation whose failure the caller records in the rule's status. */
  function Process(w: World, rule: Rule, node: Node, env: Env): (o: Outcome)
    ensures o.rule == rule.(status := rule.status.(evaluations := o.rule.status.evaluations,
                                                   failedNodes := o.rule.status.failedNodes))
  {
    var o := Evaluate(w, rule, node, env);
    if !o.failed then o
    else
      var f := NodeFailure(node.name, EVALUATION_ERROR, FailureMessage(rule.spec, node));
      o.(rule := rule.(status := rule.status.(failedNodes := WithFailure(rule.status.failedNodes, f))))
  }

  // --------------------------------------------------------------- properties

  /**
   * The recorded taint status is what the API server stores exactly when the evaluated copy of the node
   * agreed with the stored one about the taint: the early returns do not refresh the copy.
   */
  lemma RecordedStatusExact(w: World, rule: Rule, node: Node, env: Env)
    requires WellKeyed(w.nodes) && node.name in w.nodes
    requires !Evaluate(w, rule, node, env).failed
    ensures var o := Evaluate(w, rule, node, env);
      EvaluationOf(o.rule.status.evaluations, node.name).taintStatus
        == Observed(o.world.nodes[node.name].taints, rule.spec.taint)
      <==> (HasTaint(node.taints, rule.spec.taint) <==> HasTaint(w.nodes[node.name].taints, rule.spec.taint))
  {
    var t, stored := rule.spec.taint, w.nodes[node.name];
    var o := Evaluate(w, rule, node, env);
    var e := NodeEvaluation(o.node.name, ResultsOf(rule.spec.conditions, node.conditions), Observed(o.node.taints, t));
    WithEvaluationIsKeyed(rule.status.evaluations, e);
    RemoveTaintPresence(stored.taints, t, t);
    if !HasTaint(stored.taints, t) {
      AddTaintPresence(stored.taints, t, t);
    }
  }

  /** A node whose one condition is met, with and without the taint of the rule that requires it. */
  function StaleNode(taints: seq<Taint>): Node {
    Node("n", map[], [Condition("Ready", "True", 1, 1, "", "")], taints, map[])
  }

  function StaleRule(t: Taint): Rule {
    Rule("r", 1, true, false,
         RuleSpec([ConditionRequirement("Ready", "True")], Continuous, t, LabelSelector(map[], []), false),
         RuleStatus(1, [], [], [], NoResults))
  }

  /**
   * Such a disagreement is not repaired: evaluated on a copy from before somebody else removed the taint, the rule is
   * recorded with the taint present while the API server holds none.
   */
  lemma StaleCopyIsMisrecorded(t: Taint, metrics: Metrics)
    ensures var w := World(map["n" := StaleNode([])], map[], map[], map[], metrics);
      var o := Evaluate(w, StaleRule(t), StaleNode([t]), CALM);
      && !o.failed && o.world.nodes == w.nodes && !HasTaint(o.world.nodes["n"].taints, t)
      && EvaluationOf(o.rule.status.evaluations, "n").taintStatus == Present
  {
    var w := World(map["n" := StaleNode([])], map[], map[], map[], metrics);
    var node, rule := StaleNode([t]), StaleRule(t);
    assert SameIdentity([t][0], t);
    StatusOfFirst(node.conditions, "Ready", 0);
    assert Met(rule.spec, node) && HasTaint(node.taints, t);
    assert !HasTaint(w.nodes["n"].taints, t);
    RecordedStatusExact(w, rule, node, CALM);
  }

  /** The copy being evaluated has the stored labels, conditions and taints. */
  predicate Fresh(w: World, node: Node) {
    && node.name in w.nodes
    && w.nodes[node.name].name == node.name
    && w.nodes[node.name].labels == node.labels
    && w.nodes[node.name].conditions == node.conditions
    && w.nodes[node.name].taints == node.taints
  }

  /** Whether a fresh evaluation removes a managed taint of a bootstrap-only rule, completing bootstrap. */
  predicate Completes(rule: Rule, node: Node, env: Env) {
    rule.spec.mode.BootstrapOnly? && Met(rule.spec, node) && HasTaint(node.taints, rule.spec.taint) && !env.markFails
  }

  /** The stored node after a fresh evaluation that does not fail. */
  function Settled(rule: Rule, node: Node, stored: Node, env: Env): Node {
    stored.(taints := DesiredTaints(rule.spec, node),
            annotations := if Completes(rule, node, env) && !Completed(stored, rule.name)
                           then stored.annotations[CompletedKey(rule.name) := "true"] else stored.annotations)
  }

  lemma FreshAct(w: World, rule: Rule, node: Node, env: Env)
    requires Fresh(w, node)
    ensures Act(w, rule, node, env).0.nodes == w.nodes[node.name := Settled(rule, node, w.nodes[node.name], env)]
    ensures Act(w, rule, node, env).1.taints == DesiredTaints(rule.spec, node)
    ensures Act(w, rule, node, env).1 == node.(taints := DesiredTaints(rule.spec, node))
         || Act(w, rule, node, env).1 == w.nodes[node.name].(taints := DesiredTaints(rule.spec, node))
  {
    var stored, spec := w.nodes[node.name], rule.spec;
    if !HasTaint(node.taints, spec.taint) {
      RemoveAbsentTaint(node.taints, spec.taint);
    }
    if NeedsChange(spec, node) {
      var changed := stored.(taints := DesiredTaints(spec, node));
      var w1 := w.nodes[node.name := changed];
      if Completes(rule, node, env) && !Completed(stored, rule.name) {
        var marked := changed.(annotations := stored.annotations[CompletedKey(rule.name) := "true"]);
        assert w1[node.name := marked] == w.nodes[node.name := marked];
      }
    } else {
      assert DesiredTaints(spec, node) == stored.taints;
      assert Settled(rule, node, stored, env) == stored;
      assert w.nodes == w.nodes[node.name := stored];
    }
  }

  /** A fresh evaluation that does not fail gives the node its desired taints, and nothing else changes in the store. */
  lemma FreshEvaluation(w: World, rule: Rule, node: Node, env: Env)
    requires Fresh(w, node) && !Evaluate(w, rule, node, env).failed
    ensures var o := Evaluate(w, rule, node, env);
      && Fresh(o.world, o.node) && o.node.name == node.name
      && o.node.conditions == node.conditions && o.node.labels == node.labels
      && o.node.taints == DesiredTaints(rule.spec, node)
      && o.world.rules == w.rules && o.world.cache == w.cache
      && o.world.nodes == w.nodes[node.name := Settled(rule, node, w.nodes[node.name], env)]
  {
    FreshAct(w, rule, node, env);
    var acted := Act(w, rule, node, env);
    var o := Evaluate(w, rule, node, env);
    assert o.world == acted.0 && o.node == acted.1;
  }

  /** After a fresh evaluation the taint is present exactly when a required condition is unmet, and so it is recorded. */
  lemma FreshEvaluationIsExact(w: World, rule: Rule, node: Node, env: Env)
    requires Fresh(w, node) && !Evaluate(w, rule, node, env).failed
    ensures var o, t := Evaluate(w, rule, node, env), rule.spec.taint;
      && (HasTaint(o.world.nodes[node.name].taints, t) <==> !Met(rule.spec, node))
      && RemoveTaint(o.world.nodes[node.name].taints, t) == RemoveTaint(node.taints, t)
      && o.rule.status.evaluations == WithEvaluation(rule.status.evaluations,
           NodeEvaluation(node.name, ResultsOf(rule.spec.conditions, node.conditions),
                          if Met(rule.spec, node) then Absent else Present))
  {
    var t := rule.spec.taint;
    FreshEvaluation(w, rule, node, env);
    RemoveTaintPresence(node.taints, t, t);
    AddTaintPresence(node.taints, t, t);
    OtherTaintsKept(node.taints, t);
  }

  // ------------------------------------- the same without the controller's terms

  /** The node reports another status than this requirement asks for. */
  predicate Unmet(node: Node, req: ConditionRequirement) {
    !Reports(node.conditions, req.ctype, req.required)
  }

  lemma MetMeansReported(spec: RuleSpec, node: Node)
    ensures Met(spec, node) <==> forall i :: 0 <= i < |spec.conditions| ==> !Unmet(node, spec.conditions[i])
  {
    forall i | 0 <= i < |spec.conditions|
      ensures StatusOf(node.conditions, spec.conditions[i].ctype) == spec.conditions[i].required
         <==> !Unmet(node, spec.conditions[i])
    {
      StatusIsReported(node.conditions, spec.conditions[i].ctype, spec.conditions[i].required);
    }
  }

  /**
   * After a successful evaluation of a fresh copy the stored node carries a taint of the rule's key and effect if and
   * only if it reports some other status than one of the rule's requirements asks for; and the record says which
   * status it reports for each, and that the taint is present or absent as it is.
   */
  lemma TaintTellsUnmetConditions(w: World, rule: Rule, node: Node, env: Env)
    requires Fresh(w, node) && !Evaluate(w, rule, node, env).failed
    ensures node.name in Evaluate(w, rule, node, env).world.nodes
    ensures var o, reqs := Evaluate(w, rule, node, env), rule.spec.conditions;
      var taints := o.world.nodes[node.name].taints;
      var entry := EvaluationOf(o.rule.status.evaluations, node.name);
      && ((exists i :: 0 <= i < |taints| && taints[i].key == rule.spec.taint.key && taints[i].effect == rule.spec.taint.effect)
          <==> exists i :: 0 <= i < |reqs| && Unmet(node, reqs[i]))
      && entry.nodeName == node.name
      && (entry.taintStatus == if exists i :: 0 <= i < |reqs| && Unmet(node, reqs[i]) then Present else Absent)
      && |entry.results| == |reqs|
      && forall i :: 0 <= i < |reqs| ==>
           && entry.results[i].ctype == reqs[i].ctype && entry.results[i].required == reqs[i].required
           && Reports(node.conditions, reqs[i].ctype, entry.results[i].current)
  {
    hide Evaluate, Unmet, Reports, AllMet;
    FreshEvaluation(w, rule, node, env);
    FreshEvaluationIsExact(w, rule, node, env);
    MetMeansReported(rule.spec, node);
    WithEvaluationIsKeyed(rule.status.evaluations, NodeEvaluation(
      node.name, ResultsOf(rule.spec.conditions, node.conditions), if Met(rule.spec, node) then Absent else Present));
    forall i | 0 <= i < |rule.spec.conditions|
      ensures Reports(node.conditions, rule.spec.conditions[i].ctype,
                      ResultsOf(rule.spec.conditions, node.conditions)[i].current)
    {
      var req := rule.spec.conditions[i];
      StatusIsReported(node.conditions, req.ctype, StatusOf(node.conditions, req.ctype));
    }
  }

  /**
   * The list of taints after such an evaluation, value and all: unchanged when it was right; else with the rule's taint
   * as it is specified at the end, or without any taint of its key and effect.
   */
  lemma TaintsAfterExactly(w: World, rule: Rule, node: Node, env: Env)
    requires Fresh(w, node) && !Evaluate(w, rule, node, env).failed
    ensures node.name in Evaluate(w, rule, node, env).world.nodes
    ensures var after, t := Evaluate(w, rule, node, env).world.nodes[node.name].taints, rule.spec.taint;
      after ==
        if Met(rule.spec, node) then Filter(node.taints, (u: Taint) => !(u.key == t.key && u.effect == t.effect))
        else if HasTaint(node.taints, t) then node.taints
        else node.taints + [t]
  {
    hide Met, HasTaint;
    var t := rule.spec.taint;
    FreshEvaluation(w, rule, node, env);
    FilterAgrees(node.taints, (u: Taint) => !SameIdentity(u, t), (u: Taint) => !(u.key == t.key && u.effect == t.effect));
  }

  /** A required condition that the node does not have keeps it tainted, unless "Unknown" is what is required. */
  lemma MissingConditionBlocks(w: World, rule: Rule, node: Node, env: Env, i: nat)
    requires Fresh(w, node) && !Evaluate(w, rule, node, env).failed && i < |rule.spec.conditions|
    requires forall k :: 0 <= k < |node.conditions| ==> node.conditions[k].ctype != rule.spec.conditions[i].ctype
    ensures Unmet(node, rule.spec.conditions[i]) <==> rule.spec.conditions[i].required != "Unknown"
    ensures rule.spec.conditions[i].required != "Unknown" ==>
      node.name in Evaluate(w, rule, node, env).world.nodes
      && HasTaint(Evaluate(w, rule, node, env).world.nodes[node.name].taints, rule.spec.taint)
  {
    hide Evaluate;
    TaintTellsUnmetConditions(w, rule, node, env);
  }

  // ------------------------------------------------- start times and completion

  /** An evaluation that adds the taint leaves a start on record: the one that was there, or else the present time. */
  lemma AddedTaintHasAStart(w: World, rule: Rule, node: Node, env: Env)
    requires Fresh(w, node) && !Evaluate(w, rule, node, env).failed
    requires !Met(rule.spec, node) && !HasTaint(node.taints, rule.spec.taint)
    ensures var key, w' := BootstrapStartKey(rule.name, node.name), Evaluate(w, rule, node, env).world;
      && key in w'.starts && w'.starts[key] == (if key in w.starts then w.starts[key] else env.now)
      && forall k :: k != key ==> (k in w'.starts <==> k in w.starts) && (k in w.starts ==> w'.starts[k] == w.starts[k])
  {
    hide Met, HasTaint, Bump, ResultsOf, WithEvaluation, BootstrapStartKey;
  }

  /** So does the first evaluation of a bootstrap-only rule on a node that joined with the taint. */
  lemma FirstSightHasAStart(w: World, rule: Rule, node: Node, env: Env)
    requires Fresh(w, node) && rule.spec.mode.BootstrapOnly? && !Evaluated(rule.status.evaluations, node.name)
    requires !Met(rule.spec, node) && HasTaint(node.taints, rule.spec.taint)
    ensures var key, w' := BootstrapStartKey(rule.name, node.name), Evaluate(w, rule, node, env).world;
      && key in w'.starts && w'.starts[key] == (if key in w.starts then w.starts[key] else env.now)
      && w' == w.(starts := w'.starts)
  {
    hide Met, HasTaint, Bump, ResultsOf, WithEvaluation, BootstrapStartKey;
  }

  /**
   * From the taint to the completion. If one evaluation adds the taint when no start is on record, and that start is
   * still there when another finds the conditions met, then the node is marked, the completion is counted, exactly one
   * duration is observed, the time between the two, and the start is taken off the record.
   */
  lemma CompletionObservesTheDuration(w: World, node: Node, env: Env, v: World, later: Node, end: Env, rule: Rule, now: Rule)
    requires Fresh(w, node) && !Evaluate(w, rule, node, env).failed
    requires !Met(rule.spec, node) && !HasTaint(node.taints, rule.spec.taint)
    requires BootstrapStartKey(rule.name, node.name) !in w.starts
    requires now.name == rule.name && now.spec == rule.spec && rule.spec.mode.BootstrapOnly? && later.name == node.name
    requires Fresh(v, later) && !Evaluate(v, now, later, end).failed && !end.markFails
    requires Met(rule.spec, later) && HasTaint(later.taints, rule.spec.taint)
    requires ("readiness.k8s.io/bootstrap-completed-" + rule.name) !in v.nodes[node.name].annotations
    requires var key := BootstrapStartKey(rule.name, node.name);
      key in v.starts && key in Evaluate(w, rule, node, env).world.starts
      && v.starts[key] == Evaluate(w, rule, node, env).world.starts[key]
    ensures var v' := Evaluate(v, now, later, end).world;
      && v'.metrics.durations == v.metrics.durations + [Observation(rule.name, end.now - env.now)]
      && CountOf(v'.metrics.completed, rule.name) == CountOf(v.metrics.completed, rule.name) + 1
      && v'.starts == v.starts - {BootstrapStartKey(rule.name, node.name)}
      && node.name in v'.nodes
      && v'.nodes[node.name].annotations
           == v.nodes[node.name].annotations["readiness.k8s.io/bootstrap-completed-" + rule.name := "true"]
  {
    AddedTaintHasAStart(w, rule, node, env);
    CompletingEvaluation(v, now, later, end);
  }

  lemma CompletingEvaluation(w: World, rule: Rule, node: Node, env: Env)
    requires Fresh(w, node) && !Evaluate(w, rule, node, env).failed && !env.markFails
    requires rule.spec.mode.BootstrapOnly? && Met(rule.spec, node) && HasTaint(node.taints, rule.spec.taint)
    requires ("readiness.k8s.io/bootstrap-completed-" + rule.name) !in w.nodes[node.name].annotations
    ensures var key, w' := BootstrapStartKey(rule.name, node.name), Evaluate(w, rule, node, env).world;
      && w'.metrics.durations
           == w.metrics.durations + (if key in w.starts then [Observation(rule.name, env.now - w.starts[key])] else [])
      && CountOf(w'.metrics.completed, rule.name) == CountOf(w.metrics.completed, rule.name) + 1
      && w'.starts == w.starts - {key}
      && node.name in w'.nodes
      && w'.nodes[node.name].annotations
           == w.nodes[node.name].annotations["readiness.k8s.io/bootstrap-completed-" + rule.name := "true"]
  {
    hide Met, HasTaint, ResultsOf, WithEvaluation, BootstrapStartKey, RemoveTaint;
  }

  /** The taint of a continuous rule goes without any such mark, and its start with it. */
  lemma ContinuousRemovalLeavesNoMark(w: World, rule: Rule, node: Node, env: Env)
    requires Fresh(w, node) && !Evaluate(w, rule, node, env).failed
    requires rule.spec.mode.Continuous? && Met(rule.spec, node) && HasTaint(node.taints, rule.spec.taint)
    ensures var w' := Evaluate(w, rule, node, env).world;
      && w'.starts == w.starts - {BootstrapStartKey(rule.name, node.name)}
      && w'.metrics.durations == w.metrics.durations && w'.metrics.completed == w.metrics.completed
      && node.name in w'.nodes && w'.nodes[node.name].annotations == w.nodes[node.name].annotations
  {
    hide Met, HasTaint, ResultsOf, WithEvaluation, BootstrapStartKey, RemoveTaint;
  }

  /** A refused change leaves one failure of the node on the rule, with its reason, and nothing else anywhere. */
  lemma RefusedChangeIsRecorded(w: World, rule: Rule, node: Node, env: Env)
    requires Fresh(w, node) && env.taintFails && (Met(rule.spec, node) <==> HasTaint(node.taints, rule.spec.taint))
    ensures var o := Process(w, rule, node, env);
      && o.world == w && o.node == node
      && o.rule.status == rule.status.(failedNodes := o.rule.status.failedNodes)
      && |FailuresOf(o.rule.status.failedNodes, node.name)| == 1
      && FailuresOf(o.rule.status.failedNodes, node.name)[0].reason == "EvaluationError"
      && FailuresOf(o.rule.status.failedNodes, node.name)[0].message
           == (if HasTaint(node.taints, rule.spec.taint) then "failed to remove taint" else "failed to add taint")
      && forall m :: m != node.name ==> FailuresOf(o.rule.status.failedNodes, m) == FailuresOf(rule.status.failedNodes, m)
  {
    hide Met, HasTaint, WithFailure, FailuresOf;
    var f := NodeFailure(node.name, EVALUATION_ERROR, FailureMessage(rule.spec, node));
    forall m ensures FailuresOf(WithFailure(rule.status.failedNodes, f), m)
                  == if m == f.nodeName then [f] else FailuresOf(rule.status.failedNodes, m) {
      RecordFailureTouchesOneNode(rule.status.failedNodes, f, m);
    }
  }
}
