// Passes of one rule over a listing of all nodes: the live pass, the dry pass, and the cleanup passes.
module Passes {
  import opened Common
  import opened NodeModel
  import opened RuleModel
  import opened Evaluation

  predicate InList(list: seq<Node>, n: string) {
    list != [] && (list[|list| - 1].name == n || InList(list[..|list| - 1], n))
  }

  /** Every listed node is listed once, as stored. */
  predicate Listed(list: seq<Node>, nodes: map<string, Node>) {
    list != [] ==>
      var front, last := list[..|list| - 1], list[|list| - 1];
      && Listed(front, nodes)
      && !InList(front, last.name)
      && last.name in nodes && nodes[last.name] == last
  }

  /** A listing of the store: every stored node exactly once, in any order. */
  predicate Snapshot(list: seq<Node>, nodes: map<string, Node>) {
    Listed(list, nodes) && forall n :: n in nodes ==> InList(list, n)
  }

  // --------------------------------------------------------------- live pass

  datatype Pass = Pass(world: World, rule: Rule, applied: seq<string>)

  /** Evaluate the rule on every listed node it applies to; a failure is recorded and the pass goes on. */
  function LivePass(w: World, rule: Rule, list: seq<Node>, envs: map<string, Env>): (p: Pass)
    ensures p.rule == rule.(status := rule.status.(evaluations := p.rule.status.evaluations,
                                                   failedNodes := p.rule.status.failedNodes))
  {
    if list == [] then Pass(w, rule, [])
    else
      var p := LivePass(w, rule, list[..|list| - 1], envs);
      var node := list[|list| - 1];
      if !AppliesTo(rule, node) then p
      else
        var o := Process(p.world, p.rule, node, EnvAt(envs, node.name));
        Pass(o.world, o.rule, p.applied + [node.name])
  }

  /** The rule's status as processAllNodesForRule leaves it. */
  function Finished(p: Pass): Rule {
    p.rule.(status := p.rule.status.(
      observedGeneration := p.rule.generation,
      appliedNodes := p.applied,
      dryRun := if p.rule.spec.dryRun then p.rule.status.dryRun else NoResults))
  }

  /** The taint change this node needs is refused by the API server. */
  predicate ChangeFails(rule: Rule, node: Node, env: Env) {
    NeedsChange(rule.spec, node) && env.taintFails
  }

  /** What the store holds for a stored node after it was processed. */
  function AfterPass(rule: Rule, node: Node, env: Env): Node {
    if !AppliesTo(rule, node) || ChangeFails(rule, node, env) then node else Settled(rule, node, node, env)
  }

  /** The entry a successful evaluation leaves in the status. */
  function EntryFor(rule: Rule, node: Node): NodeEvaluation {
    NodeEvaluation(node.name, ResultsOf(rule.spec.conditions, node.conditions),
                   if Met(rule.spec, node) then Absent else Present)
  }

  function FailureFor(rule: Rule, node: Node): NodeFailure {
    NodeFailure(node.name, EVALUATION_ERROR, FailureMessage(rule.spec, node))
  }

  /** One step of the pass, on a node that is as stored. */
  lemma ProcessStored(w: World, rule: Rule, node: Node, env: Env)
    requires node.name in w.nodes && w.nodes[node.name] == node && AppliesTo(rule, node)
    ensures var o := Process(w, rule, node, env);
      && o.world.rules == w.rules && o.world.cache == w.cache
      && o.world.nodes == w.nodes[node.name := AfterPass(rule, node, env)]
      && o.rule.status == if ChangeFails(rule, node, env)
           then rule.status.(failedNodes := WithFailure(rule.status.failedNodes, FailureFor(rule, node)))
           else rule.status.(evaluations := WithEvaluation(rule.status.evaluations, EntryFor(rule, node)))
  {
    if ChangeFails(rule, node, env) {
      assert w.nodes == w.nodes[node.name := node];
    } else {
      FreshEvaluation(w, rule, node, env);
      FreshEvaluationIsExact(w, rule, node, env);
    }
  }

  lemma MarkStepKeepsOperations(w: World, n: string, rule: string, env: Env)
    ensures MarkStep(w, n, rule, env).metrics.adds == w.metrics.adds
    ensures MarkStep(w, n, rule, env).metrics.removes == w.metrics.removes
  {
  }

  lemma ActCounts(w: World, rule: Rule, node: Node, env: Env)
    requires node.name in w.nodes
    ensures var m, m' := w.metrics, Act(w, rule, node, env).0.metrics;
      var met, has := Met(rule.spec, node), HasTaint(node.taints, rule.spec.taint);
      && m'.adds == (if !met && !has then Bump(m.adds, rule.name) else m.adds)
      && m'.removes == (if met && has then Bump(m.removes, rule.name) else m.removes)
  {
    hide Met, HasTaint, RemoveTaint, MarkStep, Bump, Evaluated, BootstrapStartKey;
    if Met(rule.spec, node) && HasTaint(node.taints, rule.spec.taint) {
      var w1 := RemoveStep(w, node, rule.spec.taint).0;
      MarkStepKeepsOperations(w1.(metrics := w1.metrics.(removes := Bump(w1.metrics.removes, rule.name))),
                              node.name, rule.name, env);
    }
  }

  lemma ProcessCounts(w: World, rule: Rule, node: Node, env: Env)
    requires node.name in w.nodes && w.nodes[node.name] == node
    requires !env.taintFails
    ensures var m, m' := w.metrics, Process(w, rule, node, env).world.metrics;
      var met, has := Met(rule.spec, node), HasTaint(node.taints, rule.spec.taint);
      && CountOf(m'.adds, rule.name) == CountOf(m.adds, rule.name) + (if !met && !has then 1 else 0)
      && CountOf(m'.removes, rule.name) == CountOf(m.removes, rule.name) + (if met && has then 1 else 0)
  {
    hide Act, Met, HasTaint, ResultsOf, WithEvaluation;
    ActCounts(w, rule, node, env);
  }

  /** The pass changes only the rule's status, on which the outcome for a node does not depend. */
  lemma AfterPassDependsOnSpec(rule: Rule, now: Rule, node: Node, env: Env)
    requires now.spec == rule.spec && now.name == rule.name
    ensures AfterPass(now, node, env) == AfterPass(rule, node, env)
    ensures ChangeFails(now, node, env) == ChangeFails(rule, node, env)
    ensures EntryFor(now, node) == EntryFor(rule, node)
    ensures AppliesTo(now, node) == AppliesTo(rule, node)
    ensures !AppliesTo(rule, node) ==> AfterPass(rule, node, env) == node
  {
  }

  lemma {:induction false} LivePassNode(w: World, rule: Rule, list: seq<Node>, envs: map<string, Env>, n: string)
    requires Listed(list, w.nodes) && n in w.nodes
    ensures var p := LivePass(w, rule, list, envs).world;
      && p.nodes.Keys == w.nodes.Keys && p.rules == w.rules && p.cache == w.cache
      && p.nodes[n] == if InList(list, n) then AfterPass(rule, w.nodes[n], EnvAt(envs, n)) else w.nodes[n]
  {
    hide Process, AfterPass, AppliesTo, ChangeFails;
    if list != [] {
      var front, node := list[..|list| - 1], list[|list| - 1];
      LivePassNode(w, rule, front, envs, n);
      LivePassNode(w, rule, front, envs, node.name);
      var p, env := LivePass(w, rule, front, envs), EnvAt(envs, node.name);
      AfterPassDependsOnSpec(rule, p.rule, node, env);
      if AppliesTo(rule, node) {
        ProcessStored(p.world, p.rule, node, env);
      }
    }
  }

  /** What the pass leaves in the rule's status about one node. */
  lemma {:induction false} LivePassEntry(w: World, rule: Rule, list: seq<Node>, envs: map<string, Env>, n: string)
    requires Listed(list, w.nodes) && n in w.nodes
    ensures var s, before, env := LivePass(w, rule, list, envs).rule.status, w.nodes[n], EnvAt(envs, n);
      && (InList(list, n) && AppliesTo(rule, before) && !ChangeFails(rule, before, env) ==>
            EvaluationOf(s.evaluations, n) == EntryFor(rule, before))
      && (InList(list, n) && AppliesTo(rule, before) && ChangeFails(rule, before, env) ==> Failed(s.failedNodes, n))
      && (Failed(rule.status.failedNodes, n) ==> Failed(s.failedNodes, n))
  {
    hide Process, AfterPass, AppliesTo, ChangeFails, EvaluationOf, Failed, WithEvaluation, WithFailure,
         ResultsOf, Met, FailureMessage;
    if list != [] {
      var front, node := list[..|list| - 1], list[|list| - 1];
      LivePassEntry(w, rule, front, envs, n);
      LivePassNode(w, rule, front, envs, node.name);
      var p, env := LivePass(w, rule, front, envs), EnvAt(envs, node.name);
      AfterPassDependsOnSpec(rule, p.rule, node, env);
      if AppliesTo(rule, node) {
        ProcessStored(p.world, p.rule, node, env);
        RecordFailureIsKeyed(p.rule.status.failedNodes, FailureFor(p.rule, node));
        WithEvaluationIsKeyed(p.rule.status.evaluations, EntryFor(p.rule, node));
      }
    }
  }

  /** The pass keeps evaluations and failures keyed by node name. */
  lemma {:induction false} LivePassKeepsStatusKeyed(w: World, rule: Rule, list: seq<Node>, envs: map<string, Env>)
    requires Listed(list, w.nodes)
    requires UniqueEvaluations(rule.status.evaluations) && UniqueFailures(rule.status.failedNodes)
    ensures var s := LivePass(w, rule, list, envs).rule.status;
      UniqueEvaluations(s.evaluations) && UniqueFailures(s.failedNodes)
  {
    hide Process, AfterPass, AppliesTo, ChangeFails, UniqueEvaluations, UniqueFailures, WithEvaluation, WithFailure,
         ResultsOf, Met, FailureMessage;
    if list != [] {
      var front, node := list[..|list| - 1], list[|list| - 1];
      LivePassKeepsStatusKeyed(w, rule, front, envs);
      LivePassNode(w, rule, front, envs, node.name);
      var p, env := LivePass(w, rule, front, envs), EnvAt(envs, node.name);
      AfterPassDependsOnSpec(rule, p.rule, node, env);
      if AppliesTo(rule, node) {
        ProcessStored(p.world, p.rule, node, env);
        RecordFailureIsKeyed(p.rule.status.failedNodes, FailureFor(p.rule, node));
        WithEvaluationIsKeyed(p.rule.status.evaluations, EntryFor(p.rule, node));
      }
    }
  }

  /** A pass keeps the shape of the status, and adds to evaluations and failures the nodes it managed or could not. */
  lemma {:induction false} LivePassKeepsShape(w: World, rule: Rule, list: seq<Node>, envs: map<string, Env>)
    requires Listed(list, w.nodes) && Shaped(rule.status) && "" !in w.nodes
    ensures var s := LivePass(w, rule, list, envs).rule.status;
      && Shaped(s)
      && (forall n :: Evaluated(s.evaluations, n) <==>
            Evaluated(rule.status.evaluations, n) || n in ManagedNames(rule, list, envs))
      && (forall n :: Failed(s.failedNodes, n) <==>
            Failed(rule.status.failedNodes, n) || n in FailingNames(rule, list, envs))
  {
    hide Process, AfterPass, AppliesTo, ChangeFails, Shaped, WithEvaluation, WithFailure, ResultsOf, Met, FailureMessage,
         Evaluated, Failed;
    if list != [] {
      var front, node := list[..|list| - 1], list[|list| - 1];
      LivePassKeepsShape(w, rule, front, envs);
      LivePassNode(w, rule, front, envs, node.name);
      var p, env := LivePass(w, rule, front, envs), EnvAt(envs, node.name);
      AfterPassDependsOnSpec(rule, p.rule, node, env);
      if AppliesTo(rule, node) {
        ProcessStored(p.world, p.rule, node, env);
        if ChangeFails(rule, node, env) {
          FailureIsShaped(p.rule.status, FailureFor(p.rule, node));
          RecordFailureIsKeyed(p.rule.status.failedNodes, FailureFor(p.rule, node));
        } else {
          EvaluationIsShaped(p.rule.status, EntryFor(p.rule, node));
          WithEvaluationIsKeyed(p.rule.status.evaluations, EntryFor(p.rule, node));
        }
      }
    }
  }

  /** A pass leaves the entry of every node that it does not manage as it was. */
  lemma {:induction false} LivePassKeepsOtherEntries(w: World, rule: Rule, list: seq<Node>, envs: map<string, Env>, n: string)
    requires Listed(list, w.nodes) && n !in ManagedNames(rule, list, envs)
    ensures EvaluationOf(LivePass(w, rule, list, envs).rule.status.evaluations, n) == EvaluationOf(rule.status.evaluations, n)
  {
    hide Process, AfterPass, AppliesTo, ChangeFails, WithEvaluation, WithFailure, ResultsOf, Met, FailureMessage, EvaluationOf;
    if list != [] {
      var front, node := list[..|list| - 1], list[|list| - 1];
      LivePassKeepsOtherEntries(w, rule, front, envs, n);
      LivePassNode(w, rule, front, envs, node.name);
      var p, env := LivePass(w, rule, front, envs), EnvAt(envs, node.name);
      AfterPassDependsOnSpec(rule, p.rule, node, env);
      if AppliesTo(rule, node) {
        ProcessStored(p.world, p.rule, node, env);
        WithEvaluationIsKeyed(p.rule.status.evaluations, EntryFor(p.rule, node));
      }
    }
  }

  lemma {:induction false} ApplicableIsDistinct(rule: Rule, list: seq<Node>, nodes: map<string, Node>)
    requires Listed(list, nodes)
    ensures Distinct(ApplicableNames(rule, list))
    ensures forall n :: n in ApplicableNames(rule, list) ==> InList(list, n)
  {
    hide AppliesTo;
    if list != [] {
      ApplicableIsDistinct(rule, list[..|list| - 1], nodes);
    }
  }

  function EvaluatedNames(s: seq<NodeEvaluation>): set<string> {
    Image(s, (e: NodeEvaluation) => e.nodeName)
  }

  function FailedNames(s: seq<NodeFailure>): set<string> {
    Image(s, (f: NodeFailure) => f.nodeName)
  }

  /** A keyed list has as many entries as names. */
  lemma NamesOfEvaluations(s: seq<NodeEvaluation>)
    ensures forall n :: n in EvaluatedNames(s) <==> Evaluated(s, n)
    ensures UniqueEvaluations(s) ==> |EvaluatedNames(s)| == |s|
  {
    var f := (e: NodeEvaluation) => e.nodeName;
    ImageMembers(s, f);
    ImageSize(s, f);
    assert UniqueEvaluations(s) ==> DistinctBy(s, f);
    forall n ensures n in EvaluatedNames(s) <==> Evaluated(s, n) {
      if Evaluated(s, n) {
        var i :| 0 <= i < |s| && s[i].nodeName == n;
        assert f(s[i]) in Image(s, f);
      }
    }
  }

  lemma NamesOfFailures(s: seq<NodeFailure>)
    ensures forall n :: n in FailedNames(s) <==> Failed(s, n)
    ensures UniqueFailures(s) ==> |FailedNames(s)| == |s|
  {
    var g := (f: NodeFailure) => f.nodeName;
    ImageMembers(s, g);
    ImageSize(s, g);
    assert UniqueFailures(s) ==> DistinctBy(s, g);
    forall n ensures n in FailedNames(s) <==> Failed(s, n) {
      if Failed(s, n) {
        var i :| 0 <= i < |s| && s[i].nodeName == n;
        assert g(s[i]) in Image(s, g);
      }
    }
  }

  /**
   * What the API server will accept of a pass, told from the rule as it was, its stored entries included: those of
   * nodes that no longer exist count, too.
   */
  predicate PassFits(rule: Rule, list: seq<Node>, envs: map<string, Env>) {
    && |ApplicableNames(rule, list)| <= MAX_ITEMS
    && |EvaluatedNames(rule.status.evaluations) + (set n | n in ManagedNames(rule, list, envs))| <= MAX_ITEMS
    && |FailedNames(rule.status.failedNodes) + (set n | n in FailingNames(rule, list, envs))| <= MAX_ITEMS
  }

  /**
   * The status of a finished pass is accepted if and only if it fits: the selected nodes, the nodes with an entry from
   * before or from this pass, and those with a failure from before or from this pass, are each at most 5000.
   */
  lemma FinishedStatusIsAcceptedExactly(w: World, rule: Rule, list: seq<Node>, envs: map<string, Env>)
    requires Listed(list, w.nodes) && Shaped(rule.status) && "" !in w.nodes
    ensures Accepted(Finished(LivePass(w, rule, list, envs)).status) <==> PassFits(rule, list, envs)
  {
    hide LivePass, ApplicableNames, ManagedNames, FailingNames, UniqueEvaluations, UniqueFailures, NamedEvaluations,
         NamedFailures, EvaluatedNames, FailedNames, Evaluated, Failed;
    var s := LivePass(w, rule, list, envs).rule.status;
    LivePassKeepsShape(w, rule, list, envs);
    AppliedIsApplicable(w, rule, list, envs);
    ApplicableIsDistinct(rule, list, w.nodes);
    NamesOfEvaluations(s.evaluations);
    NamesOfEvaluations(rule.status.evaluations);
    NamesOfFailures(s.failedNodes);
    NamesOfFailures(rule.status.failedNodes);
    assert EvaluatedNames(s.evaluations)
        == EvaluatedNames(rule.status.evaluations) + (set n | n in ManagedNames(rule, list, envs));
    assert FailedNames(s.failedNodes)
        == FailedNames(rule.status.failedNodes) + (set n | n in FailingNames(rule, list, envs));
  }

  lemma AfterPassIsExact(rule: Rule, node: Node, env: Env)
    requires AppliesTo(rule, node) && !ChangeFails(rule, node, env)
    ensures var after, t := AfterPass(rule, node, env), rule.spec.taint;
      && (HasTaint(after.taints, t) <==> !Met(rule.spec, node))
      && RemoveTaint(after.taints, t) == RemoveTaint(node.taints, t)
      && after == node.(taints := after.taints, annotations := after.annotations)
  {
    var t := rule.spec.taint;
    RemoveTaintPresence(node.taints, t, t);
    AddTaintPresence(node.taints, t, t);
    OtherTaintsKept(node.taints, t);
  }

  /**
   * One live pass converges. Over a listing of the current nodes, every selected node the status does not
   * record as failed ends with the taint present exactly when a condition is unmet, and is so recorded;
   * its other taints keep content and order. Nodes the rule does not select are not touched.
   */
  lemma LivePassConverges(w: World, rule: Rule, list: seq<Node>, envs: map<string, Env>, n: string)
    requires Snapshot(list, w.nodes) && n in w.nodes
    ensures LivePass(w, rule, list, envs).world.nodes.Keys == w.nodes.Keys
    ensures var p := LivePass(w, rule, list, envs);
      var before, after, t := w.nodes[n], p.world.nodes[n], rule.spec.taint;
      && (!AppliesTo(rule, before) ==> after == before)
      && (AppliesTo(rule, before) && !Failed(p.rule.status.failedNodes, n) ==>
            && (HasTaint(after.taints, t) <==> !Met(rule.spec, before))
            && EvaluationOf(p.rule.status.evaluations, n) == EntryFor(rule, before)
            && RemoveTaint(after.taints, t) == RemoveTaint(before.taints, t)
            && after == before.(taints := after.taints, annotations := after.annotations))
  {
    LivePassNode(w, rule, list, envs, n);
    LivePassEntry(w, rule, list, envs, n);
    AfterPassDependsOnSpec(rule, rule, w.nodes[n], EnvAt(envs, n));
    if AppliesTo(rule, w.nodes[n]) && !ChangeFails(rule, w.nodes[n], EnvAt(envs, n)) {
      AfterPassIsExact(rule, w.nodes[n], EnvAt(envs, n));
    }
  }

  /** The nodes the rule selects, in listing order. */
  function ApplicableNames(rule: Rule, list: seq<Node>): seq<string> {
    if list == [] then []
    else ApplicableNames(rule, list[..|list| - 1])
         + (if AppliesTo(rule, list[|list| - 1]) then [list[|list| - 1].name] else [])
  }

  /** The selected nodes whose taint the pass could bring into line. */
  function ManagedNames(rule: Rule, list: seq<Node>, envs: map<string, Env>): seq<string> {
    if list == [] then []
    else
      var node := list[|list| - 1];
      ManagedNames(rule, list[..|list| - 1], envs)
        + if AppliesTo(rule, node) && !ChangeFails(rule, node, EnvAt(envs, node.name)) then [node.name] else []
  }

  /** The selected nodes whose taint it could not. */
  function FailingNames(rule: Rule, list: seq<Node>, envs: map<string, Env>): seq<string> {
    if list == [] then []
    else
      var node := list[|list| - 1];
      FailingNames(rule, list[..|list| - 1], envs)
        + if AppliesTo(rule, node) && ChangeFails(rule, node, EnvAt(envs, node.name)) then [node.name] else []
  }

  predicate SomeChangeFails(rule: Rule, list: seq<Node>, envs: map<string, Env>) {
    list != [] &&
      var node := list[|list| - 1];
      || SomeChangeFails(rule, list[..|list| - 1], envs)
      || (AppliesTo(rule, node) && ChangeFails(rule, node, EnvAt(envs, node.name)))
  }

  lemma {:induction false} ManagedIsApplicableExactly(rule: Rule, list: seq<Node>, envs: map<string, Env>)
    ensures |ManagedNames(rule, list, envs)| <= |ApplicableNames(rule, list)|
    ensures |ManagedNames(rule, list, envs)| == |ApplicableNames(rule, list)| <==> !SomeChangeFails(rule, list, envs)
    ensures !SomeChangeFails(rule, list, envs) ==> ManagedNames(rule, list, envs) == ApplicableNames(rule, list)
  {
    hide AppliesTo, ChangeFails;
    if list != [] {
      ManagedIsApplicableExactly(rule, list[..|list| - 1], envs);
    }
  }

  /** AppliedNodes lists the nodes whose taint was managed with success if and only if no selected node's change fails. */
  lemma AppliedIsManagedExactly(w: World, rule: Rule, list: seq<Node>, envs: map<string, Env>)
    ensures LivePass(w, rule, list, envs).applied == ManagedNames(rule, list, envs)
       <==> !SomeChangeFails(rule, list, envs)
  {
    hide LivePass, ManagedNames, ApplicableNames, SomeChangeFails;
    AppliedIsApplicable(w, rule, list, envs);
    ManagedIsApplicableExactly(rule, list, envs);
  }

  /** AppliedNodes lists every selected node, those whose evaluation failed included. */
  lemma {:induction false} AppliedIsApplicable(w: World, rule: Rule, list: seq<Node>, envs: map<string, Env>)
    ensures LivePass(w, rule, list, envs).applied == ApplicableNames(rule, list)
  {
    hide Process;
    if list != [] {
      AppliedIsApplicable(w, rule, list[..|list| - 1], envs);
    }
  }

  /** What a finished pass writes besides entries and failures; results of an earlier dry run are cleared. */
  lemma FinishedRuleExactly(w: World, rule: Rule, list: seq<Node>, envs: map<string, Env>)
    ensures var f := Finished(LivePass(w, rule, list, envs));
      && f == rule.(status := f.status)
      && f.status.observedGeneration == rule.generation
      && f.status.appliedNodes == ApplicableNames(rule, list)
      && (!rule.spec.dryRun ==> f.status.dryRun == NoResults) && (rule.spec.dryRun ==> f.status.dryRun == rule.status.dryRun)
  {
    hide LivePass, ApplicableNames;
    AppliedIsApplicable(w, rule, list, envs);
  }

  // ---------------------------------------------------------------- dry pass

  /** The counters of the dry pass, before they are cut to 32 bits. */
  datatype Tally = Tally(affected: nat, adds: nat, removes: nat, risky: nat)

  function DryTally(rule: Rule, list: seq<Node>): Tally {
    if list == [] then Tally(0, 0, 0, 0)
    else
      var t := DryTally(rule, list[..|list| - 1]);
      var node := list[|list| - 1];
      if !AppliesTo(rule, node) then t
      else
        var met, has := Met(rule.spec, node), HasTaint(node.taints, rule.spec.taint);
        Tally(t.affected + 1,
              t.adds + if !met && !has then 1 else 0,
              t.removes + if met && has then 1 else 0,
              t.risky + if MissingConditions(rule.spec, node) then 1 else 0)
  }

  /** A required condition is reported Unknown, or not at all. */
  predicate MissingConditions(spec: RuleSpec, node: Node) {
    exists i :: 0 <= i < |spec.conditions| && StatusOf(node.conditions, spec.conditions[i].ctype) == UNKNOWN
  }

  /** The selected nodes that report "Unknown" for a required condition, or do not report it. */
  ghost function RiskyNodes(rule: Rule, list: seq<Node>): seq<Node> {
    Filter(list, (n: Node) => AppliesTo(rule, n)
      && exists i :: 0 <= i < |rule.spec.conditions| && Reports(n.conditions, rule.spec.conditions[i].ctype, "Unknown"))
  }

  /** Those are what the dry run calls risky. */
  lemma {:induction false} RiskyExactly(rule: Rule, list: seq<Node>)
    ensures DryTally(rule, list).risky == |RiskyNodes(rule, list)|
  {
    hide AppliesTo, Met, HasTaint, Reports;
    if list != [] {
      RiskyExactly(rule, list[..|list| - 1]);
      var node := list[|list| - 1];
      forall i | 0 <= i < |rule.spec.conditions|
        ensures StatusOf(node.conditions, rule.spec.conditions[i].ctype) == UNKNOWN
           <==> Reports(node.conditions, rule.spec.conditions[i].ctype, "Unknown")
      {
        StatusIsReported(node.conditions, rule.spec.conditions[i].ctype, "Unknown");
      }
    }
  }

  /** How many listed nodes lacked the taint and have it now; and the other way round. */
  function Gained(list: seq<Node>, now: map<string, Node>, t: Taint): nat {
    if list == [] then 0
    else
      var node := list[|list| - 1];
      Gained(list[..|list| - 1], now, t)
        + if !HasTaint(node.taints, t) && node.name in now && HasTaint(now[node.name].taints, t) then 1 else 0
  }

  function Lost(list: seq<Node>, now: map<string, Node>, t: Taint): nat {
    if list == [] then 0
    else
      var node := list[|list| - 1];
      Lost(list[..|list| - 1], now, t)
        + if HasTaint(node.taints, t) && node.name in now && !HasTaint(now[node.name].taints, t) then 1 else 0
  }

  predicate NoTaintFailures(envs: map<string, Env>) {
    forall n :: n in envs ==> !envs[n].taintFails
  }

  /** The store holds, for every listed node, what a pass without failures leaves. */
  predicate Processed(rule: Rule, list: seq<Node>, envs: map<string, Env>, now: map<string, Node>) {
    list != [] ==>
      var node := list[|list| - 1];
      && Processed(rule, list[..|list| - 1], envs, now)
      && node.name in now && now[node.name] == AfterPass(rule, node, EnvAt(envs, node.name))
  }

  lemma {:induction false} PassProcesses(w: World, rule: Rule, all: seq<Node>, envs: map<string, Env>, list: seq<Node>)
    requires Listed(all, w.nodes) && Listed(list, w.nodes)
    requires forall n :: InList(list, n) ==> InList(all, n)
    ensures Processed(rule, list, envs, LivePass(w, rule, all, envs).world.nodes)
  {
    hide AfterPass, LivePass;
    if list != [] {
      PassProcesses(w, rule, all, envs, list[..|list| - 1]);
      LivePassNode(w, rule, all, envs, list[|list| - 1].name);
    }
  }

  lemma {:induction false} TallyCountsChanges(rule: Rule, list: seq<Node>, envs: map<string, Env>, now: map<string, Node>)
    requires Processed(rule, list, envs, now) && NoTaintFailures(envs)
    ensures DryTally(rule, list).adds == Gained(list, now, rule.spec.taint)
    ensures DryTally(rule, list).removes == Lost(list, now, rule.spec.taint)
    ensures DryTally(rule, list).affected == |ApplicableNames(rule, list)|
  {
    hide AfterPass, AppliesTo;
    if list != [] {
      var node := list[|list| - 1];
      TallyCountsChanges(rule, list[..|list| - 1], envs, now);
      AfterPassDependsOnSpec(rule, rule, node, EnvAt(envs, node.name));
      if AppliesTo(rule, node) {
        AfterPassIsExact(rule, node, EnvAt(envs, node.name));
      }
    }
  }

  lemma {:induction false} TallyCountsOperations(w: World, rule: Rule, list: seq<Node>, envs: map<string, Env>)
    requires Listed(list, w.nodes) && NoTaintFailures(envs)
    ensures var m, m' := w.metrics, LivePass(w, rule, list, envs).world.metrics;
      && CountOf(m'.adds, rule.name) == CountOf(m.adds, rule.name) + DryTally(rule, list).adds
      && CountOf(m'.removes, rule.name) == CountOf(m.removes, rule.name) + DryTally(rule, list).removes
  {
    hide Process, Met, HasTaint, CountOf, AppliesTo;
    if list != [] {
      var front, node := list[..|list| - 1], list[|list| - 1];
      TallyCountsOperations(w, rule, front, envs);
      LivePassNode(w, rule, front, envs, node.name);
      var p := LivePass(w, rule, front, envs);
      AfterPassDependsOnSpec(rule, p.rule, node, EnvAt(envs, node.name));
      if AppliesTo(rule, node) {
        ProcessCounts(p.world, p.rule, node, EnvAt(envs, node.name));
      }
    }
  }

  /**
   * The dry run predicts the live run: on one listing, with no failing patch, the dry counts are the numbers
   * of nodes the live pass taints and untaints, and of the add and remove operations it counts; the affected
   * nodes are the applied nodes.
   */
  lemma DryRunPredictsLive(w: World, rule: Rule, list: seq<Node>, envs: map<string, Env>)
    requires Snapshot(list, w.nodes) && NoTaintFailures(envs)
    ensures var dry, p := DryTally(rule, list), LivePass(w, rule, list, envs);
      && dry.adds == Gained(list, p.world.nodes, rule.spec.taint)
                  == CountOf(p.world.metrics.adds, rule.name) - CountOf(w.metrics.adds, rule.name)
      && dry.removes == Lost(list, p.world.nodes, rule.spec.taint)
                     == CountOf(p.world.metrics.removes, rule.name) - CountOf(w.metrics.removes, rule.name)
      && dry.affected == |p.applied|
  {
    PassProcesses(w, rule, list, envs, list);
    TallyCountsChanges(rule, list, envs, LivePass(w, rule, list, envs).world.nodes);
    TallyCountsOperations(w, rule, list, envs);
    AppliedIsApplicable(w, rule, list, envs);
  }

  // -------------------------------------------------------------- second pass

  predicate Quiet(rule: Rule, list: seq<Node>) {
    list != [] ==>
      && Quiet(rule, list[..|list| - 1])
      && (AppliesTo(rule, list[|list| - 1]) ==> !NeedsChange(rule.spec, list[|list| - 1]))
  }

  lemma {:induction false} QuietPassDoesNothing(w: World, rule: Rule, list: seq<Node>, envs: map<string, Env>)
    requires Quiet(rule, list)
    ensures var p := LivePass(w, rule, list, envs);
      && p.world == w.(starts := p.world.starts)
      && p.rule.status.failedNodes == rule.status.failedNodes
    ensures DryTally(rule, list).adds == 0 && DryTally(rule, list).removes == 0
  {
    if list != [] {
      QuietPassDoesNothing(w, rule, list[..|list| - 1], envs);
    }
  }

  lemma {:induction false} ConvergedIsQuiet(w: World, rule: Rule, list: seq<Node>, envs: map<string, Env>,
                                            again: Rule, list2: seq<Node>)
    requires Snapshot(list, w.nodes) && NoTaintFailures(envs)
    requires again.spec == rule.spec && Listed(list2, LivePass(w, rule, list, envs).world.nodes)
    ensures Quiet(again, list2)
  {
    if list2 != [] {
      var node := list2[|list2| - 1];
      ConvergedIsQuiet(w, rule, list, envs, again, list2[..|list2| - 1]);
      assert w.nodes.Keys == LivePass(w, rule, list, envs).world.nodes.Keys by {
        LivePassKeys(w, rule, list, envs);
      }
      LivePassNode(w, rule, list, envs, node.name);
      var before, env := w.nodes[node.name], EnvAt(envs, node.name);
      if AppliesTo(rule, before) {
        AfterPassIsExact(rule, before, env);
      }
    }
  }

  lemma {:induction false} LivePassKeys(w: World, rule: Rule, list: seq<Node>, envs: map<string, Env>)
    requires Listed(list, w.nodes)
    ensures LivePass(w, rule, list, envs).world.nodes.Keys == w.nodes.Keys
  {
    if list != [] {
      LivePassNode(w, rule, list, envs, list[|list| - 1].name);
    }
  }

  /** After a pass without failures, a second pass over any new listing does nothing, and a dry run finds nothing to do. */
  lemma SecondPassDoesNothing(w: World, rule: Rule, list: seq<Node>, envs: map<string, Env>,
                              again: Rule, list2: seq<Node>, envs2: map<string, Env>)
    requires Snapshot(list, w.nodes) && NoTaintFailures(envs)
    requires again.spec == rule.spec && Snapshot(list2, LivePass(w, rule, list, envs).world.nodes)
    ensures var first := LivePass(w, rule, list, envs).world;
      var second := LivePass(first, again, list2, envs2);
      && second.world == first.(starts := second.world.starts)
      && second.rule.status.failedNodes == again.status.failedNodes
    ensures DryTally(again, list2).adds == 0 && DryTally(again, list2).removes == 0
  {
    ConvergedIsQuiet(w, rule, list, envs, again, list2);
    QuietPassDoesNothing(LivePass(w, rule, list, envs).world, again, list2, envs2);
  }

  // ------------------------------------------------------------ cleanup passes

  datatype Cleanup = Cleanup(world: World, failed: bool)

  /** Remove the rule's taint from one listed node, if the listing shows it there. */
  function CleanNode(c: Cleanup, rule: Rule, node: Node, env: Env): Cleanup {
    if !HasTaint(node.taints, rule.spec.taint) then c
    else if env.taintFails || node.name !in c.world.nodes then c.(failed := true)
    else
      var w := RemoveStep(c.world, node, rule.spec.taint).0;
      c.(world := w.(metrics := w.metrics.(removes := Bump(w.metrics.removes, rule.name))))
  }

  /** Remove the rule's taint from every listed node that is wanted. */
  function CleanupPass(w: World, rule: Rule, list: seq<Node>, wanted: Node -> bool, envs: map<string, Env>): Cleanup {
    if list == [] then Cleanup(w, false)
    else
      var c := CleanupPass(w, rule, list[..|list| - 1], wanted, envs);
      var node := list[|list| - 1];
      if wanted(node) then CleanNode(c, rule, node, EnvAt(envs, node.name)) else c
  }

  function Cleaned(rule: Rule, node: Node): Node {
    node.(taints := RemoveTaint(node.taints, rule.spec.taint))
  }

  lemma CleanStored(c: Cleanup, rule: Rule, node: Node, env: Env)
    requires node.name in c.world.nodes && c.world.nodes[node.name] == node
    ensures var c' := CleanNode(c, rule, node, env);
      && c'.world == c.world.(nodes := c'.world.nodes, metrics := c'.world.metrics)
      && (c.failed ==> c'.failed)
      && (c'.world.nodes == c.world.nodes[node.name := Cleaned(rule, node)]
          || (c'.world.nodes == c.world.nodes && c'.failed))
  {
    if !HasTaint(node.taints, rule.spec.taint) {
      RemoveAbsentTaint(node.taints, rule.spec.taint);
      assert c.world.nodes == c.world.nodes[node.name := Cleaned(rule, node)];
    }
  }

  /** A cleanup that reports no failure leaves the taint on no wanted node; nothing else in the store changes. */
  lemma {:induction false} CleanupIsComplete(w: World, rule: Rule, list: seq<Node>, wanted: Node -> bool,
                                             envs: map<string, Env>, n: string)
    requires Listed(list, w.nodes) && n in w.nodes
    ensures var c := CleanupPass(w, rule, list, wanted, envs);
      && c.world == w.(nodes := c.world.nodes, metrics := c.world.metrics)
      && c.world.nodes.Keys == w.nodes.Keys
      && (!InList(list, n) || !wanted(w.nodes[n]) ==> c.world.nodes[n] == w.nodes[n])
      && (InList(list, n) && wanted(w.nodes[n]) && !c.failed ==> c.world.nodes[n] == Cleaned(rule, w.nodes[n]))
  {
    hide CleanNode, Cleaned;
    if list != [] {
      var front, node := list[..|list| - 1], list[|list| - 1];
      CleanupIsComplete(w, rule, front, wanted, envs, n);
      CleanupIsComplete(w, rule, front, wanted, envs, node.name);
      CleanStored(CleanupPass(w, rule, front, wanted, envs), rule, node, EnvAt(envs, node.name));
    }
  }

  /** A cleanup in which no removal is refused reports no failure. */
  lemma {:induction false} CalmCleanupSucceeds(w: World, rule: Rule, list: seq<Node>, wanted: Node -> bool,
                                               envs: map<string, Env>)
    requires Listed(list, w.nodes) && NoTaintFailures(envs)
    ensures !CleanupPass(w, rule, list, wanted, envs).failed
  {
    if list != [] {
      CalmCleanupSucceeds(w, rule, list[..|list| - 1], wanted, envs);
      CleanupIsComplete(w, rule, list[..|list| - 1], wanted, envs, list[|list| - 1].name);
    }
  }

  /** What a cleanup leaves of one node, exactly. */
  predicate Swept(rule: Rule, list: seq<Node>, wanted: Node -> bool, envs: map<string, Env>, node: Node) {
    InList(list, node.name) && wanted(node) && HasTaint(node.taints, rule.spec.taint) && !EnvAt(envs, node.name).taintFails
  }

  lemma {:induction false} CleanupOfOneNode(w: World, rule: Rule, list: seq<Node>, wanted: Node -> bool,
                                            envs: map<string, Env>, n: string)
    requires Listed(list, w.nodes) && n in w.nodes && WellKeyed(w.nodes)
    ensures var c := CleanupPass(w, rule, list, wanted, envs).world;
      && c.nodes.Keys == w.nodes.Keys
      && c.nodes[n] == if Swept(rule, list, wanted, envs, w.nodes[n]) then Cleaned(rule, w.nodes[n]) else w.nodes[n]
  {
    hide HasTaint, RemoveTaint;
    if list != [] {
      CleanupOfOneNode(w, rule, list[..|list| - 1], wanted, envs, n);
      CleanupOfOneNode(w, rule, list[..|list| - 1], wanted, envs, list[|list| - 1].name);
    }
  }

  /** A cleanup leaves all nodes as they are exactly when it has no taint to remove, or cannot. */
  lemma CleanupChangesNothingExactly(w: World, rule: Rule, list: seq<Node>, wanted: Node -> bool, envs: map<string, Env>)
    requires Listed(list, w.nodes) && WellKeyed(w.nodes)
    ensures CleanupPass(w, rule, list, wanted, envs).world.nodes == w.nodes
       <==> forall n :: n in w.nodes ==> !Swept(rule, list, wanted, envs, w.nodes[n])
  {
    hide CleanupPass, Swept;
    var c := CleanupPass(w, rule, list, wanted, envs).world;
    forall n | n in w.nodes
      ensures n in c.nodes && (c.nodes[n] == w.nodes[n] <==> !Swept(rule, list, wanted, envs, w.nodes[n]))
    {
      CleanupOfOneNode(w, rule, list, wanted, envs, n);
      if Swept(rule, list, wanted, envs, w.nodes[n]) {
        SweptHadTheTaint(rule, list, wanted, envs, w.nodes[n]);
      }
    }
    if w.nodes == map[] {
      CleanupKeys(w, rule, list, wanted, envs);
    } else {
      var n :| n in w.nodes;
      CleanupOfOneNode(w, rule, list, wanted, envs, n);
    }
  }

  lemma {:induction false} CleanupKeys(w: World, rule: Rule, list: seq<Node>, wanted: Node -> bool, envs: map<string, Env>)
    requires Listed(list, w.nodes) && w.nodes == map[]
    ensures CleanupPass(w, rule, list, wanted, envs).world.nodes == w.nodes
  {
  }

  lemma SweptHadTheTaint(rule: Rule, list: seq<Node>, wanted: Node -> bool, envs: map<string, Env>, node: Node)
    requires Swept(rule, list, wanted, envs, node)
    ensures HasTaint(node.taints, rule.spec.taint) && !HasTaint(Cleaned(rule, node).taints, rule.spec.taint)
    ensures Cleaned(rule, node) != node
  {
    RemoveTaintPresence(node.taints, rule.spec.taint, rule.spec.taint);
  }

  // ------------------------------- the outside counts only for listed nodes

  lemma {:induction false} LivePassIgnoresOthers(w: World, rule: Rule, list: seq<Node>, envs: map<string, Env>,
                                                 name: string, env: Env)
    requires !InList(list, name)
    ensures LivePass(w, rule, list, envs[name := env]) == LivePass(w, rule, list, envs)
  {
    if list != [] {
      LivePassIgnoresOthers(w, rule, list[..|list| - 1], envs, name, env);
    }
  }

  lemma {:induction false} CleanupIgnoresOthers(w: World, rule: Rule, list: seq<Node>, wanted: Node -> bool,
                                                envs: map<string, Env>, name: string, env: Env)
    requires !InList(list, name)
    ensures CleanupPass(w, rule, list, wanted, envs[name := env]) == CleanupPass(w, rule, list, wanted, envs)
  {
    if list != [] {
      CleanupIgnoresOthers(w, rule, list[..|list| - 1], wanted, envs, name, env);
    }
  }

  /** A prefix of a listing is a listing, and does not yet hold the next node. */
  lemma {:induction false} ListedPrefix(list: seq<Node>, nodes: map<string, Node>, i: nat)
    requires Listed(list, nodes) && i < |list|
    ensures Listed(list[..i], nodes) && !InList(list[..i], list[i].name)
    ensures list[i].name in nodes && nodes[list[i].name] == list[i]
  {
    if i == |list| - 1 {
    } else {
      ListedPrefix(list[..|list| - 1], nodes, i);
      assert list[..|list| - 1][..i] == list[..i];
    }
  }
}
