// One reconcile of a rule, as a function of the state and of what the API server answers.
module Reconciler {
  import opened Common
  import opened NodeModel
  import opened RuleModel
  import opened Evaluation
  import opened Passes
  import opened Helpers

  /** The API server's part in a reconcile: which calls fail, and the node listings it returns. */
  datatype Answers = Answers(
    getFails: bool,
    finalizerFails: bool,
    cleanupListFails: bool, cleanupList: seq<Node>, cleanupEnvs: map<string, Env>,
    passListFails: bool, passList: seq<Node>, passEnvs: map<string, Env>,
    statusFails: bool,
    pruneListFails: bool, pruneFails: bool)

  datatype Result = Gone | FinalizerAdded | Deleted | Done | Error

  // -------------------------------------------------------------- the stages

  /** A node the old selector chose and the new one does not. */
  predicate LeftBehind(previous: Rule, rule: Rule, node: Node) {
    Matches(previous.spec.nodeSelector, node.labels) && !AppliesTo(rule, node)
  }

  predicate NeedsSelectorCleanup(w: World, rule: Rule) {
    rule.name in w.cache && SelectorChanged(rule.spec.nodeSelector, w.cache[rule.name].spec.nodeSelector)
  }

  function NoLongerSelected(previous: Rule, rule: Rule): Node -> bool {
    (n: Node) => LeftBehind(previous, rule, n)
  }

  function Selected(rule: Rule): Node -> bool {
    (n: Node) => AppliesTo(rule, n)
  }

  function SelectorCleanup(w: World, rule: Rule, a: Answers): Cleanup
    requires NeedsSelectorCleanup(w, rule)
  {
    var previous := w.cache[rule.name];
    if a.cleanupListFails || !Parses(previous.spec.nodeSelector) then Cleanup(w, true)
    else CleanupPass(w, rule, a.cleanupList, NoLongerSelected(previous, rule), a.cleanupEnvs)
  }

  function RuleCleanup(w: World, rule: Rule, a: Answers): Cleanup {
    if a.cleanupListFails then Cleanup(w, true)
    else CleanupPass(w, rule, a.cleanupList, Selected(rule), a.cleanupEnvs)
  }

  /** Two's-complement truncation of a counter to 32 bits. */
  function Int32(n: int): int {
    (n + 0x8000_0000) % 0x1_0000_0000 - 0x8000_0000
  }

  function DryRunStatus(rule: Rule, list: seq<Node>): Rule {
    var t := DryTally(rule, list);
    rule.(status := rule.status.(observedGeneration := rule.generation,
                                 dryRun := Results(Int32(t.affected), Int32(t.adds), Int32(t.removes), Int32(t.risky))))
  }

  /** The state after the cache update: old nodes cleaned, the rule cached. */
  function Prepared(w: World, rule: Rule, a: Answers): Cleanup {
    var c := if NeedsSelectorCleanup(w, rule) then SelectorCleanup(w, rule, a) else Cleanup(w, false);
    if c.failed then c else c.(world := c.world.(cache := c.world.cache[rule.name := rule]))
  }

  function WithStoredStatus(w: World, rule: Rule): World {
    if rule.name in w.rules then w.(rules := w.rules[rule.name := w.rules[rule.name].(status := rule.status)]) else w
  }

  /** Drop the stored evaluations of nodes that no longer exist. */
  function Pruned(w: World, name: string): World
    requires name in w.rules
  {
    var stored := w.rules[name];
    w.(rules := w.rules[name := stored.(status := stored.status.(
          evaluations := EvaluationsIn(stored.status.evaluations, w.nodes.Keys)))])
  }

  /** Status update, which the API server may refuse, and cleanup of deleted nodes, which end every pass. */
  function Publish(w: World, rule: Rule, a: Answers): (World, Result) {
    if a.statusFails || rule.name !in w.rules || !Accepted(rule.status) then (w, Error)
    else
      var w' := WithStoredStatus(w, rule);
      if a.pruneListFails then (w', Error)
      else if |EvaluationsIn(rule.status.evaluations, w.nodes.Keys)| == |rule.status.evaluations| then (w', Done)
      else if a.pruneFails then (w', Error)
      else (Pruned(w', rule.name), Done)
  }

  function DeleteRule(w: World, rule: Rule, a: Answers): (World, Result) {
    var marked := w.(cache := w.cache[rule.name := rule]);
    var c := RuleCleanup(marked, rule, a);
    if c.failed then (c.world, Error)
    else
      var dropped := c.world.(cache := c.world.cache - {rule.name});
      if a.finalizerFails || rule.name !in dropped.rules then (dropped, Error)
      else (dropped.(rules := dropped.rules[rule.name := dropped.rules[rule.name].(finalizer := false)]), Deleted)
  }

  /** The state and the rule as the pass over the listing leaves them, dry or live. */
  function PassOver(w: World, rule: Rule, a: Answers): (World, Rule) {
    if rule.spec.dryRun then (w, DryRunStatus(rule, a.passList))
    else
      var p := LivePass(w, rule.(status := rule.status.(dryRun := NoResults)), a.passList, a.passEnvs);
      (p.world, Finished(p))
  }

  function Reconcile(w: World, name: string, a: Answers): (World, Result) {
    if a.getFails then (w, Error)
    else if name !in w.rules then (w.(cache := w.cache - {name}), Gone)
    else
      var rule := w.rules[name];
      if !rule.deleting && !rule.finalizer then
        if a.finalizerFails then (w, Error)
        else (w.(rules := w.rules[name := rule.(finalizer := true)]), FinalizerAdded)
      else if rule.deleting then DeleteRule(w, rule, a)
      else
        var c := Prepared(w, rule, a);
        if c.failed then (c.world, Error)
        else if a.passListFails then (c.world, Error)
        else
          var (w', rule') := PassOver(c.world, rule, a);
          Publish(w', rule', a)
  }

  // -------------------------------------------------------------- properties

  /** The listings are listings of the nodes at the time they are asked for. */
  predicate Truthful(w: World, name: string, a: Answers) {
    && (!a.cleanupListFails ==> Snapshot(a.cleanupList, w.nodes))
    && (name in w.rules && !a.passListFails ==> Snapshot(a.passList, Prepared(w, w.rules[name], a).world.nodes))
  }

  predicate LiveRule(w: World, name: string) {
    && name in w.rules && w.rules[name].name == name
    && w.rules[name].finalizer && !w.rules[name].deleting
  }

  /** The status a pass leaves reaches the store: failures as they are. */
  lemma PublishedFailures(w: World, rule: Rule, a: Answers)
    requires Publish(w, rule, a).1.Done?
    ensures rule.name in Publish(w, rule, a).0.rules
    ensures Publish(w, rule, a).0.rules[rule.name].status.failedNodes == rule.status.failedNodes
    ensures Publish(w, rule, a).0.nodes == w.nodes && Publish(w, rule, a).0.cache == w.cache
  {
  }

  /** A node the old selector chose, in a reconcile that found the selector changed. */
  predicate Dropped(w: World, rule: Rule, node: Node) {
    NeedsSelectorCleanup(w, rule) && LeftBehind(w.cache[rule.name], rule, node)
  }

  /**
   * A live reconcile that reports success, end to end, with or without a selector change. A node the rule selects,
   * unless the stored status lists it as failed, has the taint exactly when a required condition is unmet, and keeps
   * its other taints in order; a node only the old selector chose, if a change was found, has lost the taint and
   * nothing else; every other node is as before.
   */
  lemma LiveReconcileEndToEnd(w: World, name: string, a: Answers, n: string)
    requires LiveRule(w, name) && !w.rules[name].spec.dryRun
    requires Truthful(w, name, a) && Reconcile(w, name, a).1.Done? && n in w.nodes
    ensures n in Reconcile(w, name, a).0.nodes && name in Reconcile(w, name, a).0.rules
    ensures var w', rule := Reconcile(w, name, a).0, w.rules[name];
      var before, after, t := w.nodes[n], w'.nodes[n], rule.spec.taint;
      && (AppliesTo(rule, before) && !Failed(w'.rules[name].status.failedNodes, n) ==>
            && (HasTaint(after.taints, t) <==> !Met(rule.spec, before))
            && RemoveTaint(after.taints, t) == RemoveTaint(before.taints, t)
            && after == before.(taints := after.taints, annotations := after.annotations))
      && (!AppliesTo(rule, before) ==> after == if Dropped(w, rule, before) then Cleaned(rule, before) else before)
      && name in w'.cache && w'.cache[name] == rule
  {
    hide CleanupPass, LivePass, Publish, Met, Failed, SelectorChanged;
    var rule := w.rules[name];
    var before, c := w.nodes[n], Prepared(w, rule, a);
    PreparedNode(w, rule, a, n);
    var live := rule.(status := rule.status.(dryRun := NoResults));
    LivePassConverges(c.world, live, a.passList, a.passEnvs, n);
    LivePassNode(c.world, live, a.passList, a.passEnvs, n);
    var p := LivePass(c.world, live, a.passList, a.passEnvs);
    PublishedFailures(p.world, Finished(p), a);
  }

  /** What the selector cleanup leaves of one node, when it does not fail. */
  lemma PreparedNode(w: World, rule: Rule, a: Answers, n: string)
    requires n in w.nodes && !Prepared(w, rule, a).failed
    requires !a.cleanupListFails ==> Snapshot(a.cleanupList, w.nodes)
    ensures n in Prepared(w, rule, a).world.nodes
    ensures Prepared(w, rule, a).world.nodes[n]
         == if Dropped(w, rule, w.nodes[n]) then Cleaned(rule, w.nodes[n]) else w.nodes[n]
    ensures rule.name in Prepared(w, rule, a).world.cache && Prepared(w, rule, a).world.cache[rule.name] == rule
  {
    hide CleanupPass, SelectorChanged, Cleaned, Matches, Selects;
    if NeedsSelectorCleanup(w, rule) {
      CleanupIsComplete(w, rule, a.cleanupList, NoLongerSelected(w.cache[rule.name], rule), a.cleanupEnvs, n);
    }
  }

  /**
   * Selector change, end to end. The selector of one rule is immutable, so the cached selector is another one only if it
   * is that of an earlier rule, deleted and created again under the name while its cache entry stayed. After a
   * successful live reconcile of a cached rule whose comparison with the cached selector found a change, or could be
   * trusted not to find one: no node only the old selector chose has the taint, a node the new one chooses has it
   * exactly when a condition is unmet, and any other node is as before.
   */
  lemma SelectorChangeEndToEnd(w: World, name: string, a: Answers, n: string)
    requires LiveRule(w, name) && !w.rules[name].spec.dryRun && name in w.cache
    requires var current, previous := w.rules[name].spec.nodeSelector, w.cache[name].spec.nodeSelector;
      SelectorChanged(current, previous) || Comparable(current, previous)
    requires Truthful(w, name, a) && Reconcile(w, name, a).1.Done? && n in w.nodes
    ensures n in Reconcile(w, name, a).0.nodes && name in Reconcile(w, name, a).0.rules
    ensures var w', rule, previous := Reconcile(w, name, a).0, w.rules[name], w.cache[name];
      var before, after, t := w.nodes[n], w'.nodes[n], rule.spec.taint;
      && (AppliesTo(previous, before) && !AppliesTo(rule, before) ==>
            after == Cleaned(rule, before) && !HasTaint(after.taints, t))
      && (!AppliesTo(previous, before) && !AppliesTo(rule, before) ==> after == before)
      && (AppliesTo(rule, before) && !Failed(w'.rules[name].status.failedNodes, n) ==>
            && (HasTaint(after.taints, t) <==> !Met(rule.spec, before))
            && RemoveTaint(after.taints, t) == RemoveTaint(before.taints, t)
            && after == before.(taints := after.taints, annotations := after.annotations))
  {
    hide Publish, LivePass, CleanupPass, Met, Failed, SelectorChanged, Comparable, Matches;
    var rule, previous, before := w.rules[name], w.cache[name], w.nodes[n];
    LiveReconcileEndToEnd(w, name, a, n);
    RemoveTaintPresence(before.taints, rule.spec.taint, rule.spec.taint);
    if !SelectorChanged(rule.spec.nodeSelector, previous.spec.nodeSelector) {
      UnchangedSelectsTheSame(rule.spec.nodeSelector, previous.spec.nodeSelector, before.labels);
    }
  }

  /**
   * How much hangs on the comparison: a tainted node only the old selector chose loses the taint in a successful live
   * reconcile if and only if the comparison finds a change.
   */
  lemma OldNodeIsCleanedExactly(w: World, name: string, a: Answers, n: string)
    requires LiveRule(w, name) && !w.rules[name].spec.dryRun && name in w.cache
    requires Truthful(w, name, a) && Reconcile(w, name, a).1.Done? && n in w.nodes
    requires AppliesTo(w.cache[name], w.nodes[n]) && !AppliesTo(w.rules[name], w.nodes[n])
    requires HasTaint(w.nodes[n].taints, w.rules[name].spec.taint)
    ensures n in Reconcile(w, name, a).0.nodes
    ensures HasTaint(Reconcile(w, name, a).0.nodes[n].taints, w.rules[name].spec.taint)
       <==> !SelectorChanged(w.rules[name].spec.nodeSelector, w.cache[name].spec.nodeSelector)
  {
    hide Publish, LivePass, CleanupPass, Met, Failed, SelectorChanged, Matches;
    LiveReconcileEndToEnd(w, name, a, n);
    RemoveTaintPresence(w.nodes[n].taints, w.rules[name].spec.taint, w.rules[name].spec.taint);
  }

  /** The selector cleanup takes the taint off this node. */
  predicate Sweeps(w: World, rule: Rule, a: Answers, node: Node) {
    && NeedsSelectorCleanup(w, rule) && !a.cleanupListFails && Parses(w.cache[rule.name].spec.nodeSelector)
    && LeftBehind(w.cache[rule.name], rule, node) && HasTaint(node.taints, rule.spec.taint)
    && !EnvAt(a.cleanupEnvs, node.name).taintFails
  }

  /**
   * A dry-run reconcile leaves all nodes as they are, whatever fails, if and only if no node left behind by a selector
   * change has its taint removed: the cleanup after such a change is not part of the dry run.
   */
  lemma DryReconcileChangesNoNode(w: World, name: string, a: Answers)
    requires LiveRule(w, name) && w.rules[name].spec.dryRun && WellKeyed(w.nodes) && Truthful(w, name, a)
    ensures Reconcile(w, name, a).0.nodes == w.nodes
       <==> a.getFails || forall n :: n in w.nodes ==> !Sweeps(w, w.rules[name], a, w.nodes[n])
    ensures Reconcile(w, name, a).0.starts == w.starts
    ensures !NeedsSelectorCleanup(w, w.rules[name]) ==> Reconcile(w, name, a).0.metrics == w.metrics
  {
    hide Prepared, Reconcile, Sweeps, NeedsSelectorCleanup;
    DryReconcileIsPreparation(w, name, a);
    PreparationSweepsExactly(w, w.rules[name], a);
  }

  /** Of a dry-run reconcile only the preparation can reach the nodes. */
  lemma DryReconcileIsPreparation(w: World, name: string, a: Answers)
    requires LiveRule(w, name) && w.rules[name].spec.dryRun
    ensures var after, prepared := Reconcile(w, name, a).0, Prepared(w, w.rules[name], a).world;
      after.nodes == (if a.getFails then w.nodes else prepared.nodes)
      && after.starts == (if a.getFails then w.starts else prepared.starts)
      && after.metrics == (if a.getFails then w.metrics else prepared.metrics)
  {
    hide Prepared, DryTally, Accepted, EvaluationsIn;
  }

  lemma PreparationSweepsExactly(w: World, rule: Rule, a: Answers)
    requires WellKeyed(w.nodes) && (!a.cleanupListFails ==> Snapshot(a.cleanupList, w.nodes))
    ensures var prepared := Prepared(w, rule, a).world;
      && (prepared.nodes == w.nodes <==> forall n :: n in w.nodes ==> !Sweeps(w, rule, a, w.nodes[n]))
      && prepared.starts == w.starts
      && (!NeedsSelectorCleanup(w, rule) ==> prepared.metrics == w.metrics)
  {
    hide CleanupPass, SelectorChanged, HasTaint, LeftBehind, Swept, Parses, Snapshot, WellKeyed;
    if NeedsSelectorCleanup(w, rule) && !a.cleanupListFails && Parses(w.cache[rule.name].spec.nodeSelector) {
      var wanted := NoLongerSelected(w.cache[rule.name], rule);
      SnapshotIsListed(a.cleanupList, w.nodes);
      CleanupChangesNothingExactly(w, rule, a.cleanupList, wanted, a.cleanupEnvs);
      CleanupKeepsCache(w, rule, a.cleanupList, wanted, a.cleanupEnvs);
      forall n | n in w.nodes
        ensures Sweeps(w, rule, a, w.nodes[n]) <==> Swept(rule, a.cleanupList, wanted, a.cleanupEnvs, w.nodes[n])
      {
        SweepsIsSwept(w, rule, a, n);
      }
    } else {
      assert forall n :: n in w.nodes ==> !Sweeps(w, rule, a, w.nodes[n]);
    }
  }

  lemma SweepsIsSwept(w: World, rule: Rule, a: Answers, n: string)
    requires NeedsSelectorCleanup(w, rule) && !a.cleanupListFails && Parses(w.cache[rule.name].spec.nodeSelector)
    requires n in w.nodes && WellKeyed(w.nodes) && Snapshot(a.cleanupList, w.nodes)
    ensures Sweeps(w, rule, a, w.nodes[n])
       <==> Swept(rule, a.cleanupList, NoLongerSelected(w.cache[rule.name], rule), a.cleanupEnvs, w.nodes[n])
  {
    hide HasTaint, LeftBehind, SelectorChanged, Parses;
  }

  /** Counting on a truncated counter is counting, truncated. */
  lemma Int32Step(n: int)
    ensures Int32(Int32(n) + 1) == Int32(n + 1)
  {
  }

  lemma Int32Small(n: nat)
    requires n < 0x8000_0000
    ensures Int32(n) == n
  {
  }

  /** What a dry-run reconcile publishes is what a live reconcile on the same nodes would do. */
  lemma PublishedDryRunPredictsLive(w: World, name: string, a: Answers, live: Rule, envs: map<string, Env>)
    requires LiveRule(w, name) && w.rules[name].spec.dryRun && !NeedsSelectorCleanup(w, w.rules[name])
    requires Truthful(w, name, a) && Reconcile(w, name, a).1.Done?
    requires live.name == name && live.spec == w.rules[name].spec.(dryRun := false)
    requires NoTaintFailures(envs) && |a.passList| < 0x8000_0000
    ensures name in Reconcile(w, name, a).0.rules
    ensures var p := LivePass(w, live, a.passList, envs);
      Reconcile(w, name, a).0.rules[name].status.dryRun
        == Results(|p.applied|, Gained(a.passList, p.world.nodes, live.spec.taint),
                   Lost(a.passList, p.world.nodes, live.spec.taint), DryTally(live, a.passList).risky)
  {
    var rule := w.rules[name];
    DryRunPredictsLive(w, live, a.passList, envs);
    TallyIgnoresDryRun(rule, live, a.passList);
    TallyBounded(live, a.passList);
    var t := DryTally(live, a.passList);
    Int32Small(t.affected);
    Int32Small(t.adds);
    Int32Small(t.removes);
    Int32Small(t.risky);
  }

  lemma {:induction false} TallyIgnoresDryRun(rule: Rule, live: Rule, list: seq<Node>)
    requires live.spec == rule.spec.(dryRun := live.spec.dryRun)
    ensures DryTally(live, list) == DryTally(rule, list)
  {
    if list != [] {
      TallyIgnoresDryRun(rule, live, list[..|list| - 1]);
    }
  }

  lemma {:induction false} TallyBounded(rule: Rule, list: seq<Node>)
    ensures var t := DryTally(rule, list);
      t.affected <= |list| && t.adds + t.removes <= t.affected && t.risky <= t.affected
  {
    if list != [] {
      TallyBounded(rule, list[..|list| - 1]);
    }
  }

  /** The supporting invariant of deletion: a cached rule carries the finalizer or is marked deleted. */
  predicate CacheIsGuarded(w: World) {
    forall n :: n in w.cache ==> w.cache[n].finalizer || w.cache[n].deleting
  }

  lemma {:induction false} LivePassKeepsCache(w: World, rule: Rule, list: seq<Node>, envs: map<string, Env>)
    ensures LivePass(w, rule, list, envs).world.cache == w.cache && LivePass(w, rule, list, envs).world.rules == w.rules
  {
    if list != [] {
      LivePassKeepsCache(w, rule, list[..|list| - 1], envs);
    }
  }

  lemma {:induction false} CleanupKeepsCache(w: World, rule: Rule, list: seq<Node>, wanted: Node -> bool, envs: map<string, Env>)
    ensures CleanupPass(w, rule, list, wanted, envs).world.cache == w.cache
    ensures CleanupPass(w, rule, list, wanted, envs).world.rules == w.rules
    ensures CleanupPass(w, rule, list, wanted, envs).world.starts == w.starts
  {
    if list != [] {
      CleanupKeepsCache(w, rule, list[..|list| - 1], wanted, envs);
    }
  }

  lemma PreparedKeepsRules(w: World, rule: Rule, a: Answers)
    ensures Prepared(w, rule, a).world.rules == w.rules
  {
    hide CleanupPass, SelectorChanged;
    if NeedsSelectorCleanup(w, rule) {
      CleanupKeepsCache(w, rule, a.cleanupList, NoLongerSelected(w.cache[rule.name], rule), a.cleanupEnvs);
    }
  }

  lemma DeleteKeepsCacheGuarded(w: World, rule: Rule, a: Answers)
    requires CacheIsGuarded(w) && rule.deleting
    ensures CacheIsGuarded(DeleteRule(w, rule, a).0)
  {
    hide CleanupPass;
    CleanupKeepsCache(w.(cache := w.cache[rule.name := rule]), rule, a.cleanupList,
                      Selected(rule), a.cleanupEnvs);
  }

  lemma PreparedKeepsCacheGuarded(w: World, rule: Rule, a: Answers)
    requires CacheIsGuarded(w) && rule.finalizer
    ensures CacheIsGuarded(Prepared(w, rule, a).world)
  {
    hide CleanupPass, SelectorChanged;
    if NeedsSelectorCleanup(w, rule) {
      var previous := w.cache[rule.name];
      CleanupKeepsCache(w, rule, a.cleanupList, NoLongerSelected(previous, rule), a.cleanupEnvs);
    }
  }

  /** Every reconcile keeps it, whatever the API server answers. */
  lemma ReconcileKeepsCacheGuarded(w: World, name: string, a: Answers)
    requires CacheIsGuarded(w)
    ensures CacheIsGuarded(Reconcile(w, name, a).0)
  {
    hide DeleteRule, Prepared, LivePass, DryTally;
    if !a.getFails && name in w.rules {
      var rule := w.rules[name];
      if rule.deleting {
        DeleteKeepsCacheGuarded(w, rule, a);
      } else if rule.finalizer {
        PreparedKeepsCacheGuarded(w, rule, a);
        var live := rule.(status := rule.status.(dryRun := NoResults));
        LivePassKeepsCache(Prepared(w, rule, a).world, live, a.passList, a.passEnvs);
      }
    }
  }

  /** A successful delete leaves the taint on no selected node, the rule out of the cache and the finalizer removed. */
  lemma DeleteEndToEnd(w: World, name: string, a: Answers, n: string)
    requires name in w.rules && w.rules[name].name == name && w.rules[name].deleting
    requires Truthful(w, name, a) && Reconcile(w, name, a).1.Deleted? && n in w.nodes
    ensures n in Reconcile(w, name, a).0.nodes
    ensures var w', rule := Reconcile(w, name, a).0, w.rules[name];
      && w'.nodes[n] == (if AppliesTo(rule, w.nodes[n]) then Cleaned(rule, w.nodes[n]) else w.nodes[n])
      && (AppliesTo(rule, w'.nodes[n]) ==> !HasTaint(w'.nodes[n].taints, rule.spec.taint))
      && name !in w'.cache && name in w'.rules && !w'.rules[name].finalizer
  {
    hide CleanupPass;
    var rule := w.rules[name];
    var marked := w.(cache := w.cache[rule.name := rule]);
    CleanupIsComplete(marked, rule, a.cleanupList, Selected(rule), a.cleanupEnvs, n);
    RemoveTaintPresence(w.nodes[n].taints, rule.spec.taint, rule.spec.taint);
  }

  // ------------------------------------------------ a status that is too large

  /** The rule as a live pass gets it. */
  function Passed(rule: Rule): Rule {
    rule.(status := rule.status.(dryRun := NoResults))
  }

  /**
   * What becomes of the stored status, once a live reconcile came to its end: if the status of the pass fits into the
   * schema's limits and the call succeeds it is stored, and then, if the rest succeeds too, only existing nodes have
   * entries. Otherwise the reconcile stops before the cleanup of deleted nodes, and every stored entry stays.
   */
  lemma StatusIsStoredExactly(w: World, name: string, a: Answers)
    requires LiveRule(w, name) && !w.rules[name].spec.dryRun && Shaped(w.rules[name].status) && "" !in w.nodes
    requires Truthful(w, name, a) && !a.getFails && !Prepared(w, w.rules[name], a).failed && !a.passListFails
    requires Prepared(w, w.rules[name], a).world.nodes.Keys == w.nodes.Keys
    ensures var (w', result) := Reconcile(w, name, a);
      if !a.statusFails && PassFits(Passed(w.rules[name]), a.passList, a.passEnvs)
      then name in w'.rules && w'.rules[name].status.appliedNodes == ApplicableNames(Passed(w.rules[name]), a.passList)
           && (result.Done? ==> forall n :: Evaluated(w'.rules[name].status.evaluations, n) ==> n in w.nodes)
      else result.Error? && w'.rules == w.rules
  {
    hide CleanupPass, LivePass, SelectorChanged, Accepted, Shaped, PassFits, ApplicableNames, Evaluated;
    var rule, c := w.rules[name], Prepared(w, w.rules[name], a);
    PreparedKeepsRules(w, rule, a);
    LivePassKeepsCache(c.world, Passed(rule), a.passList, a.passEnvs);
    PassedIsShaped(rule);
    FinishedStatusIsAcceptedExactly(c.world, Passed(rule), a.passList, a.passEnvs);
    AppliedIsApplicable(c.world, Passed(rule), a.passList, a.passEnvs);
    LivePassKeys(c.world, Passed(rule), a.passList, a.passEnvs);
    var p := LivePass(c.world, Passed(rule), a.passList, a.passEnvs);
    PublishPrunes(p.world, Finished(p), a);
  }

  lemma PassedIsShaped(rule: Rule)
    ensures Shaped(rule.status) <==> Shaped(Passed(rule).status)
  {
  }

  lemma LivePassKeys(w: World, rule: Rule, list: seq<Node>, envs: map<string, Env>)
    requires Listed(list, w.nodes)
    ensures LivePass(w, rule, list, envs).world.nodes.Keys == w.nodes.Keys
  {
    if list == [] {
    } else {
      LivePassNode(w, rule, list, envs, list[|list| - 1].name);
    }
  }

  /** A successful end of a reconcile leaves entries of existing nodes only. */
  lemma PublishPrunes(w: World, rule: Rule, a: Answers)
    ensures var (w', result) := Publish(w, rule, a);
      if a.statusFails || rule.name !in w.rules || !Accepted(rule.status) then (w', result) == (w, Error)
      else rule.name in w'.rules && w'.rules[rule.name].status.appliedNodes == rule.status.appliedNodes
           && (result.Done? ==> forall n :: Evaluated(w'.rules[rule.name].status.evaluations, n) ==> n in w.nodes)
  {
    hide Accepted;
    var s, kept := rule.status.evaluations, EvaluationsIn(rule.status.evaluations, w.nodes.Keys);
    KeepExistingIsKeyed(s, w.nodes.Keys);
    forall n | Evaluated(kept, n) ensures n in w.nodes {
      var i :| 0 <= i < |kept| && kept[i].nodeName == n;
      assert kept[i] in kept;
    }
  }

  function SelectedNames(w: World, rule: Rule): set<string> {
    set n | n in w.nodes && AppliesTo(rule, w.nodes[n])
  }

  /** The stored entries, those of deleted nodes included, and the selected nodes are more than the status can hold. */
  predicate Overfull(w: World, name: string)
    requires name in w.rules
  {
    |EvaluatedNames(w.rules[name].status.evaluations) + SelectedNames(w, w.rules[name])| > MAX_ITEMS
  }

  /** Nodes keep names and labels. */
  predicate SameLabels(a: map<string, Node>, b: map<string, Node>) {
    a.Keys == b.Keys && forall n :: n in a ==> b[n].name == a[n].name && b[n].labels == a[n].labels
  }

  lemma PreparedKeepsLabels(w: World, rule: Rule, a: Answers)
    requires WellKeyed(w.nodes) && (!a.cleanupListFails ==> Snapshot(a.cleanupList, w.nodes))
    ensures SameLabels(w.nodes, Prepared(w, rule, a).world.nodes)
  {
    hide CleanupPass, SelectorChanged, Swept, Parses;
    if NeedsSelectorCleanup(w, rule) && !a.cleanupListFails && Parses(w.cache[rule.name].spec.nodeSelector) {
      var wanted := NoLongerSelected(w.cache[rule.name], rule);
      var after := CleanupPass(w, rule, a.cleanupList, wanted, a.cleanupEnvs).world.nodes;
      forall n | n in w.nodes
        ensures after.Keys == w.nodes.Keys && after[n].name == w.nodes[n].name && after[n].labels == w.nodes[n].labels
      {
        CleanupOfOneNode(w, rule, a.cleanupList, wanted, a.cleanupEnvs, n);
      }
      if w.nodes == map[] {
        CleanupKeys(w, rule, a.cleanupList, wanted, a.cleanupEnvs);
      } else {
        var n :| n in w.nodes;
        assert after.Keys == w.nodes.Keys;
      }
    }
  }

  lemma LivePassKeepsLabels(w: World, rule: Rule, list: seq<Node>, envs: map<string, Env>)
    requires Listed(list, w.nodes)
    ensures SameLabels(w.nodes, LivePass(w, rule, list, envs).world.nodes)
  {
    hide LivePass;
    LivePassKeys(w, rule, list, envs);
    forall n | n in w.nodes
      ensures var p := LivePass(w, rule, list, envs).world.nodes;
        n in p && p[n].name == w.nodes[n].name && p[n].labels == w.nodes[n].labels
    {
      LivePassNode(w, rule, list, envs, n);
    }
  }

  /** Every reconcile of a live rule keeps names and labels of the nodes. */
  lemma ReconcileKeepsLabels(w: World, name: string, a: Answers)
    requires LiveRule(w, name) && !w.rules[name].spec.dryRun && WellKeyed(w.nodes) && Truthful(w, name, a)
    ensures SameLabels(w.nodes, Reconcile(w, name, a).0.nodes)
  {
    hide LivePass, Prepared, PassFits, Snapshot, Publish, DeleteRule, Finished, WellKeyed, SameLabels;
    var rule, c := w.rules[name], Prepared(w, w.rules[name], a);
    PreparedKeepsLabels(w, rule, a);
    SameLabelsCompose(w.nodes, w.nodes, c.world.nodes);
    if !a.getFails && !c.failed && !a.passListFails {
      SnapshotIsListed(a.passList, c.world.nodes);
      var p := LivePass(c.world, Passed(rule), a.passList, a.passEnvs);
      LivePassKeepsLabels(c.world, Passed(rule), a.passList, a.passEnvs);
      SameLabelsCompose(w.nodes, c.world.nodes, p.world.nodes);
      PublishKeepsNodes(p.world, Finished(p), a);
    }
  }

  lemma SameLabelsCompose(a: map<string, Node>, b: map<string, Node>, c: map<string, Node>)
    ensures SameLabels(a, a)
    ensures SameLabels(a, b) && SameLabels(b, c) ==> SameLabels(a, c)
  {
  }

  lemma PublishKeepsNodes(w: World, rule: Rule, a: Answers)
    ensures Publish(w, rule, a).0.nodes == w.nodes
  {
  }

  lemma SnapshotIsListed(list: seq<Node>, nodes: map<string, Node>)
    requires Snapshot(list, nodes)
    ensures Listed(list, nodes)
  {
  }

  lemma {:induction false} ApplicableMembers(rule: Rule, list: seq<Node>, nodes: map<string, Node>)
    requires Listed(list, nodes)
    ensures forall n :: n in ApplicableNames(rule, list) <==> InList(list, n) && n in nodes && AppliesTo(rule, nodes[n])
  {
    hide AppliesTo;
    if list != [] {
      ApplicableMembers(rule, list[..|list| - 1], nodes);
    }
  }

  lemma {:induction false} CalmPassFailsNowhere(rule: Rule, list: seq<Node>, envs: map<string, Env>)
    requires NoTaintFailures(envs)
    ensures !SomeChangeFails(rule, list, envs)
  {
    if list != [] {
      CalmPassFailsNowhere(rule, list[..|list| - 1], envs);
    }
  }

  /** A pass over too many names, none of which fails, does not fit. */
  lemma OverfullDoesNotFit(w: World, nodes: map<string, Node>, name: string, list: seq<Node>, envs: map<string, Env>)
    requires name in w.rules && Overfull(w, name)
    requires SameLabels(w.nodes, nodes) && Snapshot(list, nodes) && NoTaintFailures(envs)
    ensures !PassFits(Passed(w.rules[name]), list, envs)
  {
    hide ManagedNames, ApplicableNames, SomeChangeFails, EvaluatedNames, FailedNames, FailingNames, Listed, InList, Selects;
    var rule := Passed(w.rules[name]);
    CalmPassFailsNowhere(rule, list, envs);
    ManagedIsApplicableExactly(rule, list, envs);
    ApplicableMembers(rule, list, nodes);
    assert (set n | n in ManagedNames(rule, list, envs)) == SelectedNames(w, w.rules[name]);
  }

  function Reconciles(w: World, name: string, answers: seq<Answers>): World {
    if answers == [] then w
    else Reconcile(Reconciles(w, name, answers[..|answers| - 1]), name, answers[|answers| - 1]).0
  }

  /** Every reconcile of the run is answered with listings of the nodes as they then are, and changes no taint in vain. */
  predicate AllTruthful(w: World, name: string, answers: seq<Answers>) {
    answers != [] ==>
      var front, last := answers[..|answers| - 1], answers[|answers| - 1];
      && AllTruthful(w, name, front)
      && Truthful(Reconciles(w, name, front), name, last) && NoTaintFailures(last.passEnvs)
  }

  /**
   * A rule whose stored entries, with those of deleted nodes, and selected nodes together exceed the limit is stuck.
   * However often it is reconciled, no status is stored and no entry of a deleted node goes: the cleanup that would
   * make room comes only after the status update that has none.
   */
  lemma {:induction false} OverfullRuleIsStuck(w: World, name: string, answers: seq<Answers>)
    requires LiveRule(w, name) && !w.rules[name].spec.dryRun && Shaped(w.rules[name].status)
    requires WellKeyed(w.nodes) && "" !in w.nodes && Overfull(w, name) && AllTruthful(w, name, answers)
    ensures Reconciles(w, name, answers).rules == w.rules && SameLabels(w.nodes, Reconciles(w, name, answers).nodes)
    ensures forall a :: Truthful(Reconciles(w, name, answers), name, a) && NoTaintFailures(a.passEnvs)
              ==> Reconcile(Reconciles(w, name, answers), name, a).1.Error?
  {
    hide Reconcile, Truthful, Shaped, Overfull;
    if answers != [] {
      var front, last := answers[..|answers| - 1], answers[|answers| - 1];
      OverfullRuleIsStuck(w, name, front);
      StuckStep(w, Reconciles(w, name, front), name, last);
    }
    var v := Reconciles(w, name, answers);
    forall a | Truthful(v, name, a) && NoTaintFailures(a.passEnvs) ensures Reconcile(v, name, a).1.Error? {
      StuckStep(w, v, name, a);
    }
  }

  lemma StuckStep(start: World, w: World, name: string, a: Answers)
    requires LiveRule(start, name) && !start.rules[name].spec.dryRun && Shaped(start.rules[name].status)
    requires WellKeyed(start.nodes) && "" !in start.nodes && Overfull(start, name)
    requires w.rules == start.rules && SameLabels(start.nodes, w.nodes)
    requires Truthful(w, name, a) && NoTaintFailures(a.passEnvs)
    ensures Reconcile(w, name, a).1.Error? && Reconcile(w, name, a).0.rules == start.rules
    ensures SameLabels(start.nodes, Reconcile(w, name, a).0.nodes)
  {
    hide CleanupPass, LivePass, SelectorChanged, Snapshot, Shaped, PassFits, PassOver, Publish, Overfull;
    var rule, c := w.rules[name], Prepared(w, w.rules[name], a);
    ReconcileKeepsLabels(w, name, a);
    PreparedKeepsRules(w, rule, a);
    if !a.getFails && !c.failed && !a.passListFails {
      PreparedKeepsLabels(w, rule, a);
      OverfullDoesNotFit(start, c.world.nodes, name, a.passList, a.passEnvs);
      StatusIsStoredExactly(w, name, a);
    }
  }

  // ---------------------------------------------------- how a reconcile ends

  /** A rule that is not stored any more leaves the cache; nothing else changes. */
  lemma GoneRuleLeavesTheCache(w: World, name: string, a: Answers)
    requires !a.getFails && name !in w.rules
    ensures var (w', result) := Reconcile(w, name, a);
      && result == Gone && w' == w.(cache := w'.cache) && name !in w'.cache
      && forall k :: k != name ==> (k in w'.cache <==> k in w.cache) && (k in w.cache ==> w'.cache[k] == w.cache[k])
  {
  }

  /** The first reconcile of a new rule gives the stored rule the finalizer, or fails, and does nothing else. */
  lemma NewRuleIsGuarded(w: World, name: string, a: Answers)
    requires !a.getFails && name in w.rules && !w.rules[name].deleting && !w.rules[name].finalizer
    ensures var (w', result) := Reconcile(w, name, a);
      if a.finalizerFails then (w', result) == (w, Error)
      else
        && result == FinalizerAdded && w' == w.(rules := w'.rules) && w'.rules.Keys == w.rules.Keys
        && w'.rules[name].finalizer && w'.rules[name].(finalizer := false) == w.rules[name]
        && forall k :: k in w.rules && k != name ==> w'.rules[k] == w.rules[k]
  {
  }

  /** Whatever the API server answers, no rule is processed that is not guarded by the finalizer. */
  lemma ProcessedRulesAreGuarded(w: World, name: string, a: Answers)
    requires name in w.rules ==> w.rules[name].name == name
    ensures var (w', result) := Reconcile(w, name, a);
      result != Error && result != Gone && result != Deleted ==> name in w'.rules && w'.rules[name].finalizer
  {
    hide CleanupPass, LivePass, DryTally, SelectorChanged, Accepted, EvaluationsIn, Parses;
    if !a.getFails && name in w.rules {
      PreparedKeepsRules(w, w.rules[name], a);
      LivePassKeepsCache(Prepared(w, w.rules[name], a).world, Passed(w.rules[name]), a.passList, a.passEnvs);
    }
  }

  /** No call that the reconcile makes fails. */
  predicate Smooth(w: World, name: string, a: Answers) {
    && !a.getFails && !a.finalizerFails && !a.statusFails && !a.pruneListFails && !a.pruneFails
    && NoTaintFailures(a.cleanupEnvs) && NoTaintFailures(a.passEnvs)
    && (name in w.rules ==>
          var rule := w.rules[name];
          && (rule.deleting || (rule.finalizer && NeedsSelectorCleanup(w, rule)) ==> !a.cleanupListFails)
          && (rule.finalizer && !rule.deleting && !Prepared(w, rule, a).failed ==> !a.passListFails))
  }

  /** An old selector that does not parse keeps the taint on the nodes it chose, and the new rule from being processed. */
  predicate Unparsable(w: World, rule: Rule) {
    NeedsSelectorCleanup(w, rule) && !Parses(w.cache[rule.name].spec.nodeSelector)
  }

  /**
   * How a reconcile ends when no call fails: a rule that is gone is forgotten, a new one guarded, one marked deleted is
   * released, and any other is processed to the end, unless the old selector does not parse or the status does not fit.
   */
  lemma ReconcileEndsExactly(w: World, name: string, a: Answers)
    requires Smooth(w, name, a) && Truthful(w, name, a) && WellKeyed(w.nodes) && "" !in w.nodes
    requires name in w.rules ==> w.rules[name].name == name && Accepted(w.rules[name].status)
    ensures Reconcile(w, name, a).1 ==
      if name !in w.rules then Gone
      else
        var rule := w.rules[name];
        if rule.deleting then Deleted
        else if !rule.finalizer then FinalizerAdded
        else if Unparsable(w, rule) || (!rule.spec.dryRun && !PassFits(Passed(rule), a.passList, a.passEnvs)) then Error
        else Done
  {
    hide CleanupPass, LivePass, DryTally, SelectorChanged, Snapshot, Shaped, Fits, PassFits, EvaluationsIn, Parses, WellKeyed;
    if name in w.rules {
      var rule := w.rules[name];
      if rule.deleting {
        SnapshotIsListed(a.cleanupList, w.nodes);
        var marked := w.(cache := w.cache[rule.name := rule]);
        CalmCleanupSucceeds(marked, rule, a.cleanupList, Selected(rule), a.cleanupEnvs);
        CleanupKeepsCache(marked, rule, a.cleanupList, Selected(rule), a.cleanupEnvs);
      } else if rule.finalizer {
        PreparedSucceedsExactly(w, rule, a);
        PreparedKeepsLabels(w, rule, a);
        PreparedKeepsRules(w, rule, a);
        if !Unparsable(w, rule) {
          LiveEndsExactly(w, name, a);
        }
      }
    }
  }

  lemma PreparedSucceedsExactly(w: World, rule: Rule, a: Answers)
    requires NoTaintFailures(a.cleanupEnvs) && (NeedsSelectorCleanup(w, rule) ==> !a.cleanupListFails)
    requires !a.cleanupListFails ==> Snapshot(a.cleanupList, w.nodes)
    ensures Prepared(w, rule, a).failed <==> Unparsable(w, rule)
  {
    hide CleanupPass, SelectorChanged, Parses;
    if NeedsSelectorCleanup(w, rule) && Parses(w.cache[rule.name].spec.nodeSelector) {
      CalmCleanupSucceeds(w, rule, a.cleanupList, NoLongerSelected(w.cache[rule.name], rule), a.cleanupEnvs);
    }
  }

  lemma LiveEndsExactly(w: World, name: string, a: Answers)
    requires LiveRule(w, name) && Accepted(w.rules[name].status) && "" !in w.nodes && Truthful(w, name, a)
    requires !a.getFails && !Prepared(w, w.rules[name], a).failed && !a.passListFails
    requires !a.statusFails && !a.pruneListFails && !a.pruneFails
    requires Prepared(w, w.rules[name], a).world.nodes.Keys == w.nodes.Keys
    ensures var rule := w.rules[name];
      Reconcile(w, name, a).1
        == if !rule.spec.dryRun && !PassFits(Passed(rule), a.passList, a.passEnvs) then Error else Done
  {
    hide CleanupPass, LivePass, DryTally, SelectorChanged, Snapshot, Shaped, Fits, PassFits, EvaluationsIn, Parses, Prepared;
    var rule, c := w.rules[name], Prepared(w, w.rules[name], a);
    PreparedKeepsRules(w, rule, a);
    LivePassKeepsCache(c.world, Passed(rule), a.passList, a.passEnvs);
    SnapshotIsListed(a.passList, c.world.nodes);
    PassedIsShaped(rule);
    FinishedStatusIsAcceptedExactly(c.world, Passed(rule), a.passList, a.passEnvs);
    DryStatusIsAccepted(rule, a.passList);
  }

  lemma DryStatusIsAccepted(rule: Rule, list: seq<Node>)
    ensures Accepted(DryRunStatus(rule, list).status) <==> Accepted(rule.status)
  {
  }

  /** A deletion stops at the first stage that fails: before the end of it the rule stays guarded, whatever was cleaned. */
  lemma UnfinishedDeletionStaysGuarded(w: World, name: string, a: Answers)
    requires name in w.rules && w.rules[name].name == name && w.rules[name].deleting && w.rules[name].finalizer
    requires !Reconcile(w, name, a).1.Deleted?
    ensures var (w', result) := Reconcile(w, name, a);
      && result == Error && w'.rules == w.rules
      && (!a.getFails && RuleCleanup(w.(cache := w.cache[name := w.rules[name]]), w.rules[name], a).failed ==>
            name in w'.cache && w'.cache[name] == w.rules[name])
  {
    hide CleanupPass;
    var marked := w.(cache := w.cache[name := w.rules[name]]);
    CleanupKeepsCache(marked, w.rules[name], a.cleanupList, Selected(w.rules[name]), a.cleanupEnvs);
  }

  // ------------------------------------------------ what is stored of a pass

  /**
   * The stored status after a successful reconcile, dry or live: generation, applied nodes, failures and dry-run results
   * are those of the pass, and of its entries exactly those of existing nodes are kept, as they are and in their order.
   */
  lemma StoredStatusExactly(w: World, name: string, a: Answers)
    requires LiveRule(w, name) && Truthful(w, name, a) && Reconcile(w, name, a).1.Done?
    requires Prepared(w, w.rules[name], a).world.nodes.Keys == w.nodes.Keys
    ensures name in Reconcile(w, name, a).0.rules
    ensures var s := PassOver(Prepared(w, w.rules[name], a).world, w.rules[name], a).1.status;
      var stored := Reconcile(w, name, a).0.rules[name];
      && stored == w.rules[name].(status := stored.status)
      && stored.status == s.(evaluations := stored.status.evaluations)
      && stored.status.observedGeneration == w.rules[name].generation
      && (if w.rules[name].spec.dryRun
          then s == w.rules[name].status.(observedGeneration := s.observedGeneration, dryRun := s.dryRun) && s.dryRun.Results?
          else s.dryRun == NoResults && s.appliedNodes == ApplicableNames(w.rules[name], a.passList))
      && stored.status.evaluations == EvaluationsIn(s.evaluations, w.nodes.Keys)
      && (forall e :: e in stored.status.evaluations <==> e in s.evaluations && e.nodeName in w.nodes)
  {
    hide CleanupPass, LivePass, SelectorChanged, Accepted, EvaluationsIn, DryTally, Snapshot, Prepared;
    var rule, c := w.rules[name], Prepared(w, w.rules[name], a);
    PreparedKeepsRules(w, rule, a);
    LivePassKeepsCache(c.world, Passed(rule), a.passList, a.passEnvs);
    SnapshotIsListed(a.passList, c.world.nodes);
    LivePassKeys(c.world, Passed(rule), a.passList, a.passEnvs);
    var (w', rule') := PassOver(c.world, rule, a);
    KeepExistingIsKeyed(rule'.status.evaluations, w.nodes.Keys);
    AppliedIsApplicable(c.world, Passed(rule), a.passList, a.passEnvs);
    PassedApplicable(rule, a.passList);
  }

  lemma {:induction false} PassedApplicable(rule: Rule, list: seq<Node>)
    ensures ApplicableNames(Passed(rule), list) == ApplicableNames(rule, list)
  {
    if list != [] {
      PassedApplicable(rule, list[..|list| - 1]);
    }
  }

  lemma FirstEntry(e: NodeEvaluation, rest: seq<NodeEvaluation>, n: string)
    ensures Evaluated([e] + rest, n) <==> e.nodeName == n || Evaluated(rest, n)
    ensures EvaluationOf([e] + rest, n) == if e.nodeName == n then e else EvaluationOf(rest, n)
  {
    EvaluatedByMember([e] + rest, n);
    EvaluatedByMember(rest, n);
    assert ([e] + rest)[1..] == rest;
  }

  lemma {:induction false} EntryOfExisting(s: seq<NodeEvaluation>, names: set<string>, n: string)
    requires n in names
    ensures EvaluationOf(EvaluationsIn(s, names), n) == EvaluationOf(s, n)
    ensures Evaluated(EvaluationsIn(s, names), n) <==> Evaluated(s, n)
    decreases |s|
  {
    hide EvaluationOf, Evaluated;
    var kept := (e: NodeEvaluation) => e.nodeName in names;
    if s != [] {
      var first, rest := s[0], s[1..];
      EntryOfExisting(rest, names, n);
      assert s == [first] + rest;
      FilterSum([first], rest, kept);
      assert [first][..0] == [];
      FirstEntry(first, rest, n);
      FirstEntry(first, EvaluationsIn(rest, names), n);
      assert EvaluationsIn(s, names) == (if kept(first) then [first] else []) + EvaluationsIn(rest, names);
      assert [] + EvaluationsIn(rest, names) == EvaluationsIn(rest, names);
    }
  }

  lemma EvaluatedByMember(s: seq<NodeEvaluation>, n: string)
    ensures Evaluated(s, n) <==> exists e :: e in s && e.nodeName == n
  {
    if Evaluated(s, n) {
      var i :| 0 <= i < |s| && s[i].nodeName == n;
      assert s[i] in s;
    }
  }

  /**
   * The stored entries after a successful live reconcile, node by node: a selected node whose change was not refused has
   * the entry of its evaluation, any other existing node keeps the entry it had, if any, and no other node has one.
   */
  lemma StoredEntriesExactly(w: World, name: string, a: Answers, n: string)
    requires LiveRule(w, name) && !w.rules[name].spec.dryRun && "" !in w.nodes
    requires Shaped(w.rules[name].status) && Truthful(w, name, a) && Reconcile(w, name, a).1.Done?
    ensures name in Reconcile(w, name, a).0.rules
    ensures var before, after := w.rules[name].status.evaluations, Reconcile(w, name, a).0.rules[name].status.evaluations;
      var managed := n in w.nodes && AppliesTo(w.rules[name], w.nodes[n])
                     && !(NeedsChange(w.rules[name].spec, w.nodes[n]) && EnvAt(a.passEnvs, n).taintFails);
      && (Evaluated(after, n) <==> n in w.nodes && (managed || Evaluated(before, n)))
      && (n in w.nodes ==>
            EvaluationOf(after, n) == if managed then EntryFor(w.rules[name], w.nodes[n]) else EvaluationOf(before, n))
  {
    hide CleanupPass, LivePass, SelectorChanged, EvaluationsIn, Snapshot, Prepared, Reconcile, Shaped,
         ManagedNames, FailingNames, EvaluationOf, Evaluated, EntryFor, NeedsChange, AppliesTo;
    var rule, c := w.rules[name], Prepared(w, w.rules[name], a);
    PreparedKeepsKeys(w, rule, a);
    DoneWasPrepared(w, name, a);
    StoredStatusExactly(w, name, a);
    SnapshotIsListed(a.passList, c.world.nodes);
    PassedIsShaped(rule);
    LivePassKeepsShape(c.world, Passed(rule), a.passList, a.passEnvs);
    var s := LivePass(c.world, Passed(rule), a.passList, a.passEnvs).rule.status.evaluations;
    if n in w.nodes {
      EntryOfExisting(s, w.nodes.Keys, n);
      PreparedNodeIsAlike(w, rule, a, n);
      SnapshotHolds(a.passList, c.world.nodes, n);
      ManagedMember(Passed(rule), a.passList, a.passEnvs, c.world.nodes, n);
      LivePassEntry(c.world, Passed(rule), a.passList, a.passEnvs, n);
      if n !in ManagedNames(Passed(rule), a.passList, a.passEnvs) {
        LivePassKeepsOtherEntries(c.world, Passed(rule), a.passList, a.passEnvs, n);
      }
      PassedIsAlike(rule, c.world.nodes[n], EnvAt(a.passEnvs, n));
    } else {
      EvaluatedByMember(Reconcile(w, name, a).0.rules[name].status.evaluations, n);
    }
  }

  lemma PreparedKeepsKeys(w: World, rule: Rule, a: Answers)
    requires !a.cleanupListFails ==> Snapshot(a.cleanupList, w.nodes)
    ensures Prepared(w, rule, a).world.nodes.Keys == w.nodes.Keys
  {
    hide CleanupPass, SelectorChanged, Parses;
    if NeedsSelectorCleanup(w, rule) && !a.cleanupListFails {
      var wanted := NoLongerSelected(w.cache[rule.name], rule);
      if w.nodes == map[] {
        CleanupKeys(w, rule, a.cleanupList, wanted, a.cleanupEnvs);
      } else {
        var n :| n in w.nodes;
        CleanupIsComplete(w, rule, a.cleanupList, wanted, a.cleanupEnvs, n);
      }
    }
  }

  lemma DoneWasPrepared(w: World, name: string, a: Answers)
    requires LiveRule(w, name) && Reconcile(w, name, a).1.Done?
    ensures !a.getFails && !Prepared(w, w.rules[name], a).failed && !a.passListFails
  {
    hide Prepared, PassOver, Publish;
  }

  lemma SnapshotHolds(list: seq<Node>, nodes: map<string, Node>, n: string)
    requires Snapshot(list, nodes) && n in nodes
    ensures InList(list, n)
  {
  }

  lemma {:induction false} ManagedMember(rule: Rule, list: seq<Node>, envs: map<string, Env>, nodes: map<string, Node>, n: string)
    requires Listed(list, nodes) && n in nodes
    ensures n in ManagedNames(rule, list, envs)
       <==> InList(list, n) && AppliesTo(rule, nodes[n]) && !ChangeFails(rule, nodes[n], EnvAt(envs, n))
  {
    hide AppliesTo, ChangeFails;
    if list != [] {
      ManagedMember(rule, list[..|list| - 1], envs, nodes, n);
    }
  }

  lemma PassedIsAlike(rule: Rule, node: Node, env: Env)
    ensures AppliesTo(Passed(rule), node) == AppliesTo(rule, node)
    ensures ChangeFails(Passed(rule), node, env) == (NeedsChange(rule.spec, node) && env.taintFails)
    ensures EntryFor(Passed(rule), node) == EntryFor(rule, node)
  {
  }

  /** A node that the rule selects comes through the selector cleanup as it was; any other keeps its conditions. */
  lemma PreparedNodeIsAlike(w: World, rule: Rule, a: Answers, n: string)
    requires n in w.nodes && !Prepared(w, rule, a).failed
    requires !a.cleanupListFails ==> Snapshot(a.cleanupList, w.nodes)
    ensures n in Prepared(w, rule, a).world.nodes
    ensures var after := Prepared(w, rule, a).world.nodes[n];
      && (AppliesTo(rule, after) <==> AppliesTo(rule, w.nodes[n]))
      && (AppliesTo(rule, w.nodes[n]) ==> after == w.nodes[n])
  {
    hide Prepared, SelectorChanged, Selects, Matches;
    PreparedNode(w, rule, a, n);
  }

  // ----------------------------------------------------- the life of a new rule

  /**
   * Two reconciles bring a new rule into effect. When no call fails and the status fits, the first guards the stored rule
   * and the second caches the guarded rule and gives every selected node the taint exactly when it reports some other
   * status than one that is required.
   */
  lemma NewRuleTakesEffect(w: World, name: string, a: Answers, b: Answers, n: string)
    requires name in w.rules && w.rules[name].name == name && !w.rules[name].deleting && !w.rules[name].finalizer
    requires name !in w.cache && WellKeyed(w.nodes) && "" !in w.nodes && n in w.nodes
    requires !w.rules[name].spec.dryRun && Accepted(w.rules[name].status) && w.rules[name].status.failedNodes == []
    requires Smooth(w, name, a)
    requires var once := Reconcile(w, name, a).0;
      && name in once.rules && Smooth(once, name, b) && Truthful(once, name, b)
      && PassFits(Passed(once.rules[name]), b.passList, b.passEnvs)
    ensures Reconcile(w, name, a).1 == FinalizerAdded && Reconcile(Reconcile(w, name, a).0, name, b).1 == Done
    ensures n in Reconcile(Reconcile(w, name, a).0, name, b).0.nodes
    ensures var twice := Reconcile(Reconcile(w, name, a).0, name, b).0;
      && name in twice.cache && twice.cache[name] == w.rules[name].(finalizer := true)
      && name in twice.rules && twice.rules[name].finalizer
      && (AppliesTo(w.rules[name], w.nodes[n]) ==>
            (HasTaint(twice.nodes[n].taints, w.rules[name].spec.taint)
             <==> exists i :: 0 <= i < |w.rules[name].spec.conditions| && Unmet(w.nodes[n], w.rules[name].spec.conditions[i])))
      && (!AppliesTo(w.rules[name], w.nodes[n]) ==> twice.nodes[n] == w.nodes[n])
  {
    hide Reconcile, Smooth, Truthful, PassFits, Prepared, LivePass, Shaped, Fits, HasTaint, Met, Unmet, Selects, WellKeyed;
    var once, rule := Reconcile(w, name, a).0, w.rules[name];
    SmoothCalls(w, name, a);
    NewRuleIsGuarded(w, name, a);
    var guarded := once.rules[name];
    NotCachedNotChanged(once, guarded);
    ReconcileEndsExactly(once, name, b);
    DoneWasPrepared(once, name, b);
    LiveReconcileEndToEnd(once, name, b, n);
    ProcessedRulesAreGuarded(once, name, b);
    NothingFailed(once, name, b, n);
    MetMeansReported(rule.spec, w.nodes[n]);
    NotDropped(once, guarded, w.nodes[n]);
  }

  lemma SmoothCalls(w: World, name: string, a: Answers)
    requires Smooth(w, name, a)
    ensures !a.getFails && !a.finalizerFails && NoTaintFailures(a.passEnvs)
  {
  }

  lemma NotCachedNotChanged(w: World, rule: Rule)
    requires rule.name !in w.cache
    ensures !NeedsSelectorCleanup(w, rule) && !Unparsable(w, rule)
  {
  }

  lemma NotDropped(w: World, rule: Rule, node: Node)
    requires !NeedsSelectorCleanup(w, rule)
    ensures !Dropped(w, rule, node)
  {
  }

  /** A live reconcile without a refused change adds no failure. */
  lemma NothingFailed(w: World, name: string, a: Answers, n: string)
    requires LiveRule(w, name) && !w.rules[name].spec.dryRun && Shaped(w.rules[name].status) && "" !in w.nodes
    requires w.rules[name].status.failedNodes == [] && Smooth(w, name, a) && Truthful(w, name, a)
    requires Reconcile(w, name, a).1.Done?
    ensures name in Reconcile(w, name, a).0.rules
    ensures !Failed(Reconcile(w, name, a).0.rules[name].status.failedNodes, n)
  {
    hide Prepared, LivePass, Shaped, Snapshot, Reconcile, ManagedNames, SomeChangeFails;
    var rule, c := w.rules[name], Prepared(w, w.rules[name], a);
    PreparedKeepsKeys(w, rule, a);
    DoneWasPrepared(w, name, a);
    StoredStatusExactly(w, name, a);
    SnapshotIsListed(a.passList, c.world.nodes);
    PassedIsShaped(rule);
    LivePassKeepsShape(c.world, Passed(rule), a.passList, a.passEnvs);
    NoneFailing(Passed(rule), a.passList, a.passEnvs);
  }

  lemma {:induction false} NoneFailing(rule: Rule, list: seq<Node>, envs: map<string, Env>)
    requires NoTaintFailures(envs)
    ensures FailingNames(rule, list, envs) == []
  {
    if list != [] {
      NoneFailing(rule, list[..|list| - 1], envs);
    }
  }
}
