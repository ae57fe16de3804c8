// Deleting a rule: the staged finalizer protocol of the rule reconciler, interleaved with the node reconciler,
// users, other writers and crashes.
module Deletion {
  import opened Common
  import opened NodeModel
  import opened RuleModel
  import opened Evaluation
  import opened Passes
  import Reconciler

  // ------------------------------------------------------------------- state

  /** What changes of a rule during its life. Its conditions, mode, taint and selector are immutable. */
  datatype Marks = Marks(finalizer: bool, deleting: bool, dryRun: bool)

  /** Where the rule reconciler is. A listing is a copy of the nodes as they were. */
  datatype Phase =
    | Idle
    | Got(rule: Marks)
    | Listing(sweep: bool)
    | Live(todo: map<string, Node>)
    | Sweep(todo: map<string, Node>, failed: bool)
    | DroppingCache
    | DroppingFinalizer

  /** The held rule is the one the node reconciler took from the cache and has not evaluated yet. */
  datatype State = State(stored: Option<Marks>, cached: Option<Marks>, nodes: map<string, Node>,
                         phase: Phase, held: Option<Marks>, released: bool)

  datatype Step =
    | UserCreate(dryRun: bool)
    | UserDelete
    | UserEdit(dryRun: bool)
    | Purge
    | NodeJoin(name: string, node: Node)
    | NodeLeave(name: string)
    | NodeChange(name: string, node: Node)
    | Restart
    | RuleGet(fails: bool)
    | RuleGuardOrCache(fails: bool)
    | RuleList(fails: bool)
    | RuleNode(name: string, fails: bool)
    | RuleEnd
    | RuleDropCache
    | RuleDropFinalizer(fails: bool)
    | NodeLookup
    | NodeFinish(copy: Node, fails: bool)

  predicate Chosen(spec: RuleSpec, node: Node) {
    Selects(spec.nodeSelector, node.labels)
  }

  predicate Tainted(spec: RuleSpec, node: Node) {
    HasTaint(node.taints, spec.taint)
  }

  /** A stored node after an evaluation that read some copy of it. */
  function Touch(spec: RuleSpec, stored: Node, copy: Node): Node {
    if !NeedsChange(spec, copy) then stored
    else if Met(spec, copy) then stored.(taints := RemoveTaint(stored.taints, spec.taint))
    else stored.(taints := AddTaint(stored.taints, spec.taint))
  }

  lemma ActTouches(w: World, rule: Rule, node: Node, env: Env, n: string)
    requires n in w.nodes && node.name in w.nodes
    ensures var w' := Act(w, rule, node, env).0;
      && n in w'.nodes
      && w'.nodes[n].(annotations := w.nodes[n].annotations)
           == if n == node.name then Touch(rule.spec, w.nodes[n], node) else w.nodes[n]
  {
    hide Met, HasTaint, RemoveTaint, Bump, CompletedKey, BootstrapStartKey, Evaluated;
    var stored, t := w.nodes[node.name], rule.spec.taint;
    if !HasTaint(stored.taints, t) {
      RemoveAbsentTaint(stored.taints, t);
    }
  }

  /** Touch is what one evaluation does to labels, conditions and taints of the stored nodes. */
  lemma EvaluationTouches(w: World, rule: Rule, node: Node, env: Env, n: string)
    requires n in w.nodes
    ensures var w' := Evaluate(w, rule, node, env).world;
      && n in w'.nodes
      && w'.nodes[n].(annotations := w.nodes[n].annotations)
           == if n == node.name && !Evaluate(w, rule, node, env).failed then Touch(rule.spec, w.nodes[n], node)
              else w.nodes[n]
  {
    hide Met, HasTaint, WithEvaluation, ResultsOf, RemoveTaint, Bump, CompletedKey, BootstrapStartKey, Evaluated;
    if node.name in w.nodes {
      hide Act, Touch;
      ActTouches(w, rule, node, env, n);
    }
  }

  /** The sweep's removal is what the cleanup of one node does. */
  lemma CleanNodeSweeps(c: Cleanup, rule: Rule, node: Node, env: Env)
    requires node.name in c.world.nodes && HasTaint(node.taints, rule.spec.taint)
    ensures var c', stored := CleanNode(c, rule, node, env), c.world.nodes[node.name];
      && c'.failed == (c.failed || env.taintFails)
      && c'.world.nodes == if env.taintFails then c.world.nodes
                           else c.world.nodes[node.name := Cleaned(rule, stored)]
  {
    var stored := c.world.nodes[node.name];
    if !HasTaint(stored.taints, rule.spec.taint) {
      RemoveAbsentTaint(stored.taints, rule.spec.taint);
      assert c.world.nodes == c.world.nodes[node.name := stored];
    }
  }

  // ------------------------------------------------------------- transitions

  /** A step that is not enabled changes nothing. */
  function Next(spec: RuleSpec, s: State, step: Step): State {
    match step
    case UserCreate(dryRun) =>
      if s.stored.None? && !s.released then s.(stored := Some(Marks(false, false, dryRun))) else s
    case UserDelete =>
      if s.stored.None? then s
      else if s.stored.value.finalizer || s.stored.value.deleting
        then s.(stored := Some(s.stored.value.(deleting := true)))
      else s.(stored := None)
    case UserEdit(dryRun) =>
      if s.stored.None? then s else s.(stored := Some(s.stored.value.(dryRun := dryRun)))
    case Purge =>
      if s.stored.Some? && s.stored.value.deleting && !s.stored.value.finalizer then s.(stored := None) else s
    case NodeJoin(name, node) =>
      if name in s.nodes || Tainted(spec, node) then s else s.(nodes := s.nodes[name := node])
    case NodeLeave(name) =>
      s.(nodes := s.nodes - {name})
    case NodeChange(name, node) =>
      if name !in s.nodes || node.labels != s.nodes[name].labels || Tainted(spec, node) != Tainted(spec, s.nodes[name])
      then s else s.(nodes := s.nodes[name := node])
    case Restart =>
      s.(cached := None, phase := Idle, held := None)
    case NodeLookup =>
      s.(held := s.cached)
    case NodeFinish(copy, fails) =>
      NodeEvaluates(spec, s, copy, fails).(held := None)
    case _ => RuleNext(spec, s, step)
  }

  function NodeEvaluates(spec: RuleSpec, s: State, copy: Node, fails: bool): State {
    if fails || s.held.None? || s.held.value.deleting || s.held.value.dryRun || !Chosen(spec, copy)
       || copy.name !in s.nodes then s
    else s.(nodes := s.nodes[copy.name := Touch(spec, s.nodes[copy.name], copy)])
  }

  /** The steps of the rule reconciler. */
  function RuleNext(spec: RuleSpec, s: State, step: Step): State {
    match step
    case RuleGet(fails) =>
      if !s.phase.Idle? || fails then s
      else if s.stored.None? then s.(cached := None)
      else s.(phase := Got(s.stored.value))
    case RuleGuardOrCache(fails) =>
      if !s.phase.Got? then s
      else
        var rule := s.phase.rule;
        if !rule.deleting && !rule.finalizer then
          if fails || s.stored.None? || s.stored.value.deleting then s.(phase := Idle)
          else s.(phase := Idle, stored := Some(s.stored.value.(finalizer := true)))
        else s.(cached := Some(rule), phase := if !rule.deleting && rule.dryRun then Idle else Listing(rule.deleting))
    case RuleList(fails) =>
      if !s.phase.Listing? then s
      else if fails then s.(phase := Idle)
      else s.(phase := if s.phase.sweep then Sweep(s.nodes, false) else Live(s.nodes))
    case RuleNode(name, fails) =>
      if s.phase.Live? && name in s.phase.todo then
        var copy := s.phase.todo[name];
        var s' := s.(phase := Live(s.phase.todo - {name}));
        if fails || !Chosen(spec, copy) || name !in s.nodes then s'
        else s'.(nodes := s.nodes[name := Touch(spec, s.nodes[name], copy)])
      else if s.phase.Sweep? && name in s.phase.todo then
        var copy, todo := s.phase.todo[name], s.phase.todo - {name};
        if !Chosen(spec, copy) || !Tainted(spec, copy) then s.(phase := Sweep(todo, s.phase.failed))
        else if fails || name !in s.nodes then s.(phase := Sweep(todo, true))
        else
          var stored := s.nodes[name];
          s.(phase := Sweep(todo, s.phase.failed),
             nodes := s.nodes[name := stored.(taints := RemoveTaint(stored.taints, spec.taint))])
      else s
    case RuleEnd =>
      if s.phase.Live? && s.phase.todo == map[] then s.(phase := Idle)
      else if s.phase.Sweep? && s.phase.todo == map[] then
        s.(phase := if s.phase.failed then Idle else DroppingCache)
      else s
    case RuleDropCache =>
      if s.phase.DroppingCache? then s.(cached := None, phase := DroppingFinalizer) else s
    case RuleDropFinalizer(fails) =>
      if !s.phase.DroppingFinalizer? then s
      else if fails || s.stored.None? then s.(phase := Idle)
      else s.(stored := Some(s.stored.value.(finalizer := false)), phase := Idle, released := true)
    case _ => s
  }

  function Run(spec: RuleSpec, s: State, steps: seq<Step>): State {
    if steps == [] then s else Next(spec, Run(spec, s, steps[..|steps| - 1]), steps[|steps| - 1])
  }

  predicate Initial(s: State) {
    && s.cached.None? && s.held.None? && s.phase.Idle? && !s.released
    && (s.stored.Some? && s.stored.value.deleting ==> s.stored.value.finalizer)
  }

  // --------------------------------------------------------------- invariant

  /** No node the rule selects carries its taint. */
  predicate Clean(spec: RuleSpec, nodes: map<string, Node>) {
    forall n :: n in nodes ==> !(Chosen(spec, nodes[n]) && Tainted(spec, nodes[n]))
  }

  /** Every selected node with the taint is one of these. */
  predicate CleanBut(spec: RuleSpec, nodes: map<string, Node>, owed: set<string>) {
    forall n :: n in nodes && Chosen(spec, nodes[n]) && Tainted(spec, nodes[n]) ==> n in owed
  }

  /** Every other selected node with the taint is still to be swept. */
  predicate Covered(spec: RuleSpec, nodes: map<string, Node>, todo: map<string, Node>, owed: set<string>) {
    forall n :: n in nodes && Chosen(spec, nodes[n]) && Tainted(spec, nodes[n]) ==>
      n in owed || (n in todo && Chosen(spec, todo[n]) && Tainted(spec, todo[n]))
  }

  /** The rule is marked deleted, or already gone for good. */
  predicate Doomed(s: State) {
    s.released || (s.stored.Some? && s.stored.value.deleting)
  }

  /** No evaluation can add the taint from the cache. */
  predicate Muted(s: State) {
    s.cached.None? || s.cached.value.deleting
  }

  /** A cached rule carries the finalizer or is marked deleted. */
  predicate Guarded(s: State) {
    s.cached.Some? ==> s.cached.value.finalizer || s.cached.value.deleting
  }

  predicate PhaseOk(spec: RuleSpec, s: State, owed: set<string>) {
    match s.phase
    case Idle => true
    case Got(rule) => if rule.deleting then Doomed(s) else !s.released
    case Listing(sweep) => if sweep then Doomed(s) && Muted(s) else !s.released
    case Live(_) => !s.released
    case Sweep(todo, failed) => Doomed(s) && Muted(s) && (failed || Covered(spec, s.nodes, todo, owed))
    case _ => Doomed(s) && Muted(s) && CleanBut(spec, s.nodes, owed)
  }

  /** The invariant of the protocol, but for some nodes on which it owes the removal of the taint. */
  predicate InvBut(spec: RuleSpec, s: State, owed: set<string>) {
    && Guarded(s)
    && (s.stored.Some? && s.stored.value.deleting && !s.released ==> s.stored.value.finalizer)
    && (s.released ==> (s.stored.None? || s.stored.value.deleting) && Muted(s) && CleanBut(spec, s.nodes, owed))
    && PhaseOk(spec, s, owed)
  }

  predicate Inv(spec: RuleSpec, s: State) {
    InvBut(spec, s, {})
  }

  lemma InvIsKeptByRule(spec: RuleSpec, s: State, step: Step, owed: set<string>)
    requires InvBut(spec, s, owed)
    ensures InvBut(spec, RuleNext(spec, s, step), owed)
  {
    hide HasTaint, Selects, NeedsChange, Met, RemoveTaint, AddTaint;
    if step.RuleNode? && step.name in s.nodes {
      RemoveTaintPresence(s.nodes[step.name].taints, spec.taint, spec.taint);
    }
  }

  // ------------------------------------------------------------ late evaluations

  /** The evaluation of the held rule puts the taint on a selected node. */
  predicate AddsTaint(spec: RuleSpec, s: State, step: Step) {
    && step.NodeFinish? && !step.fails
    && s.held.Some? && !s.held.value.deleting && !s.held.value.dryRun
    && Chosen(spec, step.copy) && !Met(spec, step.copy) && !Tainted(spec, step.copy)
    && step.copy.name in s.nodes && Chosen(spec, s.nodes[step.copy.name])
  }

  /**
   * It comes too late: the rule was released, or is about to be, or the sweep that has not failed so far has passed
   * the node.
   */
  predicate Late(spec: RuleSpec, s: State, step: Step) {
    AddsTaint(spec, s, step) &&
      match s.phase
      case Sweep(todo, failed) =>
        var n := step.copy.name;
        s.released || (!failed && !(n in todo && Chosen(spec, todo[n]) && Tainted(spec, todo[n])))
      case DroppingCache => true
      case DroppingFinalizer => true
      case _ => s.released
  }

  lemma TouchOfChosen(spec: RuleSpec, s: State, step: Step)
    requires step.NodeFinish?
    ensures var s' := Next(spec, s, step);
      && s'.nodes.Keys == s.nodes.Keys
      && (forall n :: n in s.nodes ==> s'.nodes[n].labels == s.nodes[n].labels)
      && (forall n :: n in s.nodes && Chosen(spec, s.nodes[n]) && Tainted(spec, s'.nodes[n]) ==>
            Tainted(spec, s.nodes[n]) || (n == step.copy.name && AddsTaint(spec, s, step)))
      && (AddsTaint(spec, s, step) ==> Tainted(spec, s'.nodes[step.copy.name]))
      && s' == s.(nodes := s'.nodes, held := None)
  {
    hide HasTaint, Selects, Met, RemoveTaint, AddTaint;
    if step.copy.name in s.nodes {
      RemoveTaintPresence(s.nodes[step.copy.name].taints, spec.taint, spec.taint);
      AddTaintPresence(s.nodes[step.copy.name].taints, spec.taint, spec.taint);
    }
  }

  /** Every step but a late evaluation keeps the invariant; a late one breaks it. */
  lemma InvIsKeptExactly(spec: RuleSpec, s: State, step: Step)
    requires Inv(spec, s)
    ensures Inv(spec, Next(spec, s, step)) <==> !Late(spec, s, step)
  {
    hide HasTaint, Selects, Touch, RuleNext, NodeEvaluates, AddsTaint, Tainted;
    if step.NodeFinish? {
      hide Next;
      TouchOfChosen(spec, s, step);
      if AddsTaint(spec, s, step) {
        ChosenWhenAdded(spec, s, step);
      }
    } else {
      NotLate(spec, s, step);
      InvIsKeptByRule(spec, s, step, {});
    }
  }

  lemma NotLate(spec: RuleSpec, s: State, step: Step)
    requires !step.NodeFinish?
    ensures !Late(spec, s, step)
  {
  }

  lemma ChosenWhenAdded(spec: RuleSpec, s: State, step: Step)
    requires AddsTaint(spec, s, step)
    ensures step.copy.name in s.nodes && Chosen(spec, s.nodes[step.copy.name])
  {
  }

  /** Once the rule was released, the evaluation of a held rule keeps the nodes clean if and only if it adds no taint. */
  lemma CleanAfterReleaseExactly(spec: RuleSpec, s: State, step: Step)
    requires Inv(spec, s) && s.released && step.NodeFinish?
    ensures Clean(spec, Next(spec, s, step).nodes) <==> !AddsTaint(spec, s, step)
  {
    hide HasTaint, Selects, Touch, NodeEvaluates, AddsTaint, Tainted, Next;
    TouchOfChosen(spec, s, step);
    if AddsTaint(spec, s, step) {
      ChosenWhenAdded(spec, s, step);
    }
  }

  /** No evaluation of the run comes too late. */
  predicate NoneLate(spec: RuleSpec, s: State, steps: seq<Step>) {
    steps != [] ==>
      && NoneLate(spec, s, steps[..|steps| - 1])
      && !Late(spec, Run(spec, s, steps[..|steps| - 1]), steps[|steps| - 1])
  }

  lemma {:induction false} InvAlways(spec: RuleSpec, s: State, steps: seq<Step>)
    requires Initial(s) && NoneLate(spec, s, steps)
    ensures Inv(spec, Run(spec, s, steps))
  {
    hide Next, Inv, Late;
    if steps == [] {
      InvAtStart(spec, s);
    } else {
      InvAlways(spec, s, steps[..|steps| - 1]);
      InvIsKeptExactly(spec, Run(spec, s, steps[..|steps| - 1]), steps[|steps| - 1]);
    }
  }

  lemma InvAtStart(spec: RuleSpec, s: State)
    requires Initial(s)
    ensures Inv(spec, s)
  {
  }

  /** The node reconciler evaluates the rule it finds in the cache, as if lookup and evaluation were one step. */
  predicate Coherent(spec: RuleSpec, s: State, steps: seq<Step>) {
    steps != [] ==>
      var before := Run(spec, s, steps[..|steps| - 1]);
      && Coherent(spec, s, steps[..|steps| - 1])
      && (steps[|steps| - 1].NodeFinish? ==> before.held == before.cached)
  }

  /** Then no evaluation comes too late. */
  lemma {:induction false} CoherentIsNeverLate(spec: RuleSpec, s: State, steps: seq<Step>)
    requires Initial(s) && Coherent(spec, s, steps)
    ensures NoneLate(spec, s, steps)
  {
    hide Next, Inv, Late;
    if steps != [] {
      var front, last := steps[..|steps| - 1], steps[|steps| - 1];
      CoherentIsNeverLate(spec, s, front);
      InvAlways(spec, s, front);
      AtomicIsNotLate(spec, Run(spec, s, front), last);
    }
  }

  lemma AtomicIsNotLate(spec: RuleSpec, s: State, step: Step)
    requires Inv(spec, s) && (step.NodeFinish? ==> s.held == s.cached)
    ensures !Late(spec, s, step)
  {
    hide HasTaint, Selects, Met;
  }

  // --------------------------------------------------------------- main result

  lemma {:induction false} PrefixIsNeverLate(spec: RuleSpec, s: State, steps: seq<Step>, i: nat)
    requires NoneLate(spec, s, steps) && i <= |steps|
    ensures NoneLate(spec, s, steps[..i])
  {
    hide Late;
    if i < |steps| {
      assert steps[..|steps| - 1][..i] == steps[..i];
      PrefixIsNeverLate(spec, s, steps[..|steps| - 1], i);
    } else {
      assert steps[..i] == steps;
    }
  }

  lemma {:induction false} ReleaseIsForGood(spec: RuleSpec, s: State, steps: seq<Step>, i: nat, j: nat)
    requires i <= j <= |steps| && Run(spec, s, steps[..i]).released
    ensures Run(spec, s, steps[..j]).released
  {
    if i < j {
      ReleaseIsForGood(spec, s, steps, i, j - 1);
      assert steps[..j][..j - 1] == steps[..j - 1];
    }
  }

  /**
   * Deletion safety. In a run without a late evaluation: once the controller has removed the finalizer, then at that
   * moment and at every later one no node the rule selects carries its taint. No step re-adds it, not after crashes,
   * retries, or another reconcile.
   */
  lemma DeletionIsSafe(spec: RuleSpec, s: State, steps: seq<Step>, i: nat, j: nat)
    requires Initial(s) && NoneLate(spec, s, steps)
    requires i <= j <= |steps| && Run(spec, s, steps[..i]).released
    ensures Clean(spec, Run(spec, s, steps[..j]).nodes)
  {
    PrefixIsNeverLate(spec, s, steps, j);
    InvAlways(spec, s, steps[..j]);
    ReleaseIsForGood(spec, s, steps, i, j);
  }

  // ------------------------------------------ which late evaluations end well

  /**
   * The nodes on which the removal of the taint is owed: a late evaluation put it there, and since then neither another
   * evaluation nor a repeated sweep took it off, nor did the node go away.
   */
  function Owed(spec: RuleSpec, s: State, steps: seq<Step>): set<string> {
    if steps == [] then {}
    else
      var front, last := steps[..|steps| - 1], steps[|steps| - 1];
      StillTainted(spec, Run(spec, s, steps).nodes, Owes(spec, Run(spec, s, front), last, Owed(spec, s, front)))
  }

  function Owes(spec: RuleSpec, s: State, step: Step, owed: set<string>): set<string> {
    if Late(spec, s, step) then owed + {step.copy.name} else owed
  }

  function StillTainted(spec: RuleSpec, nodes: map<string, Node>, owed: set<string>): set<string> {
    set n | n in owed && n in nodes && Chosen(spec, nodes[n]) && Tainted(spec, nodes[n])
  }

  lemma StepOwes(spec: RuleSpec, s: State, step: Step, owed: set<string>)
    requires InvBut(spec, s, owed)
    ensures InvBut(spec, Next(spec, s, step), Owes(spec, s, step, owed))
  {
    hide HasTaint, Selects, Touch, RuleNext, NodeEvaluates, AddsTaint, Tainted;
    if step.NodeFinish? {
      hide Next;
      TouchOfChosen(spec, s, step);
    } else {
      NotLate(spec, s, step);
      InvIsKeptByRule(spec, s, step, owed);
    }
  }

  lemma OnlyTaintedAreOwed(spec: RuleSpec, s: State, owed: set<string>)
    requires InvBut(spec, s, owed)
    ensures InvBut(spec, s, StillTainted(spec, s.nodes, owed))
  {
    hide HasTaint, Selects;
  }

  lemma {:induction false} InvButOwed(spec: RuleSpec, s: State, steps: seq<Step>)
    requires Initial(s)
    ensures InvBut(spec, Run(spec, s, steps), Owed(spec, s, steps))
  {
    hide Next, InvBut, Late, StillTainted, Owes;
    if steps == [] {
      InvAtStart(spec, s);
    } else {
      var front, last := steps[..|steps| - 1], steps[|steps| - 1];
      InvButOwed(spec, s, front);
      StepOwes(spec, Run(spec, s, front), last, Owed(spec, s, front));
      OnlyTaintedAreOwed(spec, Run(spec, s, steps), Owes(spec, Run(spec, s, front), last, Owed(spec, s, front)));
    }
  }

  /**
   * Deletion safety without any condition on the run: once the rule is released, the nodes it selects are clean if and
   * only if the taint of every late evaluation, before or after the release, has been taken off again.
   */
  lemma CleanOnceReleasedExactly(spec: RuleSpec, s: State, steps: seq<Step>)
    requires Initial(s) && Run(spec, s, steps).released
    ensures Clean(spec, Run(spec, s, steps).nodes) <==> Owed(spec, s, steps) == {}
  {
    hide Next, Late, PhaseOk, Run;
    InvButOwed(spec, s, steps);
    OwedAreTainted(spec, s, steps);
    if Clean(spec, Run(spec, s, steps).nodes) {
      assert forall n :: n !in Owed(spec, s, steps);
    }
  }

  lemma OwedAreTainted(spec: RuleSpec, s: State, steps: seq<Step>)
    ensures forall n :: n in Owed(spec, s, steps) ==>
      n in Run(spec, s, steps).nodes && Chosen(spec, Run(spec, s, steps).nodes[n]) && Tainted(spec, Run(spec, s, steps).nodes[n])
  {
    hide Next, Late, Owes, Chosen, Tainted;
  }

  /** A run without late evaluations owes nothing. */
  lemma {:induction false} NoneLateOwesNothing(spec: RuleSpec, s: State, steps: seq<Step>)
    requires NoneLate(spec, s, steps)
    ensures Owed(spec, s, steps) == {}
  {
    hide Next, Late;
    if steps != [] {
      NoneLateOwesNothing(spec, s, steps[..|steps| - 1]);
    }
  }

  // --------------------------------------------------------- after the release

  predicate AlwaysClean(spec: RuleSpec, s: State, steps: seq<Step>) {
    && (steps != [] ==> AlwaysClean(spec, s, steps[..|steps| - 1]))
    && Clean(spec, Run(spec, s, steps).nodes)
  }

  predicate NeverAdds(spec: RuleSpec, s: State, steps: seq<Step>) {
    steps != [] ==>
      && NeverAdds(spec, s, steps[..|steps| - 1])
      && !AddsTaint(spec, Run(spec, s, steps[..|steps| - 1]), steps[|steps| - 1])
  }

  /**
   * After the release the condition is exact for whole runs: the nodes are clean at every moment if and only if no
   * evaluation of a rule held from before adds the taint to a selected node.
   */
  lemma {:induction false} CleanEverAfterExactly(spec: RuleSpec, s: State, steps: seq<Step>)
    requires Inv(spec, s) && s.released
    ensures AlwaysClean(spec, s, steps) <==> NeverAdds(spec, s, steps)
    ensures NeverAdds(spec, s, steps) ==> Inv(spec, Run(spec, s, steps)) && Run(spec, s, steps).released
  {
    hide Next, Inv, Clean, AddsTaint, Late;
    if steps == [] {
      CleanWhenReleased(spec, s);
    } else {
      var front, last := steps[..|steps| - 1], steps[|steps| - 1];
      CleanEverAfterExactly(spec, s, front);
      if NeverAdds(spec, s, front) {
        var v := Run(spec, s, front);
        LateAfterRelease(spec, v, last);
        InvIsKeptExactly(spec, v, last);
        ReleasedStays(spec, v, last);
        if Inv(spec, Next(spec, v, last)) {
          CleanWhenReleased(spec, Next(spec, v, last));
        } else {
          AddingIsFinishing(spec, v, last);
          CleanAfterReleaseExactly(spec, v, last);
        }
      }
    }
  }

  lemma CleanWhenReleased(spec: RuleSpec, s: State)
    requires Inv(spec, s) && s.released
    ensures Clean(spec, s.nodes)
  {
  }

  lemma LateAfterRelease(spec: RuleSpec, s: State, step: Step)
    requires s.released
    ensures Late(spec, s, step) <==> AddsTaint(spec, s, step)
  {
  }

  lemma AddingIsFinishing(spec: RuleSpec, s: State, step: Step)
    ensures AddsTaint(spec, s, step) ==> step.NodeFinish?
  {
  }

  lemma ReleasedStays(spec: RuleSpec, s: State, step: Step)
    requires s.released
    ensures Next(spec, s, step).released
  {
  }

  /** Throughout, a cached rule carries the finalizer or is marked deleted: that is what makes the sweep unavoidable. */
  lemma CachedRuleIsGuarded(spec: RuleSpec, s: State, steps: seq<Step>)
    requires Initial(s) && NoneLate(spec, s, steps)
    ensures Guarded(Run(spec, s, steps))
  {
    InvAlways(spec, s, steps);
  }

  /** The rule object cannot disappear, once it carries the finalizer, before the nodes are clean. */
  lemma FinalizerHoldsTheRule(spec: RuleSpec, s: State, steps: seq<Step>, i: nat)
    requires Initial(s) && NoneLate(spec, s, steps) && i < |steps|
    requires Run(spec, s, steps[..i]).stored.Some? && Run(spec, s, steps[..i]).stored.value.finalizer
    requires Run(spec, s, steps[..i + 1]).stored.None? || !Run(spec, s, steps[..i + 1]).stored.value.finalizer
    ensures Run(spec, s, steps[..i + 1]).released && Clean(spec, Run(spec, s, steps[..i + 1]).nodes)
  {
    hide NoneLate, Next, Inv, Clean;
    assert steps[..i + 1][..i] == steps[..i];
    PrefixIsNeverLate(spec, s, steps, i);
    InvAlways(spec, s, steps[..i]);
    FinalizerStep(spec, Run(spec, s, steps[..i]), steps[i]);
  }

  lemma CleanButNone(spec: RuleSpec, nodes: map<string, Node>)
    ensures CleanBut(spec, nodes, {}) <==> Clean(spec, nodes)
  {
  }

  lemma FinalizerStep(spec: RuleSpec, s: State, step: Step)
    requires Inv(spec, s) && s.stored.Some? && s.stored.value.finalizer
    requires var s' := Next(spec, s, step); s'.stored.None? || !s'.stored.value.finalizer
    ensures Next(spec, s, step).released && Clean(spec, Next(spec, s, step).nodes)
  {
    hide Clean, CleanBut, Covered, Touch, HasTaint, Selects, RemoveTaint;
    CleanButNone(spec, s.nodes);
  }

  // --------------------------------------------------- a late evaluation, step by step

  const START := State(None, None, map[], Idle, None, false)

  lemma Extended(spec: RuleSpec, steps: seq<Step>, step: Step) returns (longer: seq<Step>)
    ensures longer == steps + [step] && Run(spec, START, longer) == Next(spec, Run(spec, START, steps), step)
  {
    longer := steps + [step];
    assert longer[..|longer| - 1] == steps;
  }

  function LiveOn(node: Node): State {
    State(Some(Marks(true, false, false)), Some(Marks(true, false, false)), map[node.name := node], Idle, None, false)
  }

  function DeletedOn(node: Node): State {
    State(Some(Marks(false, true, false)), None, map[node.name := node], Idle, Some(Marks(true, false, false)), true)
  }

  /** A rule is created, guarded and cached, and a node joins. */
  lemma RuleIsCached(spec: RuleSpec, node: Node) returns (steps: seq<Step>)
    requires !Tainted(spec, node)
    ensures Run(spec, START, steps) == LiveOn(node)
  {
    hide Run, HasTaint, Selects;
    RunNothing(spec);
    steps := Extended(spec, [], UserCreate(false));
    steps := Extended(spec, steps, RuleGet(false));
    steps := Extended(spec, steps, RuleGuardOrCache(false));
    assert Run(spec, START, steps) == START.(stored := Some(Marks(true, false, false)));
    steps := Extended(spec, steps, RuleGet(false));
    steps := Extended(spec, steps, RuleGuardOrCache(false));
    steps := Extended(spec, steps, RuleList(false));
    steps := Extended(spec, steps, RuleEnd);
    steps := Extended(spec, steps, NodeJoin(node.name, node));
  }

  lemma RunNothing(spec: RuleSpec)
    ensures Run(spec, START, []) == START
  {
  }

  lemma SweepWhileHeld(spec: RuleSpec, node: Node, before: seq<Step>) returns (steps: seq<Step>)
    requires Chosen(spec, node) && !Tainted(spec, node)
    requires var live := Some(Marks(true, false, false));
      Run(spec, START, before) == LiveOn(node).(stored := Some(Marks(true, true, false)), held := live)
    ensures var live, doomed := Some(Marks(true, false, false)), Some(Marks(true, true, false));
      Run(spec, START, steps) == State(doomed, doomed, map[node.name := node], Sweep(map[], false), live, false)
  {
    hide Run, HasTaint, Selects, Met, AddTaint, RemoveTaint;
    var live, doomed := Some(Marks(true, false, false)), Some(Marks(true, true, false));
    var nodes := map[node.name := node];
    steps := Extended(spec, before, RuleGet(false));
    steps := Extended(spec, steps, RuleGuardOrCache(false));
    steps := Extended(spec, steps, RuleList(false));
    assert Run(spec, START, steps) == State(doomed, doomed, nodes, Sweep(nodes, false), live, false);
    assert nodes - {node.name} == map[];
    steps := Extended(spec, steps, RuleNode(node.name, false));
  }

  /** The node reconciler takes the rule from the cache, and the rule is deleted to the end. */
  lemma DeletedWhileHeld(spec: RuleSpec, node: Node) returns (steps: seq<Step>)
    requires Chosen(spec, node) && !Tainted(spec, node)
    ensures Run(spec, START, steps) == DeletedOn(node)
  {
    hide Run, HasTaint, Selects, Met, AddTaint, RemoveTaint;
    steps := RuleIsCached(spec, node);
    steps := Extended(spec, steps, NodeLookup);
    steps := Extended(spec, steps, UserDelete);
    steps := SweepWhileHeld(spec, node, steps);
    steps := Extended(spec, steps, RuleEnd);
    steps := Extended(spec, steps, RuleDropCache);
    steps := Extended(spec, steps, RuleDropFinalizer(false));
  }

  /**
   * From the very start: a rule is created and cached, the node reconciler takes it from the cache, the rule is deleted
   * to the end, and only then the node is evaluated. The taint comes back after the finalizer was removed, and no rule
   * is left that would remove it.
   */
  lemma LateEvaluationReaddsTheTaint(spec: RuleSpec, node: Node) returns (steps: seq<Step>)
    requires Chosen(spec, node) && !Met(spec, node) && !Tainted(spec, node)
    ensures Initial(START)
    ensures var end := Run(spec, START, steps);
      end.released && end.cached.None? && !Clean(spec, end.nodes)
  {
    hide Run, HasTaint, Selects, Met, AddTaint, RemoveTaint;
    steps := DeletedWhileHeld(spec, node);
    steps := Extended(spec, steps, NodeFinish(node, false));
    AddTaintPresence(node.taints, spec.taint, spec.taint);
    assert node.name in Run(spec, START, steps).nodes;
  }

  // ------------------------------- the protocol's steps are those of a reconcile

  /** Annotations play no part in the protocol. */
  function Bare(node: Node): Node {
    node.(annotations := map[])
  }

  function Bared(nodes: map<string, Node>): map<string, Node> {
    map n | n in nodes :: Bare(nodes[n])
  }

  function Seen(rules: map<string, Rule>, name: string): Option<Marks> {
    if name in rules then Some(Marks(rules[name].finalizer, rules[name].deleting, rules[name].spec.dryRun)) else None
  }

  /** What the protocol sees of a world. */
  predicate Mirrors(s: State, w: World, name: string) {
    s.stored == Seen(w.rules, name) && s.cached == Seen(w.cache, name) && s.nodes == Bared(w.nodes)
  }

  /** One step for each listed node. */
  function Visits(list: seq<Node>, envs: map<string, Env>): seq<Step> {
    if list == [] then []
    else
      var last := list[|list| - 1];
      Visits(list[..|list| - 1], envs) + [RuleNode(last.name, EnvAt(envs, last.name).taintFails)]
  }

  function Remaining(nodes: map<string, Node>, list: seq<Node>): map<string, Node> {
    map n | n in nodes && !InList(list, n) :: nodes[n]
  }

  lemma {:induction false} RunSum(spec: RuleSpec, s: State, a: seq<Step>, b: seq<Step>)
    ensures Run(spec, s, a + b) == Run(spec, Run(spec, s, a), b)
  {
    if b == [] {
      assert a + b == a;
    } else {
      RunSum(spec, s, a, b[..|b| - 1]);
      assert (a + b)[..|a + b| - 1] == a + b[..|b| - 1];
    }
  }

  lemma RunOne(spec: RuleSpec, s: State, step: Step)
    ensures Run(spec, s, [step]) == Next(spec, s, step)
  {
    assert [step][..0] == [];
  }

  lemma BaredUpdate(nodes: map<string, Node>, name: string, node: Node)
    ensures Bared(nodes[name := node]) == Bared(nodes)[name := Bare(node)]
  {
  }

  lemma RemainingLess(nodes: map<string, Node>, list: seq<Node>)
    requires list != []
    ensures Remaining(nodes, list) == Remaining(nodes, list[..|list| - 1]) - {list[|list| - 1].name}
  {
  }

  lemma TouchIsAfterPass(rule: Rule, node: Node, env: Env)
    ensures Bare(AfterPass(rule, node, env)) ==
      if env.taintFails || !Chosen(rule.spec, Bare(node)) then Bare(node) else Touch(rule.spec, Bare(node), Bare(node))
  {
    hide AllMet, HasTaint, RemoveTaint, Selects;
    if !HasTaint(node.taints, rule.spec.taint) {
      RemoveAbsentTaint(node.taints, rule.spec.taint);
    }
  }

  /** One visit to a node that is stored as it was listed. */
  lemma LiveVisit(spec: RuleSpec, v: State, node: Node, fails: bool, now: map<string, Node>)
    requires v.phase.Live? && node.name in v.phase.todo && v.phase.todo[node.name] == Bare(node)
    requires v.nodes == Bared(now) && node.name in Bared(now) && Bared(now)[node.name] == Bare(node)
    ensures Next(spec, v, RuleNode(node.name, fails)) == v.(
      phase := Live(v.phase.todo - {node.name}),
      nodes := Bared(now)[node.name :=
        if fails || !Chosen(spec, Bare(node)) then Bare(node) else Touch(spec, Bare(node), Bare(node))])
  {
    hide Touch, Chosen, Bared;
    assert v.nodes[node.name := Bare(node)] == v.nodes;
  }

  lemma SweepVisit(spec: RuleSpec, v: State, node: Node, fails: bool, now: map<string, Node>)
    requires v.phase.Sweep? && node.name in v.phase.todo && v.phase.todo[node.name] == Bare(node)
    requires v.nodes == Bared(now) && node.name in Bared(now) && Bared(now)[node.name] == Bare(node)
    ensures var hit := Chosen(spec, Bare(node)) && Tainted(spec, Bare(node));
      Next(spec, v, RuleNode(node.name, fails)) == v.(
        phase := Sweep(v.phase.todo - {node.name}, v.phase.failed || (hit && fails)),
        nodes := Bared(now)[node.name :=
          if hit && !fails then Bare(node).(taints := RemoveTaint(node.taints, spec.taint)) else Bare(node)])
  {
    hide Chosen, Tainted, RemoveTaint, Bared;
    assert v.nodes[node.name := Bare(node)] == v.nodes;
  }

  /** Visiting a listing node by node is the live pass over it. */
  lemma {:induction false} LiveVisits(s: State, w: World, rule: Rule, list: seq<Node>, envs: map<string, Env>)
    requires Listed(list, w.nodes) && s.nodes == Bared(w.nodes) && s.phase == Live(Bared(w.nodes))
    ensures Run(rule.spec, s, Visits(list, envs)) ==
      s.(nodes := Bared(LivePass(w, rule, list, envs).world.nodes), phase := Live(Remaining(Bared(w.nodes), list)))
  {
    hide Next, LivePass, AfterPass, Touch, Chosen, Bare, Bared, Remaining;
    if list == [] {
      RemainingOfNone(Bared(w.nodes));
      NothingPassed(w, rule, envs);
    } else {
      var front, node := list[..|list| - 1], list[|list| - 1];
      var now, env := LivePass(w, rule, front, envs).world.nodes, EnvAt(envs, node.name);
      LiveVisits(s, w, rule, front, envs);
      PassOneMore(w, rule, list, envs);
      TouchIsAfterPass(rule, node, env);
      RemainingLess(Bared(w.nodes), list);
      assert Visits(list, envs)[..|Visits(front, envs)|] == Visits(front, envs);
      VisitedNode(w.nodes, now, front, node);
      LiveVisit(rule.spec, Run(rule.spec, s, Visits(front, envs)), node, env.taintFails, now);
      BaredUpdate(now, node.name, AfterPass(rule, node, env));
    }
  }

  lemma NothingPassed(w: World, rule: Rule, envs: map<string, Env>)
    ensures LivePass(w, rule, [], envs).world == w
  {
  }

  lemma PassOneMore(w: World, rule: Rule, list: seq<Node>, envs: map<string, Env>)
    requires Listed(list, w.nodes) && list != []
    ensures var front, node := list[..|list| - 1], list[|list| - 1];
      var now := LivePass(w, rule, front, envs).world.nodes;
      && node.name in w.nodes && w.nodes[node.name] == node && !InList(front, node.name) && Listed(front, w.nodes)
      && node.name in now && now[node.name] == node
      && LivePass(w, rule, list, envs).world.nodes == now[node.name := AfterPass(rule, node, EnvAt(envs, node.name))]
  {
    hide Process, AfterPass, AppliesTo, ChangeFails;
    var front, node := list[..|list| - 1], list[|list| - 1];
    var p, env := LivePass(w, rule, front, envs), EnvAt(envs, node.name);
    LivePassNode(w, rule, front, envs, node.name);
    AfterPassDependsOnSpec(rule, p.rule, node, env);
    if AppliesTo(rule, node) {
      ProcessStored(p.world, p.rule, node, env);
    } else {
      assert p.world.nodes[node.name := node] == p.world.nodes;
    }
  }

  lemma RemainingOfNone(nodes: map<string, Node>)
    ensures Remaining(nodes, []) == nodes
  {
  }

  /** The next node of a listing is still to be visited, as it was listed and as it is stored. */
  lemma VisitedNode(nodes: map<string, Node>, now: map<string, Node>, front: seq<Node>, node: Node)
    requires node.name in nodes && nodes[node.name] == node && !InList(front, node.name)
    requires node.name in now && now[node.name] == node
    ensures node.name in Bared(now) && Bared(now)[node.name] == Bare(node)
    ensures node.name in Remaining(Bared(nodes), front) && Remaining(Bared(nodes), front)[node.name] == Bare(node)
  {
  }

  /** And when it sweeps, it is the cleanup. */
  lemma {:induction false} SweepVisits(s: State, w: World, rule: Rule, list: seq<Node>, envs: map<string, Env>)
    requires Listed(list, w.nodes) && s.nodes == Bared(w.nodes) && s.phase == Sweep(Bared(w.nodes), false)
    ensures var c := CleanupPass(w, rule, list, Reconciler.Selected(rule), envs);
      Run(rule.spec, s, Visits(list, envs)) ==
        s.(nodes := Bared(c.world.nodes), phase := Sweep(Remaining(Bared(w.nodes), list), c.failed))
  {
    hide Next, CleanupPass, HasTaint, RemoveTaint, Chosen, Tainted, Bare, Bared, Remaining;
    if list == [] {
      RemainingOfNone(Bared(w.nodes));
      NothingCleaned(w, rule, envs);
    } else {
      var front, node := list[..|list| - 1], list[|list| - 1];
      var c, env := CleanupPass(w, rule, front, Reconciler.Selected(rule), envs), EnvAt(envs, node.name);
      SweepVisits(s, w, rule, front, envs);
      CleanOneMore(w, rule, list, envs);
      RemainingLess(Bared(w.nodes), list);
      assert Visits(list, envs)[..|Visits(front, envs)|] == Visits(front, envs);
      VisitedNode(w.nodes, c.world.nodes, front, node);
      SweepVisit(rule.spec, Run(rule.spec, s, Visits(front, envs)), node, env.taintFails, c.world.nodes);
      ChosenIsSelected(rule, node);
      var hit := AppliesTo(rule, node) && HasTaint(node.taints, rule.spec.taint);
      BaredUpdate(c.world.nodes, node.name, if hit && !env.taintFails then Cleaned(rule, node) else node);
    }
  }

  lemma NothingCleaned(w: World, rule: Rule, envs: map<string, Env>)
    ensures CleanupPass(w, rule, [], Reconciler.Selected(rule), envs) == Cleanup(w, false)
  {
  }

  lemma CleanOneMore(w: World, rule: Rule, list: seq<Node>, envs: map<string, Env>)
    requires Listed(list, w.nodes) && list != []
    ensures var front, node := list[..|list| - 1], list[|list| - 1];
      var c, c' := CleanupPass(w, rule, front, Reconciler.Selected(rule), envs),
                   CleanupPass(w, rule, list, Reconciler.Selected(rule), envs);
      var hit, fails := AppliesTo(rule, node) && HasTaint(node.taints, rule.spec.taint), EnvAt(envs, node.name).taintFails;
      && node.name in w.nodes && w.nodes[node.name] == node && !InList(front, node.name) && Listed(front, w.nodes)
      && node.name in c.world.nodes && c.world.nodes[node.name] == node
      && c'.failed == (c.failed || (hit && fails))
      && c'.world.nodes == c.world.nodes[node.name := if hit && !fails then Cleaned(rule, node) else node]
  {
    hide CleanNode, HasTaint, RemoveTaint, Cleaned;
    var front, node := list[..|list| - 1], list[|list| - 1];
    var c, env := CleanupPass(w, rule, front, Reconciler.Selected(rule), envs), EnvAt(envs, node.name);
    CleanupIsComplete(w, rule, front, Reconciler.Selected(rule), envs, node.name);
    assert c.world.nodes[node.name := node] == c.world.nodes;
    if HasTaint(node.taints, rule.spec.taint) {
      CleanNodeSweeps(c, rule, node, env);
    } else {
      UntaintedIsLeft(c, rule, node, env);
    }
  }

  lemma UntaintedIsLeft(c: Cleanup, rule: Rule, node: Node, env: Env)
    requires !HasTaint(node.taints, rule.spec.taint)
    ensures CleanNode(c, rule, node, env) == c
  {
  }

  lemma ChosenIsSelected(rule: Rule, node: Node)
    ensures Chosen(rule.spec, Bare(node)) <==> AppliesTo(rule, node)
    ensures Tainted(rule.spec, Bare(node)) <==> HasTaint(node.taints, rule.spec.taint)
    ensures Bare(Cleaned(rule, node)) == Bare(node).(taints := RemoveTaint(node.taints, rule.spec.taint))
  {
  }

  /** The protocol's steps in one reconcile that nothing interrupts. */
  function StepsOf(w: World, name: string, a: Reconciler.Answers): seq<Step> {
    [RuleGet(a.getFails)] +
    if a.getFails || name !in w.rules then []
    else
      var rule := w.rules[name];
      [RuleGuardOrCache(a.finalizerFails)] +
      if rule.deleting then
        [RuleList(a.cleanupListFails)] +
        if a.cleanupListFails then []
        else
          Visits(a.cleanupList, a.cleanupEnvs) + [RuleEnd] +
          if CleanupPass(Cached(w, name), rule, a.cleanupList, Reconciler.Selected(rule), a.cleanupEnvs).failed then []
          else [RuleDropCache, RuleDropFinalizer(a.finalizerFails)]
      else if !rule.finalizer || rule.spec.dryRun then []
      else [RuleList(a.passListFails)] + if a.passListFails then [] else Visits(a.passList, a.passEnvs) + [RuleEnd]
  }

  function Cached(w: World, name: string): World
    requires name in w.rules
  {
    w.(cache := w.cache[name := w.rules[name]])
  }

  /**
   * The protocol is the reconciler's. Started idle on what it sees of a world, and not interrupted, its steps end idle on
   * what it sees of the world that the reconcile leaves: for a rule that is gone, new, marked deleted, a dry run or live,
   * whatever calls fail.
   */
  lemma UninterruptedStepsAreAReconcile(s: State, w: World, name: string, a: Reconciler.Answers, spec: RuleSpec)
    requires Mirrors(s, w, name) && s.phase.Idle? && Reconciler.Truthful(w, name, a)
    requires name in w.rules ==>
      && w.rules[name].name == name && w.rules[name].spec == spec
      && !Reconciler.NeedsSelectorCleanup(w, w.rules[name])
    ensures var s' := Run(spec, s, StepsOf(w, name, a));
      && Mirrors(s', Reconciler.Reconcile(w, name, a).0, name) && s'.phase.Idle? && s'.held == s.held
      && (s'.released <==> s.released || Reconciler.Reconcile(w, name, a).1.Deleted?)
  {
    hide Run, Next, Reconciler.Truthful, Reconciler.NeedsSelectorCleanup, Visits, Bared;
    var get := RuleGet(a.getFails);
    RunSum(spec, s, [get], StepsOf(w, name, a)[1..]);
    assert StepsOf(w, name, a) == [get] + StepsOf(w, name, a)[1..];
    RunOne(spec, s, get);
    var s1 := Next(spec, s, get);
    RunOfNone(spec, s1);
    GetStep(spec, s, w, name, a);
    if !a.getFails && name in w.rules {
      var guard := RuleGuardOrCache(a.finalizerFails);
      var rest := StepsOf(w, name, a)[2..];
      assert StepsOf(w, name, a)[1..] == [guard] + rest;
      RunSum(spec, s1, [guard], rest);
      RunOne(spec, s1, guard);
      var s2 := Next(spec, s1, guard);
      RunOfNone(spec, s2);
      if w.rules[name].deleting {
        DeletingStepsAgree(s2, s1, w, name, a);
      } else {
        LiveStepsAgree(s2, s1, w, name, a);
      }
    }
  }

  lemma RunOfNone(spec: RuleSpec, s: State)
    ensures Run(spec, s, []) == s
  {
  }

  lemma GetStep(spec: RuleSpec, s: State, w: World, name: string, a: Reconciler.Answers)
    requires Mirrors(s, w, name) && s.phase.Idle?
    ensures var s1 := Next(spec, s, RuleGet(a.getFails));
      if a.getFails then s1 == s && Mirrors(s1, Reconciler.Reconcile(w, name, a).0, name) && !Reconciler.Reconcile(w, name, a).1.Deleted?
      else if name !in w.rules then
        s1 == s.(cached := None) && Mirrors(s1, Reconciler.Reconcile(w, name, a).0, name) && !Reconciler.Reconcile(w, name, a).1.Deleted?
      else s1 == s.(phase := Got(Seen(w.rules, name).value))
  {
    hide Bared;
  }

  lemma DeletingStepsAgree(s2: State, s1: State, w: World, name: string, a: Reconciler.Answers)
    requires !a.getFails && name in w.rules && w.rules[name].name == name && w.rules[name].deleting
    requires Reconciler.Truthful(w, name, a)
    requires Mirrors(s1, w, name) && s1.phase == Got(Seen(w.rules, name).value)
    requires s2 == Next(w.rules[name].spec, s1, RuleGuardOrCache(a.finalizerFails))
    ensures var s', (w', result) := Run(w.rules[name].spec, s2, StepsOf(w, name, a)[2..]), Reconciler.Reconcile(w, name, a);
      && Mirrors(s', w', name) && s'.phase.Idle? && s'.held == s1.held
      && (s'.released <==> s1.released || result.Deleted?)
  {
    hide Run, Next, CleanupPass, Bared, Visits, Snapshot, Reconciler.Reconcile;
    var rule, spec := w.rules[name], w.rules[name].spec;
    var list := RuleList(a.cleanupListFails);
    var rest := StepsOf(w, name, a)[3..];
    assert StepsOf(w, name, a)[2..] == [list] + rest;
    RunSum(spec, s2, [list], rest);
    RunOne(spec, s2, list);
    var s3 := Next(spec, s2, list);
    RunOfNone(spec, s3);
    SweepStarts(spec, s1, a.finalizerFails, a.cleanupListFails);
    DeletionLeaves(w, name, a);
    if !a.cleanupListFails {
      var c := CleanupPass(Cached(w, name), rule, a.cleanupList, Reconciler.Selected(rule), a.cleanupEnvs);
      var visits, tail := Visits(a.cleanupList, a.cleanupEnvs),
                          if c.failed then [RuleEnd] else [RuleEnd, RuleDropCache, RuleDropFinalizer(a.finalizerFails)];
      assert rest == visits + tail;
      RunSum(spec, s3, visits, tail);
      Reconciler.SnapshotIsListed(a.cleanupList, w.nodes);
      SweepVisits(s3, Cached(w, name), rule, a.cleanupList, a.cleanupEnvs);
      AllVisited(w.nodes, a.cleanupList);
      SweepEnds(spec, Run(spec, s3, visits), a.finalizerFails);
    }
  }

  lemma SweepStarts(spec: RuleSpec, s: State, f: bool, fails: bool)
    requires s.phase.Got? && s.phase.rule.deleting
    ensures Next(spec, Next(spec, s, RuleGuardOrCache(f)), RuleList(fails))
         == s.(cached := Some(s.phase.rule), phase := if fails then Idle else Sweep(s.nodes, false))
  {
  }

  lemma SweepEnds(spec: RuleSpec, s: State, fails: bool)
    requires s.phase.Sweep? && s.phase.todo == map[]
    ensures s.phase.failed ==> Run(spec, s, [RuleEnd]) == s.(phase := Idle)
    ensures !s.phase.failed ==>
      Run(spec, s, [RuleEnd, RuleDropCache, RuleDropFinalizer(fails)]) ==
        if fails || s.stored.None? then s.(cached := None, phase := Idle)
        else s.(cached := None, phase := Idle, released := true, stored := Some(s.stored.value.(finalizer := false)))
  {
    RunOne(spec, s, RuleEnd);
    LastStages(spec, s, fails);
  }

  /** What a reconcile that deletes leaves of nodes, stored and cached rule. */
  lemma DeletionLeaves(w: World, name: string, a: Reconciler.Answers)
    requires !a.getFails && name in w.rules && w.rules[name].name == name && w.rules[name].deleting
    ensures var rule, (w', result) := w.rules[name], Reconciler.Reconcile(w, name, a);
      var c := CleanupPass(Cached(w, name), rule, a.cleanupList, Reconciler.Selected(rule), a.cleanupEnvs);
      if a.cleanupListFails then w' == Cached(w, name) && !result.Deleted?
      else
        && w'.nodes == c.world.nodes
        && (if c.failed then w'.cache == Cached(w, name).cache && w'.rules == w.rules && !result.Deleted?
            else
              && w'.cache == Cached(w, name).cache - {name}
              && (if a.finalizerFails then w'.rules == w.rules && !result.Deleted?
                  else w'.rules == w.rules[name := rule.(finalizer := false)] && result.Deleted?))
  {
    hide CleanupPass;
    Reconciler.CleanupKeepsCache(Cached(w, name), w.rules[name], a.cleanupList, Reconciler.Selected(w.rules[name]), a.cleanupEnvs);
  }

  lemma LastStages(spec: RuleSpec, s: State, fails: bool)
    ensures Run(spec, s, [RuleEnd, RuleDropCache, RuleDropFinalizer(fails)])
         == Next(spec, Next(spec, Next(spec, s, RuleEnd), RuleDropCache), RuleDropFinalizer(fails))
  {
    hide Next, Run;
    var drops := [RuleDropCache, RuleDropFinalizer(fails)];
    assert [RuleEnd, RuleDropCache, RuleDropFinalizer(fails)] == [RuleEnd] + drops;
    assert drops == [RuleDropCache] + [RuleDropFinalizer(fails)];
    RunSum(spec, s, [RuleEnd], drops);
    RunOne(spec, s, RuleEnd);
    RunSum(spec, Next(spec, s, RuleEnd), [RuleDropCache], [RuleDropFinalizer(fails)]);
    RunOne(spec, Next(spec, s, RuleEnd), RuleDropCache);
    RunOne(spec, Next(spec, Next(spec, s, RuleEnd), RuleDropCache), RuleDropFinalizer(fails));
  }

  lemma AllVisited(nodes: map<string, Node>, list: seq<Node>)
    requires Snapshot(list, nodes)
    ensures Remaining(Bared(nodes), list) == map[]
  {
  }

  lemma LiveStepsAgree(s2: State, s1: State, w: World, name: string, a: Reconciler.Answers)
    requires !a.getFails && name in w.rules && w.rules[name].name == name && !w.rules[name].deleting
    requires Reconciler.Truthful(w, name, a) && !Reconciler.NeedsSelectorCleanup(w, w.rules[name])
    requires Mirrors(s1, w, name) && s1.phase == Got(Seen(w.rules, name).value)
    requires s2 == Next(w.rules[name].spec, s1, RuleGuardOrCache(a.finalizerFails))
    ensures var s', (w', result) := Run(w.rules[name].spec, s2, StepsOf(w, name, a)[2..]), Reconciler.Reconcile(w, name, a);
      && Mirrors(s', w', name) && s'.phase.Idle? && s'.held == s1.held && s'.released == s1.released && !result.Deleted?
  {
    hide Run, LivePass, Bared, Visits, Snapshot, Reconciler.NeedsSelectorCleanup, Reconciler.Publish;
    var rule, spec := w.rules[name], w.rules[name].spec;
    RunOfNone(spec, s2);
    ReconcileLeaves(w, name, a);
    if !rule.finalizer || rule.spec.dryRun {
      assert StepsOf(w, name, a)[2..] == [];
    } else {
      var list := RuleList(a.passListFails);
      var rest := StepsOf(w, name, a)[3..];
      assert StepsOf(w, name, a)[2..] == [list] + rest;
      RunSum(spec, s2, [list], rest);
      RunOne(spec, s2, list);
      var s3 := Next(spec, s2, list);
      RunOfNone(spec, s3);
      if !a.passListFails {
        var visits := Visits(a.passList, a.passEnvs);
        assert rest == visits + [RuleEnd];
        RunSum(spec, s3, visits, [RuleEnd]);
        Reconciler.SnapshotIsListed(a.passList, w.nodes);
        LiveVisits(s3, Cached(w, name), Reconciler.Passed(rule), a.passList, a.passEnvs);
        AllVisited(w.nodes, a.passList);
        RunOne(spec, Run(spec, s3, visits), RuleEnd);
      }
    }
  }

  /** What a reconcile that does not delete leaves of nodes, stored and cached rule. */
  lemma ReconcileLeaves(w: World, name: string, a: Reconciler.Answers)
    requires !a.getFails && name in w.rules && w.rules[name].name == name && !w.rules[name].deleting
    requires !Reconciler.NeedsSelectorCleanup(w, w.rules[name])
    ensures var rule, (w', result) := w.rules[name], Reconciler.Reconcile(w, name, a);
      if !rule.finalizer then
        w' == (if a.finalizerFails then w else w.(rules := w.rules[name := rule.(finalizer := true)])) && !result.Deleted?
      else
        && !result.Deleted? && Seen(w'.rules, name) == Seen(w.rules, name) && w'.cache == w.cache[name := rule]
        && w'.nodes == if a.passListFails || rule.spec.dryRun then w.nodes
                       else LivePass(Cached(w, name), Reconciler.Passed(rule), a.passList, a.passEnvs).world.nodes
  {
    hide LivePass, DryTally, Accepted, EvaluationsIn, Reconciler.NeedsSelectorCleanup;
    Reconciler.LivePassKeepsCache(Cached(w, name), Reconciler.Passed(w.rules[name]), a.passList, a.passEnvs);
  }
}
