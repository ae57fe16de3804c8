// Accounting of bootstrap completions, over any run of serialized evaluations from either reconcile path.
module Bootstrap {
  import opened Common
  import opened NodeModel
  import opened RuleModel
  import opened Evaluation

  // ------------------------------------------------------------------- keys

  predicate NoNul(s: string) {
    NoneOf(s, '\0')
  }

  /** For rule names without the separator, the start-time key determines rule and node. */
  lemma StartKeyInjective(r1: string, n1: string, r2: string, n2: string)
    requires NoNul(r1) && NoNul(r2)
    requires BootstrapStartKey(r1, n1) == BootstrapStartKey(r2, n2)
    ensures r1 == r2 && n1 == n2
  {
    var a := BootstrapStartKey(r1, n1);
    assert r1 + ['\0'] <= a && r2 + ['\0'] <= a;
    CutAtFirst(r1, r2, '\0', a);
    assert a[|r1| + 1..] == n1 && a[|r2| + 1..] == n2;
  }

  /**
   * In general two pairs share a key if and only if the longer rule name continues the shorter one with the
   * separator, and the node name of the shorter repeats that continuation before the other node name.
   */
  lemma StartKeyCollides(r1: string, n1: string, r2: string, n2: string)
    requires |r1| < |r2|
    ensures var x := r2[|r1| + 1..];
      BootstrapStartKey(r1, n1) == BootstrapStartKey(r2, n2) <==>
        r2 == r1 + ['\0'] + x && n1 == x + ['\0'] + n2
  {
    var x, k := r2[|r1| + 1..], |r1|;
    var a, b := BootstrapStartKey(r1, n1), BootstrapStartKey(r2, n2);
    if a == b {
      assert r2 == b[..|r2|];
      assert a[..k] == r1 && a[k] == '\0' && b[..k] == r2[..k] && b[k] == r2[k];
      assert r2 == r2[..k] + [r2[k]] + x;
      assert n1 == a[k + 1..] == b[k + 1..] == x + ['\0'] + n2;
    }
    if r2 == r1 + ['\0'] + x && n1 == x + ['\0'] + n2 {
      assert a == r1 + ['\0'] + (x + ['\0'] + n2) == (r1 + ['\0'] + x) + ['\0'] + n2 == b;
    }
  }

  // -------------------------------------------------------------------- runs

  /** An evaluation of any rule on any copy of a node; outside changes that leave annotations alone; any outside change. */
  datatype Step =
    | Evaluation(rule: Rule, node: Node, env: Env)
    | Outside(nodes: map<string, Node>)
    | Rewrite(nodes: map<string, Node>)

  predicate SameAnnotations(a: map<string, Node>, b: map<string, Node>) {
    a.Keys == b.Keys && forall n :: n in a ==> a[n].annotations == b[n].annotations
  }

  function Next(w: World, step: Step): World {
    match step
    case Evaluation(rule, node, env) => Evaluate(w, rule, node, env).world
    case Outside(nodes) => if SameAnnotations(w.nodes, nodes) then w.(nodes := nodes) else w
    case Rewrite(nodes) => w.(nodes := nodes)
  }

  function Run(w: World, steps: seq<Step>): World {
    if steps == [] then w else Next(Run(w, steps[..|steps| - 1]), steps[|steps| - 1])
  }

  predicate IsCompleted(w: World, n: string, rule: string) {
    n in w.nodes && Completed(w.nodes[n], rule)
  }

  /** The step sets the completion annotation of this rule on this node, where it was absent. */
  predicate Transition(w: World, step: Step, rule: string, n: string) {
    && step.Evaluation? && step.rule.name == rule && step.node.name == n
    && !IsCompleted(w, n, rule) && IsCompleted(Next(w, step), n, rule)
  }

  /** The observation a transition makes, if a start is on record. */
  function ObservationOf(w: World, rule: string, n: string, now: nat): seq<Observation> {
    var key := BootstrapStartKey(rule, n);
    if key in w.starts then [Observation(rule, now - w.starts[key])] else []
  }

  /** The evaluation gets as far as writing the completion annotation. */
  predicate Marks(w: World, rule: Rule, node: Node, env: Env) {
    && rule.spec.mode.BootstrapOnly? && Met(rule.spec, node) && HasTaint(node.taints, rule.spec.taint)
    && !env.taintFails && !env.markFails
    && node.name in w.nodes && !Completed(w.nodes[node.name], rule.name)
  }

  /** What an evaluation does to completion: its annotation, its count and its observation, all or nothing. */
  ghost predicate Accounts(w: World, w': World, rule: string, n: string, now: nat, marks: bool) {
    && w'.nodes.Keys == w.nodes.Keys
    && (forall m :: m in w.nodes ==>
          w'.nodes[m].annotations == if marks && m == n then w.nodes[m].annotations[CompletedKey(rule) := "true"]
                                     else w.nodes[m].annotations)
    && w'.metrics.completed == (if marks then Bump(w.metrics.completed, rule) else w.metrics.completed)
    && w'.metrics.durations == w.metrics.durations + (if marks then ObservationOf(w, rule, n, now) else [])
  }

  lemma MarkStepAccounts(w: World, n: string, rule: string, env: Env)
    requires n in w.nodes
    ensures Accounts(w, MarkStep(w, n, rule, env), rule, n, env.now, !env.markFails && !Completed(w.nodes[n], rule))
  {
    hide Bump, CompletedKey, BootstrapStartKey;
  }

  lemma TaintStepsAccount(w: World, node: Node, t: Taint, rule: string, now: nat)
    requires node.name in w.nodes
    ensures Accounts(w, AddStep(w, node, t, rule, now).0, rule, node.name, now, false)
    ensures Accounts(w, RemoveStep(w, node, t).0, rule, node.name, now, false)
    ensures RemoveStep(w, node, t).0.starts == w.starts
  {
    hide Bump, CompletedKey, BootstrapStartKey, HasTaint, RemoveTaint;
  }

  /** Of two worlds only the annotations, the starts and the counters of completion matter. */
  lemma AccountsCarry(w: World, w1: World, w': World, w2: World, rule: string, n: string, now: nat, marks: bool)
    requires Accounts(w, w1, rule, n, now, false) && w1.starts == w.starts
    requires Accounts(w1, w', rule, n, now, marks)
    requires w2.nodes == w'.nodes && w2.metrics.completed == w'.metrics.completed
    requires w2.metrics.durations == w'.metrics.durations
    ensures Accounts(w, w2, rule, n, now, marks)
  {
    hide Bump, CompletedKey, BootstrapStartKey;
    assert w.metrics.durations + [] == w.metrics.durations;
  }

  lemma AccountsNothing(w: World, w': World, rule: string, n: string, now: nat)
    requires w'.nodes == w.nodes && w'.metrics == w.metrics
    ensures Accounts(w, w', rule, n, now, false)
  {
  }

  lemma ActAccounts(w: World, rule: Rule, node: Node, env: Env)
    requires NeedsChange(rule.spec, node) ==> node.name in w.nodes && !env.taintFails
    ensures Accounts(w, Act(w, rule, node, env).0, rule.name, node.name, env.now, Marks(w, rule, node, env))
  {
    hide Accounts, HasTaint, Met, Evaluated, BootstrapStartKey, MarkStep, Bump, AddStep, RemoveStep, CompletedKey;
    var n, t, w' := node.name, rule.spec.taint, Act(w, rule, node, env).0;
    AccountsNothing(w, w, rule.name, n, env.now);
    if NeedsChange(rule.spec, node) {
      TaintStepsAccount(w, node, t, rule.name, env.now);
    }
    if Met(rule.spec, node) && HasTaint(node.taints, t) {
      var w1 := RemoveStep(w, node, t).0;
      var w2 := w1.(metrics := w1.metrics.(removes := Bump(w1.metrics.removes, rule.name)));
      RemoveKeepsCompleted(w, node, t, rule.name);
      MarkStepAccounts(w2, n, rule.name, env);
      AccountsNothing(w1, w1, rule.name, n, env.now);
      AccountsCarry(w, w, w1, w2, rule.name, n, env.now, false);
      if rule.spec.mode.BootstrapOnly? {
        AccountsCarry(w, w2, w', w', rule.name, n, env.now, Marks(w, rule, node, env));
      } else {
        AccountsCarry(w, w, w1, w', rule.name, n, env.now, false);
      }
    } else if !Met(rule.spec, node) && !HasTaint(node.taints, t) {
      AccountsCarry(w, w, AddStep(w, node, t, rule.name, env.now).0, w', rule.name, n, env.now, false);
    } else {
      AccountsNothing(w, w', rule.name, n, env.now);
    }
  }

  lemma RemoveKeepsCompleted(w: World, node: Node, t: Taint, rule: string)
    requires node.name in w.nodes
    ensures var w1 := RemoveStep(w, node, t).0;
      node.name in w1.nodes && (Completed(w1.nodes[node.name], rule) <==> Completed(w.nodes[node.name], rule))
  {
  }

  lemma EvaluationAccounts(w: World, rule: Rule, node: Node, env: Env)
    ensures Accounts(w, Evaluate(w, rule, node, env).world, rule.name, node.name, env.now, Marks(w, rule, node, env))
  {
    hide Accounts, Act, HasTaint, Met, ResultsOf, WithEvaluation, Evaluated, CompletedKey, BootstrapStartKey;
    if !NeedsChange(rule.spec, node) || (node.name in w.nodes && !env.taintFails) {
      ActAccounts(w, rule, node, env);
    } else {
      AccountsNothing(w, Evaluate(w, rule, node, env).world, rule.name, node.name, env.now);
    }
  }

  /**
   * An evaluation completes bootstrap for its own rule and node, counts that once and observes it at most once;
   * or it completes, counts and observes nothing.
   */
  lemma EvaluationCompletesOnce(w: World, rule: Rule, node: Node, env: Env)
    ensures var w', step := Evaluate(w, rule, node, env).world, Evaluation(rule, node, env);
      && w'.nodes.Keys == w.nodes.Keys
      && (forall n, r :: IsCompleted(w', n, r) <==> IsCompleted(w, n, r) || Transition(w, step, r, n))
      && (if Transition(w, step, rule.name, node.name)
          then && w'.metrics.completed == Bump(w.metrics.completed, rule.name)
               && w'.metrics.durations == w.metrics.durations + ObservationOf(w, rule.name, node.name, env.now)
          else && w'.metrics.completed == w.metrics.completed
               && w'.metrics.durations == w.metrics.durations)
  {
    hide Evaluate, Marks, CompletedKey, BootstrapStartKey, Bump, ObservationOf;
    EvaluationAccounts(w, rule, node, env);
    MarksMeansNotYet(w, rule, node, env);
    forall n, r
      ensures IsCompleted(Evaluate(w, rule, node, env).world, n, r)
         <==> IsCompleted(w, n, r) || (Marks(w, rule, node, env) && n == node.name && r == rule.name)
    {
      CompletedKeyInjective(r, rule.name);
    }
  }

  lemma MarksMeansNotYet(w: World, rule: Rule, node: Node, env: Env)
    ensures Marks(w, rule, node, env) ==> node.name in w.nodes && !Completed(w.nodes[node.name], rule.name)
  {
  }

  // --------------------------------------------------------------- accounting

  function NewlyCompleted(w: World, w': World, rule: string): set<string> {
    set n | n in w'.nodes && IsCompleted(w', n, rule) && !IsCompleted(w, n, rule)
  }

  function ObservationsOf(durations: seq<Observation>, rule: string): nat {
    if durations == [] then 0
    else ObservationsOf(durations[..|durations| - 1], rule) + if durations[|durations| - 1].rule == rule then 1 else 0
  }

  predicate TransitionOf(w: World, step: Step, rule: string) {
    step.Evaluation? && Transition(w, step, rule, step.node.name)
  }

  /** How many steps of the run set a completion annotation of the rule where it was absent. */
  function Transitions(w: World, steps: seq<Step>, rule: string): nat {
    if steps == [] then 0
    else
      var front, last := steps[..|steps| - 1], steps[|steps| - 1];
      Transitions(w, front, rule) + if TransitionOf(Run(w, front), last, rule) then 1 else 0
  }

  lemma StepCounts(w: World, step: Step, rule: string)
    ensures var w', moved := Next(w, step), if TransitionOf(w, step, rule) then 1 else 0;
      && CountOf(w'.metrics.completed, rule) == CountOf(w.metrics.completed, rule) + moved
      && ObservationsOf(w.metrics.durations, rule) <= ObservationsOf(w'.metrics.durations, rule)
           <= ObservationsOf(w.metrics.durations, rule) + moved
  {
    hide Evaluate, BootstrapStartKey, IsCompleted;
    if step.Evaluation? {
      EvaluationCompletesOnce(w, step.rule, step.node, step.env);
      var d, o := w.metrics.durations, ObservationOf(w, step.rule.name, step.node.name, step.env.now);
      if o != [] {
        assert (d + o)[..|d|] == d;
      } else {
        assert d + o == d;
      }
    }
  }

  /** Whatever happens outside, the counter of a rule counts the transitions, and there is at most one observation for each. */
  lemma {:induction false} TransitionsAreCounted(w: World, steps: seq<Step>, rule: string)
    ensures var m, m' := w.metrics, Run(w, steps).metrics;
      && CountOf(m'.completed, rule) == CountOf(m.completed, rule) + Transitions(w, steps, rule)
      && ObservationsOf(m.durations, rule) <= ObservationsOf(m'.durations, rule)
           <= ObservationsOf(m.durations, rule) + Transitions(w, steps, rule)
  {
    hide Next, TransitionOf;
    if steps != [] {
      TransitionsAreCounted(w, steps[..|steps| - 1], rule);
      StepCounts(Run(w, steps[..|steps| - 1]), steps[|steps| - 1], rule);
    }
  }

  lemma StepCompletes(w0: World, w: World, step: Step, rule: string)
    requires w.nodes.Keys == w0.nodes.Keys && !step.Rewrite?
    requires forall n :: IsCompleted(w0, n, rule) ==> IsCompleted(w, n, rule)
    ensures var w' := Next(w, step);
      && w'.nodes.Keys == w.nodes.Keys
      && (forall n :: IsCompleted(w, n, rule) ==> IsCompleted(w', n, rule))
      && |NewlyCompleted(w0, w', rule)|
           == |NewlyCompleted(w0, w, rule)| + if TransitionOf(w, step, rule) then 1 else 0
  {
    hide Evaluate, BootstrapStartKey;
    var w' := Next(w, step);
    if step.Evaluation? {
      EvaluationCompletesOnce(w, step.rule, step.node, step.env);
      if TransitionOf(w, step, rule) {
        assert NewlyCompleted(w0, w', rule) == NewlyCompleted(w0, w, rule) + {step.node.name};
        assert step.node.name !in NewlyCompleted(w0, w, rule);
      } else {
        assert NewlyCompleted(w0, w', rule) == NewlyCompleted(w0, w, rule);
      }
    } else {
      assert forall n :: IsCompleted(w', n, rule) <==> IsCompleted(w, n, rule);
      assert NewlyCompleted(w0, w', rule) == NewlyCompleted(w0, w, rule);
    }
  }

  /**
   * Bootstrap accounting. Over any run in which nobody else deletes nodes or edits annotations, the completion counter
   * of a rule grows by exactly the number of nodes whose annotation went from absent to present, completions are never
   * undone, and there are at most as many duration observations as completions.
   */
  lemma {:induction false} CompletionsAreCounted(w: World, steps: seq<Step>, rule: string)
    requires forall k :: 0 <= k < |steps| ==> !steps[k].Rewrite?
    ensures var w' := Run(w, steps);
      && w'.nodes.Keys == w.nodes.Keys
      && (forall n :: IsCompleted(w, n, rule) ==> IsCompleted(w', n, rule))
      && CountOf(w'.metrics.completed, rule) == CountOf(w.metrics.completed, rule) + |NewlyCompleted(w, w', rule)|
      && ObservationsOf(w'.metrics.durations, rule)
           <= ObservationsOf(w.metrics.durations, rule) + |NewlyCompleted(w, w', rule)|
  {
    hide Next, TransitionOf;
    if steps == [] {
      assert NewlyCompleted(w, w, rule) == {};
    } else {
      var front := steps[..|steps| - 1];
      CompletionsAreCounted(w, front, rule);
      StepCounts(Run(w, front), steps[|steps| - 1], rule);
      StepCompletes(w, Run(w, front), steps[|steps| - 1], rule);
    }
  }

  /** Once a node has completed, no later evaluation of that rule on it, tainting or untainting, counts or observes anything. */
  lemma CompletedNodeIsNotCountedAgain(w: World, steps: seq<Step>, rule: Rule, node: Node, env: Env)
    requires IsCompleted(w, node.name, rule.name) && forall k :: 0 <= k < |steps| ==> !steps[k].Rewrite?
    ensures var w' := Run(w, steps);
      && Evaluate(w', rule, node, env).world.metrics.completed == w'.metrics.completed
      && Evaluate(w', rule, node, env).world.metrics.durations == w'.metrics.durations
  {
    CompletionsAreCounted(w, steps, rule.name);
    EvaluationCompletesOnce(Run(w, steps), rule, node, env);
  }

  // ------------------------------------------------------------- the durations

  predicate NamesOk(step: Step) {
    step.Evaluation? ==> NoNul(step.rule.name)
  }

  /** A step can put a start on record only at its own time and for its own rule and node, and never moves one. */
  lemma StartsMoveOnlyByAbsence(w: World, step: Step, rule: string, n: string)
    requires NamesOk(step) && NoNul(rule)
    ensures var key, w' := BootstrapStartKey(rule, n), Next(w, step);
      || key !in w'.starts
      || (key in w.starts && w'.starts[key] == w.starts[key])
      || (key !in w.starts && step.Evaluation? && step.rule.name == rule && step.node.name == n
          && w'.starts[key] == step.env.now)
  {
    hide RemoveTaint, HasTaint, Met, ResultsOf, WithEvaluation, Evaluated, CompletedKey, BootstrapStartKey, Bump;
    if step.Evaluation? && BootstrapStartKey(step.rule.name, step.node.name) == BootstrapStartKey(rule, n) {
      StartKeyInjective(step.rule.name, step.node.name, rule, n);
    }
  }

  /** A completion takes the start off the record, so that no later one is measured from it. */
  lemma CompletionClearsTheStart(w: World, step: Step, rule: string, n: string)
    requires Transition(w, step, rule, n)
    ensures BootstrapStartKey(rule, n) !in Next(w, step).starts
  {
    hide Met, HasTaint, ResultsOf, WithEvaluation, Evaluated, BootstrapStartKey, Bump, MarkStep, RemoveTaint;
    var r, node, env := step.rule, step.node, step.env;
    EvaluationCompletesOnce(w, r, node, env);
    MarksIfTransition(w, r, node, env);
    var w1 := RemoveStep(w, node, r.spec.taint).0;
    MarkClearsTheStart(w1.(metrics := w1.metrics.(removes := Bump(w1.metrics.removes, r.name))), n, rule, env);
  }

  lemma MarkClearsTheStart(w: World, n: string, rule: string, env: Env)
    requires n in w.nodes && !env.markFails
    ensures BootstrapStartKey(rule, n) !in MarkStep(w, n, rule, env).starts
  {
    hide BootstrapStartKey;
  }

  lemma MarksIfTransition(w: World, rule: Rule, node: Node, env: Env)
    requires Transition(w, Evaluation(rule, node, env), rule.name, node.name)
    ensures Marks(w, rule, node, env)
  {
    hide Evaluate, BootstrapStartKey, Bump;
    EvaluationAccounts(w, rule, node, env);
  }

  /** The start on record after i steps was recorded, at its own time, by the step just before some state from which on it stayed. */
  predicate RecordedAt(w: World, steps: seq<Step>, rule: string, n: string, i: nat, j: nat)
    requires j <= i <= |steps|
  {
    var key := BootstrapStartKey(rule, n);
    && key in Run(w, steps[..i]).starts
    && (forall m :: j <= m <= i ==>
          && key in Run(w, steps[..m]).starts
          && Run(w, steps[..m]).starts[key] == Run(w, steps[..i]).starts[key])
    && (j > 0 ==>
          && key !in Run(w, steps[..j - 1]).starts
          && steps[j - 1].Evaluation? && steps[j - 1].rule.name == rule && steps[j - 1].node.name == n
          && Run(w, steps[..i]).starts[key] == steps[j - 1].env.now)
  }

  lemma {:induction false} StartHasAnOrigin(w: World, steps: seq<Step>, rule: string, n: string, i: nat) returns (j: nat)
    requires NoNul(rule) && i <= |steps|
    requires forall k :: 0 <= k < |steps| ==> NamesOk(steps[k])
    requires BootstrapStartKey(rule, n) in Run(w, steps[..i]).starts
    ensures j <= i && RecordedAt(w, steps, rule, n, i, j)
  {
    hide Next, BootstrapStartKey;
    if i == 0 {
      return 0;
    }
    assert steps[..i][..i - 1] == steps[..i - 1];
    StartsMoveOnlyByAbsence(Run(w, steps[..i - 1]), steps[i - 1], rule, n);
    if BootstrapStartKey(rule, n) in Run(w, steps[..i - 1]).starts {
      j := StartHasAnOrigin(w, steps, rule, n, i - 1);
    } else {
      j := i;
    }
  }

  /**
   * Every duration a run observes for a completion is the time from the first recorded start: the start was recorded
   * by an evaluation of this rule on this node when none was on record, and stayed untouched until the completion.
   * A completion with no start on record observes nothing.
   */
  lemma DurationIsMeasuredFromFirstStart(w: World, steps: seq<Step>, i: nat, rule: string, n: string) returns (j: nat)
    requires i < |steps| && (forall k :: 0 <= k < |steps| ==> NamesOk(steps[k])) && NoNul(rule)
    requires w.starts == map[] && Transition(Run(w, steps[..i]), steps[i], rule, n)
    ensures var before, after, key := Run(w, steps[..i]), Run(w, steps[..i + 1]), BootstrapStartKey(rule, n);
      if key !in before.starts then after.metrics.durations == before.metrics.durations
      else
        && 0 < j <= i && RecordedAt(w, steps, rule, n, i, j)
        && after.metrics.durations
             == before.metrics.durations + [Observation(rule, steps[i].env.now - steps[j - 1].env.now)]
  {
    hide Evaluate, BootstrapStartKey;
    assert steps[..i + 1][..i] == steps[..i];
    var before := Run(w, steps[..i]);
    EvaluationCompletesOnce(before, steps[i].rule, steps[i].node, steps[i].env);
    j := 0;
    if BootstrapStartKey(rule, n) in before.starts {
      j := StartHasAnOrigin(w, steps, rule, n, i);
      assert steps[..0] == [];
      assert Run(w, steps[..0]).starts == map[];
    }
  }
}
