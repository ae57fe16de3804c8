// One reconcile of a node: every cached rule that selects it is evaluated on it, in map order.
module NodePass {
  import opened Common
  import opened NodeModel
  import opened RuleModel
  import opened Evaluation
  import opened Passes

  /** The world and the reconciler's own copy of the node. */
  datatype Progress = Progress(world: World, node: Node)

  /** The fresh read of the completion annotation, which a failed read reports as missing. */
  predicate SeenCompleted(q: Progress, rule: Rule, env: Env) {
    && !env.readFails
    && q.node.name in q.world.nodes
    && Completed(q.world.nodes[q.node.name], rule.name)
  }

  predicate Skips(q: Progress, rule: Rule, env: Env) {
    || rule.deleting
    || (SeenCompleted(q, rule, env) && rule.spec.mode.BootstrapOnly?)
    || rule.spec.dryRun
  }

  /** Write this node's part of the cached rule's status into the stored rule, if the API server accepts the result. */
  function Persist(w: World, rule: Rule, nodeName: string, env: Env): World {
    if env.persistFails || rule.name !in w.rules then w
    else
      var stored := w.rules[rule.name];
      var merged := MergeNodeStatus(stored.status, rule.status, nodeName);
      if !Accepted(merged) then w else w.(rules := w.rules[rule.name := stored.(status := merged)])
  }

  function RuleStep(q: Progress, rule: Rule, env: Env): Progress {
    if Skips(q, rule, env) then q
    else
      var o := Process(q.world, rule, q.node, env);
      var w := o.world.(cache := o.world.cache[rule.name := o.rule]);
      Progress(Persist(w, o.rule, o.node.name, env), o.node)
  }

  function Pass(w: World, node: Node, rules: seq<Rule>, envs: map<string, Env>): Progress {
    if rules == [] then Progress(w, node)
    else
      var rule := rules[|rules| - 1];
      RuleStep(Pass(w, node, rules[..|rules| - 1], envs), rule, EnvAt(envs, rule.name))
  }

  // ------------------------------------------------- which rules have a turn

  /**
   * When a rule's turn evaluates. It leaves everything as it is if the rule is marked deleted, or is a dry run in either
   * mode, or is bootstrap-only and its completion is stored and can be read. In every other case the rule is evaluated,
   * cached with the outcome, and this node's part of its status is written.
   */
  lemma TurnEvaluatesExactly(q: Progress, rule: Rule, env: Env)
    ensures
      if || rule.deleting || rule.spec.dryRun
         || (rule.spec.mode == BootstrapOnly && !env.readFails && q.node.name in q.world.nodes
             && ("readiness.k8s.io/bootstrap-completed-" + rule.name) in q.world.nodes[q.node.name].annotations)
      then RuleStep(q, rule, env) == q
      else
        var o := Process(q.world, rule, q.node, env);
        var w := o.world.(cache := o.world.cache[rule.name := o.rule]);
        RuleStep(q, rule, env) == Progress(Persist(w, o.rule, o.node.name, env), o.node)
  {
    hide Process, Persist;
  }

  // --------------------------------------------------------- independent rules

  /** Two rules get in each other's way when they share a name or a taint. */
  predicate Clashes(rules: seq<Rule>, r: Rule) {
    rules != [] &&
      var last := rules[|rules| - 1];
      || last.name == r.name
      || SameIdentity(last.spec.taint, r.spec.taint)
      || Clashes(rules[..|rules| - 1], r)
  }

  predicate Independent(rules: seq<Rule>) {
    rules != [] ==> Independent(rules[..|rules| - 1]) && !Clashes(rules[..|rules| - 1], rules[|rules| - 1])
  }

  lemma {:induction false} ClashesByMember(rules: seq<Rule>, r: Rule)
    ensures Clashes(rules, r) <==> exists q :: q in rules && (q.name == r.name || SameIdentity(q.spec.taint, r.spec.taint))
  {
    if rules != [] {
      ClashesByMember(rules[..|rules| - 1], r);
      assert rules == rules[..|rules| - 1] + [rules[|rules| - 1]];
    }
  }

  // ------------------------------------------------- what one rule does alone

  /** What rule r finds on the node, before anything is done. */
  predicate SkipsAtStart(w: World, node: Node, r: Rule, env: Env) {
    Skips(Progress(w, node), r, env)
  }

  /** Rule r evaluates the node and its taint change is not refused. */
  predicate Acts(w: World, node: Node, r: Rule, env: Env) {
    !SkipsAtStart(w, node, r, env) && !ChangeFails(r, node, env)
  }

  /** The cached rule after its turn: its entry for the node, or the failure. */
  function RuleAfter(w: World, node: Node, r: Rule, env: Env): Rule {
    if SkipsAtStart(w, node, r, env) then r
    else if ChangeFails(r, node, env) then
      r.(status := r.status.(failedNodes := WithFailure(r.status.failedNodes, FailureFor(r, node))))
    else
      r.(status := r.status.(evaluations := WithEvaluation(r.status.evaluations, EntryFor(r, node))))
  }

  function StoredAfter(w: World, node: Node, r: Rule, env: Env): Rule
    requires r.name in w.rules
  {
    var stored := w.rules[r.name];
    var merged := MergeNodeStatus(stored.status, RuleAfter(w, node, r, env).status, node.name);
    if SkipsAtStart(w, node, r, env) || env.persistFails || !Accepted(merged) then stored
    else stored.(status := merged)
  }

  predicate CompletesNow(w: World, node: Node, r: Rule, env: Env) {
    Acts(w, node, r, env) && Completes(r, node, env)
  }

  /** How often taint t is on the node after rule r, its manager, had its turn. */
  function CountAfter(w: World, node: Node, r: Rule, env: Env, t: Taint): nat {
    if !Acts(w, node, r, env) then multiset(node.taints)[t]
    else multiset(DesiredTaints(r.spec, node))[t]
  }

  // ------------------------------------------------------------------- steps

  /** A progress state that agrees with the start on everything rule r looks at. */
  predicate AsAtStart(w: World, node: Node, q: Progress, r: Rule)
    requires node.name in w.nodes
  {
    && Fresh(q.world, q.node)
    && q.node.name == node.name && q.node.conditions == node.conditions && q.node.labels == node.labels
    && (HasTaint(q.node.taints, r.spec.taint) <==> HasTaint(node.taints, r.spec.taint))
    && (Completed(q.world.nodes[node.name], r.name) <==> Completed(w.nodes[node.name], r.name))
    && (r.name in q.world.rules <==> r.name in w.rules)
    && (r.name in w.rules ==> q.world.rules[r.name] == w.rules[r.name])
    && (r.name in q.world.cache <==> r.name in w.cache)
    && (r.name in w.cache ==> q.world.cache[r.name] == w.cache[r.name])
  }

  lemma StepFromStart(w: World, node: Node, q: Progress, r: Rule, env: Env)
    requires Fresh(w, node) && AsAtStart(w, node, q, r)
    ensures SkipsAtStart(w, node, r, env) <==> Skips(q, r, env)
    ensures ChangeFails(r, node, env) <==> ChangeFails(r, q.node, env)
    ensures Met(r.spec, node) <==> Met(r.spec, q.node)
    ensures Completes(r, node, env) <==> Completes(r, q.node, env)
  {
  }

  /** One rule's turn, from any state that looks to it like the start. */
  lemma RuleStepEffect(w: World, node: Node, q: Progress, r: Rule, env: Env)
    requires Fresh(w, node) && AsAtStart(w, node, q, r)
    ensures var q' := RuleStep(q, r, env);
      && Fresh(q'.world, q'.node)
      && q'.node.name == node.name && q'.node.conditions == node.conditions && q'.node.labels == node.labels
      && q'.node.taints == (if Acts(w, node, r, env) then DesiredTaints(r.spec, q.node) else q.node.taints)
      && q'.world.nodes[node.name].annotations
           == (if CompletesNow(w, node, r, env) && !Completed(w.nodes[node.name], r.name)
               then q.world.nodes[node.name].annotations[CompletedKey(r.name) := "true"]
               else q.world.nodes[node.name].annotations)
  {
    hide DesiredTaints, EntryFor, MergeNodeStatus, Accepted, Act;
    StepFromStart(w, node, q, r, env);
    if Acts(w, node, r, env) {
      FreshEvaluation(q.world, r, q.node, env);
    }
  }

  lemma RuleStepRecords(w: World, node: Node, q: Progress, r: Rule, env: Env)
    requires Fresh(w, node) && AsAtStart(w, node, q, r)
    ensures var q' := RuleStep(q, r, env);
      && q'.world.nodes.Keys == q.world.nodes.Keys
      && (forall m :: m in q.world.nodes && m != node.name ==> q'.world.nodes[m] == q.world.nodes[m])
      && q'.world.cache == (if SkipsAtStart(w, node, r, env) then q.world.cache
                            else q.world.cache[r.name := RuleAfter(w, node, r, env)])
      && q'.world.rules == (if r.name in w.rules then q.world.rules[r.name := StoredAfter(w, node, r, env)]
                            else q.world.rules)
  {
    hide DesiredTaints, MergeNodeStatus, Accepted, Act, WithEvaluation, WithFailure, ResultsOf;
    StepFromStart(w, node, q, r, env);
    if r.name in w.rules {
      assert q.world.rules == q.world.rules[r.name := w.rules[r.name]];
    }
    if Acts(w, node, r, env) {
      FreshEvaluation(q.world, r, q.node, env);
      FreshEvaluationIsExact(q.world, r, q.node, env);
    }
  }

  lemma DesiredElsewhere(r: Rule, node: Node, t: Taint)
    requires !SameIdentity(r.spec.taint, t)
    ensures HasTaint(DesiredTaints(r.spec, node), t) <==> HasTaint(node.taints, t)
    ensures multiset(DesiredTaints(r.spec, node))[t] == multiset(node.taints)[t]
  {
    RemoveTaintPresence(node.taints, r.spec.taint, t);
    AddTaintPresence(node.taints, r.spec.taint, t);
    RemoveTaintCounts(node.taints, r.spec.taint, t);
  }

  /** A rule that clashes with none of those already processed finds everything as at the start. */
  lemma {:induction false} PassLeavesOthersAlone(w: World, node: Node, rules: seq<Rule>, envs: map<string, Env>, r: Rule)
    requires Fresh(w, node) && Independent(rules) && !Clashes(rules, r)
    ensures AsAtStart(w, node, Pass(w, node, rules, envs), r)
  {
    hide RuleStep, DesiredTaints, CompletedKey, SkipsAtStart, ChangeFails, RuleAfter, StoredAfter, Completes;
    if rules != [] {
      var front, last := rules[..|rules| - 1], rules[|rules| - 1];
      var q, env := Pass(w, node, front, envs), EnvAt(envs, last.name);
      PassLeavesOthersAlone(w, node, front, envs, r);
      PassLeavesOthersAlone(w, node, front, envs, last);
      RuleStepEffect(w, node, q, last, env);
      RuleStepRecords(w, node, q, last, env);
      DesiredElsewhere(last, q.node, r.spec.taint);
      CompletedKeyInjective(last.name, r.name);
    }
  }

  // --------------------------------------------- what the pass leaves behind

  /** Per rule: the cached and the stored rule after the pass are those of the rule's own turn. */
  lemma {:induction false} PassRecordsEachRule(w: World, node: Node, rules: seq<Rule>, envs: map<string, Env>, r: Rule)
    requires Fresh(w, node) && Independent(rules) && r in rules
    requires r.name in w.cache && w.cache[r.name] == r
    ensures node.name in Pass(w, node, rules, envs).world.nodes
    ensures var q, env := Pass(w, node, rules, envs), EnvAt(envs, r.name);
      && r.name in q.world.cache && q.world.cache[r.name] == RuleAfter(w, node, r, env)
      && (r.name in w.rules ==> r.name in q.world.rules && q.world.rules[r.name] == StoredAfter(w, node, r, env))
      && (Completed(q.world.nodes[node.name], r.name)
          <==> Completed(w.nodes[node.name], r.name) || CompletesNow(w, node, r, env))
      && (Acts(w, node, r, env) ==> (HasTaint(q.node.taints, r.spec.taint) <==> !Met(r.spec, node)))
  {
    hide RuleStep, CompletedKey, SkipsAtStart, ChangeFails, RuleAfter, StoredAfter, Completes, Met;
    var front, last := rules[..|rules| - 1], rules[|rules| - 1];
    var q, env := Pass(w, node, front, envs), EnvAt(envs, last.name);
    assert rules == front + [last];
    PassLeavesOthersAlone(w, node, front, envs, last);
    RuleStepEffect(w, node, q, last, env);
    RuleStepRecords(w, node, q, last, env);
    if r == last {
      StepFromStart(w, node, q, r, env);
      RuleAfterSkipped(w, node, r, env);
      RemoveTaintPresence(q.node.taints, r.spec.taint, r.spec.taint);
      AddTaintPresence(q.node.taints, r.spec.taint, r.spec.taint);
    } else {
      PassRecordsEachRule(w, node, front, envs, r);
      ClashesByMember(front, last);
      DesiredElsewhere(last, q.node, r.spec.taint);
      CompletedKeyInjective(last.name, r.name);
    }
  }

  /** The rule among these that manages taint t, if any. */
  function ManagerOf(rules: seq<Rule>, t: Taint): Option<Rule> {
    if rules == [] then None
    else if SameIdentity(rules[|rules| - 1].spec.taint, t) then Some(rules[|rules| - 1])
    else ManagerOf(rules[..|rules| - 1], t)
  }

  function NamedRule(rules: seq<Rule>, name: string): (r: Option<Rule>)
    ensures r.Some? ==> r.value.name == name
  {
    if rules == [] then None
    else if rules[|rules| - 1].name == name then Some(rules[|rules| - 1])
    else NamedRule(rules[..|rules| - 1], name)
  }

  lemma {:induction false} ManagerByMember(rules: seq<Rule>, t: Taint)
    requires Independent(rules)
    ensures forall r :: r in rules ==> (SameIdentity(r.spec.taint, t) <==> ManagerOf(rules, t) == Some(r))
    ensures ManagerOf(rules, t).Some? ==> ManagerOf(rules, t).value in rules
  {
    if rules != [] {
      var front, last := rules[..|rules| - 1], rules[|rules| - 1];
      ManagerByMember(front, t);
      ClashesByMember(front, last);
      assert rules == front + [last];
    }
  }

  lemma {:induction false} NamedByMember(rules: seq<Rule>, name: string)
    requires Independent(rules)
    ensures forall r :: r in rules ==> (r.name == name <==> NamedRule(rules, name) == Some(r))
    ensures NamedRule(rules, name).Some? ==> NamedRule(rules, name).value in rules
  {
    if rules != [] {
      var front, last := rules[..|rules| - 1], rules[|rules| - 1];
      NamedByMember(front, name);
      ClashesByMember(front, last);
      assert rules == front + [last];
    }
  }

  /** Each taint's count after the pass is what its managing rule, and no other, makes of it. */
  lemma {:induction false} PassCounts(w: World, node: Node, rules: seq<Rule>, envs: map<string, Env>, t: Taint)
    requires Fresh(w, node) && Independent(rules)
    ensures multiset(Pass(w, node, rules, envs).node.taints)[t]
         == match ManagerOf(rules, t)
            case None => multiset(node.taints)[t]
            case Some(r) => CountAfter(w, node, r, EnvAt(envs, r.name), t)
  {
    hide RuleStep, CompletedKey, SkipsAtStart, ChangeFails, RuleAfter, StoredAfter, Completes, Met;
    if rules != [] {
      var front, last := rules[..|rules| - 1], rules[|rules| - 1];
      var q, env := Pass(w, node, front, envs), EnvAt(envs, last.name);
      PassCounts(w, node, front, envs, t);
      PassLeavesOthersAlone(w, node, front, envs, last);
      RuleStepEffect(w, node, q, last, env);
      if SameIdentity(last.spec.taint, t) {
        NoManager(front, last, t);
        SameCountSameDesired(last, node, q.node, t);
      } else {
        DesiredElsewhere(last, q.node, t);
      }
    }
  }

  lemma {:induction false} NoManager(rules: seq<Rule>, r: Rule, t: Taint)
    requires !Clashes(rules, r) && SameIdentity(r.spec.taint, t)
    ensures ManagerOf(rules, t).None?
  {
    if rules != [] {
      NoManager(rules[..|rules| - 1], r, t);
    }
  }

  lemma SameCountSameDesired(r: Rule, a: Node, b: Node, t: Taint)
    requires a.conditions == b.conditions && SameIdentity(r.spec.taint, t)
    requires HasTaint(a.taints, r.spec.taint) <==> HasTaint(b.taints, r.spec.taint)
    requires multiset(a.taints)[t] == multiset(b.taints)[t]
    ensures multiset(DesiredTaints(r.spec, a))[t] == multiset(DesiredTaints(r.spec, b))[t]
  {
    RemoveTaintCounts(a.taints, r.spec.taint, t);
    RemoveTaintCounts(b.taints, r.spec.taint, t);
  }

  /** Cached and stored rules, by name. */
  lemma {:induction false} PassRecords(w: World, node: Node, rules: seq<Rule>, envs: map<string, Env>, name: string)
    requires Fresh(w, node) && Independent(rules)
    requires forall r :: r in rules ==> r.name in w.cache && w.cache[r.name] == r
    ensures var q, env := Pass(w, node, rules, envs), EnvAt(envs, name);
      && q.world.cache.Keys == w.cache.Keys && q.world.rules.Keys == w.rules.Keys
      && (name in w.cache ==>
            q.world.cache[name] == match NamedRule(rules, name)
                                   case None => w.cache[name]
                                   case Some(r) => RuleAfter(w, node, r, env))
      && (name in w.rules ==>
            q.world.rules[name] == match NamedRule(rules, name)
                                   case None => w.rules[name]
                                   case Some(r) => StoredAfter(w, node, r, env))
  {
    hide RuleStep, Completed, ChangeFails, Completes, Met, SkipsAtStart, StoredAfter, RuleAfter;
    if rules != [] {
      var front, last := rules[..|rules| - 1], rules[|rules| - 1];
      var q := Pass(w, node, front, envs);
      assert rules == front + [last];
      PassRecords(w, node, front, envs, name);
      PassLeavesOthersAlone(w, node, front, envs, last);
      RuleStepRecords(w, node, q, last, EnvAt(envs, last.name));
      RuleAfterSkipped(w, node, last, EnvAt(envs, last.name));
      if last.name == name {
        ClashesByMember(front, last);
        NamedByMember(front, name);
      }
    }
  }

  lemma RuleAfterSkipped(w: World, node: Node, r: Rule, env: Env)
    ensures SkipsAtStart(w, node, r, env) ==> RuleAfter(w, node, r, env) == r
  {
  }

  /** The node's completion annotations, by key. */
  lemma {:induction false} PassAnnotations(w: World, node: Node, rules: seq<Rule>, envs: map<string, Env>, key: string)
    requires Fresh(w, node) && Independent(rules)
    ensures node.name in Pass(w, node, rules, envs).world.nodes
    ensures var q := Pass(w, node, rules, envs);
      var before, after := w.nodes[node.name].annotations, q.world.nodes[node.name].annotations;
      && (key in after <==>
            key in before
            || exists r :: r in rules && CompletedKey(r.name) == key && CompletesNow(w, node, r, EnvAt(envs, r.name)))
      && (key in after ==> after[key] == if key in before then before[key] else "true")
  {
    hide RuleStep, SkipsAtStart, ChangeFails, RuleAfter, StoredAfter, Completes, Met, CompletedKey;
    if rules != [] {
      var front, last := rules[..|rules| - 1], rules[|rules| - 1];
      assert rules == front + [last];
      PassAnnotations(w, node, front, envs, key);
      PassLeavesOthersAlone(w, node, front, envs, last);
      RuleStepEffect(w, node, Pass(w, node, front, envs), last, EnvAt(envs, last.name));
    }
  }

  lemma {:induction false} PassKeepsOtherNodes(w: World, node: Node, rules: seq<Rule>, envs: map<string, Env>)
    requires Fresh(w, node) && Independent(rules)
    ensures var q := Pass(w, node, rules, envs);
      && q.world.nodes.Keys == w.nodes.Keys
      && (forall m :: m in w.nodes && m != node.name ==> q.world.nodes[m] == w.nodes[m])
      && Fresh(q.world, q.node) && q.node.name == node.name
      && q.node.conditions == node.conditions && q.node.labels == node.labels
  {
    hide RuleStep, SkipsAtStart, ChangeFails, RuleAfter, StoredAfter, Completes, Met, CompletedKey;
    if rules != [] {
      var front, last := rules[..|rules| - 1], rules[|rules| - 1];
      PassKeepsOtherNodes(w, node, front, envs);
      PassLeavesOthersAlone(w, node, front, envs, last);
      RuleStepEffect(w, node, Pass(w, node, front, envs), last, EnvAt(envs, last.name));
      RuleStepRecords(w, node, Pass(w, node, front, envs), last, EnvAt(envs, last.name));
    }
  }

  // --------------------------------------------------- what reaches the store

  /** A rule's turn keeps the shape of its cached status. */
  lemma TurnKeepsShape(w: World, node: Node, r: Rule, env: Env)
    requires Shaped(r.status) && node.name != ""
    ensures Shaped(RuleAfter(w, node, r, env).status)
  {
    hide SkipsAtStart, ChangeFails, Met, ResultsOf, FailureMessage, Shaped, WithEvaluation, WithFailure;
    FailureIsShaped(r.status, FailureFor(r, node));
    EvaluationIsShaped(r.status, EntryFor(r, node));
  }

  /** The node has an entry after the turn if it had one or the evaluation succeeded; and likewise for a failure. */
  lemma EntryAfterTurn(w: World, node: Node, r: Rule, env: Env)
    requires !SkipsAtStart(w, node, r, env)
    ensures Evaluated(RuleAfter(w, node, r, env).status.evaluations, node.name)
       <==> Evaluated(r.status.evaluations, node.name) || !ChangeFails(r, node, env)
    ensures Failed(RuleAfter(w, node, r, env).status.failedNodes, node.name)
       <==> Failed(r.status.failedNodes, node.name) || ChangeFails(r, node, env)
  {
    hide SkipsAtStart, ChangeFails, Met, ResultsOf, FailureMessage, Failed, WithFailure;
    WithEvaluationIsKeyed(r.status.evaluations, EntryFor(r, node));
    RecordFailureIsKeyed(r.status.failedNodes, FailureFor(r, node));
  }

  /**
   * A rule's turn on a node reaches the stored status if and only if the status call goes through, the node has an
   * entry (it had one before, or this evaluation succeeded), and the stored lists have room for what is added.
   */
  lemma TurnIsStoredExactly(w: World, node: Node, r: Rule, env: Env)
    requires r.name in w.rules && Accepted(w.rules[r.name].status) && Shaped(r.status) && node.name != ""
    requires !SkipsAtStart(w, node, r, env)
    ensures var latest := w.rules[r.name].status;
      var merged := MergeNodeStatus(latest, RuleAfter(w, node, r, env).status, node.name);
      var failing := Failed(r.status.failedNodes, node.name) || ChangeFails(r, node, env);
      if !env.persistFails && (Evaluated(r.status.evaluations, node.name) || !ChangeFails(r, node, env))
         && HasRoom(latest, node.name, failing)
      then StoredAfter(w, node, r, env) == w.rules[r.name].(status := merged)
      else StoredAfter(w, node, r, env) == w.rules[r.name]
  {
    hide SkipsAtStart, ChangeFails, RuleAfter, Accepted, Shaped, MergeNodeStatus, Evaluated, Failed, HasRoom;
    TurnKeepsShape(w, node, r, env);
    EntryAfterTurn(w, node, r, env);
    MergeIsAcceptedExactly(w.rules[r.name].status, RuleAfter(w, node, r, env).status, node.name);
  }

  /**
   * A failed first evaluation leaves neither its entry nor its failure in the store: the failure is recorded on the
   * cached rule only, because the status with the zero-valued entry is refused.
   */
  lemma FailedFirstEvaluationIsNotStored(w: World, node: Node, r: Rule, env: Env)
    requires Fresh(w, node) && node.name != "" && r.name in w.rules && r.name in w.cache && w.cache[r.name] == r
    requires Accepted(w.rules[r.name].status) && Shaped(r.status)
    requires !SkipsAtStart(w, node, r, env) && ChangeFails(r, node, env) && !Evaluated(r.status.evaluations, node.name)
    ensures var q' := RuleStep(Progress(w, node), r, env).world;
      && q'.rules == w.rules
      && r.name in q'.cache && Failed(q'.cache[r.name].status.failedNodes, node.name)
      && !Evaluated(q'.cache[r.name].status.evaluations, node.name)
  {
    hide RuleStep, SkipsAtStart, ChangeFails, Accepted, StoredAfter, Evaluated, Failed, WithFailure, WithEvaluation;
    RuleStepRecords(w, node, Progress(w, node), r, env);
    TurnIsStoredExactly(w, node, r, env);
    RecordFailureIsKeyed(r.status.failedNodes, FailureFor(r, node));
    assert w.rules == w.rules[r.name := w.rules[r.name]];
  }

  // ------------------------------------------------------ order independence

  /** An order in which the map may yield the cached rules that select the node. */
  ghost predicate IsOrder(rules: seq<Rule>, cache: map<string, Rule>, node: Node) {
    && Distinct(rules)
    && (forall r :: r in rules <==> r.name in cache && cache[r.name] == r && AppliesTo(r, node))
  }

  predicate SameButTaintOrder(a: Node, b: Node) {
    multiset(a.taints) == multiset(b.taints) && a == b.(taints := a.taints)
  }

  /**
   * The order of the rule map does not matter. When no two rules share a taint, every order leads to the same
   * taints, the same annotations, the same cached and the same stored rule statuses, whatever API calls fail.
   */
  lemma OrderIndependent(w: World, node: Node, a: seq<Rule>, b: seq<Rule>, envs: map<string, Env>)
    requires Fresh(w, node)
    requires IsOrder(a, w.cache, node) && IsOrder(b, w.cache, node) && Independent(a) && Independent(b)
    ensures var p, q := Pass(w, node, a, envs), Pass(w, node, b, envs);
      && p.world.cache == q.world.cache && p.world.rules == q.world.rules
      && p.world.nodes.Keys == q.world.nodes.Keys == w.nodes.Keys
      && (forall m :: m in w.nodes && m != node.name ==> p.world.nodes[m] == q.world.nodes[m])
      && SameButTaintOrder(p.world.nodes[node.name], q.world.nodes[node.name])
  {
    hide Pass, IsOrder, Independent, AppliesTo, CountAfter, RuleAfter, StoredAfter, CompletesNow, SkipsAtStart, CompletedKey;
    var p, q := Pass(w, node, a, envs), Pass(w, node, b, envs);
    OrderMembers(a, b, w.cache, node);
    PassKeepsOtherNodes(w, node, a, envs);
    PassKeepsOtherNodes(w, node, b, envs);
    PassRecords(w, node, a, envs, "");
    PassRecords(w, node, b, envs, "");
    forall name ensures name in w.cache ==> p.world.cache[name] == q.world.cache[name]
                ensures name in w.rules ==> p.world.rules[name] == q.world.rules[name]
    {
      PassRecords(w, node, a, envs, name);
      PassRecords(w, node, b, envs, name);
      NamedByMember(a, name);
      NamedByMember(b, name);
    }
    assert p.world.cache == q.world.cache && p.world.rules == q.world.rules;
    forall t ensures multiset(p.node.taints)[t] == multiset(q.node.taints)[t] {
      PassCounts(w, node, a, envs, t);
      PassCounts(w, node, b, envs, t);
      ManagerByMember(a, t);
      ManagerByMember(b, t);
    }
    var n := node.name;
    forall key ensures key in p.world.nodes[n].annotations <==> key in q.world.nodes[n].annotations
               ensures key in p.world.nodes[n].annotations ==>
                         p.world.nodes[n].annotations[key] == q.world.nodes[n].annotations[key]
    {
      PassAnnotations(w, node, a, envs, key);
      PassAnnotations(w, node, b, envs, key);
    }
    assert p.world.nodes[n].annotations == q.world.nodes[n].annotations;
  }

  lemma OrderMembers(a: seq<Rule>, b: seq<Rule>, cache: map<string, Rule>, node: Node)
    requires IsOrder(a, cache, node) && IsOrder(b, cache, node)
    ensures forall r :: r in a <==> r in b
    ensures forall r :: r in a ==> r.name in cache && cache[r.name] == r
  {
  }

  /** No two cached rules that select the node manage the same taint. */
  predicate TaintsDistinct(cache: map<string, Rule>, node: Node) {
    forall x, y :: x in cache && y in cache && x != y && AppliesTo(cache[x], node) && AppliesTo(cache[y], node)
      ==> !SameIdentity(cache[x].spec.taint, cache[y].spec.taint)
  }

  lemma {:induction false} OrderIsIndependent(rules: seq<Rule>, cache: map<string, Rule>, node: Node)
    requires TaintsDistinct(cache, node) && Distinct(rules)
    requires forall r :: r in rules ==> r.name in cache && cache[r.name] == r && AppliesTo(r, node)
    ensures Independent(rules)
  {
    if rules != [] {
      var front, last := rules[..|rules| - 1], rules[|rules| - 1];
      OrderIsIndependent(front, cache, node);
      ClashesByMember(front, last);
      forall q | q in front ensures q.name != last.name && !SameIdentity(q.spec.taint, last.spec.taint) {
        var i :| 0 <= i < |front| && front[i] == q;
        assert rules[i] == q && rules[|rules| - 1] == last;
        assert q in rules && last in rules;
      }
    }
  }

  /** Order independence, and what each rule ends with, in terms of the cache alone. */
  lemma NodeReconcileIsConfluent(w: World, node: Node, a: seq<Rule>, b: seq<Rule>, envs: map<string, Env>, r: Rule)
    requires Fresh(w, node) && TaintsDistinct(w.cache, node)
    requires IsOrder(a, w.cache, node) && IsOrder(b, w.cache, node) && r in a
    ensures var p, q, env := Pass(w, node, a, envs), Pass(w, node, b, envs), EnvAt(envs, r.name);
      && p.world.cache == q.world.cache && p.world.rules == q.world.rules
      && node.name in p.world.nodes && node.name in q.world.nodes
      && SameButTaintOrder(p.world.nodes[node.name], q.world.nodes[node.name])
      && r.name in p.world.cache && p.world.cache[r.name] == RuleAfter(w, node, r, env)
      && (Acts(w, node, r, env) ==> (HasTaint(p.node.taints, r.spec.taint) <==> !Met(r.spec, node)))
  {
    hide Pass, RuleAfter, Acts;
    OrderIsIndependent(a, w.cache, node);
    OrderIsIndependent(b, w.cache, node);
    OrderIndependent(w, node, a, b, envs);
    PassRecordsEachRule(w, node, a, envs, r);
  }

  /** What a rule that neither is deleted nor a dry run, nor has completed bootstrap, does in its own turn. */
  lemma TurnOfActiveRule(w: World, node: Node, r: Rule, env: Env)
    requires !r.deleting && !r.spec.dryRun && node.name in w.nodes
    requires r.spec.mode == Continuous
          || ("readiness.k8s.io/bootstrap-completed-" + r.name) !in w.nodes[node.name].annotations
    ensures Acts(w, node, r, env) <==> !(NeedsChange(r.spec, node) && env.taintFails)
    ensures !(NeedsChange(r.spec, node) && env.taintFails) ==>
      RuleAfter(w, node, r, env).status.evaluations == WithEvaluation(r.status.evaluations, EntryFor(r, node))
  {
    hide NeedsChange, WithEvaluation;
  }

  /** A rule that a node reconcile leaves alone: not selecting the node, marked deleted, or a dry run in either mode. */
  predicate Inactive(r: Rule, node: Node) {
    !AppliesTo(r, node) || r.deleting || r.spec.dryRun
  }

  /**
   * A node reconcile, in any order of the cache and whatever calls fail, leaves an inactive cached rule alone: its cached
   * and its stored status, its completion mark, and its taint, on the node it has fetched and in the store.
   */
  lemma InactiveRulesAreLeftAlone(w: World, node: Node, order: seq<Rule>, envs: map<string, Env>, r: Rule)
    requires Fresh(w, node) && IsOrder(order, w.cache, node) && TaintsDistinct(w.cache, node)
    requires r.name in w.cache && w.cache[r.name] == r && Inactive(r, node)
    requires forall k :: k in w.cache && w.cache[k] != r && AppliesTo(w.cache[k], node)
               ==> !SameIdentity(w.cache[k].spec.taint, r.spec.taint)
    ensures var q := Pass(w, node, order, envs).world;
      && r.name in q.cache && q.cache[r.name] == r
      && (r.name in w.rules ==> r.name in q.rules && q.rules[r.name] == w.rules[r.name])
      && node.name in q.nodes
      && (Completed(q.nodes[node.name], r.name) <==> Completed(w.nodes[node.name], r.name))
      && multiset(q.nodes[node.name].taints)[r.spec.taint] == multiset(node.taints)[r.spec.taint]
      && (HasTaint(q.nodes[node.name].taints, r.spec.taint) <==> HasTaint(node.taints, r.spec.taint))
  {
    hide Pass, RuleAfter, StoredAfter, HasTaint, CountAfter;
    OrderIsIndependent(order, w.cache, node);
    PassKeepsOtherNodes(w, node, order, envs);
    PassRecords(w, node, order, envs, r.name);
    PassAnnotations(w, node, order, envs, CompletedKey(r.name));
    PassCounts(w, node, order, envs, r.spec.taint);
    NamedByMember(order, r.name);
    ManagerByMember(order, r.spec.taint);
    forall k | k in order ensures CompletedKey(k.name) == CompletedKey(r.name) ==> k == r {
      CompletedKeyInjective(k.name, r.name);
    }
    if r in order {
      SkippedTurn(w, node, r, EnvAt(envs, r.name));
    }
    PresenceKept(w, node, order, envs, r);
  }

  lemma SkippedTurn(w: World, node: Node, r: Rule, env: Env)
    requires r.deleting || r.spec.dryRun
    ensures SkipsAtStart(w, node, r, env) && RuleAfter(w, node, r, env) == r && !Acts(w, node, r, env)
    ensures r.name in w.rules ==> StoredAfter(w, node, r, env) == w.rules[r.name]
    ensures CountAfter(w, node, r, env, r.spec.taint) == multiset(node.taints)[r.spec.taint]
  {
  }

  lemma {:induction false} PresenceKept(w: World, node: Node, rules: seq<Rule>, envs: map<string, Env>, r: Rule)
    requires Fresh(w, node) && Independent(rules)
    requires forall c :: c in rules ==> (c == r && (r.deleting || r.spec.dryRun)) || !SameIdentity(c.spec.taint, r.spec.taint)
    ensures HasTaint(Pass(w, node, rules, envs).node.taints, r.spec.taint) <==> HasTaint(node.taints, r.spec.taint)
  {
    hide RuleStep, DesiredTaints, SkipsAtStart, ChangeFails, RuleAfter, StoredAfter, Completes, HasTaint;
    if rules != [] {
      var front, last := rules[..|rules| - 1], rules[|rules| - 1];
      var q, env := Pass(w, node, front, envs), EnvAt(envs, last.name);
      assert rules == front + [last];
      PresenceKept(w, node, front, envs, r);
      PassLeavesOthersAlone(w, node, front, envs, last);
      RuleStepEffect(w, node, q, last, env);
      if last == r && (r.deleting || r.spec.dryRun) {
        SkippedTurn(w, node, r, env);
      } else {
        DesiredElsewhere(last, q.node, r.spec.taint);
      }
    }
  }

  /**
   * A node reconcile settles every other cached rule that selects the node, unless it is bootstrap-only and completed
   * or its taint change is refused: the stored node has the taint exactly when it reports some other status than one of
   * the rule's requirements asks for, and the cached rule has the entry that says so.
   */
  lemma ActiveRulesAreSettled(w: World, node: Node, order: seq<Rule>, envs: map<string, Env>, r: Rule)
    requires Fresh(w, node) && IsOrder(order, w.cache, node) && TaintsDistinct(w.cache, node)
    requires r.name in w.cache && w.cache[r.name] == r && AppliesTo(r, node) && !r.deleting && !r.spec.dryRun
    requires r.spec.mode == Continuous
          || ("readiness.k8s.io/bootstrap-completed-" + r.name) !in w.nodes[node.name].annotations
    requires !(NeedsChange(r.spec, node) && EnvAt(envs, r.name).taintFails)
    ensures var q := Pass(w, node, order, envs).world;
      && node.name in q.nodes
      && (HasTaint(q.nodes[node.name].taints, r.spec.taint)
          <==> exists i :: 0 <= i < |r.spec.conditions| && Unmet(node, r.spec.conditions[i]))
      && r.name in q.cache
      && EvaluationOf(q.cache[r.name].status.evaluations, node.name) == EntryFor(r, node)
      && r.spec == q.cache[r.name].spec
  {
    hide Pass, StoredAfter, HasTaint, NeedsChange, Unmet, Met, Acts, RuleAfter, EntryFor, WithEvaluation;
    var env := EnvAt(envs, r.name);
    OrderIsIndependent(order, w.cache, node);
    PassKeepsOtherNodes(w, node, order, envs);
    assert r in order;
    TurnOfActiveRule(w, node, r, env);
    PassRecordsEachRule(w, node, order, envs, r);
    MetMeansReported(r.spec, node);
    EntryNames(r, node);
    WithEvaluationIsKeyed(r.status.evaluations, EntryFor(r, node));
    SpecIsKept(w, node, r, env);
  }

  lemma EntryNames(r: Rule, node: Node)
    ensures EntryFor(r, node).nodeName == node.name
  {
  }

  lemma SpecIsKept(w: World, node: Node, r: Rule, env: Env)
    ensures RuleAfter(w, node, r, env).spec == r.spec
  {
  }

  // -------------------------------------------------------- bootstrap one-shot

  datatype Step =
    | Reconcile(name: string, order: seq<Rule>, envs: map<string, Env>)
    | Report(name: string, conditions: seq<Condition>)

  /** A node reconcile, on the stored node and the cached rules in any order; or new conditions on a node. */
  ghost function Next(w: World, step: Step): World {
    match step
    case Reconcile(name, order, envs) =>
      if name in w.nodes && IsOrder(order, w.cache, w.nodes[name]) then Pass(w, w.nodes[name], order, envs).world else w
    case Report(name, conditions) =>
      if name in w.nodes then w.(nodes := w.nodes[name := w.nodes[name].(conditions := conditions)]) else w
  }

  ghost function Run(w: World, steps: seq<Step>): World {
    if steps == [] then w else Next(Run(w, steps[..|steps| - 1]), steps[|steps| - 1])
  }

  /** Rule c is a copy of rule r, or manages a different taint. */
  predicate NoRival(c: Rule, r: Rule) {
    && (c.name == r.name ==> c.spec == r.spec)
    && (c.name != r.name ==> !SameIdentity(c.spec.taint, r.spec.taint))
  }

  /** Once the completion is stored and can be read, an evaluation of the rule is skipped: nothing changes. */
  lemma CompletedRuleIsSkipped(q: Progress, r: Rule, env: Env)
    requires q.node.name in q.world.nodes && Completed(q.world.nodes[q.node.name], r.name)
    requires r.spec.mode.BootstrapOnly? && !env.readFails
    ensures RuleStep(q, r, env) == q
  {
  }

  /** What it takes to change the taint of a completed rule: a failed read, a live rule, and a change that goes through. */
  predicate Reopens(r: Rule, node: Node, env: Env) {
    env.readFails && !r.deleting && !r.spec.dryRun && NeedsChange(r.spec, node) && !env.taintFails
  }

  /** A completed bootstrap-only rule keeps the presence of its taint if and only if the turn does not reopen it. */
  lemma FailedReadReopensBootstrap(w: World, node: Node, r: Rule, env: Env)
    requires Fresh(w, node) && Completed(w.nodes[node.name], r.name) && r.spec.mode.BootstrapOnly?
    ensures (HasTaint(RuleStep(Progress(w, node), r, env).node.taints, r.spec.taint) <==> HasTaint(node.taints, r.spec.taint))
       <==> !Reopens(r, node, env)
  {
    hide RuleStep, RuleAfter, StoredAfter, Completes, HasTaint;
    RuleStepEffect(w, node, Progress(w, node), r, env);
    ActsWhenUnread(w, node, r, env);
    RemoveTaintPresence(node.taints, r.spec.taint, r.spec.taint);
    AddTaintPresence(node.taints, r.spec.taint, r.spec.taint);
    if !NeedsChange(r.spec, node) {
      NothingToDesire(r.spec, node);
    }
  }

  lemma ActsWhenUnread(w: World, node: Node, r: Rule, env: Env)
    requires Fresh(w, node) && Completed(w.nodes[node.name], r.name) && r.spec.mode.BootstrapOnly?
    ensures Acts(w, node, r, env) <==>
      env.readFails && !r.deleting && !r.spec.dryRun && !(NeedsChange(r.spec, node) && env.taintFails)
  {
    hide Met, HasTaint;
  }

  lemma NothingToDesire(spec: RuleSpec, node: Node)
    requires !NeedsChange(spec, node)
    ensures HasTaint(DesiredTaints(spec, node), spec.taint) <==> HasTaint(node.taints, spec.taint)
  {
    RemoveTaintPresence(node.taints, spec.taint, spec.taint);
    AddTaintPresence(node.taints, spec.taint, spec.taint);
  }

  lemma StepKeepsCompletion(q: Progress, c: Rule, env: Env, r: Rule)
    requires Fresh(q.world, q.node) && Completed(q.world.nodes[q.node.name], r.name)
    requires r.spec.mode.BootstrapOnly? && NoRival(c, r)
    ensures var q' := RuleStep(q, c, env);
      && Fresh(q'.world, q'.node) && q'.node.name == q.node.name && q'.node.conditions == q.node.conditions
      && q'.world.nodes.Keys == q.world.nodes.Keys
      && Completed(q'.world.nodes[q.node.name], r.name)
      && ((HasTaint(q'.node.taints, r.spec.taint) <==> HasTaint(q.node.taints, r.spec.taint))
          <==> !(c.name == r.name && Reopens(c, q.node, env)))
      && (forall m :: m in q.world.nodes && m != q.node.name ==> q'.world.nodes[m] == q.world.nodes[m])
  {
    hide Acts, DesiredTaints, RuleAfter, StoredAfter, Completes, RuleStep, Reopens;
    RuleStepEffect(q.world, q.node, q, c, env);
    RuleStepRecords(q.world, q.node, q, c, env);
    if c.name == r.name {
      FailedReadReopensBootstrap(q.world, q.node, c, env);
      assert Progress(q.world, q.node) == q;
    } else {
      DesiredElsewhere(c, q.node, r.spec.taint);
    }
  }

  function NameOf(r: Rule): string {
    r.name
  }

  /** Some rule of the list is a copy of rule r whose turn reopens its bootstrap. */
  predicate PassReopens(rules: seq<Rule>, node: Node, envs: map<string, Env>, r: Rule) {
    rules != [] &&
      var last := rules[|rules| - 1];
      || PassReopens(rules[..|rules| - 1], node, envs, r)
      || (last.name == r.name && Reopens(last, node, EnvAt(envs, last.name)))
  }

  lemma {:induction false} NoCopyNoReopening(rules: seq<Rule>, node: Node, envs: map<string, Env>, r: Rule)
    requires forall i :: 0 <= i < |rules| ==> rules[i].name != r.name
    ensures !PassReopens(rules, node, envs, r)
  {
    if rules != [] {
      NoCopyNoReopening(rules[..|rules| - 1], node, envs, r);
    }
  }

  /** A pass over a node with a stored completion keeps it, and keeps the taint exactly when it does not reopen the rule. */
  lemma {:induction false} PassKeepsCompletion(w: World, node: Node, rules: seq<Rule>, envs: map<string, Env>, r: Rule)
    requires Fresh(w, node) && Completed(w.nodes[node.name], r.name)
    requires r.spec.mode.BootstrapOnly? && DistinctBy(rules, NameOf) && forall c :: c in rules ==> NoRival(c, r)
    ensures var q := Pass(w, node, rules, envs);
      && Fresh(q.world, q.node) && q.node.name == node.name && q.node.conditions == node.conditions
      && q.world.nodes.Keys == w.nodes.Keys
      && Completed(q.world.nodes[node.name], r.name)
      && ((HasTaint(q.node.taints, r.spec.taint) <==> HasTaint(node.taints, r.spec.taint))
          <==> !PassReopens(rules, node, envs, r))
      && (forall m :: m in w.nodes && m != node.name ==> q.world.nodes[m] == w.nodes[m])
  {
    hide RuleStep, NoRival, Completed, Reopens;
    if rules != [] {
      var front, last := rules[..|rules| - 1], rules[|rules| - 1];
      assert rules == front + [last];
      assert forall i :: 0 <= i < |front| ==> front[i] == rules[i];
      PassKeepsCompletion(w, node, front, envs, r);
      var q := Pass(w, node, front, envs);
      StepKeepsCompletion(q, last, EnvAt(envs, last.name), r);
      if last.name == r.name {
        assert forall i :: 0 <= i < |front| ==> NameOf(rules[i]) != NameOf(rules[|rules| - 1]);
        NoCopyNoReopening(front, node, envs, r);
        SameReopening(last, node, q.node, EnvAt(envs, last.name), r);
      }
    }
  }

  lemma SameReopening(c: Rule, a: Node, b: Node, env: Env, r: Rule)
    requires NoRival(c, r) && c.name == r.name && a.conditions == b.conditions
    requires HasTaint(a.taints, r.spec.taint) <==> HasTaint(b.taints, r.spec.taint)
    ensures Reopens(c, a, env) <==> Reopens(c, b, env)
  {
  }

  predicate CacheAgrees(cache: map<string, Rule>, r: Rule) {
    forall k :: k in cache ==> cache[k].name == k && NoRival(cache[k], r)
  }

  lemma {:induction false} PassKeepsSpecs(w: World, node: Node, rules: seq<Rule>, envs: map<string, Env>, r: Rule)
    requires CacheAgrees(w.cache, r)
    requires forall c :: c in rules ==> c.name in w.cache && w.cache[c.name].spec == c.spec
    ensures CacheAgrees(Pass(w, node, rules, envs).world.cache, r)
  {
    hide RuleStep, NoRival;
    if rules != [] {
      var front, last := rules[..|rules| - 1], rules[|rules| - 1];
      assert rules == front + [last];
      PassKeepsSpecs(w, node, front, envs, r);
      RivalBySpec(w.cache[last.name], last, r);
      StepKeepsSpecs(Pass(w, node, front, envs), last, EnvAt(envs, last.name), r);
    }
  }

  lemma RivalBySpec(c: Rule, d: Rule, r: Rule)
    requires NoRival(c, r) && c.name == d.name && c.spec == d.spec
    ensures NoRival(d, r)
  {
  }

  lemma StepKeepsSpecs(q: Progress, rule: Rule, env: Env, r: Rule)
    requires CacheAgrees(q.world.cache, r) && NoRival(rule, r)
    ensures CacheAgrees(RuleStep(q, rule, env).world.cache, r)
  {
    hide Process, Skips, MergeNodeStatus, Accepted;
    ProcessKeepsCache(q.world, rule, q.node, env);
  }

  lemma ProcessKeepsCache(w: World, rule: Rule, node: Node, env: Env)
    ensures Process(w, rule, node, env).world.cache == w.cache
  {
  }

  /** Over any run of node reconciles and condition reports, an annotation once stored stays, even when reads fail. */
  lemma {:induction false} CompletionsAreNeverRemoved(w: World, steps: seq<Step>, n: string, key: string)
    requires WellKeyed(w.nodes) && n in w.nodes && key in w.nodes[n].annotations
    ensures var w' := Run(w, steps);
      WellKeyed(w'.nodes) && n in w'.nodes && key in w'.nodes[n].annotations
  {
    hide Pass, IsOrder;
    if steps != [] {
      var front, last := steps[..|steps| - 1], steps[|steps| - 1];
      CompletionsAreNeverRemoved(w, front, n, key);
      var v := Run(w, front);
      if last.Reconcile? && last.name in v.nodes {
        PassKeepsAnnotations(v, v.nodes[last.name], last.order, last.envs, if last.name == n then {key} else {});
      }
    }
  }

  lemma {:induction false} PassKeepsAnnotations(w: World, node: Node, rules: seq<Rule>, envs: map<string, Env>, keys: set<string>)
    requires Fresh(w, node) && keys <= w.nodes[node.name].annotations.Keys
    ensures var q := Pass(w, node, rules, envs);
      && Fresh(q.world, q.node) && q.node.name == node.name
      && q.world.nodes.Keys == w.nodes.Keys
      && keys <= q.world.nodes[node.name].annotations.Keys
      && (forall m :: m in w.nodes && m != node.name ==> q.world.nodes[m] == w.nodes[m])
  {
    hide RuleStep;
    if rules != [] {
      var front, last := rules[..|rules| - 1], rules[|rules| - 1];
      PassKeepsAnnotations(w, node, front, envs, keys);
      var q, env := Pass(w, node, front, envs), EnvAt(envs, last.name);
      RuleStepEffect(q.world, q.node, q, last, env);
      RuleStepRecords(q.world, q.node, q, last, env);
    }
  }

  /** What holds of a world in which rule r has completed on node n. */
  predicate HasCompleted(w: World, n: string, r: Rule) {
    && WellKeyed(w.nodes) && CacheAgrees(w.cache, r) && r.spec.mode.BootstrapOnly?
    && n in w.nodes && Completed(w.nodes[n], r.name)
  }

  /** The step does not reopen the rule on the node. */
  ghost predicate Harmless(w: World, step: Step, n: string, r: Rule) {
    step.Reconcile? && step.name == n && n in w.nodes && IsOrder(step.order, w.cache, w.nodes[n]) ==>
      !PassReopens(step.order, w.nodes[n], step.envs, r)
  }

  predicate Carries(w: World, n: string, r: Rule) {
    n in w.nodes && HasTaint(w.nodes[n].taints, r.spec.taint)
  }

  lemma OrderHasDistinctNames(rules: seq<Rule>, cache: map<string, Rule>, node: Node)
    requires IsOrder(rules, cache, node)
    ensures DistinctBy(rules, NameOf)
  {
    forall i, j | 0 <= i < j < |rules| ensures NameOf(rules[i]) != NameOf(rules[j]) {
      assert rules[i] in rules && rules[j] in rules;
    }
  }

  /** Any step keeps the completion, and keeps the taint exactly when it is harmless. */
  lemma StepIsHarmlessExactly(w: World, step: Step, n: string, r: Rule)
    requires HasCompleted(w, n, r)
    ensures HasCompleted(Next(w, step), n, r)
    ensures (Carries(Next(w, step), n, r) <==> Carries(w, n, r)) <==> Harmless(w, step, n, r)
  {
    hide Pass, NoRival, HasTaint, PassReopens;
    if step.Reconcile? && step.name in w.nodes && IsOrder(step.order, w.cache, w.nodes[step.name]) {
      OrderHasDistinctNames(step.order, w.cache, w.nodes[step.name]);
      PassKeepsSpecs(w, w.nodes[step.name], step.order, step.envs, r);
      PassKeepsAnnotations(w, w.nodes[step.name], step.order, step.envs, {});
      if step.name == n {
        PassKeepsCompletion(w, w.nodes[n], step.order, step.envs, r);
      }
    }
  }

  lemma {:induction false} CompletionStays(w: World, steps: seq<Step>, n: string, r: Rule, i: nat)
    requires HasCompleted(w, n, r) && i <= |steps|
    ensures HasCompleted(Run(w, steps[..i]), n, r)
  {
    hide Next, HasCompleted;
    if i > 0 {
      assert steps[..i][..i - 1] == steps[..i - 1];
      CompletionStays(w, steps, n, r, i - 1);
      StepIsHarmlessExactly(Run(w, steps[..i - 1]), steps[i - 1], n, r);
    }
  }

  /**
   * Bootstrap is one-shot on the node path. Once a bootstrap-only rule's completion is stored on a node, then over any
   * run of node reconciles, in any rule order and under any conditions and failures, the completion stays; and the
   * rule's taint is at every moment as it was at the start if and only if no reconcile reopened the rule: no turn of
   * it had its read fail on a node that needed a change which then went through.
   */
  lemma BootstrapIsOneShot(w: World, steps: seq<Step>, n: string, r: Rule)
    requires HasCompleted(w, n, r)
    ensures HasCompleted(Run(w, steps), n, r)
    ensures (forall i :: 0 <= i <= |steps| ==> (Carries(Run(w, steps[..i]), n, r) <==> Carries(w, n, r)))
       <==> forall i :: 0 <= i < |steps| ==> Harmless(Run(w, steps[..i]), steps[i], n, r)
  {
    hide Next, HasCompleted, Carries, Harmless;
    assert steps[..|steps|] == steps && steps[..0] == [];
    CompletionStays(w, steps, n, r, |steps|);
    forall i | 0 <= i < |steps|
      ensures (Carries(Run(w, steps[..i + 1]), n, r) <==> Carries(Run(w, steps[..i]), n, r))
         <==> Harmless(Run(w, steps[..i]), steps[i], n, r)
    {
      assert steps[..i + 1][..i] == steps[..i];
      CompletionStays(w, steps, n, r, i);
      StepIsHarmlessExactly(Run(w, steps[..i]), steps[i], n, r);
    }
    if forall i :: 0 <= i < |steps| ==> Harmless(Run(w, steps[..i]), steps[i], n, r) {
      forall i | 0 <= i <= |steps| ensures Carries(Run(w, steps[..i]), n, r) <==> Carries(w, n, r) {
        CarriedSoFar(w, steps, n, r, i);
      }
    }
    if forall i :: 0 <= i <= |steps| ==> (Carries(Run(w, steps[..i]), n, r) <==> Carries(w, n, r)) {
      forall i | 0 <= i < |steps| ensures Harmless(Run(w, steps[..i]), steps[i], n, r) {
        assert Carries(Run(w, steps[..i + 1]), n, r) <==> Carries(Run(w, steps[..i]), n, r);
      }
    }
  }

  lemma {:induction false} CarriedSoFar(w: World, steps: seq<Step>, n: string, r: Rule, i: nat)
    requires i <= |steps|
    requires forall k :: 0 <= k < |steps| ==>
      (Carries(Run(w, steps[..k + 1]), n, r) <==> Carries(Run(w, steps[..k]), n, r))
    ensures Carries(Run(w, steps[..i]), n, r) <==> Carries(w, n, r)
  {
    hide Next, Carries;
    if i == 0 {
      assert steps[..0] == [];
    } else {
      CarriedSoFar(w, steps, n, r, i - 1);
    }
  }

  predicate ReadsSucceed(envs: map<string, Env>) {
    forall n :: n in envs ==> !envs[n].readFails
  }

  /** Reads that succeed are harmless, whatever the nodes look like. */
  lemma {:induction false} SuccessfulReadsReopenNothing(rules: seq<Rule>, node: Node, envs: map<string, Env>, r: Rule)
    requires ReadsSucceed(envs)
    ensures !PassReopens(rules, node, envs, r)
  {
    if rules != [] {
      SuccessfulReadsReopenNothing(rules[..|rules| - 1], node, envs, r);
    }
  }

  /** So the taint never changes in a run whose reads succeed. */
  lemma BootstrapIsOneShotWhenReadsSucceed(w: World, steps: seq<Step>, n: string, r: Rule, i: nat)
    requires HasCompleted(w, n, r) && i <= |steps|
    requires forall k :: 0 <= k < |steps| && steps[k].Reconcile? ==> ReadsSucceed(steps[k].envs)
    ensures Carries(Run(w, steps[..i]), n, r) <==> Carries(w, n, r)
  {
    hide Next, HasCompleted, Carries, PassReopens, IsOrder, ReadsSucceed;
    BootstrapIsOneShot(w, steps, n, r);
    forall k | 0 <= k < |steps| ensures Harmless(Run(w, steps[..k]), steps[k], n, r) {
      if steps[k].Reconcile? && n in Run(w, steps[..k]).nodes {
        SuccessfulReadsReopenNothing(steps[k].order, Run(w, steps[..k]).nodes[n], steps[k].envs, r);
      }
    }
  }

  lemma {:induction false} PassIgnoresOthers(w: World, node: Node, rules: seq<Rule>, envs: map<string, Env>,
                                             name: string, env: Env)
    requires forall r :: r in rules ==> r.name != name
    ensures Pass(w, node, rules, envs[name := env]) == Pass(w, node, rules, envs)
  {
    if rules != [] {
      assert rules == rules[..|rules| - 1] + [rules[|rules| - 1]];
      PassIgnoresOthers(w, node, rules[..|rules| - 1], envs, name, env);
    }
  }
}
