// The readiness condition reporter: it writes the result of each health check as one condition of its node.
module ConditionReporter {
  import opened Common
  import opened NodeModel
  import RuleModel
  import Evaluation

  datatype Health = Health(healthy: bool, reason: string, message: string)

  function StatusFor(h: Health): string {
    if h.healthy then "True" else "False"
  }

  /** The condition written for a check, given when the status was last different; zero is the unset time. */
  function NewCondition(ctype: string, h: Health, transition: nat, now: nat): Condition {
    Condition(ctype, StatusFor(h), now, if transition == 0 then now else transition, h.reason, h.message)
  }

  /** The node's conditions after a check: the first condition of the type is replaced, or one is appended. */
  function Report(conditions: seq<Condition>, ctype: string, h: Health, now: nat): seq<Condition> {
    if conditions == [] then [NewCondition(ctype, h, 0, now)]
    else if conditions[0].ctype != ctype then [conditions[0]] + Report(conditions[1..], ctype, h, now)
    else
      var c := conditions[0];
      [NewCondition(ctype, h, if c.status == StatusFor(h) then c.lastTransition else 0, now)] + conditions[1..]
  }

  lemma {:induction false} ReportAt(conditions: seq<Condition>, ctype: string, h: Health, now: nat, k: nat)
    requires k <= |conditions|
    requires forall j :: 0 <= j < k ==> conditions[j].ctype != ctype
    requires k < |conditions| ==> conditions[k].ctype == ctype
    ensures Report(conditions, ctype, h, now)
         == if k == |conditions| then conditions + [NewCondition(ctype, h, 0, now)]
            else conditions[k := NewCondition(
                   ctype, h, if conditions[k].status == StatusFor(h) then conditions[k].lastTransition else 0, now)]
  {
    if k > 0 {
      ReportAt(conditions[1..], ctype, h, now, k - 1);
    }
  }

  // -------------------------------------------------------------- the update

  const MAX_ATTEMPTS := 5

  datatype Reply = Updated | Conflict | Refused

  /**
   * The API server's copy of one node's conditions. Others may write conditions of other types at any time, and calls may
   * fail; the disturbances count how often either happened.
   */
  class NodeStatus {
    var conditions: seq<Condition>
    var version: nat
    ghost var disturbances: nat

    constructor (conditions: seq<Condition>)
      ensures this.conditions == conditions
    {
      this.conditions, this.version, this.disturbances := conditions, 1, 0;
    }

    method Get() returns (ok: bool, conditions: seq<Condition>, version: nat)
      modifies this`disturbances
      ensures ok ==> conditions == this.conditions && version == this.version
      ensures disturbances >= old(disturbances) && (disturbances == old(disturbances) ==> ok)
    {
      if * {
        disturbances := disturbances + 1;
        return false, [], 0;
      }
      return true, this.conditions, this.version;
    }

    /** A full update, refused with a conflict when the version has moved. */
    method UpdateStatus(conditions: seq<Condition>, version: nat, others: seq<Condition>, ctype: string)
      returns (reply: Reply)
      requires version <= this.version && OfType(others, ctype) == OfType(this.conditions, ctype)
      modifies this
      ensures reply.Updated? ==> version == old(this.version) && this.conditions == conditions
      ensures !reply.Updated? ==> OfType(this.conditions, ctype) == OfType(old(this.conditions), ctype)
      ensures disturbances >= old(disturbances)
      ensures disturbances == old(disturbances) && version == old(this.version) ==> reply.Updated?
    {
      if * {
        this.conditions, this.version, this.disturbances := others, this.version + 1, this.disturbances + 1;
      }
      if version != this.version {
        return Conflict;
      }
      if * {
        disturbances := disturbances + 1;
        return Refused;
      }
      this.conditions, this.version := conditions, this.version + 1;
      return Updated;
    }
  }

  method Now() returns (now: nat) {
    now :| true;
  }

  method OutsideWrite(conditions: seq<Condition>, ctype: string) returns (others: seq<Condition>)
    ensures OfType(others, ctype) == OfType(conditions, ctype)
  {
    others :| OfType(others, ctype) == OfType(conditions, ctype);
  }

  /** The two scans: keep the transition time of an equal status, then overwrite or append. */
  method WithReport(conditions: seq<Condition>, ctype: string, h: Health, now: nat) returns (updated: seq<Condition>)
    ensures updated == Report(conditions, ctype, h, now)
  {
    var status := if h.healthy then "True" else "False";
    var transitionTime := 0;
    var k := 0;
    while k < |conditions|
      invariant k <= |conditions| && transitionTime == 0
      invariant forall j :: 0 <= j < k ==> conditions[j].ctype != ctype
    {
      if conditions[k].ctype == ctype {
        if conditions[k].status == status {
          transitionTime := conditions[k].lastTransition;
        }
        break;
      }
      k := k + 1;
    }
    if transitionTime == 0 {
      transitionTime := now;
    }
    var condition := Condition(ctype, status, now, transitionTime, h.reason, h.message);
    updated := conditions;
    var found := false;
    for i := 0 to |conditions|
      invariant !found && updated == conditions
      invariant forall j :: 0 <= j < i ==> conditions[j].ctype != ctype
    {
      if conditions[i].ctype == ctype {
        updated := updated[i := condition];
        found := true;
        break;
      }
    }
    if !found {
      updated := updated + [condition];
    }
    ReportAt(conditions, ctype, h, now, k);
  }

  /**
   * A successful update writes the report of a status in which nobody else had touched this condition; and undisturbed
   * the update succeeds, on the status it found.
   */
  method UpdateNodeCondition(node: NodeStatus, ctype: string, h: Health)
    returns (ok: bool, ghost base: seq<Condition>, ghost now: nat)
    modifies node
    ensures ok ==> OfType(base, ctype) == OfType(old(node.conditions), ctype)
    ensures ok ==> node.conditions == Report(base, ctype, h, now)
    ensures !ok ==> OfType(node.conditions, ctype) == OfType(old(node.conditions), ctype)
    ensures node.disturbances >= old(node.disturbances)
    ensures node.disturbances == old(node.disturbances) ==> ok && base == old(node.conditions)
  {
    ok, base, now := false, [], 0;
    for attempt := 0 to MAX_ATTEMPTS
      invariant !ok && OfType(node.conditions, ctype) == OfType(old(node.conditions), ctype)
      invariant node.disturbances >= old(node.disturbances)
      invariant node.disturbances == old(node.disturbances) ==> attempt == 0 && node.conditions == old(node.conditions)
    {
      var fetched, conditions, version := node.Get();
      if !fetched {
        return;
      }
      var time := Now();
      var updated := WithReport(conditions, ctype, h, time);
      var others := OutsideWrite(conditions, ctype);
      var reply := node.UpdateStatus(updated, version, others, ctype);
      match reply {
        case Updated =>
          return true, conditions, time;
        case Refused =>
          return;
        case Conflict =>
      }
    }
  }

  // ------------------------------------------------------ one check at a time

  function Mine(ctype: string): Condition -> bool {
    (c: Condition) => c.ctype == ctype
  }

  function Foreign(ctype: string): Condition -> bool {
    (c: Condition) => c.ctype != ctype
  }

  function OfType(conditions: seq<Condition>, ctype: string): seq<Condition> {
    Filter(conditions, Mine(ctype))
  }

  function NotOfType(conditions: seq<Condition>, ctype: string): seq<Condition> {
    Filter(conditions, Foreign(ctype))
  }

  lemma FilterFirst(c: Condition, rest: seq<Condition>, p: Condition -> bool)
    ensures Filter([c] + rest, p) == (if p(c) then [c] else []) + Filter(rest, p)
  {
    FilterSum([c], rest, p);
    assert [c][..0] == [];
  }

  /** A check changes only the first condition of its type; all other conditions keep content and order. */
  lemma {:induction false} ReportTouchesOneType(conditions: seq<Condition>, ctype: string, h: Health, now: nat)
    ensures NotOfType(Report(conditions, ctype, h, now), ctype) == NotOfType(conditions, ctype)
    ensures OfType(Report(conditions, ctype, h, now), ctype) == Report(OfType(conditions, ctype), ctype, h, now)
  {
    hide Filter;
    if conditions == [] {
      FilterOfNothing(Mine(ctype));
      FilterOfNothing(Foreign(ctype));
      FilterFirst(NewCondition(ctype, h, 0, now), [], Mine(ctype));
      FilterFirst(NewCondition(ctype, h, 0, now), [], Foreign(ctype));
      assert [NewCondition(ctype, h, 0, now)] + [] == [NewCondition(ctype, h, 0, now)];
    } else {
      var first, rest, r := conditions[0], conditions[1..], Report(conditions, ctype, h, now);
      assert conditions == [first] + rest && r == [r[0]] + r[1..];
      FilterFirst(first, rest, Mine(ctype));
      FilterFirst(first, rest, Foreign(ctype));
      FilterFirst(r[0], r[1..], Mine(ctype));
      FilterFirst(r[0], r[1..], Foreign(ctype));
      assert ([first] + OfType(rest, ctype))[1..] == OfType(rest, ctype);
      if first.ctype != ctype {
        ReportTouchesOneType(rest, ctype, h, now);
        assert r[1..] == Report(rest, ctype, h, now);
        assert [] + OfType(rest, ctype) == OfType(rest, ctype);
      } else {
        assert r[1..] == rest;
      }
    }
  }

  lemma FilterOfNothing(p: Condition -> bool)
    ensures Filter([], p) == []
  {
  }

  // ------------------------------------------------------------------ history

  /** A successful check, or anybody's change that leaves the conditions of this type alone. */
  datatype Step = Check(health: Health, now: nat) | Outside(conditions: seq<Condition>)

  function Next(conditions: seq<Condition>, ctype: string, step: Step): seq<Condition> {
    match step
    case Check(h, now) => Report(conditions, ctype, h, now)
    case Outside(others) => if OfType(others, ctype) == OfType(conditions, ctype) then others else conditions
  }

  function Run(conditions: seq<Condition>, ctype: string, steps: seq<Step>): seq<Condition> {
    if steps == [] then conditions else Next(Run(conditions, ctype, steps[..|steps| - 1]), ctype, steps[|steps| - 1])
  }

  /** Step i is the first check of the last run of equal results. */
  predicate StartsTrailingRun(steps: seq<Step>, i: nat) {
    && i < |steps| && steps[i].Check?
    && (forall j :: i < j < |steps| && steps[j].Check? ==> steps[j].health.healthy == steps[i].health.healthy)
    && ((forall j :: 0 <= j < i ==> !steps[j].Check?)
        || exists k :: 0 <= k < i && EndsOtherRun(steps, k, i))
  }

  /** Step k is the last check before step i, and its result differs. */
  predicate EndsOtherRun(steps: seq<Step>, k: nat, i: nat)
    requires k < i < |steps| && steps[i].Check?
  {
    && steps[k].Check? && steps[k].health.healthy != steps[i].health.healthy
    && forall j :: k < j < i ==> !steps[j].Check?
  }

  /** Step l is the last check. */
  predicate IsLastCheck(steps: seq<Step>, l: nat) {
    l < |steps| && steps[l].Check? && forall j :: l < j < |steps| ==> !steps[j].Check?
  }

  lemma TrailingRunGrows(steps: seq<Step>, i: nat, l: nat)
    requires steps != []
    requires var front := steps[..|steps| - 1]; StartsTrailingRun(front, i) && IsLastCheck(front, l)
    ensures var last := steps[|steps| - 1];
      if last.Check? && last.health.healthy != steps[l].health.healthy then StartsTrailingRun(steps, |steps| - 1)
      else StartsTrailingRun(steps, i)
  {
    var front, n := steps[..|steps| - 1], |steps| - 1;
    assert forall j :: 0 <= j < n ==> front[j] == steps[j];
    assert i <= l;
    if steps[n].Check? && steps[n].health.healthy != steps[l].health.healthy {
      assert EndsOtherRun(steps, l, n);
    } else if exists j :: 0 <= j < i && front[j].Check? {
      var k :| 0 <= k < i && EndsOtherRun(front, k, i);
      assert EndsOtherRun(steps, k, i);
    }
  }

  /** The condition tells the first and the last check of the last run of equal results. */
  ghost predicate Tells(conditions: seq<Condition>, ctype: string, steps: seq<Step>, i: nat, l: nat) {
    && StartsTrailingRun(steps, i) && IsLastCheck(steps, l)
    && OfType(conditions, ctype) == [NewCondition(ctype, steps[l].health, steps[i].now, steps[l].now)]
  }

  lemma StepTells(before: seq<Condition>, ctype: string, steps: seq<Step>, i: nat, l: nat) returns (i': nat, l': nat)
    requires steps != [] && Tells(before, ctype, steps[..|steps| - 1], i, l)
    requires steps[i].now != 0
    ensures Tells(Next(before, ctype, steps[|steps| - 1]), ctype, steps, i', l')
  {
    hide StartsTrailingRun, Filter;
    var n := |steps| - 1;
    i', l' := i, l;
    RunHasOneResult(steps[..n], i, l);
    TrailingRunGrows(steps, i, l);
    if steps[n].Check? {
      ReportTouchesOneType(before, ctype, steps[n].health, steps[n].now);
      ReportOne(OfType(before, ctype)[0], ctype, steps[n].health, steps[n].now);
      i', l' := if steps[n].health.healthy != steps[l].health.healthy then n else i, n;
    }
  }

  lemma ReportOne(c: Condition, ctype: string, h: Health, now: nat)
    requires c.ctype == ctype
    ensures Report([c], ctype, h, now)
         == [NewCondition(ctype, h, if c.status == StatusFor(h) then c.lastTransition else 0, now)]
  {
  }

  lemma RunHasOneResult(steps: seq<Step>, i: nat, l: nat)
    requires StartsTrailingRun(steps, i) && IsLastCheck(steps, l)
    ensures i <= l && steps[i].Check? && steps[i].health.healthy == steps[l].health.healthy
  {
  }

  /**
   * The transition time tells the history. After any sequence of checks at non-zero times, from a node without
   * such a condition, the node has exactly one condition of the type: its status, reason, message and heartbeat are
   * those of the last check, and its transition time is that of the first check in the last run of equal results.
   */
  lemma {:induction false} TransitionTimeTellsHistory(conditions: seq<Condition>, ctype: string, steps: seq<Step>)
    returns (i: nat, l: nat)
    requires OfType(conditions, ctype) == []
    requires forall j :: 0 <= j < |steps| && steps[j].Check? ==> steps[j].now != 0
    requires exists j :: 0 <= j < |steps| && steps[j].Check?
    ensures StartsTrailingRun(steps, i) && IsLastCheck(steps, l)
    ensures OfType(Run(conditions, ctype, steps), ctype)
         == [Condition(ctype, if steps[l].health.healthy then "True" else "False", steps[l].now, steps[i].now,
                       steps[l].health.reason, steps[l].health.message)]
  {
    hide OfType, StartsTrailingRun;
    var n := |steps| - 1;
    var front := steps[..n];
    var before := Run(conditions, ctype, front);
    if exists j :: 0 <= j < n && steps[j].Check? {
      var j :| 0 <= j < n && steps[j].Check?;
      assert front[j].Check?;
      i, l := TransitionTimeTellsHistory(conditions, ctype, front);
      RunHasOneResult(front, i, l);
      assert steps[i] == front[i];
      i, l := StepTells(before, ctype, steps, i, l);
    } else {
      i, l := n, n;
      NothingBeforeTheFirstCheck(conditions, ctype, front);
      FirstCheckStartsARun(steps);
      ReportTouchesOneType(before, ctype, steps[n].health, steps[n].now);
    }
    RunHasOneResult(steps, i, l);
  }

  lemma FirstCheckStartsARun(steps: seq<Step>)
    requires steps != [] && steps[|steps| - 1].Check? && forall j :: 0 <= j < |steps| - 1 ==> !steps[j].Check?
    ensures StartsTrailingRun(steps, |steps| - 1)
  {
  }

  lemma {:induction false} NothingBeforeTheFirstCheck(conditions: seq<Condition>, ctype: string, steps: seq<Step>)
    requires OfType(conditions, ctype) == []
    requires forall j :: 0 <= j < |steps| ==> !steps[j].Check?
    ensures OfType(Run(conditions, ctype, steps), ctype) == []
  {
    if steps != [] {
      NothingBeforeTheFirstCheck(conditions, ctype, steps[..|steps| - 1]);
    }
  }

  /** With no other writer, all other conditions of the node keep content and order through any number of checks. */
  lemma {:induction false} OtherConditionsAreKept(conditions: seq<Condition>, ctype: string, steps: seq<Step>)
    requires forall j :: 0 <= j < |steps| ==> steps[j].Check?
    ensures NotOfType(Run(conditions, ctype, steps), ctype) == NotOfType(conditions, ctype)
  {
    if steps != [] {
      var front, last := steps[..|steps| - 1], steps[|steps| - 1];
      OtherConditionsAreKept(conditions, ctype, front);
      ReportTouchesOneType(Run(conditions, ctype, front), ctype, last.health, last.now);
    }
  }

  lemma {:induction false} StatusIsThatOfType(conditions: seq<Condition>, ctype: string)
    ensures StatusOf(conditions, ctype)
         == if OfType(conditions, ctype) == [] then UNKNOWN else OfType(conditions, ctype)[0].status
  {
    if conditions != [] {
      assert conditions == [conditions[0]] + conditions[1..];
      FilterFirst(conditions[0], conditions[1..], Mine(ctype));
      StatusIsThatOfType(conditions[1..], ctype);
    }
  }

  /** What the controller reads for the condition type is the result of the last check, "True" or "False". */
  lemma ControllerReadsLastCheck(conditions: seq<Condition>, ctype: string, steps: seq<Step>, l: nat)
    requires OfType(conditions, ctype) == [] && IsLastCheck(steps, l)
    requires forall j :: 0 <= j < |steps| && steps[j].Check? ==> steps[j].now != 0
    ensures StatusOf(Run(conditions, ctype, steps), ctype) == if steps[l].health.healthy then "True" else "False"
  {
    var i, last := TransitionTimeTellsHistory(conditions, ctype, steps);
    StatusIsThatOfType(Run(conditions, ctype, steps), ctype);
  }

  /** So a rule that requires "True" of it has this requirement met exactly when the last check was healthy. */
  lemma RequirementTellsHealth(node: Node, conditions: seq<Condition>, ctype: string, steps: seq<Step>, l: nat)
    requires OfType(conditions, ctype) == [] && IsLastCheck(steps, l)
    requires forall j :: 0 <= j < |steps| && steps[j].Check? ==> steps[j].now != 0
    requires node.conditions == Run(conditions, ctype, steps)
    ensures Evaluation.Unmet(node, RuleModel.ConditionRequirement(ctype, "True")) <==> !steps[l].health.healthy
    ensures Evaluation.Unmet(node, RuleModel.ConditionRequirement(ctype, "False")) <==> steps[l].health.healthy
  {
    hide Reports;
    ControllerReadsLastCheck(conditions, ctype, steps, l);
    StatusIsReported(node.conditions, ctype, "True");
    StatusIsReported(node.conditions, ctype, "False");
  }

  /**
   * From the health check to the taint: evaluated on the node as the reporter left it, a rule that requires just this
   * condition leaves the node tainted exactly when the last check was unhealthy.
   */
  lemma HealthDecidesTheTaint(w: Evaluation.World, rule: RuleModel.Rule, node: Node, env: Evaluation.Env,
                              conditions: seq<Condition>, ctype: string, steps: seq<Step>, l: nat)
    requires OfType(conditions, ctype) == [] && IsLastCheck(steps, l)
    requires forall j :: 0 <= j < |steps| && steps[j].Check? ==> steps[j].now != 0
    requires node.conditions == Run(conditions, ctype, steps)
    requires rule.spec.conditions == [RuleModel.ConditionRequirement(ctype, "True")]
    requires Evaluation.Fresh(w, node) && !Evaluation.Evaluate(w, rule, node, env).failed
    ensures node.name in Evaluation.Evaluate(w, rule, node, env).world.nodes
    ensures HasTaint(Evaluation.Evaluate(w, rule, node, env).world.nodes[node.name].taints, rule.spec.taint)
       <==> !steps[l].health.healthy
  {
    hide Evaluation.Evaluate, Evaluation.Unmet, Run;
    RequirementTellsHealth(node, conditions, ctype, steps, l);
    Evaluation.TaintTellsUnmetConditions(w, rule, node, env);
    assert rule.spec.conditions[0] == RuleModel.ConditionRequirement(ctype, "True");
  }
}
