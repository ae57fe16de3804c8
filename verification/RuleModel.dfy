// Readiness rules and the bookkeeping of their status: evaluations and failures keyed by node name.
module RuleModel {
  import opened Common
  import opened NodeModel

  datatype ConditionRequirement = ConditionRequirement(ctype: string, required: string)

  datatype EnforcementMode = BootstrapOnly | Continuous

  datatype RuleSpec = RuleSpec(conditions: seq<ConditionRequirement>,
                               mode: EnforcementMode,
                               taint: Taint,
                               nodeSelector: LabelSelector,
                               dryRun: bool)

  datatype ConditionResult = ConditionResult(ctype: string, current: string, required: string)

  /** Unset is the zero value of the status field. */
  datatype TaintStatus = Unset | Present | Absent

  datatype NodeEvaluation = NodeEvaluation(nodeName: string, results: seq<ConditionResult>, taintStatus: TaintStatus)

  datatype NodeFailure = NodeFailure(nodeName: string, reason: string, message: string)

  datatype DryRunResults =
    | NoResults
    | Results(affectedNodes: int, taintsToAdd: int, taintsToRemove: int, riskyOperations: int)

  datatype RuleStatus = RuleStatus(observedGeneration: int,
                                   appliedNodes: seq<string>,
                                   failedNodes: seq<NodeFailure>,
                                   evaluations: seq<NodeEvaluation>,
                                   dryRun: DryRunResults)

  datatype Rule = Rule(name: string, generation: int, finalizer: bool, deleting: bool,
                       spec: RuleSpec, status: RuleStatus)

  predicate AppliesTo(rule: Rule, node: Node) {
    Selects(rule.spec.nodeSelector, node.labels)
  }

  // ------------------------------------------------- lists keyed by node name

  /** No two evaluations are for the same node. */
  predicate UniqueEvaluations(s: seq<NodeEvaluation>) {
    forall i, j :: 0 <= i < j < |s| ==> s[i].nodeName != s[j].nodeName
  }

  predicate UniqueFailures(s: seq<NodeFailure>) {
    forall i, j :: 0 <= i < j < |s| ==> s[i].nodeName != s[j].nodeName
  }

  predicate Evaluated(s: seq<NodeEvaluation>, n: string) {
    exists i :: 0 <= i < |s| && s[i].nodeName == n
  }

  predicate Failed(s: seq<NodeFailure>, n: string) {
    exists i :: 0 <= i < |s| && s[i].nodeName == n
  }

  /** The first entry for a node; the zero-valued entry when there is none. */
  function EvaluationOf(s: seq<NodeEvaluation>, n: string): NodeEvaluation {
    if s == [] then NodeEvaluation("", [], Unset)
    else if s[0].nodeName == n then s[0]
    else EvaluationOf(s[1..], n)
  }

  function FailuresOf(s: seq<NodeFailure>, n: string): seq<NodeFailure> {
    Filter(s, (f: NodeFailure) => f.nodeName == n)
  }

  function FailuresExcept(s: seq<NodeFailure>, n: string): seq<NodeFailure> {
    Filter(s, (f: NodeFailure) => f.nodeName != n)
  }

  function EvaluationsIn(s: seq<NodeEvaluation>, names: set<string>): seq<NodeEvaluation> {
    Filter(s, (e: NodeEvaluation) => e.nodeName in names)
  }

  lemma {:induction false} EvaluationOfIsFirst(s: seq<NodeEvaluation>, k: nat)
    requires k < |s|
    requires forall j :: 0 <= j < k ==> s[j].nodeName != s[k].nodeName
    ensures EvaluationOf(s, s[k].nodeName) == s[k]
  {
    if k > 0 {
      EvaluationOfIsFirst(s[1..], k - 1);
    }
  }

  lemma {:induction false} EvaluationOfMissing(s: seq<NodeEvaluation>, n: string)
    ensures Evaluated(s, n) ==> EvaluationOf(s, n) in s && EvaluationOf(s, n).nodeName == n
    ensures !Evaluated(s, n) ==> EvaluationOf(s, n) == NodeEvaluation("", [], Unset)
  {
    if s != [] && s[0].nodeName != n {
      EvaluationOfMissing(s[1..], n);
      if Evaluated(s, n) {
        var i :| 0 <= i < |s| && s[i].nodeName == n;
        assert s[1..][i - 1].nodeName == n;
      }
      if Evaluated(s[1..], n) {
        var i :| 0 <= i < |s[1..]| && s[1..][i].nodeName == n;
        assert s[i + 1].nodeName == n;
      }
    }
  }

  // --------------------------------------------------- one node's evaluation

  /** Overwrite the first entry of node n, or append. The new entry need not be named n. */
  function PutAt(s: seq<NodeEvaluation>, n: string, e: NodeEvaluation): seq<NodeEvaluation> {
    if s == [] then [e]
    else if s[0].nodeName == n then [e] + s[1..]
    else [s[0]] + PutAt(s[1..], n, e)
  }

  /** Replace the results and taint status of a node's entry, or append a new entry. */
  function WithEvaluation(s: seq<NodeEvaluation>, e: NodeEvaluation): seq<NodeEvaluation> {
    PutAt(s, e.nodeName, e)
  }

  /** The position the entry goes to: that of the node's first entry, or the end. */
  ghost function PlaceOf(s: seq<NodeEvaluation>, n: string): (k: nat)
    ensures k <= |s|
    ensures forall j :: 0 <= j < k ==> s[j].nodeName != n
    ensures k < |s| ==> s[k].nodeName == n
  {
    if s == [] || s[0].nodeName == n then 0 else 1 + PlaceOf(s[1..], n)
  }

  lemma {:induction false} PutAtPosition(s: seq<NodeEvaluation>, n: string, e: NodeEvaluation, k: nat)
    requires k <= |s|
    requires forall j :: 0 <= j < k ==> s[j].nodeName != n
    requires k < |s| ==> s[k].nodeName == n
    ensures PutAt(s, n, e) == if k < |s| then s[k := e] else s + [e]
  {
    if k > 0 {
      PutAtPosition(s[1..], n, e, k - 1);
    }
  }

  lemma {:induction false} PutAtElsewhere(s: seq<NodeEvaluation>, n: string, e: NodeEvaluation, m: string)
    requires m != n && m != e.nodeName
    ensures EvaluationOf(PutAt(s, n, e), m) == EvaluationOf(s, m)
  {
    if s != [] && s[0].nodeName != n {
      PutAtElsewhere(s[1..], n, e, m);
      assert PutAt(s, n, e)[1..] == PutAt(s[1..], n, e);
    } else if s != [] {
      assert PutAt(s, n, e)[1..] == s[1..];
    }
  }

  method FindEvaluation(s: seq<NodeEvaluation>, n: string) returns (k: nat)
    ensures k <= |s|
    ensures forall j :: 0 <= j < k ==> s[j].nodeName != n
    ensures k < |s| ==> s[k].nodeName == n
  {
    k := 0;
    while k < |s|
      invariant k <= |s|
      invariant forall j :: 0 <= j < k ==> s[j].nodeName != n
    {
      if s[k].nodeName == n {
        return;
      }
      k := k + 1;
    }
  }

  method UpdateNodeEvaluationStatus(s: seq<NodeEvaluation>, nodeName: string,
                                    results: seq<ConditionResult>, taintStatus: TaintStatus)
    returns (updated: seq<NodeEvaluation>)
    ensures updated == WithEvaluation(s, NodeEvaluation(nodeName, results, taintStatus))
  {
    var k := FindEvaluation(s, nodeName);
    updated := s;
    if k == |s| {
      updated := updated + [NodeEvaluation(nodeName, [], Unset)];
    }
    updated := updated[k := updated[k].(results := results, taintStatus := taintStatus)];
    PutAtPosition(s, nodeName, NodeEvaluation(nodeName, results, taintStatus), k);
  }

  /** Updating an evaluation keeps the list keyed by node, sets this node's entry and no other. */
  lemma WithEvaluationIsKeyed(s: seq<NodeEvaluation>, e: NodeEvaluation)
    ensures EvaluationOf(WithEvaluation(s, e), e.nodeName) == e
    ensures forall n :: n != e.nodeName ==> EvaluationOf(WithEvaluation(s, e), n) == EvaluationOf(s, n)
    ensures forall n :: Evaluated(WithEvaluation(s, e), n) <==> n == e.nodeName || Evaluated(s, n)
    ensures UniqueEvaluations(s) ==> UniqueEvaluations(WithEvaluation(s, e))
  {
    var k := PlaceOf(s, e.nodeName);
    PutAtPosition(s, e.nodeName, e, k);
    var u := WithEvaluation(s, e);
    EvaluationOfIsFirst(u, k);
    forall n | n != e.nodeName ensures EvaluationOf(u, n) == EvaluationOf(s, n) {
      PutAtElsewhere(s, e.nodeName, e, n);
    }
    forall n ensures Evaluated(u, n) <==> n == e.nodeName || Evaluated(s, n) {
      assert u[k].nodeName == e.nodeName;
      assert forall i :: 0 <= i < |s| ==> u[i].nodeName == s[i].nodeName;
    }
  }

  // ----------------------------------------------------- one node's failures

  method FailuresOfOthers(s: seq<NodeFailure>, nodeName: string) returns (kept: seq<NodeFailure>)
    ensures kept == FailuresExcept(s, nodeName)
  {
    kept := [];
    for i := 0 to |s|
      invariant kept == FailuresExcept(s[..i], nodeName)
    {
      assert s[..i + 1][..i] == s[..i];
      if s[i].nodeName != nodeName {
        kept := kept + [s[i]];
      }
    }
    assert s[..|s|] == s;
  }

  method FailuresOfNode(s: seq<NodeFailure>, nodeName: string) returns (kept: seq<NodeFailure>)
    ensures kept == FailuresOf(s, nodeName)
  {
    kept := [];
    for i := 0 to |s|
      invariant kept == FailuresOf(s[..i], nodeName)
    {
      assert s[..i + 1][..i] == s[..i];
      if s[i].nodeName == nodeName {
        kept := kept + [s[i]];
      }
    }
    assert s[..|s|] == s;
  }

  /** This node's old failures go, the new one comes last. */
  function WithFailure(s: seq<NodeFailure>, f: NodeFailure): seq<NodeFailure> {
    FailuresExcept(s, f.nodeName) + [f]
  }

  method RecordNodeFailure(s: seq<NodeFailure>, nodeName: string, reason: string, message: string)
    returns (updated: seq<NodeFailure>)
    ensures updated == WithFailure(s, NodeFailure(nodeName, reason, message))
  {
    updated := FailuresOfOthers(s, nodeName);
    updated := updated + [NodeFailure(nodeName, reason, message)];
  }

  lemma FailuresSplit(s: seq<NodeFailure>, n: string, m: string)
    ensures FailuresOf(FailuresExcept(s, n), m) == if m == n then [] else FailuresOf(s, m)
    ensures FailuresOf(FailuresOf(s, n), m) == if m == n then FailuresOf(s, n) else []
  {
    var other := (f: NodeFailure) => f.nodeName != n;
    var mine := (f: NodeFailure) => f.nodeName == n;
    var ofM := (f: NodeFailure) => f.nodeName == m;
    FilterOuter(s, other, ofM);
    FilterOuter(s, mine, ofM);
    if m != n {
      FilterInner(s, other, ofM);
    }
  }

  lemma FailuresMembers(s: seq<NodeFailure>, n: string)
    ensures forall f :: f in FailuresExcept(s, n) <==> f in s && f.nodeName != n
    ensures forall f :: f in FailuresOf(s, n) <==> f in s && f.nodeName == n
    ensures UniqueFailures(s) ==> UniqueFailures(FailuresExcept(s, n)) && UniqueFailures(FailuresOf(s, n))
  {
    var other := (f: NodeFailure) => f.nodeName != n;
    var mine := (f: NodeFailure) => f.nodeName == n;
    FilterMembers(s, other);
    FilterMembers(s, mine);
    forall i, j | UniqueFailures(s) && 0 <= i < j < |FailuresExcept(s, n)|
      ensures FailuresExcept(s, n)[i].nodeName != FailuresExcept(s, n)[j].nodeName
    {
      FilterPositions(s, other, i, j);
    }
    forall i, j | UniqueFailures(s) && 0 <= i < j < |FailuresOf(s, n)|
      ensures FailuresOf(s, n)[i].nodeName != FailuresOf(s, n)[j].nodeName
    {
      FilterPositions(s, mine, i, j);
    }
  }

  lemma FailedByMember(s: seq<NodeFailure>, m: string)
    ensures Failed(s, m) <==> exists f :: f in s && f.nodeName == m
  {
    if Failed(s, m) {
      var i :| 0 <= i < |s| && s[i].nodeName == m;
      assert s[i] in s;
    }
  }

  /** Two keyed lists with no node in common make one keyed list. */
  lemma UniqueFailuresSum(a: seq<NodeFailure>, b: seq<NodeFailure>)
    requires UniqueFailures(a) && UniqueFailures(b)
    requires forall f, g :: f in a && g in b ==> f.nodeName != g.nodeName
    ensures UniqueFailures(a + b)
  {
    forall i, j | 0 <= i < j < |a + b| ensures (a + b)[i].nodeName != (a + b)[j].nodeName {
      if i < |a| <= j {
        assert a[i] in a && b[j - |a|] in b;
      }
    }
  }

  /** Recording a failure leaves one entry for its node and every other node's entries alone. */
  lemma RecordFailureTouchesOneNode(s: seq<NodeFailure>, f: NodeFailure, m: string)
    ensures FailuresOf(WithFailure(s, f), m) == if m == f.nodeName then [f] else FailuresOf(s, m)
  {
    FailuresSplit(s, f.nodeName, m);
    FilterSum(FailuresExcept(s, f.nodeName), [f], (g: NodeFailure) => g.nodeName == m);
    assert [f][..0] == [];
  }

  lemma RecordFailureIsKeyed(s: seq<NodeFailure>, f: NodeFailure)
    ensures UniqueFailures(s) ==> UniqueFailures(WithFailure(s, f))
    ensures forall m :: Failed(WithFailure(s, f), m) <==> m == f.nodeName || Failed(s, m)
  {
    FailuresMembers(s, f.nodeName);
    if UniqueFailures(s) {
      UniqueFailuresSum(FailuresExcept(s, f.nodeName), [f]);
    }
    forall m ensures Failed(WithFailure(s, f), m) <==> m == f.nodeName || Failed(s, m) {
      FailedByMember(WithFailure(s, f), m);
      FailedByMember(s, m);
    }
  }

  // ------------------------------------------------------- the per-node merge

  /** What the node reconciler writes into the latest stored status, from its cached rule, for one node. */
  function MergeNodeStatus(latest: RuleStatus, cached: RuleStatus, n: string): RuleStatus {
    latest.(evaluations := PutAt(latest.evaluations, n, EvaluationOf(cached.evaluations, n)),
            failedNodes := FailuresExcept(latest.failedNodes, n) + FailuresOf(cached.failedNodes, n))
  }

  method MergeStatusForNode(latest: RuleStatus, cached: RuleStatus, nodeName: string) returns (merged: RuleStatus)
    ensures merged == MergeNodeStatus(latest, cached, nodeName)
  {
    var currEval := NodeEvaluation("", [], Unset);
    var c := FindEvaluation(cached.evaluations, nodeName);
    if c < |cached.evaluations| {
      currEval := cached.evaluations[c];
      EvaluationOfIsFirst(cached.evaluations, c);
    } else {
      EvaluationOfMissing(cached.evaluations, nodeName);
    }
    var k := FindEvaluation(latest.evaluations, nodeName);
    var evaluations := if k < |latest.evaluations| then latest.evaluations[k := currEval]
                       else latest.evaluations + [currEval];
    PutAtPosition(latest.evaluations, nodeName, currEval, k);
    var kept := FailuresOfOthers(latest.failedNodes, nodeName);
    var moved := FailuresOfNode(cached.failedNodes, nodeName);
    merged := latest.(evaluations := evaluations, failedNodes := kept + moved);
  }

  /** Of the stored evaluations the merge changes at most this node's (and the unnamed one, if it writes that). */
  lemma MergeTouchesOneEvaluation(latest: RuleStatus, cached: RuleStatus, n: string, m: string)
    requires m != n
    requires m != "" || Evaluated(cached.evaluations, n)
    ensures var merged := MergeNodeStatus(latest, cached, n).evaluations;
      && EvaluationOf(merged, m) == EvaluationOf(latest.evaluations, m)
      && (Evaluated(cached.evaluations, n) ==> EvaluationOf(merged, n) == EvaluationOf(cached.evaluations, n))
  {
    var mine := EvaluationOf(cached.evaluations, n);
    EvaluationOfMissing(cached.evaluations, n);
    PutAtElsewhere(latest.evaluations, n, mine, m);
    if Evaluated(cached.evaluations, n) {
      WithEvaluationIsKeyed(latest.evaluations, mine);
    }
  }

  /** The merge leaves what belongs to the rule as a whole, which the rule reconciler writes, as it is stored. */
  lemma MergeKeepsTheRest(latest: RuleStatus, cached: RuleStatus, n: string)
    ensures var merged := MergeNodeStatus(latest, cached, n);
      && merged.observedGeneration == latest.observedGeneration && merged.appliedNodes == latest.appliedNodes
      && merged.dryRun == latest.dryRun
      && |latest.evaluations| <= |merged.evaluations| <= |latest.evaluations| + 1
      && forall i :: 0 <= i < |latest.evaluations| && latest.evaluations[i].nodeName != n ==>
           merged.evaluations[i] == latest.evaluations[i]
  {
    PutAtPosition(latest.evaluations, n, EvaluationOf(cached.evaluations, n), PlaceOf(latest.evaluations, n));
  }

  /** Of the stored failures the merge replaces this node's by the cached ones, in order, and no other's. */
  lemma MergeTouchesOneNodesFailures(latest: RuleStatus, cached: RuleStatus, n: string, m: string)
    ensures FailuresOf(MergeNodeStatus(latest, cached, n).failedNodes, m)
         == FailuresOf(if m == n then cached.failedNodes else latest.failedNodes, m)
  {
    FailuresSplit(latest.failedNodes, n, m);
    FailuresSplit(cached.failedNodes, n, m);
    FilterSum(FailuresExcept(latest.failedNodes, n), FailuresOf(cached.failedNodes, n),
              (f: NodeFailure) => f.nodeName == m);
  }

  lemma MergeKeepsFailuresKeyed(latest: RuleStatus, cached: RuleStatus, n: string)
    requires UniqueFailures(latest.failedNodes) && UniqueFailures(cached.failedNodes)
    ensures UniqueFailures(MergeNodeStatus(latest, cached, n).failedNodes)
  {
    FailuresMembers(latest.failedNodes, n);
    FailuresMembers(cached.failedNodes, n);
    UniqueFailuresSum(FailuresExcept(latest.failedNodes, n), FailuresOf(cached.failedNodes, n));
  }

  lemma MergedEvaluationsKeyedExactly(latest: RuleStatus, cached: RuleStatus, n: string)
    requires UniqueEvaluations(latest.evaluations) && n != ""
    ensures UniqueEvaluations(MergeNodeStatus(latest, cached, n).evaluations)
       <==> Evaluated(cached.evaluations, n) || !Evaluated(latest.evaluations, "")
  {
    var s := latest.evaluations;
    var mine := EvaluationOf(cached.evaluations, n);
    EvaluationOfMissing(cached.evaluations, n);
    var k := PlaceOf(s, n);
    PutAtPosition(s, n, mine, k);
    if Evaluated(cached.evaluations, n) {
      WithEvaluationIsKeyed(s, mine);
    } else if Evaluated(s, "") {
      var i :| 0 <= i < |s| && s[i].nodeName == "";
      var u := PutAt(s, n, mine);
      assert u[i].nodeName == "" && u[k].nodeName == "" && i != k;
    }
  }

  // ------------------------------------------------- what the schema accepts

  predicate NamedEvaluations(s: seq<NodeEvaluation>) {
    forall i :: 0 <= i < |s| ==> s[i].nodeName != "" && s[i].taintStatus != Unset
  }

  predicate NamedFailures(s: seq<NodeFailure>) {
    forall i :: 0 <= i < |s| ==> s[i].nodeName != ""
  }

  /** Lists keyed by node name, names not empty, the taint status one of the two values. */
  predicate Shaped(s: RuleStatus) {
    && UniqueEvaluations(s.evaluations) && NamedEvaluations(s.evaluations)
    && UniqueFailures(s.failedNodes) && NamedFailures(s.failedNodes)
    && Distinct(s.appliedNodes)
  }

  /** The most entries the schema allows in each of the three lists. */
  const MAX_ITEMS := 5000

  predicate Fits(s: RuleStatus) {
    |s.appliedNodes| <= MAX_ITEMS && |s.failedNodes| <= MAX_ITEMS && |s.evaluations| <= MAX_ITEMS
  }

  /**
   * The part of the resource's schema that depends on what the controller does: keys, names, taint status and sizes of
   * the lists. The API server refuses any other status, so a stored one is always accepted; a cached one has the shape,
   * but can be too large.
   */
  predicate Accepted(s: RuleStatus) {
    Shaped(s) && Fits(s)
  }

  lemma {:induction false} FailureCounts(s: seq<NodeFailure>, n: string)
    requires UniqueFailures(s)
    ensures |FailuresOf(s, n)| == if Failed(s, n) then 1 else 0
    ensures |FailuresExcept(s, n)| == |s| - if Failed(s, n) then 1 else 0
  {
    if s != [] {
      var front, last := s[..|s| - 1], s[|s| - 1];
      FailureCounts(front, n);
      assert forall i :: 0 <= i < |front| ==> front[i].nodeName == s[i].nodeName;
      assert Failed(s, n) <==> Failed(front, n) || last.nodeName == n by {
        if last.nodeName == n {
          assert s[|s| - 1].nodeName == n;
        }
      }
    }
  }

  /** On stored evaluations, which all have names, the merge keeps the list keyed by node name in every case. */
  lemma MergeKeepsEvaluationsKeyed(latest: RuleStatus, cached: RuleStatus, n: string)
    requires UniqueEvaluations(latest.evaluations) && NamedEvaluations(latest.evaluations) && n != ""
    ensures UniqueEvaluations(MergeNodeStatus(latest, cached, n).evaluations)
  {
    MergedEvaluationsKeyedExactly(latest, cached, n);
  }

  lemma NamedByMember(s: seq<NodeFailure>)
    ensures NamedFailures(s) <==> forall f :: f in s ==> f.nodeName != ""
  {
    assert NamedFailures(s) ==> forall f :: f in s ==> f.nodeName != "";
    assert (forall f :: f in s ==> f.nodeName != "") ==> forall i :: 0 <= i < |s| ==> s[i] in s;
  }

  /** A new evaluation with a name and a taint status keeps the shape. */
  lemma EvaluationIsShaped(s: RuleStatus, e: NodeEvaluation)
    requires Shaped(s) && e.nodeName != "" && e.taintStatus != Unset
    ensures Shaped(s.(evaluations := WithEvaluation(s.evaluations, e)))
  {
    WithEvaluationIsKeyed(s.evaluations, e);
    PutAtPosition(s.evaluations, e.nodeName, e, PlaceOf(s.evaluations, e.nodeName));
  }

  lemma FailureIsShaped(s: RuleStatus, f: NodeFailure)
    requires Shaped(s) && f.nodeName != ""
    ensures Shaped(s.(failedNodes := WithFailure(s.failedNodes, f)))
  {
    hide UniqueEvaluations, NamedEvaluations;
    RecordFailureIsKeyed(s.failedNodes, f);
    FailuresMembers(s.failedNodes, f.nodeName);
    NamedByMember(s.failedNodes);
    NamedByMember(WithFailure(s.failedNodes, f));
  }

  /** The stored lists have a place for the entry of node n, and if it is failing for its failure. */
  predicate HasRoom(latest: RuleStatus, n: string, failing: bool) {
    && (Evaluated(latest.evaluations, n) || |latest.evaluations| < MAX_ITEMS)
    && (failing ==> Failed(latest.failedNodes, n) || |latest.failedNodes| < MAX_ITEMS)
  }

  /**
   * The status patch of a node's turn is accepted if and only if the cached rule has an entry for the node and the
   * stored lists have room for what it adds. Without the entry the merge puts the zero-valued one in its place, which
   * the API server refuses.
   */
  lemma MergeIsAcceptedExactly(latest: RuleStatus, cached: RuleStatus, n: string)
    requires Accepted(latest) && Shaped(cached) && n != ""
    ensures Accepted(MergeNodeStatus(latest, cached, n))
       <==> Evaluated(cached.evaluations, n) && HasRoom(latest, n, Failed(cached.failedNodes, n))
  {
    hide UniqueEvaluations, NamedEvaluations, UniqueFailures, NamedFailures;
    MergedEntryIsNamedExactly(latest, cached, n);
    MergeKeepsEvaluationsKeyed(latest, cached, n);
    MergeKeepsFailuresKeyed(latest, cached, n);
    MergedFailuresAreNamed(latest, cached, n);
    MergedSizes(latest, cached, n);
  }

  lemma MergedSizes(latest: RuleStatus, cached: RuleStatus, n: string)
    requires UniqueFailures(latest.failedNodes) && UniqueFailures(cached.failedNodes)
    ensures var merged := MergeNodeStatus(latest, cached, n);
      && |merged.evaluations| == |latest.evaluations| + (if Evaluated(latest.evaluations, n) then 0 else 1)
      && |merged.failedNodes| == |latest.failedNodes|
           + (if Failed(cached.failedNodes, n) then 1 else 0) - (if Failed(latest.failedNodes, n) then 1 else 0)
  {
    PutAtPosition(latest.evaluations, n, EvaluationOf(cached.evaluations, n), PlaceOf(latest.evaluations, n));
    FailureCounts(latest.failedNodes, n);
    FailureCounts(cached.failedNodes, n);
  }

  lemma MergedEntryIsNamedExactly(latest: RuleStatus, cached: RuleStatus, n: string)
    requires NamedEvaluations(latest.evaluations) && NamedEvaluations(cached.evaluations) && n != ""
    ensures NamedEvaluations(MergeNodeStatus(latest, cached, n).evaluations) <==> Evaluated(cached.evaluations, n)
  {
    var s, mine := latest.evaluations, EvaluationOf(cached.evaluations, n);
    var k := PlaceOf(s, n);
    EvaluationOfMissing(cached.evaluations, n);
    PutAtPosition(s, n, mine, k);
    assert PutAt(s, n, mine)[k] == mine;
    if Evaluated(cached.evaluations, n) {
      var i :| 0 <= i < |cached.evaluations| && cached.evaluations[i] == mine;
    }
  }

  lemma MergedFailuresAreNamed(latest: RuleStatus, cached: RuleStatus, n: string)
    requires NamedFailures(latest.failedNodes) && NamedFailures(cached.failedNodes)
    ensures NamedFailures(MergeNodeStatus(latest, cached, n).failedNodes)
  {
    var others, mine := FailuresExcept(latest.failedNodes, n), FailuresOf(cached.failedNodes, n);
    FailuresMembers(latest.failedNodes, n);
    FailuresMembers(cached.failedNodes, n);
    NamedByMember(latest.failedNodes);
    NamedByMember(cached.failedNodes);
    NamedByMember(others + mine);
  }

  // ------------------------------------------------------------ deleted nodes

  method KeepExisting(s: seq<NodeEvaluation>, existing: set<string>) returns (kept: seq<NodeEvaluation>)
    ensures kept == EvaluationsIn(s, existing)
  {
    kept := [];
    for i := 0 to |s|
      invariant kept == EvaluationsIn(s[..i], existing)
    {
      assert s[..i + 1][..i] == s[..i];
      if s[i].nodeName in existing {
        kept := kept + [s[i]];
      }
    }
    assert s[..|s|] == s;
  }

  /** Cleanup keeps exactly the entries of existing nodes, in order; an equal length means nothing went. */
  lemma KeepExistingIsKeyed(s: seq<NodeEvaluation>, existing: set<string>)
    ensures |EvaluationsIn(s, existing)| == |s| <==> EvaluationsIn(s, existing) == s
    ensures forall e :: e in EvaluationsIn(s, existing) <==> e in s && e.nodeName in existing
    ensures UniqueEvaluations(s) ==> UniqueEvaluations(EvaluationsIn(s, existing))
  {
    var kept := (e: NodeEvaluation) => e.nodeName in existing;
    FilterMembers(s, kept);
    FilterAll(s, kept);
    forall i, j | UniqueEvaluations(s) && 0 <= i < j < |EvaluationsIn(s, existing)|
      ensures EvaluationsIn(s, existing)[i].nodeName != EvaluationsIn(s, existing)[j].nodeName
    {
      FilterPositions(s, kept, i, j);
    }
  }
}
