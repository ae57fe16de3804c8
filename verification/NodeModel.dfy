// Nodes as the controller sees them: labels, conditions, taints and annotations,
// with the list operations the controller performs on taints and conditions.
module NodeModel {
  import opened Common

  const UNKNOWN := "Unknown"

  datatype Taint = Taint(key: string, value: string, effect: string)

  datatype Condition = Condition(ctype: string, status: string,
                                 lastHeartbeat: nat, lastTransition: nat,
                                 reason: string, message: string)

  datatype Node = Node(name: string,
                       labels: map<string, string>,
                       conditions: seq<Condition>,
                       taints: seq<Taint>,
                       annotations: map<string, string>)

  // ---------------------------------------------------------------- taints

  /** Two taints are the same one when key and effect agree; the value does not matter. */
  predicate SameIdentity(a: Taint, b: Taint) {
    a.key == b.key && a.effect == b.effect
  }

  predicate HasTaint(taints: seq<Taint>, t: Taint) {
    exists i :: 0 <= i < |taints| && SameIdentity(taints[i], t)
  }

  function AddTaint(taints: seq<Taint>, t: Taint): seq<Taint> {
    if HasTaint(taints, t) then taints else taints + [t]
  }

  function RemoveTaint(taints: seq<Taint>, t: Taint): seq<Taint> {
    Filter(taints, (u: Taint) => !SameIdentity(u, t))
  }

  method HasTaintBySpec(taints: seq<Taint>, t: Taint) returns (found: bool)
    ensures found <==> HasTaint(taints, t)
  {
    for i := 0 to |taints|
      invariant forall j :: 0 <= j < i ==> !SameIdentity(taints[j], t)
    {
      if taints[i].key == t.key && taints[i].effect == t.effect {
        return true;
      }
    }
    return false;
  }

  /** The loop that rebuilds the taint list without the given taint. */
  method WithoutTaint(taints: seq<Taint>, t: Taint) returns (kept: seq<Taint>)
    ensures kept == RemoveTaint(taints, t)
  {
    kept := [];
    for i := 0 to |taints|
      invariant kept == RemoveTaint(taints[..i], t)
    {
      assert taints[..i + 1][..i] == taints[..i];
      if taints[i].key != t.key || taints[i].effect != t.effect {
        kept := kept + [taints[i]];
      }
    }
    assert taints[..|taints|] == taints;
  }

  /** Removal deletes every copy of the taint, and of every other taint keeps every copy. */
  lemma RemoveTaintCounts(taints: seq<Taint>, t: Taint, u: Taint)
    ensures multiset(RemoveTaint(taints, t))[u]
         == if SameIdentity(u, t) then 0 else multiset(taints)[u]
  {
    FilterCounts(taints, (v: Taint) => !SameIdentity(v, t), u);
  }

  lemma HasTaintByMember(taints: seq<Taint>, t: Taint)
    ensures HasTaint(taints, t) <==> exists u :: u in taints && SameIdentity(u, t)
  {
    if HasTaint(taints, t) {
      var i :| 0 <= i < |taints| && SameIdentity(taints[i], t);
      assert taints[i] in taints;
    }
  }

  lemma RemoveTaintPresence(taints: seq<Taint>, t: Taint, u: Taint)
    ensures HasTaint(RemoveTaint(taints, t), u) <==> HasTaint(taints, u) && !SameIdentity(t, u)
  {
    HasTaintByMember(taints, u);
    HasTaintByMember(RemoveTaint(taints, t), u);
    FilterMembers(taints, (v: Taint) => !SameIdentity(v, t));
  }

  lemma RemoveAbsentTaint(taints: seq<Taint>, t: Taint)
    requires !HasTaint(taints, t)
    ensures RemoveTaint(taints, t) == taints
  {
    HasTaintByMember(taints, t);
    FilterAll(taints, (v: Taint) => !SameIdentity(v, t));
  }

  lemma AddTaintPresence(taints: seq<Taint>, t: Taint, u: Taint)
    ensures HasTaint(AddTaint(taints, t), u) <==> HasTaint(taints, u) || SameIdentity(t, u)
  {
    var added := taints + [t];
    if HasTaint(taints, u) {
      var i :| 0 <= i < |taints| && SameIdentity(taints[i], u);
      assert SameIdentity(added[i], u);
    }
    assert SameIdentity(t, u) ==> SameIdentity(added[|taints|], u);
    if HasTaint(added, u) {
      var i :| 0 <= i < |added| && SameIdentity(added[i], u);
      assert i == |taints| || SameIdentity(taints[i], u);
    }
  }

  /** Adding and removing one taint both leave every other taint in place and in order. */
  lemma OtherTaintsKept(taints: seq<Taint>, t: Taint)
    ensures RemoveTaint(AddTaint(taints, t), t) == RemoveTaint(taints, t)
    ensures RemoveTaint(RemoveTaint(taints, t), t) == RemoveTaint(taints, t)
  {
    var other := (v: Taint) => !SameIdentity(v, t);
    FilterOuter(taints, other, other);
    FilterSum(taints, [t], other);
  }

  // ------------------------------------------------------------ conditions

  /** The status of the first condition of a type; Unknown when there is none. */
  function StatusOf(conditions: seq<Condition>, ctype: string): string {
    if conditions == [] then UNKNOWN
    else if conditions[0].ctype == ctype then conditions[0].status
    else StatusOf(conditions[1..], ctype)
  }

  lemma {:induction false} StatusOfFirst(conditions: seq<Condition>, ctype: string, k: nat)
    requires k < |conditions| && conditions[k].ctype == ctype
    requires forall j :: 0 <= j < k ==> conditions[j].ctype != ctype
    ensures StatusOf(conditions, ctype) == conditions[k].status
  {
    if k > 0 {
      StatusOfFirst(conditions[1..], ctype, k - 1);
    }
  }

  lemma {:induction false} StatusOfNone(conditions: seq<Condition>, ctype: string)
    requires forall j :: 0 <= j < |conditions| ==> conditions[j].ctype != ctype
    ensures StatusOf(conditions, ctype) == UNKNOWN
  {
    if conditions != [] {
      StatusOfNone(conditions[1..], ctype);
    }
  }

  /** What a node reports for a condition type, without a lookup: its first condition decides, none means "Unknown". */
  predicate Reports(conditions: seq<Condition>, ctype: string, status: string) {
    || (exists k :: 0 <= k < |conditions| && IsFirst(conditions, ctype, k) && conditions[k].status == status)
    || (status == "Unknown" && forall k :: 0 <= k < |conditions| ==> conditions[k].ctype != ctype)
  }

  predicate IsFirst(conditions: seq<Condition>, ctype: string, k: nat)
    requires k < |conditions|
  {
    conditions[k].ctype == ctype && forall j :: 0 <= j < k ==> conditions[j].ctype != ctype
  }

  /** Every node reports exactly one status for each type, and the lookup finds it. */
  lemma StatusIsReported(conditions: seq<Condition>, ctype: string, status: string)
    ensures StatusOf(conditions, ctype) == status <==> Reports(conditions, ctype, status)
  {
    if forall k :: 0 <= k < |conditions| ==> conditions[k].ctype != ctype {
      StatusOfNone(conditions, ctype);
    } else {
      var k := FirstOfType(conditions, ctype);
      StatusOfFirst(conditions, ctype, k);
      assert IsFirst(conditions, ctype, k);
      assert forall i :: 0 <= i < |conditions| && IsFirst(conditions, ctype, i) ==> i == k;
    }
  }

  lemma {:induction false} FirstOfType(conditions: seq<Condition>, ctype: string) returns (k: nat)
    requires exists i :: 0 <= i < |conditions| && conditions[i].ctype == ctype
    ensures k < |conditions| && IsFirst(conditions, ctype, k)
  {
    var i :| 0 <= i < |conditions| && conditions[i].ctype == ctype;
    if conditions[0].ctype == ctype {
      k := 0;
    } else {
      assert conditions[1..][i - 1].ctype == ctype;
      k := FirstOfType(conditions[1..], ctype);
      k := k + 1;
    }
  }

  method GetConditionStatus(conditions: seq<Condition>, ctype: string) returns (status: string)
    ensures status == StatusOf(conditions, ctype)
  {
    for i := 0 to |conditions|
      invariant forall j :: 0 <= j < i ==> conditions[j].ctype != ctype
    {
      if conditions[i].ctype == ctype {
        StatusOfFirst(conditions, ctype, i);
        return conditions[i].status;
      }
    }
    StatusOfNone(conditions, ctype);
    return UNKNOWN;
  }

  // -------------------------------------------------------- label selectors

  datatype Requirement = Requirement(key: string, operator: string, values: seq<string>)

  datatype LabelSelector = LabelSelector(matchLabels: map<string, string>,
                                         matchExpressions: seq<Requirement>)

  predicate ParsesRequirement(r: Requirement) {
    || (r.operator in {"In", "NotIn"} && r.values != [])
    || (r.operator in {"Exists", "DoesNotExist"} && r.values == [])
  }

  predicate Parses(s: LabelSelector) {
    forall i :: 0 <= i < |s.matchExpressions| ==> ParsesRequirement(s.matchExpressions[i])
  }

  predicate MatchesRequirement(r: Requirement, labels: map<string, string>) {
    match r.operator
    case "In" => r.key in labels && labels[r.key] in r.values
    case "NotIn" => r.key !in labels || labels[r.key] !in r.values
    case "Exists" => r.key in labels
    case _ => r.key !in labels
  }

  predicate Matches(s: LabelSelector, labels: map<string, string>) {
    && (forall k :: k in s.matchLabels ==> k in labels && labels[k] == s.matchLabels[k])
    && (forall i :: 0 <= i < |s.matchExpressions| ==> MatchesRequirement(s.matchExpressions[i], labels))
  }

  /** A rule whose selector does not parse applies to no node. */
  predicate Selects(s: LabelSelector, labels: map<string, string>) {
    Parses(s) && Matches(s, labels)
  }

  function Requiring(r: Requirement): LabelSelector {
    LabelSelector(map[], [r])
  }

  lemma RequiringOne(r: Requirement, labels: map<string, string>)
    ensures Selects(Requiring(r), labels) <==> ParsesRequirement(r) && MatchesRequirement(r, labels)
  {
    assert Requiring(r).matchExpressions[0] == r;
  }

  /**
   * What the four operators mean to each other and to plain labels: NotIn is the opposite of In, DoesNotExist that of
   * Exists; In with one value is the label itself, and with more values the choice between them; Exists is true of any
   * value. Any other operator, and values that do not suit the operator, select no node.
   */
  lemma OperatorsAgree(k: string, v: string, more: seq<string>, labels: map<string, string>)
    ensures Selects(Requiring(Requirement(k, "In", [v])), labels) <==> Selects(LabelSelector(map[k := v], []), labels)
    ensures Selects(Requiring(Requirement(k, "In", [v] + more)), labels) <==>
      || Selects(Requiring(Requirement(k, "In", [v])), labels)
      || (more != [] && Selects(Requiring(Requirement(k, "In", more)), labels))
    ensures Selects(Requiring(Requirement(k, "NotIn", [v] + more)), labels)
       <==> !Selects(Requiring(Requirement(k, "In", [v] + more)), labels)
    ensures Selects(Requiring(Requirement(k, "DoesNotExist", [])), labels)
       <==> !Selects(Requiring(Requirement(k, "Exists", [])), labels)
    ensures Selects(Requiring(Requirement(k, "Exists", [])), labels)
       <==> k in labels && Selects(LabelSelector(map[k := labels[k]], []), labels)
  {
    RequiringOne(Requirement(k, "In", [v]), labels);
    RequiringOne(Requirement(k, "In", [v] + more), labels);
    RequiringOne(Requirement(k, "In", more), labels);
    RequiringOne(Requirement(k, "NotIn", [v] + more), labels);
    RequiringOne(Requirement(k, "Exists", []), labels);
    RequiringOne(Requirement(k, "DoesNotExist", []), labels);
  }

  lemma OddRequirementsSelectNothing(r: Requirement, labels: map<string, string>)
    requires (r.operator == "In" || r.operator == "NotIn") ==> r.values == []
    requires (r.operator == "Exists" || r.operator == "DoesNotExist") ==> r.values != []
    ensures !Selects(Requiring(r), labels)
  {
    RequiringOne(r, labels);
  }

  /** A selector selects what all of its parts select; the empty one selects every node. */
  lemma SelectorIsConjunction(s: LabelSelector, labels: map<string, string>)
    ensures Selects(s, labels) <==>
      && (forall k :: k in s.matchLabels ==> k in labels && labels[k] == s.matchLabels[k])
      && (forall r :: r in s.matchExpressions ==> Selects(Requiring(r), labels))
    ensures Selects(LabelSelector(map[], []), labels)
  {
    hide ParsesRequirement, MatchesRequirement;
    forall r ensures Selects(Requiring(r), labels) <==> ParsesRequirement(r) && MatchesRequirement(r, labels) {
      RequiringOne(r, labels);
    }
    assert forall i :: 0 <= i < |s.matchExpressions| ==> s.matchExpressions[i] in s.matchExpressions;
  }
}
