// The comparison helpers of the controller, and the update-event filter built on them.
module Helpers {
  import opened Common
  import opened NodeModel
  import opened RuleModel
  import opened Evaluation

  // ------------------------------------------------------------- string maps

  /** The zero value stands for an absent key, as in a Go map lookup. */
  function Lookup(m: map<string, string>, k: string): string {
    if k in m then m[k] else ""
  }

  predicate StringMapEqual(a: map<string, string>, b: map<string, string>) {
    |a| == |b| && forall k :: k in a ==> Lookup(b, k) == a[k]
  }

  method LabelsEqual(a: map<string, string>, b: map<string, string>) returns (equal: bool)
    ensures equal <==> StringMapEqual(a, b)
  {
    if |a| != |b| {
      return false;
    }
    var todo := a.Keys;
    while todo != {}
      invariant todo <= a.Keys
      invariant forall k :: k in a && k !in todo ==> Lookup(b, k) == a[k]
    {
      var k :| k in todo;
      if (if k in b then b[k] else "") != a[k] {
        return false;
      }
      todo := todo - {k};
    }
    return true;
  }

  /** When the comparison says equal, the maps are equal exactly if every empty value of the first is there in the second. */
  lemma StringMapEqualExact(a: map<string, string>, b: map<string, string>)
    requires StringMapEqual(a, b)
    ensures a == b <==> forall k :: k in a && a[k] == "" ==> k in b
  {
    if forall k :: k in a && a[k] == "" ==> k in b {
      assert forall k :: k in a ==> k in b;
      SameSizeSubset(a.Keys, b.Keys);
      assert forall k :: k in a ==> Lookup(b, k) == a[k];
    }
  }

  /** The case the comparison misses: an empty label renamed. */
  lemma StringMapEqualMissesARename()
    ensures var a, b := map["x" := ""], map["y" := "on"];
      StringMapEqual(a, b) && a != b
  {
    var a, b := map["x" := ""], map["y" := "on"];
    assert "x" !in b;
    assert |a| == 1 && |b| == 1;
  }

  // --------------------------------------------------------------- conditions

  /** What the lookup map of conditionsEqual holds: the last status of each type. */
  function LastStatuses(a: seq<Condition>): map<string, string> {
    if a == [] then map[] else LastStatuses(a[..|a| - 1])[a[|a| - 1].ctype := a[|a| - 1].status]
  }

  predicate SameConditions(a: seq<Condition>, b: seq<Condition>) {
    && |a| == |b|
    && forall i :: 0 <= i < |b| ==> b[i].ctype in LastStatuses(a) && LastStatuses(a)[b[i].ctype] == b[i].status
  }

  method ConditionsEqual(a: seq<Condition>, b: seq<Condition>) returns (equal: bool)
    ensures equal <==> SameConditions(a, b)
  {
    if |a| != |b| {
      return false;
    }
    var aMap: map<string, string> := map[];
    for i := 0 to |a|
      invariant aMap == LastStatuses(a[..i])
    {
      assert a[..i + 1][..i] == a[..i];
      aMap := aMap[a[i].ctype := a[i].status];
    }
    assert a[..|a|] == a;
    for i := 0 to |b|
      invariant forall j :: 0 <= j < i ==> b[j].ctype in aMap && aMap[b[j].ctype] == b[j].status
    {
      if b[i].ctype !in aMap || aMap[b[i].ctype] != b[i].status {
        return false;
      }
    }
    return true;
  }

  predicate UniqueTypes(s: seq<Condition>) {
    forall i, j :: 0 <= i < j < |s| ==> s[i].ctype != s[j].ctype
  }

  lemma {:induction false} LastStatusesOfUnique(a: seq<Condition>)
    requires UniqueTypes(a)
    ensures |LastStatuses(a)| == |a|
    ensures forall i :: 0 <= i < |a| ==> a[i].ctype in LastStatuses(a) && LastStatuses(a)[a[i].ctype] == a[i].status
    ensures forall t :: t in LastStatuses(a) ==> exists i :: 0 <= i < |a| && a[i].ctype == t
  {
    if a != [] {
      var front, last := a[..|a| - 1], a[|a| - 1];
      LastStatusesOfUnique(front);
      assert forall i :: 0 <= i < |front| ==> front[i] == a[i];
      assert last.ctype !in LastStatuses(front);
      assert LastStatuses(a).Keys == LastStatuses(front).Keys + {last.ctype};
    }
  }

  lemma StatusOfUnique(a: seq<Condition>, ctype: string)
    requires UniqueTypes(a)
    ensures StatusOf(a, ctype) == if ctype in LastStatuses(a) then LastStatuses(a)[ctype] else UNKNOWN
  {
    LastStatusesOfUnique(a);
    if ctype in LastStatuses(a) {
      var i :| 0 <= i < |a| && a[i].ctype == ctype;
      StatusOfFirst(a, ctype, i);
    } else {
      StatusOfNone(a, ctype);
    }
  }

  function TypeOf(c: Condition): string {
    c.ctype
  }

  lemma {:induction false} StatusTypes(a: seq<Condition>)
    ensures LastStatuses(a).Keys == Image(a, TypeOf)
  {
    if a != [] {
      StatusTypes(a[..|a| - 1]);
    }
  }

  /** Unique types in the new list, all found in the old one of the same length, make the types of the old one unique. */
  lemma OldTypesAreUnique(a: seq<Condition>, b: seq<Condition>)
    requires UniqueTypes(b) && SameConditions(a, b)
    ensures UniqueTypes(a)
  {
    StatusTypes(a);
    ImageMembers(b, TypeOf);
    DistinctFillsImage(a, b, TypeOf);
    assert forall i, j :: 0 <= i < j < |a| ==> TypeOf(a[i]) != TypeOf(a[j]);
  }

  /** With unique types in the new list, equal condition lists give every type the same status. */
  lemma SameConditionsSameStatus(a: seq<Condition>, b: seq<Condition>, ctype: string)
    requires UniqueTypes(b) && SameConditions(a, b)
    ensures StatusOf(a, ctype) == StatusOf(b, ctype)
  {
    OldTypesAreUnique(a, b);
    LastStatusesOfUnique(a);
    LastStatusesOfUnique(b);
    StatusOfUnique(a, ctype);
    StatusOfUnique(b, ctype);
    forall t | t in LastStatuses(b) ensures t in LastStatuses(a) && LastStatuses(a)[t] == LastStatuses(b)[t] {
      var i :| 0 <= i < |b| && b[i].ctype == t;
    }
    SameSizeSubset(LastStatuses(b).Keys, LastStatuses(a).Keys);
  }

  // ------------------------------------------------------------------- taints

  /** The key under which taintsEqual files a taint: key and effect run together. */
  function TaintKey(t: Taint): string {
    t.key + t.effect
  }

  function LastTaints(a: seq<Taint>): map<string, Taint> {
    if a == [] then map[] else LastTaints(a[..|a| - 1])[TaintKey(a[|a| - 1]) := a[|a| - 1]]
  }

  predicate SameTaints(a: seq<Taint>, b: seq<Taint>) {
    && |a| == |b|
    && forall i :: 0 <= i < |b| ==> TaintKey(b[i]) in LastTaints(a) && LastTaints(a)[TaintKey(b[i])].value == b[i].value
  }

  method TaintsEqual(a: seq<Taint>, b: seq<Taint>) returns (equal: bool)
    ensures equal <==> SameTaints(a, b)
  {
    if |a| != |b| {
      return false;
    }
    var aMap: map<string, Taint> := map[];
    for i := 0 to |a|
      invariant aMap == LastTaints(a[..i])
    {
      assert a[..i + 1][..i] == a[..i];
      aMap := aMap[TaintKey(a[i]) := a[i]];
    }
    assert a[..|a|] == a;
    for i := 0 to |b|
      invariant forall j :: 0 <= j < i ==> TaintKey(b[j]) in aMap && aMap[TaintKey(b[j])].value == b[j].value
    {
      if TaintKey(b[i]) !in aMap || aMap[TaintKey(b[i])].value != b[i].value {
        return false;
      }
    }
    return true;
  }

  predicate UniqueIdentities(s: seq<Taint>) {
    forall i, j :: 0 <= i < j < |s| ==> !SameIdentity(s[i], s[j])
  }

  /** A new taint that the old list lacks is filed under the key of an old one. */
  predicate Masked(a: seq<Taint>, b: seq<Taint>) {
    exists i, j :: 0 <= i < |a| && 0 <= j < |b| && TaintKey(a[i]) == TaintKey(b[j]) && !HasTaint(a, b[j])
  }

  function Identity(t: Taint): (string, string) {
    (t.key, t.effect)
  }

  lemma {:induction false} TaintKeys(a: seq<Taint>)
    ensures LastTaints(a).Keys == Image(a, TaintKey)
  {
    if a != [] {
      TaintKeys(a[..|a| - 1]);
    }
  }

  /** When the comparison says equal, each new taint is filed under the key of an old one. */
  lemma NewKeysAreOld(a: seq<Taint>, b: seq<Taint>)
    requires SameTaints(a, b)
    ensures Image(b, TaintKey) <= Image(a, TaintKey)
  {
    hide TaintKey;
    TaintKeys(a);
    ImageMembers(b, TaintKey);
  }

  lemma PresenceIsIdentity(s: seq<Taint>, t: Taint)
    ensures HasTaint(s, t) <==> Identity(t) in Image(s, Identity)
    ensures UniqueIdentities(s) <==> DistinctBy(s, Identity)
  {
    ImageMembers(s, Identity);
    if HasTaint(s, t) {
      var i :| 0 <= i < |s| && SameIdentity(s[i], t);
      assert Identity(s[i]) in Image(s, Identity);
    }
  }

  /** When the comparison says equal, a missing new taint is masked: its key is there. */
  lemma MissingIsMasked(a: seq<Taint>, b: seq<Taint>, j: nat)
    requires SameTaints(a, b) && !Masked(a, b) && j < |b|
    ensures HasTaint(a, b[j])
  {
    hide TaintKey, HasTaint, SameTaints;
    NewKeysAreOld(a, b);
    ImageMembers(b, TaintKey);
    ImageMembers(a, TaintKey);
    assert TaintKey(b[j]) in Image(a, TaintKey);
    var i :| 0 <= i < |a| && TaintKey(a[i]) == TaintKey(b[j]);
  }

  lemma NoneMissing(a: seq<Taint>, b: seq<Taint>)
    requires forall j :: 0 <= j < |b| ==> HasTaint(a, b[j])
    ensures Image(b, Identity) <= Image(a, Identity)
  {
    hide HasTaint;
    ImageMembers(b, Identity);
    forall id | id in Image(b, Identity) ensures id in Image(a, Identity) {
      var j :| 0 <= j < |b| && Identity(b[j]) == id;
      PresenceIsIdentity(a, b[j]);
    }
  }

  /**
   * With unique identities in the new list, equal taint lists hold the same taints if and only if none of the new taints
   * is missing from the old list, masked by the key of another.
   */
  lemma SameTaintsExactly(a: seq<Taint>, b: seq<Taint>)
    requires UniqueIdentities(b) && SameTaints(a, b)
    ensures (forall t :: HasTaint(a, t) <==> HasTaint(b, t)) <==> !Masked(a, b)
  {
    hide HasTaint, UniqueIdentities, SameTaints;
    if Masked(a, b) {
      hide TaintKey;
      var i, j :| 0 <= i < |a| && 0 <= j < |b| && TaintKey(a[i]) == TaintKey(b[j]) && !HasTaint(a, b[j]);
      EachIsThere(b, j);
    } else {
      hide Masked;
      forall j | 0 <= j < |b| ensures HasTaint(a, b[j]) {
        MissingIsMasked(a, b, j);
      }
      NoneMissing(a, b);
      SameLengths(a, b);
      forall t ensures HasTaint(a, t) <==> HasTaint(b, t) {
        PresenceIsIdentity(a, t);
        PresenceIsIdentity(b, t);
        DistinctFillsImage(a, b, Identity);
      }
    }
  }

  lemma SameLengths(a: seq<Taint>, b: seq<Taint>)
    requires SameTaints(a, b)
    ensures |a| == |b|
  {
  }

  lemma EachIsThere(s: seq<Taint>, j: nat)
    requires j < |s|
    ensures HasTaint(s, s[j])
  {
    assert SameIdentity(s[j], s[j]);
  }

  const EFFECTS := {"NoSchedule", "PreferNoSchedule", "NoExecute"}

  /** One key is the other with "Prefer" appended, under the two effects that make up for it. */
  predicate Collide(x: Taint, y: Taint) {
    || (x.effect == "PreferNoSchedule" && y.effect == "NoSchedule" && y.key == x.key + "Prefer")
    || (y.effect == "PreferNoSchedule" && x.effect == "NoSchedule" && x.key == y.key + "Prefer")
  }

  /** Among the three taint effects, two different taints collide exactly when one key is the other with "Prefer" appended. */
  lemma CollisionExact(x: Taint, y: Taint)
    requires x.effect in EFFECTS && y.effect in EFFECTS && !SameIdentity(x, y)
    ensures TaintKey(x) == TaintKey(y)
       <==> Collide(x, y)
  {
    if |x.effect| >= |y.effect| {
      CollisionOneWay(x, y);
    } else {
      CollisionOneWay(y, x);
    }
    assert "PreferNoSchedule" == "Prefer" + "NoSchedule";
    if y.effect == "NoSchedule" && x.effect == "PreferNoSchedule" && y.key == x.key + "Prefer" {
      assert TaintKey(x) == x.key + ("Prefer" + "NoSchedule") == (x.key + "Prefer") + "NoSchedule";
    }
    if x.effect == "NoSchedule" && y.effect == "PreferNoSchedule" && x.key == y.key + "Prefer" {
      assert TaintKey(y) == y.key + ("Prefer" + "NoSchedule") == (y.key + "Prefer") + "NoSchedule";
    }
  }

  /** Of the three effects only one is the end of another. */
  lemma EffectEnding(x: string, y: string)
    requires x in EFFECTS && y in EFFECTS && |x| > |y|
    ensures x[|x| - |y|..] == y ==> x == "PreferNoSchedule" && y == "NoSchedule"
  {
    if y == "NoExecute" {
      assert x == "NoSchedule" || x == "PreferNoSchedule";
      assert x[|x| - 9] == 'o' && x[|x| - 9..][0] == 'o' && y[0] == 'N';
    } else {
      assert x == "PreferNoSchedule";
    }
  }

  lemma CollisionOneWay(x: Taint, y: Taint)
    requires x.effect in EFFECTS && y.effect in EFFECTS && !SameIdentity(x, y)
    requires |x.effect| >= |y.effect|
    ensures TaintKey(x) == TaintKey(y) ==>
      x.effect == "PreferNoSchedule" && y.effect == "NoSchedule" && y.key == x.key + "Prefer"
  {
    var d := |x.effect| - |y.effect|;
    if TaintKey(x) == TaintKey(y) {
      var whole := TaintKey(x);
      assert |x.key| + d == |y.key|;
      assert x.effect[d..] == whole[|y.key|..] == y.effect;
      assert y.key == whole[..|y.key|] == x.key + x.effect[..d];
      if d > 0 {
        EffectEnding(x.effect, y.effect);
        assert "PreferNoSchedule"[..6] == "Prefer";
      }
    }
  }

  /** Of taints with the three effects, exactly such a pair masks a new one. */
  lemma MaskedExactly(a: seq<Taint>, b: seq<Taint>)
    requires forall i :: 0 <= i < |a| ==> a[i].effect in EFFECTS
    requires forall j :: 0 <= j < |b| ==> b[j].effect in EFFECTS
    ensures Masked(a, b) <==> exists i, j :: 0 <= i < |a| && 0 <= j < |b| && Collide(a[i], b[j]) && !HasTaint(a, b[j])
  {
    hide TaintKey, HasTaint, Collide;
    forall i, j | 0 <= i < |a| && 0 <= j < |b| && !HasTaint(a, b[j])
      ensures TaintKey(a[i]) == TaintKey(b[j]) <==> Collide(a[i], b[j])
    {
      MissingIsOther(a, i, b[j]);
      CollisionExact(a[i], b[j]);
    }
  }

  lemma MissingIsOther(a: seq<Taint>, i: nat, t: Taint)
    requires i < |a| && !HasTaint(a, t)
    ensures !SameIdentity(a[i], t)
  {
  }

  // -------------------------------------------------------- the update filter

  predicate ShouldReconcile(old_: Node, new_: Node) {
    || !SameConditions(old_.conditions, new_.conditions)
    || !SameTaints(old_.taints, new_.taints)
    || !StringMapEqual(old_.labels, new_.labels)
  }

  method UpdateFilter(oldNode: Node, newNode: Node) returns (reconcile: bool)
    ensures reconcile <==> ShouldReconcile(oldNode, newNode)
  {
    var conditionsSame := ConditionsEqual(oldNode.conditions, newNode.conditions);
    var taintsSame := TaintsEqual(oldNode.taints, newNode.taints);
    var labelsSame := LabelsEqual(oldNode.labels, newNode.labels);
    reconcile := !conditionsSame || !taintsSame || !labelsSame;
  }

  /**
   * The filter loses nothing: a skipped update leaves every rule's applicability, every condition status and
   * every taint's presence as they were, so no rule would have acted differently.
   */
  lemma FilterLosesNothing(old_: Node, new_: Node, rule: Rule)
    requires !ShouldReconcile(old_, new_)
    requires UniqueTypes(new_.conditions)
    requires UniqueIdentities(new_.taints) && !Masked(old_.taints, new_.taints)
    requires forall k :: k in old_.labels && old_.labels[k] == "" ==> k in new_.labels
    ensures AppliesTo(rule, old_) <==> AppliesTo(rule, new_)
    ensures forall c :: StatusOf(old_.conditions, c) == StatusOf(new_.conditions, c)
    ensures forall t :: HasTaint(old_.taints, t) <==> HasTaint(new_.taints, t)
    ensures Met(rule.spec, old_) <==> Met(rule.spec, new_)
    ensures NeedsChange(rule.spec, old_) <==> NeedsChange(rule.spec, new_)
  {
    StringMapEqualExact(old_.labels, new_.labels);
    forall c ensures StatusOf(old_.conditions, c) == StatusOf(new_.conditions, c) {
      SameConditionsSameStatus(old_.conditions, new_.conditions, c);
    }
    SameTaintsExactly(old_.taints, new_.taints);
  }

  lemma {:induction false} LastTaintIsThere(a: seq<Taint>, key: string)
    requires key in LastTaints(a)
    ensures exists i :: 0 <= i < |a| && TaintKey(a[i]) == key && LastTaints(a)[key] == a[i]
  {
    hide TaintKey;
    var n := |a| - 1;
    if TaintKey(a[n]) != key {
      LastTaintIsThere(a[..n], key);
      var i :| 0 <= i < n && TaintKey(a[..n][i]) == key && LastTaints(a[..n])[key] == a[..n][i];
      assert a[i] == a[..n][i];
    }
  }

  /** Values count, too: with unique keys and none masked, equal lists hold the same taints with the same values. */
  lemma SameTaintsSameValues(a: seq<Taint>, b: seq<Taint>, t: Taint)
    requires SameTaints(a, b) && DistinctBy(b, TaintKey) && !Masked(a, b)
    ensures t in b ==> t in a
  {
    hide TaintKey, HasTaint;
    if t in b {
      var j :| 0 <= j < |b| && b[j] == t;
      MissingIsMasked(a, b, j);
      NewKeysAreOld(a, b);
      DistinctFillsImage(a, b, TaintKey);
      LastTaintIsThere(a, TaintKey(t));
      var i :| 0 <= i < |a| && TaintKey(a[i]) == TaintKey(t) && LastTaints(a)[TaintKey(t)] == a[i];
      SameKeyIsSameTaint(a, i, t);
    }
  }

  lemma SameKeyIsSameTaint(a: seq<Taint>, i: nat, t: Taint)
    requires i < |a| && HasTaint(a, t) && DistinctBy(a, TaintKey)
    requires TaintKey(a[i]) == TaintKey(t) && a[i].value == t.value
    ensures a[i] == t
  {
    var k :| 0 <= k < |a| && SameIdentity(a[k], t);
    assert TaintKey(a[k]) == TaintKey(t);
  }

  /**
   * The filter does skip: an update that leaves labels and taints alone, and of the conditions types and statuses, as a
   * heartbeat does, is not reconciled.
   */
  lemma HeartbeatIsSkipped(old_: Node, new_: Node)
    requires new_.labels == old_.labels && new_.taints == old_.taints && |new_.conditions| == |old_.conditions|
    requires forall i :: 0 <= i < |new_.conditions| ==>
      new_.conditions[i].ctype == old_.conditions[i].ctype && new_.conditions[i].status == old_.conditions[i].status
    requires UniqueTypes(old_.conditions) && DistinctBy(old_.taints, TaintKey)
    ensures !ShouldReconcile(old_, new_)
  {
    LastStatusesOfUnique(old_.conditions);
    LastTaintsOfUnique(old_.taints);
  }

  lemma {:induction false} LastTaintsOfUnique(a: seq<Taint>)
    requires DistinctBy(a, TaintKey)
    ensures LastTaints(a).Keys == Image(a, TaintKey)
    ensures forall i :: 0 <= i < |a| ==> TaintKey(a[i]) in LastTaints(a) && LastTaints(a)[TaintKey(a[i])] == a[i]
  {
    hide TaintKey;
    TaintKeys(a);
    if a != [] {
      var n := |a| - 1;
      assert forall i :: 0 <= i < n ==> a[..n][i] == a[i] && TaintKey(a[i]) != TaintKey(a[n]);
      LastTaintsOfUnique(a[..n]);
    }
  }

  /** What the filter misses when a new taint is masked: a taint that is gone although the update is skipped. */
  lemma FilterMissesACollision(n: Node, value: string)
    ensures var before := n.(taints := [Taint("foo", value, "PreferNoSchedule")]);
      var after := n.(taints := [Taint("fooPrefer", value, "NoSchedule")]);
      HasTaint(before.taints, before.taints[0]) && !HasTaint(after.taints, before.taints[0])
      && SameTaints(before.taints, after.taints)
  {
    var x, y := Taint("foo", value, "PreferNoSchedule"), Taint("fooPrefer", value, "NoSchedule");
    assert TaintKey(x) == "fooPreferNoSchedule" == TaintKey(y);
    assert [x][..0] == [];
    assert LastTaints([x]) == map[TaintKey(x) := x];
    assert SameIdentity([x][0], x);
  }

  // --------------------------------------------------------- selector changes

  function Join(values: seq<string>): string {
    if values == [] then "" else if |values| == 1 then values[0]
    else Join(values[..|values| - 1]) + " " + values[|values| - 1]
  }

  /** The text under which nodeSelectorChanged files a requirement. */
  function ExprKey(r: Requirement): string {
    r.key + "-" + r.operator + "-[" + Join(r.values) + "]"
  }

  predicate SelectorChanged(current: LabelSelector, previous: LabelSelector) {
    || !StringMapEqual(current.matchLabels, previous.matchLabels)
    || |current.matchExpressions| != |previous.matchExpressions|
    || exists i :: 0 <= i < |current.matchExpressions| && !HasExpr(previous, ExprKey(current.matchExpressions[i]))
  }

  predicate HasExpr(s: LabelSelector, key: string) {
    exists j :: 0 <= j < |s.matchExpressions| && ExprKey(s.matchExpressions[j]) == key
  }

  method NodeSelectorChanged(current: LabelSelector, previous: LabelSelector) returns (changed: bool)
    ensures changed <==> SelectorChanged(current, previous)
  {
    hide ExprKey;
    var same := LabelsEqual(current.matchLabels, previous.matchLabels);
    if !same || |current.matchExpressions| != |previous.matchExpressions| {
      return true;
    }
    var previousExprs: set<string> := {};
    for i := 0 to |previous.matchExpressions|
      invariant forall k :: k in previousExprs <==> exists j :: 0 <= j < i && ExprKey(previous.matchExpressions[j]) == k
    {
      previousExprs := previousExprs + {ExprKey(previous.matchExpressions[i])};
    }
    assert forall k :: k in previousExprs <==> HasExpr(previous, k);
    for i := 0 to |current.matchExpressions|
      invariant forall j :: 0 <= j < i ==> HasExpr(previous, ExprKey(current.matchExpressions[j]))
    {
      if ExprKey(current.matchExpressions[i]) !in previousExprs {
        return true;
      }
    }
    return false;
  }

  /** A reported change is real: a selector with the same labels, as many requirements and no other ones is unchanged. */
  lemma SameSelectorIsUnchanged(current: LabelSelector, previous: LabelSelector)
    requires current.matchLabels == previous.matchLabels
    requires |current.matchExpressions| == |previous.matchExpressions|
    requires forall r :: r in current.matchExpressions ==> r in previous.matchExpressions
    ensures !SelectorChanged(current, previous)
  {
    hide ExprKey;
    forall i | 0 <= i < |current.matchExpressions| ensures HasExpr(previous, ExprKey(current.matchExpressions[i])) {
      assert current.matchExpressions[i] in current.matchExpressions;
      var j :| 0 <= j < |previous.matchExpressions| && previous.matchExpressions[j] == current.matchExpressions[i];
    }
  }

  // ------------------------------------------- when the verdict is right

  /** The texts under which the requirements of a selector are filed. */
  function ExprKeys(s: LabelSelector): set<string> {
    Image(s.matchExpressions, ExprKey)
  }

  lemma UnchangedKeys(current: LabelSelector, previous: LabelSelector)
    requires !SelectorChanged(current, previous)
    ensures ExprKeys(current) <= ExprKeys(previous)
  {
    hide ExprKey;
    ImageMembers(current.matchExpressions, ExprKey);
    ImageMembers(previous.matchExpressions, ExprKey);
    forall k | k in ExprKeys(current) ensures k in ExprKeys(previous) {
      var i :| 0 <= i < |current.matchExpressions| && ExprKey(current.matchExpressions[i]) == k;
      assert HasExpr(previous, k);
    }
  }

  /**
   * When no change is reported, the requirements are filed under the same texts if and only if there are as many
   * distinct ones; and there are, whenever the current selector repeats none.
   */
  lemma UnchangedExact(current: LabelSelector, previous: LabelSelector)
    requires !SelectorChanged(current, previous)
    ensures ExprKeys(current) == ExprKeys(previous) <==> |ExprKeys(current)| == |ExprKeys(previous)|
    ensures DistinctBy(current.matchExpressions, ExprKey) ==> ExprKeys(current) == ExprKeys(previous)
  {
    hide ExprKey;
    UnchangedKeys(current, previous);
    if |ExprKeys(current)| == |ExprKeys(previous)| {
      SameSizeSubset(ExprKeys(current), ExprKeys(previous));
    }
    if DistinctBy(current.matchExpressions, ExprKey) {
      DistinctFillsImage(previous.matchExpressions, current.matchExpressions, ExprKey);
    }
  }

  /** No separator inside the parts of a requirement. */
  predicate Separable(r: Requirement) {
    NoneOf(r.key, '[') && NoneOf(r.operator, '[') && NoneOf(r.operator, '-') && Blankless(r.values)
  }

  /** The one empty value prints as no value. */
  predicate PrintAlike(a: seq<string>, b: seq<string>) {
    a == b || (a == [] && b == [""]) || (a == [""] && b == [])
  }

  /**
   * A requirement whose text tells it apart: no separator inside its parts, and values exactly for the operators that
   * take some. A requirement that parses has such values, and any other operator may have all but the one empty value.
   */
  predicate Plain(r: Requirement) {
    Separable(r) && if r.operator == "In" || r.operator == "NotIn" then r.values != [] else r.values != [""]
  }

  predicate Blankless(values: seq<string>) {
    forall i :: 0 <= i < |values| ==> NoneOf(values[i], ' ')
  }

  lemma JoinHasBlanks(values: seq<string>)
    requires Blankless(values)
    ensures NoneOf(Join(values), ' ') <==> |values| <= 1
  {
    if |values| > 1 {
      assert Join(values)[|Join(values[..|values| - 1])|] == ' ';
    }
  }

  lemma {:induction false} JoinInjective(a: seq<string>, b: seq<string>)
    requires a != [] && b != [] && Blankless(a) && Blankless(b) && Join(a) == Join(b)
    ensures a == b
  {
    var m, n := |a| - 1, |b| - 1;
    JoinHasBlanks(a);
    JoinHasBlanks(b);
    if m > 0 {
      CutAtLast(Join(a[..m]), a[m], Join(b[..n]), b[n], ' ');
      JoinInjective(a[..m], b[..n]);
    }
  }

  lemma JoinExact(a: seq<string>, b: seq<string>)
    requires Blankless(a) && Blankless(b)
    ensures Join(a) == Join(b) <==> PrintAlike(a, b)
  {
    if Join(a) == Join(b) {
      if a != [] && b != [] {
        JoinInjective(a, b);
      } else {
        JoinEmpty(a);
        JoinEmpty(b);
      }
    }
  }

  lemma JoinEmpty(a: seq<string>)
    ensures Join(a) == "" <==> a == [] || a == [""]
  {
    if |a| == 1 {
      assert a == [a[0]];
    }
  }

  /** Two requirements without separators are filed under one text if and only if they differ at most in that. */
  lemma ExprKeyExact(a: Requirement, b: Requirement)
    requires Separable(a) && Separable(b)
    ensures ExprKey(a) == ExprKey(b) <==> a.key == b.key && a.operator == b.operator && PrintAlike(a.values, b.values)
  {
    hide Join;
    JoinExact(a.values, b.values);
    if ExprKey(a) == ExprKey(b) {
      var whole := ExprKey(a);
      var x, y := a.key + "-" + a.operator + "-", b.key + "-" + b.operator + "-";
      assert whole == x + (['['] + Join(a.values) + "]") == y + (['['] + Join(b.values) + "]");
      assert x + ['['] <= whole && y + ['['] <= whole;
      CutAtFirst(x, y, '[', whole);
      var u, v := a.key + ['-'] + a.operator, b.key + ['-'] + b.operator;
      assert x[..|x| - 1] == u && y[..|y| - 1] == v;
      CutAtLast(a.key, a.operator, b.key, b.operator, '-');
      assert whole[|x| + 1..|whole| - 1] == Join(a.values) && whole[|y| + 1..|whole| - 1] == Join(b.values);
    }
  }

  /** Plain requirements filed under one text are the same requirement. */
  lemma ExprKeyInjective(a: Requirement, b: Requirement)
    requires Plain(a) && Plain(b) && ExprKey(a) == ExprKey(b)
    ensures a == b
  {
    hide ExprKey;
    ExprKeyExact(a, b);
  }

  lemma ParsedIsPlain(r: Requirement)
    requires ParsesRequirement(r) && Separable(r)
    ensures Plain(r)
  {
  }

  predicate AllPlain(s: LabelSelector) {
    forall i :: 0 <= i < |s.matchExpressions| ==> Plain(s.matchExpressions[i])
  }

  /** For plain requirements the same texts mean the same requirements. */
  lemma SameTextsSameRequirements(a: LabelSelector, b: LabelSelector)
    requires AllPlain(a) && AllPlain(b)
    ensures ExprKeys(a) == ExprKeys(b) <==> forall r :: r in a.matchExpressions <==> r in b.matchExpressions
  {
    hide ExprKey, Plain;
    ImageMembers(a.matchExpressions, ExprKey);
    ImageMembers(b.matchExpressions, ExprKey);
    if ExprKeys(a) == ExprKeys(b) {
      forall r ensures r in a.matchExpressions <==> r in b.matchExpressions {
        RequirementFound(a, b, r);
        RequirementFound(b, a, r);
      }
    } else if forall r :: r in a.matchExpressions <==> r in b.matchExpressions {
      forall k ensures k in ExprKeys(a) <==> k in ExprKeys(b) {
        TextFound(a, b, k);
        TextFound(b, a, k);
      }
    }
  }

  lemma RequirementFound(a: LabelSelector, b: LabelSelector, r: Requirement)
    requires AllPlain(a) && AllPlain(b) && ExprKeys(a) <= ExprKeys(b)
    ensures r in a.matchExpressions ==> r in b.matchExpressions
  {
    hide ExprKey, Plain;
    ImageMembers(a.matchExpressions, ExprKey);
    ImageMembers(b.matchExpressions, ExprKey);
    if r in a.matchExpressions {
      var i :| 0 <= i < |a.matchExpressions| && a.matchExpressions[i] == r;
      var j :| 0 <= j < |b.matchExpressions| && ExprKey(b.matchExpressions[j]) == ExprKey(r);
      ExprKeyInjective(b.matchExpressions[j], r);
    }
  }

  lemma TextFound(a: LabelSelector, b: LabelSelector, k: string)
    requires forall r :: r in a.matchExpressions ==> r in b.matchExpressions
    ensures k in ExprKeys(a) ==> k in ExprKeys(b)
  {
    hide ExprKey;
    ImageMembers(a.matchExpressions, ExprKey);
    ImageMembers(b.matchExpressions, ExprKey);
    if k in ExprKeys(a) {
      var i :| 0 <= i < |a.matchExpressions| && ExprKey(a.matchExpressions[i]) == k;
      assert a.matchExpressions[i] in a.matchExpressions;
      var j :| 0 <= j < |b.matchExpressions| && b.matchExpressions[j] == a.matchExpressions[i];
    }
  }

  /**
   * What a caller can check before trusting the verdict "unchanged": the requirements are plain, the current selector
   * has no fewer distinct ones than the previous, and it has no empty label value that the previous one lacks.
   */
  predicate Comparable(current: LabelSelector, previous: LabelSelector) {
    && AllPlain(current) && AllPlain(previous)
    && |ExprKeys(current)| >= |ExprKeys(previous)|
    && forall k :: k in current.matchLabels && current.matchLabels[k] == "" ==> k in previous.matchLabels
  }

  /** A current selector that repeats no requirement has enough of them. */
  lemma NoRepeatIsEnough(current: LabelSelector, previous: LabelSelector)
    requires !SelectorChanged(current, previous) && DistinctBy(current.matchExpressions, ExprKey)
    ensures |ExprKeys(current)| >= |ExprKeys(previous)|
  {
    UnchangedExact(current, previous);
  }

  /** For plain requirements the verdict "unchanged" is true of labels and requirements exactly under that check. */
  lemma UnchangedIsTrueExactly(current: LabelSelector, previous: LabelSelector)
    requires !SelectorChanged(current, previous) && AllPlain(current) && AllPlain(previous)
    ensures Comparable(current, previous) <==>
      && current.matchLabels == previous.matchLabels
      && forall r :: r in current.matchExpressions <==> r in previous.matchExpressions
  {
    hide ExprKey, Plain;
    StringMapEqualExact(current.matchLabels, previous.matchLabels);
    UnchangedKeys(current, previous);
    SubsetSize(ExprKeys(current), ExprKeys(previous));
    UnchangedExact(current, previous);
    SameTextsSameRequirements(current, previous);
  }

  /** Then selectors reported as unchanged select the same nodes, whatever their labels. */
  lemma UnchangedSelectsTheSame(current: LabelSelector, previous: LabelSelector, labels: map<string, string>)
    requires !SelectorChanged(current, previous) && Comparable(current, previous)
    ensures Selects(current, labels) <==> Selects(previous, labels)
  {
    hide Comparable, Selects, SelectorChanged;
    ComparableIsPlain(current, previous);
    UnchangedIsTrueExactly(current, previous);
    SameRequirementsSelectTheSame(current, previous, labels);
    SameRequirementsSelectTheSame(previous, current, labels);
  }

  lemma ComparableIsPlain(current: LabelSelector, previous: LabelSelector)
    requires Comparable(current, previous)
    ensures AllPlain(current) && AllPlain(previous)
  {
  }

  lemma SameRequirementsSelectTheSame(a: LabelSelector, b: LabelSelector, labels: map<string, string>)
    requires a.matchLabels == b.matchLabels
    requires forall r :: r in a.matchExpressions <==> r in b.matchExpressions
    ensures Selects(a, labels) ==> Selects(b, labels)
  {
    hide MatchesRequirement, ParsesRequirement;
    forall i | 0 <= i < |b.matchExpressions| && Selects(a, labels)
      ensures ParsesRequirement(b.matchExpressions[i]) && MatchesRequirement(b.matchExpressions[i], labels)
    {
      assert b.matchExpressions[i] in b.matchExpressions;
      var j :| 0 <= j < |a.matchExpressions| && a.matchExpressions[j] == b.matchExpressions[i];
    }
  }

  /** A change the comparison misses: only one direction of the requirement sets is compared, so a repeat hides one. */
  lemma SelectorChangedMissesARepeat()
    ensures var zone, gpu := Requirement("zone", "Exists", []), Requirement("gpu", "Exists", []);
      var current, previous := LabelSelector(map[], [zone, zone]), LabelSelector(map[], [zone, gpu]);
      !SelectorChanged(current, previous)
      && Selects(current, map["zone" := "a"]) && !Selects(previous, map["zone" := "a"])
  {
    var zone, gpu := Requirement("zone", "Exists", []), Requirement("gpu", "Exists", []);
    var previous := LabelSelector(map[], [zone, gpu]);
    assert previous.matchExpressions[0] == zone && previous.matchExpressions[1] == gpu;
    assert "gpu" !in map["zone" := "a"] && !MatchesRequirement(gpu, map["zone" := "a"]);
  }
}
