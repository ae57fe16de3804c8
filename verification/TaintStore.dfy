// The API server's node store, and the fetch / check / patch protocol by which any number of
// concurrent callers add taints, remove taints and set completion annotations.
module TaintStore {
  import opened Common
  import opened NodeModel

  // ---------------------------------------------------- JSON merge patches

  /** A merge patch for a node. A list is replaced whole; in a map each mentioned key is set, or deleted by None. */
  datatype NodePatch = NodePatch(onlyAtVersion: Option<nat>,
                                 taints: Option<seq<Taint>>,
                                 annotations: map<string, Option<string>>)

  /** The patch that turns base into updated, guarded by a version when a lock is asked for. */
  function MergeFrom(base: Node, updated: Node, lock: Option<nat>): NodePatch {
    NodePatch(
      lock,
      if updated.taints == base.taints then None else Some(updated.taints),
      (map k | k in updated.annotations
            && (k !in base.annotations || base.annotations[k] != updated.annotations[k])
            :: Some(updated.annotations[k]))
      + (map k | k in base.annotations && k !in updated.annotations :: None))
  }

  function Merge(node: Node, p: NodePatch): Node {
    node.(taints := if p.taints.Some? then p.taints.value else node.taints,
          annotations := map k | k in node.annotations.Keys + p.annotations.Keys
                              && (k in p.annotations ==> p.annotations[k].Some?)
                              :: if k in p.annotations then p.annotations[k].value else node.annotations[k])
  }

  /** Applied to the node it was computed from, a patch gives exactly the updated node. */
  lemma MergeRoundTrip(base: Node, updated: Node, lock: Option<nat>)
    requires updated == base.(taints := updated.taints, annotations := updated.annotations)
    ensures Merge(base, MergeFrom(base, updated, lock)) == updated
  {
    var p := MergeFrom(base, updated, lock);
    var merged := Merge(base, p);
    forall k ensures k in merged.annotations <==> k in updated.annotations
             ensures k in merged.annotations ==> merged.annotations[k] == updated.annotations[k]
    {
      assert k in p.annotations || (k in base.annotations <==> k in updated.annotations);
    }
    assert merged.annotations == updated.annotations;
  }

  // --------------------------------------------------------- one caller's work

  datatype Work = Add(taint: Taint) | Remove(taint: Taint) | Annotate(key: string)

  /** What the caller checks after the fetch: nothing is left to do. */
  predicate Done(work: Work, node: Node) {
    match work
    case Add(t) => HasTaint(node.taints, t)
    case Remove(t) => !HasTaint(node.taints, t)
    case Annotate(k) => k in node.annotations
  }

  /** The fetched node as the caller edits it. */
  function Edited(work: Work, node: Node): Node {
    match work
    case Add(t) => node.(taints := node.taints + [t])
    case Remove(t) => node.(taints := RemoveTaint(node.taints, t))
    case Annotate(k) => node.(annotations := node.annotations[k := "true"])
  }

  /** Taint patches carry the fetched version; annotation patches carry none. */
  function PatchFor(work: Work, fetched: Stored): NodePatch {
    MergeFrom(fetched.node, Edited(work, fetched.node),
              if work.Annotate? then None else Some(fetched.version))
  }

  // ------------------------------------------------------------- transitions

  datatype Stored = Stored(node: Node, version: nat)

  datatype Call = Call(target: string, work: Work, fetched: Option<Stored>)

  /** Everything that ever changed a taint list, in commit order. */
  datatype Edit =
    | Committed(target: string, work: Work)
    | Written(target: string, taints: seq<Taint>)
    | Deleted(target: string)

  datatype State = State(nodes: map<string, Stored>, revision: nat, calls: map<nat, Call>, log: seq<Edit>)

  /** Begin, Get, Patch and GiveUp belong to the calls; Write and Delete to everyone else. */
  datatype Step =
    | Begin(id: nat, target: string, work: Work)
    | Get(id: nat)
    | Patch(id: nat)
    | GiveUp(id: nat)
    | Write(target: string, node: Node)
    | Delete(target: string)

  /** One step; a step that is not enabled changes nothing. */
  function Next(s: State, step: Step): State {
    match step
    case Begin(id, target, work) =>
      if id in s.calls then s else s.(calls := s.calls[id := Call(target, work, None)])
    case Get(id) =>
      if id !in s.calls || s.calls[id].fetched.Some? then s
      else
        var call := s.calls[id];
        if call.target !in s.nodes || Done(call.work, s.nodes[call.target].node) then s.(calls := s.calls - {id})
        else s.(calls := s.calls[id := call.(fetched := Some(s.nodes[call.target]))])
    case Patch(id) =>
      if id !in s.calls || s.calls[id].fetched.None? then s
      else
        var call := s.calls[id];
        if call.target !in s.nodes then s.(calls := s.calls - {id})
        else
          var current := s.nodes[call.target];
          var patch := PatchFor(call.work, call.fetched.value);
          if patch.onlyAtVersion.Some? && patch.onlyAtVersion.value != current.version then
            s.(calls := s.calls[id := call.(fetched := None)])
          else
            State(s.nodes[call.target := Stored(Merge(current.node, patch), s.revision + 1)],
                  s.revision + 1, s.calls - {id}, s.log + [Committed(call.target, call.work)])
    case GiveUp(id) =>
      s.(calls := s.calls - {id})
    case Write(target, node) =>
      s.(nodes := s.nodes[target := Stored(node, s.revision + 1)], revision := s.revision + 1,
         log := s.log + [Written(target, node.taints)])
    case Delete(target) =>
      s.(nodes := s.nodes - {target}, revision := s.revision + 1, log := s.log + [Deleted(target)])
  }

  function Run(s: State, steps: seq<Step>): State {
    if steps == [] then s else Next(Run(s, steps[..|steps| - 1]), steps[|steps| - 1])
  }

  // -------------------------------------------------- one edit at a time

  function TaintsOf(nodes: map<string, Stored>): map<string, seq<Taint>> {
    map n | n in nodes :: nodes[n].node.taints
  }

  /** An edit as it would act alone on the current lists. */
  function Apply(lists: map<string, seq<Taint>>, e: Edit): map<string, seq<Taint>> {
    match e
    case Written(n, taints) => lists[n := taints]
    case Deleted(n) => lists - {n}
    case Committed(n, Annotate(_)) => lists
    case Committed(n, Add(t)) => if n in lists then lists[n := AddTaint(lists[n], t)] else lists
    case Committed(n, Remove(t)) => if n in lists then lists[n := RemoveTaint(lists[n], t)] else lists
  }

  function Replay(lists: map<string, seq<Taint>>, log: seq<Edit>): map<string, seq<Taint>> {
    if log == [] then lists else Apply(Replay(lists, log[..|log| - 1]), log[|log| - 1])
  }

  predicate Initial(s: State) {
    && s.log == []
    && s.calls == map[]
    && forall n :: n in s.nodes ==> s.nodes[n].version <= s.revision
  }

  /** A fetched copy whose version is still the stored one is the stored node itself. */
  predicate FetchedIsHistory(s: State, call: Call)
    requires call.fetched.Some?
  {
    var f := call.fetched.value;
    && f.version <= s.revision
    && !Done(call.work, f.node)
    && (call.target in s.nodes && s.nodes[call.target].version == f.version ==> s.nodes[call.target] == f)
  }

  predicate Consistent(s: State) {
    && (forall n :: n in s.nodes ==> s.nodes[n].version <= s.revision)
    && (forall id :: id in s.calls && s.calls[id].fetched.Some? ==> FetchedIsHistory(s, s.calls[id]))
  }

  lemma NextKeepsConsistent(s: State, step: Step)
    requires Consistent(s)
    ensures Consistent(Next(s, step))
  {
    var s' := Next(s, step);
    forall id | id in s'.calls && s'.calls[id].fetched.Some?
      ensures FetchedIsHistory(s', s'.calls[id])
    {
      if id in s.calls && s.calls[id].fetched.Some? {
        assert FetchedIsHistory(s, s.calls[id]);
      }
    }
  }

  /** Whatever it lands on, an annotation patch sets its one key and leaves the taints alone. */
  lemma AnnotationPatchIsLocal(key: string, fetched: Stored, current: Node)
    requires !Done(Annotate(key), fetched.node)
    ensures Merge(current, PatchFor(Annotate(key), fetched))
         == current.(annotations := current.annotations[key := "true"])
  {
    var p := PatchFor(Annotate(key), fetched);
    assert p.annotations.Keys == {key} && p.annotations[key] == Some("true");
    assert Merge(current, p).annotations == current.annotations[key := "true"];
  }

  /** A taint patch that commits does to the stored list what the operation alone would do. */
  lemma CommitIsAtomic(s: State, id: nat)
    requires Consistent(s)
    requires id in s.calls && s.calls[id].fetched.Some? && s.calls[id].target in s.nodes
    requires !s.calls[id].work.Annotate? ==> s.calls[id].fetched.value.version == s.nodes[s.calls[id].target].version
    ensures Next(s, Patch(id)).nodes[s.calls[id].target].node
         == Edited(s.calls[id].work, s.nodes[s.calls[id].target].node)
    ensures TaintsOf(Next(s, Patch(id)).nodes)
         == Apply(TaintsOf(s.nodes), Committed(s.calls[id].target, s.calls[id].work))
  {
    var call := s.calls[id];
    var f := call.fetched.value;
    var current := s.nodes[call.target];
    assert FetchedIsHistory(s, call);
    if call.work.Annotate? {
      AnnotationPatchIsLocal(call.work.key, f, current.node);
    } else {
      MergeRoundTrip(f.node, Edited(call.work, f.node), Some(f.version));
    }
  }

  lemma NextAppliesItsEdit(s: State, step: Step)
    requires Consistent(s)
    ensures var s' := Next(s, step);
      || (s'.log == s.log && TaintsOf(s'.nodes) == TaintsOf(s.nodes))
      || (|s'.log| == |s.log| + 1 && s'.log[..|s.log|] == s.log
          && TaintsOf(s'.nodes) == Apply(TaintsOf(s.nodes), s'.log[|s.log|]))
  {
    var s' := Next(s, step);
    match step
    case Patch(id) =>
      if s'.log != s.log {
        CommitIsAtomic(s, id);
      }
    case Write(target, node) =>
      assert TaintsOf(s'.nodes) == TaintsOf(s.nodes)[target := node.taints];
    case Delete(target) =>
      assert TaintsOf(s'.nodes) == TaintsOf(s.nodes) - {target};
    case _ =>
  }

  /**
   * No lost taint update: after any interleaving, the stored lists are the initial ones with the
   * committed additions and removals and the outside writes applied one at a time in commit order.
   */
  lemma {:induction false} NoLostTaintUpdates(s: State, steps: seq<Step>)
    requires Initial(s)
    ensures Consistent(Run(s, steps))
    ensures TaintsOf(Run(s, steps).nodes) == Replay(TaintsOf(s.nodes), Run(s, steps).log)
  {
    if steps != [] {
      var before := Run(s, steps[..|steps| - 1]);
      var step := steps[|steps| - 1];
      NoLostTaintUpdates(s, steps[..|steps| - 1]);
      NextKeepsConsistent(before, step);
      NextAppliesItsEdit(before, step);
    }
  }

  /** The steps of a call that nobody gets in the way of. */
  function Undisturbed(s: State, id: nat, target: string, work: Work): State {
    Next(Next(Next(s, Begin(id, target, work)), Get(id)), Patch(id))
  }

  /** Progress: such a call does its work. It ends with the taint added at the end of the list, or every copy of it gone,
    * or the annotation set to "true", on its own node, and its edit in the log; when there is nothing to do it changes
    * nothing. */
  lemma UndisturbedCallDoesItsWork(s: State, id: nat, target: string, work: Work)
    requires Consistent(s) && id !in s.calls && target in s.nodes
    ensures var s', before := Undisturbed(s, id, target, work), s.nodes[target].node;
      && id !in s'.calls && s'.nodes.Keys == s.nodes.Keys
      && (forall n :: n in s.nodes && n != target ==> s'.nodes[n] == s.nodes[n])
      && (s'.log == if Done(work, before) then s.log else s.log + [Committed(target, work)])
      && (Done(work, before) ==> s'.nodes == s.nodes)
      && (!Done(work, before) ==>
            match work
            case Add(t) => s'.nodes[target].node == before.(taints := before.taints + [t])
            case Remove(t) => s'.nodes[target].node == before.(taints := RemoveTaint(before.taints, t))
            case Annotate(k) => s'.nodes[target].node == before.(annotations := before.annotations[k := "true"]))
      && (match work
          case Add(t) => HasTaint(s'.nodes[target].node.taints, t)
          case Remove(t) => !HasTaint(s'.nodes[target].node.taints, t)
          case Annotate(k) => k in s'.nodes[target].node.annotations)
  {
    hide HasTaint, RemoveTaint, Merge, MergeFrom;
    var begun := Next(s, Begin(id, target, work));
    var got := Next(begun, Get(id));
    NextKeepsConsistent(s, Begin(id, target, work));
    NextKeepsConsistent(begun, Get(id));
    assert begun.calls[id] == Call(target, work, None);
    if !Done(work, s.nodes[target].node) {
      CommitIsAtomic(got, id);
    }
    if work.Add? {
      AddTaintPresence(s.nodes[target].node.taints, work.taint, work.taint);
    } else if work.Remove? {
      RemoveTaintPresence(s.nodes[target].node.taints, work.taint, work.taint);
    }
  }

  /** In every reachable state, a taint call built on an outdated version changes nothing and must fetch again. */
  lemma StaleAttemptNeverCommits(s: State, steps: seq<Step>, id: nat)
    requires Initial(s)
    requires var r := Run(s, steps);
      && id in r.calls && r.calls[id].fetched.Some? && !r.calls[id].work.Annotate?
      && (r.calls[id].target in r.nodes ==> r.nodes[r.calls[id].target] != r.calls[id].fetched.value)
    ensures var r, r' := Run(s, steps), Run(s, steps + [Patch(id)]);
      && r'.nodes == r.nodes && r'.log == r.log
      && (id in r'.calls ==> r'.calls[id].fetched.None?)
  {
    NoLostTaintUpdates(s, steps);
    assert (steps + [Patch(id)])[..|steps|] == steps;
    var r := Run(s, steps);
    assert FetchedIsHistory(r, r.calls[id]);
  }

  /** Without the version guard the same patch does lose a concurrent addition. */
  lemma UnguardedPatchLosesAnAddition(fetched: Stored, t: Taint, u: Taint)
    requires !HasTaint(fetched.node.taints, t) && !HasTaint(fetched.node.taints, u) && !SameIdentity(t, u)
    ensures var current := Edited(Add(u), fetched.node);
      var unguarded := MergeFrom(fetched.node, Edited(Add(t), fetched.node), None);
      HasTaint(current.taints, u) && !HasTaint(Merge(current, unguarded).taints, u)
  {
    AddTaintPresence(fetched.node.taints, u, u);
    AddTaintPresence(fetched.node.taints, t, u);
  }
}
