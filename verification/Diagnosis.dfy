// The proactive diagnosis manager: one diagnose call at a time, a queue of single-event requests, a result cache,
// and a set of workloads already diagnosed. Every suspension at an await ends one step and starts another.
module Diagnosis {
  import opened Common
  import opened HashSuffix

  // ------------------------------------------------------------------- state

  datatype Status = Pending | Loading | Succeeded | Errored

  datatype Cached = Cached(event: EventDigest, status: Status)

  /** A suspended asynchronous call: a cycle with the events still to come, or a single diagnosis. */
  datatype Frame =
    | Cycle(event: EventDigest, rest: seq<EventDigest>)
    | Single(event: EventDigest, request: Option<nat>)

  /** A queued request; the number stands for the caller's promise. */
  datatype Request = Request(event: EventDigest, id: nat)

  /**
   * The manager's fields and the calls in flight, with the history of the queued requests: how many arrived,
   * which were started and which were settled, in order; and the workloads diagnosed with success.
   */
  datatype State = State(running: bool, ready: bool, queue: seq<Request>, cache: map<string, Cached>,
                         keys: set<string>, inflight: seq<Frame>,
                         arrived: nat, started: seq<nat>, settled: seq<nat>, successes: seq<string>)

  /** Whether the cache answers for this very event: anything but loading or failed, pending included. */
  predicate HasDiagnosis(cache: map<string, Cached>, uid: string) {
    uid in cache && cache[uid].status != Loading && cache[uid].status != Errored
  }

  ghost predicate HasDiagnosisForResource(cache: map<string, Cached>, keys: set<string>, e: EventDigest) {
    || ResourceKey(e) in keys
    || exists uid :: uid in cache && ResourceKey(cache[uid].event) == ResourceKey(e) && cache[uid].status != Errored
  }

  ghost function IsNew(cache: map<string, Cached>, keys: set<string>): EventDigest -> bool {
    (e: EventDigest) => !HasDiagnosis(cache, e.uid) && !HasDiagnosisForResource(cache, keys, e)
  }

  function Ids(request: Option<nat>): seq<nat> {
    if request.Some? then [request.value] else []
  }

  // ------------------------------------------------------------- transitions

  /** A single diagnosis up to its await. Without a diagnose function the call throws and the next in line is tried. */
  function Execute(s: State, e: EventDigest, request: Option<nat>): State
    decreases |s.queue|, 1
  {
    var s1 := s.(running := true, cache := s.cache[e.uid := Cached(e, Loading)], started := s.started + Ids(request));
    if s.ready then s1.(inflight := s.inflight + [Single(e, request)])
    else
      var s2 := Drain(s1.(running := false, cache := s.cache[e.uid := Cached(e, Errored)]));
      s2.(settled := s2.settled + Ids(request))
  }

  function Drain(s: State): State
    decreases |s.queue|, 0
  {
    if s.queue == [] then s
    else Execute(s.(queue := s.queue[1..]), s.queue[0].event, Some(s.queue[0].id))
  }

  function MarkedPending(cache: map<string, Cached>, events: seq<EventDigest>): map<string, Cached> {
    if events == [] then cache
    else
      var last := events[|events| - 1];
      MarkedPending(cache, events[..|events| - 1])[last.uid := Cached(last, Pending)]
  }

  function Ask(s: State, e: EventDigest): State {
    if HasDiagnosis(s.cache, e.uid) || !s.ready then s
    else if s.running then s.(queue := s.queue + [Request(e, s.arrived)], arrived := s.arrived + 1)
    else Execute(s, e, None)
  }

  /** What the listeners of one event ask, one question after the other. */
  function AskAll(s: State, asks: seq<EventDigest>): State {
    if asks == [] then s else Ask(AskAll(s, asks[..|asks| - 1]), asks[|asks| - 1])
  }

  /** The end of a cycle: listeners of cycle-end run first, and they may ask for diagnoses; then the queue is drained. */
  function CycleEnd(s: State, asks: seq<EventDigest>): State {
    Drain(AskAll(s.(running := false), asks))
  }

  /** A cycle up to its first await. One without new events ends at once, and its end is heard like any other. */
  ghost function Events(s: State, events: seq<EventDigest>, asks: seq<EventDigest>): State {
    if s.running || !s.ready then s
    else
      var todo := Filter(events, IsNew(s.cache, s.keys));
      if todo == [] then CycleEnd(s, asks)
      else s.(running := true, inflight := s.inflight + [Cycle(todo[0], todo[1..])],
              cache := MarkedPending(s.cache, todo)[todo[0].uid := Cached(todo[0], Loading)])
  }

  ghost function Recorded(s: State, e: EventDigest, ok: bool): State {
    if ok then s.(cache := s.cache[e.uid := Cached(e, Succeeded)], keys := s.keys + {ResourceKey(e)},
                  successes := s.successes + [ResourceKey(e)])
    else s.(cache := s.cache[e.uid := Cached(e, Errored)])
  }

  /** The i-th call in flight is answered or fails, and its caller resumes. */
  ghost function Settled(s: State, i: nat, ok: bool, asks: seq<EventDigest>): State {
    if i >= |s.inflight| then s
    else
      var frame := s.inflight[i];
      var s1 := Recorded(s.(inflight := s.inflight[..i] + s.inflight[i + 1..]), frame.event, ok);
      if frame.Cycle? && frame.rest != [] then
        s1.(cache := s1.cache[frame.rest[0].uid := Cached(frame.rest[0], Loading)],
            inflight := s1.inflight + [Cycle(frame.rest[0], frame.rest[1..])])
      else
        var s2 := CycleEnd(s1, asks);
        s2.(settled := s2.settled + if frame.Single? then Ids(frame.request) else [])
  }

  datatype Step =
    | DiagnoseEvents(events: seq<EventDigest>, asks: seq<EventDigest>)
    | DiagnoseSingle(event: EventDigest)
    | Settle(i: nat, ok: bool, asks: seq<EventDigest>)
    | SetFn(ready: bool)
    | Clear

  ghost function Next(s: State, step: Step): State {
    match step
    case DiagnoseEvents(events, asks) => Events(s, events, asks)
    case DiagnoseSingle(e) => Ask(s, e)
    case Settle(i, ok, asks) => Settled(s, i, ok, asks)
    case SetFn(ready) => s.(ready := ready)
    case Clear => s.(cache := map[], keys := {})
  }

  ghost function Run(s: State, steps: seq<Step>): State {
    if steps == [] then s else Next(Run(s, steps[..|steps| - 1]), steps[|steps| - 1])
  }

  ghost predicate Initial(s: State) {
    && !s.running && s.queue == [] && s.inflight == []
    && s.arrived == 0 && s.started == [] && s.settled == [] && s.successes == []
  }

  // ------------------------------------------------------------- the manager

  class ProactiveDiagnosisManager {
    var running: bool
    var diagnoseFn: bool
    var singleEventQueue: seq<Request>
    var cache: map<string, Cached>
    var diagnosedResourceKeys: set<string>
    var suspended: seq<Frame>
    var arrived: nat
    ghost var started: seq<nat>
    ghost var settled: seq<nat>
    ghost var successes: seq<string>

    constructor ()
      ensures Initial(View())
    {
      running, diagnoseFn, singleEventQueue, cache, diagnosedResourceKeys := false, false, [], map[], {};
      suspended, arrived, started, settled, successes := [], 0, [], [], [];
    }

    ghost function View(): State
      reads this
    {
      State(running, diagnoseFn, singleEventQueue, cache, diagnosedResourceKeys, suspended,
            arrived, started, settled, successes)
    }

    method KeyFor(e: EventDigest) returns (key: string)
      ensures key == ResourceKey(e)
    {
      var baseName := StripHashSuffixes(e.objectName);
      key := (if e.objectNamespace != "" then e.objectNamespace else "_") + "/" + baseName;
    }

    method AlreadyDiagnosed(e: EventDigest) returns (known: bool)
      ensures known <==> HasDiagnosisForResource(cache, diagnosedResourceKeys, e)
    {
      var key := KeyFor(e);
      if key in diagnosedResourceKeys {
        return true;
      }
      var todo := cache.Keys;
      while todo != {}
        invariant todo <= cache.Keys
        invariant forall uid :: uid in cache && uid !in todo ==>
          !(ResourceKey(cache[uid].event) == key && cache[uid].status != Errored)
      {
        var uid :| uid in todo;
        var other := KeyFor(cache[uid].event);
        if other == key && cache[uid].status != Errored {
          return true;
        }
        todo := todo - {uid};
      }
      return false;
    }

    /** The events of a cycle: those neither answered nor about a workload that is done or under way. */
    method NewEvents(events: seq<EventDigest>) returns (todo: seq<EventDigest>)
      ensures todo == Filter(events, IsNew(cache, diagnosedResourceKeys))
    {
      todo := [];
      for i := 0 to |events|
        invariant todo == Filter(events[..i], IsNew(cache, diagnosedResourceKeys))
      {
        assert events[..i + 1][..i] == events[..i];
        var known := AlreadyDiagnosed(events[i]);
        if !HasDiagnosis(cache, events[i].uid) && !known {
          todo := todo + [events[i]];
        }
      }
      assert events[..|events|] == events;
    }

    method DiagnoseEvents(events: seq<EventDigest>, asks: seq<EventDigest>)
      modifies this
      ensures View() == Events(old(View()), events, asks)
    {
      hide Drain, Ask, AskAll, HasDiagnosis;
      if running || !diagnoseFn {
        return;
      }
      running := true;
      var todo := NewEvents(events);
      if |todo| == 0 {
        EndOfCycle(asks);
        return;
      }
      for i := 0 to |todo|
        invariant View() == old(View()).(running := true, cache := MarkedPending(old(cache), todo[..i]))
      {
        assert todo[..i + 1][..i] == todo[..i];
        cache := cache[todo[i].uid := Cached(todo[i], Pending)];
      }
      assert todo[..|todo|] == todo;
      cache := cache[todo[0].uid := Cached(todo[0], Loading)];
      suspended := suspended + [Cycle(todo[0], todo[1..])];
    }

    /** The end of a cycle: the listeners of cycle-end ask, and the queue is drained. */
    method EndOfCycle(asks: seq<EventDigest>)
      modifies this
      ensures View() == CycleEnd(old(View()), asks)
    {
      hide Drain, Ask, HasDiagnosis;
      running := false;
      for i := 0 to |asks|
        invariant View() == AskAll(old(View()).(running := false), asks[..i])
      {
        assert asks[..i + 1][..i] == asks[..i];
        var _ := DiagnoseSingleEvent(asks[i]);
      }
      assert asks[..|asks|] == asks;
      DrainSingleEventQueue();
    }

    /** An answered event is returned from the cache; without a diagnose function the call fails; else it waits or runs. */
    method DiagnoseSingleEvent(e: EventDigest) returns (reply: Reply)
      modifies this
      ensures View() == Ask(old(View()), e)
      ensures reply == (if HasDiagnosis(old(cache), e.uid) then FromCache(old(cache)[e.uid])
                        else if !old(diagnoseFn) then Unavailable
                        else if old(running) then Waiting(old(arrived)) else Called)
    {
      if e.uid in cache && cache[e.uid].status != Loading && cache[e.uid].status != Errored {
        return FromCache(cache[e.uid]);
      }
      if !diagnoseFn {
        return Unavailable;
      }
      if running {
        singleEventQueue := singleEventQueue + [Request(e, arrived)];
        arrived := arrived + 1;
        return Waiting(arrived - 1);
      }
      ExecuteSingleDiagnosis(e, None);
      return Called;
    }

    method ExecuteSingleDiagnosis(e: EventDigest, request: Option<nat>)
      modifies this
      ensures View() == Execute(old(View()), e, request)
      decreases |singleEventQueue|, 1
    {
      running := true;
      cache := cache[e.uid := Cached(e, Loading)];
      started := started + Ids(request);
      if diagnoseFn {
        suspended := suspended + [Single(e, request)];
      } else {
        cache := cache[e.uid := Cached(e, Errored)];
        assert cache == old(cache)[e.uid := Cached(e, Errored)];
        running := false;
        DrainSingleEventQueue();
        settled := settled + Ids(request);
      }
    }

    method DrainSingleEventQueue()
      modifies this
      ensures View() == Drain(old(View()))
      decreases |singleEventQueue|, 0
    {
      if |singleEventQueue| == 0 {
        return;
      }
      var next := singleEventQueue[0];
      singleEventQueue := singleEventQueue[1..];
      ExecuteSingleDiagnosis(next.event, Some(next.id));
    }

    method Record(e: EventDigest, ok: bool)
      modifies this`cache, this`diagnosedResourceKeys, this`successes
      ensures View() == Recorded(old(View()), e, ok)
    {
      if ok {
        var key := KeyFor(e);
        cache := cache[e.uid := Cached(e, Succeeded)];
        diagnosedResourceKeys := diagnosedResourceKeys + {key};
        successes := successes + [key];
      } else {
        cache := cache[e.uid := Cached(e, Errored)];
      }
    }

    /** The code after an await, up to the next await or to the end. */
    method Resume(i: nat, ok: bool, asks: seq<EventDigest>)
      requires i < |suspended|
      modifies this
      ensures View() == Settled(old(View()), i, ok, asks)
    {
      hide Drain, Ask, AskAll, Recorded, HasDiagnosis;
      var frame := suspended[i];
      suspended := suspended[..i] + suspended[i + 1..];
      Record(frame.event, ok);
      if frame.Cycle? && |frame.rest| > 0 {
        cache := cache[frame.rest[0].uid := Cached(frame.rest[0], Loading)];
        suspended := suspended + [Cycle(frame.rest[0], frame.rest[1..])];
        return;
      }
      EndOfCycle(asks);
      if frame.Single? {
        settled := settled + Ids(frame.request);
      }
    }

    method SetDiagnoseFn(ready: bool)
      modifies this
      ensures View() == Next(old(View()), SetFn(ready))
    {
      diagnoseFn := ready;
    }

    method ClearCache()
      modifies this
      ensures View() == Next(old(View()), Clear)
    {
      cache, diagnosedResourceKeys := map[], {};
    }
  }

  datatype Reply = FromCache(result: Cached) | Unavailable | Waiting(id: nat) | Called

  // ----------------------------------------------------------- single flight

  /** The questions that listeners ask if the step ends a cycle. */
  function Asks(step: Step): seq<EventDigest> {
    match step
    case DiagnoseEvents(_, asks) => asks
    case Settle(_, _, asks) => asks
    case _ => []
  }

  /** Requests are started in the order of their arrival, and those still queued are the last to have arrived. */
  predicate InOrder(s: State) {
    && |s.started| + |s.queue| == s.arrived
    && (forall i :: 0 <= i < |s.started| ==> s.started[i] == i)
    && (forall i :: 0 <= i < |s.queue| ==> s.queue[i].id == |s.started| + i)
  }

  /** Every started request outside the open ones has been settled, once. */
  ghost predicate SettledOnce(s: State, open: set<nat>) {
    && Distinct(s.settled)
    && (forall id :: id in open ==> id < |s.started|)
    && forall id: nat :: id in s.settled <==> id < |s.started| && id !in open
  }

  /** The queued request whose diagnosis is in flight, if any. */
  function OpenRequests(s: State): set<nat> {
    if s.inflight != [] && s.inflight[0].Single? && s.inflight[0].request.Some? then {s.inflight[0].request.value} else {}
  }

  ghost predicate Inv(s: State) {
    && |s.inflight| <= 1 && (s.running <==> |s.inflight| == 1)
    && (s.queue != [] ==> s.running)
    && InOrder(s) && SettledOnce(s, OpenRequests(s))
  }

  /** The first request of the queue is started. */
  function Shifted(s: State): State
    requires s.queue != []
  {
    s.(queue := s.queue[1..], started := s.started + [s.queue[0].id])
  }

  /** The first request of the queue becomes the call in flight, or fails at once and the drain goes on. */
  lemma DrainUnfolds(s: State)
    requires s.queue != []
    ensures var e, id := s.queue[0].event, s.queue[0].id;
      Drain(s) ==
        if s.ready then
          Shifted(s).(running := true, cache := s.cache[e.uid := Cached(e, Loading)],
                      inflight := s.inflight + [Single(e, Some(id))])
        else
          var d := Drain(Shifted(s).(running := false, cache := s.cache[e.uid := Cached(e, Errored)]));
          d.(settled := d.settled + [id])
  {
    var tail := s.(queue := s.queue[1..]);
    assert Drain(s) == Execute(tail, s.queue[0].event, Some(s.queue[0].id));
  }

  lemma ShiftKeepsOrder(s: State, open: set<nat>)
    requires s.queue != [] && InOrder(s) && SettledOnce(s, open)
    ensures InOrder(Shifted(s)) && SettledOnce(Shifted(s), open + {|s.started|}) && s.queue[0].id == |s.started|
  {
    assert s.queue[0].id == |s.started| + 0;
  }

  lemma CloseKeepsOrder(s: State, open: set<nat>, id: nat)
    requires SettledOnce(s, open + {id}) && id !in open
    ensures SettledOnce(s.(settled := s.settled + [id]), open)
  {
    assert id in open + {id};
  }

  /** Without a diagnose function, draining starts, fails and settles every queued request. */
  lemma {:induction false} DrainWithoutFn(s: State, open: set<nat>)
    requires !s.ready && !s.running && InOrder(s) && SettledOnce(s, open)
    ensures var r := Drain(s);
      && r == s.(queue := [], cache := r.cache, started := r.started, settled := r.settled)
      && InOrder(r) && SettledOnce(r, open)
    decreases |s.queue|
  {
    hide InOrder, SettledOnce;
    if s.queue != [] {
      var next := s.queue[0];
      DrainUnfolds(s);
      ShiftKeepsOrder(s, open);
      var inner := Shifted(s).(cache := s.cache[next.event.uid := Cached(next.event, Errored)]);
      SameHistory(Shifted(s), inner, open + {next.id});
      DrainWithoutFn(inner, open + {next.id});
      NotYetStarted(s, open);
      CloseKeepsOrder(Drain(inner), open, next.id);
      SameOrder(Drain(inner), Drain(s));
    }
  }

  lemma SameHistory(s: State, t: State, open: set<nat>)
    requires InOrder(s) && SettledOnce(s, open)
    requires t.queue == s.queue && t.arrived == s.arrived && t.started == s.started && t.settled == s.settled
    ensures InOrder(t) && SettledOnce(t, open)
  {
  }

  lemma SameOrder(s: State, t: State)
    requires InOrder(s) && t.queue == s.queue && t.arrived == s.arrived && t.started == s.started
    ensures InOrder(t)
  {
  }

  lemma NotYetStarted(s: State, open: set<nat>)
    requires SettledOnce(s, open)
    ensures |s.started| !in open
  {
  }

  /** With nothing in flight, a drain ends with at most one call in flight and the queue waiting only for that call. */
  lemma DrainKeepsInv(s: State)
    requires !s.running && s.inflight == [] && InOrder(s) && SettledOnce(s, {})
    ensures Inv(Drain(s))
  {
    hide InOrder, SettledOnce;
    if s.ready && s.queue != [] {
      DrainUnfolds(s);
      ShiftKeepsOrder(s, {});
      var r := Drain(s);
      SameHistory(Shifted(s), r, {} + {|s.started|});
      assert {} + {|s.started|} == OpenRequests(r);
    } else if !s.ready {
      DrainWithoutFn(s, {});
    }
  }

  /** A call that ends: its request, if it has one, is settled after the queue was drained. */
  lemma EndKeepsInv(s: State, request: Option<nat>)
    requires !s.running && s.inflight == [] && InOrder(s) && SettledOnce(s, if request.Some? then {request.value} else {})
    ensures Inv(Drain(s).(settled := Drain(s).settled + Ids(request)))
  {
    var open := if request.Some? then {request.value} else {};
    var r := Drain(s);
    if s.queue == [] {
      if request.Some? {
        CloseKeepsOrder(s, {}, request.value);
      }
    } else if s.ready {
      DrainUnfolds(s);
      ShiftKeepsOrder(s, open);
      SameHistory(Shifted(s), r, open + {|s.started|});
    } else {
      DrainWithoutFn(s, open);
    }
    if request.Some? && s.queue != [] {
      NotYetStarted(s, open);
      var still := if s.ready then {|s.started|} else {};
      assert open + still == still + {request.value};
      CloseKeepsOrder(r, still, request.value);
    }
  }

  /** Every step, unless a listener of cycle-end asks for a diagnosis, keeps the invariant. */
  lemma InvIsKeptWithoutListener(s: State, step: Step)
    requires Inv(s) && Asks(step) == []
    ensures Inv(Next(s, step))
  {
    hide ResourceKey, MarkedPending, IsNew, Drain;
    match step
    case DiagnoseEvents(events, _) =>
      if !s.running && s.ready {
        DrainKeepsInv(s);
      }
    case DiagnoseSingle(e) =>
      if !s.running && s.ready {
        assert s.queue == [];
      }
    case Settle(i, ok, _) =>
      if i < |s.inflight| {
        var frame := s.inflight[0];
        assert s.inflight[..0] + s.inflight[1..] == [];
        if frame.Single? || frame.rest == [] {
          EndKeepsInv(Recorded(s.(inflight := []), frame.event, ok).(running := false),
                      if frame.Single? then frame.request else None);
        }
      }
    case _ =>
  }

  /** The step ends a cycle: it answers the last call of one, or starts one that has no new events. */
  ghost predicate Ends(s: State, step: Step) {
    match step
    case Settle(i, _, _) => i < |s.inflight| && (s.inflight[i].Cycle? ==> s.inflight[i].rest == [])
    case DiagnoseEvents(events, _) => !s.running && s.ready && Filter(events, IsNew(s.cache, s.keys)) == []
    case _ => false
  }

  /** The state at the end of a cycle, when its listeners run. */
  ghost function AtCycleEnd(s: State, step: Step): State
    requires Ends(s, step)
  {
    if step.Settle? then
      Recorded(s.(inflight := s.inflight[..step.i] + s.inflight[step.i + 1..]), s.inflight[step.i].event, step.ok).(running := false)
    else s
  }

  /** The queued request, if any, that the end of the cycle settles behind the drain. */
  ghost function EndIds(s: State, step: Step): seq<nat>
    requires Ends(s, step)
  {
    if step.Settle? && s.inflight[step.i].Single? then Ids(s.inflight[step.i].request) else []
  }

  function NeedsCall(cache: map<string, Cached>): EventDigest -> bool {
    (e: EventDigest) => !HasDiagnosis(cache, e.uid)
  }

  /** The questions that the cache does not answer. */
  function Unanswered(cache: map<string, Cached>, asks: seq<EventDigest>): seq<EventDigest> {
    Filter(asks, NeedsCall(cache))
  }

  /**
   * What the listeners of cycle-end have to check before they ask for diagnoses: that there is no diagnose function,
   * or the cache answers all of their questions, or all but one and no request is waiting.
   */
  ghost predicate Quiet(s: State, step: Step) {
    Ends(s, step) && s.ready ==>
      var calls := |Unanswered(AtCycleEnd(s, step).cache, Asks(step))|;
      calls == 0 || (calls == 1 && s.queue == [])
  }

  /** The same step, with nobody listening. */
  function Unheard(step: Step): Step {
    if step.Settle? || step.DiagnoseEvents? then step.(asks := []) else step
  }

  function CalledFor(s: State, e: EventDigest): State {
    s.(running := true, cache := s.cache[e.uid := Cached(e, Loading)], inflight := s.inflight + [Single(e, None)])
  }

  function Requests(events: seq<EventDigest>, from: nat): seq<Request> {
    seq(|events|, i requires 0 <= i < |events| => Request(events[i], from + i))
  }

  /**
   * Of all questions the first that the cache does not answer is served at once, and each further one is queued:
   * a question under way does not answer another one, not even about the same event.
   */
  lemma {:induction false} AskAllOutcome(s: State, asks: seq<EventDigest>)
    requires !s.running
    ensures !s.ready ==> AskAll(s, asks) == s
    ensures s.ready ==>
      var calls := Unanswered(s.cache, asks);
      AskAll(s, asks) ==
        if calls == [] then s
        else CalledFor(s, calls[0]).(queue := s.queue + Requests(calls[1..], s.arrived), arrived := s.arrived + |calls| - 1)
  {
    hide Drain, HasDiagnosis;
    if asks != [] {
      var front, last := asks[..|asks| - 1], asks[|asks| - 1];
      AskAllOutcome(s, front);
      var before, calls := Unanswered(s.cache, front), Unanswered(s.cache, asks);
      if s.ready {
        SameAnswers(s, front, last.uid);
        if HasDiagnosis(s.cache, last.uid) {
          assert calls == before;
        } else if before == [] {
          assert s.started + Ids(None) == s.started && Requests([], s.arrived) == [] && calls == [last];
          assert s.queue + [] == s.queue;
        } else {
          assert calls == before + [last] && calls[1..] == before[1..] + [last];
          assert Requests(calls[1..], s.arrived) == Requests(before[1..], s.arrived) + [Request(last, s.arrived + |before| - 1)];
          assert s.queue + Requests(before[1..], s.arrived) + [Request(last, s.arrived + |before| - 1)]
              == s.queue + Requests(calls[1..], s.arrived);
        }
      }
    }
  }

  /** A question served at once leaves what the cache answers as it was. */
  lemma SameAnswers(s: State, asks: seq<EventDigest>, uid: string)
    ensures var calls := Unanswered(s.cache, asks);
      calls != [] ==> (HasDiagnosis(CalledFor(s, calls[0]).cache, uid) <==> HasDiagnosis(s.cache, uid))
  {
    var calls := Unanswered(s.cache, asks);
    FilterMembers(asks, NeedsCall(s.cache));
    if calls != [] {
      assert calls[0] in calls;
    }
  }

  /** A step that ends a cycle: the questions are asked, the queue is drained, and the ended request is settled. */
  lemma NextAtEnd(s: State, step: Step)
    requires Ends(s, step)
    ensures var d := Drain(AskAll(AtCycleEnd(s, step), Asks(step)));
      Next(s, step) == d.(settled := d.settled + EndIds(s, step))
  {
    hide ResourceKey, Drain, Ask, AskAll, HasDiagnosis, IsNew, MarkedPending;
    if step.DiagnoseEvents? {
      assert s.(running := false) == s;
    }
  }

  lemma AtCycleEndHistory(s: State, step: Step)
    requires Inv(s) && Ends(s, step)
    ensures var e := AtCycleEnd(s, step);
      && e.queue == s.queue && e.arrived == s.arrived && e.started == s.started && e.settled == s.settled
      && e.ready == s.ready && !e.running && e.inflight == []
      && InOrder(e) && SettledOnce(e, OpenRequests(s))
  {
    hide ResourceKey, IsNew;
    if step.Settle? {
      assert s.inflight[..0] + s.inflight[1..] == [];
    }
    SameHistory(s, AtCycleEnd(s, step), OpenRequests(s));
  }

  /** Questions that need no call change nothing. */
  lemma QuestionsWithoutCall(s: State, step: Step)
    requires Ends(s, step)
    requires !s.ready || Unanswered(AtCycleEnd(s, step).cache, Asks(step)) == []
    ensures Next(s, step) == Next(s, Unheard(step))
  {
    hide ResourceKey, Drain, HasDiagnosis, IsNew, Next, Unanswered;
    NextAtEnd(s, step);
    NextAtEnd(s, Unheard(step));
    SameEnd(s, step);
    AskAllOutcome(AtCycleEnd(s, step), Asks(step));
  }

  lemma SameEnd(s: State, step: Step)
    requires Ends(s, step)
    ensures Ends(s, Unheard(step)) && AtCycleEnd(s, Unheard(step)) == AtCycleEnd(s, step)
    ensures EndIds(s, Unheard(step)) == EndIds(s, step) && Asks(Unheard(step)) == []
    ensures AtCycleEnd(s, step).ready == s.ready && !AtCycleEnd(s, step).running
  {
    hide ResourceKey, IsNew;
  }

  /** The one question that needs a call, with no request waiting, is served: its call is in flight afterwards. */
  lemma QuestionWithCall(s: State, step: Step)
    requires Inv(s) && Ends(s, step) && s.ready && s.queue == []
    requires |Unanswered(AtCycleEnd(s, step).cache, Asks(step))| == 1
    ensures var c := CalledFor(AtCycleEnd(s, step), Unanswered(AtCycleEnd(s, step).cache, Asks(step))[0]);
      c.inflight == [Single(Unanswered(AtCycleEnd(s, step).cache, Asks(step))[0], None)] &&
      Next(s, step) == c.(settled := c.settled + EndIds(s, step))
  {
    hide ResourceKey, HasDiagnosis, IsNew, Next, Unanswered, InOrder, SettledOnce, AtCycleEnd;
    var e := AtCycleEnd(s, step);
    var calls := Unanswered(e.cache, Asks(step));
    NextAtEnd(s, step);
    AtCycleEndHistory(s, step);
    AskAllOutcome(e, Asks(step));
    assert Requests(calls[1..], e.arrived) == [] && e.queue + [] == [];
    assert AskAll(e, Asks(step)) == CalledFor(e, calls[0]);
    DrainOfNothing(CalledFor(e, calls[0]));
  }

  /**
   * After a step at most one call is in flight if and only if the listeners of cycle-end, if a cycle ended, asked
   * nothing that needs a call, or one such question while no request was waiting; otherwise there are two.
   */
  lemma ListenerBreaksSingleFlight(s: State, step: Step)
    requires Inv(s)
    ensures |Next(s, step).inflight| <= 1 <==> Quiet(s, step)
    ensures |Next(s, step).inflight| <= 2
  {
    hide ResourceKey, MarkedPending, IsNew, HasDiagnosis, Drain, InOrder, SettledOnce, Unanswered, AtCycleEnd;
    if !Ends(s, step) || !s.ready || Unanswered(AtCycleEnd(s, step).cache, Asks(step)) == [] {
      if Ends(s, step) {
        QuestionsWithoutCall(s, step);
      } else {
        UnendedIsUnheard(s, step);
      }
      InvIsKeptWithoutListener(s, Unheard(step));
    } else {
      hide Next, Inv;
      var e := AtCycleEnd(s, step);
      NextAtEnd(s, step);
      AtCycleEndHistory(s, step);
      AskAllOutcome(e, Asks(step));
      var called := AskAll(e, Asks(step));
      if called.queue == [] {
        DrainOfNothing(called);
      } else {
        DrainUnfolds(called);
      }
    }
  }

  /** The failing case: two questions at the end of a cycle that had nothing to do. */
  lemma TwoQuestionsBreakSingleFlight(s: State, e: EventDigest, f: EventDigest)
    requires Initial(s) && s.ready && !HasDiagnosis(s.cache, e.uid) && !HasDiagnosis(s.cache, f.uid)
    ensures |Next(s, DiagnoseEvents([], [e, f])).inflight| == 2
  {
    hide HasDiagnosis, IsNew, Next;
    var step := DiagnoseEvents([], [e, f]);
    InvAtStart(s);
    ListenerBreaksSingleFlight(s, step);
    FilterAll([e, f], NeedsCall(s.cache));
    assert Unanswered(s.cache, [e, f]) == [e, f];
  }

  lemma UnendedIsUnheard(s: State, step: Step)
    requires !Ends(s, step)
    ensures Next(s, step) == Next(s, Unheard(step)) && Asks(Unheard(step)) == []
  {
    hide IsNew;
  }

  lemma InvIsKept(s: State, step: Step)
    requires Inv(s) && Quiet(s, step)
    ensures Inv(Next(s, step))
  {
    hide ResourceKey, MarkedPending, IsNew, HasDiagnosis, Drain, InOrder, SettledOnce, Unanswered, AtCycleEnd;
    if !Ends(s, step) {
      UnendedIsUnheard(s, step);
      InvIsKeptWithoutListener(s, Unheard(step));
    } else if !s.ready || Unanswered(AtCycleEnd(s, step).cache, Asks(step)) == [] {
      QuestionsWithoutCall(s, step);
      InvIsKeptWithoutListener(s, Unheard(step));
    } else {
      hide Next;
      var e := AtCycleEnd(s, step);
      var called := CalledFor(e, Unanswered(e.cache, Asks(step))[0]);
      AtCycleEndHistory(s, step);
      QuestionWithCall(s, step);
      SameHistory(e, called, OpenRequests(s));
      EndedRequest(s, step);
      var r := Next(s, step);
      SameOrder(called, r);
      if EndIds(s, step) == [] {
        assert r.settled == called.settled;
        SameHistory(called, r, {});
      } else {
        assert {} + {EndIds(s, step)[0]} == OpenRequests(s);
        CloseKeepsOrder(called, {}, EndIds(s, step)[0]);
      }
    }
  }

  /** The request that the end of the cycle settles is the one in flight. */
  lemma EndedRequest(s: State, step: Step)
    requires Inv(s) && Ends(s, step)
    ensures |EndIds(s, step)| == |OpenRequests(s)| <= 1
    ensures OpenRequests(s) == if EndIds(s, step) == [] then {} else {EndIds(s, step)[0]}
  {
    hide IsNew;
  }

  ghost predicate AllQuiet(s: State, steps: seq<Step>) {
    steps != [] ==> AllQuiet(s, steps[..|steps| - 1]) && Quiet(Run(s, steps[..|steps| - 1]), steps[|steps| - 1])
  }

  ghost predicate AlwaysAtMostOne(s: State, steps: seq<Step>) {
    && (steps != [] ==> AlwaysAtMostOne(s, steps[..|steps| - 1]))
    && |Run(s, steps).inflight| <= 1
  }

  /**
   * Single flight. Over any run, at most one diagnose call is in flight at every moment if and only if at every end of
   * a cycle, whatever number of questions its listeners ask, none needs a call, or one does while no request is waiting.
   * In such a run a waiting request means the manager is running, requests start in the order of their arrival, and
   * every started request but the one in flight has been settled, exactly once.
   */
  lemma {:induction false} SingleFlight(s: State, steps: seq<Step>)
    requires Initial(s)
    ensures AlwaysAtMostOne(s, steps) <==> AllQuiet(s, steps)
    ensures AllQuiet(s, steps) ==> Inv(Run(s, steps))
  {
    hide Next, Inv, Quiet;
    if steps == [] {
      InvAtStart(s);
      InvBounds(s);
    } else {
      var front, last := steps[..|steps| - 1], steps[|steps| - 1];
      SingleFlight(s, front);
      if AllQuiet(s, front) {
        ListenerBreaksSingleFlight(Run(s, front), last);
        if Quiet(Run(s, front), last) {
          InvIsKept(Run(s, front), last);
        }
      }
    }
  }

  lemma InvAtStart(s: State)
    requires Initial(s)
    ensures Inv(s)
  {
  }

  // ------------------------------------------------------------ settlement

  /** How many calls must be answered before the call in flight and the cycle it belongs to are over. */
  function Work(s: State): nat {
    if s.inflight == [] then 0
    else if s.inflight[0].Cycle? then 1 + |s.inflight[0].rest| else 1
  }

  /** How many answers request id still waits for. */
  function Ahead(s: State, id: nat): nat {
    if id in s.settled then 0
    else Work(s) + if id < |s.started| then 0 else id - |s.started| + 1
  }

  predicate Answers(step: Step) {
    step.Settle? && step.i == 0
  }

  /** A drain puts request id one place ahead, or settles it. */
  lemma DrainMovesAhead(s: State, open: set<nat>, id: nat)
    requires !s.running && s.inflight == [] && InOrder(s) && SettledOnce(s, open) && |open| <= 1
    requires |s.started| <= id < s.arrived
    ensures Ahead(Drain(s), id) <= id - |s.started| + 1
    ensures !s.ready ==> id in Drain(s).settled
  {
    DrainUnfolds(s);
    if s.ready {
      NotSettledYet(s, open, id);
    } else {
      DrainWithoutFn(s, open);
      StartedInOrder(Drain(s));
    }
  }

  lemma NotSettledYet(s: State, open: set<nat>, id: nat)
    requires SettledOnce(s, open) && id >= |s.started|
    ensures id !in s.settled
  {
  }

  lemma StartedInOrder(s: State)
    requires InOrder(s) && s.queue == []
    ensures |s.started| == s.arrived
  {
  }

  lemma DrainKeepsSettled(s: State, open: set<nat>, id: nat)
    requires !s.running && InOrder(s) && SettledOnce(s, open) && id in s.settled
    ensures id in Drain(s).settled
  {
    if s.queue != [] {
      DrainUnfolds(s);
      if !s.ready {
        DrainWithoutFn(s, open);
        StartedInOrder(Drain(s));
      }
    }
  }

  /** When the call in flight ends with nothing behind it, every waiting request moves one place ahead. */
  lemma EndMovesAhead(s: State, ok: bool, id: nat)
    requires Inv(s) && s.inflight != [] && (s.inflight[0].Cycle? ==> s.inflight[0].rest == []) && id < s.arrived
    ensures Ahead(s, id) > 0 ==> Ahead(Next(s, Settle(0, ok, [])), id) < Ahead(s, id)
    ensures id in s.settled ==> id in Next(s, Settle(0, ok, [])).settled
  {
    hide ResourceKey, Drain;
    var frame, open := s.inflight[0], OpenRequests(s);
    var ended := Recorded(s.(inflight := []), frame.event, ok).(running := false);
    assert s.inflight[..0] + s.inflight[1..] == [];
    SameHistory(s, ended, open);
    if id in s.settled {
      DrainKeepsSettled(ended, open, id);
    } else if id >= |s.started| {
      DrainMovesAhead(ended, open, id);
    } else {
      assert id in open && frame.Single? && frame.request == Some(id);
    }
  }

  lemma UnheardMovesAhead(s: State, step: Step, id: nat)
    requires Inv(s) && Asks(step) == [] && id < s.arrived
    ensures s.arrived <= Next(s, step).arrived
    ensures id in s.settled ==> id in Next(s, step).settled
    ensures Ahead(Next(s, step), id) <= Ahead(s, id)
    ensures Answers(step) && Ahead(s, id) > 0 ==> Ahead(Next(s, step), id) < Ahead(s, id)
  {
    hide ResourceKey, MarkedPending, IsNew, Drain;
    if step.Settle? && step.i < |s.inflight| && (s.inflight[0].Cycle? ==> s.inflight[0].rest == []) {
      EndMovesAhead(s, step.ok, id);
      InvIsKeptWithoutListener(s, step);
      EndKeepsArrived(s, step.ok);
    } else if !s.running {
      assert id in s.settled;
      DrainOfNothing(s);
    } else {
      assert s.inflight != [];
    }
  }

  lemma StepMovesAhead(s: State, step: Step, id: nat)
    requires Inv(s) && Quiet(s, step) && id < s.arrived
    ensures s.arrived <= Next(s, step).arrived
    ensures id in s.settled ==> id in Next(s, step).settled
    ensures Ahead(Next(s, step), id) <= Ahead(s, id)
    ensures Answers(step) && Ahead(s, id) > 0 ==> Ahead(Next(s, step), id) < Ahead(s, id)
  {
    hide ResourceKey, MarkedPending, IsNew, HasDiagnosis, Drain, Ahead, Unanswered, AtCycleEnd;
    if !Ends(s, step) {
      UnendedIsUnheard(s, step);
      UnheardMovesAhead(s, Unheard(step), id);
    } else if !s.ready || Unanswered(AtCycleEnd(s, step).cache, Asks(step)) == [] {
      QuestionsWithoutCall(s, step);
      UnheardMovesAhead(s, Unheard(step), id);
    } else {
      QuestionWithCall(s, step);
      AtCycleEndHistory(s, step);
      InvIsKept(s, step);
      assert id in Next(s, step).settled;
      SettledIsNotAhead(Next(s, step), id);
    }
  }

  lemma SettledIsNotAhead(s: State, id: nat)
    requires id in s.settled
    ensures Ahead(s, id) == 0
  {
  }

  lemma DrainOfNothing(s: State)
    requires s.queue == []
    ensures Drain(s) == s
  {
  }

  lemma EndKeepsArrived(s: State, ok: bool)
    requires Inv(s) && s.inflight != [] && (s.inflight[0].Cycle? ==> s.inflight[0].rest == [])
    ensures Next(s, Settle(0, ok, [])).arrived == s.arrived
  {
    hide ResourceKey, Drain;
    var ended := Recorded(s.(inflight := []), s.inflight[0].event, ok).(running := false);
    assert s.inflight[..0] + s.inflight[1..] == [];
    SameHistory(s, ended, OpenRequests(s));
    if s.queue != [] {
      DrainUnfolds(ended);
      if !s.ready {
        DrainWithoutFn(ended, OpenRequests(s));
      }
    } else {
      DrainOfNothing(ended);
    }
  }

  function Answered(steps: seq<Step>): nat {
    if steps == [] then 0 else Answered(steps[..|steps| - 1]) + if Answers(steps[|steps| - 1]) then 1 else 0
  }

  /**
   * Every request is settled if the diagnose calls settle: after as many answers as were ahead of it, whatever arrives
   * or happens in between, a request has been settled. Nothing overtakes it.
   */
  lemma {:induction false} RequestsAreSettled(s: State, steps: seq<Step>, id: nat)
    requires Inv(s) && id < s.arrived && AllQuiet(s, steps)
    ensures Inv(Run(s, steps)) && id < Run(s, steps).arrived
    ensures Ahead(Run(s, steps), id) == 0 || Ahead(Run(s, steps), id) + Answered(steps) <= Ahead(s, id)
    ensures Answered(steps) >= Ahead(s, id) ==> id in Run(s, steps).settled
  {
    hide Next, Inv, Ahead, Quiet;
    if steps != [] {
      var front, last := steps[..|steps| - 1], steps[|steps| - 1];
      RequestsAreSettled(s, front, id);
      InvIsKept(Run(s, front), last);
      StepMovesAhead(Run(s, front), last, id);
    }
    NothingAheadMeansSettled(Run(s, steps), id);
  }

  lemma NothingAheadMeansSettled(s: State, id: nat)
    requires Inv(s) && id < s.arrived
    ensures Ahead(s, id) == 0 <==> id in s.settled
  {
  }

  // ------------------------------------------------------ order of settlement

  /** Requests have been settled in the order of their arrival. */
  predicate SettledInOrder(s: State) {
    forall i :: 0 <= i < |s.settled| ==> s.settled[i] == i
  }

  /** The request in flight is the next one to be settled, and all before it have been. */
  lemma OpenRequestIsNext(s: State)
    requires Inv(s) && SettledInOrder(s)
    ensures forall id :: id in OpenRequests(s) ==> id == |s.settled|
    ensures |s.settled| + |OpenRequests(s)| == |s.started|
  {
    var n := |s.settled|;
    assert n !in s.settled;
    if n > 0 {
      assert s.settled[n - 1] == n - 1 && s.settled[n - 1] in s.settled;
    }
    forall id | id in OpenRequests(s) ensures id == n {
      if n > 0 {
        var k := if id < n then id else n - 1;
        assert s.settled[k] == k && s.settled[k] in s.settled;
      }
      if id > 0 {
        assert id - 1 in s.settled;
      }
    }
    OneOpenRequest(s);
    assert n + 1 !in s.settled;
  }

  lemma OneOpenRequest(s: State)
    requires Inv(s)
    ensures |OpenRequests(s)| <= 1
    ensures |OpenRequests(s)| == 0 <==> OpenRequests(s) == {}
  {
  }

  /**
   * What keeps the order when a cycle ends: the diagnose function is there, or at most one request, queued or in
   * flight, is left to be settled without it.
   */
  ghost predicate Orderly(s: State, step: Step) {
    Ends(s, step) && !s.ready ==> |s.queue| + |OpenRequests(s)| <= 1
  }

  /** Without a diagnose function the last request to arrive is the first to be settled. */
  lemma {:induction false} LastComesFirst(s: State)
    requires !s.ready && !s.running && InOrder(s) && s.queue != []
    ensures s.settled <= Drain(s).settled && |Drain(s).settled| == |s.settled| + |s.queue|
    ensures Drain(s).settled[|s.settled|] == s.arrived - 1
    decreases |s.queue|
  {
    hide InOrder;
    var next := s.queue[0];
    DrainUnfolds(s);
    FirstIsNext(s);
    var inner := Shifted(s).(cache := s.cache[next.event.uid := Cached(next.event, Errored)]);
    if inner.queue != [] {
      LastComesFirst(inner);
    } else {
      DrainOfNothing(inner);
    }
  }

  lemma FirstIsNext(s: State)
    requires InOrder(s) && s.queue != []
    ensures s.queue[0].id == |s.started| && |s.started| + |s.queue| == s.arrived
    ensures forall t: State :: t.queue == s.queue[1..] && t.started == s.started + [s.queue[0].id] && t.arrived == s.arrived
              ==> InOrder(t)
  {
    assert s.queue[0].id == |s.started| + 0;
  }

  lemma ReadyDrain(s: State)
    requires s.ready
    ensures Drain(s).ready && Drain(s).settled == s.settled
  {
    if s.queue != [] {
      DrainUnfolds(s);
    }
  }

  /** What a quiet step settles: nothing, or at the end of a cycle what the drain settles and then the request in flight. */
  lemma SettledByStep(s: State, step: Step)
    requires Inv(s) && Quiet(s, step)
    ensures !Ends(s, step) ==> Next(s, step).settled == s.settled
    ensures Ends(s, step) ==>
      Next(s, step).settled == (if s.ready then s.settled else Drain(AtCycleEnd(s, step)).settled) + EndIds(s, step)
  {
    hide ResourceKey, MarkedPending, IsNew, HasDiagnosis, Drain, AskAll, Unanswered, Inv;
    if Ends(s, step) {
      hide Next;
      NextAtEnd(s, step);
      AtCycleEndHistory(s, step);
      AskAllOutcome(AtCycleEnd(s, step), Asks(step));
      if s.ready {
        ReadyDrain(AskAll(AtCycleEnd(s, step), Asks(step)));
      }
    }
  }

  predicate InSequence(q: seq<nat>) {
    forall i :: 0 <= i < |q| ==> q[i] == i
  }

  lemma OneMoreInSequence(q: seq<nat>, ids: seq<nat>)
    requires InSequence(q) && |ids| <= 1 && forall i :: 0 <= i < |ids| ==> ids[i] == |q|
    ensures InSequence(q + ids)
  {
  }

  /** A list that goes on with the number of its last place is in sequence exactly when that is its next place. */
  lemma LastFirstInSequence(q: seq<nat>, r: seq<nat>, ids: seq<nat>)
    requires InSequence(q) && q <= r && |q| < |r| && |ids| <= 1
    requires r[|q|] == |r| + |ids| - 1
    ensures InSequence(r + ids) <==> |r| + |ids| == |q| + 1
  {
    assert (r + ids)[|q|] == r[|q|];
    if |r| + |ids| == |q| + 1 {
      assert forall i :: 0 <= i < |q| ==> r[i] == q[i];
    }
  }

  /** A quiet step keeps the order of settlement if and only if it is orderly; and settled requests stay settled. */
  lemma SettlementStaysInOrderExactly(s: State, step: Step)
    requires Inv(s) && Quiet(s, step)
    ensures s.settled <= Next(s, step).settled
    ensures SettledInOrder(s) ==> (SettledInOrder(Next(s, step)) <==> Orderly(s, step))
  {
    hide ResourceKey, MarkedPending, IsNew, HasDiagnosis, Drain, Next, Quiet, AtCycleEnd, Inv, OpenRequests, InSequence, EndIds, Ends;
    SettledByStep(s, step);
    SettledIsSequence(s);
    SettledIsSequence(Next(s, step));
    if Ends(s, step) {
      var e := AtCycleEnd(s, step);
      var ids := EndIds(s, step);
      AtCycleEndHistory(s, step);
      EndedRequest(s, step);
      if SettledInOrder(s) {
        OpenRequestIsNext(s);
      }
      if s.ready || s.queue == [] {
        DrainOfNothingAtEnd(e);
        if SettledInOrder(s) {
          OneMoreInSequence(s.settled, ids);
        }
      } else {
        LastComesFirst(e);
        if SettledInOrder(s) {
          FirstIsNext(e);
          LastFirstInSequence(s.settled, Drain(e).settled, ids);
        }
      }
    }
  }

  lemma SettledIsSequence(s: State)
    ensures SettledInOrder(s) <==> InSequence(s.settled)
  {
  }

  lemma DrainOfNothingAtEnd(s: State)
    ensures s.queue == [] ==> Drain(s) == s
  {
  }

  ghost predicate AllOrderly(s: State, steps: seq<Step>) {
    steps != [] ==> AllOrderly(s, steps[..|steps| - 1]) && Orderly(Run(s, steps[..|steps| - 1]), steps[|steps| - 1])
  }

  /**
   * First come, first settled: over any quiet run requests are settled in the order of their arrival if and only if no
   * cycle ended without a diagnose function while more than one request was left.
   */
  lemma {:induction false} SettledFirstComeFirstServed(s: State, steps: seq<Step>)
    requires Initial(s) && AllQuiet(s, steps)
    ensures SettledInOrder(Run(s, steps)) <==> AllOrderly(s, steps)
  {
    hide Next, Inv, Quiet, Orderly;
    if steps != [] {
      var front, last := steps[..|steps| - 1], steps[|steps| - 1];
      SettledFirstComeFirstServed(s, front);
      SingleFlight(s, front);
      SettlementStaysInOrderExactly(Run(s, front), last);
      if SettledInOrder(Run(s, steps)) {
        PrefixIsInOrder(Run(s, front), Run(s, steps));
      }
    }
  }

  lemma PrefixIsInOrder(s: State, t: State)
    requires s.settled <= t.settled && SettledInOrder(t)
    ensures SettledInOrder(s)
  {
    assert forall i :: 0 <= i < |s.settled| ==> t.settled[i] == s.settled[i];
  }

  /** The failing case: with the function gone, two waiting requests are settled in the opposite order. */
  lemma SettlementOrderReverses(s: State, e: EventDigest, f: EventDigest)
    requires Inv(s) && !s.ready && s.inflight == [Single(e, None)]
    requires |s.queue| == 2 && s.settled == [] && s.started == []
    ensures Next(s, Settle(0, true, [])).settled == [1, 0]
  {
    hide ResourceKey, Drain;
    var ended := Recorded(s.(inflight := []), e, true).(running := false);
    assert s.inflight[..0] + s.inflight[1..] == [];
    DrainUnfolds(ended);
    var one := Shifted(ended).(cache := ended.cache[ended.queue[0].event.uid := Cached(ended.queue[0].event, Errored)]);
    DrainUnfolds(one);
    var two := Shifted(one).(cache := one.cache[one.queue[0].event.uid := Cached(one.queue[0].event, Errored)]);
    DrainOfNothing(two);
    assert s.queue[0].id == 0 && s.queue[1].id == 1;
  }

  lemma InvBounds(s: State)
    requires Inv(s)
    ensures |s.inflight| <= 1
  {
  }

  // -------------------------------------------------- one success per workload

  ghost predicate DistinctWorkloads(events: seq<EventDigest>) {
    forall i, j :: 0 <= i < j < |events| ==> ResourceKey(events[i]) != ResourceKey(events[j])
  }

  /** The events extracted from any fetched list are about distinct workloads. */
  lemma TopEventsAreDistinct(events: seq<RawEvent>, limit: nat)
    ensures DistinctWorkloads(Digests(Top(events, limit)))
  {
    hide Top, ResourceKey;
    TopDigestsAreDistinct(events, limit);
  }

  ghost function Workloads(events: seq<EventDigest>): seq<string> {
    seq(|events|, i requires 0 <= i < |events| => ResourceKey(events[i]))
  }

  function EventsOf(queue: seq<Request>): seq<EventDigest> {
    seq(|queue|, i requires 0 <= i < |queue| => queue[i].event)
  }

  /** The workloads still to be answered, in order: of the call in flight, the rest of its cycle, and the queue. */
  ghost function Claimed(s: State): seq<string> {
    (if s.inflight == [] then []
     else if s.inflight[0].Cycle? then Workloads([s.inflight[0].event] + s.inflight[0].rest)
     else Workloads([s.inflight[0].event]))
    + Workloads(EventsOf(s.queue))
  }

  // The next three say what one step does to the workloads diagnosed with success or still to be answered.

  /** Those that stay: an answer can be a failure, and without a function the end of a cycle drops what was waiting. */
  ghost function Kept(s: State, step: Step): seq<string> {
    var t := if step.Settle? then Next(s, Unheard(step)) else s;
    t.successes + Claimed(t)
  }

  /** Those that come: of the new events of a cycle, or of a question that needs a call. */
  ghost function NewClaims(s: State, step: Step): seq<string> {
    if !s.ready then []
    else if Ends(s, step) then Workloads(Unanswered(AtCycleEnd(s, step).cache, Asks(step)))
    else match step
      case DiagnoseEvents(events, _) => if s.running then [] else Workloads(Filter(events, IsNew(s.cache, s.keys)))
      case DiagnoseSingle(e) => Workloads(Unanswered(s.cache, [e]))
      case _ => []
  }

  /** Among those that come one repeats, or is there already. */
  ghost predicate Repeats(s: State, step: Step) {
    !Distinct(NewClaims(s, step)) || exists k :: k in NewClaims(s, step) && k in Kept(s, step)
  }

  /** The workloads diagnosed with success or still to be answered are all different. */
  ghost predicate Once(s: State) {
    Distinct(s.successes + Claimed(s))
  }

  lemma DistinctWorkloadsExactly(events: seq<EventDigest>)
    ensures Distinct(Workloads(events)) <==> DistinctWorkloads(events)
  {
    hide ResourceKey;
    assert forall i :: 0 <= i < |events| ==> Workloads(events)[i] == ResourceKey(events[i]);
  }

  lemma FilteredIsDistinct(events: seq<EventDigest>, p: EventDigest -> bool)
    requires DistinctWorkloads(events)
    ensures DistinctWorkloads(Filter(events, p))
  {
    hide ResourceKey;
    var f := Filter(events, p);
    forall i, j | 0 <= i < j < |f| ensures ResourceKey(f[i]) != ResourceKey(f[j]) {
      FilterPositions(events, p, i, j);
    }
  }

  /** A cycle with new events claims their workloads. */
  lemma CycleClaims(s: State, events: seq<EventDigest>, asks: seq<EventDigest>)
    requires Inv(s) && !s.running && s.ready && Filter(events, IsNew(s.cache, s.keys)) != []
    ensures var s' := Events(s, events, asks);
      && s'.successes == s.successes && Claimed(s) == []
      && Claimed(s') == Workloads(Filter(events, IsNew(s.cache, s.keys)))
  {
    hide ResourceKey, MarkedPending, HasDiagnosis, InOrder, SettledOnce, IsNew;
    var todo, s' := Filter(events, IsNew(s.cache, s.keys)), Events(s, events, asks);
    assert [todo[0]] + todo[1..] == todo && s'.inflight == [Cycle(todo[0], todo[1..])];
    assert Workloads(EventsOf([])) == [];
  }

  /** A request that makes a call claims its workload; any other request claims nothing. */
  lemma AskClaims(s: State, e: EventDigest)
    requires Inv(s)
    ensures var s' := Ask(s, e);
      && s'.successes == s.successes && s'.keys == s.keys
      && Claimed(s') == Claimed(s) + if s.ready && !HasDiagnosis(s.cache, e.uid) then [ResourceKey(e)] else []
  {
    hide ResourceKey, HasDiagnosis, InOrder, SettledOnce;
    if s.ready && !HasDiagnosis(s.cache, e.uid) {
      if s.running {
        assert EventsOf(s.queue + [Request(e, s.arrived)]) == EventsOf(s.queue) + [e];
        assert Workloads(EventsOf(s.queue) + [e]) == Workloads(EventsOf(s.queue)) + [ResourceKey(e)];
      } else {
        assert Ask(s, e).inflight == [Single(e, None)];
        assert Claimed(Ask(s, e)) == [ResourceKey(e)];
      }
    }
  }

  lemma ClaimedMidCycle(s: State, ok: bool)
    requires Inv(s) && s.inflight != [] && !Ends(s, Settle(0, ok, []))
    ensures Claimed(s) != [] && Claimed(s)[0] == ResourceKey(s.inflight[0].event)
    ensures Claimed(Settled(s, 0, ok, [])) == Claimed(s)[1..]
  {
    hide ResourceKey, HasDiagnosis, InOrder, SettledOnce;
    var frame, s' := s.inflight[0], Settled(s, 0, ok, []);
    assert s.inflight[..0] + s.inflight[1..] == [];
    assert s'.inflight == [Cycle(frame.rest[0], frame.rest[1..])];
    assert [frame.rest[0]] + frame.rest[1..] == frame.rest;
    assert Workloads([frame.event] + frame.rest) == [ResourceKey(frame.event)] + Workloads(frame.rest);
  }

  lemma ClaimedAtEnd(s: State, ok: bool)
    requires Inv(s) && Ends(s, Settle(0, ok, []))
    ensures Claimed(s) == [ResourceKey(s.inflight[0].event)] + Workloads(EventsOf(s.queue))
    ensures var e := AtCycleEnd(s, Settle(0, ok, []));
      && Claimed(Drain(e)) == (if s.ready then Workloads(EventsOf(s.queue)) else [])
      && Drain(e).successes == e.successes && Drain(e).keys == e.keys && Drain(e).ready == e.ready
  {
    hide ResourceKey, HasDiagnosis, InOrder, SettledOnce, Recorded;
    var e := AtCycleEnd(s, Settle(0, ok, []));
    AtCycleEndHistory(s, Settle(0, ok, []));
    AtCycleEndIsIdle(s, ok);
    if s.queue == [] {
      DrainOfNothing(e);
    } else if s.ready {
      DrainUnfolds(e);
      assert EventsOf(s.queue) == [s.queue[0].event] + EventsOf(s.queue[1..]);
      assert Workloads(EventsOf(s.queue)) == Workloads([s.queue[0].event]) + Workloads(EventsOf(s.queue[1..]));
    } else {
      SameHistory(s, e, OpenRequests(s));
      DrainWithoutFn(e, OpenRequests(s));
    }
  }

  lemma AtCycleEndIsIdle(s: State, ok: bool)
    requires Inv(s) && Ends(s, Settle(0, ok, []))
    ensures AtCycleEnd(s, Settle(0, ok, [])).inflight == []
  {
    hide ResourceKey;
    assert s.inflight[..0] + s.inflight[1..] == [];
  }

  /** What an answer leaves to be answered: all but the first, or nothing at the end of a cycle without a function. */
  lemma AnswerClaims(s: State, ok: bool)
    requires Inv(s) && s.inflight != []
    ensures var s', step := Settled(s, 0, ok, []), Settle(0, ok, []);
      && Claimed(s) != [] && Claimed(s)[0] == ResourceKey(s.inflight[0].event)
      && s'.ready == s.ready
      && s'.successes == s.successes + (if ok then [Claimed(s)[0]] else [])
      && s'.keys == s.keys + (if ok then {Claimed(s)[0]} else {})
      && Claimed(s') == if Ends(s, step) && !s.ready then [] else Claimed(s)[1..]
  {
    hide ResourceKey, HasDiagnosis, Inv, Claimed, Drain;
    var step, s' := Settle(0, ok, []), Settled(s, 0, ok, []);
    assert s.successes + [] == s.successes && s.keys + {} == s.keys;
    if Ends(s, step) {
      ClaimedAtEnd(s, ok);
      SameClaims(s', Drain(AtCycleEnd(s, step)));
    } else {
      ClaimedMidCycle(s, ok);
    }
  }

  lemma DistinctParts(a: seq<string>, b: seq<string>)
    requires Distinct(a + b) && b != []
    ensures Distinct(a + [b[0]] + b[1..]) && Distinct(a + [b[0]]) && Distinct(a) && Distinct(a + b[1..])
  {
    assert a + [b[0]] + b[1..] == a + b;
    forall i, j | 0 <= i < j < |a + b[1..]| ensures (a + b[1..])[i] != (a + b[1..])[j] {
      var x, y := if i < |a| then i else i + 1, if j < |a| then j else j + 1;
      assert (a + b)[x] == (a + b[1..])[i] && (a + b)[y] == (a + b[1..])[j];
    }
    forall i, j | 0 <= i < j < |a + [b[0]]| ensures (a + [b[0]])[i] != (a + [b[0]])[j] {
      assert (a + b)[i] == (a + [b[0]])[i] && (a + b)[j] == (a + [b[0]])[j];
    }
    forall i, j | 0 <= i < j < |a| ensures a[i] != a[j] {
      assert (a + b)[i] == a[i] && (a + b)[j] == a[j];
    }
  }

  /** A question at the end of a cycle claims its workload; what else the end leaves is as if nobody had asked. */
  lemma QuestionClaims(s: State, step: Step)
    requires Inv(s) && Quiet(s, step) && Ends(s, step)
    ensures var s', t := Next(s, step), Next(s, Unheard(step));
      s'.successes == t.successes && Claimed(s') == Claimed(t) + NewClaims(s, step)
  {
    hide ResourceKey, HasDiagnosis, InOrder, SettledOnce, IsNew, Next, Unanswered, AtCycleEnd, Inv, Claimed;
    if !s.ready || Unanswered(AtCycleEnd(s, step).cache, Asks(step)) == [] {
      QuestionsWithoutCall(s, step);
      assert Workloads([]) == [];
    } else {
      var e := AtCycleEnd(s, step);
      var calls, c := Unanswered(e.cache, Asks(step)), CalledFor(e, Unanswered(e.cache, Asks(step))[0]);
      QuestionWithCall(s, step);
      AtCycleEndHistory(s, step);
      NextAtEnd(s, Unheard(step));
      SameEnd(s, step);
      DrainOfNothing(e);
      OneClaim(Next(s, step), calls[0]);
      NothingClaimed(Next(s, Unheard(step)));
      assert calls == [calls[0]];
    }
  }

  lemma OneClaim(s: State, e: EventDigest)
    requires s.inflight == [Single(e, None)] && s.queue == []
    ensures Claimed(s) == Workloads([e])
  {
    hide ResourceKey;
  }

  lemma NothingClaimed(s: State)
    requires s.inflight == [] && s.queue == []
    ensures Claimed(s) == []
  {
  }

  /** The workloads diagnosed or still to be answered after a step are those kept and those that came, in order. */
  lemma StepClaims(s: State, step: Step)
    requires Inv(s) && Quiet(s, step)
    ensures Next(s, step).successes + Claimed(Next(s, step)) == Kept(s, step) + NewClaims(s, step)
  {
    hide ResourceKey, HasDiagnosis, IsNew, Inv, Claimed, Quiet;
    if Ends(s, step) {
      hide Next;
      QuestionClaims(s, step);
      if step.DiagnoseEvents? {
        EmptyCycleEnds(s, step);
      }
    } else {
      match step
      case DiagnoseEvents(events, asks) =>
        if !s.running && s.ready {
          CycleClaims(s, events, asks);
        }
      case DiagnoseSingle(e) =>
        AskClaims(s, e);
        assert Unanswered(s.cache, [e]) == if HasDiagnosis(s.cache, e.uid) then [] else [e] by {
          FilterOne(e, NeedsCall(s.cache));
        }
        assert Workloads([e]) == [ResourceKey(e)] && Workloads([]) == [];
      case Settle(_, _, _) =>
        UnendedIsUnheard(s, step);
      case SetFn(ready) =>
        SameClaims(s, s.(ready := ready));
      case Clear =>
        SameClaims(s, Next(s, step));
    }
  }

  lemma FilterOne<T>(x: T, p: T -> bool)
    ensures Filter([x], p) == if p(x) then [x] else []
  {
    assert [x][..0] == [];
  }

  /** An unheard cycle without new events changes nothing. */
  lemma EmptyCycleEnds(s: State, step: Step)
    requires Inv(s) && Ends(s, step) && step.DiagnoseEvents?
    ensures Next(s, Unheard(step)) == s
  {
    hide IsNew;
    NextAtEnd(s, Unheard(step));
    DrainOfNothing(s);
    assert s.settled + [] == s.settled;
  }

  lemma KeptIsOnce(s: State, step: Step)
    requires Inv(s) && Once(s)
    ensures Distinct(Kept(s, step))
  {
    hide ResourceKey, HasDiagnosis, Inv, Claimed, Settled;
    if step.Settle? {
      InvBounds(s);
      if step.i < |s.inflight| {
        AnswerClaims(s, step.ok);
        DistinctParts(s.successes, Claimed(s));
        assert s.successes + [] == s.successes && s.successes + [Claimed(s)[0]] + [] == s.successes + [Claimed(s)[0]];
      } else {
        NobodyToAnswer(s, step.i, step.ok);
      }
    }
  }

  lemma DistinctSum<T>(a: seq<T>, b: seq<T>)
    requires Distinct(a)
    ensures Distinct(a + b) <==> Distinct(b) && !exists k :: k in b && k in a
  {
    var c := a + b;
    assert forall i :: 0 <= i < |b| ==> c[|a| + i] == b[i];
    assert forall i :: 0 <= i < |a| ==> c[i] == a[i];
    if Distinct(c) {
      forall i, j | 0 <= i < j < |b| ensures b[i] != b[j] {
        assert c[|a| + i] != c[|a| + j];
      }
      forall k | k in b ensures k !in a {
        var j :| 0 <= j < |b| && b[j] == k;
        assert forall i :: 0 <= i < |a| ==> c[i] != c[|a| + j];
      }
    } else {
      var i, j :| 0 <= i < j < |c| && c[i] == c[j];
      if Distinct(b) {
        assert i < |a| <= j;
        assert c[j] == b[j - |a|] && c[j] in b && c[j] in a;
      }
    }
  }

  lemma SameClaims(s: State, t: State)
    requires t.inflight == s.inflight && t.queue == s.queue
    ensures Claimed(t) == Claimed(s)
  {
  }

  lemma NobodyToAnswer(s: State, i: nat, ok: bool)
    requires i >= |s.inflight|
    ensures Settled(s, i, ok, []) == s
  {
  }

  /** The state after n good answers. */
  ghost function AnsweredWell(s: State, n: nat): State
    decreases n
  {
    if n == 0 then s else AnsweredWell(Next(s, Settle(0, true, [])), n - 1)
  }

  /** As many good answers as there are claims turn exactly the claimed workloads into successes, in order. */
  lemma {:induction false} ClaimsBecomeSuccesses(s: State)
    requires Inv(s) && s.ready
    ensures AnsweredWell(s, |Claimed(s)|).successes == s.successes + Claimed(s)
    decreases |Claimed(s)|
  {
    hide ResourceKey, Claimed, Inv, Settled;
    if s.inflight == [] {
      IdleQueueIsEmpty(s);
      NothingClaimed(s);
    } else {
      var s' := Next(s, Settle(0, true, []));
      AnswerClaims(s, true);
      UnheardIsQuiet(s, Settle(0, true, []));
      InvIsKept(s, Settle(0, true, []));
      ClaimsBecomeSuccesses(s');
      assert s.successes + [Claimed(s)[0]] + Claimed(s)[1..] == s.successes + Claimed(s);
    }
  }

  lemma IdleQueueIsEmpty(s: State)
    requires Inv(s) && s.inflight == []
    ensures s.queue == []
  {
  }

  lemma UnheardIsQuiet(s: State, step: Step)
    requires Asks(step) == []
    ensures Quiet(s, step)
  {
  }

  /** The state once every claimed workload was answered well, with a diagnose function at hand. */
  ghost function Finished(s: State): State {
    AnsweredWell(Next(s, SetFn(true)), |Claimed(s)|)
  }

  lemma FinishedSuccesses(s: State)
    requires Inv(s)
    ensures Finished(s).successes == s.successes + Claimed(s)
    ensures Distinct(Finished(s).successes) <==> Once(s)
  {
    hide Inv, Claimed;
    var t := Next(s, SetFn(true));
    SameClaims(s, t);
    InvIsKeptWithoutListener(s, SetFn(true));
    ClaimsBecomeSuccesses(t);
  }

  /**
   * One success for each workload, step by step: when all calls are then answered well, no workload has been diagnosed
   * twice if and only if the step repeats none. It makes no difference what kind of step it is.
   */
  lemma StepRepeatsExactly(s: State, step: Step)
    requires Inv(s) && Once(s) && Quiet(s, step)
    ensures Distinct(Finished(Next(s, step)).successes) <==> !Repeats(s, step)
    ensures Once(Next(s, step)) <==> !Repeats(s, step)
  {
    hide Inv, Claimed, Quiet, Next, Finished, Kept, NewClaims, Distinct;
    InvIsKept(s, step);
    FinishedSuccesses(Next(s, step));
    StepClaims(s, step);
    KeptIsOnce(s, step);
    DistinctSum(Kept(s, step), NewClaims(s, step));
  }

  ghost predicate NoneRepeats(s: State, steps: seq<Step>) {
    steps != [] ==>
      && NoneRepeats(s, steps[..|steps| - 1])
      && !Repeats(Run(s, steps[..|steps| - 1]), steps[|steps| - 1])
  }

  /** At every moment, if all calls then in line are answered well no workload is diagnosed twice. */
  ghost predicate AlwaysOnce(s: State, steps: seq<Step>) {
    && (steps != [] ==> AlwaysOnce(s, steps[..|steps| - 1]))
    && Distinct(Finished(Run(s, steps)).successes)
  }

  /**
   * And over runs: at every moment of a run of cycles, requests, questions and cleared caches no workload is, or will
   * be by good answers, diagnosed with success twice, if and only if no step repeats one.
   */
  lemma {:induction false} OneSuccessExactly(s: State, steps: seq<Step>)
    requires Initial(s) && AllQuiet(s, steps)
    ensures AlwaysOnce(s, steps) <==> NoneRepeats(s, steps)
    ensures NoneRepeats(s, steps) ==> Once(Run(s, steps)) && Distinct(Run(s, steps).successes)
  {
    hide Next, Inv, Claimed, Repeats, Quiet, Finished;
    SingleFlight(s, steps);
    if steps == [] {
      NothingClaimed(s);
      FinishedSuccesses(s);
    } else {
      var front, last := steps[..|steps| - 1], steps[|steps| - 1];
      OneSuccessExactly(s, front);
      SingleFlight(s, front);
      if NoneRepeats(s, front) {
        StepRepeatsExactly(Run(s, front), last);
      }
    }
    if NoneRepeats(s, steps) {
      SuccessesAreDistinct(Run(s, steps));
    }
  }

  lemma SuccessesAreDistinct(s: State)
    requires Once(s)
    ensures Distinct(s.successes)
  {
    forall i, j | 0 <= i < j < |s.successes| ensures s.successes[i] != s.successes[j] {
      var all := s.successes + Claimed(s);
      assert all[i] == s.successes[i] && all[j] == s.successes[j];
    }
  }

  /**
   * A cycle with new events repeats a workload if and only if two of its new events are about the same one: the check
   * on workloads excludes those diagnosed before, as long as they are remembered.
   */
  lemma CycleRepeatsExactly(s: State, events: seq<EventDigest>, asks: seq<EventDigest>)
    requires Inv(s) && Once(s) && Remembered(s) && !s.running && s.ready
    requires Filter(events, IsNew(s.cache, s.keys)) != []
    ensures Distinct(Finished(Next(s, DiagnoseEvents(events, asks))).successes)
       <==> DistinctWorkloads(Filter(events, IsNew(s.cache, s.keys)))
  {
    hide ResourceKey, HasDiagnosis, Inv, Claimed, Finished;
    var todo, step := Filter(events, IsNew(s.cache, s.keys)), DiagnoseEvents(events, asks);
    StepRepeatsExactly(s, step);
    CycleClaims(s, events, asks);
    DistinctWorkloadsExactly(todo);
    FilterMembers(events, IsNew(s.cache, s.keys));
    forall k | k in NewClaims(s, step) ensures k !in Kept(s, step) {
      var i :| 0 <= i < |todo| && ResourceKey(todo[i]) == k;
      assert todo[i] in todo;
    }
  }

  /**
   * A single-event request that makes a call bypasses the check on workloads: when all calls are then answered well,
   * some workload has been diagnosed twice if and only if this one was diagnosed already or about to be.
   */
  lemma SingleRequestRepeatsExactly(s: State, e: EventDigest)
    requires Inv(s) && Once(s) && s.ready && !HasDiagnosis(s.cache, e.uid)
    ensures Distinct(Finished(Next(s, DiagnoseSingle(e))).successes) <==> ResourceKey(e) !in s.successes + Claimed(s)
  {
    hide ResourceKey, HasDiagnosis, Inv, Claimed, Finished;
    var step := DiagnoseSingle(e);
    UnheardIsQuiet(s, step);
    StepRepeatsExactly(s, step);
    FilterOne(e, NeedsCall(s.cache));
    assert NewClaims(s, step) == [ResourceKey(e)] && ResourceKey(e) in NewClaims(s, step);
  }

  // ------------------------------------------------------ normal operation

  /** The workloads diagnosed with success are remembered. */
  ghost predicate Remembered(s: State) {
    forall k :: k in s.successes ==> k in s.keys
  }

  /**
   * A step of normal operation: cycles are about distinct workloads, requests and questions that need a call are about
   * workloads neither diagnosed nor about to be, and the cache is not cleared.
   */
  ghost predicate Normal(s: State, step: Step) {
    && !step.Clear?
    && (step.DiagnoseEvents? ==> DistinctWorkloads(step.events))
    && (Ends(s, step) || step.DiagnoseSingle? ==> !Repeats(s, step))
  }

  ghost predicate AllNormal(s: State, steps: seq<Step>) {
    steps != [] ==> AllNormal(s, steps[..|steps| - 1]) && Normal(Run(s, steps[..|steps| - 1]), steps[|steps| - 1])
  }

  lemma NormalDoesNotRepeat(s: State, step: Step)
    requires Inv(s) && Once(s) && Remembered(s) && Quiet(s, step) && Normal(s, step)
    ensures !Repeats(s, step)
  {
    hide ResourceKey, HasDiagnosis, Inv, Claimed, IsNew, Quiet, Finished;
    if step.DiagnoseEvents? && !Ends(s, step) && s.ready && !s.running {
      FilteredIsDistinct(step.events, IsNew(s.cache, s.keys));
      CycleRepeatsExactly(s, step.events, step.asks);
      StepRepeatsExactly(s, step);
    }
  }

  /** Every success is remembered when it is recorded, and nothing but a cleared cache forgets one. */
  lemma StepRemembers(s: State, step: Step)
    requires Inv(s) && Quiet(s, step) && Remembered(s) && !step.Clear?
    ensures Remembered(Next(s, step))
  {
    hide ResourceKey, HasDiagnosis, IsNew, Unanswered;
    if Ends(s, step) {
      NextAtEnd(s, step);
      AskAllKeys(AtCycleEnd(s, step), Asks(step));
      DrainKeys(AskAll(AtCycleEnd(s, step), Asks(step)));
    }
  }

  lemma {:induction false} AskAllKeys(s: State, asks: seq<EventDigest>)
    requires !s.running
    ensures AskAll(s, asks).keys == s.keys && AskAll(s, asks).successes == s.successes
  {
    hide Unanswered;
    AskAllOutcome(s, asks);
  }

  lemma {:induction false} DrainKeys(s: State)
    ensures Drain(s).keys == s.keys && Drain(s).successes == s.successes
    decreases |s.queue|
  {
    if s.queue != [] {
      DrainUnfolds(s);
      if !s.ready {
        DrainKeys(Shifted(s).(running := false,
          cache := s.cache[s.queue[0].event.uid := Cached(s.queue[0].event, Errored)]));
      }
    }
  }

  /**
   * At most one success for each workload. Over any run of normal operation, with cycles on extracted events and with
   * requests about workloads neither diagnosed nor claimed, no step repeats a workload, and none is diagnosed with
   * success twice, under whatever event it shows up again.
   */
  lemma {:induction false} OneSuccessPerWorkload(s: State, steps: seq<Step>)
    requires Initial(s) && AllQuiet(s, steps) && AllNormal(s, steps)
    ensures NoneRepeats(s, steps) && Once(Run(s, steps)) && Remembered(Run(s, steps))
    ensures Distinct(Run(s, steps).successes)
  {
    hide Next, Inv, Claimed, Repeats, Quiet, Normal;
    if steps != [] {
      var front, last := steps[..|steps| - 1], steps[|steps| - 1];
      OneSuccessPerWorkload(s, front);
      SingleFlight(s, front);
      NormalDoesNotRepeat(Run(s, front), last);
      NormalDoesNotClear(Run(s, front), last);
      StepRemembers(Run(s, front), last);
    }
    OneSuccessExactly(s, steps);
  }

  lemma NormalDoesNotClear(s: State, step: Step)
    requires Normal(s, step)
    ensures !step.Clear?
  {
  }

  /** A cycle on events that were not deduplicated diagnoses one workload twice. */
  lemma DuplicatesAreDiagnosedTwice(s: State, e: EventDigest, f: EventDigest)
    requires Initial(s) && s.ready && s.cache == map[] && s.keys == {}
    requires ResourceKey(e) == ResourceKey(f)
    ensures Next(Next(Next(s, DiagnoseEvents([e, f], [])), Settle(0, true, [])), Settle(0, true, [])).successes
         == [ResourceKey(e), ResourceKey(e)]
  {
    hide ResourceKey, MarkedPending, HasDiagnosis, Drain;
    BothAreNew(s, e, f);
    var s1 := Next(s, DiagnoseEvents([e, f], []));
    assert [e, f][1..] == [f] && s1.inflight == [Cycle(e, [f])];
    var s2 := Next(s1, Settle(0, true, []));
    assert s1.inflight[..0] + s1.inflight[1..] == [];
    assert [f][1..] == [] && s2.inflight == [Cycle(f, [])];
    var last := Recorded(s2.(inflight := []), f, true).(running := false);
    assert s2.inflight[..0] + s2.inflight[1..] == [];
    DrainOfNothing(last);
  }

  /** A request on its own, answered well, records its success and no more. */
  lemma RequestAnsweredWell(s: State, e: EventDigest)
    requires !s.running && s.inflight == [] && s.queue == [] && s.ready && !HasDiagnosis(s.cache, e.uid)
    ensures Next(Next(s, DiagnoseSingle(e)), Settle(0, true, [])) ==
      s.(cache := s.cache[e.uid := Cached(e, Succeeded)], keys := s.keys + {ResourceKey(e)},
         successes := s.successes + [ResourceKey(e)])
  {
    hide ResourceKey, Drain, HasDiagnosis;
    var called := CalledFor(s, e);
    assert s.started + Ids(None) == s.started && s.inflight + [Single(e, None)] == [Single(e, None)];
    assert Next(s, DiagnoseSingle(e)) == called;
    var ended := Recorded(called.(inflight := []), e, true).(running := false);
    assert called.inflight[..0] + called.inflight[1..] == [];
    assert ended.cache == s.cache[e.uid := Cached(e, Succeeded)];
    DrainOfNothing(ended);
    assert ended.settled + [] == ended.settled;
  }

  /** And a request about a workload that was diagnosed under another event repeats it. */
  lemma SecondRequestRepeats(s: State, e: EventDigest, f: EventDigest)
    requires Initial(s) && s.ready && s.cache == map[] && e.uid != f.uid && ResourceKey(e) == ResourceKey(f)
    ensures var once := Next(Next(s, DiagnoseSingle(e)), Settle(0, true, []));
      Next(Next(once, DiagnoseSingle(f)), Settle(0, true, [])).successes == [ResourceKey(e), ResourceKey(e)]
  {
    hide ResourceKey, Next;
    RequestAnsweredWell(s, e);
    RequestAnsweredWell(Next(Next(s, DiagnoseSingle(e)), Settle(0, true, [])), f);
  }

  lemma BothAreNew(s: State, e: EventDigest, f: EventDigest)
    requires s.cache == map[] && s.keys == {}
    ensures Filter([e, f], IsNew(s.cache, s.keys)) == [e, f]
  {
    FilterAll([e, f], IsNew(s.cache, s.keys));
  }

  // --------------------------------------------- what is diagnosed again

  /**
   * A question by the state of its event: one waiting for its turn or diagnosed is answered as it is; any other, unknown,
   * under way or failed, needs a call, which waits if the manager is running.
   */
  lemma QuestionExactly(s: State, e: EventDigest)
    requires s.ready
    ensures e.uid in s.cache && (s.cache[e.uid].status == Pending || s.cache[e.uid].status == Succeeded) ==> Ask(s, e) == s
    ensures e.uid !in s.cache || s.cache[e.uid].status == Loading || s.cache[e.uid].status == Errored ==>
      if s.running then Ask(s, e) == s.(queue := s.queue + [Request(e, s.arrived)], arrived := s.arrived + 1)
      else Ask(s, e).inflight == s.inflight + [Single(e, None)] && Ask(s, e).running && Ask(s, e).queue == s.queue
  {
  }

  /** The state after the first event of a new cycle was answered. */
  ghost function AfterFirst(s: State, e: EventDigest, ok: bool): State {
    Next(Next(s, DiagnoseEvents([e], [])), Settle(0, ok, []))
  }

  lemma FirstIsAnswered(s: State, e: EventDigest, ok: bool)
    requires Initial(s) && s.ready && s.cache == map[] && s.keys == {}
    ensures AfterFirst(s, e, ok) == s.(
      cache := map[e.uid := Cached(e, if ok then Succeeded else Errored)],
      keys := if ok then {ResourceKey(e)} else {}, successes := if ok then [ResourceKey(e)] else [])
  {
    hide ResourceKey, MarkedPending, HasDiagnosis, Drain;
    OneIsNew(s, e);
    var s1 := Next(s, DiagnoseEvents([e], []));
    assert [e][1..] == [] && s1.inflight == [Cycle(e, [])];
    MarkOne(s.cache, e);
    assert s1.inflight[..0] + s1.inflight[1..] == [];
    var last := Recorded(s1.(inflight := []), e, ok).(running := false);
    DrainOfNothing(last);
    assert last.settled + [] == last.settled;
    assert last.cache == map[e.uid := Cached(e, if ok then Succeeded else Errored)];
  }

  lemma MarkOne(cache: map<string, Cached>, e: EventDigest)
    ensures MarkedPending(cache, [e]) == cache[e.uid := Cached(e, Pending)]
  {
    assert [e][..0] == [];
  }

  lemma OneIsNew(s: State, e: EventDigest)
    requires s.cache == map[] && s.keys == {}
    ensures Filter([e], IsNew(s.cache, s.keys)) == [e]
  {
    FilterOne(e, IsNew(s.cache, s.keys));
  }

  /**
   * A workload whose diagnosis failed is diagnosed again in the next cycle, under the same event or another one; and a
   * workload that was diagnosed with success is not.
   */
  lemma DiagnosedAgainExactlyIfFailed(s: State, e: EventDigest, f: EventDigest, ok: bool)
    requires Initial(s) && s.ready && s.cache == map[] && s.keys == {} && ResourceKey(e) == ResourceKey(f)
    ensures Next(AfterFirst(s, e, ok), DiagnoseEvents([f], [])).inflight == if ok then [] else [Cycle(f, [])]
    ensures ok ==> Next(AfterFirst(s, e, ok), DiagnoseEvents([f], [])) == AfterFirst(s, e, ok)
  {
    hide ResourceKey, MarkedPending, Drain;
    FirstIsAnswered(s, e, ok);
    var t := AfterFirst(s, e, ok);
    FilterOne(f, IsNew(t.cache, t.keys));
    if ok {
      DrainOfNothing(t);
    } else {
      assert IsNew(t.cache, t.keys)(f);
      assert [f][1..] == [];
    }
  }

  /** A cycle leaves alone a workload that waits for its turn, is under way or was diagnosed under another event. */
  lemma WorkloadInHandIsLeftAlone(s: State, uid: string, f: EventDigest)
    requires !s.running && s.ready && s.queue == []
    requires uid in s.cache && ResourceKey(s.cache[uid].event) == ResourceKey(f)
    requires s.cache[uid].status == Pending || s.cache[uid].status == Loading || s.cache[uid].status == Succeeded
    ensures Next(s, DiagnoseEvents([f], [])) == s
  {
    hide ResourceKey, MarkedPending, Drain;
    FilterOne(f, IsNew(s.cache, s.keys));
    DrainOfNothing(s);
  }

  /** A request about an event whose diagnosis failed makes another call; after a success the answer is there. */
  lemma AskedAgainExactlyIfFailed(s: State, e: EventDigest, ok: bool)
    requires Initial(s) && s.ready && s.cache == map[] && s.keys == {}
    ensures Next(AfterFirst(s, e, ok), DiagnoseSingle(e)).inflight == if ok then [] else [Single(e, None)]
  {
    hide ResourceKey, Drain;
    FirstIsAnswered(s, e, ok);
  }

  /** When the cache is cleared, what was diagnosed is forgotten: a cycle calls for the event again. */
  lemma ClearedIsDiagnosedAgain(s: State, e: EventDigest)
    requires Inv(s) && !s.running && s.ready
    ensures Next(Next(s, Clear), DiagnoseEvents([e], [])).inflight == [Cycle(e, [])]
  {
    hide ResourceKey, MarkedPending, HasDiagnosis, Drain, InOrder, SettledOnce;
    OneIsNew(Next(s, Clear), e);
    assert [e][1..] == [];
  }
}
