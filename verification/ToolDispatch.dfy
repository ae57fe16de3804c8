// Tool dispatch of the assistant: which tool calls of a reply run, and what each leaves in the conversation history.
module ToolDispatch {
  import opened Common

  // ------------------------------------------------------------------ data

  /** A tool call of a reply. Its arguments are written out and read back on the way, which always succeeds. */
  datatype Call = Call(id: string, name: string)

  datatype Kind = Denied | Rejected | Own | Answer | Pending | Failure

  datatype Message =
    | Text(role: string)
    | Assistant(calls: seq<Call>)
    | Explanation(disabled: seq<string>)
    | ToolEntry(id: string, name: string, kind: Kind, followUp: bool)
    | Alert(failed: seq<string>)

  /**
   * What running a tool comes to: the entries it wrote for its call itself, whether it threw, whether its response is
   * to be added to the history or needs the user's confirmation, whether it reports an error, and whether its content
   * allows a follow-up.
   */
  datatype Outcome = Outcome(own: nat, threw: bool, add: bool, confirm: bool, error: bool, followUp: bool)

  datatype Verdict = NoTools | AllDisabled | NoCalls | FollowUp | Stop

  predicate IsBuiltIn(name: string) {
    name == "kubernetes_api_request"
  }

  function Enabled(tools: seq<string>): Call -> bool {
    (c: Call) => c.name in tools
  }

  function Disabled(tools: seq<string>): Call -> bool {
    (c: Call) => c.name !in tools
  }

  function BuiltIn(): Call -> bool {
    (c: Call) => IsBuiltIn(c.name)
  }

  function NeedsApproval(): Call -> bool {
    (c: Call) => !IsBuiltIn(c.name)
  }

  function InIds(ids: seq<string>): Call -> bool {
    (c: Call) => c.id in ids
  }

  function NotInIds(ids: seq<string>): Call -> bool {
    (c: Call) => c.id !in ids
  }

  function Ids(calls: seq<Call>): seq<string> {
    seq(|calls|, i requires 0 <= i < |calls| => calls[i].id)
  }

  function Names(calls: seq<Call>): seq<string> {
    seq(|calls|, i requires 0 <= i < |calls| => calls[i].name)
  }

  /** The same kind of entry for every call of a list. */
  function Marked(calls: seq<Call>, kind: Kind): seq<Message> {
    seq(|calls|, i requires 0 <= i < |calls| => ToolEntry(calls[i].id, calls[i].name, kind, true))
  }

  // ------------------------------------------------------------- one batch

  function OwnEntries(c: Call, o: Outcome): seq<Message> {
    seq(o.own, i requires 0 <= i < o.own => ToolEntry(c.id, c.name, Own, o.followUp))
  }

  /** The entries one executed call leaves. */
  function EntriesOf(c: Call, o: Outcome): seq<Message> {
    OwnEntries(c, o)
    + if o.threw then [ToolEntry(c.id, c.name, Failure, true)]
      else if o.add then [ToolEntry(c.id, c.name, Answer, o.followUp)]
      else if o.confirm then [ToolEntry(c.id, c.name, Pending, false)]
      else []
  }

  /** The messages so far, the calls that ran, and the tools that failed. */
  datatype Progress = Progress(history: seq<Message>, ran: seq<string>, failed: seq<string>)

  function ProcessEach(history: seq<Message>, calls: seq<Call>, outcomes: seq<Outcome>): Progress
    requires |calls| <= |outcomes|
  {
    if calls == [] then Progress(history, [], [])
    else
      var n := |calls| - 1;
      var p := ProcessEach(history, calls[..n], outcomes);
      Progress(p.history + EntriesOf(calls[n], outcomes[n]), p.ran + [calls[n].id],
               p.failed + if outcomes[n].threw || outcomes[n].error then [calls[n].name] else [])
  }

  function ProcessCalls(history: seq<Message>, calls: seq<Call>, outcomes: seq<Outcome>): Progress
    requires |calls| <= |outcomes|
  {
    var p := ProcessEach(history, calls, outcomes);
    if p.failed != [] then p.(history := p.history + [Alert(p.failed)]) else p
  }

  // ------------------------------------------------------------- one reply

  /** The identifiers that may run: those of built-in tools, and those the user approved. */
  function Permitted(calls: seq<Call>, approval: Option<seq<string>>): seq<string> {
    Ids(Filter(calls, BuiltIn())) + if Filter(calls, NeedsApproval()) != [] && approval.Some? then approval.value else []
  }

  function Approved(calls: seq<Call>, approval: Option<seq<string>>): seq<Call> {
    Filter(calls, InIds(Permitted(calls, approval)))
  }

  function NotApproved(calls: seq<Call>, approval: Option<seq<string>>): seq<Call> {
    Filter(calls, NotInIds(Permitted(calls, approval)))
  }

  /** The user was asked and refused, or the request was superseded. */
  predicate IsRejected(calls: seq<Call>, approval: Option<seq<string>>) {
    Filter(calls, NeedsApproval()) != [] && approval.None?
  }

  datatype Dispatched = Dispatched(history: seq<Message>, ran: seq<string>)

  /** The entries of a batch of enabled calls, after the assistant message. */
  function Dispatch(history: seq<Message>, calls: seq<Call>, approval: Option<seq<string>>, outcomes: seq<Outcome>): Dispatched
    requires |Approved(calls, approval)| <= |outcomes|
  {
    if IsRejected(calls, approval) then Dispatched(history + Marked(calls, Rejected), [])
    else
      var p := ProcessCalls(history + Marked(NotApproved(calls, approval), Denied), Approved(calls, approval), outcomes);
      Dispatched(p.history, p.ran)
  }

  /** The tool entries that belong to a batch, wherever in the history they are. */
  function Belongs(calls: seq<Call>): Message -> bool {
    (m: Message) => m.ToolEntry? && exists i :: 0 <= i < |calls| && calls[i].id == m.id
  }

  predicate AllowsFollowUp(history: seq<Message>, calls: seq<Call>) {
    var responses := Filter(history, Belongs(calls));
    responses != [] && forall i :: 0 <= i < |responses| ==> responses[i].ToolEntry? && responses[i].followUp
  }

  datatype Handled = Handled(history: seq<Message>, ran: seq<string>, verdict: Verdict)

  function EnabledCalls(all: seq<Call>, tools: seq<string>): seq<Call> {
    Filter(all, Enabled(tools))
  }

  function Handle(history: seq<Message>, all: seq<Call>, tools: seq<string>, approval: Option<seq<string>>,
                  outcomes: seq<Outcome>): Handled
    requires |Approved(EnabledCalls(all, tools), approval)| <= |outcomes|
  {
    var calls := EnabledCalls(all, tools);
    if tools == [] then Handled(history + [Text("assistant")], [], NoTools)
    else if calls == [] && all != [] then
      Handled(history + [Explanation(Names(Filter(all, Disabled(tools))))], [], AllDisabled)
    else if calls == [] then Handled(history + [Assistant([])], [], NoCalls)
    else
      var d := Dispatch(history + [Assistant(calls)], calls, approval, outcomes);
      Handled(d.history, d.ran, if AllowsFollowUp(d.history, calls) then FollowUp else Stop)
  }

  // ------------------------------------------------------------ the manager

  /** Tools and users answer as they like; what they were asked and what they answered is on record. */
  class Outside {
    ghost var executed: seq<(Call, Outcome)>
    ghost var asked: seq<(seq<Call>, Option<seq<string>>)>

    constructor ()
      ensures executed == [] && asked == []
    {
      executed, asked := [], [];
    }

    method ExecuteTool(c: Call) returns (o: Outcome)
      modifies this`executed
      ensures executed == old(executed) + [(c, o)]
    {
      o := *;
      executed := executed + [(c, o)];
    }

    method RequestApproval(calls: seq<Call>) returns (approval: Option<seq<string>>)
      modifies this`asked
      ensures asked == old(asked) + [(calls, approval)]
    {
      approval := *;
      asked := asked + [(calls, approval)];
    }
  }

  /** The record of a batch: each call with its outcome, in order. */
  ghost function Record(calls: seq<Call>, outcomes: seq<Outcome>): seq<(Call, Outcome)>
    requires |calls| <= |outcomes|
  {
    seq(|calls|, i requires 0 <= i < |calls| => (calls[i], outcomes[i]))
  }

  const NOTHING := Outcome(0, false, false, false, false, false)

  class LangChainManager {
    var history: seq<Message>
    const outside: Outside

    constructor (outside: Outside)
      ensures history == [] && this.outside == outside
    {
      this.outside, history := outside, [];
    }

    /** Run one call and write what it leaves. */
    method ProcessToolCall(call: Call) returns (o: Outcome)
      modifies this, outside`executed
      ensures outside.executed == old(outside.executed) + [(call, o)]
      ensures history == old(history) + EntriesOf(call, o)
    {
      o := outside.ExecuteTool(call);
      history := history + OwnEntries(call, o);
      if o.threw {
        history := history + [ToolEntry(call.id, call.name, Failure, true)];
      } else if o.add {
        history := history + [ToolEntry(call.id, call.name, Answer, o.followUp)];
      } else if o.confirm {
        history := history + [ToolEntry(call.id, call.name, Pending, false)];
      }
    }

    /** Run the calls one by one, and report the failures at the end. */
    method ProcessToolCalls(calls: seq<Call>) returns (ghost outcomes: seq<Outcome>)
      modifies this, outside`executed
      ensures |outcomes| == |calls| && outside.executed == old(outside.executed) + Record(calls, outcomes)
      ensures history == ProcessCalls(old(history), calls, outcomes).history
    {
      hide EntriesOf;
      outcomes := [];
      var failed: seq<string> := [];
      for i := 0 to |calls|
        invariant |outcomes| == i && outside.executed == old(outside.executed) + Record(calls[..i], outcomes)
        invariant var p := ProcessEach(old(history), calls[..i], outcomes); history == p.history && failed == p.failed
      {
        assert calls[..i + 1][..i] == calls[..i];
        var o := ProcessToolCall(calls[i]);
        LaterOutcomesDoNotMatter(old(history), calls[..i], outcomes, outcomes + [o]);
        assert Record(calls[..i + 1], outcomes + [o]) == Record(calls[..i], outcomes) + [(calls[i], o)];
        outcomes := outcomes + [o];
        if o.threw || o.error {
          failed := failed + [calls[i].name];
        }
      }
      assert calls[..|calls|] == calls;
      if |failed| > 0 {
        history := history + [Alert(failed)];
      }
    }

    /**
     * Handle the calls of a reply. The user is asked once, about the calls that need it, if there are any; and what runs
     * is on record with its outcomes.
     */
    method HandleToolCalls(all: seq<Call>, tools: seq<string>)
      returns (verdict: Verdict, ghost approval: Option<seq<string>>, ghost outcomes: seq<Outcome>)
      modifies this, outside
      ensures |Approved(EnabledCalls(all, tools), approval)| <= |outcomes|
      ensures var h := Handle(old(history), all, tools, approval, outcomes);
        && history == h.history && verdict == h.verdict
        && |h.ran| <= |outcomes| && h.ran == Ids(RunOf(all, tools, approval))
      ensures |RunOf(all, tools, approval)| <= |outcomes|
      ensures outside.executed == old(outside.executed) + Record(RunOf(all, tools, approval), outcomes)
      ensures var unsure := if tools == [] then [] else Filter(EnabledCalls(all, tools), NeedsApproval());
        if unsure == [] then approval.None? && outside.asked == old(outside.asked)
        else outside.asked == old(outside.asked) + [(unsure, approval)]
    {
      hide ProcessCalls, AllowsFollowUp, Filter;
      var calls := Filter(all, Enabled(tools));
      approval := None;
      outcomes := seq(|all|, _ => NOTHING);
      FilterMembers(all, Enabled(tools));
      FilterMembers(calls, InIds(Permitted(calls, None)));
      if |tools| == 0 {
        history := history + [Text("assistant")];
        assert Ids([]) == [] && Record([], outcomes) == [];
        return NoTools, approval, outcomes;
      }
      var filteredOut := Filter(all, Disabled(tools));
      history := history + [Assistant(calls)];
      if |calls| == 0 {
        NothingEnabled(all, tools);
        assert Ids([]) == [] && Record([], outcomes) == [];
        FilterOfNothing();
        if |filteredOut| > 0 {
          history := history[..|history| - 1] + [Explanation(Names(filteredOut))];
          return AllDisabled, approval, outcomes;
        }
        return NoCalls, approval, outcomes;
      }
      var needApproval := Filter(calls, NeedsApproval());
      var permitted := Ids(Filter(calls, BuiltIn()));
      var denied := false;
      if |needApproval| > 0 {
        var answer := outside.RequestApproval(needApproval);
        approval := answer;
        if answer.Some? {
          permitted := permitted + answer.value;
        } else {
          denied := true;
        }
      }
      assert !denied ==> permitted == Permitted(calls, approval);
      FilterMembers(calls, InIds(Permitted(calls, approval)));
      if !denied {
        var approved := Filter(calls, InIds(permitted));
        history := history + Marked(Filter(calls, NotInIds(permitted)), Denied);
        ghost var before := history;
        outcomes := ProcessToolCalls(approved);
        BatchRuns(before, approved, outcomes, "");
      } else {
        history := history + Marked(calls, Rejected);
        assert Ids([]) == [] && Record([], outcomes) == [];
      }
      verdict := if AllowsFollowUp(history, calls) then FollowUp else Stop;
    }
  }

  /** The calls of a reply that run. */
  function RunOf(all: seq<Call>, tools: seq<string>, approval: Option<seq<string>>): seq<Call> {
    var calls := EnabledCalls(all, tools);
    if tools == [] || calls == [] || IsRejected(calls, approval) then [] else Approved(calls, approval)
  }

  lemma FilterOfNothing()
    ensures Filter([], NeedsApproval()) == []
  {
  }

  lemma NothingEnabled(all: seq<Call>, tools: seq<string>)
    requires EnabledCalls(all, tools) == []
    ensures Filter(all, Disabled(tools)) == all
  {
    FilterMembers(all, Enabled(tools));
    FilterAll(all, Disabled(tools));
  }

  lemma {:induction false} LaterOutcomesDoNotMatter(history: seq<Message>, calls: seq<Call>, a: seq<Outcome>, b: seq<Outcome>)
    requires |calls| <= |a| && |calls| <= |b| && forall i :: 0 <= i < |calls| ==> a[i] == b[i]
    ensures ProcessEach(history, calls, a) == ProcessEach(history, calls, b)
  {
    if calls != [] {
      LaterOutcomesDoNotMatter(history, calls[..|calls| - 1], a, b);
    }
  }

  // ------------------------------------------------- what each call leaves

  function EntryFor(id: string): Message -> bool {
    (m: Message) => m.ToolEntry? && m.id == id
  }

  /** How many tool entries of the history answer the call id. */
  function Count(history: seq<Message>, id: string): nat {
    |Filter(history, EntryFor(id))|
  }

  lemma CountSum(a: seq<Message>, b: seq<Message>, id: string)
    ensures Count(a + b, id) == Count(a, id) + Count(b, id)
  {
    FilterSum(a, b, EntryFor(id));
  }

  lemma CountAll(s: seq<Message>, id: string)
    ensures (forall i :: 0 <= i < |s| ==> s[i].ToolEntry? && s[i].id == id) ==> Count(s, id) == |s|
    ensures (forall i :: 0 <= i < |s| ==> !(s[i].ToolEntry? && s[i].id == id)) ==> Count(s, id) == 0
  {
    FilterAll(s, EntryFor(id));
    assert forall m :: m in s ==> exists i :: 0 <= i < |s| && s[i] == m;
  }

  predicate DistinctIds(calls: seq<Call>) {
    forall i, j :: 0 <= i < j < |calls| ==> calls[i].id != calls[j].id
  }

  predicate Named(calls: seq<Call>, id: string) {
    exists i :: 0 <= i < |calls| && calls[i].id == id
  }

  lemma FilteredIds(calls: seq<Call>, p: Call -> bool)
    requires DistinctIds(calls)
    ensures DistinctIds(Filter(calls, p))
    ensures forall id :: Named(Filter(calls, p), id) ==> Named(calls, id)
  {
    var f := Filter(calls, p);
    FilterMembers(calls, p);
    forall i, j | 0 <= i < j < |f| ensures f[i].id != f[j].id {
      FilterPositions(calls, p, i, j);
    }
    forall id | Named(f, id) ensures Named(calls, id) {
      var i :| 0 <= i < |f| && f[i].id == id;
      assert f[i] in f;
      var k :| 0 <= k < |calls| && calls[k] == f[i];
    }
  }

  lemma {:induction false} MarkedCount(calls: seq<Call>, kind: Kind, id: string)
    requires DistinctIds(calls)
    ensures Count(Marked(calls, kind), id) == if Named(calls, id) then 1 else 0
  {
    if calls != [] {
      var front, last := calls[..|calls| - 1], calls[|calls| - 1];
      MarkedCount(front, kind, id);
      var entry := ToolEntry(last.id, last.name, kind, true);
      assert Marked(calls, kind) == Marked(front, kind) + [entry];
      CountSum(Marked(front, kind), [entry], id);
      CountAll([entry], id);
      assert Named(front, id) ==> Named(calls, id);
    }
  }

  lemma EntriesCount(c: Call, o: Outcome, id: string)
    ensures Count(EntriesOf(c, o), id) == if c.id == id then |EntriesOf(c, o)| else 0
  {
    CountAll(EntriesOf(c, o), id);
  }

  /** Entries for call id among those the calls of a batch leave. */
  function Left(calls: seq<Call>, outcomes: seq<Outcome>, id: string): nat
    requires |calls| <= |outcomes|
  {
    if calls == [] then 0
    else
      var n := |calls| - 1;
      Left(calls[..n], outcomes, id) + if calls[n].id == id then |EntriesOf(calls[n], outcomes[n])| else 0
  }

  lemma {:induction false} LeftAt(calls: seq<Call>, outcomes: seq<Outcome>, i: nat)
    requires DistinctIds(calls) && i < |calls| <= |outcomes|
    ensures Left(calls, outcomes, calls[i].id) == |EntriesOf(calls[i], outcomes[i])|
  {
    hide EntriesOf;
    var n := |calls| - 1;
    if i < n {
      LeftAt(calls[..n], outcomes, i);
    } else {
      LeftElsewhere(calls[..n], outcomes, calls[n].id);
    }
  }

  lemma {:induction false} LeftElsewhere(calls: seq<Call>, outcomes: seq<Outcome>, id: string)
    requires |calls| <= |outcomes| && !Named(calls, id)
    ensures Left(calls, outcomes, id) == 0
  {
    if calls != [] {
      assert calls[|calls| - 1].id != id;
      assert forall i :: 0 <= i < |calls[..|calls| - 1]| ==> calls[..|calls| - 1][i].id == calls[i].id;
      LeftElsewhere(calls[..|calls| - 1], outcomes, id);
    }
  }

  /** A batch runs its calls once each, in order, and leaves their entries behind what was there. */
  lemma {:induction false} EachCallRuns(history: seq<Message>, calls: seq<Call>, outcomes: seq<Outcome>, id: string)
    requires |calls| <= |outcomes|
    ensures var p := ProcessEach(history, calls, outcomes);
      && p.ran == Ids(calls)
      && Count(p.history, id) == Count(history, id) + Left(calls, outcomes, id)
      && history <= p.history
  {
    hide EntriesOf, Count;
    if calls == [] {
      assert Ids([]) == [];
    } else {
      var n := |calls| - 1;
      EachCallRuns(history, calls[..n], outcomes, id);
      assert Ids(calls) == Ids(calls[..n]) + [calls[n].id];
      CountSum(ProcessEach(history, calls[..n], outcomes).history, EntriesOf(calls[n], outcomes[n]), id);
      EntriesCount(calls[n], outcomes[n], id);
    }
  }

  lemma BatchRuns(history: seq<Message>, calls: seq<Call>, outcomes: seq<Outcome>, id: string)
    requires |calls| <= |outcomes|
    ensures var p := ProcessCalls(history, calls, outcomes);
      && p.ran == Ids(calls)
      && Count(p.history, id) == Count(history, id) + Left(calls, outcomes, id)
      && history <= p.history
  {
    hide Count;
    var p := ProcessEach(history, calls, outcomes);
    EachCallRuns(history, calls, outcomes, id);
    CountSum(p.history, [Alert(p.failed)], id);
    CountAll([Alert(p.failed)], id);
  }

  /** The two halves of a batch: permitted or not, never both. */
  lemma PermittedOrNot(calls: seq<Call>, approval: Option<seq<string>>, c: Call)
    requires c in calls && DistinctIds(calls)
    ensures Named(calls, c.id)
    ensures Named(Approved(calls, approval), c.id) <==> c.id in Permitted(calls, approval)
    ensures Named(NotApproved(calls, approval), c.id) <==> c.id !in Permitted(calls, approval)
  {
    hide Permitted;
    var ids := Permitted(calls, approval);
    var yes, no := Approved(calls, approval), NotApproved(calls, approval);
    FilterMembers(calls, InIds(ids));
    FilterMembers(calls, NotInIds(ids));
    var k :| 0 <= k < |calls| && calls[k] == c;
    if c.id in ids {
      var i :| 0 <= i < |yes| && yes[i] == c;
    } else {
      var i :| 0 <= i < |no| && no[i] == c;
    }
    if Named(yes, c.id) {
      var i :| 0 <= i < |yes| && yes[i].id == c.id;
      assert yes[i] in yes;
    }
    if Named(no, c.id) {
      var i :| 0 <= i < |no| && no[i].id == c.id;
      assert no[i] in no;
    }
  }

  /** The exact number of entries an enabled call gets. */
  lemma EntriesOfACall(history: seq<Message>, calls: seq<Call>, approval: Option<seq<string>>, outcomes: seq<Outcome>, c: Call)
    requires |Approved(calls, approval)| <= |outcomes| && DistinctIds(calls) && c in calls
    ensures var d := Dispatch(history, calls, approval, outcomes);
      && history <= d.history
      && Count(d.history, c.id) == Count(history, c.id) +
           if IsRejected(calls, approval) || c.id !in Permitted(calls, approval) then 1
           else Left(Approved(calls, approval), outcomes, c.id)
  {
    hide Count, Permitted, ProcessCalls, Left, Filter, Marked, IsRejected, DistinctIds, Named;
    var rejected, denied := Marked(calls, Rejected), Marked(NotApproved(calls, approval), Denied);
    PermittedOrNot(calls, approval, c);
    FilteredIds(calls, NotInIds(Permitted(calls, approval)));
    MarkedCount(calls, Rejected, c.id);
    MarkedCount(NotApproved(calls, approval), Denied, c.id);
    CountSum(history, rejected, c.id);
    CountSum(history, denied, c.id);
    if !IsRejected(calls, approval) {
      BatchRuns(history + denied, Approved(calls, approval), outcomes, c.id);
      if c.id !in Permitted(calls, approval) {
        LeftElsewhere(Approved(calls, approval), outcomes, c.id);
      }
    }
  }

  // ------------------------------------------------------------ main results

  /** Every executed call leaves one entry. */
  predicate LeavesOneEach(approved: seq<Call>, outcomes: seq<Outcome>)
    requires |approved| <= |outcomes|
  {
    forall i :: 0 <= i < |approved| ==> |EntriesOf(approved[i], outcomes[i])| == 1
  }

  /** The calls that run are enabled calls, each with its place among them and its own count of entries. */
  lemma ApprovedCall(calls: seq<Call>, approval: Option<seq<string>>, outcomes: seq<Outcome>, i: nat)
    requires DistinctIds(calls) && i < |Approved(calls, approval)| <= |outcomes|
    ensures var c := Approved(calls, approval)[i];
      && c in calls && c.id in Permitted(calls, approval)
      && Left(Approved(calls, approval), outcomes, c.id) == |EntriesOf(c, outcomes[i])|
  {
    hide EntriesOf, Permitted;
    var approved := Approved(calls, approval);
    FilterMembers(calls, InIds(Permitted(calls, approval)));
    FilteredIds(calls, InIds(Permitted(calls, approval)));
    assert approved[i] in approved;
    LeftAt(approved, outcomes, i);
  }

  /**
   * Tool-call alignment. Before any follow-up every enabled call of a reply has exactly one tool entry in the history
   * if and only if approval was refused, or every executed call leaves exactly one entry.
   */
  lemma ToolCallAlignment(history: seq<Message>, calls: seq<Call>, approval: Option<seq<string>>, outcomes: seq<Outcome>)
    requires |Approved(calls, approval)| <= |outcomes| && DistinctIds(calls)
    requires forall c :: c in calls ==> Count(history, c.id) == 0
    ensures (forall c :: c in calls ==> Count(Dispatch(history, calls, approval, outcomes).history, c.id) == 1)
       <==> IsRejected(calls, approval) || LeavesOneEach(Approved(calls, approval), outcomes)
  {
    hide Count, Dispatch, EntriesOf, Permitted, Left, IsRejected, Filter, DistinctIds;
    var d, approved := Dispatch(history, calls, approval, outcomes), Approved(calls, approval);
    forall c | c in calls
      ensures Count(d.history, c.id)
           == if IsRejected(calls, approval) || c.id !in Permitted(calls, approval) then 1
              else Left(approved, outcomes, c.id)
    {
      EntriesOfACall(history, calls, approval, outcomes, c);
    }
    forall i | 0 <= i < |approved|
      ensures approved[i] in calls && approved[i].id in Permitted(calls, approval)
      ensures Left(approved, outcomes, approved[i].id) == |EntriesOf(approved[i], outcomes[i])|
    {
      ApprovedCall(calls, approval, outcomes, i);
    }
    FilterMembers(calls, InIds(Permitted(calls, approval)));
    forall c | c in calls && c.id in Permitted(calls, approval)
      ensures exists i :: 0 <= i < |approved| && approved[i] == c
    {
      assert c in approved;
    }
    if !IsRejected(calls, approval) && forall c :: c in calls ==> Count(d.history, c.id) == 1 {
      forall i | 0 <= i < |approved| ensures |EntriesOf(approved[i], outcomes[i])| == 1 {
        assert Count(d.history, approved[i].id) == 1;
      }
    }
  }

  /** A call runs only if its tool is built in or the user approved it; each call runs at most once. */
  lemma OnlyPermittedCallsRun(history: seq<Message>, calls: seq<Call>, approval: Option<seq<string>>, outcomes: seq<Outcome>)
    requires |Approved(calls, approval)| <= |outcomes| && DistinctIds(calls)
    ensures var d := Dispatch(history, calls, approval, outcomes);
      && Distinct(d.ran)
      && forall id :: id in d.ran ==>
           exists c :: c in calls && c.id == id && (IsBuiltIn(c.name) || (approval.Some? && id in approval.value))
  {
    hide ProcessCalls;
    var approved, ran := Approved(calls, approval), Dispatch(history, calls, approval, outcomes).ran;
    if !IsRejected(calls, approval) {
      BatchRuns(history + Marked(NotApproved(calls, approval), Denied), approved, outcomes, "");
      FilteredIds(calls, InIds(Permitted(calls, approval)));
      forall id | id in ran
        ensures exists c :: c in calls && c.id == id && (IsBuiltIn(c.name) || (approval.Some? && id in approval.value))
      {
        var i :| 0 <= i < |ran| && ran[i] == id;
        PermittedCall(calls, approval, i);
      }
    }
  }

  lemma PermittedCall(calls: seq<Call>, approval: Option<seq<string>>, i: nat)
    requires DistinctIds(calls) && i < |Approved(calls, approval)|
    ensures var c := Approved(calls, approval)[i];
      c in calls && (IsBuiltIn(c.name) || (approval.Some? && c.id in approval.value))
  {
    var approved := Approved(calls, approval);
    var c := approved[i];
    FilterMembers(calls, InIds(Permitted(calls, approval)));
    FilterMembers(calls, BuiltIn());
    assert c in approved;
    var builtIn := Filter(calls, BuiltIn());
    if c.id in Ids(builtIn) {
      var k :| 0 <= k < |builtIn| && builtIn[k].id == c.id;
      assert builtIn[k] in builtIn;
      var a :| 0 <= a < |calls| && calls[a] == builtIn[k];
      var b :| 0 <= b < |calls| && calls[b] == c;
      assert a == b;
    }
  }

  /** Conversely, unless approval was refused, every call with a permitted identifier runs. */
  lemma PermittedCallsRun(history: seq<Message>, calls: seq<Call>, approval: Option<seq<string>>, outcomes: seq<Outcome>, c: Call)
    requires |Approved(calls, approval)| <= |outcomes| && c in calls && c.id in Permitted(calls, approval)
    requires !IsRejected(calls, approval)
    ensures c.id in Dispatch(history, calls, approval, outcomes).ran
  {
    hide ProcessCalls, Permitted;
    var approved := Approved(calls, approval);
    FilterMembers(calls, InIds(Permitted(calls, approval)));
    BatchRuns(history + Marked(NotApproved(calls, approval), Denied), approved, outcomes, "");
    var i :| 0 <= i < |approved| && approved[i] == c;
    assert Ids(approved)[i] == c.id;
  }

  /**
   * When approval is refused, nothing runs, built-in calls included, every enabled call of the reply gets exactly one
   * entry, and the conversation goes on with a follow-up.
   */
  lemma RefusalRunsNothing(history: seq<Message>, all: seq<Call>, tools: seq<string>, outcomes: seq<Outcome>)
    requires var calls := EnabledCalls(all, tools);
      && |Approved(calls, None)| <= |outcomes| && DistinctIds(calls) && Filter(calls, NeedsApproval()) != []
      && forall c :: c in calls ==> Count(history, c.id) == 0
    ensures var calls, h := EnabledCalls(all, tools), Handle(history, all, tools, None, outcomes);
      && h.ran == [] && h.verdict == FollowUp
      && forall c :: c in calls ==> Count(h.history, c.id) == 1
  {
    hide Count, AllowsFollowUp;
    var calls, h := EnabledCalls(all, tools), Handle(history, all, tools, None, outcomes);
    FilterMembers(calls, NeedsApproval());
    FilterMembers(all, Enabled(tools));
    var before := history + [Assistant(calls)];
    assert calls[0] in calls && calls[0].name in tools;
    RepliesAreAligned(history, all, tools, None, outcomes);
    NoEntriesYet(history, calls);
    AllFollowUp(before, calls);
  }

  lemma NothingBelongs(history: seq<Message>, calls: seq<Call>)
    requires forall c :: c in calls ==> Count(history, c.id) == 0
    ensures Filter(history, Belongs(calls)) == []
  {
    forall m, i | m in history && 0 <= i < |calls| ensures !(m.ToolEntry? && m.id == calls[i].id) {
      assert calls[i] in calls && |Filter(history, EntryFor(calls[i].id))| == 0;
      FilterMembers(history, EntryFor(calls[i].id));
      assert !EntryFor(calls[i].id)(m);
    }
    FilterAll(history, Belongs(calls));
  }

  /** Entries that are the only ones for a batch and all allow a follow-up lead to one. */
  lemma AllFollowUp(before: seq<Message>, calls: seq<Call>)
    requires calls != [] && forall c :: c in calls ==> Count(before, c.id) == 0
    ensures AllowsFollowUp(before + Marked(calls, Rejected), calls)
  {
    hide Filter, Count;
    var marked := Marked(calls, Rejected);
    FilterSum(before, marked, Belongs(calls));
    NothingBelongs(before, calls);
    forall m | m in marked ensures Belongs(calls)(m) {
      var i :| 0 <= i < |marked| && marked[i] == m;
      assert calls[i].id == m.id;
    }
    FilterAll(marked, Belongs(calls));
    assert Filter(before + marked, Belongs(calls)) == marked;
  }

  /** While a confirmation is pending there is no follow-up. */
  lemma PendingStopsFollowUp(history: seq<Message>, calls: seq<Call>, i: nat)
    requires i < |history| && history[i].ToolEntry? && history[i].kind == Pending && !history[i].followUp
    requires Named(calls, history[i].id)
    ensures !AllowsFollowUp(history, calls)
  {
    FilterMembers(history, Belongs(calls));
    assert history[i] in history && Belongs(calls)(history[i]);
    var responses := Filter(history, Belongs(calls));
    var k :| 0 <= k < |responses| && responses[k] == history[i];
  }

  lemma NoEntriesYet(history: seq<Message>, calls: seq<Call>)
    requires forall c :: c in calls ==> Count(history, c.id) == 0
    ensures forall c :: c in calls ==> Count(history + [Assistant(calls)], c.id) == 0
  {
    hide Count;
    forall c | c in calls ensures Count(history + [Assistant(calls)], c.id) == 0 {
      CountSum(history, [Assistant(calls)], c.id);
      CountAll([Assistant(calls)], c.id);
    }
  }

  /** Alignment of a whole reply: the assistant message comes first, and the condition is exact. */
  lemma RepliesAreAligned(history: seq<Message>, all: seq<Call>, tools: seq<string>, approval: Option<seq<string>>,
                          outcomes: seq<Outcome>)
    requires |Approved(EnabledCalls(all, tools), approval)| <= |outcomes|
    requires var calls := EnabledCalls(all, tools);
      calls != [] && DistinctIds(calls) && forall c :: c in calls ==> Count(history, c.id) == 0
    ensures var calls, h := EnabledCalls(all, tools), Handle(history, all, tools, approval, outcomes);
      && history + [Assistant(calls)] <= h.history
      && ((forall c :: c in calls ==> Count(h.history, c.id) == 1)
          <==> IsRejected(calls, approval) || LeavesOneEach(Approved(calls, approval), outcomes))
  {
    hide Count, Dispatch, LeavesOneEach, IsRejected, AllowsFollowUp;
    var calls := EnabledCalls(all, tools);
    var before := history + [Assistant(calls)];
    FilterMembers(all, Enabled(tools));
    NoEntriesYet(history, calls);
    assert calls[0] in calls && calls[0].name in tools;
    EntriesOfACall(before, calls, approval, outcomes, calls[0]);
    ToolCallAlignment(before, calls, approval, outcomes);
  }

  // ------------------------------------------- what follows from the outcomes

  /** A call runs if and only if approval was not refused and it is a Kubernetes request or the user approved it. */
  lemma RunsExactly(history: seq<Message>, calls: seq<Call>, approval: Option<seq<string>>, outcomes: seq<Outcome>, c: Call)
    requires |Approved(calls, approval)| <= |outcomes| && DistinctIds(calls) && c in calls
    ensures c.id in Dispatch(history, calls, approval, outcomes).ran <==>
      && (approval.Some? || forall d :: d in calls ==> d.name == "kubernetes_api_request")
      && (c.name == "kubernetes_api_request" || (approval.Some? && c.id in approval.value))
  {
    hide ProcessCalls;
    var needing := Filter(calls, NeedsApproval());
    FilterMembers(calls, NeedsApproval());
    FilterMembers(calls, BuiltIn());
    assert IsRejected(calls, approval) <==> approval.None? && exists d :: d in calls && d.name != "kubernetes_api_request" by {
      if needing != [] {
        assert needing[0] in needing;
      }
    }
    if !IsRejected(calls, approval) {
      if c.name == "kubernetes_api_request" {
        var builtIn := Filter(calls, BuiltIn());
        var i :| 0 <= i < |builtIn| && builtIn[i] == c;
        assert Ids(builtIn)[i] == c.id;
      } else {
        assert c in needing;
      }
      if c.id in Permitted(calls, approval) {
        PermittedCallsRun(history, calls, approval, outcomes, c);
      }
      OnlyPermittedCallsRun(history, calls, approval, outcomes);
      SameIdSameCall(calls, c);
    }
  }

  lemma SameIdSameCall(calls: seq<Call>, c: Call)
    requires DistinctIds(calls) && c in calls
    ensures forall d :: d in calls && d.id == c.id ==> d == c
  {
    forall d | d in calls && d.id == c.id ensures d == c {
      var i, j :| 0 <= i < |calls| && calls[i] == c && 0 <= j < |calls| && calls[j] == d;
    }
  }

  /** Some entry of the list belongs to the batch; and all that do allow a follow-up. */
  ghost predicate Responds(s: seq<Message>, calls: seq<Call>) {
    exists m :: m in s && Belongs(calls)(m)
  }

  ghost predicate Permissive(s: seq<Message>, calls: seq<Call>) {
    forall m :: m in s && Belongs(calls)(m) ==> m.followUp
  }

  lemma AllowsByEntries(s: seq<Message>, calls: seq<Call>)
    ensures AllowsFollowUp(s, calls) <==> Responds(s, calls) && Permissive(s, calls)
  {
    hide Filter;
    var responses := Filter(s, Belongs(calls));
    FilterMembers(s, Belongs(calls));
    if responses != [] {
      assert responses[0] in responses;
    }
    forall i | 0 <= i < |responses| ensures responses[i] in s && Belongs(calls)(responses[i]) {
      assert responses[i] in responses;
    }
    if AllowsFollowUp(s, calls) {
      forall m | m in s && Belongs(calls)(m) ensures m.followUp {
        var i :| 0 <= i < |responses| && responses[i] == m;
      }
    }
  }

  lemma EntriesOfSum(a: seq<Message>, b: seq<Message>, calls: seq<Call>)
    ensures Responds(a + b, calls) <==> Responds(a, calls) || Responds(b, calls)
    ensures Permissive(a + b, calls) <==> Permissive(a, calls) && Permissive(b, calls)
  {
    hide Belongs;
    assert forall m :: m in a + b <==> m in a || m in b;
  }

  /** An executed call leaves something in the history, itself or through what the dispatcher writes for it. */
  predicate Leaves(o: Outcome) {
    o.own > 0 || o.threw || o.add || o.confirm
  }

  /** What it leaves lets the model go on: nothing waits for the user, and no content forbids it. */
  predicate LetsGoOn(o: Outcome) {
    && (o.own > 0 ==> o.followUp)
    && (!o.threw && o.add ==> o.followUp)
    && !(!o.threw && !o.add && o.confirm)
  }

  lemma EntriesLetGoOn(c: Call, o: Outcome, calls: seq<Call>)
    requires Named(calls, c.id)
    ensures Responds(EntriesOf(c, o), calls) <==> Leaves(o)
    ensures Permissive(EntriesOf(c, o), calls) <==> LetsGoOn(o)
  {
    var s := EntriesOf(c, o);
    assert forall m :: m in s ==> m.ToolEntry? && m.id == c.id && Belongs(calls)(m);
    if Leaves(o) {
      assert s[0] in s;
    }
    if o.own > 0 {
      assert s[0] in s;
    }
    if o.threw || o.add || o.confirm {
      assert s[o.own] in s;
    }
  }

  lemma {:induction false} BatchLetsGoOn(history: seq<Message>, batch: seq<Call>, outcomes: seq<Outcome>, calls: seq<Call>)
    requires |batch| <= |outcomes| && forall i :: 0 <= i < |batch| ==> Named(calls, batch[i].id)
    ensures var h := ProcessEach(history, batch, outcomes).history;
      && (Responds(h, calls) <==> Responds(history, calls) || exists i :: 0 <= i < |batch| && Leaves(outcomes[i]))
      && (Permissive(h, calls) <==> Permissive(history, calls) && forall i :: 0 <= i < |batch| ==> LetsGoOn(outcomes[i]))
  {
    hide EntriesOf, Responds, Permissive, Leaves, LetsGoOn, Named;
    if batch != [] {
      var n := |batch| - 1;
      BatchLetsGoOn(history, batch[..n], outcomes, calls);
      EntriesLetGoOn(batch[n], outcomes[n], calls);
      EntriesOfSum(ProcessEach(history, batch[..n], outcomes).history, EntriesOf(batch[n], outcomes[n]), calls);
    }
  }

  lemma NoResponseYet(history: seq<Message>, calls: seq<Call>)
    requires forall c :: c in calls ==> Count(history, c.id) == 0
    ensures !Responds(history, calls) && Permissive(history, calls)
  {
    NothingBelongs(history, calls);
    FilterMembers(history, Belongs(calls));
  }

  lemma MarkedLetGoOn(marked: seq<Call>, kind: Kind, calls: seq<Call>)
    requires forall i :: 0 <= i < |marked| ==> Named(calls, marked[i].id)
    ensures Responds(Marked(marked, kind), calls) <==> marked != []
    ensures Permissive(Marked(marked, kind), calls)
  {
    var s := Marked(marked, kind);
    if marked != [] {
      assert s[0] in s && Belongs(calls)(s[0]);
    }
  }

  /**
   * The follow-up, told from what the tools and the user answered. For a reply whose calls have no entries yet and whose
   * approval is not refused, the model is asked to go on if and only if some call was denied or left something, and no
   * executed call waits for a confirmation or left what forbids it.
   */
  lemma FollowUpExactly(history: seq<Message>, all: seq<Call>, tools: seq<string>, approval: Option<seq<string>>,
                        outcomes: seq<Outcome>)
    requires |Approved(EnabledCalls(all, tools), approval)| <= |outcomes|
    requires var calls := EnabledCalls(all, tools);
      && calls != [] && DistinctIds(calls) && !IsRejected(calls, approval)
      && forall c :: c in calls ==> Count(history, c.id) == 0
    ensures var calls := EnabledCalls(all, tools);
      var approved := Approved(calls, approval);
      Handle(history, all, tools, approval, outcomes).verdict ==
        if && (|approved| < |calls| || exists i :: 0 <= i < |approved| && Leaves(outcomes[i]))
           && forall i :: 0 <= i < |approved| ==> LetsGoOn(outcomes[i])
        then FollowUp else Stop
  {
    hide Count, Filter, AllowsFollowUp, Leaves, LetsGoOn, Responds, Permissive, Named, DistinctIds, Permitted;
    var calls := EnabledCalls(all, tools);
    var approved, denied := Approved(calls, approval), NotApproved(calls, approval);
    var before := history + [Assistant(calls)];
    FilterMembers(all, Enabled(tools));
    assert calls[0] in calls && calls[0].name in tools;
    NoEntriesYet(history, calls);
    NoResponseYet(before, calls);
    BatchIsNamed(calls, approval);
    MarkedLetGoOn(denied, Denied, calls);
    EntriesOfSum(before, Marked(denied, Denied), calls);
    BatchLetsGoOn(before + Marked(denied, Denied), approved, outcomes, calls);
    var p := ProcessEach(before + Marked(denied, Denied), approved, outcomes);
    AlertIsNoResponse(p.failed, calls);
    EntriesOfSum(p.history, [Alert(p.failed)], calls);
    var d := Dispatch(before, calls, approval, outcomes);
    AllowsByEntries(d.history, calls);
  }

  lemma AlertIsNoResponse(failed: seq<string>, calls: seq<Call>)
    ensures !Responds([Alert(failed)], calls) && Permissive([Alert(failed)], calls)
  {
  }

  lemma BatchIsNamed(calls: seq<Call>, approval: Option<seq<string>>)
    ensures forall i :: 0 <= i < |Approved(calls, approval)| ==> Named(calls, Approved(calls, approval)[i].id)
    ensures forall i :: 0 <= i < |NotApproved(calls, approval)| ==> Named(calls, NotApproved(calls, approval)[i].id)
    ensures NotApproved(calls, approval) != [] <==> |Approved(calls, approval)| < |calls|
  {
    hide Permitted, Filter;
    var ids := Permitted(calls, approval);
    var yes, no := Approved(calls, approval), NotApproved(calls, approval);
    FilterMembers(calls, InIds(ids));
    FilterMembers(calls, NotInIds(ids));
    FilterAll(calls, InIds(ids));
    forall i | 0 <= i < |yes| ensures Named(calls, yes[i].id) {
      assert yes[i] in yes;
      var k :| 0 <= k < |calls| && calls[k] == yes[i];
    }
    forall i | 0 <= i < |no| ensures Named(calls, no[i].id) {
      assert no[i] in no;
      var k :| 0 <= k < |calls| && calls[k] == no[i];
    }
    if no != [] {
      assert no[0] in no;
    }
  }

  // ------------------------------------------------- what stands in an entry

  /** An entry of this kind answers the call. */
  ghost predicate HasEntry(s: seq<Message>, c: Call, kind: Kind) {
    exists m :: m in s && m.ToolEntry? && m.id == c.id && m.kind == kind
  }

  /** What an outcome puts there: the tool's own entries, then its failure, its answer, or the wait for the user. */
  predicate LeavesKind(o: Outcome, kind: Kind) {
    match kind
    case Own => o.own > 0
    case Failure => o.threw
    case Answer => !o.threw && o.add
    case Pending => !o.threw && !o.add && o.confirm
    case Denied => false
    case Rejected => false
  }

  lemma EntryKinds(c: Call, o: Outcome, kind: Kind)
    ensures HasEntry(EntriesOf(c, o), c, kind) <==> LeavesKind(o, kind)
  {
    var s := EntriesOf(c, o);
    if o.own > 0 {
      assert s[0] in s;
    }
    if o.threw || o.add || o.confirm {
      assert s[o.own] in s;
    }
  }

  lemma HasEntrySum(a: seq<Message>, b: seq<Message>, c: Call, kind: Kind)
    ensures HasEntry(a + b, c, kind) <==> HasEntry(a, c, kind) || HasEntry(b, c, kind)
  {
    assert forall m :: m in a + b <==> m in a || m in b;
  }

  lemma OtherEntries(c: Call, o: Outcome, other: Call, kind: Kind)
    requires c.id != other.id
    ensures !HasEntry(EntriesOf(c, o), other, kind)
  {
  }

  lemma {:induction false} BatchKinds(history: seq<Message>, batch: seq<Call>, outcomes: seq<Outcome>, c: Call, kind: Kind)
    requires |batch| <= |outcomes|
    ensures HasEntry(ProcessEach(history, batch, outcomes).history, c, kind) <==>
      HasEntry(history, c, kind) || exists i :: 0 <= i < |batch| && batch[i].id == c.id && LeavesKind(outcomes[i], kind)
  {
    hide EntriesOf, LeavesKind, HasEntry;
    if batch != [] {
      var n := |batch| - 1;
      BatchKinds(history, batch[..n], outcomes, c, kind);
      HasEntrySum(ProcessEach(history, batch[..n], outcomes).history, EntriesOf(batch[n], outcomes[n]), c, kind);
      if batch[n].id == c.id {
        EntryKinds(batch[n], outcomes[n], kind);
        SameIdSameEntries(batch[n], c, EntriesOf(batch[n], outcomes[n]), kind);
      } else {
        OtherEntries(batch[n], outcomes[n], c, kind);
      }
      assert forall i :: 0 <= i < n ==> batch[..n][i] == batch[i];
    }
  }

  lemma SameIdSameEntries(a: Call, b: Call, s: seq<Message>, kind: Kind)
    requires a.id == b.id
    ensures HasEntry(s, a, kind) <==> HasEntry(s, b, kind)
  {
  }

  lemma MarkedKinds(marked: seq<Call>, mark: Kind, c: Call, kind: Kind)
    ensures HasEntry(Marked(marked, mark), c, kind) <==> kind == mark && Named(marked, c.id)
  {
    var s := Marked(marked, mark);
    if kind == mark && Named(marked, c.id) {
      var i :| 0 <= i < |marked| && marked[i].id == c.id;
      assert s[i] in s;
    }
  }

  /**
   * What a reply leaves for each of its calls: a rejection for all when approval was refused; else a denial exactly for
   * the calls that were not permitted, and for one that ran exactly the kinds of entries its outcome calls for.
   */
  lemma KindsExactly(history: seq<Message>, calls: seq<Call>, approval: Option<seq<string>>, outcomes: seq<Outcome>,
                     c: Call, kind: Kind)
    requires |Approved(calls, approval)| <= |outcomes| && DistinctIds(calls) && c in calls
    requires forall k :: !HasEntry(history, c, k)
    ensures HasEntry(Dispatch(history, calls, approval, outcomes).history, c, kind) <==>
      if IsRejected(calls, approval) then kind == Rejected
      else if c.id !in Permitted(calls, approval) then kind == Denied
      else exists i :: 0 <= i < |Approved(calls, approval)| && Approved(calls, approval)[i] == c && LeavesKind(outcomes[i], kind)
  {
    hide EntriesOf, LeavesKind, HasEntry, Filter, Permitted, IsRejected, DistinctIds, Named;
    var approved, denied := Approved(calls, approval), NotApproved(calls, approval);
    PermittedOrNot(calls, approval, c);
    MarkedKinds(calls, Rejected, c, kind);
    MarkedKinds(denied, Denied, c, kind);
    HasEntrySum(history, Marked(calls, Rejected), c, kind);
    HasEntrySum(history, Marked(denied, Denied), c, kind);
    if !IsRejected(calls, approval) {
      BatchKinds(history + Marked(denied, Denied), approved, outcomes, c, kind);
      var p := ProcessEach(history + Marked(denied, Denied), approved, outcomes);
      HasEntrySum(p.history, [Alert(p.failed)], c, kind);
      AlertIsNoEntry(p.failed, c, kind);
      SameIdSameCall(calls, c);
      forall i | 0 <= i < |approved| ensures approved[i] in calls && approved[i].id in Permitted(calls, approval) {
        FilterMembers(calls, InIds(Permitted(calls, approval)));
        assert approved[i] in approved;
      }
    }
  }

  lemma {:induction false} BatchEntriesNameTheirCalls(history: seq<Message>, batch: seq<Call>, outcomes: seq<Outcome>, m: Message)
    requires |batch| <= |outcomes| && m in ProcessEach(history, batch, outcomes).history && m !in history
    ensures m.ToolEntry? && exists c :: c in batch && m.id == c.id && m.name == c.name
  {
    if batch != [] {
      var n := |batch| - 1;
      if m in ProcessEach(history, batch[..n], outcomes).history {
        BatchEntriesNameTheirCalls(history, batch[..n], outcomes, m);
        var c :| c in batch[..n] && m.id == c.id && m.name == c.name;
        assert c in batch;
      } else {
        assert batch[n] in batch;
      }
    }
  }

  /**
   * All that a batch adds to the history are entries for its calls, under their names, and at most one report of failed
   * tools; and the denials come first.
   */
  lemma EntriesNameTheirCalls(history: seq<Message>, calls: seq<Call>, approval: Option<seq<string>>, outcomes: seq<Outcome>,
                              m: Message)
    requires |Approved(calls, approval)| <= |outcomes|
    requires m in Dispatch(history, calls, approval, outcomes).history && m !in history
    ensures m.Alert? || (m.ToolEntry? && exists c :: c in calls && m.id == c.id && m.name == c.name)
    ensures !IsRejected(calls, approval) ==>
      history + Marked(NotApproved(calls, approval), Denied) <= Dispatch(history, calls, approval, outcomes).history
  {
    hide ProcessEach, Filter, Permitted;
    var approved, denied := Approved(calls, approval), NotApproved(calls, approval);
    FilterMembers(calls, InIds(Permitted(calls, approval)));
    FilterMembers(calls, NotInIds(Permitted(calls, approval)));
    if IsRejected(calls, approval) {
      MarkedNameTheirCalls(calls, Rejected, m);
    } else {
      var before := history + Marked(denied, Denied);
      BatchRuns(before, approved, outcomes, "");
      if m in Marked(denied, Denied) {
        MarkedNameTheirCalls(denied, Denied, m);
      } else if !m.Alert? {
        BatchEntriesNameTheirCalls(before, approved, outcomes, m);
      }
    }
  }

  lemma MarkedNameTheirCalls(marked: seq<Call>, kind: Kind, m: Message)
    requires m in Marked(marked, kind)
    ensures m.ToolEntry? && exists c :: c in marked && m.id == c.id && m.name == c.name
  {
    var i :| 0 <= i < |marked| && Marked(marked, kind)[i] == m;
    assert marked[i] in marked;
  }

  lemma AlertIsNoEntry(failed: seq<string>, c: Call, kind: Kind)
    ensures !HasEntry([Alert(failed)], c, kind)
  {
  }

  lemma {:induction false} FailedNames(history: seq<Message>, batch: seq<Call>, outcomes: seq<Outcome>, name: string)
    requires |batch| <= |outcomes|
    ensures name in ProcessEach(history, batch, outcomes).failed <==>
      exists i :: 0 <= i < |batch| && batch[i].name == name && (outcomes[i].threw || outcomes[i].error)
  {
    if batch != [] {
      FailedNames(history, batch[..|batch| - 1], outcomes, name);
    }
  }

  /** After a batch the user is told of exactly the tools that threw or reported an error, if there are any. */
  lemma FailuresAreReported(history: seq<Message>, calls: seq<Call>, outcomes: seq<Outcome>)
    requires |calls| <= |outcomes|
    ensures var p, each := ProcessCalls(history, calls, outcomes), ProcessEach(history, calls, outcomes);
      if exists i :: 0 <= i < |calls| && (outcomes[i].threw || outcomes[i].error)
      then p.history == each.history + [Alert(p.failed)]
           && forall name :: name in p.failed <==>
                exists i :: 0 <= i < |calls| && calls[i].name == name && (outcomes[i].threw || outcomes[i].error)
      else p.history == each.history
  {
    hide ProcessEach;
    var p, failed := ProcessCalls(history, calls, outcomes), ProcessEach(history, calls, outcomes).failed;
    forall name
      ensures name in failed <==>
        exists i :: 0 <= i < |calls| && calls[i].name == name && (outcomes[i].threw || outcomes[i].error)
    {
      FailedNames(history, calls, outcomes, name);
    }
    if failed != [] {
      assert failed[0] in failed;
    } else {
      forall i | 0 <= i < |calls| ensures !(outcomes[i].threw || outcomes[i].error) {
        assert calls[i].name !in failed;
      }
    }
  }

  /** A reply none of whose calls names an enabled tool runs nothing, and says which tools it asked for. */
  lemma NothingEnabledRunsNothing(history: seq<Message>, all: seq<Call>, tools: seq<string>, approval: Option<seq<string>>,
                                  outcomes: seq<Outcome>)
    requires forall c :: c in all ==> c.name !in tools
    ensures EnabledCalls(all, tools) == [] && Approved([], approval) == []
    ensures var h := Handle(history, all, tools, approval, outcomes);
      && h.ran == []
      && (tools == [] ==> h.verdict == NoTools && h.history == history + [Text("assistant")])
      && (tools != [] && all == [] ==> h.verdict == NoCalls)
      && (tools != [] && all != [] ==> h.verdict == AllDisabled && h.history == history + [Explanation(Names(all))])
  {
    FilterAll(all, Enabled(tools));
    FilterAll(all, Disabled(tools));
  }

  // ------------------------------------------------------- the built-in tool

  /**
   * How a request through the built-in tool ends: the tool itself fails, the request helper throws, it returns data
   * and has written the entry, it reports an API error or the containers of a pod as a message of the assistant, or
   * the request changes something and waits for the user. In the fourth case the tool still tags the last tool entry
   * without an identifier, if an older one is left over.
   */
  datatype Ending = Broken | Raised | Fetched(error: bool) | Told(leftover: bool, error: bool) | Asked

  function KubernetesOutcome(e: Ending): Outcome {
    match e
    case Broken => Outcome(0, true, false, false, true, true)
    case Raised => Outcome(0, false, true, false, true, true)
    case Fetched(error) => Outcome(1, false, false, false, error, true)
    case Told(leftover, error) => Outcome(if leftover then 1 else 0, false, false, false, error, true)
    case Asked => Outcome(0, false, false, true, false, false)
  }

  function KubernetesOutcomes(endings: seq<Ending>): (outcomes: seq<Outcome>)
    ensures |outcomes| == |endings|
  {
    seq(|endings|, i requires 0 <= i < |endings| => KubernetesOutcome(endings[i]))
  }

  /** A reply of built-in calls is aligned if and only if none of its reads was answered with a message only. */
  lemma BuiltInAlignment(history: seq<Message>, calls: seq<Call>, approval: Option<seq<string>>, endings: seq<Ending>)
    requires DistinctIds(calls) && |endings| == |calls|
    requires forall c :: c in calls ==> IsBuiltIn(c.name) && Count(history, c.id) == 0
    ensures Approved(calls, approval) == calls && !IsRejected(calls, approval)
    ensures var d := Dispatch(history, calls, approval, KubernetesOutcomes(endings));
      (forall c :: c in calls ==> Count(d.history, c.id) == 1)
        <==> forall i :: 0 <= i < |endings| ==> !(endings[i].Told? && !endings[i].leftover)
  {
    hide Count, Dispatch, EntriesOf;
    BuiltInCallsRun(calls, approval);
    ToolCallAlignment(history, calls, approval, KubernetesOutcomes(endings));
    forall i | 0 <= i < |endings|
      ensures |EntriesOf(calls[i], KubernetesOutcomes(endings)[i])| == if endings[i].Told? && !endings[i].leftover then 0 else 1
    {
      BuiltInEntries(calls[i], endings[i]);
    }
  }

  lemma BuiltInEntries(c: Call, e: Ending)
    ensures |EntriesOf(c, KubernetesOutcome(e))| == if e.Told? && !e.leftover then 0 else 1
  {
  }

  lemma BuiltInCallsRun(calls: seq<Call>, approval: Option<seq<string>>)
    requires forall c :: c in calls ==> IsBuiltIn(c.name)
    ensures Approved(calls, approval) == calls && !IsRejected(calls, approval)
  {
    FilterAll(calls, BuiltIn());
    FilterAll(calls, NeedsApproval());
    forall c | c in calls ensures c.id in Permitted(calls, approval) {
      var i :| 0 <= i < |calls| && calls[i] == c;
      assert Ids(calls)[i] == c.id;
    }
    FilterAll(calls, InIds(Permitted(calls, approval)));
  }

  /** The read that breaks the alignment: answered with a message of the assistant only, it gets no tool entry at all. */
  lemma ToldReadGetsNoEntry(history: seq<Message>, calls: seq<Call>, approval: Option<seq<string>>,
                            endings: seq<Ending>, i: nat)
    requires DistinctIds(calls) && i < |calls| == |endings|
    requires forall c :: c in calls ==> IsBuiltIn(c.name) && Count(history, c.id) == 0
    requires endings[i].Told? && !endings[i].leftover
    ensures Approved(calls, approval) == calls
    ensures Count(Dispatch(history, calls, approval, KubernetesOutcomes(endings)).history, calls[i].id) == 0
  {
    hide Count, Dispatch, EntriesOf, Left, Permitted;
    BuiltInCallsRun(calls, approval);
    ApprovedCall(calls, approval, KubernetesOutcomes(endings), i);
    EntriesOfACall(history, calls, approval, KubernetesOutcomes(endings), calls[i]);
    BuiltInEntries(calls[i], endings[i]);
  }

  /** If that happens to every call of the reply, the reply ends there: no follow-up explains the result. */
  lemma ToldRepliesStop(history: seq<Message>, all: seq<Call>, tools: seq<string>, endings: seq<Ending>)
    requires var calls := EnabledCalls(all, tools);
      && calls != [] && DistinctIds(calls) && |endings| == |calls|
      && (forall c :: c in calls ==> IsBuiltIn(c.name) && Count(history, c.id) == 0)
    requires forall i :: 0 <= i < |endings| ==> endings[i].Told? && !endings[i].leftover
    ensures Approved(EnabledCalls(all, tools), None) == EnabledCalls(all, tools)
    ensures Handle(history, all, tools, None, KubernetesOutcomes(endings)).verdict == Stop
  {
    hide Count, Dispatch;
    var calls := EnabledCalls(all, tools);
    var before := history + [Assistant(calls)];
    FilterMembers(all, Enabled(tools));
    assert calls[0] in calls && calls[0].name in tools;
    BuiltInCallsRun(calls, None);
    NoEntriesYet(history, calls);
    var d := Dispatch(before, calls, None, KubernetesOutcomes(endings));
    forall c | c in calls ensures Count(d.history, c.id) == 0 {
      var i :| 0 <= i < |calls| && calls[i] == c;
      ToldReadGetsNoEntry(before, calls, None, endings, i);
    }
    NothingBelongs(d.history, calls);
  }

  /**
   * The verdict on a reply of Kubernetes requests: the model goes on if and only if some request got an entry and none
   * waits for the user's confirmation.
   */
  lemma BuiltInVerdict(history: seq<Message>, all: seq<Call>, tools: seq<string>, approval: Option<seq<string>>,
                       endings: seq<Ending>)
    requires var calls := EnabledCalls(all, tools);
      && calls != [] && DistinctIds(calls) && |endings| == |calls|
      && forall c :: c in calls ==> c.name == "kubernetes_api_request" && Count(history, c.id) == 0
    ensures Approved(EnabledCalls(all, tools), approval) == EnabledCalls(all, tools)
    ensures Handle(history, all, tools, approval, KubernetesOutcomes(endings)).verdict ==
      if && (exists i :: 0 <= i < |endings| && !(endings[i].Told? && !endings[i].leftover))
         && forall i :: 0 <= i < |endings| ==> !endings[i].Asked?
      then FollowUp else Stop
  {
    hide Count, Handle, DistinctIds, Leaves, LetsGoOn, KubernetesOutcome, Approved, Filter, IsRejected;
    var calls, o := EnabledCalls(all, tools), KubernetesOutcomes(endings);
    assert forall c :: c in calls ==> IsBuiltIn(c.name);
    BuiltInCallsRun(calls, approval);
    FollowUpExactly(history, all, tools, approval, o);
    forall i | 0 <= i < |endings|
      ensures Leaves(o[i]) <==> !(endings[i].Told? && !endings[i].leftover)
      ensures LetsGoOn(o[i]) <==> !endings[i].Asked?
    {
      EndingLetsGoOn(endings[i]);
    }
  }

  lemma EndingLetsGoOn(e: Ending)
    ensures Leaves(KubernetesOutcome(e)) <==> !(e.Told? && !e.leftover)
    ensures LetsGoOn(KubernetesOutcome(e)) <==> !e.Asked?
  {
  }
}
