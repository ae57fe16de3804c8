// The Active Blockers table: the rows the user interface derives from the status the controller writes.
module ActiveBlockers {
  import opened Common
  import opened NodeModel
  import opened RuleModel
  import opened Evaluation
  import opened Passes
  import Reconciler

  datatype Row = Row(id: string, nodeName: string, blockingCondition: string, ruleName: string)

  const NO_MISMATCH := "(taint present — no failing conditions in status)"

  /** Decimal digits of a number. */
  function Decimal(n: nat): string {
    if n < 10 then ["0123456789"[n]] else Decimal(n / 10) + ["0123456789"[n % 10]]
  }

  function MismatchLabel(c: ConditionResult): string {
    c.ctype + ": " + c.current + " (required " + c.required + ")"
  }

  function RowPrefix(ruleName: string, nodeName: string): string {
    ruleName + "::" + nodeName + "::"
  }

  function ConditionRow(ruleName: string, nodeName: string, c: ConditionResult, i: nat): Row {
    Row(RowPrefix(ruleName, nodeName) + "cond-" + Decimal(i) + "-" + c.ctype, nodeName, MismatchLabel(c), ruleName)
  }

  function Mismatches(results: seq<ConditionResult>): seq<ConditionResult> {
    Filter(results, (c: ConditionResult) => c.current != c.required)
  }

  // ------------------------------------------------------------------- rows

  function ConditionRows(ruleName: string, nodeName: string, mismatches: seq<ConditionResult>): seq<Row> {
    seq(|mismatches|, i requires 0 <= i < |mismatches| => ConditionRow(ruleName, nodeName, mismatches[i], i))
  }

  function EvaluationRows(ruleName: string, e: NodeEvaluation): seq<Row> {
    if e.taintStatus != Present then []
    else if Mismatches(e.results) == [] then
      [Row(RowPrefix(ruleName, e.nodeName) + "no-mismatch", e.nodeName, NO_MISMATCH, ruleName)]
    else ConditionRows(ruleName, e.nodeName, Mismatches(e.results))
  }

  function StatusRows(ruleName: string, s: seq<NodeEvaluation>): seq<Row> {
    if s == [] then [] else StatusRows(ruleName, s[..|s| - 1]) + EvaluationRows(ruleName, s[|s| - 1])
  }

  function RuleRows(rule: Rule): seq<Row> {
    if rule.spec.dryRun then [] else StatusRows(rule.name, rule.status.evaluations)
  }

  function BlockerRows(rules: seq<Rule>): seq<Row> {
    if rules == [] then [] else BlockerRows(rules[..|rules| - 1]) + RuleRows(rules[|rules| - 1])
  }

  method AppendRows(before: seq<Row>, ruleName: string, ev: NodeEvaluation) returns (rows: seq<Row>)
    ensures rows == before + EvaluationRows(ruleName, ev)
  {
    hide Decimal, MismatchLabel, Filter;
    rows := before;
    if ev.taintStatus != Present {
      return;
    }
    var mismatches := Mismatches(ev.results);
    if |mismatches| == 0 {
      rows := rows + [Row(ruleName + "::" + ev.nodeName + "::" + "no-mismatch", ev.nodeName, NO_MISMATCH, ruleName)];
    } else {
      for i := 0 to |mismatches|
        invariant rows == before + ConditionRows(ruleName, ev.nodeName, mismatches)[..i]
      {
        rows := rows + [ConditionRow(ruleName, ev.nodeName, mismatches[i], i)];
      }
    }
  }

  method BuildActiveBlockerRows(rules: seq<Rule>) returns (rows: seq<Row>)
    ensures rows == BlockerRows(rules)
  {
    hide EvaluationRows;
    rows := [];
    for r := 0 to |rules|
      invariant rows == BlockerRows(rules[..r])
    {
      assert rules[..r + 1][..r] == rules[..r];
      var rule := rules[r];
      if rule.spec.dryRun {
        continue;
      }
      var evals := rule.status.evaluations;
      for k := 0 to |evals|
        invariant rows == BlockerRows(rules[..r]) + StatusRows(rule.name, evals[..k])
      {
        assert evals[..k + 1][..k] == evals[..k];
        rows := AppendRows(rows, rule.name, evals[k]);
      }
      assert evals[..|evals|] == evals;
    }
    assert rules[..|rules|] == rules;
  }

  // --------------------------------------------------------- identifiers of rows

  lemma {:induction false} DecimalIsDigits(n: nat)
    ensures |Decimal(n)| > 0
    ensures forall i :: 0 <= i < |Decimal(n)| ==> '0' <= Decimal(n)[i] <= '9'
  {
    if n >= 10 {
      DecimalIsDigits(n / 10);
    }
  }

  lemma {:induction false} DecimalInjective(m: nat, n: nat)
    requires Decimal(m) == Decimal(n)
    ensures m == n
  {
    var a, b := Decimal(m), Decimal(n);
    if m >= 10 {
      DecimalIsDigits(m / 10);
    }
    if n >= 10 {
      DecimalIsDigits(n / 10);
    }
    assert a[|a| - 1] == "0123456789"[m % 10] && b[|b| - 1] == "0123456789"[n % 10];
    if m >= 10 {
      assert a[..|a| - 1] == Decimal(m / 10) && b[..|b| - 1] == Decimal(n / 10);
      DecimalInjective(m / 10, n / 10);
    }
  }

  lemma RowPrefixInjective(r1: string, n1: string, r2: string, n2: string, id: string)
    requires NoneOf(r1, ':') && NoneOf(n1, ':') && NoneOf(r2, ':') && NoneOf(n2, ':')
    requires RowPrefix(r1, n1) <= id && RowPrefix(r2, n2) <= id
    ensures r1 == r2 && n1 == n2
  {
    var p1, p2 := RowPrefix(r1, n1), RowPrefix(r2, n2);
    assert r1 + [':'] <= p1 && r2 + [':'] <= p2;
    CutAtFirst(r1, r2, ':', id);
    var k := |r1| + 2;
    assert p1[k..] == n1 + "::" && p2[k..] == n2 + "::";
    assert n1 + [':'] <= p1[k..] <= id[k..] && n2 + [':'] <= p2[k..] <= id[k..];
    CutAtFirst(n1, n2, ':', id[k..]);
  }

  predicate DistinctIds(rows: seq<Row>) {
    forall i, j :: 0 <= i < j < |rows| ==> rows[i].id != rows[j].id
  }

  /** Every row names its rule and node in its identifier. */
  predicate Prefixed(rows: seq<Row>) {
    forall i :: 0 <= i < |rows| ==> RowPrefix(rows[i].ruleName, rows[i].nodeName) <= rows[i].id
  }

  lemma ConditionRowIds(ruleName: string, nodeName: string, c: ConditionResult, i: nat, d: ConditionResult, j: nat)
    requires ConditionRow(ruleName, nodeName, c, i).id == ConditionRow(ruleName, nodeName, d, j).id
    ensures i == j
  {
    var start := RowPrefix(ruleName, nodeName) + "cond-";
    var x, y := ConditionRow(ruleName, nodeName, c, i).id, ConditionRow(ruleName, nodeName, d, j).id;
    assert x[|start|..] == Decimal(i) + "-" + c.ctype && y[|start|..] == Decimal(j) + "-" + d.ctype;
    DecimalIsDigits(i);
    DecimalIsDigits(j);
    assert Decimal(i) + ['-'] <= x[|start|..] && Decimal(j) + ['-'] <= y[|start|..];
    CutAtFirst(Decimal(i), Decimal(j), '-', x[|start|..]);
    DecimalInjective(i, j);
  }

  lemma EvaluationRowIds(ruleName: string, e: NodeEvaluation)
    ensures DistinctIds(EvaluationRows(ruleName, e)) && Prefixed(EvaluationRows(ruleName, e))
    ensures forall row :: row in EvaluationRows(ruleName, e) ==> row.ruleName == ruleName && row.nodeName == e.nodeName
  {
    var rows, m := EvaluationRows(ruleName, e), Mismatches(e.results);
    forall i, j | e.taintStatus == Present && 0 <= i < j < |rows| ensures rows[i].id != rows[j].id {
      if rows[i].id == rows[j].id {
        ConditionRowIds(ruleName, e.nodeName, m[i], i, m[j], j);
      }
    }
  }

  /** Lists of rows with distinct identifiers that share no rule and node make one such list. */
  lemma DistinctIdsSum(a: seq<Row>, b: seq<Row>)
    requires DistinctIds(a) && DistinctIds(b) && Prefixed(a) && Prefixed(b)
    requires forall x, y :: x in a && y in b ==>
      && NoneOf(x.ruleName, ':') && NoneOf(x.nodeName, ':') && NoneOf(y.ruleName, ':') && NoneOf(y.nodeName, ':')
      && (x.ruleName != y.ruleName || x.nodeName != y.nodeName)
    ensures DistinctIds(a + b) && Prefixed(a + b)
  {
    forall i, j | 0 <= i < j < |a + b| ensures (a + b)[i].id != (a + b)[j].id {
      if i < |a| <= j && (a + b)[i].id == (a + b)[j].id {
        var x, y := a[i], b[j - |a|];
        assert x in a && y in b;
        RowPrefixInjective(x.ruleName, x.nodeName, y.ruleName, y.nodeName, x.id);
      }
    }
  }

  predicate NodeNamesOk(s: seq<NodeEvaluation>) {
    forall i :: 0 <= i < |s| ==> NoneOf(s[i].nodeName, ':')
  }

  lemma {:induction false} StatusRowIds(ruleName: string, s: seq<NodeEvaluation>)
    requires NoneOf(ruleName, ':') && NodeNamesOk(s) && UniqueEvaluations(s)
    ensures DistinctIds(StatusRows(ruleName, s)) && Prefixed(StatusRows(ruleName, s))
    ensures forall row :: row in StatusRows(ruleName, s) ==> row.ruleName == ruleName && Evaluated(s, row.nodeName)
  {
    hide EvaluationRows, NoneOf, RowPrefix, DistinctIds, Prefixed;
    if s == [] {
      NoRows();
    } else {
      var front, last := s[..|s| - 1], s[|s| - 1];
      assert forall i :: 0 <= i < |front| ==> front[i] == s[i];
      StatusRowIds(ruleName, front);
      EvaluationRowIds(ruleName, last);
      DistinctIdsSum(StatusRows(ruleName, front), EvaluationRows(ruleName, last));
    }
  }

  lemma NoRows()
    ensures DistinctIds([]) && Prefixed([])
  {
  }

  predicate RuleOk(rule: Rule) {
    NoneOf(rule.name, ':') && NodeNamesOk(rule.status.evaluations) && UniqueEvaluations(rule.status.evaluations)
  }

  predicate Named(rules: seq<Rule>, name: string) {
    exists i :: 0 <= i < |rules| && rules[i].name == name
  }

  /**
   * Row identifiers are pairwise distinct over the whole table, when rules have distinct names, each rule has at most
   * one evaluation for each node, and names have no colon.
   */
  lemma {:induction false} RowIdsAreDistinct(rules: seq<Rule>)
    requires forall i :: 0 <= i < |rules| ==> RuleOk(rules[i])
    requires forall i, j :: 0 <= i < j < |rules| ==> rules[i].name != rules[j].name
    ensures DistinctIds(BlockerRows(rules)) && Prefixed(BlockerRows(rules))
    ensures forall row :: row in BlockerRows(rules) ==>
      Named(rules, row.ruleName) && NoneOf(row.ruleName, ':') && NoneOf(row.nodeName, ':')
  {
    hide NoneOf, RowPrefix, DistinctIds, Prefixed, StatusRows;
    if rules == [] {
      NoRows();
    } else {
      var front, last := rules[..|rules| - 1], rules[|rules| - 1];
      assert forall i :: 0 <= i < |front| ==> front[i] == rules[i];
      RowIdsAreDistinct(front);
      NoRows();
      StatusRowIds(last.name, last.status.evaluations);
      DistinctIdsSum(BlockerRows(front), RuleRows(last));
    }
  }

  /** The row of an evaluation with the taint present and no failing condition. */
  lemma BareRows(rule: Rule, nodeName: string)
    requires !rule.spec.dryRun && rule.status.evaluations == [NodeEvaluation(nodeName, [], Present)]
    ensures RuleRows(rule) == [Row(rule.name + "::" + nodeName + "::" + "no-mismatch", nodeName,
                                   "(taint present — no failing conditions in status)", rule.name)]
  {
    var e := NodeEvaluation(nodeName, [], Present);
    assert [e][..0] == [];
    assert StatusRows(rule.name, [e]) == StatusRows(rule.name, []) + EvaluationRows(rule.name, e);
    assert Mismatches([]) == [];
  }

  /** Without that condition it fails: names that run together over the separator give two rows of a table one identifier. */
  lemma ColonBreaksIds(x: Rule, y: Rule, a: string, b: string, c: string)
    requires x.name == a && y.name == a + "::" + b && !x.spec.dryRun && !y.spec.dryRun
    requires x.status.evaluations == [NodeEvaluation(b + "::" + c, [], Present)]
    requires y.status.evaluations == [NodeEvaluation(c, [], Present)]
    ensures |BlockerRows([x, y])| == 2 && BlockerRows([x, y])[0].id == BlockerRows([x, y])[1].id
    ensures !DistinctIds(BlockerRows([x, y]))
  {
    hide RuleRows;
    BareRows(x, b + "::" + c);
    BareRows(y, c);
    assert [x, y][..1] == [x] && [x][..0] == [];
    assert BlockerRows([x]) == RuleRows(x);
    assert BlockerRows([x, y]) == RuleRows(x) + RuleRows(y);
    assert a + "::" + (b + "::" + c) + "::" == (a + "::" + b) + "::" + c + "::";
  }

  // ---------------------------------------------------------- rule by rule

  /** The table of several rules is their tables one after the other. */
  lemma {:induction false} TableIsRuleByRule(a: seq<Rule>, b: seq<Rule>)
    ensures BlockerRows(a + b) == BlockerRows(a) + BlockerRows(b)
  {
    hide RuleRows;
    if b == [] {
      assert a + b == a;
    } else {
      TableIsRuleByRule(a, b[..|b| - 1]);
      assert (a + b)[..|a + b| - 1] == a + b[..|b| - 1];
    }
  }

  /** A dry-run rule has none. */
  lemma TableOfOneRule(rule: Rule)
    ensures BlockerRows([rule]) == if rule.spec.dryRun then [] else StatusRows(rule.name, rule.status.evaluations)
  {
    hide StatusRows;
    assert [rule][..0] == [];
  }

  function ForNode(n: string): Row -> bool {
    (row: Row) => row.nodeName == n
  }

  lemma LastEntry(s: seq<NodeEvaluation>, n: string)
    requires s != [] && UniqueEvaluations(s)
    ensures var front, last := s[..|s| - 1], s[|s| - 1];
      && UniqueEvaluations(front)
      && (Evaluated(s, n) <==> Evaluated(front, n) || last.nodeName == n)
      && (Evaluated(s, n) ==> EvaluationOf(s, n) == if last.nodeName == n then last else EvaluationOf(front, n))
      && (last.nodeName == n ==> !Evaluated(front, n))
  {
    hide EvaluationOf;
    var k := |s| - 1;
    var front := s[..k];
    assert forall i :: 0 <= i < k ==> front[i] == s[i];
    if s[k].nodeName == n {
      EvaluationOfIsFirst(s, k);
    } else if Evaluated(s, n) {
      var i :| 0 <= i < |s| && s[i].nodeName == n;
      assert front[i].nodeName == n;
      EvaluationOfIsFirst(front, i);
      EvaluationOfIsFirst(s, i);
    }
  }

  /** In the rows of a status whose entries are unique by node, those of one node are the rows of its entry. */
  lemma {:induction false} RowsOfOneNode(ruleName: string, s: seq<NodeEvaluation>, n: string)
    requires UniqueEvaluations(s)
    ensures Filter(StatusRows(ruleName, s), ForNode(n))
         == if Evaluated(s, n) then EvaluationRows(ruleName, EvaluationOf(s, n)) else []
  {
    hide EvaluationRows, EvaluationOf, UniqueEvaluations, Evaluated, Filter;
    if s == [] {
      NoRowsOfNothing(n);
    } else {
      var front, last := s[..|s| - 1], s[|s| - 1];
      LastEntry(s, n);
      RowsOfOneNode(ruleName, front, n);
      FilterSum(StatusRows(ruleName, front), EvaluationRows(ruleName, last), ForNode(n));
      EvaluationRowIds(ruleName, last);
      FilterAll(EvaluationRows(ruleName, last), ForNode(n));
    }
  }

  lemma NoRowsOfNothing(n: string)
    ensures Filter([], ForNode(n)) == [] && !Evaluated([], n)
  {
  }

  // ------------------------------------------------- faithful to the controller

  /** The rows of one node straight from its conditions: one for each requirement that is not met, numbered. */
  function UnmetRows(ruleName: string, node: Node, reqs: seq<ConditionRequirement>): seq<Row> {
    if reqs == [] then []
    else
      var rows, last := UnmetRows(ruleName, node, reqs[..|reqs| - 1]), reqs[|reqs| - 1];
      var current := StatusOf(node.conditions, last.ctype);
      if current == last.required then rows
      else rows + [ConditionRow(ruleName, node.name, ConditionResult(last.ctype, current, last.required), |rows|)]
  }

  /** The rows of a listing: those of every node the rule selects, unless its taint change was refused. */
  function ExpectedRows(rule: Rule, list: seq<Node>, envs: map<string, Env>): seq<Row> {
    if list == [] then []
    else
      var node := list[|list| - 1];
      ExpectedRows(rule, list[..|list| - 1], envs)
        + if AppliesTo(rule, node) && !ChangeFails(rule, node, EnvAt(envs, node.name))
          then UnmetRows(rule.name, node, rule.spec.conditions) else []
  }

  lemma {:induction false} MismatchesOfResults(ruleName: string, node: Node, reqs: seq<ConditionRequirement>)
    ensures var m := Mismatches(ResultsOf(reqs, node.conditions));
      && ConditionRows(ruleName, node.name, m) == UnmetRows(ruleName, node, reqs)
      && (m == [] <==> AllMet(reqs, node.conditions))
  {
    if reqs != [] {
      var n := |reqs| - 1;
      MismatchesOfResults(ruleName, node, reqs[..n]);
      var results := ResultsOf(reqs, node.conditions);
      assert results[..n] == ResultsOf(reqs[..n], node.conditions);
      assert AllMet(reqs, node.conditions) <==>
        AllMet(reqs[..n], node.conditions) && StatusOf(node.conditions, reqs[n].ctype) == reqs[n].required;
    }
  }

  /** The entry of a successful evaluation shows as one row for each unmet requirement, and as nothing when all are met. */
  lemma EntryRows(rule: Rule, node: Node)
    ensures EvaluationRows(rule.name, EntryFor(rule, node)) == UnmetRows(rule.name, node, rule.spec.conditions)
    ensures UnmetRows(rule.name, node, rule.spec.conditions) == [] <==> Met(rule.spec, node)
    ensures forall row :: row in UnmetRows(rule.name, node, rule.spec.conditions) ==> row.nodeName == node.name
  {
    MismatchesOfResults(rule.name, node, rule.spec.conditions);
  }

  /** The text says which status the node reports for a requirement it does not meet, and which one is required. */
  ghost predicate Says(node: Node, req: ConditionRequirement, text: string) {
    exists status :: Reports(node.conditions, req.ctype, status) && status != req.required
      && text == req.ctype + ": " + status + " (required " + req.required + ")"
  }

  lemma LabelSays(node: Node, req: ConditionRequirement, text: string)
    ensures Says(node, req, text) <==>
      var current := StatusOf(node.conditions, req.ctype);
      current != req.required && text == MismatchLabel(ConditionResult(req.ctype, current, req.required))
  {
    hide Reports;
    var current := StatusOf(node.conditions, req.ctype);
    StatusIsReported(node.conditions, req.ctype, current);
    forall status ensures Reports(node.conditions, req.ctype, status) ==> status == current {
      StatusIsReported(node.conditions, req.ctype, status);
    }
  }

  lemma {:induction false} UnmetRowsSay(ruleName: string, node: Node, reqs: seq<ConditionRequirement>, text: string)
    ensures (exists row :: row in UnmetRows(ruleName, node, reqs) && row.blockingCondition == text && row.ruleName == ruleName)
       <==> exists i :: 0 <= i < |reqs| && Says(node, reqs[i], text)
  {
    hide MismatchLabel, Says, RowPrefix, Decimal;
    if reqs != [] {
      var n := |reqs| - 1;
      var rows, front := UnmetRows(ruleName, node, reqs), UnmetRows(ruleName, node, reqs[..n]);
      UnmetRowsSay(ruleName, node, reqs[..n], text);
      LabelSays(node, reqs[n], text);
      assert rows != front ==> rows[|front|] in rows;
      if exists i :: 0 <= i < n && Says(node, reqs[..n][i], text) {
        var i :| 0 <= i < n && Says(node, reqs[..n][i], text);
        assert Says(node, reqs[i], text);
      }
      if exists i :: 0 <= i < |reqs| && Says(node, reqs[i], text) {
        var i :| 0 <= i < |reqs| && Says(node, reqs[i], text);
        assert i < n ==> Says(node, reqs[..n][i], text);
      }
    }
  }

  lemma {:induction false} ExpectedTexts(rule: Rule, list: seq<Node>, envs: map<string, Env>, nodes: map<string, Node>,
                                         n: string, text: string)
    requires Listed(list, nodes) && n in nodes
    ensures (exists row :: row in ExpectedRows(rule, list, envs) && row.nodeName == n
               && row.blockingCondition == text && row.ruleName == rule.name)
       <==> InList(list, n) && AppliesTo(rule, nodes[n]) && !ChangeFails(rule, nodes[n], EnvAt(envs, n))
            && exists i :: 0 <= i < |rule.spec.conditions| && Says(nodes[n], rule.spec.conditions[i], text)
  {
    hide ChangeFails, AppliesTo, UnmetRows, Met, Says;
    if list != [] {
      var front, node := list[..|list| - 1], list[|list| - 1];
      ExpectedTexts(rule, front, envs, nodes, n, text);
      EntryRows(rule, node);
      UnmetRowsSay(rule.name, node, rule.spec.conditions, text);
    }
  }

  function EntriesFor(rule: Rule, list: seq<Node>, envs: map<string, Env>): seq<NodeEvaluation> {
    if list == [] then []
    else
      var node := list[|list| - 1];
      EntriesFor(rule, list[..|list| - 1], envs)
        + if AppliesTo(rule, node) && !ChangeFails(rule, node, EnvAt(envs, node.name)) then [EntryFor(rule, node)] else []
  }

  lemma {:induction false} EntriesAreListed(rule: Rule, list: seq<Node>, envs: map<string, Env>, n: string)
    ensures Evaluated(EntriesFor(rule, list, envs), n) ==> InList(list, n)
  {
    if list != [] {
      EntriesAreListed(rule, list[..|list| - 1], envs, n);
      var front := EntriesFor(rule, list[..|list| - 1], envs);
      if Evaluated(EntriesFor(rule, list, envs), n) {
        var i :| 0 <= i < |EntriesFor(rule, list, envs)| && EntriesFor(rule, list, envs)[i].nodeName == n;
        assert i < |front| ==> front[i].nodeName == n;
      }
    }
  }

  lemma AppendEvaluation(s: seq<NodeEvaluation>, e: NodeEvaluation)
    requires !Evaluated(s, e.nodeName)
    ensures WithEvaluation(s, e) == s + [e]
  {
    PutAtPosition(s, e.nodeName, e, |s|);
  }

  /** From an empty status the pass writes one entry for each node it evaluates, in listing order. */
  lemma PassWritesEntries(w: World, rule: Rule, list: seq<Node>, envs: map<string, Env>)
    requires Listed(list, w.nodes) && rule.status.evaluations == []
    ensures LivePass(w, rule, list, envs).rule.status.evaluations == EntriesFor(rule, list, envs)
  {
    hide LivePass, EntriesFor;
    PassAppendsEntries(w, rule, list, envs);
  }

  lemma EntryIsForNode(rule: Rule, node: Node)
    ensures EntryFor(rule, node).nodeName == node.name
  {
  }

  lemma {:induction false} EntriesShowAsExpected(rule: Rule, list: seq<Node>, envs: map<string, Env>)
    ensures StatusRows(rule.name, EntriesFor(rule, list, envs)) == ExpectedRows(rule, list, envs)
  {
    hide ChangeFails, AppliesTo, EntryFor, EvaluationRows, UnmetRows;
    if list != [] {
      var front, node := list[..|list| - 1], list[|list| - 1];
      EntriesShowAsExpected(rule, front, envs);
      var entries := EntriesFor(rule, front, envs);
      EntryRows(rule, node);
      if EntriesFor(rule, list, envs) != entries {
        assert (entries + [EntryFor(rule, node)])[..|entries|] == entries;
      }
    }
  }

  /** The status after a live pass from an empty status shows as one row for each unmet requirement of each evaluated node. */
  lemma BlockersAreFaithful(w: World, rule: Rule, list: seq<Node>, envs: map<string, Env>)
    requires Snapshot(list, w.nodes) && rule.status.evaluations == [] && !rule.spec.dryRun
    ensures BlockerRows([Finished(LivePass(w, rule, list, envs))]) == ExpectedRows(rule, list, envs)
  {
    PassWritesEntries(w, rule, list, envs);
    EntriesShowAsExpected(rule, list, envs);
    var finished := Finished(LivePass(w, rule, list, envs));
    assert [finished][..0] == [];
  }

  lemma {:induction false} ExpectedNodes(rule: Rule, list: seq<Node>, envs: map<string, Env>, nodes: map<string, Node>, n: string)
    requires Listed(list, nodes) && n in nodes
    ensures (exists row :: row in ExpectedRows(rule, list, envs) && row.nodeName == n)
       <==> InList(list, n) && AppliesTo(rule, nodes[n]) && !ChangeFails(rule, nodes[n], EnvAt(envs, n))
            && !Met(rule.spec, nodes[n])
  {
    hide ChangeFails, AppliesTo, UnmetRows, Met;
    if list != [] {
      var front, node := list[..|list| - 1], list[|list| - 1];
      ExpectedNodes(rule, front, envs, nodes, n);
      EntryRows(rule, node);
      var mine := UnmetRows(rule.name, node, rule.spec.conditions);
      if mine != [] {
        assert mine[0] in mine && mine[0].nodeName == node.name;
      }
    }
  }

  /**
   * What the table says, word for word: after a live pass from an empty status there is a row with this text for a node
   * if and only if the rule selects it, its change was not refused, and the text names a requirement of the rule, first
   * the status that the node reports for it and then the other one that is required.
   */
  lemma TableSaysWhatIsReported(w: World, rule: Rule, list: seq<Node>, envs: map<string, Env>, n: string, text: string)
    requires Snapshot(list, w.nodes) && rule.status.evaluations == [] && !rule.spec.dryRun && n in w.nodes
    ensures (exists row :: row in BlockerRows([Finished(LivePass(w, rule, list, envs))])
               && row.nodeName == n && row.blockingCondition == text && row.ruleName == rule.name)
       <==> AppliesTo(rule, w.nodes[n]) && !ChangeFails(rule, w.nodes[n], EnvAt(envs, n))
            && exists i :: 0 <= i < |rule.spec.conditions| && Says(w.nodes[n], rule.spec.conditions[i], text)
  {
    hide BlockerRows, ExpectedRows, LivePass, Says, ChangeFails, AppliesTo;
    BlockersAreFaithful(w, rule, list, envs);
    ExpectedTexts(rule, list, envs, w.nodes, n, text);
  }

  /** After a pass without failures a selected node has a row exactly when the API server holds the taint on it. */
  lemma BlockedNodesAreTheTaintedOnes(w: World, rule: Rule, list: seq<Node>, envs: map<string, Env>, n: string)
    requires Snapshot(list, w.nodes) && rule.status.evaluations == [] && !rule.spec.dryRun
    requires NoTaintFailures(envs) && n in w.nodes
    ensures n in LivePass(w, rule, list, envs).world.nodes
    ensures var p := LivePass(w, rule, list, envs);
      (exists row :: row in BlockerRows([Finished(p)]) && row.nodeName == n)
        <==> AppliesTo(rule, w.nodes[n]) && HasTaint(p.world.nodes[n].taints, rule.spec.taint)
  {
    hide BlockerRows, ExpectedRows, LivePass, Met, HasTaint;
    BlockersAreFaithful(w, rule, list, envs);
    ExpectedNodes(rule, list, envs, w.nodes, n);
    LivePassNode(w, rule, list, envs, n);
    if AppliesTo(rule, w.nodes[n]) {
      AfterPassIsExact(rule, w.nodes[n], EnvAt(envs, n));
    }
  }

  lemma {:induction false} EntriesAreOfNodes(rule: Rule, list: seq<Node>, envs: map<string, Env>, nodes: map<string, Node>)
    requires Listed(list, nodes)
    ensures forall e :: e in EntriesFor(rule, list, envs) ==> e.nodeName in nodes.Keys
  {
    if list != [] {
      EntriesAreOfNodes(rule, list[..|list| - 1], envs, nodes);
      EntryIsForNode(rule, list[|list| - 1]);
    }
  }

  lemma {:induction false} ExpectedIgnoresStatus(rule: Rule, other: Rule, list: seq<Node>, envs: map<string, Env>)
    requires other.name == rule.name && other.spec == rule.spec
    ensures ExpectedRows(other, list, envs) == ExpectedRows(rule, list, envs)
  {
    if list != [] {
      ExpectedIgnoresStatus(rule, other, list[..|list| - 1], envs);
    }
  }

  /**
   * Through the whole reconcile, node by node and from any stored status: the interface shows of the stored rule one row
   * for each unmet requirement of a selected node whose change was not refused, of any other existing node what it
   * showed before, and nothing of nodes that are gone.
   */
  lemma ReconciledNodeShowsItsBlockers(w: World, name: string, a: Reconciler.Answers, n: string)
    requires Reconciler.LiveRule(w, name) && !w.rules[name].spec.dryRun && "" !in w.nodes
    requires Shaped(w.rules[name].status)
    requires Reconciler.Truthful(w, name, a) && Reconciler.Reconcile(w, name, a).1.Done?
    ensures name in Reconciler.Reconcile(w, name, a).0.rules
    ensures var rule := w.rules[name];
      Filter(BlockerRows([Reconciler.Reconcile(w, name, a).0.rules[name]]), ForNode(n)) ==
        if n !in w.nodes then []
        else if AppliesTo(rule, w.nodes[n]) && !ChangeFails(rule, w.nodes[n], EnvAt(a.passEnvs, n))
          then UnmetRows(name, w.nodes[n], rule.spec.conditions)
        else Filter(BlockerRows([rule]), ForNode(n))
  {
    hide Reconciler.Reconcile, Reconciler.Truthful, Reconciler.Prepared, Shaped, AppliesTo, NeedsChange, Evaluated,
         EvaluationOf, EvaluationRows, UnmetRows, EntryFor, StatusRows, Filter;
    var rule := w.rules[name];
    Reconciler.StoredEntriesExactly(w, name, a, n);
    ShapeIsKept(w, name, a);
    var stored := Reconciler.Reconcile(w, name, a).0.rules[name];
    TableOfOneRule(stored);
    TableOfOneRule(rule);
    UniqueWhenShaped(rule.status);
    RowsOfOneNode(name, stored.status.evaluations, n);
    RowsOfOneNode(name, rule.status.evaluations, n);
    if n in w.nodes {
      EntryRows(rule, w.nodes[n]);
    }
  }

  lemma UniqueWhenShaped(s: RuleStatus)
    requires Shaped(s)
    ensures UniqueEvaluations(s.evaluations)
  {
  }

  lemma ShapeIsKept(w: World, name: string, a: Reconciler.Answers)
    requires Reconciler.LiveRule(w, name) && !w.rules[name].spec.dryRun && "" !in w.nodes
    requires Shaped(w.rules[name].status)
    requires Reconciler.Truthful(w, name, a) && Reconciler.Reconcile(w, name, a).1.Done?
    ensures name in Reconciler.Reconcile(w, name, a).0.rules
    ensures var stored := Reconciler.Reconcile(w, name, a).0.rules[name];
      stored.name == name && stored.spec == w.rules[name].spec && UniqueEvaluations(stored.status.evaluations)
  {
    hide Reconciler.Reconcile, Reconciler.Prepared, Snapshot, LivePass, EvaluationsIn;
    var rule, c := w.rules[name], Reconciler.Prepared(w, w.rules[name], a);
    Reconciler.PreparedKeepsKeys(w, rule, a);
    Reconciler.DoneWasPrepared(w, name, a);
    Reconciler.StoredStatusExactly(w, name, a);
    SnapshotIsListed(a.passList, c.world.nodes);
    LivePassKeepsStatusKeyed(c.world, Reconciler.Passed(rule), a.passList, a.passEnvs);
    KeepExistingIsKeyed(LivePass(c.world, Reconciler.Passed(rule), a.passList, a.passEnvs).rule.status.evaluations, w.nodes.Keys);
  }

  /**
   * And as a whole: when the stored status holds no entries but of nodes that are gone, what the interface shows after
   * the reconcile is what the pass found on the nodes, in the order of the listing.
   */
  lemma ReconciledRuleShowsItsBlockers(w: World, name: string, a: Reconciler.Answers)
    requires Reconciler.LiveRule(w, name) && !w.rules[name].spec.dryRun
    requires forall n :: n in w.nodes ==> !Evaluated(w.rules[name].status.evaluations, n)
    requires Reconciler.Truthful(w, name, a) && Reconciler.Reconcile(w, name, a).1.Done?
    ensures name in Reconciler.Reconcile(w, name, a).0.rules
    ensures BlockerRows([Reconciler.Reconcile(w, name, a).0.rules[name]])
         == ExpectedRows(w.rules[name], a.passList, a.passEnvs)
  {
    hide LivePass, ExpectedRows, EntriesFor, EvaluationRows, Reconciler.Prepared, Snapshot, AppliesTo, Met, Evaluated,
         Reconciler.Reconcile, EvaluationsIn, StatusRows;
    var rule, c := w.rules[name], Reconciler.Prepared(w, w.rules[name], a);
    var live := Reconciler.Passed(rule);
    Reconciler.PreparedKeepsKeys(w, rule, a);
    Reconciler.DoneWasPrepared(w, name, a);
    Reconciler.StoredStatusExactly(w, name, a);
    SnapshotIsListed(a.passList, c.world.nodes);
    PassAppendsEntries(c.world, live, a.passList, a.passEnvs);
    EntriesShowAsExpected(live, a.passList, a.passEnvs);
    ExpectedIgnoresStatus(rule, live, a.passList, a.passEnvs);
    DeadEntriesGo(rule.status.evaluations, live, a.passList, a.passEnvs, c.world.nodes);
    TableOfOneRule(Reconciler.Reconcile(w, name, a).0.rules[name]);
  }

  /** Of the entries of nodes that are gone and those of a pass, the cleanup keeps those of the pass. */
  lemma DeadEntriesGo(dead: seq<NodeEvaluation>, rule: Rule, list: seq<Node>, envs: map<string, Env>, nodes: map<string, Node>)
    requires Listed(list, nodes) && forall n :: n in nodes ==> !Evaluated(dead, n)
    ensures EvaluationsIn(dead + EntriesFor(rule, list, envs), nodes.Keys) == EntriesFor(rule, list, envs)
  {
    hide EntriesFor;
    var kept := (e: NodeEvaluation) => e.nodeName in nodes.Keys;
    EntriesAreOfNodes(rule, list, envs, nodes);
    FilterSum(dead, EntriesFor(rule, list, envs), kept);
    forall e | e in dead ensures !kept(e) {
      Reconciler.EvaluatedByMember(dead, e.nodeName);
    }
    FilterAll(dead, kept);
    FilterAll(EntriesFor(rule, list, envs), kept);
  }

  /** A pass over nodes without entries appends theirs, in listing order. */
  lemma {:induction false} PassAppendsEntries(w: World, rule: Rule, list: seq<Node>, envs: map<string, Env>)
    requires Listed(list, w.nodes) && forall n :: n in w.nodes ==> !Evaluated(rule.status.evaluations, n)
    ensures LivePass(w, rule, list, envs).rule.status.evaluations == rule.status.evaluations + EntriesFor(rule, list, envs)
  {
    hide Process, ChangeFails, AppliesTo, EntryFor, WithEvaluation, WithFailure, AfterPass, Evaluated;
    if list != [] {
      var front, node := list[..|list| - 1], list[|list| - 1];
      PassAppendsEntries(w, rule, front, envs);
      LivePassNode(w, rule, front, envs, node.name);
      var p, env := LivePass(w, rule, front, envs), EnvAt(envs, node.name);
      AfterPassDependsOnSpec(rule, p.rule, node, env);
      if AppliesTo(rule, node) {
        ProcessStored(p.world, p.rule, node, env);
        EntriesAreListed(rule, front, envs, node.name);
        EntryIsForNode(p.rule, node);
        NotEvaluatedSum(rule.status.evaluations, EntriesFor(rule, front, envs), node.name);
        AppendEvaluation(p.rule.status.evaluations, EntryFor(p.rule, node));
      }
    }
  }

  lemma NotEvaluatedSum(a: seq<NodeEvaluation>, b: seq<NodeEvaluation>, n: string)
    requires !Evaluated(a, n) && !Evaluated(b, n)
    ensures !Evaluated(a + b, n)
  {
    forall i | 0 <= i < |a + b| ensures (a + b)[i].nodeName != n {
      assert i >= |a| ==> b[i - |a|].nodeName != n;
    }
  }

  lemma SnapshotIsListed(list: seq<Node>, nodes: map<string, Node>)
    requires Snapshot(list, nodes)
    ensures Listed(list, nodes)
  {
  }

  predicate ShowsNoMismatch(rows: seq<Row>) {
    exists i :: 0 <= i < |rows| && rows[i].id == RowPrefix(rows[i].ruleName, rows[i].nodeName) + "no-mismatch"
  }

  lemma NoMismatchRow(ruleName: string, e: NodeEvaluation)
    ensures ShowsNoMismatch(EvaluationRows(ruleName, e)) <==> e.taintStatus == Present && Mismatches(e.results) == []
  {
    var rows, m := EvaluationRows(ruleName, e), Mismatches(e.results);
    var prefix := RowPrefix(ruleName, e.nodeName);
    if e.taintStatus == Present && m == [] {
      assert rows[0].id == prefix + "no-mismatch";
    } else {
      forall i | 0 <= i < |rows| ensures rows[i].id != prefix + "no-mismatch" {
        assert rows[i].id[|prefix|] == 'c' && (prefix + "no-mismatch")[|prefix|] == 'n';
      }
    }
  }

  /**
   * The row without a failing condition appears for an evaluation exactly when the conditions were met on a copy of
   * the node that still had the taint while the API server did not: the early return of the removal keeps the old copy.
   */
  lemma NoMismatchMeansStaleCopy(w: World, rule: Rule, node: Node, env: Env)
    requires WellKeyed(w.nodes) && node.name in w.nodes && !Evaluate(w, rule, node, env).failed
    ensures var e := EvaluationOf(Evaluate(w, rule, node, env).rule.status.evaluations, node.name);
      ShowsNoMismatch(EvaluationRows(rule.name, e)) <==>
        && Met(rule.spec, node) && HasTaint(node.taints, rule.spec.taint)
        && !HasTaint(w.nodes[node.name].taints, rule.spec.taint)
  {
    hide EvaluationRows, Mismatches, Met, HasTaint, Act, ShowsNoMismatch, WithEvaluation, EvaluationOf;
    var t, o := rule.spec.taint, Evaluate(w, rule, node, env);
    var latest := Act(w, rule, node, env).1;
    var e := NodeEvaluation(latest.name, ResultsOf(rule.spec.conditions, node.conditions), Observed(latest.taints, t));
    RefreshedCopy(w, rule, node, env);
    WithEvaluationIsKeyed(rule.status.evaluations, e);
    NoMismatchRow(rule.name, e);
    MismatchesOfResults(rule.name, node, rule.spec.conditions);
    MetIsAllMet(rule.spec, node);
  }

  lemma MetIsAllMet(spec: RuleSpec, node: Node)
    ensures Met(spec, node) <==> AllMet(spec.conditions, node.conditions)
  {
  }

  /** The taint on the refreshed copy, which is the evaluated one unless a patch was made. */
  lemma RefreshedCopy(w: World, rule: Rule, node: Node, env: Env)
    requires WellKeyed(w.nodes) && node.name in w.nodes
    ensures var latest, t, stored := Act(w, rule, node, env).1, rule.spec.taint, w.nodes[node.name];
      && latest.name == node.name
      && (HasTaint(latest.taints, t) <==>
            if Met(rule.spec, node) then HasTaint(node.taints, t) && !HasTaint(stored.taints, t)
            else HasTaint(node.taints, t) || !HasTaint(stored.taints, t))
  {
    hide Met;
    var t, stored := rule.spec.taint, w.nodes[node.name];
    RemoveTaintPresence(stored.taints, t, t);
    AddTaintPresence(stored.taints, t, t);
  }
}
