// Stripping generated hash suffixes from resource names, and choosing the newest event of each workload.
module HashSuffix {
  import opened Common

  // -------------------------------------------------------------- suffixes

  predicate IsDigit(c: char) {
    '0' <= c <= '9'
  }

  predicate IsLowerAlnum(c: char) {
    'a' <= c <= 'z' || IsDigit(c)
  }

  /** The characters a dot of a regular expression does not match. */
  predicate IsLineTerminator(c: char) {
    c == '\n' || c == '\r' || c == '\U{2028}' || c == '\U{2029}'
  }

  predicate IsLine(s: string) {
    forall i :: 0 <= i < |s| ==> !IsLineTerminator(s[i])
  }

  predicate IsSegment(s: string) {
    4 <= |s| <= 10 && forall i :: 0 <= i < |s| ==> IsLowerAlnum(s[i])
  }

  predicate HasDigit(s: string) {
    exists i :: 0 <= i < |s| && IsDigit(s[i])
  }

  /** A generated hash: four to ten lower-case alphanumerics, at least one of them a digit. */
  predicate HashLike(s: string) {
    IsSegment(s) && HasDigit(s)
  }

  /** The string splits at position p into a non-empty line, a dash and a segment. */
  predicate SplitsAt(s: string, p: nat) {
    p < |s| && 0 < p && s[p] == '-' && IsLine(s[..p]) && IsSegment(s[p + 1..])
  }

  predicate StripsAt(s: string, p: nat) {
    SplitsAt(s, p) && HasDigit(s[p + 1..])
  }

  ghost predicate Strippable(s: string) {
    exists p: nat :: StripsAt(s, p)
  }

  lemma SegmentHasNoDash(s: string, p: nat)
    requires p < |s| && IsSegment(s[p + 1..])
    ensures forall q :: p < q < |s| ==> s[q] != '-'
  {
    forall q | p < q < |s| ensures s[q] != '-' {
      assert s[q] == s[p + 1..][q - p - 1];
    }
  }

  /** A string splits in at most one place: a segment has no dash. */
  lemma SplitIsUnique(s: string, p: nat, q: nat)
    requires SplitsAt(s, p) && SplitsAt(s, q)
    ensures p == q
  {
    SegmentHasNoDash(s, p);
    SegmentHasNoDash(s, q);
  }

  /** The match of the regular expression, as the place where the string splits. */
  method Match(s: string) returns (p: Option<nat>)
    ensures p.Some? ==> SplitsAt(s, p.value)
    ensures p.None? ==> forall q: nat :: !SplitsAt(s, q)
  {
    var k := |s|;
    while k > 0
      invariant 0 <= k <= |s|
      invariant forall i :: k <= i < |s| ==> s[i] != '-'
    {
      k := k - 1;
      if s[k] == '-' {
        break;
      }
    }
    forall q: nat | SplitsAt(s, q) ensures q == k {
      SegmentHasNoDash(s, q);
    }
    return if k < |s| && SplitsAt(s, k) then Some(k) else None;
  }

  /** Strip suffixes for as long as there is one. */
  ghost function Strip(name: string): string
    decreases |name|
  {
    if Strippable(name) then Strip(name[..SuffixPlace(name)]) else name
  }

  ghost function SuffixPlace(name: string): (p: nat)
    requires Strippable(name)
    ensures StripsAt(name, p)
  {
    var p: nat :| StripsAt(name, p);
    p
  }

  method StripHashSuffixes(name: string) returns (stripped: string)
    ensures stripped == Strip(name)
    ensures !Strippable(stripped) && stripped <= name
  {
    StripEnds(name);
    stripped := name;
    while true
      invariant Strip(stripped) == Strip(name)
      decreases |stripped|
    {
      var p := Match(stripped);
      if p.Some? && HasDigit(stripped[p.value + 1..]) {
        StripStep(stripped, p.value);
        stripped := stripped[..p.value];
      } else {
        forall q: nat ensures !StripsAt(stripped, q) {
          if StripsAt(stripped, q) {
            SplitIsUnique(stripped, p.value, q);
          }
        }
        break;
      }
    }
  }

  lemma StripStep(name: string, p: nat)
    requires StripsAt(name, p)
    ensures Strip(name) == Strip(name[..p])
  {
    SplitIsUnique(name, p, SuffixPlace(name));
  }

  /** Stripping ends in a name that has no suffix left; it keeps a prefix, and never strips everything. */
  lemma {:induction false} StripEnds(name: string)
    ensures !Strippable(Strip(name)) && Strip(name) <= name
    ensures name != "" ==> Strip(name) != ""
    decreases |name|
  {
    if Strippable(name) {
      var p: nat :| StripsAt(name, p);
      StripStep(name, p);
      StripEnds(name[..p]);
    }
  }

  lemma StripIsIdempotent(name: string)
    ensures Strip(Strip(name)) == Strip(name)
  {
    StripEnds(name);
  }

  /** A hash-like suffix makes no difference to a non-empty base on one line. */
  lemma SuffixIsStripped(base: string, hash: string)
    requires base != "" && IsLine(base) && HashLike(hash)
    ensures Strip(base + "-" + hash) == Strip(base)
  {
    var name := base + "-" + hash;
    assert name[..|base|] == base && name[|base| + 1..] == hash;
    assert StripsAt(name, |base|);
    StripStep(name, |base|);
  }

  /** A Deployment, its ReplicaSets and their Pods have one key. */
  lemma HierarchyHasOneKey(base: string, h1: string, h2: string)
    requires base != "" && IsLine(base) && HashLike(h1) && HashLike(h2)
    ensures Strip(base + "-" + h1 + "-" + h2) == Strip(base + "-" + h1) == Strip(base)
  {
    SuffixIsStripped(base, h1);
    SuffixIsStripped(base + "-" + h1, h2);
  }

  /** A purely alphabetic last part is kept, whatever its length. */
  lemma AlphabeticPartIsKept(base: string, part: string)
    requires forall i :: 0 <= i < |part| ==> part[i] != '-' && !IsDigit(part[i])
    ensures Strip(base + "-" + part) == base + "-" + part
  {
    var name := base + "-" + part;
    forall p: nat | SplitsAt(name, p) ensures !HasDigit(name[p + 1..]) {
      SegmentHasNoDash(name, p);
      assert name[|base|] == '-' && name[|base| + 1..] == part;
      assert name[p + 1..] == part[p - |base|..];
    }
  }

  /**
   * Which last parts are stripped, letter by letter: those of four to ten characters, all of them lower-case letters or
   * digits and one of them a digit, behind a dash and something before it on one line. Any other stays.
   */
  lemma LastPartIsStrippedExactly(base: string, part: string)
    requires NoneOf(part, '-')
    ensures var name := base + "-" + part;
      Strip(name) ==
        if && 4 <= |part| <= 10
           && (forall i :: 0 <= i < |part| ==> 'a' <= part[i] <= 'z' || '0' <= part[i] <= '9')
           && (exists i :: 0 <= i < |part| && '0' <= part[i] <= '9')
           && base != ""
           && NoneOf(base, '\n') && NoneOf(base, '\r') && NoneOf(base, '\U{2028}') && NoneOf(base, '\U{2029}')
        then Strip(base) else name
  {
    var name := base + "-" + part;
    assert name[..|base|] == base && name[|base| + 1..] == part && name[|base|] == '-';
    assert IsLine(base) <==> NoneOf(base, '\n') && NoneOf(base, '\r') && NoneOf(base, '\U{2028}') && NoneOf(base, '\U{2029}');
    assert forall q :: |base| < q < |name| ==> name[q] == part[q - |base| - 1];
    forall p: nat | StripsAt(name, p) ensures p == |base| {
      SegmentHasNoDash(name, p);
    }
    if StripsAt(name, |base|) {
      StripStep(name, |base|);
    }
  }

  /** A name without a dash has nothing to strip. */
  lemma UndashedNameIsKept(name: string)
    requires NoneOf(name, '-')
    ensures Strip(name) == name
  {
  }

  // ----------------------------------------------------------------- events

  /** One event object; the empty string and time zero stand for an absent field. */
  datatype EventData = EventData(uid: string, name: string, namespace: string, etype: string,
                                 reason: string, message: string,
                                 objectKind: string, objectName: string, objectNamespace: string,
                                 lastTimestamp: nat, creationTimestamp: nat)

  /** An event as fetched: wrapped in jsonData, or bare. */
  datatype RawEvent = RawEvent(jsonData: Option<EventData>, own: EventData)

  datatype EventDigest = EventDigest(uid: string, name: string, etype: string, reason: string, message: string,
                                     objectKind: string, objectName: string, objectNamespace: string,
                                     lastTimestamp: nat, rawEvent: EventData)

  function Or(a: string, b: string): string {
    if a != "" then a else b
  }

  function Data(e: RawEvent): EventData {
    if e.jsonData.Some? then e.jsonData.value else e.own
  }

  function TypeOf(e: RawEvent): string {
    Or(Data(e).etype, e.own.etype)
  }

  function TimeOf(e: RawEvent): nat {
    if Data(e).lastTimestamp != 0 then Data(e).lastTimestamp else e.own.lastTimestamp
  }

  predicate IsProblem(e: RawEvent) {
    TypeOf(e) == "Warning" || TypeOf(e) == "Error"
  }

  ghost function WorkloadKey(namespace: string, name: string): string {
    Or(namespace, "_") + "/" + Strip(name)
  }

  ghost function KeyOf(e: RawEvent): string {
    WorkloadKey(Data(e).objectNamespace, Data(e).objectName)
  }

  ghost function ResourceKey(d: EventDigest): string {
    WorkloadKey(d.objectNamespace, d.objectName)
  }

  function Digest(e: RawEvent): (d: EventDigest)
    ensures ResourceKey(d) == KeyOf(e)
  {
    var data := Data(e);
    EventDigest(
      Or(data.uid, Or(data.name, "undefined") + "-" + Or(data.namespace, "undefined")),
      Or(data.name, "unknown"), Or(data.etype, "Warning"), data.reason, data.message,
      data.objectKind, data.objectName, data.objectNamespace,
      if data.lastTimestamp != 0 then data.lastTimestamp else data.creationTimestamp, data)
  }

  /** For namespaces without a slash two workloads share a key exactly when names strip alike and namespaces agree. */
  lemma WorkloadKeysExactly(a: EventDigest, b: EventDigest)
    requires NoneOf(a.objectNamespace, '/') && NoneOf(b.objectNamespace, '/')
    ensures ResourceKey(a) == ResourceKey(b) <==>
      && Strip(a.objectName) == Strip(b.objectName)
      && (if a.objectNamespace == "" then "_" else a.objectNamespace)
           == (if b.objectNamespace == "" then "_" else b.objectNamespace)
  {
    hide Strip;
    var x, y := Or(a.objectNamespace, "_"), Or(b.objectNamespace, "_");
    var k, l := ResourceKey(a), ResourceKey(b);
    if k == l {
      assert x + ['/'] <= k && y + ['/'] <= l;
      CutAtFirst(x, y, '/', k);
      assert k[|x| + 1..] == Strip(a.objectName) && l[|y| + 1..] == Strip(b.objectName);
    }
  }

  /** A field of an event: that of the wrapped data when there is one, or else the event's own. */
  predicate TypedAs(e: RawEvent, etype: string) {
    match e.jsonData
    case Some(data) => if data.etype != "" then data.etype == etype else e.own.etype == etype
    case None => e.own.etype == etype
  }

  predicate TimedAt(e: RawEvent, time: nat) {
    match e.jsonData
    case Some(data) => if data.lastTimestamp != 0 then data.lastTimestamp == time else e.own.lastTimestamp == time
    case None => e.own.lastTimestamp == time
  }

  /** Problems are the events of type Warning or Error, and their time is the one they were last seen at. */
  lemma ProblemsExactly(e: RawEvent, time: nat)
    ensures IsProblem(e) <==> TypedAs(e, "Warning") || TypedAs(e, "Error")
    ensures TimeOf(e) == time <==> TimedAt(e, time)
  {
  }

  /** What a digest says of the event it was made from, field by field, absent fields included. */
  ghost predicate DigestOf(d: EventDigest, e: RawEvent) {
    var data := match e.jsonData case Some(wrapped) => wrapped case None => e.own;
    && (data.uid != "" ==> d.uid == data.uid)
    && (data.uid == "" && data.name != "" && data.namespace != "" ==> d.uid == data.name + "-" + data.namespace)
    && (data.uid == "" && data.name != "" && data.namespace == "" ==> d.uid == data.name + "-undefined")
    && (data.uid == "" && data.name == "" && data.namespace != "" ==> d.uid == "undefined-" + data.namespace)
    && (data.uid == "" && data.name == "" && data.namespace == "" ==> d.uid == "undefined-undefined")
    && d.name == (if data.name == "" then "unknown" else data.name)
    && d.etype == (if data.etype == "" then "Warning" else data.etype)
    && d.reason == data.reason && d.message == data.message
    && d.objectKind == data.objectKind && d.objectName == data.objectName && d.objectNamespace == data.objectNamespace
    && d.lastTimestamp == (if data.lastTimestamp == 0 then data.creationTimestamp else data.lastTimestamp)
    && d.rawEvent == data
  }

  lemma DigestSays(e: RawEvent)
    ensures DigestOf(Digest(e), e)
  {
    assert "undefined" + "-" + "undefined" == "undefined-undefined";
    var data := Data(e);
    assert data.name + "-" + "undefined" == data.name + "-undefined";
    assert "undefined" + "-" + data.namespace == "undefined-" + data.namespace;
  }

  // ---------------------------------------------------------------- sorting

  predicate NewestFirst(s: seq<RawEvent>) {
    forall i, j :: 0 <= i < j < |s| ==> TimeOf(s[i]) >= TimeOf(s[j])
  }

  function Recency(): RawEvent -> int {
    (e: RawEvent) => var time: int := TimeOf(e); -time
  }

  function SortedByTime(s: seq<RawEvent>): seq<RawEvent> {
    SortedBy(s, Recency())
  }

  lemma SortedIsNewestFirst(s: seq<RawEvent>)
    ensures NewestFirst(SortedByTime(s)) && multiset(SortedByTime(s)) == multiset(s)
  {
    hide TimeOf;
    SortPermutes(s, Recency());
    var r := SortedByTime(s);
    forall i, j | 0 <= i < j < |r| ensures TimeOf(r[i]) >= TimeOf(r[j]) {
      assert Recency()(r[i]) <= Recency()(r[j]);
    }
  }

  /** Events of one time stay in the order they were fetched in. */
  lemma EqualTimesKeepTheirOrder(s: seq<RawEvent>, t: nat)
    ensures Filter(SortedByTime(s), AtTime(t)) == Filter(s, AtTime(t))
  {
    hide TimeOf;
    var rank: int := t;
    SortIsStable(s, Recency(), -rank);
    FilterAgrees(s, AtTime(t), AtRank(Recency(), -rank));
    FilterAgrees(SortedByTime(s), AtTime(t), AtRank(Recency(), -rank));
  }

  function AtTime(t: nat): RawEvent -> bool {
    (e: RawEvent) => TimeOf(e) == t
  }

  // ------------------------------------------------------------ top events

  ghost function Keys(s: seq<RawEvent>): set<string> {
    set i | 0 <= i < |s| :: KeyOf(s[i])
  }

  /** The first event of each workload. */
  ghost function Deduped(s: seq<RawEvent>): seq<RawEvent> {
    if s == [] then []
    else
      var d, last := Deduped(s[..|s| - 1]), s[|s| - 1];
      if KeyOf(last) in Keys(d) then d else d + [last]
  }

  ghost function Top(events: seq<RawEvent>, limit: nat): seq<RawEvent> {
    var d := Deduped(SortedByTime(Filter(events, IsProblem)));
    if |d| <= limit then d else d[..limit]
  }

  function Digests(s: seq<RawEvent>): (d: seq<EventDigest>)
    ensures |d| == |s| && forall i :: 0 <= i < |s| ==> d[i] == Digest(s[i])
  {
    seq(|s|, i requires 0 <= i < |s| => Digest(s[i]))
  }

  ghost predicate DistinctKeys(s: seq<RawEvent>) {
    forall i, j :: 0 <= i < j < |s| ==> KeyOf(s[i]) != KeyOf(s[j])
  }

  /** Event e is represented: an event of its workload that is at least as new is in the list. */
  ghost predicate Represented(s: seq<RawEvent>, e: RawEvent) {
    exists i :: 0 <= i < |s| && KeyOf(s[i]) == KeyOf(e) && TimeOf(s[i]) >= TimeOf(e)
  }

  lemma AppendedIsDistinct(d: seq<RawEvent>, last: RawEvent)
    requires DistinctKeys(d) && NewestFirst(d) && KeyOf(last) !in Keys(d)
    requires forall i :: 0 <= i < |d| ==> TimeOf(d[i]) >= TimeOf(last)
    ensures DistinctKeys(d + [last]) && NewestFirst(d + [last])
  {
    hide TimeOf, KeyOf;
  }

  lemma {:induction false} DedupedIsDistinct(s: seq<RawEvent>)
    requires NewestFirst(s)
    ensures DistinctKeys(Deduped(s)) && NewestFirst(Deduped(s))
    ensures forall i :: 0 <= i < |Deduped(s)| ==> Deduped(s)[i] in s
  {
    hide TimeOf, KeyOf, Keys, DistinctKeys;
    if s == [] {
      NothingIsDistinct();
    } else {
      var front, last := s[..|s| - 1], s[|s| - 1];
      DedupedIsDistinct(front);
      assert s == front + [last];
      LastIsOldest(s);
      if KeyOf(last) !in Keys(Deduped(front)) {
        AppendedIsDistinct(Deduped(front), last);
      }
    }
  }

  lemma NothingIsDistinct()
    ensures DistinctKeys([])
  {
  }

  lemma LastIsOldest(s: seq<RawEvent>)
    requires s != [] && NewestFirst(s)
    ensures forall x :: x in s ==> TimeOf(x) >= TimeOf(s[|s| - 1])
  {
    hide TimeOf;
    forall x | x in s ensures TimeOf(x) >= TimeOf(s[|s| - 1]) {
      var k :| 0 <= k < |s| && s[k] == x;
    }
  }

  lemma RepresentedInLonger(d: seq<RawEvent>, r: seq<RawEvent>, e: RawEvent)
    requires Represented(d, e) && d <= r
    ensures Represented(r, e)
  {
    hide TimeOf, KeyOf;
    var i :| 0 <= i < |d| && KeyOf(d[i]) == KeyOf(e) && TimeOf(d[i]) >= TimeOf(e);
    assert KeyOf(r[i]) == KeyOf(e);
  }

  lemma {:induction false} DedupedRepresents(s: seq<RawEvent>, e: RawEvent)
    requires NewestFirst(s) && e in s
    ensures Represented(Deduped(s), e)
  {
    hide TimeOf, KeyOf, Represented;
    var front, last, d := s[..|s| - 1], s[|s| - 1], Deduped(s[..|s| - 1]);
    assert s == front + [last];
    if e in front {
      DedupedRepresents(front, e);
      RepresentedInLonger(d, Deduped(s), e);
    } else {
      DedupedIsDistinct(front);
      LastIsOldest(s);
      LastIsRepresented(s, d, last);
    }
  }

  lemma LastIsRepresented(s: seq<RawEvent>, d: seq<RawEvent>, last: RawEvent)
    requires forall x :: x in s ==> TimeOf(x) >= TimeOf(last)
    requires forall i :: 0 <= i < |d| ==> d[i] in s
    ensures Represented(if KeyOf(last) in Keys(d) then d else d + [last], last)
  {
    hide TimeOf, KeyOf;
    if KeyOf(last) in Keys(d) {
      var i :| 0 <= i < |d| && KeyOf(d[i]) == KeyOf(last);
      assert TimeOf(d[i]) >= TimeOf(last);
    } else {
      assert KeyOf((d + [last])[|d|]) == KeyOf(last);
    }
  }

  lemma SortedProblems(events: seq<RawEvent>)
    ensures var sorted := SortedByTime(Filter(events, IsProblem));
      NewestFirst(sorted) && forall e :: e in sorted <==> e in events && IsProblem(e)
  {
    hide TimeOf, SortedByTime, IsProblem;
    var problems := Filter(events, IsProblem);
    FilterMembers(events, IsProblem);
    SortedIsNewestFirst(problems);
    forall e ensures e in SortedByTime(problems) <==> e in problems {
      assert e in SortedByTime(problems) <==> e in multiset(SortedByTime(problems));
    }
  }

  /**
   * At most limit events, one for each workload, newest first. Every Warning or Error event is represented by one of
   * its workload that is at least as new, or the list is full of other workloads' events that are at least as new.
   */
  lemma TopKeepsTheNewest(events: seq<RawEvent>, limit: nat)
    ensures |Top(events, limit)| <= limit && DistinctKeys(Top(events, limit)) && NewestFirst(Top(events, limit))
    ensures forall e :: e in Top(events, limit) ==> e in events && IsProblem(e)
    ensures forall e :: e in events && IsProblem(e) ==>
      || Represented(Top(events, limit), e)
      || (|Top(events, limit)| == limit && forall d :: d in Top(events, limit) ==> TimeOf(d) >= TimeOf(e))
  {
    hide TimeOf, KeyOf, IsProblem, SortedByTime, Deduped;
    var sorted, top := SortedByTime(Filter(events, IsProblem)), Top(events, limit);
    var d := Deduped(sorted);
    SortedProblems(events);
    DedupedIsDistinct(sorted);
    assert forall i :: 0 <= i < |top| ==> top[i] == d[i];
    forall e | e in events && IsProblem(e)
      ensures Represented(top, e) || (|top| == limit && forall x :: x in top ==> TimeOf(x) >= TimeOf(e))
    {
      DedupedRepresents(sorted, e);
      var i :| 0 <= i < |d| && KeyOf(d[i]) == KeyOf(e) && TimeOf(d[i]) >= TimeOf(e);
      if i < |top| {
        assert KeyOf(top[i]) == KeyOf(e);
      } else {
        forall x | x in top ensures TimeOf(x) >= TimeOf(e) {
          var j :| 0 <= j < |top| && top[j] == x;
          assert d[j] == x;
        }
      }
    }
  }

  lemma TopDigestsAreDistinct(events: seq<RawEvent>, limit: nat)
    ensures var top := Digests(Top(events, limit));
      |top| <= limit && forall i, j :: 0 <= i < j < |top| ==> ResourceKey(top[i]) != ResourceKey(top[j])
  {
    hide Top, KeyOf, ResourceKey, Digest;
    TopKeepsTheNewest(events, limit);
  }

  /** Every extracted digest is that of a Warning or Error event of the list. */
  lemma DigestsAreOfProblems(events: seq<RawEvent>, limit: nat, i: nat) returns (e: RawEvent)
    requires i < |Digests(Top(events, limit))|
    ensures e in events && (TypedAs(e, "Warning") || TypedAs(e, "Error")) && DigestOf(Digests(Top(events, limit))[i], e)
  {
    hide Top, IsProblem, Digest, DigestOf, TypedAs;
    e := Top(events, limit)[i];
    TopKeepsTheNewest(events, limit);
    ProblemsExactly(e, 0);
    DigestSays(e);
  }

  /** Filter, sort, deduplicate through a set of seen keys, cut, and digest. */
  method ExtractTopEvents(events: seq<RawEvent>, limit: nat) returns (top: seq<EventDigest>)
    ensures top == Digests(Top(events, limit))
    ensures |top| <= limit && forall i, j :: 0 <= i < j < |top| ==> ResourceKey(top[i]) != ResourceKey(top[j])
  {
    TopDigestsAreDistinct(events, limit);
    var sorted := SortedByTime(Filter(events, IsProblem));
    var seen: set<string> := {};
    var deduped: seq<RawEvent> := [];
    for i := 0 to |sorted|
      invariant deduped == Deduped(sorted[..i]) && seen == Keys(deduped)
    {
      assert sorted[..i + 1][..i] == sorted[..i];
      var data := Data(sorted[i]);
      var baseName := StripHashSuffixes(data.objectName);
      var key := (if data.objectNamespace != "" then data.objectNamespace else "_") + "/" + baseName;
      if key !in seen {
        seen := seen + {key};
        KeysGrow(deduped, sorted[i]);
        deduped := deduped + [sorted[i]];
      }
    }
    assert sorted[..|sorted|] == sorted;
    top := Digests(if |deduped| <= limit then deduped else deduped[..limit]);
  }

  lemma KeysGrow(s: seq<RawEvent>, e: RawEvent)
    ensures Keys(s + [e]) == Keys(s) + {KeyOf(e)}
  {
    var t := s + [e];
    forall k ensures k in Keys(t) <==> k in Keys(s) || k == KeyOf(e) {
      if k in Keys(s) {
        var i :| 0 <= i < |s| && KeyOf(s[i]) == k;
        assert KeyOf(t[i]) == k;
      }
      assert KeyOf(t[|s|]) == KeyOf(e);
    }
  }
}
