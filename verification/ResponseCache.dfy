// The response cache of the assistant: an insertion-ordered map that is cleaned at every fifth size.
module ResponseCache {
  import opened Common

  const CACHE_TTL_MS := 600_000
  const MAX_CACHE_SIZE := 30

  datatype Entry = Entry(key: string, response: string, timestamp: int)

  predicate DistinctKeys(s: seq<Entry>) {
    forall i, j :: 0 <= i < j < |s| ==> s[i].key != s[j].key
  }

  function KeyedOutside(keys: seq<string>): Entry -> bool {
    (e: Entry) => e.key !in keys
  }

  function Age(): Entry -> int {
    (e: Entry) => e.timestamp
  }

  function AliveAt(now: int): Entry -> bool {
    (e: Entry) => now - e.timestamp <= CACHE_TTL_MS
  }

  function Keys(s: seq<Entry>): seq<string> {
    seq(|s|, i requires 0 <= i < |s| => s[i].key)
  }

  // -------------------------------------------------------------- operations

  predicate Cached(s: seq<Entry>, key: string) {
    exists i :: 0 <= i < |s| && s[i].key == key
  }

  /** Setting a key keeps its place, or appends it. */
  function Set(s: seq<Entry>, e: Entry): seq<Entry> {
    if Cached(s, e.key) then seq(|s|, i requires 0 <= i < |s| => if s[i].key == e.key then e else s[i])
    else s + [e]
  }

  /** The entries evicted for size: as many of the oldest as there are too many. */
  function Evicted(live: seq<Entry>): seq<Entry> {
    if |live| <= MAX_CACHE_SIZE then []
    else SortedLength(live); SortedBy(live, Age())[..|live| - MAX_CACHE_SIZE]
  }

  lemma SortedLength(s: seq<Entry>)
    ensures |SortedBy(s, Age())| == |s|
  {
    SortPermutes(s, Age());
    assert |multiset(s)| == |s| && |multiset(SortedBy(s, Age()))| == |SortedBy(s, Age())|;
  }

  function Live(s: seq<Entry>, now: int): seq<Entry> {
    Filter(s, AliveAt(now))
  }

  function Cleaned(s: seq<Entry>, now: int): seq<Entry> {
    var live := Live(s, now);
    Filter(live, KeyedOutside(Keys(Evicted(live))))
  }

  /** One insertion: the response is stored, and the cache is cleaned if its size is a multiple of five. */
  function Inserted(s: seq<Entry>, e: Entry, now: int): seq<Entry> {
    var stored := Set(s, e);
    if |stored| % 5 == 0 then Cleaned(stored, now) else stored
  }

  // ---------------------------------------------------------------- the cache

  class Cache {
    var responseCache: seq<Entry>

    ghost predicate Valid()
      reads this
    {
      DistinctKeys(responseCache)
    }

    constructor ()
      ensures Valid() && responseCache == []
    {
      responseCache := [];
    }

    method Put(e: Entry)
      requires Valid()
      modifies this
      ensures Valid() && responseCache == Set(old(responseCache), e)
    {
      SetKeepsDistinct(responseCache, e);
      var i := 0;
      while i < |responseCache|
        invariant 0 <= i <= |responseCache|
        invariant responseCache == old(responseCache)
        invariant forall j :: 0 <= j < i ==> responseCache[j].key != e.key
      {
        if responseCache[i].key == e.key {
          responseCache := responseCache[i := e];
          return;
        }
        i := i + 1;
      }
      responseCache := responseCache + [e];
    }

    /** Delete the given keys one by one. */
    method DeleteAll(keys: seq<string>)
      requires Valid()
      modifies this
      ensures Valid() && responseCache == Filter(old(responseCache), KeyedOutside(keys))
    {
      FilterAll(responseCache, KeyedOutside([]));
      for i := 0 to |keys|
        invariant responseCache == Filter(old(responseCache), KeyedOutside(keys[..i]))
      {
        OneMoreDeleted(old(responseCache), keys, i);
        responseCache := Filter(responseCache, KeyedOutside([keys[i]]));
      }
      assert keys[..|keys|] == keys;
      FilterKeepsDistinct(old(responseCache), KeyedOutside(keys));
    }

    method DeleteExpired(now: int)
      requires Valid()
      modifies this
      ensures Valid() && responseCache == Live(old(responseCache), now)
    {
      hide Filter;
      var expiredKeys: seq<string> := [];
      for i := 0 to |responseCache|
        invariant responseCache == old(responseCache)
        invariant forall j :: 0 <= j < i ==> (responseCache[j].key in expiredKeys <==> !AliveAt(now)(responseCache[j]))
        invariant forall k :: k in expiredKeys ==> exists j :: 0 <= j < i && responseCache[j].key == k
      {
        var e := responseCache[i];
        if now - e.timestamp > CACHE_TTL_MS {
          expiredKeys := expiredKeys + [e.key];
          assert responseCache[i].key == e.key;
        }
      }
      FilterAgrees(responseCache, KeyedOutside(expiredKeys), AliveAt(now));
      DeleteAll(expiredKeys);
    }

    method CleanResponseCache(now: int)
      requires Valid()
      modifies this
      ensures Valid() && responseCache == Cleaned(old(responseCache), now)
      ensures |responseCache| <= MAX_CACHE_SIZE
    {
      CleaningIsSound(responseCache, now);
      hide Filter, SortedBy, DistinctKeys;
      DeleteExpired(now);
      if |responseCache| > MAX_CACHE_SIZE {
        var entries := SortedBy(responseCache, Age());
        SortedLength(responseCache);
        var toRemove := entries[..|responseCache| - MAX_CACHE_SIZE];
        DeleteAll(Keys(toRemove));
      } else {
        FilterAll(responseCache, KeyedOutside(Keys([])));
      }
    }

    method Insert(key: string, response: string, timestamp: int, now: int)
      requires Valid()
      modifies this
      ensures Valid() && responseCache == Inserted(old(responseCache), Entry(key, response, timestamp), now)
      ensures |old(responseCache)| <= BOUND ==> |responseCache| <= BOUND
    {
      if |responseCache| <= BOUND {
        InsertionKeepsBound(responseCache, Entry(key, response, timestamp), now);
      }
      Put(Entry(key, response, timestamp));
      if |responseCache| % 5 == 0 {
        CleanResponseCache(now);
      }
    }
  }

  lemma SetKeepsDistinct(s: seq<Entry>, e: Entry)
    requires DistinctKeys(s)
    ensures DistinctKeys(Set(s, e))
    ensures |Set(s, e)| == if Cached(s, e.key) then |s| else |s| + 1
  {
  }

  lemma FilterKeepsDistinct(s: seq<Entry>, p: Entry -> bool)
    requires DistinctKeys(s)
    ensures DistinctKeys(Filter(s, p))
  {
    forall i, j | 0 <= i < j < |Filter(s, p)| ensures Filter(s, p)[i].key != Filter(s, p)[j].key {
      FilterPositions(s, p, i, j);
    }
  }

  lemma OneMoreDeleted(s: seq<Entry>, keys: seq<string>, i: nat)
    requires i < |keys|
    ensures Filter(Filter(s, KeyedOutside(keys[..i])), KeyedOutside([keys[i]])) == Filter(s, KeyedOutside(keys[..i + 1]))
  {
    var kept := Filter(s, KeyedOutside(keys[..i]));
    FilterMembers(s, KeyedOutside(keys[..i]));
    assert keys[..i + 1] == keys[..i] + [keys[i]];
    FilterAgrees(kept, KeyedOutside([keys[i]]), KeyedOutside(keys[..i + 1]));
    FilterInner(s, KeyedOutside(keys[..i]), KeyedOutside(keys[..i + 1]));
  }

  // -------------------------------------------------------------- the eviction

  function HasKey(k: string): Entry -> bool {
    (e: Entry) => e.key == k
  }

  lemma OnePerKey(s: seq<Entry>, k: string)
    requires DistinctKeys(s)
    ensures |Filter(s, HasKey(k))| <= 1
  {
    var f := Filter(s, HasKey(k));
    FilterMembers(s, HasKey(k));
    forall i | 0 <= i < |f| ensures f[i].key == k {
      assert f[i] in f && HasKey(k)(f[i]);
    }
    if |f| > 1 {
      FilterPositions(s, HasKey(k), 0, 1);
    }
  }

  /** In a permutation of entries with distinct keys, a prefix and the rest share no key. */
  lemma PartsShareNoKey(s: seq<Entry>, sorted: seq<Entry>, n: nat, a: Entry, b: Entry)
    requires DistinctKeys(s) && multiset(sorted) == multiset(s) && n <= |sorted|
    requires a in sorted[..n] && b in sorted[n..]
    ensures a.key != b.key
  {
    var p := HasKey(a.key);
    var front, back := Filter(sorted[..n], p), Filter(sorted[n..], p);
    OnePerKey(s, a.key);
    FilterPermuted(sorted, s, p);
    assert sorted == sorted[..n] + sorted[n..];
    FilterSum(sorted[..n], sorted[n..], p);
    FilterMembers(sorted[..n], p);
    FilterMembers(sorted[n..], p);
    assert a in front && |front| >= 1 && |back| == 0;
    assert b !in back;
  }

  /** What is kept is, as a multiset, everything but the evicted prefix of the sorted entries. */
  lemma KeptIsTheRest(live: seq<Entry>)
    requires DistinctKeys(live) && |live| > MAX_CACHE_SIZE
    ensures |SortedBy(live, Age())| == |live|
    ensures var n := |live| - MAX_CACHE_SIZE;
      multiset(Filter(live, KeyedOutside(Keys(Evicted(live))))) == multiset(SortedBy(live, Age())[n..])
  {
    var sorted, n := SortedBy(live, Age()), |live| - MAX_CACHE_SIZE;
    SortPermutes(live, Age());
    SortedLength(live);
    var p := KeyedOutside(Keys(Evicted(live)));
    var gone, rest := sorted[..n], sorted[n..];
    forall b | b in rest ensures p(b) {
      if b.key in Keys(gone) {
        var i :| 0 <= i < |gone| && Keys(gone)[i] == b.key;
        PartsShareNoKey(live, sorted, n, gone[i], b);
      }
    }
    forall a | a in gone ensures !p(a) {
      var i :| 0 <= i < |gone| && gone[i] == a;
      assert Keys(gone)[i] == a.key;
    }
    assert sorted == gone + rest;
    FilterPermuted(sorted, live, p);
    FilterSum(gone, rest, p);
    FilterAll(gone, p);
    FilterAll(rest, p);
  }

  /**
   * A cleaning drops everything expired and never leaves more than the maximum; entries it drops for size are
   * exactly the surplus, and none of them is newer than one it keeps; what it keeps stays in order.
   */
  lemma CleaningIsSound(s: seq<Entry>, now: int)
    requires DistinctKeys(s)
    ensures var live, kept := Live(s, now), Cleaned(s, now);
      && DistinctKeys(kept)
      && |kept| == (if |live| <= MAX_CACHE_SIZE then |live| else MAX_CACHE_SIZE)
      && (forall e :: e in kept ==> e in s && AliveAt(now)(e))
      && (forall e :: e in s && AliveAt(now)(e) && e !in kept ==> forall k :: k in kept ==> e.timestamp <= k.timestamp)
  {
    var live, kept := Live(s, now), Cleaned(s, now);
    FilterKeepsDistinct(s, AliveAt(now));
    FilterKeepsDistinct(live, KeyedOutside(Keys(Evicted(live))));
    FilterMembers(s, AliveAt(now));
    FilterMembers(live, KeyedOutside(Keys(Evicted(live))));
    if |live| <= MAX_CACHE_SIZE {
      FilterAll(live, KeyedOutside(Keys(Evicted(live))));
    } else {
      var sorted, n := SortedBy(live, Age()), |live| - MAX_CACHE_SIZE;
      KeptIsTheRest(live);
      assert |multiset(kept)| == |kept| && |multiset(sorted[n..])| == |sorted[n..]|;
      forall e, k | e in live && e !in kept && k in kept ensures e.timestamp <= k.timestamp {
        EvictedIsOlder(live, e, k);
      }
    }
  }

  lemma PrefixIsOlder(sorted: seq<Entry>, n: nat, e: Entry, k: Entry)
    requires Ascending(sorted, Age()) && n <= |sorted|
    requires e in sorted && e !in sorted[n..] && k in sorted[n..]
    ensures e.timestamp <= k.timestamp
  {
    assert sorted == sorted[..n] + sorted[n..];
    var i :| 0 <= i < n && sorted[..n][i] == e;
    var j :| 0 <= j < |sorted[n..]| && sorted[n..][j] == k;
    assert Age()(sorted[i]) <= Age()(sorted[n + j]);
  }

  lemma EvictedIsOlder(live: seq<Entry>, e: Entry, k: Entry)
    requires DistinctKeys(live) && |live| > MAX_CACHE_SIZE
    requires var kept := Filter(live, KeyedOutside(Keys(Evicted(live)))); e in live && e !in kept && k in kept
    ensures e.timestamp <= k.timestamp
  {
    hide Filter, Keys, Evicted, SortedBy, DistinctKeys;
    var sorted, n := SortedBy(live, Age()), |live| - MAX_CACHE_SIZE;
    var kept := Filter(live, KeyedOutside(Keys(Evicted(live))));
    KeptIsTheRest(live);
    SortPermutes(live, Age());
    assert k in multiset(kept) && e !in multiset(kept) && e in multiset(live);
    PrefixIsOlder(sorted, n, e, k);
  }

  /** Entry x stands before entry y. */
  predicate Before(s: seq<Entry>, x: Entry, y: Entry) {
    exists a, b :: 0 <= a < b < |s| && s[a] == x && s[b] == y
  }

  /**
   * The same in numbers. After a cleaning at most thirty entries are left, none more than 600000 milliseconds old and in
   * the order they were in; one that is not too old is dropped only when thirty others, none of them older, are kept.
   */
  lemma CleaningInNumbers(s: seq<Entry>, now: int, e: Entry)
    requires DistinctKeys(s)
    ensures var kept := Cleaned(s, now);
      && |kept| <= 30
      && (e in kept ==> e in s && now - e.timestamp <= 600000)
      && (e in s && now - e.timestamp <= 600000 && e !in kept ==>
            |kept| == 30 && forall k :: k in kept ==> e.timestamp <= k.timestamp)
      && forall i, j :: 0 <= i < j < |kept| ==> Before(s, kept[i], kept[j])
  {
    hide Evicted, Filter;
    var live, kept := Live(s, now), Cleaned(s, now);
    CleaningIsSound(s, now);
    FilterMembers(s, AliveAt(now));
    if |live| <= MAX_CACHE_SIZE {
      NothingEvicted(live);
      FilterAll(live, KeyedOutside(Keys([])));
    }
    forall i, j | 0 <= i < j < |kept|
      ensures Before(s, kept[i], kept[j])
    {
      FilterPositions(live, KeyedOutside(Keys(Evicted(live))), i, j);
      var c, d :| 0 <= c < d < |live| && live[c] == kept[i] && live[d] == kept[j];
      FilterPositions(s, AliveAt(now), c, d);
      var a, b :| 0 <= a < b < |s| && s[a] == live[c] && s[b] == live[d];
      assert s[a] == kept[i] && s[b] == kept[j];
    }
  }

  /** Storing a response changes nothing but what is stored under its key. */
  lemma StoringIsLocal(s: seq<Entry>, e: Entry, x: Entry)
    requires DistinctKeys(s)
    ensures x in Set(s, e) <==> x == e || (x in s && x.key != e.key)
  {
    StoredEntry(s, e);
    SetKeepsDistinct(s, e);
    var t := Set(s, e);
    if x in s && x.key != e.key {
      var i :| 0 <= i < |s| && s[i] == x;
      assert t[i] == x;
    }
    if x in t && x != e {
      var i, j :| 0 <= i < |t| && t[i] == x && 0 <= j < |t| && t[j] == e;
    }
  }

  // -------------------------------------------------------------------- runs

  datatype Insertion = Insertion(entry: Entry, now: int)

  function Run(s: seq<Entry>, steps: seq<Insertion>): seq<Entry> {
    if steps == [] then s
    else
      var last := steps[|steps| - 1];
      Inserted(Run(s, steps[..|steps| - 1]), last.entry, last.now)
  }

  const BOUND := MAX_CACHE_SIZE + 4

  lemma InsertionKeepsBound(s: seq<Entry>, e: Entry, now: int)
    requires DistinctKeys(s) && |s| <= BOUND
    ensures DistinctKeys(Inserted(s, e, now)) && |Inserted(s, e, now)| <= BOUND
  {
    hide Cleaned;
    SetKeepsDistinct(s, e);
    CleaningIsSound(Set(s, e), now);
  }

  /** Over any run of insertions, whatever the clock does, the cache never holds more than 34 entries after a step. */
  lemma {:induction false} CacheIsBounded(steps: seq<Insertion>)
    ensures DistinctKeys(Run([], steps)) && |Run([], steps)| <= BOUND && BOUND == 34
  {
    hide Inserted;
    if steps != [] {
      var last := steps[|steps| - 1];
      CacheIsBounded(steps[..|steps| - 1]);
      InsertionKeepsBound(Run([], steps[..|steps| - 1]), last.entry, last.now);
    }
  }

  /** The entry just inserted survives its own insertion, unless the clock has run backwards or on beyond its lifetime. */
  lemma NewestSurvives(s: seq<Entry>, e: Entry, now: int)
    requires DistinctKeys(s) && |s| <= BOUND && now - e.timestamp <= CACHE_TTL_MS
    requires forall x :: x in s ==> x.timestamp < e.timestamp
    ensures e in Inserted(s, e, now)
  {
    var stored := Set(s, e);
    SetKeepsDistinct(s, e);
    StoredEntry(s, e);
    if |stored| % 5 == 0 {
      CleaningIsSound(stored, now);
      var kept, live := Cleaned(stored, now), Live(stored, now);
      FilterMembers(stored, AliveAt(now));
      if e !in kept && |live| > MAX_CACHE_SIZE {
        assert kept[0] in kept;
      }
      if |live| <= MAX_CACHE_SIZE {
        FilterAll(live, KeyedOutside(Keys(Evicted(live))));
      }
    }
  }

  lemma StoredEntry(s: seq<Entry>, e: Entry)
    ensures e in Set(s, e)
    ensures forall x :: x in Set(s, e) ==> x == e || x in s
  {
    if Cached(s, e.key) {
      var i :| 0 <= i < |s| && s[i].key == e.key;
      assert Set(s, e)[i] == e;
    } else {
      assert Set(s, e)[|s|] == e;
    }
  }

  // --------------------------------------------------------- the bound is met

  function Copies(n: nat): string {
    seq(n, _ => 'a')
  }

  predicate Filled(s: seq<Entry>, n: nat) {
    && |s| == n
    && forall i :: 0 <= i < n ==> s[i] == Entry(Copies(i), "", 0)
  }

  /** Every size up to 34 is reached. */
  lemma {:induction false} BoundIsReached(n: nat) returns (steps: seq<Insertion>)
    requires n <= 34
    ensures Filled(Run([], steps), n)
  {
    if n == 0 {
      return [];
    }
    var front := BoundIsReached(n - 1);
    steps := front + [Insertion(Entry(Copies(n - 1), "", 0), 0)];
    assert steps[..|steps| - 1] == front;
    FilledGrows(Run([], front), n);
  }

  lemma FilledGrows(s: seq<Entry>, n: nat)
    requires 0 < n <= BOUND && Filled(s, n - 1)
    ensures Filled(Inserted(s, Entry(Copies(n - 1), "", 0), 0), n)
  {
    hide Evicted, Filter;
    var e := Entry(Copies(n - 1), "", 0);
    assert forall i :: 0 <= i < |s| ==> |s[i].key| == i;
    var stored := s + [e];
    assert !Cached(s, e.key) && Set(s, e) == stored;
    if n % 5 == 0 {
      assert forall x :: x in stored ==> x.timestamp == 0;
      FilterAll(stored, AliveAt(0));
      NothingEvicted(stored);
      FilterAll(stored, KeyedOutside(Keys([])));
    }
  }

  lemma NothingEvicted(live: seq<Entry>)
    requires |live| <= MAX_CACHE_SIZE
    ensures Evicted(live) == []
  {
  }
}
