/**
  Reading service logs with a bounded memory: each source keeps its last entries, the buckets
  are merged and sorted, and the newest lines are shown.
 */
module LogRetention {
  import opened Wrappers

  datatype Entry = Entry(source: string, level: string, timestamp: int, message: string)

  /** A log line as its source delivers it; some carry no time. */
  datatype Raw = Raw(source: string, level: string, time: Option<int>, message: string)

  /** The filters of one request; an empty level or no `since` accepts everything. */
  datatype Filter = Filter(level: string, since: Option<int>)

  // ---------------------------------------------------------------- accepting

  /** The entry a line is accepted as; a line without a time gets the time of reading. */
  function Accept(filter: Filter, raw: Raw, now: int): Option<Entry> {
    if filter.level != "" && raw.level != filter.level then None
    else if filter.since.Some? && (raw.time.None? || raw.time.value < filter.since.value) then None
    else Some(Entry(raw.source, raw.level, if raw.time.Some? then raw.time.value else now, raw.message))
  }

  /** Everything a request accepts, in the order it is delivered; `clock` gives each reading time. */
  function Accepted(filter: Filter, raws: seq<Raw>, clock: nat -> int): seq<Entry> {
    if raws == [] then []
    else
      var n := |raws| - 1;
      var last := Accept(filter, raws[n], clock(n));
      Accepted(filter, raws[..n], clock) + if last.Some? then [last.value] else []
  }

  /** A line passes the filters: its level is the one asked for, and its time is known and not too early. */
  predicate Wanted(filter: Filter, raw: Raw) {
    && (filter.level == "" || raw.level == filter.level)
    && (filter.since.None? || (raw.time.Some? && filter.since.value <= raw.time.value))
  }

  /** The entry made of a line read at `now`. */
  predicate MadeOf(e: Entry, raw: Raw, now: int) {
    && e.source == raw.source && e.level == raw.level && e.message == raw.message
    && if raw.time.Some? then e.timestamp == raw.time.value else e.timestamp == now
  }

  /** The places of the lines that pass. */
  ghost function Passing(filter: Filter, raws: seq<Raw>): set<nat> {
    set i: nat | i < |raws| && Wanted(filter, raws[i])
  }

  /** An entry made of one of the lines that pass. */
  ghost predicate MadeOfPassing(e: Entry, filter: Filter, raws: seq<Raw>, clock: nat -> int) {
    exists i :: 0 <= i < |raws| && Wanted(filter, raws[i]) && MadeOf(e, raws[i], clock(i))
  }

  lemma AcceptExactly(filter: Filter, raw: Raw, now: int)
    ensures var r := Accept(filter, raw, now);
      (r.Some? <==> Wanted(filter, raw)) && (r.Some? ==> MadeOf(r.value, raw, now))
  {
  }

  lemma PassingSnoc(filter: Filter, raws: seq<Raw>)
    requires raws != []
    ensures var n := |raws| - 1;
      |Passing(filter, raws)| == |Passing(filter, raws[..n])| + if Wanted(filter, raws[n]) then 1 else 0
  {
    hide Wanted;
    var n := |raws| - 1;
    var init := raws[..n];
    var before, passing := Passing(filter, init), Passing(filter, raws);
    forall i: nat ensures i in passing <==> i in before || (i == n && Wanted(filter, raws[n])) {
      assert i < n ==> init[i] == raws[i];
    }
    hide Passing;
    assert passing == if Wanted(filter, raws[n]) then before + {n} else before;
  }

  /** As many entries are accepted as lines pass. */
  lemma {:induction false} AcceptedCount(filter: Filter, raws: seq<Raw>, clock: nat -> int)
    ensures |Accepted(filter, raws, clock)| == |Passing(filter, raws)|
    decreases |raws|
  {
    if raws == [] {
      assert Passing(filter, raws) == {};
    } else {
      var n := |raws| - 1;
      AcceptedCount(filter, raws[..n], clock);
      AcceptExactly(filter, raws[n], clock(n));
      PassingSnoc(filter, raws);
      hide Wanted, Accept, Passing, MadeOf;
    }
  }

  /** Every accepted entry is made of a line that passes. */
  lemma {:induction false} AcceptedPass(filter: Filter, raws: seq<Raw>, clock: nat -> int, e: Entry)
    requires e in Accepted(filter, raws, clock)
    ensures MadeOfPassing(e, filter, raws, clock)
    decreases |raws|
  {
    var n := |raws| - 1;
    AcceptExactly(filter, raws[n], clock(n));
    hide Wanted, MadeOf, Accept;
    if e in Accepted(filter, raws[..n], clock) {
      AcceptedPass(filter, raws[..n], clock, e);
      var i :| 0 <= i < n && Wanted(filter, raws[..n][i]) && MadeOf(e, raws[..n][i], clock(i));
      assert Wanted(filter, raws[i]) && MadeOf(e, raws[i], clock(i));
    }
  }

  /** Every line that passes is accepted. */
  lemma {:induction false} PassingAccepted(filter: Filter, raws: seq<Raw>, clock: nat -> int, i: nat)
    requires i < |raws| && Wanted(filter, raws[i])
    ensures exists e :: e in Accepted(filter, raws, clock) && MadeOf(e, raws[i], clock(i))
    decreases |raws|
  {
    var n := |raws| - 1;
    AcceptExactly(filter, raws[n], clock(n));
    hide Wanted, MadeOf, Accept;
    if i < n {
      PassingAccepted(filter, raws[..n], clock, i);
      var e :| e in Accepted(filter, raws[..n], clock) && MadeOf(e, raws[..n][i], clock(i));
      assert e in Accepted(filter, raws, clock);
    } else {
      assert Accept(filter, raws[n], clock(n)).value in Accepted(filter, raws, clock);
    }
  }

  /** What is accepted is what passes, line for line. */
  lemma AcceptedExactly(filter: Filter, raws: seq<Raw>, clock: nat -> int)
    ensures |Accepted(filter, raws, clock)| == |Passing(filter, raws)|
    ensures forall e :: e in Accepted(filter, raws, clock) ==> MadeOfPassing(e, filter, raws, clock)
    ensures forall i :: 0 <= i < |raws| && Wanted(filter, raws[i]) ==>
      exists e :: e in Accepted(filter, raws, clock) && MadeOf(e, raws[i], clock(i))
  {
    hide Accepted, Wanted, MadeOf, MadeOfPassing, Passing;
    AcceptedCount(filter, raws, clock);
    forall e | e in Accepted(filter, raws, clock) ensures MadeOfPassing(e, filter, raws, clock) {
      AcceptedPass(filter, raws, clock, e);
    }
    forall i | 0 <= i < |raws| && Wanted(filter, raws[i])
      ensures exists e :: e in Accepted(filter, raws, clock) && MadeOf(e, raws[i], clock(i))
    {
      PassingAccepted(filter, raws, clock, i);
    }
  }

  function Of(entries: seq<Entry>, source: string): (r: seq<Entry>)
    ensures forall e :: e in r ==> e.source == source && e in entries
  {
    if entries == [] then []
    else
      var last := entries[|entries| - 1];
      Of(entries[..|entries| - 1], source) + if last.source == source then [last] else []
  }

  function Min(a: nat, b: nat): nat {
    if a < b then a else b
  }

  function Last<T>(s: seq<T>, n: nat): (r: seq<T>)
    ensures |r| == Min(n, |s|)
  {
    s[|s| - Min(n, |s|)..]
  }

  lemma OfSnoc(entries: seq<Entry>, e: Entry, source: string)
    ensures Of(entries + [e], source) == Of(entries, source) + if e.source == source then [e] else []
  {
    assert (entries + [e])[..|entries|] == entries;
  }

  lemma LastCuts<T>(s: seq<T>, n: nat)
    ensures Last(s, n) == if |s| > n then s[|s| - n..] else s
  {
  }

  lemma LastSnoc<T>(s: seq<T>, x: T, n: nat)
    requires n > 0
    ensures Last(s + [x], n) == Last(Last(s, n) + [x], n)
  {
  }

  // ---------------------------------------------------------------- sorting

  ghost predicate Sorted(entries: seq<Entry>) {
    forall i, j :: 0 <= i < j < |entries| ==> entries[i].timestamp <= entries[j].timestamp
  }

  /** Inserts after every entry that is not newer: the sort is stable. */
  function Insert(entries: seq<Entry>, e: Entry): seq<Entry> {
    var n := |entries|;
    if n == 0 || entries[n - 1].timestamp <= e.timestamp then entries + [e]
    else Insert(entries[..n - 1], e) + [entries[n - 1]]
  }

  function SortByTime(entries: seq<Entry>): seq<Entry> {
    if entries == [] then [] else Insert(SortByTime(entries[..|entries| - 1]), entries[|entries| - 1])
  }

  lemma {:induction false} InsertKeeps(entries: seq<Entry>, e: Entry)
    ensures multiset(Insert(entries, e)) == multiset(entries) + multiset{e}
    decreases |entries|
  {
    var n := |entries|;
    if n == 0 || entries[n - 1].timestamp <= e.timestamp {
    } else {
      InsertKeeps(entries[..n - 1], e);
      assert entries == entries[..n - 1] + [entries[n - 1]];
    }
  }

  lemma {:induction false} InsertBounded(entries: seq<Entry>, e: Entry, t: int)
    requires e.timestamp <= t && forall x :: x in entries ==> x.timestamp <= t
    ensures forall x :: x in Insert(entries, e) ==> x.timestamp <= t
    decreases |entries|
  {
    var n := |entries|;
    if n == 0 || entries[n - 1].timestamp <= e.timestamp {
    } else {
      InsertBounded(entries[..n - 1], e, t);
    }
  }

  lemma SortedSnoc(entries: seq<Entry>, last: Entry)
    requires Sorted(entries) && forall x :: x in entries ==> x.timestamp <= last.timestamp
    ensures Sorted(entries + [last])
  {
  }

  lemma {:induction false} InsertSorts(entries: seq<Entry>, e: Entry)
    requires Sorted(entries)
    ensures Sorted(Insert(entries, e))
    decreases |entries|
  {
    var n := |entries|;
    if n == 0 || entries[n - 1].timestamp <= e.timestamp {
    } else {
      InsertSorts(entries[..n - 1], e);
      InsertBounded(entries[..n - 1], e, entries[n - 1].timestamp);
      SortedSnoc(Insert(entries[..n - 1], e), entries[n - 1]);
    }
  }

  lemma {:induction false} SortSorts(entries: seq<Entry>)
    ensures Sorted(SortByTime(entries))
    ensures multiset(SortByTime(entries)) == multiset(entries)
    ensures |SortByTime(entries)| == |entries|
    decreases |entries|
  {
    if entries == [] {
    } else {
      var init, last := entries[..|entries| - 1], entries[|entries| - 1];
      SortSorts(init);
      InsertSorts(SortByTime(init), last);
      InsertKeeps(SortByTime(init), last);
      assert entries == init + [last];
    }
    assert |multiset(SortByTime(entries))| == |multiset(entries)|;
  }

  // ---------------------------------------------------------------- reading

  type Buckets = map<string, seq<Entry>>

  /** One source's bucket holds its last lines; a source without entries has no bucket. */
  ghost predicate RetainsAt(buckets: Buckets, entries: seq<Entry>, lines: nat, s: string) {
    && (s in buckets <==> Of(entries, s) != [])
    && (s in buckets ==> buckets[s] == Last(Of(entries, s), lines))
  }

  ghost predicate Retains(buckets: Buckets, entries: seq<Entry>, lines: nat) {
    forall s :: RetainsAt(buckets, entries, lines, s)
  }

  /** The buckets one after the other, in the order the map iteration picks. */
  function Merged(entries: seq<Entry>, lines: nat, order: seq<string>): seq<Entry> {
    if order == [] then []
    else
      Merged(entries, lines, order[..|order| - 1]) + Last(Of(entries, order[|order| - 1]), lines)
  }

  ghost predicate Covers(order: seq<string>, entries: seq<Entry>) {
    && (forall i, j :: 0 <= i < j < |order| ==> order[i] != order[j])
    && (forall e :: e in entries ==> e.source in order)
  }

  /** Accepts line after line, each source's bucket cut to its last lines. */
  method Retain(filter: Filter, raws: seq<Raw>, clock: nat -> int, lines: nat) returns (retained: Buckets)
    ensures lines == 0 ==> retained == map[]
    ensures lines > 0 ==> Retains(retained, Accepted(filter, raws, clock), lines)
  {
    retained := map[];
    var i := 0;
    while i < |raws|
      invariant 0 <= i <= |raws|
      invariant lines == 0 ==> retained == map[]
      invariant lines > 0 ==> Retains(retained, Accepted(filter, raws[..i], clock), lines)
    {
      assert raws[..i + 1][..i] == raws[..i];
      var accepted := Accept(filter, raws[i], clock(i));
      ghost var before := Accepted(filter, raws[..i], clock);
      assert Accepted(filter, raws[..i + 1], clock) == before + if accepted.Some? then [accepted.value] else [];
      hide Accepted, Accept, Retains;
      assert before + [] == before;
      if accepted.Some? && lines > 0 {
        var e := accepted.value;
        var bucket := (if e.source in retained then retained[e.source] else []) + [e];
        if |bucket| > lines {
          bucket := bucket[|bucket| - lines..];
        }
        RetainsSnoc(retained, before, e, lines, bucket);
        retained := retained[e.source := bucket];
      }
      i := i + 1;
    }
    assert raws[..i] == raws;
  }

  /** Concatenates the buckets in the order the map iteration picks. */
  method Merge(retained: Buckets, ghost entries: seq<Entry>, lines: nat)
    returns (merged: seq<Entry>, ghost order: seq<string>)
    requires Retains(retained, entries, lines)
    ensures Covers(order, entries) && merged == Merged(entries, lines, order)
  {
    merged, order := [], [];
    var todo := retained.Keys;
    while todo != {}
      invariant todo <= retained.Keys
      invariant forall s :: s in order <==> s in retained.Keys - todo
      invariant forall j, k :: 0 <= j < k < |order| ==> order[j] != order[k]
      invariant merged == Merged(entries, lines, order)
      decreases todo
    {
      var s :| s in todo;
      assert RetainsAt(retained, entries, lines, s);
      merged := merged + retained[s];
      assert (order + [s])[..|order|] == order && s !in order;
      order := order + [s];
      todo := todo - {s};
    }
    forall e | e in entries ensures e.source in order {
      OfHasEntry(entries, e);
      assert RetainsAt(retained, entries, lines, e.source);
    }
  }

  /** Reads the logs of one request that does not follow them. */
  method ReadLogs(filter: Filter, raws: seq<Raw>, clock: nat -> int, lines: nat)
    returns (shown: seq<Entry>, ghost order: seq<string>)
    ensures lines > 0 ==> Covers(order, Accepted(filter, raws, clock))
    ensures lines > 0 ==> shown == Shown(Accepted(filter, raws, clock), lines, order)
    ensures Sorted(shown) && |shown| == Min(lines, |Accepted(filter, raws, clock)|)
    ensures multiset(shown) <= multiset(Accepted(filter, raws, clock))
    ensures |shown| == Min(lines, |Passing(filter, raws)|)
    ensures forall e :: e in shown ==> MadeOfPassing(e, filter, raws, clock)
    ensures lines > 0 && InTimeOrder(Accepted(filter, raws, clock)) ==>
      shown == Newest(Merged(Accepted(filter, raws, clock), |Accepted(filter, raws, clock)|, order), lines)
  {
    hide Wanted, MadeOf, MadeOfPassing, Passing;
    AcceptedExactly(filter, raws, clock);
    var retained := Retain(filter, raws, clock, lines);
    if lines == 0 {
      return [], [];
    }
    hide *;
    var merged;
    merged, order := Merge(retained, Accepted(filter, raws, clock), lines);
    shown := SortByTime(merged);
    LastCuts(shown, lines);
    if |shown| > lines {
      shown := shown[|shown| - lines..];
    }
    ShownUnfolds(Accepted(filter, raws, clock), lines, order);
    ShownIsSortedAndFull(Accepted(filter, raws, clock), lines, order);
    ShownWasAccepted(Accepted(filter, raws, clock), lines, order);
    forall e | e in shown ensures e in Accepted(filter, raws, clock) {
      assert e in multiset(shown);
    }
    if InTimeOrder(Accepted(filter, raws, clock)) {
      ShownAgreesWithKeepingAll(Accepted(filter, raws, clock), lines, order);
    }
  }

  lemma {:induction false} OfHasEntry(entries: seq<Entry>, e: Entry)
    requires e in entries
    ensures e in Of(entries, e.source)
  {
    var n := |entries| - 1;
    if entries[n] == e {
    } else {
      assert entries == entries[..n] + [entries[n]];
      OfHasEntry(entries[..n], e);
    }
  }

  /** One source's bucket, after one more accepted entry. */
  lemma RetainsAtSnoc(buckets: Buckets, entries: seq<Entry>, e: Entry, lines: nat, bucket: seq<Entry>, s: string)
    requires lines > 0 && RetainsAt(buckets, entries, lines, s) && RetainsAt(buckets, entries, lines, e.source)
    requires bucket == Last((if e.source in buckets then buckets[e.source] else []) + [e], lines)
    ensures RetainsAt(buckets[e.source := bucket], entries + [e], lines, s)
  {
    OfSnoc(entries, e, s);
    hide Of;
    if e.source == s {
      LastSnoc(Of(entries, s), e, lines);
      assert Of(entries, s) == [] ==> Last(Of(entries, s), lines) == [];
    } else {
      assert Of(entries, s) + [] == Of(entries, s);
    }
  }

  lemma RetainsSnoc(buckets: Buckets, entries: seq<Entry>, e: Entry, lines: nat, bucket: seq<Entry>)
    requires lines > 0 && Retains(buckets, entries, lines)
    requires bucket == Last((if e.source in buckets then buckets[e.source] else []) + [e], lines)
    ensures Retains(buckets[e.source := bucket], entries + [e], lines)
  {
    hide Of, Last;
    var buckets', entries' := buckets[e.source := bucket], entries + [e];
    forall s ensures RetainsAt(buckets', entries', lines, s) {
      assert RetainsAt(buckets, entries, lines, s) && RetainsAt(buckets, entries, lines, e.source);
      RetainsAtSnoc(buckets, entries, e, lines, bucket, s);
    }
  }

  // ---------------------------------------------------------------- what is shown

  /** How many entries are not older than `t`. */
  function NotOlder(entries: seq<Entry>, t: int): nat {
    if entries == [] then 0
    else NotOlder(entries[..|entries| - 1], t) + if entries[|entries| - 1].timestamp >= t then 1 else 0
  }

  lemma {:induction false} NotOlderConcat(a: seq<Entry>, b: seq<Entry>, t: int)
    ensures NotOlder(a + b, t) == NotOlder(a, t) + NotOlder(b, t)
    decreases |b|
  {
    if b == [] {
      assert a + b == a;
    } else {
      assert (a + b)[..|a + b| - 1] == a + b[..|b| - 1];
      NotOlderConcat(a, b[..|b| - 1], t);
    }
  }

  lemma {:induction false} NotOlderBound(entries: seq<Entry>, t: int, k: nat)
    requires k <= |entries|
    requires forall i :: 0 <= i < k ==> entries[i].timestamp < t
    ensures NotOlder(entries, t) <= |entries| - k
    decreases |entries|
  {
    if entries == [] {
    } else {
      if k < |entries| {
        NotOlderBound(entries[..|entries| - 1], t, k);
      } else {
        NotOlderBound(entries[..|entries| - 1], t, k - 1);
      }
    }
  }

  lemma {:induction false} NotOlderAll(entries: seq<Entry>, t: int)
    requires forall e :: e in entries ==> e.timestamp >= t
    ensures NotOlder(entries, t) == |entries|
    decreases |entries|
  {
    if entries == [] {
    } else {
      NotOlderAll(entries[..|entries| - 1], t);
    }
  }

  lemma {:induction false} InsertNotOlder(entries: seq<Entry>, e: Entry, t: int)
    ensures NotOlder(Insert(entries, e), t) == NotOlder(entries, t) + if e.timestamp >= t then 1 else 0
    decreases |entries|
  {
    var n := |entries|;
    if n > 0 && entries[n - 1].timestamp > e.timestamp {
      InsertNotOlder(entries[..n - 1], e, t);
      NotOlderConcat(Insert(entries[..n - 1], e), [entries[n - 1]], t);
      assert [entries[n - 1]][..0] == [];
    } else {
      assert (entries + [e])[..n] == entries;
    }
  }

  lemma {:induction false} SortNotOlder(entries: seq<Entry>, t: int)
    ensures NotOlder(SortByTime(entries), t) == NotOlder(entries, t)
    decreases |entries|
  {
    if entries == [] {
    } else {
      SortNotOlder(entries[..|entries| - 1], t);
      InsertNotOlder(SortByTime(entries[..|entries| - 1]), entries[|entries| - 1], t);
    }
  }

  lemma {:induction false} MergedNotOlder(entries: seq<Entry>, lines: nat, order: seq<string>, s: string, t: int)
    requires s in order
    ensures NotOlder(Merged(entries, lines, order), t) >= NotOlder(Last(Of(entries, s), lines), t)
    decreases |order|
  {
    hide NotOlder, Of, Last;
    var n := |order| - 1;
    NotOlderConcat(Merged(entries, lines, order[..n]), Last(Of(entries, order[n]), lines), t);
    if order[n] == s {
    } else {
      assert order == order[..n] + [order[n]];
      MergedNotOlder(entries, lines, order[..n], s, t);
    }
  }

  /** How often an entry occurs among its own source's entries. */
  lemma {:induction false} OfCounts(entries: seq<Entry>, e: Entry)
    ensures multiset(Of(entries, e.source))[e] == multiset(entries)[e]
    decreases |entries|
  {
    if entries == [] {
    } else {
      var init, last := entries[..|entries| - 1], entries[|entries| - 1];
      OfCounts(init, e);
      assert entries == init + [last];
    }
  }

  lemma {:induction false} MergedCounts(entries: seq<Entry>, lines: nat, order: seq<string>, e: Entry)
    requires forall i, j :: 0 <= i < j < |order| ==> order[i] != order[j]
    ensures multiset(Merged(entries, lines, order))[e]
         == if e.source in order then multiset(Last(Of(entries, e.source), lines))[e] else 0
    decreases |order|
  {
    if order == [] {
    } else {
      var n := |order| - 1;
      var init, bucket := order[..n], Last(Of(entries, order[n]), lines);
      assert order == init + [order[n]];
      MergedCounts(entries, lines, init, e);
      if order[n] != e.source {
        forall x | x in bucket ensures x != e {
          assert x in Of(entries, order[n]);
        }
        assert multiset(bucket)[e] == 0;
      }
    }
  }

  // ---------------------------------------------------------------- the main result

  ghost predicate InTimeOrder(entries: seq<Entry>) {
    forall s :: Sorted(Of(entries, s))
  }

  lemma {:induction false} MergedEnough(entries: seq<Entry>, lines: nat, order: seq<string>)
    ensures |Merged(entries, lines, order)| >= Min(lines, |Merged(entries, |entries|, order)|)
    ensures |Merged(entries, lines, order)| <= |Merged(entries, |entries|, order)|
    decreases |order|
  {
    if order == [] {
    } else {
      MergedEnough(entries, lines, order[..|order| - 1]);
      OfShorter(entries, order[|order| - 1]);
    }
  }

  lemma {:induction false} OfShorter(entries: seq<Entry>, s: string)
    ensures |Of(entries, s)| <= |entries|
  {
    if entries == [] {
    } else {
      OfShorter(entries[..|entries| - 1], s);
    }
  }

  /** Keeping everything, the buckets are a permutation of what was accepted. */
  lemma MergedAll(entries: seq<Entry>, order: seq<string>)
    requires Covers(order, entries)
    ensures multiset(Merged(entries, |entries|, order)) == multiset(entries)
    ensures |Merged(entries, |entries|, order)| == |entries|
  {
    var all := Merged(entries, |entries|, order);
    forall e ensures multiset(all)[e] == multiset(entries)[e] {
      MergedCounts(entries, |entries|, order, e);
      OfShorter(entries, e.source);
      OfCounts(entries, e);
      if e.source !in order {
        assert e !in entries;
      }
    }
    assert multiset(all) == multiset(entries);
    assert |multiset(all)| == |all| && |multiset(entries)| == |entries|;
  }

  /** What is shown, whatever order the buckets were merged in. */
  function Shown(entries: seq<Entry>, lines: nat, order: seq<string>): seq<Entry> {
    Newest(Merged(entries, lines, order), lines)
  }

  /** The end of the sorted list. */
  function Newest(entries: seq<Entry>, lines: nat): seq<Entry> {
    Last(SortByTime(entries), lines)
  }

  lemma ShownUnfolds(entries: seq<Entry>, lines: nat, order: seq<string>)
    ensures Shown(entries, lines, order) == Last(SortByTime(Merged(entries, lines, order)), lines)
  {
  }

  /** The output is sorted, and as long as the limit and the accepted entries allow. */
  lemma ShownIsSortedAndFull(entries: seq<Entry>, lines: nat, order: seq<string>)
    requires Covers(order, entries)
    ensures Sorted(Shown(entries, lines, order))
    ensures |Shown(entries, lines, order)| == Min(lines, |entries|)
  {
    SortSorts(Merged(entries, lines, order));
    MergedEnough(entries, lines, order);
    MergedAll(entries, order);
  }

  /** An entry whose bucket dropped a copy of it is not newer than anything the bucket kept. */
  lemma {:induction false} DroppedIsOld(bucket: seq<Entry>, lines: nat, e: Entry)
    requires Sorted(bucket) && multiset(Last(bucket, lines))[e] < multiset(bucket)[e]
    ensures |bucket| > lines
    ensures NotOlder(Last(bucket, lines), e.timestamp) == lines
  {
    var k := |bucket| - Min(lines, |bucket|);
    assert bucket == bucket[..k] + bucket[k..];
    assert e in bucket[..k];
    NotOlderAll(bucket[k..], e.timestamp);
  }

  /**
    Bounded retention loses nothing that matters: when every source delivers its entries in
    time order, no accepted entry left out is newer than any entry shown.
   */
  lemma OmittedIsNotNewer(entries: seq<Entry>, lines: nat, order: seq<string>, e: Entry, i: nat)
    requires Covers(order, entries) && InTimeOrder(entries)
    requires i < |Shown(entries, lines, order)|
    requires multiset(Shown(entries, lines, order))[e] < multiset(entries)[e]
    ensures e.timestamp <= Shown(entries, lines, order)[i].timestamp
  {
    var merged := Merged(entries, lines, order);
    var sorted := SortByTime(merged);
    SortSorts(merged);
    ShownUnfolds(entries, lines, order);
    if Shown(entries, lines, order)[i].timestamp < e.timestamp {
      NewestAreShown(sorted, lines, e, i);
      SortNotOlder(merged, e.timestamp);
      hide *;
      NewerIsKept(entries, lines, order, e);
    }
  }

  /** While fewer than `lines` merged entries are as new as `e`, its bucket has dropped no copy of it. */
  lemma NewerIsKept(entries: seq<Entry>, lines: nat, order: seq<string>, e: Entry)
    requires Covers(order, entries) && InTimeOrder(entries)
    requires NotOlder(Merged(entries, lines, order), e.timestamp) < lines
    ensures multiset(Merged(entries, lines, order))[e] == multiset(entries)[e]
  {
    var own := Of(entries, e.source);
    MergedCounts(entries, lines, order, e);
    OfCounts(entries, e);
    if e.source in order {
      assert Sorted(own);
      MergedNotOlder(entries, lines, order, e.source, e.timestamp);
      hide *;
      LastCounts(own, lines, e);
      if multiset(Last(own, lines))[e] < multiset(own)[e] {
        DroppedIsOld(own, lines, e);
      }
    } else {
      assert e !in entries;
    }
  }

  lemma LastCounts(bucket: seq<Entry>, lines: nat, e: Entry)
    ensures multiset(Last(bucket, lines))[e] <= multiset(bucket)[e]
  {
    var k := |bucket| - Min(lines, |bucket|);
    assert bucket == bucket[..k] + bucket[k..];
  }

  /** Everything shown was accepted, and is shown no more often than it was accepted. */
  lemma ShownWasAccepted(entries: seq<Entry>, lines: nat, order: seq<string>)
    requires Covers(order, entries)
    ensures multiset(Shown(entries, lines, order)) <= multiset(entries)
  {
    var merged := Merged(entries, lines, order);
    SortSorts(merged);
    forall e ensures multiset(Shown(entries, lines, order))[e] <= multiset(merged)[e] <= multiset(entries)[e] {
      LastCounts(SortByTime(merged), lines, e);
      MergedAtMost(entries, lines, order, e);
    }
  }

  /** The merged buckets hold an entry as often as its own bucket does. */
  lemma MergedAtMost(entries: seq<Entry>, lines: nat, order: seq<string>, e: Entry)
    requires Covers(order, entries)
    ensures multiset(Merged(entries, lines, order))[e] <= multiset(entries)[e]
    ensures multiset(Merged(entries, lines, order))[e] < multiset(entries)[e] <==> Dropped(entries, lines, e)
  {
    MergedCounts(entries, lines, order, e);
    OfCounts(entries, e);
    LastCounts(Of(entries, e.source), lines, e);
    assert e.source !in order ==> e !in entries;
  }

  /** The bucket of its own source drops a copy of `e`. */
  predicate Dropped(entries: seq<Entry>, lines: nat, e: Entry) {
    multiset(Last(Of(entries, e.source), lines))[e] < multiset(Of(entries, e.source))[e]
  }

  /** No accepted entry left out is newer than an entry shown. */
  ghost predicate NothingNewerLost(entries: seq<Entry>, lines: nat, order: seq<string>) {
    forall e, i :: 0 <= i < |Shown(entries, lines, order)|
                   && multiset(Shown(entries, lines, order))[e] < multiset(entries)[e]
      ==> e.timestamp <= Shown(entries, lines, order)[i].timestamp
  }

  /** Whatever a bucket dropped is outnumbered by merged entries at least as new. */
  ghost predicate DroppedAreOutnumbered(entries: seq<Entry>, lines: nat, order: seq<string>) {
    forall e :: Dropped(entries, lines, e) ==> NotOlder(Merged(entries, lines, order), e.timestamp) >= lines
  }

  /** Exactly when the bounded memory loses nothing newer than what it shows, in time order or not. */
  lemma NothingNewerLostExactly(entries: seq<Entry>, lines: nat, order: seq<string>)
    requires Covers(order, entries)
    ensures NothingNewerLost(entries, lines, order) <==> DroppedAreOutnumbered(entries, lines, order)
  {
    hide Shown, Merged, Dropped;
    if DroppedAreOutnumbered(entries, lines, order) {
      forall e, i | 0 <= i < |Shown(entries, lines, order)|
                    && multiset(Shown(entries, lines, order))[e] < multiset(entries)[e]
        ensures e.timestamp <= Shown(entries, lines, order)[i].timestamp
      {
        OmittedOnlyIfDropped(entries, lines, order, e, i);
      }
    }
    if NothingNewerLost(entries, lines, order) {
      forall e | Dropped(entries, lines, e) ensures NotOlder(Merged(entries, lines, order), e.timestamp) >= lines {
        DroppedHidesNewer(entries, lines, order, e);
      }
    }
  }

  /** An entry left out for an older one was dropped by its bucket, among too few as new as it. */
  lemma OmittedOnlyIfDropped(entries: seq<Entry>, lines: nat, order: seq<string>, e: Entry, i: nat)
    requires Covers(order, entries) && i < |Shown(entries, lines, order)|
    requires multiset(Shown(entries, lines, order))[e] < multiset(entries)[e]
    ensures Shown(entries, lines, order)[i].timestamp < e.timestamp ==>
      Dropped(entries, lines, e) && NotOlder(Merged(entries, lines, order), e.timestamp) < lines
  {
    var merged := Merged(entries, lines, order);
    SortSorts(merged);
    ShownUnfolds(entries, lines, order);
    SortNotOlder(merged, e.timestamp);
    MergedAtMost(entries, lines, order, e);
    if Shown(entries, lines, order)[i].timestamp < e.timestamp {
      NewestAreShown(SortByTime(merged), lines, e, i);
    }
  }

  /** An entry its bucket dropped among too few as new as it is left out for an older one. */
  lemma DroppedHidesNewer(entries: seq<Entry>, lines: nat, order: seq<string>, e: Entry)
    requires Covers(order, entries) && Dropped(entries, lines, e)
    ensures multiset(Shown(entries, lines, order))[e] < multiset(entries)[e]
    ensures NotOlder(Merged(entries, lines, order), e.timestamp) < lines ==>
      exists i :: 0 <= i < |Shown(entries, lines, order)| && Shown(entries, lines, order)[i].timestamp < e.timestamp
  {
    MergedAtMost(entries, lines, order, e);
    MergedIsShorter(entries, lines, order, e);
    hide Dropped, Merged;
    NewestBelow(Merged(entries, lines, order), lines, e);
  }

  /** If fewer than `lines` of enough entries are as new as `e`, the newest include an older one. */
  lemma NewestBelow(merged: seq<Entry>, lines: nat, e: Entry)
    requires |merged| >= lines
    ensures multiset(Newest(merged, lines))[e] <= multiset(merged)[e]
    ensures NotOlder(merged, e.timestamp) < lines ==>
      exists i :: 0 <= i < |Newest(merged, lines)| && Newest(merged, lines)[i].timestamp < e.timestamp
  {
    var sorted := SortByTime(merged);
    SortSorts(merged);
    LastCounts(sorted, lines, e);
    SortNotOlder(merged, e.timestamp);
    var k := |sorted| - lines;
    assert sorted == sorted[..k] + sorted[k..] && Newest(merged, lines) == sorted[k..];
    hide SortByTime, NotOlder;
    NotOlderConcat(sorted[..k], sorted[k..], e.timestamp);
    if forall i :: 0 <= i < lines ==> sorted[k..][i].timestamp >= e.timestamp {
      NotOlderAll(sorted[k..], e.timestamp);
    }
  }

  /** A bucket drops something only when the buckets hold `lines` entries or more. */
  lemma MergedIsShorter(entries: seq<Entry>, lines: nat, order: seq<string>, e: Entry)
    requires Covers(order, entries) && Dropped(entries, lines, e)
    ensures |Merged(entries, lines, order)| >= lines
  {
    MergedEnough(entries, lines, order);
    MergedAll(entries, order);
    OfShorter(entries, e.source);
    LastCuts(Of(entries, e.source), lines);
  }

  /** If something older than `e` is shown, every copy of `e` that was kept is shown. */
  lemma NewestAreShown(sorted: seq<Entry>, lines: nat, e: Entry, i: nat)
    requires Sorted(sorted) && i < |Last(sorted, lines)| && Last(sorted, lines)[i].timestamp < e.timestamp
    ensures multiset(Last(sorted, lines))[e] == multiset(sorted)[e]
    ensures NotOlder(sorted, e.timestamp) < lines
  {
    var k := |sorted| - Min(lines, |sorted|);
    assert sorted == sorted[..k] + sorted[k..];
    forall x | x in sorted[..k] ensures x != e {
      var j :| 0 <= j < k && sorted[j] == x;
      assert sorted[j].timestamp <= sorted[k + i].timestamp;
    }
    assert multiset(sorted[..k])[e] == 0;
    NotOlderBound(sorted, e.timestamp, k + i + 1);
  }

  // ---------------------------------------------------------------- agreement with keeping everything

  lemma {:induction false} InsertBelow(low: seq<Entry>, high: seq<Entry>, e: Entry)
    requires forall x :: x in high ==> e.timestamp < x.timestamp
    ensures Insert(low + high, e) == Insert(low, e) + high
    decreases |high|
  {
    if high == [] {
      assert low + high == low;
    } else {
      var all, init := low + high, high[..|high| - 1];
      assert all[..|all| - 1] == low + init && high == init + [high[|high| - 1]];
      InsertBelow(low, init, e);
      assert high[|high| - 1] in high;
      assert Insert(all, e) == Insert(low + init, e) + [high[|high| - 1]];
    }
  }

  lemma {:induction false} InsertAbove(low: seq<Entry>, high: seq<Entry>, e: Entry)
    requires forall x :: x in low ==> x.timestamp <= e.timestamp
    ensures Insert(low + high, e) == low + Insert(high, e)
    decreases |high|
  {
    var all := low + high;
    if high == [] {
      assert all == low && low != [] ==> low[|low| - 1] in low;
      assert Insert(low, e) == low + [e];
    } else if high[|high| - 1].timestamp > e.timestamp {
      var init := high[..|high| - 1];
      assert all[..|all| - 1] == low + init;
      InsertAbove(low, init, e);
    }
  }

  lemma SortSnoc(entries: seq<Entry>, e: Entry)
    ensures SortByTime(entries + [e]) == Insert(SortByTime(entries), e)
  {
    assert (entries + [e])[..|entries|] == entries;
  }

  lemma NotOlderSnoc(entries: seq<Entry>, e: Entry, t: int)
    ensures NotOlder(entries + [e], t) == NotOlder(entries, t) + if e.timestamp >= t then 1 else 0
  {
    assert (entries + [e])[..|entries|] == entries;
  }

  /**
    Taking `x` out of a list takes it out of the sorted list, where everything that came after
    it and is as new follows it.
   */
  lemma {:induction false} SortWithout(a: seq<Entry>, x: Entry, b: seq<Entry>) returns (p: seq<Entry>, q: seq<Entry>)
    ensures SortByTime(a + [x] + b) == p + [x] + q && SortByTime(a + b) == p + q
    ensures |q| >= NotOlder(b, x.timestamp)
    decreases |b|
  {
    if b == [] {
      assert a + [x] + b == a + [x] && a + b == a;
      SortSnoc(a, x);
      p, q := InsertSplits(SortByTime(a), x);
    } else {
      var init, last := b[..|b| - 1], b[|b| - 1];
      assert b == init + [last] && a + [x] + b == (a + [x] + init) + [last] && a + b == (a + init) + [last];
      SortSnoc(a + [x] + init, last);
      SortSnoc(a + init, last);
      NotOlderSnoc(init, last, x.timestamp);
      SortSorts(a + [x] + init);
      hide *;
      p, q := SortWithout(a, x, init);
      p, q := InsertAround(p, x, q, last);
    }
  }

  lemma {:induction false} InsertSplits(sorted: seq<Entry>, x: Entry) returns (p: seq<Entry>, q: seq<Entry>)
    ensures Insert(sorted, x) == p + [x] + q && sorted == p + q
    decreases |sorted|
  {
    var n := |sorted|;
    if n == 0 || sorted[n - 1].timestamp <= x.timestamp {
      p, q := sorted, [];
    } else {
      p, q := InsertSplits(sorted[..n - 1], x);
      q := q + [sorted[n - 1]];
      assert sorted == sorted[..n - 1] + [sorted[n - 1]];
    }
  }

  /** One more entry goes before or after `x`, whether `x` is there or not. */
  lemma InsertAround(p: seq<Entry>, x: Entry, q: seq<Entry>, e: Entry) returns (p': seq<Entry>, q': seq<Entry>)
    requires Sorted(p + [x] + q)
    ensures Insert(p + [x] + q, e) == p' + [x] + q' && Insert(p + q, e) == p' + q'
    ensures |q'| == |q| + if e.timestamp >= x.timestamp then 1 else 0
  {
    SortedAround(p, x, q);
    hide Sorted, Insert;
    if e.timestamp >= x.timestamp {
      p', q' := p, Insert(q, e);
      InsertAbove(p + [x], q, e);
      InsertAbove(p, q, e);
      InsertKeeps(q, e);
      assert |q'| == |multiset(q')| == |multiset(q)| + 1;
    } else {
      p', q' := Insert(p, e), q;
      InsertBelow(p, [x] + q, e);
      InsertBelow(p, q, e);
      assert p + [x] + q == p + ([x] + q) && p' + [x] + q == p' + ([x] + q);
    }
  }

  lemma SortedAround(p: seq<Entry>, x: Entry, q: seq<Entry>)
    requires Sorted(p + [x] + q)
    ensures forall y :: y in p ==> y.timestamp <= x.timestamp
    ensures forall y :: y in q ==> x.timestamp <= y.timestamp
  {
    var all := p + [x] + q;
    assert all[|p|] == x;
    assert forall i :: 0 <= i < |p| ==> all[i] == p[i];
    assert forall i :: 0 <= i < |q| ==> all[|p| + 1 + i] == q[i];
  }

  lemma Regroup(a: seq<Entry>, b: seq<Entry>, c: seq<Entry>)
    ensures a + b + c == a + (b + c)
  {
  }

  /** An entry that `n` later and no older ones follow can be dropped: the last `n` stay the same. */
  lemma DroppingOne(a: seq<Entry>, x: Entry, b: seq<Entry>, n: nat)
    requires NotOlder(b, x.timestamp) >= n
    ensures Newest(a + [x] + b, n) == Newest(a + b, n)
  {
    var p, q := SortWithout(a, x, b);
    LastOf(p + [x], q, n);
    LastOf(p, q, n);
  }

  lemma LastOf(p: seq<Entry>, q: seq<Entry>, n: nat)
    requires |q| >= n
    ensures Last(p + q, n) == Last(q, n)
  {
  }

  /** The first entry of a bucket with more than `n` is one of those. */
  lemma DroppingFirst(a: seq<Entry>, x: Entry, rest: seq<Entry>, b: seq<Entry>, n: nat)
    requires Sorted([x] + rest) && |rest| >= n
    ensures Newest(a + ([x] + rest) + b, n) == Newest(a + rest + b, n)
  {
    assert [] + [x] + rest == [x] + rest;
    SortedAround([], x, rest);
    hide Sorted, Newest, NotOlder;
    NotOlderConcat(rest, b, x.timestamp);
    NotOlderAll(rest, x.timestamp);
    DroppingOne(a, x, rest + b, n);
    assert a + ([x] + rest) + b == a + [x] + (rest + b);
    Regroup(a, rest, b);
  }

  lemma {:induction false} DroppingPrefix(a: seq<Entry>, bucket: seq<Entry>, b: seq<Entry>, n: nat)
    requires Sorted(bucket)
    ensures Newest(a + bucket + b, n) == Newest(a + Last(bucket, n) + b, n)
    decreases |bucket|
  {
    if |bucket| > n {
      var x, rest := bucket[0], bucket[1..];
      assert bucket == [x] + rest && Sorted(rest) && Last(bucket, n) == Last(rest, n);
      hide Sorted, Newest, Last;
      DroppingFirst(a, x, rest, b, n);
      DroppingPrefix(a, rest, b, n);
    } else {
      assert Last(bucket, n) == bucket;
    }
  }

  lemma MergedSnoc(entries: seq<Entry>, lines: nat, order: seq<string>)
    requires order != []
    ensures var init, own := order[..|order| - 1], Of(entries, order[|order| - 1]);
      && Merged(entries, lines, order) == Merged(entries, lines, init) + Last(own, lines)
      && Merged(entries, |entries|, order) == Merged(entries, |entries|, init) + own
  {
    OfShorter(entries, order[|order| - 1]);
  }

  lemma {:induction false} MergedAgrees(entries: seq<Entry>, lines: nat, order: seq<string>, b: seq<Entry>)
    requires InTimeOrder(entries)
    ensures Newest(Merged(entries, lines, order) + b, lines) == Newest(Merged(entries, |entries|, order) + b, lines)
    decreases |order|
  {
    if order == [] {
      assert Merged(entries, lines, order) == Merged(entries, |entries|, order);
    } else {
      var init, own := order[..|order| - 1], Of(entries, order[|order| - 1]);
      MergedSnoc(entries, lines, order);
      assert Sorted(own);
      hide *;
      MergedAgrees(entries, lines, init, Last(own, lines) + b);
      DroppingPrefix(Merged(entries, |entries|, init), own, b, lines);
      Regroup(Merged(entries, lines, init), Last(own, lines), b);
      Regroup(Merged(entries, |entries|, init), Last(own, lines), b);
    }
  }

  /**
    Bounded retention agrees with keeping everything: with every source in time order, what is
    shown is what sorting all that was accepted and cutting once would show, entry for entry.
   */
  lemma ShownAgreesWithKeepingAll(entries: seq<Entry>, lines: nat, order: seq<string>)
    requires InTimeOrder(entries)
    ensures Shown(entries, lines, order) == Newest(Merged(entries, |entries|, order), lines)
  {
    MergedAgrees(entries, lines, order, []);
    assert Merged(entries, lines, order) + [] == Merged(entries, lines, order);
    assert Merged(entries, |entries|, order) + [] == Merged(entries, |entries|, order);
  }

  /** Without that time order the newest entry can be lost: it arrives first and is pushed out. */
  lemma LateOlderEntryHidesNewer()
    ensures var newer, older := Entry("proxy", "info", 2, ""), Entry("proxy", "info", 1, "");
      Shown([newer, older], 1, ["proxy"]) == [older]
  {
    var newer, older := Entry("proxy", "info", 2, ""), Entry("proxy", "info", 1, "");
    ShownUnfolds([newer, older], 1, ["proxy"]);
    OfTwo(newer, older, "proxy");
    MergedOne([newer, older], 1, "proxy");
    SortOne(older);
    hide Of, Merged, SortByTime, Insert, Shown;
    assert Last([newer, older], 1) == [older] && Last([older], 1) == [older];
  }

  lemma OfTwo(a: Entry, b: Entry, source: string)
    requires a.source == b.source == source
    ensures Of([a, b], source) == [a, b]
  {
    assert [a, b][..1] == [a] && [a][..0] == [];
    assert Of([a], source) == [a];
  }

  lemma MergedOne(entries: seq<Entry>, lines: nat, source: string)
    ensures Merged(entries, lines, [source]) == Last(Of(entries, source), lines)
  {
    assert [source][..0] == [];
    assert Merged(entries, lines, []) == [];
  }

  lemma SortOne(e: Entry)
    ensures SortByTime([e]) == [e]
  {
    assert [e][..0] == [];
    assert SortByTime([]) == [];
  }
}
