/**
  The frequency-rank aggregator that every crawler repeats: a counting loop
  that builds a `map[string]int` by incrementing one entry per record, the
  `getTopN` helper that lists the map, sorts it by descending count and keeps
  a prefix, and the "first five records" sample loop of the reports.
 */
module Aggregate {
  import opened Text

  /** One entry of the ranked list (Go's `KeyValue`). */
  datatype KeyValue = KeyValue(key: Bytes, value: int)

  // ---------------------------------------------------------------------------
  // Frequency tables

  /** Go's map read: a missing key reads as the zero value. */
  function Lookup(m: map<Bytes, int>, k: Bytes): int
  {
    if k in m then m[k] else 0
  }

  /** Go's `m[k]++`. */
  function Increment(m: map<Bytes, int>, k: Bytes): (m': map<Bytes, int>)
    ensures m'.Keys == m.Keys + {k}
    ensures Lookup(m', k) == Lookup(m, k) + 1
    ensures forall j :: j != k ==> Lookup(m', j) == Lookup(m, j)
  {
    m[k := Lookup(m, k) + 1]
  }

  /** The table the counting loop has built after visiting `rs` in order. */
  function TallyBy<R>(rs: seq<R>, field: R -> Bytes): map<Bytes, int>
  {
    if |rs| == 0 then map[]
    else Increment(TallyBy(rs[..|rs| - 1], field), field(rs[|rs| - 1]))
  }

  /** How many of `rs` have field value `k` (an independent reference count). */
  function Occurrences<R>(rs: seq<R>, field: R -> Bytes, k: Bytes): nat
  {
    if rs == [] then 0
    else (if field(rs[0]) == k then 1 else 0) + Occurrences(rs[1..], field, k)
  }

  lemma {:induction false} OccurrencesSnoc<R>(rs: seq<R>, r: R, field: R -> Bytes, k: Bytes)
    ensures Occurrences(rs + [r], field, k) == Occurrences(rs, field, k) + (if field(r) == k then 1 else 0)
  {
    if rs != [] {
      assert (rs + [r])[1..] == rs[1..] + [r];
      OccurrencesSnoc(rs[1..], r, field, k);
    }
  }

  /**
    After the counting loop, every key's entry is the number of records with
    that field value (the empty value included), and exactly the values that
    occur are keys.
   */
  lemma {:induction false} TallyCounts<R>(rs: seq<R>, field: R -> Bytes, k: Bytes)
    ensures Lookup(TallyBy(rs, field), k) == Occurrences(rs, field, k)
    ensures k in TallyBy(rs, field) <==> Occurrences(rs, field, k) > 0
  {
    if |rs| > 0 {
      var init, last := rs[..|rs| - 1], rs[|rs| - 1];
      TallyCounts(init, field, k);
      assert rs == init + [last];
      OccurrencesSnoc(init, last, field, k);
    }
  }

  /** Every count in a frequency table is positive. */
  lemma {:induction false} TallyPositive<R>(rs: seq<R>, field: R -> Bytes)
    ensures forall k :: k in TallyBy(rs, field) ==> TallyBy(rs, field)[k] >= 1
  {
    if |rs| > 0 {
      TallyPositive(rs[..|rs| - 1], field);
    }
  }

  /** Some key of a non-empty table. */
  ghost function Pick(m: map<Bytes, int>): (k: Bytes)
    requires |m| > 0
    ensures k in m
  {
    assert m.Keys != {};
    var k :| k in m.Keys; k
  }

  /** The sum of all counts of a table (keys visited in any order). */
  ghost function MapSum(m: map<Bytes, int>): int
    decreases |m|
  {
    if |m| == 0 then 0
    else
      var k := Pick(m);
      assert (m - {k}).Keys == m.Keys - {k};
      m[k] + MapSum(m - {k})
  }

  /** The sum does not depend on which key is taken out first. */
  lemma {:induction false} MapSumRemove(m: map<Bytes, int>, k: Bytes)
    requires k in m
    ensures MapSum(m) == m[k] + MapSum(m - {k})
    decreases |m|
  {
    var j := Pick(m);
    if j != k {
      var mj, mk := m - {j}, m - {k};
      assert mj.Keys == m.Keys - {j};
      assert mk.Keys == m.Keys - {k};
      assert k in mj && j in mk;
      MapSumRemove(mj, k);
      MapSumRemove(mk, j);
      assert mj - {k} == mk - {j};
    }
  }

  lemma MapSumIncrement(m: map<Bytes, int>, k: Bytes)
    ensures MapSum(Increment(m, k)) == MapSum(m) + 1
  {
    var m' := Increment(m, k);
    MapSumRemove(m', k);
    if k in m {
      MapSumRemove(m, k);
      assert m' - {k} == m - {k};
    } else {
      assert m' - {k} == m;
    }
  }

  /** The counts of a frequency table add up to the number of records. */
  lemma {:induction false} TallySum<R>(rs: seq<R>, field: R -> Bytes)
    ensures MapSum(TallyBy(rs, field)) == |rs|
  {
    if |rs| > 0 {
      TallySum(rs[..|rs| - 1], field);
      MapSumIncrement(TallyBy(rs[..|rs| - 1], field), field(rs[|rs| - 1]));
    }
  }

  /** The counting loop: one increment of `field(r)` per record `r`, in order. */
  method CountBy<R>(records: seq<R>, field: R -> Bytes) returns (counts: map<Bytes, int>)
    ensures counts == TallyBy(records, field)
  {
    counts := map[];
    var i := 0;
    while i < |records|
      invariant 0 <= i <= |records|
      invariant counts == TallyBy(records[..i], field)
    {
      assert records[..i + 1][..i] == records[..i];
      counts := Increment(counts, field(records[i]));
      i := i + 1;
    }
    assert records[..i] == records;
  }

  // ---------------------------------------------------------------------------
  // getTopN

  predicate Listed(r: seq<KeyValue>, k: Bytes)
  {
    exists i :: 0 <= i < |r| && r[i].key == k
  }

  predicate SortedDesc(s: seq<KeyValue>)
  {
    forall i, j :: 0 <= i < j < |s| ==> s[i].value >= s[j].value
  }

  /** Every entry is `(k, m[k])` for a key `k` of the map. */
  predicate EntriesOf(m: map<Bytes, int>, s: seq<KeyValue>)
  {
    forall i :: 0 <= i < |s| ==> s[i].key in m && s[i].value == m[s[i].key]
  }

  predicate DistinctKeys(s: seq<KeyValue>)
  {
    forall i, j :: 0 <= i < j < |s| ==> s[i].key != s[j].key
  }

  /**
    `r` is a valid answer of `getTopN(m, n)`: min(n, |m|) distinct entries of
    the map in non-increasing count order, and no key left out counts more
    than any listed one. Which of several equally counted keys is listed first,
    or at all, is left open, as Go's unstable sort over a map leaves it.
   */
  predicate IsTopN(m: map<Bytes, int>, n: nat, r: seq<KeyValue>)
  {
    && |r| == Min(n, |m|)
    && SortedDesc(r)
    && EntriesOf(m, r)
    && DistinctKeys(r)
    && forall k :: k in m && !Listed(r, k) ==> forall i :: 0 <= i < |r| ==> m[k] <= r[i].value
  }

  /** `sort.Slice(kvList, func(i, j) { kvList[i].Value > kvList[j].Value })`, in place. */
  method SortByValueDesc(a: array<KeyValue>)
    modifies a
    ensures SortedDesc(a[..])
    ensures multiset(a[..]) == multiset(old(a[..]))
  {
    var i := 0;
    while i < a.Length
      invariant 0 <= i <= a.Length
      invariant SortedPrefix(a[..], i)
      invariant multiset(a[..]) == multiset(old(a[..]))
    {
      InsertLast(a, i);
      i := i + 1;
    }
  }

  /** The first `n` entries are in non-increasing count order. */
  predicate SortedPrefix(s: seq<KeyValue>, n: int)
  {
    forall p, q :: 0 <= p < q < n && q < |s| ==> s[p].value >= s[q].value
  }

  /** The first `i + 1` entries but the one at `j` are in order, and that one counts more than those after it. */
  predicate Inserting(s: seq<KeyValue>, i: int, j: int)
  {
    && (forall p, q :: 0 <= p < q <= i && q < |s| && p != j && q != j ==> s[p].value >= s[q].value)
    && (forall q :: j < q <= i && 0 <= j && q < |s| ==> s[j].value > s[q].value)
  }

  /** One insertion step: `a[i]` moves left past every smaller count. */
  method InsertLast(a: array<KeyValue>, i: int)
    requires 0 <= i < a.Length
    requires SortedPrefix(a[..], i)
    modifies a
    ensures SortedPrefix(a[..], i + 1)
    ensures multiset(a[..]) == multiset(old(a[..]))
  {
    var j := i;
    while j > 0 && a[j - 1].value < a[j].value
      invariant 0 <= j <= i
      invariant Inserting(a[..], i, j)
      invariant multiset(a[..]) == multiset(old(a[..]))
    {
      ghost var before := a[..];
      a[j - 1], a[j] := a[j], a[j - 1];
      assert a[..] == before[j - 1 := before[j]][j := before[j - 1]];
      SwapStep(before, a[..], i, j);
      j := j - 1;
    }
    InsertionDone(a[..], i, j);
  }

  /** Swapping `s[j]` left past a smaller count keeps the insertion invariant, one place further left. */
  lemma SwapStep(s: seq<KeyValue>, t: seq<KeyValue>, i: int, j: int)
    requires 0 < j <= i < |s|
    requires t == s[j - 1 := s[j]][j := s[j - 1]]
    requires s[j - 1].value < s[j].value
    requires Inserting(s, i, j)
    ensures Inserting(t, i, j - 1)
    ensures multiset(t) == multiset(s)
  {
  }

  /** Once the moving entry meets a count at least as large (or the front), the prefix is sorted. */
  lemma InsertionDone(s: seq<KeyValue>, i: int, j: int)
    requires 0 <= j <= i < |s|
    requires Inserting(s, i, j)
    requires j == 0 || s[j - 1].value >= s[j].value
    ensures SortedPrefix(s, i + 1)
  {
  }

  lemma {:induction false} DistinctCountsOnce(s: seq<KeyValue>, x: KeyValue)
    requires forall i, j :: 0 <= i < j < |s| ==> s[i] != s[j]
    ensures multiset(s)[x] <= 1
  {
    if s != [] {
      assert s == [s[0]] + s[1..];
      DistinctCountsOnce(s[1..], x);
      if s[0] == x {
        assert x !in s[1..];
      }
    }
  }

  lemma RepeatCountsTwice(s: seq<KeyValue>, i: int, j: int)
    requires 0 <= i < j < |s| && s[i] == s[j]
    ensures multiset(s)[s[i]] >= 2
  {
    assert s == s[..j] + s[j..];
    assert s[..j][i] == s[i];
    assert s[j..][0] == s[i];
  }

  /** A permutation of a list of distinct entries of `m` has distinct keys. */
  lemma PermutationKeepsKeysDistinct(m: map<Bytes, int>, l: seq<KeyValue>, s: seq<KeyValue>)
    requires multiset(l) == multiset(s)
    requires EntriesOf(m, l) && DistinctKeys(l)
    ensures EntriesOf(m, s) && DistinctKeys(s)
  {
    forall i | 0 <= i < |s|
      ensures s[i].key in m && s[i].value == m[s[i].key]
    {
      assert s[i] in multiset(s);
      assert s[i] in l;
    }
    forall i, j | 0 <= i < j < |s|
      ensures s[i].key != s[j].key
    {
      if s[i].key == s[j].key {
        assert s[i] == s[j];
        RepeatCountsTwice(s, i, j);
        DistinctCountsOnce(l, s[i]);
      }
    }
  }

  /** An enumeration of the whole table: each key of `m` exactly once. */
  predicate Enumerates(m: map<Bytes, int>, s: seq<KeyValue>)
  {
    && EntriesOf(m, s)
    && DistinctKeys(s)
    && (forall k :: k in m ==> Listed(s, k))
    && |s| == |m|
  }

  /** `s` lists the entries of `m` for exactly the keys in `seen`, each once. */
  ghost predicate ListsExactly(m: map<Bytes, int>, s: seq<KeyValue>, seen: set<Bytes>)
  {
    && EntriesOf(m, s)
    && DistinctKeys(s)
    && (forall i :: 0 <= i < |s| ==> s[i].key in seen)
    && (forall k :: k in seen ==> Listed(s, k))
    && |s| == |seen|
  }

  lemma AppendEntry(m: map<Bytes, int>, s: seq<KeyValue>, seen: set<Bytes>, k: Bytes)
    requires k in m && k !in seen
    requires ListsExactly(m, s, seen)
    ensures ListsExactly(m, s + [KeyValue(k, m[k])], seen + {k})
  {
    var s' := s + [KeyValue(k, m[k])];
    forall j | j in seen + {k}
      ensures Listed(s', j)
    {
      if j == k {
        assert s'[|s|].key == k;
      } else {
        var i :| 0 <= i < |s| && s[i].key == j;
        assert s'[i].key == j;
      }
    }
  }

  /**
    `for k, v := range m { kvList = append(kvList, KeyValue{k, v}) }`: the
    entries of the map, in whatever order the map yields them.
   */
  method ListEntries(m: map<Bytes, int>) returns (kvList: seq<KeyValue>)
    ensures Enumerates(m, kvList)
  {
    kvList := [];
    var rest := m.Keys;
    ghost var seen: set<Bytes> := {};
    while rest != {}
      invariant rest !! seen && rest + seen == m.Keys
      invariant ListsExactly(m, kvList, seen)
      decreases |rest|
    {
      var k :| k in rest;
      AppendEntry(m, kvList, seen, k);
      kvList := kvList + [KeyValue(k, m[k])];
      seen := seen + {k};
      rest := rest - {k};
    }
    assert seen == m.Keys;
  }

  /** Sorting an enumeration keeps it an enumeration. */
  lemma SortedEnumeration(m: map<Bytes, int>, l: seq<KeyValue>, s: seq<KeyValue>)
    requires multiset(l) == multiset(s)
    requires Enumerates(m, l)
    ensures Enumerates(m, s)
  {
    PermutationKeepsKeysDistinct(m, l, s);
    assert |l| == |multiset(l)| == |multiset(s)| == |s|;
    forall k | k in m
      ensures Listed(s, k)
    {
      var p :| 0 <= p < |l| && l[p].key == k;
      assert l[p] in multiset(s);
      var q :| 0 <= q < |s| && s[q] == l[p];
    }
  }

  /** A prefix of a sorted enumeration is a top-N answer. */
  lemma SortedPrefixIsTopN(m: map<Bytes, int>, s: seq<KeyValue>, count: nat)
    requires Enumerates(m, s) && SortedDesc(s)
    requires count <= |s|
    ensures IsTopN(m, count, s[..count])
  {
    var top := s[..count];
    forall k | k in m && !Listed(top, k)
      ensures forall i :: 0 <= i < |top| ==> m[k] <= top[i].value
    {
      var q :| 0 <= q < |s| && s[q].key == k;
      assert forall i :: 0 <= i < count ==> s[i] == top[i];
      assert q >= count;
    }
  }

  /**
    `getTopN(m, n)`: list the map's entries, sort them by descending count,
    clamp `n` to the list's length and return that prefix. A negative `n`
    makes `kvList[:n]` panic, so it is excluded.
   */
  method TopN(m: map<Bytes, int>, n: int) returns (top: seq<KeyValue>)
    requires n >= 0
    ensures IsTopN(m, n, top)
    ensures n == 0 || |m| == 0 ==> top == []
  {
    var kvList := ListEntries(m);
    var a := new KeyValue[|kvList|](i requires 0 <= i < |kvList| => kvList[i]);
    assert a[..] == kvList;
    SortByValueDesc(a);
    SortedEnumeration(m, kvList, a[..]);

    var count := n;
    if count > a.Length {
      count := a.Length;
    }
    top := a[..count];
    SortedPrefixIsTopN(m, a[..], count);
  }

  lemma TallySnoc<R>(rs: seq<R>, r: R, field: R -> Bytes)
    ensures TallyBy(rs + [r], field) == Increment(TallyBy(rs, field), field(r))
  {
    assert (rs + [r])[..|rs|] == rs;
  }

  /** A record that is its own categorical value. */
  function SelfKey(k: Bytes): Bytes
  {
    k
  }

  /** Counting records A, B, A, C, A, B gives A: 3, B: 2, C: 1. */
  lemma SixRecordsTally()
    ensures TallyBy([[65], [66], [65], [67], [65], [66]], SelfKey) == map[[65] := 3, [66] := 2, [67] := 1]
  {
    var a, b, c: Bytes := [65], [66], [67];
    assert [a] == [] + [a];
    assert [a, b] == [a] + [b];
    assert [a, b, a] == [a, b] + [a];
    assert [a, b, a, c] == [a, b, a] + [c];
    assert [a, b, a, c, a] == [a, b, a, c] + [a];
    assert [a, b, a, c, a, b] == [a, b, a, c, a] + [b];
    TallySnoc([], a, SelfKey);
    TallySnoc([a], b, SelfKey);
    TallySnoc([a, b], a, SelfKey);
    TallySnoc([a, b, a], c, SelfKey);
    TallySnoc([a, b, a, c], a, SelfKey);
    TallySnoc([a, b, a, c, a], b, SelfKey);
    assert TallyBy([a, b], SelfKey) == map[a := 1, b := 1];
    assert TallyBy([a, b, a, c], SelfKey) == map[a := 2, b := 1, c := 1];
  }

  /**
    The top two of the table A: 3, B: 2, C: 1: whatever order the map and the
    sort pick, the answer is forced to be [(A, 3), (B, 2)].
   */
  lemma TopTwoOfTable(r: seq<KeyValue>)
    requires IsTopN(map[[65] := 3, [66] := 2, [67] := 1], 2, r)
    ensures r == [KeyValue([65], 3), KeyValue([66], 2)]
  {
    var a, b, c: Bytes := [65], [66], [67];
    var m := map[a := 3, b := 2, c := 1];
    assert m.Keys == {a, b, c};
    assert |r| == 2;
    // A is listed, and first: nothing else reaches its count.
    assert r[0].value == m[r[0].key] && r[1].value == m[r[1].key];
    assert r[0].key == a;
    // The second is B: leaving B out would put C above it.
    assert r[1].key == b;
  }

  /** The ranking scenario of six records: the top two are (A, 3) then (B, 2). */
  lemma TopTwoOfSixRecords(r: seq<KeyValue>)
    requires IsTopN(TallyBy([[65], [66], [65], [67], [65], [66]], SelfKey), 2, r)
    ensures r == [KeyValue([65], 3), KeyValue([66], 2)]
  {
    SixRecordsTally();
    TopTwoOfTable(r);
  }

  // ---------------------------------------------------------------------------
  // Sample loop

  /**
    `for i, r := range records { if i >= limit { break } ... }`: the records
    the report shows are the first `limit` of them (all, if there are fewer).
   */
  method Sample<R>(records: seq<R>, limit: nat) returns (shown: seq<R>)
    ensures |shown| == Min(limit, |records|)
    ensures shown == records[..|shown|]
  {
    shown := [];
    var i := 0;
    while i < |records|
      invariant 0 <= i <= |records| && i <= limit
      invariant shown == records[..i]
    {
      if i >= limit {
        break;
      }
      shown := shown + [records[i]];
      i := i + 1;
    }
  }
}
