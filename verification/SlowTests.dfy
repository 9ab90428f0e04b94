/**
 The verbose test runner's list of slowest tests: `recordSlow` keeps ten entries in a fixed array, and
 the report prints them until the first empty one.
 */
module SlowTests {
  import opened Collections

  const LIMIT := 10

  datatype SlowTest = SlowTest(name: string, ns: nat)

  const NO_TEST := SlowTest("", 0)

  // ----- What the array is meant to hold ----------------------------------------------------------

  ghost predicate Descending(s: seq<SlowTest>) {
    forall i, j :: 0 <= i < j < |s| ==> s[i].ns >= s[j].ns
  }

  /** The entries with one duration, in order. */
  function WithNs(s: seq<SlowTest>, ns: nat): seq<SlowTest> {
    if s == [] then []
    else WithNs(s[..|s| - 1], ns) + if s[|s| - 1].ns == ns then [s[|s| - 1]] else []
  }

  /** `s` is the stable descending sort of `tests`: sorted, and equal durations keep their order. */
  ghost predicate StableSort(s: seq<SlowTest>, tests: seq<SlowTest>) {
    Descending(s) && forall ns: nat :: WithNs(s, ns) == WithNs(tests, ns)
  }

  /** The number of entries at the front that are at least as slow as ns. */
  function Rank(s: seq<SlowTest>, ns: nat): (k: nat)
    ensures k <= |s|
    ensures forall i :: 0 <= i < k ==> ns <= s[i].ns
    ensures k < |s| ==> s[k].ns < ns
  {
    if s == [] || s[0].ns < ns then 0 else 1 + Rank(s[1..], ns)
  }

  /** Insertion behind every entry at least as slow. */
  function Insert(s: seq<SlowTest>, t: SlowTest): seq<SlowTest> {
    s[..Rank(s, t.ns)] + [t] + s[Rank(s, t.ns)..]
  }

  /** The tests that took measurable time, slowest first. */
  function Ranking(tests: seq<SlowTest>): seq<SlowTest> {
    if tests == [] then []
    else
      var r := Ranking(tests[..|tests| - 1]);
      if tests[|tests| - 1].ns > 0 then Insert(r, tests[|tests| - 1]) else r
  }

  function Positive(tests: seq<SlowTest>): seq<SlowTest> {
    if tests == [] then []
    else Positive(tests[..|tests| - 1]) + if tests[|tests| - 1].ns > 0 then [tests[|tests| - 1]] else []
  }

  // ----- The ranking is the stable sort, and there is only one ---------------------------------------

  lemma {:induction false} WithNsAppend(a: seq<SlowTest>, b: seq<SlowTest>, ns: nat)
    ensures WithNs(a + b, ns) == WithNs(a, ns) + WithNs(b, ns)
  {
    if b == [] {
      assert a + b == a && WithNs(a, ns) + [] == WithNs(a, ns);
    } else {
      var init, t := b[..|b| - 1], b[|b| - 1];
      WithNsAppend(a, init, ns);
      assert (a + b)[..|a + b| - 1] == a + init;
      Reassociate(WithNs(a, ns), WithNs(init, ns), if t.ns == ns then [t] else []);
    }
  }

  lemma {:induction false} WithNsNone(s: seq<SlowTest>, ns: nat)
    requires forall i :: 0 <= i < |s| ==> s[i].ns != ns
    ensures WithNs(s, ns) == []
  {
    if s != [] {
      WithNsNone(s[..|s| - 1], ns);
    }
  }

  lemma WithNsOne(t: SlowTest, ns: nat)
    ensures WithNs([t], ns) == if t.ns == ns then [t] else []
  {
    assert [t][..0] == [];
  }

  lemma InsertDescending(s: seq<SlowTest>, t: SlowTest)
    requires Descending(s)
    ensures Descending(Insert(s, t))
  {
    var k, r := Rank(s, t.ns), Insert(s, t);
    forall i, j | 0 <= i < j < |r|
      ensures r[i].ns >= r[j].ns
    {
      assert k < |s| && j > k ==> s[k].ns >= s[j - 1].ns;
    }
  }

  lemma InsertWithNs(s: seq<SlowTest>, t: SlowTest, ns: nat)
    requires Descending(s)
    ensures WithNs(Insert(s, t), ns) == WithNs(s, ns) + if t.ns == ns then [t] else []
  {
    var a, b := s[..Rank(s, t.ns)], s[Rank(s, t.ns)..];
    assert s == a + b;
    InsertBetween(a, t, b, ns);
    if t.ns == ns {
      BelowRank(s, ns);
      WithNsNone(b, ns);
    }
    NothingBetween(WithNs(a, ns), if t.ns == ns then [t] else [], WithNs(b, ns));
  }

  lemma NothingBetween<T>(x: seq<T>, m: seq<T>, y: seq<T>)
    requires m == [] || y == []
    ensures x + m + y == x + y + m
  {}

  lemma BelowRank(s: seq<SlowTest>, ns: nat)
    requires Descending(s)
    ensures forall i :: 0 <= i < |s[Rank(s, ns)..]| ==> s[Rank(s, ns)..][i].ns < ns
  {}

  lemma InsertBetween(a: seq<SlowTest>, t: SlowTest, b: seq<SlowTest>, ns: nat)
    ensures WithNs(a + b, ns) == WithNs(a, ns) + WithNs(b, ns)
    ensures WithNs(a + [t] + b, ns) == WithNs(a, ns) + (if t.ns == ns then [t] else []) + WithNs(b, ns)
  {
    WithNsAppend(a, b, ns);
    WithNsAppend(a + [t], b, ns);
    WithNsAppend(a, [t], ns);
    WithNsOne(t, ns);
  }

  lemma {:induction false} RankingIsStableSort(tests: seq<SlowTest>)
    ensures StableSort(Ranking(tests), Positive(tests))
  {
    if tests != [] {
      var init, t := tests[..|tests| - 1], tests[|tests| - 1];
      RankingIsStableSort(init);
      var r, p := Ranking(init), Positive(init);
      if t.ns > 0 {
        InsertDescending(r, t);
        forall ns: nat
          ensures WithNs(Insert(r, t), ns) == WithNs(p + [t], ns)
        {
          InsertWithNs(r, t, ns);
          WithNsAppend(p, [t], ns);
          WithNsOne(t, ns);
        }
      } else {
        assert p + [] == p;
      }
    }
  }

  lemma {:induction false} InWithNs(s: seq<SlowTest>, t: SlowTest)
    ensures t in WithNs(s, t.ns) <==> t in s
  {
    if s != [] {
      InWithNs(s[..|s| - 1], t);
      assert s == s[..|s| - 1] + [s[|s| - 1]];
    }
  }

  /** Two descending lists with the same entries at every duration, in the same order, are the same list. */
  lemma {:induction false} StableSortUnique(a: seq<SlowTest>, b: seq<SlowTest>)
    requires Descending(a) && Descending(b)
    requires forall ns: nat :: WithNs(a, ns) == WithNs(b, ns)
    ensures a == b
    decreases |a| + |b|
  {
    if a == [] || b == [] {
      if a != [] { InWithNs(a, a[0]); InWithNs(b, a[0]); }
      if b != [] { InWithNs(b, b[0]); InWithNs(a, b[0]); }
    } else {
      var x, y := a[|a| - 1], b[|b| - 1];
      InWithNs(a, x);
      InWithNs(b, x);
      InWithNs(a, y);
      InWithNs(b, y);
      assert x in b && y in a;
      assert x.ns == y.ns;
      var a', b' := a[..|a| - 1], b[..|b| - 1];
      forall ns: nat
        ensures WithNs(a', ns) == WithNs(b', ns)
      {
        assert WithNs(a, ns) == WithNs(b, ns);
        if ns == x.ns { LastOf(WithNs(a', ns), x, WithNs(b', ns), y); }
        assert WithNs(a', ns) + [] == WithNs(a', ns) && WithNs(b', ns) + [] == WithNs(b', ns);
      }
      assert WithNs(a, x.ns) == WithNs(b, x.ns);
      LastOf(WithNs(a', x.ns), x, WithNs(b', x.ns), y);
      StableSortUnique(a', b');
      assert a == a' + [x] && b == b' + [y];
    }
  }

  lemma LastOf<T>(a: seq<T>, x: T, b: seq<T>, y: T)
    requires a + [x] == b + [y]
    ensures a == b && x == y
  {
    assert (a + [x])[|a + [x]| - 1] == x && (b + [y])[|b + [y]| - 1] == y;
    assert (a + [x])[..|a + [x]| - 1] == a && (b + [y])[..|b + [y]| - 1] == b;
  }

  // ----- The array ---------------------------------------------------------------------------------------

  /** The first n entries, padded with empty ones. */
  function Padded(s: seq<SlowTest>, n: nat): (r: seq<SlowTest>)
    ensures |r| == n
    ensures forall i :: 0 <= i < n ==> r[i] == if i < |s| then s[i] else NO_TEST
  {
    seq(n, i requires 0 <= i < n => if i < |s| then s[i] else NO_TEST)
  }

  lemma {:induction false} RankingPositive(tests: seq<SlowTest>)
    ensures Descending(Ranking(tests)) && AllPositive(Ranking(tests))
  {
    if tests != [] {
      RankingPositive(tests[..|tests| - 1]);
      if tests[|tests| - 1].ns > 0 {
        InsertDescending(Ranking(tests[..|tests| - 1]), tests[|tests| - 1]);
      }
    }
  }

  lemma {:induction false} RankAt(s: seq<SlowTest>, ns: nat, k: nat)
    requires k <= |s| && forall i :: 0 <= i < k ==> ns <= s[i].ns
    ensures Rank(s, ns) >= k
    ensures k < |s| && s[k].ns < ns ==> Rank(s, ns) == k
    ensures k == |s| ==> Rank(s, ns) == k
  {
    if k > 0 {
      RankAt(s[1..], ns, k - 1);
    }
  }

  /** What insertion does to the first ten places: later entries move down one, the last falls off. */
  lemma PaddedInsert(s: seq<SlowTest>, t: SlowTest, k: nat)
    requires k < LIMIT
    ensures Padded(Insert(s, t), LIMIT)[k]
            == if k < Rank(s, t.ns) then Padded(s, LIMIT)[k]
               else if k == Rank(s, t.ns) then t
               else Padded(s, LIMIT)[k - 1]
  {}

  /** An entry no slower than the last of ten changes nothing. */
  lemma PaddedUnchanged(s: seq<SlowTest>, t: SlowTest)
    requires Descending(s) && t.ns > 0 && t.ns <= Padded(s, LIMIT)[LIMIT - 1].ns
    ensures Padded(Insert(s, t), LIMIT) == Padded(s, LIMIT)
  {
    RankAt(s, t.ns, LIMIT);
    forall k | 0 <= k < LIMIT
      ensures Padded(Insert(s, t), LIMIT)[k] == Padded(s, LIMIT)[k]
    {
      PaddedInsert(s, t, k);
    }
  }

  ghost predicate AllPositive(s: seq<SlowTest>) {
    forall i :: 0 <= i < |s| ==> s[i].ns > 0
  }

  /** `recordSlow`. */
  method RecordSlow(slowest: array<SlowTest>, name: string, ns: nat, ghost ranking: seq<SlowTest>)
    requires slowest.Length == LIMIT && slowest[..] == Padded(ranking, LIMIT)
    requires Descending(ranking) && AllPositive(ranking)
    modifies slowest
    ensures slowest[..] == Padded(if ns > 0 then Insert(ranking, SlowTest(name, ns)) else ranking, LIMIT)
  {
    ghost var t := SlowTest(name, ns);
    assert slowest[LIMIT - 1] == slowest[..][LIMIT - 1];
    if ns <= slowest[slowest.Length - 1].ns {
      if ns > 0 { PaddedUnchanged(ranking, t); }
      return;
    }
    var pos := FindPlace(slowest, ns);
    PlaceIsRank(slowest[..], ranking, ns, pos);
    ShiftIn(slowest, pos, SlowTest(name, ns));
    forall k | 0 <= k < LIMIT
      ensures slowest[k] == Padded(Insert(ranking, t), LIMIT)[k]
    {
      PaddedInsert(ranking, t, k);
      assert k < pos ==> slowest[k] == old(slowest[..])[k];
      assert k > pos ==> slowest[k] == old(slowest[..])[k - 1];
    }
  }

  /** The search loop: past every entry at least as slow. */
  method FindPlace(slowest: array<SlowTest>, ns: nat) returns (pos: nat)
    requires slowest.Length == LIMIT && slowest[LIMIT - 1].ns < ns
    ensures pos < LIMIT && slowest[pos].ns < ns
    ensures forall i :: 0 <= i < pos ==> ns <= slowest[i].ns
  {
    pos := 0;
    while pos < slowest.Length && ns <= slowest[pos].ns
      invariant pos <= slowest.Length
      invariant forall i :: 0 <= i < pos ==> ns <= slowest[i].ns
    {
      pos := pos + 1;
    }
  }

  lemma PlaceIsRank(entries: seq<SlowTest>, ranking: seq<SlowTest>, ns: nat, pos: nat)
    requires entries == Padded(ranking, LIMIT) && AllPositive(ranking)
    requires pos < LIMIT && entries[pos].ns < ns
    requires forall i :: 0 <= i < pos ==> ns <= entries[i].ns
    ensures Rank(ranking, ns) == pos
  {
    forall i | 0 <= i < pos
      ensures i < |ranking| && ns <= ranking[i].ns
    {
      assert entries[i] == Padded(ranking, LIMIT)[i];
    }
    if pos > 0 { assert entries[pos - 1] == Padded(ranking, LIMIT)[pos - 1]; }
    RankAt(ranking, ns, pos);
  }

  /** The shifting loop: entries from pos on move down one, the last is dropped. */
  method ShiftIn(slowest: array<SlowTest>, pos: nat, t: SlowTest)
    requires slowest.Length == LIMIT && pos < LIMIT
    modifies slowest
    ensures slowest[pos] == t
    ensures forall k :: 0 <= k < pos ==> slowest[k] == old(slowest[k])
    ensures forall k :: pos < k < LIMIT ==> slowest[k] == old(slowest[k - 1])
  {
    var i := slowest.Length - 1;
    while i > pos
      invariant pos <= i < slowest.Length
      invariant forall k :: 0 <= k <= i ==> slowest[k] == old(slowest[k])
      invariant forall k :: i < k < LIMIT ==> slowest[k] == old(slowest[k - 1])
    {
      slowest[i] := slowest[i - 1];
      i := i - 1;
    }
    slowest[pos] := t;
  }

  /** The report loop: print entries until the first empty one. */
  method Report(slowest: array<SlowTest>) returns (printed: seq<SlowTest>)
    requires slowest.Length == LIMIT
    ensures printed <= slowest[..]
    ensures AllPositive(printed)
    ensures |printed| < LIMIT ==> slowest[|printed|].ns == 0
  {
    printed := [];
    var i := 0;
    while i < slowest.Length
      invariant i <= slowest.Length && printed == slowest[..i]
      invariant forall k :: 0 <= k < i ==> slowest[k].ns > 0
    {
      if slowest[i].ns <= 0 {
        return;
      }
      printed := printed + [slowest[i]];
      i := i + 1;
    }
    assert slowest[..i] == slowest[..];
  }

  /**
   The runner's main loop: record every test, then report.  What is printed is the stable descending
   sort of the measurable durations, cut at ten: the early break hides nothing that was recorded.
   */
  method RunAll(tests: seq<SlowTest>) returns (printed: seq<SlowTest>)
    ensures StableSort(Ranking(tests), Positive(tests))
    ensures printed == if |Ranking(tests)| > 10 then Ranking(tests)[..10] else Ranking(tests)
  {
    var slowest := new SlowTest[LIMIT](_ => NO_TEST);
    assert slowest[..] == Padded([], LIMIT);
    for i := 0 to |tests|
      invariant slowest.Length == LIMIT && slowest[..] == Padded(Ranking(tests[..i]), LIMIT)
    {
      RankingPositive(tests[..i]);
      assert tests[..i + 1][..i] == tests[..i];
      RecordSlow(slowest, tests[i].name, tests[i].ns, Ranking(tests[..i]));
    }
    assert tests[..|tests|] == tests;
    RankingIsStableSort(tests);
    RankingPositive(tests);
    printed := Report(slowest);
    PrintedIsTop(slowest[..], Ranking(tests), printed);
  }

  lemma PrintedIsTop(entries: seq<SlowTest>, sorted: seq<SlowTest>, printed: seq<SlowTest>)
    requires entries == Padded(sorted, LIMIT) && AllPositive(sorted)
    requires printed <= entries && AllPositive(printed)
    requires |printed| < LIMIT ==> entries[|printed|].ns == 0
    ensures printed == if |sorted| > LIMIT then sorted[..LIMIT] else sorted
  {
    forall i | 0 <= i < |printed|
      ensures i < |sorted| && printed[i] == sorted[i]
    {
      assert printed[i] == entries[i] == Padded(sorted, LIMIT)[i];
    }
    if |printed| < LIMIT {
      assert entries[|printed|] == Padded(sorted, LIMIT)[|printed|];
    }
    if printed != [] {
      assert printed[|printed| - 1] == entries[|printed| - 1] == Padded(sorted, LIMIT)[|printed| - 1];
    }
  }
}
