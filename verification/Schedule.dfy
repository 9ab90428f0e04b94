/**
 The measuring schedule of the constant-time checker: a Fisher-Yates shuffle of `count` fixed and
 `count` random slots, and the loop that times one operation per slot.
 */
module Schedule {
  import opened Collections

  // ----- The shuffle as a function of its random choices -------------------------------------

  function Swap<T>(s: seq<T>, i: nat, j: nat): (r: seq<T>)
    requires i < |s| && j < |s|
    ensures |r| == |s|
  {
    s[i := s[j]][j := s[i]]
  }

  /** What the generator may answer when the first n slots are still to be shuffled. */
  predicate Choices(n: nat, js: seq<nat>) {
    if n <= 1 then js == [] else js != [] && js[0] < n && Choices(n - 1, js[1..])
  }

  function Shuffle<T>(s: seq<T>, n: nat, js: seq<nat>): (r: seq<T>)
    requires n <= |s| && Choices(n, js)
    ensures |r| == |s|
    ensures forall k :: n <= k < |s| ==> r[k] == s[k]
    decreases n
  {
    if n <= 1 then s else Shuffle(Swap(s, n - 1, js[0]), n - 1, js[1..])
  }

  /** Shuffling only reorders. */
  lemma {:induction false} ShufflePermutes<T>(s: seq<T>, n: nat, js: seq<nat>)
    requires n <= |s| && Choices(n, js)
    ensures multiset(Shuffle(s, n, js)) == multiset(s)
    decreases n
  {
    if n >= 2 {
      SwapPermutes(s, n - 1, js[0]);
      ShufflePermutes(Swap(s, n - 1, js[0]), n - 1, js[1..]);
    }
  }

  lemma SwapPermutes<T>(s: seq<T>, i: nat, j: nat)
    requires i < |s| && j < |s|
    ensures multiset(Swap(s, i, j)) == multiset(s)
  {}

  /** The slot settled first holds the element chosen first. */
  lemma FirstChoice<T>(s: seq<T>, n: nat, js: seq<nat>)
    requires 2 <= n <= |s| && Choices(n, js)
    ensures Shuffle(s, n, js)[n - 1] == s[js[0]]
  {
  }

  /** Over distinguishable elements, different choices give different orders. */
  lemma {:induction false} DifferentChoicesDifferentOrders<T>(s: seq<T>, n: nat, js: seq<nat>, ks: seq<nat>)
    requires n <= |s| && Distinct(s)
    requires Choices(n, js) && Choices(n, ks)
    requires Shuffle(s, n, js) == Shuffle(s, n, ks)
    ensures js == ks
    decreases n
  {
    if n >= 2 {
      FirstChoice(s, n, js);
      FirstChoice(s, n, ks);
      assert js[0] == ks[0];
      SwapDistinct(s, n - 1, js[0]);
      DifferentChoicesDifferentOrders(Swap(s, n - 1, js[0]), n - 1, js[1..], ks[1..]);
      assert js == [js[0]] + js[1..] && ks == [ks[0]] + ks[1..];
    }
  }

  lemma SwapDistinct<T>(s: seq<T>, i: nat, j: nat)
    requires i < |s| && j < |s| && Distinct(s)
    ensures Distinct(Swap(s, i, j))
  {}

  /** Every order of the elements is reached by some choices. */
  lemma {:induction false} EveryOrderReached<T>(s: seq<T>, n: nat, p: seq<T>) returns (js: seq<nat>)
    requires n <= |s| == |p| && p[n..] == s[n..]
    requires multiset(p[..n]) == multiset(s[..n])
    ensures Choices(n, js) && Shuffle(s, n, js) == p
    decreases n
  {
    if n <= 1 {
      js := [];
      assert n == 1 ==> p[0] in multiset(p[..n]) && s[..n] == [s[0]];
      assert p == p[..n] + p[n..] && s == s[..n] + s[n..];
    } else {
      var j := PickLast(s, n, p);
      var rest := EveryOrderReached(Swap(s, n - 1, j), n - 1, p);
      js := [j] + rest;
      assert js[1..] == rest;
    }
  }

  /** The choice that settles slot n - 1 as `p` wants it, leaving a smaller instance of the same problem. */
  lemma PickLast<T>(s: seq<T>, n: nat, p: seq<T>) returns (j: nat)
    requires 1 <= n <= |s| == |p| && p[n..] == s[n..]
    requires multiset(p[..n]) == multiset(s[..n])
    ensures j < n
    ensures var t := Swap(s, n - 1, j);
            p[n - 1..] == t[n - 1..] && multiset(p[..n - 1]) == multiset(t[..n - 1])
  {
    j := FindFirst(s, n, p[n - 1]) by {
      assert p[n - 1] in p[..n];
      assert p[n - 1] in multiset(p[..n]);
    }
    var t := Swap(s, n - 1, j);
    SwapWithin(s, n, j);
    LastOfPrefix(t, n);
    LastOfPrefix(p, n);
    TailOfSuffix(t, n);
    TailOfSuffix(p, n);
  }

  lemma FindFirst<T>(s: seq<T>, n: nat, x: T) returns (j: nat)
    requires n <= |s| && x in multiset(s[..n])
    ensures j < n && s[j] == x
  {
    assert x in s[..n];
    j :| 0 <= j < n && s[..n][j] == x;
  }

  lemma TailOfSuffix<T>(s: seq<T>, n: nat)
    requires 1 <= n <= |s|
    ensures s[n - 1..] == [s[n - 1]] + s[n..]
  {}

  lemma LastOfPrefix<T>(s: seq<T>, n: nat)
    requires 1 <= n <= |s|
    ensures multiset(s[..n - 1]) == multiset(s[..n]) - multiset{s[n - 1]}
  {
    assert s[..n] == s[..n - 1] + [s[n - 1]];
  }

  lemma SwapWithin<T>(s: seq<T>, n: nat, j: nat)
    requires j < n <= |s|
    ensures Swap(s, n - 1, j)[n..] == s[n..]
    ensures multiset(Swap(s, n - 1, j)[..n]) == multiset(s[..n])
  {
    assert Swap(s, n - 1, j)[..n] == Swap(s[..n], n - 1, j);
    SwapPermutes(s[..n], n - 1, j);
  }

  /** Fairness: each order of distinguishable elements comes from exactly one run of choices. */
  lemma OneRunPerOrder<T(!new)>(s: seq<T>, p: seq<T>) returns (js: seq<nat>)
    requires Distinct(s) && multiset(p) == multiset(s)
    ensures Choices(|s|, js) && Shuffle(s, |s|, js) == p
    ensures forall ks :: Choices(|s|, ks) && Shuffle(s, |s|, ks) == p ==> ks == js
  {
    assert |p| == |multiset(p)| == |multiset(s)| == |s|;
    assert p[..|p|] == p && s[..|s|] == s;
    js := EveryOrderReached(s, |s|, p);
    forall ks | Choices(|s|, ks) && Shuffle(s, |s|, ks) == p
      ensures ks == js
    {
      DifferentChoicesDifferentOrders(s, |s|, ks, js);
    }
  }

  /** Forgetting which element is which commutes with shuffling, so fairness carries over to the two classes. */
  lemma {:induction false} ShuffleNatural<T, U>(f: T -> U, s: seq<T>, n: nat, js: seq<nat>)
    requires n <= |s| && Choices(n, js)
    ensures Map(f, Shuffle(s, n, js)) == Shuffle(Map(f, s), n, js)
    decreases n
  {
    if n >= 2 {
      ShuffleNatural(f, Swap(s, n - 1, js[0]), n - 1, js[1..]);
      MapSwap(f, s, n - 1, js[0]);
    }
  }

  lemma MapSwap<T, U>(f: T -> U, s: seq<T>, i: nat, j: nat)
    requires i < |s| && j < |s|
    ensures Map(f, Swap(s, i, j)) == Swap(Map(f, s), i, j)
  {}

  // ----- buildSchedule ----------------------------------------------------------------------

  /** All fixed slots, then all random ones. */
  function Blocks(count: nat): (r: seq<bool>)
    ensures |r| == 2 * count && forall i :: 0 <= i < |r| ==> r[i] == (i < count)
  {
    seq(count, _ => true) + seq(count, _ => false)
  }

  /** `buildSchedule`; `js` are the successive answers of the generator's boundedInt(i + 1). */
  method BuildSchedule(count: nat, js: seq<nat>) returns (sched: array<bool>)
    requires Choices(2 * count, js)
    ensures fresh(sched) && sched[..] == Shuffle(Blocks(count), 2 * count, js)
    ensures multiset(sched[..])[true] == count && multiset(sched[..])[false] == count
  {
    var total := count * 2;
    sched := new bool[total];
    forall b | 0 <= b < count {
      sched[b] := true;
    }
    forall b | count <= b < total {
      sched[b] := false;
    }
    assert sched[..] == Blocks(count);
    ShuffleInPlace(sched, js);
    ShufflePermutes(Blocks(count), total, js);
    BlocksBalanced(count);
  }

  /** The Fisher-Yates loop. */
  method ShuffleInPlace<T>(sched: array<T>, js: seq<nat>)
    requires Choices(sched.Length, js)
    modifies sched
    ensures sched[..] == Shuffle(old(sched[..]), sched.Length, js)
  {
    var i, rest := sched.Length, js;
    while i > 1
      invariant 0 <= i <= sched.Length && Choices(i, rest)
      invariant Shuffle(sched[..], i, rest) == Shuffle(old(sched[..]), sched.Length, js)
    {
      i := i - 1;
      var j := rest[0];
      ghost var before := sched[..];
      var tmp := sched[i];
      sched[i] := sched[j];
      sched[j] := tmp;
      assert sched[..] == Swap(before, i, j);
      rest := rest[1..];
    }
  }

  lemma {:induction false} BlocksBalanced(count: nat)
    ensures multiset(Blocks(count))[true] == count && multiset(Blocks(count))[false] == count
  {
    if count > 0 {
      BlocksBalanced(count - 1);
      var less := Blocks(count - 1);
      assert Blocks(count) == [true] + less + [false];
    }
  }

  // ----- The measuring loop -----------------------------------------------------------------

  /** The values at the slots of one class, in order. */
  function Select<V>(sched: seq<bool>, values: seq<V>, cls: bool): seq<V>
    requires |sched| == |values|
  {
    if sched == [] then []
    else
      var k := |sched| - 1;
      Select(sched[..k], values[..k], cls) + if sched[k] == cls then [values[k]] else []
  }

  lemma {:induction false} SelectLength<V>(sched: seq<bool>, values: seq<V>, cls: bool)
    requires |sched| == |values|
    ensures |Select(sched, values, cls)| == multiset(sched)[cls]
  {
    if sched != [] {
      var k := |sched| - 1;
      SelectLength(sched[..k], values[..k], cls);
      assert sched == sched[..k] + [sched[k]];
    }
  }

  /** The slots of one class among the first k. */
  function SlotsBefore(sched: seq<bool>, k: nat, cls: bool): (n: nat)
    requires k <= |sched|
  {
    if k == 0 then 0 else SlotsBefore(sched, k - 1, cls) + if sched[k - 1] == cls then 1 else 0
  }

  /** Each value stands at its place among those of its class. */
  lemma {:induction false} SelectAt<V>(sched: seq<bool>, values: seq<V>, k: nat)
    requires |sched| == |values| && k < |sched|
    ensures var s, at := Select(sched, values, sched[k]), SlotsBefore(sched, k, sched[k]);
            at < |s| && s[at] == values[k]
  {
    var n, cls := |sched| - 1, sched[k];
    SlotsOfPrefix(sched, k, cls);
    if k == n {
      SelectIsSlots(sched[..n], values[..n], cls);
      SlotsOfPrefix(sched, n, cls);
    } else {
      SelectAt(sched[..n], values[..n], k);
      SlotsOfPrefix(sched[..n], k, cls);
      assert sched[..n][..k] == sched[..k];
    }
  }

  lemma {:induction false} SelectIsSlots<V>(sched: seq<bool>, values: seq<V>, cls: bool)
    requires |sched| == |values|
    ensures |Select(sched, values, cls)| == SlotsBefore(sched, |sched|, cls)
  {
    if sched != [] {
      var n := |sched| - 1;
      SelectIsSlots(sched[..n], values[..n], cls);
      SlotsOfPrefix(sched, n, cls);
    }
  }

  lemma {:induction false} SlotsOfPrefix(sched: seq<bool>, k: nat, cls: bool)
    requires k <= |sched|
    ensures SlotsBefore(sched, k, cls) == SlotsBefore(sched[..k], k, cls)
    decreases k
  {
    if k > 0 {
      SlotsOfPrefix(sched, k - 1, cls);
      SlotsOfPrefix(sched[..k], k - 1, cls);
      assert sched[..k][..k - 1] == sched[..k - 1];
    }
  }

  lemma SelectLast<V>(sched: seq<bool>, values: seq<V>, k: nat, cls: bool)
    requires k < |sched| == |values|
    ensures Select(sched[..k + 1], values[..k + 1], cls)
            == Select(sched[..k], values[..k], cls) + if sched[k] == cls then [values[k]] else []
  {
    assert sched[..k + 1][..k] == sched[..k] && values[..k + 1][..k] == values[..k];
  }

  lemma SelectPush<V>(sched: seq<bool>, values: seq<V>, k: nat, v: V)
    requires k < |sched| && |values| == k
    ensures Select(sched[..k + 1], values + [v], false)
            == Select(sched[..k], values, false) + if sched[k] then [] else [v]
  {
    SelectLast(sched[..k + 1], values + [v], k, false);
    assert sched[..k + 1][..k + 1] == sched[..k + 1] && (values + [v])[..k + 1] == values + [v];
    assert sched[..k + 1][..k] == sched[..k] && (values + [v])[..k] == values;
  }

  /** After k slots, the two timing arrays are filled this far. */
  ghost predicate Filed(sched: seq<bool>, times: seq<int>, k: nat, fixedT: seq<int>, randomT: seq<int>) {
    && k <= |sched| == |times|
    && fixedT == Select(sched[..k], times[..k], true)
    && randomT == Select(sched[..k], times[..k], false)
  }

  /** After k slots, these secrets have been worked on, using up these random keys. */
  ghost predicate Worked<K>(sched: seq<bool>, k: nat, work: seq<K>, fixedKey: K, used: seq<K>) {
    && k == |work| <= |sched|
    && used == Select(sched[..k], work, false)
    && forall i :: 0 <= i < k && sched[i] ==> work[i] == fixedKey
  }

  lemma FileOne(sched: seq<bool>, times: seq<int>, k: nat, fixedT: seq<int>, randomT: seq<int>)
    requires k < |sched| && Filed(sched, times, k, fixedT, randomT)
    ensures |fixedT| < multiset(sched)[true] || !sched[k]
    ensures |randomT| < multiset(sched)[false] || sched[k]
    ensures Filed(sched, times, k + 1, fixedT + (if sched[k] then [times[k]] else []),
                  randomT + (if sched[k] then [] else [times[k]]))
  {
    SelectLast(sched, times, k, true);
    SelectLast(sched, times, k, false);
    SelectLength(sched[..k], times[..k], sched[k]);
    CountUpTo(sched, k, sched[k]);
  }

  lemma WorkOne<K>(sched: seq<bool>, k: nat, work: seq<K>, fixedKey: K, used: seq<K>, secret: K)
    requires k < |sched| && Worked(sched, k, work, fixedKey, used)
    requires sched[k] ==> secret == fixedKey
    ensures Worked(sched, k + 1, work + [secret], fixedKey, used + (if sched[k] then [] else [secret]))
  {
    SelectPush(sched, work, k, secret);
  }

  lemma RoomForOne(sched: seq<bool>, times: seq<int>, k: nat, fixedT: seq<int>, randomT: seq<int>)
    requires k < |sched| && Filed(sched, times, k, fixedT, randomT)
    ensures if sched[k] then |fixedT| < multiset(sched)[true] else |randomT| < multiset(sched)[false]
  {
    FileOne(sched, times, k, fixedT, randomT);
  }

  /** A slot of the fixed class files one time there and uses up no random key. */
  lemma FixedSlot<K>(sched: seq<bool>, times: seq<int>, k: nat, fixedT: seq<int>, randomT: seq<int>,
                     work: seq<K>, fixedKey: K, used: seq<K>)
    requires k < |sched| && sched[k]
    requires Filed(sched, times, k, fixedT, randomT) && Worked(sched, k, work, fixedKey, used)
    ensures Filed(sched, times, k + 1, fixedT + [times[k]], randomT)
    ensures Worked(sched, k + 1, work + [fixedKey], fixedKey, used)
  {
    FileOne(sched, times, k, fixedT, randomT);
    WorkOne(sched, k, work, fixedKey, used, fixedKey);
    assert randomT + [] == randomT && used + [] == used;
  }

  /** A slot of the random class files one time there and uses up the next random key. */
  lemma RandomSlot<K>(sched: seq<bool>, times: seq<int>, k: nat, fixedT: seq<int>, randomT: seq<int>,
                      work: seq<K>, fixedKey: K, used: seq<K>, key: K)
    requires k < |sched| && !sched[k]
    requires Filed(sched, times, k, fixedT, randomT) && Worked(sched, k, work, fixedKey, used)
    ensures Filed(sched, times, k + 1, fixedT, randomT + [times[k]])
    ensures Worked(sched, k + 1, work + [key], fixedKey, used + [key])
  {
    FileOne(sched, times, k, fixedT, randomT);
    WorkOne(sched, k, work, fixedKey, used, key);
    assert fixedT + [] == fixedT;
  }

  /** After the last slot everything has been filed. */
  lemma AllFiled<K>(sched: seq<bool>, times: seq<int>, fixedT: seq<int>, randomT: seq<int>,
                    work: seq<K>, fixedKey: K, used: seq<K>)
    requires Filed(sched, times, |sched|, fixedT, randomT) && Worked(sched, |sched|, work, fixedKey, used)
    ensures fixedT == Select(sched, times, true) && |fixedT| == multiset(sched)[true]
    ensures randomT == Select(sched, times, false) && |randomT| == multiset(sched)[false]
    ensures |work| == |sched| && Select(sched, work, false) == used
    ensures forall k :: 0 <= k < |sched| && sched[k] ==> work[k] == fixedKey
  {
    assert sched[..|sched|] == sched && times[..|sched|] == times;
    SelectLength(sched, times, true);
    SelectLength(sched, times, false);
  }

  method Store(times: array<int>, n: nat, t: int)
    requires n < times.Length
    modifies times
    ensures times[..n + 1] == old(times[..n]) + [t]
  {
    times[n] := t;
  }

  lemma CountUpTo(sched: seq<bool>, k: nat, cls: bool)
    requires k < |sched| && sched[k] == cls
    ensures multiset(sched[..k])[cls] < multiset(sched)[cls]
  {
    assert sched == sched[..k] + [sched[k]] + sched[k + 1..];
  }

  /** No measurement is lost, duplicated or filed under the wrong class. */
  lemma {:induction false} SelectPartitions<V>(sched: seq<bool>, values: seq<V>)
    requires |sched| == |values|
    ensures multiset(Select(sched, values, true)) + multiset(Select(sched, values, false)) == multiset(values)
  {
    if sched != [] {
      var k := |sched| - 1;
      SelectPartitions(sched[..k], values[..k]);
      var before := values[..k];
      AddToEither(Select(sched[..k], before, true), Select(sched[..k], before, false), before, values[k]);
      SplitLast(values);
    }
  }

  lemma SplitLast<V>(values: seq<V>)
    requires values != []
    ensures values == values[..|values| - 1] + [values[|values| - 1]]
  {}

  lemma AddToEither<V>(t: seq<V>, f: seq<V>, all: seq<V>, v: V)
    requires multiset(t) + multiset(f) == multiset(all)
    ensures multiset(t + [v]) + multiset(f + []) == multiset(all + [v])
    ensures multiset(t + []) + multiset(f + [v]) == multiset(all + [v])
  {
    assert t + [] == t && f + [] == f;
  }

  const U64 := 0x1_0000_0000_0000_0000

  datatype Clock = Clock(t0: nat, t1: nat)

  /** The wrapping subtraction t1 -% t0 of 64-bit clock readings. */
  function Elapsed(c: Clock): int {
    (c.t1 - c.t0) % U64
  }

  /** Whatever the readings of the 64-bit clock, adding the duration to the first gives the second. */
  lemma ElapsedIs(c: Clock)
    ensures 0 <= Elapsed(c) < 0x1_0000_0000_0000_0000
    ensures (c.t0 + Elapsed(c)) % 0x1_0000_0000_0000_0000 == c.t1 % 0x1_0000_0000_0000_0000
    ensures c.t0 <= c.t1 < 0x1_0000_0000_0000_0000 ==> Elapsed(c) == c.t1 - c.t0
  {}

  /**
   The measuring loop shared by the three primitives: slot k is timed by `clock[k]`, and the secret
   it works on is recorded in `work`.
   */
  method Measure<K(0)>(sched: seq<bool>, fixedKey: K, randomKeys: array<K>, clock: seq<Clock>)
    returns (fixedT: array<int>, randomT: array<int>, work: seq<K>)
    requires |clock| == |sched|
    requires multiset(sched)[true] == multiset(sched)[false] == randomKeys.Length
    ensures fixedT[..] == Select(sched, Map(Elapsed, clock), true)
    ensures randomT[..] == Select(sched, Map(Elapsed, clock), false)
    ensures fixedT.Length == randomT.Length == randomKeys.Length
    ensures |work| == |sched|
    ensures Select(sched, work, false) == randomKeys[..]
    ensures forall k :: 0 <= k < |sched| && sched[k] ==> work[k] == fixedKey
  {
    var count := randomKeys.Length;
    fixedT, randomT, work := new int[count], new int[count], [];
    ghost var times := Map(Elapsed, clock);
    var fi, ri, k := 0, 0, 0;
    while k < |sched|
      invariant k <= |sched| && fi <= count && ri <= count
      invariant Filed(sched, times, k, fixedT[..fi], randomT[..ri])
      invariant Worked(sched, k, work, fixedKey, randomKeys[..ri])
    {
      RoomForOne(sched, times, k, fixedT[..fi], randomT[..ri]);
      var secret := if sched[k] then fixedKey else randomKeys[ri];
      ghost var before := work;
      work := work + [secret];
      if sched[k] {
        FixedSlot(sched, times, k, fixedT[..fi], randomT[..ri], before, fixedKey, randomKeys[..ri]);
        Store(fixedT, fi, Elapsed(clock[k]));
        fi := fi + 1;
      } else {
        RandomSlot(sched, times, k, fixedT[..fi], randomT[..ri], before, fixedKey, randomKeys[..ri], secret);
        Store(randomT, ri, Elapsed(clock[k]));
        ri := ri + 1;
        assert randomKeys[..ri] == randomKeys[..ri - 1] + [secret];
      }
      k := k + 1;
    }
    AllFiled(sched, times, fixedT[..fi], randomT[..ri], work, fixedKey, randomKeys[..ri]);
    assert fixedT[..fi] == fixedT[..] && randomT[..ri] == randomT[..] && randomKeys[..ri] == randomKeys[..];
  }

  /** One primitive's run: whatever the generator answers, both timing arrays are filled, and only once. */
  method RunPrimitive<K(0)>(count: nat, js: seq<nat>, fixedKey: K, randomKeys: array<K>, clock: seq<Clock>)
    returns (fixedT: array<int>, randomT: array<int>)
    requires Choices(2 * count, js) && randomKeys.Length == count && |clock| == 2 * count
    ensures fixedT.Length == count && randomT.Length == count
    ensures multiset(fixedT[..]) + multiset(randomT[..]) == multiset(Map(Elapsed, clock))
  {
    var sched := BuildSchedule(count, js);
    var slots := sched[..];
    BalancedLength(slots);
    var work;
    fixedT, randomT, work := Measure(slots, fixedKey, randomKeys, clock);
    SelectPartitions(slots, Map(Elapsed, clock));
  }

  lemma {:induction false} BalancedLength(sched: seq<bool>)
    ensures |sched| == multiset(sched)[true] + multiset(sched)[false]
  {
    if sched != [] {
      var init, last := sched[..|sched| - 1], sched[|sched| - 1];
      BalancedLength(init);
      SplitLast(sched);
      assert multiset(sched)[last] == multiset(init)[last] + 1 && multiset(sched)[!last] == multiset(init)[!last];
    }
  }
}
