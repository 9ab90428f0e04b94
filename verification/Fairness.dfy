/**
 How often each schedule comes out.  The two classes of slots make many shuffles of distinguishable
 slots look the same, so this counts, for a given schedule, the generator answers that produce it.
 */
module Fairness {
  import opened Collections
  import opened Schedule

  /** `rs` with one more answer in front of each. */
  ghost function Prefixed(j: nat, rs: set<seq<nat>>): set<seq<nat>> {
    set r | r in rs :: [j] + r
  }

  /** The answers that turn `s` into `p` when the first n slots are still to be shuffled. */
  ghost function RunsFor<T>(s: seq<T>, n: nat, p: seq<T>): set<seq<nat>>
    requires n <= |s|
    decreases n, n + 1
  {
    if n <= 1 then (if s == p then {[]} else {}) else RunsBelow(s, n, p, n)
  }

  /** Those of them whose first answer is below k. */
  ghost function RunsBelow<T>(s: seq<T>, n: nat, p: seq<T>, k: nat): set<seq<nat>>
    requires 2 <= n <= |s| && k <= n
    decreases n, k
  {
    if k == 0 then {}
    else RunsBelow(s, n, p, k - 1) + Prefixed(k - 1, RunsFor(Swap(s, n - 1, k - 1), n - 1, p))
  }

  // ----- They are what they are called ------------------------------------------------------------------

  /** The set holds exactly the possible answers whose shuffle is `p`. */
  lemma {:induction false} RunsForExact<T>(s: seq<T>, n: nat, p: seq<T>, js: seq<nat>)
    requires n <= |s|
    ensures js in RunsFor(s, n, p) <==> Choices(n, js) && Shuffle(s, n, js) == p
    decreases n, n + 1
  {
    if n >= 2 {
      RunsBelowExact(s, n, p, n, js);
    }
  }

  lemma {:induction false} RunsBelowExact<T>(s: seq<T>, n: nat, p: seq<T>, k: nat, js: seq<nat>)
    requires 2 <= n <= |s| && k <= n
    ensures js in RunsBelow(s, n, p, k) <==> Choices(n, js) && js[0] < k && Shuffle(s, n, js) == p
    decreases n, k
  {
    if k > 0 {
      var runs := RunsFor(Swap(s, n - 1, k - 1), n - 1, p);
      RunsBelowExact(s, n, p, k - 1, js);
      if js != [] {
        RunsForExact(Swap(s, n - 1, k - 1), n - 1, p, js[1..]);
        PrefixedExact(k - 1, runs, js);
      }
    }
  }

  lemma PrefixedExact(j: nat, rs: set<seq<nat>>, js: seq<nat>)
    requires js != []
    ensures js in Prefixed(j, rs) <==> js[0] == j && js[1..] in rs
  {
    if js[0] == j && js[1..] in rs {
      assert js == [j] + js[1..];
    }
    if js in Prefixed(j, rs) {
      var r :| r in rs && js == [j] + r;
      assert js[1..] == r;
    }
  }

  // ----- How many they are ------------------------------------------------------------------------------

  function Fact(n: nat): nat {
    if n == 0 then 1 else n * Fact(n - 1)
  }

  /** Occurrences of x among the first n elements. */
  function Occ(s: seq<bool>, n: nat, x: bool): nat
    requires n <= |s|
  {
    if n == 0 then 0 else Occ(s, n - 1, x) + if s[n - 1] == x then 1 else 0
  }

  lemma {:induction false} OccIs(s: seq<bool>, n: nat, x: bool)
    requires n <= |s|
    ensures Occ(s, n, x) == multiset(s[..n])[x]
  {
    if n == 0 {
      assert s[..0] == [];
    } else {
      OccIs(s, n - 1, x);
      assert s[..n] == s[..n - 1] + [s[n - 1]];
    }
  }

  /** Fact(a) * Fact(b) for the a true and b false among the first n slots. */
  ghost function Orders(s: seq<bool>, n: nat): nat
    requires n <= |s|
  {
    Fact(Occ(s, n, true)) * Fact(Occ(s, n, false))
  }

  /** `p` agrees with `s` on the settled slots and rearranges the others. */
  ghost predicate Reachable(s: seq<bool>, n: nat, p: seq<bool>) {
    n <= |s| == |p| && p[n..] == s[n..] && Occ(p, n, true) == Occ(s, n, true) && Occ(p, n, false) == Occ(s, n, false)
  }

  lemma {:induction false} PrefixedCount(j: nat, rs: set<seq<nat>>)
    ensures |Prefixed(j, rs)| == |rs|
    decreases rs
  {
    if rs != {} {
      var r :| r in rs;
      PrefixedCount(j, rs - {r});
      forall x | x in rs && [j] + x == [j] + r
        ensures x == r
      {
        assert ([j] + x)[1..] == x && ([j] + r)[1..] == r;
      }
      assert Prefixed(j, rs) == Prefixed(j, rs - {r}) + {[j] + r};
    }
  }

  /** Settled slots stay as they are. */
  lemma SettledStay<T>(s: seq<T>, n: nat, p: seq<T>, js: seq<nat>)
    requires n <= |s| == |p| && js in RunsFor(s, n, p)
    ensures p[n..] == s[n..]
  {
    RunsForExact(s, n, p, js);
  }

  lemma NothingLeads<T>(s: seq<T>, n: nat, p: seq<T>)
    requires n <= |s| == |p| && p[n..] != s[n..]
    ensures RunsFor(s, n, p) == {}
  {
    if js :| js in RunsFor(s, n, p) {
      SettledStay(s, n, p, js);
    }
  }

  /** Moving an element that `p` wants into slot n - 1 leaves a smaller problem of the same kind. */
  lemma SettleLast(s: seq<bool>, n: nat, p: seq<bool>, k: nat)
    requires 2 <= n && k < n && Reachable(s, n, p)
    ensures var t := Swap(s, n - 1, k);
            if s[k] == p[n - 1]
            then Reachable(t, n - 1, p) && Occ(t, n - 1, p[n - 1]) == Occ(s, n, p[n - 1]) - 1
                 && Occ(t, n - 1, !p[n - 1]) == Occ(s, n, !p[n - 1])
            else p[n - 1..] != t[n - 1..]
  {
    var t := Swap(s, n - 1, k);
    if s[k] == p[n - 1] {
      SwapWithin(s, n, k);
      assert t[n - 1] == p[n - 1];
      TailOfSuffix(t, n);
      TailOfSuffix(p, n);
      OneLess(s, t, n, p, true);
      OneLess(s, t, n, p, false);
    } else {
      assert t[n - 1..][0] == s[k] && p[n - 1..][0] == p[n - 1];
    }
  }

  lemma OneLess(s: seq<bool>, t: seq<bool>, n: nat, p: seq<bool>, x: bool)
    requires 1 <= n <= |s| == |t| == |p| && multiset(t[..n]) == multiset(s[..n])
    requires Occ(p, n, x) == Occ(s, n, x) && t[n - 1] == p[n - 1]
    ensures Occ(t, n - 1, x) == Occ(p, n - 1, x) == Occ(s, n, x) - if p[n - 1] == x then 1 else 0
  {
    OccIs(t, n, x);
    OccIs(s, n, x);
  }

  lemma {:induction false} CountRuns(s: seq<bool>, n: nat, p: seq<bool>)
    requires Reachable(s, n, p)
    ensures |RunsFor(s, n, p)| == Orders(s, n)
    decreases n, 3
  {
    if n <= 1 {
      FewSlots(s, n, p);
    } else {
      var x := p[n - 1];
      CountBelow(s, n, p, (k: nat) => SizeBelow(s, n, p, k));
      OrdersOf(s, n, x);
      TimesIsProduct(Occ(s, n, x), Each(s, n, x));
      Product(Occ(s, n, x), Fact(Occ(s, n, x) - 1), Fact(Occ(s, n, !x)));
    }
  }

  lemma FewSlots(s: seq<bool>, n: nat, p: seq<bool>)
    requires Reachable(s, n, p) && n <= 1
    ensures s == p && Orders(s, n) == 1
  {
    assert s == s[..n] + s[n..] && p == p[..n] + p[n..];
    TwoClasses(s, n);
    TwoClasses(p, n);
    if n == 1 {
      OneSlot(s, true);
      OneSlot(p, true);
      assert s[..1] == [s[0]] && p[..1] == [p[0]];
    } else {
      assert s[..0] == p[..0] == [];
    }
    SmallFacts();
  }

  lemma OneSlot(s: seq<bool>, x: bool)
    requires |s| >= 1
    ensures Occ(s, 1, x) == if s[0] == x then 1 else 0
  {
    assert Occ(s, 0, x) == 0;
  }

  lemma SmallFacts()
    ensures Fact(0) == 1 && Fact(1) == 1
  {
    assert Fact(1) == 1 * Fact(0);
  }

  lemma Product(a: nat, b: nat, c: nat)
    ensures a * (b * c) == (a * b) * c
  {}

  /** The runs behind one first answer, when that puts the wanted element into slot n - 1. */
  ghost function Each(s: seq<bool>, n: nat, x: bool): nat
    requires n <= |s| && Occ(s, n, x) > 0
  {
    Fact(Occ(s, n, x) - 1) * Fact(Occ(s, n, !x))
  }

  lemma {:induction false} CountOne(s: seq<bool>, n: nat, p: seq<bool>, k: nat)
    requires 2 <= n && k < n && Reachable(s, n, p) && Occ(s, n, p[n - 1]) > 0
    ensures |RunsFor(Swap(s, n - 1, k), n - 1, p)| == if s[k] == p[n - 1] then Each(s, n, p[n - 1]) else 0
    decreases n, 0
  {
    var t := Swap(s, n - 1, k);
    SettleLast(s, n, p, k);
    if s[k] == p[n - 1] {
      CountRuns(t, n - 1, p);
      OrdersOf(t, n - 1, p[n - 1]);
    } else {
      NothingLeads(t, n - 1, p);
    }
  }

  /** The runs behind one more first answer. */
  lemma BelowStep<T>(s: seq<T>, n: nat, p: seq<T>, k: nat)
    requires 2 <= n <= |s| && k < n
    ensures |RunsBelow(s, n, p, k + 1)| == |RunsBelow(s, n, p, k)| + |RunsFor(Swap(s, n - 1, k), n - 1, p)|
  {
    var runs := RunsFor(Swap(s, n - 1, k), n - 1, p);
    PrefixedCount(k, runs);
    Apart(s, n, p, k, runs);
  }

  /** Step i of a tally that grows by `each` at every x of `s`. */
  ghost predicate TallyStep(tally: nat -> nat, s: seq<bool>, i: nat, x: bool, each: nat)
    requires i < |s|
  {
    tally(i + 1) == tally(i) + if s[i] == x then each else 0
  }

  lemma {:induction false} TallyIsProduct(tally: nat -> nat, s: seq<bool>, k: nat, x: bool, each: nat)
    requires k <= |s| && tally(0) == 0
    requires forall i :: 0 <= i < k ==> TallyStep(tally, s, i, x, each)
    ensures tally(k) == Times(Occ(s, k, x), each)
    decreases k
  {
    if k > 0 {
      TallyIsProduct(tally, s, k - 1, x, each);
      assert TallyStep(tally, s, k - 1, x, each);
    }
  }

  ghost function SizeBelow(s: seq<bool>, n: nat, p: seq<bool>, k: nat): nat {
    if 2 <= n <= |s| && k <= n then |RunsBelow(s, n, p, k)| else 0
  }

  lemma SizeStep(s: seq<bool>, n: nat, p: seq<bool>, tally: nat -> nat, i: nat)
    requires 2 <= n && i < n && Reachable(s, n, p) && Occ(s, n, p[n - 1]) > 0
    requires tally(i) == SizeBelow(s, n, p, i) && tally(i + 1) == SizeBelow(s, n, p, i + 1)
    ensures TallyStep(tally, s, i, p[n - 1], Each(s, n, p[n - 1]))
    decreases n, 1
  {
    BelowStep(s, n, p, i);
    CountOne(s, n, p, i);
  }

  /** Every slot that holds the element wanted in slot n - 1 contributes the same number of runs. */
  lemma {:induction false} CountBelow(s: seq<bool>, n: nat, p: seq<bool>, tally: nat -> nat)
    requires 2 <= n && Reachable(s, n, p) && Occ(s, n, p[n - 1]) > 0
    requires forall k: nat :: tally(k) == SizeBelow(s, n, p, k)
    ensures |RunsBelow(s, n, p, n)| == Times(Occ(s, n, p[n - 1]), Each(s, n, p[n - 1]))
    decreases n, 2
  {
    var x := p[n - 1];
    var each := Each(s, n, x);
    forall i | 0 <= i < n
      ensures TallyStep(tally, s, i, x, each)
    {
      SizeStep(s, n, p, tally, i);
    }
    TallyIsProduct(tally, s, n, x, each);
  }

  lemma OrdersOf(s: seq<bool>, n: nat, x: bool)
    requires n <= |s|
    ensures Orders(s, n) == Fact(Occ(s, n, x)) * Fact(Occ(s, n, !x))
  {}

  /** a * b, one b at a time. */
  function Times(a: nat, b: nat): nat {
    if a == 0 then 0 else Times(a - 1, b) + b
  }

  lemma {:induction false} TimesIsProduct(a: nat, b: nat)
    ensures Times(a, b) == a * b
  {
    if a > 0 {
      TimesIsProduct(a - 1, b);
      assert a * b == (a - 1) * b + b;
    }
  }

  lemma Apart<T>(s: seq<T>, n: nat, p: seq<T>, k: nat, rs: set<seq<nat>>)
    requires 2 <= n <= |s| && k < n
    ensures |RunsBelow(s, n, p, k) + Prefixed(k, rs)| == |RunsBelow(s, n, p, k)| + |Prefixed(k, rs)|
  {
    forall js | js in RunsBelow(s, n, p, k) && js in Prefixed(k, rs)
      ensures false
    {
      RunsBelowExact(s, n, p, k, js);
      PrefixedExact(k, rs, js);
    }
    assert RunsBelow(s, n, p, k) !! Prefixed(k, rs);
  }

  /**
   Fairness of `buildSchedule`: every schedule with `count` slots of each class is produced by equally
   many answers of the generator.
   */
  lemma SchedulesEquallyOften(count: nat, p: seq<bool>)
    requires |p| == 2 * count && multiset(p)[true] == count
    ensures |RunsFor(Blocks(count), 2 * count, p)| == Fact(count) * Fact(count)
    ensures forall js :: js in RunsFor(Blocks(count), 2 * count, p)
                         <==> Choices(2 * count, js) && Shuffle(Blocks(count), 2 * count, js) == p
  {
    var s, n := Blocks(count), 2 * count;
    assert s[..n] == s && p[..n] == p && s[n..] == p[n..] == [];
    BlocksBalanced(count);
    OccIs(s, n, true);
    OccIs(p, n, true);
    TwoClasses(s, n);
    TwoClasses(p, n);
    CountRuns(s, n, p);
    forall js
      ensures js in RunsFor(s, n, p) <==> Choices(n, js) && Shuffle(s, n, js) == p
    {
      RunsForExact(s, n, p, js);
    }
  }

  lemma {:induction false} TwoClasses(p: seq<bool>, n: nat)
    requires n <= |p|
    ensures Occ(p, n, true) + Occ(p, n, false) == n
  {
    if n > 0 {
      TwoClasses(p, n - 1);
    }
  }
}
