/**
 The commit watcher of the announce bot: polls of a moving git HEAD, each announcing what
 `rev-list prev..cur` reports.  History is a graph whose commits are numbered so that parents come
 first; it holds every commit that ever becomes visible, since later commits never change the
 ancestors of earlier ones.
 */
module CommitWatch {
  import opened Collections

  type Commit = nat

  /** The parents of each commit. */
  type History = h: seq<set<Commit>> | forall c :: 0 <= c < |h| ==> forall p :: p in h[c] ==> p < c
    witness []

  /** A commit and everything it descends from. */
  ghost function Ancestors(h: History, c: Commit): set<Commit>
    requires c < |h|
  {
    {c} + set p, a | p in h[c] && a in Ancestors(h, p) :: a
  }

  lemma {:induction false} AncestorsBelow(h: History, c: Commit, a: Commit)
    requires c < |h| && a in Ancestors(h, c)
    ensures a <= c
  {
    if a != c {
      var p :| p in h[c] && a in Ancestors(h, p);
      AncestorsBelow(h, p, a);
    }
  }

  lemma {:induction false} AncestorsTransitive(h: History, c: Commit, a: Commit)
    requires c < |h| && a in Ancestors(h, c)
    ensures a < |h| && Ancestors(h, a) <= Ancestors(h, c)
  {
    AncestorsBelow(h, c, a);
    if a != c {
      var p :| p in h[c] && a in Ancestors(h, p);
      AncestorsTransitive(h, p, a);
    }
  }

  /** No two commits are each other's ancestors. */
  lemma AncestorsAntisymmetric(h: History, c: Commit, d: Commit)
    requires c < |h| && d < |h| && c in Ancestors(h, d) && d in Ancestors(h, c)
    ensures c == d
  {
    AncestorsBelow(h, d, c);
    AncestorsBelow(h, c, d);
  }

  /** git's prev..cur: reachable from cur, not from prev. */
  ghost function Range(h: History, prev: Commit, cur: Commit): set<Commit>
    requires prev < |h| && cur < |h|
  {
    Ancestors(h, cur) - Ancestors(h, prev)
  }

  /** The range is empty exactly when HEAD moved back, or not at all. */
  lemma RangeEmpty(h: History, prev: Commit, cur: Commit)
    requires prev < |h| && cur < |h|
    ensures Range(h, prev, cur) == {} <==> cur in Ancestors(h, prev)
  {
    if cur in Ancestors(h, prev) {
      AncestorsTransitive(h, prev, cur);
    } else {
      assert cur in Range(h, prev, cur);
    }
  }

  // ----- One poll -------------------------------------------------------------------------------------

  const SHOWN := 5

  /** git's answers to one poll: an empty HEAD or list is an error, or really empty. */
  datatype Answer = Answer(isDir: bool, head: Option<Commit>, revs: seq<Commit>)

  /** One announcement: how many commits are only counted, and the ones shown, oldest first. */
  datatype Burst = Burst(revs: seq<Commit>, earlier: nat, shown: seq<Commit>)

  datatype Watch = Watch(last: Option<Commit>, burst: Option<Burst>)

  /** `poll_project`; `last` is the last HEAD seen, None when it could not be read at start-up. */
  function PollOnce(last: Option<Commit>, a: Answer): Watch {
    if !a.isDir || a.head.None? || a.head == last then Watch(last, None)
    else
      var revs := if a.revs == [] then [a.head.value] else a.revs;
      var shown := if |revs| > SHOWN then revs[|revs| - SHOWN..] else revs;
      Watch(a.head, Some(Burst(revs, |revs| - |shown|, shown)))
  }

  /** The burst shows the last commits of the list and counts the rest: nothing is left unmentioned. */
  lemma BurstAccountsForAll(last: Option<Commit>, a: Answer)
    requires PollOnce(last, a).burst.Some?
    ensures var b := PollOnce(last, a).burst.value;
            && |b.shown| == (if |b.revs| < 5 then |b.revs| else 5) && b.shown != []
            && b.earlier + |b.shown| == |b.revs| && b.revs == b.revs[..b.earlier] + b.shown
  {}

  /**
   When a poll announces: git has given a HEAD other than the last one.  Then that HEAD is remembered, and
   what git listed is announced, or the HEAD itself if git listed nothing; otherwise nothing changes.
   */
  lemma PollAnnouncesIff(last: Option<Commit>, a: Answer)
    ensures var w := PollOnce(last, a);
            && (w.burst.Some? <==> a.isDir && a.head.Some? && a.head != last)
            && (if w.burst.None? then w.last == last
                else w.last == a.head && w.burst.value.revs == if a.revs == [] then [a.head.value] else a.revs)
  {}

  /** No commit is listed before one of its ancestors. */
  ghost predicate AncestorsFirst(h: History, s: seq<Commit>) {
    forall i, j :: 0 <= i < j < |s| && s[i] < |h| ==> s[j] !in Ancestors(h, s[i])
  }

  /** If git lists ancestors first, the shown commits are the newest: none is an ancestor of one merely counted. */
  lemma ShownAreNewest(h: History, last: Option<Commit>, a: Answer, counted: Commit, shown: Commit)
    requires PollOnce(last, a).burst.Some? && AncestorsFirst(h, a.revs)
    requires var b := PollOnce(last, a).burst.value; counted in b.revs[..b.earlier] && shown in b.shown
    requires counted < |h|
    ensures shown !in Ancestors(h, counted)
  {
    var b := PollOnce(last, a).burst.value;
    var i :| 0 <= i < b.earlier && b.revs[i] == counted;
    var j :| 0 <= j < |b.shown| && b.shown[j] == shown;
    assert a.revs[b.earlier + j] == shown;
  }

  ghost predicate Listed(s: seq<Commit>, range: set<Commit>) {
    Distinct(s) && forall c :: c in s <==> c in range
  }

  /** git answered: HEAD is a commit, and the list is the range from the last HEAD. */
  ghost predicate Truthful(h: History, last: Commit, a: Answer) {
    last < |h| && (a.head.Some? ==> a.head.value < |h| && Listed(a.revs, Range(h, last, a.head.value)))
  }

  /**
   When git answers, a burst announces exactly the commits between the two HEADs if and only if the
   new HEAD is not an ancestor of the old one.  After a reset to an ancestor that ancestor is
   shown although nothing is new.
   */
  lemma BurstExact(h: History, last: Commit, a: Answer)
    requires Truthful(h, last, a) && PollOnce(Some(last), a).burst.Some?
    ensures var revs := PollOnce(Some(last), a).burst.value.revs;
            && (Listed(revs, Range(h, last, a.head.value)) <==> a.head.value !in Ancestors(h, last))
            && (a.head.value in Ancestors(h, last) ==> revs == [a.head.value])
  {
    var cur := a.head.value;
    RangeEmpty(h, last, cur);
    if cur in Ancestors(h, last) {
      HeadIsIn(a.revs);
      assert cur in [cur];
    }
  }

  /**
   When git fails to list the range the burst is the new tip alone.  That is right if and only if the
   tip is new and none of its parents is.
   */
  lemma FailedListing(h: History, last: Commit, a: Answer)
    requires last < |h| && a.revs == [] && a.head.Some? && a.head.value < |h|
    requires PollOnce(Some(last), a).burst.Some?
    ensures var w, cur := PollOnce(Some(last), a), a.head.value;
            && w.last == a.head && w.burst.value.revs == [cur]
            && (Listed([cur], Range(h, last, cur)) <==> cur !in Ancestors(h, last) && h[cur] <= Ancestors(h, last))
  {
    var cur := a.head.value;
    OnlyNewCommit(h, last, cur);
    assert cur in [cur];
    if Listed([cur], Range(h, last, cur)) {
      assert forall c :: c in Range(h, last, cur) <==> c in [cur];
      assert Range(h, last, cur) == {cur};
    }
  }

  /** A tip is the only commit of its range exactly when it is new and its parents are not. */
  lemma OnlyNewCommit(h: History, last: Commit, cur: Commit)
    requires last < |h| && cur < |h|
    ensures Range(h, last, cur) == {cur} <==> cur !in Ancestors(h, last) && h[cur] <= Ancestors(h, last)
  {
    var known := Ancestors(h, last);
    if Range(h, last, cur) == {cur} {
      assert cur in Range(h, last, cur);
      forall p | p in h[cur]
        ensures p in known
      {
        assert p in Ancestors(h, p) && p in Ancestors(h, cur);
        assert p !in {cur} && p !in Range(h, last, cur);
      }
    } else if cur !in known && h[cur] <= known {
      var c :| c in Ancestors(h, cur) && c != cur && c !in known;
      var p :| p in h[cur] && c in Ancestors(h, p);
      AncestorsTransitive(h, last, p);
      assert false;
    }
  }

  lemma HeadIsIn(s: seq<Commit>)
    ensures s != [] ==> s[0] in s
  {}

  // ----- Runs ------------------------------------------------------------------------------------------

  /** Everything announced by a run of polls, in order. */
  function Announced(last: Option<Commit>, polls: seq<Answer>): seq<Commit>
    decreases |polls|
  {
    if polls == [] then []
    else
      var w := PollOnce(last, polls[0]);
      (if w.burst.Some? then w.burst.value.revs else []) + Announced(w.last, polls[1..])
  }

  function LastHead(last: Option<Commit>, polls: seq<Answer>): Option<Commit>
    decreases |polls|
  {
    if polls == [] then last else LastHead(PollOnce(last, polls[0]).last, polls[1..])
  }

  /** git answers every poll, or gives no HEAD, and HEAD only ever moves to descendants. */
  ghost predicate Forward(h: History, last: Commit, polls: seq<Answer>)
    decreases |polls|
  {
    polls == [] ||
    (&& Truthful(h, last, polls[0])
     && (polls[0].head.Some? ==> last in Ancestors(h, polls[0].head.value))
     && PollOnce(Some(last), polls[0]).last.Some?
     && Forward(h, PollOnce(Some(last), polls[0]).last.value, polls[1..]))
  }

  /**
   Commit accounting telescopes: over any run in which HEAD only advances, each commit between the
   first and the last HEAD is announced exactly once, and nothing else is.  Polls without a HEAD or
   without the directory may occur anywhere.
   */
  lemma {:induction false} AnnouncementsTelescope(h: History, last: Commit, polls: seq<Answer>)
    requires last < |h| && Forward(h, last, polls)
    ensures var final := LastHead(Some(last), polls);
            && final.Some? && final.value < |h| && last in Ancestors(h, final.value)
            && Listed(Announced(Some(last), polls), Range(h, last, final.value))
    decreases |polls|
  {
    if polls != [] {
      var w := PollOnce(Some(last), polls[0]);
      var mid := w.last.value;
      AnnouncementsTelescope(h, mid, polls[1..]);
      var final := LastHead(Some(mid), polls[1..]).value;
      var later := Announced(Some(mid), polls[1..]);
      if w.burst.None? {
        PrependNothing(later);
      } else {
        var revs := w.burst.value.revs;
        if mid in Ancestors(h, last) { AncestorsAntisymmetric(h, last, mid); }
        BurstExact(h, last, polls[0]);
        JoinRanges(h, last, mid, final, revs, later);
      }
    }
  }

  lemma JoinRanges(h: History, a: Commit, b: Commit, c: Commit, early: seq<Commit>, late: seq<Commit>)
    requires a < |h| && b < |h| && c < |h|
    requires a in Ancestors(h, b) && b in Ancestors(h, c)
    requires Listed(early, Range(h, a, b)) && Listed(late, Range(h, b, c))
    ensures a in Ancestors(h, c) && Listed(early + late, Range(h, a, c))
  {
    AncestorsTransitive(h, b, a);
    AncestorsTransitive(h, c, b);
    var all := early + late;
    forall i, j | 0 <= i < j < |all|
      ensures all[i] != all[j]
    {
      if i < |early| <= j {
        assert all[i] in early && all[j] in late;
      }
    }
    forall x
      ensures x in all <==> x in Range(h, a, c)
    {
      assert x in all <==> x in early || x in late;
    }
  }

  /** git answers every poll, or gives no HEAD; HEAD may move anywhere. */
  ghost predicate Answered(h: History, last: Commit, polls: seq<Answer>)
    decreases |polls|
  {
    polls == [] ||
    (&& Truthful(h, last, polls[0])
     && PollOnce(Some(last), polls[0]).last.Some?
     && Answered(h, PollOnce(Some(last), polls[0]).last.value, polls[1..]))
  }

  /**
   Nothing is missed: over any run, with resets, rebases and rewinds, every commit of the final history
   that the first one did not have is announced.
   */
  lemma {:induction false} NothingMissed(h: History, last: Commit, polls: seq<Answer>, c: Commit)
    requires last < |h| && Answered(h, last, polls)
    ensures var final := LastHead(Some(last), polls);
            final.Some? && final.value < |h|
            && (c in Range(h, last, final.value) ==> c in Announced(Some(last), polls))
    decreases |polls|
  {
    if polls != [] {
      var w := PollOnce(Some(last), polls[0]);
      var mid := w.last.value;
      NothingMissed(h, mid, polls[1..], c);
      if c in Ancestors(h, mid) && c !in Ancestors(h, last) {
        assert c in Range(h, last, mid) && c in polls[0].revs;
      }
    }
  }

  /**
   What a failed listing costs: the watcher has moved on to the tip, so as long as HEAD only advances
   from there, none of the other new commits is ever announced.
   */
  lemma MissedForGood(h: History, last: Commit, a: Answer, later: seq<Answer>)
    requires last < |h| && a.revs == [] && a.head.Some? && a.head.value < |h|
    requires PollOnce(Some(last), a).burst.Some? && Forward(h, a.head.value, later)
    ensures forall c :: c in Range(h, last, a.head.value) - {a.head.value} ==> c !in Announced(Some(last), [a] + later)
  {
    var cur := a.head.value;
    assert ([a] + later)[1..] == later;
    AnnouncementsTelescope(h, cur, later);
  }

  /** Three commits in a row. */
  const LINE_OF_THREE: History := [{}, {0}, {1}]

  lemma LineAncestors()
    ensures Ancestors(LINE_OF_THREE, 0) == {0} && Ancestors(LINE_OF_THREE, 1) == {0, 1}
    ensures Ancestors(LINE_OF_THREE, 2) == {0, 1, 2}
  {
    var h := LINE_OF_THREE;
    assert h[0] == {} && h[1] == {0} && h[2] == {1};
    assert Ancestors(h, 0) == {0};
    OneParent(h, 1, 0);
    OneParent(h, 2, 1);
  }

  lemma OneParent(h: History, c: Commit, p: Commit)
    requires c < |h| && h[c] == {p}
    ensures p < |h| && Ancestors(h, c) == {c} + Ancestors(h, p)
  {
    assert p in h[c];
  }

  const FAILED: Answer := Answer(true, Some(2), [])
  const REWOUND: Answer := Answer(true, Some(0), [])
  const LISTED: Answer := Answer(true, Some(2), [1, 2])

  /** HEAD moves from 0 to 2, git fails to list, and 1 is missed; a rewind of HEAD brings it back. */
  lemma MissedUntilRewind()
    ensures var h := LINE_OF_THREE;
            && 1 in Range(h, 0, 2) && 1 !in Announced(Some(0), [FAILED])
            && Truthful(h, 2, REWOUND) && Truthful(h, 0, LISTED)
            && Announced(Some(0), [FAILED, REWOUND, LISTED]) == [2, 0, 1, 2]
  {
    LineRanges();
    OnePollMore(Some(0), FAILED, []);
    ThreePolls();
  }

  lemma LineRanges()
    ensures var h := LINE_OF_THREE;
            1 in Range(h, 0, 2) && Truthful(h, 2, REWOUND) && Truthful(h, 0, LISTED)
  {
    LineAncestors();
    assert Range(LINE_OF_THREE, 2, 0) == {} && Range(LINE_OF_THREE, 0, 2) == {1, 2};
    assert forall c :: c in [1, 2] <==> c == [1, 2][0] || c == [1, 2][1];
  }

  lemma ThreePolls()
    ensures Announced(Some(0), [FAILED, REWOUND, LISTED]) == [2, 0, 1, 2]
  {
    assert [FAILED, REWOUND, LISTED] == [FAILED] + [REWOUND, LISTED] && [REWOUND, LISTED] == [REWOUND] + [LISTED];
    OnePollMore(Some(0), FAILED, [REWOUND, LISTED]);
    OnePollMore(Some(2), REWOUND, [LISTED]);
    OnePollMore(Some(0), LISTED, []);
  }

  lemma OnePollMore(last: Option<Commit>, a: Answer, polls: seq<Answer>)
    ensures var w := PollOnce(last, a);
            Announced(last, [a] + polls)
            == (if w.burst.Some? then w.burst.value.revs else []) + Announced(w.last, polls)
    ensures [a] + [] == [a]
  {
    assert ([a] + polls)[1..] == polls;
  }

  /** HEAD is reset from 1 to its parent 0: the old commit 0 is announced, although nothing is new. */
  lemma ResetAnnouncesOld()
    ensures var h, a := LINE_OF_THREE, REWOUND;
            Truthful(h, 1, a) && Range(h, 1, 0) == {} && Announced(Some(1), [a]) == [0]
  {
    LineAncestors();
    assert [REWOUND][1..] == [];
  }

  // ----- The watcher --------------------------------------------------------------------------------------

  /** Everything announced, and the last HEAD seen, after one more poll. */
  lemma {:induction false} OneMorePoll(start: Option<Commit>, polls: seq<Answer>, a: Answer)
    ensures var last := LastHead(start, polls);
            var w := PollOnce(last, a);
            && LastHead(start, polls + [a]) == w.last
            && Announced(start, polls + [a])
               == Announced(start, polls) + if w.burst.Some? then w.burst.value.revs else []
    decreases |polls|
  {
    if polls == [] {
      assert [] + [a] == [a] && [a][1..] == [];
      var w := PollOnce(start, a);
      var revs := if w.burst.Some? then w.burst.value.revs else [];
      assert revs + [] == revs;
      PrependNothing(revs);
    } else {
      var first := PollOnce(start, polls[0]);
      var w := PollOnce(LastHead(start, polls), a);
      assert (polls + [a])[0] == polls[0] && (polls + [a])[1..] == polls[1..] + [a];
      OneMorePoll(first.last, polls[1..], a);
      Reassociate(if first.burst.Some? then first.burst.value.revs else [], Announced(first.last, polls[1..]),
                  if w.burst.Some? then w.burst.value.revs else []);
    }
  }

  class Watcher {
    var lastCommit: Option<Commit>
    /** The HEAD at start-up, all answers since then, and every commit announced, shown or counted. */
    ghost const start: Option<Commit>
    ghost var polls: seq<Answer>
    ghost var announced: seq<Commit>

    /** The watcher has announced what its polls amount to, and remembers the last HEAD of them. */
    ghost predicate Valid()
      reads this
    {
      announced == Announced(start, polls) && lastCommit == LastHead(start, polls)
    }

    constructor (head: Option<Commit>)
      ensures Valid() && start == head && polls == []
    {
      lastCommit := head;
      start, polls, announced := head, [], [];
    }

    /** `poll_project`. */
    method Poll(a: Answer) returns (burst: Option<Burst>)
      requires Valid()
      modifies this
      ensures Valid() && polls == old(polls) + [a]
      ensures burst.Some? <==> a.isDir && a.head.Some? && a.head != old(lastCommit)
      ensures lastCommit == if burst.Some? then a.head else old(lastCommit)
      ensures Watch(lastCommit, burst) == PollOnce(old(lastCommit), a)
      ensures announced == old(announced) + if burst.Some? then burst.value.revs else []
    {
      OneMorePoll(start, polls, a);
      polls := polls + [a];
      if !a.isDir {
        return None;
      }
      if a.head.None? {
        return None;
      }
      if a.head == lastCommit {
        return None;
      }
      var revs := a.revs;
      if revs == [] {
        revs := [a.head.value];
      }
      lastCommit := a.head;
      var shown := if |revs| > SHOWN then revs[|revs| - SHOWN..] else revs;
      announced := announced + revs;
      burst := Some(Burst(revs, |revs| - |shown|, shown));
    }

    /**
     Any number of polls.  If the watcher saw a HEAD at start-up and git answered all polls since, every
     commit gained has been announced; if HEAD only advanced, each was announced once and nothing else was.
     */
    method PollAll(answers: seq<Answer>, ghost h: History)
      requires Valid()
      modifies this
      ensures Valid() && polls == old(polls) + answers
      ensures start.Some? && start.value < |h| && Answered(h, start.value, polls) ==>
          && lastCommit.Some? && lastCommit.value < |h|
          && forall c :: c in Range(h, start.value, lastCommit.value) ==> c in announced
      ensures start.Some? && start.value < |h| && Forward(h, start.value, polls) ==>
          && lastCommit.Some? && lastCommit.value < |h|
          && Listed(announced, Range(h, start.value, lastCommit.value))
    {
      assert answers[..0] == [] && polls + [] == polls;
      for i := 0 to |answers|
        invariant Valid() && polls == old(polls) + answers[..i]
      {
        assert answers[..i + 1] == answers[..i] + [answers[i]];
        Reassociate(old(polls), answers[..i], [answers[i]]);
        var burst := Poll(answers[i]);
      }
      assert answers[..|answers|] == answers;
      if start.Some? && start.value < |h| {
        Accounted(h);
      }
    }

    lemma Accounted(h: History)
      requires Valid() && start.Some? && start.value < |h|
      ensures Answered(h, start.value, polls) ==>
          && lastCommit.Some? && lastCommit.value < |h|
          && forall c :: c in Range(h, start.value, lastCommit.value) ==> c in announced
      ensures Forward(h, start.value, polls) ==>
          && lastCommit.Some? && lastCommit.value < |h|
          && Listed(announced, Range(h, start.value, lastCommit.value))
    {
      if Answered(h, start.value, polls) {
        NothingMissed(h, start.value, polls, start.value);
        forall c | c in Range(h, start.value, lastCommit.value)
          ensures c in announced
        {
          NothingMissed(h, start.value, polls, c);
        }
      }
      if Forward(h, start.value, polls) {
        AnnouncementsTelescope(h, start.value, polls);
      }
    }
  }
}
