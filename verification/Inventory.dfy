/**
 The announce bot's inventory cache: any number of threads request measurements, one worker takes
 them from a queue.  The model is a transition system whose steps are the stretches between lock and
 queue operations, and a class whose methods perform exactly those steps.
 */
module Inventory {
  import opened Collections

  /** Where the single worker is. */
  datatype Worker<K> =
    | Idle                                        // waiting in _requests.get
    | Taken(key: K)                               // has a key, has not begun to measure
    | Measuring(key: K)                           // inside collect_inventory
    | Refreshing(todo: seq<K>)                    // in the periodic refresh, between requests
    | RefreshPut(key: K, rest: seq<K>)            // in the periodic refresh, about to put

  /**
   The shared state.  `aboutToPut` holds one entry per requester that has left the lock and has not
   reached the queue yet.
   */
  datatype State<K, V> = State(
    projects: seq<K>,
    queued: set<K>,
    aboutToPut: multiset<K>,
    requests: seq<K>,
    items: map<K, V>,
    worker: Worker<K>)

  datatype Event<K, V> =
    | Accept(key: K)             // request(): the key was not queued
    | Refuse(key: K)             // request(): the key was queued
    | Put(key: K)                // request(): _requests.put
    | Take                       // worker: get returns a key
    | Start                      // worker: collect_inventory begins
    | Publish(item: V)           // worker: store the item, discard the key
    | Timeout                    // worker: get raises Empty
    | RefreshAccept              // worker: its own request() is accepted
    | RefreshRefuse              // worker: its own request() is refused
    | RefreshPutEnd              // worker: its own _requests.put
    | RefreshEnd                 // worker: back to get

  ghost predicate Enabled<K, V>(s: State<K, V>, e: Event<K, V>) {
    match e
    case Accept(k) => k in s.projects && k !in s.queued
    case Refuse(k) => k in s.projects && k in s.queued
    case Put(k) => k in s.aboutToPut
    case Take => s.worker.Idle? && s.requests != []
    case Start => s.worker.Taken?
    case Publish(_) => s.worker.Measuring?
    case Timeout => s.worker.Idle? && s.requests == []
    case RefreshAccept => s.worker.Refreshing? && s.worker.todo != [] && s.worker.todo[0] !in s.queued
    case RefreshRefuse => s.worker.Refreshing? && s.worker.todo != [] && s.worker.todo[0] in s.queued
    case RefreshPutEnd => s.worker.RefreshPut?
    case RefreshEnd => s.worker.Refreshing? && s.worker.todo == []
  }

  ghost function Apply<K, V>(s: State<K, V>, e: Event<K, V>): State<K, V>
    requires Enabled(s, e)
  {
    match e
    case Accept(k) => s.(queued := s.queued + {k}, aboutToPut := s.aboutToPut + multiset{k})
    case Refuse(k) => s
    case Put(k) => s.(aboutToPut := s.aboutToPut - multiset{k}, requests := s.requests + [k])
    case Take => s.(requests := s.requests[1..], worker := Taken(s.requests[0]))
    case Start => s.(worker := Measuring(s.worker.key))
    case Publish(v) => s.(items := s.items[s.worker.key := v], queued := s.queued - {s.worker.key}, worker := Idle)
    case Timeout => s.(worker := Refreshing(s.projects))
    case RefreshAccept =>
      s.(queued := s.queued + {s.worker.todo[0]}, worker := RefreshPut(s.worker.todo[0], s.worker.todo[1..]))
    case RefreshRefuse => s.(worker := Refreshing(s.worker.todo[1..]))
    case RefreshPutEnd => s.(requests := s.requests + [s.worker.key], worker := Refreshing(s.worker.rest))
    case RefreshEnd => s.(worker := Idle)
  }

  // ----- The invariant --------------------------------------------------------------------------

  /** What the worker holds. */
  ghost function Held<K>(w: Worker<K>): multiset<K> {
    match w
    case Taken(k) => multiset{k}
    case Measuring(k) => multiset{k}
    case RefreshPut(k, _) => multiset{k}
    case _ => multiset{}
  }

  /** Every place a queued key can be in. */
  ghost function Places<K, V>(s: State<K, V>): multiset<K> {
    s.aboutToPut + multiset(s.requests) + Held(s.worker)
  }

  ghost predicate Inv<K, V>(s: State<K, V>) {
    && Places(s) == multiset(s.queued)
    && (forall k :: k in s.queued ==> k in s.projects)
    && (s.worker.Refreshing? ==> forall k :: k in s.worker.todo ==> k in s.projects)
    && (s.worker.RefreshPut? ==> forall k :: k in s.worker.rest ==> k in s.projects)
  }

  ghost predicate Init<K, V>(s: State<K, V>) {
    s.queued == {} && s.aboutToPut == multiset{} && s.requests == [] && s.items == map[] && s.worker.Idle?
  }

  lemma InitInv<K, V>(s: State<K, V>)
    requires Init(s)
    ensures Inv(s)
  {}

  /** Every step keeps each queued key in exactly one place. */
  lemma StepKeepsInv<K, V>(s: State<K, V>, e: Event<K, V>)
    requires Inv(s) && Enabled(s, e)
    ensures Inv(Apply(s, e))
  {
    if e.Accept? || e.RefreshAccept? {
      AcceptKeepsInv(s, e);
    } else if e.Put? || e.RefreshPutEnd? {
      PutKeepsInv(s, e);
    } else if e.Take? {
      TakeKeepsInv(s);
    } else if e.Publish? {
      PublishKeepsInv(s, e.item);
    } else {
      MoveKeepsInv(s, e);
    }
  }

  lemma AcceptKeepsInv<K, V>(s: State<K, V>, e: Event<K, V>)
    requires Inv(s) && Enabled(s, e) && (e.Accept? || e.RefreshAccept?)
    ensures Inv(Apply(s, e))
  {
    var t := Apply(s, e);
    var k := if e.Accept? then e.key else s.worker.todo[0];
    assert t.queued == s.queued + {k};
    assert Places(t) == Places(s) + multiset{k};
    assert multiset(t.queued) == multiset(s.queued) + multiset{k};
  }

  lemma PutKeepsInv<K, V>(s: State<K, V>, e: Event<K, V>)
    requires Inv(s) && Enabled(s, e) && (e.Put? || e.RefreshPutEnd?)
    ensures Inv(Apply(s, e))
  {
    var t := Apply(s, e);
    var k := if e.Put? then e.key else s.worker.key;
    assert multiset(t.requests) == multiset(s.requests) + multiset{k};
    assert Places(t) == Places(s);
  }

  lemma TakeKeepsInv<K, V>(s: State<K, V>)
    requires Inv(s) && Enabled(s, Event<K, V>.Take)
    ensures Inv(Apply(s, Event<K, V>.Take))
  {
    FirstOfQueue(s.requests);
    assert Places(Apply(s, Event<K, V>.Take)) == Places(s);
  }

  lemma FirstOfQueue<K>(q: seq<K>)
    requires q != []
    ensures multiset(q) == multiset{q[0]} + multiset(q[1..])
  {
    assert q == [q[0]] + q[1..];
  }

  lemma PublishKeepsInv<K, V>(s: State<K, V>, v: V)
    requires Inv(s) && Enabled(s, Publish(v))
    ensures Inv(Apply(s, Publish(v)))
  {
    var t, k := Apply(s, Publish(v)), s.worker.key;
    assert k in Places(s);
    WithoutKey(s.queued, k);
    assert Places(t) == Places(s) - multiset{k};
  }

  lemma WithoutKey<K>(a: set<K>, k: K)
    requires k in a
    ensures multiset(a - {k}) == multiset(a) - multiset{k}
  {}

  /** Moves that change no queue and no set. */
  lemma MoveKeepsInv<K, V>(s: State<K, V>, e: Event<K, V>)
    requires Inv(s) && Enabled(s, e)
    requires e.Refuse? || e.Start? || e.Timeout? || e.RefreshRefuse? || e.RefreshEnd?
    ensures Inv(Apply(s, e))
  {
    assert Held(Apply(s, e).worker) == Held(s.worker);
  }

  // ----- Runs -------------------------------------------------------------------------------------

  ghost predicate Run<K, V>(s: State<K, V>, es: seq<Event<K, V>>)
    decreases |es|
  {
    es != [] ==> Enabled(s, es[0]) && Run(Apply(s, es[0]), es[1..])
  }

  ghost function Final<K, V>(s: State<K, V>, es: seq<Event<K, V>>): State<K, V>
    requires Run(s, es)
    decreases |es|
  {
    if es == [] then s else Final(Apply(s, es[0]), es[1..])
  }

  lemma {:induction false} RunKeepsInv<K, V>(s: State<K, V>, es: seq<Event<K, V>>)
    requires Inv(s) && Run(s, es)
    ensures Inv(Final(s, es)) && Final(s, es).projects == s.projects
    decreases |es|
  {
    if es != [] {
      StepKeepsInv(s, es[0]);
      RunKeepsInv(Apply(s, es[0]), es[1..]);
    }
  }

  /** The queue never holds a key twice, so it is never longer than the list of projects. */
  lemma QueueBounded<K, V>(s: State<K, V>)
    requires Inv(s)
    ensures Distinct(s.requests)
    ensures |s.requests| <= |s.queued| <= |s.projects|
  {
    forall x
      ensures multiset(s.requests)[x] <= 1
    {
      assert multiset(s.requests)[x] <= Places(s)[x] == multiset(s.queued)[x];
    }
    DistinctByCounts(s.requests);
    assert |Places(s)| == |multiset(s.queued)| == |s.queued|;
    SubsetOfSequence(s.queued, s.projects);
  }

  lemma TwoOccurrences<K>(q: seq<K>, i: nat, j: nat)
    requires i < j < |q| && q[i] == q[j]
    ensures multiset(q)[q[i]] >= 2
  {
    assert q == q[..i] + [q[i]] + q[i + 1..j] + [q[j]] + q[j + 1..];
  }

  lemma DistinctByCounts<K>(q: seq<K>)
    requires forall x :: multiset(q)[x] <= 1
    ensures Distinct(q)
  {
    forall i, j | 0 <= i < j < |q|
      ensures q[i] != q[j]
    {
      if q[i] == q[j] { TwoOccurrences(q, i, j); }
    }
  }

  lemma {:induction false} SubsetOfSequence<K>(a: set<K>, q: seq<K>)
    requires forall k :: k in a ==> k in q
    ensures |a| <= |q|
    decreases |q|
  {
    if q == [] {
      assert a == {};
    } else {
      SubsetOfSequence(a - {q[0]}, q[1..]);
      assert |a| <= |a - {q[0]}| + 1;
    }
  }

  /** Every state that any interleaving reaches from a fresh cache. */
  lemma ReachableStates<K, V>(s: State<K, V>, es: seq<Event<K, V>>)
    requires Init(s) && Run(s, es)
    ensures var t := Final(s, es);
            && Places(t) == multiset(t.queued)
            && Distinct(t.requests) && |t.requests| <= |s.projects|
  {
    InitInv(s);
    RunKeepsInv(s, es);
    QueueBounded(Final(s, es));
  }

  // ----- One key's life ---------------------------------------------------------------------------

  /** Where a key stands: not queued, waiting for its measurement, or being measured. */
  datatype Phase = Absent | Waiting | Running

  ghost function PhaseOf<K, V>(s: State<K, V>, k: K): Phase {
    if s.worker == Measuring(k) then Running
    else if k in s.queued then Waiting
    else Absent
  }

  /** The moments of one key's life that a requester can care about. */
  datatype Moment = Accepted | Started | Published

  ghost function MomentOf<K, V>(s: State<K, V>, e: Event<K, V>, k: K): Option<Moment>
    requires Enabled(s, e)
  {
    match e
    case Accept(a) => if a == k then Some(Accepted) else None
    case RefreshAccept => if s.worker.todo[0] == k then Some(Accepted) else None
    case Start => if s.worker.key == k then Some(Started) else None
    case Publish(_) => if s.worker.key == k then Some(Published) else None
    case _ => None
  }

  ghost function History<K, V>(s: State<K, V>, es: seq<Event<K, V>>, k: K): seq<Moment>
    requires Run(s, es)
    decreases |es|
  {
    if es == [] then []
    else
      (match MomentOf(s, es[0], k)
       case None => []
       case Some(m) => [m]) + History(Apply(s, es[0]), es[1..], k)
  }

  function Next(p: Phase, m: Moment): Option<Phase> {
    match (p, m)
    case (Absent, Accepted) => Some(Waiting)
    case (Waiting, Started) => Some(Running)
    case (Running, Published) => Some(Absent)
    case _ => None
  }

  /** The history is accepted, started, published, accepted, ... from phase p, ending in phase q. */
  ghost predicate Cycles(p: Phase, h: seq<Moment>, q: Phase)
    decreases |h|
  {
    if h == [] then p == q else Next(p, h[0]).Some? && Cycles(Next(p, h[0]).value, h[1..], q)
  }

  lemma StepPhase<K, V>(s: State<K, V>, e: Event<K, V>, k: K)
    requires Inv(s) && Enabled(s, e)
    ensures match MomentOf(s, e, k)
            case None => PhaseOf(Apply(s, e), k) == PhaseOf(s, k)
            case Some(m) => Next(PhaseOf(s, k), m) == Some(PhaseOf(Apply(s, e), k))
  {
    HeldIsQueued(s);
  }

  lemma HeldIsQueued<K, V>(s: State<K, V>)
    requires Inv(s)
    ensures forall k :: k in Held(s.worker) ==> k in s.queued
  {
    forall k | k in Held(s.worker)
      ensures k in s.queued
    {
      assert k in Places(s);
    }
  }

  /**
   On every run, each key's accepted requests, measurement starts and publications strictly
   alternate: an accepted request gets exactly one measurement, which starts after it, and no
   measurement happens without one.
   */
  lemma {:induction false} OneMeasurementPerAcceptance<K, V>(s: State<K, V>, es: seq<Event<K, V>>, k: K)
    requires Inv(s) && Run(s, es)
    ensures Cycles(PhaseOf(s, k), History(s, es, k), PhaseOf(Final(s, es), k))
    decreases |es|
  {
    if es != [] {
      StepPhase(s, es[0], k);
      StepKeepsInv(s, es[0]);
      OneMeasurementPerAcceptance(Apply(s, es[0]), es[1..], k);
      PrependNothing(History(Apply(s, es[0]), es[1..], k));
      match MomentOf(s, es[0], k) {
        case None =>
        case Some(m) =>
          assert ([m] + History(Apply(s, es[0]), es[1..], k))[1..] == History(Apply(s, es[0]), es[1..], k);
      }
    }
  }

  function Count(h: seq<Moment>, m: Moment): nat {
    if h == [] then 0 else (if h[0] == m then 1 else 0) + Count(h[1..], m)
  }

  function Debt(p: Phase): int {
    if p == Waiting then 1 else 0
  }

  /** Counted: starts fall behind acceptances by exactly one while the key waits, and never otherwise. */
  lemma {:induction false} CyclesCount(p: Phase, h: seq<Moment>, q: Phase)
    requires Cycles(p, h, q)
    ensures Count(h, Accepted) + Debt(p) == Count(h, Started) + Debt(q)
    decreases |h|
  {
    if h != [] {
      CyclesCount(Next(p, h[0]).value, h[1..], q);
    }
  }

  /** A refused request leaves a measurement of its key waiting or running. */
  lemma RefusedIsCovered<K, V>(s: State<K, V>, k: K)
    requires Inv(s) && Enabled(s, Event<K, V>.Refuse(k))
    ensures PhaseOf(s, k) != Absent
    ensures k in s.aboutToPut || k in s.requests || k in Held(s.worker)
  {
    assert k in Places(s);
  }

  /**
   Freshness.  Among the runs that follow a refused request and accept no further request for the
   key, a new measurement of it starts at most once, and that one only if the key was still waiting:
   a request refused while its key is being measured gets no measurement that starts after it.
   */
  lemma RefusedWhileMeasuringIsNotMeasuredAgain<K, V>(s: State<K, V>, es: seq<Event<K, V>>, k: K)
    requires Inv(s) && Enabled(s, Event<K, V>.Refuse(k)) && Run(s, es)
    requires Count(History(s, es, k), Accepted) == 0
    ensures PhaseOf(s, k) == Running ==> Count(History(s, es, k), Started) == 0
    ensures PhaseOf(s, k) == Waiting ==>
              Count(History(s, es, k), Started) == if PhaseOf(Final(s, es), k) == Waiting then 0 else 1
  {
    OneMeasurementPerAcceptance(s, es, k);
    RunKeepsInv(s, es);
    CyclesCount(PhaseOf(s, k), History(s, es, k), PhaseOf(Final(s, es), k));
    NotWaitingAgain(PhaseOf(s, k), History(s, es, k), PhaseOf(Final(s, es), k));
  }

  /**
   It happens: on one run from a fresh cache the only project is accepted, put, taken and being
   measured, and a request for it is refused.
   */
  lemma RefusedWhileMeasuringHappens<V>(s: State<int, V>)
    requires Init(s) && s.projects == [7]
    ensures var es := [Event<int, V>.Accept(7), Event.Put(7), Event.Take, Event.Start];
            Run(s, es) && Enabled(Final(s, es), Event<int, V>.Refuse(7)) && PhaseOf(Final(s, es), 7) == Running
  {
    var accepted := Apply(s, Event<int, V>.Accept(7));
    var waiting := Apply(accepted, Event<int, V>.Put(7));
    var taken := Apply(waiting, Event<int, V>.Take);
    var running := Apply(taken, Event<int, V>.Start);
    assert waiting.requests == [7] && running.worker == Measuring(7) && 7 in running.queued;
    LeadsTo(taken, Event<int, V>.Start, []);
    LeadsTo(waiting, Event<int, V>.Take, [Event<int, V>.Start]);
    LeadsTo(accepted, Event<int, V>.Put(7), [Event<int, V>.Take, Event.Start]);
    LeadsTo(s, Event<int, V>.Accept(7), [Event<int, V>.Put(7), Event.Take, Event.Start]);
  }

  lemma LeadsTo<K, V>(s: State<K, V>, e: Event<K, V>, es: seq<Event<K, V>>)
    requires Enabled(s, e) && Run(Apply(s, e), es)
    ensures Run(s, [e] + es) && Final(s, [e] + es) == Final(Apply(s, e), es)
  {
    assert ([e] + es)[1..] == es;
  }

  lemma {:induction false} NotWaitingAgain(p: Phase, h: seq<Moment>, q: Phase)
    requires Cycles(p, h, q) && Count(h, Accepted) == 0
    ensures p != Waiting ==> q != Waiting
    decreases |h|
  {
    if h != [] {
      NotWaitingAgain(Next(p, h[0]).value, h[1..], q);
    }
  }

  /** The items the worker publishes for a key during a run. */
  ghost function PublishedItems<K, V>(s: State<K, V>, es: seq<Event<K, V>>, k: K): seq<V>
    requires Run(s, es)
    decreases |es|
  {
    if es == [] then []
    else
      (if es[0].Publish? && s.worker.key == k then [es[0].item] else []) + PublishedItems(Apply(s, es[0]), es[1..], k)
  }

  /** A reader always sees a key's last published item, and no step but a publication changes it. */
  lemma {:induction false} ReadersSeeLatest<K, V>(s: State<K, V>, es: seq<Event<K, V>>, k: K)
    requires Run(s, es)
    ensures var items, out := Final(s, es).items, PublishedItems(s, es, k);
            if out != [] then k in items && items[k] == out[|out| - 1]
            else (k in items <==> k in s.items) && (k in items ==> items[k] == s.items[k])
    decreases |es|
  {
    if es != [] {
      ReadersSeeLatest(Apply(s, es[0]), es[1..], k);
    }
  }

  // ----- The periodic refresh ---------------------------------------------------------------------------

  /** The projects that the refresh has still to go through. */
  ghost function ToVisit<K>(w: Worker<K>): seq<K> {
    match w
    case Refreshing(todo) => todo
    case RefreshPut(_, rest) => rest
    case _ => []
  }

  ghost predicate InRefresh<K>(w: Worker<K>) {
    w.Refreshing? || w.RefreshPut?
  }

  /** The projects for which the worker makes a request of its own during a run, in order. */
  ghost function Visited<K, V>(s: State<K, V>, es: seq<Event<K, V>>): seq<K>
    requires Run(s, es)
    decreases |es|
  {
    if es == [] then []
    else
      (if es[0].RefreshAccept? || es[0].RefreshRefuse? then [s.worker.todo[0]] else [])
      + Visited(Apply(s, es[0]), es[1..])
  }

  lemma VisitOne<K, V>(s: State<K, V>, e: Event<K, V>)
    requires Enabled(s, e) && InRefresh(s.worker) && !e.RefreshEnd?
    ensures InRefresh(Apply(s, e).worker)
    ensures (if e.RefreshAccept? || e.RefreshRefuse? then [s.worker.todo[0]] else []) + ToVisit(Apply(s, e).worker)
            == ToVisit(s.worker)
  {}

  /** Until it ends, a refresh goes through its projects one after another. */
  lemma {:induction false} RefreshInOrder<K, V>(s: State<K, V>, es: seq<Event<K, V>>)
    requires Run(s, es) && InRefresh(s.worker)
    requires forall i :: 0 <= i < |es| ==> !es[i].RefreshEnd?
    ensures InRefresh(Final(s, es).worker)
    ensures Visited(s, es) + ToVisit(Final(s, es).worker) == ToVisit(s.worker)
    decreases |es|
  {
    if es == [] {
      PrependNothing(ToVisit(s.worker));
    } else {
      var t := Apply(s, es[0]);
      VisitOne(s, es[0]);
      RefreshInOrder(t, es[1..]);
      var head := if es[0].RefreshAccept? || es[0].RefreshRefuse? then [s.worker.todo[0]] else [];
      Reassociate(head, Visited(t, es[1..]), ToVisit(Final(t, es[1..]).worker));
    }
  }

  /** So from the timeout to its end a refresh makes one request for every project, in order. */
  lemma RefreshVisitsAll<K, V>(s: State<K, V>, es: seq<Event<K, V>>)
    requires Enabled(s, Event<K, V>.Timeout) && Run(Apply(s, Event<K, V>.Timeout), es)
    requires forall i :: 0 <= i < |es| ==> !es[i].RefreshEnd?
    requires Enabled(Final(Apply(s, Event<K, V>.Timeout), es), Event<K, V>.RefreshEnd)
    ensures Visited(Apply(s, Event<K, V>.Timeout), es) == s.projects
  {
    var t := Apply(s, Event<K, V>.Timeout);
    RefreshInOrder(t, es);
    assert Visited(t, es) + [] == Visited(t, es);
  }

  // ----- The queue ------------------------------------------------------------------------------------

  /** The keys that enter the queue during a run, and those that the worker takes, in order. */
  ghost function PutKeys<K, V>(s: State<K, V>, es: seq<Event<K, V>>): seq<K>
    requires Run(s, es)
    decreases |es|
  {
    if es == [] then []
    else
      (match es[0]
       case Put(k) => [k]
       case RefreshPutEnd => [s.worker.key]
       case _ => []) + PutKeys(Apply(s, es[0]), es[1..])
  }

  ghost function TakenKeys<K, V>(s: State<K, V>, es: seq<Event<K, V>>): seq<K>
    requires Run(s, es)
    decreases |es|
  {
    if es == [] then [] else (if es[0].Take? then [s.requests[0]] else []) + TakenKeys(Apply(s, es[0]), es[1..])
  }

  /** First in, first out: what is taken, then what still waits, is what waited, then what was put. */
  lemma {:induction false} FirstInFirstOut<K, V>(s: State<K, V>, es: seq<Event<K, V>>)
    requires Run(s, es)
    ensures TakenKeys(s, es) + Final(s, es).requests == s.requests + PutKeys(s, es)
    decreases |es|
  {
    if es == [] {
      assert [] + s.requests == s.requests == s.requests + [];
    } else {
      var t := Apply(s, es[0]);
      var taken, put, rest := TakenKeys(t, es[1..]), PutKeys(t, es[1..]), Final(t, es[1..]).requests;
      FirstInFirstOut(t, es[1..]);
      if es[0].Take? {
        assert s.requests == [s.requests[0]] + t.requests;
        Reassociate([s.requests[0]], taken, rest);
        Reassociate([s.requests[0]], t.requests, put);
        PrependNothing(put);
      } else if es[0].Put? || es[0].RefreshPutEnd? {
        Reassociate(s.requests, if es[0].Put? then [es[0].key] else [s.worker.key], put);
        PrependNothing(taken);
      } else {
        PrependNothing(taken);
        PrependNothing(put);
      }
    }
  }

  /**
   Bounded waiting, without any assumption on the scheduler: the key at position i of the queue is what
   the (i + 1)-th Take of any run takes, and i is less than the number of projects.
   */
  lemma TakenInTurn<K, V>(s: State<K, V>, es: seq<Event<K, V>>, i: nat)
    requires Inv(s) && Run(s, es) && i < |s.requests|
    ensures i < |s.projects|
    ensures i < |TakenKeys(s, es)| ==> TakenKeys(s, es)[i] == s.requests[i]
  {
    QueueBounded(s);
    FirstInFirstOut(s, es);
    var taken, rest := TakenKeys(s, es), Final(s, es).requests;
    if i < |taken| {
      assert (taken + rest)[i] == (s.requests + PutKeys(s, es))[i];
    }
  }

  // ----- Runs from a fresh cache ------------------------------------------------------------------------

  ghost function Fresh<K, V>(projects: seq<K>): State<K, V> {
    State(projects, {}, multiset{}, [], map[], Idle)
  }

  ghost predicate Reaches<K, V>(s: State<K, V>, es: seq<Event<K, V>>, t: State<K, V>) {
    Run(s, es) && Final(s, es) == t
  }

  lemma {:induction false} ReachesMore<K, V>(s: State<K, V>, es: seq<Event<K, V>>, t: State<K, V>, e: Event<K, V>)
    requires Reaches(s, es, t) && Enabled(t, e)
    ensures Reaches(s, es + [e], Apply(t, e))
    decreases |es|
  {
    if es == [] {
      assert [] + [e] == [e] && [e][1..] == [];
    } else {
      ReachesMore(Apply(s, es[0]), es[1..], t, e);
      assert (es + [e])[0] == es[0] && (es + [e])[1..] == es[1..] + [e];
    }
  }

  /** What holds in every state that is reached from a fresh cache. */
  lemma ReachedFacts<K, V>(projects: seq<K>, es: seq<Event<K, V>>, t: State<K, V>)
    requires Reaches(Fresh(projects), es, t)
    ensures Inv(t) && t.projects == projects && Distinct(t.requests) && |t.requests| <= |projects|
    ensures forall k :: k in Held(t.worker) ==> k in t.queued
    ensures forall k :: Cycles(Absent, History(Fresh(projects), es, k), PhaseOf(t, k))
  {
    var s: State<K, V> := Fresh(projects);
    InitInv(s);
    RunKeepsInv(s, es);
    QueueBounded(t);
    HeldIsQueued(t);
    forall k
      ensures Cycles(Absent, History(s, es, k), PhaseOf(t, k))
    {
      OneMeasurementPerAcceptance(s, es, k);
    }
  }

  /** The item last published for a key by a run from a fresh cache. */
  ghost function LastPublished<K, V>(projects: seq<K>, es: seq<Event<K, V>>, k: K): Option<V>
    requires Run(Fresh(projects), es)
  {
    var out := PublishedItems(Fresh(projects), es, k);
    if out == [] then None else Some(out[|out| - 1])
  }

  lemma ItemsAreLatest<K, V>(projects: seq<K>, es: seq<Event<K, V>>, t: State<K, V>, k: K)
    requires Reaches(Fresh(projects), es, t)
    ensures LastPublished(projects, es, k) == if k in t.items then Some(t.items[k]) else None
  {
    ReadersSeeLatest(Fresh(projects), es, k);
  }

  /** The step of a request under the lock; `refreshing` says that the caller is the worker itself. */
  function RequestEvent<K, V>(key: K, refreshing: bool, accepted: bool): Event<K, V> {
    if refreshing then (if accepted then RefreshAccept else RefreshRefuse)
    else if accepted then Accept(key) else Refuse(key)
  }

  ghost predicate MayRequest<K, V>(s: State<K, V>, key: K, refreshing: bool) {
    if refreshing then s.worker.Refreshing? && s.worker.todo != [] && s.worker.todo[0] == key else key in s.projects
  }

  /** A refused key has a measurement waiting or running; an accepted one had none, and has one waiting then. */
  lemma RequestPhase<K, V>(s: State<K, V>, key: K, refreshing: bool)
    requires Inv(s) && MayRequest(s, key, refreshing)
    ensures var e := RequestEvent<K, V>(key, refreshing, key !in s.queued);
            && Enabled(s, e) && Inv(Apply(s, e)) && key in Apply(s, e).queued
            && if key !in s.queued then PhaseOf(s, key) == Absent && PhaseOf(Apply(s, e), key) == Waiting
               else PhaseOf(s, key) == PhaseOf(Apply(s, e), key) != Absent
  {
    var e := RequestEvent<K, V>(key, refreshing, key !in s.queued);
    StepKeepsInv(s, e);
    HeldIsQueued(s);
  }

  // ----- The class ----------------------------------------------------------------------------------

  datatype BuildInventory = BuildInventory(modules: string, testBlocks: string, loc: string, commits: string,
                                           head: string, dirty: bool, measuredAt: real)

  /** The value of a project that has not been measured, or whose measurement failed. */
  const PENDING := BuildInventory("pending", "pending", "pending", "?", "", false, 0.0)

  type CacheEvent = Event<string, BuildInventory>

  /**
   `InventoryCache`.  Each method is one uninterruptible stretch of the source; a run of the program
   is any interleaving of calls.  What a thread does between two stretches is kept in ghost state, and
   so is the run so far: the object is always where that run leads from a fresh cache.
   */
  class InventoryCache {
    const projects: seq<string>
    var items: map<string, BuildInventory>
    var queued: set<string>
    var requests: seq<string>
    ghost var aboutToPut: multiset<string>
    ghost var worker: Worker<string>
    ghost var events: seq<CacheEvent>

    ghost function View(): State<string, BuildInventory>
      reads this
    {
      State(projects, queued, aboutToPut, requests, items, worker)
    }

    ghost predicate Valid()
      reads this
    {
      Reaches(Fresh(projects), events, View())
    }

    constructor (projects: seq<string>)
      ensures this.projects == projects && Valid() && events == [] && Init(View())
    {
      this.projects := projects;
      items, queued, requests := map[], {}, [];
      aboutToPut, worker, events := multiset{}, Idle, [];
    }

    /** What every valid cache promises: see `ReachedFacts`. */
    lemma Promises()
      requires Valid()
      ensures Inv(View()) && Distinct(requests) && |requests| <= |projects|
      ensures forall k :: k in Held(worker) ==> k in queued
      ensures forall k :: Cycles(Absent, History(Fresh(projects), events, k), PhaseOf(View(), k))
    {
      ReachedFacts(projects, events, View());
    }

    /**
     request(), under the lock.  `refreshing` says that the caller is the worker itself.  A refused key
     has a measurement waiting or running; an accepted one had none, and has one waiting now.
     */
    method Reserve(key: string, ghost refreshing: bool) returns (accepted: bool)
      requires Valid()
      requires MayRequest(View(), key, refreshing)
      modifies this`queued, this`aboutToPut, this`worker, this`events
      ensures Valid() && Inv(View()) && key in queued
      ensures accepted ==> old(PhaseOf(View(), key)) == Absent && PhaseOf(View(), key) == Waiting
      ensures !accepted ==> old(PhaseOf(View(), key)) == PhaseOf(View(), key) != Absent
      ensures var e := RequestEvent(key, refreshing, accepted);
              Enabled(old(View()), e) && View() == Apply(old(View()), e) && events == old(events) + [e]
    {
      Promises();
      accepted := key !in queued;
      ghost var e := RequestEvent<string, BuildInventory>(key, refreshing, accepted);
      ReachesMore(Fresh(projects), events, View(), e);
      RequestPhase(View(), key, refreshing);
      if accepted {
        queued := queued + {key};
        aboutToPut := if refreshing then aboutToPut else aboutToPut + multiset{key};
        worker := if refreshing then RefreshPut(key, worker.todo[1..]) else worker;
      } else {
        worker := if refreshing then Refreshing(worker.todo[1..]) else worker;
      }
      events := events + [e];
    }

    /** request(), after the lock: _requests.put.  The queue stays without repeats, within the project list. */
    method PutRequest(key: string, ghost refreshing: bool)
      requires Valid()
      requires if refreshing then worker.RefreshPut? && worker.key == key else key in aboutToPut
      modifies this`requests, this`aboutToPut, this`worker, this`events
      ensures Valid() && Inv(View()) && Distinct(requests) && |requests| <= |projects|
      ensures var e: CacheEvent := if refreshing then RefreshPutEnd else Put(key);
              Enabled(old(View()), e) && View() == Apply(old(View()), e) && events == old(events) + [e]
    {
      ghost var e: CacheEvent := if refreshing then RefreshPutEnd else Put(key);
      ReachesMore(Fresh(projects), events, View(), e);
      requests := requests + [key];
      aboutToPut := if refreshing then aboutToPut else aboutToPut - multiset{key};
      worker := if refreshing then Refreshing(worker.rest) else worker;
      events := events + [e];
      Promises();
    }

    /** get(): what the worker published last for the key, on the run so far; pending before the first time. */
    method Get(key: string) returns (item: BuildInventory)
      requires Valid()
      ensures item == match LastPublished(projects, events, key)
                      case None => PENDING
                      case Some(last) => last
    {
      ItemsAreLatest(projects, events, View(), key);
      item := if key in items then items[key] else PENDING;
    }

    /**
     The worker's _requests.get: the key that has waited longest, which waits nowhere else; or Empty after
     the timeout, which begins the refresh.
     */
    method WorkerGet() returns (key: Option<string>)
      requires Valid() && worker.Idle?
      modifies this`requests, this`worker, this`events
      ensures Valid() && Inv(View())
      ensures key == if old(requests) == [] then None else Some(old(requests)[0])
      ensures key.Some? ==> key.value in queued && key.value !in requests && key.value !in aboutToPut
      ensures var e: CacheEvent := if key.None? then Timeout else Take;
              Enabled(old(View()), e) && View() == Apply(old(View()), e) && events == old(events) + [e]
    {
      ghost var e: CacheEvent := if requests == [] then Timeout else Take;
      ReachesMore(Fresh(projects), events, View(), e);
      if requests == [] {
        worker := Refreshing(projects);
        key := None;
      } else {
        key := Some(requests[0]);
        worker := Taken(requests[0]);
        requests := requests[1..];
      }
      events := events + [e];
      Promises();
      HeldNowhereElse(View());
    }

    /** The worker enters collect_inventory. */
    ghost method WorkerStart()
      requires Valid() && worker.Taken?
      modifies this`worker, this`events
      ensures Valid() && Inv(View()) && PhaseOf(View(), old(worker.key)) == Running
      ensures Enabled(old(View()), Start) && View() == Apply(old(View()), Start) && events == old(events) + [Start]
    {
      ReachesMore(Fresh(projects), events, View(), Start);
      worker := Measuring(worker.key);
      events := events + [Start];
      Promises();
    }

    /** The worker has gone through every project of the periodic refresh. */
    ghost method WorkerRefreshEnd()
      requires Valid() && worker.Refreshing? && worker.todo == []
      modifies this`worker, this`events
      ensures Valid() && Inv(View())
      ensures Enabled(old(View()), RefreshEnd) && View() == Apply(old(View()), RefreshEnd)
      ensures events == old(events) + [RefreshEnd]
    {
      ReachesMore(Fresh(projects), events, View(), RefreshEnd);
      worker := Idle;
      events := events + [RefreshEnd];
      Promises();
    }

    /**
     The worker under the lock after a measurement; None is a measurement that raised.  From here on the
     item is what readers see, and the next request for the key is accepted.
     */
    method WorkerPublish(key: string, measured: Option<BuildInventory>)
      requires Valid() && worker == Measuring(key)
      modifies this`items, this`queued, this`worker, this`events
      ensures Valid() && Inv(View()) && PhaseOf(View(), key) == Absent
      ensures var item := if measured.None? then PENDING else measured.value;
              && LastPublished(projects, events, key) == Some(item)
              && Enabled(old(View()), Publish(item)) && View() == Apply(old(View()), Publish(item))
              && events == old(events) + [Publish(item)]
    {
      var item := if measured.None? then PENDING else measured.value;
      ReachesMore(Fresh(projects), events, View(), Publish(item));
      items := items[key := item];
      queued := queued - {key};
      worker := Idle;
      events := events + [Publish(item)];
      Promises();
      ItemsAreLatest(projects, events, View(), key);
    }
  }

  /** The key in the worker's hands waits nowhere else. */
  lemma HeldNowhereElse<K, V>(s: State<K, V>)
    requires Inv(s)
    ensures forall k :: k in Held(s.worker) ==> k !in s.requests && k !in s.aboutToPut
  {
    forall k | k in Held(s.worker)
      ensures k !in s.requests && k !in s.aboutToPut
    {
      assert Places(s)[k] == multiset(s.queued)[k] <= 1;
      assert Places(s)[k] == s.aboutToPut[k] + multiset(s.requests)[k] + Held(s.worker)[k];
    }
  }
}
