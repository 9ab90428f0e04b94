/**
 Incremental framing.  Every stream reader of the repository keeps a buffer, appends whatever
 chunk arrived and then peels complete units off the front until none is left.  This module
 states that loop once, for any way of recognising the unit at the front of a buffer, and proves
 that neither the chunk boundaries nor the moment of peeling can be observed.
 */
module Framing {
  import opened Collections

  /** A recogniser reports the length of the complete unit at the front of a buffer, if there is one. */
  type Recogniser<!T> = seq<T> -> Option<nat>

  /** A recognised unit is non-empty and lies within the buffer. */
  ghost predicate Progresses<T(!new)>(e: Recogniser<T>) {
    forall b: seq<T> {:trigger e(b)} :: e(b).Some? ==> 0 < e(b).value <= |b|
  }

  /** Bytes that arrive later never change the verdict on a unit already complete. */
  ghost predicate PrefixStable<T(!new)>(e: Recogniser<T>) {
    forall b: seq<T>, c: seq<T> {:trigger e(b + c)} :: e(b).Some? ==> e(b + c) == e(b)
  }

  /** The verdict depends on the unit's own bytes only. */
  ghost predicate Local<T(!new)>(e: Recogniser<T>) {
    forall b: seq<T> {:trigger e(b)} :: e(b).Some? && e(b).value <= |b| ==> e(b[..e(b).value]) == e(b)
  }

  ghost predicate Framer<T(!new)>(e: Recogniser<T>) {
    Progresses(e) && PrefixStable(e) && Local(e)
  }

  datatype Peeled<T> = Peeled(units: seq<seq<T>>, rest: seq<T>)

  /** All complete units at the front of `b`, and what is left over. */
  function Peel<T(!new)>(e: Recogniser<T>, b: seq<T>): (r: Peeled<T>)
    requires Progresses(e)
    ensures Flatten(r.units) + r.rest == b
    ensures e(r.rest) == None
    decreases |b|
  {
    match e(b)
    case None => Peeled([], b)
    case Some(n) =>
      var r := Peel(e, b[n..]);
      FlattenCons(b[..n], r.units);
      Reassociate(b[..n], Flatten(r.units), r.rest);
      assert b == b[..n] + b[n..];
      Peeled([b[..n]] + r.units, r.rest)
  }

  /** Append-then-peel for every chunk in turn: what the repository's read loops do. */
  function Feed<T(!new)>(e: Recogniser<T>, buf: seq<T>, chunks: seq<seq<T>>): (r: Peeled<T>)
    requires Progresses(e)
    decreases |chunks|
  {
    if chunks == [] then Peeled([], buf)
    else
      var first := Peel(e, buf + chunks[0]);
      var later := Feed(e, first.rest, chunks[1..]);
      Peeled(first.units + later.units, later.rest)
  }

  /** Peeling early and continuing later gives the same units as peeling everything at once. */
  lemma {:induction false} PeelTwice<T(!new)>(e: Recogniser<T>, b: seq<T>, c: seq<T>)
    requires Progresses(e) && PrefixStable(e)
    ensures var early := Peel(e, b);
            var late := Peel(e, early.rest + c);
            Peel(e, b + c) == Peeled(early.units + late.units, late.rest)
    decreases |b|
  {
    if e(b).None? {
      PrependNothing(Peel(e, b + c).units);
    } else {
      var n := e(b).value;
      assert e(b + c) == e(b);
      assert (b + c)[..n] == b[..n] && (b + c)[n..] == b[n..] + c;
      PeelTwice(e, b[n..], c);
      var early := Peel(e, b[n..]);
      Reassociate([b[..n]], early.units, Peel(e, early.rest + c).units);
    }
  }

  /** The main result: reading in chunks equals one reading of the whole stream. */
  lemma {:induction false} ChunkIndependent<T(!new)>(e: Recogniser<T>, buf: seq<T>, chunks: seq<seq<T>>)
    requires Progresses(e) && PrefixStable(e)
    requires e(buf) == None
    ensures Feed(e, buf, chunks) == Peel(e, buf + Flatten(chunks))
    decreases |chunks|
  {
    if chunks == [] {
      assert buf + [] == buf;
    } else {
      ChunkIndependent(e, Peel(e, buf + chunks[0]).rest, chunks[1..]);
      PeelTwice(e, buf + chunks[0], Flatten(chunks[1..]));
      Reassociate(buf, chunks[0], Flatten(chunks[1..]));
    }
  }

  /** Two ways of cutting the same stream are indistinguishable. */
  lemma AnyTwoChunkings<T(!new)>(e: Recogniser<T>, one: seq<seq<T>>, two: seq<seq<T>>)
    requires Progresses(e) && PrefixStable(e) && e([]) == None
    requires Flatten(one) == Flatten(two)
    ensures Feed(e, [], one) == Feed(e, [], two)
  {
    ChunkIndependent(e, [], one);
    ChunkIndependent(e, [], two);
  }

  /** A unit is complete when the recogniser takes all of it. */
  predicate Complete<T>(e: Recogniser<T>, u: seq<T>) {
    e(u) == Some(|u|)
  }

  /**
   The framing is unambiguous: whatever complete units were written one after another, followed by
   an incomplete tail, are exactly the units and the tail read back.
   */
  lemma {:induction false} PeelInvertsConcatenation<T(!new)>(e: Recogniser<T>, units: seq<seq<T>>, tail: seq<T>)
    requires Progresses(e) && PrefixStable(e)
    requires forall u :: u in units ==> Complete(e, u)
    requires e(tail) == None
    ensures Peel(e, Flatten(units) + tail) == Peeled(units, tail)
  {
    if units == [] {
      assert [] + tail == tail;
    } else {
      var u, more := units[0], Flatten(units[1..]) + tail;
      assert u in units;
      assert Flatten(units) + tail == u + more;
      assert e(u + more) == Some(|u|);
      PeelInvertsConcatenation(e, units[1..], tail);
      assert (u + more)[..|u|] == u && (u + more)[|u|..] == more;
    }
  }

  /** Every unit peeled off is complete on its own, so the decomposition is also a valid encoding. */
  lemma {:induction false} PeeledUnitsComplete<T(!new)>(e: Recogniser<T>, b: seq<T>)
    requires Progresses(e) && Local(e)
    ensures forall u :: u in Peel(e, b).units ==> Complete(e, u)
    decreases |b|
  {
    match e(b)
    case None =>
    case Some(n) =>
      PeeledUnitsComplete(e, b[n..]);
      assert Complete(e, b[..n]);
  }

  /** No proper prefix of a complete unit is mistaken for a unit. */
  lemma ProperPrefixIncomplete<T(!new)>(e: Recogniser<T>, u: seq<T>, k: nat)
    requires Progresses(e) && PrefixStable(e)
    requires Complete(e, u) && k < |u|
    ensures e(u[..k]) == None
  {
    assert u[..k] + u[k..] == u;
  }

  /** Feeding a single chunk is one append and one peel. */
  lemma FeedOne<T(!new)>(e: Recogniser<T>, buf: seq<T>, chunk: seq<T>)
    requires Progresses(e)
    ensures Feed(e, buf, [chunk]) == Peel(e, buf + chunk)
  {
    var p := Peel(e, buf + chunk);
    assert [chunk][1..] == [];
    assert p.units + [] == p.units;
  }

  /** Wherever a unit is cut, its first part yields nothing and is kept whole until the rest arrives. */
  lemma CutAnywhere<T(!new)>(e: Recogniser<T>, u: seq<T>, k: nat)
    requires Progresses(e) && PrefixStable(e) && e([]) == None
    requires Complete(e, u) && k < |u|
    ensures Feed(e, [], [u[..k]]) == Peeled([], u[..k])
    ensures Feed(e, u[..k], [u[k..]]) == Peeled([u], [])
  {
    ProperPrefixIncomplete(e, u, k);
    FeedOne(e, [], u[..k]);
    PrependNothing(u[..k]);
    FeedOne(e, u[..k], u[k..]);
    assert u[..k] + u[k..] == u;
    assert u[..|u|] == u && u[|u|..] == [];
    assert [u] + [] == [u];
  }

  /** Units written one after another are read back through any chunking, and nothing is left over. */
  lemma ReadBack<T(!new)>(e: Recogniser<T>, units: seq<seq<T>>, chunks: seq<seq<T>>)
    requires Progresses(e) && PrefixStable(e) && e([]) == None
    requires forall i :: 0 <= i < |units| ==> Complete(e, units[i])
    requires Flatten(chunks) == Flatten(units)
    ensures Feed(e, [], chunks) == Peeled(units, [])
  {
    ChunkIndependent(e, [], chunks);
    PeelInvertsConcatenation(e, units, []);
    assert [] + Flatten(chunks) == Flatten(units) + [];
  }
}
