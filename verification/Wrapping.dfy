/**
 Message wrapping of the announce bot: `split_text`, which cuts one message to a byte budget, and
 `compact`, which packs several lines into as few messages as their order allows.  Text is a sequence
 of code points; lengths are counted in bytes of UTF-8 (section 3 of RFC 3629).
 */
module Wrapping {
  import opened Collections
  import opened Unicode
  import Utf8

  type Rune = c: int | 0 <= c < 0x11_0000

  type Text = seq<Rune>

  const SPACE: Rune := 0x20

  /** Bytes of one code point; a lone surrogate is replaced by a one-byte question mark. */
  function Weight(c: Rune): (w: nat)
    ensures 1 <= w <= 4
  {
    if c < 0x80 then 1
    else if c < 0x800 then 2
    else if 0xD800 <= c < 0xE000 then 1
    else if c < 0x1_0000 then 3
    else 4
  }

  /** For a character it is the length of its encoding. */
  lemma WeightIsUtf8(c: char)
    ensures Weight(c as int) == |Utf8.EncodeChar(c)|
  {}

  /** `byte_len`. */
  function ByteLen(t: Text): (n: nat)
    ensures t != [] ==> n > 0
  {
    if t == [] then 0 else ByteLen(t[..|t| - 1]) + Weight(t[|t| - 1])
  }

  lemma {:induction false} ByteLenAppend(a: Text, b: Text)
    ensures ByteLen(a + b) == ByteLen(a) + ByteLen(b)
  {
    if b == [] {
      assert a + b == a;
    } else {
      ByteLenAppend(a, b[..|b| - 1]);
      assert (a + b)[..|a + b| - 1] == a + b[..|b| - 1];
    }
  }

  predicate Fits(t: Text, limit: int) {
    ByteLen(t) <= limit
  }

  /** Every code point fits on its own. */
  predicate RunesFit(t: Text, limit: int) {
    forall i :: 0 <= i < |t| ==> Weight(t[i]) <= limit
  }

  lemma {:induction false} RunesFitWhole(t: Text, limit: int)
    requires Fits(t, limit)
    ensures RunesFit(t, limit)
  {
    forall i | 0 <= i < |t|
      ensures Weight(t[i]) <= limit
    {
      ByteLenAppend(t[..i], [t[i]]);
      ByteLenAppend(t[..i + 1], t[i + 1..]);
      assert t[..i + 1] == t[..i] + [t[i]] && t == t[..i + 1] + t[i + 1..];
    }
  }

  // ----- Words ------------------------------------------------------------------------------

  /** Python's text.split(" "). */
  function SplitSpaces(text: Text): (pieces: seq<Text>)
    ensures pieces != []
  {
    if text == [] then [[]]
    else
      var rest := SplitSpaces(text[1..]);
      if text[0] == SPACE then [[]] + rest else [[text[0]] + rest[0]] + rest[1..]
  }

  /** The pieces hold no space, and joined with spaces they are the text: there is only one such splitting. */
  lemma {:induction false} SplitSpacesExact(text: Text)
    ensures Join([SPACE], SplitSpaces(text)) == text
    ensures forall i :: 0 <= i < |SplitSpaces(text)| ==> 0x20 !in SplitSpaces(text)[i]
  {
    if text != [] {
      var rest := SplitSpaces(text[1..]);
      SplitSpacesExact(text[1..]);
      if text[0] == SPACE {
        JoinFront([SPACE], [], rest);
      } else {
        JoinFirst([SPACE], [text[0]], rest);
      }
      assert [text[0]] + text[1..] == text;
    } else {
      assert Join([SPACE], [[]]) == [];
    }
  }

  /** An item in front. */
  lemma {:induction false} JoinFront(sep: Text, t: Text, items: seq<Text>)
    requires items != []
    ensures Join(sep, [t] + items) == t + sep + Join(sep, items)
    decreases |items|
  {
    var all, init, last := [t] + items, items[..|items| - 1], items[|items| - 1];
    assert all[..|all| - 1] == [t] + init && all[|all| - 1] == last;
    if init != [] {
      JoinFront(sep, t, init);
      Reassociate(t + sep, Join(sep, init), sep);
      Reassociate(t + sep, Join(sep, init) + sep, last);
    } else {
      assert Join(sep, [t]) == t && items == [last];
    }
  }

  /** More in front of the first item. */
  lemma {:induction false} JoinFirst(sep: Text, t: Text, items: seq<Text>)
    requires items != []
    ensures Join(sep, [t + items[0]] + items[1..]) == t + Join(sep, items)
    decreases |items|
  {
    if |items| == 1 {
      assert [t + items[0]] + items[1..] == [t + items[0]];
    } else {
      JoinFront(sep, t + items[0], items[1..]);
      JoinFront(sep, items[0], items[1..]);
      assert items == [items[0]] + items[1..];
      assert t + items[0] + sep + Join(sep, items[1..]) == t + (items[0] + sep + Join(sep, items[1..]));
    }
  }

  function DropEmpty(pieces: seq<Text>): seq<Text> {
    if pieces == [] then [] else (if pieces[0] != [] then [pieces[0]] else []) + DropEmpty(pieces[1..])
  }

  /** The words of a text: its maximal space-free runs. */
  function Words(text: Text): seq<Text> {
    DropEmpty(SplitSpaces(text))
  }

  /** A text without its spaces. */
  function Despace(t: Text): Text {
    if t == [] then [] else (if t[0] == SPACE then [] else [t[0]]) + Despace(t[1..])
  }

  lemma {:induction false} DespaceAppend(a: Text, b: Text)
    ensures Despace(a + b) == Despace(a) + Despace(b)
  {
    if a == [] {
      assert a + b == b;
    } else {
      DespaceAppend(a[1..], b);
      assert (a + b)[1..] == a[1..] + b;
      Reassociate(if a[0] == SPACE then [] else [a[0]], Despace(a[1..]), Despace(b));
    }
  }

  lemma {:induction false} SplitSpacesFlat(text: Text)
    ensures Flatten(SplitSpaces(text)) == Despace(text)
  {
    if text == [] {
      FlattenOne<Rune>([]);
    } else {
      var rest := SplitSpaces(text[1..]);
      SplitSpacesFlat(text[1..]);
      if text[0] == SPACE {
        FlattenCons([], rest);
      } else {
        FlattenCons([text[0]] + rest[0], rest[1..]);
        Reassociate([text[0]], rest[0], Flatten(rest[1..]));
      }
    }
  }

  lemma {:induction false} DropEmptyFlat(pieces: seq<Text>)
    ensures Flatten(DropEmpty(pieces)) == Flatten(pieces)
  {
    if pieces != [] {
      DropEmptyFlat(pieces[1..]);
      if pieces[0] != [] {
        FlattenCons(pieces[0], DropEmpty(pieces[1..]));
      } else {
        assert [] + DropEmpty(pieces[1..]) == DropEmpty(pieces[1..]);
      }
    }
  }

  /** The words, one after another, are the text without its spaces. */
  lemma WordsFlat(text: Text)
    ensures Flatten(Words(text)) == Despace(text)
  {
    DropEmptyFlat(SplitSpaces(text));
    SplitSpacesFlat(text);
  }

  lemma {:induction false} WordsNonEmpty(pieces: seq<Text>)
    ensures [] !in DropEmpty(pieces)
  {
    if pieces != [] {
      WordsNonEmpty(pieces[1..]);
    }
  }

  // ----- Joining -------------------------------------------------------------------------------

  /** The items with a separator between neighbours. */
  function Join(sep: Text, items: seq<Text>): Text {
    if items == [] then []
    else if |items| == 1 then items[0]
    else Join(sep, items[..|items| - 1]) + sep + items[|items| - 1]
  }

  function JoinEach(sep: Text, groups: seq<seq<Text>>): (r: seq<Text>)
    ensures |r| == |groups|
  {
    if groups == [] then [] else [Join(sep, groups[0])] + JoinEach(sep, groups[1..])
  }

  /** One more item on a group. */
  lemma JoinPush(sep: Text, items: seq<Text>, t: Text)
    ensures Join(sep, items + [t]) == if items == [] then t else Join(sep, items) + sep + t
  {
    assert (items + [t])[..|items|] == items;
  }

  /** Removing spaces undoes a join with spaces. */
  lemma {:induction false} DespaceJoin(items: seq<Text>)
    ensures Despace(Join([SPACE], items)) == Despace(Flatten(items))
  {
    if |items| == 1 {
      FlattenOne(items[0]);
      assert items == [items[0]];
    } else if items != [] {
      var init, last := items[..|items| - 1], items[|items| - 1];
      DespaceJoin(init);
      assert items == init + [last];
      FlattenAppend(init, [last]);
      FlattenOne(last);
      DespaceAppend(Flatten(init), last);
      DespaceAppend(Join([SPACE], init) + [SPACE], last);
      DespaceAppend(Join([SPACE], init), [SPACE]);
      assert Despace([SPACE]) == [];
      assert Despace(Join([SPACE], init)) + [] == Despace(Join([SPACE], init));
    }
  }

  lemma {:induction false} DespaceJoinEach(groups: seq<seq<Text>>)
    ensures Despace(Flatten(JoinEach([SPACE], groups))) == Despace(Flatten(Flatten(groups)))
  {
    if groups != [] {
      var head, tail := Join([SPACE], groups[0]), JoinEach([SPACE], groups[1..]);
      DespaceJoinEach(groups[1..]);
      DespaceJoin(groups[0]);
      FlattenCons(head, tail);
      DespaceAppend(head, Flatten(tail));
      FlattenAppend(groups[0], Flatten(groups[1..]));
      DespaceAppend(Flatten(groups[0]), Flatten(Flatten(groups[1..])));
    }
  }

  // ----- split_text ---------------------------------------------------------------------------

  datatype Broken = Broken(chunks: seq<Text>, last: Text)

  /** The character loop over a word that alone exceeds the limit, from the piece built so far. */
  function Break(piece: Text, word: Text, limit: int): Broken
    decreases |word|
  {
    if word == [] then Broken([], piece)
    else if Fits(piece + [word[0]], limit) then Break(piece + [word[0]], word[1..], limit)
    else
      var b := Break([word[0]], word[1..], limit);
      Broken(Flush(piece) + b.chunks, b.last)
  }

  function Flush(cur: Text): seq<Text> {
    if cur == [] then [] else [cur]
  }

  /** One round of the word loop: the chunks it emits and the line it leaves. */
  function Place(cur: Text, word: Text, limit: int): Broken {
    var candidate := if cur == [] then word else cur + [SPACE] + word;
    if Fits(candidate, limit) then Broken([], candidate)
    else if Fits(word, limit) then Broken(Flush(cur), word)
    else Broken(Flush(cur) + Break([], word, limit).chunks, Break([], word, limit).last)
  }

  /** The word loop, from the line built so far. */
  function Wrap(cur: Text, words: seq<Text>, limit: int): seq<Text>
    decreases |words|
  {
    if words == [] then Flush(cur)
    else
      var p := Place(cur, words[0], limit);
      p.chunks + Wrap(p.last, words[1..], limit)
  }

  function Split(text: Text, limit: int): seq<Text> {
    if Fits(text, limit) then [text] else Wrap([], Words(text), limit)
  }

  /** `split_text`. */
  method SplitText(text: Text, limit: int) returns (chunks: seq<Text>)
    ensures ByteLen(text) <= limit ==> chunks == [text]
    ensures chunks == Split(text, limit)
  {
    if ByteLen(text) <= limit {
      return [text];
    }
    chunks := [];
    var cur: Text := [];
    var pieces := SplitSpaces(text);
    for i := 0 to |pieces|
      invariant chunks + Wrap(cur, DropEmpty(pieces[i..]), limit) == Wrap([], Words(text), limit)
    {
      var word := pieces[i];
      DropEmptyStep(pieces, i);
      if word == [] {
        continue;
      }
      var emitted, last := PlaceWord(cur, word, limit);
      Reassociate(chunks, emitted, Wrap(last, DropEmpty(pieces[i + 1..]), limit));
      chunks, cur := chunks + emitted, last;
    }
    assert pieces[|pieces|..] == [];
    if cur != [] {
      chunks := chunks + [cur];
    }
  }

  lemma DropEmptyStep(pieces: seq<Text>, i: nat)
    requires i < |pieces|
    ensures var more := DropEmpty(pieces[i + 1..]);
            if pieces[i] == [] then DropEmpty(pieces[i..]) == more
            else && DropEmpty(pieces[i..]) != [] && DropEmpty(pieces[i..])[0] == pieces[i]
                 && DropEmpty(pieces[i..])[1..] == more
  {
    assert pieces[i..][1..] == pieces[i + 1..];
  }

  /** The body of the word loop for a non-empty word. */
  method PlaceWord(cur: Text, word: Text, limit: int) returns (emitted: seq<Text>, last: Text)
    ensures Broken(emitted, last) == Place(cur, word, limit)
  {
    emitted := [];
    var candidate := if cur == [] then word else cur + [SPACE] + word;
    if ByteLen(candidate) <= limit {
      return [], candidate;
    }
    if cur != [] {
      emitted := emitted + [cur];
    }
    if ByteLen(word) <= limit {
      return emitted, word;
    }
    var pieces;
    pieces, last := BreakWord(word, limit);
    emitted := emitted + pieces;
  }

  /** The character loop of `split_text`. */
  method BreakWord(word: Text, limit: int) returns (chunks: seq<Text>, piece: Text)
    ensures Broken(chunks, piece) == Break([], word, limit)
  {
    chunks, piece := [], [];
    ghost var whole := Break([], word, limit);
    for i := 0 to |word|
      invariant whole == Broken(chunks + Break(piece, word[i..], limit).chunks, Break(piece, word[i..], limit).last)
    {
      var ch := word[i];
      assert word[i..][1..] == word[i + 1..];
      if ByteLen(piece + [ch]) > limit {
        Reassociate(chunks, Flush(piece), Break([ch], word[i + 1..], limit).chunks);
        if piece != [] {
          chunks := chunks + [piece];
        } else {
          assert chunks + [] == chunks;
        }
        piece := [ch];
      } else {
        piece := piece + [ch];
      }
    }
    assert word[|word|..] == [];
    assert chunks + [] == chunks;
  }

  // ----- Bounded, lossless, and cut between words only ------------------------------------------

  /** A word as it appears in the output: whole when it fits, cut into maximal pieces when it does not. */
  function Fragments(word: Text, limit: int): seq<Text> {
    if Fits(word, limit) then [word] else Break([], word, limit).chunks + Flush(Break([], word, limit).last)
  }

  function FragmentsOf(words: seq<Text>, limit: int): seq<Text> {
    if words == [] then [] else Fragments(words[0], limit) + FragmentsOf(words[1..], limit)
  }

  predicate NoneEmpty<T(==)>(parts: seq<seq<T>>) {
    forall i :: 0 <= i < |parts| ==> parts[i] != []
  }

  predicate AllFit(parts: seq<Text>, limit: int) {
    forall i :: 0 <= i < |parts| ==> Fits(parts[i], limit)
  }

  /** Breaking a word loses nothing and makes no empty piece. */
  lemma {:induction false} BreakLossless(piece: Text, word: Text, limit: int)
    ensures var b := Break(piece, word, limit);
            && Flatten(b.chunks) + b.last == piece + word
            && NoneEmpty(b.chunks) && (piece != [] || word != [] ==> b.last != [])
    decreases |word|
  {
    if word == [] {
      assert piece + [] == piece && [] + piece == piece;
    } else if Fits(piece + [word[0]], limit) {
      BreakLossless(piece + [word[0]], word[1..], limit);
      assert piece + [word[0]] + word[1..] == piece + word;
    } else {
      BreakLossless([word[0]], word[1..], limit);
      var b := Break([word[0]], word[1..], limit);
      assert word == [word[0]] + word[1..];
      FlattenFlush(piece, b.chunks);
      Reassociate(piece, Flatten(b.chunks), b.last);
    }
  }

  lemma FlattenFlush(piece: Text, chunks: seq<Text>)
    ensures Flatten(Flush(piece) + chunks) == piece + Flatten(chunks)
  {
    if piece == [] {
      assert [] + chunks == chunks && [] + Flatten(chunks) == Flatten(chunks);
    } else {
      FlattenCons(piece, chunks);
    }
  }

  /** Each part is as long as it can be: the next part's first code point would not have fitted. */
  predicate Maximal(parts: seq<Text>, limit: int) {
    |parts| >= 2 ==> parts[1] != [] && !Fits(parts[0] + [parts[1][0]], limit) && Maximal(parts[1..], limit)
  }

  function Pieces(b: Broken): seq<Text> {
    b.chunks + [b.last]
  }

  lemma {:induction false} BreakMaximal(piece: Text, word: Text, limit: int)
    requires piece != [] || word != []
    ensures Maximal(Pieces(Break(piece, word, limit)), limit)
    ensures Pieces(Break(piece, word, limit))[0] != []
    ensures Pieces(Break(piece, word, limit))[0][0] == (piece + word)[0]
    decreases |word|
  {
    if word != [] {
      if Fits(piece + [word[0]], limit) {
        BreakMaximal(piece + [word[0]], word[1..], limit);
      } else {
        BreakMaximal([word[0]], word[1..], limit);
        var rest := Pieces(Break([word[0]], word[1..], limit));
        Reassociate(Flush(piece), Break([word[0]], word[1..], limit).chunks, [Break([word[0]], word[1..], limit).last]);
        if piece == [] {
          PrependNothing(rest);
        } else {
          assert ([piece] + rest)[1..] == rest;
        }
      }
    }
  }

  /** Pieces of a word stay within the limit when its code points do. */
  lemma {:induction false} BreakBounded(piece: Text, word: Text, limit: int)
    requires RunesFit(word, limit) && (piece == [] || Fits(piece, limit))
    ensures AllFit(Break(piece, word, limit).chunks, limit)
    ensures piece != [] || word != [] ==> Fits(Break(piece, word, limit).last, limit)
    decreases |word|
  {
    if word != [] {
      assert ByteLen([word[0]]) == Weight(word[0]) by { assert [word[0]][..0] == []; }
      if Fits(piece + [word[0]], limit) {
        BreakBounded(piece + [word[0]], word[1..], limit);
      } else {
        BreakBounded([word[0]], word[1..], limit);
      }
    }
  }

  function Close(open: seq<Text>): seq<seq<Text>> {
    if open == [] then [] else [open]
  }

  function Singles(parts: seq<Text>): (r: seq<seq<Text>>)
    ensures |r| == |parts|
  {
    if parts == [] then [] else [[parts[0]]] + Singles(parts[1..])
  }

  /** How the words' fragments are grouped into chunks; `open` is the group of the current line. */
  function Groups(open: seq<Text>, words: seq<Text>, limit: int): seq<seq<Text>>
    decreases |words|
  {
    if words == [] then Close(open)
    else
      var word := words[0];
      if Fits(Join([SPACE], open + [word]), limit) then Groups(open + [word], words[1..], limit)
      else if Fits(word, limit) then Close(open) + Groups([word], words[1..], limit)
      else
        var b := Break([], word, limit);
        Close(open) + Singles(b.chunks) + Groups(Flush(b.last), words[1..], limit)
  }

  lemma {:induction false} SinglesFlat(parts: seq<Text>)
    ensures Flatten(Singles(parts)) == parts
    ensures JoinEach([SPACE], Singles(parts)) == parts
  {
    if parts != [] {
      SinglesFlat(parts[1..]);
      FlattenCons([parts[0]], Singles(parts[1..]));
      assert Singles(parts)[1..] == Singles(parts[1..]);
    }
  }

  lemma {:induction false} JoinEachAppend(sep: Text, a: seq<seq<Text>>, b: seq<seq<Text>>)
    ensures JoinEach(sep, a + b) == JoinEach(sep, a) + JoinEach(sep, b)
  {
    if a == [] {
      assert a + b == b;
    } else {
      JoinEachAppend(sep, a[1..], b);
      assert (a + b)[1..] == a[1..] + b;
      Reassociate([Join(sep, a[0])], JoinEach(sep, a[1..]), JoinEach(sep, b));
    }
  }

  lemma CloseIs(sep: Text, open: seq<Text>)
    requires NoneEmpty(open)
    ensures JoinEach(sep, Close(open)) == Flush(Join(sep, open))
    ensures Flatten(Close(open)) == open
  {
    JoinNonEmpty(sep, open);
    if open != [] {
      FlattenOne(open);
      assert [open][1..] == [];
    }
  }

  lemma JoinNonEmpty(sep: Text, items: seq<Text>)
    requires NoneEmpty(items)
    ensures Join(sep, items) == [] <==> items == []
  {}

  lemma CandidateHoldsWord(cur: Text, sep: Text, word: Text, limit: int)
    requires Fits(cur + sep + word, limit)
    ensures Fits(word, limit)
  {
    ByteLenAppend(cur + sep, word);
  }

  /**
   The shape of the output: every chunk is a group of consecutive fragments joined by single spaces,
   and the groups, in order, hold every fragment of every word once.
   */
  lemma {:induction false} WrapIsGrouping(open: seq<Text>, words: seq<Text>, limit: int)
    requires NoneEmpty(open) && NoneEmpty(words)
    ensures JoinEach([SPACE], Groups(open, words, limit)) == Wrap(Join([SPACE], open), words, limit)
    ensures Flatten(Groups(open, words, limit)) == open + FragmentsOf(words, limit)
    decreases |words|
  {
    var cur := Join([SPACE], open);
    CloseIs([SPACE], open);
    if words == [] {
      assert open + [] == open;
    } else {
      var word, rest := words[0], words[1..];
      JoinPush([SPACE], open, word);
      JoinNonEmpty([SPACE], open);
      if Fits(Join([SPACE], open + [word]), limit) {
        if open != [] { CandidateHoldsWord(cur, [SPACE], word, limit); }
        WrapIsGrouping(open + [word], rest, limit);
        Reassociate(open, [word], FragmentsOf(rest, limit));
        PrependNothing(Wrap(Join([SPACE], open + [word]), rest, limit));
      } else if Fits(word, limit) {
        WrapIsGrouping([word], rest, limit);
        JoinEachAppend([SPACE], Close(open), Groups([word], rest, limit));
        FlattenAppend(Close(open), Groups([word], rest, limit));
      } else {
        BreakLossless([], word, limit);
        var b := Break([], word, limit);
        SinglesFlat(b.chunks);
        WrapIsGrouping(Flush(b.last), rest, limit);
        assert Join([SPACE], Flush(b.last)) == b.last;
        GroupsOfBroken(open, Singles(b.chunks), Groups(Flush(b.last), rest, limit));
        Reassociate(b.chunks, Flush(b.last), FragmentsOf(rest, limit));
        Reassociate(open, b.chunks, Flush(b.last) + FragmentsOf(rest, limit));
      }
    }
  }

  lemma GroupsOfBroken(open: seq<Text>, singles: seq<seq<Text>>, more: seq<seq<Text>>)
    ensures JoinEach([SPACE], Close(open) + singles + more)
            == JoinEach([SPACE], Close(open)) + JoinEach([SPACE], singles) + JoinEach([SPACE], more)
    ensures Flatten(Close(open) + singles + more) == Flatten(Close(open)) + Flatten(singles) + Flatten(more)
  {
    JoinEachAppend([SPACE], Close(open) + singles, more);
    JoinEachAppend([SPACE], Close(open), singles);
    FlattenAppend(Close(open) + singles, more);
    FlattenAppend(Close(open), singles);
  }

  lemma {:induction false} FragmentsFlat(words: seq<Text>, limit: int)
    ensures Flatten(FragmentsOf(words, limit)) == Flatten(words)
  {
    if words != [] {
      FragmentsFlat(words[1..], limit);
      FlattenAppend(Fragments(words[0], limit), FragmentsOf(words[1..], limit));
      BreakLossless([], words[0], limit);
      var b := Break([], words[0], limit);
      if Fits(words[0], limit) {
        FlattenOne(words[0]);
      } else {
        FlattenAppend(b.chunks, Flush(b.last));
        FlattenFlush(b.last, []);
        assert Flush(b.last) + [] == Flush(b.last);
        assert b.last + [] == b.last;
        PrependNothing(words[0]);
      }
    }
  }

  /** Lossless and in order: without spaces, the chunks spell the text. */
  lemma SplitLossless(text: Text, limit: int)
    ensures Despace(Flatten(Split(text, limit))) == Despace(text)
  {
    if Fits(text, limit) {
      FlattenOne(text);
    } else {
      var words := Words(text);
      WordsNonEmpty(SplitSpaces(text));
      WrapIsGrouping([], words, limit);
      DespaceJoinEach(Groups([], words, limit));
      PrependNothing(FragmentsOf(words, limit));
      FragmentsFlat(words, limit);
      WordsFlat(text);
      DespaceTwice(text);
    }
  }

  lemma {:induction false} DespaceTwice(t: Text)
    ensures Despace(Despace(t)) == Despace(t)
  {
    if t != [] {
      DespaceTwice(t[1..]);
      PrependNothing(Despace(t[1..]));
      assert ([t[0]] + Despace(t[1..]))[1..] == Despace(t[1..]);
    }
  }

  /** No chunk of an over-long text is empty. */
  lemma {:induction false} WrapNoneEmpty(cur: Text, words: seq<Text>, limit: int)
    requires NoneEmpty(words)
    ensures NoneEmpty(Wrap(cur, words, limit))
    decreases |words|
  {
    if words != [] {
      BreakLossless([], words[0], limit);
      WrapNoneEmpty(Place(cur, words[0], limit).last, words[1..], limit);
    }
  }

  lemma {:induction false} WrapBounded(cur: Text, words: seq<Text>, limit: int)
    requires cur == [] || Fits(cur, limit)
    requires forall i :: 0 <= i < |words| ==> words[i] != [] && RunesFit(words[i], limit)
    ensures AllFit(Wrap(cur, words, limit), limit)
    decreases |words|
  {
    if words != [] {
      BreakBounded([], words[0], limit);
      WrapBounded(Place(cur, words[0], limit).last, words[1..], limit);
    }
  }

  /** The code points of a text that are not spaces all fit the limit on their own. */
  predicate NonSpacesFit(text: Text, limit: int) {
    forall i :: 0 <= i < |text| && text[i] != SPACE ==> Weight(text[i]) <= limit
  }

  lemma {:induction false} DespaceKeeps(t: Text, c: Rune)
    ensures c in Despace(t) <==> c != SPACE && c in t
  {
    if t != [] {
      DespaceKeeps(t[1..], c);
      assert t == [t[0]] + t[1..];
    }
  }

  lemma {:induction false} InFlatten<T>(parts: seq<seq<T>>, x: T)
    ensures x in Flatten(parts) <==> exists i :: 0 <= i < |parts| && x in parts[i]
  {
    if parts != [] {
      InFlatten(parts[1..], x);
      assert parts == [parts[0]] + parts[1..];
    }
  }

  /**
   Exactly when every chunk of an over-long text is within the limit: when each of its non-space code
   points is.  With a limit of four or more that is every text.
   */
  lemma SplitBounded(text: Text, limit: int)
    requires !Fits(text, limit)
    ensures NoneEmpty(Split(text, limit))
    ensures AllFit(Split(text, limit), limit) <==> NonSpacesFit(text, limit)
    ensures limit >= 4 ==> AllFit(Split(text, limit), limit)
  {
    var words := Words(text);
    WordsNonEmpty(SplitSpaces(text));
    WrapNoneEmpty([], words, limit);
    if NonSpacesFit(text, limit) {
      WordsRunesFit(text, limit);
      WrapBounded([], words, limit);
    }
    if AllFit(Split(text, limit), limit) {
      ChunksFitRunesFit(text, Split(text, limit), limit) by { SplitLossless(text, limit); }
    }
  }

  /** At a limit of three bytes a dragon, which takes four, stays over the limit. */
  lemma DragonOverThree()
    ensures var text: Text := [0x1F409]; !Fits(text, 3) && !AllFit(Split(text, 3), 3)
  {
    var text: Text := [0x1F409];
    assert ByteLen(text) == Weight(text[0]) + ByteLen(text[1..]) == 4;
    assert text[0] != SPACE;
    SplitBounded(text, 3);
  }

  lemma WordsRunesFit(text: Text, limit: int)
    requires NonSpacesFit(text, limit)
    ensures forall i :: 0 <= i < |Words(text)| ==> RunesFit(Words(text)[i], limit)
  {
    var words := Words(text);
    WordsFlat(text);
    forall i, j | 0 <= i < |words| && 0 <= j < |words[i]|
      ensures Weight(words[i][j]) <= limit
    {
      InFlatten(words, words[i][j]);
      DespaceKeeps(text, words[i][j]);
    }
  }

  lemma ChunksFitRunesFit(text: Text, chunks: seq<Text>, limit: int)
    requires Despace(Flatten(chunks)) == Despace(text) && AllFit(chunks, limit)
    ensures NonSpacesFit(text, limit)
  {
    forall i | 0 <= i < |text| && text[i] != SPACE
      ensures Weight(text[i]) <= limit
    {
      var c := text[i];
      DespaceKeeps(text, c);
      DespaceKeeps(Flatten(chunks), c);
      InFlatten(chunks, c);
      var k :| 0 <= k < |chunks| && c in chunks[k];
      RunesFitWhole(chunks[k], limit);
    }
  }

  // ----- Greedy packing is optimal ----------------------------------------------------------------

  /** Greedy packing of items into lines, a separator between items of one line. */
  function Pack(sep: Text, cur: Text, items: seq<Text>, limit: int): seq<Text>
    decreases |items|
  {
    if items == [] then Flush(cur)
    else
      var candidate := if cur == [] then items[0] else cur + sep + items[0];
      if Fits(candidate, limit) then Pack(sep, candidate, items[1..], limit)
      else Flush(cur) + Pack(sep, items[0], items[1..], limit)
  }

  /** A shorter current line never needs more lines, and starting afresh costs at most one. */
  lemma {:induction false} ShorterLineNoWorse(sep: Text, a: Text, b: Text, items: seq<Text>, limit: int)
    requires a != [] && b != [] && NoneEmpty(items)
    ensures |Pack(sep, a, items, limit)| <= 1 + |Pack(sep, b, items, limit)|
    ensures ByteLen(a) <= ByteLen(b) ==> |Pack(sep, a, items, limit)| <= |Pack(sep, b, items, limit)|
    decreases |items|
  {
    if items != [] {
      var x, rest := items[0], items[1..];
      CandidateLen(a, sep, x);
      CandidateLen(b, sep, x);
      ShorterLineNoWorse(sep, a + sep + x, b + sep + x, rest, limit);
      ShorterLineNoWorse(sep, a + sep + x, x, rest, limit);
      ShorterLineNoWorse(sep, x, b + sep + x, rest, limit);
    }
  }

  lemma CandidateLen(cur: Text, sep: Text, x: Text)
    ensures ByteLen(cur + sep + x) == ByteLen(cur) + ByteLen(sep) + ByteLen(x)
  {
    ByteLenAppend(cur + sep, x);
    ByteLenAppend(cur, sep);
  }

  lemma FreshLineCostsOne(sep: Text, cur: Text, items: seq<Text>, limit: int)
    requires cur != [] && NoneEmpty(items) && AllFit(items, limit)
    ensures |Pack(sep, cur, items, limit)| <= 1 + |Pack(sep, [], items, limit)|
  {
    if items != [] {
      var x, rest := items[0], items[1..];
      ShorterLineNoWorse(sep, cur + sep + x, x, rest, limit);
    }
  }

  /** Items that fit on one line together are taken onto one line. */
  lemma {:induction false} GreedyTakesGroup(sep: Text, open: seq<Text>, group: seq<Text>, rest: seq<Text>, limit: int)
    requires NoneEmpty(open) && NoneEmpty(group)
    requires Fits(Join(sep, open + group), limit)
    ensures Pack(sep, Join(sep, open), group + rest, limit) == Pack(sep, Join(sep, open + group), rest, limit)
    decreases |group|
  {
    if group == [] {
      assert group + rest == rest && open + group == open;
    } else {
      var x, more := group[0], group[1..];
      assert group == [x] + more;
      Reassociate(open, [x], more);
      assert (group + rest)[1..] == more + rest;
      JoinPush(sep, open, x);
      JoinNonEmpty(sep, open);
      JoinGrows(sep, open + [x], more);
      GreedyTakesGroup(sep, open + [x], more, rest, limit);
    }
  }

  lemma {:induction false} JoinGrows(sep: Text, items: seq<Text>, more: seq<Text>)
    ensures ByteLen(Join(sep, items)) <= ByteLen(Join(sep, items + more))
    decreases |more|
  {
    if more == [] {
      assert items + more == items;
    } else {
      var init, last := more[..|more| - 1], more[|more| - 1];
      JoinGrows(sep, items, init);
      assert items + more == items + init + [last];
      JoinPush(sep, items + init, last);
      if items + init != [] { CandidateLen(Join(sep, items + init), sep, last); }
    }
  }

  /** A way of cutting the items into consecutive groups that each fit on one line. */
  ghost predicate Cutting(sep: Text, groups: seq<seq<Text>>, items: seq<Text>, limit: int) {
    Flatten(groups) == items && NoneEmpty(groups) && AllFit(JoinEach(sep, groups), limit)
  }

  /** There is no cutting at all when an item does not fit on its own. */
  lemma CuttingItemsFit(sep: Text, groups: seq<seq<Text>>, items: seq<Text>, limit: int)
    requires Cutting(sep, groups, items, limit)
    ensures AllFit(items, limit)
  {
    forall i | 0 <= i < |items|
      ensures Fits(items[i], limit)
    {
      InFlatten(groups, items[i]);
      var k :| 0 <= k < |groups| && items[i] in groups[k];
      var j :| 0 <= j < |groups[k]| && groups[k][j] == items[i];
      ItemWithinJoin(sep, groups[k], j);
      JoinEachAt(sep, groups, k);
    }
  }

  lemma ItemWithinJoin(sep: Text, group: seq<Text>, j: nat)
    requires j < |group|
    ensures ByteLen(group[j]) <= ByteLen(Join(sep, group))
  {
    LastWithinJoin(sep, group[..j], group[j]);
    JoinGrows(sep, group[..j] + [group[j]], group[j + 1..]);
    SplitAround(group, j);
  }

  lemma SplitAround<T>(s: seq<T>, j: nat)
    requires j < |s|
    ensures s[..j] + [s[j]] + s[j + 1..] == s
  {}

  lemma LastWithinJoin(sep: Text, before: seq<Text>, x: Text)
    ensures ByteLen(x) <= ByteLen(Join(sep, before + [x]))
  {
    JoinPush(sep, before, x);
    if before != [] { CandidateLen(Join(sep, before), sep, x); }
  }

  lemma {:induction false} JoinEachAt(sep: Text, groups: seq<seq<Text>>, k: nat)
    requires k < |groups|
    ensures JoinEach(sep, groups)[k] == Join(sep, groups[k])
  {
    if k > 0 {
      JoinEachAt(sep, groups[1..], k - 1);
    }
  }

  /** Greedy packing uses the fewest lines of all cuttings. */
  lemma {:induction false} PackOptimal(sep: Text, groups: seq<seq<Text>>, items: seq<Text>, limit: int)
    requires NoneEmpty(items) && Cutting(sep, groups, items, limit)
    ensures |Pack(sep, [], items, limit)| <= |groups|
    decreases |groups|
  {
    CuttingItemsFit(sep, groups, items, limit);
    if groups != [] {
      var g, rest := groups[0], Flatten(groups[1..]);
      assert items == g + rest;
      assert forall i :: 0 <= i < |g| ==> g[i] == items[i];
      assert forall i :: 0 <= i < |rest| ==> rest[i] == items[|g| + i];
      JoinEachTail(sep, groups);
      PackOptimal(sep, groups[1..], rest, limit);
      PrependNothing(g);
      GreedyTakesGroup(sep, [], g, rest, limit);
      JoinNonEmpty(sep, g);
      FreshLineCostsOne(sep, Join(sep, g), rest, limit);
    }
  }

  lemma JoinEachTail(sep: Text, groups: seq<seq<Text>>)
    requires groups != []
    ensures JoinEach(sep, groups)[0] == Join(sep, groups[0])
    ensures JoinEach(sep, groups[1..]) == JoinEach(sep, groups)[1..]
  {}

  /** When every word fits, `split_text` is greedy packing with single spaces. */
  lemma {:induction false} WrapIsPack(cur: Text, words: seq<Text>, limit: int)
    requires AllFit(words, limit)
    ensures Wrap(cur, words, limit) == Pack([SPACE], cur, words, limit)
    decreases |words|
  {
    if words != [] {
      WrapIsPack(Place(cur, words[0], limit).last, words[1..], limit);
      PrependNothing(Wrap(Place(cur, words[0], limit).last, words[1..], limit));
    }
  }

  /** No way of cutting the words into space-joined lines within the limit beats `split_text`. */
  lemma SplitOptimal(text: Text, limit: int, groups: seq<seq<Text>>)
    requires Words(text) != []
    requires Cutting([SPACE], groups, Words(text), limit)
    ensures |Split(text, limit)| <= |groups|
  {
    if Fits(text, limit) {
      assert groups != [];
    } else {
      WordsNonEmpty(SplitSpaces(text));
      CuttingItemsFit([SPACE], groups, Words(text), limit);
      WrapIsPack([], Words(text), limit);
      PackOptimal([SPACE], groups, Words(text), limit);
    }
  }

  // ----- compact ----------------------------------------------------------------------------------

  /** re.sub(r"\s+", " ", line); `within` says that a run of white space is being skipped. */
  function Collapse(line: Text, within: bool): Text {
    if line == [] then []
    else if IsSpace(line[0]) then (if within then [] else [SPACE]) + Collapse(line[1..], true)
    else [line[0]] + Collapse(line[1..], false)
  }

  function StripLeft(t: Text): Text {
    if t != [] && IsSpace(t[0]) then StripLeft(t[1..]) else t
  }

  function StripRight(t: Text): Text {
    if t != [] && IsSpace(t[|t| - 1]) then StripRight(t[..|t| - 1]) else t
  }

  function Clean(line: Text): Text {
    StripRight(StripLeft(Collapse(line, false)))
  }

  /** The characters of a line that are not white space. */
  function Ink(t: Text): Text {
    if t == [] then [] else (if IsSpace(t[0]) then [] else [t[0]]) + Ink(t[1..])
  }

  lemma {:induction false} InkAppend(a: Text, b: Text)
    ensures Ink(a + b) == Ink(a) + Ink(b)
  {
    if a == [] {
      assert a + b == b;
    } else {
      InkAppend(a[1..], b);
      assert (a + b)[1..] == a[1..] + b;
      Reassociate(if IsSpace(a[0]) then [] else [a[0]], Ink(a[1..]), Ink(b));
    }
  }

  /** The only white space is the plain space. */
  predicate Plain(t: Text) {
    forall i :: 0 <= i < |t| && IsSpace(t[i]) ==> t[i] == SPACE
  }

  lemma {:induction false} PlainInk(t: Text)
    requires Plain(t)
    ensures Despace(t) == Ink(t)
  {
    if t != [] {
      PlainInk(t[1..]);
    }
  }

  lemma {:induction false} CollapseInk(line: Text, within: bool)
    ensures Plain(Collapse(line, within)) && Ink(Collapse(line, within)) == Ink(line)
  {
    if line != [] {
      var more := Collapse(line[1..], IsSpace(line[0]));
      CollapseInk(line[1..], IsSpace(line[0]));
      PrependNothing(more);
      PrependNothing(Ink(more));
      assert ([SPACE] + more)[1..] == more && ([line[0]] + more)[1..] == more;
    }
  }

  lemma {:induction false} StripLeftInk(t: Text)
    requires Plain(t)
    ensures Plain(StripLeft(t)) && Ink(StripLeft(t)) == Ink(t)
  {
    if t != [] && IsSpace(t[0]) {
      StripLeftInk(t[1..]);
      PrependNothing(Ink(t[1..]));
    }
  }

  lemma {:induction false} StripRightInk(t: Text)
    requires Plain(t)
    ensures Plain(StripRight(t)) && Ink(StripRight(t)) == Ink(t)
  {
    if t != [] && IsSpace(t[|t| - 1]) {
      var init, last := t[..|t| - 1], t[|t| - 1];
      StripRightInk(init);
      assert t == init + [last];
      InkAppend(init, [last]);
      assert Ink([last]) == [] by { assert [last][1..] == []; }
      assert Ink(init) + [] == Ink(init);
    }
  }

  /** The length of the run at the front that is not white space. */
  function InkLen(t: Text): (n: nat)
    ensures n <= |t|
  {
    if t == [] || IsSpace(t[0]) then 0 else 1 + InkLen(t[1..])
  }

  /** The maximal runs of a line that are not white space. */
  function WhiteWords(t: Text): seq<Text>
    decreases |t|
  {
    if t == [] then []
    else if IsSpace(t[0]) then WhiteWords(t[1..])
    else [t[..InkLen(t)]] + WhiteWords(t[InkLen(t)..])
  }

  lemma {:induction false} InkRun(t: Text)
    ensures InkLen(t) == |t| || IsSpace(t[InkLen(t)])
    ensures forall i :: 0 <= i < InkLen(t) ==> !IsSpace(t[i])
  {
    if t != [] && !IsSpace(t[0]) {
      InkRun(t[1..]);
      assert forall i :: 1 <= i < |t| ==> t[i] == t[1..][i - 1];
    }
  }

  /** The words of a line are its ink, and none of them holds white space. */
  lemma {:induction false} WhiteWordsInk(t: Text)
    ensures Flatten(WhiteWords(t)) == Ink(t)
    ensures forall i, j :: 0 <= i < |WhiteWords(t)| && 0 <= j < |WhiteWords(t)[i]| ==> !IsSpace(WhiteWords(t)[i][j])
    decreases |t|
  {
    if t != [] {
      if IsSpace(t[0]) {
        WhiteWordsInk(t[1..]);
        PrependNothing(Ink(t[1..]));
      } else {
        var n := InkLen(t);
        InkRun(t);
        WhiteWordsInk(t[n..]);
        InkAppend(t[..n], t[n..]);
        assert t == t[..n] + t[n..];
        AllInk(t[..n]);
        FlattenCons(t[..n], WhiteWords(t[n..]));
      }
    }
  }

  lemma {:induction false} AllInk(t: Text)
    requires forall i :: 0 <= i < |t| ==> !IsSpace(t[i])
    ensures Ink(t) == t
  {
    if t != [] {
      AllInk(t[1..]);
      assert t == [t[0]] + t[1..];
    }
  }

  /** Collapsing leaves a single space for each run of white space. */
  lemma {:induction false} CollapseJoins(line: Text)
    ensures var ws := WhiteWords(line);
            && Collapse(line, true) == SpacedAfter(ws, line)
            && Collapse(line, false) == (if line != [] && IsSpace(line[0]) then [SPACE] else []) + SpacedAfter(ws, line)
    decreases |line|
  {
    if line == [] {
      assert Join([SPACE], []) == [];
    } else if IsSpace(line[0]) {
      CollapseJoins(line[1..]);
      EndsOn(line);
      PrependNothing(Collapse(line[1..], true));
    } else {
      var n := InkLen(line);
      InkRun(line);
      CollapseRun(line, n);
      CollapseJoins(line[n..]);
      RunThenRest(line, n);
      PrependNothing(SpacedAfter(WhiteWords(line), line));
    }
  }

  predicate EndsInSpace(t: Text) {
    t != [] && IsSpace(t[|t| - 1])
  }

  /** The words with single spaces, and one more if the line ends in white space behind a word. */
  function SpacedAfter(ws: seq<Text>, line: Text): Text {
    Join([SPACE], ws) + if ws != [] && EndsInSpace(line) then [SPACE] else []
  }

  lemma EndsOn(line: Text)
    requires line != [] && IsSpace(line[0])
    ensures WhiteWords(line) == WhiteWords(line[1..])
    ensures WhiteWords(line) != [] ==> (EndsInSpace(line) <==> EndsInSpace(line[1..]))
  {
    if |line| > 1 {
      assert line[1..][|line| - 2] == line[|line| - 1];
    }
  }

  lemma {:induction false} CollapseRun(line: Text, n: nat)
    requires n <= |line| && forall i :: 0 <= i < n ==> !IsSpace(line[i])
    ensures n > 0 ==> forall within :: Collapse(line, within) == line[..n] + Collapse(line[n..], false)
    ensures Collapse(line, false) == line[..n] + Collapse(line[n..], false)
    decreases n
  {
    if n == 0 {
      assert line[0..] == line;
      PrependNothing(Collapse(line, false));
    } else {
      CollapseRun(line[1..], n - 1);
      assert line[1..][n - 1..] == line[n..] && [line[0]] + line[1..][..n - 1] == line[..n];
      Reassociate([line[0]], line[1..][..n - 1], Collapse(line[n..], false));
    }
  }

  /** A word in front of the rest of the line. */
  lemma RunThenRest(line: Text, n: nat)
    requires 0 < n <= |line| && n == InkLen(line) && !IsSpace(line[0])
    requires n == |line| || IsSpace(line[n])
    requires forall i :: 0 <= i < n ==> !IsSpace(line[i])
    ensures var rest := line[n..];
            line[..n] + ((if rest != [] && IsSpace(rest[0]) then [SPACE] else []) + SpacedAfter(WhiteWords(rest), rest))
            == SpacedAfter(WhiteWords(line), line)
  {
    var rest := line[n..];
    var word, ws := line[..n], WhiteWords(rest);
    if rest != [] {
      assert rest[|rest| - 1] == line[|line| - 1];
      if ws == [] { SpaceOnly(rest); }
    }
    RunCombines(word, ws, rest != [] && IsSpace(rest[0]), EndsInSpace(line));
  }

  lemma RunCombines(word: Text, ws: seq<Text>, ahead: bool, ends: bool)
    requires if ws == [] then ahead == ends else ahead
    ensures word + ((if ahead then [SPACE] else []) + (Join([SPACE], ws) + if ws != [] && ends then [SPACE] else []))
            == Join([SPACE], [word] + ws) + if ends then [SPACE] else []
  {
    if ws == [] {
      LastWord(word);
    } else {
      WordAndSpaces(word, ws, if ends then [SPACE] else []);
    }
  }

  lemma LastWord(word: Text)
    ensures [word] + [] == [word] && Join([SPACE], [word] + []) == word && Join([SPACE], []) == []
    ensures word + ([] + ([] + [])) == word + []
    ensures word + ([SPACE] + ([] + [])) == word + [SPACE]
  {}

  lemma WordAndSpaces(word: Text, ws: seq<Text>, tail: Text)
    requires ws != []
    ensures word + ([SPACE] + (Join([SPACE], ws) + tail)) == Join([SPACE], [word] + ws) + tail
  {
    JoinFront([SPACE], word, ws);
    var joined := Join([SPACE], ws);
    Reassociate(word, [SPACE], joined);
    Reassociate(word + [SPACE], joined, tail);
    Reassociate(word, [SPACE], joined + tail);
  }

  lemma {:induction false} SpaceOnly(t: Text)
    requires WhiteWords(t) == []
    ensures forall i :: 0 <= i < |t| ==> IsSpace(t[i])
    decreases |t|
  {
    if t != [] {
      SpaceOnly(t[1..]);
    }
  }

  /** A cleaned line is its words with single spaces between them. */
  lemma CleanIsWords(line: Text)
    ensures Clean(line) == Join([0x20], WhiteWords(line))
  {
    var ws := WhiteWords(line);
    CollapseJoins(line);
    WhiteWordsInk(line);
    NoEmptyWord(line);
    var joined := Join([SPACE], ws);
    if ws == [] {
      SpaceOnly(line);
      assert joined == [] && SpacedAfter(ws, line) == [];
      assert StripLeft([SPACE][1..]) == [];
    } else {
      JoinEnds(ws);
      StripPadding(if line != [] && IsSpace(line[0]) then [SPACE] else [], joined,
                   if EndsInSpace(line) then [SPACE] else []);
    }
  }

  lemma {:induction false} NoEmptyWord(t: Text)
    ensures NoneEmpty(WhiteWords(t))
    decreases |t|
  {
    if t != [] {
      if IsSpace(t[0]) { NoEmptyWord(t[1..]); } else { NoEmptyWord(t[InkLen(t)..]); }
    }
  }

  lemma JoinEnds(ws: seq<Text>)
    requires ws != [] && NoneEmpty(ws)
    requires forall i, j :: 0 <= i < |ws| && 0 <= j < |ws[i]| ==> !IsSpace(ws[i][j])
    ensures var t := Join([SPACE], ws); t != [] && !IsSpace(t[0]) && !IsSpace(t[|t| - 1])
  {
    var t, last := Join([SPACE], ws), ws[|ws| - 1];
    assert ws[0] != [] && last != [];
    if |ws| > 1 {
      JoinFront([SPACE], ws[0], ws[1..]);
      assert [ws[0]] + ws[1..] == ws;
      assert t[0] == ws[0][0];
      assert t[|t| - 1] == last[|last| - 1];
    }
  }

  lemma StripPadding(left: Text, t: Text, right: Text)
    requires (left == [] || left == [SPACE]) && (right == [] || right == [SPACE])
    requires t != [] && !IsSpace(t[0]) && !IsSpace(t[|t| - 1])
    ensures StripRight(StripLeft(left + (t + right))) == t
  {
    var inner := t + right;
    if left == [] {
      PrependNothing(inner);
    } else {
      assert ([SPACE] + inner)[1..] == inner;
    }
    assert StripLeft(left + inner) == inner;
    if right == [] {
      assert inner == t;
    } else {
      assert inner[..|inner| - 1] == t;
    }
  }

  /** Cleaning a line changes its white space only. */
  lemma CleanInk(line: Text)
    ensures Despace(Clean(line)) == Ink(line)
  {
    CollapseInk(line, false);
    StripLeftInk(Collapse(line, false));
    StripRightInk(StripLeft(Collapse(line, false)));
    PlainInk(Clean(line));
  }

  /** The non-empty cleaned lines. */
  function CleanLines(lines: seq<Text>): seq<Text> {
    if lines == [] then []
    else (if Clean(lines[0]) != [] then [Clean(lines[0])] else []) + CleanLines(lines[1..])
  }

  function Parts(cleaned: seq<Text>, limit: int): seq<Text> {
    if cleaned == [] then [] else Split(cleaned[0], limit) + Parts(cleaned[1..], limit)
  }

  /** The grey bar between two messages on one line: " \x0314|\x0f ". */
  const BAR: Text := [0x20, 0x03, 0x31, 0x34, 0x7C, 0x0F, 0x20]

  function Compacted(lines: seq<Text>, limit: int): seq<Text> {
    Pack(BAR, [], Parts(CleanLines(lines), limit), limit)
  }

  /** `compact`. */
  method Compact(lines: seq<Text>, limit: int) returns (chunks: seq<Text>)
    ensures chunks == Compacted(lines, limit)
  {
    var cleaned: seq<Text> := [];
    for i := 0 to |lines|
      invariant cleaned + CleanLines(lines[i..]) == CleanLines(lines)
    {
      var text := Clean(lines[i]);
      assert lines[i..][1..] == lines[i + 1..];
      Reassociate(cleaned, if text != [] then [text] else [], CleanLines(lines[i + 1..]));
      assert cleaned + [] == cleaned;
      if text != [] {
        cleaned := cleaned + [text];
      }
    }
    assert lines[|lines|..] == [] && cleaned + [] == cleaned;
    chunks := PackLines(cleaned, limit);
  }

  method PackLines(cleaned: seq<Text>, limit: int) returns (chunks: seq<Text>)
    ensures chunks == Pack(BAR, [], Parts(cleaned, limit), limit)
  {
    chunks := [];
    var cur: Text := [];
    for i := 0 to |cleaned|
      invariant chunks + Pack(BAR, cur, Parts(cleaned[i..], limit), limit)
                == Pack(BAR, [], Parts(cleaned, limit), limit)
    {
      assert cleaned[i..][1..] == cleaned[i + 1..];
      var parts := SplitText(cleaned[i], limit);
      chunks, cur := PackParts(chunks, cur, parts, Parts(cleaned[i + 1..], limit), limit);
    }
    assert cleaned[|cleaned|..] == [];
    if cur != [] {
      chunks := chunks + [cur];
    } else {
      assert chunks + [] == chunks;
    }
  }

  /** The inner loop of `compact`, over the parts of one line; `later` are the parts still to come. */
  method PackParts(before: seq<Text>, line: Text, parts: seq<Text>, ghost later: seq<Text>, limit: int)
    returns (chunks: seq<Text>, cur: Text)
    ensures chunks + Pack(BAR, cur, later, limit) == before + Pack(BAR, line, parts + later, limit)
  {
    chunks, cur := before, line;
    assert parts[0..] == parts;
    for k := 0 to |parts|
      invariant chunks + Pack(BAR, cur, parts[k..] + later, limit) == before + Pack(BAR, line, parts + later, limit)
    {
      var part := parts[k];
      assert (parts[k..] + later)[1..] == parts[k + 1..] + later;
      var candidate := if cur == [] then part else cur + BAR + part;
      if ByteLen(candidate) <= limit {
        cur := candidate;
        continue;
      }
      Reassociate(chunks, Flush(cur), Pack(BAR, part, parts[k + 1..] + later, limit));
      if cur != [] {
        chunks := chunks + [cur];
      } else {
        assert chunks + [] == chunks;
      }
      cur := part;
    }
    assert parts[|parts|..] + later == later;
  }

  /** The groups of consecutive items that greedy packing puts on one line each. */
  function PackGroups(sep: Text, open: seq<Text>, items: seq<Text>, limit: int): seq<seq<Text>>
    decreases |items|
  {
    if items == [] then Close(open)
    else if Fits(Join(sep, open + [items[0]]), limit) then PackGroups(sep, open + [items[0]], items[1..], limit)
    else Close(open) + PackGroups(sep, [items[0]], items[1..], limit)
  }

  lemma {:induction false} PackIsGrouping(sep: Text, open: seq<Text>, items: seq<Text>, limit: int)
    requires NoneEmpty(open) && NoneEmpty(items)
    ensures JoinEach(sep, PackGroups(sep, open, items, limit)) == Pack(sep, Join(sep, open), items, limit)
    ensures Flatten(PackGroups(sep, open, items, limit)) == open + items
    ensures NoneEmpty(PackGroups(sep, open, items, limit))
    decreases |items|
  {
    CloseIs(sep, open);
    if items == [] {
      assert open + [] == open;
    } else {
      var x, rest := items[0], items[1..];
      assert items == [x] + rest;
      JoinPush(sep, open, x);
      JoinNonEmpty(sep, open);
      if Fits(Join(sep, open + [x]), limit) {
        PackIsGrouping(sep, open + [x], rest, limit);
        Reassociate(open, [x], rest);
      } else {
        PackIsGrouping(sep, [x], rest, limit);
        JoinEachAppend(sep, Close(open), PackGroups(sep, [x], rest, limit));
        FlattenAppend(Close(open), PackGroups(sep, [x], rest, limit));
      }
    }
  }

  lemma {:induction false} PackBounded(sep: Text, cur: Text, items: seq<Text>, limit: int)
    requires cur == [] || Fits(cur, limit)
    requires NoneEmpty(items) && AllFit(items, limit)
    ensures AllFit(Pack(sep, cur, items, limit), limit) && NoneEmpty(Pack(sep, cur, items, limit))
    decreases |items|
  {
    if items != [] {
      var candidate := if cur == [] then items[0] else cur + sep + items[0];
      PackBounded(sep, if Fits(candidate, limit) then candidate else items[0], items[1..], limit);
    }
  }

  lemma {:induction false} PartsFacts(cleaned: seq<Text>, limit: int)
    requires NoneEmpty(cleaned)
    ensures NoneEmpty(Parts(cleaned, limit))
    ensures limit >= 4 ==> AllFit(Parts(cleaned, limit), limit)
    ensures Despace(Flatten(Parts(cleaned, limit))) == Despace(Flatten(cleaned))
  {
    if cleaned != [] {
      PartsFacts(cleaned[1..], limit);
      if !Fits(cleaned[0], limit) { SplitBounded(cleaned[0], limit); }
      SplitLossless(cleaned[0], limit);
      var here, later := Split(cleaned[0], limit), Parts(cleaned[1..], limit);
      FlattenAppend(here, later);
      DespaceAppend(Flatten(here), Flatten(later));
      DespaceAppend(cleaned[0], Flatten(cleaned[1..]));
    }
  }

  lemma {:induction false} CleanLinesFacts(lines: seq<Text>)
    ensures NoneEmpty(CleanLines(lines))
    ensures Despace(Flatten(CleanLines(lines))) == Ink(Flatten(lines))
  {
    if lines != [] {
      CleanLinesFacts(lines[1..]);
      CleanInk(lines[0]);
      InkAppend(lines[0], Flatten(lines[1..]));
      FlattenFlush(Clean(lines[0]), CleanLines(lines[1..]));
      DespaceAppend(Clean(lines[0]), Flatten(CleanLines(lines[1..])));
    }
  }

  /** Every chunk of `compact` is non-empty and within a limit of four or more. */
  lemma CompactBounded(lines: seq<Text>, limit: int)
    requires limit >= 4
    ensures AllFit(Compacted(lines, limit), limit) && NoneEmpty(Compacted(lines, limit))
  {
    CleanLinesFacts(lines);
    PartsFacts(CleanLines(lines), limit);
    PackBounded(BAR, [], Parts(CleanLines(lines), limit), limit);
  }

  /**
   Nothing visible is lost, reordered or invented: the chunks are consecutive groups of parts joined
   by the bar, and the parts, without spaces, spell the visible characters of the lines.
   */
  lemma CompactLossless(lines: seq<Text>, limit: int) returns (groups: seq<seq<Text>>)
    ensures JoinEach(BAR, groups) == Compacted(lines, limit) && NoneEmpty(groups)
    ensures Flatten(groups) == Parts(CleanLines(lines), limit)
    ensures Despace(Flatten(Flatten(groups))) == Ink(Flatten(lines))
  {
    var parts := Parts(CleanLines(lines), limit);
    CleanLinesFacts(lines);
    PartsFacts(CleanLines(lines), limit);
    PackIsGrouping(BAR, [], parts, limit);
    PrependNothing(parts);
    groups := PackGroups(BAR, [], parts, limit);
  }

  /** A cleaned line that fits is one part. */
  lemma {:induction false} FittingLinesArePartsWhole(cleaned: seq<Text>, limit: int)
    requires AllFit(cleaned, limit)
    ensures Parts(cleaned, limit) == cleaned
  {
    if cleaned != [] {
      assert Fits(cleaned[0], limit);
      FittingLinesArePartsWhole(cleaned[1..], limit);
      assert cleaned == [cleaned[0]] + cleaned[1..];
    }
  }

  /** No other way of grouping the same parts uses fewer messages. */
  lemma CompactOptimal(lines: seq<Text>, limit: int, groups: seq<seq<Text>>)
    requires Cutting(BAR, groups, Parts(CleanLines(lines), limit), limit)
    ensures |Compacted(lines, limit)| <= |groups|
  {
    CleanLinesFacts(lines);
    PartsFacts(CleanLines(lines), limit);
    PackOptimal(BAR, groups, Parts(CleanLines(lines), limit), limit);
  }

  // ----- The hard cap of channel_say ----------------------------------------------------------------

  const MAX_MESSAGE_BYTES := 360
  const ELLIPSIS: Rune := 0x2026

  lemma {:induction false} ByteLenAtMost(t: Text)
    ensures ByteLen(t) <= 4 * |t|
  {
    if t != [] {
      ByteLenAtMost(t[..|t| - 1]);
    }
  }

  lemma {:induction false} StripRightIsPrefix(t: Text)
    ensures StripRight(t) <= t
  {
    if t != [] && IsSpace(t[|t| - 1]) {
      StripRightIsPrefix(t[..|t| - 1]);
    }
  }

  /** What is stripped is white space, and none is left at the end. */
  lemma {:induction false} StripRightIs(t: Text) returns (blanks: Text)
    ensures t == StripRight(t) + blanks && forall i :: 0 <= i < |blanks| ==> IsSpace(blanks[i])
    ensures StripRight(t) != [] ==> !IsSpace(StripRight(t)[|StripRight(t)| - 1])
  {
    blanks := [];
    if t != [] && IsSpace(t[|t| - 1]) {
      blanks := StripRightIs(t[..|t| - 1]);
      Reassociate(StripRight(t), blanks, [t[|t| - 1]]);
      assert t == t[..|t| - 1] + [t[|t| - 1]];
      blanks := blanks + [t[|t| - 1]];
    } else {
      assert t + [] == t;
    }
  }

  /** The text, or a cut of it. */
  ghost predicate IsCut(text: Text, q: Text) {
    q == text || exists k :: 0 <= k < |text| && q == Cut(text, k)
  }

  /** Eight code points fewer, but at least one, no white space at the end, and an ellipsis. */
  function Shorter(q: Text): Text {
    StripRight(q[..if |q| > 9 then |q| - 8 else if |q| > 0 then 1 else 0]) + [0x2026]
  }

  /** A prefix of the text without trailing white space, and an ellipsis. */
  function Cut(text: Text, k: nat): Text
    requires k <= |text|
  {
    StripRight(text[..k]) + [ELLIPSIS]
  }

  /** Cutting what is already a cut of the text gives a shorter cut of the text. */
  lemma CutOfCut(text: Text, k: nat, n: nat)
    requires k <= |text| && n < |Cut(text, k)|
    ensures n <= |text| && Cut(Cut(text, k), n) == Cut(text, n)
  {
    StripRightIsPrefix(text[..k]);
    assert Cut(text, k)[..n] == text[..n];
  }

  /** The loop of `channel_say`: it ends, within the limit, on the text itself or on a cut of it. */
  method CapMessage(text: Text) returns (capped: Text)
    ensures ByteLen(capped) <= 360
    ensures ByteLen(text) <= 360 ==> capped == text
    ensures ByteLen(text) > 360 ==> exists k :: 0 <= k < |text| && capped == Cut(text, k)
    ensures ByteLen(text) > 360 ==>
              exists longer :: IsCut(text, longer) && ByteLen(longer) > 360 && capped == Shorter(longer)
  {
    capped := text;
    ghost var longer := text;
    ghost var last: nat := |text|;
    while ByteLen(capped) > MAX_MESSAGE_BYTES
      invariant |capped| <= |text|
      invariant if last == |text| then capped == text else last < |text| && capped == Cut(text, last)
      invariant Fits(text, MAX_MESSAGE_BYTES) ==> capped == text
      invariant capped != text ==> IsCut(text, longer) && ByteLen(longer) > 360 && capped == Shorter(longer)
      decreases |capped|
    {
      ByteLenAtMost(capped);
      longer := capped;
      var keep := if |capped| - 8 > 1 then |capped| - 8 else 1;
      StripRightIsPrefix(capped[..keep]);
      if last < |text| { CutOfCut(text, last, keep); }
      capped := StripRight(capped[..keep]) + [ELLIPSIS];
      last := keep;
    }
  }
}
