/**
 UTF-8 (section 3 of RFC 3629) as the programs read it: malformed bytes become U+FFFD, one for each
 longest beginning of a character that breaks off, and a decoder may be fed in pieces.
 */
module Utf8 {
  import opened Collections
  import opened Bytes

  const REPLACEMENT: char := 0xFFFD as char
  const BOM: char := 0xFEFF as char

  // ----- Characters -------------------------------------------------------------------------------------

  function EncodeChar(c: char): (r: seq<byte>)
    ensures 1 <= |r| <= 4
  {
    var n := c as int;
    var high := n / 0x40;
    if n < 0x80 then [n]
    else if n < 0x800 then [0xC0 + high, Tail(n)]
    else if n < 0x1_0000 then [0xE0 + high / 0x40, Tail(high), Tail(n)]
    else [0xF0 + high / 0x40 / 0x40, Tail(high / 0x40), Tail(high), Tail(n)]
  }

  /** A continuation byte: the last six bits. */
  function Tail(n: nat): byte {
    0x80 + n % 0x40
  }

  function Encode(t: string): seq<byte> {
    if t == [] then [] else EncodeChar(t[0]) + Encode(t[1..])
  }

  /** How many bytes a first byte announces; zero if no character begins with it. */
  function Announced(first: byte): nat {
    if first < 0x80 then 1
    else if 0xC2 <= first < 0xE0 then 2
    else if 0xE0 <= first < 0xF0 then 3
    else if 0xF0 <= first < 0xF5 then 4
    else 0
  }

  /** The second byte: no overlong form, no surrogate, nothing beyond U+10FFFF. */
  predicate MaySecond(first: byte, second: byte) {
    && (if first == 0xE0 then 0xA0 else if first == 0xF0 then 0x90 else 0x80) <= second
    && second <= (if first == 0xED then 0x9F else if first == 0xF4 then 0x8F else 0xBF)
  }

  /** The beginning of a character, or all of it. */
  predicate Begins(p: seq<byte>) {
    && p != [] && |p| <= Announced(p[0])
    && (|p| >= 2 ==> MaySecond(p[0], p[1]))
    && (|p| >= 3 ==> 0x80 <= p[2] < 0xC0)
    && (|p| >= 4 ==> 0x80 <= p[3] < 0xC0)
  }

  predicate Whole(p: seq<byte>) {
    Begins(p) && |p| == Announced(p[0])
  }

  /** Six more bits. */
  function More(n: nat, b: byte): (m: nat)
    requires 0x80 <= b < 0xC0
  {
    n * 0x40 + (b - 0x80)
  }

  lemma MoreIs(n: nat, b: byte)
    requires 0x80 <= b < 0xC0
    ensures More(n, b) / 0x40 == n && Tail(More(n, b)) == b
  {}

  lemma MoreOf(n: nat)
    ensures More(n / 0x40, Tail(n)) == n
  {}

  /** The number that a whole character stands for. */
  function NumberOf(p: seq<byte>): nat
    requires Whole(p)
  {
    var first: int := p[0];
    if |p| == 1 then first
    else if |p| == 2 then More(first - 0xC0, p[1])
    else if |p| == 3 then More(More(first - 0xE0, p[1]), p[2])
    else More(More(More(first - 0xF0, p[1]), p[2]), p[3])
  }

  lemma NumberIsChar(p: seq<byte>)
    requires Whole(p)
    ensures var n := NumberOf(p);
            && (n < 0xD800 || 0xE000 <= n < 0x11_0000)
            && |p| == if n < 0x80 then 1 else if n < 0x800 then 2 else if n < 0x1_0000 then 3 else 4
  {}

  /** The character that the bytes are. */
  function CharOf(p: seq<byte>): char
    requires Whole(p)
  {
    NumberIsChar(p);
    NumberOf(p) as char
  }

  /** Every character is written as a whole one, and read back. */
  lemma CharWritten(c: char)
    ensures Whole(EncodeChar(c)) && CharOf(EncodeChar(c)) == c
  {
    var n, p := c as int, EncodeChar(c);
    WrittenWhole(c);
    MoreOf(n);
    MoreOf(n / 0x40);
    MoreOf(n / 0x40 / 0x40);
    assert NumberOf(p) == n;
  }

  lemma WrittenWhole(c: char)
    ensures Whole(EncodeChar(c))
  {}

  /** And there is no other way of writing it. */
  lemma CharRead(p: seq<byte>)
    requires Whole(p)
    ensures EncodeChar(CharOf(p)) == p
  {
    NumberIsChar(p);
    if |p| == 2 {
      TwoRead(p);
    } else if |p| == 3 {
      ThreeRead(p);
    } else if |p| == 4 {
      FourRead(p);
    }
  }

  lemma TwoRead(p: seq<byte>)
    requires Whole(p) && |p| == 2
    ensures var n := NumberOf(p); 0xC0 + n / 0x40 == p[0] as int && Tail(n) == p[1]
  {
    var first: int := p[0];
    MoreIs(first - 0xC0, p[1]);
  }

  lemma ThreeRead(p: seq<byte>)
    requires Whole(p) && |p| == 3
    ensures var n := NumberOf(p);
            var high := n / 0x40;
            0xE0 + high / 0x40 == p[0] as int && Tail(high) == p[1] && Tail(n) == p[2]
  {
    var first: int := p[0];
    var high := More(first - 0xE0, p[1]);
    MoreIs(first - 0xE0, p[1]);
    MoreIs(high, p[2]);
  }

  lemma FourRead(p: seq<byte>)
    requires Whole(p) && |p| == 4
    ensures var n := NumberOf(p);
            var high := n / 0x40;
            var top := high / 0x40;
            0xF0 + top / 0x40 == p[0] as int && Tail(top) == p[1] && Tail(high) == p[2] && Tail(n) == p[3]
  {
    var first: int := p[0];
    var top := More(first - 0xF0, p[1]);
    var high := More(top, p[2]);
    MoreIs(first - 0xF0, p[1]);
    MoreIs(top, p[2]);
    MoreIs(high, p[3]);
    assert NumberOf(p) == More(high, p[3]);
  }

  /** The layout of the four forms: bits of the number, six to a byte behind the first. */
  lemma Layout(c: char)
    ensures var n, p := c as int, EncodeChar(c);
            if n < 0x80 then p == [n]
            else if n < 0x800 then
              |p| == 2 && 0xC0 <= p[0] < 0xE0 && n == (p[0] - 0xC0) as int * 64 + (p[1] - 0x80) as int
            else if n < 0x1_0000 then
              |p| == 3 && 0xE0 <= p[0] < 0xF0
              && n == ((p[0] - 0xE0) as int * 64 + (p[1] - 0x80) as int) * 64 + (p[2] - 0x80) as int
            else
              |p| == 4 && 0xF0 <= p[0] < 0xF8
              && n == (((p[0] - 0xF0) as int * 64 + (p[1] - 0x80) as int) * 64 + (p[2] - 0x80) as int) * 64
                      + (p[3] - 0x80) as int
    ensures forall i :: 1 <= i < |EncodeChar(c)| ==> 0x80 <= EncodeChar(c)[i] < 0xC0
  {
    var n := c as int;
    MoreOf(n);
    MoreOf(n / 0x40);
    MoreOf(n / 0x40 / 0x40);
  }

  // ----- Decoding -----------------------------------------------------------------------------------------

  /** The beginning of a character that has not arrived in full. */
  type Held = p: seq<byte> | p == [] || (Begins(p) && |p| < Announced(p[0])) witness []

  datatype Decoded = Decoded(text: string, held: Held)

  /** One byte.  A byte that breaks off what is held is looked at again, as the first one. */
  function Step(held: Held, b: byte): Decoded
    decreases |held|
  {
    if Whole(held + [b]) then Decoded([CharOf(held + [b])], [])
    else if Begins(held + [b]) then Decoded([], held + [b])
    else if held == [] then Decoded([REPLACEMENT], [])
    else
      var again := Step([], b);
      Decoded([REPLACEMENT] + again.text, again.held)
  }

  function DecodeFrom(held: Held, bytes: seq<byte>): Decoded
    decreases |bytes|
  {
    if bytes == [] then Decoded([], held)
    else
      var first := Step(held, bytes[0]);
      var rest := DecodeFrom(first.held, bytes[1..]);
      Decoded(first.text + rest.text, rest.held)
  }

  /** Python's bytes.decode("utf-8", "replace"): what is held at the end has broken off. */
  function Decode(bytes: seq<byte>): string {
    var d := DecodeFrom([], bytes);
    d.text + if d.held == [] then [] else [REPLACEMENT]
  }

  /** Decoding in two pieces is decoding at once, also when a character is cut. */
  lemma {:induction false} DecodeTwice(held: Held, a: seq<byte>, b: seq<byte>)
    ensures var first := DecodeFrom(held, a);
            var rest := DecodeFrom(first.held, b);
            DecodeFrom(held, a + b) == Decoded(first.text + rest.text, rest.held)
    decreases |a|
  {
    if a == [] {
      PrependNothing(b);
      PrependNothing(DecodeFrom(held, b).text);
    } else {
      var one := Step(held, a[0]);
      assert (a + b)[0] == a[0] && (a + b)[1..] == a[1..] + b;
      DecodeTwice(one.held, a[1..], b);
      var more := DecodeFrom(one.held, a[1..]);
      Reassociate(one.text, more.text, DecodeFrom(more.held, b).text);
    }
  }

  /** A byte that begins nothing is one replacement. */
  lemma LoneByte(b: byte)
    requires 0x80 <= b < 0xC2 || b >= 0xF5
    ensures Decode([b]) == [REPLACEMENT]
  {
    assert [] + [b] == [b] && [b][1..] == [] && !Begins([b]);
    assert Step([], b) == Decoded([REPLACEMENT], []);
    assert DecodeFrom([], [b]).text == [REPLACEMENT] + DecodeFrom([], []).text == [REPLACEMENT];
  }

  /** The beginning of a character that breaks off is one replacement, and the byte that broke it off starts anew. */
  lemma BrokenOff(held: Held, b: byte, more: seq<byte>)
    requires held != [] && !Begins(held + [b])
    ensures var rest := DecodeFrom([], [b] + more);
            DecodeFrom(held, [b] + more) == Decoded([REPLACEMENT] + rest.text, rest.held)
  {
    var bytes, again := [b] + more, Step([], b);
    assert bytes[0] == b && bytes[1..] == more;
    Reassociate([REPLACEMENT], again.text, DecodeFrom(again.held, more).text);
  }

  /** And so is one that the end of the text breaks off. */
  lemma BrokenAtEnd(t: string, held: Held)
    requires held != []
    ensures Decode(Encode(t) + held) == t + [REPLACEMENT]
  {
    DecodeEncoded(t);
    DecodeTwice([], Encode(t), held);
    HeldStays(held, |held|);
    assert held[..|held|] == held;
    assert t + [] == t;
  }

  /** The bytes of a beginning are held one after another. */
  lemma {:induction false} HeldStays(held: Held, k: nat)
    requires k <= |held|
    ensures k > 0 ==> Begins(held[..k]) && k < Announced(held[0])
    ensures DecodeFrom([], held[..k]) == Decoded([], held[..k])
  {
    if k == 0 {
      assert held[..0] == [];
    } else {
      HeldStays(held, k - 1);
      assert held[..k] == held[..k - 1] + [held[k - 1]];
      DecodeTwice([], held[..k - 1], [held[k - 1]]);
      assert [held[k - 1]][1..] == [];
      assert Begins(held[..k]) && !Whole(held[..k]);
    }
  }

  /** The bytes of a whole character, from its k-th on, complete the character. */
  lemma {:induction false} WholeDecodes(p: seq<byte>, k: nat)
    requires Whole(p) && k < |p|
    ensures k > 0 ==> Begins(p[..k]) && k < Announced(p[0])
    ensures DecodeFrom(p[..k], p[k..]) == Decoded([CharOf(p)], [])
    decreases |p| - k
  {
    assert p[..k] + [p[k]] == p[..k + 1] && p[k..][1..] == p[k + 1..];
    if k + 1 == |p| {
      assert p[..k + 1] == p && p[k + 1..] == [];
      assert [CharOf(p)] + [] == [CharOf(p)];
    } else {
      WholeDecodes(p, k + 1);
      assert Begins(p[..k + 1]) && !Whole(p[..k + 1]);
      PrependNothing([CharOf(p)]);
    }
  }

  /** Whatever was written is read back. */
  lemma {:induction false} DecodeEncoded(t: string)
    ensures DecodeFrom([], Encode(t)) == Decoded(t, [])
    ensures Decode(Encode(t)) == t
  {
    if t != [] {
      var p := EncodeChar(t[0]);
      CharWritten(t[0]);
      WholeDecodes(p, 0);
      assert p[..0] == [] && p[0..] == p;
      DecodeTwice([], p, Encode(t[1..]));
      DecodeEncoded(t[1..]);
      assert t == [t[0]] + t[1..];
    }
    assert t + [] == t;
  }

  lemma {:induction false} EncodeAppend(a: string, b: string)
    ensures Encode(a + b) == Encode(a) + Encode(b)
  {
    if a == [] {
      PrependNothing(b);
      PrependNothing(Encode(b));
    } else {
      assert (a + b)[0] == a[0] && (a + b)[1..] == a[1..] + b;
      EncodeAppend(a[1..], b);
      Reassociate(EncodeChar(a[0]), Encode(a[1..]), Encode(b));
    }
  }

  // ----- A streaming decoder --------------------------------------------------------------------------------

  /** TextDecoder of the WHATWG Encoding Standard, section 7.2: a byte order mark at the start is dropped. */
  datatype Decoder = Decoder(started: bool, held: Held)

  function WithoutBom(t: string): string {
    if t != [] && t[0] == BOM then t[1..] else t
  }

  /** decode(bytes, { stream: true }). */
  function Stream(d: Decoder, bytes: seq<byte>): (string, Decoder) {
    var r := DecodeFrom(d.held, bytes);
    (if d.started then r.text else WithoutBom(r.text), Decoder(d.started || r.text != [], r.held))
  }

  const NEW: Decoder := Decoder(false, [])

  /** All the text of a stream so far, and the decoder then. */
  function StreamText(bytes: seq<byte>): string {
    Stream(NEW, bytes).0
  }

  /** One more piece adds exactly the text that the whole stream adds. */
  lemma StreamTwice(a: seq<byte>, b: seq<byte>)
    ensures var d := Stream(NEW, a).1;
            && Stream(NEW, a + b).1 == Stream(d, b).1
            && StreamText(a + b) == StreamText(a) + Stream(d, b).0
  {
    DecodeTwice([], a, b);
    var first := DecodeFrom([], a).text;
    if first == [] {
      PrependNothing(DecodeFrom(DecodeFrom([], a).held, b).text);
      PrependNothing(WithoutBom(DecodeFrom(DecodeFrom([], a).held, b).text));
    } else {
      var rest := DecodeFrom(DecodeFrom([], a).held, b).text;
      assert (first + rest)[0] == first[0] && (first + rest)[1..] == first[1..] + rest;
    }
  }

  /** A stream that is the encoding of a text is that text, without a byte order mark in front. */
  lemma StreamEncoded(t: string)
    ensures StreamText(Encode(t)) == WithoutBom(t)
  {
    DecodeEncoded(t);
  }
}
