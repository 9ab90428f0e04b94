/**
 The marker-region rewriter of genroots.sh: an awk program that copies a file line by line and puts
 freshly generated lines after each begin marker in place of what stood there.
 */
module GenRoots {
  import opened Collections

  const MODS_BEGIN := "gen:mods:begin"
  const MODS_END := "gen:mods:end"
  const TESTS_BEGIN := "gen:tests:begin"
  const TESTS_END := "gen:tests:end"

  predicate Mentions(line: string, marker: string) {
    exists i :: 0 <= i <= |line| && marker <= line[i..]
  }

  /** What the awk rules make of a line; the first rule that matches decides. */
  datatype Kind = ModsBegin | ModsEnd | TestsBegin | TestsEnd | Plain

  function KindOf(line: string): Kind {
    if Mentions(line, MODS_BEGIN) then ModsBegin
    else if Mentions(line, MODS_END) then ModsEnd
    else if Mentions(line, TESTS_BEGIN) then TestsBegin
    else if Mentions(line, TESTS_END) then TestsEnd
    else Plain
  }

  predicate IsBegin(line: string) {
    KindOf(line) == ModsBegin || KindOf(line) == TestsBegin
  }

  predicate IsPlain(line: string) {
    KindOf(line) == Plain
  }

  /** The lines to put into the two kinds of region. */
  datatype Generated = Generated(imports: seq<string>, tests: seq<string>)

  predicate AllPlain(lines: seq<string>) {
    forall i :: 0 <= i < |lines| ==> IsPlain(lines[i])
  }

  predicate Markerless(g: Generated) {
    AllPlain(g.imports) && AllPlain(g.tests)
  }

  function BodyFor(g: Generated, line: string): seq<string> {
    if KindOf(line) == ModsBegin then g.imports else g.tests
  }

  /** The awk program from a line on; `skip` is its variable. */
  function Rewrite(g: Generated, skip: bool, lines: seq<string>): seq<string>
    decreases |lines|
  {
    if lines == [] then []
    else if IsBegin(lines[0]) then [lines[0]] + BodyFor(g, lines[0]) + Rewrite(g, true, lines[1..])
    else if !IsPlain(lines[0]) then [lines[0]] + Rewrite(g, false, lines[1..])
    else (if skip then [] else [lines[0]]) + Rewrite(g, skip, lines[1..])
  }

  /** The awk program. */
  method RewriteFile(g: Generated, lines: seq<string>) returns (out: seq<string>)
    ensures out == Rewrite(g, false, lines)
  {
    var skip := false;
    out := [];
    for i := 0 to |lines|
      invariant out + Rewrite(g, skip, lines[i..]) == Rewrite(g, false, lines)
    {
      var line := lines[i];
      RewriteStep(g, skip, lines, i, out);
      if KindOf(line) == ModsBegin {
        out := out + [line] + g.imports;
        skip := true;
      } else if KindOf(line) == ModsEnd {
        skip := false;
        out := out + [line];
      } else if KindOf(line) == TestsBegin {
        out := out + [line] + g.tests;
        skip := true;
      } else if KindOf(line) == TestsEnd {
        skip := false;
        out := out + [line];
      } else if !skip {
        out := out + [line];
      }
    }
    assert lines[|lines|..] == [] && out + [] == out;
  }

  lemma RewriteStep(g: Generated, skip: bool, lines: seq<string>, i: nat, out: seq<string>)
    requires i < |lines|
    ensures var line, more := lines[i], lines[i + 1..];
            out + Rewrite(g, skip, lines[i..])
            == if IsBegin(line) then out + [line] + BodyFor(g, line) + Rewrite(g, true, more)
               else if !IsPlain(line) then out + [line] + Rewrite(g, false, more)
               else if skip then out + Rewrite(g, true, more)
               else out + [line] + Rewrite(g, false, more)
  {
    var line, more := lines[i], lines[i + 1..];
    assert lines[i..][1..] == more;
    if IsBegin(line) {
      assert out + ([line] + BodyFor(g, line) + Rewrite(g, true, more))
          == out + [line] + BodyFor(g, line) + Rewrite(g, true, more);
    } else if skip && IsPlain(line) {
      PrependNothing(Rewrite(g, true, more));
    } else {
      Reassociate(out, [line], Rewrite(g, false, more));
    }
  }

  // ----- Rewriting again -----------------------------------------------------------------------------

  lemma {:induction false} SkipPlain(g: Generated, body: seq<string>, more: seq<string>)
    requires AllPlain(body)
    ensures Rewrite(g, true, body + more) == Rewrite(g, true, more)
  {
    if body == [] {
      PrependNothing(more);
    } else {
      SkipPlain(g, body[1..], more);
      assert (body + more)[1..] == body[1..] + more;
      PrependNothing(Rewrite(g, true, body[1..] + more));
    }
  }

  /**
   The last rewrite wins: rewriting an already rewritten file, whatever was generated for it before,
   is rewriting the original.  Holds for every file, balanced or not.
   */
  lemma {:induction false} LastRewriteWins(earlier: Generated, later: Generated, skip: bool, lines: seq<string>)
    requires Markerless(earlier)
    ensures Rewrite(later, skip, Rewrite(earlier, skip, lines)) == Rewrite(later, skip, lines)
    decreases |lines|
  {
    if lines != [] {
      var line, more := lines[0], lines[1..];
      if IsBegin(line) {
        var body, rest := BodyFor(earlier, line), Rewrite(earlier, true, more);
        LastRewriteWins(earlier, later, true, more);
        Reassociate([line], body, rest);
        assert ([line] + (body + rest))[1..] == body + rest;
        SkipPlain(later, body, rest);
      } else if !IsPlain(line) {
        var rest := Rewrite(earlier, false, more);
        LastRewriteWins(earlier, later, false, more);
        assert ([line] + rest)[1..] == rest;
      } else {
        var rest := Rewrite(earlier, skip, more);
        LastRewriteWins(earlier, later, skip, more);
        PrependNothing(rest);
        PrependNothing(Rewrite(later, skip, more));
        assert ([line] + rest)[1..] == rest;
      }
    }
  }

  /** Regenerating twice changes nothing the second time. */
  lemma Idempotent(g: Generated, lines: seq<string>)
    requires Markerless(g)
    ensures Rewrite(g, false, Rewrite(g, false, lines)) == Rewrite(g, false, lines)
  {
    LastRewriteWins(g, g, false, lines);
  }

  // ----- Markers among the generated lines --------------------------------------------------------------

  function SkipAfter(skip: bool, lines: seq<string>): bool
    decreases |lines|
  {
    if lines == [] then skip
    else SkipAfter(if IsPlain(lines[0]) then skip else IsBegin(lines[0]), lines[1..])
  }

  lemma {:induction false} RewriteAppend(g: Generated, skip: bool, x: seq<string>, y: seq<string>)
    ensures Rewrite(g, skip, x + y) == Rewrite(g, skip, x) + Rewrite(g, SkipAfter(skip, x), y)
    decreases |x|
  {
    if x == [] {
      PrependNothing(y);
      PrependNothing(Rewrite(g, skip, y));
    } else {
      var s := if IsPlain(x[0]) then skip else IsBegin(x[0]);
      assert (x + y)[0] == x[0] && (x + y)[1..] == x[1..] + y;
      RewriteAppend(g, s, x[1..], y);
      Reassociate(FirstRewritten(g, skip, x[0]), Rewrite(g, s, x[1..]), Rewrite(g, SkipAfter(s, x[1..]), y));
      RewriteFirst(g, skip, x[0], x[1..]);
      RewriteFirst(g, skip, x[0], x[1..] + y);
      assert [x[0]] + x[1..] == x && [x[0]] + (x[1..] + y) == x + y;
    }
  }

  /** What one line is replaced by. */
  function FirstRewritten(g: Generated, skip: bool, line: string): seq<string> {
    if IsBegin(line) then [line] + BodyFor(g, line)
    else if IsPlain(line) && skip then []
    else [line]
  }

  lemma RewriteFirst(g: Generated, skip: bool, line: string, more: seq<string>)
    ensures Rewrite(g, skip, [line] + more)
            == FirstRewritten(g, skip, line)
               + Rewrite(g, if IsPlain(line) then skip else IsBegin(line), more)
  {
    assert ([line] + more)[0] == line && ([line] + more)[1..] == more;
  }

  /** The number of marker lines. */
  function Markers(lines: seq<string>): nat {
    if lines == [] then 0 else (if IsPlain(lines[0]) then 0 else 1) + Markers(lines[1..])
  }

  lemma {:induction false} MarkersAppend(a: seq<string>, b: seq<string>)
    ensures Markers(a + b) == Markers(a) + Markers(b)
  {
    if a == [] {
      PrependNothing(b);
    } else {
      assert (a + b)[1..] == a[1..] + b;
      MarkersAppend(a[1..], b);
    }
  }

  lemma {:induction false} SomeMarker(lines: seq<string>)
    ensures Markers(lines) > 0 <==> !AllPlain(lines)
  {
    if lines != [] {
      SomeMarker(lines[1..]);
      assert forall i :: 0 <= i < |lines| - 1 ==> lines[1..][i] == lines[i + 1];
    }
  }

  /** Marker lines are never dropped; each begin marker brings those of its generated lines along. */
  lemma {:induction false} MarkersSurvive(g: Generated, skip: bool, lines: seq<string>, begin: string)
    ensures Markers(Rewrite(g, skip, lines))
            >= Markers(lines) + if begin in lines && IsBegin(begin) then Markers(BodyFor(g, begin)) else 0
    decreases |lines|
  {
    if lines != [] {
      var line, more := lines[0], lines[1..];
      var s := if IsPlain(line) then skip else IsBegin(line);
      MarkersSurvive(g, s, more, begin);
      assert [line] + more == lines;
      RewriteFirst(g, skip, line, more);
      MarkersAppend(FirstRewritten(g, skip, line), Rewrite(g, s, more));
      if IsBegin(line) {
        MarkersAppend([line], BodyFor(g, line));
      }
    }
  }

  /** The file after n runs. */
  function Runs(g: Generated, n: nat, lines: seq<string>): seq<string> {
    if n == 0 then lines else Rewrite(g, false, Runs(g, n - 1, lines))
  }

  lemma {:induction false} BeginStays(g: Generated, skip: bool, lines: seq<string>, begin: string)
    requires begin in lines && IsBegin(begin)
    ensures begin in Rewrite(g, skip, lines)
    decreases |lines|
  {
    var s := if IsPlain(lines[0]) then skip else IsBegin(lines[0]);
    assert [lines[0]] + lines[1..] == lines;
    RewriteFirst(g, skip, lines[0], lines[1..]);
    if lines[0] != begin {
      BeginStays(g, s, lines[1..], begin);
    }
  }

  /** In any file with such a region, every run adds a marker line: after n runs there are n more. */
  lemma {:induction false} MarkersPileUp(g: Generated, lines: seq<string>, begin: string, n: nat)
    requires begin in lines && IsBegin(begin) && !AllPlain(BodyFor(g, begin))
    ensures begin in Runs(g, n, lines) && Markers(Runs(g, n, lines)) >= Markers(lines) + n
  {
    if n > 0 {
      MarkersPileUp(g, lines, begin, n - 1);
      BeginStays(g, false, Runs(g, n - 1, lines), begin);
      MarkersSurvive(g, false, Runs(g, n - 1, lines), begin);
      SomeMarker(BodyFor(g, begin));
    }
  }

  /** What the next run puts behind a file that consists of such a region. */
  function Growth(g: Generated, begin: string, n: nat): seq<string> {
    if n == 0 then BodyFor(g, begin)
    else Rewrite(g, SkipAfter(false, Runs(g, n - 1, [begin])), Growth(g, begin, n - 1))
  }

  lemma {:induction false} RunsAppend(g: Generated, begin: string, n: nat)
    requires IsBegin(begin)
    ensures Runs(g, n + 1, [begin]) == Runs(g, n, [begin]) + Growth(g, begin, n)
    ensures Markers(Growth(g, begin, n)) >= Markers(BodyFor(g, begin))
  {
    if n == 0 {
      assert [begin] + [] == [begin];
      RewriteFirst(g, false, begin, []);
      var body := BodyFor(g, begin);
      assert [begin] + body + [] == [begin] + body;
      assert Runs(g, 1, [begin]) == Rewrite(g, false, Runs(g, 0, [begin]));
    } else {
      RunsAppend(g, begin, n - 1);
      var file, more := Runs(g, n - 1, [begin]), Growth(g, begin, n - 1);
      RewriteAppend(g, false, file, more);
      MarkersSurvive(g, SkipAfter(false, file), more, "");
    }
  }

  /** A marker among the generated lines: the file grows on every run. */
  lemma GeneratedMarkerGrows(g: Generated, begin: string, n: nat)
    requires IsBegin(begin) && !AllPlain(BodyFor(g, begin))
    ensures |Runs(g, n + 1, [begin])| > |Runs(g, n, [begin])|
  {
    RunsAppend(g, begin, n);
    SomeMarker(BodyFor(g, begin));
  }

  lemma SecondRunChanges(g: Generated, begin: string)
    requires IsBegin(begin) && !AllPlain(BodyFor(g, begin))
    ensures Rewrite(g, false, Rewrite(g, false, [begin])) != Rewrite(g, false, [begin])
  {
    GeneratedMarkerGrows(g, begin, 1);
    assert Runs(g, 1, [begin]) == Rewrite(g, false, Runs(g, 0, [begin]));
    assert Runs(g, 2, [begin]) == Rewrite(g, false, Runs(g, 1, [begin]));
  }

  lemma MarkersAreTheirOwnKind()
    ensures KindOf(MODS_BEGIN) == ModsBegin && KindOf(TESTS_BEGIN) == TestsBegin
  {
    assert MODS_BEGIN <= MODS_BEGIN[0..];
    assert TESTS_BEGIN <= TESTS_BEGIN[0..];
    forall i | 0 <= i <= |TESTS_BEGIN|
      ensures !(MODS_BEGIN <= TESTS_BEGIN[i..]) && !(MODS_END <= TESTS_BEGIN[i..])
    {
      OffsetsDiffer(i);
    }
  }

  /** Neither mods marker begins at any offset of the tests marker. */
  lemma OffsetsDiffer(i: nat)
    requires i <= |TESTS_BEGIN|
    ensures !(MODS_BEGIN <= TESTS_BEGIN[i..]) && !(MODS_END <= TESTS_BEGIN[i..])
  {
    var t := TESTS_BEGIN[i..];
    if i == 0 {
      assert t[4] == 't' && MODS_BEGIN[4] == 'm' && MODS_END[4] == 'm';
    } else if i < |TESTS_BEGIN| {
      assert t[0] == TESTS_BEGIN[i] && MODS_BEGIN[0] == 'g' && MODS_END[0] == 'g';
      if i == 12 { assert |t| == 3; } else { assert TESTS_BEGIN[i] != 'g'; }
    }
  }

  /** Regenerating is idempotent on every file if and only if no generated line mentions a marker. */
  lemma IdempotentIff(g: Generated)
    ensures (forall lines :: Rewrite(g, false, Rewrite(g, false, lines)) == Rewrite(g, false, lines)) <==> Markerless(g)
  {
    MarkersAreTheirOwnKind();
    if Markerless(g) {
      forall lines
        ensures Rewrite(g, false, Rewrite(g, false, lines)) == Rewrite(g, false, lines)
      {
        Idempotent(g, lines);
      }
    } else {
      var begin := if AllPlain(g.imports) then TESTS_BEGIN else MODS_BEGIN;
      SecondRunChanges(g, begin);
    }
  }

  // ----- The lines that gen() generates -----------------------------------------------------------------

  /** A package entry: a sibling file, or a directory with a root.zig of its own. */
  datatype Package = Package(name: string, path: string)

  function ImportLine(p: Package): string {
    "pub const" + " " + (p.name + " " + ("= @import(" + "\"" + (p.path + "\"" + ");")))
  }

  function TestLine(p: Package): string {
    "    _ =" + " " + (p.name + ";" + "")
  }

  function GeneratedFor(ps: seq<Package>): Generated {
    Generated(Map(ImportLine, ps), Map(TestLine, ps))
  }

  lemma MentionsWithin(a: string, s: string, b: string, marker: string)
    requires Mentions(s, marker)
    ensures Mentions(a + s + b, marker)
  {
    var i :| 0 <= i <= |s| && marker <= s[i..];
    assert (a + s + b)[|a| + i..] == s[i..] + b;
  }

  lemma Covered(s: string, marker: string, i: nat, k: nat)
    requires i <= |s| && marker <= s[i..] && k < |marker|
    ensures s[i + k] in marker
  {
    assert marker[k] == s[i..][k];
  }

  /** No occurrence reaches across a character that the marker does not have. */
  lemma MentionsAround(a: string, c: char, b: string, marker: string)
    requires c !in marker && marker != []
    ensures Mentions(a + [c] + b, marker) <==> Mentions(a, marker) || Mentions(b, marker)
  {
    var w := a + [c] + b;
    if Mentions(a, marker) {
      MentionsWithin([], a, [c] + b, marker);
      assert [] + a + ([c] + b) == w;
    }
    if Mentions(b, marker) {
      MentionsWithin(a + [c], b, [], marker);
      assert a + [c] + b + [] == w;
    }
    if Mentions(w, marker) {
      var i :| 0 <= i <= |w| && marker <= w[i..];
      if i > |a| {
        assert w[i..] == b[i - |a| - 1..];
      } else if i + |marker| <= |a| {
        assert w[i..][..|marker|] == a[i..][..|marker|];
      } else {
        Covered(w, marker, i, |a| - i);
      }
    }
  }

  lemma TooShort(s: string, marker: string)
    requires |s| < |marker|
    ensures !Mentions(s, marker)
  {}

  predicate IsMarker(marker: string) {
    marker == MODS_BEGIN || marker == MODS_END || marker == TESTS_BEGIN || marker == TESTS_END
  }

  lemma MarkerChars(marker: string)
    requires IsMarker(marker)
    ensures ' ' !in marker && '"' !in marker && ';' !in marker && |marker| >= 12
  {}

  lemma PlainMeans(line: string)
    ensures IsPlain(line) <==> forall marker :: IsMarker(marker) ==> !Mentions(line, marker)
  {
    assert IsMarker(MODS_BEGIN) && IsMarker(MODS_END) && IsMarker(TESTS_BEGIN) && IsMarker(TESTS_END);
  }

  lemma ImportMentions(p: Package, marker: string)
    requires IsMarker(marker)
    ensures Mentions(ImportLine(p), marker) <==> Mentions(p.name, marker) || Mentions(p.path, marker)
  {
    var end := p.path + "\"" + ");";
    var from := "= @import(" + "\"" + end;
    MarkerChars(marker);
    MentionsAround(p.path, '"', ");", marker);
    MentionsAround("= @import(", '"', end, marker);
    MentionsAround(p.name, ' ', from, marker);
    MentionsAround("pub const", ' ', p.name + " " + from, marker);
    TooShort(");", marker);
    TooShort("= @import(", marker);
    TooShort("pub const", marker);
  }

  lemma TestMentions(p: Package, marker: string)
    requires IsMarker(marker)
    ensures Mentions(TestLine(p), marker) <==> Mentions(p.name, marker)
  {
    MarkerChars(marker);
    MentionsAround(p.name, ';', "", marker);
    MentionsAround("    _ =", ' ', p.name + ";" + "", marker);
    TooShort("", marker);
    TooShort("    _ =", marker);
  }

  /** A generated line mentions a marker exactly when the name or the path in it does. */
  lemma GeneratedLinesPlain(p: Package)
    ensures IsPlain(ImportLine(p)) <==> IsPlain(p.name) && IsPlain(p.path)
    ensures IsPlain(TestLine(p)) <==> IsPlain(p.name)
  {
    PlainMeans(ImportLine(p));
    PlainMeans(TestLine(p));
    PlainMeans(p.name);
    PlainMeans(p.path);
    forall marker | IsMarker(marker)
      ensures Mentions(ImportLine(p), marker) <==> Mentions(p.name, marker) || Mentions(p.path, marker)
      ensures Mentions(TestLine(p), marker) <==> Mentions(p.name, marker)
    {
      ImportMentions(p, marker);
      TestMentions(p, marker);
    }
  }

  lemma GeneratedMarkerless(ps: seq<Package>)
    ensures Markerless(GeneratedFor(ps))
            <==> forall i :: 0 <= i < |ps| ==> IsPlain(ps[i].name) && IsPlain(ps[i].path)
  {
    var g := GeneratedFor(ps);
    forall i | 0 <= i < |ps|
      ensures IsPlain(g.imports[i]) <==> IsPlain(ps[i].name) && IsPlain(ps[i].path)
      ensures IsPlain(g.tests[i]) <==> IsPlain(ps[i].name)
    {
      GeneratedLinesPlain(ps[i]);
    }
    if Markerless(g) {
      forall i | 0 <= i < |ps|
        ensures IsPlain(ps[i].name) && IsPlain(ps[i].path)
      {
        assert IsPlain(g.imports[i]);
      }
    }
  }

  /** The tool is idempotent on every root file if and only if no package is named like a marker. */
  lemma PackagesIdempotentIff(ps: seq<Package>)
    ensures var g := GeneratedFor(ps);
            (forall lines :: Rewrite(g, false, Rewrite(g, false, lines)) == Rewrite(g, false, lines))
            <==> forall i :: 0 <= i < |ps| ==> IsPlain(ps[i].name) && IsPlain(ps[i].path)
  {
    IdempotentIff(GeneratedFor(ps));
    GeneratedMarkerless(ps);
  }

  /** For instance with a file named gen:mods:begin.zig: the root file grows on every run. */
  lemma PackageNamedLikeMarker(n: nat)
    ensures var g := GeneratedFor([Package(MODS_BEGIN, MODS_BEGIN + ".zig")]);
            |Runs(g, n + 1, [MODS_BEGIN])| > |Runs(g, n, [MODS_BEGIN])|
  {
    var p := Package(MODS_BEGIN, MODS_BEGIN + ".zig");
    MarkersAreTheirOwnKind();
    GeneratedLinesPlain(p);
    assert !IsPlain(GeneratedFor([p]).imports[0]);
    GeneratedMarkerGrows(GeneratedFor([p]), MODS_BEGIN, n);
  }

  // ----- What is kept -----------------------------------------------------------------------------------

  /** The lines that are not inside a region: all markers, and the plain lines seen while not skipping. */
  function Outside(skip: bool, lines: seq<string>): seq<string>
    decreases |lines|
  {
    if lines == [] then []
    else if IsPlain(lines[0]) then (if skip then [] else [lines[0]]) + Outside(skip, lines[1..])
    else [lines[0]] + Outside(IsBegin(lines[0]), lines[1..])
  }

  lemma {:induction false} OutsideSkipsPlain(body: seq<string>, more: seq<string>)
    requires AllPlain(body)
    ensures Outside(true, body + more) == Outside(true, more)
  {
    if body == [] {
      PrependNothing(more);
    } else {
      OutsideSkipsPlain(body[1..], more);
      assert (body + more)[1..] == body[1..] + more;
      PrependNothing(Outside(true, body[1..] + more));
    }
  }

  /** Every line outside the regions is kept, unchanged and in order, and none is added. */
  lemma {:induction false} OutsideKept(g: Generated, skip: bool, lines: seq<string>)
    requires Markerless(g)
    ensures Outside(skip, Rewrite(g, skip, lines)) == Outside(skip, lines)
    decreases |lines|
  {
    if lines != [] {
      var line, more := lines[0], lines[1..];
      if IsBegin(line) {
        var body, rest := BodyFor(g, line), Rewrite(g, true, more);
        OutsideKept(g, true, more);
        Reassociate([line], body, rest);
        assert ([line] + (body + rest))[1..] == body + rest;
        OutsideSkipsPlain(body, rest);
      } else {
        var s := if IsPlain(line) then skip else false;
        var rest := Rewrite(g, s, more);
        OutsideKept(g, s, more);
        PrependNothing(rest);
        PrependNothing(Outside(s, more));
        assert ([line] + rest)[1..] == rest;
      }
    }
  }

  /** A well-bracketed file: plain lines, and regions of plain lines between a begin and an end marker. */
  datatype Piece = Text(line: string) | Region(begin: string, body: seq<string>, end: string)

  predicate WellFormed(p: Piece) {
    match p
    case Text(line) => IsPlain(line)
    case Region(begin, body, end) => IsBegin(begin) && AllPlain(body) && !IsPlain(end) && !IsBegin(end)
  }

  function PieceLines(p: Piece): seq<string> {
    if p.Text? then [p.line] else [p.begin] + p.body + [p.end]
  }

  function Lines(ps: seq<Piece>): seq<string> {
    if ps == [] then [] else PieceLines(ps[0]) + Lines(ps[1..])
  }

  /** The same piece with a freshly generated body: imports in a module region, test lines in a test region. */
  function Renewed(g: Generated, p: Piece): Piece {
    if p.Text? then p
    else Region(p.begin, if Mentions(p.begin, "gen:mods:begin") then g.imports else g.tests, p.end)
  }

  function Regenerated(g: Generated, ps: seq<Piece>): seq<Piece> {
    if ps == [] then [] else [Renewed(g, ps[0])] + Regenerated(g, ps[1..])
  }

  /** On well-bracketed files, rewriting replaces the body of every region and nothing else. */
  lemma {:induction false} RewriteReplacesBodies(g: Generated, ps: seq<Piece>)
    requires forall i :: 0 <= i < |ps| ==> WellFormed(ps[i])
    ensures Rewrite(g, false, Lines(ps)) == Lines(Regenerated(g, ps))
  {
    if ps != [] {
      var p, more := ps[0], Lines(ps[1..]);
      RewriteReplacesBodies(g, ps[1..]);
      assert WellFormed(p);
      assert Regenerated(g, ps)[1..] == Regenerated(g, ps[1..]);
      if p.Text? {
        assert ([p.line] + more)[1..] == more;
      } else {
        RegionRewritten(g, p.begin, p.body, p.end, more);
      }
    }
  }

  lemma RegionRewritten(g: Generated, begin: string, body: seq<string>, end: string, more: seq<string>)
    requires WellFormed(Region(begin, body, end))
    ensures Rewrite(g, false, [begin] + body + [end] + more)
            == [begin] + (if Mentions(begin, "gen:mods:begin") then g.imports else g.tests) + [end]
               + Rewrite(g, false, more)
  {
    var inner := body + ([end] + more);
    assert [begin] + body + [end] + more == [begin] + inner;
    assert ([begin] + inner)[1..] == inner;
    SkipPlain(g, body, [end] + more);
    assert ([end] + more)[1..] == more;
    Reassociate([begin] + BodyFor(g, begin), [end], Rewrite(g, false, more));
  }

  /** A line opens a region exactly when it mentions one of the begin markers, and no earlier rule takes it. */
  lemma BeginIs(line: string)
    ensures IsBegin(line)
            <==> Mentions(line, "gen:mods:begin")
                 || (Mentions(line, "gen:tests:begin") && !Mentions(line, "gen:mods:end"))
    ensures IsPlain(line)
            <==> !Mentions(line, "gen:mods:begin") && !Mentions(line, "gen:mods:end")
                 && !Mentions(line, "gen:tests:begin") && !Mentions(line, "gen:tests:end")
  {}

  /** The module region of a file: its body, whatever it was, becomes the imports. */
  lemma ModuleRegion(g: Generated, begin: string, body: seq<string>, end: string, more: seq<string>)
    requires AllPlain(body) && Mentions(begin, "gen:mods:begin")
    requires Mentions(end, "gen:mods:end") && !Mentions(end, "gen:mods:begin")
    ensures Rewrite(g, false, [begin] + body + [end] + more) == [begin] + g.imports + [end] + Rewrite(g, false, more)
  {
    BeginIs(begin);
    BeginIs(end);
    RegionRewritten(g, begin, body, end, more);
  }

  /** The test region: its body becomes the test lines. */
  lemma TestRegion(g: Generated, begin: string, body: seq<string>, end: string, more: seq<string>)
    requires AllPlain(body) && Mentions(begin, "gen:tests:begin")
    requires !Mentions(begin, "gen:mods:begin") && !Mentions(begin, "gen:mods:end")
    requires Mentions(end, "gen:tests:end") && !Mentions(end, "gen:mods:begin") && !Mentions(end, "gen:tests:begin")
    ensures Rewrite(g, false, [begin] + body + [end] + more) == [begin] + g.tests + [end] + Rewrite(g, false, more)
  {
    BeginIs(begin);
    BeginIs(end);
    RegionRewritten(g, begin, body, end, more);
  }

  /** The text of the generated lines. */
  lemma EntryText(p: Package)
    ensures ImportLine(p) == "pub const " + p.name + " = @import(\"" + p.path + "\");"
    ensures TestLine(p) == "    _ = " + p.name + ";"
  {}

  /** The root file of one package a.zig, from empty regions. */
  lemma OnePackage()
    ensures var g := GeneratedFor([Package("a", "a.zig")]);
            && g.imports == ["pub const " + "a" + " = @import(\"" + "a.zig" + "\");"]
            && g.tests == ["    _ = " + "a" + ";"]
  {
    EntryText(Package("a", "a.zig"));
  }
}
