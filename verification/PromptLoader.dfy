/**
 * Prompt composition: whole-line include markers expanded to a bounded depth, and the identity
 * sections cut out of a Markdown document.
 */
module PromptLoader {
  import opened Sequences
  import opened IncludeGraph
  import opened Lines

  const MAX_INCLUDE_DEPTH: nat := 6

  /** The files under `prompts/_includes` and `prompts`, by name, as they are read. */
  datatype Files = Files(includes: map<string, string>, prompts: map<string, string>)

  datatype Error = Missing(name: string) | TooDeep

  datatype Expansion = Done(text: string) | Raises(error: Error)

  datatype Pieces = Pieces(out: seq<string>) | Failed(error: Error)

  predicate NameChar(c: char) {
    ('A' <= c <= 'Z') || ('a' <= c <= 'z') || ('0' <= c <= '9') || c == '_' || c == '/' || c == '-'
  }

  function NameLength(s: string): (n: nat)
    ensures n <= |s| && (n < |s| ==> !NameChar(s[n]))
  {
    if s != "" && NameChar(s[0]) then 1 + NameLength(s[1..]) else 0
  }

  const MARKER_OPEN := "{{include:"

  predicate IsMarker(line: string) {
    && StartsWith(line, MARKER_OPEN)
    && var rest := line[|MARKER_OPEN|..];
       var n := NameLength(rest);
       n > 0 && |rest| >= n + 2 && rest[n] == '}' && rest[n + 1] == '}' && AllWhite(rest[n + 2..])
  }

  /** The name in a marker line. */
  function MarkerName(line: string): string
    requires IsMarker(line)
  {
    line[|MARKER_OPEN|..][..NameLength(line[|MARKER_OPEN|..])]
  }

  predicate Resolves(f: Files, name: string) {
    name in f.includes || name in f.prompts
  }

  /** `_includes` first, then the top directory; the text is stripped on the right. */
  function Body(f: Files, name: string): string
    requires Resolves(f, name)
  {
    RStrip(if name in f.includes then f.includes[name] else f.prompts[name])
  }

  /** `expand_prompt_includes` with `fuel` levels left: the program starts with one more than the depth. */
  function Expand(f: Files, text: string, fuel: nat): Expansion
    decreases fuel, 1, 0
  {
    if fuel == 0 then Raises(TooDeep)
    else
      var p := ExpandLines(f, SplitLines(text), fuel);
      if p.Failed? then Raises(p.error) else Done(RStrip(Join("\n", p.out)))
  }

  /** What one line contributes. */
  function ExpandLine(f: Files, line: string, fuel: nat): Expansion
    requires fuel > 0
    decreases fuel, 0, 0
  {
    if !IsMarker(line) then Done(line)
    else if !Resolves(f, MarkerName(line)) then Raises(Missing(MarkerName(line)))
    else Expand(f, Body(f, MarkerName(line)), fuel - 1)
  }

  function ExpandLines(f: Files, lines: seq<string>, fuel: nat): Pieces
    requires fuel > 0
    decreases fuel, 0, 1 + |lines|
  {
    if lines == [] then Pieces([])
    else
      var first := ExpandLine(f, lines[0], fuel);
      if !first.Done? then Failed(first.error)
      else
        var rest := ExpandLines(f, lines[1..], fuel);
        if rest.Failed? then rest else Pieces([first.text] + rest.out)
  }

  /** The program's recursion and loop, with the depth counted up from zero. */
  method ExpandPromptIncludes(f: Files, text: string, depth: nat) returns (r: Expansion)
    requires depth <= MAX_INCLUDE_DEPTH + 1
    ensures r == Expand(f, text, MAX_INCLUDE_DEPTH + 1 - depth)
    decreases MAX_INCLUDE_DEPTH + 1 - depth
  {
    if depth > MAX_INCLUDE_DEPTH {
      return Raises(TooDeep);
    }
    var lines, out := SplitLines(text), [];
    ghost var fuel: nat := MAX_INCLUDE_DEPTH + 1 - depth;
    ghost var whole := ExpandLines(f, lines, fuel);
    assert lines[0..] == lines;
    for i := 0 to |lines|
      invariant whole == Prepend(out, ExpandLines(f, lines[i..], fuel))
    {
      var line := lines[i];
      assert lines[i..][1..] == lines[i + 1..];
      ghost var rest := ExpandLines(f, lines[i + 1..], fuel);
      if !IsMarker(line) {
        assert ExpandLine(f, line, fuel) == Done(line);
        PrependSnoc(out, line, rest);
        out := out + [line];
      } else {
        var name := MarkerName(line);
        if !Resolves(f, name) {
          return Raises(Missing(name));
        }
        var expanded := ExpandPromptIncludes(f, Body(f, name), depth + 1);
        assert ExpandLine(f, line, fuel) == expanded;
        if !expanded.Done? {
          return expanded;
        }
        PrependSnoc(out, expanded.text, rest);
        out := out + [expanded.text];
      }
    }
    assert lines[|lines|..] == [];
    assert out + [] == out;
    r := Done(RStrip(Join("\n", out)));
  }

  function Prepend(out: seq<string>, p: Pieces): Pieces {
    if p.Failed? then p else Pieces(out + p.out)
  }

  lemma PrependSnoc(out: seq<string>, x: string, rest: Pieces)
    ensures Prepend(out + [x], rest) == Prepend(out, if rest.Failed? then rest else Pieces([x] + rest.out))
  {
    if rest.Pieces? {
      assert (out + [x]) + rest.out == out + ([x] + rest.out);
    }
  }

  // ---- When expansion succeeds ---------------------------------------------------------------

  predicate Includes(text: string, name: string) {
    exists l :: l in SplitLines(text) && Names(l, name)
  }

  /** The line is a marker for `name`. */
  predicate Names(line: string, name: string) {
    IsMarker(line) && MarkerName(line) == name
  }

  /** The include graph of a set of files. */
  function GraphOf(f: Files): Graph {
    Graph((text, name) => Includes(text, name), name => if Resolves(f, name) then Some(Body(f, name)) else None)
  }

  lemma {:induction false} LinesExpand(f: Files, lines: seq<string>, fuel: nat)
    requires fuel > 0
    ensures ExpandLines(f, lines, fuel).Pieces? <==> forall l :: l in lines ==> ExpandLine(f, l, fuel).Done?
  {
    if lines != [] {
      var first, rest := lines[0], lines[1..];
      assert lines == [first] + rest;
      LinesExpand(f, rest, fuel);
      assert first in lines && forall l :: l in rest ==> l in lines;
      if ExpandLine(f, first, fuel).Done? && forall l :: l in rest ==> ExpandLine(f, l, fuel).Done? {
        forall l | l in lines
          ensures ExpandLine(f, l, fuel).Done?
        {
        }
      }
    }
  }

  lemma MarkerLineExpands(f: Files, line: string, name: string, fuel: nat)
    requires fuel > 0 && Names(line, name)
    ensures ExpandLine(f, line, fuel) ==
      if Resolves(f, name) then Expand(f, Body(f, name), fuel - 1) else Raises(Missing(name))
  {
  }

  /** What an expanding text includes is there and expands one level down. */
  lemma IncludedExpands(f: Files, text: string, fuel: nat, name: string)
    requires Expand(f, text, fuel).Done? && Includes(text, name)
    ensures fuel > 0 && Resolves(f, name) && Expand(f, Body(f, name), fuel - 1).Done?
  {
    LinesExpand(f, SplitLines(text), fuel);
    var l :| l in SplitLines(text) && Names(l, name);
    MarkerLineExpands(f, l, name, fuel);
  }

  /** A text expands when everything it includes is there and expands one level down. */
  lemma ExpandsIfIncluded(f: Files, text: string, fuel: nat)
    requires fuel > 0
    requires forall name :: Includes(text, name) ==>
      Resolves(f, name) && Expand(f, Body(f, name), fuel - 1).Done?
    ensures Expand(f, text, fuel).Done?
  {
    LinesExpand(f, SplitLines(text), fuel);
    forall l | l in SplitLines(text)
      ensures ExpandLine(f, l, fuel).Done?
    {
      if IsMarker(l) {
        assert Names(l, MarkerName(l));
        assert Includes(text, MarkerName(l));
        MarkerLineExpands(f, l, MarkerName(l), fuel);
      }
    }
  }

  function DoneWith(f: Files): (string, nat) -> bool {
    (text: string, fuel: nat) => Expand(f, text, fuel).Done?
  }

  /** Expansion is a depth-limited recursion over the include graph. */
  lemma ExpandIsRecursion(f: Files)
    ensures Recursion(GraphOf(f), DoneWith(f))
  {
    forall text, fuel: nat
      ensures DoneWith(f)(text, fuel) <==> LevelDone(GraphOf(f), DoneWith(f), text, fuel)
    {
      if DoneWith(f)(text, fuel) {
        DoneLevel(f, text, fuel);
      } else if LevelDone(GraphOf(f), DoneWith(f), text, fuel) {
        LevelDoneExpands(f, text, fuel);
      }
    }
  }

  /** The graph one level down, in the terms of the files. */
  lemma GraphStep(f: Files, text: string, name: string, fuel: nat)
    requires fuel > 0
    ensures GraphOf(f).includes(text, name) == Includes(text, name)
    ensures GraphOf(f).body(name).Some? == Resolves(f, name)
    ensures Resolves(f, name) ==>
      DoneWith(f)(GraphOf(f).body(name).value, fuel - 1) == Expand(f, Body(f, name), fuel - 1).Done?
  {
  }

  lemma DoneLevel(f: Files, text: string, fuel: nat)
    requires Expand(f, text, fuel).Done?
    ensures LevelDone(GraphOf(f), DoneWith(f), text, fuel)
  {
    var g, done := GraphOf(f), DoneWith(f);
    forall name | g.includes(text, name)
      ensures g.body(name).Some? && done(g.body(name).value, fuel - 1)
    {
      GraphStep(f, text, name, fuel);
      IncludedExpands(f, text, fuel, name);
    }
  }

  lemma LevelDoneExpands(f: Files, text: string, fuel: nat)
    requires LevelDone(GraphOf(f), DoneWith(f), text, fuel)
    ensures Expand(f, text, fuel).Done?
  {
    var g, done := GraphOf(f), DoneWith(f);
    forall name | Includes(text, name)
      ensures Resolves(f, name) && Expand(f, Body(f, name), fuel - 1).Done?
    {
      GraphStep(f, text, name, fuel);
      assert g.includes(text, name);
    }
    ExpandsIfIncluded(f, text, fuel);
  }

  lemma ExpandIffChainsFit(f: Files, text: string, fuel: nat)
    ensures Expand(f, text, fuel).Done? <==> ChainsFit(GraphOf(f), text, fuel)
  {
    ExpandIsRecursion(f);
    DoneIffChainsFit(GraphOf(f), DoneWith(f), text, fuel);
  }

  /**
   * Expansion terminates for every include graph, cyclic ones too, and succeeds exactly when no
   * include chain is longer than six and every file on one is there.
   */
  lemma ExpandSucceedsIff(f: Files, text: string)
    ensures Expand(f, text, MAX_INCLUDE_DEPTH + 1).Done? <==>
      (forall chain :: IsChain(GraphOf(f), text, chain) ==>
         |chain| <= 6 && (chain == [] || Resolves(f, chain[|chain| - 1])))
  {
    var g, limit := GraphOf(f), MAX_INCLUDE_DEPTH + 1;
    ExpandIffChainsFit(f, text, limit);
    forall chain | IsChain(g, text, chain)
      ensures Fits(g, chain, limit) <==>
        |chain| <= MAX_INCLUDE_DEPTH && (chain == [] || Resolves(f, chain[|chain| - 1]))
    {
    }
  }

  /** A cycle that can be reached from the text makes expansion fail, whatever the limit. */
  lemma ReachableCycleFails(f: Files, text: string, way: seq<string>, loop: seq<string>, fuel: nat)
    requires way != []
    ensures IsChain(GraphOf(f), text, way) && IsLoop(GraphOf(f), way[|way| - 1], loop) ==>
      !Expand(f, text, fuel).Done?
  {
    if IsChain(GraphOf(f), text, way) && IsLoop(GraphOf(f), way[|way| - 1], loop) {
      ReachableLoopNeverFits(GraphOf(f), text, way, loop, fuel);
      ExpandIffChainsFit(f, text, fuel);
    }
  }

  /** A successful expansion does not depend on the limit: it is the unbounded expansion. */
  lemma {:induction false} LimitDoesNotMatter(f: Files, text: string, fuel: nat, more: nat)
    requires Expand(f, text, fuel).Done? && fuel <= more
    ensures Expand(f, text, more) == Expand(f, text, fuel)
    decreases fuel, 1, 0
  {
    LinesLimitDoesNotMatter(f, SplitLines(text), fuel, more);
  }

  lemma {:induction false} LinesLimitDoesNotMatter(f: Files, lines: seq<string>, fuel: nat, more: nat)
    requires 0 < fuel <= more && ExpandLines(f, lines, fuel).Pieces?
    ensures ExpandLines(f, lines, more) == ExpandLines(f, lines, fuel)
    decreases fuel, 0, |lines|
  {
    if lines != [] {
      assert ExpandLine(f, lines[0], fuel).Done? && ExpandLines(f, lines[1..], fuel).Pieces?;
      if IsMarker(lines[0]) {
        LimitDoesNotMatter(f, Body(f, MarkerName(lines[0])), fuel - 1, more - 1);
      }
      assert ExpandLine(f, lines[0], more) == ExpandLine(f, lines[0], fuel);
      LinesLimitDoesNotMatter(f, lines[1..], fuel, more);
    }
  }

  // ---- What expansion leaves -----------------------------------------------------------------

  /** A normal text without marker lines. */
  predicate Clean(s: string) {
    Normal(s) && forall l :: l in SplitLines(s) ==> !IsMarker(l)
  }

  lemma {:induction false} NameLengthIgnoresTail(s: string, v: string)
    requires NameLength(s) < |s|
    ensures NameLength(s + v) == NameLength(s)
  {
    assert (s + v)[0] == s[0] && (s + v)[1..] == s[1..] + v;
    if NameChar(s[0]) {
      NameLengthIgnoresTail(s[1..], v);
    }
  }

  /** White space after a marker line leaves it a marker line. */
  lemma MarkerWithSpace(l: string, v: string)
    requires IsMarker(l) && AllWhite(v)
    ensures IsMarker(l + v)
  {
    var rest := l[|MARKER_OPEN|..];
    var longer := (l + v)[|MARKER_OPEN|..];
    var n := NameLength(rest);
    assert longer == rest + v;
    NameLengthIgnoresTail(rest, v);
    assert longer[n + 2..] == rest[n + 2..] + v;
    assert (l + v)[..|MARKER_OPEN|] == l[..|MARKER_OPEN|];
  }

  lemma CleanLine(l: string)
    requires NoBreak(l) && !IsMarker(l)
    ensures Clean(l)
  {
    SplitFirst(l, "");
  }

  lemma CleanJoinTwo(a: string, b: string)
    requires Clean(a) && Clean(b)
    ensures Clean(a + "\n" + b)
  {
    SplitOfConcat(a, b);
    assert !IsMarker("");
    NormalConcat(a, b);
  }

  lemma NormalConcat(a: string, b: string)
    requires Normal(a) && Normal(b)
    ensures Normal(a + "\n" + b)
  {
  }

  lemma {:induction false} CleanJoin(parts: seq<string>)
    requires forall i :: 0 <= i < |parts| ==> Clean(parts[i])
    ensures Clean(Join("\n", parts))
  {
    if |parts| > 1 {
      CleanJoin(parts[1..]);
      CleanJoinTwo(parts[0], Join("\n", parts[1..]));
    } else {
      assert Clean("");
    }
  }

  lemma CleanStrip(s: string)
    requires Clean(s)
    ensures Clean(RStrip(s))
  {
    RStripRest(s);
    var r, w := RStrip(s), s[|RStrip(s)|..];
    assert Normal(r) by {
      assert forall i :: 0 <= i < |r| ==> r[i] == s[i];
    }
    SplitOfPrefix(r, w);
    forall l | l in SplitLines(r)
      ensures !IsMarker(l)
    {
      assert LineGrows(l, s);
      var v :| AllWhite(v) && l + v in SplitLines(s);
      if IsMarker(l) {
        MarkerWithSpace(l, v);
      }
    }
  }

  lemma {:induction false} ExpandedIsClean(f: Files, text: string, fuel: nat)
    requires Expand(f, text, fuel).Done?
    ensures Clean(Expand(f, text, fuel).text)
    decreases fuel, 1, 0
  {
    var p := ExpandLines(f, SplitLines(text), fuel);
    LinesHaveNoBreak(text);
    ExpandedLinesAreClean(f, SplitLines(text), fuel);
    CleanJoin(p.out);
    CleanStrip(Join("\n", p.out));
  }

  lemma {:induction false} ExpandedLinesAreClean(f: Files, lines: seq<string>, fuel: nat)
    requires fuel > 0 && ExpandLines(f, lines, fuel).Pieces? && forall l :: l in lines ==> NoBreak(l)
    ensures forall i :: 0 <= i < |ExpandLines(f, lines, fuel).out| ==> Clean(ExpandLines(f, lines, fuel).out[i])
    decreases fuel, 0, |lines|
  {
    if lines != [] {
      assert lines[0] in lines;
      if IsMarker(lines[0]) {
        ExpandedIsClean(f, Body(f, MarkerName(lines[0])), fuel - 1);
      } else {
        CleanLine(lines[0]);
      }
      ExpandedLinesAreClean(f, lines[1..], fuel);
    }
  }

  lemma {:induction false} NothingToExpand(f: Files, lines: seq<string>, fuel: nat)
    requires fuel > 0 && forall l :: l in lines ==> !IsMarker(l)
    ensures ExpandLines(f, lines, fuel) == Pieces(lines)
  {
    if lines != [] {
      assert lines == [lines[0]] + lines[1..];
      NothingToExpand(f, lines[1..], fuel);
    }
  }

  lemma {:induction false} StripTwice(s: string)
    ensures RStrip(RStrip(s)) == RStrip(s)
  {
    RStripRest(s);
  }

  /**
   * A successful expansion leaves no whole-line marker, and expanding its result again, with
   * whatever files and depth, returns it unchanged.
   */
  lemma ExpandIsIdempotent(f: Files, text: string, fuel: nat, g: Files, fuel': nat)
    requires Expand(f, text, fuel).Done? && fuel' > 0
    ensures var r := Expand(f, text, fuel).text;
            (forall l :: l in SplitLines(r) ==> !IsMarker(l)) && Expand(g, r, fuel') == Done(r)
  {
    var joined := Join("\n", ExpandLines(f, SplitLines(text), fuel).out);
    var r := Expand(f, text, fuel).text;
    ExpandedIsClean(f, text, fuel);
    NothingToExpand(g, SplitLines(r), fuel');
    RStripRest(joined);
    JoinOfSplit(r);
    StripTwice(joined);
  }

  // ---- Identity sections ---------------------------------------------------------------------

  const SECTION_TITLES: seq<string> :=
    ["Identity", "Philosophical Foundation", "Values", "Voice", "Behavioral Boundaries"]

  predicate IsHeading(line: string) {
    StartsWith(line, "## ")
  }

  /** `_soul_section_title_matches` */
  predicate TitleMatches(line: string) {
    IsHeading(line) && exists i :: 0 <= i < |SECTION_TITLES| && Contains(line, SECTION_TITLES[i])
  }

  /** The index of the next heading at or after `i`, or the end. */
  function NextHeading(lines: seq<string>, i: nat): (n: nat)
    requires i <= |lines|
    ensures i <= n <= |lines| && (n < |lines| ==> IsHeading(lines[n]))
    ensures forall j :: i <= j < n ==> !IsHeading(lines[j])
    decreases |lines| - i
  {
    if i == |lines| || IsHeading(lines[i]) then i else NextHeading(lines, i + 1)
  }

  /**
   * The specification: for every matching heading from line `i` on, in order, the lines from it up
   * to the next heading.
   */
  function Sections(lines: seq<string>, i: nat): seq<seq<string>>
    requires i <= |lines|
    decreases |lines| - i
  {
    if i == |lines| then []
    else (if TitleMatches(lines[i]) then [lines[i..NextHeading(lines, i + 1)]] else []) + Sections(lines, i + 1)
  }

  /** Which headings open a section. */
  lemma TitleMatchesIff(line: string)
    ensures TitleMatches(line) <==>
      && StartsWith(line, "## ")
      && (Contains(line, "Identity") || Contains(line, "Philosophical Foundation") || Contains(line, "Values")
          || Contains(line, "Voice") || Contains(line, "Behavioral Boundaries"))
  {
    var t := SECTION_TITLES;
    assert t[0] == "Identity" && t[1] == "Philosophical Foundation" && t[2] == "Values" && t[3] == "Voice"
        && t[4] == "Behavioral Boundaries";
  }

  /** The last heading at or above the line is one that opens a section. */
  ghost predicate Governed(lines: seq<string>, j: nat) {
    exists h :: 0 <= h <= j < |lines| && TitleMatches(lines[h]) && forall k :: h < k <= j ==> !IsHeading(lines[k])
  }

  ghost function Kept(lines: seq<string>, i: nat): seq<string>
    requires i <= |lines|
    decreases |lines| - i
  {
    if i == |lines| then [] else (if Governed(lines, i) then [lines[i]] else []) + Kept(lines, i + 1)
  }

  function Concat(sections: seq<seq<string>>): seq<string> {
    if sections == [] then [] else sections[0] + Concat(sections[1..])
  }

  /** Lines up to the next heading are kept when the heading above them opens a section. */
  lemma {:induction false} KeptTo(lines: seq<string>, h: nat, i: nat)
    requires h < i <= |lines| && IsHeading(lines[h]) && forall k :: h < k < i ==> !IsHeading(lines[k])
    ensures var n := NextHeading(lines, i);
            Kept(lines, i) == (if TitleMatches(lines[h]) then lines[i..n] else []) + Kept(lines, n)
    decreases |lines| - i
  {
    var n := NextHeading(lines, i);
    if i < n {
      KeptTo(lines, h, i + 1);
      GovernedBy(lines, h, i);
      KeptOne(lines, i, n, TitleMatches(lines[h]), Kept(lines, n));
    }
  }

  lemma KeptOne(lines: seq<string>, i: nat, n: nat, keep: bool, rest: seq<string>)
    requires i < n <= |lines|
    ensures (if keep then [lines[i]] else []) + ((if keep then lines[i + 1..n] else []) + rest) ==
      (if keep then lines[i..n] else []) + rest
  {
    if keep {
      assert lines[i..n] == [lines[i]] + lines[i + 1..n];
      Assoc([lines[i]], lines[i + 1..n], rest);
    } else {
      assert [] + rest == rest;
    }
  }

  lemma GovernedBy(lines: seq<string>, h: nat, i: nat)
    requires h <= i < |lines| && IsHeading(lines[h]) && forall k :: h < k <= i ==> !IsHeading(lines[k])
    ensures Governed(lines, i) <==> TitleMatches(lines[h])
  {
    if Governed(lines, i) {
      var g :| 0 <= g <= i && TitleMatches(lines[g]) && forall k :: g < k <= i ==> !IsHeading(lines[k]);
      assert g == h;
    }
  }

  lemma {:induction false} SectionsFrom(lines: seq<string>, i: nat)
    requires i <= |lines|
    ensures Concat(Sections(lines, i)) == Kept(lines, NextHeading(lines, i))
    decreases |lines| - i
  {
    if i < |lines| {
      SectionsFrom(lines, i + 1);
      if IsHeading(lines[i]) {
        SectionFrom(lines, i);
      } else {
        SkipLine(lines, i);
      }
    }
  }

  lemma SectionFrom(lines: seq<string>, i: nat)
    requires i < |lines| && IsHeading(lines[i])
    requires Concat(Sections(lines, i + 1)) == Kept(lines, NextHeading(lines, i + 1))
    ensures Concat(Sections(lines, i)) == Kept(lines, i)
  {
    var n := NextHeading(lines, i + 1);
    GovernedBy(lines, i, i);
    KeptTo(lines, i, i + 1);
    KeptOne(lines, i, n, TitleMatches(lines[i]), Kept(lines, n));
    SectionFirst(lines, i);
  }

  lemma SectionFirst(lines: seq<string>, i: nat)
    requires i < |lines|
    ensures Concat(Sections(lines, i)) ==
      (if TitleMatches(lines[i]) then lines[i..NextHeading(lines, i + 1)] else []) + Concat(Sections(lines, i + 1))
  {
    if TitleMatches(lines[i]) {
      ConcatFirst(lines[i..NextHeading(lines, i + 1)], Sections(lines, i + 1));
    } else {
      SkipLine(lines, i);
      assert [] + Concat(Sections(lines, i + 1)) == Concat(Sections(lines, i + 1));
    }
  }

  lemma ConcatFirst(first: seq<string>, rest: seq<seq<string>>)
    ensures Concat([first] + rest) == first + Concat(rest)
  {
    assert ([first] + rest)[1..] == rest;
  }

  lemma {:induction false} NothingAbove(lines: seq<string>, i: nat)
    requires i <= |lines| && forall k :: 0 <= k < i ==> !IsHeading(lines[k])
    ensures Kept(lines, i) == Kept(lines, NextHeading(lines, i))
    decreases |lines| - i
  {
    if i < |lines| && !IsHeading(lines[i]) {
      NothingAbove(lines, i + 1);
      assert !Governed(lines, i);
    }
  }

  /** The sections hold exactly the lines whose heading opens a section, in order. */
  lemma SectionsAreKept(lines: seq<string>)
    ensures Concat(Sections(lines, 0)) == Kept(lines, 0)
  {
    SectionsFrom(lines, 0);
    NothingAbove(lines, 0);
  }

  predicate OneHeading(section: seq<string>) {
    section != [] && TitleMatches(section[0]) && forall k :: 1 <= k < |section| ==> !IsHeading(section[k])
  }

  lemma SectionAt(lines: seq<string>, i: nat)
    requires i < |lines| && TitleMatches(lines[i])
    ensures OneHeading(lines[i..NextHeading(lines, i + 1)])
  {
    var n := NextHeading(lines, i + 1);
    forall k | 1 <= k < n - i
      ensures !IsHeading(lines[i..n][k])
    {
      assert lines[i..n][k] == lines[i + k];
    }
  }

  /** Each begins with such a heading, and has no other. */
  lemma {:induction false} SectionsBegin(lines: seq<string>, i: nat)
    requires i <= |lines|
    ensures forall j :: 0 <= j < |Sections(lines, i)| ==> OneHeading(Sections(lines, i)[j])
    decreases |lines| - i
  {
    if i < |lines| {
      SectionsBegin(lines, i + 1);
      if TitleMatches(lines[i]) {
        SectionAt(lines, i);
        assert Sections(lines, i) == [lines[i..NextHeading(lines, i + 1)]] + Sections(lines, i + 1);
      } else {
        SkipLine(lines, i);
      }
    }
  }

  function JoinEach(sections: seq<seq<string>>): (r: seq<string>)
    ensures |r| == |sections| && forall i :: 0 <= i < |r| ==> r[i] == Join("\n", sections[i])
  {
    seq(|sections|, i requires 0 <= i < |sections| => Join("\n", sections[i]))
  }

  function Preamble(sections: seq<seq<string>>): string {
    if sections == [] then ""
    else "--- IRA CORE IDENTITY ---\n" + Join("\n\n", JoinEach(sections)) + "\n--- END CORE IDENTITY ---"
  }

  /** Where the loop stands before line `i`: finished sections, and the open one if there is one. */
  ghost predicate Progress(lines: seq<string>, i: nat, sections: seq<seq<string>>,
                           current: seq<string>, capture: bool)
    requires i <= |lines|
  {
    if capture then
      && current != []
      && sections + ([current + lines[i..NextHeading(lines, i)]] + Sections(lines, i)) == Sections(lines, 0)
    else sections + Sections(lines, i) == Sections(lines, 0)
  }

  lemma OpenSection(lines: seq<string>, i: nat, sections: seq<seq<string>>, current: seq<string>, capture: bool)
    requires i < |lines| && Progress(lines, i, sections, current, capture) && TitleMatches(lines[i])
    ensures Progress(lines, i + 1, if capture then sections + [current] else sections, [lines[i]], true)
  {
    var body := lines[i + 1..NextHeading(lines, i + 1)];
    assert lines[i..NextHeading(lines, i + 1)] == [lines[i]] + body;
    var rest := [[lines[i]] + body] + Sections(lines, i + 1);
    assert Sections(lines, i) == rest;
    if capture {
      assert current + lines[i..i] == current;
      assert (sections + [current]) + rest == sections + ([current] + rest);
    }
  }

  lemma CloseSection(lines: seq<string>, i: nat, sections: seq<seq<string>>, current: seq<string>)
    requires i < |lines| && Progress(lines, i, sections, current, true)
    requires IsHeading(lines[i]) && !TitleMatches(lines[i])
    ensures Progress(lines, i + 1, sections + [current], [], false)
  {
    assert current + lines[i..i] == current;
    assert Sections(lines, i) == [] + Sections(lines, i + 1);
    assert (sections + [current]) + Sections(lines, i + 1) == sections + ([current] + Sections(lines, i + 1));
  }

  lemma SkipLine(lines: seq<string>, i: nat)
    requires i < |lines| && !TitleMatches(lines[i])
    ensures Sections(lines, i) == Sections(lines, i + 1)
  {
    assert Sections(lines, i) == [] + Sections(lines, i + 1);
  }

  lemma OrdinaryLine(lines: seq<string>, i: nat, sections: seq<seq<string>>, current: seq<string>)
    requires i < |lines| && Progress(lines, i, sections, current, true)
    requires !IsHeading(lines[i])
    ensures Progress(lines, i + 1, sections, current + [lines[i]], true)
  {
    SkipLine(lines, i);
    var n := NextHeading(lines, i);
    assert lines[i..n] == [lines[i]] + lines[i + 1..n];
    assert current + ([lines[i]] + lines[i + 1..n]) == (current + [lines[i]]) + lines[i + 1..n];
  }

  /** `soul_preamble_from_markdown`: the flag-driven loop finds exactly the specified sections. */
  method SoulPreamble(text: string) returns (r: string)
    ensures var sections := Sections(SplitLines(text), 0);
            r == if sections == [] then ""
                 else "--- IRA CORE IDENTITY ---\n" + Join("\n\n", JoinEach(sections)) + "\n--- END CORE IDENTITY ---"
  {
    var lines := SplitLines(text);
    var sections: seq<seq<string>>, current: seq<string>, capture := [], [], false;
    assert [] + Sections(lines, 0) == Sections(lines, 0);
    for i := 0 to |lines|
      invariant Progress(lines, i, sections, current, capture)
    {
      var line := lines[i];
      if IsHeading(line) && TitleMatches(line) {
        OpenSection(lines, i, sections, current, capture);
        if current != [] && capture {
          sections := sections + [current];
        }
        current, capture := [line], true;
      } else if IsHeading(line) && capture {
        CloseSection(lines, i, sections, current);
        sections := sections + [current];
        current, capture := [], false;
      } else if capture {
        OrdinaryLine(lines, i, sections, current);
        current := current + [line];
      } else {
        SkipLine(lines, i);
      }
    }
    assert Sections(lines, |lines|) == [] && sections + [] == sections;
    if current != [] && capture {
      assert current + lines[|lines|..|lines|] == current;
      assert [current] + [] == [current];
      sections := sections + [current];
    }
    r := Preamble(sections);
  }
}
