/**
 * What an expanded prompt says. The include tree of a text is read off the files and the marker
 * lines; a successful expansion is the lines of that tree, put together from the leaves up.
 */
module Composition {
  import opened Sequences
  import opened Lines
  import opened IncludeGraph
  import opened PromptLoader

  /** The lines of a text, with the tree of the named file in the place of each marker line. */
  datatype Tree = Nil | Leaf(line: string, rest: Tree) | Include(name: string, body: Tree, rest: Tree)

  predicate NameChars(name: string) {
    name != "" && forall i :: 0 <= i < |name| ==> NameChar(name[i])
  }

  /** The pattern of a marker line: the name between its braces, and blanks after them. */
  ghost predicate MarkerFor(line: string, name: string) {
    NameChars(name) && exists blanks :: AllWhite(blanks) && line == "{{include:" + name + "}}" + blanks
  }

  /** A file in `_includes` wins over one in `prompts`. */
  function FileText(f: Files, name: string): Option<string> {
    if name in f.includes then Some(f.includes[name])
    else if name in f.prompts then Some(f.prompts[name])
    else None
  }

  /** `t` is the include tree of these lines. */
  ghost predicate IsTreeOf(f: Files, lines: seq<string>, t: Tree)
    decreases t
  {
    match t
    case Nil => lines == []
    case Leaf(line, rest) =>
      && lines != [] && lines[0] == line && !(exists name :: MarkerFor(line, name))
      && IsTreeOf(f, lines[1..], rest)
    case Include(name, body, rest) =>
      && lines != [] && MarkerFor(lines[0], name) && FileText(f, name).Some?
      && IsTreeOf(f, SplitLines(RStrip(FileText(f, name).value)), body)
      && IsTreeOf(f, lines[1..], rest)
  }

  /** How deep files include files. */
  function Depth(t: Tree): nat {
    match t
    case Nil => 0
    case Leaf(_, rest) => Depth(rest)
    case Include(_, body, rest) => if 1 + Depth(body) > Depth(rest) then 1 + Depth(body) else Depth(rest)
  }

  /** The lines, each file as one text. */
  function Texts(t: Tree): seq<string>
    decreases t, 0
  {
    match t
    case Nil => []
    case Leaf(line, rest) => [line] + Texts(rest)
    case Include(_, body, rest) => [Whole(body)] + Texts(rest)
  }

  function Whole(t: Tree): string
    decreases t, 1
  {
    RStrip(Join("\n", Texts(t)))
  }

  // ---- The marker pattern ----------------------------------------------------------------------

  lemma {:induction false} NameLengthIs(name: string, rest: string)
    requires (forall i :: 0 <= i < |name| ==> NameChar(name[i])) && rest != "" && !NameChar(rest[0])
    ensures NameLength(name + rest) == |name|
  {
    if name == "" {
      assert name + rest == rest;
    } else {
      assert (name + rest)[0] == name[0] && (name + rest)[1..] == name[1..] + rest;
      NameLengthIs(name[1..], rest);
    }
  }

  lemma {:induction false} NameLengthChars(s: string)
    ensures forall i :: 0 <= i < NameLength(s) ==> NameChar(s[i])
  {
    if s != "" && NameChar(s[0]) {
      NameLengthChars(s[1..]);
      assert forall i :: 1 <= i < NameLength(s) ==> s[i] == s[1..][i - 1];
    }
  }

  lemma PatternMatches(line: string, name: string, blanks: string)
    requires NameChars(name) && AllWhite(blanks) && line == "{{include:" + name + "}}" + blanks
    ensures Names(line, name)
  {
    var rest := "}}" + blanks;
    var after := line[|MARKER_OPEN|..];
    assert line[..|MARKER_OPEN|] == MARKER_OPEN;
    assert after == name + rest;
    NameLengthIs(name, rest);
    assert after[|name|] == '}' && after[|name| + 1] == '}' && after[|name| + 2..] == blanks;
    assert after[..|name|] == name;
  }

  lemma MatchedIsPattern(line: string, name: string)
    requires Names(line, name)
    ensures MarkerFor(line, name)
  {
    var after := line[|MARKER_OPEN|..];
    var n := NameLength(after);
    NameLengthChars(after);
    var blanks := after[n + 2..];
    assert after == after[..n] + "}}" + blanks;
    assert line == MARKER_OPEN + after;
    assert line == "{{include:" + name + "}}" + blanks;
  }

  /** The hand-made matcher takes exactly the lines of the pattern, and their names. */
  lemma MarkerIff(line: string, name: string)
    ensures Names(line, name) <==> MarkerFor(line, name)
  {
    if MarkerFor(line, name) {
      var blanks :| AllWhite(blanks) && line == "{{include:" + name + "}}" + blanks;
      PatternMatches(line, name, blanks);
    }
    if Names(line, name) {
      MatchedIsPattern(line, name);
    }
  }

  lemma NotMarkerIff(line: string)
    ensures !IsMarker(line) <==> !(exists name :: MarkerFor(line, name))
  {
    if IsMarker(line) {
      MarkerIff(line, MarkerName(line));
    }
    if name :| MarkerFor(line, name) {
      MarkerIff(line, name);
    }
  }

  // ---- Expansion composes the tree -------------------------------------------------------------

  /** What the lines of a file make of the marker line that names it. */
  lemma FileExpands(f: Files, line: string, name: string, fuel: nat)
    requires fuel > 1 && MarkerFor(line, name) && FileText(f, name).Some?
    ensures var lines := SplitLines(RStrip(FileText(f, name).value));
            ExpandLine(f, line, fuel) == Strip(ExpandLines(f, lines, fuel - 1))
  {
    MarkerIff(line, name);
    MarkerLineExpands(f, line, name, fuel);
  }

  function Strip(p: PromptLoader.Pieces): Expansion {
    if p.Failed? then Raises(p.error) else PromptLoader.Done(RStrip(Join("\n", p.out)))
  }

  lemma FileIsThere(f: Files, line: string, name: string, fuel: nat)
    requires fuel > 0 && Names(line, name) && ExpandLine(f, line, fuel).Done?
    ensures fuel > 1 && MarkerFor(line, name) && FileText(f, name).Some?
  {
    MarkerIff(line, name);
    MarkerLineExpands(f, line, name, fuel);
  }

  lemma PlainLine(f: Files, line: string, fuel: nat)
    requires fuel > 0 && !exists name :: MarkerFor(line, name)
    ensures ExpandLine(f, line, fuel) == PromptLoader.Done(line)
  {
    NotMarkerIff(line);
  }

  lemma FirstLine(f: Files, lines: seq<string>, fuel: nat)
    requires fuel > 0 && lines != []
    ensures var first, rest, all := ExpandLine(f, lines[0], fuel), ExpandLines(f, lines[1..], fuel), ExpandLines(f, lines, fuel);
            && (all.Pieces? <==> first.Done? && rest.Pieces?)
            && (all.Pieces? ==> all.out == [first.text] + rest.out)
  {
  }

  lemma {:induction false} BuildTree(f: Files, lines: seq<string>, fuel: nat) returns (t: Tree)
    requires fuel > 0 && ExpandLines(f, lines, fuel).Pieces?
    ensures IsTreeOf(f, lines, t) && Depth(t) < fuel && Texts(t) == ExpandLines(f, lines, fuel).out
    decreases fuel, |lines|
  {
    if lines == [] {
      t := Nil;
    } else {
      FirstLine(f, lines, fuel);
      var rest := BuildTree(f, lines[1..], fuel);
      if IsMarker(lines[0]) {
        var name := MarkerName(lines[0]);
        FileIsThere(f, lines[0], name, fuel);
        FileExpands(f, lines[0], name, fuel);
        var body := BuildTree(f, SplitLines(RStrip(FileText(f, name).value)), fuel - 1);
        t := Include(name, body, rest);
      } else {
        NotMarkerIff(lines[0]);
        PlainLine(f, lines[0], fuel);
        t := Leaf(lines[0], rest);
      }
    }
  }

  lemma {:induction false} TreeExpands(f: Files, lines: seq<string>, t: Tree, fuel: nat)
    requires IsTreeOf(f, lines, t) && Depth(t) < fuel
    ensures ExpandLines(f, lines, fuel) == PromptLoader.Pieces.Pieces(Texts(t))
    decreases t
  {
    if t.Leaf? {
      FirstLine(f, lines, fuel);
      PlainLine(f, lines[0], fuel);
      TreeExpands(f, lines[1..], t.rest, fuel);
    } else if t.Include? {
      FirstLine(f, lines, fuel);
      FileExpands(f, lines[0], t.name, fuel);
      TreeExpands(f, SplitLines(RStrip(FileText(f, t.name).value)), t.body, fuel - 1);
      TreeExpands(f, lines[1..], t.rest, fuel);
    }
  }

  /**
   * What expansion returns: the text of the include tree, when there is one that is no deeper than
   * the limit allows. The named file stands in the place of its marker line, expanded, and the other
   * lines are as they were.
   */
  lemma ExpandIsTree(f: Files, text: string, fuel: nat, r: string)
    ensures Expand(f, text, fuel) == Done(r) <==>
      exists t :: IsTreeOf(f, SplitLines(text), t) && Depth(t) < fuel && r == Whole(t)
  {
    if Expand(f, text, fuel) == Done(r) {
      var t := BuildTree(f, SplitLines(text), fuel);
      assert r == Whole(t);
    }
    if t :| IsTreeOf(f, SplitLines(text), t) && Depth(t) < fuel && r == Whole(t) {
      TreeExpands(f, SplitLines(text), t, fuel);
    }
  }

  /** A text has one include tree. */
  lemma {:induction false} TreeIsUnique(f: Files, lines: seq<string>, t: Tree, u: Tree)
    requires IsTreeOf(f, lines, t) && IsTreeOf(f, lines, u)
    ensures t == u
    decreases t
  {
    if t.Include? && u.Include? {
      MarkerIff(lines[0], t.name);
      MarkerIff(lines[0], u.name);
      TreeIsUnique(f, SplitLines(RStrip(FileText(f, t.name).value)), t.body, u.body);
    }
    if !t.Nil? {
      TreeIsUnique(f, lines[1..], t.rest, u.rest);
    }
  }

  // ---- What fails ------------------------------------------------------------------------------

  /** The first line that does not expand. */
  lemma {:induction false} FailingLine(f: Files, lines: seq<string>, fuel: nat) returns (i: nat)
    requires fuel > 0 && ExpandLines(f, lines, fuel).Failed?
    ensures i < |lines| && ExpandLine(f, lines[i], fuel) == Raises(ExpandLines(f, lines, fuel).error)
    ensures forall j :: 0 <= j < i ==> ExpandLine(f, lines[j], fuel).Done?
  {
    if ExpandLine(f, lines[0], fuel).Done? {
      var k := FailingLine(f, lines[1..], fuel);
      i := k + 1;
      assert forall j :: 1 <= j < i ==> lines[j] == lines[1..][j - 1];
    } else {
      i := 0;
    }
  }

  /**
   * Each error is real: some chain of includes ends in the missing file, or is longer than the limit
   * allows although each of its files is there.
   */
  lemma {:induction false} ErrorIsReal(f: Files, text: string, fuel: nat) returns (chain: seq<string>)
    requires Expand(f, text, fuel).Raises?
    ensures IsChain(GraphOf(f), text, chain)
    ensures Expand(f, text, fuel).error.Missing? ==>
      0 < |chain| <= fuel && chain[|chain| - 1] == Expand(f, text, fuel).error.name && FileText(f, chain[|chain| - 1]).None?
    ensures Expand(f, text, fuel).error.TooDeep? ==>
      |chain| == fuel && (chain != [] ==> FileText(f, chain[|chain| - 1]).Some?)
    decreases fuel
  {
    chain := [];
    if fuel > 0 {
      var lines := SplitLines(text);
      var i := FailingLine(f, lines, fuel);
      var name := MarkerName(lines[i]);
      MarkerLineExpands(f, lines[i], name, fuel);
      assert lines[i] in lines && Names(lines[i], name);
      chain := [name];
      ChainStep(f, text, name, []);
      if Resolves(f, name) {
        var rest := ErrorIsReal(f, Body(f, name), fuel - 1);
        ChainStep(f, text, name, rest);
        chain := [name] + rest;
      }
    }
  }

  lemma ChainStep(f: Files, text: string, name: string, rest: seq<string>)
    requires Includes(text, name) && (rest != [] ==> Resolves(f, name) && IsChain(GraphOf(f), Body(f, name), rest))
    ensures IsChain(GraphOf(f), text, [name] + rest) && [name] + [] == [name]
    ensures Resolves(f, name) <==> FileText(f, name).Some?
  {
    assert ([name] + rest)[1..] == rest;
  }

  // ---- Nothing is lost -------------------------------------------------------------------------

  /** The lines that are no markers, of all files, in the order of the document. */
  function Leaves(t: Tree): seq<string> {
    match t
    case Nil => []
    case Leaf(line, rest) => [line] + Leaves(rest)
    case Include(_, body, rest) => Leaves(body) + Leaves(rest)
  }

  /** A text without its blanks. */
  function Ink(s: string): string {
    Filter(s, c => !IsWhite(c))
  }

  function InkOf(lines: seq<string>): string {
    if lines == [] then "" else Ink(lines[0]) + InkOf(lines[1..])
  }

  lemma InkAppend(a: string, b: string)
    ensures Ink(a + b) == Ink(a) + Ink(b)
  {
    FilterAppend(a, b, c => !IsWhite(c));
  }

  lemma {:induction false} InkOfBlanks(s: string)
    requires AllWhite(s)
    ensures Ink(s) == ""
  {
    if s != "" {
      InkOfBlanks(s[1..]);
    }
  }

  lemma {:induction false} InkOfAppend(a: seq<string>, b: seq<string>)
    ensures InkOf(a + b) == InkOf(a) + InkOf(b)
  {
    if a == [] {
      assert a + b == b;
    } else {
      assert (a + b)[0] == a[0] && (a + b)[1..] == a[1..] + b;
      InkOfAppend(a[1..], b);
    }
  }

  lemma InkStrip(s: string)
    ensures Ink(RStrip(s)) == Ink(s)
  {
    RStripRest(s);
    var r := RStrip(s);
    InkAppend(r, s[|r|..]);
    InkOfBlanks(s[|r|..]);
  }

  lemma {:induction false} InkJoin(parts: seq<string>)
    ensures Ink(Join("\n", parts)) == InkOf(parts)
  {
    if |parts| == 1 {
      assert InkOf(parts[1..]) == "";
    } else if |parts| > 1 {
      InkJoin(parts[1..]);
      InkOfBlanks("\n");
      InkAppend(parts[0], "\n");
      InkAppend(parts[0] + "\n", Join("\n", parts[1..]));
    }
  }

  lemma {:induction false} InkOfTree(t: Tree)
    ensures InkOf(Texts(t)) == InkOf(Leaves(t))
    ensures Ink(Whole(t)) == InkOf(Leaves(t))
  {
    match t {
      case Nil =>
      case Leaf(line, rest) =>
        InkOfTree(rest);
        assert Texts(t)[1..] == Texts(rest) && Leaves(t)[1..] == Leaves(rest);
      case Include(_, body, rest) =>
        InkOfTree(body);
        InkOfTree(rest);
        assert Texts(t)[1..] == Texts(rest);
        InkOfAppend(Leaves(body), Leaves(rest));
    }
    InkStrip(Join("\n", Texts(t)));
    InkJoin(Texts(t));
  }

  /**
   * Blanks aside, a successful expansion is the lines of the text and of the files it includes that
   * are no markers, in document order: none is lost, repeated or moved.
   */
  lemma NothingIsLost(f: Files, text: string, fuel: nat) returns (t: Tree)
    requires Expand(f, text, fuel).Done?
    ensures IsTreeOf(f, SplitLines(text), t) && Ink(Expand(f, text, fuel).text) == InkOf(Leaves(t))
  {
    t := BuildTree(f, SplitLines(text), fuel);
    InkOfTree(t);
  }
}
