/** Python's text primitives as the prompt loader uses them: lines, joining, stripping. */
module Lines {
  import opened Sequences

  /** The characters `str.splitlines` breaks at. */
  predicate IsBreak(c: char) {
    || ('\U{0A}' <= c <= '\U{0D}') || ('\U{1C}' <= c <= '\U{1E}') || c == '\U{85}'
    || c == '\U{2028}' || c == '\U{2029}'
  }

  /** `str.isspace`, which is also the `\s` of a pattern. */
  predicate IsWhite(c: char) {
    || ('\U{09}' <= c <= '\U{0D}') || ('\U{1C}' <= c <= '\U{20}') || c == '\U{85}' || c == '\U{A0}'
    || c == '\U{1680}' || ('\U{2000}' <= c <= '\U{200A}') || c == '\U{2028}' || c == '\U{2029}'
    || c == '\U{202F}' || c == '\U{205F}' || c == '\U{3000}'
  }

  predicate AllWhite(s: string) {
    forall i :: 0 <= i < |s| ==> IsWhite(s[i])
  }

  predicate NoBreak(s: string) {
    forall i :: 0 <= i < |s| ==> !IsBreak(s[i])
  }

  /** Length of the first line. */
  function LineLength(s: string): (n: nat)
    ensures n <= |s| && NoBreak(s[..n]) && (n < |s| ==> IsBreak(s[n]))
  {
    if s == "" || IsBreak(s[0]) then 0
    else
      var m := LineLength(s[1..]);
      assert s[..1 + m] == [s[0]] + s[1..][..m];
      1 + m
  }

  /** What follows the first line and its break. */
  function AfterLine(s: string): (t: string)
    requires s != ""
    ensures |t| < |s|
  {
    var n := LineLength(s);
    if n == |s| then ""
    else if s[n] == '\r' && n + 1 < |s| && s[n + 1] == '\n' then s[n + 2..]
    else s[n + 1..]
  }

  /** `splitlines()` */
  function SplitLines(s: string): seq<string>
    decreases |s|
  {
    if s == "" then [] else [s[..LineLength(s)]] + SplitLines(AfterLine(s))
  }

  /** `separator.join(parts)` */
  function Join(separator: string, parts: seq<string>): string {
    if parts == [] then ""
    else if |parts| == 1 then parts[0]
    else parts[0] + separator + Join(separator, parts[1..])
  }

  /** `rstrip()` */
  function RStrip(s: string): string {
    if s != "" && IsWhite(s[|s| - 1]) then RStrip(s[..|s| - 1]) else s
  }

  predicate StartsWith(s: string, p: string) {
    |p| <= |s| && s[..|p|] == p
  }

  /** `p in s` */
  predicate Contains(s: string, p: string) {
    StartsWith(s, p) || (s != "" && Contains(s[1..], p))
  }

  lemma {:induction false} RStripRest(s: string)
    ensures |RStrip(s)| <= |s| && s == RStrip(s) + s[|RStrip(s)|..] && AllWhite(s[|RStrip(s)|..])
    ensures RStrip(s) != "" ==> !IsWhite(RStrip(s)[|RStrip(s)| - 1])
  {
    if s != "" && IsWhite(s[|s| - 1]) {
      var t := s[..|s| - 1];
      RStripRest(t);
      assert s[|RStrip(s)|..] == t[|RStrip(s)|..] + [s[|s| - 1]];
    }
  }

  lemma {:induction false} LinesHaveNoBreak(s: string)
    ensures forall l :: l in SplitLines(s) ==> NoBreak(l)
    decreases |s|
  {
    if s != "" {
      LinesHaveNoBreak(AfterLine(s));
    }
  }

  /** The first line is found by its break. */
  lemma {:induction false} LineLengthIs(s: string, n: nat)
    requires n <= |s| && NoBreak(s[..n]) && (n < |s| ==> IsBreak(s[n]))
    ensures LineLength(s) == n
  {
    if n > 0 {
      assert s[..n][0] == s[0];
      assert s[1..][..n - 1] == s[..n][1..];
      LineLengthIs(s[1..], n - 1);
    }
  }

  /** A text whose only breaks are newlines. */
  predicate Normal(s: string) {
    forall i :: 0 <= i < |s| && IsBreak(s[i]) ==> s[i] == '\n'
  }

  /** The lines of a normal text that starts with the line `a`. */
  lemma SplitFirst(a: string, rest: string)
    requires NoBreak(a)
    ensures SplitLines(a + "\n" + rest) == [a] + SplitLines(rest)
    ensures a != "" ==> SplitLines(a) == [a]
  {
    var s := a + "\n" + rest;
    assert s[..|a|] == a && s[|a|] == '\n' && s[|a| + 1..] == rest;
    LineLengthIs(s, |a|);
    if a != "" {
      assert a[..|a|] == a;
      LineLengthIs(a, |a|);
      assert SplitLines("") == [];
    }
  }

  /** A line ends at the first break; a carriage return and a newline are one break. */
  lemma SplitAtBreak(a: string, c: char, rest: string)
    requires NoBreak(a) && IsBreak(c)
    ensures c == '\r' && rest != "" && rest[0] == '\n' ==> SplitLines(a + [c] + rest) == [a] + SplitLines(rest[1..])
    ensures !(c == '\r' && rest != "" && rest[0] == '\n') ==> SplitLines(a + [c] + rest) == [a] + SplitLines(rest)
  {
    var s := a + [c] + rest;
    assert s[..|a|] == a && s[|a|] == c && s[|a| + 1..] == rest;
    LineLengthIs(s, |a|);
    if rest != "" {
      assert s[|a| + 1] == rest[0] && s[|a| + 2..] == rest[1..];
    }
  }

  lemma {:induction false} ContainsIff(s: string, p: string)
    ensures Contains(s, p) <==> exists a, b :: s == a + p + b
  {
    if StartsWith(s, p) {
      assert s == "" + p + s[|p|..];
    } else if s != "" {
      ContainsIff(s[1..], p);
      OccursLater(s, p);
    }
  }

  lemma OccursLater(s: string, p: string)
    requires s != "" && !StartsWith(s, p)
    ensures (exists a, b :: s == a + p + b) <==> (exists a, b :: s[1..] == a + p + b)
  {
    if a, b :| s[1..] == a + p + b {
      assert s == ([s[0]] + a) + p + b;
    }
    if a, b :| s == a + p + b {
      ContainsLater(s, p, a, b);
    }
  }

  lemma ContainsLater(s: string, p: string, a: string, b: string)
    requires s == a + p + b && !StartsWith(s, p)
    ensures a != "" && s[1..] == a[1..] + p + b
  {
    StartsWithFirst(p, b);
    assert a == "" ==> s == p + b;
    assert a != "" ==> s == [a[0]] + (a[1..] + p + b);
  }

  lemma StartsWithFirst(p: string, b: string)
    ensures StartsWith(p + b, p)
  {
  }

  /** Cut a normal text after its first line. */
  lemma NormalCut(s: string)
    requires Normal(s) && LineLength(s) < |s|
    ensures var n := LineLength(s);
            s == s[..n] + "\n" + s[n + 1..] && Normal(s[n + 1..]) && NoBreak(s[..n])
  {
    var n := LineLength(s);
    CutAt(s, n);
    NormalFrom(s, n + 1);
  }

  lemma CutAt(s: string, n: nat)
    requires n < |s| && s[n] == '\n'
    ensures s == s[..n] + "\n" + s[n + 1..]
  {
  }

  lemma NormalFrom(s: string, n: nat)
    requires Normal(s) && n <= |s|
    ensures Normal(s[n..])
  {
  }

  lemma CatAssoc(a: string, b: string, c: string)
    ensures (a + "\n" + b) + "\n" + c == a + "\n" + (b + "\n" + c)
    ensures (a + "\n" + b) + c == a + "\n" + (b + c)
  {
  }

  lemma JoinCons(separator: string, head: string, rest: seq<string>)
    ensures rest != [] ==> Join(separator, [head] + rest) == head + separator + Join(separator, rest)
    ensures rest == [] ==> Join(separator, [head] + rest) == head
  {
    assert ([head] + rest)[1..] == rest;
  }

  /** Lines joined by newlines split into the same lines, give or take empty ones. */
  lemma {:induction false} SplitOfConcat(a: string, b: string)
    requires Normal(a)
    ensures forall l :: l in SplitLines(a + "\n" + b) ==> l == "" || l in SplitLines(a) || l in SplitLines(b)
    decreases |a|
  {
    var n := LineLength(a);
    if n == |a| {
      assert a[..n] == a;
      SplitFirst(a, b);
    } else {
      NormalCut(a);
      var head, rest := a[..n], a[n + 1..];
      SplitFirst(head, rest);
      CatAssoc(head, rest, b);
      SplitFirst(head, rest + "\n" + b);
      SplitOfConcat(rest, b);
    }
  }

  lemma JoinAfterFirst(head: string, rest: string)
    requires NoBreak(head) && rest != "" && Join("\n", SplitLines(rest)) == rest
    ensures Join("\n", SplitLines(head + "\n" + rest)) == head + "\n" + rest
  {
    SplitFirst(head, rest);
    JoinCons("\n", head, SplitLines(rest));
  }

  /** A normal text that does not end with a newline is its lines joined. */
  lemma {:induction false} JoinOfSplit(s: string)
    requires Normal(s) && (s != "" ==> s[|s| - 1] != '\n')
    ensures Join("\n", SplitLines(s)) == s
    decreases |s|
  {
    var n := LineLength(s);
    if s == "" {
    } else if n == |s| {
      assert s[..n] == s;
      SplitFirst(s, "");
    } else {
      NormalCut(s);
      var head, rest := s[..n], s[n + 1..];
      assert rest != "" && rest[|rest| - 1] == s[|s| - 1];
      JoinOfSplit(rest);
      JoinAfterFirst(head, rest);
    }
  }

  /** `l` followed by white space is a line of `t`. */
  ghost predicate LineGrows(l: string, t: string) {
    exists v :: AllWhite(v) && l + v in SplitLines(t)
  }

  lemma GrowsByNothing(l: string, t: string)
    requires l in SplitLines(t)
    ensures LineGrows(l, t)
  {
    assert l + "" == l && AllWhite("");
  }

  lemma GrowsInLonger(l: string, head: string, rest: string, whole: string)
    requires LineGrows(l, rest) && SplitLines(whole) == [head] + SplitLines(rest)
    ensures LineGrows(l, whole)
  {
    var v :| AllWhite(v) && l + v in SplitLines(rest);
    assert l + v in SplitLines(whole);
  }

  lemma OnlyLineGrows(s: string, w: string)
    requires NoBreak(s) && s != "" && AllWhite(w)
    ensures LineGrows(s, s + w)
  {
    var m := LineLength(w);
    var t := s + w;
    assert t[..|s| + m] == s + w[..m];
    assert |s| + m < |t| ==> t[|s| + m] == w[m];
    LineLengthIs(t, |s| + m);
    assert SplitLines(t)[0] == s + w[..m];
    assert AllWhite(w[..m]);
  }

  /** White space after a text lengthens at most its last line, and only by white space. */
  lemma {:induction false} SplitOfPrefix(s: string, w: string)
    requires Normal(s) && AllWhite(w)
    ensures forall l :: l in SplitLines(s) ==> LineGrows(l, s + w)
    decreases |s|
  {
    var n := LineLength(s);
    if s == "" {
    } else if n == |s| {
      assert s[..n] == s;
      SplitFirst(s, "");
      OnlyLineGrows(s, w);
    } else {
      NormalCut(s);
      var head, rest := s[..n], s[n + 1..];
      SplitFirst(head, rest);
      CatAssoc(head, rest, w);
      SplitFirst(head, rest + w);
      SplitOfPrefix(rest, w);
      GrowsByNothing(head, s + w);
      forall l | l in SplitLines(rest)
        ensures LineGrows(l, s + w)
      {
        GrowsInLonger(l, head, rest + w, s + w);
      }
    }
  }
}
