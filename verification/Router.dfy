/**
 * The pattern router: two ways of finding the best intent, and when the pick cannot depend on the
 * order of the patterns. Weights and scores are exact reals.
 */
module Router {
  import opened Sequences

  type Intent = string

  /** A score table as Python keeps it: distinct intents in insertion order. */
  datatype Score = Score(intent: Intent, points: real)

  /** A weighted pattern; whether it matches the query is given. */
  datatype Pattern = Pattern(intent: Intent, weight: real, matches: bool)

  const CONFIDENCE_THRESHOLD: real := 3.0

  ghost predicate Table(t: seq<Score>) {
    forall i, j :: 0 <= i < j < |t| ==> t[i].intent != t[j].intent
  }

  // ---- Accumulation --------------------------------------------------------------------------

  predicate HasIntent(t: seq<Score>, intent: Intent) {
    exists i :: 0 <= i < |t| && t[i].intent == intent
  }

  /** What the matching patterns of an intent weigh together. */
  function Total(patterns: seq<Pattern>, intent: Intent): real {
    if patterns == [] then 0.0
    else
      (if patterns[0].matches && patterns[0].intent == intent then patterns[0].weight else 0.0)
      + Total(patterns[1..], intent)
  }

  predicate Matched(patterns: seq<Pattern>, intent: Intent) {
    exists i :: 0 <= i < |patterns| && patterns[i].matches && patterns[i].intent == intent
  }

  /** `t` is the table of `patterns`: the matched intents, each once, each with its total. */
  ghost predicate TableOf(t: seq<Score>, patterns: seq<Pattern>) {
    && Table(t)
    && (forall intent :: HasIntent(t, intent) <==> Matched(patterns, intent))
    && (forall i :: 0 <= i < |t| ==> t[i].points == Total(patterns, t[i].intent))
  }

  /** The place of the first matching pattern of an intent, or the end. */
  function FirstMatch(patterns: seq<Pattern>, intent: Intent): (n: nat)
    ensures n <= |patterns|
  {
    if patterns == [] || (patterns[0].matches && patterns[0].intent == intent) then 0
    else 1 + FirstMatch(patterns[1..], intent)
  }

  /** A dict keeps its keys as they came: the intents stand in the order of their first matches. */
  ghost predicate InMatchOrder(t: seq<Score>, patterns: seq<Pattern>) {
    forall i, j :: 0 <= i < j < |t| ==> FirstMatch(patterns, t[i].intent) < FirstMatch(patterns, t[j].intent)
  }

  lemma {:induction false} FirstMatchSnoc(patterns: seq<Pattern>, p: Pattern, intent: Intent)
    ensures Matched(patterns, intent) <==> FirstMatch(patterns, intent) < |patterns|
    ensures Matched(patterns, intent) ==> FirstMatch(patterns + [p], intent) == FirstMatch(patterns, intent)
    ensures !Matched(patterns, intent) && p.matches && p.intent == intent ==>
      FirstMatch(patterns + [p], intent) == |patterns|
  {
    if patterns != [] {
      var rest := patterns[1..];
      assert patterns == [patterns[0]] + rest && (patterns + [p])[1..] == rest + [p];
      FirstMatchSnoc(rest, p, intent);
      MatchedCons(patterns[0], rest, intent);
    }
  }

  lemma MatchedCons(p: Pattern, patterns: seq<Pattern>, intent: Intent)
    ensures Matched([p] + patterns, intent) <==> (p.matches && p.intent == intent) || Matched(patterns, intent)
  {
    var all := [p] + patterns;
    assert all[0] == p;
    assert forall i :: 0 <= i < |patterns| ==> all[i + 1] == patterns[i];
    assert forall i :: 1 <= i < |all| ==> all[i] == patterns[i - 1];
  }

  lemma {:induction false} TotalSnoc(patterns: seq<Pattern>, p: Pattern, intent: Intent)
    ensures Total(patterns + [p], intent) ==
      Total(patterns, intent) + (if p.matches && p.intent == intent then p.weight else 0.0)
  {
    if patterns == [] {
      assert (patterns + [p])[1..] == [];
    } else {
      assert (patterns + [p])[1..] == patterns[1..] + [p];
      TotalSnoc(patterns[1..], p, intent);
    }
  }

  lemma {:induction false} UnmatchedTotal(patterns: seq<Pattern>, intent: Intent)
    requires !Matched(patterns, intent)
    ensures Total(patterns, intent) == 0.0
  {
    if patterns != [] {
      assert !Matched(patterns[1..], intent) by {
        assert forall i :: 0 <= i < |patterns[1..]| ==> patterns[1..][i] == patterns[i + 1];
      }
      UnmatchedTotal(patterns[1..], intent);
    }
  }

  lemma MatchedSnoc(patterns: seq<Pattern>, p: Pattern, intent: Intent)
    ensures Matched(patterns + [p], intent) <==> Matched(patterns, intent) || (p.matches && p.intent == intent)
  {
    var all := patterns + [p];
    assert forall i :: 0 <= i < |patterns| ==> all[i] == patterns[i];
    assert all[|patterns|] == p;
  }

  /** One dict update: `scores[intent] = scores.get(intent, 0.0) + weight`. */
  method Bump(t: seq<Score>, intent: Intent, weight: real) returns (r: seq<Score>)
    requires Table(t)
    ensures Table(r) && forall k :: HasIntent(r, k) <==> HasIntent(t, k) || k == intent
    ensures if HasIntent(t, intent) then
        |r| == |t| && forall i :: 0 <= i < |t| ==>
          r[i] == if t[i].intent == intent then Score(intent, t[i].points + weight) else t[i]
      else r == t + [Score(intent, 0.0 + weight)]
  {
    for i := 0 to |t|
      invariant forall j :: 0 <= j < i ==> t[j].intent != intent
    {
      if t[i].intent == intent {
        r := t[i := Score(intent, t[i].points + weight)];
        assert r[i].intent == intent;
        forall k
          ensures HasIntent(r, k) <==> HasIntent(t, k) || k == intent
        {
          assert forall j :: 0 <= j < |t| ==> r[j].intent == t[j].intent;
        }
        return;
      }
    }
    r := t + [Score(intent, 0.0 + weight)];
    assert r[|t|].intent == intent;
    forall k
      ensures HasIntent(r, k) <==> HasIntent(t, k) || k == intent
    {
      assert forall j :: 0 <= j < |t| ==> r[j] == t[j];
    }
  }

  /** `accumulate_pattern_scores`, without the learned nudges. */
  method AccumulateScores(patterns: seq<Pattern>) returns (t: seq<Score>)
    ensures TableOf(t, patterns) && InMatchOrder(t, patterns)
  {
    t := [];
    for i := 0 to |patterns|
      invariant TableOf(t, patterns[..i]) && InMatchOrder(t, patterns[..i])
    {
      var p := patterns[i];
      assert patterns[..i + 1] == patterns[..i] + [p];
      ghost var before := t;
      if p.matches {
        t := Bump(t, p.intent, p.weight);
      }
      BumpKeepsTable(before, t, patterns[..i], p);
      BumpKeepsOrder(before, t, patterns[..i], p);
    }
    assert patterns[..|patterns|] == patterns;
  }

  lemma BumpKeepsOrder(before: seq<Score>, after: seq<Score>, patterns: seq<Pattern>, p: Pattern)
    requires TableOf(before, patterns) && InMatchOrder(before, patterns)
    requires !p.matches ==> after == before
    requires p.matches ==>
      if HasIntent(before, p.intent) then
        |after| == |before| && forall i :: 0 <= i < |before| ==> after[i].intent == before[i].intent
      else |after| == |before| + 1 && after[..|before|] == before && after[|before|].intent == p.intent
    ensures InMatchOrder(after, patterns + [p])
  {
    forall i, j | 0 <= i < j < |after|
      ensures FirstMatch(patterns + [p], after[i].intent) < FirstMatch(patterns + [p], after[j].intent)
    {
      assert after[i].intent == before[i].intent by {
        if |after| > |before| {
          assert after[i] == after[..|before|][i];
        }
      }
      assert HasIntent(before, before[i].intent);
      FirstMatchSnoc(patterns, p, before[i].intent);
      if j < |before| {
        assert after[j].intent == before[j].intent by {
          if |after| > |before| {
            assert after[j] == after[..|before|][j];
          }
        }
        assert HasIntent(before, before[j].intent);
        FirstMatchSnoc(patterns, p, before[j].intent);
      } else {
        FirstMatchSnoc(patterns, p, p.intent);
      }
    }
  }

  lemma BumpKeepsTable(before: seq<Score>, after: seq<Score>, patterns: seq<Pattern>, p: Pattern)
    requires TableOf(before, patterns) && Table(after)
    requires !p.matches ==> after == before
    requires p.matches ==> forall k :: HasIntent(after, k) <==> HasIntent(before, k) || k == p.intent
    requires p.matches ==>
      if HasIntent(before, p.intent) then
        |after| == |before| && forall i :: 0 <= i < |before| ==>
          after[i] == if before[i].intent == p.intent then Score(p.intent, before[i].points + p.weight) else before[i]
      else after == before + [Score(p.intent, 0.0 + p.weight)]
    ensures TableOf(after, patterns + [p])
  {
    forall k
      ensures HasIntent(after, k) <==> Matched(patterns + [p], k)
    {
      MatchedSnoc(patterns, p, k);
    }
    forall i | 0 <= i < |after|
      ensures after[i].points == Total(patterns + [p], after[i].intent)
    {
      TotalSnoc(patterns, p, after[i].intent);
      if i >= |before| {
        UnmatchedTotal(patterns, p.intent);
      } else if p.matches && !HasIntent(before, p.intent) {
        assert before[i].intent != p.intent;
      }
    }
  }

  // ---- The two winners -----------------------------------------------------------------------

  /** `max(scores, key=scores.__getitem__)`: the first of the best, in insertion order. */
  function FirstBest(t: seq<Score>): (k: nat)
    requires t != []
    ensures k < |t|
  {
    if |t| == 1 then 0
    else
      var k := FirstBest(t[1..]) + 1;
      if t[0].points >= t[k].points then 0 else k
  }

  /** First argmax: nothing is better, and everything before is worse. */
  lemma {:induction false} FirstBestIsFirst(t: seq<Score>)
    requires t != []
    ensures var k := FirstBest(t);
            && (forall i :: 0 <= i < |t| ==> t[i].points <= t[k].points)
            && (forall i :: 0 <= i < k ==> t[i].points < t[k].points)
  {
    if |t| > 1 {
      FirstBestIsFirst(t[1..]);
      assert forall i :: 1 <= i < |t| ==> t[i] == t[1..][i - 1];
    }
  }

  /** `classify_intent` on the table of a query. */
  function Classify(t: seq<Score>): Option<Intent> {
    if t == [] || t[FirstBest(t)].points < CONFIDENCE_THRESHOLD then None
    else Some(t[FirstBest(t)].intent)
  }

  /** Insert `s` behind everything at least as good: the stable place in a descending list. */
  function Insert(s: Score, ranked: seq<Score>): seq<Score> {
    if ranked != [] && ranked[0].points > s.points then [ranked[0]] + Insert(s, ranked[1..])
    else [s] + ranked
  }

  /**
   * `sorted(items, key=points, reverse=True)`, which Python keeps stable: equal scores stay in
   * insertion order.
   */
  function Rank(t: seq<Score>): seq<Score> {
    if t == [] then [] else Insert(t[0], Rank(t[1..]))
  }

  ghost predicate Descending(r: seq<Score>) {
    forall i, j :: 0 <= i < j < |r| ==> r[i].points >= r[j].points
  }

  lemma {:induction false} InsertKeepsDescending(s: Score, ranked: seq<Score>)
    requires Descending(ranked)
    ensures Descending(Insert(s, ranked))
    ensures forall i :: 0 <= i < |Insert(s, ranked)| ==>
      Insert(s, ranked)[i].points <= s.points || (ranked != [] && Insert(s, ranked)[i].points <= ranked[0].points)
  {
    if ranked != [] && ranked[0].points > s.points {
      var rest := ranked[1..];
      assert forall i :: 0 <= i < |rest| ==> rest[i] == ranked[i + 1];
      InsertKeepsDescending(s, rest);
      DescendingCons(ranked[0], Insert(s, rest));
    } else {
      DescendingCons(s, ranked);
    }
  }

  lemma DescendingCons(s: Score, r: seq<Score>)
    requires Descending(r) && forall i :: 0 <= i < |r| ==> r[i].points <= s.points
    ensures Descending([s] + r)
  {
  }

  lemma {:induction false} InsertPermutes(s: Score, ranked: seq<Score>)
    ensures multiset(Insert(s, ranked)) == multiset(ranked) + multiset{s}
  {
    if ranked != [] && ranked[0].points > s.points {
      InsertPermutes(s, ranked[1..]);
      assert ranked == [ranked[0]] + ranked[1..];
    }
  }

  /** The ranking is a descending permutation of the table. */
  lemma {:induction false} RankIsSorted(t: seq<Score>)
    ensures Descending(Rank(t)) && multiset(Rank(t)) == multiset(t) && |Rank(t)| == |t|
  {
    if t != [] {
      RankIsSorted(t[1..]);
      assert t == [t[0]] + t[1..];
      InsertKeepsDescending(t[0], Rank(t[1..]));
      InsertPermutes(t[0], Rank(t[1..]));
      assert |Rank(t)| == |multiset(Rank(t))|;
    }
  }

  /** The scores of one value, in order. */
  function Equals(t: seq<Score>, points: real): seq<Score> {
    Filter(t, (s: Score) => s.points == points)
  }

  lemma {:induction false} InsertIsStable(s: Score, ranked: seq<Score>, points: real)
    requires Descending(ranked)
    ensures Equals(Insert(s, ranked), points) == (if s.points == points then [s] else []) + Equals(ranked, points)
  {
    var keep := (x: Score) => x.points == points;
    if ranked != [] && ranked[0].points > s.points {
      var rest := ranked[1..];
      assert forall i :: 0 <= i < |rest| ==> rest[i] == ranked[i + 1];
      InsertIsStable(s, rest, points);
      assert Insert(s, ranked)[1..] == Insert(s, rest) && Insert(s, ranked)[0] == ranked[0];
      if s.points == points {
        assert !keep(ranked[0]);
      }
    } else {
      assert Insert(s, ranked)[1..] == ranked;
    }
  }

  /** The ranking is stable: equal scores keep their insertion order. */
  lemma {:induction false} RankIsStable(t: seq<Score>, points: real)
    ensures Equals(Rank(t), points) == Equals(t, points)
  {
    if t != [] {
      RankIsStable(t[1..], points);
      RankIsSorted(t[1..]);
      InsertIsStable(t[0], Rank(t[1..]), points);
    }
  }

  lemma {:induction false} RankHead(t: seq<Score>)
    requires t != []
    ensures Rank(t) != [] && Rank(t)[0] == t[FirstBest(t)]
  {
    if |t| > 1 {
      RankHead(t[1..]);
    }
  }

  /** `round(x, 4)` in exact arithmetic: to the nearest ten-thousandth, halves to even. */
  function Round4(x: real): real {
    var scaled := x * 10000.0;
    var down := scaled.Floor;
    var rest := scaled - down as real;
    var n := if rest < 0.5 then down
             else if rest > 0.5 then down + 1
             else if down % 2 == 0 then down else down + 1;
    n as real / 10000.0
  }

  datatype Scoreboard = Scoreboard(top: Option<Intent>, margin: real, matched: bool)

  function Margin(ranked: seq<Score>): real {
    if ranked == [] then 0.0
    else if |ranked| == 1 then ranked[0].points
    else ranked[0].points - ranked[1].points
  }

  /** `routing_scoreboard` on the table of a query. */
  function Board(t: seq<Score>): Scoreboard {
    var ranked := Rank(t);
    Scoreboard(if ranked == [] then None else Some(ranked[0].intent),
               Round4(Margin(ranked)),
               ranked != [] && ranked[0].points >= CONFIDENCE_THRESHOLD)
  }

  /** `route`: the intent it picks, if it does not leave the query to the LLM. */
  function Route(t: seq<Score>, marginMin: real): Option<Intent> {
    var intent := Classify(t);
    if intent.None? then None
    else if marginMin > 0.0 && Board(t).margin < marginMin then None
    else intent
  }

  lemma RoundSmall(x: real)
    ensures x >= 0.0 ==> Round4(x) >= 0.0
    ensures x == 0.0 ==> Round4(x) == 0.0
  {
  }

  /**
   * The classifier's first argmax is the head of the stable ranking: the two agree on every table
   * exactly when the board says matched, and otherwise the classifier abstains.
   */
  lemma WinnersAgree(t: seq<Score>)
    ensures Board(t).matched <==> Classify(t).Some?
    ensures Board(t).matched ==> Classify(t) == Board(t).top
    ensures Classify(t).Some? ==> Board(t).margin >= 0.0
  {
    if t != [] {
      RankHead(t);
      RankIsSorted(t);
      RoundSmall(Margin(Rank(t)));
    }
  }

  /** Strictly better than every other intent of the table. */
  ghost predicate StrictBest(t: seq<Score>, intent: Intent) {
    exists k :: 0 <= k < |t| && t[k].intent == intent &&
      forall i :: 0 <= i < |t| && i != k ==> t[i].points < t[k].points
  }

  /** Every entry of the table has its place in the ranking. */
  lemma PlaceInRank(t: seq<Score>, j: nat) returns (i: nat)
    requires j < |t|
    ensures i < |Rank(t)| && Rank(t)[i] == t[j]
  {
    RankIsSorted(t);
    assert t[j] in multiset(t);
    assert t[j] in Rank(t);
    i :| 0 <= i < |Rank(t)| && Rank(t)[i] == t[j];
  }

  /** Two entries as good as each other at the top rank next to each other. */
  lemma TiedMarginIsZero(t: seq<Score>, j: nat)
    requires t != [] && j < |t| && j != FirstBest(t) && t[j].points == t[FirstBest(t)].points
    requires Table(t)
    ensures Margin(Rank(t)) == 0.0
  {
    var k := FirstBest(t);
    FirstBestIsFirst(t);
    RankHead(t);
    RankIsSorted(t);
    var r := Rank(t);
    var i := PlaceInRank(t, j);
    assert t[j] != t[k];
    assert i > 0;
    assert r[0].points >= r[1].points >= r[i].points;
  }

  /** With a positive minimum margin, a routed intent is strictly the best. */
  lemma RoutedIsStrictBest(t: seq<Score>, marginMin: real)
    requires Table(t) && marginMin > 0.0 && Route(t, marginMin).Some?
    ensures StrictBest(t, Route(t, marginMin).value)
  {
    var k := FirstBest(t);
    FirstBestIsFirst(t);
    RoundSmall(Margin(Rank(t)));
    forall i | 0 <= i < |t| && i != k
      ensures t[i].points < t[k].points
    {
      if t[i].points == t[k].points {
        TiedMarginIsZero(t, i);
      }
    }
  }

  // ---- What is routed --------------------------------------------------------------------------

  /** To the nearest ten-thousandth, and of two as near to the even one. */
  lemma RoundNearest(x: real) returns (n: int)
    ensures Round4(x) == n as real / 10000.0
    ensures -0.00005 <= Round4(x) - x <= 0.00005
    ensures Round4(x) - x == 0.00005 || Round4(x) - x == -0.00005 ==> n % 2 == 0
  {
    var scaled := x * 10000.0;
    var down := scaled.Floor;
    var rest := scaled - down as real;
    n := if rest < 0.5 then down
         else if rest > 0.5 then down + 1
         else if down % 2 == 0 then down else down + 1;
  }

  lemma RoundMonotone(x: real, y: real)
    requires x <= y
    ensures Round4(x) <= Round4(y)
  {
    var a, b := x * 10000.0, y * 10000.0;
    assert a <= b && a.Floor <= b.Floor;
  }

  /** Nothing is better, and everything before is worse. */
  ghost predicate IsFirstBest(t: seq<Score>, k: nat) {
    && k < |t| && (forall i :: 0 <= i < |t| ==> t[i].points <= t[k].points)
    && forall i :: 0 <= i < k ==> t[i].points < t[k].points
  }

  /** By how much the best leads: over every other entry, or over nothing at all. */
  ghost predicate Leads(t: seq<Score>, k: nat, atLeast: real)
    requires k < |t|
  {
    if |t| == 1 then Round4(t[k].points) >= atLeast
    else forall i :: 0 <= i < |t| && i != k ==> Round4(t[k].points - t[i].points) >= atLeast
  }

  /** The runner-up: an entry that is not the best, and no worse than the others. */
  lemma RunnerUp(t: seq<Score>) returns (j: nat)
    requires Table(t) && |t| > 1
    ensures |Rank(t)| == |t| && j < |t| && j != FirstBest(t) && Rank(t)[1] == t[j]
    ensures forall i :: 0 <= i < |t| && i != FirstBest(t) ==> t[i].points <= t[j].points
  {
    var k, r := FirstBest(t), Rank(t);
    RankIsSorted(t);
    RankHead(t);
    j := PlaceInTable(t, 1);
    RankIsTable(t);
    assert r[0].intent != r[1].intent;
    forall i | 0 <= i < |t| && i != k
      ensures t[i].points <= t[j].points
    {
      var p := PlaceInRank(t, i);
      assert t[i].intent != t[k].intent;
    }
  }

  lemma PlaceInTable(t: seq<Score>, p: nat) returns (j: nat)
    requires p < |Rank(t)|
    ensures j < |t| && t[j] == Rank(t)[p]
  {
    RankIsSorted(t);
    assert Rank(t)[p] in multiset(Rank(t));
    assert Rank(t)[p] in t;
    j :| 0 <= j < |t| && t[j] == Rank(t)[p];
  }

  lemma {:induction false} InsertKeepsTable(s: Score, ranked: seq<Score>)
    requires Table(ranked) && !HasIntent(ranked, s.intent)
    ensures Table(Insert(s, ranked))
    ensures forall k :: HasIntent(Insert(s, ranked), k) <==> HasIntent(ranked, k) || k == s.intent
  {
    if ranked != [] && ranked[0].points > s.points {
      var rest := ranked[1..];
      assert ranked == [ranked[0]] + rest;
      IntentsCons(ranked[0], rest);
      InsertKeepsTable(s, rest);
      IntentsCons(ranked[0], Insert(s, rest));
    } else {
      IntentsCons(s, ranked);
    }
  }

  lemma IntentsCons(s: Score, rest: seq<Score>)
    ensures forall k :: HasIntent([s] + rest, k) <==> k == s.intent || HasIntent(rest, k)
    ensures Table([s] + rest) <==> Table(rest) && !HasIntent(rest, s.intent)
  {
    var all := [s] + rest;
    assert all[0] == s && forall i :: 0 <= i < |rest| ==> all[i + 1] == rest[i];
    assert forall i :: 1 <= i < |all| ==> all[i] == rest[i - 1];
    forall k
      ensures HasIntent(all, k) <==> k == s.intent || HasIntent(rest, k)
    {
      if k == s.intent {
        assert all[0].intent == k;
      } else if i :| 0 <= i < |rest| && rest[i].intent == k {
        assert all[i + 1].intent == k;
      }
    }
    if Table(all) {
      forall i, j | 0 <= i < j < |rest|
        ensures rest[i].intent != rest[j].intent
      {
        assert all[i + 1].intent != all[j + 1].intent;
      }
    }
  }

  lemma {:induction false} RankIsTable(t: seq<Score>)
    requires Table(t)
    ensures Table(Rank(t)) && forall k :: HasIntent(Rank(t), k) <==> HasIntent(t, k)
  {
    if t != [] {
      assert t == [t[0]] + t[1..];
      IntentsCons(t[0], t[1..]);
      RankIsTable(t[1..]);
      InsertKeepsTable(t[0], Rank(t[1..]));
    }
  }

  /** The margin is what the best leads by. */
  lemma MarginIsLead(t: seq<Score>, atLeast: real)
    requires Table(t) && t != []
    ensures Board(t).margin >= atLeast <==> Leads(t, FirstBest(t), atLeast)
  {
    RankHead(t);
    if |t| > 1 {
      var j := RunnerUp(t);
      LeadOverRunnerUp(t, FirstBest(t), j, atLeast);
    } else {
      RankIsSorted(t);
    }
  }

  lemma LeadOverRunnerUp(t: seq<Score>, k: nat, j: nat, atLeast: real)
    requires k < |t| && j < |t| && j != k
    requires forall i :: 0 <= i < |t| && i != k ==> t[i].points <= t[j].points
    ensures Leads(t, k, atLeast) <==> Round4(t[k].points - t[j].points) >= atLeast
  {
    forall i | 0 <= i < |t| && i != k
      ensures Round4(t[k].points - t[j].points) <= Round4(t[k].points - t[i].points)
    {
      RoundMonotone(t[k].points - t[j].points, t[k].points - t[i].points);
    }
  }

  /**
   * What is routed, exactly: the first of the best intents, if its score reaches the threshold and,
   * where a margin is demanded, its rounded lead over every other entry reaches that.
   */
  lemma RoutedIff(t: seq<Score>, marginMin: real, intent: Intent)
    requires Table(t)
    ensures Route(t, marginMin) == Some(intent) <==> exists k: nat :: IsRouted(t, marginMin, k) && t[k].intent == intent
  {
    if t != [] {
      var k := FirstBest(t);
      FirstBestIsFirst(t);
      MarginIsLead(t, marginMin);
      assert IsFirstBest(t, k);
      assert Route(t, marginMin) == if IsRouted(t, marginMin, k) then Some(t[k].intent) else None;
      forall i: nat | IsRouted(t, marginMin, i)
        ensures i == k
      {
      }
    }
  }

  ghost predicate IsRouted(t: seq<Score>, marginMin: real, k: nat) {
    && IsFirstBest(t, k) && t[k].points >= 3.0
    && (marginMin > 0.0 ==> Leads(t, k, marginMin))
  }

  /** So a confident intent that leads by half a ten-thousandth more than demanded is routed. */
  lemma LargeLeadIsRouted(t: seq<Score>, marginMin: real, k: nat)
    requires Table(t) && k < |t| && t[k].points >= 3.0 && marginMin > 0.0
    requires t[k].points >= marginMin + 0.00005
    requires forall i :: 0 <= i < |t| && i != k ==> t[k].points - t[i].points >= marginMin + 0.00005
    ensures Route(t, marginMin) == Some(t[k].intent)
  {
    var _ := RoundNearest(t[k].points);
    forall i | 0 <= i < |t| && i != k
      ensures Round4(t[k].points - t[i].points) >= marginMin
    {
      var _ := RoundNearest(t[k].points - t[i].points);
    }
    assert IsRouted(t, marginMin, k);
    RoutedIff(t, marginMin, t[k].intent);
  }

  // ---- Order of the patterns -----------------------------------------------------------------

  function Points(t: seq<Score>): (r: seq<real>)
    ensures |r| == |t| && forall i :: 0 <= i < |t| ==> r[i] == t[i].points
  {
    seq(|t|, i requires 0 <= i < |t| => t[i].points)
  }

  function RemoveAt<T>(s: seq<T>, k: nat): seq<T>
    requires k < |s|
  {
    s[..k] + s[k + 1..]
  }

  lemma RemoveAtMultiset<T>(s: seq<T>, k: nat)
    requires k < |s|
    ensures multiset(s) == multiset(RemoveAt(s, k)) + multiset{s[k]}
  {
    assert s == s[..k] + ([s[k]] + s[k + 1..]);
  }

  /** Where the first element of `a` sits in the permutation `b`, and what is left without it. */
  lemma MatchHead<T>(a: seq<T>, b: seq<T>) returns (k: nat)
    requires a != [] && multiset(a) == multiset(b)
    ensures k < |b| && b[k] == a[0] && multiset(a[1..]) == multiset(RemoveAt(b, k))
  {
    assert a[0] in multiset(a);
    assert a[0] in multiset(b);
    k :| 0 <= k < |b| && b[k] == a[0];
    RemoveAtMultiset(b, k);
    assert a == [a[0]] + a[1..];
    assert multiset(a[1..]) == multiset(a) - multiset{a[0]};
  }

  lemma {:induction false} PointsPermute(t: seq<Score>, u: seq<Score>)
    requires multiset(t) == multiset(u)
    ensures multiset(Points(t)) == multiset(Points(u))
  {
    assert |t| == |multiset(t)| == |u|;
    if t != [] {
      var k := MatchHead(t, u);
      PointsPermute(t[1..], RemoveAt(u, k));
      assert Points(t) == [t[0].points] + Points(t[1..]);
      assert Points(RemoveAt(u, k)) == RemoveAt(Points(u), k);
      RemoveAtMultiset(Points(u), k);
    }
  }

  ghost predicate Falling(r: seq<real>) {
    forall i, j :: 0 <= i < j < |r| ==> r[i] >= r[j]
  }

  lemma SameTop(a: seq<real>, b: seq<real>)
    requires Falling(a) && Falling(b) && multiset(a) == multiset(b) && a != [] && b != []
    ensures a[0] == b[0]
  {
    assert a[0] in multiset(a) && b[0] in multiset(b);
    assert a[0] in multiset(b) && b[0] in multiset(a);
    var i :| 0 <= i < |b| && b[i] == a[0];
    var j :| 0 <= j < |a| && a[j] == b[0];
    assert b[0] >= b[i] && a[0] >= a[j];
  }

  /** Falling sequences of the same numbers are the same. */
  lemma {:induction false} FallingUnique(a: seq<real>, b: seq<real>)
    requires Falling(a) && Falling(b) && multiset(a) == multiset(b)
    ensures a == b
  {
    assert |a| == |multiset(a)| == |b|;
    if a != [] {
      SameTop(a, b);
      assert a == [a[0]] + a[1..] && b == [b[0]] + b[1..];
      assert multiset(a[1..]) == multiset(a) - multiset{a[0]};
      assert multiset(b[1..]) == multiset(b) - multiset{b[0]};
      FallingUnique(a[1..], b[1..]);
    }
  }

  /** Best score and margin do not depend on the order of the table. */
  lemma MarginPermutes(t: seq<Score>, u: seq<Score>)
    requires multiset(t) == multiset(u) && t != []
    ensures u != [] && Margin(Rank(t)) == Margin(Rank(u)) && t[FirstBest(t)].points == u[FirstBest(u)].points
  {
    assert |t| == |multiset(t)| == |u|;
    RankIsSorted(t);
    RankIsSorted(u);
    PointsPermute(Rank(t), Rank(u));
    FallingUnique(Points(Rank(t)), Points(Rank(u)));
    RankHead(t);
    RankHead(u);
    assert Points(Rank(t))[0] == Points(Rank(u))[0];
    if |t| > 1 {
      assert Points(Rank(t))[1] == Points(Rank(u))[1];
    }
  }

  /** With a positive minimum margin the route does not depend on the order of the table. */
  lemma RouteIgnoresTableOrder(t: seq<Score>, u: seq<Score>, marginMin: real)
    requires Table(t) && Table(u) && multiset(t) == multiset(u) && marginMin > 0.0
    ensures Route(t, marginMin) == Route(u, marginMin)
  {
    assert |t| == |multiset(t)| == |u|;
    if t != [] {
      MarginPermutes(t, u);
      if Route(t, marginMin).Some? {
        RoutedIsStrictBest(u, marginMin);
        FirstBestIsFirst(u);
        var best := t[FirstBest(t)];
        assert best in multiset(t);
        assert best in multiset(u);
        var j :| 0 <= j < |u| && u[j] == best;
        SameStrictBest(u, j);
      }
    }
  }

  lemma SameStrictBest(u: seq<Score>, j: nat)
    requires Table(u) && j < |u| && StrictBest(u, u[FirstBest(u)].intent) && u[j].points == u[FirstBest(u)].points
    ensures j == FirstBest(u)
  {
    var k :| 0 <= k < |u| && u[k].intent == u[FirstBest(u)].intent &&
      forall i :: 0 <= i < |u| && i != k ==> u[i].points < u[k].points;
    assert k == FirstBest(u);
  }

  /**
   * When the order of a table can matter: some reordering changes the route exactly when no margin
   * is demanded, the best score is confident, and another intent has the same score.
   */
  lemma OrderMattersIff(t: seq<Score>, marginMin: real)
    requires Table(t)
    ensures (forall u :: Table(u) && multiset(u) == multiset(t) ==> Route(u, marginMin) == Route(t, marginMin)) <==>
      (marginMin > 0.0 || Classify(t).None? || StrictBest(t, Classify(t).value))
  {
    if marginMin > 0.0 {
      forall u | Table(u) && multiset(u) == multiset(t)
        ensures Route(u, marginMin) == Route(t, marginMin)
      {
        RouteIgnoresTableOrder(u, t, marginMin);
      }
    } else if Classify(t).None? || StrictBest(t, Classify(t).value) {
      forall u | Table(u) && multiset(u) == multiset(t)
        ensures Route(u, marginMin) == Route(t, marginMin)
      {
        UntiedOrder(t, u, marginMin);
      }
    } else {
      var u := TieBroken(t);
      assert Table(u) && multiset(u) == multiset(t) && Route(u, marginMin) != Route(t, marginMin);
    }
  }

  lemma UntiedOrder(t: seq<Score>, u: seq<Score>, marginMin: real)
    requires Table(t) && Table(u) && multiset(u) == multiset(t) && marginMin <= 0.0
    requires Classify(t).None? || StrictBest(t, Classify(t).value)
    ensures Route(u, marginMin) == Route(t, marginMin)
  {
    assert |t| == |multiset(t)| == |u|;
    if t != [] {
      MarginPermutes(t, u);
      if Classify(t).Some? {
        var best := u[FirstBest(u)];
        assert best in multiset(u);
        assert best in multiset(t);
        var j :| 0 <= j < |t| && t[j] == best;
        SameStrictBest(t, j);
      }
    }
  }

  lemma BestFirstIsFirstBest(u: seq<Score>)
    requires u != [] && forall i :: 0 <= i < |u| ==> u[i].points <= u[0].points
    ensures FirstBest(u) == 0
  {
    FirstBestIsFirst(u);
  }

  /** Move the entry at `j` to the front. */
  function ToFront(t: seq<Score>, j: nat): seq<Score>
    requires j < |t|
  {
    [t[j]] + RemoveAt(t, j)
  }

  lemma ToFrontIsTable(t: seq<Score>, j: nat)
    requires Table(t) && j < |t|
    ensures Table(ToFront(t, j)) && multiset(ToFront(t, j)) == multiset(t)
    ensures forall s :: s in ToFront(t, j) ==> s in t
  {
    RemoveAtMultiset(t, j);
    forall a, b | 0 <= a < b < |t|
      ensures ToFront(t, j)[a].intent != ToFront(t, j)[b].intent
    {
      ToFrontAt(t, j, a);
      ToFrontAt(t, j, b);
    }
    forall i | 0 <= i < |t|
      ensures ToFront(t, j)[i] in t
    {
      ToFrontAt(t, j, i);
    }
  }

  lemma ToFrontAt(t: seq<Score>, j: nat, i: nat)
    requires j < |t| && i < |t|
    ensures |ToFront(t, j)| == |t|
    ensures ToFront(t, j)[i] == t[if i == 0 then j else if i - 1 < j then i - 1 else i]
  {
  }

  /** Put a tied rival first. */
  lemma TieBroken(t: seq<Score>) returns (u: seq<Score>)
    requires Table(t) && Classify(t).Some? && !StrictBest(t, Classify(t).value)
    ensures Table(u) && multiset(u) == multiset(t) && Classify(u).Some? && Classify(u) != Classify(t)
  {
    var k := FirstBest(t);
    FirstBestIsFirst(t);
    var j :| 0 <= j < |t| && j != k && t[j].points == t[k].points;
    u := ToFront(t, j);
    ToFrontIsTable(t, j);
    forall i | 0 <= i < |u|
      ensures u[i].points <= u[0].points
    {
      assert u[i] in u;
    }
    BestFirstIsFirstBest(u);
  }

  // ---- From patterns to routes ---------------------------------------------------------------

  lemma {:induction false} TotalOfRemoved(patterns: seq<Pattern>, k: nat, intent: Intent)
    requires k < |patterns|
    ensures Total(patterns, intent) == Total(RemoveAt(patterns, k), intent) +
      (if patterns[k].matches && patterns[k].intent == intent then patterns[k].weight else 0.0)
  {
    if k > 0 {
      TotalOfRemoved(patterns[1..], k - 1, intent);
      assert RemoveAt(patterns, k)[1..] == RemoveAt(patterns[1..], k - 1);
    } else {
      assert RemoveAt(patterns, 0) == patterns[1..];
    }
  }

  lemma {:induction false} TotalPermutes(p: seq<Pattern>, q: seq<Pattern>, intent: Intent)
    requires multiset(p) == multiset(q)
    ensures Total(p, intent) == Total(q, intent)
  {
    assert |p| == |multiset(p)| == |q|;
    if p != [] {
      var k := MatchHead(p, q);
      TotalPermutes(p[1..], RemoveAt(q, k), intent);
      TotalOfRemoved(q, k, intent);
    }
  }

  lemma MatchedPermutes(p: seq<Pattern>, q: seq<Pattern>, intent: Intent)
    requires multiset(p) == multiset(q) && Matched(p, intent)
    ensures Matched(q, intent)
  {
    var i :| 0 <= i < |p| && p[i].matches && p[i].intent == intent;
    assert p[i] in multiset(p);
    assert p[i] in multiset(q);
    var j :| 0 <= j < |q| && q[j] == p[i];
  }

  lemma EntryCarriesOver(t: seq<Score>, p: seq<Pattern>, u: seq<Score>, q: seq<Pattern>, s: Score)
    requires TableOf(t, p) && TableOf(u, q) && multiset(p) == multiset(q) && s in t
    ensures s in u
  {
    var i :| 0 <= i < |t| && t[i] == s;
    assert HasIntent(t, s.intent);
    MatchedPermutes(p, q, s.intent);
    TotalPermutes(p, q, s.intent);
    assert HasIntent(u, s.intent);
    var j :| 0 <= j < |u| && u[j].intent == s.intent;
    assert u[j] == s;
  }

  /** Lists without repetition that have the same members are permutations of each other. */
  lemma {:induction false} SameMembersPermute<T>(a: seq<T>, b: seq<T>)
    requires NoDuplicates(a) && NoDuplicates(b) && forall x :: x in a <==> x in b
    ensures multiset(a) == multiset(b)
  {
    assert b != [] ==> b[0] in b;
    if a != [] {
      assert a == [a[0]] + a[1..];
      assert a[0] in a;
      var k :| 0 <= k < |b| && b[k] == a[0];
      RemoveAtMultiset(b, k);
      RemoveAtMembers(b, k);
      SameMembersPermute(a[1..], RemoveAt(b, k));
    }
  }

  lemma RemoveAtMembers<T>(b: seq<T>, k: nat)
    requires NoDuplicates(b) && k < |b|
    ensures NoDuplicates(RemoveAt(b, k)) && forall x :: x in RemoveAt(b, k) <==> x in b && x != b[k]
  {
    var r := RemoveAt(b, k);
    assert forall i :: 0 <= i < |r| ==> r[i] == b[if i < k then i else i + 1];
    forall x | x in b && x != b[k]
      ensures x in r
    {
      var i :| 0 <= i < |b| && b[i] == x;
      assert r[if i < k then i else i - 1] == x;
    }
  }

  /**
   * From the patterns to the route: with a positive minimum margin, listing the patterns in another
   * order never routes a query differently.
   */
  lemma RouteIgnoresPatternOrder(p: seq<Pattern>, q: seq<Pattern>, t: seq<Score>, u: seq<Score>, marginMin: real)
    requires multiset(p) == multiset(q) && TableOf(t, p) && TableOf(u, q) && marginMin > 0.0
    ensures Route(t, marginMin) == Route(u, marginMin)
  {
    forall s
      ensures s in t <==> s in u
    {
      if s in t {
        EntryCarriesOver(t, p, u, q, s);
      } else if s in u {
        EntryCarriesOver(u, q, t, p, s);
      }
    }
    SameMembersPermute(t, u);
    RouteIgnoresTableOrder(t, u, marginMin);
  }
}
