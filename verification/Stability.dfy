/**
 * The stability monitor: a score for each response, a rolling window, and a counter of good windows
 * in a row. The theorem says what the counter is in terms of the whole history of scores.
 */
module Stability {
  import opened Sequences

  const WINDOW_SIZE: nat := 20
  const THRESHOLD: int := 75
  const CONSECUTIVE_REQUIRED: nat := 10

  /** Python's `int(x)` of a quotient: toward zero, in exact arithmetic. */
  function Truncated(a: int, b: int): int
    requires b > 0
  {
    if a >= 0 then a / b else -((-a) / b)
  }

  /** `_compute_score` */
  method ComputeScore(succeeded: int, total: int, hasSources: bool, length: int, hadWarnings: bool)
    returns (r: int)
    ensures r == Score(succeeded, total, hasSources, length, hadWarnings)
  {
    var score := 0;
    if total > 0 && succeeded == total {
      QuotientExact(total);
      score := score + 30;
    } else if total > 0 {
      score := score + Truncated(30 * succeeded, total);
    }
    if hasSources {
      score := score + 20;
    }
    if length > 200 {
      score := score + 30;
    } else if length > 50 {
      score := score + 15;
    }
    if !hadWarnings {
      score := score + 10;
    }
    score := score + 10;
    r := if score < 100 then score else 100;
  }

  /** The score as a sum of what each question is worth. */
  function Score(succeeded: int, total: int, hasSources: bool, length: int, hadWarnings: bool): int {
    var agents := if total <= 0 then 0 else Truncated(30 * succeeded, total);
    var sum := agents + (if hasSources then 20 else 0)
      + (if length > 200 then 30 else if length > 50 then 15 else 0)
      + (if hadWarnings then 0 else 10) + 10;
    if sum < 100 then sum else 100
  }

  /**
   * Scores lie in [10, 100] when the agents' part is not negative, and 100 is perfect when no more
   * agents succeeded than ran.
   */
  lemma ScoreRange(succeeded: int, total: int, hasSources: bool, length: int, hadWarnings: bool)
    ensures total <= 0 || 30 * succeeded > -total ==>
      10 <= Score(succeeded, total, hasSources, length, hadWarnings) <= 100
    ensures total <= 0 || succeeded <= total ==>
      (Score(succeeded, total, hasSources, length, hadWarnings) == 100 <==>
        total > 0 && succeeded == total && hasSources && length > 200 && !hadWarnings)
  {
    if total > 0 {
      if 0 <= succeeded <= total {
        QuotientRange(succeeded, total);
      }
      if 30 * succeeded > -total {
        TruncatedBelow(30 * succeeded, total);
      } else {
        TruncatedAbove(30 * succeeded, total);
      }
    }
  }

  /**
   * What each answer to a question is worth, when no more agents succeeded than ran: sources 20, no
   * warnings 10, a text of more than 50 characters 15 and of more than 200 another 15, and the agents
   * their share of 30, cut to a whole number. Ten points are there in any case.
   */
  lemma ScoreParts(succeeded: int, total: int, hasSources: bool, length: int, hadWarnings: bool)
    requires total > 0 && 0 <= succeeded <= total
    ensures Score(succeeded, total, true, length, hadWarnings) == Score(succeeded, total, false, length, hadWarnings) + 20
    ensures Score(succeeded, total, hasSources, length, false) == Score(succeeded, total, hasSources, length, true) + 10
    ensures Score(succeeded, total, hasSources, length, hadWarnings) ==
      Score(succeeded, total, hasSources, 0, hadWarnings) + (if length > 200 then 30 else if length > 50 then 15 else 0)
    ensures Score(total, total, hasSources, length, hadWarnings) == Score(0, total, hasSources, length, hadWarnings) + 30
    ensures Score(0, total, hasSources, length, hadWarnings) == Score(0, 0, hasSources, length, hadWarnings)
    ensures Score(0, total, false, 0, true) == 10
    ensures 30 * succeeded - total < (Score(succeeded, total, false, 0, true) - 10) * total <= 30 * succeeded
  {
    QuotientRange(succeeded, total);
    QuotientExact(total);
    var q := 30 * succeeded / total;
    assert 30 * succeeded == q * total + 30 * succeeded % total;
  }

  lemma QuotientRange(a: int, b: int)
    requires 0 <= a <= b && b > 0
    ensures 0 <= 30 * a / b <= 30 && (30 * a / b == 30 <==> a == b)
  {
    var q := 30 * a / b;
    assert 30 * a == q * b + 30 * a % b;
    if q >= 30 {
      Monotone(30, q, b);
    }
    if a == b {
      QuotientExact(b);
    }
  }

  lemma Monotone(x: int, y: int, b: int)
    requires x <= y && b > 0
    ensures x * b <= y * b
  {
    assert (y - x) * b >= 0;
  }

  lemma QuotientExact(b: int)
    requires b > 0
    ensures 30 * b / b == 30
  {
  }

  /**
   * The counts come from a tool call and may be anything. Whatever else the response is like, its
   * score lies in [10, 100] exactly when no agents are counted, or the agents' part of the score,
   * cut toward zero, is not negative.
   */
  lemma ScoreInRangeIff(succeeded: int, total: int)
    ensures (forall hasSources, length, hadWarnings ::
               10 <= Score(succeeded, total, hasSources, length, hadWarnings) <= 100)
            <==> (total <= 0 || 30 * succeeded > -total)
  {
    if total > 0 && 30 * succeeded <= -total {
      TruncatedAbove(30 * succeeded, total);
      assert Score(succeeded, total, false, 0, true) < 10;
    } else {
      forall hasSources, length, hadWarnings
        ensures 10 <= Score(succeeded, total, hasSources, length, hadWarnings) <= 100
      {
        ScoreRange(succeeded, total, hasSources, length, hadWarnings);
      }
    }
  }

  lemma TruncatedBelow(a: int, b: int)
    requires b > 0 && a > -b
    ensures Truncated(a, b) >= 0
  {
  }

  lemma TruncatedAbove(a: int, b: int)
    requires b > 0 && a <= -b
    ensures Truncated(a, b) < 0
  {
    var q := (-a) / b;
    assert -a == q * b + (-a) % b;
  }

  // ---- The monitor ---------------------------------------------------------------------------

  /** The persisted state, with two histories: all scores ever tracked, and when the last reject was. */
  datatype State = State(
    window: seq<int>, consecutive: nat, stable: bool,
    history: seq<int>, rejectedAt: nat)

  datatype Event = Track(score: int) | Confirm | Reject

  function Init(): State {
    State([], 0, false, [], 0)
  }

  function Sum(s: seq<int>): int {
    if s == [] then 0 else s[0] + Sum(s[1..])
  }

  /** `sum / len >= 75`, without the division. */
  predicate Good(window: seq<int>) {
    Sum(window) >= THRESHOLD * |window|
  }

  function Apply(s: State, e: Event): State {
    match e
    case Track(score) =>
      var window := LastN(s.window + [score], WINDOW_SIZE);
      s.(window := window, consecutive := if Good(window) then s.consecutive + 1 else 0,
         history := s.history + [score])
    case Confirm => s.(stable := true)
    case Reject => s.(consecutive := 0, rejectedAt := |s.history|)
  }

  /** What the tracking call reports. */
  predicate Announces(s: State) {
    !s.stable && s.consecutive >= CONSECUTIVE_REQUIRED
  }

  function Run(s: State, events: seq<Event>): State
    decreases |events|
  {
    if events == [] then s else Run(Apply(s, events[0]), events[1..])
  }

  /** The window of the `k`-th tracked call, cut out of the history. */
  predicate GoodCall(history: seq<int>, k: nat)
    requires k < |history|
  {
    Good(LastN(history[..k + 1], WINDOW_SIZE))
  }

  /** `n` is the length of the longest run of good calls at the end, no further back than `from_`. */
  ghost predicate LongestGoodEnd(history: seq<int>, from_: nat, n: nat) {
    && n <= |history| && from_ <= |history| - n
    && (forall k :: |history| - n <= k < |history| ==> GoodCall(history, k))
    && (from_ < |history| - n ==> !GoodCall(history, |history| - n - 1))
  }

  ghost predicate Inv(s: State) {
    && s.window == LastN(s.history, WINDOW_SIZE)
    && LongestGoodEnd(s.history, s.rejectedAt, s.consecutive)
  }

  lemma EventKeeps(s: State, e: Event)
    requires Inv(s)
    ensures Inv(Apply(s, e))
  {
    if e.Track? {
      var t := Apply(s, e);
      LastNAppend(s.history, [e.score], WINDOW_SIZE);
      forall k | 0 <= k < |s.history|
        ensures GoodCall(t.history, k) == GoodCall(s.history, k)
      {
        assert t.history[..k + 1] == s.history[..k + 1];
      }
      assert t.history[..|t.history|] == t.history;
    }
  }

  lemma {:induction false} RunKeeps(s: State, events: seq<Event>)
    requires Inv(s)
    ensures Inv(Run(s, events))
    decreases |events|
  {
    if events != [] {
      EventKeeps(s, events[0]);
      RunKeeps(Apply(s, events[0]), events[1..]);
    }
  }

  /** A call is good when the last twenty scores up to it average at least 75. */
  lemma GoodCallAverages(history: seq<int>, k: nat)
    requires k < |history|
    ensures var window := LastN(history[..k + 1], 20);
            window != [] && (GoodCall(history, k) <==> Sum(window) as real / |window| as real >= 75.0)
  {
    var window := LastN(history[..k + 1], 20);
    RealQuotient(Sum(window), |window|);
  }

  lemma RealQuotient(sum: int, n: int)
    requires n > 0
    ensures sum as real / n as real >= 75.0 <==> sum >= 75 * n
  {
    var q := sum as real / n as real;
    assert q * n as real == sum as real;
    if q >= 75.0 {
      assert (q - 75.0) * n as real >= 0.0;
    } else {
      assert (75.0 - q) * n as real > 0.0;
    }
  }

  /** The longest such run is unique. */
  lemma LongestIsUnique(history: seq<int>, from_: nat, m: nat, n: nat)
    requires LongestGoodEnd(history, from_, m) && LongestGoodEnd(history, from_, n)
    ensures m == n
  {
  }

  ghost predicate TenGoodCallsSinceReject(s: State) {
    && |s.history| >= s.rejectedAt + 10
    && forall k :: |s.history| - 10 <= k < |s.history| ==> GoodCall(s.history, k)
  }

  /**
   * Over whole runs: the window is the last 20 scores; the counter is the length of the longest
   * suffix of tracked calls since the last reject whose windows averaged at least 75; and stability
   * is announced exactly when it is unconfirmed and ten such calls stand at the end.
   */
  lemma MonitorMeaning(events: seq<Event>)
    ensures var s := Run(Init(), events);
            && s.window == LastN(s.history, 20)
            && LongestGoodEnd(s.history, s.rejectedAt, s.consecutive)
            && (Announces(s) <==> (!s.stable && TenGoodCallsSinceReject(s)))
  {
    RunKeeps(Init(), events);
    var s := Run(Init(), events);
    if !s.stable && s.consecutive < CONSECUTIVE_REQUIRED && |s.history| >= s.rejectedAt + CONSECUTIVE_REQUIRED {
      var k := |s.history| - s.consecutive - 1;
      assert !GoodCall(s.history, k) && k >= |s.history| - CONSECUTIVE_REQUIRED;
    }
  }

  /** The histories are what they say: the tracked scores in order. */
  lemma {:induction false} HistoryIsTracked(s: State, events: seq<Event>)
    ensures Run(s, events).history == s.history + Tracked(events)
    ensures Run(s, events).stable == (s.stable || Confirm in events)
    decreases |events|
  {
    if events == [] {
      assert s.history + [] == s.history;
    } else {
      assert events == [events[0]] + events[1..];
      HistoryIsTracked(Apply(s, events[0]), events[1..]);
    }
  }

  /** How many scores had been tracked at the last reject; zero when there was none. */
  function TrackedBeforeReject(events: seq<Event>): nat
    decreases |events|
  {
    if events == [] then 0
    else
      var before := events[..|events| - 1];
      if events[|events| - 1].Reject? then |Tracked(before)| else TrackedBeforeReject(before)
  }

  lemma {:induction false} RunSnoc(s: State, events: seq<Event>, e: Event)
    ensures Run(s, events + [e]) == Apply(Run(s, events), e)
    decreases |events|
  {
    if events == [] {
      assert [e][1..] == [] && events + [e] == [e];
      assert Run(Apply(s, e), []) == Apply(s, e);
    } else {
      assert (events + [e])[1..] == events[1..] + [e];
      RunSnoc(Apply(s, events[0]), events[1..], e);
    }
  }

  /** The counter starts over at the last reject. */
  lemma {:induction false} RejectedWhenTold(events: seq<Event>)
    ensures Run(Init(), events).rejectedAt == TrackedBeforeReject(events)
    decreases |events|
  {
    if events != [] {
      var before, e := events[..|events| - 1], events[|events| - 1];
      assert events == before + [e];
      RunSnoc(Init(), before, e);
      RejectedWhenTold(before);
      HistoryIsTracked(Init(), before);
      assert [] + Tracked(before) == Tracked(before);
    }
  }

  function Tracked(events: seq<Event>): seq<int> {
    if events == [] then []
    else (if events[0].Track? then [events[0].score] else []) + Tracked(events[1..])
  }

  /** The monitor over its persisted state. */
  class Metis {
    var window: seq<int>
    var consecutive: nat
    var stable: bool
    ghost var history: seq<int>
    ghost var rejectedAt: nat

    constructor ()
      ensures View() == Init()
    {
      window, consecutive, stable := [], 0, false;
      history, rejectedAt := [], 0;
    }

    ghost function View(): State
      reads this
    {
      State(window, consecutive, stable, history, rejectedAt)
    }

    /** `score_and_track`, from the score on. */
    method Observe(score: int) returns (announces: bool)
      requires Inv(View())
      modifies this
      ensures View() == Apply(old(View()), Track(score)) && Inv(View())
      ensures announces == Announces(View())
    {
      EventKeeps(View(), Track(score));
      window := LastN(window + [score], WINDOW_SIZE);
      history := history + [score];
      var sum := SumOf(window);
      if sum >= THRESHOLD * |window| {
        consecutive := consecutive + 1;
      } else {
        consecutive := 0;
      }
      announces := !stable && consecutive >= CONSECUTIVE_REQUIRED;
    }

    method SumOf(scores: seq<int>) returns (sum: int)
      ensures sum == Sum(scores)
    {
      sum := 0;
      for i := 0 to |scores|
        invariant sum + Sum(scores[i..]) == Sum(scores)
      {
        assert scores[i..][1..] == scores[i + 1..];
        sum := sum + scores[i];
      }
      assert scores[|scores|..] == [];
    }

    method ConfirmStable()
      modifies this
      ensures View() == Apply(old(View()), Confirm)
    {
      stable := true;
    }

    /** `reject_stable` also raises the round limit, to more than it was and at least by a fifth. */
    method RejectStable(current: int) returns (newMax: int)
      requires Inv(View()) && current >= 0
      modifies this
      ensures View() == Apply(old(View()), Reject) && Inv(View())
      ensures newMax > current && 5 * newMax > 6 * current - 5 && (5 * newMax <= 6 * current || newMax == current + 1)
    {
      EventKeeps(View(), Reject);
      consecutive, rejectedAt := 0, |history|;
      var raised := 6 * current / 5;
      newMax := if current + 1 > raised then current + 1 else raised;
    }
  }
}
