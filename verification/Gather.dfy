/**
 * Running agents concurrently under a semaphore and collecting their answers: for every schedule of
 * the tasks, and whatever becomes of each agent.
 */
module Gather {
  import opened Sequences

  /**
   * What becomes of one agent. There is no answer when the progress callback raises, which is called
   * outside the `try`, or when the agent is cancelled, which `except Exception` does not catch.
   */
  datatype Outcome = NotFound | Answered(text: string) | TimedOut(seconds: string) | Erred | Escaped

  datatype Task = Queued | Active | Ended(outcome: Outcome)

  /** `permits` is the semaphore's counter; the tasks stand in request order. */
  datatype Room = Room(tasks: seq<Task>, permits: int)

  datatype Step = Acquire(task: nat) | End(task: nat, outcome: Outcome)

  /** `max(1, max_parallel_agents)` */
  function Capacity(maxParallel: int): nat {
    if maxParallel > 1 then maxParallel else 1
  }

  function Init(n: nat, maxParallel: int): Room {
    Room(seq(n, _ => Queued), Capacity(maxParallel))
  }

  /** A task enters the semaphore when there is a permit, and gives it back when it ends. */
  function Next(r: Room, step: Step): Option<Room> {
    match step
    case Acquire(i) =>
      if i < |r.tasks| && r.tasks[i].Queued? && r.permits > 0
      then Some(Room(r.tasks[i := Active], r.permits - 1)) else None
    case End(i, outcome) =>
      if i < |r.tasks| && r.tasks[i].Active?
      then Some(Room(r.tasks[i := Ended(outcome)], r.permits + 1)) else None
  }

  function Run(r: Room, steps: seq<Step>): Option<Room>
    decreases |steps|
  {
    if steps == [] then Some(r)
    else
      var t := Next(r, steps[0]);
      if t.None? then None else Run(t.value, steps[1..])
  }

  function ActiveCount(tasks: seq<Task>): nat {
    if tasks == [] then 0 else (if tasks[0].Active? then 1 else 0) + ActiveCount(tasks[1..])
  }

  /** Steps the tasks still have to make: two when queued, one when active. */
  function StepsLeft(tasks: seq<Task>): nat {
    if tasks == [] then 0
    else (if tasks[0].Queued? then 2 else if tasks[0].Active? then 1 else 0) + StepsLeft(tasks[1..])
  }

  lemma {:induction false} CountsAfter(tasks: seq<Task>, i: nat, t: Task)
    requires i < |tasks|
    ensures ActiveCount(tasks[i := t]) ==
      ActiveCount(tasks) - (if tasks[i].Active? then 1 else 0) + (if t.Active? then 1 else 0)
    ensures StepsLeft(tasks[i := t]) == StepsLeft(tasks)
      - (if tasks[i].Queued? then 2 else if tasks[i].Active? then 1 else 0)
      + (if t.Queued? then 2 else if t.Active? then 1 else 0)
  {
    if i == 0 {
      assert tasks[0 := t][1..] == tasks[1..];
    } else {
      assert tasks[i := t][1..] == tasks[1..][i - 1 := t];
      CountsAfter(tasks[1..], i - 1, t);
    }
  }

  lemma {:induction false} InitCounts(n: nat)
    ensures ActiveCount(seq(n, _ => Queued)) == 0 && StepsLeft(seq(n, _ => Queued)) == 2 * n
  {
    var tasks: seq<Task> := seq(n, _ => Queued);
    if n > 0 {
      var rest: seq<Task> := seq(n - 1, _ => Queued);
      assert tasks[1..] == rest;
      InitCounts(n - 1);
    }
  }

  /** Permits and active tasks add up along a run, and every step is one step less to go. */
  lemma {:induction false} RunCounts(r: Room, steps: seq<Step>)
    requires r.permits >= 0 && Run(r, steps).Some?
    ensures var t := Run(r, steps).value;
            && t.permits >= 0 && |t.tasks| == |r.tasks|
            && t.permits + ActiveCount(t.tasks) == r.permits + ActiveCount(r.tasks)
            && StepsLeft(t.tasks) + |steps| == StepsLeft(r.tasks)
    decreases |steps|
  {
    if steps != [] {
      match steps[0] {
        case Acquire(i) => CountsAfter(r.tasks, i, Active);
        case End(i, outcome) => CountsAfter(r.tasks, i, Ended(outcome));
      }
      RunCounts(Next(r, steps[0]).value, steps[1..]);
    }
  }

  ghost predicate Complete(r: Room) {
    forall i :: 0 <= i < |r.tasks| ==> r.tasks[i].Ended?
  }

  lemma {:induction false} StepsLeftZeroIff(tasks: seq<Task>)
    ensures StepsLeft(tasks) == 0 <==> forall i :: 0 <= i < |tasks| ==> tasks[i].Ended?
  {
    if tasks != [] {
      StepsLeftZeroIff(tasks[1..]);
      assert forall i :: 1 <= i < |tasks| ==> tasks[i] == tasks[1..][i - 1];
    }
  }

  /** In every schedule at most `max(1, max_parallel)` agents run at once. */
  lemma ParallelismIsBounded(n: nat, maxParallel: int, steps: seq<Step>)
    requires Run(Init(n, maxParallel), steps).Some?
    ensures ActiveCount(Run(Init(n, maxParallel), steps).value.tasks) <= (if maxParallel >= 1 then maxParallel else 1)
  {
    InitCounts(n);
    RunCounts(Init(n, maxParallel), steps);
  }

  /** The first `k` tasks have entered. */
  function Entered(n: nat, maxParallel: int, k: nat): Room {
    Room(seq(n, i => if i < k then Active else Queued), Capacity(maxParallel) - k)
  }

  lemma {:induction false} EnterFirst(n: nat, maxParallel: int, k: nat, more: nat) returns (steps: seq<Step>)
    requires k + more <= n && k + more <= Capacity(maxParallel)
    ensures Run(Entered(n, maxParallel, k), steps) == Some(Entered(n, maxParallel, k + more))
    decreases more
  {
    steps := [];
    if more > 0 {
      var rest := EnterFirst(n, maxParallel, k + 1, more - 1);
      steps := [Acquire(k)] + rest;
      var s := Entered(n, maxParallel, k);
      assert s.tasks[k := Active] == Entered(n, maxParallel, k + 1).tasks;
      assert steps[1..] == rest;
    }
  }

  lemma {:induction false} EnteredCount(n: nat, k: nat)
    requires k <= n
    ensures ActiveCount(seq(n, i => if i < k then Active else Queued)) == k
  {
    var tasks: seq<Task> := seq(n, i => if i < k then Active else Queued);
    if n > 0 {
      var k' := if k == 0 then 0 else k - 1;
      var rest: seq<Task> := seq(n - 1, i => if i < k' then Active else Queued);
      assert tasks[1..] == rest;
      EnteredCount(n - 1, k');
    }
  }

  /** And that many do run at once in some schedule, when there are that many. */
  lemma ParallelismIsReached(n: nat, maxParallel: int) returns (steps: seq<Step>)
    requires n >= (if maxParallel >= 1 then maxParallel else 1)
    ensures Run(Init(n, maxParallel), steps).Some?
    ensures ActiveCount(Run(Init(n, maxParallel), steps).value.tasks) == (if maxParallel >= 1 then maxParallel else 1)
  {
    assert Init(n, maxParallel) == Entered(n, maxParallel, 0);
    steps := EnterFirst(n, maxParallel, 0, Capacity(maxParallel));
    EnteredCount(n, Capacity(maxParallel));
  }

  lemma {:induction false} SomeActive(tasks: seq<Task>) returns (i: nat)
    requires ActiveCount(tasks) > 0
    ensures i < |tasks| && tasks[i].Active?
  {
    if tasks[0].Active? {
      i := 0;
    } else {
      var j := SomeActive(tasks[1..]);
      i := j + 1;
    }
  }

  /** While a task is left, some task can move: one that runs can end, or one that waits can enter. */
  lemma SomeTaskCanMove(r: Room) returns (step: Step)
    requires r.permits >= 0 && r.permits + ActiveCount(r.tasks) >= 1 && !Complete(r)
    ensures Next(r, step).Some?
  {
    if ActiveCount(r.tasks) > 0 {
      var i := SomeActive(r.tasks);
      step := End(i, NotFound);
    } else {
      var i :| 0 <= i < |r.tasks| && !r.tasks[i].Ended?;
      CountsAfter(r.tasks, i, Queued);
      step := Acquire(i);
    }
  }

  /** No schedule gets stuck, and a schedule is complete exactly after two steps for each agent. */
  lemma {:induction false} GatherEnds(n: nat, maxParallel: int, steps: seq<Step>)
    requires Run(Init(n, maxParallel), steps).Some?
    ensures var r := Run(Init(n, maxParallel), steps).value;
            && |steps| <= 2 * n
            && (Complete(r) <==> |steps| == 2 * n)
            && (!Complete(r) ==> exists step :: Next(r, step).Some?)
  {
    var r := Run(Init(n, maxParallel), steps).value;
    InitCounts(n);
    RunCounts(Init(n, maxParallel), steps);
    StepsLeftZeroIff(r.tasks);
    if !Complete(r) {
      var step := SomeTaskCanMove(r);
    }
  }

  /** Every task that ends in the schedule ends as `fate` says. */
  predicate Follows(steps: seq<Step>, fate: nat -> Outcome) {
    forall i :: 0 <= i < |steps| && steps[i].End? ==> steps[i].outcome == fate(steps[i].task)
  }

  ghost predicate EndedAsFated(tasks: seq<Task>, fate: nat -> Outcome) {
    forall i :: 0 <= i < |tasks| && tasks[i].Ended? ==> tasks[i].outcome == fate(i)
  }

  lemma {:induction false} FatesHold(r: Room, steps: seq<Step>, fate: nat -> Outcome)
    requires EndedAsFated(r.tasks, fate) && Follows(steps, fate) && Run(r, steps).Some?
    ensures EndedAsFated(Run(r, steps).value.tasks, fate)
    decreases |steps|
  {
    if steps != [] {
      assert forall i :: 0 <= i < |steps[1..]| ==> steps[1..][i] == steps[i + 1];
      FatesHold(Next(r, steps[0]).value, steps[1..], fate);
    }
  }

  // ---- Collecting ----------------------------------------------------------------------------

  datatype Entry = Entry(name: string, response: string)

  function Response(name: string, o: Outcome): string {
    match o
    case Answered(text) => text
    case NotFound => "(Agent '" + name + "' not found)"
    case TimedOut(seconds) => "(Agent '" + name + "' timed out after " + seconds + "s)"
    case _ => "(Agent '" + name + "' encountered an error)"
  }

  /** `responses[name] = response` on a dict in insertion order. */
  function Put(d: seq<Entry>, e: Entry): seq<Entry> {
    if d == [] then [e]
    else if d[0].name == e.name then [e] + d[1..]
    else [d[0]] + Put(d[1..], e)
  }

  /** The specification: one entry for each name in request order, agents without an answer left out. */
  function Expected(names: seq<string>, fate: nat -> Outcome, from_: nat): seq<Entry>
    decreases |names|
  {
    if names == [] then []
    else
      (if fate(from_).Escaped? then [] else [Entry(names[0], Response(names[0], fate(from_)))])
      + Expected(names[1..], fate, from_ + 1)
  }

  lemma {:induction false} PutNew(d: seq<Entry>, e: Entry)
    requires forall i :: 0 <= i < |d| ==> d[i].name != e.name
    ensures Put(d, e) == d + [e]
  {
    if d != [] {
      PutNew(d[1..], e);
      assert d == [d[0]] + d[1..];
    }
  }

  ghost predicate DistinctNames(d: seq<Entry>) {
    forall i, j :: 0 <= i < j < |d| ==> d[i].name != d[j].name
  }

  /** Setting a key leaves the other entries alone. */
  lemma {:induction false} PutSets(d: seq<Entry>, e: Entry)
    requires DistinctNames(d)
    ensures DistinctNames(Put(d, e)) && e in Put(d, e)
    ensures forall x :: x in Put(d, e) ==> x == e || (x in d && x.name != e.name)
    ensures forall x :: x in d && x.name != e.name ==> x in Put(d, e)
  {
    if d != [] {
      var rest := d[1..];
      assert d == [d[0]] + rest;
      assert forall i :: 0 <= i < |rest| ==> rest[i] == d[i + 1];
      if d[0].name != e.name {
        PutSets(rest, e);
        PutCons(d[0], Put(rest, e), e, rest);
      }
    }
  }

  lemma PutCons(first: Entry, after: seq<Entry>, e: Entry, rest: seq<Entry>)
    requires DistinctNames([first] + rest) && DistinctNames(after) && first.name != e.name
    requires forall x :: x in after ==> x == e || x in rest
    ensures DistinctNames([first] + after)
  {
    var all := [first] + rest;
    forall x | x in rest
      ensures x.name != first.name
    {
      var j :| 0 <= j < |rest| && rest[j] == x;
      assert all[0] == first && all[j + 1] == x;
    }
  }

  /** `e` is what the last of the first `n` results for its name says. */
  ghost predicate IsLast(e: Entry, j: nat, n: nat, names: seq<string>, fate: nat -> Outcome)
    requires n <= |names|
  {
    && j < n && names[j] == e.name && !fate(j).Escaped? && e.response == Response(names[j], fate(j))
    && forall m :: j < m < n && names[m] == e.name ==> fate(m).Escaped?
  }

  ghost predicate HasLast(e: Entry, n: nat, names: seq<string>, fate: nat -> Outcome)
    requires n <= |names|
  {
    exists j :: IsLast(e, j, n, names, fate)
  }

  ghost predicate HasName(d: seq<Entry>, name: string) {
    exists e :: e in d && e.name == name
  }

  /** Duplicate names included: each answered name once, with its last answer. */
  ghost predicate LastAnswers(d: seq<Entry>, n: nat, names: seq<string>, fate: nat -> Outcome) {
    && n <= |names| && DistinctNames(d)
    && (forall e :: e in d ==> HasLast(e, n, names, fate))
    && (forall j :: 0 <= j < n && !fate(j).Escaped? ==> HasName(d, names[j]))
  }

  lemma StaysLast(e: Entry, n: nat, names: seq<string>, fate: nat -> Outcome)
    requires n < |names| && HasLast(e, n, names, fate) && (e.name != names[n] || fate(n).Escaped?)
    ensures HasLast(e, n + 1, names, fate)
  {
    var j :| IsLast(e, j, n, names, fate);
    assert IsLast(e, j, n + 1, names, fate);
  }

  lemma SkipKeepsLast(d: seq<Entry>, n: nat, names: seq<string>, fate: nat -> Outcome)
    requires LastAnswers(d, n, names, fate) && n < |names| && fate(n).Escaped?
    ensures LastAnswers(d, n + 1, names, fate)
  {
    forall e | e in d
      ensures HasLast(e, n + 1, names, fate)
    {
      StaysLast(e, n, names, fate);
    }
  }

  lemma PutKeepsName(d: seq<Entry>, e: Entry, name: string)
    requires DistinctNames(d) && (name == e.name || HasName(d, name))
    ensures HasName(Put(d, e), name)
  {
    PutSets(d, e);
    if name != e.name {
      var x :| x in d && x.name == name;
      assert x in Put(d, e);
    } else {
      assert e in Put(d, e);
    }
  }

  lemma PutIsLast(d: seq<Entry>, n: nat, names: seq<string>, fate: nat -> Outcome, e: Entry, x: Entry)
    requires LastAnswers(d, n, names, fate) && n < |names| && !fate(n).Escaped?
    requires e == Entry(names[n], Response(names[n], fate(n))) && (x == e || (x in d && x.name != e.name))
    ensures HasLast(x, n + 1, names, fate)
  {
    if x == e {
      assert IsLast(e, n, n + 1, names, fate);
    } else {
      StaysLast(x, n, names, fate);
    }
  }

  lemma PutKeepsLast(d: seq<Entry>, n: nat, names: seq<string>, fate: nat -> Outcome, e: Entry)
    requires LastAnswers(d, n, names, fate) && n < |names| && !fate(n).Escaped?
    requires e == Entry(names[n], Response(names[n], fate(n)))
    ensures LastAnswers(Put(d, e), n + 1, names, fate)
  {
    PutSets(d, e);
    forall x | x in Put(d, e)
      ensures HasLast(x, n + 1, names, fate)
    {
      PutIsLast(d, n, names, fate, e, x);
    }
    forall j | 0 <= j < n + 1 && !fate(j).Escaped?
      ensures HasName(Put(d, e), names[j])
    {
      PutKeepsName(d, e, names[j]);
    }
  }

  /** The names of the map are among the first `i` requested. */
  ghost predicate NamesBefore(d: seq<Entry>, i: nat, names: seq<string>) {
    i <= |names| && forall k :: 0 <= k < |d| ==> exists j :: 0 <= j < i && names[j] == d[k].name
  }

  lemma {:induction false} NextIsNew(d: seq<Entry>, i: nat, names: seq<string>)
    requires NamesBefore(d, i, names) && i < |names| && NoDuplicates(names)
    ensures forall k :: 0 <= k < |d| ==> d[k].name != names[i]
  {
  }

  lemma {:induction false} NamesStep(d: seq<Entry>, i: nat, names: seq<string>, e: Entry)
    requires NamesBefore(d, i, names) && i < |names| && e.name == names[i]
    ensures NamesBefore(d, i + 1, names) && NamesBefore(d + [e], i + 1, names)
  {
    forall k | 0 <= k < |d + [e]|
      ensures exists j :: 0 <= j < i + 1 && names[j] == (d + [e])[k].name
    {
      if k < |d| {
        assert (d + [e])[k] == d[k];
        var j :| 0 <= j < i && names[j] == d[k].name;
      } else {
        assert names[i] == (d + [e])[k].name;
      }
    }
    assert forall k :: 0 <= k < |d| ==> d[k] == (d + [e])[k];
  }

  /** What the first result of the rest adds. */
  lemma {:induction false} ExpectedStep(d: seq<Entry>, names: seq<string>, fate: nat -> Outcome, from_: nat)
    requires names != []
    ensures var e := Entry(names[0], Response(names[0], fate(from_)));
            d + Expected(names, fate, from_)
            == (if fate(from_).Escaped? then d else d + [e]) + Expected(names[1..], fate, from_ + 1)
  {
    var rest := Expected(names[1..], fate, from_ + 1);
    if fate(from_).Escaped? {
      assert [] + rest == rest;
    } else {
      var e := Entry(names[0], Response(names[0], fate(from_)));
      assert (d + [e]) + rest == d + ([e] + rest);
    }
  }

  /** For distinct names: the first `i` results are in, and the others will add what is expected. */
  ghost predicate InOrder(d: seq<Entry>, i: nat, names: seq<string>, fate: nat -> Outcome) {
    NamesBefore(d, i, names) && d + Expected(names[i..], fate, i) == Expected(names, fate, 0)
  }

  lemma InOrderStep(d: seq<Entry>, i: nat, names: seq<string>, fate: nat -> Outcome)
    requires InOrder(d, i, names, fate) && i < |names| && NoDuplicates(names)
    ensures InOrder(if fate(i).Escaped? then d else Put(d, Entry(names[i], Response(names[i], fate(i)))),
                    i + 1, names, fate)
  {
    var e := Entry(names[i], Response(names[i], fate(i)));
    assert names[i..][1..] == names[i + 1..];
    ExpectedStep(d, names[i..], fate, i);
    NextIsNew(d, i, names);
    PutNew(d, e);
    NamesStep(d, i, names, e);
  }

  /** The loop over the gathered results; later answers to a name replace earlier ones. */
  method CollectResponses(names: seq<string>, tasks: seq<Task>, ghost fate: nat -> Outcome) returns (d: seq<Entry>)
    requires |names| == |tasks| && Complete(Room(tasks, 0)) && EndedAsFated(tasks, fate)
    ensures LastAnswers(d, |names|, names, fate)
    ensures NoDuplicates(names) ==> d == Expected(names, fate, 0)
    // for distinct names: what each task's end puts under its name
    ensures NoDuplicates(names) ==> forall i :: 0 <= i < |names| ==> ReportedAs(d, names[i], tasks[i].outcome)
  {
    d := [];
    assert names[0..] == names;
    for i := 0 to |names|
      invariant LastAnswers(d, i, names, fate)
      invariant NoDuplicates(names) ==> InOrder(d, i, names, fate)
    {
      assert Room(tasks, 0).tasks[i].Ended? && tasks[i].outcome == fate(i);
      if NoDuplicates(names) {
        InOrderStep(d, i, names, fate);
      }
      if tasks[i].outcome.Escaped? {
        SkipKeepsLast(d, i, names, fate);
      } else {
        var e := Entry(names[i], Response(names[i], tasks[i].outcome));
        PutKeepsLast(d, i, names, fate, e);
        d := Put(d, e);
      }
    }
    assert names[|names|..] == [];
    assert d + [] == d;
    if NoDuplicates(names) {
      forall i | 0 <= i < |names|
        ensures ReportedAs(d, names[i], tasks[i].outcome)
      {
        assert Room(tasks, 0).tasks[i].Ended?;
        AllReported(names, fate, 0, i);
      }
    }
  }

  /** What stands under the name of an agent that ended so: its own answer, a notice, or nothing. */
  ghost predicate ReportedAs(d: seq<Entry>, name: string, o: Outcome) {
    match o
    case Answered(text) => Entry(name, text) in d
    case NotFound => Entry(name, "(Agent '" + name + "' not found)") in d
    case TimedOut(seconds) => Entry(name, "(Agent '" + name + "' timed out after " + seconds + "s)") in d
    case Erred => Entry(name, "(Agent '" + name + "' encountered an error)") in d
    case Escaped => forall e :: e in d ==> e.name != name
  }

  lemma {:induction false} ExpectedNames(names: seq<string>, fate: nat -> Outcome, from_: nat)
    ensures forall e :: e in Expected(names, fate, from_) ==> e.name in names
    decreases |names|
  {
    if names != [] {
      ExpectedNames(names[1..], fate, from_ + 1);
      assert names == [names[0]] + names[1..];
    }
  }

  lemma {:induction false} AllReported(names: seq<string>, fate: nat -> Outcome, from_: nat, i: nat)
    requires NoDuplicates(names) && i < |names|
    ensures ReportedAs(Expected(names, fate, from_), names[i], fate(from_ + i))
    decreases |names|
  {
    var rest := Expected(names[1..], fate, from_ + 1);
    assert names == [names[0]] + names[1..];
    if i > 0 {
      AllReported(names[1..], fate, from_ + 1, i - 1);
    } else {
      ExpectedNames(names[1..], fate, from_ + 1);
      assert names[0] !in names[1..];
    }
  }

  /** The agents with an answer, in request order. */
  function Answering(names: seq<string>, fate: nat -> Outcome, from_: nat): seq<string>
    decreases |names|
  {
    if names == [] then []
    else (if fate(from_).Escaped? then [] else [names[0]]) + Answering(names[1..], fate, from_ + 1)
  }

  /** The names of the map, in order. */
  lemma {:induction false} NamesInOrder(names: seq<string>, fate: nat -> Outcome, from_: nat)
    ensures var d, answering := Expected(names, fate, from_), Answering(names, fate, from_);
            |d| == |answering| && forall k :: 0 <= k < |d| ==> d[k].name == answering[k]
    decreases |names|
  {
    if names != [] {
      NamesInOrder(names[1..], fate, from_ + 1);
    }
  }

  /** When every agent has an answer, the names of the map are the requested names in request order. */
  lemma {:induction false} EveryNameOnce(names: seq<string>, fate: nat -> Outcome, from_: nat)
    requires forall i: nat :: !fate(i).Escaped?
    ensures var d := Expected(names, fate, from_);
            |d| == |names| && forall i :: 0 <= i < |names| ==>
              d[i] == Entry(names[i], Response(names[i], fate(from_ + i)))
    decreases |names|
  {
    if names != [] {
      var rest := names[1..];
      EveryNameOnce(rest, fate, from_ + 1);
      var head, tail := Entry(names[0], Response(names[0], fate(from_))), Expected(rest, fate, from_ + 1);
      assert Expected(names, fate, from_) == [head] + tail;
      forall i | 0 <= i < |names|
        ensures ([head] + tail)[i] == Entry(names[i], Response(names[i], fate(from_ + i)))
      {
        if i > 0 {
          assert names[i] == rest[i - 1] && tail[i - 1] == Entry(rest[i - 1], Response(rest[i - 1], fate(from_ + 1 + (i - 1))));
        }
      }
    }
  }

  /**
   * The answer does not depend on the schedule: two complete schedules in which every agent has the
   * same fate leave the same tasks, and so collect the same map.
   */
  lemma ScheduleDoesNotMatter(n: nat, maxParallel: int, otherParallel: int, a: seq<Step>, b: seq<Step>, fate: nat -> Outcome)
    requires Run(Init(n, maxParallel), a).Some? && Complete(Run(Init(n, maxParallel), a).value)
    requires Run(Init(n, otherParallel), b).Some? && Complete(Run(Init(n, otherParallel), b).value)
    requires Follows(a, fate) && Follows(b, fate)
    ensures Run(Init(n, maxParallel), a).value.tasks == Run(Init(n, otherParallel), b).value.tasks
  {
    FatesHold(Init(n, maxParallel), a, fate);
    FatesHold(Init(n, otherParallel), b, fate);
    RunCounts(Init(n, maxParallel), a);
    RunCounts(Init(n, otherParallel), b);
  }

  /** The tasks of one call and their semaphore, changed in place by the tasks themselves. */
  class TaskRoom {
    var tasks: seq<Task>
    var permits: int

    constructor (n: nat, maxParallel: int)
      ensures View() == Init(n, maxParallel)
    {
      tasks, permits := seq(n, _ => Queued), Capacity(maxParallel);
    }

    ghost function View(): Room
      reads this
    {
      Room(tasks, permits)
    }

    /** `async with semaphore`: waits while there is no permit. */
    method Enter(i: nat) returns (entered: bool)
      requires i < |tasks| && tasks[i].Queued?
      modifies this
      ensures entered == (old(permits) > 0)
      ensures if entered then Some(View()) == Next(old(View()), Acquire(i)) else View() == old(View())
    {
      entered := permits > 0;
      if entered {
        tasks, permits := tasks[i := Active], permits - 1;
      }
    }

    method Leave(i: nat, outcome: Outcome)
      requires i < |tasks| && tasks[i].Active?
      modifies this
      ensures Some(View()) == Next(old(View()), End(i, outcome))
    {
      tasks, permits := tasks[i := Ended(outcome)], permits + 1;
    }
  }
}
