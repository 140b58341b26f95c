/**
 * The plan-execute-replan loop: phase statuses, replanning with id allocation, concurrent calls of
 * `execute_phase`, and the autonomous loop.
 *
 * What the model does (agents, validator, LLM) appears as data: a decision for each execution and
 * an `Answer` for each replan. `uid` is the identity of a phase object; `id` is the number the
 * program compares, and two objects may share it.
 */
module PlanLoop {
  import opened Sequences

  datatype Status = Pending | Running | Completed | Failed | NeedsClarification | Replanned

  datatype Content =
    | Planned(title: string, description: string, agents: seq<string>)
    | Corrective(assertion: int)

  datatype Phase = Phase(uid: nat, id: int, status: Status, content: Content)

  datatype Decision = Continue | Replan | Clarify | Complete | Abort

  /** One element of the JSON list of a replan; `id` is there when the LLM gave an integer. */
  datatype Entry = NotDict | Dict(id: Option<int>, agentsIterable: bool, content: Content)

  /** The LLM's answer: no JSON at all, JSON that cannot be iterated, or a list. */
  datatype Answer = Unusable | NotIterable | Entries(entries: seq<Entry>)

  const MAX_REPLANS: nat := 3

  datatype Plan = Plan(
    phases: seq<Phase>, revision: nat, assertionMap: map<int, seq<int>>,
    calls: seq<nat>, nextUid: nat)

  // ---- Ids -----------------------------------------------------------------------------------

  /** `max((p.id for p in phases), default=0)` */
  function MaxId(phases: seq<Phase>): int {
    if phases == [] then 0
    else if |phases| == 1 then phases[0].id
    else
      var m := MaxId(phases[1..]);
      if phases[0].id > m then phases[0].id else m
  }

  lemma {:induction false} MaxIdBounds(phases: seq<Phase>)
    ensures forall i :: 0 <= i < |phases| ==> phases[i].id <= MaxId(phases)
  {
    if |phases| > 1 {
      MaxIdBounds(phases[1..]);
      assert forall i :: 1 <= i < |phases| ==> phases[i] == phases[1..][i - 1];
    }
  }

  ghost predicate DistinctIds(phases: seq<Phase>) {
    forall i, j :: 0 <= i < j < |phases| ==> phases[i].id != phases[j].id
  }

  ghost predicate HasId(phases: seq<Phase>, id: int) {
    exists i :: 0 <= i < |phases| && phases[i].id == id
  }

  lemma DistinctSnoc(phases: seq<Phase>, p: Phase)
    ensures DistinctIds(phases + [p]) <==> DistinctIds(phases) && !HasId(phases, p.id)
  {
    var all := phases + [p];
    assert forall i :: 0 <= i < |phases| ==> all[i] == phases[i];
    if DistinctIds(all) {
      forall i, j | 0 <= i < j < |phases|
        ensures phases[i].id != phases[j].id
      {
        assert all[i].id != all[j].id;
      }
      forall i | 0 <= i < |phases|
        ensures phases[i].id != p.id
      {
        assert all[i].id != all[|phases|].id;
      }
    }
  }

  // ---- Replanning ----------------------------------------------------------------------------

  predicate NotPending(p: Phase) {
    !p.status.Pending?
  }

  function Survivors(phases: seq<Phase>): seq<Phase> {
    Filter(phases, NotPending)
  }

  /** One corrective phase for each failed assertion, with consecutive ids from `start`. */
  function Correctives(failed: seq<int>, start: int, uid: nat): (r: seq<Phase>)
    ensures |r| == |failed|
    ensures forall k :: 0 <= k < |failed| ==>
      r[k] == Phase(uid + k, start + k, Pending, Corrective(failed[k]))
  {
    seq(|failed|, k requires 0 <= k < |failed| => Phase(uid + k, start + k, Pending, Corrective(failed[k])))
  }

  function MapCorrectives(m: map<int, seq<int>>, failed: seq<int>, start: int): map<int, seq<int>>
    decreases |failed|
  {
    if failed == [] then m
    else MapCorrectives(m[start := [failed[0]]], failed[1..], start + 1)
  }

  /** Each new id maps to its own assertion alone; the other entries stay. */
  lemma {:induction false} MapCorrectivesAt(m: map<int, seq<int>>, failed: seq<int>, start: int, id: int)
    ensures var r := MapCorrectives(m, failed, start);
            if start <= id < start + |failed| then id in r && r[id] == [failed[id - start]]
            else (id in r <==> id in m) && (id in m ==> r[id] == m[id])
    decreases |failed|
  {
    if failed != [] {
      MapCorrectivesAt(m[start := [failed[0]]], failed[1..], start + 1, id);
    }
  }

  /** The id an entry gets: the LLM's own if it gave one, else the running `next`. */
  function IdOf(e: Entry, next: int): int {
    if e.Dict? && e.id.Some? then e.id.value else next
  }

  /** Append the usable entries; an entry whose agents cannot be iterated raises in the middle. */
  function Append(phases: seq<Phase>, entries: seq<Entry>, next: int, uid: nat): (seq<Phase>, bool)
    decreases |entries|
  {
    if entries == [] then (phases, true)
    else if entries[0].NotDict? then Append(phases, entries[1..], next, uid)
    else if !entries[0].agentsIterable then (phases, false)
    else
      var id := IdOf(entries[0], next);
      Append(phases + [Phase(uid, id, Pending, entries[0].content)], entries[1..],
             if next + 1 > id + 1 then next + 1 else id + 1, uid + 1)
  }

  /** Survivors and corrective phases, before the LLM's own phases. */
  function Corrected(p: Plan, failed: seq<int>): Plan {
    var kept := Survivors(p.phases);
    var start := MaxId(kept) + 1;
    p.(phases := kept + Correctives(failed, start, p.nextUid),
       assertionMap := MapCorrectives(p.assertionMap, failed, start),
       nextUid := p.nextUid + |failed|)
  }

  /** How a replan ended. Only `Revised` counts against the limit. */
  datatype Outcome = Refused | Unchanged | BrokenOff | Revised | Raised

  /**
   * `replan`. The empty plan raises outside the handler. Once the answer has parsed, the pending
   * phases are gone and the corrective ones are in, even if what follows raises: the exception is
   * swallowed and the revision is not counted.
   */
  function DoReplan(p: Plan, failed: seq<int>, answer: Answer): (Plan, Outcome) {
    if p.revision >= MAX_REPLANS then (p, Refused)
    else if p.phases == [] then (p, Raised)
    else if answer.Unusable? then (p, Unchanged)
    else
      var c := Corrected(p, failed);
      if answer.NotIterable? then (c, BrokenOff)
      else
        var (phases, ok) := Append(c.phases, answer.entries, MaxId(c.phases) + 1, c.nextUid);
        var t := c.(phases := phases, nextUid := c.nextUid + |answer.entries|);
        if ok then (t.(revision := t.revision + 1), Revised) else (t, BrokenOff)
  }

  /** What makes a replan end so, and that it then leaves the plan as it was. */
  lemma ReplanOutcomes(p: Plan, failed: seq<int>, answer: Answer)
    ensures var (t, outcome) := DoReplan(p, failed, answer);
            && (outcome.Refused? <==> p.revision >= 3)
            && (outcome.Raised? <==> p.revision < 3 && p.phases == [])
            && (outcome.Unchanged? <==> p.revision < 3 && p.phases != [] && answer.Unusable?)
            && (outcome.Refused? || outcome.Raised? || outcome.Unchanged? ==> t == p)
            && (outcome.Revised? ==> t.revision == p.revision + 1)
  {
  }

  /** The entries that become phases: the dicts, up to one whose agents cannot be iterated. */
  function Usable(entries: seq<Entry>): seq<Entry>
    decreases |entries|
  {
    if entries == [] then []
    else if entries[0].NotDict? then Usable(entries[1..])
    else if !entries[0].agentsIterable then []
    else [entries[0]] + Usable(entries[1..])
  }

  /** Appended to `before` for the entry `e`: pending, with its content, and its id or a new one. */
  ghost predicate IsPhaseOf(e: Entry, phase: Phase, before: seq<Phase>) {
    && e.Dict? && phase.status.Pending? && phase.content == e.content
    && (e.id.Some? ==> phase.id == e.id.value)
    && (e.id.None? ==> forall i :: 0 <= i < |before| ==> before[i].id < phase.id)
  }

  /** Every usable entry becomes a phase, in order. */
  ghost predicate Adds(before: seq<Phase>, usable: seq<Entry>, after: seq<Phase>) {
    && |after| == |before| + |usable| && after[..|before|] == before
    && forall j :: 0 <= j < |usable| ==> IsPhaseOf(usable[j], after[|before| + j], after[..|before| + j])
  }

  lemma AddsFirst(before: seq<Phase>, e: Entry, phase: Phase, usable: seq<Entry>, after: seq<Phase>)
    requires IsPhaseOf(e, phase, before) && Adds(before + [phase], usable, after)
    ensures Adds(before, [e] + usable, after)
  {
    var n := |before|;
    SliceOfPrefix(after, n + 1, 0, n);
    assert after[..n] == before && after[n] == after[..n + 1][n] == phase;
    forall j | 0 <= j < |usable| + 1
      ensures IsPhaseOf(([e] + usable)[j], after[n + j], after[..n + j])
    {
      if j > 0 {
        assert IsPhaseOf(usable[j - 1], after[n + 1 + (j - 1)], after[..n + 1 + (j - 1)]);
      }
    }
  }

  lemma {:induction false} AppendAdds(phases: seq<Phase>, entries: seq<Entry>, next: int, uid: nat)
    requires forall i :: 0 <= i < |phases| ==> phases[i].id < next
    ensures Adds(phases, Usable(entries), Append(phases, entries, next, uid).0)
    decreases |entries|
  {
    if entries != [] {
      if entries[0].NotDict? {
        AppendAdds(phases, entries[1..], next, uid);
      } else if entries[0].agentsIterable {
        var id := IdOf(entries[0], next);
        var phase := Phase(uid, id, Pending, entries[0].content);
        AppendAdds(phases + [phase], entries[1..], if next + 1 > id + 1 then next + 1 else id + 1, uid + 1);
        AddsFirst(phases, entries[0], phase, Usable(entries[1..]), Append(phases, entries, next, uid).0);
      }
    }
  }

  /** The largest id of the phases, zero for none. */
  lemma {:induction false} MaxIdIs(phases: seq<Phase>)
    ensures if phases == [] then MaxId(phases) == 0 else HasId(phases, MaxId(phases))
    ensures forall i :: 0 <= i < |phases| ==> phases[i].id <= MaxId(phases)
  {
    MaxIdBounds(phases);
    if |phases| > 1 {
      MaxIdIs(phases[1..]);
      var i :| 0 <= i < |phases[1..]| && phases[1..][i].id == MaxId(phases[1..]);
      assert phases[i + 1].id == MaxId(phases[1..]);
    }
    if phases != [] {
      assert phases[0].id <= MaxId(phases);
    }
  }

  /** How many phases have left PENDING. */
  function LeftPending(phases: seq<Phase>): nat {
    if phases == [] then 0 else (if phases[0].status.Pending? then 0 else 1) + LeftPending(phases[1..])
  }

  lemma {:induction false} SurvivorsCount(phases: seq<Phase>)
    ensures |Survivors(phases)| == LeftPending(phases)
  {
    if phases != [] {
      SurvivorsCount(phases[1..]);
    }
  }

  /** The survivors are the phases that have left PENDING, each at its rank. */
  lemma {:induction false} SurvivorsAt(phases: seq<Phase>, i: nat)
    requires i < |phases| && !phases[i].status.Pending?
    ensures LeftPending(phases[..i]) < |Survivors(phases)| && Survivors(phases)[LeftPending(phases[..i])] == phases[i]
  {
    if i > 0 {
      SurvivorsAt(phases[1..], i - 1);
      assert phases[..i][0] == phases[0] && phases[..i][1..] == phases[1..][..i - 1];
    }
  }

  /**
   * What a replan that got as far as its answer makes of the phases: those that have left PENDING
   * first, in order; a corrective phase for each failed assertion; and one phase for each usable entry
   * of the answer.
   */
  lemma ReplanAdds(p: Plan, failed: seq<int>, answer: Answer, i: nat)
    requires DoReplan(p, failed, answer).1.Revised? || DoReplan(p, failed, answer).1.BrokenOff?
    requires i < |p.phases|
    ensures var t := DoReplan(p, failed, answer).0;
            var n := LeftPending(p.phases) + |failed|;
            && !(answer.Entries? && Usable(answer.entries) != []) ==> |t.phases| == n
    ensures var t := DoReplan(p, failed, answer).0;
            !p.phases[i].status.Pending? ==>
              LeftPending(p.phases[..i]) < |t.phases| && t.phases[LeftPending(p.phases[..i])] == p.phases[i]
    ensures var t := DoReplan(p, failed, answer).0;
            var n := LeftPending(p.phases) + |failed|;
            answer.Entries? ==> n <= |t.phases| && Adds(t.phases[..n], Usable(answer.entries), t.phases)
  {
    var t, c := DoReplan(p, failed, answer).0, Corrected(p, failed);
    SurvivorsCount(p.phases);
    MaxIdBounds(c.phases);
    if answer.Entries? {
      AppendAdds(c.phases, answer.entries, MaxId(c.phases) + 1, c.nextUid);
      assert t.phases[..|c.phases|] == c.phases;
    }
    if !p.phases[i].status.Pending? {
      var k := LeftPending(p.phases[..i]);
      SurvivorsAt(p.phases, i);
      assert c.phases[k] == p.phases[i];
      assert answer.Entries? ==> t.phases[k] == t.phases[..|c.phases|][k];
    }
  }

  /** Appending gets through exactly when the agents of every dict can be iterated. */
  lemma {:induction false} AppendOkIff(phases: seq<Phase>, entries: seq<Entry>, next: int, uid: nat)
    ensures Append(phases, entries, next, uid).1 <==>
      forall i :: 0 <= i < |entries| && entries[i].Dict? ==> entries[i].agentsIterable
    decreases |entries|
  {
    if entries != [] {
      var rest := entries[1..];
      assert forall i :: 0 <= i < |rest| ==> rest[i] == entries[i + 1];
      assert forall i :: 1 <= i < |entries| ==> entries[i] == rest[i - 1];
      if entries[0].NotDict? {
        AppendOkIff(phases, rest, next, uid);
      } else if entries[0].agentsIterable {
        var id := IdOf(entries[0], next);
        AppendOkIff(phases + [Phase(uid, id, Pending, entries[0].content)], rest,
                    if next + 1 > id + 1 then next + 1 else id + 1, uid + 1);
      }
    }
  }

  /** An answer that raises after it has parsed: it is no list, or a dict in it has no list of agents. */
  predicate Breaks(answer: Answer) {
    || answer.NotIterable?
    || (answer.Entries? && exists i :: 0 <= i < |answer.entries| && answer.entries[i].Dict? && !answer.entries[i].agentsIterable)
  }

  /** When a replan breaks off, and so escapes the count. */
  lemma BreaksOffIff(p: Plan, failed: seq<int>, answer: Answer)
    ensures DoReplan(p, failed, answer).1.BrokenOff? <==>
      p.revision < MAX_REPLANS && p.phases != [] && Breaks(answer)
  {
    var c := Corrected(p, failed);
    if answer.Entries? {
      AppendOkIff(c.phases, answer.entries, MaxId(c.phases) + 1, c.nextUid);
    }
  }

  /** Everything appended is pending and comes after what was there. */
  lemma {:induction false} AppendExtends(phases: seq<Phase>, entries: seq<Entry>, next: int, uid: nat)
    ensures var r := Append(phases, entries, next, uid).0;
            && |phases| <= |r| <= |phases| + |entries| && r[..|phases|] == phases
            && (forall i :: |phases| <= i < |r| ==> r[i].status.Pending? && uid <= r[i].uid < uid + |entries|)
            && (forall i, j :: |phases| <= i < j < |r| ==> r[i].uid < r[j].uid)
    decreases |entries|
  {
    if entries != [] {
      if entries[0].NotDict? {
        AppendExtends(phases, entries[1..], next, uid);
      } else if entries[0].agentsIterable {
        var id := IdOf(entries[0], next);
        var more := phases + [Phase(uid, id, Pending, entries[0].content)];
        AppendExtends(more, entries[1..], if next + 1 > id + 1 then next + 1 else id + 1, uid + 1);
        var r := Append(phases, entries, next, uid).0;
        assert r[..|phases|] == r[..|more|][..|phases|] == phases;
        assert r[|phases|] == r[..|more|][|phases|] == more[|phases|];
      }
    }
  }

  /** No entry brings an id that is taken when its turn comes. */
  ghost predicate NoClash(phases: seq<Phase>, entries: seq<Entry>, next: int, uid: nat)
    decreases |entries|
  {
    entries == [] ||
    (if entries[0].NotDict? then NoClash(phases, entries[1..], next, uid)
     else if !entries[0].agentsIterable then true
     else
       var id := IdOf(entries[0], next);
       && (entries[0].id.Some? ==> !HasId(phases, id))
       && NoClash(phases + [Phase(uid, id, Pending, entries[0].content)], entries[1..],
                  if next + 1 > id + 1 then next + 1 else id + 1, uid + 1))
  }

  /** An LLM that gives no integer ids clashes with nothing. */
  lemma {:induction false} NoIdsNoClash(phases: seq<Phase>, entries: seq<Entry>, next: int, uid: nat)
    requires forall i :: 0 <= i < |entries| && entries[i].Dict? ==> entries[i].id.None?
    ensures NoClash(phases, entries, next, uid)
    decreases |entries|
  {
    if entries != [] {
      var rest := entries[1..];
      assert forall i :: 0 <= i < |rest| ==> rest[i] == entries[i + 1];
      if entries[0].NotDict? {
        NoIdsNoClash(phases, rest, next, uid);
      } else if entries[0].agentsIterable {
        NoIdsNoClash(phases + [Phase(uid, next, Pending, entries[0].content)], rest, next + 1, uid + 1);
      }
    }
  }

  /**
   * The running `next` stays above every id, so the ids the program chooses are always new: the
   * result has distinct ids exactly when the phases had, and no id given by the LLM was taken.
   */
  lemma {:induction false} AppendDistinctIff(phases: seq<Phase>, entries: seq<Entry>, next: int, uid: nat)
    requires forall i :: 0 <= i < |phases| ==> phases[i].id < next
    ensures var r := Append(phases, entries, next, uid).0;
            DistinctIds(r) <==> DistinctIds(phases) && NoClash(phases, entries, next, uid)
    decreases |entries|
  {
    if entries != [] {
      if entries[0].NotDict? {
        AppendDistinctIff(phases, entries[1..], next, uid);
      } else if entries[0].agentsIterable {
        var id := IdOf(entries[0], next);
        var p := Phase(uid, id, Pending, entries[0].content);
        var after := if next + 1 > id + 1 then next + 1 else id + 1;
        DistinctSnoc(phases, p);
        AppendDistinctIff(phases + [p], entries[1..], after, uid + 1);
      }
    }
  }

  /** The first `n` elements of distinct ids are distinct. */
  lemma {:induction false} SurvivorsDistinct(phases: seq<Phase>)
    requires DistinctIds(phases)
    ensures DistinctIds(Survivors(phases))
    ensures forall id :: HasId(Survivors(phases), id) ==> HasId(phases, id)
  {
    if phases != [] {
      var rest := phases[1..];
      assert forall i :: 0 <= i < |rest| ==> rest[i] == phases[i + 1];
      SurvivorsDistinct(rest);
      var s := Survivors(rest);
      forall i | 0 <= i < |s|
        ensures s[i].id != phases[0].id
      {
        assert HasId(s, s[i].id);
        var j :| 0 <= j < |rest| && rest[j].id == s[i].id;
        assert phases[j + 1].id == s[i].id;
      }
      forall id | HasId(Survivors(phases), id)
        ensures HasId(phases, id)
      {
        var i :| 0 <= i < |Survivors(phases)| && Survivors(phases)[i].id == id;
        if id != phases[0].id {
          assert HasId(Survivors(rest), id);
          var j :| 0 <= j < |rest| && rest[j].id == id;
          assert phases[j + 1].id == id;
        }
      }
    }
  }

  lemma CorrectivesDistinct(kept: seq<Phase>, failed: seq<int>, start: int, uid: nat)
    requires forall i :: 0 <= i < |kept| ==> kept[i].id < start
    ensures DistinctIds(kept + Correctives(failed, start, uid)) <==> DistinctIds(kept)
    ensures forall i :: 0 <= i < |kept + Correctives(failed, start, uid)| ==>
      (kept + Correctives(failed, start, uid))[i].id < start + |failed|
  {
    var all := kept + Correctives(failed, start, uid);
    if DistinctIds(all) {
      forall i, j | 0 <= i < j < |kept|
        ensures kept[i].id != kept[j].id
      {
        assert all[i].id != all[j].id;
      }
    }
  }

  /** What the corrective step leaves, and the same seen through anything appended to it. */
  ghost predicate KeptAndCorrected(p: Plan, failed: seq<int>, t: Plan) {
    var kept, start := Survivors(p.phases), MaxId(Survivors(p.phases)) + 1;
    && |t.phases| >= |kept| + |failed| && t.phases[..|kept|] == kept
    && t.phases[|kept|..|kept| + |failed|] == Correctives(failed, start, p.nextUid)
    && t.assertionMap == MapCorrectives(p.assertionMap, failed, start)
    && (forall i :: |kept| <= i < |t.phases| ==> t.phases[i].status.Pending?)
  }

  lemma AppendedKeeps(p: Plan, failed: seq<int>, c: Plan, t: Plan)
    requires KeptAndCorrected(p, failed, c) && t.assertionMap == c.assertionMap
    requires |c.phases| <= |t.phases| && t.phases[..|c.phases|] == c.phases
    requires forall i :: |c.phases| <= i < |t.phases| ==> t.phases[i].status.Pending?
    ensures KeptAndCorrected(p, failed, t)
  {
    var n := |Survivors(p.phases)|;
    var cs := c.phases;
    SliceOfPrefix(t.phases, |cs|, 0, n);
    SliceOfPrefix(t.phases, |cs|, n, n + |failed|);
    forall i | n <= i < |cs|
      ensures t.phases[i].status.Pending?
    {
      assert t.phases[i] == t.phases[..|cs|][i] == cs[i];
    }
  }

  /**
   * A replan keeps every phase that had left PENDING, unchanged and in order, as a prefix; gives
   * each failed assertion one corrective phase with the next free id, above every survivor's; and
   * everything after the prefix is pending. Only a completed replan is counted.
   */
  lemma ReplanKeepsAndCorrects(p: Plan, failed: seq<int>, answer: Answer)
    requires DoReplan(p, failed, answer).1.Revised? || DoReplan(p, failed, answer).1.BrokenOff?
    ensures var (t, outcome) := DoReplan(p, failed, answer);
            KeptAndCorrected(p, failed, t) && t.calls == p.calls
            && t.revision == p.revision + (if outcome.Revised? then 1 else 0)
  {
    var c := Corrected(p, failed);
    CorrectedKeeps(p, failed);
    if answer.Entries? {
      AppendExtends(c.phases, answer.entries, MaxId(c.phases) + 1, c.nextUid);
      AppendedKeeps(p, failed, c, DoReplan(p, failed, answer).0);
    }
  }

  lemma CorrectedKeeps(p: Plan, failed: seq<int>)
    ensures KeptAndCorrected(p, failed, Corrected(p, failed))
  {
    var kept, c := Survivors(p.phases), Corrected(p, failed);
    assert c.phases[..|kept|] == kept;
    assert c.phases[|kept|..|kept| + |failed|] == Correctives(failed, MaxId(kept) + 1, p.nextUid);
  }

  /** The corrective phase of the k-th failed assertion: its id is free, and maps to it alone. */
  lemma CorrectivePhaseIsMapped(p: Plan, failed: seq<int>, t: Plan, k: nat)
    requires KeptAndCorrected(p, failed, t) && k < |failed|
    ensures var kept := Survivors(p.phases);
            var id := MaxId(kept) + 1 + k;
            && t.phases[|kept| + k] == Phase(p.nextUid + k, id, Pending, Corrective(failed[k]))
            && (forall i :: 0 <= i < |kept| ==> kept[i].id < id)
            && id in t.assertionMap && t.assertionMap[id] == [failed[k]]
  {
    var kept := Survivors(p.phases);
    MaxIdBounds(kept);
    MapCorrectivesAt(p.assertionMap, failed, MaxId(kept) + 1, MaxId(kept) + 1 + k);
    assert t.phases[|kept| + k] == t.phases[|kept|..|kept| + |failed|][k];
  }

  /**
   * Ids stay distinct exactly when the surviving ids were distinct and the LLM gave no taken id.
   */
  lemma ReplanDistinctIff(p: Plan, failed: seq<int>, entries: seq<Entry>)
    requires p.revision < MAX_REPLANS && p.phases != []
    ensures var c := Corrected(p, failed);
            DistinctIds(DoReplan(p, failed, Entries(entries)).0.phases) <==>
            DistinctIds(Survivors(p.phases)) && NoClash(c.phases, entries, MaxId(c.phases) + 1, c.nextUid)
  {
    var kept, c := Survivors(p.phases), Corrected(p, failed);
    MaxIdBounds(kept);
    MaxIdBounds(c.phases);
    CorrectivesDistinct(kept, failed, MaxId(kept) + 1, p.nextUid);
    AppendDistinctIff(c.phases, entries, MaxId(c.phases) + 1, c.nextUid);
  }

  /** Without integer ids from the LLM, a plan with distinct ids keeps them. */
  lemma ReplanStaysDistinct(p: Plan, failed: seq<int>, answer: Answer)
    requires DistinctIds(p.phases)
    requires answer.Entries? ==>
      forall i :: 0 <= i < |answer.entries| && answer.entries[i].Dict? ==> answer.entries[i].id.None?
    ensures DistinctIds(DoReplan(p, failed, answer).0.phases)
  {
    var kept, c := Survivors(p.phases), Corrected(p, failed);
    SurvivorsDistinct(p.phases);
    MaxIdBounds(kept);
    MaxIdBounds(c.phases);
    CorrectivesDistinct(kept, failed, MaxId(kept) + 1, p.nextUid);
    if answer.Entries? {
      NoIdsNoClash(c.phases, answer.entries, MaxId(c.phases) + 1, c.nextUid);
      AppendDistinctIff(c.phases, answer.entries, MaxId(c.phases) + 1, c.nextUid);
    }
  }

  // ---- Concurrent executions -----------------------------------------------------------------

  function SetStatus(phases: seq<Phase>, uid: nat, status: Status): (r: seq<Phase>)
    ensures |r| == |phases|
    ensures forall i :: 0 <= i < |phases| ==>
      r[i] == if phases[i].uid == uid then phases[i].(status := status) else phases[i]
  {
    seq(|phases|, i requires 0 <= i < |phases| =>
      if phases[i].uid == uid then phases[i].(status := status) else phases[i])
  }

  /** Another phase, by id, is running. */
  ghost predicate Busy(phases: seq<Phase>, id: int) {
    exists i :: 0 <= i < |phases| && phases[i].status.Running? && phases[i].id != id
  }

  datatype Step =
    | Begin(index: nat)
    | Finish(call: nat, decision: Decision)
    | Crash(call: nat)
    | Replanning(failed: seq<int>, answer: Answer)

  function After(d: Decision): Status {
    if d.Clarify? then NeedsClarification else if d.Abort? then Running else Completed
  }

  function DropCall(calls: seq<nat>, k: nat): seq<nat>
    requires k < |calls|
  {
    calls[..k] + calls[k + 1..]
  }

  /**
   * The atomic steps between awaits. `Begin` is `execute_phase` up to its first await: refused when
   * another phase runs, otherwise the phase runs and a call is in flight. `Finish` sets the status
   * the decision asks for; `Crash` is an exception, which leaves the status alone. A replan has all
   * its effects after its await, so it is one step. `None`: not enabled.
   */
  ghost function Next(p: Plan, step: Step): Option<Plan> {
    match step
    case Begin(k) =>
      if k >= |p.phases| then None
      else if Busy(p.phases, p.phases[k].id) then Some(p)
      else Some(p.(phases := SetStatus(p.phases, p.phases[k].uid, Running), calls := p.calls + [p.phases[k].uid]))
    case Finish(k, d) =>
      if k >= |p.calls| then None
      else Some(p.(phases := if d.Abort? then p.phases else SetStatus(p.phases, p.calls[k], After(d)),
                   calls := DropCall(p.calls, k)))
    case Crash(k) =>
      if k >= |p.calls| then None else Some(p.(calls := DropCall(p.calls, k)))
    case Replanning(failed, answer) => Some(DoReplan(p, failed, answer).0)
  }

  ghost function Run(p: Plan, steps: seq<Step>): Option<Plan>
    decreases |steps|
  {
    if steps == [] then Some(p)
    else
      var t := Next(p, steps[0]);
      if t.None? then None else Run(t.value, steps[1..])
  }

  ghost predicate AtMostOneRunning(phases: seq<Phase>) {
    forall i, j :: 0 <= i < j < |phases| ==> !(phases[i].status.Running? && phases[j].status.Running?)
  }

  ghost predicate DistinctUids(phases: seq<Phase>) {
    forall i, j :: 0 <= i < j < |phases| ==> phases[i].uid != phases[j].uid
  }

  ghost predicate OwnUids(p: Plan) {
    && DistinctUids(p.phases)
    && (forall i :: 0 <= i < |p.phases| ==> p.phases[i].uid < p.nextUid)
  }

  ghost predicate Exclusive(p: Plan) {
    AtMostOneRunning(p.phases) && DistinctIds(p.phases) && OwnUids(p)
  }

  /** If the step is a replan whose answer is used, no id in it is taken when its turn comes. */
  ghost predicate TakesFreeIds(p: Plan, step: Step) {
    step.Replanning? && step.answer.Entries? && p.revision < MAX_REPLANS && p.phases != [] ==>
      var c := Corrected(p, step.failed);
      NoClash(c.phases, step.answer.entries, MaxId(c.phases) + 1, c.nextUid)
  }

  ghost predicate CleanRun(p: Plan, steps: seq<Step>)
    decreases |steps|
  {
    steps == [] ||
    (TakesFreeIds(p, steps[0]) && (Next(p, steps[0]).Some? ==> CleanRun(Next(p, steps[0]).value, steps[1..])))
  }

  lemma BeginKeepsExclusive(p: Plan, k: nat)
    requires Exclusive(p) && k < |p.phases|
    ensures Exclusive(Next(p, Begin(k)).value)
  {
    if !Busy(p.phases, p.phases[k].id) {
      forall i | 0 <= i < |p.phases| && i != k
        ensures !p.phases[i].status.Running?
      {
        assert p.phases[i].id != p.phases[k].id;
      }
    }
  }

  lemma FinishKeepsExclusive(p: Plan, uid: nat, status: Status)
    requires Exclusive(p) && !status.Running?
    ensures Exclusive(p.(phases := SetStatus(p.phases, uid, status)))
  {
  }

  lemma ReplanDistinct(p: Plan, failed: seq<int>, answer: Answer)
    requires DistinctIds(p.phases)
    ensures DistinctIds(DoReplan(p, failed, answer).0.phases) <==> TakesFreeIds(p, Replanning(failed, answer))
  {
    if answer.Entries? && p.revision < MAX_REPLANS && p.phases != [] {
      SurvivorsDistinct(p.phases);
      ReplanDistinctIff(p, failed, answer.entries);
    } else if !answer.Entries? {
      ReplanStaysDistinct(p, failed, answer);
    }
  }

  lemma ReplanKeepsExclusive(p: Plan, failed: seq<int>, answer: Answer)
    requires Exclusive(p)
    ensures Exclusive(DoReplan(p, failed, answer).0) <==> TakesFreeIds(p, Replanning(failed, answer))
  {
    ReplanDistinct(p, failed, answer);
    var (t, outcome) := DoReplan(p, failed, answer);
    if outcome.Revised? || outcome.BrokenOff? {
      var kept := Survivors(p.phases);
      ReplanKeepsAndCorrects(p, failed, answer);
      SurvivorsExclusive(p.phases);
      SurvivorsMember(p.phases);
      ReplanUids(p, failed, answer);
      forall i | 0 <= i < |kept|
        ensures t.phases[i] == kept[i]
      {
        assert t.phases[i] == t.phases[..|kept|][i];
      }
    }
  }

  lemma {:induction false} SurvivorsMember(phases: seq<Phase>)
    ensures forall i :: 0 <= i < |Survivors(phases)| ==> Survivors(phases)[i] in phases
  {
    if phases != [] {
      var s := Survivors(phases[1..]);
      SurvivorsMember(phases[1..]);
      forall i | 0 <= i < |s|
        ensures s[i] in phases
      {
        var j :| 0 <= j < |phases[1..]| && phases[1..][j] == s[i];
        assert phases[j + 1] == s[i];
      }
    }
  }

  lemma {:induction false} SurvivorsExclusive(phases: seq<Phase>)
    requires AtMostOneRunning(phases)
    ensures AtMostOneRunning(Survivors(phases))
  {
    if phases != [] {
      var rest := phases[1..];
      assert forall i :: 0 <= i < |rest| ==> rest[i] == phases[i + 1];
      SurvivorsExclusive(rest);
      SurvivorsMember(rest);
      HeadExclusive(phases, Survivors(rest));
    }
  }

  /** If the first phase runs, none taken from the others does. */
  lemma HeadExclusive(phases: seq<Phase>, s: seq<Phase>)
    requires phases != [] && AtMostOneRunning(phases) && forall i :: 0 <= i < |s| ==> s[i] in phases[1..]
    ensures phases[0].status.Running? ==> forall i :: 0 <= i < |s| ==> !s[i].status.Running?
  {
    forall i | 0 <= i < |s| && phases[0].status.Running?
      ensures !s[i].status.Running?
    {
      var j :| 0 <= j < |phases[1..]| && phases[1..][j] == s[i];
      assert phases[j + 1] == s[i];
    }
  }

  lemma {:induction false} SurvivorUids(phases: seq<Phase>)
    requires DistinctUids(phases)
    ensures DistinctUids(Survivors(phases))
  {
    if phases != [] {
      var rest := phases[1..];
      assert forall i :: 0 <= i < |rest| ==> rest[i] == phases[i + 1];
      SurvivorUids(rest);
      SurvivorsMember(rest);
      var s := Survivors(rest);
      forall i | 0 <= i < |s|
        ensures s[i].uid != phases[0].uid
      {
        var j :| 0 <= j < |rest| && rest[j] == s[i];
        assert phases[j + 1] == s[i];
      }
    }
  }

  lemma CorrectedUids(p: Plan, failed: seq<int>)
    requires OwnUids(p)
    ensures OwnUids(Corrected(p, failed))
  {
    var kept, c := Survivors(p.phases), Corrected(p, failed);
    SurvivorUids(p.phases);
    SurvivorsMember(p.phases);
    forall i | 0 <= i < |kept|
      ensures c.phases[i] == kept[i] && c.phases[i].uid < p.nextUid
    {
      assert kept[i] in p.phases;
    }
  }

  /** New phase objects are new. */
  lemma ReplanUids(p: Plan, failed: seq<int>, answer: Answer)
    requires OwnUids(p)
    ensures OwnUids(DoReplan(p, failed, answer).0)
  {
    var (t, outcome) := DoReplan(p, failed, answer);
    if outcome.Revised? || outcome.BrokenOff? {
      var c := Corrected(p, failed);
      CorrectedUids(p, failed);
      if answer.Entries? {
        AppendExtends(c.phases, answer.entries, MaxId(c.phases) + 1, c.nextUid);
        ExtendUids(c.phases, t.phases, c.nextUid, t.nextUid);
      }
    }
  }

  /** Phases appended with growing new numbers. */
  lemma ExtendUids(before: seq<Phase>, after: seq<Phase>, low: nat, high: nat)
    requires DistinctUids(before) && forall i :: 0 <= i < |before| ==> before[i].uid < low
    requires |before| <= |after| && after[..|before|] == before && low <= high
    requires forall i :: |before| <= i < |after| ==> low <= after[i].uid < high
    requires forall i, j :: |before| <= i < j < |after| ==> after[i].uid < after[j].uid
    ensures DistinctUids(after) && forall i :: 0 <= i < |after| ==> after[i].uid < high
  {
    assert forall i :: 0 <= i < |before| ==> after[i] == after[..|before|][i] == before[i];
  }

  /** Executions keep the phases exclusive, and a replan does exactly when it takes no id in use. */
  lemma StepKeepsExclusiveIff(p: Plan, step: Step)
    requires Exclusive(p) && Next(p, step).Some?
    ensures Exclusive(Next(p, step).value) <==> TakesFreeIds(p, step)
  {
    match step
    case Begin(k) => BeginKeepsExclusive(p, k);
    case Finish(k, d) => if !d.Abort? { FinishKeepsExclusive(p, p.calls[k], After(d)); }
    case Crash(k) =>
    case Replanning(failed, answer) => ReplanKeepsExclusive(p, failed, answer);
  }

  ghost predicate AlwaysExclusive(p: Plan, steps: seq<Step>)
    requires Run(p, steps).Some?
    decreases |steps|
  {
    Exclusive(p) && (steps == [] || AlwaysExclusive(Next(p, steps[0]).value, steps[1..]))
  }

  /**
   * In any interleaving of executions and replans ids stay distinct and at most one phase runs in
   * every state, exactly when no replan takes an id that is in use.
   */
  lemma {:induction false} ExclusiveRunIff(p: Plan, steps: seq<Step>)
    requires Exclusive(p) && Run(p, steps).Some?
    ensures AlwaysExclusive(p, steps) <==> CleanRun(p, steps)
    decreases |steps|
  {
    if steps != [] {
      StepKeepsExclusiveIff(p, steps[0]);
      if TakesFreeIds(p, steps[0]) {
        ExclusiveRunIff(Next(p, steps[0]).value, steps[1..]);
      } else {
        assert !AlwaysExclusive(Next(p, steps[0]).value, steps[1..]);
      }
    }
  }

  lemma {:induction false} EndsExclusive(p: Plan, steps: seq<Step>)
    requires Run(p, steps).Some? && AlwaysExclusive(p, steps)
    ensures Exclusive(Run(p, steps).value)
    decreases |steps|
  {
    if steps != [] {
      EndsExclusive(Next(p, steps[0]).value, steps[1..]);
    }
  }

  lemma {:induction false} ExecutionsAreClean(p: Plan, steps: seq<Step>)
    requires OnlyExecutes(steps)
    ensures CleanRun(p, steps)
    decreases |steps|
  {
    if steps != [] && Next(p, steps[0]).Some? {
      assert forall i :: 0 <= i < |steps[1..]| ==> steps[1..][i] == steps[i + 1];
      ExecutionsAreClean(Next(p, steps[0]).value, steps[1..]);
    }
  }

  // ---- Calls ---------------------------------------------------------------------------------

  /** At most one call is in flight, and the phase it executes is running. */
  ghost predicate OneCall(p: Plan) {
    |p.calls| <= 1 && (p.calls != [] ==> RunsUid(p.phases, p.calls[0]))
  }

  ghost predicate RunsUid(phases: seq<Phase>, uid: nat) {
    exists k :: 0 <= k < |phases| && phases[k].uid == uid && phases[k].status.Running?
  }

  /**
   * The guard lets a second call execute the very phase that runs. A call leaves at most one call in
   * flight exactly when none is, or the phase it asks for is not running.
   */
  lemma BeginKeepsOneCallIff(p: Plan, k: nat)
    requires Exclusive(p) && OneCall(p) && k < |p.phases|
    ensures OneCall(Next(p, Begin(k)).value) <==> p.calls == [] || !p.phases[k].status.Running?
    ensures OneCall(Next(p, Begin(k)).value) <==> |Next(p, Begin(k)).value.calls| <= 1
    ensures |Next(p, Begin(k)).value.calls| <= 2
  {
    var t := Next(p, Begin(k)).value;
    if p.calls != [] {
      var j :| 0 <= j < |p.phases| && p.phases[j].uid == p.calls[0] && p.phases[j].status.Running?;
      if j != k {
        assert p.phases[j].id != p.phases[k].id;
      } else {
        assert |t.calls| == 2;
      }
    } else if !Busy(p.phases, p.phases[k].id) {
      assert t.calls == [p.phases[k].uid] && t.phases[k].uid == p.phases[k].uid && t.phases[k].status.Running?;
    }
  }

  lemma {:induction false} SurvivorsRun(phases: seq<Phase>, uid: nat)
    requires RunsUid(phases, uid)
    ensures RunsUid(Survivors(phases), uid)
  {
    var k :| 0 <= k < |phases| && phases[k].uid == uid && phases[k].status.Running?;
    if k > 0 {
      assert phases[1..][k - 1] == phases[k];
      SurvivorsRun(phases[1..], uid);
      var s := Survivors(phases[1..]);
      var j :| 0 <= j < |s| && s[j].uid == uid && s[j].status.Running?;
      var head := if NotPending(phases[0]) then [phases[0]] else [];
      assert Survivors(phases) == head + s && (head + s)[|head| + j] == s[j];
    } else {
      assert Survivors(phases)[0] == phases[0];
    }
  }

  lemma ReplanKeepsOneCall(p: Plan, failed: seq<int>, answer: Answer)
    requires OneCall(p)
    ensures OneCall(DoReplan(p, failed, answer).0)
  {
    var (t, outcome) := DoReplan(p, failed, answer);
    if (outcome.Revised? || outcome.BrokenOff?) && p.calls != [] {
      var kept := Survivors(p.phases);
      ReplanKeepsAndCorrects(p, failed, answer);
      SurvivorsRun(p.phases, p.calls[0]);
      var j :| 0 <= j < |kept| && kept[j].uid == p.calls[0] && kept[j].status.Running?;
      assert t.phases[j] == t.phases[..|kept|][j];
    }
  }

  /** A call comes while none is in flight, or asks for a phase that is not running. */
  predicate AsksAlone(p: Plan, step: Step) {
    step.Begin? && step.index < |p.phases| ==> p.calls == [] || !p.phases[step.index].status.Running?
  }

  ghost predicate AlwaysAsksAlone(p: Plan, steps: seq<Step>)
    requires Run(p, steps).Some?
    decreases |steps|
  {
    steps == [] || (AsksAlone(p, steps[0]) && AlwaysAsksAlone(Next(p, steps[0]).value, steps[1..]))
  }

  ghost predicate AlwaysAtMostOneCall(p: Plan, steps: seq<Step>)
    requires Run(p, steps).Some?
    decreases |steps|
  {
    |p.calls| <= 1 && (steps == [] || AlwaysAtMostOneCall(Next(p, steps[0]).value, steps[1..]))
  }

  lemma StepKeepsOneCallIff(p: Plan, step: Step)
    requires Exclusive(p) && OneCall(p) && Next(p, step).Some?
    ensures AsksAlone(p, step) ==> OneCall(Next(p, step).value)
    ensures !AsksAlone(p, step) ==> |Next(p, step).value.calls| == 2
  {
    match step
    case Begin(k) => BeginKeepsOneCallIff(p, k);
    case Finish(k, d) =>
    case Crash(k) =>
    case Replanning(failed, answer) => ReplanKeepsOneCall(p, failed, answer);
  }

  /**
   * In any interleaving with replans that take free ids, calls exclude each other in every state
   * exactly when each comes while none is in flight, or asks for a phase that is not running.
   */
  lemma {:induction false} OneCallRunIff(p: Plan, steps: seq<Step>)
    requires Exclusive(p) && OneCall(p) && CleanRun(p, steps) && Run(p, steps).Some?
    ensures AlwaysAtMostOneCall(p, steps) <==> AlwaysAsksAlone(p, steps)
    decreases |steps|
  {
    if steps != [] {
      var t := Next(p, steps[0]).value;
      StepKeepsExclusiveIff(p, steps[0]);
      StepKeepsOneCallIff(p, steps[0]);
      if AsksAlone(p, steps[0]) {
        OneCallRunIff(t, steps[1..]);
      } else {
        assert !AlwaysAtMostOneCall(t, steps[1..]);
      }
    }
  }

  predicate OnlyExecutes(steps: seq<Step>) {
    forall i :: 0 <= i < |steps| ==> !steps[i].Replanning?
  }

  /**
   * Mutual exclusion holds in every interleaving of `execute_phase` calls exactly when no two
   * phases share an id: the guard compares ids, so a twin slips past it.
   */
  lemma ExclusionIffDistinctIds(p: Plan)
    requires OwnUids(p) && forall i :: 0 <= i < |p.phases| ==> !p.phases[i].status.Running?
    ensures (forall steps :: OnlyExecutes(steps) && Run(p, steps).Some? ==>
               AtMostOneRunning(Run(p, steps).value.phases)) <==> DistinctIds(p.phases)
  {
    if DistinctIds(p.phases) {
      forall steps | OnlyExecutes(steps) && Run(p, steps).Some?
        ensures AtMostOneRunning(Run(p, steps).value.phases)
      {
        ExecutionsAreClean(p, steps);
        ExclusiveRunIff(p, steps);
        EndsExclusive(p, steps);
      }
    } else {
      var i, j :| 0 <= i < j < |p.phases| && p.phases[i].id == p.phases[j].id;
      TwinsBothRun(p, i, j);
      assert OnlyExecutes([Begin(i), Begin(j)]);
    }
  }

  /** Two phases with one id, begun one after the other, run together. */
  lemma TwinsBothRun(p: Plan, i: nat, j: nat)
    requires OwnUids(p) && i < j < |p.phases| && p.phases[i].id == p.phases[j].id
    requires forall k :: 0 <= k < |p.phases| ==> !p.phases[k].status.Running?
    ensures Run(p, [Begin(i), Begin(j)]).Some?
    ensures !AtMostOneRunning(Run(p, [Begin(i), Begin(j)]).value.phases)
  {
    var one := Next(p, Begin(i)).value;
    assert one.phases[j] == p.phases[j] && !Busy(one.phases, p.phases[j].id);
    var two := Next(one, Begin(j)).value;
    assert two.phases[i].status.Running? && two.phases[j].status.Running?;
    assert [Begin(i), Begin(j)][1..] == [Begin(j)] && [Begin(j)][1..] == [];
    assert Run(two, []) == Some(two) && Run(one, [Begin(j)]) == Run(two, []);
  }

  // ---- Termination ---------------------------------------------------------------------------

  function CountStatus(phases: seq<Phase>, status: Status): nat {
    if phases == [] then 0
    else (if phases[0].status == status then 1 else 0) + CountStatus(phases[1..], status)
  }

  lemma {:induction false} SetStatusAbsent(phases: seq<Phase>, uid: nat, status: Status)
    requires forall i :: 0 <= i < |phases| ==> phases[i].uid != uid
    ensures SetStatus(phases, uid, status) == phases
  {
  }

  /** Changing one phase moves it from one status count to the other. */
  lemma {:induction false} CountAfterSet(phases: seq<Phase>, k: nat, status: Status, counted: Status)
    requires DistinctUids(phases) && k < |phases|
    ensures CountStatus(SetStatus(phases, phases[k].uid, status), counted) ==
            CountStatus(phases, counted) - (if phases[k].status == counted then 1 else 0)
                                         + (if status == counted then 1 else 0)
  {
    var uid, rest := phases[k].uid, phases[1..];
    var after := SetStatus(phases, uid, status);
    assert forall i :: 0 <= i < |rest| ==> rest[i] == phases[i + 1];
    assert after[1..] == SetStatus(rest, uid, status);
    if k == 0 {
      SetStatusAbsent(rest, uid, status);
    } else {
      CountAfterSet(rest, k - 1, status, counted);
    }
  }

  lemma {:induction false} CountAppend(a: seq<Phase>, b: seq<Phase>, status: Status)
    ensures CountStatus(a + b, status) == CountStatus(a, status) + CountStatus(b, status)
  {
    if a == [] {
      assert a + b == b;
    } else {
      assert (a + b)[1..] == a[1..] + b;
      CountAppend(a[1..], b, status);
    }
  }

  lemma {:induction false} CountSurvivors(phases: seq<Phase>, status: Status)
    requires status != Pending
    ensures CountStatus(Survivors(phases), status) == CountStatus(phases, status)
  {
    if phases != [] {
      CountSurvivors(phases[1..], status);
      var head := if NotPending(phases[0]) then [phases[0]] else [];
      assert Survivors(phases) == head + Survivors(phases[1..]);
      CountAppend(head, Survivors(phases[1..]), status);
      assert head != [] ==> head[1..] == [];
    }
  }

  lemma {:induction false} CountAllPending(phases: seq<Phase>, status: Status)
    requires status != Pending && forall i :: 0 <= i < |phases| ==> phases[i].status.Pending?
    ensures CountStatus(phases, status) == 0
  {
    if phases != [] {
      CountAllPending(phases[1..], status);
    }
  }

  /** A step that gets somewhere: a pending phase begins, a call ends, or a replan goes through. */
  ghost predicate Advances(p: Plan, step: Step) {
    match step
    case Begin(k) => k < |p.phases| && p.phases[k].status.Pending? && !Busy(p.phases, p.phases[k].id)
    case Finish(k, d) => k < |p.calls|
    case Crash(k) => k < |p.calls|
    case Replanning(failed, answer) => DoReplan(p, failed, answer).1.Revised?
  }

  ghost function Left(p: Plan): nat {
    if p.revision <= MAX_REPLANS then MAX_REPLANS - p.revision else 0
  }

  /**
   * The measure of the loop: replans left, then pending phases, then calls in flight. Every step
   * that gets somewhere lowers it lexicographically, in any interleaving of calls.
   */
  lemma MeasureDecreases(p: Plan, step: Step)
    requires OwnUids(p) && Advances(p, step)
    ensures var t := Next(p, step).value;
            || Left(t) < Left(p)
            || (Left(t) == Left(p) && CountStatus(t.phases, Pending) < CountStatus(p.phases, Pending))
            || (Left(t) == Left(p) && CountStatus(t.phases, Pending) == CountStatus(p.phases, Pending)
                && |t.calls| < |p.calls|)
  {
    match step
    case Begin(k) => CountAfterSet(p.phases, k, Running, Pending);
    case Finish(c, d) =>
      if !d.Abort? {
        if k :| 0 <= k < |p.phases| && p.phases[k].uid == p.calls[c] {
          CountAfterSet(p.phases, k, After(d), Pending);
        } else {
          SetStatusAbsent(p.phases, p.calls[c], After(d));
        }
      }
    case Crash(k) =>
    case Replanning(failed, answer) =>
  }

  lemma StepKeepsUids(p: Plan, step: Step)
    requires OwnUids(p) && Next(p, step).Some?
    ensures OwnUids(Next(p, step).value)
  {
    if step.Replanning? {
      ReplanUids(p, step.failed, step.answer);
    }
  }

  /** There is no infinite run of steps that get somewhere. */
  lemma {:induction false} NoInfiniteRun(plans: nat -> Plan, steps: nat -> Step, n: nat)
    requires OwnUids(plans(n))
    requires forall i: nat :: n <= i ==> Advances(plans(i), steps(i)) && Next(plans(i), steps(i)) == Some(plans(i + 1))
    ensures false
    decreases Left(plans(n)), CountStatus(plans(n).phases, Pending), |plans(n).calls|
  {
    assert Advances(plans(n), steps(n)) && Next(plans(n), steps(n)) == Some(plans(n + 1));
    MeasureDecreases(plans(n), steps(n));
    StepKeepsUids(plans(n), steps(n));
    NoInfiniteRun(plans, steps, n + 1);
  }

  /** How many replans of a run went through. */
  ghost function Revisions(p: Plan, steps: seq<Step>): nat
    decreases |steps|
  {
    if steps == [] || Next(p, steps[0]).None? then 0
    else
      (if steps[0].Replanning? && DoReplan(p, steps[0].failed, steps[0].answer).1.Revised? then 1 else 0)
      + Revisions(Next(p, steps[0]).value, steps[1..])
  }

  /** In any run at most three replans go through, and `revision_count` counts exactly those. */
  lemma {:induction false} AtMostThreeReplans(p: Plan, steps: seq<Step>)
    requires p.revision <= MAX_REPLANS && Run(p, steps).Some?
    ensures Run(p, steps).value.revision == p.revision + Revisions(p, steps) <= MAX_REPLANS
    decreases |steps|
  {
    if steps != [] {
      AtMostThreeReplans(Next(p, steps[0]).value, steps[1..]);
    }
  }

  /** A step that gets somewhere, or a replan that breaks off. */
  ghost predicate Goes(p: Plan, step: Step) {
    Advances(p, step) || (step.Replanning? && DoReplan(p, step.failed, step.answer).1.BrokenOff?)
  }

  ghost predicate AllGo(p: Plan, steps: seq<Step>)
    decreases |steps|
  {
    steps == [] ||
    (Goes(p, steps[0]) && Next(p, steps[0]).Some? && AllGo(Next(p, steps[0]).value, steps[1..]))
  }

  ghost predicate BoundedBy(p: Plan, n: nat) {
    forall steps :: AllGo(p, steps) ==> |steps| <= n
  }

  lemma AllGoCons(p: Plan, step: Step, t: Plan, rest: seq<Step>)
    requires Goes(p, step) && Next(p, step) == Some(t) && AllGo(t, rest)
    ensures AllGo(p, [step] + rest) && Run(p, [step] + rest) == Run(t, rest)
  {
    assert ([step] + rest)[1..] == rest;
  }

  /** With no replan left, what can still happen: two steps for a pending phase, one for a call. */
  lemma LastWork(p: Plan, step: Step)
    requires OwnUids(p) && Goes(p, step) && p.revision >= MAX_REPLANS
    ensures var t := Next(p, step).value;
            && 2 * CountStatus(t.phases, Pending) + |t.calls| < 2 * CountStatus(p.phases, Pending) + |p.calls|
            && t.revision == p.revision
  {
    match step
    case Begin(k) => CountAfterSet(p.phases, k, Running, Pending);
    case Finish(c, d) => MeasureDecreases(p, step);
    case Crash(k) =>
    case Replanning(failed, answer) =>
  }

  lemma {:induction false} LastRun(p: Plan, steps: seq<Step>)
    requires OwnUids(p) && AllGo(p, steps) && p.revision >= MAX_REPLANS
    ensures |steps| <= 2 * CountStatus(p.phases, Pending) + |p.calls|
    decreases |steps|
  {
    if steps != [] {
      LastWork(p, steps[0]);
      StepKeepsUids(p, steps[0]);
      LastRun(Next(p, steps[0]).value, steps[1..]);
    }
  }

  /**
   * When replanning is bounded. From an idle plan with phases the runs that get somewhere or break a
   * replan off have bounded length if and only if no replan is left: the limit of three is no bound
   * while an answer can break off.
   */
  lemma RunsAreBoundedIff(p: Plan)
    requires OwnUids(p) && p.phases != [] && p.calls == [] && NoneRunning(p.phases)
    ensures (exists n :: BoundedBy(p, n)) <==> p.revision >= MAX_REPLANS
  {
    if p.revision >= MAX_REPLANS {
      forall steps | AllGo(p, steps)
        ensures |steps| <= 2 * CountStatus(p.phases, Pending) + |p.calls|
      {
        LastRun(p, steps);
      }
      assert BoundedBy(p, 2 * CountStatus(p.phases, Pending) + |p.calls|);
    } else {
      forall n: nat
        ensures !BoundedBy(p, n)
      {
        var steps := BrokenReplansAreUnbounded(p, n + 1);
      }
    }
  }

  /**
   * Replans that break off are not counted: for every `n` some run of `n` rounds replans `n` times,
   * each time executes a phase that asks for the next replan, and is still at the same revision.
   */
  lemma {:induction false} BrokenReplansAreUnbounded(p: Plan, n: nat) returns (steps: seq<Step>)
    requires OwnUids(p) && p.phases != [] && p.calls == [] && p.revision < MAX_REPLANS
    requires NoneRunning(p.phases)
    ensures |steps| == 3 * n && Run(p, steps).Some? && Run(p, steps).value.revision == p.revision
    ensures AllGo(p, steps)
    ensures OnlyBrokenRounds(steps)
    decreases n
  {
    if n == 0 {
      steps := [];
    } else {
      var one, k, two, q := BrokenRound(p);
      var rest := BrokenReplansAreUnbounded(q, n - 1);
      steps := [Finish(0, Replan)] + rest;
      AllGoCons(two, Finish(0, Replan), q, rest);
      AllGoCons(one, Begin(k), two, steps);
      steps := [Begin(k)] + steps;
      AllGoCons(p, Replanning([1], NotIterable), one, steps);
      steps := [Replanning([1], NotIterable)] + steps;
      BrokenRoundFirst(k, rest);
    }
  }

  /** Replans whose answer cannot be iterated, each followed by an execution that asks for the next. */
  predicate OnlyBrokenRounds(steps: seq<Step>)
    decreases |steps|
  {
    steps == [] || (|steps| >= 3 && IsBrokenRound(steps[..3]) && OnlyBrokenRounds(steps[3..]))
  }

  predicate IsBrokenRound(steps: seq<Step>) {
    && |steps| == 3
    && steps[0] == Replanning([1], NotIterable) && steps[1].Begin? && steps[2] == Finish(0, Replan)
  }

  lemma BrokenRoundFirst(k: nat, rest: seq<Step>)
    requires OnlyBrokenRounds(rest)
    ensures OnlyBrokenRounds([Replanning([1], NotIterable)] + ([Begin(k)] + ([Finish(0, Replan)] + rest)))
  {
    var first := [Replanning([1], NotIterable), Begin(k), Finish(0, Replan)];
    var steps := [Replanning([1], NotIterable)] + ([Begin(k)] + ([Finish(0, Replan)] + rest));
    assert steps[..3] == first && steps[3..] == rest;
  }

  ghost predicate NoneRunning(phases: seq<Phase>) {
    forall i :: 0 <= i < |phases| ==> !phases[i].status.Running?
  }

  /** A broken replan of an idle plan leaves it idle, with a corrective phase at its end. */
  lemma BrokenReplan(p: Plan) returns (one: Plan)
    requires OwnUids(p) && p.phases != [] && p.calls == [] && p.revision < MAX_REPLANS && NoneRunning(p.phases)
    ensures Next(p, Replanning([1], NotIterable)) == Some(one) && one.revision == p.revision
    ensures OwnUids(one) && one.calls == [] && one.phases != [] && NoneRunning(one.phases)
    ensures one.phases[|one.phases| - 1].status.Pending?
  {
    one := Corrected(p, [1]);
    CorrectedUids(p, [1]);
    SurvivorsIdle(p.phases);
    assert one.phases == Survivors(p.phases) + Correctives([1], MaxId(Survivors(p.phases)) + 1, p.nextUid);
  }

  lemma {:induction false} SurvivorsIdle(phases: seq<Phase>)
    requires NoneRunning(phases)
    ensures NoneRunning(Survivors(phases))
  {
    if phases != [] {
      assert forall i :: 0 <= i < |phases[1..]| ==> phases[1..][i] == phases[i + 1];
      SurvivorsIdle(phases[1..]);
    }
  }

  /** In an idle plan a phase can begin and complete. */
  lemma BeginAndFinish(p: Plan, k: nat) returns (q: Plan)
    requires OwnUids(p) && p.calls == [] && k < |p.phases| && NoneRunning(p.phases)
    ensures Next(p, Begin(k)).Some? && Next(Next(p, Begin(k)).value, Finish(0, Replan)) == Some(q)
    ensures !Busy(p.phases, p.phases[k].id) && |Next(p, Begin(k)).value.calls| == 1
    ensures OwnUids(q) && q.calls == [] && q.phases != [] && NoneRunning(q.phases) && q.revision == p.revision
  {
    var two := Next(p, Begin(k)).value;
    assert two.calls == [p.phases[k].uid];
    q := Next(two, Finish(0, Replan)).value;
    StepKeepsUids(p, Begin(k));
    StepKeepsUids(two, Finish(0, Replan));
    forall i | 0 <= i < |q.phases|
      ensures !q.phases[i].status.Running?
    {
      assert two.phases[i].uid == p.phases[i].uid;
    }
  }

  /** One such round: a broken replan adds a corrective phase, which runs and completes. */
  lemma BrokenRound(p: Plan) returns (one: Plan, k: nat, two: Plan, q: Plan)
    requires OwnUids(p) && p.phases != [] && p.calls == [] && p.revision < MAX_REPLANS
    requires NoneRunning(p.phases)
    ensures Goes(p, Replanning([1], NotIterable)) && Next(p, Replanning([1], NotIterable)) == Some(one)
    ensures Goes(one, Begin(k)) && Next(one, Begin(k)) == Some(two)
    ensures Goes(two, Finish(0, Replan)) && Next(two, Finish(0, Replan)) == Some(q)
    ensures q.revision == p.revision && OwnUids(q) && q.phases != [] && q.calls == [] && NoneRunning(q.phases)
  {
    one := BrokenReplan(p);
    k := |one.phases| - 1;
    q := BeginAndFinish(one, k);
    two := Next(one, Begin(k)).value;
  }

  /** A replan, however it ends, leaves the number of completed phases alone. */
  lemma ReplanKeepsCompleted(p: Plan, failed: seq<int>, answer: Answer)
    ensures CountStatus(DoReplan(p, failed, answer).0.phases, Completed) == CountStatus(p.phases, Completed)
  {
    var (t, outcome) := DoReplan(p, failed, answer);
    if outcome.Revised? || outcome.BrokenOff? {
      var kept := Survivors(p.phases);
      ReplanKeepsAndCorrects(p, failed, answer);
      CountSurvivors(p.phases, Completed);
      assert t.phases == t.phases[..|kept|] + t.phases[|kept|..];
      CountAppend(kept, t.phases[|kept|..], Completed);
      CountAllPending(t.phases[|kept|..], Completed);
    }
  }

  // ---- The loop object -----------------------------------------------------------------------

  /** What one turn of the autonomous loop meets: an exception, or a decision and maybe a replan. */
  datatype Turn = Turn(crashes: bool, decision: Decision, failed: seq<int>, answer: Answer)

  datatype Ending = Compiled | Clarifying | Aborted | Escaped

  /** `Plan.current_phase`: the first pending phase. */
  ghost predicate IsCurrent(phases: seq<Phase>, k: Option<nat>) {
    && (k.Some? ==> k.value < |phases| && phases[k.value].status.Pending?)
    && forall i :: 0 <= i < (if k.Some? then k.value else |phases|) ==> !phases[i].status.Pending?
  }

  function FirstPending(phases: seq<Phase>): Option<nat> {
    if phases == [] then None
    else if phases[0].status.Pending? then Some(0)
    else
      var k := FirstPending(phases[1..]);
      if k.None? then None else Some(k.value + 1)
  }

  lemma {:induction false} CurrentIsFirst(phases: seq<Phase>, k: Option<nat>)
    requires IsCurrent(phases, k)
    ensures k == FirstPending(phases)
  {
    if phases != [] && !phases[0].status.Pending? {
      CurrentIsFirst(phases[1..], if k.None? then None else Some(k.value - 1));
    }
  }

  /** The plan after an execution that was not refused. */
  ghost function Played(p: Plan, k: nat, turn: Turn): Plan
    requires p.calls == [] && k < |p.phases|
  {
    var running := p.(phases := SetStatus(p.phases, p.phases[k].uid, Running));
    if turn.crashes then running
    else if turn.decision.Abort? then running
    else running.(phases := SetStatus(running.phases, p.phases[k].uid, After(turn.decision)))
  }

  /** An execution completes its phase, or none when it crashes, asks, or gives up. */
  lemma PlayedMeans(p: Plan, k: nat, turn: Turn)
    requires OwnUids(p) && p.calls == [] && k < |p.phases| && p.phases[k].status.Pending?
    ensures OwnUids(Played(p, k, turn))
    ensures CountStatus(Played(p, k, turn).phases, Completed) == CountStatus(p.phases, Completed) +
      (if turn.crashes || turn.decision.Clarify? || turn.decision.Abort? then 0 else 1)
  {
    var running := SetStatus(p.phases, p.phases[k].uid, Running);
    CountAfterSet(p.phases, k, Running, Completed);
    assert running[k].uid == p.phases[k].uid && DistinctUids(running);
    if !turn.crashes && !turn.decision.Abort? {
      CountAfterSet(running, k, After(turn.decision), Completed);
    }
  }

  /** One round of the autonomous loop: it goes on with a plan, or ends with or without an execution. */
  datatype Round = GoesOn(plan: Plan) | Ends(plan: Plan, ending: Ending, executes: bool)

  ghost function RoundOf(p: Plan, turn: Turn, cap: nat): Round {
    var k := FirstPending(p.phases);
    if k.None? || k.value >= |p.phases| || p.calls != [] then Ends(p, Compiled, false)
    else if Busy(p.phases, p.phases[k.value].id) then Ends(p, Aborted, false)
    else
      var q := Played(p, k.value, turn);
      if turn.crashes then Ends(q, Escaped, true)
      else match turn.decision
        case Clarify => Ends(q, Clarifying, true)
        case Abort => Ends(q, Aborted, true)
        case Complete => Ends(q, Compiled, true)
        case Continue => Judged(q, cap)
        case Replan => Judged(DoReplan(q, turn.failed, turn.answer).0, cap)
  }

  /** The phase cap, looked at after every round. */
  ghost function Judged(q: Plan, cap: nat): Round {
    if CountStatus(q.phases, Completed) > cap then Ends(q, Compiled, true) else GoesOn(q)
  }

  ghost predicate NonePending(phases: seq<Phase>) {
    forall i :: 0 <= i < |phases| ==> !phases[i].status.Pending?
  }

  /** What a replan means for a round. */
  lemma ReplanInRound(p: Plan, turn: Turn)
    requires OwnUids(p) && p.revision <= MAX_REPLANS && p.phases != []
    ensures var t := DoReplan(p, turn.failed, turn.answer).0;
            && OwnUids(t) && t.calls == p.calls && t.revision <= MAX_REPLANS
            && CountStatus(t.phases, Completed) == CountStatus(p.phases, Completed)
            && t.revision == (if p.revision < 3 && !turn.answer.Unusable? && !Breaks(turn.answer) then p.revision + 1
                              else p.revision)
  {
    ReplanKeepsCompleted(p, turn.failed, turn.answer);
    ReplanUids(p, turn.failed, turn.answer);
    BreaksOffIff(p, turn.failed, turn.answer);
    ReplanOutcomes(p, turn.failed, turn.answer);
  }

  /** How the loop ends by its last turn, and how when none was executed. */
  ghost predicate EndsAs(ending: Ending, executes: bool, turn: Turn, phases: seq<Phase>) {
    if executes then
      && (ending.Escaped? <==> turn.crashes)
      && (ending.Clarifying? <==> !turn.crashes && turn.decision.Clarify?)
      && (ending.Aborted? <==> !turn.crashes && turn.decision.Abort?)
    else
      (ending.Compiled? && NonePending(phases)) || (ending.Aborted? && !NonePending(phases))
  }

  /** What a turn that goes on asked for: only a replan that is carried out counts. */
  ghost predicate GoesOnAs(before: nat, turn: Turn, after: nat) {
    && !turn.crashes && (turn.decision.Continue? || turn.decision.Replan?)
    && after == if turn.decision.Replan? && before < 3 && !turn.answer.Unusable? && !Breaks(turn.answer) then before + 1
                else before
  }

  /** What the turns make of a plan, round by round. */
  ghost function Playing(turns: nat -> Turn, cap: nat): (Plan, nat) -> Round {
    (p: Plan, n: nat) => RoundOf(p, turns(n), cap)
  }

  /** The plan after the first `n` rounds, when all of them went on. */
  ghost function PlanAt(p: Plan, play: (Plan, nat) -> Round, n: nat): Option<Plan> {
    if n == 0 then Some(p)
    else
      var q := PlanAt(p, play, n - 1);
      if q.None? then None
      else
        var r := play(q.value, n - 1);
        if r.GoesOn? then Some(r.plan) else None
  }

  lemma PlanAtNext(p: Plan, play: (Plan, nat) -> Round, n: nat, q: Plan, t: Plan)
    requires PlanAt(p, play, n) == Some(q) && play(q, n) == GoesOn(t)
    ensures PlanAt(p, play, n + 1) == Some(t)
  {
  }

  /** The loop from `p`: after `rounds` rounds that went on, the next one ended it so, at `q`. */
  ghost predicate LoopEnds(p: Plan, play: (Plan, nat) -> Round, rounds: nat, q: Plan, ending: Ending, executed: nat) {
    && rounds <= executed <= rounds + 1
    && PlanAt(p, play, rounds).Some?
    && play(PlanAt(p, play, rounds).value, rounds) == Ends(q, ending, executed > rounds)
  }

  /** A round in terms of the current phase. */
  lemma RoundMeaning(p: Plan, k: Option<nat>, turn: Turn, cap: nat)
    requires IsCurrent(p.phases, k) && p.calls == []
    ensures k.None? ==> RoundOf(p, turn, cap) == Ends(p, Compiled, false)
    ensures k.Some? && Busy(p.phases, p.phases[k.value].id) ==> RoundOf(p, turn, cap) == Ends(p, Aborted, false)
    ensures k.Some? && !Busy(p.phases, p.phases[k.value].id) ==>
      var q := Played(p, k.value, turn);
      RoundOf(p, turn, cap) ==
        if turn.crashes then Ends(q, Escaped, true)
        else match turn.decision
          case Clarify => Ends(q, Clarifying, true)
          case Abort => Ends(q, Aborted, true)
          case Complete => Ends(q, Compiled, true)
          case Continue => Judged(q, cap)
          case Replan => Judged(DoReplan(q, turn.failed, turn.answer).0, cap)
  {
    CurrentIsFirst(p.phases, k);
  }

  class AgentLoop {
    var phases: seq<Phase>
    var revision: nat
    var assertionMap: map<int, seq<int>>
    var calls: seq<nat>
    var nextUid: nat

    constructor (phases: seq<Phase>, assertionMap: map<int, seq<int>>, nextUid: nat)
      ensures View() == Plan(phases, 0, assertionMap, [], nextUid)
    {
      this.phases, this.assertionMap, this.nextUid := phases, assertionMap, nextUid;
      revision, calls := 0, [];
    }

    ghost function View(): Plan
      reads this
    {
      Plan(phases, revision, assertionMap, calls, nextUid)
    }

    /** `Plan.current_phase`: the first pending phase. */
    method CurrentPhase() returns (k: Option<nat>)
      ensures k.Some? ==> k.value < |phases| && phases[k.value].status.Pending?
      ensures k.Some? ==> forall i :: 0 <= i < k.value ==> !phases[i].status.Pending?
      ensures k.None? ==> forall i :: 0 <= i < |phases| ==> !phases[i].status.Pending?
      ensures IsCurrent(phases, k)
    {
      var i := 0;
      while i < |phases|
        invariant 0 <= i <= |phases|
        invariant forall j :: 0 <= j < i ==> !phases[j].status.Pending?
      {
        if phases[i].status.Pending? {
          return Some(i);
        }
        i := i + 1;
      }
      k := None;
    }

    /** `execute_phase` up to its first await. */
    method BeginPhase(k: nat) returns (refused: bool)
      requires k < |phases|
      modifies this
      ensures Some(View()) == Next(old(View()), Begin(k))
      ensures refused == Busy(old(phases), old(phases)[k].id)
      ensures refused ==> phases == old(phases)
      ensures !refused ==> |phases| == |old(phases)| && phases[k] == old(phases)[k].(status := Running)
      ensures forall i :: 0 <= i < |phases| && phases[i].uid != old(phases)[k].uid ==> phases[i] == old(phases)[i]
    {
      var phase := phases[k];
      var i := 0;
      refused := false;
      while i < |phases| && !refused
        invariant 0 <= i <= |phases|
        invariant refused ==> Busy(phases, phase.id)
        invariant !refused ==> forall j :: 0 <= j < i ==> !(phases[j].status.Running? && phases[j].id != phase.id)
      {
        refused := phases[i].status.Running? && phases[i].id != phase.id;
        i := i + 1;
      }
      if !refused {
        phases, calls := SetStatus(phases, phase.uid, Running), calls + [phase.uid];
      }
    }

    /** The rest of `execute_phase`, with the decision it came to. */
    method FinishPhase(call: nat, d: Decision)
      requires call < |calls|
      modifies this
      ensures Some(View()) == Next(old(View()), Finish(call, d))
      ensures |phases| == |old(phases)|
      ensures forall i :: 0 <= i < |phases| && (phases[i].uid != old(calls)[call] || d.Abort?) ==> phases[i] == old(phases)[i]
      ensures forall i :: 0 <= i < |phases| && phases[i].uid == old(calls)[call] && !d.Abort? ==>
        phases[i] == old(phases)[i].(status := if d.Clarify? then NeedsClarification else Completed)
    {
      if d.Clarify? {
        phases := SetStatus(phases, calls[call], NeedsClarification);
      } else if !d.Abort? {
        phases := SetStatus(phases, calls[call], Completed);
      }
      calls := DropCall(calls, call);
    }

    method AddCorrectives(failed: seq<int>)
      modifies this
      ensures View() == Corrected(old(View()), failed)
    {
      var kept := Survivors(phases);
      var start := MaxId(kept) + 1;
      phases := kept;
      ghost var m0, uid0 := assertionMap, nextUid;
      for offset := 0 to |failed|
        invariant phases == kept + Correctives(failed, start, uid0)[..offset]
        invariant nextUid == uid0 + offset && calls == old(calls) && revision == old(revision)
        invariant MapCorrectives(assertionMap, failed[offset..], start + offset) == MapCorrectives(m0, failed, start)
      {
        var id := start + offset;
        phases := phases + [Phase(nextUid, id, Pending, Corrective(failed[offset]))];
        assertionMap := assertionMap[id := [failed[offset]]];
        nextUid := nextUid + 1;
        assert failed[offset..][1..] == failed[offset + 1..];
      }
      assert Correctives(failed, start, uid0)[..|failed|] == Correctives(failed, start, uid0);
      assert failed[|failed|..] == [];
    }

    method AddEntries(entries: seq<Entry>) returns (ok: bool)
      modifies this`phases
      ensures (phases, ok) == Append(old(phases), entries, MaxId(old(phases)) + 1, nextUid)
    {
      var next, uid := MaxId(phases) + 1, nextUid;
      var i := 0;
      ghost var whole := Append(phases, entries, next, uid);
      assert entries[0..] == entries;
      while i < |entries|
        invariant 0 <= i <= |entries|
        invariant Append(phases, entries[i..], next, uid) == whole
      {
        var pd := entries[i];
        assert entries[i..][1..] == entries[i + 1..];
        if pd.Dict? {
          if !pd.agentsIterable {
            return false;
          }
          var id := IdOf(pd, next);
          next := if next + 1 > id + 1 then next + 1 else id + 1;
          phases, uid := phases + [Phase(uid, id, Pending, pd.content)], uid + 1;
        }
        i := i + 1;
      }
      ok := true;
    }

    /** `replan` */
    method ReplanPhases(failed: seq<int>, answer: Answer) returns (outcome: Outcome)
      modifies this
      ensures (View(), outcome) == DoReplan(old(View()), failed, answer)
    {
      if revision >= MAX_REPLANS {
        return Refused;
      }
      if phases == [] {
        return Raised;
      }
      if answer.Unusable? {
        return Unchanged;
      }
      AddCorrectives(failed);
      if answer.NotIterable? {
        return BrokenOff;
      }
      var ok := AddEntries(answer.entries);
      nextUid := nextUid + |answer.entries|;
      if !ok {
        return BrokenOff;
      }
      revision := revision + 1;
      outcome := Revised;
    }

    /**
     * `run_autonomous_loop` on a plan without a standing goal. It ends after at most one execution
     * more than the phase cap leaves room for, whatever the validator and the LLM answer and however
     * replans break off, because every turn that goes on completes a phase and no replan undoes one.
     */
    method RunAutonomous(cap: nat, turns: nat -> Turn) returns (ending: Ending, executed: nat, ghost rounds: nat)
      requires OwnUids(View()) && calls == [] && revision <= MAX_REPLANS
      modifies this
      ensures executed <= (if CountStatus(old(phases), Completed) <= cap
                           then cap + 1 - CountStatus(old(phases), Completed) else 1)
      ensures revision <= MAX_REPLANS && OwnUids(View())
      ensures CountStatus(phases, Completed) >= CountStatus(old(phases), Completed)
      ensures ending.Compiled? ==>
        || NonePending(phases)
        || (executed > 0 && turns(executed - 1).decision.Complete?)
        || CountStatus(phases, Completed) > cap
      ensures EndsAs(ending, executed > rounds, turns(rounds), phases)
      // the whole outcome: so many rounds went on, and the next one ended the loop
      ensures LoopEnds(old(View()), Playing(turns, cap), rounds, View(), ending, executed)
    {
      executed, rounds := 0, 0;
      ghost var first, plan, play := View(), View(), Playing(turns, cap);
      ghost var done := CountStatus(phases, Completed);
      while true
        invariant plan == View() && OwnUids(plan) && plan.calls == [] && plan.revision <= MAX_REPLANS
        invariant done == CountStatus(plan.phases, Completed) == CountStatus(first.phases, Completed) + executed
        invariant executed > 0 ==> done <= cap
        invariant rounds == executed && PlanAt(first, play, executed) == Some(plan)
        decreases if done <= cap then cap + 1 - done else 0
      {
        var stop, executes := NextRound(turns, executed, cap, play);
        executed := if executes then executed + 1 else executed;
        if stop.Some? {
          return stop.value, executed, rounds;
        }
        PlanAtNext(first, play, rounds, plan, View());
        rounds, plan, done := executed, View(), CountStatus(phases, Completed);
      }
      assert false;
    }

    /** The `n`-th round of `play`. */
    method NextRound(turns: nat -> Turn, n: nat, cap: nat, ghost play: (Plan, nat) -> Round)
      returns (ending: Option<Ending>, executes: bool)
      requires OwnUids(View()) && calls == [] && revision <= MAX_REPLANS && play == Playing(turns, cap)
      modifies this
      ensures play(old(View()), n) == if ending.Some? then Ends(View(), ending.value, executes) else GoesOn(View())
      ensures OwnUids(View()) && calls == [] && revision <= MAX_REPLANS
      ensures CountStatus(phases, Completed) >= CountStatus(old(phases), Completed)
      ensures ending.None? ==>
        executes && CountStatus(phases, Completed) == CountStatus(old(phases), Completed) + 1 <= cap
      ensures ending == Some(Compiled) ==>
        || NonePending(phases)
        || (executes && turns(n).decision.Complete?)
        || CountStatus(phases, Completed) > cap
      ensures ending.Some? ==> EndsAs(ending.value, executes, turns(n), phases)
      ensures ending.None? ==> GoesOnAs(old(revision), turns(n), revision)
    {
      ending, executes := OneRound(turns(n), cap);
    }

    /** The body of that loop; `None` when it goes on. */
    method OneRound(turn: Turn, cap: nat) returns (ending: Option<Ending>, executes: bool)
      requires OwnUids(View()) && calls == [] && revision <= MAX_REPLANS
      modifies this
      ensures RoundOf(old(View()), turn, cap) ==
        if ending.Some? then Ends(View(), ending.value, executes) else GoesOn(View())
      ensures OwnUids(View()) && calls == [] && revision <= MAX_REPLANS
      ensures CountStatus(phases, Completed) >= CountStatus(old(phases), Completed)
      ensures ending.None? ==>
        executes && CountStatus(phases, Completed) == CountStatus(old(phases), Completed) + 1 <= cap
      ensures ending == Some(Compiled) ==>
        || NonePending(phases)
        || (executes && turn.decision.Complete?)
        || CountStatus(phases, Completed) > cap
      ensures ending.Some? ==> EndsAs(ending.value, executes, turn, phases)
      ensures ending.None? ==> GoesOnAs(old(revision), turn, revision)
    {
      var k := CurrentPhase();
      RoundMeaning(View(), k, turn, cap);
      if k.None? {
        return Some(Compiled), false;
      }
      var refused := TakeTurn(k.value, turn);
      if refused {
        return Some(Aborted), false;
      }
      executes := true;
      if turn.crashes {
        return Some(Escaped), true;
      } else if turn.decision.Clarify? {
        return Some(Clarifying), true;
      } else if turn.decision.Abort? {
        return Some(Aborted), true;
      } else if turn.decision.Complete? {
        return Some(Compiled), true;
      }
      if turn.decision.Replan? {
        ReplanInRound(View(), turn);
        var _ := ReplanPhases(turn.failed, turn.answer);
      }
      ending := if CompletedCount() > cap then Some(Compiled) else None;
    }

    function CompletedCount(): nat
      reads this
    {
      CountStatus(phases, Completed)
    }

    /** One `execute_phase` awaited to its end. */
    method TakeTurn(k: nat, turn: Turn) returns (refused: bool)
      requires OwnUids(View()) && calls == [] && k < |phases| && phases[k].status.Pending?
      modifies this
      ensures OwnUids(View()) && calls == [] && revision == old(revision)
      ensures refused == Busy(old(phases), old(phases)[k].id)
      ensures View() == if refused then old(View()) else Played(old(View()), k, turn)
      ensures !refused && turn.crashes ==> k < |phases| && phases[k] == old(phases)[k].(status := Running)
      ensures CountStatus(phases, Completed) == CountStatus(old(phases), Completed) +
        (if refused || turn.crashes || turn.decision.Clarify? || turn.decision.Abort? then 0 else 1)
    {
      PlayedMeans(View(), k, turn);
      refused := BeginPhase(k);
      if !refused {
        if turn.crashes {
          calls := [];
        } else {
          FinishPhase(0, turn.decision);
        }
      }
    }
  }
}
