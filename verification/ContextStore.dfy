/**
 * The bounded per-user context store: eviction by smallest `last_interaction_at`, histories cut to
 * their last messages. The theorem is about whole runs: eviction by time stamp keeps exactly the
 * users touched most recently.
 */
module ContextStore {
  import opened Sequences
  import opened Recency

  datatype Turn = Turn(role: string, content: string, channel: string, timestamp: int)

  datatype Goal = Goal(id: string, text: string)

  /** `spoken` is a history: everything recorded for the user since the context was created. */
  datatype Context = Context(
    history: seq<Turn>, goals: seq<Goal>, lastChannel: string, last: int, spoken: seq<Turn>)

  /**
   * `order` is the insertion order of the dict. `touches` is a history: every user, at each recorded
   * turn and at each insertion.
   */
  datatype Store = Store(
    maxHistory: int, maxUsers: int, order: seq<string>, contexts: map<string, Context>,
    clock: int, touches: seq<string>)

  /** Calls with the clock readings they make: `born` for a context created, `now` for the turn. */
  datatype Call =
    | Get(user: string, born: int)
    | RecordTurn(user: string, born: int, now: int, channel: string, said: string, answer: string)
    | SetGoal(user: string, born: int, goal: Goal)
    | ClearGoal(user: string, born: int, goalId: string)

  function Init(maxHistory: int, maxUsers: int): Store {
    Store(maxHistory, maxUsers, [], map[], 0, [])
  }

  /** `min(store, key=last)`: the first key in dict order with the smallest time stamp. */
  function Oldest(order: seq<string>, contexts: map<string, Context>, i: nat := 0): (k: string)
    requires i < |order| && forall j :: 0 <= j < |order| ==> order[j] in contexts
    ensures k in order && forall j :: i <= j < |order| ==> contexts[k].last <= contexts[order[j]].last
    decreases |order| - i
  {
    if i == |order| - 1 then order[i]
    else
      var k := Oldest(order, contexts, i + 1);
      if contexts[order[i]].last <= contexts[k].last then order[i] else k
  }

  ghost predicate Consistent(s: Store) {
    && NoDuplicates(s.order)
    && (forall k :: k in s.order <==> k in s.contexts)
  }

  /** Make room: the user interacted with longest ago is dropped when the store is full. */
  function Evicted(s: Store): Store
    requires Consistent(s) && s.order != []
  {
    if |s.order| < s.maxUsers then s
    else
      var k := Oldest(s.order, s.contexts);
      s.(order := Without(s.order, k), contexts := s.contexts - {k})
  }

  /** A new context goes to the end of the dict. */
  function Inserted(s: Store, user: string, born: int): Store {
    s.(order := s.order + [user], contexts := s.contexts[user := Context([], [], "", born, [])],
       clock := born, touches := s.touches + [user])
  }

  /** `get`: `None` is the ValueError of `min` over an empty store that has no room at all. */
  function Fetch(s: Store, user: string, born: int): Option<Store>
    requires Consistent(s)
  {
    if user in s.contexts then Some(s)
    else if s.order == [] && s.maxUsers <= 0 then None
    else Some(Inserted(if s.order == [] then s else Evicted(s), user, born))
  }

  function Exchange(c: Call): seq<Turn>
    requires c.RecordTurn?
  {
    [Turn("user", c.said, c.channel, c.now), Turn("assistant", c.answer, c.channel, c.now)]
  }

  function Truncate(h: seq<Turn>, limit: int): seq<Turn> {
    if |h| > limit then PySuffix(h, limit) else h
  }

  function OtherGoals(goals: seq<Goal>, id: string): seq<Goal> {
    Filter(goals, (g: Goal) => g.id != id)
  }

  /** The context after a turn: two messages more, cut to the limit, and a new time stamp. */
  function Recorded(ctx: Context, c: Call, limit: int): Context
    requires c.RecordTurn?
  {
    ctx.(history := Truncate(ctx.history + Exchange(c), limit), lastChannel := c.channel,
         last := c.now, spoken := ctx.spoken + Exchange(c))
  }

  function AfterTurn(t: Store, c: Call): Store
    requires c.RecordTurn? && c.user in t.contexts
  {
    t.(contexts := t.contexts[c.user := Recorded(t.contexts[c.user], c, t.maxHistory)],
       clock := c.now, touches := t.touches + [c.user])
  }

  function Apply(s: Store, c: Call): Option<Store>
    requires Consistent(s)
  {
    var fetched := Fetch(s, c.user, c.born);
    if fetched.None? then None
    else
      var t := fetched.value;
      var ctx := t.contexts[c.user];
      match c
      case Get(_, _) => fetched
      case RecordTurn(_, _, _, _, _, _) => Some(AfterTurn(t, c))
      case SetGoal(user, _, goal) =>
        Some(t.(contexts := t.contexts[user := ctx.(goals := OtherGoals(ctx.goals, goal.id) + [goal])]))
      case ClearGoal(user, _, goalId) =>
        Some(t.(contexts := t.contexts[user := ctx.(goals := OtherGoals(ctx.goals, goalId))]))
  }

  /** The clock never repeats a reading. */
  predicate Later(s: Store, c: Call) {
    s.clock < c.born && (c.RecordTurn? ==> c.born < c.now)
  }

  /** The users a least-recently-used store of this size would hold, oldest first. */
  function Recent(s: Store): seq<string> {
    LastN(ByLastUse(s.touches), Capacity(s.maxUsers))
  }

  ghost predicate Inv(s: Store) {
    s.maxUsers >= 1 && s.maxHistory >= 1 && Holds(s, Recent(s))
  }

  /** The store holds exactly `users`, and their time stamps grow along that list. */
  ghost predicate Holds(s: Store, users: seq<string>) {
    && Consistent(s) && Lists(users, s.contexts)
    && AllTended(s.contexts, s.clock, s.maxHistory)
  }

  ghost predicate Lists(users: seq<string>, contexts: map<string, Context>) {
    && NoDuplicates(users) && ByTime(users, contexts)
    && forall k :: k in contexts <==> k in users
  }

  ghost predicate AllTended(contexts: map<string, Context>, clock: int, limit: int) {
    forall k :: k in contexts ==> Tended(contexts[k], clock, limit)
  }

  /** Its clock reading is past, its history is what was spoken cut once, its goals are distinct. */
  ghost predicate Tended(c: Context, clock: int, limit: int) {
    c.last <= clock && c.history == Truncate(c.spoken, limit) && OneGoalEach(c.goals)
  }

  /** Time stamps grow strictly along `users`. */
  ghost predicate ByTime(users: seq<string>, contexts: map<string, Context>) {
    && (forall i :: 0 <= i < |users| ==> users[i] in contexts)
    && (forall i, j :: 0 <= i < j < |users| ==> contexts[users[i]].last < contexts[users[j]].last)
  }

  ghost predicate OneGoalEach(goals: seq<Goal>) {
    forall i, j :: 0 <= i < j < |goals| ==> goals[i].id != goals[j].id
  }

  lemma {:induction false} SameSetSameLength<K>(a: seq<K>, b: seq<K>)
    requires NoDuplicates(a) && NoDuplicates(b) && forall k :: k in a <==> k in b
    ensures |a| == |b|
  {
    assert b != [] ==> b[0] in b;
    if a != [] {
      assert a == [a[0]] + a[1..];
      WithoutDistinct(b, a[0]);
      forall k
        ensures k in a[1..] <==> k in Without(b, a[0])
      {
        WithoutMembers(b, a[0], k);
        assert k in a <==> k == a[0] || k in a[1..];
      }
      SameSetSameLength(a[1..], Without(b, a[0]));
    }
  }

  /** In a full store the smallest time stamp belongs to the least recent user. */
  lemma OldestIsFirst(s: Store, users: seq<string>)
    requires Holds(s, users) && s.order != []
    ensures |s.order| == |users| && Oldest(s.order, s.contexts) == users[0]
  {
    SameSetSameLength(s.order, users);
    var k, first := Oldest(s.order, s.contexts), users[0];
    assert first in s.order && k in users;
    var j :| 0 <= j < |s.order| && s.order[j] == first;
    var i :| 0 <= i < |users| && users[i] == k;
    assert s.contexts[k].last <= s.contexts[s.order[j]].last;
  }

  lemma EvictKeeps(s: Store, users: seq<string>)
    requires Holds(s, users) && s.order != [] && |s.order| >= s.maxUsers
    ensures Holds(Evicted(s), users[1..])
  {
    OldestIsFirst(s, users);
    DropFirst(users, s.contexts);
    DropKey(s.order, s.contexts, users[0]);
  }

  lemma DropFirst(users: seq<string>, contexts: map<string, Context>)
    requires users != [] && Lists(users, contexts)
    ensures Lists(users[1..], contexts - {users[0]})
  {
    DropFirstTimes(users, contexts);
    assert users == [users[0]] + users[1..];
  }

  lemma DropFirstTimes(users: seq<string>, contexts: map<string, Context>)
    requires users != [] && NoDuplicates(users) && ByTime(users, contexts)
    ensures NoDuplicates(users[1..]) && users[0] !in users[1..]
    ensures ByTime(users[1..], contexts - {users[0]})
  {
    var rest := users[1..];
    assert forall i :: 0 <= i < |rest| ==> rest[i] == users[i + 1] && rest[i] != users[0];
  }

  lemma SnocDistinct(order: seq<string>, k: string)
    requires NoDuplicates(order) && k !in order
    ensures NoDuplicates(order + [k]) && forall x :: x in order + [k] <==> x in order || x == k
  {
  }

  lemma DropKey(order: seq<string>, contexts: map<string, Context>, k: string)
    requires NoDuplicates(order) && forall x :: x in order <==> x in contexts
    ensures NoDuplicates(Without(order, k))
    ensures forall x :: x in Without(order, k) <==> x in contexts - {k}
  {
    WithoutDistinct(order, k);
    forall x
      ensures x in Without(order, k) <==> x in order && x != k
    {
      WithoutMembers(order, k, x);
    }
  }

  lemma InsertKeeps(s: Store, users: seq<string>, user: string, born: int)
    requires Holds(s, users) && user !in users && s.clock < born && s.maxHistory >= 1
    ensures Holds(Inserted(s, user, born), users + [user])
  {
    var t, u := Inserted(s, user, born), users + [user];
    NewestLast(users, s.contexts, user, t.contexts[user], s.clock, s.maxHistory);
  }

  /** A context newer than all others extends the list. */
  lemma NewestLast(users: seq<string>, contexts: map<string, Context>, user: string, c: Context,
                   clock: int, limit: int)
    requires NoDuplicates(users) && ByTime(users, contexts) && user !in users
    requires AllTended(contexts, clock, limit) && clock < c.last
    requires forall k :: k in contexts && k != user <==> k in users
    ensures Lists(users + [user], contexts[user := c])
  {
    var u, after := users + [user], contexts[user := c];
    forall i | 0 <= i < |users|
      ensures u[i] in contexts && after[u[i]] == contexts[users[i]] && Tended(contexts[u[i]], clock, limit)
    {
    }
    forall k
      ensures k in after <==> k in u
    {
    }
  }

  /** `get` keeps the invariant: the store is the least-recently-used one again. */
  lemma FetchKeeps(s: Store, user: string, born: int)
    requires Inv(s) && s.clock < born
    ensures Fetch(s, user, born).Some?
    ensures var t := Fetch(s, user, born).value;
            Inv(t) && user in t.contexts && t.clock <= born
  {
    if user !in s.contexts {
      var users := Recent(s);
      RecentAfterInsert(s, user);
      SameSetSameLength(s.order, users);
      if s.order != [] && |s.order| >= s.maxUsers {
        EvictKeeps(s, users);
        InsertKeeps(Evicted(s), users[1..], user, born);
      } else {
        InsertKeeps(s, users, user, born);
      }
    }
  }

  /** The recency list gains the user at its end and loses its head when it was full. */
  lemma RecentAfterInsert(s: Store, user: string)
    requires user !in Recent(s) && s.maxUsers >= 1
    ensures var users, after := Recent(s), LastN(ByLastUse(s.touches + [user]), Capacity(s.maxUsers));
            after == if |users| >= s.maxUsers then users[1..] + [user] else users + [user]
  {
    StackStep(s.touches, s.maxUsers, user);
    WithoutAbsent(Recent(s), user);
  }

  lemma TruncateAppend(spoken: seq<Turn>, more: seq<Turn>, limit: int)
    requires limit >= 1
    ensures Truncate(Truncate(spoken, limit) + more, limit) == Truncate(spoken + more, limit)
    ensures Truncate(spoken, limit) == LastN(spoken, limit)
  {
    LastNAppend(spoken, more, limit);
  }

  /** A recorded turn moves its user to the recent end. */
  lemma RecordKeeps(s: Store, users: seq<string>, c: Call)
    requires Holds(s, users) && c.RecordTurn? && c.user in s.contexts && s.clock < c.now && s.maxHistory >= 1
    ensures Holds(AfterTurn(s, c), MoveToEnd(users, c.user))
  {
    var ctx := s.contexts[c.user];
    assert Tended(ctx, s.clock, s.maxHistory);
    TruncateAppend(ctx.spoken, Exchange(c), s.maxHistory);
    WithoutUser(users, s.contexts, c.user);
    NewestLast(Without(users, c.user), s.contexts, c.user, Recorded(ctx, c, s.maxHistory), s.clock, s.maxHistory);
  }

  lemma WithoutUser(users: seq<string>, contexts: map<string, Context>, user: string)
    requires Lists(users, contexts)
    ensures var rest := Without(users, user);
            && NoDuplicates(rest) && ByTime(rest, contexts) && user !in rest
            && forall k :: k in contexts && k != user <==> k in rest
  {
    WithoutDistinct(users, user);
    WithoutKeepsTime(users, contexts, user);
    forall x
      ensures x in Without(users, user) <==> x in users && x != user
    {
      WithoutMembers(users, user, x);
    }
  }

  lemma {:induction false} WithoutKeepsTime(users: seq<string>, contexts: map<string, Context>, k: string)
    requires ByTime(users, contexts)
    ensures ByTime(Without(users, k), contexts)
  {
    if users != [] {
      var rest := users[1..];
      assert users == [users[0]] + rest;
      assert forall i :: 0 <= i < |rest| ==> rest[i] == users[i + 1];
      WithoutKeepsTime(rest, contexts, k);
      if users[0] != k {
        var w := Without(rest, k);
        forall j | 0 <= j < |w|
          ensures contexts[users[0]].last < contexts[w[j]].last
        {
          WithoutMembers(rest, k, w[j]);
          var i :| 0 <= i < |rest| && rest[i] == w[j];
          assert users[i + 1] == w[j];
        }
      }
    }
  }

  /** The goals of other ids, each still there once. */
  lemma {:induction false} OthersStayDistinct(goals: seq<Goal>, id: string)
    requires OneGoalEach(goals)
    ensures OneGoalEach(OtherGoals(goals, id))
    ensures forall g :: g in OtherGoals(goals, id) ==> g in goals && g.id != id
  {
    if goals != [] {
      var rest := goals[1..];
      assert goals == [goals[0]] + rest;
      OthersStayDistinct(rest, id);
      forall g | g in rest
        ensures g.id != goals[0].id
      {
        var i :| 0 <= i < |rest| && rest[i] == g;
        assert goals[i + 1] == g;
      }
    }
  }

  /** Setting or clearing a goal keeps at most one goal of each id. */
  lemma GoalsStayDistinct(goals: seq<Goal>, id: string, goal: Goal)
    requires OneGoalEach(goals)
    ensures OneGoalEach(OtherGoals(goals, id))
    ensures forall g :: g in OtherGoals(goals, id) ==> g in goals && g.id != id
    ensures goal.id == id ==> OneGoalEach(OtherGoals(goals, id) + [goal])
  {
    OthersStayDistinct(goals, id);
    var others := OtherGoals(goals, id);
    forall i | 0 <= i < |others|
      ensures others[i].id != id
    {
      assert others[i] in others;
    }
  }

  /** Goal changes touch nothing the recency argument looks at. */
  lemma GoalKeeps(s: Store, users: seq<string>, c: Call)
    requires Holds(s, users) && (c.SetGoal? || c.ClearGoal?) && c.user in s.contexts
    ensures Apply(s, c).Some? && Holds(Apply(s, c).value, users)
  {
    assert Tended(s.contexts[c.user], s.clock, s.maxHistory);
    GoalsStayDistinct(s.contexts[c.user].goals, if c.SetGoal? then c.goal.id else c.goalId,
                      if c.SetGoal? then c.goal else Goal("", ""));
  }

  lemma TurnKeeps(t: Store, c: Call)
    requires Inv(t) && c.RecordTurn? && c.user in t.contexts && t.clock < c.now
    ensures Inv(AfterTurn(t, c))
  {
    RecordKeeps(t, Recent(t), c);
    StackStep(t.touches, t.maxUsers, c.user);
  }

  /** Every call with later clock readings succeeds and keeps the invariant. */
  lemma CallKeeps(s: Store, c: Call)
    requires Inv(s) && Later(s, c)
    ensures Apply(s, c).Some? && Inv(Apply(s, c).value)
  {
    FetchKeeps(s, c.user, c.born);
    var t := Fetch(s, c.user, c.born).value;
    FetchAgain(s, c);
    if c.RecordTurn? {
      TurnKeeps(t, c);
    } else if !c.Get? {
      GoalCallKeeps(t, c);
    }
  }

  lemma GoalCallKeeps(t: Store, c: Call)
    requires Inv(t) && (c.SetGoal? || c.ClearGoal?) && c.user in t.contexts
    ensures Apply(t, c).Some? && Inv(Apply(t, c).value)
  {
    GoalKeeps(t, Recent(t), c);
  }

  /** Fetching first and then calling is the call: the second fetch finds the user. */
  lemma FetchAgain(s: Store, c: Call)
    requires Consistent(s) && Fetch(s, c.user, c.born).Some?
    requires Consistent(Fetch(s, c.user, c.born).value) && c.user in Fetch(s, c.user, c.born).value.contexts
    ensures Apply(Fetch(s, c.user, c.born).value, c) == Apply(s, c)
  {
  }

  /** Calls one after the other, with strictly increasing clock readings. */
  predicate Timely(clock: int, calls: seq<Call>)
    decreases |calls|
  {
    calls == [] || (
      && clock < calls[0].born && (calls[0].RecordTurn? ==> calls[0].born < calls[0].now)
      && Timely(if calls[0].RecordTurn? then calls[0].now else calls[0].born, calls[1..]))
  }

  ghost function RunCalls(s: Store, calls: seq<Call>): Option<Store>
    requires Consistent(s)
    decreases |calls|
  {
    if calls == [] then Some(s)
    else
      var t := Apply(s, calls[0]);
      if t.None? || !Consistent(t.value) then None else RunCalls(t.value, calls[1..])
  }

  lemma ClockMoves(s: Store, c: Call)
    requires Inv(s) && Later(s, c) && Apply(s, c).Some?
    ensures Apply(s, c).value.clock <= if c.RecordTurn? then c.now else c.born
  {
  }

  lemma {:induction false} TimelyEarlier(clock: int, later: int, calls: seq<Call>)
    requires Timely(later, calls) && clock <= later
    ensures Timely(clock, calls)
  {
  }

  lemma FirstCallKeeps(s: Store, calls: seq<Call>)
    requires Inv(s) && calls != [] && Timely(s.clock, calls)
    ensures Apply(s, calls[0]).Some? && Inv(Apply(s, calls[0]).value)
    ensures Timely(Apply(s, calls[0]).value.clock, calls[1..])
  {
    CallKeeps(s, calls[0]);
    ClockMoves(s, calls[0]);
    TimelyEarlier(Apply(s, calls[0]).value.clock,
                  if calls[0].RecordTurn? then calls[0].now else calls[0].born, calls[1..]);
  }

  lemma {:induction false} RunKeeps(s: Store, calls: seq<Call>)
    requires Inv(s) && Timely(s.clock, calls)
    ensures RunCalls(s, calls).Some? && Inv(RunCalls(s, calls).value)
    decreases |calls|
  {
    if calls != [] {
      FirstCallKeeps(s, calls);
      var t := Apply(s, calls[0]).value;
      RunKeeps(t, calls[1..]);
      assert RunCalls(s, calls) == RunCalls(t, calls[1..]);
    }
  }

  /**
   * The store is least-recently-used over whole runs. After any calls with a strictly increasing
   * clock and limits of at least one, no call has failed, the stored users are exactly the last
   * `maxUsers` distinct users touched, and each history is the last `maxHistory` messages recorded
   * since that user was last inserted.
   */
  lemma StoreIsLeastRecentlyUsed(maxHistory: int, maxUsers: int, calls: seq<Call>)
    requires maxHistory >= 1 && maxUsers >= 1 && Timely(0, calls)
    ensures RunCalls(Init(maxHistory, maxUsers), calls).Some?
    ensures var s := RunCalls(Init(maxHistory, maxUsers), calls).value;
            && (forall k :: k in s.order <==> k in LastN(ByLastUse(s.touches), maxUsers))
            && |s.order| <= maxUsers
            && (forall k :: k in s.contexts ==>
                  s.contexts[k].history == LastN(s.contexts[k].spoken, maxHistory))
  {
    RunKeeps(Init(maxHistory, maxUsers), calls);
    var s := RunCalls(Init(maxHistory, maxUsers), calls).value;
    LimitsStay(Init(maxHistory, maxUsers), calls);
    SameSetSameLength(s.order, Recent(s));
    forall k | k in s.contexts
      ensures s.contexts[k].history == LastN(s.contexts[k].spoken, maxHistory)
    {
      assert Tended(s.contexts[k], s.clock, maxHistory);
      TruncateAppend(s.contexts[k].spoken, [], maxHistory);
    }
  }

  lemma {:induction false} LimitsStay(s: Store, calls: seq<Call>)
    requires Consistent(s) && RunCalls(s, calls).Some?
    ensures RunCalls(s, calls).value.maxHistory == s.maxHistory
    ensures RunCalls(s, calls).value.maxUsers == s.maxUsers
    decreases |calls|
  {
    if calls != [] {
      LimitsStay(Apply(s, calls[0]).value, calls[1..]);
    }
  }

  // ---- What the store holds, read off the list of calls ----------------------------------------

  /** The uses of users that a list of calls makes: an insertion is one, and a turn is one. */
  function Uses(calls: seq<Call>, maxUsers: nat): seq<string>
    decreases |calls|, 0
  {
    if calls == [] then []
    else
      var before, c := calls[..|calls| - 1], calls[|calls| - 1];
      Uses(before, maxUsers) + (if Held(before, maxUsers, c.user) then [] else [c.user])
      + (if c.RecordTurn? then [c.user] else [])
  }

  /** The user is among the last `maxUsers` used. */
  predicate Held(calls: seq<Call>, maxUsers: nat, user: string)
    decreases |calls|, 1
  {
    user in LastN(ByLastUse(Uses(calls, maxUsers)), maxUsers)
  }

  /** The messages of the user's turns, since the call that last inserted the user. */
  function Said(calls: seq<Call>, maxUsers: nat, user: string): seq<Turn>
    decreases |calls|
  {
    if calls == [] then []
    else
      var before, c := calls[..|calls| - 1], calls[|calls| - 1];
      if c.user != user then Said(before, maxUsers, user)
      else
        (if Held(before, maxUsers, user) then Said(before, maxUsers, user) else [])
        + (if c.RecordTurn? then [Turn("user", c.said, c.channel, c.now), Turn("assistant", c.answer, c.channel, c.now)]
           else [])
  }

  /** The goal of this id set last and not cleared since, and the call that set it. */
  function GoalSet(calls: seq<Call>, maxUsers: nat, user: string, id: string): Option<(Goal, nat)>
    decreases |calls|
  {
    if calls == [] then None
    else
      var before, c := calls[..|calls| - 1], calls[|calls| - 1];
      if c.SetGoal? && c.user == user && c.goal.id == id then Some((c.goal, |before|))
      else if c.ClearGoal? && c.user == user && c.goalId == id then None
      else if c.user == user && !Held(before, maxUsers, user) then None
      else GoalSet(before, maxUsers, user, id)
  }

  /** The channel of the user's last turn since then. */
  function SpokenOn(calls: seq<Call>, maxUsers: nat, user: string): string
    decreases |calls|
  {
    if calls == [] then ""
    else
      var before, c := calls[..|calls| - 1], calls[|calls| - 1];
      if c.user == user && c.RecordTurn? then c.channel
      else if c.user == user && !Held(before, maxUsers, user) then ""
      else SpokenOn(before, maxUsers, user)
  }

  type GoalLookup = string -> Option<(Goal, nat)>

  function GoalsSet(calls: seq<Call>, maxUsers: nat, user: string): GoalLookup {
    id => GoalSet(calls, maxUsers, user, id)
  }

  /** The goals are those set and not cleared, in the order in which they were set. */
  ghost predicate GoalsAre(goals: seq<Goal>, set_: GoalLookup, n: nat) {
    && (forall g :: g in goals <==> set_(g.id).Some? && set_(g.id).value.0 == g)
    && (forall i :: 0 <= i < |goals| ==> set_(goals[i].id).Some? && set_(goals[i].id).value.1 < n)
    && (forall i, j :: 0 <= i < j < |goals| ==> set_(goals[i].id).value.1 < set_(goals[j].id).value.1)
  }

  lemma OthersMember(goals: seq<Goal>, id: string, g: Goal)
    ensures g in OtherGoals(goals, id) <==> g in goals && g.id != id
  {
    FilterMember(goals, (g: Goal) => g.id != id, g);
  }

  lemma {:induction false} OthersInOrder(goals: seq<Goal>, id: string, set_: GoalLookup)
    requires forall i :: 0 <= i < |goals| ==> set_(goals[i].id).Some?
    requires forall i, j :: 0 <= i < j < |goals| ==> set_(goals[i].id).value.1 < set_(goals[j].id).value.1
    ensures var r := OtherGoals(goals, id);
            && (forall i :: 0 <= i < |r| ==> set_(r[i].id).Some?)
            && (forall i, j :: 0 <= i < j < |r| ==> set_(r[i].id).value.1 < set_(r[j].id).value.1)
  {
    if goals != [] {
      var rest := goals[1..];
      OthersInOrder(rest, id, set_);
      var r := OtherGoals(rest, id);
      forall i | 0 <= i < |r|
        ensures set_(goals[0].id).value.1 < set_(r[i].id).value.1
      {
        OthersMember(rest, id, r[i]);
        var j :| 0 <= j < |rest| && rest[j] == r[i];
        assert goals[j + 1] == r[i];
      }
    }
  }

  /** Without the goal of one id. */
  lemma GoalsCleared(goals: seq<Goal>, set_: GoalLookup, n: nat, id: string, after: GoalLookup)
    requires GoalsAre(goals, set_, n)
    requires forall x :: after(x) == if x == id then None else set_(x)
    ensures GoalsAre(OtherGoals(goals, id), after, n)
    ensures forall g :: g in OtherGoals(goals, id) ==> g.id != id
  {
    var r := OtherGoals(goals, id);
    OthersInOrder(goals, id, set_);
    forall g
      ensures g in r <==> g in goals && g.id != id
    {
      OthersMember(goals, id, g);
    }
    forall i | 0 <= i < |r|
      ensures r[i] in goals && r[i].id != id && set_(r[i].id).value.1 < n
    {
      assert r[i] in r;
      var j :| 0 <= j < |goals| && goals[j] == r[i];
    }
  }

  /** And with a new one at the end. */
  lemma GoalsAdded(goals: seq<Goal>, set_: GoalLookup, n: nat, goal: Goal, after: GoalLookup)
    requires GoalsAre(goals, set_, n) && set_(goal.id).None?
    requires forall x :: after(x) == if x == goal.id then Some((goal, n)) else set_(x)
    ensures GoalsAre(goals + [goal], after, n + 1)
  {
    var r := goals + [goal];
    forall i | 0 <= i < |goals|
      ensures goals[i].id != goal.id
    {
      assert goals[i] in goals;
    }
    forall g
      ensures g in r <==> after(g.id).Some? && after(g.id).value.0 == g
    {
      assert g in r <==> g in goals || g == goal;
    }
  }

  lemma GoalsReplaced(goals: seq<Goal>, set_: GoalLookup, n: nat, goal: Goal, after: GoalLookup)
    requires GoalsAre(goals, set_, n)
    requires forall x :: after(x) == if x == goal.id then Some((goal, n)) else set_(x)
    ensures GoalsAre(OtherGoals(goals, goal.id) + [goal], after, n + 1)
  {
    var without := (x: string) => if x == goal.id then None else set_(x);
    GoalsCleared(goals, set_, n, goal.id, without);
    GoalsAdded(OtherGoals(goals, goal.id), without, n, goal, after);
  }

  lemma SameGoals(goals: seq<Goal>, set_: GoalLookup, n: nat, after: GoalLookup)
    requires GoalsAre(goals, set_, n) && forall x :: after(x) == set_(x)
    ensures GoalsAre(goals, after, n + 1)
  {
  }

  /** A context is what the calls say. */
  ghost predicate Told(ctx: Context, calls: seq<Call>, maxUsers: nat, user: string) {
    && ctx.spoken == Said(calls, maxUsers, user)
    && ctx.lastChannel == SpokenOn(calls, maxUsers, user)
    && GoalsAre(ctx.goals, GoalsSet(calls, maxUsers, user), |calls|)
  }

  ghost predicate AllTold(s: Store, calls: seq<Call>, maxUsers: nat) {
    && s.maxUsers == maxUsers && s.touches == Uses(calls, maxUsers)
    && forall k :: k in s.contexts ==> Told(s.contexts[k], calls, maxUsers, k)
  }

  lemma HeldIffStored(s: Store, calls: seq<Call>, maxUsers: nat, user: string)
    requires Inv(s) && AllTold(s, calls, maxUsers)
    ensures user in s.contexts <==> Held(calls, maxUsers, user)
  {
  }

  /** Before a call of the user's: nothing, when the call inserts the user. */
  function Fresh(calls: seq<Call>, maxUsers: nat, user: string): GoalLookup {
    id => if Held(calls, maxUsers, user) then GoalSet(calls, maxUsers, user, id) else None
  }

  lemma CallOfOther(ctx: Context, calls: seq<Call>, maxUsers: nat, c: Call, user: string)
    requires Told(ctx, calls, maxUsers, user) && c.user != user
    ensures Told(ctx, calls + [c], maxUsers, user)
  {
    assert (calls + [c])[..|calls|] == calls;
    SameGoals(ctx.goals, GoalsSet(calls, maxUsers, user), |calls|, GoalsSet(calls + [c], maxUsers, user));
  }

  /** What `get` finds or creates. */
  function Before(s: Store, c: Call): Context {
    if c.user in s.contexts then s.contexts[c.user] else Context([], [], "", c.born, [])
  }

  lemma FreshContext(s: Store, calls: seq<Call>, maxUsers: nat, c: Call)
    requires Inv(s) && AllTold(s, calls, maxUsers)
    ensures GoalsAre(Before(s, c).goals, Fresh(calls, maxUsers, c.user), |calls|)
    ensures Before(s, c).spoken == if Held(calls, maxUsers, c.user) then Said(calls, maxUsers, c.user) else []
    ensures Before(s, c).lastChannel == if Held(calls, maxUsers, c.user) then SpokenOn(calls, maxUsers, c.user) else ""
  {
    HeldIffStored(s, calls, maxUsers, c.user);
  }

  /** What the call makes of it. */
  function Then(ctx: Context, c: Call, limit: int): Context {
    match c
    case Get(_, _) => ctx
    case RecordTurn(_, _, _, _, _, _) => Recorded(ctx, c, limit)
    case SetGoal(_, _, goal) => ctx.(goals := OtherGoals(ctx.goals, goal.id) + [goal])
    case ClearGoal(_, _, goalId) => ctx.(goals := OtherGoals(ctx.goals, goalId))
  }

  lemma OwnGoals(ctx: Context, calls: seq<Call>, maxUsers: nat, c: Call, limit: int)
    requires GoalsAre(ctx.goals, Fresh(calls, maxUsers, c.user), |calls|)
    ensures GoalsAre(Then(ctx, c, limit).goals, GoalsSet(calls + [c], maxUsers, c.user), |calls| + 1)
  {
    var after := GoalsSet(calls + [c], maxUsers, c.user);
    var set_ := Fresh(calls, maxUsers, c.user);
    assert (calls + [c])[..|calls|] == calls;
    match c
    case Get(_, _) => SameGoals(ctx.goals, set_, |calls|, after);
    case RecordTurn(_, _, _, _, _, _) => SameGoals(ctx.goals, set_, |calls|, after);
    case SetGoal(_, _, goal) => GoalsReplaced(ctx.goals, set_, |calls|, goal, after);
    case ClearGoal(_, _, goalId) => GoalsCleared(ctx.goals, set_, |calls|, goalId, after);
  }

  lemma OwnCall(s: Store, calls: seq<Call>, maxUsers: nat, c: Call)
    requires Inv(s) && AllTold(s, calls, maxUsers)
    ensures Told(Then(Before(s, c), c, s.maxHistory), calls + [c], maxUsers, c.user)
  {
    assert (calls + [c])[..|calls|] == calls;
    FreshContext(s, calls, maxUsers, c);
    OwnGoals(Before(s, c), calls, maxUsers, c, s.maxHistory);
  }

  /** A call makes its user's context from the one before, and leaves every other that stays. */
  lemma CallContexts(s: Store, c: Call)
    requires Consistent(s) && Apply(s, c).Some?
    ensures var t := Apply(s, c).value;
            && c.user in t.contexts && t.contexts[c.user] == Then(Before(s, c), c, s.maxHistory)
            && (forall k :: k in t.contexts && k != c.user ==> k in s.contexts && t.contexts[k] == s.contexts[k])
            && t.maxUsers == s.maxUsers && t.maxHistory == s.maxHistory
            && t.touches == s.touches + (if c.user in s.contexts then [] else [c.user])
                            + (if c.RecordTurn? then [c.user] else [])
  {
    var t := Fetch(s, c.user, c.born).value;
    assert t.contexts[c.user] == Before(s, c);
    assert s.touches + [] == s.touches;
  }

  lemma CallTold(s: Store, calls: seq<Call>, maxUsers: nat, c: Call)
    requires Inv(s) && AllTold(s, calls, maxUsers) && Apply(s, c).Some?
    ensures AllTold(Apply(s, c).value, calls + [c], maxUsers)
  {
    var t := Apply(s, c).value;
    assert (calls + [c])[..|calls|] == calls;
    CallContexts(s, c);
    HeldIffStored(s, calls, maxUsers, c.user);
    OwnCall(s, calls, maxUsers, c);
    forall k | k in t.contexts && k != c.user
      ensures Told(t.contexts[k], calls + [c], maxUsers, k)
    {
      CallOfOther(s.contexts[k], calls, maxUsers, c, k);
    }
  }

  lemma {:induction false} RunTold(s: Store, done: seq<Call>, calls: seq<Call>, maxUsers: nat)
    requires Inv(s) && Timely(s.clock, calls) && AllTold(s, done, maxUsers)
    ensures RunCalls(s, calls).Some? && AllTold(RunCalls(s, calls).value, done + calls, maxUsers)
    decreases |calls|
  {
    if calls == [] {
      assert done + calls == done;
    } else {
      var t := FirstTold(s, done, calls, maxUsers);
      MoveOver(done, calls);
      RunTold(t, done + [calls[0]], calls[1..], maxUsers);
    }
  }

  lemma MoveOver(done: seq<Call>, calls: seq<Call>)
    requires calls != []
    ensures (done + [calls[0]]) + calls[1..] == done + calls
  {
  }

  lemma FirstTold(s: Store, done: seq<Call>, calls: seq<Call>, maxUsers: nat) returns (t: Store)
    requires Inv(s) && calls != [] && Timely(s.clock, calls) && AllTold(s, done, maxUsers)
    ensures Inv(t) && Timely(t.clock, calls[1..]) && AllTold(t, done + [calls[0]], maxUsers)
    ensures RunCalls(s, calls) == RunCalls(t, calls[1..])
  {
    FirstCallKeeps(s, calls);
    CallTold(s, done, maxUsers, calls[0]);
    t := Apply(s, calls[0]).value;
  }

  /**
   * What the store holds after any calls, read off the calls alone: the last `maxUsers` users used;
   * for each the last `maxHistory` messages of that user's turns since the call that inserted the
   * user, and the channel of the last; and the goals set since and not cleared, in that order.
   */
  lemma StoreIsWhatWasCalled(maxHistory: int, maxUsers: int, calls: seq<Call>, user: string)
    requires maxHistory >= 1 && maxUsers >= 1 && Timely(0, calls)
    ensures RunCalls(Init(maxHistory, maxUsers), calls).Some?
    ensures var s := RunCalls(Init(maxHistory, maxUsers), calls).value;
            && (user in s.contexts <==> Held(calls, maxUsers, user))
            && (user in s.contexts ==>
                  && s.contexts[user].history == LastN(Said(calls, maxUsers, user), maxHistory)
                  && s.contexts[user].lastChannel == SpokenOn(calls, maxUsers, user)
                  && GoalsAre(s.contexts[user].goals, GoalsSet(calls, maxUsers, user), |calls|))
  {
    var s0 := Init(maxHistory, maxUsers);
    RunTold(s0, [], calls, maxUsers);
    assert [] + calls == calls;
    StoreIsLeastRecentlyUsed(maxHistory, maxUsers, calls);
    RunKeeps(s0, calls);
    HeldIffStored(RunCalls(s0, calls).value, calls, maxUsers, user);
  }

  /** Why the limits must be at least one: a history limit bounds every history exactly then. */
  lemma TruncateBoundsIff(limit: int)
    ensures (forall h :: |Truncate(h, limit)| <= limit) <==> limit >= 1
  {
    var one := [Turn("user", "", "", 0)];
    assert |Truncate(one, 0)| == 1;
    assert limit < 0 ==> |Truncate([], limit)| > limit;
  }

  /** A store without room fails its first `get`, and only such a store does. */
  lemma FirstGetSucceedsIff(maxHistory: int, maxUsers: int, user: string, born: int)
    ensures Fetch(Init(maxHistory, maxUsers), user, born).Some? <==> maxUsers >= 1
  {
  }

  /** The messages `recent_history` chooses from: those of the channel, or all when none is given. */
  function OnChannel(history: seq<Turn>, channel: Option<string>): seq<Turn> {
    if channel.Some? then Filter(history, (m: Turn) => m.channel == channel.value) else history
  }

  /** `recent_history` after its `get`. */
  function RecentHistory(ctx: Context, limit: int, channel: Option<string>): (r: seq<Turn>) {
    PySuffix(OnChannel(ctx.history, channel), limit)
  }

  /** The messages keep their order: each further one is chosen if it is on the channel, or none is given. */
  lemma OnChannelInOrder(history: seq<Turn>, m: Turn, channel: Option<string>)
    ensures OnChannel([], channel) == []
    ensures OnChannel(history + [m], channel) ==
      OnChannel(history, channel) + (if channel.None? || m.channel == channel.value then [m] else [])
  {
    if channel.Some? {
      FilterSnoc(history, m, (t: Turn) => t.channel == channel.value);
    }
  }

  /** The messages are of the history and on the channel, if one is given. */
  lemma {:induction false} OnChannelMeans(history: seq<Turn>, channel: Option<string>, m: Turn)
    ensures m in OnChannel(history, channel) <==> m in history && (channel.Some? ==> m.channel == channel.value)
  {
    if channel.Some? {
      FilterMember(history, (t: Turn) => t.channel == channel.value, m);
    }
  }

  /**
   * What `recent_history` returns, for every limit: the end of the channel's messages, the last
   * `limit` of them for a limit of one or more, all for zero, all but the first `-limit` below.
   */
  lemma RecentHistoryIsSuffix(ctx: Context, limit: int, channel: Option<string>)
    ensures var all, r := OnChannel(ctx.history, channel), RecentHistory(ctx, limit, channel);
            && |r| <= |all| && r == all[|all| - |r|..]
            && |r| == (if limit > 0 then (if |all| <= limit then |all| else limit)
                       else if -limit <= |all| then |all| + limit else 0)
            && forall m :: m in r ==> m in ctx.history && (channel.Some? ==> m.channel == channel.value)
  {
    var all, r := OnChannel(ctx.history, channel), RecentHistory(ctx, limit, channel);
    forall m | m in r
      ensures m in ctx.history && (channel.Some? ==> m.channel == channel.value)
    {
      assert m in all;
      OnChannelMeans(ctx.history, channel, m);
    }
  }

  lemma OnlyMessage(m: Turn, channel: Option<string>)
    requires channel.Some? ==> m.channel == channel.value
    ensures OnChannel([m], channel) == [m]
  {
    if channel.Some? {
      var keep := (t: Turn) => t.channel == channel.value;
      assert [m][1..] == [] && keep([m][0]);
      assert Filter([m], keep) == [m];
    }
  }

  ghost predicate BoundsHistory(limit: int, channel: Option<string>) {
    forall ctx: Context :: |RecentHistory(ctx, limit, channel)| <= limit
  }

  /** A limit bounds what is returned, whatever the history, exactly when it is at least one. */
  lemma RecentHistoryBoundedIff(limit: int, channel: Option<string>)
    ensures BoundsHistory(limit, channel) <==> limit >= 1
  {
    if limit >= 1 {
      forall ctx: Context
        ensures |RecentHistory(ctx, limit, channel)| <= limit
      {
        RecentHistoryIsSuffix(ctx, limit, channel);
      }
    } else {
      var ctx := Exceeds(limit, channel);
    }
  }

  lemma Exceeds(limit: int, channel: Option<string>) returns (ctx: Context)
    requires limit < 1
    ensures |RecentHistory(ctx, limit, channel)| > limit
  {
    var m := Turn("user", "", if channel.Some? then channel.value else "", 0);
    ctx := Context([m], [], "", 0, []);
    OnlyMessage(m, channel);
  }

  /** One user's mutable state, shared by reference between the store and its callers. */
  class UserContext {
    const userId: string
    var history: seq<Turn>
    var goals: seq<Goal>
    var lastChannel: string
    var last: int
    ghost var spoken: seq<Turn>

    constructor (userId: string, born: int)
      ensures View() == Context([], [], "", born, []) && this.userId == userId
    {
      this.userId := userId;
      history, goals, lastChannel, last, spoken := [], [], "", born, [];
    }

    ghost function View(): Context
      reads this
    {
      Context(history, goals, lastChannel, last, spoken)
    }

    method SetGoals(goals: seq<Goal>)
      modifies this`goals
      ensures View() == old(View()).(goals := goals)
    {
      this.goals := goals;
    }

    /** Append an exchange and cut the history to its limit. */
    method AddTurn(c: Call, limit: int)
      requires c.RecordTurn?
      modifies this
      ensures View() == Recorded(old(View()), c, limit)
    {
      history := history + Exchange(c);
      if |history| > limit {
        history := PySuffix(history, limit);
      }
      lastChannel, last, spoken := c.channel, c.now, spoken + Exchange(c);
    }
  }

  class UnifiedContextManager {
    const maxHistory: int
    const maxUsers: int
    var order: seq<string>
    var store: map<string, UserContext>
    ghost var clock: int
    ghost var touches: seq<string>

    constructor (maxHistory: int, maxUsers: int)
      ensures Valid() && View() == Init(maxHistory, maxUsers)
    {
      this.maxHistory, this.maxUsers := maxHistory, maxUsers;
      order, store, clock, touches := [], map[], 0, [];
    }

    /** Every user has its own context object. */
    ghost predicate Valid()
      reads this, store.Values
      ensures Valid() ==> Consistent(View())
    {
      && (forall k :: k in store ==> store[k].userId == k)
      && NoDuplicates(order)
      && (forall k :: k in order <==> k in store)
    }

    ghost function Contexts(): (c: map<string, Context>)
      reads `store, store.Values
      ensures forall k :: k in c <==> k in store
      ensures forall k :: k in store ==> c[k] == store[k].View()
    {
      map k | k in store :: store[k].View()
    }

    ghost function View(): Store
      reads this, store.Values
    {
      Store(maxHistory, maxUsers, order, Contexts(), clock, touches)
    }

    /** `min` over the dict by time stamp; an earlier key wins a tie. */
    method OldestKey() returns (k: string)
      requires Valid() && order != []
      ensures k in store && k == Oldest(order, Contexts())
    {
      ghost var contexts := Contexts();
      var i := |order| - 1;
      k := order[i];
      assert k in order;
      while i > 0
        invariant 0 <= i < |order| && k in store
        invariant k == Oldest(order, contexts, i)
      {
        i := i - 1;
        assert order[i] in order;
        if store[order[i]].last <= store[k].last {
          k := order[i];
        }
      }
    }

    method Drop(k: string)
      requires Valid() && k in store
      modifies this`order, this`store
      ensures Valid() && order == Without(old(order), k) && store == old(store) - {k}
      ensures Contexts() == old(Contexts()) - {k}
    {
      ghost var was := Contexts();
      DropKey(order, was, k);
      order, store := Without(order, k), store - {k};
      assert Contexts() == was - {k};
    }

    method MakeRoom()
      requires Valid() && order != []
      modifies this`order, this`store
      ensures Valid() && View() == Evicted(old(View()))
      ensures forall k :: k in store ==> k in old(store) && store[k] == old(store)[k]
    {
      if |order| >= maxUsers {
        ghost var was := Contexts();
        var oldest := OldestKey();
        Drop(oldest);
        assert Contexts() == was - {oldest};
      }
    }

    method Insert(user: string, born: int)
      requires Valid() && user !in store
      modifies this
      ensures Valid() && View() == Inserted(old(View()), user, born)
      ensures store == old(store)[user := store[user]] && fresh(store[user])
    {
      var c := new UserContext(user, born);
      Link(user, c);
      Note(born, user);
    }

    /** A new object at the end of the dict. */
    method Link(user: string, c: UserContext)
      requires Valid() && user !in store && c.userId == user
      modifies this`order, this`store
      ensures Valid() && order == old(order) + [user] && store == old(store)[user := c]
      ensures Contexts() == old(Contexts())[user := c.View()]
    {
      SnocDistinct(order, user);
      ghost var was := Contexts();
      order, store := order + [user], store[user := c];
      assert Contexts() == was[user := c.View()];
    }

    /** A use of a user, in the histories. */
    ghost method Note(now: int, user: string)
      requires Valid()
      modifies this`clock, this`touches
      ensures Valid() && Contexts() == old(Contexts())
      ensures clock == now && touches == old(touches) + [user]
    {
      clock, touches := now, touches + [user];
    }

    /** `get`: the caller receives the stored object itself, not a copy. */
    method GetContext(user: string, born: int) returns (ctx: Option<UserContext>)
      requires Valid()
      modifies this
      ensures Valid() && ctx.Some? == Fetch(old(View()), user, born).Some?
      ensures ctx.Some? ==> Some(View()) == Fetch(old(View()), user, born)
      ensures ctx.Some? ==> user in store && store[user] == ctx.value
      ensures ctx.None? ==> View() == old(View())
      ensures forall k :: k in store ==> (k in old(store) && store[k] == old(store)[k]) || fresh(store[k])
    {
      if user !in store {
        if order != [] {
          MakeRoom();
        } else if maxUsers <= 0 {
          return None;
        }
        Insert(user, born);
      }
      ctx := Some(store[user]);
    }

    /** Speaking to one user's object changes that user's context and no other. */
    method Speak(u: UserContext, c: Call)
      requires Valid() && c.RecordTurn? && c.user in store && store[c.user] == u
      modifies u
      ensures Valid() && Contexts() == old(Contexts())[c.user := Recorded(old(u.View()), c, maxHistory)]
    {
      u.AddTurn(c, maxHistory);
      forall k | k in store && k != c.user
        ensures store[k] != u
      {
      }
    }

    method Converse(u: UserContext, c: Call)
      requires Valid() && c.RecordTurn? && c.user in store && store[c.user] == u
      modifies this`clock, this`touches, u
      ensures Valid() && View() == AfterTurn(old(View()), c) && store == old(store)
    {
      ghost var was := Contexts();
      assert was[c.user] == u.View();
      Speak(u, c);
      Note(c.now, c.user);
      assert Contexts() == was[c.user := Recorded(was[c.user], c, maxHistory)];
    }

    method ReplaceGoals(u: UserContext, user: string, goals: seq<Goal>)
      requires Valid() && user in store && store[user] == u
      modifies u
      ensures Valid() && Contexts() == old(Contexts())[user := old(u.View()).(goals := goals)]
    {
      u.SetGoals(goals);
      forall k | k in store && k != user
        ensures store[k] != u
      {
      }
    }

    /** `record_turn`: the context is changed in place. */
    method Record(c: Call) returns (ctx: Option<UserContext>)
      requires Valid() && c.RecordTurn?
      modifies this, store.Values
      ensures Valid() && ctx.Some? == Apply(old(View()), c).Some?
      ensures ctx.Some? ==> Some(View()) == Apply(old(View()), c)
      ensures ctx.Some? ==> c.user in store && store[c.user] == ctx.value
      ensures ctx.None? ==> View() == old(View())
    {
      ctx := GetContext(c.user, c.born);
      if ctx.Some? {
        FetchAgain(old(View()), c);
        Converse(ctx.value, c);
      }
    }

    /** `set_active_goal` and `clear_goal`. */
    method ChangeGoal(c: Call)
      returns (ok: bool)
      requires Valid() && (c.SetGoal? || c.ClearGoal?)
      modifies this, store.Values
      ensures Valid() && ok == Apply(old(View()), c).Some?
      ensures ok ==> Some(View()) == Apply(old(View()), c)
    {
      var ctx := GetContext(c.user, c.born);
      ok := ctx.Some?;
      if ok {
        FetchAgain(old(View()), c);
        var others := OtherGoals(ctx.value.goals, if c.SetGoal? then c.goal.id else c.goalId);
        ReplaceGoals(ctx.value, c.user, if c.SetGoal? then others + [c.goal] else others);
      }
    }
  }
}
