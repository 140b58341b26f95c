/**
 * What the embedding service computes, in values: tiers as lookups, answers in batches, and the
 * bookkeeping of places that are still missing.
 *
 * Everything outside the service is an argument: a `Schedule` says, for every await of a call,
 * what other coroutines, expiry and pruning do to the shared tiers first, whether the access
 * itself succeeds, and what the API answers.
 */
module EmbeddingSpec {
  import opened Sequences
  import opened Recency

  type Vector = seq<real>

  const MAX_BATCH_SIZE: nat := 128

  /** What can happen to the shared state while a call is suspended. */
  datatype Event =
    | OtherGet(text: string)
    | OtherPut(text: string, vector: Vector)
    | OtherRedisSet(text: string, vector: Vector)
    | OtherSqlitePut(text: string, vector: Vector)
    | RedisLoses(keys: set<string>)
    | SqliteLoses(keys: set<string>)

  function FirstAnswer(reply: ApiReply): Option<Vector> {
    if reply.ApiReturned? && reply.vectors != [] then Some(reply.vectors[0]) else None
  }

  /** One awaited tier access: the events before it, and whether it succeeds. */
  datatype Access = Access(before: seq<Event>, ok: bool)

  datatype ApiReply = ApiFailed | ApiReturned(vectors: seq<Vector>)

  /** The reply to the n-th request of a call, for a batch of texts. */
  type Api = (nat, seq<string>) -> ApiReply

  datatype Schedule = Schedule(
    redisReady: bool, redisRaises: bool, redisRead: nat -> Access,
    sqliteEnabled: bool, sqliteRead: nat -> Access,
    api: Api, apiBefore: nat -> seq<Event>,
    sqliteEnabledAfter: bool, sqliteWrite: nat -> Access,
    redisReadyAfter: bool, redisWrite: nat -> Access)

  /** No other coroutine runs during these accesses. */
  ghost predicate Calm(a: nat -> Access) {
    forall n: nat :: a(n).before == []
  }

  ghost predicate Works(a: nat -> Access) {
    forall n: nat :: a(n).ok
  }

  /** No other coroutine runs while the call is suspended. */
  ghost predicate Quiet(s: Schedule) {
    && Calm(s.redisRead) && Calm(s.sqliteRead) && (forall n: nat :: s.apiBefore(n) == [])
    && Calm(s.sqliteWrite) && Calm(s.redisWrite)
  }

  /** Nobody interferes and every access succeeds. The API may still fail. */
  ghost predicate Healthy(s: Schedule) {
    && Quiet(s) && !s.redisRaises
    && Works(s.redisRead) && Works(s.sqliteRead) && Works(s.sqliteWrite) && Works(s.redisWrite)
  }

  type Lookup = string -> Option<Vector>

  /** What a tier that is on answers. */
  function HitIn(on: bool, tier: map<string, Vector>): Lookup {
    k => if on && k in tier then Some(tier[k]) else None
  }

  /** What a tier answers for each place of a call. */
  type Tier = nat -> Option<Vector>

  function Behind(front: Tier, back: Tier): Tier {
    (i: nat) => if front(i).Some? then front(i) else back(i)
  }

  /** The first `n` lookups gave what the tier answers. */
  ghost predicate FoundAt(missed: seq<nat>, found: seq<Option<Vector>>, tier: Tier, n: nat) {
    && |found| == |missed| && n <= |missed|
    && forall j :: 0 <= j < n ==> found[j] == tier(missed[j])
  }

  /** The places outside `left` have what the tier answers, and it has no answer for the others. */
  ghost predicate ResolvedAt(tier: Tier, results: seq<Option<Vector>>, left: seq<nat>) {
    && (forall i :: 0 <= i < |results| && i !in left ==> results[i].Some? && results[i] == tier(i))
    && (forall i :: 0 <= i < |results| && i in left ==> tier(i).None?)
  }

  /** Merging a tier's answers puts that tier behind the ones asked before. */
  lemma ResolveStep(front: Tier, back: Tier, missed: seq<nat>, found: seq<Option<Vector>>,
                    partial: seq<Option<Vector>>, results: seq<Option<Vector>>, left: seq<nat>)
    requires ResolvedAt(front, partial, missed) && FoundAt(missed, found, back, |missed|)
    requires Merged(missed, found, |missed|, partial, results, left)
    ensures ResolvedAt(Behind(front, back), results, left)
  {
    forall i | 0 <= i < |results| && i !in left
      ensures results[i].Some? && results[i] == Behind(front, back)(i)
    {
      if i in missed {
        var j :| 0 <= j < |missed| && missed[j] == i && found[j].Some? && results[i] == found[j];
      }
    }
    forall i | 0 <= i < |results| && i in left
      ensures Behind(front, back)(i).None?
    {
      var j :| 0 <= j < |missed| && missed[j] == i && found[j].None?;
    }
  }

  /** One tier in front of another. */
  function Layer(front: Lookup, back: Lookup): Lookup {
    k => if front(k).Some? then front(k) else back(k)
  }

  /** `tier` with the first `n` vectors stored under their keys, one after the other. */
  function PutAll(tier: map<string, Vector>, keys: seq<string>, vs: seq<Vector>, n: nat): map<string, Vector>
    requires n <= |keys| && n <= |vs|
  {
    if n == 0 then tier else PutAll(tier, keys, vs, n - 1)[keys[n - 1] := vs[n - 1]]
  }

  lemma PutAllNext(tier: map<string, Vector>, keys: seq<string>, vs: seq<Vector>, n: nat)
    requires n < |keys| && n < |vs|
    ensures PutAll(tier, keys, vs, n + 1) == PutAll(tier, keys, vs, n)[keys[n] := vs[n]]
  {
  }

  /** A tier written to holds the old keys and the new ones; only the new ones have new vectors. */
  lemma {:induction false} PutAllMeans(tier: map<string, Vector>, keys: seq<string>, vs: seq<Vector>, n: nat, k: string)
    requires n <= |keys| && n <= |vs|
    ensures k in PutAll(tier, keys, vs, n) <==> k in tier || k in keys[..n]
    ensures k in tier && k !in keys[..n] ==> PutAll(tier, keys, vs, n)[k] == tier[k]
    ensures k in keys[..n] ==> exists j :: 0 <= j < n && keys[j] == k && PutAll(tier, keys, vs, n)[k] == vs[j]
  {
    if n > 0 {
      PutAllMeans(tier, keys, vs, n - 1, k);
      assert keys[..n] == keys[..n - 1] + [keys[n - 1]];
    }
  }

  /** How many pairs `zip` gives. */
  function Zipped<A, B>(a: seq<A>, b: seq<B>): (n: nat)
    ensures n <= |a| && n <= |b| && (n == |a| || n == |b|)
  {
    if |a| < |b| then |a| else |b|
  }

  /** A call that returned with a vector at every place. */
  ghost predicate Whole(r: Option<seq<Option<Vector>>>) {
    r.Some? && forall i :: 0 <= i < |r.value| ==> r.value[i].Some?
  }

  /** The answer of a place, which a short list of answers leaves without one. */
  function AnswerAt(vs: seq<Vector>, j: nat): Option<Vector> {
    if j < |vs| then Some(vs[j]) else None
  }

  lemma PutOne(tier: map<string, Vector>, k: string, v: Vector)
    ensures PutAll(tier, [k], [v], 1) == tier[k := v]
  {
    assert PutAll(tier, [k], [v], 0) == tier;
  }

  /** Requests for `n` texts: one for each batch. */
  function Requests(n: nat): (r: nat)
    ensures MAX_BATCH_SIZE * (r - 1) < n <= MAX_BATCH_SIZE * r || n == r == 0
  {
    if n == 0 then 0
    else if n <= MAX_BATCH_SIZE then 1
    else 1 + Requests(n - MAX_BATCH_SIZE)
  }

  lemma RequestsAre(n: nat, requests: nat)
    requires n <= MAX_BATCH_SIZE * requests && (requests > 0 ==> MAX_BATCH_SIZE * (requests - 1) < n)
    ensures Requests(n) == requests
  {
  }

  /** `texts[start : start + MAX_BATCH_SIZE]` of the `n`-th batch */
  function Batch(texts: seq<string>, n: nat): seq<string> {
    texts[Upto(texts, n)..Upto(texts, n + 1)]
  }

  /** How many texts the first `n` batches hold. */
  function Upto(texts: seq<string>, n: nat): (k: nat)
    ensures k <= |texts|
  {
    if MAX_BATCH_SIZE * n < |texts| then MAX_BATCH_SIZE * n else |texts|
  }

  /** A batch is the next 128 texts, or as many as are left. */
  lemma BatchIs(texts: seq<string>, n: nat)
    requires 128 * n <= |texts|
    ensures Batch(texts, n) == if 128 * n + 128 <= |texts| then texts[128 * n..128 * n + 128] else texts[128 * n..]
    ensures 128 * (Requests(|texts|) - 1) < |texts| <= 128 * Requests(|texts|) || |texts| == Requests(|texts|) == 0
  {
  }

  /** The answers to the first `n` batches, put one after the other; `None` when one fails. */
  function AnswersTo(api: Api, texts: seq<string>, n: nat): Option<seq<Vector>> {
    if n == 0 then Some([])
    else
      var before, reply := AnswersTo(api, texts, n - 1), api(n - 1, Batch(texts, n - 1));
      if before.None? || reply.ApiFailed? then None else Some(before.value + reply.vectors)
  }

  /** The answers to all the texts. */
  function BatchAnswers(api: Api, texts: seq<string>): Option<seq<Vector>> {
    AnswersTo(api, texts, Requests(|texts|))
  }

  /** One failure is a failure of the call. */
  lemma {:induction false} FailureStays(api: Api, texts: seq<string>, n: nat, more: nat)
    requires AnswersTo(api, texts, n).None? && n <= more
    ensures AnswersTo(api, texts, more).None?
    decreases more
  {
    if n < more {
      FailureStays(api, texts, n, more - 1);
    }
  }

  lemma BatchFailed(api: Api, texts: seq<string>, n: nat)
    requires MAX_BATCH_SIZE * n < |texts| && AnswersTo(api, texts, n + 1).None?
    ensures BatchAnswers(api, texts).None?
  {
    FailureStays(api, texts, n + 1, Requests(|texts|));
  }

  /** The first `n` answers of a tier were merged into `partial`. */
  ghost predicate Merged(missed: seq<nat>, found: seq<Option<Vector>>, n: nat,
                         partial: seq<Option<Vector>>, results: seq<Option<Vector>>, left: seq<nat>) {
    && n <= |missed| == |found| && |results| == |partial|
    && (forall i :: 0 <= i < |results| && i !in missed[..n] ==> results[i] == partial[i])
    && (forall i :: 0 <= i < |results| && i in missed[..n] && i !in left ==>
          exists j :: 0 <= j < n && missed[j] == i && found[j].Some? && results[i] == found[j])
    && (forall i :: i in left ==> exists j :: 0 <= j < n && missed[j] == i && found[j].None?)
  }

  lemma MergeStep(missed: seq<nat>, found: seq<Option<Vector>>, n: nat,
                  partial: seq<Option<Vector>>, results: seq<Option<Vector>>, left: seq<nat>)
    requires Merged(missed, found, n, partial, results, left) && n < |missed| && missed[n] < |results|
    ensures if found[n].Some? then Merged(missed, found, n + 1, partial, results[missed[n] := found[n]], left)
            else Merged(missed, found, n + 1, partial, results, left + [missed[n]])
  {
    assert missed[..n + 1] == missed[..n] + [missed[n]];
  }

  /** The listed places have no vector yet. */
  ghost predicate NoneAt(results: seq<Option<Vector>>, idx: seq<nat>) {
    forall j :: 0 <= j < |idx| && idx[j] < |results| ==> results[idx[j]].None?
  }

  /** Merging the first `n` answers: the results, and the places that stay without one. */
  function Merging(missed: seq<nat>, found: seq<Option<Vector>>, partial: seq<Option<Vector>>, n: nat)
    : (r: (seq<Option<Vector>>, seq<nat>))
    requires n <= |missed| == |found| && forall j :: 0 <= j < |missed| ==> missed[j] < |partial|
    ensures |r.0| == |partial|
  {
    if n == 0 then (partial, [])
    else
      var (results, left) := Merging(missed, found, partial, n - 1);
      if found[n - 1].Some? then (results[missed[n - 1] := found[n - 1]], left)
      else (results, left + [missed[n - 1]])
  }

  lemma MergingStep(missed: seq<nat>, found: seq<Option<Vector>>, partial: seq<Option<Vector>>, n: nat,
                    before: (seq<Option<Vector>>, seq<nat>), after: (seq<Option<Vector>>, seq<nat>))
    requires 0 < n <= |missed| == |found| && missed[n - 1] < |before.0|
    requires InMerge(missed, found, n - 1, partial, before.0, before.1)
    requires after.0 == if found[n - 1].Some? then before.0[missed[n - 1] := found[n - 1]] else before.0
    requires after.1 == if found[n - 1].Some? then before.1 else before.1 + [missed[n - 1]]
    ensures InMerge(missed, found, n, partial, after.0, after.1)
  {
    MergeAdvances(missed, found, n - 1, partial, before.0, before.1);
  }

  lemma {:induction false} MergingMeans(missed: seq<nat>, found: seq<Option<Vector>>, partial: seq<Option<Vector>>, n: nat)
    requires n <= |missed| == |found| && forall j :: 0 <= j < |missed| ==> missed[j] < |partial|
    ensures InMerge(missed, found, n, partial, Merging(missed, found, partial, n).0, Merging(missed, found, partial, n).1)
  {
    if n > 0 {
      MergingMeans(missed, found, partial, n - 1);
      MergingStep(missed, found, partial, n, Merging(missed, found, partial, n - 1), Merging(missed, found, partial, n));
    }
  }

  /** After a merge each place has its own answer, and a place without one has none. */
  lemma AllMerged(missed: seq<nat>, found: seq<Option<Vector>>, partial: seq<Option<Vector>>,
                  results: seq<Option<Vector>>, left: seq<nat>)
    requires InMerge(missed, found, |missed|, partial, results, left) && Ascending(missed) && NoneAt(partial, missed)
    requires forall j :: 0 <= j < |missed| ==> missed[j] < |results|
    ensures forall i :: 0 <= i < |results| && i !in missed ==> results[i] == partial[i]
    ensures forall j :: 0 <= j < |missed| ==> results[missed[j]] == found[j]
  {
    assert missed[..|missed|] == missed;
    forall j | 0 <= j < |missed|
      ensures results[missed[j]] == found[j]
    {
      OwnAnswer(missed, found, partial, results, left, j);
    }
  }

  lemma OwnAnswer(missed: seq<nat>, found: seq<Option<Vector>>, partial: seq<Option<Vector>>,
                  results: seq<Option<Vector>>, left: seq<nat>, j: nat)
    requires InMerge(missed, found, |missed|, partial, results, left) && Ascending(missed) && NoneAt(partial, missed)
    requires j < |missed| && missed[j] < |results|
    ensures results[missed[j]] == found[j]
  {
    var i := missed[j];
    assert missed[..|missed|] == missed && i in missed;
    if i in left {
      var k :| 0 <= k < |missed| && missed[k] == i && found[k].None?;
      assert k == j;
    } else {
      var k :| 0 <= k < |missed| && missed[k] == i && found[k].Some? && results[i] == found[k];
      assert k == j;
    }
  }

  /** What is left over still has no vector. */
  lemma LeftHasNone(missed: seq<nat>, found: seq<Option<Vector>>, partial: seq<Option<Vector>>,
                    results: seq<Option<Vector>>, left: seq<nat>)
    requires InMerge(missed, found, |missed|, partial, results, left) && Ascending(missed) && NoneAt(partial, missed)
    ensures NoneAt(results, left)
  {
    forall l | 0 <= l < |left| && left[l] < |results|
      ensures results[left[l]].None?
    {
      assert left[l] in left;
      var k :| 0 <= k < |missed| && missed[k] == left[l] && found[k].None?;
    }
  }

  /** Indices in increasing order. */
  ghost predicate Ascending(idx: seq<nat>) {
    forall i, j :: 0 <= i < j < |idx| ==> idx[i] < idx[j]
  }

  lemma MergeAscends(missed: seq<nat>, found: seq<Option<Vector>>, n: nat,
                     partial: seq<Option<Vector>>, results: seq<Option<Vector>>, left: seq<nat>)
    requires Merged(missed, found, n, partial, results, left) && n < |missed|
    requires Ascending(missed) && Ascending(left)
    ensures Ascending(left + [missed[n]])
  {
    forall i | 0 <= i < |left|
      ensures left[i] < missed[n]
    {
      assert left[i] in left;
    }
  }

  lemma OthersUntouched(missed: seq<nat>, found: seq<Option<Vector>>, n: nat,
                        partial: seq<Option<Vector>>, results: seq<Option<Vector>>, left: seq<nat>)
    requires Merged(missed, found, n, partial, results, left) && n < |missed| && missed[n] < |results|
    requires Ascending(missed) && forall i :: i in left && i < |results| ==> results[i] == partial[i]
    ensures results[missed[n]] == partial[missed[n]]
    ensures forall i :: i in left && i < |results| ==> results[missed[n] := found[n]][i] == partial[i]
  {
    assert missed[n] !in missed[..n];
    forall i | i in left
      ensures i != missed[n]
    {
      var j :| 0 <= j < n && missed[j] == i && found[j].None?;
    }
  }

  ghost predicate InMerge(missed: seq<nat>, found: seq<Option<Vector>>, n: nat,
                          partial: seq<Option<Vector>>, results: seq<Option<Vector>>, left: seq<nat>) {
    && Merged(missed, found, n, partial, results, left)
    && (Ascending(missed) ==>
          Ascending(left) && forall i :: i in left && i < |results| ==> results[i] == partial[i])
  }

  lemma MergeAdvances(missed: seq<nat>, found: seq<Option<Vector>>, n: nat,
                      partial: seq<Option<Vector>>, results: seq<Option<Vector>>, left: seq<nat>)
    requires InMerge(missed, found, n, partial, results, left) && n < |missed| && missed[n] < |results|
    ensures InMerge(missed, found, n + 1, partial,
                    if found[n].Some? then results[missed[n] := found[n]] else results,
                    if found[n].Some? then left else left + [missed[n]])
  {
    MergeStep(missed, found, n, partial, results, left);
    if Ascending(missed) {
      MergeAscends(missed, found, n, partial, results, left);
      OthersUntouched(missed, found, n, partial, results, left);
    }
  }

  function Pick<T>(s: seq<T>, idx: seq<nat>): (r: seq<T>)
    requires forall j :: 0 <= j < |idx| ==> idx[j] < |s|
    ensures |r| == |idx| && forall j :: 0 <= j < |idx| ==> r[j] == s[idx[j]]
  {
    seq(|idx|, j requires 0 <= j < |idx| => s[idx[j]])
  }

  /** `idx` lists the places of the elements to keep. */
  ghost predicate Places<T>(s: seq<T>, keep: T -> bool, idx: seq<nat>) {
    && Ascending(idx) && (forall j :: 0 <= j < |idx| ==> idx[j] < |s| && keep(s[idx[j]]))
    && (forall i :: 0 <= i < |s| && keep(s[i]) ==> i in idx)
  }

  /** Filtering a prefix is picking the places below its end. */
  lemma {:induction false} FilterIsPick<T>(s: seq<T>, keep: T -> bool, idx: seq<nat>, n: nat, c: nat)
    requires Places(s, keep, idx) && Below(idx, n, c) && n <= |s|
    ensures Filter(s[..n], keep) == Pick(s, idx)[..c]
  {
    if n > 0 {
      FilterPrefix(s, keep, n);
      if keep(s[n - 1]) {
        LastPlace(s, keep, idx, n, c);
        FilterIsPick(s, keep, idx, n - 1, c - 1);
        PickPrefix(s, idx, c);
      } else {
        NoPlace(s, keep, idx, n, c);
        FilterIsPick(s, keep, idx, n - 1, c);
      }
    } else {
      assert c == 0 && s[..0] == [];
    }
  }

  /** The first `c` places are those below `n`. */
  ghost predicate Below(idx: seq<nat>, n: nat, c: nat) {
    c <= |idx| && (c > 0 ==> idx[c - 1] < n) && (c < |idx| ==> idx[c] >= n)
  }

  lemma PickPrefix<T>(s: seq<T>, idx: seq<nat>, c: nat)
    requires 0 < c <= |idx| && forall j :: 0 <= j < |idx| ==> idx[j] < |s|
    ensures Pick(s, idx)[..c] == Pick(s, idx)[..c - 1] + [s[idx[c - 1]]]
  {
  }

  lemma FilterPrefix<T>(s: seq<T>, keep: T -> bool, n: nat)
    requires 0 < n <= |s|
    ensures Filter(s[..n], keep) == Filter(s[..n - 1], keep) + (if keep(s[n - 1]) then [s[n - 1]] else [])
  {
    assert s[..n] == s[..n - 1] + [s[n - 1]];
    FilterSnoc(s[..n - 1], s[n - 1], keep);
  }

  lemma LastPlace<T>(s: seq<T>, keep: T -> bool, idx: seq<nat>, n: nat, c: nat)
    requires Places(s, keep, idx) && Below(idx, n, c) && 0 < n <= |s| && keep(s[n - 1])
    ensures c > 0 && idx[c - 1] == n - 1 && Below(idx, n - 1, c - 1)
  {
    var j :| 0 <= j < |idx| && idx[j] == n - 1;
    assert j == c - 1;
  }

  lemma NoPlace<T>(s: seq<T>, keep: T -> bool, idx: seq<nat>, n: nat, c: nat)
    requires Places(s, keep, idx) && Below(idx, n, c) && 0 < n <= |s| && !keep(s[n - 1])
    ensures Below(idx, n - 1, c)
  {
    if c > 0 {
      assert keep(s[idx[c - 1]]);
    }
  }

  /** `k` was touched after the trace was `mark`. */
  ghost predicate Since(mark: seq<string>, trace: seq<string>, k: string) {
    mark <= trace && k in trace[|mark|..]
  }

  lemma SinceGrows(mark: seq<string>, trace: seq<string>, trace': seq<string>)
    requires mark <= trace <= trace'
    ensures forall k :: Since(mark, trace, k) ==> Since(mark, trace', k)
  {
    assert trace'[|mark|..] == trace[|mark|..] + trace'[|trace|..];
  }

  lemma SinceSnoc(mark: seq<string>, trace: seq<string>, k: string)
    requires mark <= trace
    ensures forall x :: Since(mark, trace + [k], x) <==> Since(mark, trace, x) || x == k
  {
    assert (trace + [k])[|mark|..] == trace[|mark|..] + [k];
  }

  lemma KeysAfterPut<V>(order: seq<string>, stored: map<string, V>, key: string, v: V)
    requires forall k :: k in stored <==> k in order
    ensures forall k :: k in stored[key := v] <==> k in MoveToEnd(order, key)
  {
    forall k
      ensures k in MoveToEnd(order, key) <==> k in order || k == key
    {
      WithoutMembers(order, key, k);
    }
  }

  lemma KeysAfterPop<V>(order: seq<string>, stored: map<string, V>)
    requires NoDuplicates(order) && order != [] && forall k :: k in stored <==> k in order
    ensures forall k :: k in stored - {order[0]} <==> k in order[1..]
  {
    assert order == [order[0]] + order[1..];
    assert order[0] !in order[1..];
  }

  lemma SuffixDistinct<K>(s: seq<K>, n: nat)
    requires NoDuplicates(s)
    ensures NoDuplicates(LastN(s, n))
  {
  }

  lemma MoveToEndDistinct<K>(s: seq<K>, k: K)
    requires NoDuplicates(s)
    ensures NoDuplicates(MoveToEnd(s, k))
  {
    WithoutDistinct(s, k);
    WithoutMembers(s, k, k);
  }

  lemma {:induction false} ImageSize(s: set<string>, f: string -> string)
    ensures |set t | t in s :: f(t)| <= |s|
  {
    if s != {} {
      var x :| x in s;
      ImageSize(s - {x}, f);
      assert (set t | t in s :: f(t)) == (set t | t in s - {x} :: f(t)) + {f(x)};
    }
  }

  lemma {:induction false} SubsetSize<K>(a: set<K>, b: set<K>)
    requires a <= b
    ensures |a| <= |b|
  {
    assert b == a + (b - a);
  }

  /** A schedule in which only the API answers, with the same vector for every text. */
  function Constant(v: Vector): Schedule {
    Schedule(false, false, _ => Access([], true), false, _ => Access([], true),
             (_, batch: seq<string>) => ApiReturned(Each(batch, _ => v)), _ => [],
             false, _ => Access([], true), false, _ => Access([], true))
  }

  function Each(texts: seq<string>, doc: string -> Vector): (vs: seq<Vector>)
    ensures |vs| == |texts| && forall j :: 0 <= j < |texts| ==> vs[j] == doc(texts[j])
  {
    seq(|texts|, j requires 0 <= j < |texts| => doc(texts[j]))
  }

  /** Every reply of the API is by `doc`, the vectors of one model and input type. */
  ghost predicate AnswersBy(api: Api, doc: string -> Vector) {
    forall n: nat, batch: seq<string> :: api(n, batch).ApiReturned? ==> api(n, batch).vectors == Each(batch, doc)
  }

  lemma {:induction false} AnsweredBy(api: Api, texts: seq<string>, n: nat, doc: string -> Vector)
    requires AnswersBy(api, doc) && AnswersTo(api, texts, n).Some?
    ensures AnswersTo(api, texts, n).value == Each(texts[..Upto(texts, n)], doc)
  {
    if n > 0 {
      AnsweredBy(api, texts, n - 1, doc);
      var k, m := Upto(texts, n - 1), Upto(texts, n);
      assert Each(texts[..k], doc) + Each(texts[k..m], doc) == Each(texts[..m], doc);
    }
  }

  lemma AllAnsweredBy(api: Api, texts: seq<string>, doc: string -> Vector)
    requires AnswersBy(api, doc) && BatchAnswers(api, texts).Some?
    ensures BatchAnswers(api, texts).value == Each(texts, doc)
  {
    AnsweredBy(api, texts, Requests(|texts|), doc);
    assert texts[..|texts|] == texts;
  }

  // ---- Short batches -------------------------------------------------------------------------

  function Reply(api: Api, texts: seq<string>, n: nat): seq<Vector> {
    var reply := api(n, Batch(texts, n));
    if reply.ApiReturned? then reply.vectors else []
  }

  /** Each reply holds the vectors of the first texts of its batch, perhaps not of all. */
  ghost predicate AnswersPrefixes(api: Api, texts: seq<string>, doc: string -> Vector) {
    forall n: nat :: AnswersPrefix(api, texts, n, doc)
  }

  ghost predicate AnswersPrefix(api: Api, texts: seq<string>, n: nat, doc: string -> Vector) {
    Reply(api, texts, n) <= Each(Batch(texts, n), doc)
  }

  /** The `n`-th reply is shorter than its batch. */
  predicate Short(api: Api, texts: seq<string>, n: nat) {
    |Reply(api, texts, n)| < |Batch(texts, n)|
  }

  ghost predicate AllFull(api: Api, texts: seq<string>, n: nat) {
    forall i :: 0 <= i < n ==> !Short(api, texts, i)
  }

  /** After a short reply only empty ones come. */
  ghost predicate NoGap(api: Api, texts: seq<string>, n: nat) {
    forall m :: 0 <= m < n ==> Fits(api, texts, m)
  }

  ghost predicate Fits(api: Api, texts: seq<string>, n: nat) {
    Reply(api, texts, n) != [] ==> AllFull(api, texts, n)
  }

  /** Every answer stands at the place of its text. */
  ghost predicate Aligned(texts: seq<string>, vs: seq<Vector>, doc: string -> Vector) {
    |vs| <= |texts| && forall j :: 0 <= j < |vs| ==> vs[j] == doc(texts[j])
  }

  /** Texts at different places have different vectors. */
  ghost predicate Apart(texts: seq<string>, doc: string -> Vector) {
    forall i, j :: 0 <= i < j < |texts| ==> doc(texts[i]) != doc(texts[j])
  }

  lemma EachFits(reply: seq<Vector>, texts: seq<string>, doc: string -> Vector)
    requires reply <= Each(texts, doc)
    ensures |reply| <= |texts|
  {}

  lemma UptoNext(texts: seq<string>, n: nat)
    ensures Upto(texts, n + 1) == Upto(texts, n) + |Batch(texts, n)|
  {}

  lemma {:induction false} AnsweredLength(api: Api, texts: seq<string>, n: nat, doc: string -> Vector)
    requires AnswersPrefixes(api, texts, doc) && AnswersTo(api, texts, n).Some?
    ensures |AnswersTo(api, texts, n).value| <= Upto(texts, n)
    ensures |AnswersTo(api, texts, n).value| == Upto(texts, n) <==> AllFull(api, texts, n)
  {
    if n > 0 {
      AnsweredLength(api, texts, n - 1, doc);
      assert AnswersPrefix(api, texts, n - 1, doc);
      EachFits(Reply(api, texts, n - 1), Batch(texts, n - 1), doc);
      UptoNext(texts, n - 1);
      assert AllFull(api, texts, n) <==> AllFull(api, texts, n - 1) && !Short(api, texts, n - 1);
    }
  }

  lemma AnswersNext(api: Api, texts: seq<string>, n: nat, doc: string -> Vector)
    requires AnswersPrefixes(api, texts, doc) && AnswersTo(api, texts, n + 1).Some?
    ensures AnswersTo(api, texts, n).Some? && Reply(api, texts, n) <= Each(Batch(texts, n), doc)
    ensures AnswersTo(api, texts, n + 1).value == AnswersTo(api, texts, n).value + Reply(api, texts, n)
  {
    assert AnswersPrefix(api, texts, n, doc);
  }

  lemma NoGapNext(api: Api, texts: seq<string>, n: nat)
    ensures NoGap(api, texts, n + 1) <==> NoGap(api, texts, n) && Fits(api, texts, n)
  {}

  lemma NextAligned(texts: seq<string>, vs: seq<Vector>, n: nat, reply: seq<Vector>, doc: string -> Vector)
    requires Aligned(texts, vs, doc) && |vs| == Upto(texts, n) && reply <= Each(Batch(texts, n), doc)
    ensures Aligned(texts, vs + reply, doc)
  {
    var batch := Batch(texts, n);
    forall j | 0 <= j < |reply|
      ensures reply[j] == doc(texts[|vs| + j])
    {
      assert reply[j] == Each(batch, doc)[j] && batch[j] == texts[|vs| + j];
    }
  }

  /** A non-empty reply that starts too early stands at wrong places. */
  lemma NextShifted(texts: seq<string>, vs: seq<Vector>, n: nat, reply: seq<Vector>, doc: string -> Vector)
    requires Apart(texts, doc)
    requires |vs| < Upto(texts, n) && reply != [] && reply <= Each(Batch(texts, n), doc)
    ensures !Aligned(texts, vs + reply, doc)
  {
    var batch, k := Batch(texts, n), Upto(texts, n);
    assert reply[0] == Each(batch, doc)[0] && batch[0] == texts[k];
    assert (vs + reply)[|vs|] == doc(texts[k]) && doc(texts[|vs|]) != doc(texts[k]);
  }

  lemma PrefixAligned(texts: seq<string>, vs: seq<Vector>, more: seq<Vector>, doc: string -> Vector)
    ensures Aligned(texts, vs + more, doc) ==> Aligned(texts, vs, doc)
  {
    if Aligned(texts, vs + more, doc) {
      forall j | 0 <= j < |vs|
        ensures vs[j] == doc(texts[j])
      {
        assert (vs + more)[j] == vs[j];
      }
    }
  }

  lemma AlignedNext(texts: seq<string>, vs: seq<Vector>, n: nat, reply: seq<Vector>, doc: string -> Vector)
    requires |vs| <= Upto(texts, n) && reply <= Each(Batch(texts, n), doc)
    ensures Aligned(texts, vs, doc) && (|vs| == Upto(texts, n) || reply == []) ==> Aligned(texts, vs + reply, doc)
    ensures Apart(texts, doc) && Aligned(texts, vs + reply, doc)
        ==> Aligned(texts, vs, doc) && (|vs| == Upto(texts, n) || reply == [])
  {
    PrefixAligned(texts, vs, reply, doc);
    if reply == [] {
      assert vs + reply == vs;
    } else if |vs| < Upto(texts, n) {
      if Apart(texts, doc) {
        NextShifted(texts, vs, n, reply, doc);
      }
    } else if Aligned(texts, vs, doc) {
      NextAligned(texts, vs, n, reply, doc);
    }
  }

  lemma AnswersAligned(api: Api, texts: seq<string>, n: nat, doc: string -> Vector)
    requires AnswersPrefixes(api, texts, doc) && AnswersTo(api, texts, n + 1).Some?
    ensures AnswersTo(api, texts, n).Some?
    ensures var vs, more := AnswersTo(api, texts, n).value, AnswersTo(api, texts, n + 1).value;
            && (Aligned(texts, vs, doc) && Fits(api, texts, n) ==> Aligned(texts, more, doc))
            && (Apart(texts, doc) && Aligned(texts, more, doc) ==> Aligned(texts, vs, doc) && Fits(api, texts, n))
  {
    AnswersNext(api, texts, n, doc);
    AnsweredLength(api, texts, n, doc);
    AlignedNext(texts, AnswersTo(api, texts, n).value, n, Reply(api, texts, n), doc);
  }

  /** Short answers do no harm while nothing comes after them. */
  lemma {:induction false} NoGapMeansAligned(api: Api, texts: seq<string>, n: nat, doc: string -> Vector)
    requires AnswersPrefixes(api, texts, doc) && AnswersTo(api, texts, n).Some?
    requires NoGap(api, texts, n)
    ensures Aligned(texts, AnswersTo(api, texts, n).value, doc)
  {
    if n > 0 {
      AnswersAligned(api, texts, n - 1, doc);
      NoGapMeansAligned(api, texts, n - 1, doc);
      NoGapNext(api, texts, n - 1);
    }
  }

  /**
   * When short answers do harm: for an API that answers each batch in order but perhaps short, and
   * texts with different vectors, the answers put one after the other stand at the places of their
   * texts if and only if no short reply is followed by one that is not empty.
   */
  lemma {:induction false} AlignedIff(api: Api, texts: seq<string>, n: nat, doc: string -> Vector)
    requires AnswersPrefixes(api, texts, doc) && AnswersTo(api, texts, n).Some? && Apart(texts, doc)
    ensures Aligned(texts, AnswersTo(api, texts, n).value, doc) <==> NoGap(api, texts, n)
  {
    if n > 0 {
      AnswersAligned(api, texts, n - 1, doc);
      AlignedIff(api, texts, n - 1, doc);
      NoGapNext(api, texts, n - 1);
    }
  }
}
