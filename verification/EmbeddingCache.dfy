/**
 * The tiered embedding cache: an in-memory LRU over Redis, SQLite and a batched API. The theorems
 * hold for every schedule of what happens outside.
 */
module EmbeddingCache {
  import opened Sequences
  import opened Recency
  import opened EmbeddingSpec

  class EmbeddingService {
    const hash: string -> string
    const cacheSize: int
    /** What the API may answer for a text (any model and input type that shares the tiers). */
    ghost const gives: (string, Vector) -> bool

    var order: seq<string>
    var vectors: map<string, Vector>
    var redis: map<string, Vector>
    var sqlite: map<string, Vector>
    var apiCalls: nat
    /** Every key used so far: a hit or a put, in order. */
    ghost var touches: seq<string>

    constructor (hash: string -> string, cacheSize: int, ghost gives: (string, Vector) -> bool)
      ensures Valid() && touches == [] && order == [] && apiCalls == 0
      ensures this.hash == hash && this.cacheSize == cacheSize && this.gives == gives
    {
      this.hash, this.cacheSize, this.gives := hash, cacheSize, gives;
      order, vectors, redis, sqlite, apiCalls, touches := [], map[], map[], map[], 0, [];
    }

    /** The vector `v` may stand under key `k`: the API gave it for some text hashed to `k`. */
    ghost predicate Sound(k: string, v: Vector) {
      exists t :: hash(t) == k && gives(t, v)
    }

    ghost predicate AllSound(m: map<string, Vector>) {
      forall k :: k in m ==> Sound(k, m[k])
    }

    ghost predicate Valid()
      reads this
    {
      && order == LastN(ByLastUse(touches), Capacity(cacheSize))
      && (forall k :: k in vectors <==> k in order)
      && AllSound(vectors) && AllSound(redis) && AllSound(sqlite)
    }

    ghost predicate SoundEvent(e: Event) {
      (e.OtherPut? || e.OtherRedisSet? || e.OtherSqlitePut?) ==> gives(e.text, e.vector)
    }

    ghost predicate SoundEvents(es: seq<Event>) {
      forall i :: 0 <= i < |es| ==> SoundEvent(es[i])
    }

    /** The other users of the tiers put in only what the API gives. */
    ghost predicate SoundOthers(s: Schedule) {
      && SoundAccesses(s.redisRead) && SoundAccesses(s.sqliteRead)
      && (forall n: nat :: SoundEvents(s.apiBefore(n)))
      && SoundAccesses(s.sqliteWrite) && SoundAccesses(s.redisWrite)
    }

    ghost predicate SoundAccesses(a: nat -> Access) {
      forall n: nat :: SoundEvents(a(n).before)
    }

    /**
     * Besides, `gives` admits what the API answers: its replies put one after the other, against the
     * texts asked for. They may be fewer than the texts, or more. A `gives` that admits every vector
     * makes every API honest.
     */
    ghost predicate Honest(s: Schedule) {
      && SoundOthers(s)
      && forall texts :: BatchAnswers(s.api, texts).Some? ==> Answers(texts, BatchAnswers(s.api, texts).value)
    }

    ghost predicate Answers(texts: seq<string>, vs: seq<Vector>) {
      forall j :: 0 <= j < |texts| && j < |vs| ==> gives(texts[j], vs[j])
    }

    /** What the API documents: one vector for each text of a batch. */
    ghost predicate AnswersEach(api: Api) {
      forall n: nat, batch: seq<string> :: api(n, batch).ApiReturned? ==>
        |api(n, batch).vectors| == |batch| && Answers(batch, api(n, batch).vectors)
    }

    lemma {:induction false} EachIsAligned(api: Api, texts: seq<string>, n: nat)
      requires AnswersEach(api) && AnswersTo(api, texts, n).Some?
      ensures |AnswersTo(api, texts, n).value| == Upto(texts, n) && Answers(texts, AnswersTo(api, texts, n).value)
    {
      if n > 0 {
        EachIsAligned(api, texts, n - 1);
        var k, m := Upto(texts, n - 1), Upto(texts, n);
        var vs := AnswersTo(api, texts, n).value;
        forall j | k <= j < m
          ensures gives(texts[j], vs[j])
        {
          assert texts[k..m][j - k] == texts[j];
        }
      }
    }

    /** Such an API is honest, and its answers are as many as the texts. */
    lemma EachIsHonest(s: Schedule)
      requires SoundOthers(s) && AnswersEach(s.api)
      ensures Honest(s)
      ensures forall texts :: BatchAnswers(s.api, texts).Some? ==> |BatchAnswers(s.api, texts).value| == |texts|
    {
      forall texts | BatchAnswers(s.api, texts).Some?
        ensures |BatchAnswers(s.api, texts).value| == |texts| && Answers(texts, BatchAnswers(s.api, texts).value)
      {
        EachIsAligned(s.api, texts, Requests(|texts|));
      }
    }

    /** `_cache_get`: a hit moves the key to the recent end. */
    method CacheGet(text: string) returns (hit: Option<Vector>)
      requires Valid()
      modifies this`order, this`touches
      ensures Valid()
      ensures hit == if hash(text) in vectors then Some(vectors[hash(text)]) else None
      ensures touches == old(touches) + (if hit.Some? then [hash(text)] else [])
    {
      var key := hash(text);
      if key in vectors {
        StackStep(touches, cacheSize, key);
        order := MoveToEnd(order, key);
        touches := touches + [key];
        forall k
          ensures k in order <==> k in vectors
        {
          WithoutMembers(old(order), key, k);
        }
        hit := Some(vectors[key]);
      } else {
        hit := None;
        assert touches == old(touches) + [];
      }
    }

    /** `_cache_put`: store under the recent end, then pop the oldest entry when over the bound. */
    method CachePut(text: string, vector: Vector)
      requires Valid() && Sound(hash(text), vector)
      modifies this`order, this`vectors, this`touches
      ensures Valid() && touches == old(touches) + [hash(text)]
      ensures cacheSize > 0 ==> hash(text) in vectors && vectors[hash(text)] == vector
    {
      var key := hash(text);
      StackStep(touches, cacheSize, key);
      ByLastUseDistinct(touches);
      SuffixDistinct(ByLastUse(touches), Capacity(cacheSize));
      WithoutDistinct(order, key);
      MoveToEndDistinct(order, key);
      KeysAfterPut(order, vectors, key, vector);
      vectors := vectors[key := vector];
      order := MoveToEnd(order, key);
      touches := touches + [key];
      if |order| > cacheSize {
        KeysAfterPop(order, vectors);
        vectors := vectors - {order[0]};
        order := order[1..];
      }
    }

    /** A suspended call: the others run. */
    method Await(others: seq<Event>)
      requires Valid() && SoundEvents(others)
      modifies this
      ensures Valid() && old(touches) <= touches && apiCalls == old(apiCalls)
      ensures others == [] ==>
        unchanged(this)
    {
      for i := 0 to |others|
        invariant Valid() && old(touches) <= touches && apiCalls == old(apiCalls)
        invariant i == 0 ==> unchanged(this)
      {
        assert SoundEvent(others[i]);
        match others[i]
        case OtherGet(text) =>
          var _ := CacheGet(text);
        case OtherPut(text, vector) =>
          assert gives(text, vector);
          CachePut(text, vector);
        case OtherRedisSet(text, vector) =>
          assert gives(text, vector);
          redis := redis[hash(text) := vector];
        case OtherSqlitePut(text, vector) =>
          assert gives(text, vector);
          sqlite := sqlite[hash(text) := vector];
        case RedisLoses(keys) =>
          redis := redis - keys;
        case SqliteLoses(keys) =>
          sqlite := sqlite - keys;
      }
    }

    /**
     * The state of a call in progress: every text that is not listed in `missed` has a sound
     * vector, and its key was touched since the call began.
     */
    ghost predicate Settled(texts: seq<string>, results: seq<Option<Vector>>, missed: seq<nat>, mark: seq<string>)
      reads this`touches
    {
      SettledThen(texts, results, missed, mark, touches)
    }

    /** Nothing but keys of `texts` was touched since `mark`. */
    ghost predicate OwnTouches(texts: seq<string>, mark: seq<string>)
      reads this`touches
    {
      forall k :: Since(mark, touches, k) ==> OwnKey(texts, k)
    }

    ghost predicate OwnKey(texts: seq<string>, k: string) {
      exists i :: 0 <= i < |texts| && hash(texts[i]) == k
    }

    /** The first `n` texts were looked up in memory; those not in `missed` were hits. */
    ghost predicate Looked(texts: seq<string>, n: nat, results: seq<Option<Vector>>, missed: seq<nat>, mark: seq<string>)
      reads this`touches, this`vectors
    {
      LookedThen(texts, n, results, missed, mark, touches)
    }

    /** `Looked` as it was when the trace was `before`. */
    ghost predicate LookedThen(texts: seq<string>, n: nat, results: seq<Option<Vector>>, missed: seq<nat>,
                               mark: seq<string>, before: seq<string>)
      reads this`vectors
    {
      && |results| == |texts| && n <= |texts| && mark <= before && Ascending(missed)
      && (forall i :: 0 <= i < |texts| && (i >= n || i in missed) ==> results[i].None?)
      && (forall j :: 0 <= j < |missed| ==> missed[j] < n && hash(texts[missed[j]]) !in vectors)
      && (forall i :: 0 <= i < n && i !in missed ==>
            && hash(texts[i]) in vectors && results[i] == Some(vectors[hash(texts[i])])
            && Since(mark, before, hash(texts[i])))
    }

    method LookUp(texts: seq<string>, i: nat, partial: seq<Option<Vector>>, seen: seq<nat>, ghost mark: seq<string>)
      returns (results: seq<Option<Vector>>, missed: seq<nat>)
      requires Valid() && i < |texts| && Looked(texts, i, partial, seen, mark) && OwnTouches(texts, mark)
      modifies this`order, this`touches
      ensures Valid() && Looked(texts, i + 1, results, missed, mark) && OwnTouches(texts, mark)
      ensures missed == if hash(texts[i]) in vectors then seen else seen + [i]
    {
      ghost var was := touches;
      var cached := CacheGet(texts[i]);
      if cached.Some? {
        SinceSnoc(mark, was, hash(texts[i]));
        assert OwnKey(texts, hash(texts[i]));
        results, missed := partial[i := cached], seen;
        HitLooked(texts, i, partial, seen, mark, was);
      } else {
        assert touches == was;
        results, missed := partial, seen + [i];
        MissLooked(texts, i, partial, seen, mark);
      }
    }

    lemma HitLooked(texts: seq<string>, i: nat, partial: seq<Option<Vector>>, seen: seq<nat>, mark: seq<string>,
                    was: seq<string>)
      requires i < |texts| && LookedThen(texts, i, partial, seen, mark, was) && hash(texts[i]) in vectors
      requires touches == was + [hash(texts[i])]
      ensures Looked(texts, i + 1, partial[i := Some(vectors[hash(texts[i])])], seen, mark)
    {
      SinceSnoc(mark, was, hash(texts[i]));
    }

    lemma MissLooked(texts: seq<string>, i: nat, partial: seq<Option<Vector>>, seen: seq<nat>, mark: seq<string>)
      requires i < |texts| && Looked(texts, i, partial, seen, mark) && hash(texts[i]) !in vectors
      ensures Looked(texts, i + 1, partial, seen + [i], mark)
    {
      var missed := seen + [i];
      assert missed[|seen|] == i;
      forall j | 0 <= j < i + 1 && j !in missed
        ensures j !in seen && j < i
      {
        assert j in seen ==> j in missed;
      }
    }

    /** First pass over the texts: the in-memory cache. */
    method FirstPass(texts: seq<string>) returns (results: seq<Option<Vector>>, missed: seq<nat>)
      requires Valid()
      modifies this`order, this`touches
      ensures Valid() && Looked(texts, |texts|, results, missed, old(touches))
      ensures OwnTouches(texts, old(touches))
    {
      results, missed := seq(|texts|, _ => None), [];
      for i := 0 to |texts|
        invariant Valid() && Looked(texts, i, results, missed, old(touches))
        invariant OwnTouches(texts, old(touches))
      {
        results, missed := LookUp(texts, i, results, missed, old(touches));
      }
    }

    lemma LookedSettles(texts: seq<string>, results: seq<Option<Vector>>, missed: seq<nat>, mark: seq<string>)
      requires Valid() && Looked(texts, |texts|, results, missed, mark)
      ensures Settled(texts, results, missed, mark) && ResolvedAt(InMemory(texts, vectors), results, missed)
      ensures NoneAt(results, missed)
    {
    }

    ghost predicate AllInMemory(texts: seq<string>)
      reads this`vectors
    {
      forall i :: 0 <= i < |texts| ==> hash(texts[i]) in vectors
    }

    /** One lookup in Redis, after whatever the others did; a failed one reads as absent. */
    method RedisRead(text: string, access: Access) returns (hit: Option<Vector>)
      requires Valid() && SoundEvents(access.before)
      modifies this
      ensures Valid() && old(touches) <= touches && apiCalls == old(apiCalls)
      ensures hit.Some? ==> Sound(hash(text), hit.value)
      ensures access.before == [] ==>
        unchanged(this) && hit == if access.ok then HitIn(true, redis)(hash(text)) else None
    {
      Await(access.before);
      hit := if access.ok && hash(text) in redis then Some(redis[hash(text)]) else None;
    }

    method SqliteRead(text: string, access: Access) returns (hit: Option<Vector>)
      requires Valid() && SoundEvents(access.before)
      modifies this
      ensures Valid() && old(touches) <= touches && apiCalls == old(apiCalls)
      ensures hit.Some? ==> Sound(hash(text), hit.value)
      ensures access.before == [] ==>
        unchanged(this) && hit == if access.ok then HitIn(true, sqlite)(hash(text)) else None
    {
      Await(access.before);
      hit := if access.ok && hash(text) in sqlite then Some(sqlite[hash(text)]) else None;
    }

    /** The keys of the missed texts are looked up in Redis; a failed lookup reads as absent. */
    method RedisReads(texts: seq<string>, missed: seq<nat>, on: bool, accesses: nat -> Access, raises: bool)
      returns (found: seq<Option<Vector>>)
      requires Valid() && SoundAccesses(accesses)
      requires forall j :: 0 <= j < |missed| ==> missed[j] < |texts|
      modifies this
      ensures Valid() && old(touches) <= touches && apiCalls == old(apiCalls)
      ensures FoundFor(texts, missed, found)
      ensures Calm(accesses) ==> unchanged(this)
      ensures Calm(accesses) ==> FoundAt(missed, found, ReadsOf(texts, on && !raises, redis, accesses), |missed|)
    {
      found := seq(|missed|, _ => None);
      if on {
        for j := 0 to |missed|
          invariant Valid() && old(touches) <= touches && apiCalls == old(apiCalls)
          invariant FoundFor(texts, missed, found)
          invariant forall k :: j <= k < |missed| ==> found[k] == None
          invariant Calm(accesses) ==> unchanged(this)
          invariant Calm(accesses) ==> FoundAt(missed, found, ReadsOf(texts, on, redis, accesses), j)
        {
          var hit := RedisRead(texts[missed[j]], accesses(missed[j]));
          found := found[j := hit];
        }
        if raises {
          found := seq(|missed|, _ => None);
        }
      }
    }

    /** The same lookups in SQLite. */
    method SqliteReads(texts: seq<string>, missed: seq<nat>, on: bool, accesses: nat -> Access)
      returns (found: seq<Option<Vector>>)
      requires Valid() && SoundAccesses(accesses)
      requires forall j :: 0 <= j < |missed| ==> missed[j] < |texts|
      modifies this
      ensures Valid() && old(touches) <= touches && apiCalls == old(apiCalls)
      ensures FoundFor(texts, missed, found)
      ensures Calm(accesses) ==> unchanged(this)
      ensures Calm(accesses) ==> FoundAt(missed, found, ReadsOf(texts, on, sqlite, accesses), |missed|)
    {
      found := seq(|missed|, _ => None);
      if on {
        for j := 0 to |missed|
          invariant Valid() && old(touches) <= touches && apiCalls == old(apiCalls)
          invariant FoundFor(texts, missed, found)
          invariant forall k :: j <= k < |missed| ==> found[k] == None
          invariant Calm(accesses) ==> unchanged(this)
          invariant Calm(accesses) ==> FoundAt(missed, found, ReadsOf(texts, on, sqlite, accesses), j)
        {
          var hit := SqliteRead(texts[missed[j]], accesses(missed[j]));
          found := found[j := hit];
        }
      }
    }

    ghost predicate FoundFor(texts: seq<string>, missed: seq<nat>, found: seq<Option<Vector>>) {
      && |found| == |missed|
      && forall j :: 0 <= j < |missed| && found[j].Some? && missed[j] < |texts| ==>
           Sound(hash(texts[missed[j]]), found[j].value)
    }

    /** What memory answers for each place. */
    function InMemory(texts: seq<string>, m: map<string, Vector>): Tier {
      (i: nat) => if i < |texts| then HitIn(true, m)(hash(texts[i])) else None
    }

    /** What the reads of a tier answer: a failed one answers nothing. */
    function ReadsOf(texts: seq<string>, on: bool, tier: map<string, Vector>, accesses: nat -> Access): Tier {
      (i: nat) => if i < |texts| && accesses(i).ok then HitIn(on, tier)(hash(texts[i])) else None
    }

    /** What the three tiers answer for each place: a Redis that raises answers nothing. */
    ghost function Answered(s: Schedule, texts: seq<string>): Tier
      reads this`vectors, this`redis, this`sqlite
    {
      TiersAnswer(s, texts, vectors, redis, sqlite)
    }

    ghost function TiersAnswer(s: Schedule, texts: seq<string>, memory: map<string, Vector>,
                               redis: map<string, Vector>, sqlite: map<string, Vector>): Tier {
      Behind(Behind(InMemory(texts, memory), ReadsOf(texts, s.redisReady && !s.redisRaises, redis, s.redisRead)),
             ReadsOf(texts, s.sqliteEnabled, sqlite, s.sqliteRead))
    }

    /** Memory answers first, then a Redis that can be read, then an SQLite that can be read. */
    lemma TiersAnswerInOrder(s: Schedule, texts: seq<string>, memory: map<string, Vector>, redis: map<string, Vector>,
                             sqlite: map<string, Vector>, i: nat)
      requires i < |texts|
      ensures var k := hash(texts[i]);
              TiersAnswer(s, texts, memory, redis, sqlite)(i) ==
                if k in memory then Some(memory[k])
                else if s.redisReady && !s.redisRaises && s.redisRead(i).ok && k in redis then Some(redis[k])
                else if s.sqliteEnabled && s.sqliteRead(i).ok && k in sqlite then Some(sqlite[k])
                else None
    {
    }

    /** The texts outside `left` have what `tier` answers, and `tier` has no answer for the others. */
    ghost predicate Resolved(texts: seq<string>, tier: Lookup, results: seq<Option<Vector>>, left: seq<nat>) {
      && |results| == |texts|
      && (forall i :: 0 <= i < |texts| && i !in left ==> results[i].Some? && results[i] == tier(hash(texts[i])))
      && (forall i :: 0 <= i < |texts| && i in left ==> tier(hash(texts[i])).None?)
    }

    /** When every access works, the answers for the places are those for their keys. */
    lemma HealthyAnswers(s: Schedule, texts: seq<string>)
      requires Healthy(s)
      ensures ByKey(texts, Answered(s, texts), Served(s))
    {
    }

    ghost predicate ByKey(texts: seq<string>, tier: Tier, keys: Lookup) {
      forall i :: 0 <= i < |texts| ==> tier(i) == keys(hash(texts[i]))
    }

    lemma ResolvedByKey(texts: seq<string>, tier: Tier, keys: Lookup, results: seq<Option<Vector>>, left: seq<nat>)
      requires ByKey(texts, tier, keys) && |results| == |texts| && ResolvedAt(tier, results, left)
      ensures Resolved(texts, keys, results, left)
    {
    }

    /** Memory in front of Redis in front of SQLite. */
    ghost function Served(s: Schedule): Lookup
      reads this`vectors, this`redis, this`sqlite
    {
      Layer(Layer(HitIn(true, vectors), HitIn(s.redisReady, redis)), HitIn(s.sqliteEnabled, sqlite))
    }

    /** The same of a key, when every access works. */
    lemma ServedInOrder(s: Schedule, k: string)
      ensures Served(s)(k) ==
        if k in vectors then Some(vectors[k])
        else if s.redisReady && k in redis then Some(redis[k])
        else if s.sqliteEnabled && k in sqlite then Some(sqlite[k])
        else None
    {
    }

    /** The texts no tier answers, in order. */
    function Unserved(texts: seq<string>, tier: Lookup): seq<string> {
      Filter(texts, t => tier(hash(t)).None?)
    }

    /** A served text has what the tiers answer; the n-th unserved one has the n-th answer of the API. */
    ghost predicate Serves(texts: seq<string>, tier: Lookup, answers: seq<Vector>, r: seq<Option<Vector>>) {
      && |r| == |texts|
      && forall i :: 0 <= i < |texts| ==> r[i] == Slot(texts, tier, answers, i)
    }

    function Slot(texts: seq<string>, tier: Lookup, answers: seq<Vector>, i: nat): Option<Vector>
      requires i < |texts|
    {
      if tier(hash(texts[i])).Some? then tier(hash(texts[i]))
      else AnswerAt(answers, |Unserved(texts[..i], tier)|)
    }

    lemma UnservedAreMissed(texts: seq<string>, tier: Lookup, partial: seq<Option<Vector>>, missed: seq<nat>)
      requires Resolved(texts, tier, partial, missed) && Ascending(missed)
      requires forall j :: 0 <= j < |missed| ==> missed[j] < |texts|
      ensures Places(texts, (t: string) => tier(hash(t)).None?, missed)
      ensures Unserved(texts, tier) == Pick(texts, missed)
    {
      var keep := (t: string) => tier(hash(t)).None?;
      forall j | 0 <= j < |missed|
        ensures keep(texts[missed[j]])
      {
        assert missed[j] in missed;
      }
      FilterIsPick(texts, keep, missed, |texts|, |missed|);
      assert texts[..|texts|] == texts && Pick(texts, missed)[..|missed|] == Pick(texts, missed);
    }

    lemma ServesFromParts(texts: seq<string>, tier: Lookup, partial: seq<Option<Vector>>, missed: seq<nat>,
                          answers: seq<Vector>, r: seq<Option<Vector>>)
      requires Resolved(texts, tier, partial, missed) && Ascending(missed) && |r| == |texts|
      requires forall j :: 0 <= j < |missed| ==> missed[j] < |texts|
      requires forall i :: 0 <= i < |texts| && i !in missed ==> r[i] == partial[i]
      requires forall j :: 0 <= j < |missed| ==> r[missed[j]] == AnswerAt(answers, j)
      ensures Serves(texts, tier, answers, r) && Unserved(texts, tier) == Pick(texts, missed)
    {
      var keep := (t: string) => tier(hash(t)).None?;
      UnservedAreMissed(texts, tier, partial, missed);
      forall i | 0 <= i < |texts|
        ensures r[i] == Slot(texts, tier, answers, i)
      {
        if i in missed {
          var j :| 0 <= j < |missed| && missed[j] == i;
          FilterIsPick(texts, keep, missed, i, j);
        }
      }
    }

    /**
     * What a call leaves behind, as a function of what it found: exactly the unserved texts were
     * sent to the API, in order and in full batches, and each tier that is on got their answers.
     */
    ghost predicate Completes(s: Schedule, texts: seq<string>, tier: Lookup, sqliteBefore: map<string, Vector>,
                              redisBefore: map<string, Vector>, callsBefore: nat,
                              r: Option<seq<Option<Vector>>>)
      reads this`apiCalls, this`redis, this`sqlite
    {
      var asked := Unserved(texts, tier);
      var answers := BatchAnswers(s.api, asked);
      && (r.Some? <==> answers.Some?)
      && (r.Some? ==>
            && Serves(texts, tier, answers.value, r.value)
            && apiCalls == callsBefore + Requests(|asked|)
            && WrittenTo(s, asked, answers.value, sqliteBefore, redisBefore))
    }

    ghost predicate WrittenTo(s: Schedule, asked: seq<string>, answers: seq<Vector>,
                              sqliteBefore: map<string, Vector>, redisBefore: map<string, Vector>)
      reads this`redis, this`sqlite
    {
      var n := Zipped(asked, answers);
      && sqlite == (if s.sqliteEnabledAfter then PutAll(sqliteBefore, Keys(asked), answers, n) else sqliteBefore)
      && redis == (if s.redisReadyAfter then PutAll(redisBefore, Keys(asked), answers, n) else redisBefore)
    }

    /** Record the vector of text `idx` and promote it to the in-memory cache. */
    method Fill(texts: seq<string>, idx: nat, v: Vector, partial: seq<Option<Vector>>,
                ghost todo: seq<nat>, ghost rest: seq<nat>, ghost mark: seq<string>)
      returns (results: seq<Option<Vector>>)
      requires Valid() && idx < |texts| && Sound(hash(texts[idx]), v)
      requires Settled(texts, partial, todo, mark) && forall i :: i in todo ==> i == idx || i in rest
      requires forall i :: i in rest ==> i in todo
      modifies this`order, this`vectors, this`touches
      ensures Valid() && Settled(texts, results, rest, mark) && old(touches) <= touches
      ensures old(OwnTouches(texts, mark)) ==> OwnTouches(texts, mark)
      ensures results == partial[idx := Some(v)]
    {
      CachePut(texts[idx], v);
      SinceSnoc(mark, old(touches), hash(texts[idx]));
      assert OwnKey(texts, hash(texts[idx]));
      results := partial[idx := Some(v)];
      forall j | 0 <= j < |rest|
        ensures rest[j] < |texts|
      {
        assert rest[j] in todo;
      }
    }

    /** Merge one tier's answers into the results; a hit is promoted to the in-memory cache. */
    method Merge(texts: seq<string>, missed: seq<nat>, found: seq<Option<Vector>>,
                 partial: seq<Option<Vector>>, ghost mark: seq<string>)
      returns (results: seq<Option<Vector>>, left: seq<nat>)
      requires Valid() && Settled(texts, partial, missed, mark) && FoundFor(texts, missed, found)
      modifies this`order, this`vectors, this`touches
      ensures Valid() && Settled(texts, results, left, mark) && old(touches) <= touches
      ensures old(OwnTouches(texts, mark)) ==> OwnTouches(texts, mark)
      ensures InMerge(missed, found, |missed|, partial, results, left)
    {
      results, left := partial, [];
      assert missed[0..] == missed;
      for j := 0 to |missed|
        invariant Valid() && Settled(texts, results, left + missed[j..], mark)
        invariant old(touches) <= touches
        invariant old(OwnTouches(texts, mark)) ==> OwnTouches(texts, mark)
        invariant (results, left) == Merging(missed, found, partial, j)
      {
        results, left := MergeOne(texts, missed, j, found[j], results, left, mark);
      }
      assert left + missed[|missed|..] == left;
      MergingMeans(missed, found, partial, |missed|);
    }

    method MergeOne(texts: seq<string>, missed: seq<nat>, j: nat, answer: Option<Vector>,
                    partial: seq<Option<Vector>>, waiting: seq<nat>, ghost mark: seq<string>)
      returns (results: seq<Option<Vector>>, left: seq<nat>)
      requires Valid() && j < |missed| && Settled(texts, partial, waiting + missed[j..], mark)
      requires missed[j] < |texts| && (answer.Some? ==> Sound(hash(texts[missed[j]]), answer.value))
      modifies this`order, this`vectors, this`touches
      ensures Valid() && Settled(texts, results, left + missed[j + 1..], mark) && old(touches) <= touches
      ensures old(OwnTouches(texts, mark)) ==> OwnTouches(texts, mark)
      ensures left == if answer.Some? then waiting else waiting + [missed[j]]
      ensures results == if answer.Some? then partial[missed[j] := answer] else partial
    {
      assert missed[j..] == [missed[j]] + missed[j + 1..];
      if answer.Some? {
        results := Fill(texts, missed[j], answer.value, partial,
                        waiting + missed[j..], waiting + missed[j + 1..], mark);
        left := waiting;
      } else {
        assert waiting + missed[j..] == (waiting + [missed[j]]) + missed[j + 1..];
        results, left := partial, waiting + [missed[j]];
      }
    }

    /** One request, after whatever the others did meanwhile. */
    method CallApi(batch: seq<string>, n: nat, api: Api, others: seq<Event>)
      returns (reply: ApiReply)
      requires Valid() && SoundEvents(others)
      modifies this
      ensures Valid() && old(touches) <= touches && apiCalls == old(apiCalls) + 1
      ensures reply == api(n, batch)
      ensures others == [] ==> unchanged(this`touches, this`vectors, this`order, this`redis, this`sqlite)
    {
      Await(others);
      apiCalls := apiCalls + 1;
      reply := api(n, batch);
    }

    /** `_embed_batched`: one API call for each slice of `MAX_BATCH_SIZE` texts, answers concatenated. */
    method EmbedBatched(texts: seq<string>, api: Api, others: nat -> seq<Event>) returns (r: Option<seq<Vector>>)
      requires Valid() && forall n: nat :: SoundEvents(others(n))
      modifies this
      ensures Valid() && old(touches) <= touches
      ensures r == BatchAnswers(api, texts)
      ensures r.Some? ==> apiCalls == old(apiCalls) + Requests(|texts|)
      ensures texts != [] ==> apiCalls > old(apiCalls)
      ensures (forall n: nat :: others(n) == []) ==> unchanged(this`touches, this`vectors, this`order, this`redis, this`sqlite)
    {
      var all: seq<Vector> := [];
      var start, n := 0, 0;
      while start < |texts|
        invariant Valid() && old(touches) <= touches
        invariant start == MAX_BATCH_SIZE * n && apiCalls == old(apiCalls) + n
        invariant n > 0 ==> start - MAX_BATCH_SIZE < |texts|
        invariant AnswersTo(api, texts, n) == Some(all)
        invariant (forall n: nat :: others(n) == []) ==> unchanged(this`touches, this`vectors, this`order, this`redis, this`sqlite)
      {
        var reply := CallApi(Batch(texts, n), n, api, others(n));
        if reply.ApiFailed? {
          BatchFailed(api, texts, n);
          return None;
        }
        all := all + reply.vectors;
        start, n := start + MAX_BATCH_SIZE, n + 1;
      }
      RequestsAre(|texts|, n);
      r := Some(all);
    }

    function Keys(texts: seq<string>): (keys: seq<string>)
      ensures |keys| == |texts| && forall j :: 0 <= j < |texts| ==> keys[j] == hash(texts[j])
    {
      seq(|texts|, j requires 0 <= j < |texts| => hash(texts[j]))
    }

    method PutSqlite(text: string, v: Vector, access: Access)
      requires Valid() && gives(text, v) && SoundEvents(access.before)
      modifies this
      ensures Valid() && old(touches) <= touches && apiCalls == old(apiCalls)
      ensures access.before == [] ==>
        && unchanged(this`touches, this`vectors, this`order, this`redis)
        && sqlite == if access.ok then old(sqlite)[hash(text) := v] else old(sqlite)
    {
      Await(access.before);
      if access.ok {
        sqlite := sqlite[hash(text) := v];
      }
    }

    method WriteSqlite(texts: seq<string>, answers: seq<Vector>, accesses: nat -> Access)
      requires Valid() && SoundAccesses(accesses) && Answers(texts, answers)
      modifies this
      ensures Valid() && old(touches) <= touches && apiCalls == old(apiCalls)
      ensures Calm(accesses) ==> unchanged(this`touches, this`vectors, this`order, this`redis)
      ensures Calm(accesses) && Works(accesses) ==>
        sqlite == PutAll(old(sqlite), Keys(texts), answers, Zipped(texts, answers))
    {
      ghost var keys, before := Keys(texts), sqlite;
      for j := 0 to Zipped(texts, answers)
        invariant Valid() && old(touches) <= touches && apiCalls == old(apiCalls)
        invariant Calm(accesses) ==> unchanged(this`touches, this`vectors, this`order, this`redis)
        invariant Calm(accesses) && Works(accesses) ==> sqlite == PutAll(before, keys, answers, j)
      {
        assert gives(texts[j], answers[j]);
        assert SoundEvents(accesses(j).before);
        PutAllNext(before, keys, answers, j);
        PutSqlite(texts[j], answers[j], accesses(j));
      }
    }

    method PutRedis(text: string, v: Vector, access: Access)
      requires Valid() && gives(text, v) && SoundEvents(access.before)
      modifies this
      ensures Valid() && old(touches) <= touches && apiCalls == old(apiCalls)
      ensures access.before == [] ==>
        && unchanged(this`touches, this`vectors, this`order, this`sqlite)
        && redis == if access.ok then old(redis)[hash(text) := v] else old(redis)
    {
      Await(access.before);
      if access.ok {
        redis := redis[hash(text) := v];
      }
    }

    method WriteRedis(texts: seq<string>, answers: seq<Vector>, accesses: nat -> Access)
      requires Valid() && SoundAccesses(accesses) && Answers(texts, answers)
      modifies this
      ensures Valid() && old(touches) <= touches && apiCalls == old(apiCalls)
      ensures Calm(accesses) ==> unchanged(this`touches, this`vectors, this`order, this`sqlite)
      ensures Calm(accesses) && Works(accesses) ==>
        redis == PutAll(old(redis), Keys(texts), answers, Zipped(texts, answers))
    {
      ghost var keys, before := Keys(texts), redis;
      for j := 0 to Zipped(texts, answers)
        invariant Valid() && old(touches) <= touches && apiCalls == old(apiCalls)
        invariant Calm(accesses) ==> unchanged(this`touches, this`vectors, this`order, this`sqlite)
        invariant Calm(accesses) && Works(accesses) ==> redis == PutAll(before, keys, answers, j)
      {
        assert gives(texts[j], answers[j]);
        assert SoundEvents(accesses(j).before);
        PutAllNext(before, keys, answers, j);
        PutRedis(texts[j], answers[j], accesses(j));
      }
    }

    /** The new vectors are offered to SQLite and then to Redis; either write may fail. */
    method WriteBack(texts: seq<string>, answers: seq<Vector>, s: Schedule)
      requires Valid() && SoundOthers(s) && Answers(texts, answers)
      modifies this
      ensures Valid() && old(touches) <= touches && apiCalls == old(apiCalls)
      ensures Quiet(s) ==> unchanged(this`touches, this`vectors, this`order)
      ensures Healthy(s) ==> WrittenTo(s, texts, answers, old(sqlite), old(redis))
    {
      if s.sqliteEnabledAfter {
        WriteSqlite(texts, answers, s.sqliteWrite);
      }
      if s.redisReadyAfter {
        WriteRedis(texts, answers, s.redisWrite);
      }
    }

    /**
     * `embed_texts`. Whatever the tiers have lost or raise and whatever runs meanwhile, a call that
     * returns gives every text, in order, a vector the API gave for a text with the same hash, or
     * none if the API answered short. The texts at `places` are those the API was asked for, in
     * batches. A call whose keys are all in memory makes no API call and touches no other tier.
     */
    method EmbedTexts(texts: seq<string>, s: Schedule) returns (r: Option<seq<Option<Vector>>>, ghost places: seq<nat>)
      requires Valid() && Honest(s)
      modifies this
      ensures Valid() && old(touches) <= touches
      ensures Fetched(s.api, texts, places, r) && (r.Some? ==> apiCalls == old(apiCalls) + Requests(|places|))
      ensures r.Some? && AnswersEach(s.api) ==> Whole(r)
      ensures Healthy(s) ==> UnservedPlaces(texts, old(Served(s)), places)
      ensures Quiet(s) ==> AskedAsAnswered(texts, old(Answered(s, texts)), places, r)
      ensures r.Some? ==> AllSettled(texts, r.value, old(touches))
      ensures r.None? ==> apiCalls > old(apiCalls)
      ensures Quiet(s) && r.Some? ==> OwnTouches(texts, old(touches))
      ensures Healthy(s) ==> Completes(s, texts, old(Served(s)), old(sqlite), old(redis), old(apiCalls), r)
      ensures old(AllInMemory(texts)) ==>
        && r.Some? && FromMap(texts, r.value, old(vectors)) && apiCalls == old(apiCalls)
        && redis == old(redis) && sqlite == old(sqlite) && vectors == old(vectors)
    {
      ghost var mark := touches;
      var results, missed;
      r, results, missed := MemoryPass(texts, s);
      if r.Some? {
        places := [];
      } else {
        r, places := EmbedMissed(texts, results, missed, s, mark);
      }
    }

    /** Exactly the texts at `places` were asked for, and each of them got the answer of its turn. */
    ghost predicate Fetched(api: Api, texts: seq<string>, places: seq<nat>, r: Option<seq<Option<Vector>>>) {
      && Ascending(places) && (forall j :: 0 <= j < |places| ==> places[j] < |texts|)
      && var answers := BatchAnswers(api, Pick(texts, places));
      && (r.Some? <==> answers.Some?)
      && (r.Some? ==> |r.value| == |texts| && Placed(places, answers.value, r.value))
    }

    /** The other places have a vector. */
    ghost predicate Placed(places: seq<nat>, answers: seq<Vector>, r: seq<Option<Vector>>) {
      && (forall i :: 0 <= i < |r| && i !in places ==> r[i].Some?)
      && (forall j :: 0 <= j < |places| && places[j] < |r| ==> r[places[j]] == AnswerAt(answers, j))
    }

    /**
     * The places are those for which no tier that works has an answer, and every other has the answer
     * of the first that has.
     */
    ghost predicate AskedAsAnswered(texts: seq<string>, tier: Tier, places: seq<nat>, r: Option<seq<Option<Vector>>>) {
      forall i :: 0 <= i < |texts| ==>
        && (i in places <==> tier(i).None?)
        && (r.Some? && i < |r.value| && i !in places ==> r.value[i] == tier(i))
    }

    /** The places are those of the texts no tier answers. */
    ghost predicate UnservedPlaces(texts: seq<string>, tier: Lookup, places: seq<nat>) {
      forall i :: 0 <= i < |texts| ==> (i in places <==> tier(hash(texts[i])).None?)
    }

    lemma UnservedAreLeft(texts: seq<string>, tier: Lookup, results: seq<Option<Vector>>, left: seq<nat>)
      requires Resolved(texts, tier, results, left)
      ensures UnservedPlaces(texts, tier, left)
    {
    }

    lemma LeftAreAsked(texts: seq<string>, tier: Tier, partial: seq<Option<Vector>>, left: seq<nat>,
                       r: Option<seq<Option<Vector>>>)
      requires ResolvedAt(tier, partial, left) && |partial| == |texts|
      requires r.Some? ==> |r.value| == |texts| && forall i :: 0 <= i < |texts| && i !in left ==> r.value[i] == partial[i]
      ensures AskedAsAnswered(texts, tier, left, r)
    {
    }

    lemma NothingFetched(api: Api, texts: seq<string>, r: seq<Option<Vector>>)
      requires |r| == |texts| && forall i :: 0 <= i < |r| ==> r[i].Some?
      ensures Fetched(api, texts, [], Some(r)) && Whole(Some(r))
    {
      assert Pick(texts, []) == [];
    }

    /**
     * A call leaves a `None` in its result exactly when the API gave fewer answers than it was asked
     * for, whatever the tiers and the other coroutines did.
     */
    lemma NoneIsLeftIff(api: Api, texts: seq<string>, places: seq<nat>, r: seq<Option<Vector>>)
      requires Fetched(api, texts, places, Some(r))
      ensures (exists i :: 0 <= i < |texts| && r[i].None?) <==>
        |BatchAnswers(api, Pick(texts, places)).value| < |places|
    {
      var answers := BatchAnswers(api, Pick(texts, places)).value;
      if |answers| < |places| {
        assert r[places[|answers|]].None?;
      } else {
        forall i | 0 <= i < |texts|
          ensures r[i].Some?
        {
          if i in places {
            var j :| 0 <= j < |places| && places[j] == i;
          }
        }
      }
    }

    /** An API that gives one vector a text leaves no `None`. */
    lemma FetchedWhole(api: Api, texts: seq<string>, places: seq<nat>, r: Option<seq<Option<Vector>>>)
      requires Fetched(api, texts, places, r)
      ensures r.Some? && AnswersEach(api) ==> Whole(r)
    {
      if r.Some? && AnswersEach(api) {
        EachIsAligned(api, Pick(texts, places), Requests(|places|));
        NoneIsLeftIff(api, texts, places, r.value);
      }
    }

    /** The calls that memory alone can answer. */
    method MemoryPass(texts: seq<string>, ghost s: Schedule)
      returns (r: Option<seq<Option<Vector>>>, results: seq<Option<Vector>>, missed: seq<nat>)
      requires Valid()
      modifies this`order, this`touches
      ensures Valid() && old(touches) <= touches && OwnTouches(texts, old(touches))
      ensures r.Some? ==> AllSettled(texts, r.value, old(touches)) && FromMap(texts, r.value, vectors)
      ensures r.Some? ==> Completes(s, texts, Served(s), sqlite, redis, apiCalls, r)
      ensures r.Some? ==> Fetched(s.api, texts, [], r) && Whole(r) && UnservedPlaces(texts, Served(s), [])
      ensures r.Some? ==> AskedAsAnswered(texts, Answered(s, texts), [], r)
      ensures r.None? ==> Looked(texts, |texts|, results, missed, old(touches)) && !AllInMemory(texts)
    {
      results, missed := [], [];
      if texts == [] {
        HitsComplete(s, texts, [], touches);
        r := Some([]);
        return;
      }
      results, missed := FirstPass(texts);
      if missed == [] {
        HitsComplete(s, texts, results, old(touches));
        r := Some(results);
      } else {
        assert hash(texts[missed[0]]) !in vectors;
        r := None;
      }
    }

    /** The rest of the call when memory did not have everything. */
    method EmbedMissed(texts: seq<string>, partial: seq<Option<Vector>>, waiting: seq<nat>, s: Schedule,
                       ghost mark: seq<string>)
      returns (r: Option<seq<Option<Vector>>>, ghost places: seq<nat>)
      requires Valid() && Honest(s) && Looked(texts, |texts|, partial, waiting, mark)
      modifies this
      ensures Valid() && old(touches) <= touches && (r.None? ==> apiCalls > old(apiCalls))
      ensures Fetched(s.api, texts, places, r) && (r.Some? ==> apiCalls == old(apiCalls) + Requests(|places|))
      ensures r.Some? && AnswersEach(s.api) ==> Whole(r)
      ensures Healthy(s) ==> UnservedPlaces(texts, old(Served(s)), places)
      ensures Quiet(s) ==> AskedAsAnswered(texts, old(Answered(s, texts)), places, r)
      ensures r.Some? ==> AllSettled(texts, r.value, mark)
      ensures r.Some? && Quiet(s) && old(OwnTouches(texts, mark)) ==> OwnTouches(texts, mark)
      ensures Healthy(s) ==> Completes(s, texts, old(Served(s)), old(sqlite), old(redis), old(apiCalls), r)
    {
      ghost var tier := Served(s);
      LookedSettles(texts, partial, waiting, mark);
      ghost var answered := Answered(s, texts);
      if Healthy(s) {
        HealthyAnswers(s, texts);
      }
      var results, missed := TierPasses(texts, partial, waiting, s, mark);
      places := missed;
      if Healthy(s) {
        ResolvedByKey(texts, answered, tier, results, missed);
        UnservedAreLeft(texts, tier, results, missed);
      }
      if missed != [] {
        r := FetchMissing(texts, missed, results, s, mark, tier);
        FetchedWhole(s.api, texts, missed, r);
      } else {
        r := Some(results);
        NothingFetched(s.api, texts, results);
        if Healthy(s) {
          NothingAsked(s, texts, tier, results);
        }
      }
      if Quiet(s) {
        LeftAreAsked(texts, answered, results, missed, r);
      }
    }

    /** The vectors `m` holds for the texts. */
    ghost predicate FromMap(texts: seq<string>, r: seq<Option<Vector>>, m: map<string, Vector>) {
      |r| == |texts| && forall i :: 0 <= i < |texts| ==> hash(texts[i]) in m && r[i] == Some(m[hash(texts[i])])
    }

    /** Every vector is sound for its text, and the text's key was touched since `mark`. */
    ghost predicate AllSettled(texts: seq<string>, r: seq<Option<Vector>>, mark: seq<string>)
      reads this`touches
    {
      && |r| == |texts|
      && (forall i :: 0 <= i < |texts| && r[i].Some? ==> Sound(hash(texts[i]), r[i].value))
      && (forall i :: 0 <= i < |texts| && r[i].Some? ==> Since(mark, touches, hash(texts[i])))
    }

    lemma SettledCall(texts: seq<string>, results: seq<Option<Vector>>, left: seq<nat>, mark: seq<string>)
      requires Settled(texts, results, left, mark) && NoneAt(results, left)
      ensures AllSettled(texts, results, mark)
    {
      forall i | 0 <= i < |texts| && results[i].Some?
        ensures i !in left
      {
      }
    }

    /** A call that memory could answer is complete after its first pass. */
    lemma HitsComplete(s: Schedule, texts: seq<string>, results: seq<Option<Vector>>, mark: seq<string>)
      requires Valid() && Looked(texts, |texts|, results, [], mark)
      ensures AllSettled(texts, results, mark) && FromMap(texts, results, vectors)
      ensures Completes(s, texts, Served(s), sqlite, redis, apiCalls, Some(results))
      ensures Fetched(s.api, texts, [], Some(results)) && Whole(Some(results)) && UnservedPlaces(texts, Served(s), [])
      ensures AskedAsAnswered(texts, Answered(s, texts), [], Some(results))
    {
      LookedSettles(texts, results, [], mark);
      SettledCall(texts, results, [], mark);
      HitsResolve(s, texts, results);
    }

    lemma HitsResolve(s: Schedule, texts: seq<string>, results: seq<Option<Vector>>)
      requires |results| == |texts| && ResolvedAt(InMemory(texts, vectors), results, [])
      ensures Completes(s, texts, Served(s), sqlite, redis, apiCalls, Some(results))
      ensures Fetched(s.api, texts, [], Some(results)) && Whole(Some(results)) && UnservedPlaces(texts, Served(s), [])
      ensures AskedAsAnswered(texts, Answered(s, texts), [], Some(results))
    {
      NothingFetched(s.api, texts, results);
      ResolvedInMemory(s, texts, results);
      NothingAsked(s, texts, Served(s), results);
    }

    lemma ResolvedInMemory(s: Schedule, texts: seq<string>, results: seq<Option<Vector>>)
      requires |results| == |texts| && ResolvedAt(InMemory(texts, vectors), results, [])
      ensures Resolved(texts, Served(s), results, []) && ResolvedAt(Answered(s, texts), results, [])
    {
      forall i | 0 <= i < |texts|
        ensures Served(s)(hash(texts[i])) == results[i] && Answered(s, texts)(i) == results[i]
      {
        assert results[i] == InMemory(texts, vectors)(i);
      }
    }

    /** A call that asked for nothing is complete with the tiers as they are. */
    lemma NothingAsked(s: Schedule, texts: seq<string>, tier: Lookup, results: seq<Option<Vector>>)
      requires Resolved(texts, tier, results, [])
      ensures Completes(s, texts, tier, sqlite, redis, apiCalls, Some(results))
    {
      ServesFromParts(texts, tier, results, [], [], results);
    }

    /** A call whose missing texts were answered, placed and written back is complete. */
    lemma AskedAndWritten(s: Schedule, texts: seq<string>, tier: Lookup, partial: seq<Option<Vector>>, missed: seq<nat>,
                          results: seq<Option<Vector>>, answers: seq<Vector>, sqliteBefore: map<string, Vector>,
                          redisBefore: map<string, Vector>, callsBefore: nat)
      requires Resolved(texts, tier, partial, missed) && Ascending(missed) && |results| == |texts|
      requires forall j :: 0 <= j < |missed| ==> missed[j] < |texts|
      requires BatchAnswers(s.api, Pick(texts, missed)) == Some(answers)
      requires forall i :: 0 <= i < |texts| && i !in missed ==> results[i] == partial[i]
      requires forall j :: 0 <= j < |missed| ==> results[missed[j]] == AnswerAt(answers, j)
      requires apiCalls == callsBefore + Requests(|missed|)
      requires WrittenTo(s, Pick(texts, missed), answers, sqliteBefore, redisBefore)
      ensures Completes(s, texts, tier, sqliteBefore, redisBefore, callsBefore, Some(results))
    {
      ServesFromParts(texts, tier, partial, missed, answers, results);
    }

    lemma NothingAnswered(s: Schedule, texts: seq<string>, tier: Lookup, partial: seq<Option<Vector>>, missed: seq<nat>,
                          sqliteBefore: map<string, Vector>, redisBefore: map<string, Vector>, callsBefore: nat)
      requires Resolved(texts, tier, partial, missed) && Ascending(missed)
      requires forall j :: 0 <= j < |missed| ==> missed[j] < |texts|
      requires BatchAnswers(s.api, Pick(texts, missed)).None?
      ensures Completes(s, texts, tier, sqliteBefore, redisBefore, callsBefore, None)
    {
      UnservedAreMissed(texts, tier, partial, missed);
    }

    /** Redis and then SQLite for the texts memory does not have. */
    method TierPasses(texts: seq<string>, partial: seq<Option<Vector>>, waiting: seq<nat>, s: Schedule,
                      ghost mark: seq<string>)
      returns (results: seq<Option<Vector>>, missed: seq<nat>)
      requires Valid() && SoundOthers(s) && Settled(texts, partial, waiting, mark)
      requires ResolvedAt(InMemory(texts, vectors), partial, waiting) && Ascending(waiting) && NoneAt(partial, waiting)
      modifies this
      ensures Valid() && old(touches) <= touches && apiCalls == old(apiCalls)
      ensures Settled(texts, results, missed, mark) && Ascending(missed) && NoneAt(results, missed)
      ensures Quiet(s) && old(OwnTouches(texts, mark)) ==> OwnTouches(texts, mark)
      ensures Quiet(s) ==> redis == old(redis) && sqlite == old(sqlite)
      ensures Quiet(s) ==> ResolvedAt(old(Answered(s, texts)), results, missed)
    {
      ghost var front := InMemory(texts, vectors);
      ghost var second := ReadsOf(texts, s.redisReady && !s.redisRaises, redis, s.redisRead);
      ghost var third := ReadsOf(texts, s.sqliteEnabled, sqlite, s.sqliteRead);
      ghost var before := touches;
      var found := RedisReads(texts, waiting, s.redisReady, s.redisRead, s.redisRaises);
      results, missed := TierPass(texts, partial, waiting, found, mark, before, front, second);
      before := touches;
      found := SqliteReads(texts, missed, s.sqliteEnabled, s.sqliteRead);
      results, missed := TierPass(texts, results, missed, found, mark, before, Behind(front, second), third);
    }

    /** The answers of one tier are merged; the tier then stands behind the ones asked before. */
    method TierPass(texts: seq<string>, partial: seq<Option<Vector>>, waiting: seq<nat>, found: seq<Option<Vector>>,
                    ghost mark: seq<string>, ghost before: seq<string>, ghost front: Tier, ghost tier: Tier)
      returns (results: seq<Option<Vector>>, left: seq<nat>)
      requires Valid() && SettledThen(texts, partial, waiting, mark, before) && before <= touches
      requires Ascending(waiting) && NoneAt(partial, waiting) && FoundFor(texts, waiting, found)
      modifies this`order, this`vectors, this`touches
      ensures Valid() && Settled(texts, results, left, mark) && old(touches) <= touches
      ensures Ascending(left) && NoneAt(results, left)
      ensures old(OwnTouches(texts, mark)) ==> OwnTouches(texts, mark)
      ensures ResolvedAt(front, partial, waiting) && FoundAt(waiting, found, tier, |waiting|) ==>
        ResolvedAt(Behind(front, tier), results, left)
    {
      SinceGrows(mark, before, touches);
      results, left := Merge(texts, waiting, found, partial, mark);
      LeftHasNone(waiting, found, partial, results, left);
      if ResolvedAt(front, partial, waiting) && FoundAt(waiting, found, tier, |waiting|) {
        ResolveStep(front, tier, waiting, found, partial, results, left);
      }
    }

    /** `Settled` as it was when the trace was `before`. */
    ghost predicate SettledThen(texts: seq<string>, results: seq<Option<Vector>>, missed: seq<nat>,
                                mark: seq<string>, before: seq<string>) {
      && |results| == |texts| && mark <= before
      && (forall j :: 0 <= j < |missed| ==> missed[j] < |texts|)
      && (forall i :: 0 <= i < |texts| && i !in missed ==>
            && results[i].Some? && Sound(hash(texts[i]), results[i].value)
            && Since(mark, before, hash(texts[i])))
    }

    /** The texts no tier had: ask the API, cache the answers, write them back. */
    method FetchMissing(texts: seq<string>, missed: seq<nat>, partial: seq<Option<Vector>>,
                        s: Schedule, ghost mark: seq<string>, ghost tier: Lookup)
      returns (r: Option<seq<Option<Vector>>>)
      requires Valid() && Honest(s) && missed != [] && Settled(texts, partial, missed, mark)
      requires Ascending(missed) && NoneAt(partial, missed)
      requires Healthy(s) ==> Resolved(texts, tier, partial, missed)
      modifies this
      ensures Valid() && old(touches) <= touches && apiCalls > old(apiCalls)
      ensures Fetched(s.api, texts, missed, r) && (r.Some? ==> apiCalls == old(apiCalls) + Requests(|missed|))
      ensures r.Some? ==> forall i :: 0 <= i < |texts| && i !in missed ==> r.value[i] == partial[i]
      ensures r.Some? ==> AllSettled(texts, r.value, mark)
      ensures r.Some? && Quiet(s) && old(OwnTouches(texts, mark)) ==> OwnTouches(texts, mark)
      ensures Healthy(s) ==> Completes(s, texts, tier, old(sqlite), old(redis), old(apiCalls), r)
    {
      ghost var before := touches;
      var uncached := Pick(texts, missed);
      var answers := EmbedBatched(uncached, s.api, s.apiBefore);
      if answers.None? {
        if Healthy(s) {
          NothingAnswered(s, texts, tier, partial, missed, old(sqlite), old(redis), old(apiCalls));
        }
        return None;
      }
      SinceGrows(mark, before, touches);
      var results := Promote(texts, missed, uncached, answers.value, partial, mark);
      r := Some(results);
      before := touches;
      WriteBack(uncached, answers.value, s);
      SinceGrows(mark, before, touches);
      if Healthy(s) {
        AskedAndWritten(s, texts, tier, partial, missed, results, answers.value,
                        old(sqlite), old(redis), old(apiCalls));
      }
    }

    /** The answers of the API go to their places and to the in-memory cache. */
    method Promote(texts: seq<string>, missed: seq<nat>, uncached: seq<string>, answers: seq<Vector>,
                   partial: seq<Option<Vector>>, ghost mark: seq<string>)
      returns (results: seq<Option<Vector>>)
      requires Valid() && Settled(texts, partial, missed, mark) && Ascending(missed) && NoneAt(partial, missed)
      requires uncached == Pick(texts, missed) && Answers(uncached, answers)
      modifies this`order, this`vectors, this`touches
      ensures Valid() && AllSettled(texts, results, mark) && old(touches) <= touches
      ensures old(OwnTouches(texts, mark)) ==> OwnTouches(texts, mark)
      ensures forall i :: 0 <= i < |texts| && i !in missed ==> results[i] == partial[i]
      ensures forall j :: 0 <= j < |missed| ==> results[missed[j]] == AnswerAt(answers, j)
    {
      var found := seq(|missed|, j requires 0 <= j < |missed| => AnswerAt(answers, j));
      forall j | 0 <= j < |missed| && j < |answers|
        ensures Sound(hash(texts[missed[j]]), found[j].value)
      {
        assert gives(uncached[j], answers[j]);
      }
      var left;
      results, left := Merge(texts, missed, found, partial, mark);
      LeftHasNone(missed, found, partial, results, left);
      SettledCall(texts, results, left, mark);
      AllMerged(missed, found, partial, results, left);
    }

    /** What a query leaves behind: a served one changes nothing outside, an unserved one is asked for and stored. */
    ghost predicate QueryCompletes(s: Schedule, query: string, served: Option<Vector>, sqliteBefore: map<string, Vector>,
                                   redisBefore: map<string, Vector>, callsBefore: nat, r: Option<Vector>)
      reads this`apiCalls, this`redis, this`sqlite
    {
      var answer := if served.Some? then served else FirstAnswer(s.api(0, [query]));
      && r == answer
      && apiCalls == callsBefore + (if served.Some? then 0 else 1)
      && sqlite == (if served.None? && answer.Some? && s.sqliteEnabledAfter
                    then sqliteBefore[hash(query) := answer.value] else sqliteBefore)
      && redis == (if served.None? && answer.Some? && s.redisReadyAfter
                   then redisBefore[hash(query) := answer.value] else redisBefore)
    }

    /** `embed_query`: the same tiers for one text, one at a time. */
    method EmbedQuery(query: string, s: Schedule) returns (r: Option<Vector>)
      requires Valid() && Honest(s)
      modifies this
      ensures Valid() && old(touches) <= touches
      ensures r.Some? ==> Sound(hash(query), r.value)
      ensures r.None? ==> apiCalls > old(apiCalls)
      ensures old(hash(query) in vectors) ==> r == Some(old(vectors)[hash(query)]) && apiCalls == old(apiCalls)
      ensures Quiet(s) && r.Some? && cacheSize > 0 ==> hash(query) in vectors && vectors[hash(query)] == r.value
      ensures apiCalls > old(apiCalls) ==> r == FirstAnswer(s.api(0, [query]))
      ensures Healthy(s) ==> QueryCompletes(s, query, old(Served(s))(hash(query)), old(sqlite), old(redis), old(apiCalls), r)
    {
      var cached := CacheGet(query);
      if cached.Some? {
        return cached;
      }
      r := QueryTiers(query, s);
      if r.None? {
        r := AskApi(query, s);
      }
    }

    /** Redis, and then SQLite. */
    method QueryTiers(query: string, s: Schedule) returns (r: Option<Vector>)
      requires Valid() && SoundOthers(s)
      modifies this
      ensures Valid() && old(touches) <= touches && apiCalls == old(apiCalls)
      ensures r.Some? ==> Sound(hash(query), r.value)
      ensures Quiet(s) ==> unchanged(this`redis, this`sqlite) && (r.None? ==> unchanged(this`vectors))
      ensures Quiet(s) && r.Some? && cacheSize > 0 ==> hash(query) in vectors && vectors[hash(query)] == r.value
      ensures Healthy(s) ==>
        r == Layer(HitIn(s.redisReady, old(redis)), HitIn(s.sqliteEnabled, old(sqlite)))(hash(query))
    {
      r := QueryRedis(query, s);
      if r.None? {
        r := QuerySqlite(query, s);
      }
    }

    method QueryRedis(query: string, s: Schedule) returns (r: Option<Vector>)
      requires Valid() && SoundOthers(s)
      modifies this
      ensures Valid() && old(touches) <= touches && apiCalls == old(apiCalls)
      ensures r.Some? ==> Sound(hash(query), r.value)
      ensures Quiet(s) ==> unchanged(this`redis, this`sqlite) && (r.None? ==> unchanged(this`vectors))
      ensures Quiet(s) && r.Some? && cacheSize > 0 ==> hash(query) in vectors && vectors[hash(query)] == r.value
      ensures Healthy(s) ==> r == HitIn(s.redisReady, old(redis))(hash(query))
    {
      r := None;
      if s.redisReady {
        r := RedisRead(query, s.redisRead(0));
        if r.Some? {
          CachePut(query, r.value);
        }
      }
    }

    method QuerySqlite(query: string, s: Schedule) returns (r: Option<Vector>)
      requires Valid() && SoundOthers(s)
      modifies this
      ensures Valid() && old(touches) <= touches && apiCalls == old(apiCalls)
      ensures r.Some? ==> Sound(hash(query), r.value)
      ensures Quiet(s) ==> unchanged(this`redis, this`sqlite) && (r.None? ==> unchanged(this`vectors))
      ensures Quiet(s) && r.Some? && cacheSize > 0 ==> hash(query) in vectors && vectors[hash(query)] == r.value
      ensures Healthy(s) ==> r == HitIn(s.sqliteEnabled, old(sqlite))(hash(query))
    {
      r := None;
      if s.sqliteEnabled {
        r := SqliteRead(query, s.sqliteRead(0));
        if r.Some? {
          CachePut(query, r.value);
        }
      }
    }

    lemma FirstIsGiven(s: Schedule, query: string)
      requires Honest(s) && FirstAnswer(s.api(0, [query])).Some?
      ensures gives(query, s.api(0, [query]).vectors[0])
    {
      var vs := s.api(0, [query]).vectors;
      assert Batch([query], 0) == [query] && AnswersTo(s.api, [query], 0) == Some([]) && [] + vs == vs;
      assert BatchAnswers(s.api, [query]) == Some(vs);
      assert Answers([query], vs) && [query][0] == query;
    }

    /**
     * No tier had the query: one API call, then the answer goes to every tier. Without an answer
     * the program raises.
     */
    method AskApi(query: string, s: Schedule) returns (r: Option<Vector>)
      requires Valid() && Honest(s)
      modifies this
      ensures Valid() && old(touches) <= touches && apiCalls == old(apiCalls) + 1
      ensures r.Some? ==> Sound(hash(query), r.value)
      ensures Quiet(s) && r.Some? && cacheSize > 0 ==> hash(query) in vectors && vectors[hash(query)] == r.value
      ensures r == FirstAnswer(s.api(0, [query]))
      ensures Healthy(s) ==> QueryCompletes(s, query, None, old(sqlite), old(redis), old(apiCalls), r)
    {
      var reply := CallApi([query], 0, s.api, s.apiBefore(0));
      if reply.ApiFailed? || reply.vectors == [] {
        return None;
      }
      var v := reply.vectors[0];
      FirstIsGiven(s, query);
      r := Some(v);
      CachePut(query, v);
      assert Answers([query], [v]);
      WriteBack([query], [v], s);
      assert Keys([query]) == [hash(query)];
      PutOne(old(sqlite), hash(query), v);
      PutOne(old(redis), hash(query), v);
    }

    /**
     * An immediate repeat is free: when the keys touched during a call that returned fit in the
     * cache, the next call on the same texts makes no API call and touches no shared tier. Nothing
     * is assumed about what other coroutines did during the first call except that bound, and when
     * none ran, it is enough that the call has at most `cacheSize` distinct texts.
     */
    method EmbedTwice(texts: seq<string>, s: Schedule, s': Schedule)
      returns (first: Option<seq<Option<Vector>>>, second: Option<seq<Option<Vector>>>,
               ghost between: seq<string>, ghost calls: nat)
      requires Valid() && Honest(s) && Honest(s')
      modifies this
      ensures Valid() && old(touches) <= between
      ensures first.Some? && AnswersEach(s.api) ==> Whole(first)
      ensures Whole(first) && |ByLastUse(between[|old(touches)|..])| <= Capacity(cacheSize) ==>
        Whole(second) && |second.value| == |texts| && apiCalls == calls
      ensures Whole(first) && Quiet(s) && |set t | t in texts| <= Capacity(cacheSize) ==>
        Whole(second) && |second.value| == |texts| && apiCalls == calls
    {
      ghost var mark := touches;
      ghost var places;
      first, places := EmbedTexts(texts, s);
      between, calls := touches, apiCalls;
      ghost var own := touches[|mark|..];
      assert touches == mark + own;
      if first.Some? && Quiet(s) {
        OwnKeysCount(texts, own);
      }
      if Whole(first) && |ByLastUse(own)| <= Capacity(cacheSize) {
        StillInMemory(texts, first.value, mark, own);
      }
      second, places := EmbedTexts(texts, s');
    }

    /** Vectors settled since `mark` are still held when the keys touched since fit the cache. */
    lemma StillInMemory(texts: seq<string>, r: seq<Option<Vector>>, mark: seq<string>, own: seq<string>)
      requires Valid() && touches == mark + own && |ByLastUse(own)| <= Capacity(cacheSize)
      requires AllSettled(texts, r, mark) && Whole(Some(r))
      ensures AllInMemory(texts)
    {
      RecentKeysSurvive(mark, own, Capacity(cacheSize));
      forall i | 0 <= i < |texts|
        ensures hash(texts[i]) in vectors
      {
        assert r[i].Some? && touches[|mark|..] == own;
      }
    }

    /** Distinct keys touched on behalf of `texts` are at most its distinct texts. */
    lemma OwnKeysCount(texts: seq<string>, own: seq<string>)
      requires forall k :: k in own ==> OwnKey(texts, k)
      ensures |ByLastUse(own)| <= |set t | t in texts|
    {
      ByLastUseCount(own);
      var keys, distinct := (set k | k in own), (set t | t in texts);
      var images := set t | t in distinct :: hash(t);
      forall k | k in keys
        ensures k in images
      {
        var i :| 0 <= i < |texts| && hash(texts[i]) == k;
        assert texts[i] in distinct;
      }
      ImageSize(distinct, hash);
      SubsetSize(keys, images);
    }

    /**
     * Cache transparency. With a collision-free hash a sound vector is one the API gave for that
     * very text; with a deterministic API besides, it is the API's vector for the text.
     */
    lemma SoundMeansGiven(text: string, v: Vector, api: string -> Vector)
      requires forall t, u :: hash(t) == hash(u) ==> t == u
      requires Sound(hash(text), v)
      ensures gives(text, v)
      ensures (forall t, w :: gives(t, w) ==> w == api(t)) ==> v == api(text)
    {
      var t :| hash(t) == hash(text) && gives(t, v);
      assert t == text;
    }

    /**
     * Cache transparency of a whole call: with a collision-free hash and a deterministic API every
     * vector `embed_texts` returns, at whatever place and from whatever tier, is the API's vector
     * for the text of that place.
     */
    lemma CallIsTransparent(texts: seq<string>, r: seq<Option<Vector>>, mark: seq<string>, api: string -> Vector)
      requires forall t, u :: hash(t) == hash(u) ==> t == u
      requires forall t, v :: gives(t, v) ==> v == api(t)
      requires AllSettled(texts, r, mark)
      ensures |r| == |texts| && forall i :: 0 <= i < |texts| && r[i].Some? ==> r[i].value == api(texts[i])
    {
      forall i | 0 <= i < |texts| && r[i].Some?
        ensures r[i].value == api(texts[i])
      {
        SoundMeansGiven(texts[i], r[i].value, api);
      }
    }

    lemma ConstantIsHonest(v: Vector)
      requires forall t :: gives(t, v)
      ensures Honest(Constant(v)) && Healthy(Constant(v))
    {
      EachIsHonest(Constant(v));
    }

    // ---- Short answers -----------------------------------------------------------------------

    /** An unserved text is the one its rank says among the unserved ones. */
    lemma UnservedAt(texts: seq<string>, tier: Lookup, i: nat)
      requires i < |texts| && tier(hash(texts[i])).None?
      ensures var k := |Unserved(texts[..i], tier)|; k < |Unserved(texts, tier)| && Unserved(texts, tier)[k] == texts[i]
    {
      var keep := (t: string) => tier(hash(t)).None?;
      assert texts == texts[..i] + texts[i..];
      FilterAppend(texts[..i], texts[i..], keep);
    }

    /**
     * What short answers do to a call: for an API that answers each batch in order but perhaps short,
     * and texts with different vectors, every vector the call got from the API stands at its own text
     * if and only if no short batch is followed by an answer.
     */
    lemma FetchedRightIff(api: Api, texts: seq<string>, places: seq<nat>, r: seq<Option<Vector>>, doc: string -> Vector)
      requires Fetched(api, texts, places, Some(r))
      requires AnswersPrefixes(api, Pick(texts, places), doc) && Apart(Pick(texts, places), doc)
      ensures (forall i :: 0 <= i < |texts| && i in places && r[i].Some? ==> r[i].value == doc(texts[i])) <==>
        NoGap(api, Pick(texts, places), Requests(|places|))
    {
      var asked := Pick(texts, places);
      AlignedIff(api, asked, Requests(|asked|), doc);
      AnsweredLength(api, asked, Requests(|asked|), doc);
      RightIsAligned(texts, places, BatchAnswers(api, asked).value, r, doc);
    }

    lemma RightIsAligned(texts: seq<string>, places: seq<nat>, answers: seq<Vector>, r: seq<Option<Vector>>,
                         doc: string -> Vector)
      requires forall j :: 0 <= j < |places| ==> places[j] < |texts|
      requires |r| == |texts| && |answers| <= |places| && Placed(places, answers, r)
      ensures (forall i :: 0 <= i < |texts| && i in places && r[i].Some? ==> r[i].value == doc(texts[i])) <==>
        Aligned(Pick(texts, places), answers, doc)
    {
      if forall i :: 0 <= i < |texts| && i in places && r[i].Some? ==> r[i].value == doc(texts[i]) {
        forall j | 0 <= j < |answers|
          ensures answers[j] == doc(Pick(texts, places)[j])
        {
          assert places[j] in places && r[places[j]] == Some(answers[j]);
        }
      }
    }

    lemma {:induction false} AllUnserved(texts: seq<string>, tier: Lookup)
      requires forall t :: tier(hash(t)).None?
      ensures Unserved(texts, tier) == texts
    {
      if texts != [] {
        AllUnserved(texts[1..], tier);
      }
    }

    /** With nothing served, the answers are the result. */
    lemma AskedForAll(texts: seq<string>, tier: Lookup, answers: seq<Vector>, r: Option<seq<Option<Vector>>>)
      requires forall t :: tier(hash(t)).None?
      ensures Unserved(texts, tier) == texts
      ensures r.Some? && Serves(texts, tier, answers, r.value) ==>
        |r.value| == |texts| && forall i :: 0 <= i < |texts| ==> r.value[i] == AnswerAt(answers, i)
    {
      AllUnserved(texts, tier);
      if r.Some? && Serves(texts, tier, answers, r.value) {
        forall i | 0 <= i < |texts|
          ensures r.value[i] == AnswerAt(answers, i)
        {
          AllUnserved(texts[..i], tier);
          assert r.value[i] == Slot(texts, tier, answers, i);
        }
      }
    }

    // ---- One key for two kinds of vectors ----------------------------------------------------

    /** What the tiers hold for the texts is what the API gives for this kind of call. */
    ghost predicate RightlyServed(texts: seq<string>, tier: Lookup, doc: string -> Vector) {
      forall i :: 0 <= i < |texts| && tier(hash(texts[i])).Some? ==> tier(hash(texts[i])).value == doc(texts[i])
    }

    ghost predicate AllRight(texts: seq<string>, r: seq<Option<Vector>>, doc: string -> Vector) {
      |r| == |texts| && forall i :: 0 <= i < |texts| ==> r[i] == Some(doc(texts[i]))
    }

    /**
     * The keys hold neither model nor input type. A call gets the vectors the API gives for its own
     * model and input type exactly when what the tiers already hold for its texts is of that kind.
     */
    lemma AllRightIff(texts: seq<string>, tier: Lookup, answers: seq<Vector>, r: seq<Option<Vector>>,
                      doc: string -> Vector)
      requires Serves(texts, tier, answers, r) && answers == Each(Unserved(texts, tier), doc)
      ensures AllRight(texts, r, doc) <==> RightlyServed(texts, tier, doc)
    {
      forall i | 0 <= i < |texts|
        ensures r[i] == Some(doc(texts[i])) <==>
          (tier(hash(texts[i])).Some? ==> tier(hash(texts[i])).value == doc(texts[i]))
      {
        assert r[i] == Slot(texts, tier, answers, i);
        if tier(hash(texts[i])).None? {
          UnservedAt(texts, tier, i);
        }
      }
    }

    /** The same of a call with healthy tiers, whose API answers by `doc`. */
    method EmbedTextsAs(texts: seq<string>, s: Schedule, ghost doc: string -> Vector)
      returns (r: Option<seq<Option<Vector>>>)
      requires Valid() && Honest(s) && Healthy(s) && AnswersBy(s.api, doc)
      modifies this
      ensures Valid()
      ensures r.Some? ==> (AllRight(texts, r.value, doc) <==> RightlyServed(texts, old(Served(s)), doc))
    {
      ghost var tier := Served(s);
      ghost var places;
      r, places := EmbedTexts(texts, s);
      if r.Some? {
        AllAnsweredBy(s.api, Unserved(texts, tier), doc);
        AllRightIff(texts, tier, BatchAnswers(s.api, Unserved(texts, tier)).value, r.value, doc);
      }
    }
  }

  /**
   * It does happen: a text that no tier has is embedded as a query and then as a document. The
   * second call asks the API for nothing and returns the query's vector, which is not the one the
   * API gives for the document.
   */
  method QueryVectorServedAsDocument(service: EmbeddingService, text: string, query: Schedule, document: Schedule,
                                     ghost doc: string -> Vector)
    returns (asked: Option<Vector>, served: Option<seq<Option<Vector>>>)
    requires service.Valid() && service.cacheSize > 0 && service.Served(query)(service.hash(text)).None?
    requires service.Honest(query) && Healthy(query) && service.Honest(document) && AnswersBy(document.api, doc)
    requires FirstAnswer(query.api(0, [text])).Some? && FirstAnswer(query.api(0, [text])) != Some(doc(text))
    modifies service
    ensures asked == FirstAnswer(query.api(0, [text])) && service.apiCalls == old(service.apiCalls) + 1
    ensures served == Some([asked]) && served.value[0] != Some(doc(text))
  {
    asked := service.EmbedQuery(text, query);
    served := EmbedHeld(service, text, document);
  }

  /** A text in memory is served from there alone. */
  method EmbedHeld(service: EmbeddingService, text: string, s: Schedule) returns (served: Option<seq<Option<Vector>>>)
    requires service.Valid() && service.Honest(s) && service.hash(text) in service.vectors
    modifies service
    ensures served == Some([Some(old(service.vectors)[service.hash(text)])]) && service.apiCalls == old(service.apiCalls)
  {
    assert [text][0] == text && service.AllInMemory([text]);
    ghost var places;
    served, places := service.EmbedTexts([text], s);
    assert served.value == [Some(old(service.vectors)[service.hash(text)])];
  }

  /** A service and two schedules of which this is a run. */
  method ServeQueryVector(asQuery: Vector, asDocument: Vector)
    returns (service: EmbeddingService, served: Option<seq<Option<Vector>>>)
    requires asQuery != asDocument
    ensures fresh(service) && service.apiCalls == 1 && served == Some([Some(asQuery)])
  {
    service := new EmbeddingService(t => t, 1, (_, _) => true);
    service.ConstantIsHonest(asQuery);
    service.ConstantIsHonest(asDocument);
    var asked;
    asked, served := QueryVectorServedAsDocument(service, "x", Constant(asQuery), Constant(asDocument), _ => asDocument);
  }

  // ---- A short batch before another ------------------------------------------------------------

  /** Texts that differ in length, and vectors that tell the length. */
  function Row(n: nat): (texts: seq<string>)
    ensures |texts| == n && forall i :: 0 <= i < n ==> |texts[i]| == i
  {
    seq(n, i requires 0 <= i < n => seq(i, _ => 'x'))
  }

  function LengthVector(text: string): Vector {
    [|text| as real]
  }

  /** The first reply of a call lacks the vector of the last text of its batch. */
  function LosesOne(n: nat, batch: seq<string>): ApiReply {
    ApiReturned(Each(if n == 0 && batch != [] then batch[..|batch| - 1] else batch, LengthVector))
  }

  lemma LosesOneAnswers(texts: seq<string>)
    requires |texts| == MAX_BATCH_SIZE + 1
    ensures BatchAnswers(LosesOne, texts).Some?
    ensures var answers := BatchAnswers(LosesOne, texts).value;
            && AnswerAt(answers, MAX_BATCH_SIZE).None?
            && AnswerAt(answers, MAX_BATCH_SIZE - 1) == Some(LengthVector(texts[MAX_BATCH_SIZE]))
  {
    var one, two := LosesOne(0, Batch(texts, 0)), LosesOne(1, Batch(texts, 1));
    FirstLosesOne(texts);
    assert Batch(texts, 1) == texts[MAX_BATCH_SIZE..] && two.vectors == [LengthVector(texts[MAX_BATCH_SIZE])];
    FirstAnswers(LosesOne, texts);
    assert Requests(|texts|) == 2;
    assert AnswersTo(LosesOne, texts, 2) == Some(one.vectors + two.vectors);
  }

  lemma FirstLosesOne(texts: seq<string>)
    requires |texts| == MAX_BATCH_SIZE + 1
    ensures |LosesOne(0, Batch(texts, 0)).vectors| == MAX_BATCH_SIZE - 1
  {
    assert |Batch(texts, 0)| == MAX_BATCH_SIZE;
  }

  lemma FirstAnswers(api: Api, texts: seq<string>)
    ensures api(0, Batch(texts, 0)).ApiReturned? ==> AnswersTo(api, texts, 1) == Some(api(0, Batch(texts, 0)).vectors)
  {
    assert AnswersTo(api, texts, 0) == Some([]);
    if api(0, Batch(texts, 0)).ApiReturned? {
      assert [] + api(0, Batch(texts, 0)).vectors == api(0, Batch(texts, 0)).vectors;
    }
  }

  /** A call for texts no tier has returns the API's answers as they come. */
  method EmbedUnserved(service: EmbeddingService, texts: seq<string>, s: Schedule)
    returns (r: Option<seq<Option<Vector>>>)
    requires service.Valid() && service.Honest(s) && Healthy(s) && forall t :: service.Served(s)(t).None?
    modifies service
    ensures r.Some? <==> BatchAnswers(s.api, texts).Some?
    ensures r.Some? ==> |r.value| == |texts|
    ensures r.Some? ==> forall i :: 0 <= i < |texts| ==> r.value[i] == AnswerAt(BatchAnswers(s.api, texts).value, i)
  {
    ghost var tier := service.Served(s);
    ghost var places;
    r, places := service.EmbedTexts(texts, s);
    service.AllUnserved(texts, tier);
    if r.Some? {
      service.AskedForAll(texts, tier, BatchAnswers(s.api, texts).value, r);
    }
  }

  function ShortBatch(): Schedule {
    Constant([]).(api := LosesOne)
  }

  /**
   * It does happen: with one text more than a batch holds and a first reply that lacks one vector, a
   * call on a new service returns the last text's vector for the text before it, and none for the
   * last.
   */
  method ShortBatchShiftsVectors() returns (r: Option<seq<Option<Vector>>>)
    ensures var texts := Row(MAX_BATCH_SIZE + 1);
            && r.Some? && |r.value| == |texts| && r.value[MAX_BATCH_SIZE].None?
            && r.value[MAX_BATCH_SIZE - 1] == Some(LengthVector(texts[MAX_BATCH_SIZE]))
            && r.value[MAX_BATCH_SIZE - 1] != Some(LengthVector(texts[MAX_BATCH_SIZE - 1]))
  {
    var service := new EmbeddingService(t => t, 1, (_, _) => true);
    var texts := Row(MAX_BATCH_SIZE + 1);
    LosesOneAnswers(texts);
    r := EmbedUnserved(service, texts, ShortBatch());
  }
}
