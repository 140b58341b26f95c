/**
 * Least-recently-used order as a property of a whole trace of touches.
 *
 * `ByLastUse(trace)` lists the distinct keys of a trace, the one used longest ago first; it is
 * defined by looking at the whole trace, not by replaying a cache. The stack theorem says that a
 * bounded cache which moves a touched key to the end and pops one key from the front when it is
 * over its bound holds, after any trace, exactly the last `n` keys of that list.
 */
module Recency {
  import opened Sequences

  /** The distinct keys of `trace`, each at the place of its last use. */
  function ByLastUse<K(==)>(trace: seq<K>): seq<K> {
    if trace == [] then []
    else if trace[0] in trace[1..] then ByLastUse(trace[1..])
    else [trace[0]] + ByLastUse(trace[1..])
  }

  function Without<K(==)>(s: seq<K>, k: K): seq<K> {
    if s == [] then []
    else if s[0] == k then Without(s[1..], k)
    else [s[0]] + Without(s[1..], k)
  }

  /** Move `k` to the most recent end, inserting it when it is new. */
  function MoveToEnd<K(==)>(s: seq<K>, k: K): seq<K> {
    Without(s, k) + [k]
  }

  /** Pop the oldest key when the cache is over its bound. */
  function Evict<K>(s: seq<K>, bound: int): seq<K> {
    if |s| > bound && |s| > 0 then s[1..] else s
  }

  /** What a bound given as a Python int can hold: a negative bound still pops to empty. */
  function Capacity(bound: int): nat {
    if bound < 0 then 0 else bound
  }

  lemma {:induction false} ByLastUseMembers<K>(trace: seq<K>, k: K)
    ensures k in ByLastUse(trace) <==> k in trace
  {
    if trace != [] {
      ByLastUseMembers(trace[1..], k);
      assert trace == [trace[0]] + trace[1..];
    }
  }

  lemma {:induction false} ByLastUseDistinct<K>(trace: seq<K>)
    ensures NoDuplicates(ByLastUse(trace))
  {
    if trace != [] {
      ByLastUseDistinct(trace[1..]);
      ByLastUseMembers(trace[1..], trace[0]);
    }
  }

  lemma {:induction false} WithoutMembers<K>(s: seq<K>, k: K, x: K)
    ensures x in Without(s, k) <==> x in s && x != k
  {
    if s != [] {
      WithoutMembers(s[1..], k, x);
      assert s == [s[0]] + s[1..];
    }
  }

  lemma {:induction false} WithoutAppend<K>(s: seq<K>, t: seq<K>, k: K)
    ensures Without(s + t, k) == Without(s, k) + Without(t, k)
  {
    if s == [] {
      assert s + t == t;
    } else {
      assert (s + t)[1..] == s[1..] + t;
      WithoutAppend(s[1..], t, k);
    }
  }

  lemma {:induction false} WithoutAbsent<K>(s: seq<K>, k: K)
    requires k !in s
    ensures Without(s, k) == s
  {
    if s != [] {
      assert s == [s[0]] + s[1..];
      WithoutAbsent(s[1..], k);
    }
  }

  lemma {:induction false} WithoutDistinct<K>(s: seq<K>, k: K)
    requires NoDuplicates(s)
    ensures NoDuplicates(Without(s, k))
    ensures |Without(s, k)| == |s| - (if k in s then 1 else 0)
  {
    if s != [] {
      assert s == [s[0]] + s[1..];
      WithoutDistinct(s[1..], k);
      WithoutMembers(s[1..], k, s[0]);
      if s[0] == k {
        assert k !in s[1..];
      }
    }
  }

  /** One more touch at the end of a trace moves its key to the end of the recency order. */
  lemma {:induction false} ByLastUseTouch<K>(trace: seq<K>, k: K)
    ensures ByLastUse(trace + [k]) == MoveToEnd(ByLastUse(trace), k)
  {
    if trace == [] {
      assert trace + [k] == [k];
      assert [k][1..] == [];
    } else {
      var rest := trace[1..];
      assert (trace + [k])[1..] == rest + [k];
      ByLastUseTouch(rest, k);
      if trace[0] == k {
        assert k in rest + [k];
        if k !in rest {
          ByLastUseMembers(rest, k);
          assert ([k] + ByLastUse(rest))[1..] == ByLastUse(rest);
        }
      } else {
        assert trace[0] in rest + [k] <==> trace[0] in rest;
        if trace[0] !in rest {
          assert ([trace[0]] + ByLastUse(rest))[1..] == ByLastUse(rest);
          assert [trace[0]] + (Without(ByLastUse(rest), k) + [k])
              == ([trace[0]] + Without(ByLastUse(rest), k)) + [k];
        }
      }
    }
  }

  /** A sequence without duplicates, cut in two, has no key on both sides. */
  lemma CutApart<K>(a: seq<K>, b: seq<K>, k: K)
    requires NoDuplicates(a + b) && k in b
    ensures k !in a && NoDuplicates(b)
  {
    var j :| 0 <= j < |b| && b[j] == k;
    assert (a + b)[|a| + j] == k;
    forall i | 0 <= i < |a|
      ensures a[i] != k
    {
      assert (a + b)[i] == a[i];
    }
    forall x, y | 0 <= x < y < |b|
      ensures b[x] != b[y]
    {
      assert (a + b)[|a| + x] == b[x] && (a + b)[|a| + y] == b[y];
    }
  }

  /** Removing a key that lies in the suffix `b` leaves everything before it in place. */
  lemma WithoutInSuffix<K>(a: seq<K>, b: seq<K>, k: K)
    requires NoDuplicates(a + b) && k in b
    ensures MoveToEnd(a + b, k) == a + MoveToEnd(b, k)
    ensures |MoveToEnd(b, k)| == |b|
  {
    CutApart(a, b, k);
    WithoutAppend(a, b, k);
    WithoutAbsent(a, k);
    WithoutDistinct(b, k);
    assert (a + Without(b, k)) + [k] == a + (Without(b, k) + [k]);
  }

  /** Removing a key that does not lie in the suffix `b` leaves the suffix in place. */
  lemma WithoutBeforeSuffix<K>(a: seq<K>, b: seq<K>, k: K)
    requires k !in b
    ensures MoveToEnd(a + b, k) == Without(a, k) + (b + [k])
    ensures MoveToEnd(b, k) == b + [k]
  {
    WithoutAppend(a, b, k);
    WithoutAbsent(b, k);
    assert (Without(a, k) + b) + [k] == Without(a, k) + (b + [k]);
  }

  lemma LastNOfConcat<T>(a: seq<T>, b: seq<T>, n: nat)
    ensures |b| == n ==> LastN(a + b, n) == b
    ensures n < |b| ==> LastN(a + b, n) == LastN(b, n)
    ensures a == [] ==> LastN(a + b, n) == LastN(b, n)
  {
    if a == [] {
      assert a + b == b;
    }
  }

  /** `kept` is the end of the order that the cache holds, `older` what it has popped. */
  ghost predicate Split<K>(older: seq<K>, kept: seq<K>, n: nat) {
    NoDuplicates(older + kept) && |kept| <= n && (older == [] || |kept| == n)
  }

  lemma HitStep<K>(older: seq<K>, kept: seq<K>, bound: int, k: K)
    requires Split(older, kept, Capacity(bound)) && k in kept
    ensures LastN(MoveToEnd(older + kept, k), Capacity(bound)) == MoveToEnd(kept, k)
    ensures Evict(MoveToEnd(kept, k), bound) == MoveToEnd(kept, k)
  {
    WithoutInSuffix(older, kept, k);
    LastNOfConcat(older, MoveToEnd(kept, k), Capacity(bound));
  }

  lemma MissStep<K>(older: seq<K>, kept: seq<K>, bound: int, k: K)
    requires Split(older, kept, Capacity(bound)) && k !in kept
    ensures LastN(MoveToEnd(older + kept, k), Capacity(bound)) == Evict(MoveToEnd(kept, k), bound)
  {
    WithoutBeforeSuffix(older, kept, k);
    LastNOfConcat(Without(older, k), kept + [k], Capacity(bound));
  }

  /** Touching a key, seen through the last `Capacity(bound)` keys of an order. */
  lemma TouchSuffix<K>(all: seq<K>, bound: int, k: K)
    requires NoDuplicates(all)
    ensures var kept := LastN(all, Capacity(bound));
            && Evict(MoveToEnd(kept, k), bound) == LastN(MoveToEnd(all, k), Capacity(bound))
            && (k in kept ==> MoveToEnd(kept, k) == LastN(MoveToEnd(all, k), Capacity(bound)))
  {
    var kept := LastN(all, Capacity(bound));
    var older := all[..|all| - |kept|];
    assert all == older + kept;
    if k in kept {
      HitStep(older, kept, bound, k);
    } else {
      MissStep(older, kept, bound, k);
    }
  }

  /**
   * One step of the stack theorem: a cache holding the last `Capacity(bound)` keys of the trace
   * holds them again after one more touch, whether the key was present (it only moves) or not
   * (the oldest key is popped when there is no room).
   */
  lemma StackStep<K>(trace: seq<K>, bound: int, k: K)
    ensures var n := Capacity(bound);
            Evict(MoveToEnd(LastN(ByLastUse(trace), n), k), bound) == LastN(ByLastUse(trace + [k]), n)
    ensures var n := Capacity(bound);
            k in LastN(ByLastUse(trace), n) ==>
              MoveToEnd(LastN(ByLastUse(trace), n), k) == LastN(ByLastUse(trace + [k]), n)
  {
    ByLastUseTouch(trace, k);
    ByLastUseDistinct(trace);
    TouchSuffix(ByLastUse(trace), bound, k);
  }

  /** The bounded cache itself, replayed over a trace of puts (a hit is a put of a present key). */
  function Replay<K(==)>(trace: seq<K>, bound: int): seq<K> {
    if trace == [] then []
    else Evict(MoveToEnd(Replay(trace[..|trace| - 1], bound), trace[|trace| - 1]), bound)
  }

  /** The stack theorem, for every trace and every bound. */
  lemma {:induction false} StackTheorem<K>(trace: seq<K>, bound: int)
    ensures Replay(trace, bound) == LastN(ByLastUse(trace), Capacity(bound))
  {
    if trace != [] {
      var rest := trace[..|trace| - 1];
      assert trace == rest + [trace[|trace| - 1]];
      StackTheorem(rest, bound);
      StackStep(rest, bound, trace[|trace| - 1]);
    }
  }

  /** The keys touched at the end of a trace are its most recent ones. */
  lemma {:induction false} RecentKeysAreLast<K>(trace: seq<K>, recent: seq<K>)
    ensures var all := ByLastUse(trace + recent);
            |ByLastUse(recent)| <= |all| && LastN(all, |ByLastUse(recent)|) == ByLastUse(recent)
  {
    if trace == [] {
      assert trace + recent == recent;
    } else {
      assert (trace + recent)[1..] == trace[1..] + recent;
      RecentKeysAreLast(trace[1..], recent);
    }
  }

  /** A cache with room for every key touched lately still holds all of them. */
  lemma RecentKeysSurvive<K>(trace: seq<K>, recent: seq<K>, n: nat)
    requires |ByLastUse(recent)| <= n
    ensures forall k :: k in recent ==> k in LastN(ByLastUse(trace + recent), n)
  {
    var all, mine := ByLastUse(trace + recent), ByLastUse(recent);
    RecentKeysAreLast(trace, recent);
    var older := all[..|all| - |mine|];
    assert all == older + mine;
    forall k | k in recent
      ensures k in LastN(all, n)
    {
      ByLastUseMembers(recent, k);
      SuffixMember(older, mine, n, k);
    }
  }

  lemma SuffixMember<K>(a: seq<K>, b: seq<K>, n: nat, k: K)
    requires |b| <= n && k in b
    ensures k in LastN(a + b, n)
  {
    var j :| 0 <= j < |b| && b[j] == k;
    var s := LastN(a + b, n);
    assert s[|s| - |b| + j] == k;
  }

  /** The number of distinct keys of a trace is the size of its key set. */
  lemma {:induction false} ByLastUseCount<K>(trace: seq<K>)
    ensures |ByLastUse(trace)| == |set k | k in trace|
  {
    if trace != [] {
      ByLastUseCount(trace[1..]);
      assert trace == [trace[0]] + trace[1..];
      var small, all := (set k | k in trace[1..]), (set k | k in trace);
      assert all == small + {trace[0]};
    }
  }
}
