/**
 * Bounded expansion over an arbitrary include graph, cycles and missing files included: which texts
 * a recursion with a depth limit gets through, told by the include chains alone.
 */
module IncludeGraph {
  import opened Sequences

  /** Which names a text includes, and the text behind a name, if there is one. */
  datatype Graph = Graph(includes: (string, string) -> bool, body: string -> Option<string>)

  /** `chain` names a path of includes from `text`: each file but perhaps the last is there. */
  predicate IsChain(g: Graph, text: string, chain: seq<string>)
    decreases |chain|
  {
    chain == [] ||
    (g.includes(text, chain[0]) &&
     (|chain| == 1 || (g.body(chain[0]).Some? && IsChain(g, g.body(chain[0]).value, chain[1..]))))
  }

  /** The chain is shorter than `fuel`, and the file it ends in is there. */
  predicate Fits(g: Graph, chain: seq<string>, fuel: nat) {
    |chain| < fuel && (chain == [] || g.body(chain[|chain| - 1]).Some?)
  }

  ghost predicate ChainsFit(g: Graph, text: string, fuel: nat) {
    forall chain :: IsChain(g, text, chain) ==> Fits(g, chain, fuel)
  }

  /** One level of a recursion: everything included is there and gets through with less fuel. */
  ghost predicate LevelDone(g: Graph, done: (string, nat) -> bool, text: string, fuel: nat) {
    fuel > 0 && forall name :: g.includes(text, name) ==> g.body(name).Some? && done(g.body(name).value, fuel - 1)
  }

  /** `done` is a depth-limited recursion over the graph. */
  ghost predicate Recursion(g: Graph, done: (string, nat) -> bool) {
    forall text, fuel: nat :: done(text, fuel) <==> LevelDone(g, done, text, fuel)
  }

  lemma {:induction false} DoneMeansFit(g: Graph, done: (string, nat) -> bool, text: string, fuel: nat, chain: seq<string>)
    requires Recursion(g, done) && done(text, fuel) && IsChain(g, text, chain)
    ensures Fits(g, chain, fuel)
    decreases |chain|
  {
    assert LevelDone(g, done, text, fuel);
    if |chain| > 1 {
      DoneMeansFit(g, done, g.body(chain[0]).value, fuel - 1, chain[1..]);
    } else if |chain| == 1 {
      DoneMeansFit(g, done, g.body(chain[0]).value, fuel - 1, []);
    }
  }

  /** Chains from a file, seen from a text that includes it. */
  lemma ChainsFitInside(g: Graph, text: string, name: string, fuel: nat)
    requires fuel > 0 && ChainsFit(g, text, fuel) && g.includes(text, name)
    ensures g.body(name).Some? && ChainsFit(g, g.body(name).value, fuel - 1)
  {
    assert IsChain(g, text, [name]) && Fits(g, [name], fuel);
    forall chain | IsChain(g, g.body(name).value, chain)
      ensures Fits(g, chain, fuel - 1)
    {
      var longer := [name] + chain;
      assert longer[1..] == chain;
      assert IsChain(g, text, longer) && Fits(g, longer, fuel);
    }
  }

  lemma {:induction false} FitMeansDone(g: Graph, done: (string, nat) -> bool, text: string, fuel: nat)
    requires Recursion(g, done) && ChainsFit(g, text, fuel)
    ensures done(text, fuel)
    decreases fuel
  {
    assert IsChain(g, text, []) && Fits(g, [], fuel);
    forall name | g.includes(text, name)
      ensures g.body(name).Some? && done(g.body(name).value, fuel - 1)
    {
      ChainsFitInside(g, text, name, fuel);
      FitMeansDone(g, done, g.body(name).value, fuel - 1);
    }
    assert LevelDone(g, done, text, fuel);
  }

  /** A depth-limited recursion gets through exactly when all chains fit its limit. */
  lemma DoneIffChainsFit(g: Graph, done: (string, nat) -> bool, text: string, fuel: nat)
    requires Recursion(g, done)
    ensures done(text, fuel) <==> ChainsFit(g, text, fuel)
  {
    if done(text, fuel) {
      forall chain | IsChain(g, text, chain)
        ensures Fits(g, chain, fuel)
      {
        DoneMeansFit(g, done, text, fuel, chain);
      }
    } else if ChainsFit(g, text, fuel) {
      FitMeansDone(g, done, text, fuel);
    }
  }

  /** A chain that ends in a file is a way into that file. */
  lemma {:induction false} ChainAppend(g: Graph, text: string, a: seq<string>, b: seq<string>)
    requires a != [] && IsChain(g, text, a) && g.body(a[|a| - 1]).Some?
    requires IsChain(g, g.body(a[|a| - 1]).value, b)
    ensures IsChain(g, text, a + b)
    decreases |a|
  {
    if |a| == 1 {
      assert (a + b)[1..] == b;
    } else {
      assert (a + b)[1..] == a[1..] + b;
      ChainAppend(g, g.body(a[0]).value, a[1..], b);
    }
  }

  /** `loop` leads from the file `name` back to it. */
  predicate IsLoop(g: Graph, name: string, loop: seq<string>) {
    && loop != [] && loop[|loop| - 1] == name
    && g.body(name).Some? && IsChain(g, g.body(name).value, loop)
  }

  lemma {:induction false} LoopRepeats(g: Graph, name: string, loop: seq<string>, n: nat) returns (chain: seq<string>)
    requires IsLoop(g, name, loop)
    ensures IsChain(g, g.body(name).value, chain) && |chain| >= n
  {
    if n == 0 {
      chain := [];
    } else {
      var rest := LoopRepeats(g, name, loop, n - 1);
      ChainAppend(g, g.body(name).value, loop, rest);
      chain := loop + rest;
    }
  }

  /** No limit gets a recursion through a cycle that can be reached. */
  lemma ReachableLoopNeverFits(g: Graph, text: string, way: seq<string>, loop: seq<string>, fuel: nat)
    requires way != [] && IsChain(g, text, way) && IsLoop(g, way[|way| - 1], loop)
    ensures !ChainsFit(g, text, fuel)
  {
    var long := LoopRepeats(g, way[|way| - 1], loop, fuel);
    ChainAppend(g, text, way, long);
    assert !Fits(g, way + long, fuel);
  }
}
