/**
 * Evaluation of a whole flag set: a memoised depth-first walk over an arbitrary dependency graph,
 * with a stack as cycle guard, proved equal to the least fixpoint of "locally on and every
 * dependency on".
 */
module FlagService {
  import opened FlagEngine

  type FlagMap = map<string, Flag>

  /** Each flag is stored under its own key. */
  ghost predicate Keyed(flags: FlagMap) {
    forall k | k in flags :: flags[k].key == k
  }

  // ---- the declarative meaning ---------------------------------------------------------------

  /** Keys that are on by a justification of at most `n` levels of dependencies. */
  ghost function Stage(flags: FlagMap, env: Env, n: nat): set<string> {
    if n == 0 then {}
    else set k | k in flags && Supported(flags, env, k, Stage(flags, env, n - 1))
  }

  ghost predicate Supported(flags: FlagMap, env: Env, k: string, on: set<string>)
    requires k in flags
  {
    LocallyOn(flags[k], env) && forall d | d in flags[k].dependencies :: d in on
  }

  ghost function OnSet(flags: FlagMap, env: Env): set<string> {
    Stage(flags, env, |flags|)
  }

  /** The result the whole graph assigns to a flag. */
  ghost function Meaning(flags: FlagMap, env: Env, k: string): EvalResult
    requires k in flags
  {
    Evaluate(flags[k], env, OnSet(flags, env))
  }

  lemma {:induction false} StagesGrow(flags: FlagMap, env: Env, n: nat)
    ensures Stage(flags, env, n) <= Stage(flags, env, n + 1)
    ensures Stage(flags, env, n) <= flags.Keys
  {
    if n > 0 {
      StagesGrow(flags, env, n - 1);
    }
  }

  /** Either the stages have settled by `n`, or each of them added a key. */
  lemma {:induction false} StagesSettle(flags: FlagMap, env: Env, n: nat)
    ensures Stage(flags, env, n) == Stage(flags, env, n + 1) || |Stage(flags, env, n + 1)| > n
  {
    hide Supported;
    StagesGrow(flags, env, n);
    if Stage(flags, env, n) != Stage(flags, env, n + 1) {
      if n > 0 {
        StagesSettle(flags, env, n - 1);
      }
      ProperSubsetIsSmaller(Stage(flags, env, n), Stage(flags, env, n + 1));
    }
  }

  lemma ProperSubsetIsSmaller<T>(a: set<T>, b: set<T>)
    requires a < b
    ensures |a| < |b|
  {
    assert exists x :: x in b && x !in a;
    var x :| x in b && x !in a;
    SubsetIsNoLarger(a, b - {x});
  }

  lemma {:induction false} SubsetIsNoLarger<T>(a: set<T>, b: set<T>)
    requires a <= b
    ensures |a| <= |b|
  {
    if a != {} {
      var x :| x in a;
      SubsetIsNoLarger(a - {x}, b - {x});
    }
  }

  /** OnSet is a fixpoint: a key is in it exactly when it is locally on with all dependencies in it. */
  lemma OnSetIsFixpoint(flags: FlagMap, env: Env)
    ensures OnSet(flags, env) == Stage(flags, env, |flags| + 1)
    ensures forall k :: k in OnSet(flags, env) <==>
              k in flags && Supported(flags, env, k, OnSet(flags, env))
  {
    var n := |flags|;
    StagesSettle(flags, env, n);
    StagesGrow(flags, env, n + 1);
    if Stage(flags, env, n) != Stage(flags, env, n + 1) {
      assert |flags.Keys| == n;
      SubsetIsNoLarger(Stage(flags, env, n + 1), flags.Keys);
    }
  }

  /** ... and the least one: it lies inside every set closed under the same rule. */
  lemma {:induction false} OnSetIsLeast(flags: FlagMap, env: Env, closed: set<string>)
    requires forall k | k in flags && Supported(flags, env, k, closed) :: k in closed
    ensures OnSet(flags, env) <= closed
  {
    StageIsLeast(flags, env, closed, |flags|);
  }

  lemma {:induction false} StageIsLeast(flags: FlagMap, env: Env, closed: set<string>, n: nat)
    requires forall k | k in flags && Supported(flags, env, k, closed) :: k in closed
    ensures Stage(flags, env, n) <= closed
  {
    if n > 0 {
      StageIsLeast(flags, env, closed, n - 1);
    }
  }

  // ---- the same meaning, in terms of dependency paths ----------------------------------------

  /** A chain of keys, each named as a dependency by the one before it. */
  ghost predicate IsPath(flags: FlagMap, p: seq<string>) {
    |p| > 0 && forall i | 0 <= i < |p| - 1 :: DependsOn(flags, p[i], p[i + 1])
  }

  ghost predicate DependsOn(flags: FlagMap, k: string, d: string) {
    k in flags && d in flags[k].dependencies
  }

  ghost predicate GoodPath(flags: FlagMap, env: Env, p: seq<string>) {
    forall k | k in p :: k in flags && LocallyOn(flags[k], env)
  }

  ghost predicate PathsGood(flags: FlagMap, env: Env, k: string, n: nat) {
    forall p :: IsPath(flags, p) && p[0] == k ==> |p| <= n && GoodPath(flags, env, p)
  }

  lemma {:induction false} StageByPaths(flags: FlagMap, env: Env, k: string, n: nat)
    ensures k in Stage(flags, env, n) <==> PathsGood(flags, env, k, n)
    decreases n
  {
    assert IsPath(flags, [k]);
    if n == 0 {
      assert |[k]| > 0;
    } else {
      if k in flags {
        forall d | d in flags[k].dependencies
          ensures d in Stage(flags, env, n - 1) <==> PathsGood(flags, env, d, n - 1)
        {
          StageByPaths(flags, env, d, n - 1);
        }
      }
      if k in Stage(flags, env, n) {
        PathsFromSupported(flags, env, k, n);
      } else if PathsGood(flags, env, k, n) {
        SupportedFromPaths(flags, env, k, n);
      }
    }
  }

  lemma PathsFromSupported(flags: FlagMap, env: Env, k: string, n: nat)
    requires n > 0 && k in flags && LocallyOn(flags[k], env)
    requires forall d | d in flags[k].dependencies :: PathsGood(flags, env, d, n - 1)
    ensures PathsGood(flags, env, k, n)
  {
    hide LocallyOn;
    forall p | IsPath(flags, p) && p[0] == k
      ensures |p| <= n && GoodPath(flags, env, p)
    {
      if |p| > 1 {
        assert DependsOn(flags, p[0], p[0 + 1]);
        var rest := p[1..];
        forall i | 0 <= i < |rest| - 1
          ensures DependsOn(flags, rest[i], rest[i + 1])
        {
          assert DependsOn(flags, p[i + 1], p[i + 1 + 1]);
        }
        assert IsPath(flags, rest) && p == [p[0]] + rest;
      }
    }
  }

  lemma SupportedFromPaths(flags: FlagMap, env: Env, k: string, n: nat)
    requires n > 0 && PathsGood(flags, env, k, n)
    ensures k in flags && LocallyOn(flags[k], env)
    ensures forall d | d in flags[k].dependencies :: PathsGood(flags, env, d, n - 1)
  {
    hide LocallyOn;
    assert IsPath(flags, [k]) && GoodPath(flags, env, [k]) && k in [k];
    forall d, p | d in flags[k].dependencies && IsPath(flags, p) && p[0] == d
      ensures |p| <= n - 1 && GoodPath(flags, env, p)
    {
      var longer := [k] + p;
      forall i | 0 <= i < |longer| - 1
        ensures DependsOn(flags, longer[i], longer[i + 1])
      {
        assert i > 0 ==> DependsOn(flags, p[i - 1], p[i - 1 + 1]);
      }
      assert IsPath(flags, longer) && GoodPath(flags, env, longer);
      assert forall x | x in p :: x in longer;
    }
  }

  /**
   * A flag is on exactly when every chain of dependencies from it stays among known, locally-on
   * flags and is no longer than the flag set.
   */
  lemma OnByPaths(flags: FlagMap, env: Env, k: string)
    ensures k in OnSet(flags, env) <==> PathsGood(flags, env, k, |flags|)
  {
    StageByPaths(flags, env, k, |flags|);
  }

  /** So a flag that depends on itself, at any distance, is off, and so is one that reaches a cycle. */
  lemma {:induction false} CycleIsOff(flags: FlagMap, env: Env, p: seq<string>, i: nat)
    requires IsPath(flags, p) && i < |p| - 1 && p[i] == p[|p| - 1]
    ensures p[0] !in OnSet(flags, env)
    decreases |flags| + 1 - |p|
  {
    if |p| > |flags| {
      OnByPaths(flags, env, p[0]);
    } else {
      var q := p + p[i + 1..];
      forall j | 0 <= j < |q| - 1
        ensures DependsOn(flags, q[j], q[j + 1])
      {
        var j' := if j < |p| - 1 then j else j - |p| + 1 + i;
        assert q[j] == p[j'] && q[j + 1] == p[j' + 1];
      }
      CycleIsOff(flags, env, q, i);
    }
  }

  // ---- the memoised evaluator ----------------------------------------------------------------

  /** Whatever level of justification `s` has, `k` has a smaller one. A key is never below itself
      unless it is off, which is what makes the cycle guard's "off" answer right. */
  ghost predicate Below(flags: FlagMap, env: Env, k: string, s: string) {
    forall n: nat :: s in Stage(flags, env, n) ==> n > 0 && k in Stage(flags, env, n - 1)
  }

  lemma {:induction false} BelowItselfIsOff(flags: FlagMap, env: Env, k: string, n: nat)
    requires Below(flags, env, k, k)
    ensures k !in Stage(flags, env, n)
  {
    if n > 0 {
      BelowItselfIsOff(flags, env, k, n - 1);
    }
  }

  lemma BelowDependency(flags: FlagMap, env: Env, d: string, k: string, s: string)
    requires k in flags && d in flags[k].dependencies
    requires s == k || Below(flags, env, k, s)
    ensures Below(flags, env, d, s)
  {
    hide LocallyOn;
    forall n: nat | s in Stage(flags, env, n)
      ensures n > 0 && d in Stage(flags, env, n - 1)
    {
      if s != k {
        assert k in Stage(flags, env, n - 1);
        StagesGrow(flags, env, n - 2);
      }
    }
  }

  class Evaluator {
    const flags: FlagMap
    const env: Env
    var memo: map<string, EvalResult>
    var stack: set<string>

    constructor (flags: FlagMap, env: Env)
      requires Keyed(flags)
      ensures Valid() && this.flags == flags && this.env == env && stack == {} && memo == map[]
    {
      this.flags, this.env := flags, env;
      memo, stack := map[], {};
    }

    ghost predicate Valid()
      reads this
    {
      Keyed(flags) && stack <= flags.Keys &&
      forall k | k in memo :: k in flags && memo[k] == Meaning(flags, env, k)
    }

    ghost predicate StackAbove(k: string)
      reads this
    {
      forall s | s in stack :: Below(flags, env, k, s)
    }

    method EvalKey(key: string) returns (r: EvalResult)
      requires Valid() && StackAbove(key)
      modifies this`memo, this`stack
      ensures Valid() && stack == old(stack)
      ensures r.on <==> key in OnSet(flags, env)
      ensures key in flags && key !in stack ==> r == Meaning(flags, env, key)
      ensures forall k | k in old(memo) :: k in memo && memo[k] == old(memo[k])
      decreases flags.Keys - stack, 0
    {
      OnSetIsFixpoint(flags, env);
      if key in memo {
        OnExactlyWhen(flags[key], env, OnSet(flags, env));
        return memo[key];
      }
      if key !in flags {
        return EvalResult(key, false, Boolean(false), Wrappers.None, Dependency);
      }
      var flag := flags[key];
      if key in stack {
        BelowItselfIsOff(flags, env, key, |flags|);
        return Off(flag, Dependency);
      }
      stack := stack + {key};
      r := EvaluateFlag(flag);
      stack := stack - {key};
      memo := memo[key := r];
      OnExactlyWhen(flag, env, OnSet(flags, env));
    }

    /** `evaluate(flag, ctx, deps)`, its dependency callback being EvalKey. */
    method EvaluateFlag(flag: Flag) returns (r: EvalResult)
      requires Valid() && flag.key in flags && flags[flag.key] == flag && flag.key in stack
      requires forall s | s in stack && s != flag.key :: Below(flags, env, flag.key, s)
      modifies this`memo, this`stack
      ensures Valid() && stack == old(stack)
      ensures r == Meaning(flags, env, flag.key) && Decided(flag, env, OnSet(flags, env), r)
      ensures forall k | k in old(memo) :: k in memo && memo[k] == old(memo[k])
      decreases flags.Keys - stack, 1
    {
      DecisionOrder(flag, env, OnSet(flags, env));
      hide Decided;
      var gate := Gate(flag, env);
      if gate.Some? {
        return gate.value;
      }
      for i := 0 to |flag.dependencies|
        invariant Valid() && stack == old(stack)
        invariant forall j | 0 <= j < i :: flag.dependencies[j] in OnSet(flags, env)
        invariant forall k | k in old(memo) :: k in memo && memo[k] == old(memo[k])
      {
        var dep := flag.dependencies[i];
        forall s | s in stack
          ensures Below(flags, env, dep, s)
        {
          BelowDependency(flags, env, dep, flag.key, s);
        }
        var d := EvalKey(dep);
        if !d.on {
          return Off(flag, Dependency);
        }
      }
      r := AfterDependencies(flag, env);
    }
  }

  // ---- the flag set --------------------------------------------------------------------------

  /** The index `new Map(flags.map((f) => [f.key, f]))`: the last flag with a key wins. */
  function ByKey(fs: seq<Flag>): FlagMap {
    if fs == [] then map[] else ByKey(fs[..|fs| - 1])[fs[|fs| - 1].key := fs[|fs| - 1]]
  }

  lemma {:induction false} ByKeyCovers(fs: seq<Flag>)
    ensures forall f | f in fs :: f.key in ByKey(fs)
    ensures forall k | k in ByKey(fs) :: ByKey(fs)[k] in fs
    ensures Keyed(ByKey(fs))
  {
    if fs != [] {
      ByKeyCovers(fs[..|fs| - 1]);
    }
  }

  method IndexByKey(fs: seq<Flag>) returns (byKey: FlagMap)
    ensures byKey == ByKey(fs)
  {
    byKey := map[];
    for i := 0 to |fs|
      invariant byKey == ByKey(fs[..i])
    {
      assert fs[..i + 1][..i] == fs[..i];
      byKey := byKey[fs[i].key := fs[i]];
    }
    assert fs[..|fs|] == fs;
  }

  /** Results for a whole bundle, whatever the order of its flags. */
  method EvaluateSet(fs: seq<Flag>, env: Env) returns (results: map<string, EvalResult>)
    ensures results.Keys == ByKey(fs).Keys
    ensures forall k | k in results :: results[k] == Meaning(ByKey(fs), env, k)
    ensures forall k | k in results :: Decided(ByKey(fs)[k], env, OnSet(ByKey(fs), env), results[k])
  {
    var byKey := IndexByKey(fs);
    ByKeyCovers(fs);
    hide Meaning, ByKey, OnSet, Below, Keyed, Decided;
    assert forall i | 0 <= i < |fs| :: fs[i] in fs;
    var evaluator := new Evaluator(byKey, env);
    results := map[];
    for i := 0 to |fs|
      invariant evaluator.Valid() && evaluator.stack == {}
      invariant forall j | 0 <= j < i :: fs[j].key in results
      invariant forall k | k in results :: k in byKey && results[k] == Meaning(byKey, env, k)
    {
      var r := evaluator.EvalKey(fs[i].key);
      results := results[fs[i].key := r];
    }
    forall k | k in byKey
      ensures k in results
    {
      var j :| 0 <= j < |fs| && fs[j] == byKey[k];
    }
    AllDecided(byKey, env);
  }

  lemma AllDecided(flags: FlagMap, env: Env)
    ensures forall k | k in flags :: Decided(flags[k], env, OnSet(flags, env), Meaning(flags, env, k))
  {
    hide Decided, OnSet;
    forall k | k in flags
      ensures Decided(flags[k], env, OnSet(flags, env), Meaning(flags, env, k))
    {
      DecisionOrder(flags[k], env, OnSet(flags, env));
    }
  }

  ghost predicate DistinctKeys(fs: seq<Flag>) {
    forall i, j | 0 <= i < j < |fs| :: fs[i].key != fs[j].key
  }

  lemma {:induction false} ByKeyLookup(fs: seq<Flag>, f: Flag)
    requires DistinctKeys(fs) && f in fs
    ensures f.key in ByKey(fs) && ByKey(fs)[f.key] == f
  {
    if f != fs[|fs| - 1] {
      ByKeyLookup(fs[..|fs| - 1], f);
    }
  }

  lemma SameFlagsSameLookup(fs: seq<Flag>, gs: seq<Flag>, k: string)
    requires DistinctKeys(gs) && (forall f | f in fs :: f in gs) && k in ByKey(fs)
    ensures k in ByKey(gs) && ByKey(gs)[k] == ByKey(fs)[k]
  {
    ByKeyCovers(fs);
    ByKeyLookup(gs, ByKey(fs)[k]);
  }

  /** Reordering the flags changes nothing: EvaluateSet's results depend only on this index. */
  lemma OrderDoesNotMatter(fs: seq<Flag>, gs: seq<Flag>)
    requires DistinctKeys(fs) && DistinctKeys(gs) && multiset(fs) == multiset(gs)
    ensures ByKey(fs) == ByKey(gs)
  {
    assert forall f :: f in fs <==> f in multiset(fs);
    assert forall f :: f in gs <==> f in multiset(gs);
    forall k | k in ByKey(fs)
      ensures k in ByKey(gs) && ByKey(gs)[k] == ByKey(fs)[k]
    {
      SameFlagsSameLookup(fs, gs, k);
    }
    forall k | k in ByKey(gs)
      ensures k in ByKey(fs)
    {
      SameFlagsSameLookup(gs, fs, k);
    }
  }

  // ---- merging the global and tenant scopes --------------------------------------------------

  /** The keys of a JavaScript `Map` filled from `fs`, in insertion order. */
  function KeyOrder(fs: seq<Flag>): seq<string> {
    if fs == [] then []
    else
      var rest, k := KeyOrder(fs[..|fs| - 1]), fs[|fs| - 1].key;
      if k in rest then rest else rest + [k]
  }

  /** Of several flags with a key the last one is indexed. */
  lemma {:induction false} ByKeyIsLast(fs: seq<Flag>, k: string) returns (i: nat)
    requires k in ByKey(fs)
    ensures i < |fs| && fs[i].key == k && ByKey(fs)[k] == fs[i]
    ensures forall j | i < j < |fs| :: fs[j].key != k
  {
    i := |fs| - 1;
    if fs[i].key != k {
      i := ByKeyIsLast(fs[..i], k);
    }
  }

  /** Keys stand in the order in which they were first inserted. */
  lemma {:induction false} KeyOrderIsFirst(fs: seq<Flag>, i: nat, j: nat) returns (p: nat)
    requires i < j < |KeyOrder(fs)|
    ensures p < |fs| && fs[p].key == KeyOrder(fs)[i] && forall q | 0 <= q <= p :: fs[q].key != KeyOrder(fs)[j]
  {
    var init := fs[..|fs| - 1];
    KeyOrderIsKeys(init);
    ByKeyCovers(init);
    if j < |KeyOrder(init)| {
      p := KeyOrderIsFirst(init, i, j);
    } else {
      p := FirstWithKey(init, KeyOrder(fs)[i]);
    }
  }

  lemma FirstWithKey(fs: seq<Flag>, k: string) returns (p: nat)
    requires k in ByKey(fs)
    ensures p < |fs| && fs[p].key == k
  {
    p := ByKeyIsLast(fs, k);
  }

  lemma {:induction false} KeyOrderIsKeys(fs: seq<Flag>)
    ensures forall k :: k in KeyOrder(fs) <==> k in ByKey(fs)
    ensures forall i, j | 0 <= i < j < |KeyOrder(fs)| :: KeyOrder(fs)[i] != KeyOrder(fs)[j]
  {
    if fs != [] {
      KeyOrderIsKeys(fs[..|fs| - 1]);
    }
  }

  lemma MapSnoc(fs: seq<Flag>, f: Flag)
    ensures ByKey(fs + [f]) == ByKey(fs)[f.key := f]
    ensures KeyOrder(fs + [f]) == if f.key in KeyOrder(fs) then KeyOrder(fs) else KeyOrder(fs) + [f.key]
  {
    assert (fs + [f])[..|fs|] == fs;
  }

  method FillMap(fs: seq<Flag>, keys: seq<string>, byKey: FlagMap, ghost seen: seq<Flag>)
    returns (keys': seq<string>, byKey': FlagMap)
    requires keys == KeyOrder(seen) && byKey == ByKey(seen)
    ensures keys' == KeyOrder(seen + fs) && byKey' == ByKey(seen + fs)
  {
    hide KeyOrder, ByKey;
    keys', byKey' := keys, byKey;
    assert seen + fs[..0] == seen;
    for i := 0 to |fs|
      invariant keys' == KeyOrder(seen + fs[..i]) && byKey' == ByKey(seen + fs[..i])
    {
      MapSnoc(seen + fs[..i], fs[i]);
      assert seen + fs[..i + 1] == seen + fs[..i] + [fs[i]];
      if fs[i].key !in keys' {
        keys' := keys' + [fs[i].key];
      }
      byKey' := byKey'[fs[i].key := fs[i]];
    }
    assert fs[..|fs|] == fs;
  }

  /** The bundle's flags: one per key, the tenant's where it has one, in first-insertion order. */
  method MergeScopes(globals: seq<Flag>, tenants: seq<Flag>) returns (fs: seq<Flag>)
    ensures DistinctKeys(fs)
    ensures ByKey(fs) == ByKey(globals) + ByKey(tenants)
    ensures |fs| == |KeyOrder(globals + tenants)|
    ensures forall i | 0 <= i < |fs| :: fs[i].key == KeyOrder(globals + tenants)[i]
  {
    var keys, byKey := FillMap(globals, [], map[], []);
    assert [] + globals == globals;
    keys, byKey := FillMap(tenants, keys, byKey, globals);
    KeyOrderIsKeys(globals + tenants);
    ByKeyConcat(globals, tenants);
    fs := seq(|keys|, i requires 0 <= i < |keys| => assert keys[i] in keys; byKey[keys[i]]);
    ByKeyCovers(globals + tenants);
    MapValues(keys, byKey, fs);
  }

  lemma MapValues(keys: seq<string>, byKey: FlagMap, fs: seq<Flag>)
    requires Keyed(byKey) && forall k :: k in keys <==> k in byKey
    requires |fs| == |keys| && DistinctKeys(fs)
    requires forall i | 0 <= i < |keys| :: keys[i] in byKey && fs[i] == byKey[keys[i]]
    ensures ByKey(fs) == byKey
  {
    hide ByKey, DistinctKeys;
    ByKeyCovers(fs);
    forall k | k in byKey
      ensures k in ByKey(fs) && ByKey(fs)[k] == byKey[k]
    {
      var i :| 0 <= i < |keys| && keys[i] == k;
      assert fs[i] in fs && fs[i].key == k;
      ByKeyLookup(fs, fs[i]);
    }
    forall k | k in ByKey(fs)
      ensures k in byKey
    {
      var i :| 0 <= i < |fs| && fs[i] == ByKey(fs)[k];
      assert keys[i] in byKey && fs[i].key == keys[i];
    }
  }

  lemma {:induction false} ByKeyConcat(fs: seq<Flag>, gs: seq<Flag>)
    ensures ByKey(fs + gs) == ByKey(fs) + ByKey(gs)
  {
    if gs == [] {
      assert fs + gs == fs;
    } else {
      hide ByKey, KeyOrder;
      var init, g := gs[..|gs| - 1], gs[|gs| - 1];
      ByKeyConcat(fs, init);
      assert gs == init + [g] && fs + gs == fs + init + [g];
      MapSnoc(init, g);
      MapSnoc(fs + init, g);
      AddThenPut(ByKey(fs), ByKey(init), g);
    }
  }

  lemma AddThenPut(a: FlagMap, b: FlagMap, g: Flag)
    ensures (a + b)[g.key := g] == a + b[g.key := g]
  {
  }

  // ---- raising a rollout ---------------------------------------------------------------------

  /** `g` is `f` with its rollout percentage raised, or unchanged. */
  ghost predicate Raised(f: Flag, g: Flag) {
    f.rollout.percentage <= g.rollout.percentage &&
    g == f.(rollout := f.rollout.(percentage := g.rollout.percentage))
  }

  ghost predicate AllRaised(fs: FlagMap, gs: FlagMap) {
    fs.Keys == gs.Keys && forall k | k in fs :: Raised(fs[k], gs[k])
  }

  lemma RaisedAfterDependencies(f: Flag, g: Flag, env: Env)
    requires Raised(f, g) && AfterDependencies(f, env).on
    ensures AfterDependencies(g, env) == AfterDependencies(f, env)
  {
  }

  lemma {:induction false} RaisingGrowsStages(fs: FlagMap, gs: FlagMap, env: Env, n: nat)
    requires AllRaised(fs, gs)
    ensures Stage(fs, env, n) <= Stage(gs, env, n)
  {
    if n > 0 {
      RaisingGrowsStages(fs, gs, env, n - 1);
      forall k | k in Stage(fs, env, n)
        ensures k in Stage(gs, env, n)
      {
        RaisedAfterDependencies(fs[k], gs[k], env);
      }
    }
  }

  /**
   * Raising any rollout percentages turns no flag off, through any dependencies, and leaves the
   * whole result of a flag that was on (its variant included) as it was.
   */
  lemma RaisingRolloutIsMonotone(fs: FlagMap, gs: FlagMap, env: Env, k: string)
    requires AllRaised(fs, gs) && k in fs && Meaning(fs, env, k).on
    ensures Meaning(gs, env, k) == Meaning(fs, env, k)
  {
    OnExactlyWhen(fs[k], env, OnSet(fs, env));
    RaisingGrowsStages(fs, gs, env, |fs|);
    assert |fs| == |fs.Keys| == |gs.Keys| == |gs|;
    RaisedAfterDependencies(fs[k], gs[k], env);
  }
}
