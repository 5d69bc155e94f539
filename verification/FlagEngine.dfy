/**
 * The pure evaluation engine for one feature flag. Dependencies reach it as the
 * set of flag keys that are on; FlagService computes that set with a memo.
 */
module FlagEngine {
  import opened Wrappers
  import V = Variants

  /** A JSON value as far as the engine looks into it. */
  datatype Value = Undefined | Null | Boolean(b: bool) | Data(payload: string)

  datatype RuleOp = In | Eq | Neq | Gte | Lte | SemverGte | SemverLt
  datatype Rule = Rule(attribute: string, op: RuleOp, values: seq<string>)
  datatype Variant = Variant(key: string, value: Value, weight: real)
  datatype Rollout = Rollout(
    percentage: real,
    segmentIds: seq<string>,
    rules: seq<Rule>,
    userOverrides: map<string, Value>)
  datatype FlagType = BooleanFlag | ConfigFlag | ExperimentFlag
  datatype FlagState = Active | Archived
  datatype Flag = Flag(
    key: string,
    flagType: FlagType,
    enabled: bool,
    value: Value,
    defaultValue: Value,
    variants: seq<Variant>,
    rollout: Rollout,
    dependencies: seq<string>,
    state: FlagState)

  datatype Context = Context(
    userId: Option<string>,
    country: Option<string>,
    platform: Option<string>,
    appVersion: Option<string>,
    role: Option<string>,
    attrs: map<string, string>)

  datatype Version = Version(major: int, minor: int, patch: int)

  /** JavaScript's `Number(..)` (None is NaN) and the engine's semver reader, left abstract. */
  datatype Parsers = Parsers(number: string -> Option<real>, semver: string -> Version)

  datatype Maintenance = Maintenance(active: bool, allowlist: seq<string>)
  datatype Env = Env(
    ctx: Context,
    segments: map<string, seq<Rule>>,
    maintenance: Maintenance,
    parsers: Parsers,
    bucketOf: (string, string) -> V.Bucket)

  datatype Reason =
    Killed | Dependency | Override | RuleMiss | SegmentMiss | Percentage | RolledOut | InMaintenance
  datatype EvalResult = EvalResult(
    key: string, on: bool, value: Value, variant: Option<string>, reason: Reason)

  function ContextValue(ctx: Context, attribute: string): Option<string> {
    match attribute
    case "country" => ctx.country
    case "platform" => ctx.platform
    case "appVersion" => ctx.appVersion
    case "role" => ctx.role
    case "userId" => ctx.userId
    case _ => if attribute in ctx.attrs then Some(ctx.attrs[attribute]) else None
  }

  function CompareVersions(a: Version, b: Version): int {
    if a.major != b.major then a.major - b.major
    else if a.minor != b.minor then a.minor - b.minor
    else a.patch - b.patch
  }

  predicate MatchRule(rule: Rule, env: Env) {
    var actual := ContextValue(env.ctx, rule.attribute);
    actual.Some? &&
    var first := if rule.values == [] then "" else rule.values[0];
    match rule.op
    case In => actual.value in rule.values
    case Eq => actual.value == first
    case Neq => actual.value != first
    case Gte =>
      var (x, y) := (env.parsers.number(actual.value), env.parsers.number(first));
      x.Some? && y.Some? && x.value >= y.value
    case Lte =>
      var (x, y) := (env.parsers.number(actual.value), env.parsers.number(first));
      x.Some? && y.Some? && x.value <= y.value
    case SemverGte =>
      CompareVersions(env.parsers.semver(actual.value), env.parsers.semver(first)) >= 0
    case SemverLt =>
      CompareVersions(env.parsers.semver(actual.value), env.parsers.semver(first)) < 0
  }

  predicate MatchAllRules(rules: seq<Rule>, env: Env) {
    forall r | r in rules :: MatchRule(r, env)
  }

  predicate SegmentMatches(id: string, env: Env) {
    id in env.segments && MatchAllRules(env.segments[id], env)
  }

  function Off(f: Flag, reason: Reason): EvalResult {
    EvalResult(f.key, false, f.defaultValue, None, reason)
  }

  /** The checks made before any dependency is looked at. */
  function Gate(f: Flag, env: Env): Option<EvalResult> {
    if env.maintenance.active && f.key !in env.maintenance.allowlist then Some(Off(f, InMaintenance))
    else if !f.enabled || f.state != Active then Some(Off(f, Killed))
    else None
  }

  function UserKey(ctx: Context): string {
    if ctx.userId.Some? then ctx.userId.value else ""
  }

  function BucketFor(f: Flag, env: Env): V.Bucket {
    var uid := UserKey(env.ctx);
    env.bucketOf(if uid != "" then uid else f.key, f.key)
  }

  function Coalesce(a: Value, b: Value): Value {
    if a.Undefined? || a.Null? then b else a
  }

  function VariantWeights(vs: seq<Variant>): seq<real> {
    seq(|vs|, i requires 0 <= i < |vs| => vs[i].weight)
  }

  /** The checks made once every dependency is known to be on. */
  function AfterDependencies(f: Flag, env: Env): EvalResult {
    var uid := UserKey(env.ctx);
    if uid != "" && uid in f.rollout.userOverrides then
      var v := f.rollout.userOverrides[uid];
      EvalResult(f.key, !(v == Boolean(false) || v.Undefined? || v.Null?), v, None, Override)
    else if f.rollout.rules != [] && !MatchAllRules(f.rollout.rules, env) then Off(f, RuleMiss)
    else if f.rollout.segmentIds != [] &&
            !(exists s | s in f.rollout.segmentIds :: SegmentMatches(s, env)) then Off(f, SegmentMiss)
    else
      var b := BucketFor(f, env);
      if b as real >= f.rollout.percentage * 100.0 then Off(f, Percentage)
      else if f.flagType.ExperimentFlag? && f.variants != [] then
        var v := f.variants[V.Pick(VariantWeights(f.variants), b)];
        EvalResult(f.key, true, Coalesce(v.value, Coalesce(f.value, Boolean(true))), Some(v.key), RolledOut)
      else
        EvalResult(f.key, true, if f.flagType.ConfigFlag? then f.value else Boolean(true), None, RolledOut)
  }

  /** One flag's outcome when exactly the keys in `on` are on. */
  ghost function Evaluate(f: Flag, env: Env, on: set<string>): EvalResult {
    if Gate(f, env).Some? then Gate(f, env).value
    else if exists d :: d in f.dependencies && d !in on then Off(f, Dependency)
    else AfterDependencies(f, env)
  }

  /** What the flag decides by itself, were all of its dependencies on. */
  ghost predicate LocallyOn(f: Flag, env: Env) {
    Gate(f, env).None? && AfterDependencies(f, env).on
  }

  lemma OnExactlyWhen(f: Flag, env: Env, on: set<string>)
    ensures Evaluate(f, env, on).on <==> LocallyOn(f, env) && forall d | d in f.dependencies :: d in on
    ensures Evaluate(f, env, on).key == f.key
  {
  }

  // ---- what the operators mean, over the context's fields --------------------------------------

  /** The context says this about the attribute: a field of its own, or an entry of attrs. */
  ghost predicate Known(ctx: Context, attribute: string, actual: string) {
    && (attribute == "country" ==> ctx.country == Some(actual))
    && (attribute == "platform" ==> ctx.platform == Some(actual))
    && (attribute == "appVersion" ==> ctx.appVersion == Some(actual))
    && (attribute == "role" ==> ctx.role == Some(actual))
    && (attribute == "userId" ==> ctx.userId == Some(actual))
    && (attribute !in {"country", "platform", "appVersion", "role", "userId"} ==>
         attribute in ctx.attrs && ctx.attrs[attribute] == actual)
  }

  /** `x` is the rule's first value; a rule without values has the empty one. */
  ghost predicate FirstValue(values: seq<string>, x: string) {
    if values == [] then x == "" else x == values[0]
  }

  ghost predicate NumbersAtLeast(parsers: Parsers, s: string, t: string) {
    exists x, y :: parsers.number(s) == Some(x) && parsers.number(t) == Some(y) && x >= y
  }

  /** Lexicographic order of versions. */
  ghost predicate Older(a: Version, b: Version) {
    || a.major < b.major
    || (a.major == b.major && a.minor < b.minor)
    || (a.major == b.major && a.minor == b.minor && a.patch < b.patch)
  }

  ghost predicate Verdict(rule: Rule, actual: string, parsers: Parsers) {
    match rule.op
    case In => exists i :: 0 <= i < |rule.values| && rule.values[i] == actual
    case Eq => FirstValue(rule.values, actual)
    case Neq => !FirstValue(rule.values, actual)
    case Gte => exists t :: FirstValue(rule.values, t) && NumbersAtLeast(parsers, actual, t)
    case Lte => exists t :: FirstValue(rule.values, t) && NumbersAtLeast(parsers, t, actual)
    case SemverGte => exists t :: FirstValue(rule.values, t) && !Older(parsers.semver(actual), parsers.semver(t))
    case SemverLt => exists t :: FirstValue(rule.values, t) && Older(parsers.semver(actual), parsers.semver(t))
  }

  ghost predicate RuleHolds(rule: Rule, env: Env) {
    exists actual :: Known(env.ctx, rule.attribute, actual) && Verdict(rule, actual, env.parsers)
  }

  lemma KnownIsValue(ctx: Context, attribute: string, actual: string)
    ensures Known(ctx, attribute, actual) <==> ContextValue(ctx, attribute) == Some(actual)
  {
  }

  lemma OlderIsNegative(a: Version, b: Version)
    ensures Older(a, b) <==> CompareVersions(a, b) < 0
  {
  }

  lemma VerdictOf(rule: Rule, actual: string, env: Env)
    requires ContextValue(env.ctx, rule.attribute) == Some(actual)
    ensures MatchRule(rule, env) <==> Verdict(rule, actual, env.parsers)
  {
    var first := if rule.values == [] then "" else rule.values[0];
    assert FirstValue(rule.values, first);
    OlderIsNegative(env.parsers.semver(actual), env.parsers.semver(first));
    hide ContextValue, CompareVersions, Older;
  }

  /** A rule matches exactly when its attribute is known and its operator says so. */
  lemma MatchRuleExactly(rule: Rule, env: Env)
    ensures MatchRule(rule, env) <==> RuleHolds(rule, env)
  {
    var actual := ContextValue(env.ctx, rule.attribute);
    if actual.Some? {
      KnownIsValue(env.ctx, rule.attribute, actual.value);
      VerdictOf(rule, actual.value, env);
    }
    forall x
      ensures Known(env.ctx, rule.attribute, x) <==> actual == Some(x)
    {
      KnownIsValue(env.ctx, rule.attribute, x);
    }
    hide Known, Verdict, ContextValue;
  }

  /** How the operators are related, for one attribute and one list of values. */
  lemma OperatorLaws(attribute: string, values: seq<string>, env: Env)
    ensures var M := (op: RuleOp) => MatchRule(Rule(attribute, op, values), env);
            var known := exists actual :: Known(env.ctx, attribute, actual);
            && (M(Eq) || M(Neq) <==> known) && !(M(Eq) && M(Neq))
            && (|values| == 1 ==> M(In) == M(Eq))
            && (M(SemverGte) || M(SemverLt) <==> known) && !(M(SemverGte) && M(SemverLt))
            && (M(Gte) && M(Lte) <==>
                 exists actual, t, x :: Known(env.ctx, attribute, actual) && FirstValue(values, t) &&
                   env.parsers.number(actual) == Some(x) && env.parsers.number(t) == Some(x))
  {
    var actual := ContextValue(env.ctx, attribute);
    forall x
      ensures Known(env.ctx, attribute, x) <==> actual == Some(x)
    {
      KnownIsValue(env.ctx, attribute, x);
    }
    hide Known, ContextValue;
    assert FirstValue(values, if values == [] then "" else values[0]);
  }

  // ---- what a flag's result is, over its own fields ---------------------------------------------

  ghost predicate AllHold(rules: seq<Rule>, env: Env) {
    forall i | 0 <= i < |rules| :: RuleHolds(rules[i], env)
  }

  ghost predicate SegmentHolds(id: string, env: Env) {
    id in env.segments && AllHold(env.segments[id], env)
  }

  ghost predicate InSomeSegment(f: Flag, env: Env) {
    f.rollout.segmentIds == [] ||
    exists i :: 0 <= i < |f.rollout.segmentIds| && SegmentHolds(f.rollout.segmentIds[i], env)
  }

  /** The user the context names; an empty id names nobody. */
  ghost predicate User(env: Env, uid: string) {
    uid != "" && env.ctx.userId == Some(uid)
  }

  /** Buckets are drawn per user and flag, and per flag alone for contexts without a user. */
  ghost predicate InBucket(f: Flag, env: Env, b: V.Bucket) {
    && (forall uid | User(env, uid) :: b == env.bucketOf(uid, f.key))
    && ((forall uid :: !User(env, uid)) ==> b == env.bucketOf(f.key, f.key))
  }

  ghost predicate Present(v: Value) {
    v != Undefined && v != Null
  }

  /** `x` is the first of the two that is there, and true if neither is. */
  ghost predicate FirstPresent(a: Value, b: Value, x: Value) {
    if Present(a) then x == a else if Present(b) then x == b else x == Boolean(true)
  }

  ghost predicate WeightsAre(vs: seq<Variant>, ws: seq<real>) {
    |ws| == |vs| && forall i | 0 <= i < |vs| :: ws[i] == vs[i].weight
  }

  /** Variant i serves the bucket, by the weights of the variants. */
  ghost predicate Served(vs: seq<Variant>, b: V.Bucket, i: nat) {
    i < |vs| && forall ws | WeightsAre(vs, ws) :: V.Serves(ws, b, i)
  }

  /** What a rolled-out flag gives: the variant its bucket is served, the configured value, or true. */
  ghost predicate RolledOutResult(f: Flag, b: V.Bucket, r: EvalResult) {
    r.on &&
    if f.flagType == ExperimentFlag && f.variants != [] then
      exists i: nat :: Served(f.variants, b, i) && r.variant == Some(f.variants[i].key) &&
                  FirstPresent(f.variants[i].value, f.value, r.value)
    else r.variant == None && r.value == if f.flagType == ConfigFlag then f.value else Boolean(true)
  }

  ghost predicate Overridden(f: Flag, env: Env) {
    exists uid :: User(env, uid) && uid in f.rollout.userOverrides
  }

  /**
   * The result of flag f when exactly the keys in `on` are on: for each reported reason exactly when it
   * is reported, and what value and variant come with it.
   */
  ghost predicate Decided(f: Flag, env: Env, on: set<string>, r: EvalResult) {
    var blocked := env.maintenance.active && f.key !in env.maintenance.allowlist;
    var alive := f.enabled && f.state == Active;
    var deps := forall i | 0 <= i < |f.dependencies| :: f.dependencies[i] in on;
    var overridden := Overridden(f, env);
    var targeting := !blocked && alive && deps && !overridden;
    var ruled, inSegment := AllHold(f.rollout.rules, env), InSomeSegment(f, env);
    && r.key == f.key
    && (r.reason == InMaintenance <==> blocked)
    && (r.reason == Killed <==> !blocked && !alive)
    && (r.reason == Dependency <==> !blocked && alive && !deps)
    && (r.reason == Override <==> !blocked && alive && deps && overridden)
    && (r.reason == RuleMiss <==> targeting && !ruled)
    && (r.reason == SegmentMiss <==> targeting && ruled && !inSegment)
    && (forall b: V.Bucket | InBucket(f, env, b) ::
         && (r.reason == Percentage <==> targeting && ruled && inSegment && b as real >= f.rollout.percentage * 100.0)
         && (r.reason == RolledOut <==> targeting && ruled && inSegment && b as real < f.rollout.percentage * 100.0)
         && (r.reason == RolledOut ==> RolledOutResult(f, b, r)))
    && (forall uid | User(env, uid) && r.reason == Override ::
         uid in f.rollout.userOverrides && r.value == f.rollout.userOverrides[uid] && r.variant == None &&
         (r.on <==> Present(r.value) && r.value != Boolean(false)))
    && (r.reason != Override && r.reason != RolledOut ==> !r.on && r.value == f.defaultValue && r.variant == None)
  }

  lemma AllHoldExactly(rules: seq<Rule>, env: Env)
    ensures MatchAllRules(rules, env) <==> AllHold(rules, env)
  {
    hide MatchRule, RuleHolds;
    forall r: Rule
      ensures MatchRule(r, env) <==> RuleHolds(r, env)
    {
      MatchRuleExactly(r, env);
    }
    assert forall i | 0 <= i < |rules| :: rules[i] in rules;
  }

  lemma SegmentsExactly(f: Flag, env: Env)
    ensures InSomeSegment(f, env) <==>
            f.rollout.segmentIds == [] || exists s :: s in f.rollout.segmentIds && SegmentMatches(s, env)
  {
    hide MatchAllRules, AllHold;
    forall s: string
      ensures SegmentMatches(s, env) <==> SegmentHolds(s, env)
    {
      if s in env.segments {
        AllHoldExactly(env.segments[s], env);
      }
    }
    hide SegmentMatches, SegmentHolds;
    assert forall i | 0 <= i < |f.rollout.segmentIds| :: f.rollout.segmentIds[i] in f.rollout.segmentIds;
  }

  lemma UserIs(env: Env)
    ensures forall uid :: User(env, uid) <==> uid != "" && UserKey(env.ctx) == uid
  {
  }

  lemma BucketIs(f: Flag, env: Env, b: V.Bucket)
    ensures InBucket(f, env, b) <==> b == BucketFor(f, env)
  {
    UserIs(env);
    var uid := UserKey(env.ctx);
    assert uid != "" ==> User(env, uid);
    hide UserKey, User;
  }

  lemma ServedExactly(vs: seq<Variant>, b: V.Bucket, i: nat)
    requires vs != []
    ensures Served(vs, b, i) <==> V.Pick(VariantWeights(vs), b) == i
  {
    var ws := VariantWeights(vs);
    assert WeightsAre(vs, ws);
    assert forall us | WeightsAre(vs, us) :: us == ws;
    V.PickServes(ws, b, i);
  }

  lemma RolledOutMeans(f: Flag, env: Env, b: V.Bucket)
    requires b == BucketFor(f, env) && AfterDependencies(f, env).reason == RolledOut
    ensures RolledOutResult(f, b, AfterDependencies(f, env))
  {
    var r := AfterDependencies(f, env);
    if f.flagType == ExperimentFlag && f.variants != [] {
      var i: nat := V.Pick(VariantWeights(f.variants), b);
      ServedExactly(f.variants, b, i);
      assert r.variant == Some(f.variants[i].key);
      assert FirstPresent(f.variants[i].value, f.value, r.value);
    }
  }

  lemma DecisionOrder(f: Flag, env: Env, on: set<string>)
    ensures Decided(f, env, on, Evaluate(f, env, on))
  {
    var r := Evaluate(f, env, on);
    AllHoldExactly(f.rollout.rules, env);
    SegmentsExactly(f, env);
    forall b: V.Bucket
      ensures InBucket(f, env, b) <==> b == BucketFor(f, env)
      ensures InBucket(f, env, b) && r.reason == RolledOut ==> RolledOutResult(f, b, r)
    {
      BucketIs(f, env, b);
      if b == BucketFor(f, env) && r.reason == RolledOut {
        RolledOutMeans(f, env, b);
      }
    }
    UserIs(env);
    hide MatchAllRules, AllHold, SegmentMatches, InSomeSegment, InBucket, RolledOutResult, BucketFor, V.Pick;
  }

  /** A result that is decided is the result. */
  lemma DecidedIsUnique(f: Flag, env: Env, on: set<string>, r: EvalResult)
    requires Decided(f, env, on, r)
    ensures r == Evaluate(f, env, on)
  {
    var e, b := Evaluate(f, env, on), BucketFor(f, env);
    DecisionOrder(f, env, on);
    BucketIs(f, env, b);
    hide Evaluate, AllHold, InSomeSegment, InBucket, BucketFor;
    if r.reason == RolledOut && f.flagType == ExperimentFlag && f.variants != [] {
      var i: nat :| Served(f.variants, b, i) && r.variant == Some(f.variants[i].key) &&
               FirstPresent(f.variants[i].value, f.value, r.value);
      var j: nat :| Served(f.variants, b, j) && e.variant == Some(f.variants[j].key) &&
               FirstPresent(f.variants[j].value, f.value, e.value);
      ServedExactly(f.variants, b, i);
      ServedExactly(f.variants, b, j);
    }
  }
}
