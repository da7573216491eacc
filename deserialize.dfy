/**
 * Turning a configuration space back into scikit-learn objects: the
 * translation of hyperparameters into search distributions, the seeding of
 * `random_state` parameters, and the assembly of an estimator or of the fixed
 * preprocessing pipeline around it. Constructing library objects is foreign:
 * a registry stands for `importlib` and gives each importable class the
 * parameters its no-argument constructor sets, and pipeline stages are data.
 */
module Deserialize {
  import opened Wrappers
  import opened Strings
  import opened ConfigSpace

  /** The search-distribution descriptors handed to RandomizedSearchCV. */
  datatype Descriptor =
    | ContUniform(loc: real, scale: real)  // scipy.stats.uniform(loc=, scale=): support [loc, loc + scale]
    | RandInt(low: int, highExcl: int)     // scipy.stats.randint(low, high): support low .. high - 1
    | Values(values: seq<Value>)           // a plain list: one element is drawn

  datatype Error =
    | UnsupportedKind(kind: string)             // ValueError: hyperparameter type not supported yet
    | EmptyModuleName                           // ValueError from `import_module('')`
    | RelativeImport(modulePath: string)        // TypeError: a relative module name without a package
    | ModuleNotFound(modulePath: string)        // ModuleNotFoundError (an ImportError)
    | MalformedClassPath(name: string)          // IndexError: the module imported, but the name has no `.`
    | UnknownClass(modulePath: string, className: string) // AttributeError: the module lacks the class

  /** `x` can be drawn from an integer descriptor. */
  predicate IntSupport(d: Descriptor, x: int) {
    d.RandInt? && d.low <= x < d.highExcl
  }

  /** `x` can be drawn from a continuous descriptor. */
  predicate RealSupport(d: Descriptor, x: real) {
    d.ContUniform? && d.loc <= x <= d.loc + d.scale
  }

  // ---------------------------------------------------------------------------
  // Hyperparameter -> distribution

  /** The branch of the `isinstance` chain that one hyperparameter takes. */
  function Describe(h: Hyperparameter): (r: Result<Descriptor, Error>)
    ensures r.Failure? <==> h.OtherKind?
    ensures h.OtherKind? ==> r.error == UnsupportedKind(h.kind)
    ensures h.UniformFloat? ==>
      r.Success? && r.value.ContUniform? && r.value.loc == h.lower && r.value.loc + r.value.scale == h.upper
    ensures h.UniformFloat? ==> forall x :: RealSupport(r.value, x) <==> h.lower <= x <= h.upper
    ensures h.UniformInteger? ==>
      r.Success? && r.value.RandInt? && forall x :: IntSupport(r.value, x) <==> h.lowerInt <= x <= h.upperInt
    ensures h.Categorical? ==> r.Success? && r.value.Values? && r.value.values == h.choices
    ensures (h.UnParametrized? || h.Constant?) ==> r.Success? && r.value.Values? && r.value.values == [h.value]
  {
    match h
    case UniformFloat(_, lower, upper, _) => Success(ContUniform(lower, upper - lower))
    case UniformInteger(_, lower, upper) => Success(RandInt(lower, upper + 1))
    case Categorical(_, choices) => Success(Values(choices))
    case UnParametrized(_, value) => Success(Values([value]))
    case Constant(_, value) => Success(Values([value]))
    case OtherKind(_, kind) => Failure(UnsupportedKind(kind))
  }

  /** The `log` flag plays no part in the translation. */
  lemma LogFlagIgnored(name: string, lower: real, upper: real)
    ensures Describe(UniformFloat(name, lower, upper, true)) == Describe(UniformFloat(name, lower, upper, false))
  {
  }

  /** The dictionary the loop has built after the hyperparameters in `hps`, or the error it raised. */
  function Distributions(hps: seq<Hyperparameter>): Result<map<string, Descriptor>, Error>
    decreases |hps|
  {
    if |hps| == 0 then Success(map[])
    else
      match Distributions(hps[..|hps| - 1])
      case Failure(e) => Failure(e)
      case Success(m) =>
        match Describe(Last(hps))
        case Failure(e) => Failure(e)
        case Success(d) => Success(m[Last(hps).name := d])
  }

  predicate NoUnsupported(hps: seq<Hyperparameter>) {
    forall i :: 0 <= i < |hps| ==> !hps[i].OtherKind?
  }

  /**
   * Closed world: the translation fails exactly when some hyperparameter has
   * a kind outside the five known ones, and then it reports the first one.
   */
  lemma {:induction false} DistributionsFailure(hps: seq<Hyperparameter>)
    ensures Distributions(hps).Failure? <==> !NoUnsupported(hps)
    ensures Distributions(hps).Failure? ==>
      exists i :: 0 <= i < |hps| && hps[i].OtherKind? && NoUnsupported(hps[..i]) &&
        Distributions(hps).error == UnsupportedKind(hps[i].kind)
    decreases |hps|
  {
    if |hps| > 0 {
      var init := hps[..|hps| - 1];
      DistributionsFailure(init);
      if Distributions(init).Failure? {
        var i :| 0 <= i < |init| && init[i].OtherKind? && NoUnsupported(init[..i]) &&
          Distributions(init).error == UnsupportedKind(init[i].kind);
        assert init[..i] == hps[..i];
        assert hps[i] == init[i];
      } else {
        assert NoUnsupported(init);
        assert hps[..|hps| - 1] == init;
        if Last(hps).OtherKind? {
          assert !NoUnsupported(hps);
        } else {
          forall i | 0 <= i < |hps| ensures !hps[i].OtherKind? {
            if i < |hps| - 1 {
              assert hps[i] == init[i];
            }
          }
        }
      }
    }
  }

  /** On success there is one entry per hyperparameter name, and no other. */
  lemma {:induction false} DistributionsKeys(hps: seq<Hyperparameter>)
    requires Distributions(hps).Success?
    ensures Distributions(hps).value.Keys == set i | 0 <= i < |hps| :: hps[i].name
    decreases |hps|
  {
    if |hps| > 0 {
      var init := hps[..|hps| - 1];
      DistributionsKeys(init);
      var before := set i | 0 <= i < |init| :: init[i].name;
      var after := set i | 0 <= i < |hps| :: hps[i].name;
      assert after == before + {Last(hps).name} by {
        forall n | n in after ensures n in before + {Last(hps).name} {
          var i :| 0 <= i < |hps| && hps[i].name == n;
          if i < |hps| - 1 {
            assert init[i] == hps[i];
          }
        }
        forall n | n in before ensures n in after {
          var i :| 0 <= i < |init| && init[i].name == n;
          assert hps[i] == init[i];
        }
      }
    }
  }

  /** The entry of a name is the distribution of the last hyperparameter carrying it. */
  lemma {:induction false} DistributionsLookup(hps: seq<Hyperparameter>, i: nat)
    requires Distributions(hps).Success?
    requires i < |hps|
    requires forall j :: i < j < |hps| ==> hps[j].name != hps[i].name
    ensures Describe(hps[i]).Success?
    ensures hps[i].name in Distributions(hps).value
    ensures Distributions(hps).value[hps[i].name] == Describe(hps[i]).value
    decreases |hps|
  {
    var init := hps[..|hps| - 1];
    if i < |hps| - 1 {
      assert init[i] == hps[i];
      forall j | i < j < |init| ensures init[j].name != init[i].name {
        assert init[j] == hps[j];
      }
      DistributionsLookup(init, i);
    }
  }

  predicate UniqueNames(hps: seq<Hyperparameter>) {
    forall i, j :: 0 <= i < j < |hps| ==> hps[i].name != hps[j].name
  }

  /** With the unique names a configuration space guarantees, every hyperparameter gets its own descriptor. */
  lemma DistributionsOfUniqueNames(hps: seq<Hyperparameter>, i: nat)
    requires UniqueNames(hps) && Distributions(hps).Success?
    requires i < |hps|
    ensures Describe(hps[i]).Success? && hps[i].name in Distributions(hps).value
    ensures Distributions(hps).value[hps[i].name] == Describe(hps[i]).value
  {
    DistributionsLookup(hps, i);
  }

  /** `_config_space_to_parameter_distributions`: the loop over the space's hyperparameters. */
  method ConfigSpaceToParameterDistributions(space: ConfigurationSpace) returns (r: Result<map<string, Descriptor>, Error>)
    ensures r == Distributions(space.hyperparameters)
  {
    var hps := space.hyperparameters;
    var result: map<string, Descriptor> := map[];
    var i := 0;
    while i < |hps|
      invariant 0 <= i <= |hps|
      invariant Distributions(hps[..i]) == Success(result)
    {
      assert hps[..i + 1][..i] == hps[..i];
      var d := Describe(hps[i]);
      if d.Failure? {
        assert Distributions(hps[..i + 1]) == Failure(d.error);
        DistributionsStopAtFailure(hps, i + 1);
        return Failure(d.error);
      }
      result := result[hps[i].name := d.value];
      i := i + 1;
    }
    assert hps[..i] == hps;
    r := Success(result);
  }

  /** Once a prefix has failed, the whole translation fails with the same error. */
  lemma {:induction false} DistributionsStopAtFailure(hps: seq<Hyperparameter>, n: nat)
    requires n <= |hps|
    requires Distributions(hps[..n]).Failure?
    ensures Distributions(hps) == Distributions(hps[..n])
    decreases |hps| - n
  {
    if n < |hps| {
      assert hps[..n + 1][..n] == hps[..n];
      DistributionsStopAtFailure(hps, n + 1);
    } else {
      assert hps[..n] == hps;
    }
  }

  // ---------------------------------------------------------------------------
  // Seeding

  /** The parameters `_seed_models` looks at: every name ending in `random_state`. */
  predicate IsRandomStateParam(k: string) {
    EndsWith(k, "random_state")
  }

  /** The parameters after `_seed_models`: unset random states become 0. */
  function Seeded(p: ParamMap): (r: ParamMap)
    ensures r.Keys == p.Keys
    ensures forall k :: k in r && IsRandomStateParam(k) ==> r[k] != NoneValue
    ensures forall k :: k in p && r[k] != p[k] ==> IsRandomStateParam(k) && p[k] == NoneValue && r[k] == Int(0)
  {
    map k | k in p :: if IsRandomStateParam(k) && p[k] == NoneValue then Int(0) else p[k]
  }

  /** Seeding a seeded map changes nothing. */
  lemma SeededIdempotent(p: ParamMap)
    ensures Seeded(Seeded(p)) == Seeded(p)
  {
  }

  /** The loop of `_seed_models` that collects `rs_params`. */
  method RandomStateOverrides(p: ParamMap) returns (rs: ParamMap)
    ensures rs.Keys == set k | k in p && IsRandomStateParam(k) && p[k] == NoneValue
    ensures forall k :: k in rs ==> rs[k] == Int(0)
  {
    rs := map[];
    var todo := p.Keys;
    while todo != {}
      invariant todo <= p.Keys
      invariant rs.Keys == set k | k in p && k !in todo && IsRandomStateParam(k) && p[k] == NoneValue
      invariant forall k :: k in rs ==> rs[k] == Int(0)
      decreases todo
    {
      var k :| k in todo;
      if IsRandomStateParam(k) && p[k] == NoneValue {
        rs := rs[k := Int(0)];
      }
      todo := todo - {k};
    }
  }

  /** Overriding with `rs_params` is exactly seeding. */
  lemma OverridesSeed(p: ParamMap, rs: ParamMap)
    requires rs.Keys == set k | k in p && IsRandomStateParam(k) && p[k] == NoneValue
    requires forall k :: k in rs ==> rs[k] == Int(0)
    ensures p + rs == Seeded(p)
  {
  }

  /** An estimator object: its class and its keyword parameters, which `set_params` updates in place. */
  class Estimator {
    const modulePath: string
    const className: string
    var params: ParamMap

    constructor (modulePath: string, className: string, params: ParamMap)
      ensures this.modulePath == modulePath && this.className == className && this.params == params
    {
      this.modulePath := modulePath;
      this.className := className;
      this.params := params;
    }

    /** `set_params(**overrides)`. */
    method SetParams(overrides: ParamMap)
      modifies this
      ensures params == old(params) + overrides
    {
      params := params + overrides;
    }
  }

  /** `_seed_models`: fixes every unset random state of the model to 0. */
  method SeedModels(model: Estimator)
    modifies model
    ensures model.params == Seeded(old(model.params))
  {
    var rs := RandomStateOverrides(model.params);
    OverridesSeed(model.params, rs);
    model.SetParams(rs);
  }

  // ---------------------------------------------------------------------------
  // Estimators and pipelines

  /** `name.rsplit('.', 1)` followed by indexing both halves. */
  function SplitClassPath(name: string): (r: Result<(string, string), Error>)
    ensures r.Success? <==> '.' in name
    ensures r.Success? ==> r.value.0 + "." + r.value.1 == name && '.' !in r.value.1
    ensures r.Failure? ==> r.error == MalformedClassPath(name)
  {
    var parts := RSplitOnce(name, '.');
    if |parts| < 2 then Failure(MalformedClassPath(name)) else Success((parts[0], parts[1]))
  }

  /**
   * What `importlib` can reach: the importable modules, and the classes
   * found in them, each with the parameters its no-argument constructor sets.
   */
  datatype Registry = Registry(modules: set<string>, classes: map<(string, string), ParamMap>)

  /** The exception `importlib.import_module(m)` raises, if any. */
  function ImportFailure(m: string, registry: Registry): (r: Option<Error>)
    ensures r.None? <==> m != "" && m[0] != '.' && m in registry.modules
    ensures m == "" ==> r == Some(EmptyModuleName)
    ensures m != "" && m[0] == '.' ==> r == Some(RelativeImport(m))
    ensures r.Some? && m != "" && m[0] != '.' ==> r == Some(ModuleNotFound(m))
  {
    if m == "" then Some(EmptyModuleName)
    else if m[0] == '.' then Some(RelativeImport(m))
    else if m !in registry.modules then Some(ModuleNotFound(m))
    else None
  }

  /**
   * The module and class a space name designates, if they can be reached.
   * The module part `rsplit('.', 1)[0]` is imported before the class part
   * `[1]` is read, so a name without `.` is imported as a whole and only an
   * importable one reaches the IndexError.
   */
  function ResolveClass(name: string, registry: Registry): (r: Result<(string, string), Error>)
    ensures r.Success? <==>
      && SplitClassPath(name).Success?
      && ImportFailure(SplitClassPath(name).value.0, registry).None?
      && SplitClassPath(name).value in registry.classes
    ensures r.Success? ==>
      && r.value.0 + "." + r.value.1 == name && '.' !in r.value.1
      && ImportFailure(r.value.0, registry).None?
      && r.value in registry.classes
    ensures '.' !in name ==>
      r == Failure(if ImportFailure(name, registry).Some? then ImportFailure(name, registry).value else MalformedClassPath(name))
    ensures SplitClassPath(name).Success? && ImportFailure(SplitClassPath(name).value.0, registry).Some? ==>
      r == Failure(ImportFailure(SplitClassPath(name).value.0, registry).value)
    ensures r.Failure? && SplitClassPath(name).Success? && ImportFailure(SplitClassPath(name).value.0, registry).None? ==>
      r.error == UnknownClass(SplitClassPath(name).value.0, SplitClassPath(name).value.1)
  {
    var moduleName := RSplitOnce(name, '.')[0];
    match ImportFailure(moduleName, registry)
    case Some(e) => Failure(e)
    case None =>
      match SplitClassPath(name)
      case Failure(e) => Failure(e)
      case Success(path) =>
        if path in registry.classes then Success(path) else Failure(UnknownClass(path.0, path.1))
  }

  /** The parameters `as_estimator` leaves on a fresh estimator: meta first (unless skipped), then seeding. */
  function EstimatorParams(defaults: ParamMap, meta: Option<ParamMap>, skipMeta: bool): ParamMap {
    Seeded(if !skipMeta && meta.Some? then defaults + meta.value else defaults)
  }

  /** Meta is applied when not skipped: its keys all appear and its set values survive seeding. */
  lemma MetaApplied(defaults: ParamMap, meta: ParamMap)
    ensures EstimatorParams(defaults, Some(meta), false).Keys == defaults.Keys + meta.Keys
    ensures forall k :: k in meta && meta[k] != NoneValue ==> EstimatorParams(defaults, Some(meta), false)[k] == meta[k]
    ensures forall k :: k in meta && meta[k] == NoneValue && IsRandomStateParam(k) ==>
      EstimatorParams(defaults, Some(meta), false)[k] == Int(0)
  {
  }

  /** Skipped or absent meta leaves only the constructor defaults, seeded. */
  lemma MetaSkipped(defaults: ParamMap, meta: Option<ParamMap>, skipMeta: bool)
    requires skipMeta || meta.None?
    ensures EstimatorParams(defaults, meta, skipMeta).Keys == defaults.Keys
    ensures forall k :: k in defaults && !IsRandomStateParam(k) ==> EstimatorParams(defaults, meta, skipMeta)[k] == defaults[k]
  {
  }

  /** `as_estimator`: resolve the class, construct it, apply meta unless skipped, seed. */
  method AsEstimator(space: ConfigurationSpace, skipMeta: bool, registry: Registry) returns (r: Result<Estimator, Error>)
    ensures r.Failure? <==> ResolveClass(space.name, registry).Failure?
    ensures r.Failure? ==> r.error == ResolveClass(space.name, registry).error
    ensures r.Success? ==>
      var path := ResolveClass(space.name, registry).value;
      && fresh(r.value)
      && r.value.modulePath == path.0 && r.value.className == path.1
      && r.value.params == EstimatorParams(registry.classes[path], space.meta, skipMeta)
  {
    var path :- ResolveClass(space.name, registry);
    var clf := new Estimator(path.0, path.1, registry.classes[path]);
    if !skipMeta && space.meta.Some? {
      clf.SetParams(space.meta.value);
    }
    SeedModels(clf);
    r := Success(clf);
  }

  datatype Encoder = StandardScaler | OneHotEncoder(handleUnknown: string)

  /** One `(name, transformer, columns)` entry of a ColumnTransformer. */
  datatype ColumnTransform = ColumnTransform(name: string, encoder: Encoder, columns: seq<int>)

  datatype Step =
    | SimpleImputer(strategy: string, fillValue: int)
    | ColumnTransformer(transformers: seq<ColumnTransform>, remainder: string)
    | VarianceThreshold
    | Classifier(estimator: Estimator)

  /** A pipeline: its stages, and the keyword arguments applied to it as a whole. */
  datatype Pipeline = Pipeline(steps: seq<Step>, params: ParamMap)

  /** The name `make_pipeline` gives a stage: its class name, lower-cased. */
  function StepName(step: Step): string {
    match step
    case SimpleImputer(_, _) => "simpleimputer"
    case ColumnTransformer(_, _) => "columntransformer"
    case VarianceThreshold => "variancethreshold"
    case Classifier(e) => Lower(e.className)
  }

  /** The stages `as_pipeline` always builds around the classifier. */
  function FixedStages(numeric: seq<int>, nominal: seq<int>, clf: Estimator): seq<Step> {
    [ SimpleImputer("constant", -1),
      ColumnTransformer(
        [ColumnTransform("numeric", StandardScaler, numeric), ColumnTransform("nominal", OneHotEncoder("ignore"), nominal)],
        "passthrough"),
      VarianceThreshold,
      Classifier(clf) ]
  }

  /**
   * Four stages in a fixed order: imputation with the constant -1, scaling of
   * the numeric and one-hot encoding of the nominal columns (unknown
   * categories ignored, other columns passed through), the variance filter,
   * and the classifier, which is the last stage and the only one.
   */
  lemma FixedStagesShape(numeric: seq<int>, nominal: seq<int>, clf: Estimator)
    ensures var steps := FixedStages(numeric, nominal, clf);
      && |steps| == 4
      && steps[0] == SimpleImputer("constant", -1)
      && steps[1].ColumnTransformer? && steps[1].remainder == "passthrough"
      && (forall t :: t in steps[1].transformers && t.encoder == StandardScaler ==> t.columns == numeric)
      && (forall t :: t in steps[1].transformers && t.encoder.OneHotEncoder? ==> t.columns == nominal && t.encoder.handleUnknown == "ignore")
      && steps[2] == VarianceThreshold
      && Last(steps) == Classifier(clf)
      && (forall i :: 0 <= i < |steps| - 1 ==> !steps[i].Classifier?)
      && [StepName(steps[0]), StepName(steps[1]), StepName(steps[2])] == ["simpleimputer", "columntransformer", "variancethreshold"]
      && StepName(steps[3]) == Lower(clf.className)
  {
  }

  /**
   * `as_pipeline`: the classifier is built with meta skipped, and meta goes
   * to the pipeline instead.
   */
  method AsPipeline(space: ConfigurationSpace, numeric: seq<int>, nominal: seq<int>, registry: Registry)
    returns (r: Result<Pipeline, Error>)
    ensures r.Failure? <==> ResolveClass(space.name, registry).Failure?
    ensures r.Failure? ==> r.error == ResolveClass(space.name, registry).error
    ensures r.Success? ==>
      var path := ResolveClass(space.name, registry).value;
      && |r.value.steps| == 4
      && Last(r.value.steps).Classifier?
      && var clf := Last(r.value.steps).estimator;
      && fresh(clf)
      && r.value.steps == FixedStages(numeric, nominal, clf)
      && clf.modulePath == path.0 && clf.className == path.1
      && clf.params == EstimatorParams(registry.classes[path], space.meta, true)
      && r.value.params == space.meta.GetOr(map[])
  {
    var clf :- AsEstimator(space, true, registry);
    var pipelineParams := if space.meta.Some? then space.meta.value else map[];
    r := Success(Pipeline(FixedStages(numeric, nominal, clf), pipelineParams));
  }

  /** A RandomizedSearchCV over a pipeline. */
  datatype SearchCV = SearchCV(estimator: Pipeline, paramDistributions: map<string, Descriptor>, randomState: int)

  /** `as_search_cv`: the pipeline first, then the distributions, with the search seeded at 0. */
  method AsSearchCV(space: ConfigurationSpace, numeric: seq<int>, nominal: seq<int>, registry: Registry)
    returns (r: Result<SearchCV, Error>)
    ensures r.Success? <==> ResolveClass(space.name, registry).Success? && Distributions(space.hyperparameters).Success?
    ensures ResolveClass(space.name, registry).Failure? ==> r == Failure(ResolveClass(space.name, registry).error)
    ensures ResolveClass(space.name, registry).Success? && Distributions(space.hyperparameters).Failure? ==>
      r == Failure(Distributions(space.hyperparameters).error)
    ensures r.Success? ==>
      var path := ResolveClass(space.name, registry).value;
      && Distributions(space.hyperparameters) == Success(r.value.paramDistributions)
      && r.value.randomState == 0
      && |r.value.estimator.steps| == 4
      && Last(r.value.estimator.steps).Classifier?
      && var clf := Last(r.value.estimator.steps).estimator;
      && fresh(clf)
      && r.value.estimator.steps == FixedStages(numeric, nominal, clf)
      && clf.modulePath == path.0 && clf.className == path.1
      && clf.params == EstimatorParams(registry.classes[path], space.meta, true)
      && r.value.estimator.params == space.meta.GetOr(map[])
  {
    var pipeline :- AsPipeline(space, numeric, nominal, registry);
    var distributions :- ConfigSpaceToParameterDistributions(space);
    r := Success(SearchCV(pipeline, distributions, 0));
  }
}
