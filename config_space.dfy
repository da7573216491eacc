/**
 * The parts of the ConfigSpace library that the modelled code touches: the
 * hyperparameter kinds it dispatches on, conditions as opaque data, and a
 * configuration space that can be copied and extended in place. Sampling and
 * condition activation belong to the library and are not modelled.
 */
module ConfigSpace {
  import opened Wrappers

  /** A Python value as it appears in choices, constants and keyword arguments. */
  datatype Value =
    | NoneValue
    | Bool(b: bool)
    | Int(i: int)
    | Real(r: real)
    | Str(s: string)
    | Object(repr: string)  // an object argument, e.g. an estimator passed as `base_estimator`

  /** Keyword arguments of an estimator, as `get_params` reports them. */
  type ParamMap = map<string, Value>

  /** The hyperparameter classes of ConfigSpace, plus every class the translation does not know. */
  datatype Hyperparameter =
    | UniformFloat(name: string, lower: real, upper: real, log: bool)
    | UniformInteger(name: string, lowerInt: int, upperInt: int)
    | Categorical(name: string, choices: seq<Value>)
    | UnParametrized(name: string, value: Value)
    | Constant(name: string, value: Value)
    | OtherKind(name: string, kind: string)  // e.g. NormalFloatHyperparameter, OrdinalHyperparameter

  /** Conditions are carried along unchanged; their semantics live in ConfigSpace. */
  datatype Condition =
    | EqualsCondition(child: string, parent: string, value: Value)
    | InCondition(child: string, parent: string, values: seq<Value>)
    | AndConjunction(left: Condition, right: Condition)

  function Names(hps: seq<Hyperparameter>): (names: seq<string>)
    ensures |names| == |hps|
    ensures forall i :: 0 <= i < |hps| ==> names[i] == hps[i].name
  {
    seq(|hps|, i requires 0 <= i < |hps| => hps[i].name)
  }

  /** Everything a configuration space holds, as a value. */
  datatype SpaceValue = SpaceValue(
    name: string,
    seed: Option<int>,
    meta: Option<ParamMap>,
    hyperparameters: seq<Hyperparameter>,
    conditions: seq<Condition>)

  /** `ConfigSpace.ConfigurationSpace`: a named, seeded space that grows in place. */
  class ConfigurationSpace {
    var name: string
    var seed: Option<int>
    var meta: Option<ParamMap>
    var hyperparameters: seq<Hyperparameter>
    var conditions: seq<Condition>

    constructor (name: string, seed: Option<int>, meta: Option<ParamMap>)
      ensures Snapshot() == SpaceValue(name, seed, meta, [], [])
    {
      this.name := name;
      this.seed := seed;
      this.meta := meta;
      this.hyperparameters := [];
      this.conditions := [];
    }

    function Snapshot(): SpaceValue
      reads this
    {
      SpaceValue(name, seed, meta, hyperparameters, conditions)
    }

    /** `get_hyperparameter_names()`, in declaration order. */
    function GetHyperparameterNames(): seq<string>
      reads this
    {
      Names(hyperparameters)
    }

    /** `add_hyperparameters(hps)`: appends, touching nothing else. */
    method AddHyperparameters(hps: seq<Hyperparameter>)
      modifies this
      ensures Snapshot() == old(Snapshot()).(hyperparameters := old(hyperparameters) + hps)
    {
      hyperparameters := hyperparameters + hps;
    }

    /** `add_conditions(conds)`: appends, touching nothing else. */
    method AddConditions(conds: seq<Condition>)
      modifies this
      ensures Snapshot() == old(Snapshot()).(conditions := old(conditions) + conds)
    {
      conditions := conditions + conds;
    }

    /** `copy.deepcopy(space)`: a new object with the same contents. */
    method DeepCopy() returns (c: ConfigurationSpace)
      ensures fresh(c)
      ensures c.Snapshot() == Snapshot()
    {
      c := new ConfigurationSpace(name, seed, meta);
      c.AddHyperparameters(hyperparameters);
      c.AddConditions(conditions);
    }
  }
}
