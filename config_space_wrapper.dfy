/**
 * `ConfigSpaceWrapper`: a base configuration space together with the
 * hyperparameters and conditions still to be added to it. `assemble` builds
 * the complete space on a deep copy, so the wrapper and its base stay as they
 * were and every call yields an object of its own.
 */
module ConfigSpaceWrappers {
  import opened Wrappers
  import opened ConfigSpace

  /** The space `assemble` yields from a base and the wrapper's additions. */
  function Assembled(base: SpaceValue, hps: seq<Hyperparameter>, conds: Option<seq<Condition>>): (r: SpaceValue)
    ensures r.name == base.name && r.seed == base.seed && r.meta == base.meta
    ensures |r.hyperparameters| == |base.hyperparameters| + |hps|
    ensures r.hyperparameters[..|base.hyperparameters|] == base.hyperparameters
    ensures r.hyperparameters[|base.hyperparameters|..] == hps
    ensures forall h :: h in r.hyperparameters <==> h in base.hyperparameters || h in hps
    ensures conds.None? ==> r.conditions == base.conditions
    ensures conds.Some? ==> |r.conditions| == |base.conditions| + |conds.value|
    ensures conds.Some? ==> r.conditions[..|base.conditions|] == base.conditions
    ensures conds.Some? ==> r.conditions[|base.conditions|..] == conds.value
    ensures conds.Some? ==> forall c :: c in r.conditions <==> c in base.conditions || c in conds.value
  {
    var conditions := if conds.Some? then base.conditions + conds.value else base.conditions;
    base.(hyperparameters := base.hyperparameters + hps, conditions := conditions)
  }

  class ConfigSpaceWrapper {
    var configSpace: ConfigurationSpace
    var hyperparameters: seq<Hyperparameter>
    var conditions: Option<seq<Condition>>

    /** `__init__`: stores its three arguments as given. */
    constructor (configSpace: ConfigurationSpace, hyperparameters: seq<Hyperparameter>, conditions: Option<seq<Condition>>)
      ensures this.configSpace == configSpace
      ensures this.hyperparameters == hyperparameters
      ensures this.conditions == conditions
    {
      this.configSpace := configSpace;
      this.hyperparameters := hyperparameters;
      this.conditions := conditions;
    }

    /** `assemble`: deep-copy the base, then add the hyperparameters and, if any, the conditions. */
    method Assemble() returns (space: ConfigurationSpace)
      ensures fresh(space)
      ensures space.Snapshot() == Assembled(configSpace.Snapshot(), hyperparameters, conditions)
      ensures unchanged(this) && unchanged(configSpace)
    {
      space := configSpace.DeepCopy();
      space.AddHyperparameters(hyperparameters);
      if conditions.Some? {
        space.AddConditions(conditions.value);
      }
    }
  }

  /**
   * Two assemblies of one wrapper are distinct objects with equal contents,
   * and changing one of them afterwards leaves the other and the wrapper as
   * they were.
   */
  method AssembledSpacesAreIndependent(w: ConfigSpaceWrapper, extra: Hyperparameter)
    returns (a: ConfigurationSpace, b: ConfigurationSpace)
    ensures fresh(a) && fresh(b) && a != b
    ensures b.Snapshot() == Assembled(w.configSpace.Snapshot(), w.hyperparameters, w.conditions)
    ensures a.Snapshot() == b.Snapshot().(hyperparameters := b.hyperparameters + [extra])
    ensures unchanged(w) && unchanged(w.configSpace)
  {
    a := w.Assemble();
    b := w.Assemble();
    a.AddHyperparameters([extra]);
  }
}
