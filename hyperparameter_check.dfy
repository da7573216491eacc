/**
 * The check that every hyperparameter of an assembled space is a parameter
 * of the flow that models it. A name `a__b__p` is decoded as the parameter
 * `p` of the subflow reached through components `a` and then `b`; a name
 * without `__` is a parameter of the flow itself.
 */
module HyperparameterCheck {
  import opened Wrappers
  import opened Strings
  import opened ConfigSpace

  /** An OpenML flow: its name, its parameter names and its named subcomponents. */
  datatype Flow = Flow(name: string, parameters: set<string>, components: map<string, Flow>)

  /**
   * `flow.get_subflow(structure)` from the OpenML client: descends one
   * component per name and raises on an empty path or a missing component.
   */
  function GetSubflow(flow: Flow, structure: seq<string>): Option<Flow>
    decreases |structure|
  {
    if |structure| == 0 || structure[0] !in flow.components then None
    else if |structure| == 1 then Some(flow.components[structure[0]])
    else GetSubflow(flow.components[structure[0]], structure[1..])
  }

  datatype CheckError =
    | MissingSubflow(paramName: string)                       // raised inside get_subflow
    | MissingHyperparameter(paramName: string, flowName: string)  // 'Missing hyperparameter %s in flow %s'

  /** The flow whose parameters the leaf of a split name is looked up in. */
  function SubflowFor(flow: Flow, parts: seq<string>): Option<Flow>
    requires |parts| >= 1
  {
    if |parts| == 1 then Some(flow) else GetSubflow(flow, parts[..|parts| - 1])
  }

  /** The error the check raises for one hyperparameter name, if any. */
  function CheckName(flow: Flow, name: string): Option<CheckError> {
    var parts := Split(name, "__");
    match SubflowFor(flow, parts)
    case None => Some(MissingSubflow(name))
    case Some(sub) => if Last(parts) in sub.parameters then None else Some(MissingHyperparameter(name, flow.name))
  }

  predicate LeafFound(flow: Flow, name: string) {
    CheckName(flow, name).None?
  }

  /**
   * The loop over the space's hyperparameter names: it raises for the first
   * name whose leaf is missing, and finishes only when every leaf was found.
   */
  method CheckHyperparametersAvailable(flow: Flow, space: ConfigurationSpace) returns (r: Result<(), CheckError>)
    ensures var names := space.GetHyperparameterNames();
      r.Success? <==> forall i :: 0 <= i < |names| ==> LeafFound(flow, names[i])
    ensures var names := space.GetHyperparameterNames();
      r.Failure? ==>
        exists i :: 0 <= i < |names| && (forall j :: 0 <= j < i ==> LeafFound(flow, names[j])) &&
          CheckName(flow, names[i]) == Some(r.error)
  {
    var names := space.GetHyperparameterNames();
    var n := 0;
    while n < |names|
      invariant 0 <= n <= |names|
      invariant forall j :: 0 <= j < n ==> LeafFound(flow, names[j])
    {
      var paramName := names[n];
      var parts := Split(paramName, "__");
      var subflow: Flow;
      if |parts| == 1 {
        subflow := flow;
      } else {
        var found := GetSubflow(flow, parts[..|parts| - 1]);
        if found.None? {
          return Failure(MissingSubflow(paramName));
        }
        subflow := found.value;
      }
      if Last(parts) !in subflow.parameters {
        return Failure(MissingHyperparameter(paramName, flow.name));
      }
      n := n + 1;
    }
    r := Success(());
  }

  /** A name without `__` is a parameter of the top-level flow. */
  lemma TopLevelName(flow: Flow, name: string)
    requires !Contains(name, "__")
    ensures Split(name, "__") == [name]
    ensures LeafFound(flow, name) <==> name in flow.parameters
  {
    SplitSingle(name, "__");
  }

  /**
   * A name built the way the catalogs build them, `stage__param`, is read
   * back as the parameter `param` of the component `stage`.
   */
  lemma StagedName(flow: Flow, stage: string, param: string)
    requires !Contains(stage, "__") && !EndsWith(stage, "_") && !Contains(param, "__")
    ensures Split(stage + "__" + param, "__") == [stage, param]
    ensures LeafFound(flow, stage + "__" + param) <==>
      stage in flow.components && param in flow.components[stage].parameters
  {
    assert SplittableParts([stage, param]);
    SplitJoinDunder([stage, param]);
    assert Join([stage, param], "__") == stage + "__" + param;
  }
}
