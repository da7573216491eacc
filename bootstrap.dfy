/**
 * The catalog of configuration spaces: the fixed list of classifier names,
 * the `all` wildcard, and the lookup that validates a name before handing it
 * to the catalog entry of that name.
 */
module Bootstrap {
  import opened Wrappers

  const AllWildcardName: string := "all"

  /** The available configuration spaces, in the order they are listed. */
  const ConfigSpaceNames: seq<string> := [
    "adaboost",
    "bernoulli_nb",
    "decision_tree",
    "extra_trees",
    "gradient_boosting",
    "knn",
    "neural_network",
    "random_forest",
    "sgd",
    "svc"
  ]

  /** `get_available_config_spaces`: the list, with the wildcard in front when allowed. */
  function GetAvailableConfigSpaces(allowAll: bool): (r: seq<string>)
    ensures !allowAll ==> r == ConfigSpaceNames
    ensures allowAll ==> |r| == |ConfigSpaceNames| + 1 && r[0] == AllWildcardName && r[1..] == ConfigSpaceNames
  {
    if allowAll then [AllWildcardName] + ConfigSpaceNames else ConfigSpaceNames
  }

  /** Ten names, none repeated, and the wildcard is not one of them. */
  lemma CatalogNamesWellFormed()
    ensures |ConfigSpaceNames| == 10
    ensures forall i, j :: 0 <= i < j < |ConfigSpaceNames| ==> ConfigSpaceNames[i] != ConfigSpaceNames[j]
    ensures AllWildcardName !in ConfigSpaceNames
    ensures |GetAvailableConfigSpaces(true)| == 11
  {
  }

  /**
   * `get_config_space`: the wildcard is replaced by an arbitrary catalog
   * name, an unknown name is refused with a ValueError naming it, and any
   * other name is passed, with the seed, to its catalog entry.
   */
  method GetConfigSpace<T>(classifierName: string, seed: Option<int>, catalog: (string, Option<int>) -> T)
    returns (r: Result<T, string>)
    ensures classifierName != AllWildcardName ==> (r.Success? <==> classifierName in ConfigSpaceNames)
    ensures classifierName != AllWildcardName && r.Success? ==> r.value == catalog(classifierName, seed)
    ensures classifierName == AllWildcardName ==>
      r.Success? && exists n :: n in ConfigSpaceNames && r.value == catalog(n, seed)
    ensures r.Failure? ==> r.error == classifierName
  {
    var name := classifierName;
    if name == AllWildcardName {
      assert ConfigSpaceNames[0] in GetAvailableConfigSpaces(false);
      name :| name in GetAvailableConfigSpaces(false);
    }
    if name !in GetAvailableConfigSpaces(false) {
      return Failure(name);
    }
    r := Success(catalog(name, seed));
  }
}
