# sklearn-bot: configuration spaces and their translation to scikit-learn, in Dafny

sklearn-bot runs scikit-learn classifiers with random or default hyperparameter
configurations against OpenML. Its reusable core, modelled here, is:

- the translation of a ConfigSpace configuration space into the parameter
  distributions of a randomized search (`_config_space_to_parameter_distributions`);
- the seeding of every unset `random_state` parameter of an estimator (`_seed_models`);
- the materialisation of a space as an estimator (`as_estimator`), as the fixed
  preprocessing pipeline around it (`as_pipeline`) and as a randomized search
  over that pipeline (`as_search_cv`);
- `ConfigSpaceWrapper`, which holds a base space plus extra hyperparameters and
  conditions and `assemble`s them on a deep copy;
- the catalog of configuration-space names with its `all` wildcard
  (`get_available_config_spaces`, `get_config_space`);
- two helpers of the example scripts: `flow_name_neat`, which shortens flow names
  for plots, and the loop that checks that every `stage__param` hyperparameter
  name is a parameter of the matching OpenML subflow.

Files, one module each:

- `wrappers.dfy`: `Option` and `Result` (Python's `None` and raised exceptions).
- `strings.dfy`: the Python `str` operations the code relies on: `split`,
  `join`, `rsplit(c, 1)`, `strip`, `endswith`, `replace(c, '')`, `lower`. It also
  proves that `__`-splitting inverts `__`-joining.
- `config_space.dfy`: what the code uses of the ConfigSpace library. Parameter
  values, the hyperparameter kinds, conditions as data, and a
  `ConfigurationSpace` class that grows in place and can be deep-copied.
- `deserialize.dfy`: `sklearnbot/sklearn/deserialize.py`.
- `config_space_wrapper.dfy`: `sklearnbot/config_spaces/config_space_wrapper.py`.
- `bootstrap.dfy`: `sklearnbot/config_spaces/bootstrap.py`.
- `flow_names.dfy`: `flow_name_neat` of `examples/classifier_output_difference.py`.
- `hyperparameter_check.dfy`: lines 79-86 of `examples/obtain_results.py`.

Foreign code becomes parameters or data:

- `importlib.import_module` followed by `getattr` is a `Registry`. It holds the
  set of importable modules and a map from (module, class) to the parameters
  the class's no-argument constructor sets.
- An estimator is a class whose `params` map `set_params` updates.
- Pipeline stages are data.
- The per-classifier catalog modules are a function from (name, seed) to the
  value they build.
- `random.choice` is a nondeterministic choice.

In three places the code was followed where the component is often described
differently:

- Seeding touches every parameter whose name *ends* in `random_state`, not
  only `random_state` itself.
- Meta is applied whenever it is not `None`, even when it is empty.
- The `log` flag of a float hyperparameter is ignored by the distribution
  translation; there is no log-uniform descriptor.

The wrapper in the code has only `__init__` and `assemble`. It has no pipeline
flag, no `exclude` and no `wrap_in_fixed_pipeline`.

## Model

| member | source | states |
|---|---|---|
| `Deserialize.Describe` | sklearnbot/sklearn/deserialize.py:33-46 | A float hyperparameter gives a continuous uniform with loc = lower and loc + scale = upper, so its support is [lower, upper]. An integer hyperparameter gives a randint whose exclusive high bound makes the support exactly lower..upper. A categorical gives its choices in order. An unparametrized or constant hyperparameter gives the list `[value]`. Any other kind is an error naming that kind. |
| `Deserialize.LogFlagIgnored` | sklearnbot/sklearn/deserialize.py:33-36 | The descriptor of a float hyperparameter does not depend on its `log` flag. |
| `Deserialize.DistributionsFailure` | sklearnbot/sklearn/deserialize.py:32-46 | Closed world: the translation fails if and only if some hyperparameter has an unknown kind, and the error names the first such kind. |
| `Deserialize.DistributionsKeys` | sklearnbot/sklearn/deserialize.py:31-47 | On success the dictionary's keys are exactly the hyperparameter names. |
| `Deserialize.DistributionsLookup` | sklearnbot/sklearn/deserialize.py:32-47 | Each name maps to the descriptor of the last hyperparameter with that name. |
| `Deserialize.DistributionsOfUniqueNames` | sklearnbot/sklearn/deserialize.py:32-47 | With unique names every hyperparameter gets its own descriptor. |
| `Deserialize.DistributionsStopAtFailure` | sklearnbot/sklearn/deserialize.py:45-46 | Once one hyperparameter has raised, the rest cannot change the outcome. |
| `Deserialize.ConfigSpaceToParameterDistributions` | sklearnbot/sklearn/deserialize.py:12-48 | The loop returns exactly the specified translation of the space's hyperparameters, including its error. |
| `Deserialize.Seeded` | sklearnbot/sklearn/deserialize.py:51-57 | Seeding keeps the key set. Afterwards no `*random_state` parameter is None. Only a `*random_state` parameter that was None changes, and it becomes 0. |
| `Deserialize.SeededIdempotent` | sklearnbot/sklearn/deserialize.py:51-57 | Seeding twice equals seeding once. |
| `Deserialize.RandomStateOverrides` | sklearnbot/sklearn/deserialize.py:52-55 | `rs_params` holds exactly the `*random_state` parameters whose value is None, each mapped to 0. |
| `Deserialize.OverridesSeed` | sklearnbot/sklearn/deserialize.py:56 | Applying `rs_params` with `set_params` is exactly seeding. |
| `Deserialize.SeedModels` | sklearnbot/sklearn/deserialize.py:51-57 | The model's parameters become the seeded version of its old parameters. |
| `Deserialize.Estimator.SetParams` | sklearnbot/sklearn/deserialize.py:84 | `set_params` overrides the named parameters and keeps the rest. |
| `Deserialize.SplitClassPath` | sklearnbot/sklearn/deserialize.py:81-82 | The split succeeds if and only if the name has a `.`. Then module + "." + class == name, and the class part has no `.`. Otherwise it raises. |
| `Deserialize.ResolveClass` | sklearnbot/sklearn/deserialize.py:81-82 | The class is found if and only if the name has a `.`, its module part imports and the module has the class. The import is tried first, so the module error comes before the index error. An empty module part raises ValueError. A module part starting with `.` raises TypeError. A module part that is not importable raises ModuleNotFoundError. A name without `.` is imported as a whole and raises IndexError only if that import succeeds. A missing class raises AttributeError. |
| `Deserialize.MetaApplied` | sklearnbot/sklearn/deserialize.py:83-85 | When meta is applied, all its keys appear. Its non-None values survive the later seeding. A None `*random_state` in meta still becomes 0. |
| `Deserialize.MetaSkipped` | sklearnbot/sklearn/deserialize.py:83-85 | When meta is skipped or absent, the estimator has exactly the constructor's parameters, seeded. |
| `Deserialize.AsEstimator` | sklearnbot/sklearn/deserialize.py:60-86 | The estimator fails exactly when the class cannot be resolved. Otherwise it is a fresh object of the resolved class, with defaults, then meta unless skipped, then seeding. |
| `Deserialize.FixedStagesShape` | sklearnbot/sklearn/deserialize.py:117-128 | The pipeline has four stages: a constant(-1) imputer; a column transformer (numeric columns scaled, nominal columns one-hot encoded with unknowns ignored, the rest passed through); a variance threshold; and the classifier, which is last and the only one. The stages are named `simpleimputer`, `columntransformer`, `variancethreshold` and the lower-cased class name. |
| `Deserialize.AsPipeline` | sklearnbot/sklearn/deserialize.py:89-131 | The pipeline fails exactly when the class cannot be resolved. Otherwise its stages are the fixed four around a fresh classifier built with meta skipped, and the meta is applied to the pipeline instead. |
| `Deserialize.AsSearchCV` | sklearnbot/sklearn/deserialize.py:134-169 | The search succeeds if and only if both the pipeline and the translation succeed. The pipeline error comes first, then the translation error. On success the search holds the translated distributions with random_state 0. Its estimator is exactly what `as_pipeline` builds: the fixed four stages around a fresh classifier of the resolved class, built with meta skipped, and the meta applied to the pipeline. |
| `ConfigSpace.ConfigurationSpace.DeepCopy` | sklearnbot/config_spaces/config_space_wrapper.py:15 | The copy is a fresh space with the same contents. |
| `ConfigSpace.ConfigurationSpace.AddHyperparameters` | sklearnbot/config_spaces/config_space_wrapper.py:16 | Adding hyperparameters appends them and changes nothing else. |
| `ConfigSpace.ConfigurationSpace.AddConditions` | sklearnbot/config_spaces/config_space_wrapper.py:18 | Adding conditions appends them and changes nothing else. |
| `ConfigSpaceWrappers.Assembled` | sklearnbot/config_spaces/config_space_wrapper.py:14-19 | The assembled space keeps the base's name, seed and meta. It holds the base hyperparameters followed by the wrapper's. Its conditions are the base's when the wrapper has none, else the base's followed by the wrapper's. |
| `ConfigSpaceWrappers.ConfigSpaceWrapper.constructor` | sklearnbot/config_spaces/config_space_wrapper.py:8-12 | The three arguments are stored unchanged. |
| `ConfigSpaceWrappers.ConfigSpaceWrapper.Assemble` | sklearnbot/config_spaces/config_space_wrapper.py:14-19 | The result is a fresh space equal to the assembled value. The wrapper and its base space are unchanged. |
| `ConfigSpaceWrappers.AssembledSpacesAreIndependent` | sklearnbot/config_spaces/config_space_wrapper.py:14-19 | Two assemblies are distinct objects with equal contents. Changing one afterwards leaves the other and the wrapper unchanged. |
| `Bootstrap.GetAvailableConfigSpaces` | sklearnbot/config_spaces/bootstrap.py:10-39 | Without the wildcard the result is the ten names in listed order. With it, the result is `all` followed by that list. |
| `Bootstrap.CatalogNamesWellFormed` | sklearnbot/config_spaces/bootstrap.py:25-39 | There are ten names, no name repeats, `all` is not one of them, and the wildcard list has eleven entries. |
| `Bootstrap.GetConfigSpace` | sklearnbot/config_spaces/bootstrap.py:42-65 | A non-wildcard name succeeds if and only if it is in the list, and then gives its own catalog entry with the seed. `all` always succeeds with the entry of some listed name. A failure names the rejected name. |
| `FlowNames.PieceSegmentLacksParen` | examples/classifier_output_difference.py:26-27 | No `(`-piece, and no last dotted segment of one, contains `(`. |
| `FlowNames.InnerSplitIsIdentity` | examples/classifier_output_difference.py:26-27 | The inner `.split('(')[0]` returns its argument unchanged. |
| `FlowNames.FlowNameNeatAsWritten` | examples/classifier_output_difference.py:24-29 | `flow_name_neat` as written. It returns a label if and only if the name is not nested or contains `(`; a nested name without `(` makes `[-2]` raise. A plain name's label has no `.` and no `)`. |
| `FlowNames.FlowNameNeat` | examples/classifier_output_difference.py:24-29 | The corrected `flow_name_neat`. It fails on exactly the same names. A plain name's label has no `.` and no `)`, and no label ends in `))`. |
| `FlowNames.NestedBranchShape` | examples/classifier_output_difference.py:25-27 | In the `))` branch the label is the last dotted segment of the second-to-last piece, then `(`, then the last dotted segment of the final piece, then `)`. |
| `FlowNames.PlainBranchShape` | examples/classifier_output_difference.py:28-29 | Otherwise the label is the text after the last `.` (the same as the `rsplit` tail) with every `)` removed. It contains neither `.` nor `)`. |
| `FlowNames.AsWrittenKeepsInnerBrackets` | examples/classifier_output_difference.py:27 | As written, a name that ends in `))` and has a `(` gets a label ending in `)))`. |
| `FlowNames.NeatNestedLabelIsBalanced` | examples/classifier_output_difference.py:24-29 | Corrected, the nested label is outer + `(` + inner + `)`. The inner part has no bracket and no `.`, and the label does not end in `))`. |
| `Strings.JoinSplit` | examples/obtain_results.py:80 | Joining the `__`-split parts with `__` gives back the name. |
| `Strings.SplitJoinDunder` | sklearnbot/config_spaces/knn.py:23-28 | A name joined with `__` from parts that contain no `__`, where no part but the last ends in `_`, splits back into exactly those parts. |
| `Strings.SplitPiecesLackSeparator` | examples/obtain_results.py:80 | No part of a split contains the separator. |
| `Strings.RSplitOnce` | sklearnbot/sklearn/deserialize.py:81 | `rsplit(c, 1)` gives one piece exactly when `c` is absent. Otherwise the pieces joined with `c` give back the string, and the second piece has no `c`. |
| `Strings.LastSegmentIsRSplitTail` | examples/classifier_output_difference.py:29 | `split(c)[-1]` and `rsplit(c, 1)[-1]` give the same text. |
| `HyperparameterCheck.CheckHyperparametersAvailable` | examples/obtain_results.py:79-86 | The loop over the space's `get_hyperparameter_names()` finishes if and only if every name's leaf is a parameter of its subflow. Otherwise it raises the error of the first name that fails. |
| `HyperparameterCheck.TopLevelName` | examples/obtain_results.py:80-82 | A name without `__` is looked up as a parameter of the top-level flow. |
| `HyperparameterCheck.StagedName` | examples/obtain_results.py:83-85 | `stage__param` has the subflow path `[stage]` and the leaf `param`. It is found if and only if `stage` is a component whose parameters include `param`. |

## Findings

| source | as written | input that shows it | evidently intended | confidence | as-written member | corrected member |
|---|---|---|---|---|---|---|
| examples/classifier_output_difference.py:27 | The `))` branch appends the final piece's last dotted segment, closing brackets included, and then one more `)`. | `a.Outer(b.Inner))` gives `Outer(Inner)))`. | `Outer(Inner)`: the other branch strips `)` the same way. | medium; not executed | `FlowNames.AsWrittenKeepsInnerBrackets` (about `FlowNames.FlowNameNeatAsWritten`) | `FlowNames.NeatNestedLabelIsBalanced` (about `FlowNames.FlowNameNeat`) |

## Left out

- Sampling of configurations, log-space draws and the activation semantics of conditions belong to the ConfigSpace library. Conditions are carried as data only.
- The per-classifier catalog modules (adaboost, knn, svc, ...) are declarative data. `get_config_space` receives them as a function from (name, seed) to the value they build.
- `add_hyperparameters` and `add_conditions` are appends here. ConfigSpace's checks for duplicate names, unknown parents and cycles, and its own ordering of `get_hyperparameters`, are not modelled; declaration order is used.
- Hyperparameter defaults are not modelled; nothing in the modelled code reads them.
- scipy distribution objects are symbolic descriptors, and float bounds are mathematical reals, so no rounding.
- `Deserialize.Estimator.SetParams`: scikit-learn's rejection of unknown parameter names is not modelled. Neither is the deep expansion of a nested estimator's parameters by `get_params(deep=True)`. The parameter map is a plain map.
- `Deserialize.AsPipeline`: the pipeline records the keyword arguments applied to it as a whole. How scikit-learn routes `stage__param` names into the stages is not modelled. Neither is the `-1`, `-2` suffixing `make_pipeline` uses for duplicate stage names.
- `Deserialize.AsSearchCV`: the extra keyword arguments passed through to RandomizedSearchCV are not modelled.
- `ConfigSpaceWrappers.ConfigSpaceWrapper`: the wrapper's lists are values here. Python's aliasing of the caller's list objects is not modelled.
- `HyperparameterCheck.GetSubflow` belongs to the OpenML client, which is not part of this model. Here it descends one component per name and fails on an empty path or a missing component.
- `Strings.Lower` maps ASCII letters only, and `Strings.IsSpace` lists the characters Python's `str.isspace` accepts, without Unicode normalisation.
- `Deserialize.ResolveClass`: which modules are importable is data, in `Registry.modules`. Import side effects and the importing of parent packages are not modelled. Neither is the TypeError raised when the found attribute cannot be called.
- The rest of the repository is out of scope: OpenML calls, uploads, file and plot output, argument parsing, timing, and the scripts outside the lines cited above.
