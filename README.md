# Morepath auto-configuration and links, in Dafny

This project models two parts of the Morepath web framework:

- **Automatic configuration** (`morepath/autosetup.py`).
  - `DependencyMap` loads a table from the installed working set, mapping each project name to the names of its direct requirements.
  - `depends` answers "does this project depend on that one, directly or indirectly?".
  - `relevant_dists` keeps the distributions that depend on `morepath`.
  - `morepath_packages` imports the module of each such distribution. `get_module_name` chooses the module: the `scan` entry point in group `morepath`, otherwise the project name. `import_package` turns an import failure into `AutoImportError`.
  - `autoconfig` scans each package with an ignore list that defaults to `.test` and `.tests`.
- **Links and views across mounted applications** (`morepath/request.py`).
  - `_follow_defers` tries an application, then the application it defers to, and raises a LinkError when an application comes back.
  - The module-level `link` climbs from an application to the root of the mount tree. It collects one path segment and one set of parameters per level.
  - `Request.link` adds the link prefix, the view name and the query string. `link_prefix` caches the prefix per application class.
  - `Request.view` calls a view with the request's application and lookup switched to those of the application that has the view.
  - `after`, `run_after` and `clear_after` manage the callbacks run on the response.

Files:

- `wrappers.dfy` holds `Option` and `Result`.
- `autosetup.dfy` (module `AutoSetup`) and `request.dfy` (module `Request`) follow the two source files.

The parts that change state are imperative Dafny:

- `DependencyMap` and `Request` are classes with the source's fields.
- `load` is a pair of nested loops.
- `depends` is a recursive method with an early-exit loop.
- `DependsSeen` is the same search corrected with a set of the projects already searched. `relevant_dists` uses it, because the source's `depends` raises RecursionError on a requirement cycle that does not lead to the target (see Findings).
- `_follow_defers` and the module-level `link` are `while` loops over the same variables as the source.

Each of these methods is proved equal to a specification function: `LoadTable`/`Register`, `Reachable` (for `depends` and `DependsSeen`), `DependentsOf`, `Follow` and `LinkPath`. The properties the source promises are then proved about those functions as lemmas.

What the code calls on the outside becomes a parameter:

- The working set is a sequence of `Distribution` values.
- `importlib.import_module` is a partial function `importer`.
- `generic.path`, `generic.deferred_link_app`, the view lookup and `generic.link_prefix` are the functions `pathOf`, `deferred`, `findView` and `prefixOf`.
- `urlencode` is the function `encode`.

The specification proved for `_follow_defers` is `DeferOutcome`, stated on the deferral chain `ChainAt`:

- A result `(x, a)` comes from the first application `a` of the chain whose lookup gives something. Every application before `a` is different and found nothing.
- `(None, None)` means the chain ended first.
- `LinkError` means an application came back before anything was found.

`DeferOutcomeDeterministic` shows that this specification admits only one outcome.

## Model

| member | source | states |
|---|---|---|
| AutoSetup.DependencyMap.constructor | morepath/autosetup.py:129-131 | a new map has an empty requirement table and an empty distribution table |
| AutoSetup.DependencyMap.Load | morepath/autosetup.py:133-138 | `_d` becomes the old table with every requirement of every distribution added under its project name; `_dists` becomes the old table with each distribution stored under its name, in working-set order |
| AutoSetup.LoadTableEntry | morepath/autosetup.py:133-138 | after loading, a project has an entry exactly when it had one or one of its distributions declares a requirement, and the entry is the old entry united with every requirement declared by any distribution of that name |
| AutoSetup.DeclaredRequirementRecorded | morepath/autosetup.py:136-138 | every requirement a distribution declares is in the loaded entry for its project |
| AutoSetup.RegisterKeys | morepath/autosetup.py:135 | after loading, `_dists` knows exactly its old names and the project names of the working set |
| AutoSetup.RegisterLast | morepath/autosetup.py:135 | `_dists` maps a name to the last distribution of the working set with that name |
| AutoSetup.RegisterUntouched | morepath/autosetup.py:135 | a name no distribution carries keeps its old distribution |
| AutoSetup.DependencyMap.Depends | morepath/autosetup.py:140-147 | on an acyclic requirement table, the answer is true exactly when the second project is reachable from the first along one or more requirement edges |
| AutoSetup.HeightDecreases | morepath/autosetup.py:144-146 | on an acyclic table each recursive call of `depends` is on a project of smaller height, so the recursion ends |
| AutoSetup.DirectRequirementReachable | morepath/autosetup.py:141-143 | a direct requirement is a dependency |
| AutoSetup.PrependReachable | morepath/autosetup.py:144-146 | a dependency of a direct requirement is a dependency |
| AutoSetup.ReachableUnfold | morepath/autosetup.py:140-147 | a project depends on `q` if and only if `q` is a direct requirement of it or a dependency of one of its direct requirements |
| AutoSetup.ReachableTransitive | morepath/autosetup.py:140-147 | the dependency relation is transitive |
| AutoSetup.DependencyMap.DependsSeen | morepath/autosetup.py:140-147 | the search of `depends`, corrected to remember the projects already searched: on every table, a cyclic one included, the answer is true exactly when the second project is reachable from the first |
| AutoSetup.DependsWithinExact | morepath/autosetup.py:140-147 | `depends` as written, under a recursion limit: whenever it answers rather than raising RecursionError, the answer is reachability, on any table |
| AutoSetup.CycleExhaustsRecursion | morepath/autosetup.py:144-145 | as written, `depends` on two projects requiring each other raises RecursionError for a target outside the cycle, whatever the recursion limit |
| AutoSetup.CycleDoesNotReachMorepath | morepath/autosetup.py:140-147 | on that cycle neither project depends on `morepath`, so the intended answer is false |
| AutoSetup.ClosedUnreachable | morepath/autosetup.py:140-147 | a set that holds a project's requirements and is closed under requirements holds all of its dependencies, so a project outside it is no dependency |
| AutoSetup.NoRequirementsNoDependency | morepath/autosetup.py:141 | a project without recorded requirements depends on nothing |
| AutoSetup.AcyclicNoSelfDependency | morepath/autosetup.py:140-147 | on an acyclic table no project depends on itself |
| AutoSetup.DependencyMap.RelevantDists | morepath/autosetup.py:149-153 | on every working set, the result is the distributions that depend on the target, in working-set order; it asks the corrected `DependsSeen` |
| AutoSetup.DependentsOfSubsequence | morepath/autosetup.py:149-153 | the filtered distributions are a subsequence of the working set: nothing added, nothing reordered |
| AutoSetup.DependentsOfCount | morepath/autosetup.py:149-153 | each distribution that depends on the target occurs as often as in the working set, and every other occurs zero times |
| AutoSetup.MorepathEntryPoints | morepath/autosetup.py:180-183 | None exactly for a distribution without `get_entry_map`; otherwise the entry points of group `morepath`, or no entry points when the group is missing |
| AutoSetup.GetModuleName | morepath/autosetup.py:171-188 | the module name is the project name or the module of the `scan` entry point of group `morepath`, and the project name when there is no such entry point |
| AutoSetup.ScanEntryPointChosen | morepath/autosetup.py:180-186 | with a `scan` entry point in group `morepath`, the module name is that entry point's module |
| AutoSetup.ProjectNameByDefault | morepath/autosetup.py:180-188 | without an entry map, without group `morepath` or without a `scan` entry in it, the module name is the project name |
| AutoSetup.ImportPackage | morepath/autosetup.py:191-199 | the import succeeds exactly when the chosen module can be imported, with that module; otherwise the error is AutoImportError for the distribution's project name |
| AutoSetup.ImportAll | morepath/autosetup.py:156-168 | importing one distribution after the other succeeds exactly when every import does, giving the modules in order; a failure is the AutoImportError of the first distribution that cannot be imported |
| AutoSetup.ImportAllStopsAtFailure | morepath/autosetup.py:167-168 | after a run of successful imports, the first failing import is the error of the whole iteration |
| AutoSetup.MorepathPackages | morepath/autosetup.py:156-168 | on every working set, the outcome is the import, in working-set order, of every distribution depending on `morepath`, or the first AutoImportError |
| AutoSetup.EffectiveIgnore | morepath/autosetup.py:83-85 | no ignore list gives `['.test', '.tests']`; a given list, even an empty one, is used unchanged |
| AutoSetup.ScanAll | morepath/autosetup.py:86-88 | one scan per package, in order, each with the same ignore list; an import error is passed on |
| AutoSetup.ScanPackages | morepath/autosetup.py:86-88 | the loop makes exactly the scan calls `ScanAll` describes |
| AutoSetup.AutoConfig | morepath/autosetup.py:83-89 | on every working set, the scans are those of every package `morepath_packages` yields, with the defaulted ignore list, or the AutoImportError it raises |
| AutoSetup.EntryPointFixtureIgnoresEntryPoint | fixture_packages/entry-point/setup.py:15-19 | the fixture as written names its entry point `autoimport`, so its module name is `entry-point`, not `entrypoint` |
| AutoSetup.EntryPointFixtureImportFails | morepath/tests/test_autosetup.py:13-22 | as written, importing the fixture raises AutoImportError for `entry-point` |
| AutoSetup.ScanEntryPointFixtureModule | morepath/autosetup.py:185-186 | with the entry point named `scan`, the fixture's module name is `entrypoint` |
| AutoSetup.ScanEntryPointFixtureImports | morepath/tests/test_autosetup.py:13-22 | with the entry point named `scan`, importing the fixture gives the module `entrypoint` |
| AutoSetup.Ns2FixtureImportFails | morepath/tests/test_autosetup.py:13-22 | as written, the `ns2` fixture has no `scan` entry point, so its module name is `ns2`, and when no module `ns2` is installed importing it raises AutoImportError for `ns2` |
| AutoSetup.Ns2ScanFixtureImports | morepath/tests/test_autosetup.py:13-22 | with a `scan` entry point naming `ns.real2`, importing the `ns2` fixture gives that module |
| Request.FollowDefers | morepath/request.py:266-276 | the loop with its `seen` set meets `DeferOutcome`: first hit along the deferral chain, `(None, None)` at the end of the chain, LinkError on a repeated application |
| Request.FollowMeetsOutcome | morepath/request.py:266-276 | the loop's outcome meets `DeferOutcome` for every start, lookup and deferral |
| Request.FollowFrom | morepath/request.py:268-275 | from any point of the chain with the applications before it in `seen`, each having found nothing, the rest of the loop meets `DeferOutcome` |
| Request.DeferOutcomeDeterministic | morepath/request.py:266-276 | first-hit, end-of-chain and circularity exclude each other: only one outcome meets `DeferOutcome` |
| Request.SelfDeferIsCircular | morepath/request.py:269-270 | an application that finds nothing and defers to itself raises the circular-defer LinkError |
| Request.Link | morepath/request.py:279-294 | the loop computes `LinkPath`: None if any level has no path; otherwise the paths root first, joined by `/` and stripped of `/`, with the parameters of all levels merged |
| Request.LinkPathMissing | morepath/request.py:285-287 | a level whose model or application has no path leaves no link |
| Request.LevelsClimb | morepath/request.py:289-291 | the levels start at the model in the given application; each next level is the previous application within its parent, and the last is a root |
| Request.LinkPathRoot | morepath/request.py:279-294 | in a root application the link is the model's own path without slashes at either end, with its own parameters |
| Request.LinkPathMounted | morepath/request.py:279-294 | in an application mounted in a root, the link is the mount path, then `/`, then the model's path, stripped of `/`; a parameter given at both levels takes the root's value |
| Request.MergeParamsKeys | morepath/request.py:283-290 | the merged parameters hold exactly the keys given at some level |
| Request.MergeParamsOuterWins | morepath/request.py:283-290 | a key takes its value from the last level that gives it, which is the outermost one |
| Request.Reverse | morepath/request.py:293 | the reversed list has the same length, element `k` being element `n-1-k` of the original |
| Request.StripLeading | morepath/request.py:294 | removes only slashes from the start, and leaves no slash at the start |
| Request.StripTrailing | morepath/request.py:294 | removes only slashes from the end, and leaves no slash at the end |
| Request.StripSlashes | morepath/request.py:294 | the result is a middle part of the input with only slashes around it, and neither starts nor ends with a slash |
| Request.LinkFinder | morepath/request.py:172-173 | the `find` of `Request.link`; in a root application it gives no link without the model's path, and otherwise the model's path stripped of `/` with its own parameters |
| Request.QueryString | morepath/request.py:187-188 | the query string is empty exactly when there are no parameters, else `?` followed by the encoded parameters |
| Request.AssembleLink | morepath/request.py:180-189 | the URL is the prefix, `/`, then the path if non-empty, `/` between path and name when both are present, the name if non-empty, and then the query string |
| Request.Request.constructor | morepath/request.py:32-41 | a request starts with the given application and its lookup, no callbacks and an empty prefix cache |
| Request.Request.LinkPrefix | morepath/request.py:81-90 | a prefix cached for the class of the request's application is returned as is; otherwise the prefix computed from the request's lookup is returned and cached for that class |
| Request.Request.Link | morepath/request.py:137-189 | a None object gives the default without a lookup; `app=None` gives LinkError; a circular defer is passed on; an object no application can link to gives LinkError; otherwise the URL is assembled from the cached prefix, the first path found along the deferral chain, and the view name |
| Request.Request.View | morepath/request.py:92-135 | `app=None` gives LinkError; no view found along the deferral chain gives the default; otherwise the view runs with the request's app and lookup set to those of the application that has it, and they are restored when the view returns |
| Request.Request.After | morepath/request.py:214-249 | the callback is appended to the list and returned unchanged |
| Request.Request.RunAfter | morepath/request.py:251-253 | the response is passed through every registered callback in registration order |
| Request.ApplyAllInOrder | morepath/request.py:251-253 | callbacks registered earlier run before those registered later |
| Request.Request.ClearAfter | morepath/request.py:255-256 | the callback list becomes empty |

## Left out

- The working set, import machinery, configuration and dispatch are inputs to the model.
  - `pkg_resources.working_set` is an input sequence.
  - `importlib.import_module` is the partial function `importer`: None stands for an ImportError.
  - `Config`, `setup()`, `Config.scan` and `Config.commit` are not part of this model. A scan is recorded as a `ScanCall` value, and `autosetup`, which only adds `commit`, is not modelled.
- Requirement names are plain project-name strings. The normalisation `pkg_resources` applies to names is not modelled.
- `relevant_dists` and `morepath_packages` are generators in the source. The model builds their whole output at once. Order and the stopping point at the first AutoImportError are kept, and so is the loss of the configuration built so far. The interleaving of imports with scans is not.
- AutoSetup.DependencyMap.Depends: the model requires an acyclic requirement table. The source has no visited set, so on a cycle it recurses until CPython's recursion limit and raises RecursionError. That error propagates through `relevant_dists`, `morepath_packages` and `autoconfig`. On a cycle that also reaches the target, whether it answers True or raises depends on the set's iteration order. `DependsWithin` models this behaviour under an explicit recursion limit, and the Findings record it.
- AutoSetup.DependencyMap.RelevantDists: calls the corrected `DependsSeen`. Where the source's `depends` raises RecursionError on a cycle, the model answers whether the project depends on `morepath`. Where the source answers, both agree (`DependsWithinExact`).
- AutoSetup.ImportPackage: only ImportError is modelled, as the oracle's None. Any other exception raised while importing a module, a `SyntaxError` or a module-level `RuntimeError` for example, is not caught by the source and propagates unchanged; the model has no such error path.
- Request.FollowDefers: `apps` is a finite set of application instances closed under deferral; that every deferral chain stays within such a set is an assumption of the model, since the deferral function is supplied by the application. It is a ghost parameter and only serves the termination proof. `Request.Request.Link` and `Request.Request.View` take it too.
- Several lookups are injected functions: `generic.path`, `generic.deferred_link_app`, `generic.link_prefix`, the view lookup by predicates, and `urlencode`. The `reg` dispatch behind them is not modelled. Applications carry their class and lookup as numbers.
- `app.set_implicit()` is not modelled, and neither are the exception messages of LinkError.
- Request.Request.View: when the view raises, the model leaves the request's app and lookup switched, as the source does, since it has no `try/finally`. What the view does to other state is not modelled.
- Request.Request.RunAfter: a callback is a function from response to response; the in-place changes a Python callback makes to the response object are modelled as that function's result. Exceptions raised by a callback are not modelled.
- `body_obj`, `identity`, `resolve_path`, the webob request and response, `environ`, `normalize_path`, `parse_path` and `reify` are not part of this model.

## Findings

| source | as written | input that shows it | evidently intended | confidence | as-written member | corrected member |
|---|---|---|---|---|---|---|
| fixture_packages/entry-point/setup.py:15-19 | the fixture's entry point in group `morepath` is named `autoimport`, but `get_module_name` (morepath/autosetup.py:185-186) reads only an entry named `scan`, so the fixture falls back to importing its project name `entry-point` | the fixture distribution, with an importer for which the hyphenated name `entry-point` is not importable | the entry is named `scan`, so the module `entrypoint` is imported, as morepath/tests/test_autosetup.py:13-22 expects | medium, not executed | AutoSetup.EntryPointFixtureImportFails | AutoSetup.ScanEntryPointFixtureImports |
| fixture_packages/ns2/setup.py:4-17 | the `ns2` fixture declares no entry points, so `get_module_name` falls back to its project name `ns2`, while the module the test imports from it is `ns.real2` (morepath/tests/test_autosetup.py:18); its package list comes from `find_packages()`, so the fixture directory, not its text, decides whether a module `ns2` exists | the `ns2` distribution, with an importer for which `ns2` is not a module | a `scan` entry point in group `morepath` naming `ns.real2`, the module morepath/tests/test_autosetup.py:13-22 expects | low, not executed | AutoSetup.Ns2FixtureImportFails | AutoSetup.Ns2ScanFixtureImports |
| morepath/autosetup.py:140-147 | `depends` recurses into every requirement without remembering the projects already searched, so a requirement cycle that does not reach the target recurses until RecursionError, which `relevant_dists`, `morepath_packages` and `autoconfig` pass on | a working set with projects `a` and `b` that require each other, asked whether `a` depends on `morepath` | the answer False, since neither project depends on `morepath`, so that `autoconfig` skips both | high, not executed | AutoSetup.CycleExhaustsRecursion | AutoSetup.DependencyMap.DependsSeen |
