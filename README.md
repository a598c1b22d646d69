# Peer-dependency bump propagation of the changesets `add` command

This project models the release-planning rule of the changesets command-line tool. Its `add`
command turns the releases a user chooses into a changeset. The changeset holds `releases`,
the chosen `{name, type}` pairs, and `dependents`, the `{name, type, dependencies}` records of
packages that must be released as a consequence. The rule for peer dependencies is:

- a minor or major release of a peer dependency gives every dependent a major release,
  whatever range the dependent declares;
- otherwise the normal rule applies: a dependent is patched exactly when the dependency's
  next version leaves the range it declares.

The modelled source is the add command's peer-dependency test,
`packages/cli/src/commands/add/__tests__/changesetsPeerDeps.test.js`. It states the rule in
its header comment, pins the rule down in eight concrete cases, and has a helper,
`mockUserResponses`, that scripts the prompts.

Modules:

- `SemVer` (`semver.dfy`): bump types `Patch < Minor < Major` and release versions. A bump
  follows items 6–8 of Semantic Versioning 2.0.0.
- `Ranges` (`ranges.dfy`): declared ranges by shape (pinned `1.0.0`, tilde `~1.0.0`, caret
  `^1.0.0`). `Admits` follows node-semver's desugaring of each shape, including the `^0.x`
  cases.
- `DepGraph` (`graph.dfy`): the workspace as given. It holds each package's current version
  and the dependency edges in declaration order, each tagged `Normal` or `Peer`. It also
  holds the integrity check that reports a dangling edge.
- `BumpRules` (`rules.dfy`): the rule table keyed by edge kind, upstream bump and range. It
  says what one edge asks of its dependent.
- `Releases` (`releases.dfy`): the chosen releases, and the decision map they seed.
- `Sequences` (`sequences.dfy`): subsequence and no-repeat predicates on name lists.
- `Propagation` (`propagation.dfy`): the worklist engine `Propagate` and the plan builder
  `ComputeReleasePlan`. `Propagate` is an imperative loop over a queue. It updates a
  name → bump map and a discovery-order list until no release is added or raised. It is
  proved against a specification (`IsPropagation`) with four parts:
  - the result is a fixed point: every edge's request is met;
  - it is the least fixed point, whenever every declared range admits the current version
    of its dependency;
  - each propagated package was triggered by a package released before it;
  - every chosen package is released at its chosen bump or above.
- `PlanProperties` (`plan_properties.dfy`): consequences of that specification. They cover
  peer escalation, no spurious propagation, "maximum severity wins and nothing more",
  uniqueness of the result, and the order and non-emptiness of `dependencies`.
- `PeerDepScenarios` (`scenarios.dfy`): the test's eight cases, and a chosen package that is
  itself a peer dependent. Each one is proved for every plan the engine may return.
- `UserResponses` (`user_responses.dfy`): the test helper `mockUserResponses`:
  - it splits the chosen releases into the major and minor answers;
  - the checkbox mock is a class with a call counter; it gives three answers and then
    fails;
  - the confirmation mock knows one question.

The test leaves two choices open; the model settles them as follows:

- The `dependencies` of a propagated package are **all** its released dependencies, not only
  the ones that triggered it. In the transitive case, `pkg-b` lists `pkg-a` although its
  caret range on `pkg-a` survives the minor bump (test lines 243–262). The names are listed
  in release-listing order: propagated packages in discovery order first, then the chosen
  ones. That order gives the expected `["pkg-c", "pkg-a"]`. Declaration order would depend on
  manifest key order, which is not part of this model, and the test's own comment names
  `pkg-a` first.
- A chosen package is a dependent like any other: the rule of line 13 applies to *all*
  dependents. Its decided bump is the most severe of the bump it was chosen with and what
  its edges ask for; it is never lowered. It stays among `releases`, in the order chosen,
  with that decided bump, and never appears among `dependents`. So choosing `pkg-a` minor
  and `pkg-c` patch, where `pkg-c` peer-depends on `pkg-a`, reports `pkg-c` major.

## Model

| member | source | states |
|---|---|---|
| `SemVer.MaxBump` | packages/cli/src/commands/add/__tests__/changesetsPeerDeps.test.js:12-14 | the combined bump is at least both requests and is one of them |
| `SemVer.Bump` | packages/cli/src/commands/add/__tests__/changesetsPeerDeps.test.js:131-153 | releasing a package always moves it to a strictly higher version; below-major bumps keep the major, patch keeps the minor |
| `SemVer.BumpOrdered` | packages/cli/src/commands/add/__tests__/changesetsPeerDeps.test.js:131-177 | a more severe bump reaches a strictly higher version than a less severe one |
| `Ranges.PinnedAdmitsOnlyBase` | packages/cli/src/commands/add/__tests__/changesetsPeerDeps.test.js:88-92 | a pinned range admits exactly its own version, so any bump leaves it |
| `Ranges.LeavingIsMonotone` | packages/cli/src/commands/add/__tests__/changesetsPeerDeps.test.js:112-177 | on a range admitting the current version, once a bump leaves the range every more severe bump leaves it too |
| `DepGraph.CheckGraph` | packages/cli/src/commands/add/__tests__/changesetsPeerDeps.test.js:90-95 | the fixture workspace loaded here is accepted exactly when every edge names two of its packages; otherwise the reported error names a dangling edge. The test never loads a broken workspace: the error belongs to the graph loader's design |
| `BumpRules.PeerRuleTable` | packages/cli/src/commands/add/__tests__/changesetsPeerDeps.test.js:10-14 | peer table: pinned+patch patches, tilde/caret+patch asks nothing, every minor or major bump asks for major whatever the range |
| `BumpRules.NormalRuleTable` | packages/cli/src/commands/add/__tests__/changesetsPeerDeps.test.js:243-247 | ordinary table: patch exactly when the next version leaves the range; a caret range survives a minor bump but not a major one |
| `BumpRules.RequiredMonotone` | packages/cli/src/commands/add/__tests__/changesetsPeerDeps.test.js:12-14 | on ranges admitting the current version, a more severe upstream bump never asks less of a dependent |
| `Releases.ChosenBumps` | packages/cli/src/commands/add/__tests__/changesetsPeerDeps.test.js:27-29 | the decision map holds exactly the chosen names; each at least every bump it was chosen with and equal to one of them |
| `Releases.ChosenBumpOfMember` | packages/cli/src/commands/add/__tests__/changesetsPeerDeps.test.js:27-29 | with distinct names, each chosen package starts with exactly the bump it was listed with |
| `Propagation.Propagate` | packages/cli/src/commands/add/__tests__/changesetsPeerDeps.test.js:10-14 | the worklist terminates, also on cyclic graphs, with a fixed point above the chosen bumps that is the least one when ranges admit current versions; chosen packages are raised like any dependent; each propagated package is listed once, triggered by an earlier release |
| `Propagation.ComputeReleasePlan` | packages/cli/src/commands/add/__tests__/changesetsPeerDeps.test.js:97-109 | a dangling edge gives that error; otherwise `releases` are the chosen packages in the order chosen with their decided bumps, and `dependents` are the records of a propagation meeting the specification above |
| `Propagation.ReleasedDependencies` | packages/cli/src/commands/add/__tests__/changesetsPeerDeps.test.js:255-262 | a dependent's `dependencies` are exactly the released packages it declares a dependency on, in the order the releases are listed, none twice when that list has no repeats |
| `PlanProperties.PeerEscalation` | packages/cli/src/commands/add/__tests__/changesetsPeerDeps.test.js:12-13 | a minor or major release of a peer dependency gives every dependent, chosen or not, a major release, for every range |
| `PlanProperties.ChosenPeerDependentEscalated` | packages/cli/src/commands/add/__tests__/changesetsPeerDeps.test.js:12-13 | in a plan, a chosen package that peer-depends on a package chosen minor or major is reported major, whatever it was chosen with |
| `PlanProperties.NoSpuriousPropagation` | packages/cli/src/commands/add/__tests__/changesetsPeerDeps.test.js:112-129 | when no edge on a chosen package asks for a release, nothing is propagated and no chosen bump is raised |
| `PlanProperties.DecisionIsStrongestRequest` | packages/cli/src/commands/add/__tests__/changesetsPeerDeps.test.js:10-14 | every released package gets exactly the most severe of its chosen bump and its edges' requests; no request exceeds it; it is the chosen bump or some edge's request |
| `PlanProperties.ExactFixedPoint` | packages/cli/src/commands/add/__tests__/changesetsPeerDeps.test.js:97-109 | a fixed point above the chosen bumps and below the result is the result, which pins down each expected plan |
| `PlanProperties.PropagationUnique` | packages/cli/src/commands/add/__tests__/changesetsPeerDeps.test.js:97-109 | any two results for the same graph and choices release the same packages with the same bumps |
| `PlanProperties.PlanReleasesUnique` | packages/cli/src/commands/add/__tests__/changesetsPeerDeps.test.js:97-109 | any two plans for the same graph and choices report the same `releases` |
| `PlanProperties.RecordDependenciesInReleaseOrder` | packages/cli/src/commands/add/__tests__/changesetsPeerDeps.test.js:255-262 | every record's `dependencies` follow release-listing order (discovered, then chosen), with no repeats when the chosen names are distinct |
| `PlanProperties.RecordsNameTheirTrigger` | packages/cli/src/commands/add/__tests__/changesetsPeerDeps.test.js:30-34 | every `dependents` record has a non-empty `dependencies` list |
| `PlanProperties.PlanSeparatesChosen` | packages/cli/src/commands/add/__tests__/changesetsPeerDeps.test.js:97-107 | every chosen release is reported in the order chosen, never below its chosen bump; each propagated package appears once among the dependents and never among the chosen |
| `PeerDepScenarios.SimplePeerDep` | packages/cli/src/commands/add/__tests__/changesetsPeerDeps.test.js:88-241 | the seven single-edge cases: pinned+patch gives `has-peer-dep` patch; tilde/caret+patch gives no dependents; tilde/caret+minor/major gives major; `dependencies` is `["depended-upon"]` |
| `PeerDepScenarios.ChosenPeerDependent` | packages/cli/src/commands/add/__tests__/changesetsPeerDeps.test.js:12-14 | choosing `pkg-a` minor and its peer dependent `pkg-c` patch gives exactly `releases` `[pkg-a minor, pkg-c major]` and no dependents |
| `PeerDepScenarios.TransitivePeerDependent` | packages/cli/src/commands/add/__tests__/changesetsPeerDeps.test.js:243-265 | minor on `pkg-a` gives exactly `[pkg-c major ["pkg-a"], pkg-b patch ["pkg-c","pkg-a"]]` in that order; `pkg-b`'s caret edge on `pkg-a` alone asks nothing |
| `UserResponses.PartitionReleases` | packages/cli/src/commands/add/__tests__/changesetsPeerDeps.test.js:44-52 | the loop yields the names chosen major and the names chosen minor, each in choice order |
| `UserResponses.NamesOfTypeMembership` | packages/cli/src/commands/add/__tests__/changesetsPeerDeps.test.js:46-51 | a name is in the list for a bump exactly when it was chosen with that bump |
| `UserResponses.PatchInNeither` | packages/cli/src/commands/add/__tests__/changesetsPeerDeps.test.js:46-51 | a patch release lands in neither the major nor the minor list |
| `UserResponses.NamesOfTypeKeepsOrder` | packages/cli/src/commands/add/__tests__/changesetsPeerDeps.test.js:46 | each list is a subsequence of the chosen names: input order is preserved |
| `UserResponses.AnswersRebuildReleases` | packages/cli/src/commands/add/__tests__/changesetsPeerDeps.test.js:54-58 | the three checkbox answers determine the chosen releases: read back, they give the original list |
| `UserResponses.CheckboxMock.constructor` | packages/cli/src/commands/add/__tests__/changesetsPeerDeps.test.js:53-58 | a fresh mock has count 0 and the answers all names, majors, minors |
| `UserResponses.CheckboxMock.Ask` | packages/cli/src/commands/add/__tests__/changesetsPeerDeps.test.js:59-64 | a call gives the answer at the current count and advances it; once every answer is given it fails with the unexpected-call error and the count stays |
| `UserResponses.AskFourTimes` | packages/cli/src/commands/add/__tests__/changesetsPeerDeps.test.js:53-64 | four calls on a fresh mock give all names, the majors, the minors, then the unexpected-call error |
| `UserResponses.AskConfirm` | packages/cli/src/commands/add/__tests__/changesetsPeerDeps.test.js:66-77 | a question is answered (with true) exactly when it is the desired-changeset question; any other fails with a message naming it |

## Left out

- Fixture copying, temporary directories and reading `package.json` manifests are file
  input. The graph is taken as given (`SimpleWorkspace`, `TransitiveWorkspace`, `PeerPairWorkspace`), with
  current version `v` for any `v` of major at least 1.
- Jest mocking of git, the logger, `writeChangeset` and the prompts' promise plumbing is
  test machinery and asynchrony. Thrown errors become `Err` values.
- The summary prompt and its default text (`askQuestion`, line 43 and line 70) are user
  interface with no behaviour to verify.
- `stripAnsi` is a library that is not part of this model. `AskConfirm` takes questions that
  are already free of colour codes.
- node-semver range strings and their parsing are a library that is not part of this model.
  Only the pinned, tilde and caret shapes over `MAJOR.MINOR.PATCH` are modelled. Pre-release
  tags and other range forms are not.
- Dev-dependency edges: no test exercises them, so there is no separate edge kind for them.
- Graph queries for dependents by kind, and edges between two packages, are not separate
  operations. The engine scans the edge list directly.
- Propagation.Propagate: least-ness, and therefore the exact characterisation in
  `DecisionIsStrongestRequest`, `PropagationUnique` and `NoSpuriousPropagation`, is proved
  only when every declared range admits its dependency's current version
  (`DepGraph.Consistent`). Without that, leaving a range need not be monotone in the bump,
  and only the fixed-point and triggered-in-order properties are promised.
- Propagation.Propagate: the order of `dependents` is promised only to be well founded
  (each record comes after a release that triggered it). The exact discovery order is not
  stated beyond that.
- UserResponses.AskConfirm: the canned answers are a plain dictionary. The JavaScript object
  lookup at line 73 also finds inherited members, so a question such as `"toString"` or
  `"__proto__"` gets a truthy value there, where the model fails with the no-answer error.
  The prototype chain is not modelled.
