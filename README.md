# slswt/utils — Terraform blueprint projection and deployment schedule, in Dafny

This project models the two Terraform helpers of `slswt/utils`.

- **`projectBlueprints`** (`Materialize.dfy`) wires every blueprint module
  `<root>/Blueprints/<rel>/main.tf` into the environments `stage` and `prod`.
  For each environment it writes `<root>/Live/<rel>/<env>/main.tf` and a
  dependency manifest `<root>/Live/<rel>/<env>/dependencies.json`:
  - `main.tf` is a root module with an S3 backend, an AWS provider with an
    assumed role, a `module` block pointing at the blueprint, and one
    re-export per `output` the blueprint declares.
  - `dependencies.json` lists the remote-state keys that the blueprint's
    `data "terraform_remote_state"` blocks read.

  After the blueprints, every override `<root>/Environments/<rel>/<env>/main.tf`
  writes the same two files into `Live/<rel>/<env>`.
- **`getDeploymentSchema`** (`Schedule.dfy`) reads the manifest of every
  `Live/**/stage` directory. It then builds a shell plan: first the
  directories with no dependencies, then the marker line
  `### HAS DEPENDENCIES ###`, then the others. Each entry changes into its
  directory and runs `terraform init` and `terraform apply -auto-approve`.

The supporting modules:

| module | what it models |
|---|---|
| `Paths` | paths as segment lists: `dirname`, `parse().name`, a prefix `replace`, the state key |
| `Text` | line splitting and joining, a global `replace` for literal patterns |
| `Settings` | parameter defaults (`requiredParam`) and the faults that abort a run |
| `Extract` | the `getOutputs` and `getDependencies` regex scanners |
| `Templates` | the `makeTfModule` and `makeOutputs` templates |
| `Manifest` | `JSON.stringify(deps, null, 2)` and `JSON.parse` for arrays of strings |

The file system is a `FileTree` object whose `files` map the methods update
in place. Each pass is a method with a loop, proved to leave the tree exactly
as a list of writes (computed by functions from the tree as it was) would
leave it. The properties are proved about those functions.

Where the source and its written description differ, the model follows the
source, with one exception: the default for a missing schedule root, which the
source gets wrong (see "## Findings"). The schedule's entry point uses the
corrected default; `Schedule.DeploymentSchemaAsWritten` keeps the one as written.
The other differences:

- Output names are not de-duplicated. `ExportsRoundTrip` and `OutputsJoin`
  keep repeats.
- A module's own state key is not filtered out of its dependencies.

## Model

| member | source | states |
|---|---|---|
| Settings.ResolveOptions | projectBlueprints.js:8-13 | the run proceeds exactly when all four parameters are supplied, with them as the configuration; otherwise it fails naming the first missing one in declaration order |
| Settings.ResolveScheduleRootAsWritten | getDeploymentSchema.js:5-7 | as written: a supplied root is used (what a missing one gives is stated by `ScheduleRootErrorUnnamed`) |
| Settings.ScheduleRootErrorUnnamed | getDeploymentSchema.js:6 | with no root, the schedule as written fails without naming the parameter, while the corrected default names `terraformRoot` |
| Settings.ResolveScheduleRoot | getDeploymentSchema.js:5-7 | corrected default: a supplied root is used; a missing root fails with `MissingParameter("terraformRoot")` |
| Paths.Dirname | projectBlueprints.js:84 | the directory followed by the last segment gives the path back |
| Paths.Stem | projectBlueprints.js:85 | `parse().name`: a prefix of the segment, the whole segment when it has no '.', never empty for a non-empty segment |
| Paths.ReplaceFirst | projectBlueprints.js:87 | removing the root from a path that starts with it leaves the part below it; a path not containing it is unchanged |
| Paths.StateKeyShape | projectBlueprints.js:112 | the state key is `<keyBase>/<env>/terraform.tfstate` and never starts with '/' |
| Paths.StateKeyInjective | projectBlueprints.js:112 | two state keys are equal only for equal key bases and environments |
| Extract.GetOutputs | projectBlueprints.js:20-29 | the loop returns exactly the specification list `Outputs`, which is also what the `exec` calls find |
| Extract.NextOutput | projectBlueprints.js:22-27 | `exec` from `lastIndex` returns a position at or after it where the regex matches |
| Extract.NoOutputInside | projectBlueprints.js:22 | no match of the output regex starts inside another one |
| Extract.ExecOutputsAgree | projectBlueprints.js:22-27 | the `exec` calls, each resuming at the end of the previous match, capture exactly the names found by looking at every position |
| Extract.OutputsWellFormed | projectBlueprints.js:22-28 | every extracted name is a non-empty run of word characters |
| Extract.OutputsMembership | projectBlueprints.js:20-29 | a name is extracted if and only if some line declares it |
| Extract.OutputsEmpty | projectBlueprints.js:20-29 | no names are extracted if and only if no line is a declaration |
| Extract.OutputsOfDeclaration | projectBlueprints.js:22 | a line `output "<name>"...` yields exactly `[name]` |
| Extract.OutputsJoin | projectBlueprints.js:105-109 | the outputs of sources joined by "\n" are the outputs of each source in order, repeats included |
| Extract.FindKey | projectBlueprints.js:33 | the lazy block body stops at the first position where `key = "..."` matches, crossing no '\r' or line separator |
| Extract.NextMatch | projectBlueprints.js:34-39 | `exec` from `lastIndex` returns a match that starts at or after `lastIndex` |
| Extract.NextMatchFirst | projectBlueprints.js:34-39 | `exec` skips nothing: no match starts between `lastIndex` and the match it returns |
| Extract.NextMatchNone | projectBlueprints.js:34-39 | when `exec` returns no match, the regex matches at no position at or after `lastIndex` |
| Extract.GetDependencies | projectBlueprints.js:31-42 | the `exec` loop with placeholder replacement and filter returns exactly the specification list `Dependencies` |
| Extract.HitsAreExecMatches | projectBlueprints.js:33-39 | the hits are matches, each starting at or after where the previous ended, none skipped and none after the last |
| Extract.OneEntryPerMatch | projectBlueprints.js:36-41 | for a non-empty environment the filter drops nothing: one key per match, in order, with `${var.environment}` replaced |
| Extract.DependenciesEmpty | projectBlueprints.js:31-42 | for a non-empty environment, no dependency is found if and only if the regex matches nowhere |
| Extract.NoRemoteStateNoDependencies | projectBlueprints.js:33 | text with no `data "terraform_remote_state"` opening line has no dependencies |
| Templates.MakeOutputsLayout | projectBlueprints.js:72-81 | the reduce gives one leading newline per output, then the re-export blocks in order |
| Templates.ExportsRoundTrip | projectBlueprints.js:72-81 | `getOutputs` on the re-export blocks gives back the outputs they were made from |
| Templates.ModuleEnvironmentLine | projectBlueprints.js:65-68 | the `environment` argument line appears only after `source`, and exactly for a non-empty environment name |
| Templates.TfModuleLayout | projectBlueprints.js:44-70 | the root module has 27 lines, the key, module name and source on fixed lines, and an `environment` line exactly for a non-empty environment |
| Templates.GeneratedMainReexports | projectBlueprints.js:113-119 | `getOutputs` on a generated `main.tf` yields exactly the outputs it re-exports |
| Manifest.ManifestRoundTrip | projectBlueprints.js:123-126 | `JSON.parse` of what `JSON.stringify(deps, null, 2)` writes gives the list back |
| Manifest.EmptyManifest | getDeploymentSchema.js:16-17 | a manifest parses to no keys exactly when, white space aside, it reads `[]` |
| Materialize.GetLocations | projectBlueprints.js:83-97 | module root is the file's directory, module name its `parse().name`; the live folder is below `Live` and mirrors the directory below the root; the key base is the live folder below the terraform root |
| Materialize.LastWriteWins | projectBlueprints.js:122-126 | after a list of writes, a path holds the text of its last write |
| Materialize.ApplyWritesUntouched | projectBlueprints.js:122-126 | a path no write touches keeps its content, or stays absent |
| Materialize.ApplyWritesIdempotent | projectBlueprints.js:122-126 | writing the same list twice leaves what writing it once does |
| Materialize.SourcesAgree | projectBlueprints.js:104-108 | the joined sources depend only on the listed files' contents |
| Materialize.EnvWrites | projectBlueprints.js:111-126 | one environment writes `main.tf` and `dependencies.json` into `<liveFolder>/<env>` |
| Materialize.EnvWritesContent | projectBlueprints.js:109-126 | the written `main.tf` re-exports exactly the sources' outputs, and the manifest parses back to the sources' dependencies for that environment |
| Materialize.FileTree.ReadFile | projectBlueprints.js:106 | reading an existing file returns its content |
| Materialize.FileTree.WriteFile | projectBlueprints.js:122 | writing creates the file or replaces its content, and changes nothing else |
| Materialize.ReadSources | projectBlueprints.js:104-108 | the reduce over `tfFiles` yields the specification `Sources` of the listed files |
| Materialize.WriteEnv | projectBlueprints.js:111-126 | one environment leaves the tree as its two writes would |
| Materialize.WriteEnvs | projectBlueprints.js:110-127 | `envs.forEach` leaves the tree as the writes for `stage` then `prod` would |
| Materialize.BlueprintPass | projectBlueprints.js:99-128 | the blueprint loop leaves the tree as the blueprint write list, computed from the tree before the loop, would |
| Materialize.OverridePass | projectBlueprints.js:130-157 | the override loop leaves the tree as the override write list would |
| Materialize.ProjectBlueprints | projectBlueprints.js:8-157 | a missing parameter aborts before any write, naming it; otherwise the files become the blueprint writes followed by the override writes |
| Materialize.BlueprintPassInLive | projectBlueprints.js:111 | every blueprint write goes below `Live` |
| Materialize.OverridePassInLive | projectBlueprints.js:142 | every override write goes below `Live` |
| Materialize.RunTouchesOnlyLive | projectBlueprints.js:99-157 | a run leaves every file outside `Live` as it was, and creates none there |
| Materialize.BlueprintTargetShape | projectBlueprints.js:99-112 | `Blueprints/<rel>/main.tf` writes `Live/<rel>/<env>` with key base `Live/<rel>` and the blueprint directory as module source |
| Materialize.OverrideTargetShape | projectBlueprints.js:130-146 | `Environments/<rel>/<dir>/main.tf` writes `Live/<rel>/<stem of dir>`; for a dir without '.', `Live/<rel>/<dir>`, with module source `Environments/<rel>/<dir>` |
| Materialize.OverrideMeetsBlueprint | projectBlueprints.js:111-143 | an override and a blueprint for the same `<rel>` and environment write the same directory and share one state key |
| Materialize.BlueprintTargetsDistinct | projectBlueprints.js:111 | different blueprints, or different environments, never write the same directory |
| Materialize.BlueprintKeysDistinct | projectBlueprints.js:112 | different blueprints, or different environments, never share a state key |
| Materialize.OverrideTargetsDistinct | projectBlueprints.js:142 | overrides in different directories without '.' never write the same directory |
| Materialize.OverrideWins | projectBlueprints.js:130-157 | an override decides both files of its directory, whatever the blueprints wrote, unless a later override targets it |
| Materialize.BlueprintKept | projectBlueprints.js:99-157 | a blueprint's files for an environment survive when no later blueprint and no override targets that directory |
| Materialize.DiscoveredKept | projectBlueprints.js:99-136 | writes below `Live` leave every glob of a run finding the same files |
| Materialize.RerunChangesNothing | projectBlueprints.js:99-157 | a second run on the files a run left finds the same inputs and changes nothing |
| Schedule.StageDirs | getDeploymentSchema.js:8-12 | one directory per glob result, its `dirname`, in order |
| Schedule.ReadStage | getDeploymentSchema.js:15-16 | a missing manifest fails with `NoSuchFile`, one that is not a list with `NotAList`; otherwise the parsed keys |
| Schedule.ReadStagesAll | getDeploymentSchema.js:14-22 | reading succeeds if and only if every manifest can be read, and then gives each one's keys in order |
| Schedule.FirstFaultReported | getDeploymentSchema.js:14-16 | the run aborts with the fault of the first manifest that cannot be read |
| Schedule.ReadFails | getDeploymentSchema.js:14-16 | once every manifest before it was read, a manifest that cannot be read aborts the run with its own fault |
| Schedule.StagesScheduled | getDeploymentSchema.js:8-16 | each directory read is a `stage` directory below `Live`, read through its own manifest, and none is read twice |
| Schedule.StagesCovered | getDeploymentSchema.js:8-12 | every `stage/main.tf` below `Live` has its directory scheduled |
| Schedule.BlueprintStageRead | getDeploymentSchema.js:15-16 | after projection, the schedule reads for a blueprint's `stage` directory exactly the remote states its sources refer to for `stage` |
| Schedule.Positions | getDeploymentSchema.js:17 | increasing indices, exactly those whose manifest is (or is not) empty |
| Schedule.IndependentAtPositions | getDeploymentSchema.js:14-22 | the first section lists, in order, exactly the directories whose manifest is empty |
| Schedule.DependentAtPositions | getDeploymentSchema.js:17-19 | `dependent` lists, in order, exactly the directories whose manifest is not empty |
| Schedule.SectionsPartition | getDeploymentSchema.js:14-22 | every directory goes to exactly one section, as a multiset of all directories |
| Schedule.EntriesAreBlocks | getDeploymentSchema.js:21-28 | an independent entry has a blank line between `init` and `apply`, a dependent one has none, and the marker is a line of its own |
| Schedule.PlanLines | getDeploymentSchema.js:14-30 | the plan's lines: a blank line, the independent entries, the marker, then the dependent entries |
| Schedule.PlanSections | getDeploymentSchema.js:14-30 | the marker occurs exactly once; the `cd` lines above it name the directories with empty manifests, those below it the others, in order |
| Schedule.SortStages | getDeploymentSchema.js:14-22 | the first reduce returns the first section's text and `dependent`, or the first read fault |
| Schedule.DependentBlock | getDeploymentSchema.js:26-30 | the second reduce returns the dependent entries in order |
| Schedule.GetDeploymentSchema | getDeploymentSchema.js:5-32 | returns exactly the specification plan `DeploymentSchema`, or its fault; a missing root gives the corrected `MissingParameter` fault |
| Schedule.DeploymentSchemaDefault | getDeploymentSchema.js:5-7 | with a root, the entry as written and the corrected one agree; without one, the former fails with the `ReferenceError` for `requiredParam` and the latter names `terraformRoot` |

## Left out

- Directory discovery is not modelled. What `glob.sync` returns is an input: the blueprint and override files, each directory's `*.tf` files, and the stage files. `Discovered` and `StageGlob` say which files those are. Their order is taken as given.
- `fs.ensureDirSync` is left out. Directories are implicit in file paths.
- `console.log` is left out. `GetDeploymentSchema` returns the plan instead of printing it.
- Paths are relative lists of segments, and `Paths.Render` prints them without a leading '/'. For an absolute terraform root such as `/srv/tf`, the source writes `source = "/srv/tf/Blueprints/x"` and prints `cd /srv/tf/Live/x/stage`. The model's `Templates.MakeTfModule` `source` line and `Schedule.CdLine` would show `srv/tf/...` instead. State keys are not affected, since the root is removed from them. The terraform root is assumed to be normalised. A root such as `./x`, which `path.join` rewrites, would make the string `replace` of the source miss. That case is not modelled.
- Read faults other than a missing file (permissions, directories) are left out.
- `requiredParam.js` is not part of this model. Its throw is the `MissingParameter` fault.
- `md5.js` and `saveJsonFile.js` are not part of this model.
- The environment name is inserted literally. `$`-patterns such as `$&` in a replacement string are not modelled.
- Matching is ASCII only:
  - The `i` flag compares ASCII upper case only.
  - `\w` is ASCII word characters.
  - `\s` is the JavaScript white-space set listed in `Text.IsSpace`.
- Schedule.ReadStage: a manifest that is valid JSON but not an array of strings aborts with `NotAList`. Examples are a number array, or a string whose `.length` JavaScript would test. JavaScript would go on and classify such a manifest by `.length`.
- Manifest.ParseManifest: no grammar of JSON arrays of strings independent of the parser is stated. What is proved is the round trip of `ManifestText` and the characterisation of the empty manifest.
- Manifest.ParseManifest: `\u` escapes naming half of a surrogate pair are rejected rather than decoded.
- Materialize.OverrideTargetShape: for an override directory whose name contains '.', the target is given by `Stem`. `parse().name` drops the extension, so `Environments/x/stage.old` writes `Live/x/stage`. The lemmas that identify override targets require names without '.'.
- Schedule.GetDeploymentSchema: uses the corrected default for a missing root (`MissingParameter("terraformRoot")`). The source as written throws a `ReferenceError`, which `Schedule.DeploymentSchemaAsWritten` models.
- Concurrency and the order of file-system side effects beyond the sequence of writes are not modelled.

## Findings

| source | as written | input that shows it | evidently intended | confidence | as-written member | corrected member |
|---|---|---|---|---|---|---|
| getDeploymentSchema.js:6 | the default `requiredParam('terraformRoot')` calls a function the module never imports | `getDeploymentSchema({})` fails with a ReferenceError about `requiredParam`, not the missing-parameter error | a missing root is reported by name, as `projectBlueprints` does | high, not executed | Settings.ResolveScheduleRootAsWritten, Settings.ScheduleRootErrorUnnamed, Schedule.DeploymentSchemaDefault | Settings.ResolveScheduleRoot |
