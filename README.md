# A model of the Vulkan source-generation driver

`scripts/generate_source.py` regenerates the C++ sources under
`utils/generated` from the Vulkan registry (`vk.xml`). `RunGenerators` runs a
fixed table of generators, one per output file. It rejects unknown `--target`
names, runs the selected targets in table order, sets the process-wide
generator settings, and parses the registry afresh for each target. Each
target then drops the `extension` elements that its API list does not support.
`main` picks where the generators write: the repository directory, a scratch
directory in `--verify` and `--incremental` mode, or the `-o` directory. After
generation it verifies the repository against the scratch directory in
`--verify` mode (exit 2, 3 or 4 on the first offending file in sorted order,
0 otherwise). In `--incremental` mode it copies the files that changed into
the repository. In direct mode, where the generators wrote into the
repository itself, it does nothing more. Every mode other than a failed
verify exits 0.

The modules follow the driver's structure:

- `Wrappers`, `Sequences` and `Text` are helpers. `Text` models `str.split(',')`
  and Python's string ordering.
- `Registry` models the registry element tree and the extension filter. The
  filter is both a function and the in-place `DocumentTree` method.
- `Targets` models the generator table, the unknown-target check, target
  selection, the API list and the merged-API setting.
- `Files` models directories as listings from names to bytes.
- `Generation` models `RunGenerators`. The generator's module-level settings
  are the `GeneratorState` class.
- `Reconcile` models the verify scan and the incremental copy.
- `Driver` models `main`.

The generators themselves and the registry loader are one opaque function
(`Generation.Generator`). It maps a generator class, a file name, the settings
in force and the filtered registry to the file's bytes. Running clang-format
over the written file is not modelled (see "## Left out").

Behaviour of the code worth noting:

- A name present only in the generated files is reported as "Missing repo
  file" (exit 2). A name present only in the repository is reported as
  "Missing generator" (exit 3). The check runs in that order, and only then
  compares bytes (exit 4).
- `RunGenerators` returns 1 on an unknown target and Python's `None`
  otherwise. `main` ignores that value, so a bad `--target` ends with
  exit code 0 (line 253).
- The merged-API setting is the single name `vulkan`, not the API list.
- With `-o` and `--verify`, the scratch directory stays empty. The scan then
  stops at the first repository file in sorted order that is not excluded,
  reports "Missing generator" for it, and exits 3. When the repository holds
  only excluded files, the exit is 0 (`VerifyNothingGenerated`). With `-o`
  and `--incremental`, nothing is copied.
- `main` always passes the API `vulkan`, so no target merges
  (`BaseApiNeverMerges`).

## Model

| member | source | states |
|---|---|---|
| Targets.TableKeysAreGeneratorKeys | scripts/generate_source.py:69-102 | The ordered table keys are exactly the dict's keys, each listed once. |
| Targets.UnknownTargets | scripts/generate_source.py:104-105 | The unknown list is empty exactly when every filter entry is a table key. |
| Targets.NotInTable | scripts/generate_source.py:104 | The unknown names are the filter entries that are not table keys. Each one appears as often as the filter repeats it, and in filter order. |
| Targets.SelectFrom | scripts/generate_source.py:110 | A key is selected exactly when the filter is empty or names it. Selected keys keep their table order, and none appears twice. |
| Targets.SelectTargets | scripts/generate_source.py:110 | Every selected target is a table key. |
| Targets.SelectTargetsCharacterised | scripts/generate_source.py:110 | Applies `SelectFrom` to the generator table: every selected target is a table key named by the filter (or the filter is empty), in table order, each once. |
| Targets.SelectAllWithoutFilter | scripts/generate_source.py:110 | No `--target`, or an empty one, runs the whole table in table order. |
| Targets.KnownFilterSelectsItsNames | scripts/generate_source.py:104-110 | A filter with no unknown names runs exactly the targets it names. |
| Targets.ApiList | scripts/generate_source.py:124-127 | The API list starts with the target API. It adds `vulkan` exactly when the API is not `vulkan` and the target is combined. |
| Targets.MergedApiName | scripts/generate_source.py:125-129 | The merged name is set (to `vulkan`) exactly when the API list has a second entry, and it is that entry. |
| Targets.BaseApiInScope | scripts/generate_source.py:124-127 | `vulkan` is in the API list exactly when it is the target API or the target is combined. No API appears twice. |
| Text.Split | scripts/generate_source.py:141 | `sup.split(',')` always gives at least one piece, even for an empty string. |
| Text.SplitPieceCount | scripts/generate_source.py:141 | `sup.split(',')` gives one piece more than `sup` has commas. |
| Text.JoinSplit | scripts/generate_source.py:141 | Joining the pieces of `sup.split(',')` with commas gives back `sup`. |
| Text.SplitPiecesHaveNoSeparator | scripts/generate_source.py:141 | No piece of `sup.split(',')` contains a comma. |
| Text.SplitWithoutSeparator | scripts/generate_source.py:141 | A string without a comma splits into itself alone. |
| Text.SplitAfterPiece | scripts/generate_source.py:141 | Splitting `a + "," + b`, where `a` has no comma, gives `a` followed by the pieces of `b`. |
| Text.LessEq | scripts/generate_source.py:221 | Python's `str` order, as `sorted` uses it: a prefix comes no later than any string it starts. |
| Text.LessEqReflexive | scripts/generate_source.py:221 | Every name is ordered before or equal to itself. |
| Text.LessEqAntisymmetric | scripts/generate_source.py:221 | Two names ordered each way are equal. |
| Text.LessEqTransitive | scripts/generate_source.py:221 | The order is transitive. |
| Text.LessEqTotal | scripts/generate_source.py:221 | Any two names are comparable, so the order is total and `sorted` is well defined. |
| Text.LeastExists | scripts/generate_source.py:221 | Every non-empty set of names has a first element in sorted order. |
| Registry.KeepSupported | scripts/generate_source.py:141 | Filtering the children of one `extensions` element keeps every child that is not an unsupported `extension`, with its multiplicity, and drops the rest. Order is kept. |
| Registry.FilterExtensions | scripts/generate_source.py:141 | Only the children of top-level `extensions` elements change. Every other part of the document stays as it was. |
| Registry.DocumentTree.RemoveUnsupportedExtensions | scripts/generate_source.py:141 | The in-place removal leaves the tree equal to `FilterExtensions` of the tree it started from. |
| Registry.Supports | scripts/generate_source.py:141 | An extension without a `supported` attribute is supported. Under an empty API list, it is supported exactly when it has no such attribute. |
| Registry.Keeps | scripts/generate_source.py:141 | A child that is not an `extension`, or has no `supported` attribute, is never removed. Under an empty API list, exactly those children stay. |
| Registry.SingleTokenSupport | scripts/generate_source.py:141 | With a one-token `supported`, the extension stays exactly when that token is in the API list. |
| Registry.TwoTokenSupport | scripts/generate_source.py:141 | With `supported="a,b"`, the extension stays exactly when `a` or `b` is in the API list. |
| Registry.ExactTokenMatch | scripts/generate_source.py:141 | Tokens match exactly: `vulkansc` does not match the API `vulkan`, and `vulkan,vulkansc` matches `vulkansc`. |
| Registry.KeepSupportedKeepsAll | scripts/generate_source.py:141 | Children that all pass the filter are left unchanged. |
| Registry.KeepSupportedIdempotent | scripts/generate_source.py:141 | Filtering one group's children twice is the same as filtering them once. |
| Registry.FilterExtensionsIdempotent | scripts/generate_source.py:141 | Filtering a whole document twice is the same as filtering it once. |
| Registry.WiderApiListKeepsMore | scripts/generate_source.py:124-127 | Adding APIs to the list (the combined `[api, "vulkan"]`) never removes an extension that the shorter list keeps. |
| Generation.GeneratorState.SetOutputDirectory | scripts/generate_source.py:61-62 | Sets the output directory setting and leaves the other two settings alone. |
| Generation.GeneratorState.SetTargetApiName | scripts/generate_source.py:61-63 | Sets the target API setting and leaves the other two settings alone. |
| Generation.GeneratorState.SetMergedApiNames | scripts/generate_source.py:126-129 | Sets the merged-API setting and leaves the other two settings alone. |
| Generation.TargetOutput | scripts/generate_source.py:116-147 | With the API `vulkan`, a target's file is its generator's output for the settings (directory, `vulkan`, no merged name) and the registry filtered by `["vulkan"]`. |
| Generation.Produced | scripts/generate_source.py:112-151 | Running the given targets writes exactly one file per target name. |
| Generation.ProducedFiles | scripts/generate_source.py:112-151 | Each written file holds what its own generator writes with that target's own settings and API list. Nothing carries over from an earlier target. |
| Generation.RunStatus.ReturnValue | scripts/generate_source.py:105-107 | `RunGenerators` returns 1 exactly on unknown targets, and otherwise `None`. |
| Generation.Written | scripts/generate_source.py:104-151 | An unknown target means no file is written. Otherwise one file is written per selected target. |
| Generation.RunGenerators | scripts/generate_source.py:39-151 | Sets the output directory and target API. On an unknown name it returns the unknown names and writes nothing. Otherwise it adds exactly the selected targets' files to the directory, and the merged-API setting ends as the last target's. |
| Generation.GenerateAll | scripts/generate_source.py:112-151 | The target loop adds each target's file to the directory, in order. |
| Generation.GenerateTarget | scripts/generate_source.py:116-147 | One target sets the merged-API name, filters a fresh tree by its API list, and writes its generator's output. |
| Generation.BaseApiNeverMerges | scripts/generate_source.py:124-129 | With the API `vulkan`, every API list is `["vulkan"]` and no merged name is set. |
| Reconcile.Examined | scripts/generate_source.py:219-221 | The scan looks at exactly the names in either directory that are not excluded. |
| Reconcile.Check | scripts/generate_source.py:224-238 | A name passes exactly when both directories hold it with equal bytes. Otherwise it is reported by name: "Missing repo file" exactly when the repository lacks it, "Missing generator" exactly when only the generated files lack it, else a content mismatch. |
| Reconcile.Changed | scripts/generate_source.py:248-249 | Only generated files are copied. Nothing is copied exactly when the repository already holds every generated file with the same bytes. |
| Reconcile.ExitCode | scripts/generate_source.py:226-253 | Verify mode returns 0 exactly on success; otherwise it returns 2, 3 or 4. |
| Reconcile.VerifyOutcome | scripts/generate_source.py:219-241 | Success holds exactly when every examined name is in both listings with equal bytes. Otherwise the report names the least failing name in string order, with that name's own reason. |
| Reconcile.Verify | scripts/generate_source.py:219-241 | The scan over the sorted names returns `VerifyOutcome`. |
| Reconcile.FirstOffender | scripts/generate_source.py:221-238 | When every name before the first failing one passes, that name's check decides the outcome. |
| Reconcile.ExclusionsIgnored | scripts/generate_source.py:160-162 | Files in `verify_exclude` never change the outcome, whatever they hold. |
| Reconcile.IdenticalListingsVerify | scripts/generate_source.py:219-241 | Identical listings verify. |
| Reconcile.SingleDifferenceIsMismatch | scripts/generate_source.py:230-238 | One differing file, with the same names on both sides, is reported as a content mismatch of that file. |
| Reconcile.ExtraRepoFileIsMissingGenerator | scripts/generate_source.py:227-229 | A repository file that is not generated is reported as "Missing generator" for that name. |
| Reconcile.ExtraGeneratedFileIsMissingRepoFile | scripts/generate_source.py:224-226 | A generated file absent from the repository is reported as "Missing repo file" for that name. |
| Reconcile.PublishChanged | scripts/generate_source.py:245-251 | The repository ends with every generated file's bytes and keeps its other files. The copied names are exactly the missing or differing ones, each copied once. |
| Reconcile.PublishIdempotent | scripts/generate_source.py:245-251 | A second incremental run copies nothing. |
| Reconcile.VerifyAfterPublish | scripts/generate_source.py:219-251 | After an incremental copy, verify can only fail with "Missing generator". |
| Reconcile.VerifyAfterPublishSucceeds | scripts/generate_source.py:219-251 | After an incremental copy, verify succeeds when every non-excluded repository file is generated. |
| Reconcile.VerifyNothingGenerated | scripts/generate_source.py:210-229 | With nothing generated, verify succeeds exactly when every repository file is excluded. Otherwise it reports "Missing generator". |
| Driver.ChooseWorkDir | scripts/generate_source.py:200-211 | `-o` wins. Otherwise output goes to the scratch directory exactly in verify or incremental mode, and to the repository directory otherwise. |
| Driver.Generate | scripts/generate_source.py:200-214 | The generators run once, with API `vulkan`, into the chosen directory, and their result is dropped. The scratch directory then holds the generated files unless `-o` is given. Without `-o`, the `-o` directory is untouched. With `-o`, the repository is untouched unless it is the `-o` directory. |
| Driver.CompareOrCopy | scripts/generate_source.py:216-253 | Verify mode returns the scan's exit code and leaves the repository alone. Incremental mode merges the generated files into it and returns 0. Any other mode returns 0. |
| Driver.GenerateSource | scripts/generate_source.py:157-253 | Exit code is 0 unless in verify mode, where it is the exit code of the scan of the scratch directory against the repository. Every directory ends with exactly the files the chosen mode writes. |

## Left out

- The generator classes, `Registry`, `loadElementTree` and `apiGen` are not
  part of this model. They are one opaque function from generator class,
  file name, settings and filtered registry to bytes. The per-entry `options`
  key is never present in the table, so its empty default is not modelled.
- clang-format (lines 41-43 and 150-151) and the GitHub Actions version probe
  (lines 178-184) depend on the environment and an external tool, and are
  left out.
- Patching `api_version` into the two JSON layer manifests (lines 187-198) is
  file I/O unrelated to the generated sources, and is left out.
- The printed messages are left out: progress lines, the `ERROR` lines and
  the unified diff of lines 232-237. The report datatype records which
  message would be printed.
- Argument parsing (lines 164-172), `repo_relative` and the registry path
  (line 213) are left out. `main` takes the parsed arguments, the two
  directory paths and the registry document.
- Argparse also makes `--target`, `-i` and `-v` mutually exclusive. The model
  accepts every combination and follows the code's `if`/`elif`, so verify
  wins over incremental.
- Driver.Generate: the scratch directory's removal at exit and its random name
  are not modelled. The name is a parameter.
- Reconcile.PublishChanged: the order of `os.listdir` is unspecified. The loop
  takes the names in any order, and the contract does not fix the order of
  the copied-names log.
- Failures of the steps themselves are not modelled: the model assumes every
  step succeeds. In the code, each of the following ends the run with exit 1
  and a traceback:
  - a generator or `ElementTree.parse` (line 138) raising;
  - a missing `-o` directory;
  - `shutil.copyfile` failing (line 251);
  - a mismatching file that is not valid text in the locale's encoding, which
    makes `readlines()` (lines 233-234) raise before exit 4.
  `Generation.Generator` is total, and `RunGenerators` and `PublishChanged`
  always complete.
- Subdirectories are not modelled. `os.listdir` also lists them, and
  `filecmp.cmp` counts them as mismatches. A `Files.Listing` holds regular
  files only.
- XML text content, attribute order and the rest of `ElementTree` are left
  out. Elements are a tag, an attribute map and a list of children.
