# Deployment revision worker

This project models the `Worker` of the deploy-revision library in Dafny. The
worker collects versioned deployment commands from YAML playbooks. It keeps a
command only when the command has not already been applied to the
environment, lets a caller's policy prune the commands, and runs them. It then
saves a revision record so the next run skips the work already done.

The lifecycle is: construct, `read` one or more times, optionally `filter`,
then `deploy`, then `commit`.

- `Types` (`types.dfy`) holds the data model:
  - a playbook already parsed into groups of `(version, value)` entries;
  - command values, which are a string, a list, or anything else;
  - a `read` target: a directory listing, a single file, or a missing path;
  - the saved revision record and the error kinds.
- `Ordering` (`ordering.dfy`) holds the two `ksort` orders (paths byte-wise,
  versions numerically) and the subsequence relation used to state order
  preservation.
- `Aggregate` (`aggregate.dfy`) is the functional specification of `read`:
  - which paths are playbooks and which groups apply;
  - the two-level version gate over the live `completed` map;
  - how accepted commands join their version's slot;
  - flattening in ascending version order;
  - the idempotence of a re-run after the revision is saved.

  Its defining functions:
  - `GateStep` is one pass of the inner loop (src/Worker.php:232-240).
  - `Accept` is the update of a taken entry (src/Worker.php:237-240).
  - `ProcessEntries` is the inner loop over a document's entries
    (src/Worker.php:230-241).
  - `PlaybookEffect` is `processPlaybook` (src/Worker.php:212-243).
  - `ReadEffect` is `read` (src/Worker.php:87-107).
  - `Flatten` is the version-ordered walk of `filter`
    (src/Worker.php:132-135).
- `Filtering` (`filtering.dfy`) is the functional specification of `filter`:
  - the insertion-ordered, de-duplicating set of retained commands
    (PHP array key semantics);
  - the resolver closure;
  - the caller's policy as a function value;
  - the refusal of non-string entries.

  Its defining functions:
  - `CommandStrings` is the string check (src/Worker.php:137-142).
  - `Victim` is the key the policy names for removal (src/Worker.php:146).
  - `FilterOutcome` is the whole of `filter` on read commands
    (src/Worker.php:128-171).
- `DeployWorker` (`worker.dfy`) is the `Worker` class itself. Its fields are
  `deployed`, `environment`, `versionFile`, `currentCodeVersion`,
  `newCodeVersion`, `completed` and `commands`. Its methods update them in
  place with the same loops as the source. Each method is proved against the
  specification functions above, under the class invariant `Valid`.
  `Scheduled` is the list `deploy` hands to the action
  (src/Worker.php:179-188).
- `Scenarios` (`scenarios.dfy`) holds concrete instances:
  - The filtering scenarios come from `testDeployFiltering`
    (tests/DeployRevisionTest.php:264-286). They apply its policy to the
    command lists that the ordering test expects
    (tests/DataProviders.php:42-93).
  - The gate scenarios on marked and unmarked playbooks come from the code
    (src/Worker.php:232-240), not from a repository test.
  - The cycle of deploy, redeploy, commit and the next run also comes from
    the code (src/Worker.php:177-210).

Two behaviours of the gate are easy to misread:

- A playbook's marker holds the version of the last entry taken
  (src/Worker.php:239), even though the field comment at
  src/Worker.php:44 calls the markers the latest deployed versions. So a
  playbook listing version 5 before version 3 is marked 3
  (`Scenarios.MarkerFollowsDocumentOrder`).
- The gate reads the live marker map, which the same loop writes
  (src/Worker.php:232, 239). So an unmarked playbook contributes its first
  entry, whatever its version. That entry marks it, and its later entries
  that are not newer than the current version are skipped
  (`Aggregate.GateClosedForm`, `Scenarios.UnmarkedPlaybookTakesFirst`).
- `testDeploySkipVersion` (tests/DeployRevisionTest.php:215-237) reads
  `tasks.yml` at current version 2000 and expects no command. Under this gate
  that expectation holds only in two cases:
  - the loaded revision already marks `tasks.yml`
    (`Aggregate.SettledDocumentIsSkipped`);
  - or the file's first applicable entry normalises to nothing.

  Without a marker, the first entry is taken whatever its version
  (`Aggregate.AdmittedStartsWithFirst`). The test also sets the current
  version through reflection and leaves the new version below it. The class
  invariant `Valid` (current version at most the new version) does not
  cover that state.

## Model

| member | source | states |
|---|---|---|
| Ordering.AscendingPaths | src/Worker.php:94-101 | a directory's entries each once, every path strictly before the next in byte-wise order |
| Ordering.AscendingVersions | src/Worker.php:132 | the stored versions each once, strictly ascending |
| Ordering.IncreasingUnique | src/Worker.php:132 | two strictly ascending version lists with the same members are the same list, so the sorted order is unique |
| Aggregate.PlaybookPathSuffix | src/Worker.php:214-216 | a path is read as a playbook exactly when it ends in `.yml` or `.yaml` |
| Aggregate.NonPlaybookIgnored | src/Worker.php:214-216 | a file with any other extension leaves commands, markers and the new version unchanged |
| Aggregate.Compact | src/Worker.php:238 | `array_filter` keeps exactly the truthy entries and never adds any |
| Aggregate.CompactConcat | src/Worker.php:238 | `array_filter` works entry by entry: filtering a concatenation is concatenating the filtered parts |
| Aggregate.NormalizedShapes | src/Worker.php:238 | a single string becomes one command unless it is `""` or `"0"`; a list keeps exactly its truthy entries; no falsy entry is ever stored |
| Aggregate.DocEntriesSelects | src/Worker.php:224-228 | an entry is considered exactly when it sits in the `global` group or the worker's environment group |
| Aggregate.ProcessEntriesConcat | src/Worker.php:224-241 | gating the entries of two groups one after the other is gating their concatenation, since the marker map carries over |
| Aggregate.Admitted | src/Worker.php:232 | the entries the gate lets through keep their document order |
| Aggregate.GateClosedForm | src/Worker.php:230-241 | the live gate takes exactly the `Admitted` entries: every entry newer than the current version, plus the first entry of an unmarked document |
| Aggregate.AdmittedStartsWithFirst | src/Worker.php:232 | an unmarked document always contributes its first entry, whatever its version |
| Aggregate.AdmittedKeepsNewer | src/Worker.php:232 | every entry newer than the current version is taken, marked or not |
| Aggregate.AdmittedNoneWhenSettled | src/Worker.php:232 | a marked document whose versions are all old contributes no entry |
| Aggregate.SettledDocumentIsSkipped | src/Worker.php:232 | reading such a document changes nothing at all |
| Aggregate.AcceptAllMarker | src/Worker.php:239 | after taking entries, the document's marker is the version of the last one taken, and other markers are unchanged |
| Aggregate.MarkerIsLastTaken | src/Worker.php:239 | after a document is read, its marker is the last admitted version, which need not be the highest |
| Aggregate.AcceptAllNewVersion | src/Worker.php:240 | the new version never drops, bounds every taken version, and is either unchanged or one of them |
| Aggregate.NewVersionRises | src/Worker.php:240 | reading a document never lowers the new version and leaves it at least every admitted version |
| Aggregate.AcceptSlot | src/Worker.php:237-238 | taking an entry appends its commands to its own version's slot and leaves every other slot alone |
| Aggregate.AcceptAllSlot | src/Worker.php:237-238 | taken commands are appended after what a version's slot already held, in the order taken |
| Aggregate.AcceptAllSlotExists | src/Worker.php:237 | a version has a slot exactly when it had one or an entry of that version was taken |
| Aggregate.GateStepConsistent | src/Worker.php:237-240 | one gate step keeps every stored version at most the new version and every stored entry truthy |
| Aggregate.FlattenTruthy | src/Worker.php:238 | the flattened commands of a consistent ledger hold no falsy entry |
| Aggregate.FlattenAlongConcat | src/Worker.php:134-135 | flattening along two runs of versions is concatenating their flattenings |
| Aggregate.AscendingAround | src/Worker.php:132 | the ascending versions split around a stored version into those below it, it, and those above it |
| Aggregate.FlattenSplit | src/Worker.php:132-135 | in the flattened commands, every lower version's commands precede version `v`'s, which keep insertion order, and every higher version's follow |
| Aggregate.ReadingSettles | src/Worker.php:230-241 | once a document is read, it is marked (or has no entries) and none of its versions exceeds the new version |
| Aggregate.SettledIsSkipped | src/Worker.php:232 | a settled document read again at the saved version changes nothing |
| Aggregate.FilesSettle | src/Worker.php:99-101 | reading a directory settles every playbook in it and never drops the new version below the current one |
| Aggregate.SettledFilesAreSkipped | src/Worker.php:99-101 | a directory of settled playbooks read again changes nothing |
| Aggregate.RereadAfterSaveIsNoOp | src/Worker.php:87-107 | once a run's revision is saved, reading the same directory or file in the next run queues no command and changes no marker or version |
| Filtering.Insert | src/Worker.php:144 | assigning a key keeps an existing key's position and appends a new one, without duplicates |
| Filtering.Remove | src/Worker.php:146 | `unset` drops exactly the named key and keeps keys unique |
| Filtering.RemoveKeepsOrder | src/Worker.php:146 | removing a key keeps the other keys in relative order |
| Filtering.RemoveAbsent | src/Worker.php:146 | removing an absent key (such as `""`) changes nothing |
| Filtering.RemoveAt | src/Worker.php:146 | removing the key at a position closes the gap |
| Filtering.ReinsertGoesLast | src/Worker.php:144-146 | a key removed and then assigned again goes to the end |
| Filtering.FirstMatch | src/Worker.php:157-163 | the scan finds the first retained key in `existing_commands`, or reports that none is there |
| Filtering.Resolver | src/Worker.php:146-167 | `""` unless the command is one of `current_commands`; otherwise the first retained key in `existing_commands` (or the command itself when `return_previous` is false), and `""` when none matches |
| Filtering.FilterStep | src/Worker.php:144-167 | after one step, the key the policy named is absent, every other retained key and the new command are present, and keys stay unique |
| Filtering.FilterAll | src/Worker.php:133-171 | the filter loop yields unique commands, all taken from its input |
| Filtering.FilterStepKeepsOrder | src/Worker.php:144-167 | one step keeps the retained keys in relative order, with the new command at the end if newly added |
| Filtering.FilterKeepsOrder | src/Worker.php:133-171 | whatever the policy, the filtered commands are a subsequence of the flattened input |
| Filtering.KeepFirst | tests/DataProviders.php:42-93 | the flattened commands with every later repetition dropped: the same members, each once |
| Filtering.FilterWithoutRemovals | src/Worker.php:183-185 | with a policy that names nothing, the filter keeps each command where it first occurs |
| Filtering.CommandStringsShape | src/Worker.php:137-142 | the entries convert exactly when all are strings, entry for entry; otherwise the error names the first entry that is not a string |
| Filtering.CommandStringsPrefixError | src/Worker.php:137-142 | a bad entry early on decides the outcome whatever follows |
| Filtering.FilterItemsShape | src/Worker.php:133-171 | on entries: no duplicates, only given commands in their order, or the first non-string entry as the error |
| Filtering.FilterOutcomeShape | src/Worker.php:128-172 | `filter` on grouped commands yields unique commands from the playbooks in version-ascending order, or fails naming the first non-string entry |
| Filtering.FilterOutcomeWithoutRemovals | src/Worker.php:179-186 | with truthy stored entries, the filter `deploy` runs gives the flattened commands with later duplicates dropped |
| DeployWorker.ScheduledGrouped | src/Worker.php:177-188 | `deploy` on read commands runs each distinct command once, versions ascending, or cannot start and names the first non-string entry |
| DeployWorker.Worker.constructor | src/Worker.php:65-82 | the revision file is the base name, a dash and the environment; markers and both versions come from the saved record, with absent keys as empty markers and 0; nothing is queued or deployed |
| DeployWorker.Worker.Create | src/Worker.php:67-69 | construction fails with `ParserUnavailable` exactly when the parser is unavailable |
| DeployWorker.Worker.CurrentCodeVersion | src/Worker.php:112-115 | the current version never exceeds the new version |
| DeployWorker.Worker.NewCodeVersion | src/Worker.php:120-123 | the new version is at least the current version and at least every queued version |
| DeployWorker.Worker.Take | src/Worker.php:230-241 | one pass of the inner loop is one gate step on the ledger, keeping the class invariant and the current version |
| DeployWorker.Worker.ProcessGroup | src/Worker.php:230-241 | the inner loop over one group gates its entries in order |
| DeployWorker.Worker.ProcessPlaybook | src/Worker.php:212-243 | `processPlaybook` has the effect `PlaybookEffect` specifies |
| DeployWorker.Worker.ReadFiles | src/Worker.php:99-101 | the directory loop processes the files in the given order |
| DeployWorker.Worker.Read | src/Worker.php:87-107 | `read` has the effect `ReadEffect` specifies: a directory in ascending path order, a single file, or nothing for a missing path; the current version and the deployed flag are unchanged |
| DeployWorker.Worker.Filter | src/Worker.php:128-172 | grouped commands become the filtered flat list, or the worker is left unchanged with the error; a flat list becomes empty; versions and markers are untouched |
| DeployWorker.Worker.Deploy | src/Worker.php:177-193 | the action runs on a prefix of the scheduled list in order; on success every command ran once, commands are emptied and the worker is deployed; a failing action stops the run on the command it failed on; a non-string entry stops it before any action |
| DeployWorker.Worker.Commit | src/Worker.php:198-210 | `NotDeployed` before a deployment, `PersistError` naming the revision file when it cannot be written, otherwise the record of the new version and the markers for that file |
| DeployWorker.RunActions | src/Worker.php:188 | the action runs on a prefix of the list in order; the run stops exactly when the action fails, on the last command run |
| DeployWorker.FilterVersions | src/Worker.php:132-135 | the version loop of `filter` computes `FilterItems` of the commands flattened along the versions given |
| DeployWorker.FilterSlot | src/Worker.php:135-169 | the command loop over one version extends the filtered commands, or stops with the first non-string entry |
| DeployWorker.RetainStep | src/Worker.php:144-167 | one pass of the command loop is one `FilterStep` |
| DeployWorker.FirstInvalidStops | src/Worker.php:137-142 | a non-string entry in one version's slot makes the whole flattened list fail with that entry |
| Scenarios.PolicyKeeps | tests/DeployRevisionTest.php:269-279 | the test policy removes nothing for a command other than the two cache clears, and other than `drush updb` once `drush cc all` is retained |
| Scenarios.PolicyRefusesCacheClear | tests/DeployRevisionTest.php:275-278 | the test policy refuses a new `drush cc all` once `drush updb` is retained |
| Scenarios.FilteringRegularOrder | tests/DataProviders.php:95-124 | with the playbook file first, the test policy leaves `drush updb`, `drush cc drush`, `print bla bla` |
| Scenarios.FilteringReverseOrder | tests/DataProviders.php:95-124 | with the directory first, the test policy leaves the same three commands |
| Scenarios.MarkedPlaybookSkipsOld | src/Worker.php:232 | a marked playbook read at version 5 contributes only its version-6 entry |
| Scenarios.UnmarkedPlaybookTakesFirst | src/Worker.php:232-239 | an unmarked playbook read at version 5 contributes its old first entry, then only newer ones |
| Scenarios.MarkerFollowsDocumentOrder | src/Worker.php:239-240 | versions 5 then 3 leave the marker at 3 and the new version at 5 |
| Scenarios.DeployCycle | src/Worker.php:177-210 | after a successful deployment, deploying again runs nothing, and the next run on the committed revision runs nothing |

## Left out

- File-system access is not modelled: directory listing, `file_exists`,
  reading playbooks and writing the revision file. A directory is given as
  a map from path to parsed playbook. The revision files on disk are a map
  from path to parsed record. A failed write is the `writable` flag of
  `Commit`.
- YAML parsing and dumping are not modelled: `src/Yaml.php` and the Spyc
  parser. Playbooks arrive already parsed, and `Stored` stands for dumping
  and re-parsing a record. Whether the parsers round-trip is outside the
  model. So is the constructor's parser check beyond a boolean.
- The logger call for a missing path is left out. A missing target changes
  nothing.
- The service container in `src/DeployRevision.php` and the interfaces are
  left out. They hold wiring and no behaviour.
- A subdirectory inside a read directory is an entry with an empty playbook.
  PHP reads nothing from a directory, so it has no `commands`. Like every
  entry, it is ignored unless its name ends in `.yml` or `.yaml`.
- PHP loose typing is not modelled:
  - versions are integers, not numeric strings;
  - `in_array` compares strictly;
  - a nested mapping inside a command list is one opaque entry;
  - a mapping placed directly under a version is one opaque entry, so
    `filter` refuses it; PHP's `(array)` keeps the mapping
    (src/Worker.php:238) and would queue its string values;
  - integer-like command strings used as array keys are not renumbered.
- DeployWorker.Worker.Read: reading is modelled only before `filter`, or
  once the commands are empty again. Reading after a non-empty `filter`
  would mix flat and grouped commands in one PHP array.
- DeployWorker.Worker.Deploy: an action that throws is modelled as one that
  returns `false`. The commands it did not reach are not run, and the
  worker stays undeployed, as when the exception propagates.
- The policy is modelled as a function value that receives the command, the
  retained keys and the resolver. A policy with side effects, or one whose
  result is not a string, is outside the model.
- Filtering.KeepFirst: the ordering tests' fixture playbooks are not part of
  this model. The scenarios state the filtering test on the command lists
  that the ordering test expects, not on the fixture files.
