# tasktree `TaskCache`, modelled in Dafny

tasktree keeps its task hierarchy in Taskwarrior. Each task names its parent with a `partof` uuid. `TaskCache` (src/task.rs) is tasktree's in-memory mirror of the tool's records. It holds two maps:

- tasks: uuid to task record.
- children: parent uuid to the uuids of its active children, in export order.

This project models the cache and the logic around it:

- `refresh` reloads everything and rebuilds the index.
- `update` reloads one entry.
- `get_project_name` derives a project name from a task's ancestors.
- `get_task` reads a task after two optional repairs:
  - the `set_project` feature keeps the task's project equal to the derived name;
  - the `set_project_tag` feature keeps the tag `project` on exactly the tasks that are parents.
- `create` adds a task and finds its uuid in the tool's feedback.
- `get_tasks` parses the uuids the tool lists.

The external tool becomes a `TaskStore` object. Its `records` field is what `task export` prints, in order. Its `log` field lists the modification commands issued, oldest first. A command changes every record with the targeted uuid. `task export uuid:<u>` prints the records with uuid `u`, in order.

Modules:

- Base: Option, Result and the error kinds. NotInCache, NoExportRecord and NoUuidInFeedback stand for the three messages src/task.rs attaches. UuidSyntax stands for the error of `Uuid::parse_str`. CyclicParents has no counterpart in the source: it marks where the source's parent walk would never end.
- Text: lower-casing, whitespace removal, `join` and `split_whitespace`.
- Uuids: uuids as canonical lower-case hyphenated text, the feedback scan, and `Uuid::parse_str`.
- Tasks: the task record.
- Store: the tool.
- Index: what `refresh` derives.
- Ancestry: the parent walk.
- Repair: `get_task` as a function of the cache and the tool.
- Cache: the `TaskCache` class and `get_tasks`.

The two features are compile-time `cfg!` switches in the source. Here they are `const` fields of the cache, fixed by the constructor.

Each method that loops or changes state is proved against a specification function:

- `Refresh` against `ChildIndex` and `Loaded`.
- `GetProjectName` against `ProjectName`.
- `Update` against `Reload`.
- `GetTask` against `ReadWithRepair`.
- `Create` against `Reload`, after the new task is added to the tool.
- `GetTasks` against `ParseAll`.

The main results are stated about those functions:

- After a refresh, the index lists exactly the active children of each parent, in export order. Every list is non-empty.
- The task map takes each exported task under its own uuid, the last duplicate winning. Entries for uuids absent from the export are kept.
- A derived project name has no whitespace and no upper case. It is None exactly for a root task. It reads only parents and descriptions.
- A successful `get_task` with the tag feature on returns a task that has the tag `project` exactly when it is a key of the index.
- After one successful read with the tag feature on, a second read with the same index issues no tag command. This holds with or without the project feature and whether or not the cache agreed with the tool. With the tag feature alone, the second read repeats the first exactly.
- With the `set_project` feature, reading the same task a second time is proved to issue no command and return the same task when two conditions hold:
  - the tool's record for the task agrees with the cache;
  - the derived name is not the empty string.
- Without either condition, a second read can issue another `project:`:
  - A task whose parent changed in the tool gets its parent only from the first read's reload.
  - A name that `project:` cannot store is repaired again on every read.

## Model

| member | source | states |
|---|---|---|
| Text.LowerChar | src/task.rs:175 | lower-casing leaves no upper-case letter, keeps whitespace, and leaves every other character as it is |
| Text.Lower | src/task.rs:175 | the lower-cased text has the same length, no upper-case letter, and each character lower-cased in place |
| Text.Strip | src/task.rs:175-178 | removing whitespace leaves no whitespace, never lengthens the text, adds no upper-case letter, and leaves whitespace-free text unchanged |
| Text.StripAppend | src/task.rs:175-178 | removing whitespace distributes over concatenation |
| Text.StripAllWhitespace | src/task.rs:175-178 | nothing is left exactly when the text was all whitespace |
| Text.Join | src/task.rs:175 | joining no parts gives the empty text; the first part is a prefix of the result; no part is longer than the result |
| Text.Normalize | src/task.rs:175-178 | a normalised name has no whitespace and no upper-case letter |
| Text.NormalizeAppend | src/task.rs:175-178 | normalising distributes over concatenation |
| Text.NormalizeJoin | src/task.rs:175-178 | normalising the dotted join equals joining the normalised descriptions, since "." is neither whitespace nor upper case |
| Text.Tokens | src/task.rs:191 | every token of `split_whitespace` is non-empty and whitespace-free |
| Text.TokensEmpty | src/task.rs:191 | output has no tokens exactly when it is empty or all whitespace |
| Text.TokensConcat | src/task.rs:191 | the tokens, concatenated, are the output with its whitespace removed |
| Text.TokensOfJoin | src/task.rs:191 | words listed with one whitespace character between them split back into the same words |
| Uuids.FirstMatchFrom | src/task.rs:92-95 | the result is the leftmost position from `i` where the 8-4-4-4-12 lower-hex pattern matches; None means no match from `i` on |
| Uuids.ExtractUuid | src/task.rs:80-95 | the uuid taken from the feedback is the first pattern match; NoUuidInFeedback exactly when nothing matches |
| Uuids.ParseUuid | src/task.rs:192 | parsing succeeds exactly for the hyphenated spelling with hex digits of either case; the uuid is the lower-cased text, and canonical text parses to itself |
| Store.ProjectCommand | src/task.rs:197-201 | `project(u, p)` sends `project:` for `u` with `p`'s text, or the empty value for None |
| Store.NewTask | src/task.rs:82-90 | `task add` creates a pending task with the given uuid, description and parent, no project and no "project" tag |
| Store.Feedback | src/task.rs:86-95 | the feedback of `task add rc.verbose=new-uuid` holds the new uuid at a fixed position; `Store.FeedbackNamesTask` shows the scan finds it |
| Store.Without | src/task.rs:265-273 | removing a tag leaves exactly the other tags |
| Store.Applied | src/task.rs:196-273 | a command keeps the uuid; `+tag` leaves the tag present and `-tag` leaves it absent; `project:v` stores v, and an empty v clears the project; project and tag commands keep parent, description and status; tag commands keep the project and `project:` keeps the tags |
| Store.ApplyAll | src/task.rs:196-273 | a command changes each record independently and never the number of records |
| Store.Exported | src/task.rs:155-163 | `task export uuid:<u>` lists only records of `u` that are in the store, and is empty exactly when the store has no record of `u` |
| Store.ExportedApplyAll | src/task.rs:155-163 | exporting `u` after a command equals applying the command to the earlier export of `u` |
| Store.FirstExportedAfter | src/task.rs:160-163 | the first record exported for `u` after a command is the first one before, changed by the command when it targets `u` |
| Store.FeedbackNamesTask | src/task.rs:82-95 | the feedback of `task add` yields the created task's uuid |
| Store.TaskStore.Run | src/task.rs:196-273 | a modification changes every record with the target uuid and is appended to the log |
| Store.TaskStore.Add | src/task.rs:82-91 | `task add` appends a pending task without project or tags, issues no modification, and prints feedback naming the new uuid |
| Index.ChildIndex | src/task.rs:100-112 | the index `refresh` builds has a key for each parent of an active exported task, and no list is longer than the export; its contents are stated by `Index.ChildIndexCharacterized` and `Index.ChildIndexSnoc` |
| Index.ChildrenOf | src/task.rs:102-110 | a parent's list is never longer than the export |
| Index.ChildrenOfMembers | src/task.rs:102-110 | a uuid is in a parent's list exactly when the export holds an active child of that parent with that uuid |
| Index.ParentsMembers | src/task.rs:102-110 | a uuid is a parent exactly when the export holds an active task that names it in `partof` |
| Index.ChildIndexCharacterized | src/task.rs:100-112 | after a refresh, the index has a key exactly for each parent of an active exported task, every list is non-empty and holds exactly the active children, and a task exported only as completed or deleted is in no list |
| Index.ChildrenOfDistinct | src/task.rs:106-109 | when the export has no duplicate uuids, no child appears twice in a list |
| Index.ChildIndexSnoc | src/task.rs:102-112 | one more exported task appends its uuid to its parent's list, creating the list if needed, when it is active and has a parent; otherwise the index is unchanged |
| Index.LastWith | src/task.rs:113 | the chosen record has the uuid and no later record has it |
| Index.LastWithIsLast | src/task.rs:113 | a record with no later record of its uuid is the one that remains |
| Index.Loaded | src/task.rs:113 | after loading, the keys are the old keys plus the exported uuids; each exported task is stored under its own uuid, the last duplicate winning; entries for uuids not exported are kept |
| Index.LoadedSnoc | src/task.rs:113 | loading one more task overwrites its own entry only |
| Ancestry.Climb | src/task.rs:169-173 | the walk from a task yields no description exactly when the task has no parent, and never more descriptions than there are tasks it may still enter |
| Ancestry.AncestorDescriptions | src/task.rs:168-173 | an uncached task is NotInCache; a cached task has no ancestors exactly when it has no parent; it has fewer ancestors than the cache has tasks |
| Ancestry.ProjectName | src/task.rs:167-182 | an uncached task is NotInCache; the name is None exactly for a cached task without parent; a name has no whitespace and no upper-case letter |
| Ancestry.ClimbMonotone | src/task.rs:170-173 | a walk that does not revisit a task is unaffected by allowing it to enter more tasks |
| Ancestry.ClimbAvoidsChild | src/task.rs:170-173 | a walk that cannot enter a parent never passes through that parent's child |
| Ancestry.AncestorsUnfold | src/task.rs:169-173 | a root has no ancestors, an uncached parent is NotInCache, a task that is its own parent is cyclic, and otherwise a task's ancestors are its parent's ancestors followed by the parent's description |
| Ancestry.ClimbSameLinks | src/task.rs:170-173 | the walk depends only on parents and descriptions |
| Ancestry.ProjectNameSameLinks | src/task.rs:167-182 | changing only projects or tags, as the repairs do, leaves every derived name as it was |
| Ancestry.ThreeLevelName | src/task.rs:167-182 | under "Foo", "Bar" and "Baz", the grandchild's name is "foo.bar", the child's is "foo" and the root has none |
| Ancestry.FooBarNormalized | src/task.rs:174-178 | "Foo" and "Bar" normalise and join to "foo" and "foo.bar" |
| Repair.Reload | src/task.rs:154-166 | `update(u)` returns and stores the first exported record of `u` (not a later duplicate) under the key `u`, leaves every other entry and the tool unchanged, and fails with NoExportRecord, changing nothing, when the export is empty |
| Repair.ProjectFix | src/task.rs:119-129 | the project policy issues nothing exactly when the cached project equals the derived name; otherwise it issues `project:` for `u`, which stores the derived name (or clears the project for a root); a failing name derivation is passed on |
| Repair.TagFix | src/task.rs:134-147 | removal iff the tag is present and the task is no parent, addition iff absent and a parent, nothing iff the two agree; the command it issues leaves the tag as the index wants |
| Repair.ProjectStep | src/task.rs:118-132 | with the project feature, a settled task costs no command and no change; otherwise exactly the project command is issued and applied to the tool's records, and `u` reloaded. The reload fails with NoExportRecord, leaving the cache unchanged, exactly when the tool has no record of `u`. On success the entry of `u` is the tool's first record with the command applied, so its project is the stored derived name. Failures of the name are passed on unchanged; a step that issues nothing changes nothing; only `u`'s entry changes |
| Repair.TagStep | src/task.rs:133-151 | with the tag feature, an uncached task is NotInCache; when tag and index agree nothing is issued; otherwise exactly one `-project` or `+project` is issued and applied to the tool's records, and `u` reloaded. The reload fails with NoExportRecord, leaving the cache unchanged, exactly when the tool has no record of `u`. On success the entry of `u` is the tool's first record with the command applied, and its tag is as the index wants; a step that issues nothing changes nothing |
| Repair.FramesCompose | src/task.rs:117-153 | the two repair steps together issue at most two commands, all aimed at `u`, and change no other entry |
| Repair.ReadWithRepair | src/task.rs:117-153 | an uncached task is NotInCache and nothing happens; a result is the cache's entry for `u`; the keys and every other entry are unchanged; at most two commands are issued, all for `u`; with both features off the read is a plain lookup; with the tag feature the returned task has the tag exactly when it is a parent |
| Repair.SettledIsQuiet | src/task.rs:117-153 | a task both enabled policies accept is read without any command and without any change |
| Repair.ReloadAfter | src/task.rs:154-166 | the reload after a command aimed at `u` fails exactly when the tool has no record of `u`; a successful one yields the command applied to the record the tool exported first before |
| Repair.RepairReload | src/task.rs:154-166 | reloading after a project or tag command stores the changed record, keeps parents and descriptions, and keeps cache and tool in agreement |
| Repair.ProjectStepSettles | src/task.rs:118-132 | on a task whose record agrees with the cache and whose name is derivable and not empty, the project step succeeds and leaves the project as the policy wants, with parents and descriptions unchanged |
| Repair.TagStepSettles | src/task.rs:133-151 | on a task whose record agrees with the cache, the tag step succeeds and leaves the tag as the index wants, with project, parents and descriptions unchanged |
| Repair.RepairSettles | src/task.rs:117-153 | reading a task whose record agrees with the cache, with a derivable non-empty name, succeeds; afterwards both policies accept it, cache and tool still agree, and its derived name is unchanged |
| Repair.RepairIdempotent | src/task.rs:117-153 | reading the same task again, with the tool unchanged, issues no command and returns the same result; a read that failed on the name fails again the same way |
| Repair.TagOnlyIdempotent | src/task.rs:133-152 | with only the tag feature, a second read after a successful one returns the same task and leaves cache and tool as the first left them |
| Repair.SecondReadNoTagFix | src/task.rs:117-153 | after a successful read with the tag feature, a second read with the same index issues only `project:` commands, if any, and no tag command |
| Repair.FirstReadAgrees | src/task.rs:117-153 | a successful read that changed anything leaves the cache's entry of `u` equal to the tool's first record of `u` |
| Repair.ProjectReloadAgrees | src/task.rs:126-130 | a project step that issued a command and succeeded leaves the cache agreeing with the tool on `u` |
| Repair.TagReloadAgrees | src/task.rs:141-150 | a tag step that issued a command and succeeded leaves the cache agreeing with the tool on `u` |
| Repair.SecondReadAgreeing | src/task.rs:117-153 | reading an agreeing task that already has the tag the index wants issues at most `project:` commands |
| Repair.ProjectStepKeepsTag | src/task.rs:118-132 | on an agreeing task the project step issues at most a `project:`, and a successful step keeps the task's tags |
| Repair.StaleParentRepairsAgain | src/task.rs:118-131 | when the tool's record of a cached root `u` has meanwhile been given the cached root parent `p`, the first read issues `project:` with the empty value and the second issues `project:` with `p`'s normalised description |
| Repair.StaleReload | src/task.rs:126-130 | the `project:` command and the reload of `update` give `u` the tool's parent and no project, and change no other entry |
| Repair.RootParentName | src/task.rs:167-182 | a task whose parent is a cached root is named by the parent's normalised description |
| Repair.ProjectOnlyRead | src/task.rs:117-132 | with only the project feature, a read leaves the cache and the tool as its project step leaves them |
| Repair.EmptyNameNeverSettles | src/task.rs:118-131 | an empty derived name is sent as `project:` on the first read and again on the second, since an empty value clears the project |
| Cache.TaskCache.constructor | src/task.rs:72-77 | a new cache has no tasks and an empty index |
| Cache.TaskCache.Refresh | src/task.rs:98-116 | afterwards the index is `ChildIndex` of the export and the task map is the old one with the export loaded over it |
| Cache.TaskCache.Update | src/task.rs:154-166 | fails with NoExportRecord exactly when the tool has no record of `u`, leaving the cache unchanged; otherwise stores the first exported record under `u`; the index never changes |
| Cache.TaskCache.GetProjectName | src/task.rs:167-182 | the loop returns `ProjectName` of the cache |
| Cache.TaskCache.GetTask | src/task.rs:117-153 | the result, the new task map and the tool's new state are those of `ReadWithRepair`; the index is unchanged |
| Cache.TaskCache.Create | src/task.rs:78-97 | the tool gains the new pending task; the cache then reloads the uuid found in the feedback; for a fresh uuid the result is the new task, stored under its uuid |
| Cache.RefreshStep | src/task.rs:102-113 | one turn of the refresh loop moves index and task map from one export prefix to the next |
| Store.ExportedSnoc | src/task.rs:155-163 | a record added last is exported last |
| Cache.ParseAll | src/task.rs:191-193 | all tokens parse exactly when the result is a list, which then has one uuid per token in order; otherwise UuidSyntax |
| Cache.GetTasks | src/task.rs:184-195 | the loop returns `ParseAll` of the tokens; empty or blank output gives the empty list |
| Cache.ParseAllCanonical | src/task.rs:192 | canonical uuids parse to themselves |
| Cache.ListingRoundTrip | src/task.rs:184-195 | uuids listed one per line parse back to the same list |
| Cache.LastChildDeleted | src/task.rs:100-112 | after the last active child of a parent is deleted, the next refresh leaves the parent out of the index |

## Left out

- Running `task`: spawning the process, formatting its arguments and reading its output are replaced by the `TaskStore` object. Its effects are assumptions of this model: `project:` with an empty value clears the project; `+tag` adds a tag once; `-tag` removes it; a command changes every record with the target uuid.
- The `println!` lines of the modification functions (src/task.rs:197-266): output only.
- I/O, UTF-8 and JSON failures (the `?` on `output()`, `from_utf8` and `serde_json`): the model's tool never fails in these ways, so these error paths are absent.
- JSON (de)serialisation of `Task`: records are values. Only status, uuid, description, partof, project and tags are kept. Entry, due, modified, wait and annotations carry no logic here.
- `Uuid::parse_str` accepts only the hyphenated 36-character spelling here. The simple (32 digits), braced and `urn:uuid:` spellings are not part of this model.
- Lower-casing is modelled for A-Z only. Unicode `to_lowercase` of other letters is not part of this model. Whitespace is the Unicode White_Space set.
- Cache.TaskCache.GetProjectName: the source's loop has no cycle check and never ends when `partof` links form a cycle. The model keeps the set of tasks not yet passed and reports CyclicParents where the source would loop forever.
- Cache.TaskCache.Create: the model's tool always prints feedback naming the created task. The NoUuidInFeedback failure of `create` is therefore shown only on `Uuids.ExtractUuid`. The `Uuid::parse_str` of the match always succeeds on canonical text (`Uuids.ParseUuid`), so it is not repeated. The uuid the tool chooses is a parameter.
- `get_tasks`: the query and the call to `task _uuid` are outside the model. The method takes the tool's output as its parameter.
- Repair.RepairIdempotent: with the `set_project` feature, idempotence is proved when the tool's first record for the task equals the cached one and the derived name is not the empty string. These conditions are sufficient, not necessary. Without either, a second read can issue another `project:`. `Repair.EmptyNameNeverSettles` shows an empty derived name sent again on every read, unless the cached project is already the empty text. `Repair.StaleParentRepairsAgain` shows a stale cache issuing a `project:` on the second read too. The tag feature needs neither condition: `Repair.TagOnlyIdempotent` and `Repair.SecondReadNoTagFix`.
- Returning `&Task` references into the map: results are task values.
