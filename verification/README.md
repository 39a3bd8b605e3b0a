# Sophons, verified

Sophons runs Ansible playbooks. This project models the parts of it that carry state, recursion or
concurrency, and proves what they promise: what a playbook run means when variables and task
contents are shared by reference, that the conformance runner's worker pool is safe and always
ends, that the `file` module converges, what variables an inventory gives a node whatever order Go
walks its maps in, that an archive rebuilds the tree it was made from, and which variable file wins.

Where the program updates things in place the model does too (classes and methods with loops), and
each method is proved against a function or predicate over values; the theorems are about those.

| file | models |
|---|---|
| `Prelude.dfy`, `Variables.dfy` | options and results; variable maps reached by reference |
| `Mode.dfy`, `ModeText.dfy`, `ModeMeaning.dfy` | permission words, symbolic modes, octal text, and what the text means letter by letter |
| `FileSystem.dfy` | directories, files, links, and the system calls on them |
| `File.dfy`, `Effects.dfy`, `FileProperties.dfy` | the `file` module, what it does in every state, and its promises |
| `Inventory.dfy`, `NodeVars.dfy` | groups, membership, a node's variables under every map order |
| `Templates.dfy`, `TemplateMeaning.dfy` | rendering, and what it gives in terms of the engine's answers |
| `Tasks.dfy`, `Execution.dfy`, `TaskProperties.dfy` | the meaning of tasks, roles and plays by values, and what that is in terms of the engine and the modules |
| `Nesting.dfy`, `Inlining.dfy` | how deep task files nest; importing a file against writing its tasks in place |
| `Stored.dfy`, `StoredDepth.dfy` | the meaning of a run whose roles are altered by being applied, and when that does not show |
| `Executer.dfy`, `Playbook.dfy` | the run as performed: shared maps, contents rendered in place |
| `Pool.dfy` | the conformance runner's worker pool |
| `Archive.dfy`, `Containment.dfy` | `Tar` and `Untar` at the level of entries; where any entries can end up |
| `RoleVars.dfy` | loading a role's variables |

`dafny verify dfyconfig.toml` checks everything.

## Main results

- **The heap run and the value run.** `Playbook.PlaybookApply` performs the calls of the value
  interpreter whenever no application of a role shows traces of the one before, a condition on the
  variables that the run meets; in particular when no role is applied twice.
  `Stored.TwoPlaysAgreeExactly` shows, for a role of any number of plain module calls and any two plays,
  that the condition is necessary too, and `Stored.RefinementIsExact` for all playbooks and worlds at once.
  `Stored.AppliedTwiceDiffers` is the concrete failure, a role applied by two plays that give a variable
  different values.
- **Imports.** No run theorem assumes that imports end: a run has a depth, the number of task files that
  can be open inside one another before the stack is used up, and dies when it is exceeded.
  `Nesting.LargerDepthIsSame` and `StoredDepth.LargerDepthIsSameStored` show that a run which does not die
  is the same with any larger depth, and `Nesting.EndsExactlyIfNests` which depth is enough.
  Importing a file is running its tasks in place, stripped of conditions, loops and registers; a module
  call, or a file of them, means the same in both places, in every world, if and only if none of these is
  used.
- **Pool.** Every state of every schedule is safe, every schedule is bounded, and one that cannot
  continue has returned if and only if there was a worker or nothing to run. What it returns is read off
  the tests' own results: an error if and only if some test did not pass, and exactly those are collected.
- **File effects.** `Effects` says for every state when a task succeeds, exactly (`SucceedsExactly`), what is
  where afterwards and what is reported, name by name and in terms of what the task asks for, and what a
  failure leaves.
- **File convergence.** A second run changes nothing if and only if a condition on the first run's
  start holds (`FileProperties.Convergence`). It fails for octal modes above 0777 and for followed
  links whose own 0777 is compared with what is asked of the target. Changed=false always means that
  nothing changed; Changed=true is reported for nothing if and only if another such condition holds
  (`FileProperties.HonestFlag`).
- **Symbolic modes.** One part grants, takes away or sets exactly what its letters say, for exactly the
  classes named; parts act in turn. Every accepted text is one map m -> (m & keep) | give, the last clause
  addressing a permission decides, and applying it twice is applying it once.
- **Inventory.** A node's variables are independent of map order if and only if no key has two values
  to choose from; group variables reach a node if and only if a group that hosts it directly, here or
  below, has variables of its own, which is not quite membership.
- **Archive.** Replaying entries in any order rebuilds the tree; permissions come back if and only if
  each directory's first entry at or below it gives the right ones, hence, for `Tar`'s own order, if and
  only if the umask takes none away. Any entries at all leave everything outside the destination alone if
  and only if each one that is reached really lands inside it or is moot; there are three ways not to.
- **Role variables.** The last file in lexical pre-order wins. The source's note says "more nested
  wins"; that holds for every content of a set of files if and only if deeper files come later in it.

## Model

| member | source | states |
|---|---|---|
| Playbook.PlaybookApply | cmd/executer/main.go:41-94 | over maps and contents shared by reference, the calls made and the success are those of the run over altered roles, hence those of the value run when no application of a role shows traces of the one before, and in particular when no role but an absorbing one is applied twice; the inventory's, plays' and roles' maps are untouched |
| Playbook.ApplyPlays | cmd/executer/main.go:41-94 | the play loop: plays that match the node, in order, each over the roles the earlier ones have altered, up to the first failure |
| Playbook.ApplyPlay | cmd/executer/main.go:43-92 | one matching play on a map of its own: what it logs, whether it succeeds, and what it leaves of the roles |
| Playbook.RunInPlay | cmd/executer/main.go:66-92 | roles first, then tasks, all on the play's one map |
| Playbook.NewPlayVars | cmd/executer/main.go:43-60 | a fresh map: inventory, overridden by the play's variables, overridden by its files in order; fails on the first unreadable file |
| Execution.PlayStart | cmd/executer/main.go:43-60 | a play starts if and only if every one of its files loads; a name then has what the last file defining it gives, else the play, else the inventory |
| Execution.VarsFilesLookup | cmd/executer/main.go:52-59 | the value of a name after loading files in order is that of the last file defining it |
| Execution.OnlyPlaysForNode | cmd/executer/main.go:41-42 | a playbook runs exactly the plays that name the node or one of its groups, in order |
| Playbook.ApplyRoles | cmd/executer/main.go:66-82 | the role loop, with an error for an unknown role and every applied role altered |
| Playbook.ApplyNamed | cmd/executer/main.go:69-81 | applying one role leaves every other role as it was |
| Playbook.ApplyRole | pkg/role/role.go:126-163 | runs on defaults, play, role variables in that precedence; afterwards the play's map is the old one overridden by the role's variables, and on failure unchanged |
| Playbook.NewRoleVars | pkg/role/role.go:132-135 | a fresh map with defaults lowest and the role's own variables highest |
| Playbook.ExecuteTasks | pkg/role/role.go:138-147 | the task loop stops at the first failure; contents after it are as each task's rendering left them, later ones untouched |
| Executer.ExecuteTask | pkg/exec/task.go:139-232 | variables, log and success are those of the value interpreter; the content is left rendered, or as it was when the task loops |
| Executer.ProcessAndRunTask | pkg/exec/task.go:115-135 | render, condition, validate, apply; the shared content is left rendered in every case |
| Executer.ProcessTemplates | pkg/exec/util/jinja.go:123-322 | the task's own strings are rendered in a copy, its content behind the shared pointer, even when a later field fails |
| Executer.Apply | pkg/exec/task.go:31-33 | a module call is logged with content and environment; a task file is read and run |
| Executer.ApplyFile | pkg/exec/import_tasks.go:73-94 | the loop of an import equals the recursive reading of it: every task rendered, validated, applied, up to the first error |
| Execution.CallRuns | pkg/exec/task.go:115-157 | a module call whose condition is empty or comes out as True, true or a non-zero 64-bit integer calls the module with exactly what was rendered, and registers its flags and payload; an invalid one fails uncalled |
| Execution.CallSkipped | pkg/exec/util/jinja.go:43-55 | for any other condition text nothing is called, the task succeeds, and what it registers has no flags |
| Execution.ConditionFails | pkg/exec/util/jinja.go:29-37 | a condition that cannot be evaluated fails the task without a call |
| Execution.NotReadyFails | pkg/exec/task.go:116-118 | a task of which something does not render fails without a call |
| Execution.TruthExactly | pkg/exec/util/jinja.go:43-55 | the texts that count as true are True, true, and the decimal texts of non-zero 64-bit integers, with a sign or leading zeros or not |
| Execution.ImportReads | pkg/exec/import_tasks.go:56-71 | an import in a role reads the file among the role's tasks, one in a play reads it beside the playbook; no file, no success |
| Execution.LiteralLoop | pkg/exec/task.go:184-231 | a successful loop makes one call for each item, in order, with item bound to it, and registers the answers in order with the flags some of them raised |
| Stored.Refinement | pkg/exec/util/jinja.go:152-165 | for all playbooks, roles and worlds: rendering in place does not show when, in the variables the run meets, what each application of a role left renders as the role would |
| Stored.OnceRefines | cmd/executer/main.go:66-82 | that is so when no role is applied twice but absorbing ones, whatever the variables |
| Stored.TwoPlaysAgreeExactly | pkg/exec/task.go:115-135 | two plays that apply a role of module calls without condition, loop or register make the calls of the value run if and only if their variables absorb: either the first fails, or every task the second reaches renders as if it had not been rendered |
| Stored.RefinementIsExact | pkg/exec/task.go:54-84 | for such a role every playbook agrees with the value run, in every world, if and only if every two environments absorb |
| Stored.AppliedTwiceDiffers | pkg/exec/util/jinja.go:152-165 | concretely: the template of v rendered with 1 in the first play stays 1 in the second, where v is 2 |
| Stored.LeftAllRunAlike | pkg/exec/task.go:115-135 | a list of tasks as one run left it does what the list itself would, and leaves the same, when each absorbs the variables met then and now |
| Stored.StoredRolesRefine | pkg/role/role.go:126-163 | along the roles of a play, what is stored is always the role as its last application left it, and each application does what the role itself would |
| Inlining.ImportIsInlining | pkg/exec/import_tasks.go:51-97 | an import among other tasks means the file's tasks, stripped of condition, loop and register, written in its place: same effects, environment and success; a control that does not render ends the run there |
| Inlining.FileIsInlinedStripped | pkg/exec/include_tasks.go:51-96 | running a file is executing its tasks stripped of their controls, up to the first whose controls do not render, and it binds no variable |
| Inlining.ImportTakesOneMore | pkg/exec/include_tasks.go:51-96 | whatever the tasks do in place without using up the depth, their import does with a depth of one more |
| Inlining.ImportAgreesExactly | pkg/exec/task.go:115-232 | a module call, with or without a loop, has the same effect in place and in an imported file if and only if a condition on its rendering, condition, items and register holds |
| Inlining.AlwaysAgreesIffUnconditional | pkg/exec/import_tasks.go:73-94 | it has the same effect in every world if and only if it uses no condition, loop or register |
| Inlining.FileAgreesIffUnconditional | pkg/exec/import_tasks.go:51-97 | a file of module calls does the same imported and in place, in every world, if and only if none of its tasks uses a condition, a loop or a register |
| Nesting.LargerDepthIsSame | pkg/exec/import_tasks.go:73-94 | a whole playbook run that does not use up the depth is the same with any larger one |
| StoredDepth.LargerDepthIsSameStored | pkg/exec/import_tasks.go:73-94 | the same for the run over altered roles, which is what the program performs |
| Nesting.NestingSuffices | pkg/exec/import_tasks.go:73-94 | a depth within which the files nest that the tasks lead to, with the variables and place of the run, is never used up |
| Nesting.EndsExactlyIfNests | pkg/exec/import_tasks.go:73-94 | in a run in which, given depth enough, nothing fails, a depth is enough if and only if the files nest within it |
| Nesting.DescendingNests | pkg/exec/import_tasks.go:73-94 | files nest within a rank that falls along every reference, over the files that can be reached |
| Nesting.NestingDescends | pkg/exec/import_tasks.go:73-94 | conversely, files that nest within a depth have such a rank |
| Nesting.SelfImportNeverSucceeds | pkg/exec/import_tasks.go:73-94 | a file with a reference back to itself anywhere in it never runs to its end, at any depth |
| Nesting.SelfImportNeverEnds | pkg/exec/import_tasks.go:73-94 | a file whose first task leads back to it uses up every depth |
| TaskProperties.ExecuteAllAppend | cmd/executer/main.go:83-92 | running two lists of tasks one after the other is running their concatenation |
| TaskProperties.LoopIterations | pkg/exec/task.go:184-219 | iteration i runs the same task with item bound to the i-th item from where iteration i-1 ended; results in order; on an error exactly the iterations up to it were attempted |
| TaskProperties.LoopBindings | pkg/exec/task.go:196-231 | a loop binds item and, only if every iteration succeeded, the register, whose flags are those any iteration raised; nothing else changes |
| TaskProperties.RoleScopes | pkg/role/role.go:126-163 | after roles in sequence the play has its variables overridden by theirs in order, and role i started from defaults, that environment, and its own variables |
| TaskProperties.PlayEnvLookup | pkg/role/role.go:149-160 | a name has the value of the last role defining it in its variables, else the play's: defaults, registers and item do not escape |
| TaskProperties.PlaysAreIndependent | cmd/executer/main.go:43-60 | a play starts from inventory, play variables and files, whatever earlier plays did |
| Templates.ProcessFields | pkg/exec/util/jinja.go:135-170 | the field loop equals the recursive rendering: fields up to the first failure rendered, the rest untouched |
| Templates.ProcessField | pkg/exec/util/jinja.go:151-208 | one field by its kind: text, list of texts, nested message |
| Templates.RenderSlice | pkg/exec/util/jinja.go:168-188 | each element is replaced by the elements it renders to, nil by none; an error anywhere is an error |
| TemplateMeaning.ListExactly | pkg/exec/util/jinja.go:62-121 | a list renders to the concatenation, in order, of what its elements expand to: text without an opening as it is, a lone list expression its strings, nil nothing, anything else its text |
| TemplateMeaning.FieldsExactly | pkg/exec/util/jinja.go:151-208 | a message renders if and only if each of its fields does, to exactly those |
| TemplateMeaning.FieldsStop | pkg/exec/util/jinja.go:152-165 | otherwise the fields before the first at fault are rendered in place and those after it untouched |
| Templates.TemplateLoopsAreLong | pkg/exec/util/jinja.go:256-278 | a template gives a loop if and only if it evaluates to a list of strings with two or more elements, and then exactly those |
| Pool.Safety | cmd/conformance/main.go:85-109 | in every state of every schedule: each playbook handed over is finished or running, once; concurrent tests have different ports; the error channel stays within capacity and never blocks a worker; the WaitGroup counts live workers; nothing panics |
| Pool.SchedulesEnd | cmd/conformance/main.go:89-120 | no schedule is longer than 3 * workers + 4 * tests + 5 steps |
| Pool.StepDecreases | cmd/conformance/main.go:89-120 | every step of the main goroutine or a worker uses up some of a measure |
| Pool.NoDeadlock | cmd/conformance/main.go:89-120 | with a worker or nothing to run, some step is enabled until the function has returned |
| Pool.BlockedAtFirstSend | cmd/conformance/main.go:103-105 | without workers and with playbooks, the first send blocks for ever |
| Pool.Completion | cmd/conformance/main.go:103-120 | a schedule that cannot continue has returned if and only if there was a worker or nothing to run; then every playbook ran once, the collected errors are the failures, and an error is returned if and only if there is one |
| Pool.ReportsExactlyFailures | cmd/conformance/main.go:96-120 | from the actions alone: every test is finished once, the collected errors are those of the tests that did not pass, and an error is returned if and only if some test did not |
| Pool.WorkersSpawned | cmd/conformance/main.go:89-100 | once spawning is over there are as many workers as asked for, on ports from 2222 on |
| Pool.InvAlongRun | cmd/conformance/main.go:85-120 | the invariant that relates program counters, channels and histories holds in every state of every schedule |
| Mode.NewModeFromSpec | pkg/exec/util/mode.go:35-123 | the loops over parts and letters compute exactly the parsed clauses' effect, with the same rejections |
| ModeMeaning.ClauseText | pkg/exec/util/mode.go:53-119 | one part grants, takes away or sets exactly the accesses whose letters follow the operator, for exactly the classes whose letter, or an a, precedes it |
| ModeMeaning.RefusedText | pkg/exec/util/mode.go:48-96 | a part is refused if and only if nothing, or another letter, follows its operator |
| ModeMeaning.SequenceText | pkg/exec/util/mode.go:42-122 | parts separated by commas act one after the other, and one that is refused refuses the whole |
| ModeMeaning.BlanksMeanNothing | pkg/exec/util/mode.go:43-46 | white space at either end means nothing, and blank text changes nothing |
| ModeMeaning.NineBits | pkg/exec/util/mode.go:15-25 | the nine permissions are the bits 0400 to 0001, by class and access |
| ModeMeaning.ThreeDigits | pkg/exec/util/mode.go:133-134 | three octal digits are read by place, with or without a zero before them |
| ModeMeaning.GroupWrite | pkg/exec/util/mode.go:76-84 | g+w on 0644 gives 0664 |
| ModeMeaning.TwoParts | pkg/exec/util/mode_test.go:31-36 | u+rw,g=x on 0000 gives 0610 |
| ModeMeaning.AllReadWrite | pkg/exec/util/mode_test.go:43-48 | a=rw on 0444 gives 0666 |
| Mode.PermissionMask | pkg/exec/util/mode.go:61-97 | the mask is the named accesses for the named classes, and another letter is an error |
| Mode.ApplyClause | pkg/exec/util/mode.go:99-119 | the operator switch is the clause's map on permissions |
| Mode.EvaluateIsLastWins | pkg/exec/util/mode.go:42-122 | acceptance does not depend on the starting mode, and for each permission the last clause addressing it decides |
| Mode.ClosedForm | pkg/exec/util/mode.go:99-122 | every accepted specification is one map m -> (m & keep) \| give with keep and give disjoint |
| Mode.EvaluateIdempotent | pkg/exec/util/mode.go:42-122 | applying a specification twice equals applying it once |
| Mode.UnnamedClassUntouched | pkg/exec/util/mode.go:53-56 | a class no clause names keeps its permissions |
| Mode.NumberOfBits | pkg/exec/util/mode.go:15-25 | a mode number is recovered from its nine permissions and what lies above them |
| ModeText.ModeMessage.UnmarshalYAML | pkg/proto/mode_yaml.go:11-44 | quoted text is kept; an integer becomes its octal text; other text is kept; anything else fails and leaves the message alone |
| ModeText.IntegerModeRoundTrip | pkg/proto/mode_yaml.go:22-34 | an integer's octal text parses back to it if it is in 0..2^32-1, and otherwise neither parser accepts it |
| ModeText.OctalIsNotSymbolic | pkg/exec/util/mode.go:133-136 | no text accepted as octal is accepted as symbolic |
| FileSystem.Machine.MkdirAllPath | pkg/exec/file.go:223-226 | the recursive making of a directory equals making all missing ancestors at once, or fails without effect |
| File.Apply | pkg/exec/file.go:159-447 | file system and result are the task's meaning, state by state, errors included |
| Effects.SucceedsExactly | pkg/exec/file.go:159-447 | a task succeeds if and only if a condition on it and the tree holds that is given state by state |
| Effects.LookEffect | pkg/exec/file.go:217-386 | states directory, file, link and touch: what is missing is made, directories 0755 and files 0666 less the umask, the node the path leads to is given what is asked if the path itself is wrong, and nothing else changes; with what is reported |
| Effects.RecursiveEffect | pkg/exec/file.go:217-267 | recursive directories: every node at or below the path is given what is asked, links only an owner, and nothing else changes but missing ancestors |
| Effects.AbsentEffect | pkg/exec/file.go:205-215 | exactly what is at or below the path is gone |
| Effects.UnfollowedEffect | pkg/exec/file.go:316-343 | a link that is not followed is made or replaced, and nothing else changes |
| Effects.FailureEffect | pkg/exec/file.go:159-447 | a task that fails leaves what it had made so far, or nothing, state by state |
| Effects.ResolveExactly | pkg/exec/util/mode.go:125-159 | a path leads to the end of its chain of links, if that exists and comes after at most forty |
| File.FixRecursively | pkg/exec/file.go:229-267 | in any order that reaches directories before their content, every node is fixed on its own, and the changed flag says whether any needed it |
| File.NeedsModeOrOwnershipChange | pkg/exec/file.go:99-157 | compares the path itself with what is asked, skipping a desired mode of 0; an unknown mode is an error |
| File.ApplyModeAndIDs | pkg/exec/util/mode.go:125-159 | changes mode, then owner, of the node the path leads to |
| FileProperties.CheckAgreesWithEffect | pkg/exec/file.go:99-157 | on a non-link, the check's answer and the repair's effect agree, with the exact exceptions for a desired mode of 0 and for octal text above 0777 |
| FileProperties.Convergence | pkg/exec/file.go:159-447 | after any success, the second run changes nothing and says so if and only if the task was stable before the first; the tree stays well formed |
| FileProperties.OversizeExample | pkg/exec/file.go:116-145 | octal 1777 reports a change on every run |
| FileProperties.FollowedLinkExample | pkg/exec/util/mode.go:130-137 | mode 0644 through a link reports a change for ever |
| FileProperties.HonestFlag | pkg/exec/file.go:202-395 | Changed=false means the file system is as before, always; Changed=true is reported with nothing changed if and only if what the path leads to, or the whole tree, already had all that is asked and an oversize number or a followed link hides it |
| FileProperties.StableIsHonest | pkg/exec/file.go:202-395 | for a task that converges, Changed says exactly whether the file system differs |
| FileProperties.RecursiveAttainmentAndFrame | pkg/exec/file.go:217-282 | after a recursive task every node at or under the path is as visited, missing ancestors are plain directories, everything else is as it was |
| FileProperties.NodeAttains | pkg/exec/file.go:235-261 | a visited node has the requested owner and, unless it is a link or the mode comes to 0, the requested mode |
| FileProperties.TreeConverges | pkg/exec/file.go:229-267 | a second walk finds nothing to do if and only if no oversize mode is asked of the directory |
| FileProperties.FixConverges | pkg/exec/file.go:269-281 | what the check and its repair leave passes the check again, but for oversize modes and links |
| Inventory.All | pkg/inventory/inventory.go:73-84 | the members of a group: its hosts and those of its descendants |
| Inventory.Find | pkg/inventory/inventory.go:51-70 | under every iteration order, the names of the groups that have the node as a member |
| Inventory.FindIn | pkg/inventory/inventory.go:19-26 | the same for an inventory, where everybody is in the group all |
| Inventory.AllNodes | pkg/inventory/inventory.go:29-35 | the nodes of an inventory are the members of its groups |
| Inventory.FoundIffMember | pkg/inventory/inventory.go:57-67 | something is found in a group if and only if the node is one of its members |
| Inventory.FoundIffNamed | pkg/inventory/inventory.go:51-84 | a name is found if and only if a group so called, anywhere in the tree, has the node as a member |
| Inventory.MemberOfAncestors | pkg/inventory/inventory.go:60-66 | a member of a group is a member of every ancestor |
| Inventory.MembersExactly | pkg/inventory/inventory.go:73-84 | the members of a group are the hosts of the group and of its descendants |
| NodeVars.NodeVars | pkg/inventory/inventory.go:90-112 | whatever order the maps are walked in, the result is one of the specified outcomes |
| NodeVars.InventoryNodeVars | pkg/inventory/inventory.go:38-49 | the same for an inventory, host variables over those of all groups |
| NodeVars.ResultLookup | pkg/inventory/inventory.go:38-49 | a name in the result comes from a host entry for the node, if any group has one giving it, and from one no descendant overrides; else from the most specific group whose variables apply |
| NodeVars.OrderIndependence | pkg/inventory/inventory.go:38-49 | a node's variables do not depend on map order if and only if no key has two values to choose from |
| NodeVars.AgreementIsEnough | pkg/inventory/inventory.go:100-104 | siblings that agree on the keys they share make the result unique |
| NodeVars.HostSound | pkg/inventory/inventory.go:95-104 | every outcome's host values are values the tree offers, and none is missing |
| NodeVars.GroupSound | pkg/inventory/inventory.go:95-109 | every outcome's group values are values the tree offers, and none is missing |
| NodeVars.HostComplete | pkg/inventory/inventory.go:100-104 | every host value the tree offers is the outcome of some order |
| NodeVars.GroupComplete | pkg/inventory/inventory.go:100-109 | every group value the tree offers is the outcome of some order |
| NodeVars.Inheritance | pkg/inventory/inventory.go:95-109 | a group's variables apply to a node if and only if it hosts the node or some proper descendant that does has variables |
| NodeVars.MembersInherit | pkg/inventory/inventory.go:60-66 | for a group and a node, variables apply exactly to members, if and only if it is not the case that only descendants host the node and none of those has variables |
| NodeVars.MemberWithoutInheritance | pkg/inventory/inventory.go:106-109 | a host of a child without variables is a member of the parent and does not get its variables |
| NodeVars.MostSpecificGroupWins | pkg/inventory/inventory.go:106-109 | the group values a key can get are those of the groups giving it that have no descendant giving it |
| Archive.Tar | pkg/util/tar.go:25-68 | the entries are the nodes of the tree, each once, directories before their content; an absent source is an error |
| Archive.Untar | pkg/util/tar.go:88-133 | the entry loop is the replay of the entries in order, up to the first error, wherever links and `..` lead, and keeps the tree well formed |
| Archive.PutEntry | pkg/util/tar.go:97-132 | one entry: the joined and cleaned name, missing parents through any links, then the directory, file or link |
| Archive.MkdirThrough | pkg/util/tar.go:102-106 | making a path with links on the way: nothing if a directory is there, else the parent first, then the directory where the parent really is |
| Archive.ReplayBuilds | pkg/util/tar.go:97-132 | for every order of distinct entries on free names the replay succeeds, and each name is made by the first entry at or below it |
| Archive.RebuildIsExact | pkg/util/tar.go:88-133 | any order rebuilds names, kinds, data and link targets and touches nothing else; permissions too if and only if each entry keeps its own |
| Archive.RoundTrip | pkg/util/tar.go:25-133 | what Tar lists, replayed where the tree's name is free, is the same tree and nothing else; permissions return if and only if the umask takes none of them away |
| Archive.ChildFirst | pkg/util/tar.go:102-106 | with a file ahead of its directory, the directory keeps 0755 instead of its own permissions |
| Containment.ReplayStaysInsideExactly | pkg/util/tar.go:88-133 | for any entries and any links, nothing outside the destination is ever touched if and only if every entry reached lands inside, is refused, or finds what it asks for |
| Containment.PutStaysInsideExactly | pkg/util/tar.go:97-132 | the same for one entry |
| Containment.PutTouches | pkg/util/tar.go:97-132 | an entry changes only the node where its name really leads and missing directories on the way to it, and nothing exactly when it is moot |
| Containment.TidyStaysInside | pkg/util/tar.go:88-133 | entries replayed where there are no links stay inside when no name leaves by `..`, none passes through an earlier link entry, and no file takes the name of one |
| Containment.WrittenThroughLink | pkg/util/tar.go:107-119 | a link entry followed by a file entry of its name overwrites the file the link leads to |
| Containment.WrittenBelowLink | pkg/util/tar.go:107-119 | a link entry followed by a file entry below it makes that file in the directory the link leads to |
| Containment.WrittenBeside | pkg/util/tar.go:97-119 | a file entry whose name begins with `..` is made beside the destination |
| RoleVars.ProcessVars | pkg/role/vars.go:17-98 | the first of main.yml, main.yaml and main that exists decides, even if it cannot be read; a directory is folded |
| RoleVars.MainPlain | pkg/role/vars.go:44-65 | a file main gives what it parses to, and a missing one no variables |
| RoleVars.MainDir | pkg/role/vars.go:67-97 | a directory main gives a name the value of the last file below it that has one, and defines no other name |
| RoleVars.BeforeByFirstDifference | pkg/role/vars.go:68 | the walk goes by the first difference in names, a directory before what is in it |
| RoleVars.LessByFirstDifference | pkg/role/vars.go:68 | names are in the order of their first difference, a name before those it begins |
| RoleVars.WalkDir | pkg/role/vars.go:68-95 | succeeds if and only if every file below reads and parses, and then every name has the value of the last file defining it in lexical pre-order |
| RoleVars.LastWinsIsUnique | pkg/role/vars.go:87-90 | that rule leaves one result |
| RoleVars.NestedWinsIffDeeperIsLater | pkg/role/vars.go:87-90 | the more nested file wins, whatever the files say, if and only if deeper files come later in the walk |
| RoleVars.LessNestedExample | pkg/role/vars.go:87-90 | a/x.yml and b.yml are such that it does not |

## Left out

- Templates, YAML, modules other than `file`, and the files behind `vars_files` and imports are parameters: functions from text and environment, or from path, to a value or an error. A module's outcome may depend on every earlier call.
- Reflection over task messages is a small type of fields (text, list of texts, nested message); a template that is a lone nil is skipped in a list as in the source.
- Executer.ExecuteTask: converting a result for `register` (pkg/exec/task.go:288-299) always succeeds, and of a result only flags, one text and the list of iterations are kept; unregistered message types and tasks without content are not modelled.
- Executer.ProcessTemplates: fields are text, lists of text, and nested messages, with pointers as what they point to. Rewriting a field of interface type to a list, a text or a pointer is modelled only for a task's loop; no message type of the repository has another such field but the task's content itself.
- Templates.ProcessField: the same; pointers to lists, which no message type has, have no counterpart.
- Templates.RenderSlice: the template engine is a function of text and variables. The program shares one default environment of the engine among all list renderings (pkg/exec/util/jinja.go:82-83); whatever passes from one rendering to another through it is not modelled.
- Executer.ApplyFile: task files do not change during a run. How many can be open at once is a parameter rather than the stack that a real run has.
- Stored.RefinementIsExact: exact for roles of module calls without conditions, loops and registers; for other roles the condition on the variables met is proved sufficient, since a false condition or an overwritten variable can hide an altered template.
- Inlining.AlwaysAgreesIffUnconditional: about module calls; of a nested import in a file only the meaning is given.
- Values inside variables are immutable here; only the maps themselves are shared.
- Discovering roles on disk, decoding task and playbook files, and the command line of the executer.
- The file system has no hard links, special files, setuid or sticky bits, timestamps or permission errors (the process is root), and, for the `file` module, no symbolic link among the proper ancestors of a path (archives and variable files are read and written through such links). Paths are cleaned; symbolic links always read as mode 0777.
- File.Apply: the checks made on a task before it is applied are not modelled, so it is modelled for every task; the size, owner names, link count and state text in the result are not modelled; the final stat is. Handing uid or gid 2^32-1 to the system is not modelled.
- File.FixRecursively: the walk may visit in any order that reaches a directory before its content, of which lexical order is one.
- Bits of an octal mode above 0777 count in the check and have no effect on a node; the three that Go reads as sticky, setgid and setuid are left out.
- Archive.Tar: compression, the byte format, entry owners and timestamps, and entry types other than directory, regular file and symbolic link; a file that changes while it is read.
- Archive.Untar: entry types that the program skips do not occur.
- Archive.PutEntry: the same.
- Archive.RoundTrip: of a tree other than the root directory, whose entry has no name of its own.
- RoleVars.WalkDir: a symbolic link to a directory inside the walk is an error, as reading it is; only the starting directory may be reached through a link.
- Pool.Safety: the conformance test of a playbook is one step that succeeds or fails; docker, SSH and the filter that picks the playbooks are left out.
- The modules `apt`, `apt_repository`, `copy`, `command`, `shell`, `template` and `get_url`, and the SSH and SFTP dialer.
