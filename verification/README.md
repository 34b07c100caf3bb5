# A verified model of whoosh

whoosh deploys an application to a set of hosts: it reads a Deployfile and a stage file, takes a lock on the primary
host, walks a fixed lifecycle of commands with user-defined hooks and phases around them, and copes with hosts that
stop answering on the way. This project models the parts of whoosh whose guarantees only show over whole runs, and
proves those guarantees for every configuration, every host behaviour and every interleaving. `dafny verify
dfyconfig.toml` checks all of it.

## How to read it

| files | what they hold |
|---|---|
| `Trace`, `Walks`, `Executor`, `Phases`, `Deploy`, `DeployLock` | a deploy run as a log of events; walks over hosts that may drop out; the classes `Executor` and `Deployer`; many runs over one lock file |
| `Digraph`, `TaskGraph` | the graph of hooks and deps, and what a task run expands to |
| `Deployfile`, `Loader` | the configuration, `Merge`, and the depth-first include resolution |
| `Fanout`, `ConnPool`, `HostKeys`, `RenderCache` | concurrent protocols as state machines over their atomic steps |
| `Text`, `Lines`, `LineWriter`, `Masking`, `Secrets` | text replacement, streaming writers, secret masking |
| `Keys`, `ShellQuote`, `Dotenv` | quoting and rendering, each with a reader it is inverted by |
| `Common`, `Errors`, `Inventory` | shared sequences, error chains, hosts and host filters |

Everything a run cannot control is a parameter. A `World` answers what each host, plugin, template or operator-side
step does, question by question, and nothing is assumed about its answers. The log and the list of task bodies that ran
are ghost state: they record what was sent or read where, how each plugin function ended, and how each task body ended
and under which tag and phase; the methods never look at them. A dry run sends no command and so logs none.

An error is a chain of wrapped errors, and both "is a context error" and "is an unreachable host" can hold of one
chain. `SkipUnreachable` and `CaptureLive` look at the chain; `DropUnreachable` looks at the run's context instead, as
the source does.

`Deployer.Deploy` carries the whole-run theorem, and says when a run fails: an abort has its reason in the log, among
the task bodies or in the configuration, and in a world where nothing fails (`Walks.AllWell`) a run whose tasks expand
is done. Below it, `Executor.Owes` is what each kind of task owes: what it sends, to whom, and exactly when it fails.
The log of a run is read through lemmas of `Trace`: `BarrierAt`
and `CompletedIsPrefix` (progress of each host), `DroppedStaysDropped` (marked hosts), `PrefixUnbroken` (the lock
discipline of a run at any moment). `DeployLock` takes exactly that discipline, which `Deploy` ensures, as the only
thing it knows about each of the competing runs.

## Where the code and its promises part

- Masking is incomplete for a registered secret that is a part of the word "FILTERED" (say "FILT"): the placeholder
  spells it out. `Masking.FilteredLeaks` shows it; `Masking.CompleteIff` proves that, among secrets without brackets,
  this is the only way to leak.
- A known_hosts append that is written but reported as failed (say by `Close`) leaves a line in the file and none in the
  map. If another dial that had seen no key is open then with a different one, two keys can come to be accepted;
  `HostKeys.TornAppendBreaksTrust` is such a run. `HostKeys.TrustIffRivalFree` proves that this is the exact condition,
  over all continuations of a run, and `HostKeys.OneLineIffNeverBesideAnother` gives the one for the number of lines.
- A `Cluster.Close` that comes while a dial is in progress drops the entry unclosed, and the connection opened
  afterwards is never closed. `ConnPool.DisorderlyCloseLeaks` shows it; `ConnPool.LeaksIff` proves that an open
  connection leaves the map unclosed exactly if a `Close` caught its dial.
- `Merge` keeps the include list of its base, so the empty configuration is a left identity only up to that list
  (`Deployfile.MergeEmptyLeft`); include resolution clears the list, so loads are not affected.
- A dropped host can be asked again if its address is listed twice: a capture walks a list it took before the host was
  marked. `Executor.ActionAsksTwice` and `Executor.OutputAsksTwice` do so. `Walks.ActionWalkClearIff` and
  `Walks.OutputWalkClearIff` prove exactly when a walk over a given list respects the marks whatever the hosts answer:
  when no address repeats as far as the walk can get, that is before the first host it cannot drop. A whole run is
  proved to respect them under the abort policy, or if no address that may be dropped is listed twice.
- Rendering a dotenv file loses a carriage return before a newline and does not escape keys: reading back gives the same
  environment exactly if no value holds a CRLF and no key an equals sign (`Dotenv.ReadsBackUnchangedIff`).
- A command line exports whatever keys the environment has. It reads back exactly if all of them are shell names and no
  expandable value has a `$` (`ShellQuote.WrapRemoteReadsBackIff`). Validation checks the names of global and task envs
  (`internal/deployfile/ast/validate.go`), not those of env files and plugin imports.
- A secret can get through where an overlong line was cut inside it; `Masking.OverlongLeaks` has a stream for every
  secret. `Masking.StreamLeaksAcrossCuts` proves for all streams that it gets through nowhere else.

## Model

| member | source | states |
|---|---|---|
| `Deploy.Deployer.Deploy` | internal/deploy/deploy.go:122-290 | in every run: commands go only to hosts that completed all earlier ones, in lifecycle order; the lock is tried at most once and given back last by a holder only; no required host and not the primary is ever dropped; a run that does not abort completed all eight commands on every host left, called every plugin function and ran exactly the task bodies of its hooks and custom phases; skipped hosts are reported iff any were dropped; a run aborts only without repository or hosts, on a refused lock, a step or read with a result that ends the run, a failed plugin function, a failed task body, or a task that is missing or in a cycle, and then the failure hooks ran; if nothing fails it is done |
| `Deploy.Deployer.Start` | internal/deploy/deploy.go:123-161 | a run refuses to start exactly without a repository or without hosts, and then sends nothing; otherwise the primary is picked and required, and the previous revision read off it |
| `Deploy.Deployer.RunSteps` | internal/deploy/deploy.go:254-271 | all steps in order up to the first failure; whatever fails, the run stays safe and has a reason; success means the whole lifecycle was done under the lock; it succeeds if nothing fails |
| `Deploy.Deployer.StepThrough` | internal/deploy/deploy.go:255-271 | before-hooks, the step, after-hooks; the bodies that ran are those, in that order and in that phase; a failure has a reason in the step or its hooks |
| `Deploy.Deployer.Perform` | internal/deploy/deploy.go:183-251 | each step brings exactly its own commands, and only the first takes the lock |
| `Deploy.Deployer.RunStep` | internal/deploy/deploy.go:339-362 | unless dry, the command is sent exactly once, to all live hosts; the step fails iff some result ends the run: under abort any failure, under skip a context error, a command failure, or a required or primary host; after success every live host has completed the command; the two "no host left" branches cannot be reached |
| `Deploy.Deployer.DropFailed` | internal/deploy/deploy.go:350-355 | under skip, hosts on which the command failed are gone and every host left has completed it, or the step fails and nothing is dropped |
| `Deploy.Deployer.ReadRevisions` | internal/deploy/deploy.go:205-227 | the deployed revision is an answer of a host, and the changelog is asked for iff there is a previous revision, another one, and both are commits; keeps the run on track |
| `Deploy.Deployer.ReadPrevious` | internal/deploy/deploy.go:149-161 | the previous revision is what the primary answers if that is a commit, and else empty; a failed read is no failure |
| `Deploy.Deployer.ChoosePrimary` | internal/deploy/deploy.go:132-141 | the first host marked primary, else the first, is required from then on |
| `Deploy.Deployer.Conclude` | internal/deploy/deploy.go:254-290 | the outcome of the steps: an abort has a reason and ran the failure hooks; skipped hosts are reported iff any were dropped; if nothing fails the run is done |
| `Deploy.Deployer.RunAndUnlock` | internal/deploy/deploy.go:169-290 | all of this still holds once the lock was released |
| `Deploy.Deployer.OnFailure` | internal/deploy/hooks/hooks.go:53-66 | the bodies of the failure hooks ran last, unless one of them failed or they do not expand; the run stays safe |
| `Deploy.Deployer.HostsRemain` | internal/deploy/deploy.go:132-141 | the primary is among the live hosts at every safe moment, so there always is one |
| `Deploy.Deployer.CaptureLive` | internal/deploy/deploy.go:372-393 | terminates on the shrinking live set and keeps the run on track; returns the last answer, given by the host that is then the first live one; a failure is returned only if it must not drop that host; the "no reachable hosts" branch cannot be reached |
| `Deploy.Deployer.AskFirst` | internal/deploy/deploy.go:379-391 | one turn: the first live host's answer is final, or the host is dropped and fewer remain |
| `Deploy.Deployer.Drop` | internal/deploy/deploy.go:384-391 | marking a droppable host leaves strictly fewer live hosts and the run on track |
| `Deploy.Deployer.Build` | internal/deploy/deploy.go:200-234 | mirror, create and write-revision on all live hosts, with the revision read in between; fails only for a reason in the log |
| `Deploy.Deployer.Finish` | internal/deploy/deploy.go:243-249 | log and cleanup on all live hosts |
| `Deploy.Deployer.AcquireLock` | internal/deploy/deploy.go:184-192 | one attempt, on the primary; the run counts itself a holder exactly if it succeeded, and a refusal is the reason of the abort |
| `Deploy.Deployer.DeferredUnlock` | internal/deploy/deploy.go:169-181 | a holder, and only a holder, releases, on the primary and last; progress of no host changes |
| `Deploy.Deployer.RunHooks` | internal/deploy/hooks/hooks.go:36-88 | tasks in order, then all plugin functions, up to the first failure; a success ran exactly the expansions of the hook tasks in that phase; a failure has a body or a function that failed, or a task that does not expand |
| `Deploy.Deployer.RunHookTasks` | internal/deploy/hooks/hooks.go:80-88 | a success ran exactly the expansions of the tasks in order; a failure has a failed body or a task that does not expand |
| `Deploy.Deployer.CallHooks` | internal/deploy/hooks/hooks.go:68-78 | a success called every function once; a failure is that of a function |
| `Deploy.Deployer.PhaseHooks` | internal/deploy/hooks/hooks.go:36-66 | whatever hook tasks do and whether or not they fail, the lifecycle stays safe and on track |
| `Deploy.Deployer.CustomTask` | internal/deploy/deploy.go:311-319 | a custom phase's task runs to the end of its expansion or fails, and keeps the run on track |
| `Deploy.DueIsLifecycle` | internal/deploy/deploy.go:183-251 | the commands of the built-in steps in order are exactly the eight commands of the lifecycle |
| `Deploy.DueAfterBounds` | internal/deploy/deploy.go:252-271 | through any splicing of custom phases, the commands due are always a prefix of the lifecycle, and all of it at the end |
| `Deploy.LockComesFirst` | internal/deploy/deploy.go:183-192 | through any splicing, no step has commands before the step that takes the lock |
| `Deploy.Deployer.BodiesAround` | internal/deploy/deploy.go:254-271 | among all bodies of a run, those of a step come after those of all earlier steps and before those of all later ones |
| `Deploy.Deployer.StepBodiesAre` | internal/deploy/deploy.go:255-271 | they are the tasks hooked before its phase, the task of a custom phase, and the tasks hooked after its phase, in this order, each with all it brings |
| `Trace.BarrierAt` | internal/deploy/deploy.go:254-271 | a built-in command is sent to a host only if it has completed all commands issued before |
| `Trace.CompletedIsPrefix` | internal/deploy/deploy.go:254-271 | what any host has completed, dropped or not, is a prefix of what was issued |
| `Trace.DroppedStaysDropped` | internal/executor/targets.go:15-21 | no event after a host's mark targets it |
| `Trace.PrefixUnbroken` | internal/deploy/deploy.go:169-192 | a run that ends with the lock discipline kept had kept it at every earlier moment |
| `Trace.HooksOnlyKeep` | internal/deploy/hooks/hooks.go:36-88 | task commands, marks and plugin functions change nothing in the progress of any host nor in the lock discipline |
| `DeployLock.MutualExclusion` | internal/deploy/commands.go:144-157 | over every interleaving of any number of runs, with lock commands that create the file yet report an error and unlocks that fail, at most one run is between its lock step and its unlock |
| `DeployLock.StepsAreExclusive` | internal/deploy/deploy.go:169-192 | every all-host command is issued by the one run that holds the lock |
| `DeployLock.OnlyTheHolderRemoves` | internal/deploy/deploy.go:172-181 | the lock file is removed only by the run that created it, while it holds the lock |
| `DeployLock.ForeignLockStays` | internal/deploy/commands.go:144-150 | a file that none of the runs created shuts all of them out and is never removed |
| `Phases.ValidateCustomPhases` | internal/deploy/deploy.go:81-107 | accepts exactly: non-empty, non-built-in, unique names, one anchor which is built in, and a task that exists |
| `Phases.InsertCustomPhases` | internal/deploy/deploy.go:296-333 | computes the splice whose positions PlacedBeside and DeclaredInOrder give |
| `Phases.GroupByAnchor` | internal/deploy/deploy.go:301-309 | for every phase the custom phases anchored before and after it, in declaration order |
| `Phases.KeepsBuiltIns` | internal/deploy/deploy.go:320-332 | the built-in steps are an unchanged subsequence of the splice |
| `Phases.SplicedAround` | internal/deploy/deploy.go:321-330 | next to each built-in step stand its own custom phases, on the side they name and in declaration order, with no other built-in step between |
| `Phases.PlacedBeside` | internal/deploy/deploy.go:320-330 | by positions in the splice: a custom phase stands before the built-in step it names with before, after the one it names with after, runs its task, and no built-in step lies between the two |
| `Phases.DeclaredInOrder` | internal/deploy/deploy.go:301-309 | of two custom phases with the same anchor and side, the one declared first stands first |
| `Phases.IsPlaced` | internal/deploy/deploy.go:320-332 | every custom phase stands somewhere |
| `Phases.AcceptedArePlaceable` | internal/deploy/deploy.go:81-107 | all of this holds of the phases that New accepts |
| `Phases.PlacesEachOnce` | internal/deploy/deploy.go:320-332 | every custom phase with an anchor is placed exactly once, nothing else is added, and the length is built-in plus custom |
| `Phases.AcceptedArePlaced` | internal/deploy/deploy.go:292-333 | for custom phases that validation accepts, the spliced lifecycle holds the built-in steps and each custom phase exactly once, and nothing else |
| `Executor.Executor.Hosts` | internal/executor/executor.go:201-207 | exactly the eligible hosts that are not marked |
| `Executor.Executor.MatchingMeans` | internal/executor/targets.go:150-163 | exactly the inventory's hosts that pass the deploy flag, the task's roles, the run's roles and the address limit |
| `Executor.Executor.TargetsForTask` | internal/executor/targets.go:150-170 | a task's live matching hosts, or the preferred one of them for a once task |
| `Executor.Executor.TargetsAt` | internal/executor/targets.go:150-170 | never a marked host |
| `Executor.Executor.TargetsMean` | internal/executor/targets.go:150-170 | all live matching hosts, or for a once task one of them if there is any, which is a primary if any of them is |
| `Executor.Executor.TargetedOnce` | internal/executor/targets.go:150-170 | a task's hosts repeat no droppable address unless the inventory does |
| `Executor.Executor.MarkUnreachable` | internal/executor/targets.go:17-21 | marks exactly the host; under skip and for a host that is not required the run's account stays valid |
| `Executor.Executor.SetUnreachablePolicy` | internal/executor/targets.go:34-37 | installs the policy; the run's account stays valid if nothing has been marked |
| `Executor.Executor.Verdict` | internal/executor/targets.go:75-110 | a step fails iff some result is fatal (context error, command failure, required host), and the error is the first of a host's own in preference to a cancelled bystander |
| `Executor.Executor.SkipUnreachable` | internal/executor/targets.go:75-125 | either exactly the failed hosts are marked and leave the list, or the step fails and nothing is marked |
| `Executor.Executor.ApplyUnreachablePolicy` | internal/executor/targets.go:46-55 | under abort fails iff any host failed, with the most informative error, and marks nothing; under skip fails iff some result is fatal, with the decisive one, and else drops exactly the failed hosts |
| `Executor.Executor.DropUnreachable` | internal/executor/targets.go:59-68 | drops iff the policy is skip, the context is live, the error says unreachable and the host is not required |
| `Executor.Executor.RunOnReport` | internal/executor/executor.go:223-250 | one result per host in host order; nothing at all in a dry run |
| `Executor.Executor.RunOn` | internal/executor/executor.go:211-218 | fails iff some host failed |
| `Executor.Executor.RunRemote` | internal/executor/run.go:101-177 | every step goes to the task's targets in order less all hosts dropped so far; a task that does not fail rendered and sent all its steps unless it ran out of hosts; it fails iff a step cannot be rendered for a host, or results decide so under the policy and failures are not ignored; a dry run sends nothing |
| `Executor.SurvivorsAt` | internal/executor/run.go:114-149 | of such a task, any one command went to exactly the targets not marked before it, in order |
| `Executor.UndecidedAt` | internal/executor/targets.go:46-55 | of a task that did not fail, no command had a failure under abort, nor under skip a context error, a command failure or a required host |
| `Executor.Executor.RemoteTurn` | internal/executor/run.go:114-164 | a step is rendered for every host left and then sent once, unless the run is dry |
| `Executor.Executor.RenderFor` | internal/executor/run.go:117-125 | renders for each host in turn and fails iff one rendering fails |
| `Executor.Executor.RunLocal` | internal/executor/run.go:179-225 | involves no host; a success rendered every step and, unless dry, ran one shell for each; it fails iff a rendering fails, or a shell fails and failures are not ignored |
| `Executor.Executor.RemoteStep` | internal/executor/run.go:146-177 | the hosts left for the next step are the targets that are not marked; with continue_on_error nothing is dropped; fails iff the results decide so and failures are not ignored |
| `Executor.Executor.RunCapture` | internal/executor/capture.go:17-64 | sends exactly the commands of the walk over its targets; fails iff the walk or the parsing does; on success, and only then, stores the parsed text under the task's own name |
| `Executor.Executor.CaptureOn` | internal/executor/capture.go:67-100 | sends the steps and collects the outputs exactly as the definition of an attempt says, errors ignored with continue_on_error |
| `Walks.AttemptFailsIff` | internal/executor/capture.go:67-100 | an attempt fails iff a step cannot be rendered, or a command fails and failures are not ignored |
| `Walks.AttemptComplete` | internal/executor/capture.go:67-100 | one that does not fail rendered every step and, unless dry, asked the target each of them |
| `Walks.AttemptText` | internal/executor/capture.go:67-100 | if all answers are successes, the text is all of them in order, line by line |
| `Executor.Executor.CaptureFrom` | internal/executor/capture.go:45-51 | hosts are tried in order; exactly those before the deciding one were dropped; log, answer and time are those of OutputWalk |
| `Executor.Executor.CaptureForAction` | internal/executor/action.go:93-103 | the same for a plugin's capture and ActionWalk |
| `Executor.ActionAsksTwice` | internal/executor/action.go:93-103 | an executor whose log shows a plugin's capture asking a host again that it had dropped, its address being listed twice |
| `Executor.OutputAsksTwice` | internal/executor/capture.go:45-51 | the same for an output task |
| `Walks.ActionWalkClearIff` | internal/executor/action.go:93-103 | a plugin's capture over a list comes to no marked host, whatever the hosts answer, iff no host is marked or repeated as far as the walk can get |
| `Walks.OutputWalkClearIff` | internal/executor/capture.go:45-51 | the same for an output task, or iff it sends nothing |
| `Walks.FreshIffNoRepeat` | internal/executor/targets.go:59-68 | in terms of the list: no position holds a marked or earlier address with all hosts before it droppable |
| `Executor.Executor.RunOnTargets` | internal/executor/action.go:149-155 | a plugin's command goes to the action's hosts less those dropped since the action started, and fails iff under skip some result is fatal, under abort some host failed |
| `Executor.Executor.RunAction` | internal/executor/action.go:20-59 | whatever a plugin calls, marks are respected and only task commands are sent; with targets, each command the plugin asks for is sent; fails iff the parameters cannot be rendered or, unless dry, the plugin is missing or fails |
| `Executor.Executor.PerformCall` | internal/executor/action.go:69-155 | a command or a file that could be rendered is one command to the action's hosts, if it has any; a capture is the walk over its live ones |
| `Executor.Executor.DispatchTask` | internal/executor/deps.go:84-95 | the task goes to its kind of execution and does what that kind owes, in what it sends and stores and in when it fails |
| `Executor.Executor.RunBody` | internal/executor/deps.go:65-78 | the body does what its kind owes; it is noted with its outcome, the log tag and the phase; output was captured iff the task asks for silence and the run is not dry, or it already was |
| `Executor.Executor.DispatchSilent` | internal/executor/capture_output.go:45-60 | the same with the output captured; writer, cluster writer and capture are restored on success and failure |
| `Executor.Executor.RunTask` | internal/executor/deps.go:14-81 | terminates; the bodies that ran are those of the task's expansion up to the first failing one, all in the phase exposed to the task; stack, log tag, writers and capture are restored on every exit; no body fails if nothing does |
| `Executor.Executor.RunEach` | internal/executor/deps.go:99-107 | hooks and deps run in listed order up to the first failure |
| `Executor.Executor.RunTaskInPhase` | internal/executor/executor.go:306-316 | as RunTask with an empty stack; the bodies ran in the given phase, and the phase before is restored on every exit |
| `TaskGraph.ExpandOkIffAcyclic` | internal/executor/deps.go:14-81 | the expansion of a task is free of errors iff every task reachable over hook and dep edges out of active tasks is present and there is no cycle among them |
| `TaskGraph.RunSucceedsIff` | internal/executor/deps.go:14-81 | a run succeeds iff every body that ran succeeded, every reachable task is present and there is no reachable cycle |
| `TaskGraph.OkExcludesBadWalks` | internal/executor/deps.go:20-25 | an error-free expansion meets no task twice on any walk and no missing task |
| `TaskGraph.FailureHasBadWalk` | internal/executor/deps.go:15-22 | a failing expansion has a walk to a missing task or around a cycle |
| `TaskGraph.BodyInBetween` | internal/executor/deps.go:51-80 | an active task's bodies are those of its before-hooks and then its deps, in listed order, its own exactly once, and those of its after-hooks |
| `TaskGraph.GatedOutRunsNothing` | internal/executor/deps.go:33-46 | a task excluded from the stage, or of an inactive plugin, runs nothing, and that is no failure |
| `TaskGraph.NeverAgain` | internal/executor/deps.go:20-25 | a task on the stack has no body in what runs below it |
| `TaskGraph.RanNext` | internal/executor/deps.go:54-58 | one more name of a list extends the run by that name's expansion, or ends it at the failure |
| `TaskGraph.RanThen` | internal/executor/deps.go:47-80 | a run that did not fail followed by another is a run of the two expansions in sequence |
| `Errors.FirstError` | internal/executor/executor.go:330-349 | none iff all succeeded; else the first failure that is a host's own, and only without any the first cancelled one |
| `Errors.Failed` | internal/runner/runner.go:115-123 | true iff some host failed |
| `Inventory.PickPrimary` | internal/deployfile/ast/filters.go:52-64 | the first host marked primary, or without any the first host |
| `Inventory.FilterKeepsOnce` | internal/deployfile/ast/filters.go:6-48 | a filter of a list that repeats no droppable address repeats none |
| `Loader.Resolver.ResolveIncludes` | internal/deployfile/load.go:123-173 | terminates; the verdict is the depth-first search's, the result is one flat fold of Merge over the files it finished, and the seen set is the search's |
| `Loader.Resolver.ResolveList` | internal/deployfile/load.go:146-167 | the same for one file's include list |
| `Loader.Load` | internal/deployfile/load.go:23-46 | the first error of base or stage, or one left fold of Merge over all files in first-visit post-order, base then stage |
| `Loader.TasksForStage` | internal/deployfile/tasks.go:14-32 | the tasks a successful load would have; with an unusable stage, the base's own; an error iff the base fails |
| `Loader.LoadSucceedsIff` | internal/deployfile/load.go:23-46 | a load gets past its includes iff every reachable file is readable and none includes itself over any path |
| `Loader.CircularIff` | internal/deployfile/load.go:129-131 | with all reachable files readable, "circular include" is reported iff the graph reachable from the Deployfile or the stage file has a cycle |
| `Loader.EachFileOnce` | internal/deployfile/load.go:133-137 | a successful load merges exactly the reachable files, each exactly once, across both resolutions |
| `Loader.IncludesAre` | internal/deployfile/load.go:147-152 | the includes of a file are the entries of its list, in order, each resolved against the file |
| `Loader.EdgesAreIncludes` | internal/deployfile/load.go:147-152 | a file leads to exactly the files its include list names |
| `Loader.SiblingsInOrder` | internal/deployfile/load.go:146-172 | in a successful visit, whatever an include leads to is merged before whatever only later includes lead to, and the including file last |
| `Loader.BaseBeforeStage` | internal/deployfile/load.go:23-46 | whatever the Deployfile leads to is merged before whatever only the stage file leads to |
| `Loader.LastOneWins` | internal/deployfile/load.go:144-172 | a layered field has the value of a file after which no other sets it |
| `Loader.LaterIncludeWins` | internal/deployfile/load.go:146-167 | of the includes of a Deployfile, a later one's value wins over whatever the earlier ones lead to |
| `Loader.LoadedField` | internal/deployfile/load.go:144-172 | every field that layers comes in a load from the last file in merge order that sets it |
| `Loader.LoadedList` | internal/deployfile/load.go:144-172 | every list that appends is in a load the exact concatenation in merge order |
| `Loader.LoadedScalars` | internal/deployfile/ast/merge.go:15-47 | the top-level scalars and linked lists of a load |
| `Loader.LoadedApp` | internal/deployfile/ast/merge.go:99-121 | every field of app of a load |
| `Loader.LoadedSSH` | internal/deployfile/ast/merge.go:123-168 | the SSH credentials of a load |
| `Loader.LoadedSSHSwitches` | internal/deployfile/ast/merge.go:123-168 | the other SSH settings of a load |
| `Loader.LoadedLog` | internal/deployfile/ast/merge.go:67-97 | every field of log of a load |
| `Loader.LoadedEntries` | internal/deployfile/ast/merge.go:173-192 | every entry of tasks, vars, envs, hooks and identities of a load |
| `Loader.LoadedLists` | internal/deployfile/ast/merge.go:29-59 | the hosts, plugins, env files and custom phases of a load: none lost, none doubled |
| `Loader.VisitFinishes` | internal/deployfile/load.go:123-173 | a visit without error finishes its file and all it includes, in topological order, whatever was seen before |
| `Loader.VisitIsGrounded` | internal/deployfile/load.go:123-142 | an error has a reason: a walk from the root that closes a cycle or ends at an unreadable file |
| `Loader.FlatDeclaring` | internal/deployfile/load.go:169-172 | the declaring file merged over its includes is the fold with that file last |
| `Loader.FlatMerge` | internal/deployfile/load.go:153-167 | the merge of two folds is the fold over both lists |
| `Deployfile.MergeAssociative` | internal/deployfile/ast/merge.go:12-65 | Merge is associative |
| `Deployfile.MergeEmptyRight` | internal/deployfile/ast/merge.go:12-65 | the empty configuration is a right identity |
| `Deployfile.MergeEmptyLeft` | internal/deployfile/ast/merge.go:12-65 | and a left identity up to the include list |
| `Deployfile.MergeNested` | internal/deployfile/ast/merge.go:12-65 | merging a whole fold on top is folding on |
| `Deployfile.FieldFromLastFile` | internal/deployfile/ast/merge.go:12-65 | in a fold over files, a field that layers comes from the last file that sets it |
| `Deployfile.FieldIsConcatenation` | internal/deployfile/ast/merge.go:29-59 | in a fold over files, a field that appends is the exact concatenation |
| `Deployfile.ScalarsAreLayered` | internal/deployfile/ast/merge.go:15-47 | version, description, scripts_dir, on_unreachable and the linked lists layer |
| `Deployfile.AppIsLayered` | internal/deployfile/ast/merge.go:99-121 | so does every field of app |
| `Deployfile.SSHIsLayered` | internal/deployfile/ast/merge.go:123-168 | so do user, port, identity and passphrase |
| `Deployfile.SSHSwitchesAreLayered` | internal/deployfile/ast/merge.go:123-168 | so do the known_hosts file, the switches, the forwarded key and the bastion |
| `Deployfile.LogIsLayered` | internal/deployfile/ast/merge.go:67-97 | so does every field of log |
| `Deployfile.MapEntriesAreLayered` | internal/deployfile/ast/merge.go:173-183 | so does every key of vars, envs and tasks |
| `Deployfile.HookEntriesAreLayered` | internal/deployfile/ast/merge.go:173-192 | so does every key of the hooks and of the identities |
| `Deployfile.ListsAreAppended` | internal/deployfile/ast/merge.go:29-59 | hosts, plugins, env_files and custom_phases append |
| `Fanout.Bounded` | internal/runner/runner.go:51-90 | at most the allowed number of calls is in progress at any time, and no target is called twice |
| `Fanout.NotCalledAfterCancel` | internal/runner/runner.go:64-101 | a target not past its check when the context is done is never called, and its result is a context error that does not read as unreachable |
| `Fanout.ContextStays` | internal/runner/runner.go:51-90 | only the first cancel counts |
| `Fanout.FailFastCancels` | internal/runner/runner.go:78-83 | with fail-fast, once a call has failed the context is done |
| `Fanout.OtherwiseAllAreCalled` | internal/runner/runner.go:51-90 | without it and with a live parent nothing is cancelled, and every target with a result was called exactly once |
| `Fanout.FailureHasCause` | internal/runner/runner.go:72-90 | with a live parent and honest calls, a failure or a cancelled context always has a failure of some target's own behind it |
| `Fanout.Surfaced` | internal/executor/executor.go:330-349 | the error surfaced for such a run is some target's own failure, never a cancelled bystander's |
| `Fanout.RunsAreShort` | internal/runner/runner.go:65-90 | every run ends within five steps for each target and one for the parent |
| `Fanout.AlwaysMoves` | internal/runner/runner.go:65-90 | as long as a target is not done some goroutine or the launching loop can move |
| `Fanout.StuckIsDone` | internal/runner/runner.go:65-90 | a run that can go no further has a result for every target, which was called exactly once or skipped with a context error |
| `RenderCache.Renderer.RenderContext` | internal/executor/render.go:207-232 | with or without a cached entry, exactly what a computation from the current base would give, dry run included |
| `RenderCache.Renderer.GlobalEnv` | internal/executor/render.go:182-199 | fails iff some value does not render, else has every value rendered against the host's context |
| `RenderCache.UncachedMeans` | internal/executor/render.go:182-232 | a context has the current base, the host, the host's roles and all envs rendered; it fails iff one does not render and the run is not dry |
| `RenderCache.Renderer.SetReleaseContext` | internal/executor/executor.go:262-266 | changes its fields only, and leaves the cache coherent |
| `RenderCache.Renderer.SetCommitHash` | internal/executor/executor.go:271-274 | likewise |
| `RenderCache.Renderer.SetPreviousCommitHash` | internal/executor/executor.go:279-282 | likewise |
| `RenderCache.Renderer.SetChangelog` | internal/executor/executor.go:287-290 | likewise |
| `RenderCache.Renderer.SetError` | internal/executor/executor.go:319-322 | likewise |
| `RenderCache.Renderer.SetTaskState` | internal/executor/capture.go:131-135 | likewise, for one task's value |
| `RenderCache.Renderer.EnterPhase` | internal/executor/executor.go:306-316 | likewise, and returns the phase to restore |
| `RenderCache.RacingRendersAreFresh` | internal/executor/render.go:207-232 | however renders race between lookup and store, each returns what a fresh computation from the base of that moment would |
| `ConnPool.KeyIffIdentity` | internal/runner/cluster.go:145-165 | for NUL-free fields, two targets share a key iff they agree on transport, host and, for SSH, port, user, identity file and effective strictness |
| `ConnPool.LeaksIff` | internal/runner/cluster.go:166-228 | a connection leaves the map unclosed iff a Close came while its dial was outstanding |
| `ConnPool.NothingLeaks` | internal/runner/cluster.go:166-228 | if no Close does, every opened connection is in the map or was closed exactly once, never both |
| `ConnPool.ReachableKeyed` | internal/runner/cluster.go:166-228 | each key leads to an entry of that key, and in every run no connection is closed twice |
| `ConnPool.AbortedIsRedialled` | internal/runner/cluster.go:190-212 | once a caller has returned from an aborted dial, the key no longer leads to that entry |
| `ConnPool.DisorderlyCloseLeaks` | internal/runner/cluster.go:215-228 | a concrete run in which a Close during a dial leaks |
| `HostKeys.TrustIffRivalFree` | transport/ssh/client.go:588-645 | of a host unknown at the start, over every interleaving of dials: every moment of a run is such that no continuation accepts two keys, iff no append of the run was torn while an open dial that had seen no key presented a different one |
| `HostKeys.AgreedStep` | transport/ssh/client.go:600-645 | of all steps exactly such a torn append ends the agreement on one key |
| `HostKeys.SafeIffAgreed` | transport/ssh/client.go:600-645 | a state is safe for all continuations iff one key at most is on file and no open dial can add another |
| `HostKeys.OneKeyPerHost` | transport/ssh/client.go:588-645 | all accepted dials of a run without such an append have one key, which is the only one on file |
| `HostKeys.OneLineIffNeverBesideAnother` | transport/ssh/client.go:608-642 | a second line for the host can come about iff an append was torn beside another open dial that had seen no key |
| `HostKeys.WholeAppendsSuffice` | transport/ssh/client.go:588-645 | with all-or-nothing appends one key is accepted and at most one line recorded |
| `HostKeys.KnownHostsKeepTheirKeys` | transport/ssh/client.go:600-606 | a host with keys on file keeps exactly those, and only they are accepted |
| `HostKeys.TornAppendBreaksTrust` | transport/ssh/client.go:625-637 | a concrete run in which a half-failed append lets two keys be accepted |
| `LineWriter.LineWriter.Write` | internal/runner/output.go:70-99 | emits exactly the complete lines and overlong pieces of buffer plus input, raw output showing each behind the prefix; a rejected line is dropped and all behind it kept |
| `LineWriter.LineWriter.Flush` | internal/runner/output.go:102-111 | emits what is left, terminated |
| `LineWriter.LineWriter.Emit` | internal/runner/output.go:122-136 | a handler takes every line; a raw writer takes prefix and line in two writes, and of a rejected line at most the prefix is out |
| `LineWriter.Stream` | internal/runner/output.go:70-111 | a fresh writer gives a sink the lines of the batch definition |
| `LineWriter.CutDoesNotMatter` | internal/runner/output.go:70-99 | without overlong lines, the emitted lines do not depend on how the stream was cut into writes |
| `Lines.DrainConserves` | internal/runner/output.go:74-99 | no byte is lost or reordered, and what stays buffered is shorter than the bound and free of line ends |
| `Lines.DrainInTwo` | internal/masking/masking.go:168-190 | without overlong lines, draining in two goes is draining in one |
| `Lines.FeedIsDrain` | internal/masking/masking.go:160-191 | any sequence of writes drains like their concatenation |
| `Lines.FeedKinds` | internal/masking/masking.go:168-190 | in any stream a chunk is a line with its end or a piece of exactly the bound cut off an overlong line |
| `Lines.FeedConserves` | internal/masking/masking.go:160-191 | over any sequence of writes, what came out and what is buffered is what was written |
| `Masking.MaskHides` | internal/masking/masking.go:130-142 | no registered secret that cannot clash with the placeholder is left after the secrets and the built-in rules |
| `Masking.OnlySecrets` | internal/masking/masking.go:130-142 | without rules only the secrets are masked, and without those nothing |
| `Masking.OneMoreSecret` | internal/masking/masking.go:77-87 | each secret in turn is replaced in what the ones before it left |
| `Masking.OneMoreRule` | internal/masking/masking.go:136-139 | each built-in rule in turn cuts its spans out of what the secrets and the rules before it left, and puts placeholders there |
| `Masking.MatchedIsHidden` | internal/masking/masking.go:130-142 | no text that some built-in rule cuts out of every text is left, unless it can clash with the placeholder |
| `Masking.LeavesRest` | internal/masking/masking.go:130-142 | a text without secrets that every rule keeps whole is left as it is |
| `Masking.SecretsHidden` | internal/masking/masking.go:77-87 | nor after the secrets alone |
| `Masking.CutKeepsHidden` | internal/masking/masking.go:130-142 | replacing disjoint spans by the placeholder brings no secret back |
| `Masking.CompleteIff` | internal/masking/masking.go:77-87 | for bracket-free secrets, masking is complete for all texts iff none of them lies inside "FILTERED" |
| `Masking.FilteredLeaks` | internal/masking/masking.go:20-21 | a secret the placeholder spells out survives |
| `Masking.StreamLeaksAcrossCuts` | internal/masking/masking.go:160-205 | for every stream, however cut into writes: wherever a single-line secret that cannot clash occurs in the whole output, it lies across a cut made at 64 KiB of an overlong line |
| `Masking.StreamHides` | internal/masking/masking.go:160-205 | so it occurs nowhere in the output of a stream without overlong lines |
| `Masking.StreamHidesMatched` | internal/masking/masking.go:160-205 | the same for a single-line text that some built-in rule cuts out |
| `Masking.RemovedLeaksAcrossCuts` | internal/masking/masking.go:160-205 | for every stream and any single-line text that masking removes, secret or matched: in the output it lies across a cut of an overlong line |
| `Masking.OutputConserves` | internal/masking/masking.go:160-205 | what masking has no reason to touch comes out byte for byte |
| `Masking.OverlongLeaks` | internal/masking/masking.go:154-178 | the bound on lines is needed: behind enough padding, every secret of two characters or more gets through |
| `Masking.StreamHidesPlain` | internal/masking/masking.go:160-205 | the same for a bracket-free secret that is no part of "FILTERED" |
| `Masking.Writer.Write` | internal/masking/masking.go:160-191 | puts out exactly the complete chunks, masked; disabled, passes through unbuffered |
| `Masking.Writer.Flush` | internal/masking/masking.go:194-205 | puts out the masked rest |
| `Masking.Stream` | internal/masking/masking.go:160-205 | a fresh writer puts out the batch definition |
| `Secrets.Registry.AddSecret` | internal/masking/masking.go:48-74 | registers exactly the trimmed value and its long enough lines; the list stays free of duplicates and longest first |
| `Secrets.LinesAreRegistered` | internal/masking/masking.go:55-61 | every long enough line of a multi-line secret is among what is registered |
| `Secrets.RunsAreRegistered` | internal/masking/masking.go:55-61 | by positions: every maximal run without a line end is, if long enough once trimmed |
| `Secrets.ValuesOccur` | internal/masking/masking.go:48-61 | nothing is registered that is not part of the value |
| `Secrets.TrimSpaceIs` | internal/masking/masking.go:49-57 | trimming cuts white space off both ends and nothing else |
| `Secrets.MaskedWhole` | internal/masking/masking.go:72-73 | longest first: a registered secret is masked as a whole even if it contains others |
| `Secrets.MaskedWholeWithin` | internal/masking/masking.go:72-87 | in the middle of a text too: an occurrence whose ends no registered secret lies across becomes one placeholder, and either side is masked as if it stood alone |
| `Secrets.MaskedApart` | internal/masking/masking.go:77-87 | texts that no registered secret joins are masked apart |
| `Text.ReplaceIsJoin` | internal/masking/masking.go:80-84 | replacing all is splitting and joining with the replacement |
| `Text.ReplaceApart` | internal/masking/masking.go:80-84 | replacing in two texts that no occurrence joins is replacing in each |
| `ShellQuote.QuoteIsOneWord` | internal/shtmpl/quote.go:7-9 | a shell reads the quoted form as one word equal to the original, for every string |
| `ShellQuote.QuoteDoubleIsOneWord` | internal/shtmpl/quote.go:13-21 | a shell reads it as one word equal to the original iff there is no `$`; otherwise an expansion decides |
| `ShellQuote.WrapRemoteReadsBackIff` | internal/executor/shell.go:41-81 | the exports read back as exactly the environment, followed by the rest of the line, iff every key is a shell name and no expandable value has a `$` |
| `ShellQuote.DirReads` | internal/executor/shell.go:73-81 | the directory change reads back as the directory and the command |
| `Keys.Sort` | plugins/aws/internal/dotenv/generate.go:42 | the keys in their one ascending order |
| `Keys.AscendingIsUnique` | plugins/aws/internal/dotenv/generate.go:42 | a set of keys has one ascending order |
| `Dotenv.Render` | plugins/aws/internal/dotenv/generate.go:40-61 | computes the file of the environment |
| `Dotenv.EntryShapes` | plugins/aws/internal/dotenv/generate.go:40-61 | an empty value is left bare, any other is quoted, and an entry ends its line |
| `Dotenv.PassesAreOnePass` | plugins/aws/internal/dotenv/generate.go:50-55 | the passes in sequence equal a single-pass escape |
| `Dotenv.NextPass` | plugins/aws/internal/dotenv/generate.go:50-55 | no pass disturbs what earlier ones wrote, provided the backslash goes first |
| `Dotenv.RenderReadsBackIff` | plugins/aws/internal/dotenv/generate.go:40-61 | a parser that undoes the escapes recovers the environment with CRLF replaced, in both modes, iff no key holds an equals sign |
| `Dotenv.NormalizedReadsBack` | plugins/aws/internal/dotenv/generate.go:15-61 | so it does for keys that NormalizeKey made |
| `Dotenv.ReadsBackUnchangedIff` | plugins/aws/internal/dotenv/generate.go:49 | it recovers the very environment iff besides that no value holds a CRLF |
| `Dotenv.NormalizedIsKey` | plugins/aws/internal/dotenv/generate.go:15-22 | a normalized key is a name without surrounding underscores, or a single underscore, and has no lower-case letter if upper-casing left none |
| `Dotenv.NormalizedIs` | plugins/aws/internal/dotenv/generate.go:15-22 | it is a part of the upper-cased key with an underscore for every character a key cannot hold, beyond which there were only such characters and underscores; "_" iff that part is empty |
| `Dotenv.NormalizeIsIdempotent` | plugins/aws/internal/dotenv/generate.go:15-22 | normalizing twice is normalizing once, as far as upper-casing leaves the key alone |

## Left out

- The commands themselves (structure, mirror, release, revision, symlinks, publish, cleanup) are opaque steps with an arbitrary outcome per host; of the lock script only its exclusive create is used.
- `Rollback`, `Check`, `Releases`, `Unlock` and the `replace:` checks of `New`; an operator's `deploy:unlock` bypasses the lock by design and is not a participant in `DeployLock`.
- Task fields that no modelled branch reads (description, directory, environment, inputs of actions), and which of two map values a caller could alias: maps and slices are values here.
- `Stage`, `Dir` and the other fields a load fills in after merging, `ApplyDefaults`, env files, `Validate`, and how a stage name becomes a path.
- `MergeParams`: a deep merge that is not associative.
- Phase names are an enumeration plus "any other text", so that the text of the built-in names plays no part.
- Error texts: an error keeps its chain and the host it is labelled with, not its exact wording.
- SSH handshakes, keepalive, agents, bastion hops, host key algorithms and hashed known_hosts entries; local process groups.
- Go templates, YAML, regular expressions, JSON: rendering is an uninterpreted function, and a masking rule is any function that cuts disjoint spans out of a text.
- Turning masking on or off in the middle of a stream, and secrets registered while one is being written.
- The release timestamp, the operator's name and the log lines of a run.
- The CLI, logging, `whoosh build`, schema generation, and all plugins but the dotenv renderer.
- `LastSegment` and `EnvName`: single-branch string functions.
- Executor.Executor.RunTask: requires the executor's and the cluster's writers to be the same when it is entered, which construction and every exit establish.
- Secrets.Registry.AddSecret: trims the white space of ASCII only.
- Fanout.Surfaced: a call's outcome is arbitrary, but a context error is taken to come from a done context.
- RenderCache.RacingRendersAreFresh: takes the base to change only between fanouts, as it does in a run.
- Loader.Resolver.ResolveIncludes: a path stands for its absolute form, and a file is read from a fixed file system.
- Executor.Executor.RunAction: a plugin's calls on its hosts come one after another; calls from several goroutines at once are not covered.
- HostKeys.TrustIffRivalFree: one known_hosts file that no other process writes, and one key type per host.
- Walks.OutputWalkClearIff: a step that cannot be rendered fails with an error that is neither a context error nor unreachable.
- Dotenv.NormalizeIsIdempotent: strings.ToUpper is a parameter, and only keys it leaves alone are covered.
- The trimming of a captured text, which is part of the parsing of outputs and not interpreted.
