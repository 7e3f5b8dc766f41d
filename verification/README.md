# Deployment run-time of DAnCEX11: a verified model

DAnCEX11 deploys component applications as described by the OMG "Deployment and Configuration of Component-based
Distributed Applications" specification 4.0. This project models the parts of it that carry state and proves what
they promise. `dafny verify dfyconfig.toml` checks all of it.

| module | models |
|---|---|
| `DependencySorter` | the order of instance types, for the loop as written and for the one its comment describes |
| `CompletionProtocol` | the completion object as interleaved steps of one waiting and many updating threads |
| `Scheduling` | the event queue and the completion object, run by one thread |
| `DeploymentPlan`, `Words` | the plan, and the strings that name types and properties |
| `LocalityEvents`, `LocalityManager` | the phases of a deployment, and the object that runs them |
| `DeploymentOrder`, `Connections`, `DeploymentRuns` | what the phases of a whole run amount to, for instances and for connections |
| `Directives`, `LoaderTables`, `ConfigLoader` | the one-pass builder of plans with its symbol tables |
| `PlanIntegrity`, `LocalityPartition`, `PlanContents` | what holds of every plan the builder accepts, and what its parts are |
| `EndToEnd` | from a configuration to the events of its deployment |
| `ConfigStream`, `ConfigLiteral`, `ConfigParser` | the tokenizer, the classifier of literals and the loader of integer lists |
| `ConfigShapes` | what escapes, octal, hexadecimal and mixed lists mean |
| `ArtifactUri`, `ArtifactRegistry` | locations of artifacts, and installation with reference counts by one thread |
| `ArtifactAttempts` | what failed attempts at alternative locations leave behind |
| `RegistryProtocol` | the locking of artifact registries as interleaved steps of many threads |
| `DomainApplication` | the fan-out of a launch and its teardown over the nodes |
| `Launchers` | launch, rollback and shutdown of the domain and node launchers |
| `RepositoryFolders` | folders and artifacts of an installation repository |
| `Collections` | options, look-ups, index lists and sizes of sets |

Objects whose methods update fields are classes, loops are loops, and each such method is tied to a function of its
inputs or of the old state; the properties are lemmas about these functions, and methods that make fresh objects and
drive them through whole histories (`DeployAndTearDown`, `DeployOrTearDown`, `LoadPlan`, `LoadAndDeploy`, `ReadTokens`, `LoadText`,
`RunOperations`, `LaunchAndDestroy`, `RunLauncher`, `LaunchAndShutdown`). What the code calls but does not contain is a parameter: a
function from the number of a call and its arguments to its outcome, so that the theorems hold for every mix of
successes and failures. Iteration over a `std::map` is modelled as any enumeration of its keys.

## Where the code does not do what it seems to promise

- The test "all deps satisfied" of the sorter (dancex11/scheduler/dependency_sorter.cpp:73-81) compares the size of a
  vector with the size it was created with, so it only counts. `WrittenSorterCounts` and `WrittenOrderIs` say what the
  loop computes, `WrittenIsRightExactlyWhenScheduled` for which maps and orders of their keys that is right,
  `InstalledTooEarly` what it can lead to.
- The 32 bit counter of the completion object wraps (`WrappedCounterLetsThrough`); `LetThroughExactly` says when a wait
  ends early.
- Container names are looked up but never registered (`ContainerNamesAreNotChecked`), and a reused implementation keeps
  the parameters, artifacts and type of the first directive of its name (`ReferenceIntegrity`, `TypeOfInstance`).
- A list of integers is converted as its first member is written, so lists that mix signs are not loaded back
  (`ListRoundTrip` gives the exact condition, `PrintedListValues` what they become); members that begin with "0x" are
  loaded as zero (`HexListIsZero`).
- Clearing `locked_` and broadcasting are two steps without the lock of the map, so the broadcast can come after another
  thread has deleted the registry (`BroadcastCanBeLate`); `LateExactlyWhenShared` says for which uses.
- An artifact without locations installs successfully but is not counted (`Install`), and versions of failed attempts
  stay in the list, so their handlers are asked to remove them again, or they are taken for installed
  (`RemovedTwiceAndLeft`; `VersionsReusedExactly` says when).
- When stopping fails while a failed launch is cleaned up, the domain launcher drops the application undestroyed; the
  node launcher keeps it for the shutdown (`DroppedUndestroyed`; `Launch` says when).
- `create_folder` recurs forever if the base folder of the repository is missing (`MissingBaseRecurs`,
  `ReturnsExactlyWithBase`).

## Model

| member | source | states |
|---|---|---|
| `DependencySorter.DependencySorter.AddNondependent` | dancex11/scheduler/dependency_sorter.cpp:15-20 | the subject has no dependencies afterwards, also if it had some; nothing else changes |
| `DependencySorter.DependencySorter.AddDependencies` | dancex11/scheduler/dependency_sorter.cpp:22-28 | the dependencies of the subject are replaced by the given set |
| `DependencySorter.DependencySorter.AddDependency` | dancex11/scheduler/dependency_sorter.cpp:30-46 | the one dependency is added to those of the subject, which is registered if it was not; no other subject changes |
| `DependencySorter.DependencySorter.CalculateOrder` | dancex11/scheduler/dependency_sorter.cpp:48-97 | the two nested loops compute the order function, for the loop as written and for the loop its comment describes, whatever the result holds at the start; a result of the size of the map is returned as it is |
| `DependencySorter.InitialVectorStays` | dancex11/scheduler/dependency_sorter.cpp:49-97 | what the result holds at the start stays in front and takes the places of subjects; a result larger than the map is rejected |
| `DependencySorter.OrderIsPermutation` | dancex11/scheduler/dependency_sorter.cpp:49-97 | whichever test is used, a result is a permutation of the registered subjects |
| `DependencySorter.CommentedSorterIsCorrect` | dancex11/scheduler/dependency_sorter.cpp:49-97 | with the test the comment describes: every subject comes after all its dependencies, and the exception is raised exactly when the map has a cycle or depends on an unregistered name |
| `DependencySorter.WrittenSorterCounts` | dancex11/scheduler/dependency_sorter.cpp:56-96 | the loop as written is accepted exactly when, for each k, enough subjects have at most k dependencies; every position is at least the number of dependencies; a closed acyclic map is never rejected |
| `DependencySorter.WrittenOrderOnlyCounts` | dancex11/scheduler/dependency_sorter.cpp:72-81 | the loop as written computes the same for any two maps with equal numbers of dependencies, whatever these are |
| `DependencySorter.WrittenOrderIs` | dancex11/scheduler/dependency_sorter.cpp:56-96 | without running the loop as written: it returns an order exactly if that is a permutation of the subjects, no position is below its number of dependencies, and each entry is passed over only by earlier keys with more dependencies than entries are before it |
| `DependencySorter.WrittenIsRightExactlyWhenScheduled` | dancex11/scheduler/dependency_sorter.cpp:49-97 | the loop as written puts dependencies first exactly when the map and the order of its keys have such a permutation in which every subject comes after its dependencies; that is then the result |
| `DependencySorter.WrittenIsRightExactlyWhenItAgrees` | dancex11/scheduler/dependency_sorter.cpp:49-97 | the loop as written puts dependencies first exactly when it returns what the commented loop returns |
| `DependencySorter.WrittenOrderCanBeWrong` | dancex11/scheduler/dependency_sorter.cpp:72-81 | a map on which the loop as written puts a subject before its dependency |
| `CompletionProtocol.NoLostWakeUp` | dancex11/scheduler/completion_base.h:55-72 | in every interleaving, a waiter that is parked while no broadcast is about to come has accepted futures that are not completed |
| `CompletionProtocol.ParkedWaiterIsServed` | dancex11/scheduler/completion_base.h:106-127 | when all accepted futures have their values, a parked waiter is never stuck: some update can take a step |
| `CompletionProtocol.NoPrematureWakeUp` | dancex11/scheduler/completion_counter_base.cpp:28-49 | with fewer than 2^32 futures outstanding at any time, a waiter that is let through by the test or a broadcast leaves no accepted future uncompleted |
| `CompletionProtocol.EachFutureOnce` | dancex11/scheduler/completion_base.h:55-91 | when the wait returns true, the completed and handed out events are the accepted futures, each exactly once |
| `CompletionProtocol.WrappedCounterLetsThrough` | dancex11/scheduler/completion_counter_base.cpp:22-49 | for every multiple n of 2^32 there is a run whose wait returns true with n futures outstanding |
| `CompletionProtocol.LetThroughExactly` | dancex11/scheduler/completion_counter_base.cpp:22-49 | in every execution, without a bound: a test lets the waiter through, and a decrement under a parked waiter announces a broadcast, exactly when the number of outstanding futures is a multiple of 2^32, so prematurely exactly when that multiple is positive |
| `CompletionProtocol.WaitReturns` | dancex11/scheduler/completion_base.h:119-128 | in every execution a wait that a broadcast has woken returns true, one whose timeout has expired returns false |
| `CompletionProtocol.WaitGoesOn` | dancex11/scheduler/completion_base.h:119-128 | until then the wait can take the mutex, or an update that holds it can take a step |
| `Scheduling.Completion.Accept` | dancex11/scheduler/completion_base.h:67-72 | a future that already has its value runs the update before the increment; the 32 bit counter still ends up as the number of accepted futures without a value, and each completed future is listed once |
| `Scheduling.Completion.Notify` | dancex11/scheduler/completion_base.h:55-65 | an update lists the future and takes the counter one step down |
| `Scheduling.Completion.CompletedEvents` | dancex11/scheduler/completion_base.h:81-91 | hands out the completed futures in order and leaves none behind |
| `Scheduling.Scheduler.ScheduleEvent` | dancex11/scheduler/deployment_scheduler.cpp:12-24 | appends the event to the queue |
| `Scheduling.Scheduler.PerformWork` | dancex11/scheduler/deployment_scheduler.cpp:63-77 | calls the oldest queued event, whose future gets its value and notifies the completion object |
| `Scheduling.Scheduler.WaitOnCompletion` | dancex11/scheduler/deployment_default_wait_strategy.cpp:46-71 | works off the queue in order until it is empty or the time is up; without timeout the queue is empty, the counter zero, and the completed futures are those of the queued events, in schedule order |
| `Scheduling.CounterIsQueueLength` | dancex11/scheduler/completion_counter_base.cpp:22-49 | between operations the counter is the number of queued events modulo 2^32 |
| `LocalityManager.LocalityManager.PreparePlan` | dancex11/locality_deployment_handler/dancex11_locality_manager_impl.cpp:105-147 | the instances of each type are added to the handler table, in plan order; the table lists exactly the instances of the plan if and only if it listed none before |
| `LocalityManager.LocalityManager.Collect` | dancex11/locality_deployment_handler/dancex11_locality_manager_impl.cpp:199-222 | after the wait every dispatched event has run once, in order, and the results fetched are theirs, in the same order |
| `LocalityManager.LocalityManager.FirstException` | dancex11/locality_deployment_handler/dancex11_locality_manager_impl.cpp:222-245 | an exception is raised exactly if some result carries one, and it is the first |
| `LocalityManager.LocalityManager.InstallInstances` | dancex11/locality_deployment_handler/dancex11_locality_manager_impl.cpp:166-246 | runs one install event per instance of each listed type, in the order of the types; raises exactly if one failed |
| `LocalityManager.LocalityManager.CollectReferences` | dancex11/locality_deployment_handler/dancex11_locality_manager_impl.cpp:248-366 | open references for external connections and one fetched reference per providing endpoint of the others; none if an event failed |
| `LocalityManager.LocalityManager.StartLaunch` | dancex11/locality_deployment_handler/dancex11_locality_manager_impl.cpp:151-164 | installs and then collects references, unless the installation failed |
| `LocalityManager.LocalityManager.FinishLaunch` | dancex11/locality_deployment_handler/dancex11_locality_manager_impl.cpp:368-589 | connects, then configures on the same completion object, then starts only if asked to; each phase only if the one before succeeded; raises what the first failed event was for |
| `LocalityManager.LocalityManager.Start` | dancex11/locality_deployment_handler/dancex11_locality_manager_impl.cpp:704-777 | one start event per instance of each listed type, in the order of the types |
| `LocalityManager.LocalityManager.Stop` | dancex11/locality_deployment_handler/dancex11_locality_manager_impl.cpp:779-856 | one passivate event per instance of each listed type, in the reverse order of the types |
| `LocalityManager.LocalityManager.DisconnectConnections` | dancex11/locality_deployment_handler/dancex11_locality_manager_impl.cpp:591-701 | one disconnect event per supported connection of the plan, at the endpoint that was connected |
| `LocalityManager.LocalityManager.DestroyApplication` | dancex11/locality_deployment_handler/dancex11_locality_manager_impl.cpp:858-935 | disconnects everything first, and only if that succeeds removes the instances in reverse order of the types |
| `DeploymentOrder.PhaseHandlesOnce` | dancex11/locality_deployment_handler/dancex11_locality_manager_impl.cpp:175-199 | given a list of types without duplicates, each instance of a listed type is handled exactly once and no other instance is |
| `DeploymentOrder.PhaseRespects` | dancex11/locality_deployment_handler/dancex11_locality_manager_impl.cpp:175-199 | given an order of types that puts dependencies first, a phase handles the instances a type depends on before its own, the reversed phase after them |
| `DeploymentOrder.RunRespectsDependencies` | dancex11/locality_deployment_handler/dancex11_locality_manager_impl.cpp:151-935 | over a whole run, with whatever failures, also if a failed launch is torn down: nothing is installed, configured or started before what its type depends on, or passivated or removed after it |
| `DeploymentOrder.RunHandlesAtMostOnce` | dancex11/locality_deployment_handler/dancex11_locality_manager_impl.cpp:151-935 | over a whole run, also if a failed launch is torn down, no instance is handled twice by one kind of event |
| `DeploymentOrder.RunHandlesListed` | dancex11/locality_deployment_handler/dancex11_locality_manager_impl.cpp:151-935 | in a run without failures each instance of a listed type is handled exactly once by each kind of event; instances of other types never are |
| `DeploymentOrder.DeployAndTearDown` | dancex11/locality_deployment_handler/dancex11_locality_manager_impl.cpp:105-935 | the objects, called in the order of a deployment, with start called after finishLaunch or by it, execute exactly the trace of the phases up to the first phase with a failure, and raise exactly if there is one, naming what the first failed event was for |
| `DeploymentOrder.DeployOrTearDown` | dancex11/domain_deployment_handler/dancex11_domain_deployment_handler.cpp:93-229 | a launch that raises after its application exists is followed by stop and, if that succeeds, destroyApplication: the objects execute exactly the trace of such a run |
| `DeploymentRuns.RunInPhaseOrder` | dancex11/locality_deployment_handler/dancex11_locality_manager_impl.cpp:151-935 | events are executed in the order install, fetch references, connect, configure, start, passivate, disconnect, remove; after one that failed only events of the same kind are |
| `DeploymentRuns.RunHandlesBegun` | dancex11/locality_deployment_handler/dancex11_locality_manager_impl.cpp:151-935 | a phase that a run has come to, and each before it, handles every instance of a listed type exactly once, whatever fails |
| `DeploymentRuns.RunConnectsAtMostOnce` | dancex11/locality_deployment_handler/dancex11_locality_manager_impl.cpp:256-701 | over a whole run, also if a failed launch is torn down, no reference is fetched, no connection connected or disconnected twice; references are fetched at the providing end, connections made and released at the receptacle or the sole internal endpoint |
| `DeploymentRuns.RunConnectsBegun` | dancex11/locality_deployment_handler/dancex11_locality_manager_impl.cpp:256-701 | a phase over the connections that a run has come to, and each before it, handles every connection exactly once, whatever fails |
| `DeploymentRuns.RunConnectsEach` | dancex11/locality_deployment_handler/dancex11_locality_manager_impl.cpp:256-701 | a run without failures fetches the reference of each internal connection once, and connects and disconnects each connection once |
| `DeploymentOrder.WrittenOrderServes` | dancex11/scheduler/dependency_sorter.cpp:49-97 | the order of the loop as written serves a deployment exactly when the map and the order of its keys have a schedule, and is then the order its commented test gives |
| `DeploymentOrder.InstalledTooEarly` | dancex11/scheduler/dependency_sorter.cpp:72-81 | a plan and dependencies for which the order of the sorter installs an instance before one it depends on |
| `Connections.OneReferenceEach` | dancex11/locality_deployment_handler/dancex11_locality_manager_impl.cpp:256-308 | for well-formed connections with distinct names the collected references are one per connection, open for the external ones; those of external connections come first, otherwise they are in the order of the plan |
| `Connections.SupportedShapes` | dancex11/locality_deployment_handler/dancex11_locality_manager_impl.cpp:404-439 | at which endpoint a connection of any shape is connected, and which shapes are skipped |
| `Connections.ConnectedAndDisconnectedOnce` | dancex11/locality_deployment_handler/dancex11_locality_manager_impl.cpp:385-461 | exactly one reference, one connect and one disconnect per connection, the last two at the receptacle or at the sole internal endpoint |
| `ConfigLoader.ConfigLoader.AddConnection` | dancex11/configurator/dancex11_config_loader.cpp:1900-1967 | refuses a connection exactly if its name is taken; otherwise plan, name table and endpoint table hold it in addition |
| `ConfigLoader.ConfigLoader.LoadLinks` | dancex11/configurator/dancex11_config_loader.cpp:1840-1971 | accepts the links of a connection item exactly if all are complete and all names are new; each adds a connection whose ends provide and use as the link says |
| `ConfigLoader.ConfigLoader.LoadExternals` | dancex11/configurator/dancex11_config_loader.cpp:1973-2118 | the same for links to external references |
| `ConfigLoader.ConfigLoader.LoadItems` | dancex11/configurator/dancex11_config_loader.cpp:894-1052 | the items of a directive amount to their execution parameters, properties, node, locality, artifacts and connections, or are refused exactly if one is incomplete, out of place or repeats a connection name |
| `ConfigLoader.ConfigLoader.LoadComponent` | dancex11/configurator/dancex11_config_loader.cpp:817-1142 | accepts a component exactly if its name is not that of a component and its items are accepted; plan and tables then hold it in addition |
| `ConfigLoader.ConfigLoader.LoadLocality` | dancex11/configurator/dancex11_config_loader.cpp:1144-1361 | accepts a locality manager exactly if its locality has none and its items are accepted |
| `ConfigLoader.ConfigLoader.LoadContainer` | dancex11/configurator/dancex11_config_loader.cpp:1363-1607 | accepts a container exactly if its name is not that of a component and its items are accepted; it is registered under no name |
| `ConfigLoader.ConfigLoader.LoadDirectives` | dancex11/configurator/dancex11_config_loader.cpp:300-352 | accepts a configuration exactly if each directive is accepted after those before it; all tables then agree with the directives |
| `ConfigLoader.ConfigLoader.ResolveEndpoints` | dancex11/configurator/dancex11_config_loader.cpp:377-398 | fails exactly if a connection mentions an instance that is not in the table; otherwise all endpoints refer to the instances of their owners and nothing else changes |
| `ConfigLoader.ConfigLoader.ConstrainNode` | dancex11/configurator/dancex11_config_loader.cpp:403-421 | one DifferentProcess constraint with the first instance of each locality and one SameProcess constraint per locality |
| `ConfigLoader.ConfigLoader.FinalizeComponentPlan` | dancex11/configurator/dancex11_config_loader.cpp:370-425 | fails exactly if a connection mentions an instance that is no component; otherwise endpoints are resolved and localities constrained |
| `ConfigLoader.LoadPlan` | dancex11/configurator/dancex11_config_loader.cpp:300-425 | a plan comes out exactly if all directives are accepted and all connections are between components, and then it is the plan of the directives |
| `PlanIntegrity.AcceptedExactly` | dancex11/configurator/dancex11_config_loader.cpp:845-874 | one by one acceptance in terms of the whole configuration: items complete and in place, connection names distinct, no component name reused by a later component or container, one manager per locality |
| `PlanIntegrity.ReferenceIntegrity` | dancex11/configurator/dancex11_config_loader.cpp:1077-1120 | each instance refers to the implementation of its name, with the parameters and artifacts of the first directive of that name; all references are in range |
| `PlanContents.InstanceSays` | dancex11/configurator/dancex11_config_loader.cpp:919-1020 | an instance of an accepted plan has the name of its directive, the node that the last of its node items names or none, and as configuration properties exactly its property, locality and container items, in their order |
| `PlanContents.ImplementationSays` | dancex11/configurator/dancex11_config_loader.cpp:1022-1120 | its implementation has the name that artifact and factory, or the kind of directive, give, the execution parameters of the first directive of that name in their order followed by the standard ones, and exactly the artifacts of that directive, in their order |
| `PlanContents.FirstTypeDecides` | dancex11/core/dancex11_utility.cpp:115-158 | the first parameter that has to do with the type decides the type of an instance |
| `PlanContents.PlaceSays` | dancex11/configurator/dancex11_config_loader.cpp:962-1000 | an instance is placed on the node named last, in the locality named last; without one a locality manager in that of its name, and any other instance nowhere |
| `PlanContents.SameProcessSays` | dancex11/configurator/dancex11_config_loader.cpp:400-422 | two instances of an accepted plan have to share a process exactly if their items put them on one node and into one locality |
| `PlanContents.ConnectionsSay` | dancex11/configurator/dancex11_config_loader.cpp:1840-2118 | an accepted plan has exactly one connection for each link and each external link, in the order of the configuration, with the names, ports, directions, kinds and external references written there and the components of the names at its ends |
| `PlanContents.OwnedExactly` | dancex11/configurator/dancex11_config_loader.cpp:377-398 | a configuration in order can be finished exactly if every peer of a link is a component |
| `PlanContents.AcceptedItems` | dancex11/configurator/dancex11_config_loader.cpp:1840-2118 | only components have connections, locality managers have no container item, and links are written with < or > and are complete |
| `PlanIntegrity.ImplementationNamesDistinct` | dancex11/configurator/dancex11_config_loader.cpp:866-875 | no two implementations have one name |
| `PlanIntegrity.EndpointsResolved` | dancex11/configurator/dancex11_config_loader.cpp:377-398 | each internal endpoint refers to the one component that has the name the configuration gives |
| `PlanIntegrity.PlanIsDeployable` | dancex11/configurator/dancex11_config_loader.cpp:1895-2118 | an accepted plan has all references in range, connections of the two supported shapes and distinct connection names |
| `PlanIntegrity.TypeOfInstance` | dancex11/core/dancex11_utility.cpp:115-158 | the type of an instance as the locality manager derives it: component for components, otherwise the keyword of the first directive with the same implementation name, unless execution parameters say otherwise |
| `PlanIntegrity.ContainerNamesAreNotChecked` | dancex11/configurator/dancex11_config_loader.cpp:1384-1397 | two containers of one name are accepted, and a component after a container of its name, but not the other way round |
| `Directives.PlaceIgnoresOrder` | dancex11/configurator/dancex11_config_loader.cpp:919-976 | node and locality of an instance do not depend on the order of the node and locality items |
| `LocalityPartition.OneConstraintEach` | dancex11/configurator/dancex11_config_loader.cpp:400-422 | the constraints are in one-to-one correspondence with the occupied localities, whose instances they hold, and the used nodes, the first instances of whose localities they hold |
| `LocalityPartition.InstancesPartitioned` | dancex11/configurator/dancex11_config_loader.cpp:400-422 | an instance is in a SameProcess constraint exactly if it has a locality, and then in only one; two instances share one exactly if node and locality are equal |
| `EndToEnd.AcceptedConnectionsAreMadeOnce` | dancex11/locality_deployment_handler/dancex11_locality_manager_impl.cpp:256-701 | for every accepted configuration each declared connection has one reference, and is connected once and disconnected once, both times for the one component of the name at its using end |
| `EndToEnd.AcceptedRunConnects` | dancex11/locality_deployment_handler/dancex11_locality_manager_impl.cpp:256-701 | in a run of the plan of an accepted configuration each declared connection is connected and disconnected at most once, for the one component of the name at its using end; without failures exactly once |
| `EndToEnd.LoadAndDeploy` | dancex11/configurator/dancex11_config_loader.cpp:300-425 | loading and deploying as one: a plan exactly for consistent configurations, and then the trace of its phases |
| `EndToEnd.LinkDirection` | dancex11/configurator/dancex11_config_loader.cpp:1916-1941 | a link written < makes the instance it is written for the using end with a receptacle and the peer the providing end with a facet; > the other way round |
| `EndToEnd.ExternalDirection` | dancex11/configurator/dancex11_config_loader.cpp:2065-2083 | an external link written < uses the external reference at its location, > provides to it; the instance is the only owner either way |
| `ConfigStream.ConfigStream.GetEscape` | dancex11/configurator/dancex11_config_stream.cpp:47-111 | an escape yields its character; the letter of a letter escape stays in the input, hexadecimal and octal digits do not |
| `ConfigStream.ConfigStream.QuotedToken` | dancex11/configurator/dancex11_config_stream.cpp:156-176 | reads to the closing quote, or to the end of the input with one more character for it |
| `ConfigStream.ConfigStream.NextToken` | dancex11/configurator/dancex11_config_stream.cpp:115-228 | terminates on every input, and token, break character, line and remaining input are those of the scanning function |
| `ConfigStream.TokenRoundTrip` | dancex11/configurator/dancex11_config_stream.cpp:115-228 | reading a printed list of identifiers with separators gives back the identifiers and separators; whitespace and comment lines around them change only the line, by their number of lines |
| `ConfigStream.QuotedRoundTrip` | dancex11/configurator/dancex11_config_stream.cpp:155-176 | a quoted text without escapes is one token with its quotes, whatever is in it and whatever follows |
| `ConfigStream.LetterIsReadAgain` | dancex11/configurator/dancex11_config_stream.cpp:74-87 | a letter escape yields its character and then the letter itself once more |
| `ConfigShapes.LetterEscapes` | dancex11/configurator/dancex11_config_stream.cpp:69-88 | which characters the letters n, r, t, f, v, b and a stand for, each followed by the letter itself |
| `ConfigShapes.EscapedRoundTrip` | dancex11/configurator/dancex11_config_stream.cpp:47-176 | a quoted text whose characters are written as themselves, after a backslash, as two hexadecimal or three octal digits, in any mixture, is one token with exactly these characters; octal numbers count modulo 256 |
| `ConfigShapes.UnclosedQuote` | dancex11/configurator/dancex11_config_stream.cpp:155-176 | a quoted text that is not closed extends to the end of the input, with one character more |
| `ConfigShapes.AssignmentBreaks` | dancex11/configurator/dancex11_config_stream.cpp:26-36 | where an assignment is expected, = ends an identifier |
| `ConfigShapes.SeparatorsSkipped` | dancex11/configurator/dancex11_config_stream.cpp:188-193 | separators before a token are skipped |
| `ConfigStream.ReadTokens` | dancex11/configurator/dancex11_config_stream.cpp:115-228 | repeated calls on one stream read what the scanning function says, one after the other |
| `ConfigParser.ConfigParser.ParseNext` | dancex11/configurator/dancex11_config_parser.cpp:58-73 | the next token is text exactly if it is neither empty nor a keyword |
| `ConfigParser.ConfigParser.LiteralTypeHere` | dancex11/configurator/dancex11_config_loader.cpp:2127-2208 | the type of a literal, or of the first member of a list, which becomes the current token |
| `ConfigParser.ConfigParser.LoadMembers` | dancex11/configurator/dancex11_config_loader.cpp:2608-2627 | converts all tokens up to the closing bracket, or up to a token that is no text, by the type of the first |
| `ConfigParser.ConfigParser.LoadPropertyValue` | dancex11/configurator/dancex11_config_loader.cpp:2246-2265 | the type of the literal decides how an untyped list is loaded; a list without closing bracket fails |
| `ConfigParser.LoadText` | dancex11/configurator/dancex11_config_loader.cpp:2246-2265 | parser, classifier and list loop, called on a text, load what the functions over the scanned text say |
| `ConfigLiteral.ParsePrinted` | dancex11/configurator/dancex11_config_util.h:58-76 | extracting a printed integer gives it back on the signed and the unsigned 64 bit range; beyond them the nearest bound, and never a negative number unsigned; a negative number wraps as an unsigned one |
| `ConfigLiteral.ClassifyPrinted` | dancex11/configurator/dancex11_config_loader.cpp:2154-2203 | a printed integer is classified as signed exactly if it is negative, otherwise as unsigned |
| `ConfigShapes.ClassifySays` | dancex11/configurator/dancex11_config_loader.cpp:2154-2203 | the first characters of a literal decide its kind |
| `ConfigLiteral.ListLoads` | dancex11/configurator/dancex11_config_loader.cpp:2545-2627 | the kind of the first member decides how all members of a list, however written, are converted |
| `ConfigLiteral.PrintedListLoads` | dancex11/configurator/dancex11_config_loader.cpp:2127-2147 | a printed list is loaded with all members converted as the sign of the first says |
| `ConfigLiteral.ListRoundTrip` | dancex11/configurator/dancex11_config_loader.cpp:2545-2564 | a printed list of integers is loaded back exactly if all are below 2^64 and none is negative, or the first is negative and all are in the signed range |
| `ConfigShapes.PrintedListValues` | dancex11/configurator/dancex11_config_loader.cpp:2545-2627 | what each member of any printed list becomes: clamped as a signed number if the first is negative; otherwise a negative member wraps and one too large becomes the largest |
| `ConfigShapes.OctalListRoundTrip` | dancex11/configurator/dancex11_config_loader.cpp:2545-2627 | a list of octal literals is loaded back exactly if all are below 2^64 |
| `ConfigShapes.SeventeenIsFifteen` | dancex11/configurator/dancex11_config_util.h:88-96 | the list [017] is loaded as 15 |
| `ConfigShapes.HexListIsZero` | dancex11/configurator/dancex11_config_util.h:68-86 | members that begin with 0x are loaded as zero |
| `ConfigShapes.UnclosedListFails` | dancex11/configurator/dancex11_config_loader.cpp:2608-2627 | a list of integers that is not closed fails |
| `ArtifactUri.ParseUri` | tools/artifact_installation/artifact_installation_impl.cpp:304-353 | a location without colon is left as it is, with an empty stack; any other is taken apart exactly if it is protocols with colons, two slashes and a path, the last protocol on top |
| `ArtifactUri.PrintAndParse` | tools/artifact_installation/artifact_installation_impl.cpp:304-353 | parsing a printed location gives back its protocols and its path |
| `ArtifactRegistry.AttemptMeans` | tools/artifact_installation/artifact_installation_impl.cpp:196-262 | after a successful attempt the last version is that of the protocol handled last; without keep_intermediates it is the only one, whatever was there before |
| `ArtifactRegistry.AttemptsMean` | tools/artifact_installation/artifact_installation_impl.cpp:190-301 | if the attempts at alternative locations succeed, one of them did, the list of versions is what it left, and it is not empty |
| `ArtifactRegistry.ChainMeans` | tools/artifact_installation/artifact_installation_impl.cpp:207-237 | if every handler succeeds there is one version per protocol, from the top of the stack to its bottom, and the last has the final location |
| `ArtifactRegistry.ChainCalls` | tools/artifact_installation/artifact_installation_impl.cpp:207-237 | the first handler is called with the location of the request and every other one with the location that the one before installed to; each recorded version is what its handler returned |
| `ArtifactRegistry.PurgeMeans` | tools/artifact_installation/artifact_installation_impl.cpp:529-572 | removing intermediates never removes the last version, and leaves only it if no handler raises |
| `ArtifactRegistry.PurgeCalls` | tools/artifact_installation/artifact_installation_impl.cpp:529-572 | without failure the handlers of all versions but the last are asked to remove them, each once and in order; with one, those up to the one that fails |
| `ArtifactRegistry.PurgeFailure` | tools/artifact_installation/artifact_installation_impl.cpp:529-572 | a failure is that of the last call, and the list then begins with the version of that call |
| `ArtifactRegistry.AttemptCalls` | tools/artifact_installation/artifact_installation_impl.cpp:207-262 | an attempt calls the install handlers and then, unless intermediates are kept or one failed, the remove handlers of all versions but the last, also of those that earlier attempts left |
| `ArtifactRegistry.IntermediatesRemoved` | tools/artifact_installation/artifact_installation_impl.cpp:207-262 | a first attempt without keep_intermediates has every handler install, from top to bottom, and then all but the last remove what they installed |
| `ArtifactRegistry.RemovalsAt` | tools/artifact_installation/artifact_installation_impl.cpp:590-619 | the removals asked for are those of the versions that have a handler, in order, and no other |
| `ArtifactRegistry.RemoveAllMeans` | tools/artifact_installation/artifact_installation_impl.cpp:574-620 | without failure every version with a known protocol is removed once, in order; with one, the first ones up to the one that failed |
| `ArtifactRegistry.ArtifactInstallation.RunProtocols` | tools/artifact_installation/artifact_installation_impl.cpp:207-237 | handlers are called from the top of the stack with the location the one before returned, until one fails or is unknown; each success is appended to the versions |
| `ArtifactRegistry.ArtifactInstallation.RemoveIntermediates` | tools/artifact_installation/artifact_installation_impl.cpp:529-572 | versions are removed from the front until one is left or a handler raises |
| `ArtifactRegistry.ArtifactInstallation.RemoveVersions` | tools/artifact_installation/artifact_installation_impl.cpp:574-620 | the handlers remove all versions with a protocol, in order, until one raises; the list is not changed |
| `ArtifactRegistry.ArtifactInstallation.Attempt` | tools/artifact_installation/artifact_installation_impl.cpp:193-259 | one attempt at one location |
| `ArtifactRegistry.ArtifactInstallation.TryLocations` | tools/artifact_installation/artifact_installation_impl.cpp:189-301 | calls, versions and exception are those of the attempts one after the other: after each that raises PlanError the whole list of versions is removed, and the next begins with that list; the count is one exactly after a success at some location |
| `ArtifactRegistry.ArtifactInstallation.Install` | tools/artifact_installation/artifact_installation_impl.cpp:135-302 | a repeated installation only counts and leaves the versions alone; a first one makes the attempts, beginning with the versions that earlier failed ones left; no other registry changes |
| `ArtifactRegistry.ArtifactInstallation.Remove` | tools/artifact_installation/artifact_installation_impl.cpp:622-659 | unknown artifacts raise; the last installation is unlinked whether or not its versions can be removed; others only count |
| `ArtifactAttempts.StaleIsReused` | tools/artifact_installation/artifact_installation_impl.cpp:190-301 | with versions of failed attempts in the list, the next attempt hands one of them to its handler again or succeeds with it in the list, exactly if no handler raises anything but PlanError for the protocols of the next location |
| `ArtifactAttempts.VersionsReusedExactly` | tools/artifact_installation/artifact_installation_impl.cpp:190-301 | a version of a failed attempt is removed again, or left in the list after success, exactly when an attempt fails after its first handler has installed (or an earlier installation has left versions), the cleanup succeeds, there is another location and the handlers of its protocols raise nothing but PlanError |
| `ArtifactAttempts.RemovedTwiceAndLeft` | tools/artifact_installation/artifact_installation_impl.cpp:279-301 | handlers and three locations with which a version installed once is removed twice and left in the list after success |
| `ArtifactRegistry.CountIsDifference` | tools/artifact_installation/artifact_installation_impl.h:205-220 | the 32 bit counter is successful installs minus effective removes, modulo 2^32, and exactly below 2^32 operations |
| `ArtifactRegistry.RunOperations` | tools/artifact_installation/artifact_installation_impl.cpp:135-506 | after any sequence of installs and removes with any failures of handlers the counters, and which registries exist, are those the history says, and an installed artifact has a version |
| `RegistryProtocol.OwnershipIsExclusive` | tools/artifact_installation/artifact_installation_impl.cpp:395-485 | in every interleaving a registry is locked exactly when one thread owns its guard, and no two threads own one |
| `RegistryProtocol.ErasedIsTouchedByEraserOnly` | tools/artifact_installation/artifact_installation_impl.cpp:631-658 | in every interleaving a registry is touched only while it exists, and once erased from the map only by the thread that erased it, except by the broadcast after unlocking |
| `RegistryProtocol.NotForgotten` | tools/artifact_installation/artifact_installation_impl.cpp:382-485 | in every run a thread that has begun to install or remove does nothing else, however often it waits, until it works on the registry or finds nothing to remove |
| `RegistryProtocol.BroadcastCanBeLate` | tools/artifact_installation/artifact_installation_impl.h:236-243 | a run in which a thread that has cleared locked_ is about to broadcast on a registry that another thread has deleted |
| `RegistryProtocol.LateExactlyWhenShared` | tools/artifact_installation/artifact_installation_impl.h:236-243 | for any relation of what threads may do: such a broadcast can come exactly when some artifact can be installed, some thread may remove it and another thread may install or remove it |
| `RegistryProtocol.BroadcastsInTime` | tools/artifact_installation/artifact_installation_impl.h:236-243 | in particular, in runs without removes every such broadcast finds its registry |
| `DomainApplication.SendAll` | dancex11/domain_deployment_handler/dancex11_ddh_application_impl.cpp:714-776 | each request is accepted before it is sent, and completes at once with an error if sending it raises |
| `DomainApplication.WaitForAll` | dancex11/scheduler/deployment_orb_wait_strategy.cpp:54-76 | requests complete in any order until the counter is zero, and then all of them have |
| `DomainApplication.FanOut` | dancex11/domain_deployment_handler/dancex11_ddh_application_impl.cpp:714-795 | the results are those of all requests, in the order of their completion, each once |
| `DomainApplication.DomainApplication.StartLaunch` | dancex11/domain_deployment_handler/dancex11_ddh_application_impl.cpp:695-837 | records one application, manager and node identifier for each node that answered with an application, and provides the references of their replies, in the order of completion; raises exactly if some node did not answer so |
| `DomainApplication.RefsAt` | dancex11/domain_deployment_handler/dancex11_ddh_application_impl.cpp:815-818 | the references of each of these replies are all provided, one reply after the other |
| `DomainApplication.DomainApplication.FindNodeId` | dancex11/domain_deployment_handler/dancex11_ddh_application_impl.cpp:1159-1173 | the identifier recorded first for the application, or none |
| `DomainApplication.DomainApplication.DestroyApplication` | dancex11/domain_deployment_handler/dancex11_ddh_application_impl.cpp:1000-1122 | contacts the manager of each recorded application once, in order, and keeps the records; raises exactly if some request failed |
| `DomainApplication.RecordedExactly` | dancex11/domain_deployment_handler/dancex11_ddh_application_impl.cpp:786-822 | whatever the order of the replies: one recorded pair for each node that got the request and answered with an application and no other, node identifiers index by index, exactly the references of these replies in the same order, and a raised launch exactly if some node did not answer so |
| `DomainApplication.LaunchAndDestroy` | dancex11/domain_deployment_handler/dancex11_ddh_application_impl.cpp:695-1122 | from the empty state, the launch provides exactly the references of the nodes that answered with an application, and the teardown contacts exactly their managers, each once and for that application |
| `Launchers.Launcher.InvokeDestroyApplication` | dancex11/domain_deployment_handler/dancex11_domain_deployment_handler.cpp:191-193 | the reference is cleared before the call that destroys it |
| `Launchers.Launcher.CleanUpDomain` | dancex11/domain_deployment_handler/dancex11_domain_deployment_handler.cpp:173-226 | the manager is destroyed in any case and every reference is dropped; the application is destroyed exactly if stopping it returned |
| `Launchers.Launcher.CleanUpNode` | dancex11/node_deployment_handler/dancex11_node_deployment_handler.cpp:137-176 | the first exception ends the cleanup and what was not destroyed is kept |
| `Launchers.Launcher.Launch` | dancex11/domain_deployment_handler/dancex11_domain_deployment_handler.cpp:93-229 | the calls of a launch up to the first exception, and the cleanup if a call after preparePlan raises a user exception; a launched application is kept or destroyed, unless it is the domain launcher, finishLaunch or start raises a user exception and stop does not return |
| `Launchers.Launcher.Shutdown` | dancex11/domain_deployment_handler/dancex11_domain_deployment_handler.cpp:231-272 | stop, destroyApplication, destroyManager, shutdown handler and ORB, as far as there is something to call and until a call raises; a shutdown that returns has destroyed application and manager, then called the handler once if there is one, and the ORB last |
| `Launchers.LaunchAndShutdown` | dancex11/domain_deployment_handler/dancex11_domain_deployment_handler.cpp:93-272 | without failures a launch and a shutdown of either launcher make exactly these calls: preparePlan, startLaunch, finishLaunch, start, stop, destroyApplication, destroyManager, shutdown handler if any, ORB shutdown |
| `Launchers.RunLauncher` | dancex11/node_deployment_handler/dancex11_node_deployment_handler.cpp:82-224 | one launch and any number of shutdowns, with failures at any call: launch calls first and in order, nothing destroyed twice, applications destroyed only right after they were stopped |
| `Launchers.DroppedUndestroyed` | dancex11/domain_deployment_handler/dancex11_domain_deployment_handler.cpp:173-226 | a launch of the domain launcher after which the application is neither kept nor destroyed, nor destroyed by the shutdown |
| `RepositoryFolders.Normalized` | tools/artifact_installation/installation_repository_manager_impl.cpp:192-218 | relative locations and absolute ones below the base normalize to the same path |
| `RepositoryFolders.FolderOfPath` | tools/artifact_installation/installation_repository_manager_impl.cpp:220-228 | the folder of a path is the path without its last component, and shorter |
| `RepositoryFolders.InstallationRepository.CreateFolder` | tools/artifact_installation/installation_repository_manager_impl.cpp:347-382 | terminates, with the outcome of the recursive function Create, and succeeds exactly if nothing along the path is an artifact, what is missing can be made, and exclusiveness is not violated; then the folder and all it is in exist; in any case existing entries are unchanged and every entry is in a folder |
| `RepositoryFolders.InstallationRepository.CreateArtifact` | tools/artifact_installation/installation_repository_manager_impl.cpp:262-301 | succeeds exactly if the artifact can be replaced or its folder can be made, and it can be opened; the tree stays a tree |
| `RepositoryFolders.OneOutcome` | tools/artifact_installation/installation_repository_manager_impl.cpp:347-382 | a call has at most one outcome, however many calls inside one another it is given |
| `RepositoryFolders.MissingBaseRecurs` | tools/artifact_installation/installation_repository_manager_impl.cpp:347-366 | if nothing of the base is there, no number of calls inside one another suffices, for every absolute base and every location that normalizes into it |
| `RepositoryFolders.ReturnsExactlyWithBase` | tools/artifact_installation/installation_repository_manager_impl.cpp:347-382 | a call of create_folder for a location in the repository returns exactly if the base exists |
| `RepositoryFolders.ArtifactReturnsExactlyWithBase` | tools/artifact_installation/installation_repository_manager_impl.cpp:262-278 | the same for the folder of a new artifact |

## Left out

- Scheduling.Scheduler.WaitOnCompletion: time is the number of events after which the timer reads zero; clocks are not modelled.
- ArtifactAttempts.VersionsReusedExactly: for lists of versions whose protocols have a handler, as failed attempts leave them; after 2^32 installations the counter is zero again and the list of an installed artifact can stand at the start.
- LocalityManager.LocalityManager.Collect: the phases of the locality manager are those that do not run into the timeout; after a timeout the code only logs and reads what has completed.
- DomainApplication.WaitForAll: each round of the ORB delivers one reply, so a node that never answers, for which the code waits forever, is not modelled; fewer than 2^32 nodes are assumed, as the counter wraps beyond.
- RepositoryFolders.InstallationRepository.CreateFolder: the method is for repositories whose base folder exists, as it does not return otherwise (ReturnsExactlyWithBase); locations are relative or absolute ones below the base, without empty components; "." and ".." are ordinary names.
- ConfigStream.TokenRoundTrip: printed texts have no quoted tokens and no brackets; QuotedRoundTrip and ListRoundTrip are about these.
- ConfigLiteral.ListRoundTrip: lists without declared type; declared types, and values other than lists of integers, are reported as not modelled by LoadList.
- Spurious wake-ups of the condition of the completion object, which its wait would report as completion.
- The waits of more than one scheduler thread: the locality manager runs the queue with none.
- Interceptors and preprocess_plan, and what instance handlers do: an event only succeeds or fails, and the result carries the name of its instance or connection.
- How handlers are registered with the sorter: the order of types is a parameter of the run.
- The grammar of directives: the loader gets directives and items, not tokens; an item out of place is refused, wherever the code would meet it.
- The contents of property values beyond their text; connection properties, deploy requirements and artifact parameters.
- Exclusive artifacts, whose node is rewritten through a moved-from implementation; plug-ins, domain and node configuration.
- Hexadecimal lists have no round trip (HexListIsZero); values of decimal literals, characters, strings and booleans.
- The width of the line counter of the stream, and characters outside the first 256.
- Out-of-memory, logging, and failures of ACE locks.
- remove_all, get_artifact_location and registration of protocol handlers; liveness of threads that wait for a registry.
- Reads and writes of registry contents by other threads while a guard is held, other than its lock and its count.
- Domain operations other than startLaunch and destroyApplication, which fan out in the same way; exceptions before the inner try block of a request; two references to one equivalent object.
- Configuration of node mappings in the domain launcher, and nil references returned by remote calls.
- Real file systems: directory listing, remove_folder, has_artifact, permissions beyond an arbitrary refusal per path.
- Split_Plan, the CDR loader, the XML converters and the format registry.
