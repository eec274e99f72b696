# TeMoto component manager: allocation table and pipe descriptors in Dafny

This project models two parts of `temoto_component_manager` and proves properties of them.

**`ComponentManagerInterface`** is the client-side handle a TeMoto subsystem uses to start and stop
components and pipes through the resource registrar. It keeps every successfully loaded
resource in one of two ordered tables, `allocated_components_` and `allocated_pipes_`. Each
entry is a `LoadComponent` or `LoadPipe` message: the request together with the response the
remote manager returned.

- A start calls the registrar and appends the message.
- A stop finds the first entry whose request is equal to the given one, unloads its resource, and erases it.
- `reloadPipe` stops a pipe and starts it again under its old pipe id.
- `statusInfoCb` handles FAILED and UPDATE notifications:
  - it looks up the resource id among the components first, then among the pipes;
  - it hands a copy of the entry to a registered hook;
  - failing a hook, it recovers a failed resource in place. Recovery copies the response's output topics (and, for a pipe, its pipe id) into the request and re-issues the call.

**`Segment` and `PipeInfo`** describe pipes.

- A segment is a type plus three sets of strings.
- A pipe is a type, a name and an ordered list of segments.

Both have equality operators, mutators and text renderings.

Files and modules:

| file | module | contents |
|---|---|---|
| `wrappers.dfy` | `Wrappers` | `Option`, `Result` and `Outcome`. A thrown `ErrorStack` becomes a `Failure`/`Fail`. |
| `messages.dfy` | `Messages` | The request and response messages, the topic containers, the error and status codes, and request equality. |
| `allocation_table.dfy` | `AllocationTable` | `std::find_if` and `erase` on a sequence, with their laws. |
| `resource_registrar.dfy` | `ResourceRegistrar` | The registrar as a class that records every call. Its answers come from an arbitrary function of the call history. |
| `allocations.dfy` | `Allocations` | What each interface operation does to the tables and the registrar, as functions of the old state, with the lemmas about them. |
| `component_manager_interface.dfy` | `ComponentManagerInterface` | The class with the two tables and the four callback slots. Each method is proved equal to its `Allocations` function. |
| `string_order.dfy` | `StringOrder` | The `std::string` order, the iteration order of a `std::set<std::string>`, and `", "`-joined lists. |
| `pipe_info.dfy` | `PipeInfo` | `Segment` and `PipeInfo` as classes, segment values as a datatype, and the two `toString` loops. |

Modelling decisions:

- **The registrar.** It is an object whose `log` records every `call<LoadComponent>`,
  `call<LoadPipe>` and `unloadClientResource` in order.
  - The remote side's answer to a call is `remote.answer(log)` or `remote.unloadAnswer(log)`. These are arbitrary functions of the whole history, so every sequence of successes and failures is covered.
  - When a call throws, the message's response is taken to be left as it was.
- **State checks.** Each state-changing method of the interface ensures `Effect(State(), r) == F(old(State()), …)`. Here `F` is the matching function in `Allocations`: `StartComponentEffect`, `StopPipeEffect`, `StatusEffect` and so on. The lemmas in `Allocations` state what those functions promise.
- **Request equality.** `operator==` on `LoadComponent::Request` and `LoadPipe::Request` is defined in
  `component_manager_services.h`, which is not part of this model. It is modelled by `SameComponentRequest` and `SamePipeRequest` as equality of the fields the interface itself fills in when it searches:
  - for a component: the type, the package and the executable;
  - for a pipe: the category, the segment specifiers and the local-only flag.
- **The Temoto namespace.** `getTemotoNamespace()` is the interface's constant
  `temotoNamespace`. An empty `temoto_namespace` argument is replaced by it, through `EffectiveNamespace`.
- **Recovery namespace.** The recovery re-calls in `statusInfoCb` pass no namespace. They are logged with the empty namespace, meaning "the registrar's default".
- **Callbacks.** A callback is a `Hook` token in an `Option` slot, with `None` for the null member-function pointer. Calling one is reported in the returned `Reaction` together with the copy it receives. A hook cannot reach the tables.
- **Behaviour worth knowing.** The model follows `component_manager_interface.h` as written. That includes line 177, where the 5-argument `startComponent` sends empty package and executable strings; the corrected overload is modelled beside it (see Findings). Three more points of the code:
  - An exception from the unload in the FAILED branch propagates (lines 619, 673, 720-722), and then neither a hook nor the default recovery runs.
  - When the recovery re-call throws, the entry stays in the table. It keeps its rewritten request and its old response (lines 638-641, 690-698).
  - Stopping an absent resource raises RESOURCE_UNLOAD_FAIL (lines 293-297, 496-500).

## Model

| member | source | states |
|---|---|---|
| `AllocationTable.FirstIndex` | temoto_component_manager/include/temoto_component_manager/component_manager_interface.h:288-291 | `find_if` returns the first position whose entry satisfies the predicate, or the end; no earlier entry satisfies it |
| `AllocationTable.RemoveAt` | temoto_component_manager/include/temoto_component_manager/component_manager_interface.h:303 | `erase` shortens the table by one and keeps the entries before and after the erased one in order |
| `AllocationTable.FirstIndexMissesIffNoMatch` | temoto_component_manager/include/temoto_component_manager/component_manager_interface.h:293-297 | the search reaches the end exactly when no entry matches, exactly when the match count is zero |
| `AllocationTable.RemoveFirstMatchCount` | temoto_component_manager/include/temoto_component_manager/component_manager_interface.h:299-308 | erasing the first match lowers the number of matching entries by exactly one |
| `AllocationTable.FirstIndexAppend` | temoto_component_manager/include/temoto_component_manager/component_manager_interface.h:272 | an appended entry that is the only match is found at the end, and erasing it gives back the old table |
| `AllocationTable.FirstIndexReplace` | temoto_component_manager/include/temoto_component_manager/component_manager_interface.h:638-641 | overwriting an entry with one the predicate judges the same way leaves the first match where it was |
| `Messages.ComponentLoadRequest` | temoto_component_manager/include/temoto_component_manager/component_manager_interface.h:192-211 | the 7-argument overload's request carries its type, package, executable, topics, parameters and local flag |
| `ResourceRegistrar.ComponentAnswer` | temoto_component_manager/include/temoto_component_manager/component_manager_interface.h:259-263 | a load call throws exactly when the remote side raises, and otherwise fills the response with the id and topics served |
| `ResourceRegistrar.PipeAnswer` | temoto_component_manager/include/temoto_component_manager/component_manager_interface.h:414-418 | as for components, and the response also carries the served pipe id |
| `ResourceRegistrar.ResourceRegistrar.CallComponent` | temoto_component_manager/include/temoto_component_manager/component_manager_interface.h:259-263 | records one `LoadComponent` call with its namespace and returns the remote side's answer to it |
| `ResourceRegistrar.ResourceRegistrar.CallPipe` | temoto_component_manager/include/temoto_component_manager/component_manager_interface.h:414-418 | records one `LoadPipe` call with its namespace and returns the remote side's answer to it |
| `ResourceRegistrar.ResourceRegistrar.UnloadClientResource` | temoto_component_manager/include/temoto_component_manager/component_manager_interface.h:302 | records one unload of the given resource id and returns the remote side's answer to it |
| `Allocations.ReloadRequest` | temoto_component_manager/include/temoto_component_manager/component_manager_interface.h:458 | the re-start request is equal to the found one and carries the found response's pipe id |
| `Allocations.ComponentRecoveryRequest` | temoto_component_manager/include/temoto_component_manager/component_manager_interface.h:638 | the recovery request is equal to the old one and asks for the output topics the response had; inputs and parameters are kept |
| `Allocations.PipeRecoveryRequest` | temoto_component_manager/include/temoto_component_manager/component_manager_interface.h:690-691 | the recovery request is equal to the old one and carries the response's output topics and pipe id |
| `Allocations.RouteStatus` | temoto_component_manager/include/temoto_component_manager/component_manager_interface.h:605-668 | a FAILED/UPDATE status goes to the first component with its id, else the first pipe with its id (only when no component has it); it is dropped exactly when the code is neither or no entry has the id |
| `Allocations.StartComponentAppends` | temoto_component_manager/include/temoto_component_manager/component_manager_interface.h:259-276 | one registrar call, which fails exactly when the registrar raises; then the tables are unchanged and the registrar's code is returned; when it serves, exactly one entry holding the request and the served response is appended after the old ones, and the served output topics are returned |
| `Allocations.StartPipeAppends` | temoto_component_manager/include/temoto_component_manager/component_manager_interface.h:414-430 | the same for pipes, the response also carrying the served pipe id |
| `Allocations.StopAbsentComponentFails` | temoto_component_manager/include/temoto_component_manager/component_manager_interface.h:288-297 | stopping a request equal to no entry raises RESOURCE_UNLOAD_FAIL and changes nothing, no unload included |
| `Allocations.StopAbsentPipeFails` | temoto_component_manager/include/temoto_component_manager/component_manager_interface.h:491-500 | the same for pipes |
| `Allocations.StopComponentErasesFirstMatch` | temoto_component_manager/include/temoto_component_manager/component_manager_interface.h:299-308 | a stop unloads the first equal entry's resource and returns the registrar's outcome; when the unload passes exactly that entry is erased, the rest keep their order, and one fewer entry matches; when the unload throws nothing is erased |
| `Allocations.StopPipeErasesFirstMatch` | temoto_component_manager/include/temoto_component_manager/component_manager_interface.h:502-511 | the same for pipes |
| `Allocations.StopTwiceFailsSecond` | temoto_component_manager/include/temoto_component_manager/component_manager_interface.h:284-308 | with one equal entry loaded, after a successful stop a second stop of the same request raises RESOURCE_UNLOAD_FAIL and changes nothing |
| `Allocations.StartThenStopRestores` | temoto_component_manager/include/temoto_component_manager/component_manager_interface.h:213-309 | starting a new request and then stopping by any equal request logs exactly a load and an unload of the new id and returns the unload's outcome; when it passes both tables are restored, and when it throws the new entry stays |
| `Allocations.PackageLoadRequestAsWritten` | temoto_component_manager/include/temoto_component_manager/component_manager_interface.h:177 | as written, the 5-argument overload sends empty package and executable whatever it is given |
| `Allocations.PackageLoadRequest` | temoto_component_manager/include/temoto_component_manager/component_manager_interface.h:161-178 | the intended request is equal to the probe `stopComponent(type, package, executable)` searches with |
| `Allocations.PackageStartCannotBeStoppedByName` | temoto_component_manager/include/temoto_component_manager/component_manager_interface.h:177 | as written, a component started with a package or executable cannot then be stopped by them: the stop raises RESOURCE_UNLOAD_FAIL |
| `Allocations.PackageStartThenStopByName` | temoto_component_manager/include/temoto_component_manager/component_manager_interface.h:161-178 | with the arguments forwarded, stopping by the type, package and executable finds the started entry: exactly its load and the unload of its id are logged, the unload's outcome is returned, and when it passes the tables are restored |
| `Allocations.ReloadPipeRestartsUnderOldId` | temoto_component_manager/include/temoto_component_manager/component_manager_interface.h:433-460 | an absent pipe raises RESOURCE_UNLOAD_FAIL before any unload; otherwise the first equal pipe is unloaded; a thrown unload is returned with the table unchanged; a passed unload erases the pipe and is always followed by one re-start call with its old response pipe id; the reload passes exactly when that call is served, and the served pipe is appended last |
| `Allocations.UnknownStatusIsDropped` | temoto_component_manager/include/temoto_component_manager/component_manager_interface.h:715-717 | a status for an unknown id, or with another code, raises nothing and changes neither table nor the registrar log |
| `Allocations.ComponentsSearchedFirst` | temoto_component_manager/include/temoto_component_manager/component_manager_interface.h:605-613 | when a component holds the id of a FAILED/UPDATE status, the component is handled and the pipe table is left alone |
| `Allocations.FailedComponentDefaultRecovery` | temoto_component_manager/include/temoto_component_manager/component_manager_interface.h:614-644 | FAILED without a hook: unload the id; a thrown unload is returned and nothing else changes; a passed unload is always followed by exactly one re-call for the same entry with the response's output topics as request; the entry is updated in place with the served response, or keeps its old response on a throw; the table keeps its length and other entries; success exactly when the re-call is served |
| `Allocations.FailedPipeDefaultRecovery` | temoto_component_manager/include/temoto_component_manager/component_manager_interface.h:670-701 | the same for pipes, and the re-call also carries the old pipe id |
| `Allocations.HooksLeaveTablesUnchanged` | temoto_component_manager/include/temoto_component_manager/component_manager_interface.h:624-631 | a called hook is the one registered for that code and resource kind and receives a copy of the matched entry; the tables do not change; an UPDATE never changes any state, and without a hook it does nothing |
| `Allocations.RegisteredComponentHookIsCalled` | temoto_component_manager/include/temoto_component_manager/component_manager_interface.h:614-655 | for a status routed to a component, a registered FAILED hook is called with a copy of the entry after a passed unload (the unload's error is returned when it throws), a registered UPDATE hook is called with the copy at once, and an UPDATE without a hook is ignored; no table changes |
| `Allocations.RegisteredPipeHookIsCalled` | temoto_component_manager/include/temoto_component_manager/component_manager_interface.h:670-712 | the same for a status whose id only a pipe holds |
| `Allocations.RecoveredPipeStillStoppable` | temoto_component_manager/include/temoto_component_manager/component_manager_interface.h:690-698 | after a default pipe recovery, a stop with the original request still finds the entry at the same position |
| `ComponentManagerInterface.ComponentManagerInterface.constructor` | temoto_component_manager/include/temoto_component_manager/component_manager_interface.h:65-68 | a new interface has no registrar, empty tables and no callbacks |
| `ComponentManagerInterface.ComponentManagerInterface.Initialize` | temoto_component_manager/include/temoto_component_manager/component_manager_interface.h:75-86 | after `initialize` the interface holds a registrar |
| `ComponentManagerInterface.ComponentManagerInterface.ValidateInterface` | temoto_component_manager/include/temoto_component_manager/component_manager_interface.h:580-586 | raises UNINITIALIZED exactly when there is no registrar |
| `ComponentManagerInterface.ComponentManagerInterface.StartComponentMessage` | temoto_component_manager/include/temoto_component_manager/component_manager_interface.h:213-277 | behaves as `StartComponentEffect` with the resolved namespace; the pipe table is untouched |
| `ComponentManagerInterface.ComponentManagerInterface.StartComponentWithParameters` | temoto_component_manager/include/temoto_component_manager/component_manager_interface.h:192-211 | starts the request built from its arguments |
| `ComponentManagerInterface.ComponentManagerInterface.StartComponentFromPackage` | temoto_component_manager/include/temoto_component_manager/component_manager_interface.h:161-178 | UNINITIALIZED with unchanged tables without a registrar; otherwise, as written, starts a request of that type and topics with empty package and executable, whatever it is given |
| `ComponentManagerInterface.ComponentManagerInterface.StartComponentWithTopics` | temoto_component_manager/include/temoto_component_manager/component_manager_interface.h:134-148 | UNINITIALIZED with unchanged tables without a registrar; otherwise starts a request of that type with those topics and no package |
| `ComponentManagerInterface.ComponentManagerInterface.StartComponentOfType` | temoto_component_manager/include/temoto_component_manager/component_manager_interface.h:111-123 | UNINITIALIZED with unchanged tables without a registrar; otherwise starts a request of that type with no topics |
| `ComponentManagerInterface.ComponentManagerInterface.StopComponentMessage` | temoto_component_manager/include/temoto_component_manager/component_manager_interface.h:284-309 | behaves as `StopComponentEffect`; without a registrar nothing is loaded, so it raises RESOURCE_UNLOAD_FAIL |
| `ComponentManagerInterface.ComponentManagerInterface.StopComponent` | temoto_component_manager/include/temoto_component_manager/component_manager_interface.h:318-336 | UNINITIALIZED with unchanged tables without a registrar; otherwise stops by type, package and executable |
| `ComponentManagerInterface.ComponentManagerInterface.StartPipeMessage` | temoto_component_manager/include/temoto_component_manager/component_manager_interface.h:369-431 | behaves as `StartPipeEffect` with the resolved namespace; the component table is untouched |
| `ComponentManagerInterface.ComponentManagerInterface.StartPipe` | temoto_component_manager/include/temoto_component_manager/component_manager_interface.h:346-367 | UNINITIALIZED with unchanged tables without a registrar; otherwise starts the pipe request built from its arguments |
| `ComponentManagerInterface.ComponentManagerInterface.StopPipe` | temoto_component_manager/include/temoto_component_manager/component_manager_interface.h:469-514 | UNINITIALIZED with unchanged tables without a registrar; otherwise behaves as `StopPipeEffect` |
| `ComponentManagerInterface.ComponentManagerInterface.FindPipe` | temoto_component_manager/include/temoto_component_manager/component_manager_interface.h:726-753 | returns the first entry with an equal request, or nothing exactly when none is equal; changes nothing |
| `ComponentManagerInterface.ComponentManagerInterface.ReloadPipe` | temoto_component_manager/include/temoto_component_manager/component_manager_interface.h:433-460 | UNINITIALIZED with unchanged tables without a registrar; otherwise behaves as `ReloadPipeEffect` |
| `ComponentManagerInterface.ComponentManagerInterface.RegisterComponentStatusCallback` | temoto_component_manager/include/temoto_component_manager/component_manager_interface.h:521-524 | sets the component recovery slot and no other |
| `ComponentManagerInterface.ComponentManagerInterface.RegisterComponentUpdateCallback` | temoto_component_manager/include/temoto_component_manager/component_manager_interface.h:531-534 | sets the component update slot and no other |
| `ComponentManagerInterface.ComponentManagerInterface.RegisterPipeStatusCallback` | temoto_component_manager/include/temoto_component_manager/component_manager_interface.h:541-544 | sets the pipe recovery slot and no other |
| `ComponentManagerInterface.ComponentManagerInterface.RegisterPipeUpdateCallback` | temoto_component_manager/include/temoto_component_manager/component_manager_interface.h:551-554 | sets the pipe update slot and no other |
| `ComponentManagerInterface.ComponentManagerInterface.StatusInfoCb` | temoto_component_manager/include/temoto_component_manager/component_manager_interface.h:593-724 | UNINITIALIZED with unchanged tables without a registrar; otherwise behaves as `StatusEffect` with the registered callbacks |
| `StringOrder.SetOrderElements` | temoto_component_manager/include/temoto_component_manager/pipe_info.h:84-91 | iterating a set of strings visits exactly its elements |
| `StringOrder.SetOrderAscending` | temoto_component_manager/include/temoto_component_manager/pipe_info.h:84-91 | the iteration is strictly ascending in `std::string` order, so no element is visited twice |
| `StringOrder.SplitJoin` | temoto_component_manager/include/temoto_component_manager/pipe_info.h:84-91 | a non-empty `", "`-separated list of comma-free names reads back into exactly those names |
| `PipeInfo.SegmentEqualsIsIdentity` | temoto_component_manager/include/temoto_component_manager/pipe_info.h:120-127 | segment `==` holds exactly when the type and all three sets agree, and is an equivalence relation |
| `PipeInfo.SegmentsEqualIsIdentity` | temoto_component_manager/include/temoto_component_manager/pipe_info.h:239 | pairwise segment `==` on two lists holds exactly when the lists are identical |
| `PipeInfo.SegmentTextIgnoresParameters` | temoto_component_manager/include/temoto_component_manager/pipe_info.h:75-111 | a segment's text never depends on its required parameters |
| `PipeInfo.TopicLineListsEachOnce` | temoto_component_manager/include/temoto_component_manager/pipe_info.h:81-108 | a non-empty set's line lists each element exactly once, ascending, separated by `", "` with none trailing, and reads back into the set |
| `PipeInfo.FormatTopicLine` | temoto_component_manager/include/temoto_component_manager/pipe_info.h:81-93 | the topic loop prints nothing for an empty set, else the heading, the set in iteration order joined by `", "`, and a newline |
| `PipeInfo.FormatSegment` | temoto_component_manager/include/temoto_component_manager/pipe_info.h:75-111 | the segment text is the type line, then the input line, then the output line |
| `PipeInfo.Segment.constructor` | temoto_component_manager/include/temoto_component_manager/pipe_info.h:49-54 | a new segment has an empty type and three empty sets |
| `PipeInfo.Segment.AddInputTopicType` | temoto_component_manager/include/temoto_component_manager/pipe_info.h:57-60 | inserts into the input set only; inserting a present element changes nothing |
| `PipeInfo.Segment.AddOutputTopicType` | temoto_component_manager/include/temoto_component_manager/pipe_info.h:63-66 | inserts into the output set only; inserting a present element changes nothing |
| `PipeInfo.Segment.AddRequiredParameter` | temoto_component_manager/include/temoto_component_manager/pipe_info.h:69-72 | inserts into the parameter set only; inserting a present element changes nothing |
| `PipeInfo.Segment.ToString` | temoto_component_manager/include/temoto_component_manager/pipe_info.h:75-111 | prints the segment's text |
| `PipeInfo.PipeInfo.constructor` | temoto_component_manager/include/temoto_component_manager/pipe_info.h:151 | a new pipe has empty type, name and segment list |
| `PipeInfo.PipeInfo.CopyWithName` | temoto_component_manager/include/temoto_component_manager/pipe_info.h:153-157 | the copy is `==` to the original both ways, has the original's type and segments, and has the new name |
| `PipeInfo.PipeInfo.GetPipeSize` | temoto_component_manager/include/temoto_component_manager/pipe_info.h:181-184 | the segment count as an `unsigned int`: exact below 2^32, and wraps above it |
| `PipeInfo.PipeInfo.SetSegments` | temoto_component_manager/include/temoto_component_manager/pipe_info.h:191-194 | `getSegments` reads back what was set |
| `PipeInfo.PipeInfo.SetType` | temoto_component_manager/include/temoto_component_manager/pipe_info.h:196-199 | `getType` reads back what was set |
| `PipeInfo.PipeInfo.SetName` | temoto_component_manager/include/temoto_component_manager/pipe_info.h:201-204 | `getName` reads back what was set |
| `PipeInfo.PipeInfo.AddSegment` | temoto_component_manager/include/temoto_component_manager/pipe_info.h:207-210 | appends the segment after the unchanged earlier ones, and `getPipeSize` grows by one (modulo 2^32) |
| `PipeInfo.PipeInfo.ToString` | temoto_component_manager/include/temoto_component_manager/pipe_info.h:212-229 | the type and reliability lines, then every segment's text in order, separated by `"| \n"` with none trailing |
| `PipeInfo.PipeEqualsIgnoresName` | temoto_component_manager/include/temoto_component_manager/pipe_info.h:237-240 | pipe `==` is an equivalence relation that holds exactly when type and segment list agree, whatever the names |

## Left out

- `listComponents` and its `ros::ServiceClient` (component_manager_interface.h:82, 88-101) are left out. They are a plain ROS service call with no bookkeeping.
- The `#ifdef enable_tracing` blocks are left out. They are tracing instrumentation and do not touch the tables.
- `getTemotoNamespace()` is a process-global lookup. It is the constant `temotoNamespace` of the interface.
- The internals of `temoto_core::trr::ResourceRegistrar` are not part of this model. This covers how calls are routed, status subscription, and the `FailureBehavior` argument. `call` and `unloadClientResource` are calls whose result comes from an arbitrary function of the call history.
- Registrar callback wiring is left out. `initialize` registers `statusInfoCb` with the registrar, and in the model status notifications are delivered by calling `StatusInfoCb` directly.
- `initialize` also sets names, the log group and the parent pointer. Those are logging and bookkeeping strings with no effect on the tables.
- `ComponentManagerInterface.ComponentManagerInterface.StartComponentMessage`, `StartComponentWithParameters` and `StartPipeMessage` require a registrar. The source dereferences it without validating, which has no defined behaviour.
- `ComponentManagerInterface.ComponentManagerInterface.StartComponentMessage` does not fill the caller's `LoadComponent` message in place, as the source does through the registrar's reference parameter. The filled message is the entry it appends (its request and the served response, see `Allocations.StartComponentAppends`), and only the topic container is returned.
- `ComponentManagerInterface.ComponentManagerInterface.StartPipeMessage` does not fill the caller's `LoadPipe` message in place either. The filled message is the appended pipe entry (see `Allocations.StartPipeAppends`).
- Topic lists are `map<string, string>` (`Messages.TopicMap`), while the messages carry lists of key-value pairs, so their order and any duplicate keys are not modelled. String order (`StringOrder.Below`) compares characters, where `std::string` compares bytes as `unsigned char`. Both agree with the source for UTF-8 text whose topic keys are unique.
- Logging (`TEMOTO_DEBUG`, `TEMOTO_WARN`, `TEMOTO_ERROR`) is left out, including the message for an unknown status.
- The error stack's messages and the `FORWARD_ERROR` frames are left out. Only the error code is kept.
- `stopComponent(type, package, executable)` passes a `LoadComponent::Request` to the overload that expects a whole `LoadComponent` (line 335). In the model it stops by that request, which is the evident intent.
- `PipeSegmentSpecifier` has fields defined in a message file that is not part of this model. It is a value that is only compared, never interpreted.
- The YAML `convert<PipeInfo>` encode and decode (pipe_info.h:273-405) are left out. They depend on yaml-cpp's node and exception behaviour, which is not visible.
- `PipeInfo::reliability_` is a floating-point value, and its formatted text is a parameter of `PipeInfo.PipeInfo.ToString`.
- The type printed by `PipeInfo::toString` is the literal `TODO`, as in the source.
- `component_snooper.h` and `component_manager_node.cpp` are left out: one is declarations only, the other is ROS node start-up.
- The pipe-segment resolver and the catalog matching are not part of this model.
- Concurrency between status callbacks and callers is left out. Every operation runs to completion before the next one starts.

## Findings

| source | as written | input that shows it | evidently intended | confidence | as-written member | corrected member |
|---|---|---|---|---|---|---|
| temoto_component_manager/include/temoto_component_manager/component_manager_interface.h:177 | the 5-argument `startComponent` forwards `"", ""` instead of its `package_name` and `ros_program_name` | `startComponent("camera", "usb_cam", "usb_cam_node", topics)` loads a request with empty package and executable, so a later `stopComponent("camera", "usb_cam", "usb_cam_node")` raises RESOURCE_UNLOAD_FAIL | forward `package_name, ros_program_name` | high, not executed | `Allocations.PackageStartCannotBeStoppedByName` | `Allocations.PackageStartThenStopByName` |
