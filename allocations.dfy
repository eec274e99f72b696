/**
 * What each operation of `ComponentManagerInterface` does to the interface's
 * two allocation tables (`allocated_components_`, `allocated_pipes_`) and to
 * the registrar, stated as functions of the state before the call, and the
 * properties those functions have. The class in
 * component_manager_interface.dfy is proved to behave as these functions say.
 */
module Allocations {
  import opened Wrappers
  import opened Messages
  import opened AllocationTable
  import opened ResourceRegistrar

  /** The interface's tables together with the registrar's record of the calls made. */
  datatype Tables = Tables(components: seq<ComponentEntry>, pipes: seq<PipeEntry>, log: seq<RegistrarEvent>)

  /** The state an operation leaves behind, and what it returns (or throws). */
  datatype Effect<R> = Effect(state: Tables, result: R)

  /** A member-function pointer of the parent subsystem, registered as a callback. */
  datatype Hook = Hook(name: string)

  /** The four callback slots; `None` is the null member-function pointer. */
  datatype Hooks = Hooks(
    componentStatus: Option<Hook>,
    componentUpdate: Option<Hook>,
    pipeStatus: Option<Hook>,
    pipeUpdate: Option<Hook>)

  /** What `statusInfoCb` did once it returned normally. */
  datatype Reaction =
    | ComponentHookCalled(componentHook: Hook, componentCopy: ComponentEntry)
    | PipeHookCalled(pipeHook: Hook, pipeCopy: PipeEntry)
    | ComponentReloaded(componentIndex: nat)
    | PipeReloaded(pipeIndex: nat)
    | Ignored
    | Dropped

  /** Where `statusInfoCb` sends a status: the matched component, the matched pipe, or nowhere. */
  datatype Route = ToComponent(componentIndex: nat) | ToPipe(pipeIndex: nat) | Unrouted

  /** The `find_if` lambda of `stopComponent`. */
  function ComponentMatches(request: ComponentRequest): ComponentEntry -> bool
  {
    (e: ComponentEntry) => SameComponentRequest(e.request, request)
  }

  /** The `find_if` lambda of `stopPipe` and `findPipe`. */
  function PipeMatches(request: PipeRequest): PipeEntry -> bool
  {
    (e: PipeEntry) => SamePipeRequest(e.request, request)
  }

  /** The `find_if` lambda of `statusInfoCb` over components. */
  function ComponentHasId(id: ResourceId): ComponentEntry -> bool
  {
    (e: ComponentEntry) => e.response.resourceId == id
  }

  /** The `find_if` lambda of `statusInfoCb` over pipes. */
  function PipeHasId(id: ResourceId): PipeEntry -> bool
  {
    (e: PipeEntry) => e.response.resourceId == id
  }

  /** An empty namespace argument stands for the interface's own Temoto namespace. */
  function EffectiveNamespace(namespace: string, temotoNamespace: string): (ns: string)
    ensures namespace != "" ==> ns == namespace
    ensures namespace == "" ==> ns == temotoNamespace
  {
    if namespace == "" then temotoNamespace else namespace
  }

  /** `startComponent(msg, namespace)` once the namespace is resolved: call, and on success append. */
  function StartComponentEffect(t: Tables, request: ComponentRequest, namespace: string, remote: Remote)
    : Effect<Result<TopicContainer, ErrorCode>>
  {
    var log := t.log + [ComponentCalled(request, namespace)];
    match ComponentAnswer(remote.answer(log))
    case Failure(code) => Effect(t.(log := log), Failure(code))
    case Success(response) =>
      Effect(t.(components := t.components + [ComponentEntry(request, response)], log := log),
             Success(RespondedTopics(response.outputTopics)))
  }

  /** `startPipe(msg, namespace)` once the namespace is resolved: call, and on success append. */
  function StartPipeEffect(t: Tables, request: PipeRequest, namespace: string, remote: Remote)
    : Effect<Result<TopicContainer, ErrorCode>>
  {
    var log := t.log + [PipeCalled(request, namespace)];
    match PipeAnswer(remote.answer(log))
    case Failure(code) => Effect(t.(log := log), Failure(code))
    case Success(response) =>
      Effect(t.(pipes := t.pipes + [PipeEntry(request, response)], log := log),
             Success(RespondedTopics(response.outputTopics)))
  }

  /** `stopComponent(msg)`: find the first equal request, unload its resource, then erase it. */
  function StopComponentEffect(t: Tables, request: ComponentRequest, remote: Remote): Effect<Outcome<ErrorCode>>
  {
    var k := FirstIndex(t.components, ComponentMatches(request));
    if k == |t.components| then Effect(t, Fail(ResourceUnloadFail))
    else
      var log := t.log + [Unloaded(t.components[k].response.resourceId)];
      match remote.unloadAnswer(log)
      case Fail(code) => Effect(t.(log := log), Fail(code))
      case Pass => Effect(t.(components := RemoveAt(t.components, k), log := log), Pass)
  }

  /** `stopPipe`: find the first equal request, unload its resource, then erase it. */
  function StopPipeEffect(t: Tables, request: PipeRequest, remote: Remote): Effect<Outcome<ErrorCode>>
  {
    var k := FirstIndex(t.pipes, PipeMatches(request));
    if k == |t.pipes| then Effect(t, Fail(ResourceUnloadFail))
    else
      var log := t.log + [Unloaded(t.pipes[k].response.resourceId)];
      match remote.unloadAnswer(log)
      case Fail(code) => Effect(t.(log := log), Fail(code))
      case Pass => Effect(t.(pipes := RemoveAt(t.pipes, k), log := log), Pass)
  }

  /** The request `reloadPipe` re-starts a found pipe with: its own request, carrying the old pipe id. */
  function ReloadRequest(found: PipeEntry): (r: PipeRequest)
    ensures SamePipeRequest(r, found.request)
    ensures r.pipeId == found.response.pipeId && r.outputTopics == found.request.outputTopics
  {
    found.request.(pipeId := found.response.pipeId)
  }

  /** `reloadPipe`: find, stop, then start again under the old pipe id. */
  function ReloadPipeEffect(t: Tables, request: PipeRequest, temotoNamespace: string, remote: Remote)
    : Effect<Outcome<ErrorCode>>
  {
    var k := FirstIndex(t.pipes, PipeMatches(request));
    if k == |t.pipes| then Effect(t, Fail(ResourceUnloadFail))
    else
      var stopped := StopPipeEffect(t, request, remote);
      if stopped.result.Fail? then stopped
      else
        var started := StartPipeEffect(stopped.state, ReloadRequest(t.pipes[k]), temotoNamespace, remote);
        Effect(started.state, if started.result.Failure? then Fail(started.result.error) else Pass)
  }

  /** The request the default component recovery re-issues: same request, asking for the topics it had. */
  function ComponentRecoveryRequest(e: ComponentEntry): (r: ComponentRequest)
    ensures SameComponentRequest(r, e.request)
    ensures r.outputTopics == e.response.outputTopics
    ensures r.inputTopics == e.request.inputTopics && r.requiredParameters == e.request.requiredParameters
  {
    e.request.(outputTopics := e.response.outputTopics)
  }

  /** The request the default pipe recovery re-issues: same request, same topics, same pipe id. */
  function PipeRecoveryRequest(e: PipeEntry): (r: PipeRequest)
    ensures SamePipeRequest(r, e.request)
    ensures r.outputTopics == e.response.outputTopics && r.pipeId == e.response.pipeId
  {
    e.request.(outputTopics := e.response.outputTopics, pipeId := e.response.pipeId)
  }

  /**
   * Which entry a status is for. Components are searched first; a component
   * match only stops the search when the code is FAILED or UPDATE, so any
   * other code falls through to the pipe search, which then ignores it too.
   */
  function RouteStatus(components: seq<ComponentEntry>, pipes: seq<PipeEntry>, status: ResourceStatus): (r: Route)
    ensures r.ToComponent? ==>
      && r.componentIndex < |components|
      && r.componentIndex == FirstIndex(components, ComponentHasId(status.resourceId))
      && (status.statusCode.Failed? || status.statusCode.Update?)
    ensures r.ToPipe? ==>
      && r.pipeIndex < |pipes|
      && r.pipeIndex == FirstIndex(pipes, PipeHasId(status.resourceId))
      && (status.statusCode.Failed? || status.statusCode.Update?)
      && forall j :: 0 <= j < |components| ==> components[j].response.resourceId != status.resourceId
    ensures r.Unrouted? <==>
      || status.statusCode.OtherStatus?
      || ((forall j :: 0 <= j < |components| ==> components[j].response.resourceId != status.resourceId)
          && (forall j :: 0 <= j < |pipes| ==> pipes[j].response.resourceId != status.resourceId))
  {
    var k := FirstIndex(components, ComponentHasId(status.resourceId));
    var p := FirstIndex(pipes, PipeHasId(status.resourceId));
    if k < |components| && status.statusCode.Failed? then ToComponent(k)
    else if k < |components| && status.statusCode.Update? then ToComponent(k)
    else if p < |pipes| && status.statusCode.Failed? then ToPipe(p)
    else if p < |pipes| && status.statusCode.Update? then ToPipe(p)
    else Unrouted
  }

  /** A FAILED or UPDATE status for the component at index `k`. */
  function ComponentStatusEffect(t: Tables, k: nat, code: StatusCode, hooks: Hooks, remote: Remote)
    : Effect<Result<Reaction, ErrorCode>>
    requires k < |t.components|
  {
    var e := t.components[k];
    if code.Failed? then
      var log := t.log + [Unloaded(e.response.resourceId)];
      match remote.unloadAnswer(log)
      case Fail(error) => Effect(t.(log := log), Failure(error))
      case Pass =>
        if hooks.componentStatus.Some? then
          Effect(t.(log := log), Success(ComponentHookCalled(hooks.componentStatus.value, e)))
        else
          var request := ComponentRecoveryRequest(e);
          var log' := log + [ComponentCalled(request, "")];
          match ComponentAnswer(remote.answer(log'))
          case Failure(error) =>
            Effect(Tables(t.components[k := ComponentEntry(request, e.response)], t.pipes, log'), Failure(error))
          case Success(response) =>
            Effect(Tables(t.components[k := ComponentEntry(request, response)], t.pipes, log'),
                   Success(ComponentReloaded(k)))
    else if hooks.componentUpdate.Some? then
      Effect(t, Success(ComponentHookCalled(hooks.componentUpdate.value, e)))
    else
      Effect(t, Success(Ignored))
  }

  /** A FAILED or UPDATE status for the pipe at index `k`. */
  function PipeStatusEffect(t: Tables, k: nat, code: StatusCode, hooks: Hooks, remote: Remote)
    : Effect<Result<Reaction, ErrorCode>>
    requires k < |t.pipes|
  {
    var e := t.pipes[k];
    if code.Failed? then
      var log := t.log + [Unloaded(e.response.resourceId)];
      match remote.unloadAnswer(log)
      case Fail(error) => Effect(t.(log := log), Failure(error))
      case Pass =>
        if hooks.pipeStatus.Some? then
          Effect(t.(log := log), Success(PipeHookCalled(hooks.pipeStatus.value, e)))
        else
          var request := PipeRecoveryRequest(e);
          var log' := log + [PipeCalled(request, "")];
          match PipeAnswer(remote.answer(log'))
          case Failure(error) =>
            Effect(Tables(t.components, t.pipes[k := PipeEntry(request, e.response)], log'), Failure(error))
          case Success(response) =>
            Effect(Tables(t.components, t.pipes[k := PipeEntry(request, response)], log'),
                   Success(PipeReloaded(k)))
    else if hooks.pipeUpdate.Some? then
      Effect(t, Success(PipeHookCalled(hooks.pipeUpdate.value, e)))
    else
      Effect(t, Success(Ignored))
  }

  /** `statusInfoCb` on an initialised interface. */
  function StatusEffect(t: Tables, hooks: Hooks, status: ResourceStatus, remote: Remote)
    : Effect<Result<Reaction, ErrorCode>>
  {
    match RouteStatus(t.components, t.pipes, status)
    case ToComponent(k) => ComponentStatusEffect(t, k, status.statusCode, hooks, remote)
    case ToPipe(k) => PipeStatusEffect(t, k, status.statusCode, hooks, remote)
    case Unrouted => Effect(t, Success(Dropped))
  }

  // ---------------------------------------------------------------------
  // Starting
  // ---------------------------------------------------------------------

  /**
   * A start makes exactly one registrar call, and succeeds exactly when the
   * registrar serves it. Then it appends exactly one entry, holding the
   * request and the registrar's response, after the old entries, and returns
   * that response's output topics; when the registrar raises, the tables are
   * as they were and its error code is returned.
   */
  lemma StartComponentAppends(t: Tables, request: ComponentRequest, namespace: string, remote: Remote)
    ensures var eff := StartComponentEffect(t, request, namespace, remote);
      && eff.state.pipes == t.pipes
      && eff.state.log == t.log + [ComponentCalled(request, namespace)]
      && (eff.result.Failure? <==> remote.answer(eff.state.log).Raised?)
      && (eff.result.Failure? ==>
            && eff.state.components == t.components
            && eff.result.error == remote.answer(eff.state.log).code)
      && (eff.result.Success? ==>
            && |eff.state.components| == |t.components| + 1
            && eff.state.components[..|t.components|] == t.components
            && eff.state.components[|t.components|]
               == ComponentEntry(request, ComponentAnswer(remote.answer(eff.state.log)).value)
            && eff.result.value == RespondedTopics(remote.answer(eff.state.log).outputTopics))
  {
  }

  /** The pipe counterpart of `StartComponentAppends`. */
  lemma StartPipeAppends(t: Tables, request: PipeRequest, namespace: string, remote: Remote)
    ensures var eff := StartPipeEffect(t, request, namespace, remote);
      && eff.state.components == t.components
      && eff.state.log == t.log + [PipeCalled(request, namespace)]
      && (eff.result.Failure? <==> remote.answer(eff.state.log).Raised?)
      && (eff.result.Failure? ==>
            && eff.state.pipes == t.pipes
            && eff.result.error == remote.answer(eff.state.log).code)
      && (eff.result.Success? ==>
            && |eff.state.pipes| == |t.pipes| + 1
            && eff.state.pipes[..|t.pipes|] == t.pipes
            && eff.state.pipes[|t.pipes|] == PipeEntry(request, PipeAnswer(remote.answer(eff.state.log)).value)
            && eff.result.value == RespondedTopics(remote.answer(eff.state.log).outputTopics))
  {
  }

  // ---------------------------------------------------------------------
  // Stopping
  // ---------------------------------------------------------------------

  /** Stopping a request no entry is equal to fails with RESOURCE_UNLOAD_FAIL and touches nothing. */
  lemma {:induction false} StopAbsentComponentFails(t: Tables, request: ComponentRequest, remote: Remote)
    requires forall j :: 0 <= j < |t.components| ==> !SameComponentRequest(t.components[j].request, request)
    ensures StopComponentEffect(t, request, remote) == Effect(t, Fail(ResourceUnloadFail))
  {
    FirstIndexMissesIffNoMatch(t.components, ComponentMatches(request));
  }

  /** The pipe counterpart of `StopAbsentComponentFails`. */
  lemma {:induction false} StopAbsentPipeFails(t: Tables, request: PipeRequest, remote: Remote)
    requires forall j :: 0 <= j < |t.pipes| ==> !SamePipeRequest(t.pipes[j].request, request)
    ensures StopPipeEffect(t, request, remote) == Effect(t, Fail(ResourceUnloadFail))
  {
    FirstIndexMissesIffNoMatch(t.pipes, PipeMatches(request));
  }

  /**
   * Stopping a loaded component unloads the resource of the first equal
   * entry and returns the registrar's outcome. If the unload succeeds,
   * exactly that entry is erased and the others keep their order; if it
   * throws, nothing is erased.
   */
  lemma {:induction false} StopComponentErasesFirstMatch(t: Tables, request: ComponentRequest, remote: Remote)
    requires exists j :: 0 <= j < |t.components| && SameComponentRequest(t.components[j].request, request)
    ensures var k := FirstIndex(t.components, ComponentMatches(request));
      var eff := StopComponentEffect(t, request, remote);
      && k < |t.components|
      && eff.state.pipes == t.pipes
      && eff.state.log == t.log + [Unloaded(t.components[k].response.resourceId)]
      && eff.result == remote.unloadAnswer(eff.state.log)
      && (remote.unloadAnswer(eff.state.log).Pass? ==>
            && eff.state.components == t.components[..k] + t.components[k + 1..]
            && CountMatches(eff.state.components, ComponentMatches(request))
               == CountMatches(t.components, ComponentMatches(request)) - 1)
      && (remote.unloadAnswer(eff.state.log).Fail? ==> eff.state.components == t.components)
  {
    var p := ComponentMatches(request);
    var j :| 0 <= j < |t.components| && SameComponentRequest(t.components[j].request, request);
    assert p(t.components[j]);
    FirstIndexMissesIffNoMatch(t.components, p);
    RemoveFirstMatchCount(t.components, p);
  }

  /** The pipe counterpart of `StopComponentErasesFirstMatch`. */
  lemma {:induction false} StopPipeErasesFirstMatch(t: Tables, request: PipeRequest, remote: Remote)
    requires exists j :: 0 <= j < |t.pipes| && SamePipeRequest(t.pipes[j].request, request)
    ensures var k := FirstIndex(t.pipes, PipeMatches(request));
      var eff := StopPipeEffect(t, request, remote);
      && k < |t.pipes|
      && eff.state.components == t.components
      && eff.state.log == t.log + [Unloaded(t.pipes[k].response.resourceId)]
      && eff.result == remote.unloadAnswer(eff.state.log)
      && (remote.unloadAnswer(eff.state.log).Pass? ==>
            && eff.state.pipes == t.pipes[..k] + t.pipes[k + 1..]
            && CountMatches(eff.state.pipes, PipeMatches(request)) == CountMatches(t.pipes, PipeMatches(request)) - 1)
      && (remote.unloadAnswer(eff.state.log).Fail? ==> eff.state.pipes == t.pipes)
  {
    var p := PipeMatches(request);
    var j :| 0 <= j < |t.pipes| && SamePipeRequest(t.pipes[j].request, request);
    assert p(t.pipes[j]);
    FirstIndexMissesIffNoMatch(t.pipes, p);
    RemoveFirstMatchCount(t.pipes, p);
  }

  /** With one equal entry loaded, a successful stop leaves none, so a second stop of the same request fails. */
  lemma {:induction false} StopTwiceFailsSecond(t: Tables, request: ComponentRequest, remote: Remote)
    requires CountMatches(t.components, ComponentMatches(request)) == 1
    requires StopComponentEffect(t, request, remote).result.Pass?
    ensures var first := StopComponentEffect(t, request, remote);
      StopComponentEffect(first.state, request, remote) == Effect(first.state, Fail(ResourceUnloadFail))
  {
    var p := ComponentMatches(request);
    FirstIndexMissesIffNoMatch(t.components, p);
    RemoveFirstMatchCount(t.components, p);
    var first := StopComponentEffect(t, request, remote);
    FirstIndexMissesIffNoMatch(first.state.components, p);
  }

  /**
   * Starting a request, then stopping by any request equal to it (the
   * message itself, or the type, package and executable it was started
   * with), when no loaded entry was equal to it before, unloads the new
   * entry's resource and returns the unload's outcome; when it passes, the
   * component table is as it was before the start.
   */
  lemma {:induction false} StartThenStopRestores(
    t: Tables, request: ComponentRequest, probe: ComponentRequest, namespace: string, remote: Remote)
    requires SameComponentRequest(request, probe)
    requires forall j :: 0 <= j < |t.components| ==> !SameComponentRequest(t.components[j].request, probe)
    requires StartComponentEffect(t, request, namespace, remote).result.Success?
    ensures var started := StartComponentEffect(t, request, namespace, remote);
      var stopped := StopComponentEffect(started.state, probe, remote);
      && stopped.state.log == t.log + [ComponentCalled(request, namespace), Unloaded(started.state.components[|t.components|].response.resourceId)]
      && stopped.result == remote.unloadAnswer(stopped.state.log)
      && (stopped.result.Pass? ==> stopped.state.components == t.components && stopped.state.pipes == t.pipes)
      && (stopped.result.Fail? ==> stopped.state.components == started.state.components)
  {
    var started := StartComponentEffect(t, request, namespace, remote);
    var p := ComponentMatches(probe);
    var x := started.state.components[|t.components|];
    assert started.state.components == t.components + [x];
    FirstIndexAppend(t.components, x, p);
  }

  /**
   * What the 5-argument `startComponent` overload sends as written: the
   * package and executable it is given are replaced by empty strings.
   */
  function PackageLoadRequestAsWritten(
    componentType: string, packageName: string, executable: string,
    topics: TopicContainer, useOnlyLocal: bool): (r: ComponentRequest)
    ensures r.componentType == componentType && r.packageName == "" && r.executable == ""
    ensures r.outputTopics == topics.outputTopics && r.inputTopics == topics.inputTopics
  {
    ComponentLoadRequest(componentType, "", "", topics, NoTopics, useOnlyLocal)
  }

  /** What the 5-argument overload evidently means to send: its own package and executable. */
  function PackageLoadRequest(
    componentType: string, packageName: string, executable: string,
    topics: TopicContainer, useOnlyLocal: bool): (r: ComponentRequest)
    ensures SameComponentRequest(r, ComponentProbe(componentType, packageName, executable))
    ensures r.outputTopics == topics.outputTopics && r.inputTopics == topics.inputTopics
    ensures r.requiredParameters == map[] && r.useOnlyLocalComponents == useOnlyLocal
  {
    ComponentLoadRequest(componentType, packageName, executable, topics, NoTopics, useOnlyLocal)
  }

  /**
   * As written, a component started through the 5-argument overload with a
   * package or executable cannot be stopped by that type, package and
   * executable: the stop finds no equal entry and fails.
   */
  lemma {:induction false} PackageStartCannotBeStoppedByName(
    t: Tables, componentType: string, packageName: string, executable: string,
    topics: TopicContainer, useOnlyLocal: bool, namespace: string, remote: Remote)
    requires packageName != "" || executable != ""
    requires forall j :: 0 <= j < |t.components| ==>
      !SameComponentRequest(t.components[j].request, ComponentProbe(componentType, packageName, executable))
    ensures var started := StartComponentEffect(t, PackageLoadRequestAsWritten(componentType, packageName, executable, topics, useOnlyLocal), namespace, remote);
      StopComponentEffect(started.state, ComponentProbe(componentType, packageName, executable), remote)
        == Effect(started.state, Fail(ResourceUnloadFail))
  {
    var probe := ComponentProbe(componentType, packageName, executable);
    var started := StartComponentEffect(t, PackageLoadRequestAsWritten(componentType, packageName, executable, topics, useOnlyLocal), namespace, remote);
    forall j | 0 <= j < |started.state.components|
      ensures !SameComponentRequest(started.state.components[j].request, probe)
    {
      if j >= |t.components| {
        assert started.state.components[j].request.packageName == "";
        assert started.state.components[j].request.executable == "";
      }
    }
    StopAbsentComponentFails(started.state, probe, remote);
  }

  /**
   * With the package and executable forwarded, stopping by the type, package
   * and executable a component was started with through the 5-argument
   * overload finds the new entry and unloads its resource, returning the
   * unload's outcome; when that passes, the table is restored.
   */
  lemma {:induction false} PackageStartThenStopByName(
    t: Tables, componentType: string, packageName: string, executable: string,
    topics: TopicContainer, useOnlyLocal: bool, namespace: string, remote: Remote)
    requires forall j :: 0 <= j < |t.components| ==>
      !SameComponentRequest(t.components[j].request, ComponentProbe(componentType, packageName, executable))
    requires StartComponentEffect(t, PackageLoadRequest(componentType, packageName, executable, topics, useOnlyLocal), namespace, remote).result.Success?
    ensures var started := StartComponentEffect(t, PackageLoadRequest(componentType, packageName, executable, topics, useOnlyLocal), namespace, remote);
      var stopped := StopComponentEffect(started.state, ComponentProbe(componentType, packageName, executable), remote);
      && stopped.state.log == t.log + [ComponentCalled(PackageLoadRequest(componentType, packageName, executable, topics, useOnlyLocal), namespace),
                                       Unloaded(started.state.components[|t.components|].response.resourceId)]
      && stopped.result == remote.unloadAnswer(stopped.state.log)
      && (stopped.result.Pass? ==> stopped.state.components == t.components && stopped.state.pipes == t.pipes)
  {
    StartThenStopRestores(t, PackageLoadRequest(componentType, packageName, executable, topics, useOnlyLocal),
                          ComponentProbe(componentType, packageName, executable), namespace, remote);
  }

  // ---------------------------------------------------------------------
  // Reloading
  // ---------------------------------------------------------------------

  /**
   * `reloadPipe` on a pipe that is not loaded fails with RESOURCE_UNLOAD_FAIL
   * before anything is unloaded. On a loaded pipe it unloads the first equal
   * entry's resource; a thrown unload is returned and nothing else happens.
   * A passed unload erases the entry and is always followed by exactly one
   * more call, for that entry's request carrying its old response pipe id;
   * the reload passes exactly when the registrar serves that call, and then
   * the re-started pipe is appended last with the registrar's response.
   */
  lemma {:induction false} ReloadPipeRestartsUnderOldId(t: Tables, request: PipeRequest, temotoNamespace: string, remote: Remote)
    ensures var k := FirstIndex(t.pipes, PipeMatches(request));
      var eff := ReloadPipeEffect(t, request, temotoNamespace, remote);
      && (k == |t.pipes| ==> eff == Effect(t, Fail(ResourceUnloadFail)))
      && (k < |t.pipes| ==>
            var found := t.pipes[k];
            var unloadLog := t.log + [Unloaded(found.response.resourceId)];
            var startLog := unloadLog + [PipeCalled(ReloadRequest(found), temotoNamespace)];
            var answer := remote.answer(startLog);
            && eff.state.components == t.components
            && (remote.unloadAnswer(unloadLog).Fail? ==>
                  eff == Effect(t.(log := unloadLog), remote.unloadAnswer(unloadLog)))
            && (remote.unloadAnswer(unloadLog).Pass? ==>
                  && eff.state.log == startLog
                  && (eff.result.Pass? <==> answer.Served?)
                  && (answer.Raised? ==>
                        && eff.result == Fail(answer.code)
                        && eff.state.pipes == t.pipes[..k] + t.pipes[k + 1..])
                  && (answer.Served? ==>
                        && eff.state.pipes == t.pipes[..k] + t.pipes[k + 1..] + [PipeEntry(ReloadRequest(found), PipeAnswer(answer).value)]
                        && eff.state.pipes[|t.pipes| - 1].request.pipeId == found.response.pipeId)))
  {
    var k := FirstIndex(t.pipes, PipeMatches(request));
    if k < |t.pipes| {
      var stopped := StopPipeEffect(t, request, remote);
      if stopped.result.Pass? {
        var started := StartPipeEffect(stopped.state, ReloadRequest(t.pipes[k]), temotoNamespace, remote);
        assert started.state.log == t.log + [Unloaded(t.pipes[k].response.resourceId)] + [PipeCalled(ReloadRequest(t.pipes[k]), temotoNamespace)];
      }
    }
  }

  // ---------------------------------------------------------------------
  // Status notifications
  // ---------------------------------------------------------------------

  /** A status for an id no entry holds, or with a code other than FAILED and UPDATE, changes nothing and raises nothing. */
  lemma UnknownStatusIsDropped(t: Tables, hooks: Hooks, status: ResourceStatus, remote: Remote)
    requires || status.statusCode.OtherStatus?
             || ((forall j :: 0 <= j < |t.components| ==> t.components[j].response.resourceId != status.resourceId)
                 && (forall j :: 0 <= j < |t.pipes| ==> t.pipes[j].response.resourceId != status.resourceId))
    ensures StatusEffect(t, hooks, status, remote) == Effect(t, Success(Dropped))
  {
  }

  /**
   * Components are searched before pipes: when a component and a pipe share
   * the id of a FAILED or UPDATE status, only the component is acted upon
   * and the pipe table is left as it was.
   */
  lemma ComponentsSearchedFirst(t: Tables, hooks: Hooks, status: ResourceStatus, remote: Remote, j: nat)
    requires status.statusCode.Failed? || status.statusCode.Update?
    requires j < |t.components| && t.components[j].response.resourceId == status.resourceId
    ensures RouteStatus(t.components, t.pipes, status).ToComponent?
    ensures StatusEffect(t, hooks, status, remote).state.pipes == t.pipes
  {
  }

  /**
   * A FAILED status for a known component with no recovery hook unloads its
   * resource; a thrown unload is returned and nothing else happens. A passed
   * unload is always followed by exactly one more call, for the same entry
   * with its requested output topics rewritten to the ones it was given.
   * The entry is updated in place, with the registrar's new response when
   * it serves that call and with the old response when it throws; every
   * other entry is kept. The recovery succeeds exactly when the call is served.
   */
  lemma {:induction false} FailedComponentDefaultRecovery(t: Tables, hooks: Hooks, status: ResourceStatus, remote: Remote)
    requires status.statusCode.Failed? && hooks.componentStatus.None?
    requires exists j :: 0 <= j < |t.components| && t.components[j].response.resourceId == status.resourceId
    ensures var k := FirstIndex(t.components, ComponentHasId(status.resourceId));
      var eff := StatusEffect(t, hooks, status, remote);
      && k < |t.components|
      && eff.state.pipes == t.pipes
      && |eff.state.components| == |t.components|
      && (forall i :: 0 <= i < |t.components| && i != k ==> eff.state.components[i] == t.components[i])
      && var unloadLog := t.log + [Unloaded(status.resourceId)];
      var request := ComponentRecoveryRequest(t.components[k]);
      var callLog := unloadLog + [ComponentCalled(request, "")];
      var answer := remote.answer(callLog);
      && (remote.unloadAnswer(unloadLog).Pass? <==> |eff.state.log| == |t.log| + 2)
      && (remote.unloadAnswer(unloadLog).Fail? ==>
            eff == Effect(t.(log := unloadLog), Failure(remote.unloadAnswer(unloadLog).error)))
      && (remote.unloadAnswer(unloadLog).Pass? ==>
            && eff.state.log == callLog
            && eff.state.components[k] == ComponentEntry(request, if answer.Served? then ComponentAnswer(answer).value else t.components[k].response)
            && (eff.result.Success? <==> answer.Served?)
            && (answer.Served? ==> eff.result == Success(ComponentReloaded(k)))
            && (answer.Raised? ==> eff.result == Failure(answer.code)))
  {
    var p := ComponentHasId(status.resourceId);
    var j :| 0 <= j < |t.components| && t.components[j].response.resourceId == status.resourceId;
    assert p(t.components[j]);
    FirstIndexMissesIffNoMatch(t.components, p);
  }

  /**
   * A FAILED status for a known pipe (and no component) with no recovery
   * hook does the same as for a component; the re-issued request also
   * carries the old response pipe id.
   */
  lemma {:induction false} FailedPipeDefaultRecovery(t: Tables, hooks: Hooks, status: ResourceStatus, remote: Remote)
    requires status.statusCode.Failed? && hooks.pipeStatus.None?
    requires forall j :: 0 <= j < |t.components| ==> t.components[j].response.resourceId != status.resourceId
    requires exists j :: 0 <= j < |t.pipes| && t.pipes[j].response.resourceId == status.resourceId
    ensures var k := FirstIndex(t.pipes, PipeHasId(status.resourceId));
      var eff := StatusEffect(t, hooks, status, remote);
      && k < |t.pipes|
      && eff.state.components == t.components
      && |eff.state.pipes| == |t.pipes|
      && (forall i :: 0 <= i < |t.pipes| && i != k ==> eff.state.pipes[i] == t.pipes[i])
      && var unloadLog := t.log + [Unloaded(status.resourceId)];
      var request := PipeRecoveryRequest(t.pipes[k]);
      var callLog := unloadLog + [PipeCalled(request, "")];
      var answer := remote.answer(callLog);
      && (remote.unloadAnswer(unloadLog).Pass? <==> |eff.state.log| == |t.log| + 2)
      && (remote.unloadAnswer(unloadLog).Fail? ==>
            eff == Effect(t.(log := unloadLog), Failure(remote.unloadAnswer(unloadLog).error)))
      && (remote.unloadAnswer(unloadLog).Pass? ==>
            && eff.state.log == callLog
            && eff.state.pipes[k] == PipeEntry(request, if answer.Served? then PipeAnswer(answer).value else t.pipes[k].response)
            && request.pipeId == t.pipes[k].response.pipeId
            && (eff.result.Success? <==> answer.Served?)
            && (answer.Served? ==> eff.result == Success(PipeReloaded(k)))
            && (answer.Raised? ==> eff.result == Failure(answer.code)))
  {
    var p := PipeHasId(status.resourceId);
    var j :| 0 <= j < |t.pipes| && t.pipes[j].response.resourceId == status.resourceId;
    assert p(t.pipes[j]);
    FirstIndexMissesIffNoMatch(t.pipes, p);
  }

  /**
   * Whenever a hook is called, it receives a copy of the matched entry and
   * neither table changes; the only registrar call is the unload a FAILED
   * status makes first. An UPDATE status with no hook changes nothing.
   */
  lemma {:induction false} HooksLeaveTablesUnchanged(t: Tables, hooks: Hooks, status: ResourceStatus, remote: Remote)
    ensures var eff := StatusEffect(t, hooks, status, remote);
      && (eff.result.Success? && eff.result.value.ComponentHookCalled? ==>
            && eff.state.components == t.components && eff.state.pipes == t.pipes
            && eff.result.value.componentCopy == t.components[FirstIndex(t.components, ComponentHasId(status.resourceId))]
            && eff.result.value.componentHook == (if status.statusCode.Failed? then hooks.componentStatus else hooks.componentUpdate).value)
      && (eff.result.Success? && eff.result.value.PipeHookCalled? ==>
            && eff.state.components == t.components && eff.state.pipes == t.pipes
            && eff.result.value.pipeCopy == t.pipes[FirstIndex(t.pipes, PipeHasId(status.resourceId))]
            && eff.result.value.pipeHook == (if status.statusCode.Failed? then hooks.pipeStatus else hooks.pipeUpdate).value)
      && (status.statusCode.Update? ==> eff.state == t)
      && (status.statusCode.Update? && eff.result.Success? && eff.result.value == Ignored ==>
            || (RouteStatus(t.components, t.pipes, status).ToComponent? && hooks.componentUpdate.None?)
            || (RouteStatus(t.components, t.pipes, status).ToPipe? && hooks.pipeUpdate.None?))
  {
  }

  /**
   * A registered hook is called for every FAILED or UPDATE status routed to
   * a component. For FAILED the resource is unloaded first: the hook
   * receives a copy of the entry when the unload passes, and the unload's
   * error is returned instead when it throws. For UPDATE the hook receives
   * the copy at once; with no update hook the status is ignored. No table
   * changes in any of these cases.
   */
  lemma {:induction false} RegisteredComponentHookIsCalled(t: Tables, hooks: Hooks, status: ResourceStatus, remote: Remote)
    requires status.statusCode.Failed? || status.statusCode.Update?
    requires exists j :: 0 <= j < |t.components| && t.components[j].response.resourceId == status.resourceId
    ensures var k := FirstIndex(t.components, ComponentHasId(status.resourceId));
      var eff := StatusEffect(t, hooks, status, remote);
      var unloadLog := t.log + [Unloaded(status.resourceId)];
      && k < |t.components|
      && (status.statusCode.Failed? && hooks.componentStatus.Some? && remote.unloadAnswer(unloadLog).Pass? ==>
            eff == Effect(t.(log := unloadLog), Success(ComponentHookCalled(hooks.componentStatus.value, t.components[k]))))
      && (status.statusCode.Failed? && hooks.componentStatus.Some? && remote.unloadAnswer(unloadLog).Fail? ==>
            eff == Effect(t.(log := unloadLog), Failure(remote.unloadAnswer(unloadLog).error)))
      && (status.statusCode.Update? && hooks.componentUpdate.Some? ==>
            eff == Effect(t, Success(ComponentHookCalled(hooks.componentUpdate.value, t.components[k]))))
      && (status.statusCode.Update? && hooks.componentUpdate.None? ==> eff == Effect(t, Success(Ignored)))
  {
    var p := ComponentHasId(status.resourceId);
    var j :| 0 <= j < |t.components| && t.components[j].response.resourceId == status.resourceId;
    assert p(t.components[j]);
    FirstIndexMissesIffNoMatch(t.components, p);
  }

  /** The pipe counterpart of `RegisteredComponentHookIsCalled`, for an id that only a pipe holds. */
  lemma {:induction false} RegisteredPipeHookIsCalled(t: Tables, hooks: Hooks, status: ResourceStatus, remote: Remote)
    requires status.statusCode.Failed? || status.statusCode.Update?
    requires forall j :: 0 <= j < |t.components| ==> t.components[j].response.resourceId != status.resourceId
    requires exists j :: 0 <= j < |t.pipes| && t.pipes[j].response.resourceId == status.resourceId
    ensures var k := FirstIndex(t.pipes, PipeHasId(status.resourceId));
      var eff := StatusEffect(t, hooks, status, remote);
      var unloadLog := t.log + [Unloaded(status.resourceId)];
      && k < |t.pipes|
      && (status.statusCode.Failed? && hooks.pipeStatus.Some? && remote.unloadAnswer(unloadLog).Pass? ==>
            eff == Effect(t.(log := unloadLog), Success(PipeHookCalled(hooks.pipeStatus.value, t.pipes[k]))))
      && (status.statusCode.Failed? && hooks.pipeStatus.Some? && remote.unloadAnswer(unloadLog).Fail? ==>
            eff == Effect(t.(log := unloadLog), Failure(remote.unloadAnswer(unloadLog).error)))
      && (status.statusCode.Update? && hooks.pipeUpdate.Some? ==>
            eff == Effect(t, Success(PipeHookCalled(hooks.pipeUpdate.value, t.pipes[k]))))
      && (status.statusCode.Update? && hooks.pipeUpdate.None? ==> eff == Effect(t, Success(Ignored)))
  {
    var p := PipeHasId(status.resourceId);
    var j :| 0 <= j < |t.pipes| && t.pipes[j].response.resourceId == status.resourceId;
    assert p(t.pipes[j]);
    FirstIndexMissesIffNoMatch(t.pipes, p);
  }

  /**
   * After a default recovery the entry is still found by the request it
   * was loaded with, at the same position, so a later stop still reaches it.
   */
  lemma {:induction false} RecoveredPipeStillStoppable(t: Tables, hooks: Hooks, status: ResourceStatus, remote: Remote)
    requires status.statusCode.Failed? && hooks.pipeStatus.None?
    requires forall j :: 0 <= j < |t.components| ==> t.components[j].response.resourceId != status.resourceId
    requires exists j :: 0 <= j < |t.pipes| && t.pipes[j].response.resourceId == status.resourceId
    ensures var k := FirstIndex(t.pipes, PipeHasId(status.resourceId));
      var request := t.pipes[k].request;
      var eff := StatusEffect(t, hooks, status, remote);
      FirstIndex(eff.state.pipes, PipeMatches(request)) == FirstIndex(t.pipes, PipeMatches(request))
  {
    var k := FirstIndex(t.pipes, PipeHasId(status.resourceId));
    FailedPipeDefaultRecovery(t, hooks, status, remote);
    var eff := StatusEffect(t, hooks, status, remote);
    var request := t.pipes[k].request;
    if eff.state.pipes != t.pipes {
      assert eff.state.pipes == t.pipes[k := eff.state.pipes[k]];
      FirstIndexReplace(t.pipes, k, eff.state.pipes[k], PipeMatches(request));
    }
  }
}
