/**
 * The part of `temoto_core::trr::ResourceRegistrar` the interface uses:
 * `call<LoadComponent>`, `call<LoadPipe>` and `unloadClientResource`. The
 * registrar's own workings are outside this model; every call is recorded
 * in `log`, and what the remote side answers is an arbitrary function of
 * the calls made so far.
 */
module ResourceRegistrar {
  import opened Wrappers
  import opened Messages

  /** One request the interface sent through the registrar. */
  datatype RegistrarEvent =
    | ComponentCalled(componentRequest: ComponentRequest, namespace: string)
    | PipeCalled(pipeRequest: PipeRequest, namespace: string)
    | Unloaded(resourceId: ResourceId)

  /** What a load call comes back with: the response fields, or a thrown error. */
  datatype Answer = Served(resourceId: ResourceId, outputTopics: TopicMap, pipeId: string) | Raised(code: ErrorCode)

  /** The remote side: its answer to each call, given every call made up to and including it. */
  datatype Remote = Remote(answer: seq<RegistrarEvent> -> Answer, unloadAnswer: seq<RegistrarEvent> -> Outcome<ErrorCode>)

  /** The `LoadComponent` response an answer fills in. */
  function ComponentAnswer(a: Answer): (r: Result<ComponentResponse, ErrorCode>)
    ensures r.Failure? <==> a.Raised?
    ensures r.Success? ==> r.value.resourceId == a.resourceId && r.value.outputTopics == a.outputTopics
  {
    match a
    case Served(id, topics, _) => Success(ComponentResponse(id, topics))
    case Raised(code) => Failure(code)
  }

  /** The `LoadPipe` response an answer fills in. */
  function PipeAnswer(a: Answer): (r: Result<PipeResponse, ErrorCode>)
    ensures r.Failure? <==> a.Raised?
    ensures r.Success? ==> r.value == PipeResponse(a.resourceId, a.outputTopics, a.pipeId)
  {
    match a
    case Served(id, topics, pipeId) => Success(PipeResponse(id, topics, pipeId))
    case Raised(code) => Failure(code)
  }

  class ResourceRegistrar {
    /** Every call made through this registrar, oldest first. */
    var log: seq<RegistrarEvent>
    const remote: Remote

    constructor (remote: Remote)
      ensures log == [] && this.remote == remote
    {
      log := [];
      this.remote := remote;
    }

    /** `call<LoadComponent>`: fills in the response, or throws. */
    method CallComponent(request: ComponentRequest, namespace: string) returns (r: Result<ComponentResponse, ErrorCode>)
      modifies this`log
      ensures log == old(log) + [ComponentCalled(request, namespace)]
      ensures r == ComponentAnswer(remote.answer(log))
    {
      log := log + [ComponentCalled(request, namespace)];
      r := ComponentAnswer(remote.answer(log));
    }

    /** `call<LoadPipe>`: fills in the response, or throws. */
    method CallPipe(request: PipeRequest, namespace: string) returns (r: Result<PipeResponse, ErrorCode>)
      modifies this`log
      ensures log == old(log) + [PipeCalled(request, namespace)]
      ensures r == PipeAnswer(remote.answer(log))
    {
      log := log + [PipeCalled(request, namespace)];
      r := PipeAnswer(remote.answer(log));
    }

    /** `unloadClientResource`: returns, or throws. */
    method UnloadClientResource(resourceId: ResourceId) returns (r: Outcome<ErrorCode>)
      modifies this`log
      ensures log == old(log) + [Unloaded(resourceId)]
      ensures r == remote.unloadAnswer(log)
    {
      log := log + [Unloaded(resourceId)];
      r := remote.unloadAnswer(log);
    }
  }
}
