/**
 * The service messages the component manager interface exchanges with the
 * remote component manager (`LoadComponent`, `LoadPipe`), the topic
 * containers it returns, the status notifications it receives and the
 * error codes it raises.
 */
module Messages {

  /** Key/value topic lists (`outputTopicsAsKeyValues` and friends), keyed by topic type. */
  type TopicMap = map<string, string>

  /** The `trr.resource_id` the registrar assigns to every loaded resource. */
  type ResourceId = int

  /** `temoto_core::TopicContainer` (and `ComponentTopicsReq`/`ComponentTopicsRes`, which add nothing to it). */
  datatype TopicContainer = TopicContainer(inputTopics: TopicMap, outputTopics: TopicMap)

  /** A default-constructed container. */
  const NoTopics := TopicContainer(map[], map[])

  /** The container a successful start returns: the response's output topics, and no input topics. */
  function RespondedTopics(outputTopics: TopicMap): TopicContainer
  {
    TopicContainer(map[], outputTopics)
  }

  /** `LoadComponent::Request`. */
  datatype ComponentRequest = ComponentRequest(
    componentType: string,
    packageName: string,
    executable: string,
    useOnlyLocalComponents: bool,
    outputTopics: TopicMap,
    inputTopics: TopicMap,
    requiredParameters: TopicMap)

  /** `LoadComponent::Response`. */
  datatype ComponentResponse = ComponentResponse(resourceId: ResourceId, outputTopics: TopicMap)

  /** A `LoadComponent` message: a request paired with the response it got. */
  datatype ComponentEntry = ComponentEntry(request: ComponentRequest, response: ComponentResponse)

  /** `PipeSegmentSpecifier`: carried and compared, never interpreted by the interface. */
  datatype SegmentSpecifier = SegmentSpecifier(segmentType: string, parameters: TopicMap, topics: TopicMap)

  /** `LoadPipe::Request`. */
  datatype PipeRequest = PipeRequest(
    pipeCategory: string,
    segmentSpecifiers: seq<SegmentSpecifier>,
    useOnlyLocalSegments: bool,
    outputTopics: TopicMap,
    pipeId: string)

  /** `LoadPipe::Response`. */
  datatype PipeResponse = PipeResponse(resourceId: ResourceId, outputTopics: TopicMap, pipeId: string)

  /** A `LoadPipe` message. */
  datatype PipeEntry = PipeEntry(request: PipeRequest, response: PipeResponse)

  /** Error codes: the two the interface raises itself, and any code forwarded from the registrar. */
  datatype ErrorCode = Uninitialized | ResourceUnloadFail | RegistrarError(code: nat)

  /** `trr::status_codes`: FAILED, UPDATE, or any other code. */
  datatype StatusCode = Failed | Update | OtherStatus(code: int)

  /** The request part of a `temoto_core::ResourceStatus` notification. */
  datatype ResourceStatus = ResourceStatus(resourceId: ResourceId, statusCode: StatusCode)

  /**
   * Request `operator==` for components, as read here: the fields that
   * identify what was asked for (those `stopComponent(type, package,
   * executable)` fills in), not the topic assignments.
   */
  predicate SameComponentRequest(a: ComponentRequest, b: ComponentRequest)
  {
    a.componentType == b.componentType && a.packageName == b.packageName && a.executable == b.executable
  }

  /**
   * Request `operator==` for pipes, as read here: the fields `stopPipe` and
   * `findPipe` fill in, not the output topics or the pipe id.
   */
  predicate SamePipeRequest(a: PipeRequest, b: PipeRequest)
  {
    && a.pipeCategory == b.pipeCategory
    && a.segmentSpecifiers == b.segmentSpecifiers
    && a.useOnlyLocalSegments == b.useOnlyLocalSegments
  }

  /** The 7-argument `startComponent` overload fills a request from its arguments. */
  function ComponentLoadRequest(
    componentType: string, packageName: string, executable: string,
    topics: TopicContainer, parameters: TopicContainer, useOnlyLocal: bool): (r: ComponentRequest)
    ensures SameComponentRequest(r, ComponentProbe(componentType, packageName, executable))
    ensures r.outputTopics == topics.outputTopics && r.inputTopics == topics.inputTopics
    ensures r.requiredParameters == parameters.outputTopics && r.useOnlyLocalComponents == useOnlyLocal
  {
    ComponentRequest(componentType, packageName, executable, useOnlyLocal,
                     topics.outputTopics, topics.inputTopics, parameters.outputTopics)
  }

  /** The request `stopComponent(type, package, executable)` searches with; every other field is defaulted. */
  function ComponentProbe(componentType: string, packageName: string, executable: string): ComponentRequest
  {
    ComponentRequest(componentType, packageName, executable, false, map[], map[], map[])
  }

  /** The request `startPipe`, `stopPipe` and `findPipe` build from their arguments. */
  function PipeProbe(pipeCategory: string, segmentSpecifiers: seq<SegmentSpecifier>, useOnlyLocal: bool): PipeRequest
  {
    PipeRequest(pipeCategory, segmentSpecifiers, useOnlyLocal, map[], "")
  }
}
