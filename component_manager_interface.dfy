/**
 * `temoto_component_manager::ComponentManagerInterface`: the client-side
 * handle a subsystem uses to start and stop components and pipes through
 * the resource registrar. It keeps every successfully loaded resource in
 * one of two ordered tables, and repairs them when the registrar reports a
 * failed or updated resource.
 */
module ComponentManagerInterface {
  import opened Wrappers
  import opened Messages
  import opened AllocationTable
  import opened ResourceRegistrar
  import opened Allocations

  class ComponentManagerInterface {
    /** `resource_registrar_`: null until `initialize` has run. */
    var registrar: ResourceRegistrar?
    /** `allocated_components_`. */
    var allocatedComponents: seq<ComponentEntry>
    /** `allocated_pipes_`. */
    var allocatedPipes: seq<PipeEntry>
    var componentStatusCallback: Option<Hook>
    var componentUpdateCallback: Option<Hook>
    var pipeStatusCallback: Option<Hook>
    var pipeUpdateCallback: Option<Hook>
    /** What `getTemotoNamespace()` returns in this process. */
    const temotoNamespace: string

    /** Nothing can have been loaded before the registrar existed. */
    ghost predicate Valid()
      reads this
    {
      registrar == null ==> allocatedComponents == [] && allocatedPipes == []
    }

    /** The tables together with the registrar's record of calls. */
    function State(): Tables
      reads this, registrar
      requires registrar != null
    {
      Tables(allocatedComponents, allocatedPipes, registrar.log)
    }

    function Callbacks(): Hooks
      reads this
    {
      Hooks(componentStatusCallback, componentUpdateCallback, pipeStatusCallback, pipeUpdateCallback)
    }

    constructor (temotoNamespace: string)
      ensures Valid() && registrar == null
      ensures allocatedComponents == [] && allocatedPipes == []
      ensures Callbacks() == Hooks(None, None, None, None)
      ensures this.temotoNamespace == temotoNamespace
    {
      registrar := null;
      allocatedComponents := [];
      allocatedPipes := [];
      componentStatusCallback := None;
      componentUpdateCallback := None;
      pipeStatusCallback := None;
      pipeUpdateCallback := None;
      this.temotoNamespace := temotoNamespace;
    }

    /** `initialize`: creates the registrar; every other operation needs it. */
    method Initialize(registrar: ResourceRegistrar)
      requires Valid()
      modifies this`registrar
      ensures Valid() && this.registrar == registrar
    {
      this.registrar := registrar;
    }

    /** `validateInterface`: UNINITIALIZED exactly when there is no registrar. */
    method ValidateInterface() returns (r: Outcome<ErrorCode>)
      ensures r.Fail? <==> registrar == null
      ensures r.Fail? ==> r.error == Uninitialized
    {
      if registrar == null {
        return Fail(Uninitialized);
      }
      return Pass;
    }

    /** `startComponent(msg, namespace)`: the call, then the append. */
    method StartComponentMessage(request: ComponentRequest, namespace: string) returns (r: Result<TopicContainer, ErrorCode>)
      requires Valid() && registrar != null
      modifies this`allocatedComponents, registrar
      ensures Valid() && allocatedPipes == old(allocatedPipes)
      ensures Effect(State(), r)
        == StartComponentEffect(old(State()), request, EffectiveNamespace(namespace, temotoNamespace), registrar.remote)
    {
      var ns := EffectiveNamespace(namespace, temotoNamespace);
      var response := registrar.CallComponent(request, ns);
      match response
      case Failure(code) =>
        r := Failure(code);
      case Success(loaded) =>
        allocatedComponents := allocatedComponents + [ComponentEntry(request, loaded)];
        r := Success(RespondedTopics(loaded.outputTopics));
    }

    /** The 7-argument `startComponent`: fills a request from its arguments. */
    method StartComponentWithParameters(
      componentType: string, packageName: string, executable: string,
      topics: TopicContainer, parameters: TopicContainer, useOnlyLocal: bool, namespace: string)
      returns (r: Result<TopicContainer, ErrorCode>)
      requires Valid() && registrar != null
      modifies this`allocatedComponents, registrar
      ensures Valid() && allocatedPipes == old(allocatedPipes)
      ensures Effect(State(), r)
        == StartComponentEffect(old(State()),
                                ComponentLoadRequest(componentType, packageName, executable, topics, parameters, useOnlyLocal),
                                EffectiveNamespace(namespace, temotoNamespace), registrar.remote)
    {
      var request := ComponentLoadRequest(componentType, packageName, executable, topics, parameters, useOnlyLocal);
      r := StartComponentMessage(request, namespace);
    }

    /**
     * The 5-argument `startComponent` as written: the package and executable
     * it is given are not forwarded, empty strings are sent in their place
     * (see `PackageLoadRequestAsWritten` and `PackageStartCannotBeStoppedByName`).
     */
    method StartComponentFromPackage(
      componentType: string, packageName: string, executable: string, topics: TopicContainer, useOnlyLocal: bool)
      returns (r: Result<TopicContainer, ErrorCode>)
      requires Valid()
      modifies this`allocatedComponents, registrar
      ensures Valid() && allocatedPipes == old(allocatedPipes)
      ensures registrar == null ==> r == Failure(Uninitialized) && allocatedComponents == old(allocatedComponents)
      ensures registrar != null ==>
        Effect(State(), r) == StartComponentEffect(old(State()), PackageLoadRequestAsWritten(componentType, packageName, executable, topics, useOnlyLocal),
                                temotoNamespace, registrar.remote)
    {
      var valid := ValidateInterface();
      if valid.Fail? {
        return Failure(valid.error);
      }
      r := StartComponentWithParameters(componentType, "", "", topics, NoTopics, useOnlyLocal, "");
    }

    /** The 3-argument `startComponent`: a type and the topics to provide. */
    method StartComponentWithTopics(componentType: string, topics: TopicContainer, useOnlyLocal: bool)
      returns (r: Result<TopicContainer, ErrorCode>)
      requires Valid()
      modifies this`allocatedComponents, registrar
      ensures Valid() && allocatedPipes == old(allocatedPipes)
      ensures registrar == null ==> r == Failure(Uninitialized) && allocatedComponents == old(allocatedComponents)
      ensures registrar != null ==>
        Effect(State(), r) == StartComponentEffect(old(State()), ComponentLoadRequest(componentType, "", "", topics, NoTopics, useOnlyLocal),
                                temotoNamespace, registrar.remote)
    {
      var valid := ValidateInterface();
      if valid.Fail? {
        return Failure(valid.error);
      }
      r := StartComponentFromPackage(componentType, "", "", topics, useOnlyLocal);
    }

    /** The 2-argument `startComponent`: only a type. */
    method StartComponentOfType(componentType: string, useOnlyLocal: bool) returns (r: Result<TopicContainer, ErrorCode>)
      requires Valid()
      modifies this`allocatedComponents, registrar
      ensures Valid() && allocatedPipes == old(allocatedPipes)
      ensures registrar == null ==> r == Failure(Uninitialized) && allocatedComponents == old(allocatedComponents)
      ensures registrar != null ==>
        Effect(State(), r) == StartComponentEffect(old(State()), ComponentLoadRequest(componentType, "", "", NoTopics, NoTopics, useOnlyLocal),
                                temotoNamespace, registrar.remote)
    {
      var valid := ValidateInterface();
      if valid.Fail? {
        return Failure(valid.error);
      }
      r := StartComponentFromPackage(componentType, "", "", NoTopics, useOnlyLocal);
    }

    /** `stopComponent(msg)`: unload the first equal entry, then erase it. */
    method StopComponentMessage(request: ComponentRequest) returns (r: Outcome<ErrorCode>)
      requires Valid()
      modifies this`allocatedComponents, registrar
      ensures Valid() && allocatedPipes == old(allocatedPipes)
      ensures registrar == null ==> r == Fail(ResourceUnloadFail) && allocatedComponents == old(allocatedComponents)
      ensures registrar != null ==> Effect(State(), r) == StopComponentEffect(old(State()), request, registrar.remote)
    {
      var k := FirstIndex(allocatedComponents, ComponentMatches(request));
      if k == |allocatedComponents| {
        return Fail(ResourceUnloadFail);
      }
      var unloaded := registrar.UnloadClientResource(allocatedComponents[k].response.resourceId);
      if unloaded.Fail? {
        return unloaded;
      }
      allocatedComponents := RemoveAt(allocatedComponents, k);
      r := Pass;
    }

    /** `stopComponent(type, package, executable)`: stop the first entry with that type, package and executable. */
    method StopComponent(componentType: string, packageName: string, executable: string) returns (r: Outcome<ErrorCode>)
      requires Valid()
      modifies this`allocatedComponents, registrar
      ensures Valid() && allocatedPipes == old(allocatedPipes)
      ensures registrar == null ==> r == Fail(Uninitialized) && allocatedComponents == old(allocatedComponents)
      ensures registrar != null ==>
        Effect(State(), r) == StopComponentEffect(old(State()), ComponentProbe(componentType, packageName, executable), registrar.remote)
    {
      var valid := ValidateInterface();
      if valid.Fail? {
        return valid;
      }
      r := StopComponentMessage(ComponentProbe(componentType, packageName, executable));
    }

    /** `startPipe(msg, namespace)`: the call, then the append. */
    method StartPipeMessage(request: PipeRequest, namespace: string) returns (r: Result<TopicContainer, ErrorCode>)
      requires Valid() && registrar != null
      modifies this`allocatedPipes, registrar
      ensures Valid() && allocatedComponents == old(allocatedComponents)
      ensures Effect(State(), r)
        == StartPipeEffect(old(State()), request, EffectiveNamespace(namespace, temotoNamespace), registrar.remote)
    {
      var ns := EffectiveNamespace(namespace, temotoNamespace);
      var response := registrar.CallPipe(request, ns);
      match response
      case Failure(code) =>
        r := Failure(code);
      case Success(loaded) =>
        allocatedPipes := allocatedPipes + [PipeEntry(request, loaded)];
        r := Success(RespondedTopics(loaded.outputTopics));
    }

    /** `startPipe(category, specifiers, local)`. */
    method StartPipe(pipeCategory: string, segmentSpecifiers: seq<SegmentSpecifier>, useOnlyLocal: bool)
      returns (r: Result<TopicContainer, ErrorCode>)
      requires Valid()
      modifies this`allocatedPipes, registrar
      ensures Valid() && allocatedComponents == old(allocatedComponents)
      ensures registrar == null ==> r == Failure(Uninitialized) && allocatedPipes == old(allocatedPipes)
      ensures registrar != null ==>
        Effect(State(), r) == StartPipeEffect(old(State()), PipeProbe(pipeCategory, segmentSpecifiers, useOnlyLocal), temotoNamespace, registrar.remote)
    {
      var valid := ValidateInterface();
      if valid.Fail? {
        return Failure(valid.error);
      }
      r := StartPipeMessage(PipeProbe(pipeCategory, segmentSpecifiers, useOnlyLocal), "");
    }

    /** `stopPipe`: unload the first entry with an equal request, then erase it. */
    method StopPipe(pipeCategory: string, segmentSpecifiers: seq<SegmentSpecifier>, useOnlyLocal: bool)
      returns (r: Outcome<ErrorCode>)
      requires Valid()
      modifies this`allocatedPipes, registrar
      ensures Valid() && allocatedComponents == old(allocatedComponents)
      ensures registrar == null ==> r == Fail(Uninitialized) && allocatedPipes == old(allocatedPipes)
      ensures registrar != null ==>
        Effect(State(), r) == StopPipeEffect(old(State()), PipeProbe(pipeCategory, segmentSpecifiers, useOnlyLocal), registrar.remote)
    {
      var valid := ValidateInterface();
      if valid.Fail? {
        return valid;
      }
      var request := PipeProbe(pipeCategory, segmentSpecifiers, useOnlyLocal);
      var k := FirstIndex(allocatedPipes, PipeMatches(request));
      if k == |allocatedPipes| {
        return Fail(ResourceUnloadFail);
      }
      var unloaded := registrar.UnloadClientResource(allocatedPipes[k].response.resourceId);
      if unloaded.Fail? {
        return unloaded;
      }
      allocatedPipes := RemoveAt(allocatedPipes, k);
      r := Pass;
    }

    /** `findPipe`: a copy of the first entry with an equal request, if there is one. */
    method FindPipe(pipeCategory: string, segmentSpecifiers: seq<SegmentSpecifier>, useOnlyLocal: bool)
      returns (r: Option<PipeEntry>)
      ensures r.None? <==> forall j :: 0 <= j < |allocatedPipes| ==>
        !SamePipeRequest(allocatedPipes[j].request, PipeProbe(pipeCategory, segmentSpecifiers, useOnlyLocal))
      ensures r.Some? ==>
        exists k :: && 0 <= k < |allocatedPipes| && r.value == allocatedPipes[k]
                    && SamePipeRequest(r.value.request, PipeProbe(pipeCategory, segmentSpecifiers, useOnlyLocal))
                    && forall j :: 0 <= j < k ==> !SamePipeRequest(allocatedPipes[j].request, PipeProbe(pipeCategory, segmentSpecifiers, useOnlyLocal))
    {
      var k := FirstIndex(allocatedPipes, PipeMatches(PipeProbe(pipeCategory, segmentSpecifiers, useOnlyLocal)));
      if k < |allocatedPipes| {
        return Some(allocatedPipes[k]);
      }
      return None;
    }

    /** `reloadPipe`: find, stop, and start again under the old pipe id. */
    method ReloadPipe(pipeCategory: string, segmentSpecifiers: seq<SegmentSpecifier>, useOnlyLocal: bool)
      returns (r: Outcome<ErrorCode>)
      requires Valid()
      modifies this`allocatedPipes, registrar
      ensures Valid() && allocatedComponents == old(allocatedComponents)
      ensures registrar == null ==> r == Fail(Uninitialized) && allocatedPipes == old(allocatedPipes)
      ensures registrar != null ==>
        Effect(State(), r) == ReloadPipeEffect(old(State()), PipeProbe(pipeCategory, segmentSpecifiers, useOnlyLocal), temotoNamespace, registrar.remote)
    {
      var valid := ValidateInterface();
      if valid.Fail? {
        return valid;
      }
      var found := FindPipe(pipeCategory, segmentSpecifiers, useOnlyLocal);
      if found.None? {
        return Fail(ResourceUnloadFail);
      }
      var stopped := StopPipe(pipeCategory, segmentSpecifiers, useOnlyLocal);
      if stopped.Fail? {
        return stopped;
      }
      var started := StartPipeMessage(ReloadRequest(found.value), "");
      if started.Failure? {
        return Fail(started.error);
      }
      r := Pass;
    }

    /** `registerComponentStatusCallback`. */
    method RegisterComponentStatusCallback(callback: Option<Hook>)
      modifies this`componentStatusCallback
      ensures Callbacks() == old(Callbacks()).(componentStatus := callback)
    {
      componentStatusCallback := callback;
    }

    /** `registerComponentUpdateCallback`. */
    method RegisterComponentUpdateCallback(callback: Option<Hook>)
      modifies this`componentUpdateCallback
      ensures Callbacks() == old(Callbacks()).(componentUpdate := callback)
    {
      componentUpdateCallback := callback;
    }

    /** `registerPipeStatusCallback`. */
    method RegisterPipeStatusCallback(callback: Option<Hook>)
      modifies this`pipeStatusCallback
      ensures Callbacks() == old(Callbacks()).(pipeStatus := callback)
    {
      pipeStatusCallback := callback;
    }

    /** `registerPipeUpdateCallback`. */
    method RegisterPipeUpdateCallback(callback: Option<Hook>)
      modifies this`pipeUpdateCallback
      ensures Callbacks() == old(Callbacks()).(pipeUpdate := callback)
    {
      pipeUpdateCallback := callback;
    }

    /** `statusInfoCb`: route a FAILED or UPDATE status to the component or pipe holding its id. */
    method StatusInfoCb(status: ResourceStatus) returns (r: Result<Reaction, ErrorCode>)
      requires Valid()
      modifies this`allocatedComponents, this`allocatedPipes, registrar
      ensures Valid()
      ensures registrar == null ==>
        r == Failure(Uninitialized) && allocatedComponents == old(allocatedComponents) && allocatedPipes == old(allocatedPipes)
      ensures registrar != null ==> Effect(State(), r) == StatusEffect(old(State()), Callbacks(), status, registrar.remote)
    {
      var valid := ValidateInterface();
      if valid.Fail? {
        return Failure(valid.error);
      }
      var code := status.statusCode;
      var k := FirstIndex(allocatedComponents, ComponentHasId(status.resourceId));
      if k < |allocatedComponents| {
        if code.Failed? {
          var e := allocatedComponents[k];
          var unloaded := registrar.UnloadClientResource(e.response.resourceId);
          if unloaded.Fail? {
            return Failure(unloaded.error);
          }
          if componentStatusCallback.Some? {
            return Success(ComponentHookCalled(componentStatusCallback.value, e));
          }
          var request := ComponentRecoveryRequest(e);
          allocatedComponents := allocatedComponents[k := ComponentEntry(request, e.response)];
          var response := registrar.CallComponent(request, "");
          if response.Failure? {
            return Failure(response.error);
          }
          allocatedComponents := allocatedComponents[k := ComponentEntry(request, response.value)];
          return Success(ComponentReloaded(k));
        } else if code.Update? {
          if componentUpdateCallback.Some? {
            return Success(ComponentHookCalled(componentUpdateCallback.value, allocatedComponents[k]));
          }
          return Success(Ignored);
        }
      }
      var p := FirstIndex(allocatedPipes, PipeHasId(status.resourceId));
      if p < |allocatedPipes| {
        if code.Failed? {
          var e := allocatedPipes[p];
          var unloaded := registrar.UnloadClientResource(e.response.resourceId);
          if unloaded.Fail? {
            return Failure(unloaded.error);
          }
          if pipeStatusCallback.Some? {
            return Success(PipeHookCalled(pipeStatusCallback.value, e));
          }
          var request := PipeRecoveryRequest(e);
          allocatedPipes := allocatedPipes[p := PipeEntry(request, e.response)];
          var response := registrar.CallPipe(request, "");
          if response.Failure? {
            return Failure(response.error);
          }
          allocatedPipes := allocatedPipes[p := PipeEntry(request, response.value)];
          return Success(PipeReloaded(p));
        } else if code.Update? {
          if pipeUpdateCallback.Some? {
            return Success(PipeHookCalled(pipeUpdateCallback.value, allocatedPipes[p]));
          }
          return Success(Ignored);
        }
      }
      r := Success(Dropped);
    }
  }
}
