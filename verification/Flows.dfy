/** `FlowManager` of homeassistant/data_entry_flow.py. Every method is a stretch of code that
    runs without suspending, so any interleaving of flows is a sequence of method calls. */
module Flows {
  import opened Options
  import opened Indexes

  type FlowId(==, !new) = string
  type Handler(==, !new) = string

  datatype ResultType =
    | Form | CreateEntry | Abort | ExternalStep | ExternalStepDone | ShowProgress | ShowProgressDone | Menu

  datatype StepResult = StepResult(kind: ResultType, stepId: Option<string>)

  datatype InitData = InitData(typeName: string, content: string)

  datatype Outcome =
    | Running
    | Shown(result: StepResult)
    | Finishing(result: StepResult)
    | Finished(result: StepResult)
    | UnknownStep
    | UnknownFlow
    | NotShownYet
    | InvalidInput
    | StepIdMissing

  predicate NotComplete(kind: ResultType) {
    !kind.CreateEntry? && !kind.Abort?
  }

  predicate StepIdOptional(kind: ResultType) {
    kind.ExternalStep? || kind.Form? || kind.Menu? || kind.ShowProgress?
  }

  function WithStepId(r: StepResult, stepId: string): StepResult {
    if StepIdOptional(r.kind) && r.stepId.None? then r.(stepId := Some(stepId)) else r
  }

  /** The step that handles the user's input: a menu's choice, or the step now shown. */
  function NextStep(cur: StepResult, menuChoice: Option<string>): Option<string> {
    if cur.kind.Menu? && menuChoice.Some? then menuChoice else cur.stepId
  }

  /** The step to be run exists: what was chosen in a menu, and else the step now shown. */
  predicate Continues(steps: set<string>, cur: StepResult, menuChoice: Option<string>) {
    match menuChoice
    case Some(choice) => if cur.kind == Menu then choice in steps else cur.stepId.Some? && cur.stepId.value in steps
    case None => cur.stepId.Some? && cur.stepId.value in steps
  }

  class Flow {
    const flowId: FlowId
    const handler: Handler
    const initData: Option<InitData>
    /** The steps the handler implements. */
    const steps: set<string>
    const initStep: string
    var context: map<string, string>
    var curStep: Option<StepResult>

    constructor (flowId: FlowId, handler: Handler, initData: Option<InitData>, steps: set<string>,
                 initStep: string, context: map<string, string>)
      ensures this.flowId == flowId && this.handler == handler && this.initData == initData
      ensures this.steps == steps && this.initStep == initStep && this.context == context && curStep.None?
    {
      this.flowId, this.handler, this.initData, this.steps := flowId, handler, initData, steps;
      this.initStep, this.context, curStep := initStep, context, None;
    }

    predicate HasContext(match_: map<string, string>)
      reads this
    {
      forall k :: k in match_ ==> k in context && context[k] == match_[k]
    }
  }

  function HandlerKey(): Flow -> Option<Handler> {
    (f: Flow) => Some(f.handler)
  }

  function TypeKey(): Flow -> Option<string> {
    (f: Flow) => if f.initData.Some? then Some(f.initData.value.typeName) else None
  }

  class FlowManager {
    var progress: map<FlowId, Flow>
    var handlerIndex: map<Handler, set<Flow>>
    var initDataIndex: map<string, set<Flow>>
    /** The flows removed so far, in order. */
    ghost var removed: seq<FlowId>

    ghost predicate Valid()
      reads this
    {
      && (forall id :: id in progress ==> progress[id].flowId == id)
      && handlerIndex == IndexOf(progress.Values, HandlerKey())
      && initDataIndex == IndexOf(progress.Values, TypeKey())
      && (forall i, j :: 0 <= i < j < |removed| ==> removed[i] != removed[j])
      && (forall id :: id in removed ==> id !in progress)
    }

    constructor ()
      ensures Valid() && progress == map[] && removed == []
    {
      progress, handlerIndex, initDataIndex, removed := map[], map[], map[], [];
    }

    // ------------------------------------------------------------- the tables

    method AddFlowToIndex(flow: Flow)
      modifies this`handlerIndex, this`initDataIndex
      ensures handlerIndex == Add(old(handlerIndex), flow, HandlerKey())
      ensures initDataIndex == Add(old(initDataIndex), flow, TypeKey())
    {
      if flow.initData.Some? {
        var t := flow.initData.value.typeName;
        if t !in initDataIndex { initDataIndex := initDataIndex[t := {}]; }
        initDataIndex := initDataIndex[t := initDataIndex[t] + {flow}];
      }
      if flow.handler !in handlerIndex { handlerIndex := handlerIndex[flow.handler := {}]; }
      handlerIndex := handlerIndex[flow.handler := handlerIndex[flow.handler] + {flow}];
    }

    method AddFlowProgress(flow: Flow)
      requires Valid() && flow.flowId !in progress && flow.flowId !in removed
      modifies this
      ensures Valid() && removed == old(removed)
      ensures progress == old(progress)[flow.flowId := flow]
    {
      hide Add;
      AddExact(progress.Values, flow, HandlerKey());
      AddExact(progress.Values, flow, TypeKey());
      ValuesAfterAdd(progress, flow);
      AddFlowToIndex(flow);
      progress := progress[flow.flowId := flow];
    }

    /** Every lookup and removal in this method would raise `KeyError` if it failed; for a
        flow in progress none does. */
    method RemoveFlowFromIndex(flow: Flow)
      requires Removable(handlerIndex, flow, HandlerKey()) && Removable(initDataIndex, flow, TypeKey())
      modifies this`handlerIndex, this`initDataIndex
      ensures handlerIndex == Remove(old(handlerIndex), flow, HandlerKey())
      ensures initDataIndex == Remove(old(initDataIndex), flow, TypeKey())
    {
      if flow.initData.Some? {
        var t := flow.initData.value.typeName;
        initDataIndex := initDataIndex[t := initDataIndex[t] - {flow}];
        if initDataIndex[t] == {} { initDataIndex := initDataIndex - {t}; }
      }
      var handler := flow.handler;
      handlerIndex := handlerIndex[handler := handlerIndex[handler] - {flow}];
      if handlerIndex[handler] == {} { handlerIndex := handlerIndex - {handler}; }
    }

    /** Removes a flow in progress; any other id, such as that of a flow removed before, is
        unknown and changes nothing. */
    method RemoveFlowProgress(id: FlowId) returns (known: bool)
      requires Valid()
      modifies this
      ensures Valid()
      ensures known == (id in old(progress))
      ensures progress == old(progress) - {id}
      ensures removed == if known then old(removed) + [id] else old(removed)
    {
      if id !in progress { assert progress - {id} == progress; return false; }
      var flow := progress[id];
      RemoveExact(progress.Values, flow, HandlerKey());
      RemoveExact(progress.Values, flow, TypeKey());
      ValuesAfterRemove(progress, id);
      progress := progress - {id};
      RemoveFlowFromIndex(flow);
      removed := removed + [id];
      return true;
    }

    // ------------------------------------------------------------ running flows

    /** Up to the first suspension of `async_init`; the flow id is fresh. */
    method AsyncInit(flow: Flow) returns (o: Outcome)
      requires Valid() && flow.flowId !in progress && flow.flowId !in removed && flow.curStep.None?
      modifies this
      ensures Valid()
      ensures flow.initStep in flow.steps ==>
        o == Running && progress == old(progress)[flow.flowId := flow] && removed == old(removed)
      ensures flow.initStep !in flow.steps ==>
        o == UnknownStep && progress == old(progress) && removed == old(removed) + [flow.flowId]
    {
      AddFlowProgress(flow);
      o := RaiseIfStepDoesNotExist(flow, flow.initStep);
      if o.UnknownStep? { assert progress == old(progress); }
    }

    /** `Running` if the step exists. */
    method RaiseIfStepDoesNotExist(flow: Flow, stepId: string) returns (o: Outcome)
      requires Valid()
      modifies this
      ensures Valid()
      ensures stepId in flow.steps ==> o == Running && progress == old(progress) && removed == old(removed)
      ensures stepId !in flow.steps ==>
        && progress == old(progress) - {flow.flowId}
        && o == (if flow.flowId in old(progress) then UnknownStep else UnknownFlow)
        && removed == (if flow.flowId in old(progress) then old(removed) + [flow.flowId] else old(removed))
    {
      if stepId !in flow.steps {
        var known := RemoveFlowProgress(flow.flowId);
        return if known then UnknownStep else UnknownFlow;
      }
      return Running;
    }

    /** Up to the first suspension of `_async_configure`; `valid` tells whether the input
        passes the schema of the current step, `menuChoice` is the choice made in a menu. */
    method AsyncConfigure(id: FlowId, valid: bool, menuChoice: Option<string>) returns (o: Outcome)
      requires Valid()
      modifies this
      ensures Valid()
      ensures o == old(ConfigureOutcome(id, valid, menuChoice))
      ensures progress == if o.UnknownStep? then old(progress) - {id} else old(progress)
      ensures removed == if o.UnknownStep? then old(removed) + [id] else old(removed)
      ensures o.Running? <==> old(id in progress && progress[id].curStep.Some? && valid
        && Continues(progress[id].steps, progress[id].curStep.value, menuChoice))
    {
      if id !in progress { return UnknownFlow; }
      var flow := progress[id];
      if flow.curStep.None? { return NotShownYet; }
      if !valid { return InvalidInput; }
      var step := NextStep(flow.curStep.value, menuChoice);
      if step.None? { return StepIdMissing; }
      o := RaiseIfStepDoesNotExist(flow, step.value);
    }

    ghost function ConfigureOutcome(id: FlowId, valid: bool, menuChoice: Option<string>): Outcome
      reads this, if id in progress then {progress[id]} else {}
    {
      if id !in progress then UnknownFlow
      else if progress[id].curStep.None? then NotShownYet
      else if !valid then InvalidInput
      else match NextStep(progress[id].curStep.value, menuChoice)
        case None => StepIdMissing
        case Some(step) => if step in progress[id].steps then Running else UnknownStep
    }

    /** The handler's step has returned `raw`, perhaps long after it was started, and perhaps
        after the flow was aborted. A result that does not complete the flow is stored if it
        names a step that exists; any other goes to `async_finish_flow`. */
    method StepReturned(flow: Flow, stepId: string, raw: StepResult) returns (o: Outcome)
      requires Valid()
      modifies this, flow`curStep
      ensures Valid()
      ensures var r := WithStepId(raw, stepId);
        if !NotComplete(r.kind) then
          o == Finishing(r) && progress == old(progress) && removed == old(removed) && flow.curStep == old(flow.curStep)
        else if r.stepId.None? then
          && o == StepIdMissing && progress == old(progress) && removed == old(removed)
          && flow.curStep == old(flow.curStep)
        else if r.stepId.value in flow.steps then
          o == Shown(r) && progress == old(progress) && removed == old(removed) && flow.curStep == Some(r)
        else
          && flow.curStep == old(flow.curStep) && progress == old(progress) - {flow.flowId}
          && o == (if flow.flowId in old(progress) then UnknownStep else UnknownFlow)
          && removed == (if flow.flowId in old(progress) then old(removed) + [flow.flowId] else old(removed))
      ensures o.Finishing? <==> raw.kind == CreateEntry || raw.kind == Abort
      ensures o.Finishing? ==> o.result == raw
      ensures o.Shown? ==>
        && o.result.kind == raw.kind && o.result.stepId.Some? && o.result.stepId.value in flow.steps
        && o.result.stepId == (if raw.stepId.Some? then raw.stepId else Some(stepId))
      ensures o.StepIdMissing? <==> raw.stepId.None? && (raw.kind == ExternalStepDone || raw.kind == ShowProgressDone)
    {
      var result := WithStepId(raw, stepId);
      if NotComplete(result.kind) {
        if result.stepId.None? { return StepIdMissing; }
        o := RaiseIfStepDoesNotExist(flow, result.stepId.value);
        if o.Running? {
          flow.curStep := Some(result);
          return Shown(result);
        }
        return;
      }
      return Finishing(result);
    }

    /** `async_finish_flow` has returned: the flow is shown another form, or it is over. Of a
        flow that was aborted meanwhile the second removal fails. */
    method FinishReturned(flow: Flow, result: StepResult) returns (o: Outcome)
      requires Valid()
      modifies this, flow`curStep
      ensures Valid()
      ensures result.kind.Form? ==>
        o == Shown(result) && flow.curStep == Some(result) && progress == old(progress) && removed == old(removed)
      ensures !result.kind.Form? ==>
        && flow.curStep == old(flow.curStep) && progress == old(progress) - {flow.flowId}
        && o == (if flow.flowId in old(progress) then Finished(result) else UnknownFlow)
        && removed == (if flow.flowId in old(progress) then old(removed) + [flow.flowId] else old(removed))
    {
      if result.kind.Form? {
        flow.curStep := Some(result);
        return Shown(result);
      }
      var known := RemoveFlowProgress(flow.flowId);
      return if known then Finished(result) else UnknownFlow;
    }

    method AsyncAbort(id: FlowId) returns (known: bool)
      requires Valid()
      modifies this
      ensures Valid() && known == (id in old(progress))
      ensures progress == old(progress) - {id}
      ensures removed == if known then old(removed) + [id] else old(removed)
    {
      known := RemoveFlowProgress(id);
    }

    // ------------------------------------------------------------------- lookups

    /** The same flows as a scan of all flows in progress. */
    method AsyncProgressByHandler(handler: Handler, match_: map<string, string>) returns (flows: set<Flow>)
      requires Valid()
      ensures flows == set f | f in progress.Values && f.handler == handler && f.HasContext(match_)
    {
      var bucket := if handler in handlerIndex then handlerIndex[handler] else {};
      BucketIsScan(progress.Values, HandlerKey(), handler, handlerIndex);
      if match_ == map[] { return bucket; }
      flows := set f | f in bucket && f.HasContext(match_);
    }

    method AsyncHasMatchingFlow(handler: Handler, match_: map<string, string>, data: Option<InitData>)
        returns (found: bool)
      requires Valid()
      ensures found <==>
        exists f :: f in progress.Values && f.handler == handler && f.HasContext(match_) && f.initData == data
    {
      BucketIsScan(progress.Values, HandlerKey(), handler, handlerIndex);
      if handler !in handlerIndex { return false; }
      found := exists f :: f in handlerIndex[handler] && f.HasContext(match_) && f.initData == data;
    }

    method AsyncProgressByInitDataType(typeName: string, matcher: InitData -> bool) returns (flows: set<Flow>)
      requires Valid()
      ensures flows == set f | f in progress.Values && f.initData.Some?
                            && f.initData.value.typeName == typeName && matcher(f.initData.value)
    {
      BucketIsScan(progress.Values, TypeKey(), typeName, initDataIndex);
      var bucket := if typeName in initDataIndex then initDataIndex[typeName] else {};
      flows := set f | f in bucket && f.initData.Some? && matcher(f.initData.value);
    }
  }

  lemma BucketIsScan<V>(items: set<V>, key: V -> Option<string>, k: string, index: map<string, set<V>>)
    requires index == IndexOf(items, key)
    ensures (if k in index then index[k] else {}) == Bucket(items, key, k)
  {
    ExactIffLookups(index, items, key);
  }

  lemma ValuesAfterAdd(progress: map<FlowId, Flow>, flow: Flow)
    requires flow.flowId !in progress
    ensures progress[flow.flowId := flow].Values == progress.Values + {flow}
  {
    var r := progress[flow.flowId := flow];
    assert r[flow.flowId] == flow;
    forall f | f in progress.Values ensures f in r.Values {
      var id :| id in progress && progress[id] == f;
      assert r[id] == f;
    }
  }

  lemma ValuesAfterRemove(progress: map<FlowId, Flow>, id: FlowId)
    requires id in progress && forall i :: i in progress ==> progress[i].flowId == i
    ensures (progress - {id}).Values == progress.Values - {progress[id]}
  {
    var r := progress - {id};
    forall f | f in progress.Values && f != progress[id] ensures f in r.Values {
      var i :| i in progress && progress[i] == f;
      assert r[i] == f;
    }
  }
}
