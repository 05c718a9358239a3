/**
 The orchestration runtime as a state machine (orchestration.rs, `OrchestrationRuntime`).

 A state holds every field of the runtime together with its environment: the workers that have been spawned
 and not yet reported (`workers`), the completion channel (`inbox`), and a history of submissions, launches
 and deletions (`log`).  Workers are adversarial: any worker may report anything, at any time, and a spawn may
 be refused.
 */
module RuntimeStates {
  import opened Names
  import opened JsonValues
  import opened Reachability
  import opened TaskTypes
  import opened TaskGraphs
  import opened Schedulers

  datatype Completion = Completion(id: Name, report: Report)

  datatype LogEntry = Submitted(id: Name) | Launched(id: Name) | Deleted(id: Name)

  datatype State = State(
    graph: Graph,
    sched: Sched,
    specs: map<Name, ChildTaskSpec>,
    results: map<Name, ChildTaskResult>,
    tokens: map<Name, bool>,  // cancellation tokens; true once cancelled
    nextSequence: nat,
    inbox: seq<Completion>,
    workers: set<Name>,
    log: seq<LogEntry>)

  function Initial(limits: SlotLimits): State {
    State(Graph(map[], []), NewSched(limits), map[], map[], map[], 0, [], {}, [])
  }

  function Scheduled(spec: ChildTaskSpec, priority: nat, sequence: nat): ScheduledTask {
    ScheduledTask(spec.taskId, spec.provider, spec.workspace, spec.environment, priority, sequence)
  }

  // ---- submit ----

  function RelationsFor(spec: ChildTaskSpec): seq<TaskRelation> {
    seq(|spec.dependencies|, i requires 0 <= i < |spec.dependencies| =>
      TaskRelation(spec.dependencies[i], spec.taskId, OnSucceeded))
  }

  function SubmitOutcome(s: State, spec: ChildTaskSpec): Outcome {
    if spec.taskId in s.specs then Err(DuplicateTask)
    else if exists d :: d in spec.dependencies && d !in s.graph.nodes then Err(MissingNode)
    else Ok
  }

  /** An accepted submission. */
  function Admit(s: State, spec: ChildTaskSpec, priority: nat): State {
    var state := if |spec.dependencies| == 0 then Ready else Queued;
    s.(graph := Graph(s.graph.nodes[spec.taskId := state], s.graph.relations + RelationsFor(spec)),
       sched := if state == Ready then Enqueue(s.sched, Scheduled(spec, priority, s.nextSequence + 1)) else s.sched,
       specs := s.specs[spec.taskId := spec],
       nextSequence := s.nextSequence + 1,
       log := s.log + [Submitted(spec.taskId)])
  }

  function Submit(s: State, spec: ChildTaskSpec, priority: nat): State {
    if SubmitOutcome(s, spec) == Ok then Admit(s, spec, priority) else s
  }

  // ---- tick ----

  /** The node state a report leads to. */
  function Verdict(spec: ChildTaskSpec, report: Report): NodeState {
    match report
    case NoResult => Failed
    case Produced(result) =>
      match result.ValidateFor(spec)
      case Ok => Succeeded
      case Err(StaleResult) => Stale
      case Err(UnknownResult) => Unknown
      case Err(_) => Failed
  }

  /** Handles one completion taken from the channel. */
  function Settle(s: State, c: Completion): State
    requires c.id in s.specs
  {
    var state := Verdict(s.specs[c.id], c.report);
    s.(graph := s.graph.(nodes := s.graph.nodes[c.id := state]),
       sched := Finish(s.sched, c.id),
       results := if state == Succeeded then s.results[c.id := c.report.result] else s.results,
       tokens := s.tokens - {c.id})
  }

  /** What `tick` needs in order not to index a missing key. */
  predicate TickDefined(s: State) {
    && (forall c :: c in s.inbox ==> c.id in s.specs)
    && s.graph.nodes.Keys <= s.specs.Keys
    && EndpointsPresent(s.graph)
  }

  function ReapOne(s: State): State
    requires TickDefined(s) && |s.inbox| > 0
  {
    Settle(s.(inbox := s.inbox[1..]), s.inbox[0])
  }

  function Reap(s: State): (r: State)
    requires TickDefined(s)
    ensures TickDefined(r) && r.inbox == []
    decreases |s.inbox|
  {
    if |s.inbox| == 0 then s else Reap(ReapOne(s))
  }

  function EnqueueFresh(s: State, ids: seq<Name>): State
    requires forall id :: id in ids ==> id in s.specs
    decreases |ids|
  {
    if |ids| == 0 then s
    else
      EnqueueFresh(
        s.(sched := Enqueue(s.sched, Scheduled(s.specs[ids[0]], 0, s.nextSequence + 1)),
           nextSequence := s.nextSequence + 1),
        ids[1..])
  }

  /** The nodes a refresh makes ready. */
  function FreshlyReady(g: Graph): set<Name>
    requires EndpointsPresent(g)
  {
    set id | id in g.nodes && Refreshed(g).nodes[id] == Ready && g.nodes[id] != Ready
  }

  function Promote(s: State): State
    requires TickDefined(s)
  {
    EnqueueFresh(s.(graph := Refreshed(s.graph)), SortedNames(FreshlyReady(s.graph)))
  }

  /** Starts the queued task at `index`; a refused spawn reports failure through the channel. */
  function Launch(s: State, index: nat, refused: set<Name>): State
    requires index < |s.sched.ready|
  {
    var id := s.sched.ready[index].id;
    s.(graph := s.graph.(nodes := s.graph.nodes[id := Running]),
       sched := Start(s.sched, index),
       tokens := s.tokens[id := false],
       inbox := if id in refused then s.inbox + [Completion(id, NoResult)] else s.inbox,
       workers := if id in refused then s.workers else s.workers + {id},
       log := s.log + [Launched(id)])
  }

  /** Fills every slot a queued task may use now. */
  function Fill(s: State, now: nat, refused: set<Name>): State
    decreases |s.sched.ready|
  {
    var index := NextIndex(s.sched, now);
    if index == |s.sched.ready| then s
    else if s.sched.ready[index].id in s.specs then Fill(Launch(s, index, refused), now, refused)
    else Fill(s.(sched := Finish(Start(s.sched, index), s.sched.ready[index].id)), now, refused)
  }

  function Tick(s: State, now: nat, refused: set<Name>): State
    requires TickDefined(s)
  {
    Fill(Promote(Reap(s)), now, refused)
  }

  // ---- cancellation ----

  function WithoutAny(tasks: seq<ScheduledTask>, ids: set<Name>): (r: seq<ScheduledTask>)
    ensures forall t :: t in r <==> t in tasks && t.id !in ids
  {
    if |tasks| == 0 then [] else
      assert tasks == [tasks[0]] + tasks[1..];
      (if tasks[0].id in ids then [] else [tasks[0]]) + WithoutAny(tasks[1..], ids)
  }

  function RetainedCancelState(current: NodeState, unconfirmed: bool): NodeState {
    if current == Unknown || unconfirmed then Unknown
    else if current in {Succeeded, Failed, Cancelled} then current
    else Cancelled
  }

  /** A task whose effects cannot be ruled out: a worker may still run it, or its result says so. */
  predicate Unconfirmed(s: State, id: Name) {
    id in s.tokens || (id in s.results && s.results[id].unknown)
  }

  ghost function CancelTree(s: State, root: Name): State {
    var affected := WithDescendants(s.graph.relations, root);
    var below := CancelledBelow(s.graph, root, {});
    s.(sched := s.sched.(ready := WithoutAny(s.sched.ready, affected), running := s.sched.running - affected),
       tokens := map id | id in s.tokens :: s.tokens[id] || id in affected,
       graph := if root in below.nodes
                then below.(nodes := below.nodes[root := RetainedCancelState(below.nodes[root], Unconfirmed(s, root))])
                else below)
  }

  ghost function CancelEach(s: State, ids: seq<Name>): State
    decreases |ids|
  {
    if |ids| == 0 then s else CancelEach(CancelTree(s, ids[0]), ids[1..])
  }

  ghost function CancelAll(s: State): State {
    CancelEach(s, SortedNames(s.specs.Keys))
  }

  // ---- task tree and deletion ----

  /** The part of a task-tree node that decides cancellation and deletion. */
  datatype TreeNode = TreeNode(id: Name, dependencies: seq<Name>, state: NodeState, unknownSideEffects: bool)

  function NodeOf(s: State, id: Name): TreeNode
    requires id in s.specs
  {
    var state := if id in s.graph.nodes then s.graph.nodes[id] else Unknown;
    TreeNode(id, s.specs[id].dependencies, state,
             state == Unknown || (id in s.results && s.results[id].unknown))
  }

  predicate CanDelete(node: TreeNode) {
    && !node.unknownSideEffects
    && node.state in {Succeeded, Failed, Cancelled, Blocked, Stale}
  }

  function RelationsWithout(relations: seq<TaskRelation>, id: Name): (r: seq<TaskRelation>)
    ensures forall q :: q in r <==> q in relations && q.prerequisite != id && q.dependent != id
  {
    if |relations| == 0 then [] else
      assert relations == [relations[0]] + relations[1..];
      (if relations[0].prerequisite != id && relations[0].dependent != id then [relations[0]] else [])
      + RelationsWithout(relations[1..], id)
  }

  function DeleteOutcome(s: State, id: Name): Outcome {
    if id !in s.specs then Err(MissingNode)
    else if !CanDelete(NodeOf(s, id)) then Err(UnknownRecordRetained)
    else Ok
  }

  function Drop(s: State, id: Name): State {
    s.(specs := s.specs - {id},
       results := s.results - {id},
       graph := Graph(s.graph.nodes - {id}, RelationsWithout(s.graph.relations, id)),
       sched := Remove(s.sched, id),
       tokens := s.tokens - {id},
       log := s.log + [Deleted(id)])
  }

  function Delete(s: State, id: Name): State {
    if DeleteOutcome(s, id) == Ok then Drop(s, id) else s
  }

  // ---- environment ----

  /** A worker finishes and its report enters the channel. */
  function DeliverReport(s: State, id: Name, report: Report): State {
    s.(workers := s.workers - {id}, inbox := s.inbox + [Completion(id, report)])
  }

  // ---- runs ----

  datatype Action =
    | DoSubmit(spec: ChildTaskSpec, priority: nat)
    | DoTick(now: nat, refused: set<Name>)
    | DoCancelTree(root: Name)
    | DoCancelAll
    | DoDelete(id: Name)
    | DoSetGlobal(cap: nat)
    | WorkerReports(id: Name, report: Report)

  ghost predicate Step(s: State, action: Action, s': State) {
    match action
    case DoSubmit(spec, priority) => s' == Submit(s, spec, priority)
    case DoTick(now, refused) => TickDefined(s) && s' == Tick(s, now, refused)
    case DoCancelTree(root) => s' == CancelTree(s, root)
    case DoCancelAll => s' == CancelAll(s)
    case DoDelete(id) => s' == Delete(s, id)
    case DoSetGlobal(cap) => s' == s.(sched := SetGlobal(s.sched, cap))
    case WorkerReports(id, report) => id in s.workers && s' == DeliverReport(s, id, report)
  }

  /** A run from an empty runtime: `states[i]` steps to `states[i + 1]` by `actions[i]`. */
  ghost predicate IsRun(limits: SlotLimits, states: seq<State>, actions: seq<Action>) {
    && |states| == |actions| + 1
    && states[0] == Initial(limits)
    && forall i :: 0 <= i < |actions| ==> Step(states[i], actions[i], states[i + 1])
  }

  ghost predicate Reachable(limits: SlotLimits, s: State) {
    exists states, actions :: IsRun(limits, states, actions) && states[|actions|] == s
  }

  lemma InitialReachable(limits: SlotLimits)
    ensures Reachable(limits, Initial(limits))
  {
    assert IsRun(limits, [Initial(limits)], []);
  }

  lemma StepReachable(limits: SlotLimits, s: State, action: Action, s': State)
    requires Reachable(limits, s) && Step(s, action, s')
    ensures Reachable(limits, s')
  {
    var states, actions :| IsRun(limits, states, actions) && states[|actions|] == s;
    assert IsRun(limits, states + [s'], actions + [action]);
  }
}
