/** The line protocol between the application and the process that runs one collector plugin.

    The parent never compares the id in a response with the id it sent. Pairing rests on the
    lock, on one line out per line in, and on abandoning the process after a failed exchange;
    but the parent does not abandon it after every line that it cannot use. */
module WorkerPipe {
  import opened Options

  datatype Request = Request(id: nat, payload: string)

  /** A line that is no response, by what the parent makes of it: the JSON decoder rejects it; or
      the parent fails on it in some other way, because it is bad UTF-8, nested too deep, has an
      integer with too many digits, or is JSON but no object; or it is some JSON object, which the
      parent takes for the response. */
  datatype StrayKind = Undecodable | NoObject | AnObject

  /** A complete response, or a line that a crash cut short or a plugin wrote past the protocol. */
  datatype Line = Reply(request: Request, ok: bool, result: string) | Stray(kind: StrayKind)

  /** One worker process and the two pipes that only this process and the parent share. */
  datatype Worker = Worker(alive: bool, requests: seq<Request>, busy: Option<Request>, responses: seq<Line>)

  /** Where a task is inside `request`. */
  datatype Caller =
    | Waiting(payload: string)
    | Locked(payload: string)
    | Started(payload: string, worker: nat)
    | Reading(request: Request, worker: nat)
    | Killed

  datatype Exchange = Exchange(request: Request, line: Line)

  /** `answers` lists the lines that were taken as answers, `handled` the requests that some
      worker took from its pipe, `read` the lines that the parent read. */
  datatype State = State(process: Option<nat>, lock: Option<nat>, nextId: nat, spawned: nat,
                         workers: map<nat, Worker>, callers: map<nat, Caller>,
                         answers: seq<Exchange>, handled: seq<Request>, read: seq<Line>)

  datatype Step =
    | Ask(caller: nat, payload: string)
    | Acquire(caller: nat)
    | Begin(caller: nat, noticed: bool) // whether the death of a dead worker has been noticed
    | SpawnFails(caller: nat)
    | BadPayload(caller: nat)
    | Send(caller: nat)
    | SendFails(caller: nat, lingers: bool)
    | GiveUp(caller: nat, lingers: bool) // time out, broken pipe, end of file
    | Receive(caller: nat, lingers: bool)
    | Release(caller: nat)
    | WorkerTakes(worker: nat)
    | WorkerReplies(worker: nat, ok: bool, result: string)
    | WorkerStrays(worker: nat, kind: StrayKind) // while it handles a request
    | WorkerDies(worker: nat, torn: bool)

  const IDLE_WORKER := Worker(true, [], None, [])

  function Initial(): State {
    State(None, None, 0, 0, map[], map[], [], [], [])
  }

  function Leave(s: State, c: nat): State {
    s.(lock := None, callers := s.callers - {c})
  }

  /** `kill` drops the process at once; the process itself may survive the signal for a while. */
  function Kill(s: State, c: nat, w: nat, lingers: bool): State
    requires w in s.workers
  {
    s.(process := None, callers := s.callers[c := Killed],
       workers := s.workers[w := s.workers[w].(alive := s.workers[w].alive && lingers)])
  }

  function Spawn(s: State, c: nat, payload: string): State {
    s.(process := Some(s.spawned), spawned := s.spawned + 1, workers := s.workers[s.spawned := IDLE_WORKER],
       callers := s.callers[c := Started(payload, s.spawned)])
  }

  function BeginStep(s: State, c: nat, noticed: bool): State {
    if c !in s.callers || !s.callers[c].Locked? then s else
    var payload := s.callers[c].payload;
    if s.process.Some? && s.process.value in s.workers && (s.workers[s.process.value].alive || !noticed)
    then s.(callers := s.callers[c := Started(payload, s.process.value)])
    else Spawn(s, c, payload)
  }

  function SendStep(s: State, c: nat): State {
    if c !in s.callers || !s.callers[c].Started? || s.callers[c].worker !in s.workers then s else
    var w := s.callers[c].worker;
    var request := Request(s.nextId + 1, s.callers[c].payload);
    s.(nextId := s.nextId + 1, callers := s.callers[c := Reading(request, w)],
       workers := s.workers[w := s.workers[w].(requests := s.workers[w].requests + [request])])
  }

  function ReceiveStep(s: State, c: nat, lingers: bool): State {
    if c !in s.callers || !s.callers[c].Reading? || s.callers[c].worker !in s.workers then s else
    var w := s.callers[c].worker;
    var worker := s.workers[w];
    if worker.responses == [] then s else
    var line := worker.responses[0];
    var taken := s.(workers := s.workers[w := worker.(responses := worker.responses[1..])], read := s.read + [line]);
    if line == Stray(Undecodable) then Kill(taken, c, w, lingers)
    else if line == Stray(NoObject) then Leave(taken, c) // the failure passes the lock but kills nothing
    else Leave(taken.(answers := s.answers + [Exchange(s.callers[c].request, line)]), c)
  }

  function GiveUpStep(s: State, c: nat, lingers: bool): State {
    if c in s.callers && s.callers[c].Reading? && s.callers[c].worker in s.workers
    then Kill(s, c, s.callers[c].worker, lingers) else s
  }

  function SendFailsStep(s: State, c: nat, lingers: bool): State {
    if c in s.callers && s.callers[c].Started? && s.callers[c].worker in s.workers
    then Kill(s.(nextId := s.nextId + 1), c, s.callers[c].worker, lingers) else s
  }

  function TakeStep(s: State, w: nat): State {
    if w !in s.workers || !s.workers[w].alive || s.workers[w].busy.Some? || s.workers[w].requests == [] then s else
    var worker := s.workers[w];
    s.(workers := s.workers[w := worker.(requests := worker.requests[1..], busy := Some(worker.requests[0]))],
       handled := s.handled + [worker.requests[0]])
  }

  function ReplyStep(s: State, w: nat, ok: bool, result: string): State {
    if w !in s.workers || !s.workers[w].alive || s.workers[w].busy.None? then s else
    var worker := s.workers[w];
    var responses := worker.responses + [Reply(worker.busy.value, ok, result)];
    s.(workers := s.workers[w := worker.(busy := None, responses := responses)])
  }

  function StrayStep(s: State, w: nat, kind: StrayKind): State {
    if w !in s.workers || !s.workers[w].alive || s.workers[w].busy.None? then s else
    s.(workers := s.workers[w := s.workers[w].(responses := s.workers[w].responses + [Stray(kind)])])
  }

  function DieStep(s: State, w: nat, torn: bool): State {
    if w !in s.workers || !s.workers[w].alive then s else
    var worker := s.workers[w];
    var left := if torn && worker.busy.Some? then worker.responses + [Stray(Undecodable)] else worker.responses;
    s.(workers := s.workers[w := worker.(alive := false, busy := None, responses := left)])
  }

  /** A step that is not possible in `s` changes nothing. */
  function Apply(s: State, step: Step): State {
    match step
    case Ask(c, payload) => if c in s.callers then s else s.(callers := s.callers[c := Waiting(payload)])
    case Acquire(c) =>
      if c in s.callers && s.callers[c].Waiting? && s.lock.None?
      then s.(lock := Some(c), callers := s.callers[c := Locked(s.callers[c].payload)]) else s
    case Begin(c, noticed) => BeginStep(s, c, noticed)
    case SpawnFails(c) => if c in s.callers && s.callers[c].Locked? then Leave(s, c) else s
    case BadPayload(c) => if c in s.callers && s.callers[c].Started? then Leave(s.(nextId := s.nextId + 1), c) else s
    case Send(c) => SendStep(s, c)
    case SendFails(c, lingers) => SendFailsStep(s, c, lingers)
    case GiveUp(c, lingers) => GiveUpStep(s, c, lingers)
    case Receive(c, lingers) => ReceiveStep(s, c, lingers)
    case Release(c) => if c in s.callers && s.callers[c].Killed? then Leave(s, c) else s
    case WorkerTakes(w) => TakeStep(s, w)
    case WorkerReplies(w, ok, result) => ReplyStep(s, w, ok, result)
    case WorkerStrays(w, kind) => StrayStep(s, w, kind)
    case WorkerDies(w, torn) => DieStep(s, w, torn)
  }

  function Run(s: State, steps: seq<Step>): State
    decreases |steps|
  {
    if steps == [] then s else Apply(Run(s, steps[..|steps| - 1]), steps[|steps| - 1])
  }

  // ---- what every run keeps

  ghost predicate Quiet(worker: Worker) {
    worker.requests == [] && worker.busy.None? && worker.responses == []
  }

  ghost predicate AllStray(lines: seq<Line>) {
    forall i :: 0 <= i < |lines| ==> lines[i].Stray?
  }

  /** `request` is in exactly one place: on its way, being handled, answered, or lost with the
      worker. A reply is the last line in the pipe. */
  ghost predicate InFlight(worker: Worker, request: Request) {
    || (worker.requests == [request] && worker.busy.None? && worker.responses == [])
    || (worker.requests == [] && worker.busy == Some(request) && AllStray(worker.responses))
    || (worker.requests == [] && worker.busy.None? && worker.responses != []
        && var n := |worker.responses| - 1;
           && AllStray(worker.responses[..n])
           && (if worker.responses[n].Reply? then worker.responses[n].request == request else !worker.alive))
    || (!worker.alive && Quiet(worker))
  }

  ghost predicate Holds(caller: Caller) {
    !caller.Waiting?
  }

  ghost predicate LockInv(s: State) {
    && (forall c :: c in s.callers && Holds(s.callers[c]) ==> s.lock == Some(c))
    && (s.lock.Some? ==> s.lock.value in s.callers && Holds(s.callers[s.lock.value]))
    && (s.process.Some? ==> s.process.value in s.workers)
    && (forall w :: w in s.workers ==> w < s.spawned)
  }

  /** What the holder of the lock, if there is one, may rely on. */
  ghost predicate PipeInv(s: State)
    requires LockInv(s)
  {
    if s.lock.None? then s.process.Some? ==> Quiet(s.workers[s.process.value])
    else match s.callers[s.lock.value]
      case Locked(_) => s.process.Some? ==> Quiet(s.workers[s.process.value])
      case Started(_, w) => s.process == Some(w) && Quiet(s.workers[w])
      case Reading(request, w) => s.process == Some(w) && InFlight(s.workers[w], request) && request.id == s.nextId
      case Killed => s.process.None?
      case Waiting(_) => false
  }

  /** Every stray line that was read is of one of these kinds. */
  ghost predicate ReadsOnly(s: State, kinds: set<StrayKind>) {
    forall i :: 0 <= i < |s.read| ==> s.read[i].Reply? || s.read[i].kind in kinds
  }

  /** Every stray line that was read is one the decoder rejects. */
  ghost predicate Clean(s: State) {
    ReadsOnly(s, {Undecodable})
  }

  /** Every line taken as an answer is the worker's response to that very request. */
  ghost predicate PairsRight(s: State) {
    forall i :: 0 <= i < |s.answers| ==> s.answers[i].line.Reply? && s.answers[i].line.request == s.answers[i].request
  }

  /** Answers are taken in the order of sending. */
  ghost predicate OrderInv(s: State) {
    && (forall i :: 0 <= i < |s.answers| ==> s.answers[i].request.id <= s.nextId)
    && (forall i, j :: 0 <= i < j < |s.answers| ==> s.answers[i].request.id < s.answers[j].request.id)
    && (s.lock.Some? && s.lock.value in s.callers && s.callers[s.lock.value].Reading? ==>
          s.callers[s.lock.value].request.id == s.nextId
          && forall i :: 0 <= i < |s.answers| ==> s.answers[i].request.id < s.nextId)
  }

  ghost predicate Inv(s: State) {
    LockInv(s) && OrderInv(s) && (Clean(s) ==> PipeInv(s) && PairsRight(s))
  }

  lemma CallerStepKeeps(s: State, step: Step)
    requires Inv(s) && !step.Begin? && !step.Receive? && !step.Send?
    requires !step.WorkerTakes? && !step.WorkerReplies? && !step.WorkerDies? && !step.WorkerStrays?
    ensures Inv(Apply(s, step))
  {
  }

  lemma BeginKeeps(s: State, c: nat, noticed: bool)
    requires Inv(s)
    ensures Inv(BeginStep(s, c, noticed))
  {
  }

  lemma SendKeeps(s: State, c: nat)
    requires Inv(s)
    ensures Inv(SendStep(s, c))
  {
  }

  lemma ReceiveKeepsLock(s: State, c: nat, lingers: bool)
    requires LockInv(s)
    ensures LockInv(ReceiveStep(s, c, lingers))
  {
  }

  lemma ReceiveKeepsOrder(s: State, c: nat, lingers: bool)
    requires LockInv(s) && OrderInv(s)
    ensures OrderInv(ReceiveStep(s, c, lingers))
  {
  }

  lemma CleanBefore(s: State, t: State, line: Line)
    requires t.read == s.read + [line] && Clean(t)
    ensures Clean(s) && (line.Reply? || line.kind == Undecodable)
  {
    assert forall i :: 0 <= i < |s.read| ==> t.read[i] == s.read[i];
    assert t.read[|s.read|] == line;
  }

  lemma ReceiveKeepsPairs(s: State, c: nat, lingers: bool)
    requires Inv(s) && Clean(ReceiveStep(s, c, lingers)) && LockInv(ReceiveStep(s, c, lingers))
    ensures PipeInv(ReceiveStep(s, c, lingers)) && PairsRight(ReceiveStep(s, c, lingers))
  {
    var t := ReceiveStep(s, c, lingers);
    if t != s { CleanBefore(s, t, s.workers[s.callers[c].worker].responses[0]); }
  }

  lemma ReceiveKeeps(s: State, c: nat, lingers: bool)
    requires Inv(s)
    ensures Inv(ReceiveStep(s, c, lingers))
  {
    ReceiveKeepsLock(s, c, lingers);
    ReceiveKeepsOrder(s, c, lingers);
    if Clean(ReceiveStep(s, c, lingers)) { ReceiveKeepsPairs(s, c, lingers); }
  }

  lemma TakeKeeps(s: State, w: nat)
    requires Inv(s)
    ensures Inv(TakeStep(s, w))
  {
  }

  lemma ReplyKeeps(s: State, w: nat, ok: bool, result: string)
    requires Inv(s)
    ensures Inv(ReplyStep(s, w, ok, result))
  {
  }

  lemma StrayKeeps(s: State, w: nat, kind: StrayKind)
    requires Inv(s)
    ensures Inv(StrayStep(s, w, kind))
  {
  }

  lemma DieKeeps(s: State, w: nat, torn: bool)
    requires Inv(s)
    ensures Inv(DieStep(s, w, torn))
  {
  }

  /** No request is handled twice, not even by a worker that was given up on and lives on. */
  ghost predicate HandledInv(s: State) {
    && (forall i :: 0 <= i < |s.handled| ==> s.handled[i].id <= s.nextId)
    && (forall i, j :: 0 <= i < j < |s.handled| ==> s.handled[i].id != s.handled[j].id)
    && (forall w, i :: w in s.workers && 0 <= i < |s.workers[w].requests| ==> Unhandled(s, s.workers[w].requests[i]))
    && (forall w :: w in s.workers ==> DistinctIds(s.workers[w].requests))
    && (forall v, w :: v in s.workers && w in s.workers && v != w ==>
      NoCommonIds(s.workers[v].requests, s.workers[w].requests))
  }

  ghost predicate Unhandled(s: State, request: Request) {
    request.id <= s.nextId && forall i :: 0 <= i < |s.handled| ==> s.handled[i].id != request.id
  }

  ghost predicate DistinctIds(requests: seq<Request>) {
    forall i, j :: 0 <= i < j < |requests| ==> requests[i].id != requests[j].id
  }

  ghost predicate NoCommonIds(a: seq<Request>, b: seq<Request>) {
    forall i, j :: 0 <= i < |a| && 0 <= j < |b| ==> a[i].id != b[j].id
  }

  lemma SendKeepsHandled(s: State, c: nat)
    requires HandledInv(s)
    ensures HandledInv(SendStep(s, c))
  {
    var t := SendStep(s, c);
    if t != s { SentIsNew(s, t, s.callers[c].worker, Request(s.nextId + 1, s.callers[c].payload)); }
  }

  lemma SentIsNew(s: State, t: State, w: nat, request: Request)
    requires HandledInv(s) && w in s.workers && request.id == s.nextId + 1 && t.nextId == request.id
             && t.handled == s.handled
    requires t.workers == s.workers[w := s.workers[w].(requests := s.workers[w].requests + [request])]
    ensures HandledInv(t)
  {
    forall v, i | v in t.workers && 0 <= i < |t.workers[v].requests| ensures Unhandled(t, t.workers[v].requests[i]) {
      if v != w || i < |s.workers[w].requests| { assert Unhandled(s, s.workers[v].requests[i]); }
    }
    assert PendingIds(s);
    SentIsDistinct(s, t, w, request);
  }

  /** All ids that wait in a pipe are known, and none waits twice. */
  ghost predicate PendingIds(s: State) {
    && (forall w, i :: w in s.workers && 0 <= i < |s.workers[w].requests| ==> s.workers[w].requests[i].id <= s.nextId)
    && (forall w :: w in s.workers ==> DistinctIds(s.workers[w].requests))
    && (forall v, w :: v in s.workers && w in s.workers && v != w ==>
      NoCommonIds(s.workers[v].requests, s.workers[w].requests))
  }

  lemma SentIsDistinct(s: State, t: State, w: nat, request: Request)
    requires PendingIds(s) && w in s.workers && request.id == s.nextId + 1 && t.nextId == request.id
    requires t.workers == s.workers[w := s.workers[w].(requests := s.workers[w].requests + [request])]
    ensures PendingIds(t)
  {
  }

  lemma TakeKeepsHandled(s: State, w: nat)
    requires HandledInv(s)
    ensures HandledInv(TakeStep(s, w))
  {
    var t := TakeStep(s, w);
    if t != s {
      var request := s.workers[w].requests[0];
      assert Unhandled(s, request);
      TakenIsHandled(s, t, w, request);
    }
  }

  lemma TakenIsHandled(s: State, t: State, w: nat, request: Request)
    requires HandledInv(s) && w in s.workers && s.workers[w].requests != [] && request == s.workers[w].requests[0]
    requires t.nextId == s.nextId && t.handled == s.handled + [request] && t.workers.Keys == s.workers.Keys
    requires t.workers[w].requests == s.workers[w].requests[1..]
    requires forall v :: v in s.workers && v != w ==> t.workers[v].requests == s.workers[v].requests
    ensures HandledInv(t)
  {
    assert Unhandled(s, request) && PendingIds(s);
    forall v, i | v in t.workers && 0 <= i < |t.workers[v].requests| ensures Unhandled(t, t.workers[v].requests[i]) {
      OthersStayUnhandled(s, t, w, request, v, i);
    }
    TakenLeavesDistinct(s, t, w);
  }

  lemma OthersStayUnhandled(s: State, t: State, w: nat, request: Request, v: nat, i: nat)
    requires HandledInv(s) && w in s.workers && s.workers[w].requests != [] && request == s.workers[w].requests[0]
    requires t.nextId == s.nextId && t.handled == s.handled + [request] && v in t.workers && v in s.workers
    requires t.workers[v].requests == if v == w then s.workers[w].requests[1..] else s.workers[v].requests
    requires i < |t.workers[v].requests|
    ensures Unhandled(t, t.workers[v].requests[i])
  {
    if v == w {
      assert Unhandled(s, s.workers[w].requests[i + 1]);
    } else {
      assert Unhandled(s, s.workers[v].requests[i]) && NoCommonIds(s.workers[v].requests, s.workers[w].requests);
    }
  }

  lemma TakenLeavesDistinct(s: State, t: State, w: nat)
    requires PendingIds(s) && w in s.workers && s.workers[w].requests != [] && t.nextId == s.nextId
    requires t.workers.Keys == s.workers.Keys && t.workers[w].requests == s.workers[w].requests[1..]
    requires forall v :: v in s.workers && v != w ==> t.workers[v].requests == s.workers[v].requests
    ensures PendingIds(t)
  {
  }

  ghost predicate NothingSent(s: State, t: State) {
    && t.handled == s.handled && t.nextId >= s.nextId
    && forall w :: w in t.workers && t.workers[w].requests != [] ==>
         w in s.workers && t.workers[w].requests == s.workers[w].requests
  }

  lemma OthersSendNothing(s: State, step: Step)
    requires !step.Send? && !step.WorkerTakes?
    ensures NothingSent(s, Apply(s, step))
  {
  }

  lemma NothingSentKeepsHandled(s: State, t: State)
    requires HandledInv(s) && NothingSent(s, t)
    ensures HandledInv(t)
  {
  }

  lemma WorkerStepKeeps(s: State, step: Step)
    requires Inv(s) && (step.WorkerTakes? || step.WorkerReplies? || step.WorkerDies? || step.WorkerStrays?)
    ensures Inv(Apply(s, step))
  {
    match step
    case WorkerTakes(w) => TakeKeeps(s, w);
    case WorkerReplies(w, ok, result) => ReplyKeeps(s, w, ok, result);
    case WorkerStrays(w, kind) => StrayKeeps(s, w, kind);
    case WorkerDies(w, torn) => DieKeeps(s, w, torn);
  }

  lemma StepKeeps(s: State, step: Step)
    requires Inv(s)
    ensures Inv(Apply(s, step))
  {
    match step
    case Begin(c, noticed) => BeginKeeps(s, c, noticed);
    case Send(c) => SendKeeps(s, c);
    case Receive(c, lingers) => ReceiveKeeps(s, c, lingers);
    case WorkerTakes(_) => WorkerStepKeeps(s, step);
    case WorkerReplies(_, _, _) => WorkerStepKeeps(s, step);
    case WorkerStrays(_, _) => WorkerStepKeeps(s, step);
    case WorkerDies(_, _) => WorkerStepKeeps(s, step);
    case _ => CallerStepKeeps(s, step);
  }

  lemma StepKeepsHandled(s: State, step: Step)
    requires HandledInv(s)
    ensures HandledInv(Apply(s, step))
  {
    match step
    case Send(c) => SendKeepsHandled(s, c);
    case WorkerTakes(w) => TakeKeepsHandled(s, w);
    case _ =>
      OthersSendNothing(s, step);
      NothingSentKeepsHandled(s, Apply(s, step));
  }

  lemma {:induction false} RunKeeps(steps: seq<Step>)
    ensures Inv(Run(Initial(), steps)) && HandledInv(Run(Initial(), steps))
    decreases |steps|
  {
    if steps != [] {
      RunKeeps(steps[..|steps| - 1]);
      StepKeeps(Run(Initial(), steps[..|steps| - 1]), steps[|steps| - 1]);
      StepKeepsHandled(Run(Initial(), steps[..|steps| - 1]), steps[|steps| - 1]);
    }
  }

  /** Nobody is left waiting in the pipes: while nobody holds the lock, both pipes of the current
      worker are empty and it is doing nothing. */
  ghost predicate PipesEmptyWhenFree(s: State) {
    s.lock.None? && s.process.Some? ==> s.process.value in s.workers && Quiet(s.workers[s.process.value])
  }

  /** Whatever crashes, restarts and time-outs a run has seen: while nobody holds the lock the
      pipes are empty, if the decoder rejected every stray line that was read. */
  lemma PipesAreEmptyBetweenRequests(steps: seq<Step>)
    ensures Clean(Run(Initial(), steps)) ==> PipesEmptyWhenFree(Run(Initial(), steps))
  {
    RunKeeps(steps);
  }

  /** Then a response that `request` takes is the worker's response to that very request, although
      the ids are never compared. In every run answers are taken in the order of sending. */
  lemma ResponsesAnswerTheirRequests(steps: seq<Step>)
    ensures Clean(Run(Initial(), steps)) ==> PairsRight(Run(Initial(), steps))
    ensures var answers := Run(Initial(), steps).answers;
            forall i, j :: 0 <= i < j < |answers| ==> answers[i].request.id < answers[j].request.id
  {
    RunKeeps(steps);
  }

  /** What a live worker's line does to the pipes: reading it leaves them empty for the next
      request, or kills the worker, exactly if it is a response or rejected by the decoder. */
  lemma ReadingDecides(steps: seq<Step>, c: nat, lingers: bool)
    requires var s := Run(Initial(), steps);
             && Clean(s) && c in s.callers && s.callers[c].Reading?
             && (s.callers[c].worker in s.workers ==>
                   s.workers[s.callers[c].worker].alive && s.workers[s.callers[c].worker].responses != [])
    ensures var s := Run(Initial(), steps);
            && s.callers[c].worker in s.workers
            && var line := s.workers[s.callers[c].worker].responses[0];
               PipesEmptyWhenFree(ReceiveStep(s, c, lingers)) <==> line.Reply? || line.kind == Undecodable
  {
    var s := Run(Initial(), steps);
    RunKeeps(steps);
    ReadingDecidesIn(s, c, lingers);
  }

  lemma ReadingDecidesIn(s: State, c: nat, lingers: bool)
    requires LockInv(s) && PipeInv(s) && c in s.callers && s.callers[c].Reading?
    requires s.callers[c].worker in s.workers ==>
               s.workers[s.callers[c].worker].alive && s.workers[s.callers[c].worker].responses != []
    ensures s.callers[c].worker in s.workers
    ensures var line := s.workers[s.callers[c].worker].responses[0];
            PipesEmptyWhenFree(ReceiveStep(s, c, lingers)) <==> line.Reply? || line.kind == Undecodable
  {
  }

  lemma RequestsAreHandledAtMostOnce(steps: seq<Step>)
    ensures var handled := Run(Initial(), steps).handled;
            forall i, j :: 0 <= i < j < |handled| ==> handled[i].id != handled[j].id
  {
    RunKeeps(steps);
  }

  /** An undisturbed exchange with a live worker completes and leaves the worker in place. */
  lemma UndisturbedExchange(s: State, c: nat, ok: bool, result: string)
    requires Inv(s) && Clean(s) && c in s.callers && s.callers[c].Started? && s.workers[s.callers[c].worker].alive
    ensures var w := s.callers[c].worker;
            var request := Request(s.nextId + 1, s.callers[c].payload);
            var done := Run(s, [Send(c), WorkerTakes(w), WorkerReplies(w, ok, result), Receive(c, false)]);
            && done.answers == s.answers + [Exchange(request, Reply(request, ok, result))]
            && done.lock.None? && done.process == Some(w) && done.workers == s.workers
  {
    RunExchange(s, c, s.callers[c].worker, ok, result);
    ExchangeWithQuiet(s, c, s.callers[c].worker, s.callers[c].payload, ok, result);
  }

  lemma RunExchange(s: State, c: nat, w: nat, ok: bool, result: string)
    ensures Run(s, [Send(c), WorkerTakes(w), WorkerReplies(w, ok, result), Receive(c, false)])
            == ReceiveStep(ReplyStep(TakeStep(SendStep(s, c), w), w, ok, result), c, false)
  {
    RunFour(s, [Send(c), WorkerTakes(w), WorkerReplies(w, ok, result), Receive(c, false)]);
  }

  lemma ExchangeWithQuiet(s: State, c: nat, w: nat, payload: string, ok: bool, result: string)
    requires c in s.callers && s.callers[c] == Started(payload, w) && w in s.workers && s.workers[w] == IDLE_WORKER
    ensures var request := Request(s.nextId + 1, payload);
            var done := ReceiveStep(ReplyStep(TakeStep(SendStep(s, c), w), w, ok, result), c, false);
            && done.answers == s.answers + [Exchange(request, Reply(request, ok, result))]
            && done.lock.None? && done.process == s.process && done.workers == s.workers
  {
    var request := Request(s.nextId + 1, payload);
    SendToQuiet(s, c, w, payload);
    TakeAndReply(SendStep(s, c), w, request, ok, result);
    ReceiveOne(ReplyStep(TakeStep(SendStep(s, c), w), w, ok, result), c, w, request, ok, result);
  }

  lemma SendToQuiet(s: State, c: nat, w: nat, payload: string)
    requires c in s.callers && s.callers[c] == Started(payload, w) && w in s.workers && s.workers[w] == IDLE_WORKER
    ensures var request := Request(s.nextId + 1, payload);
            SendStep(s, c) == s.(nextId := s.nextId + 1, callers := s.callers[c := Reading(request, w)],
                                 workers := s.workers[w := Worker(true, [request], None, [])])
  {
    assert [] + [Request(s.nextId + 1, payload)] == [Request(s.nextId + 1, payload)];
  }

  lemma ReceiveOne(s: State, c: nat, w: nat, request: Request, ok: bool, result: string)
    requires c in s.callers && s.callers[c] == Reading(request, w)
    requires w in s.workers && s.workers[w] == Worker(true, [], None, [Reply(request, ok, result)])
    ensures ReceiveStep(s, c, false)
            == s.(lock := None, callers := s.callers - {c}, workers := s.workers[w := IDLE_WORKER],
                  answers := s.answers + [Exchange(request, Reply(request, ok, result))],
                  read := s.read + [Reply(request, ok, result)])
  {
    assert s.workers[w].responses[1..] == [];
  }

  lemma TakeAndReply(s: State, w: nat, request: Request, ok: bool, result: string)
    requires w in s.workers && s.workers[w] == Worker(true, [request], None, [])
    ensures ReplyStep(TakeStep(s, w), w, ok, result)
            == s.(workers := s.workers[w := Worker(true, [], None, [Reply(request, ok, result)])],
                  handled := s.handled + [request])
  {
    assert s.workers[w].requests[1..] == [];
    assert [] + [Reply(request, ok, result)] == [Reply(request, ok, result)];
  }

  lemma RunFour(s: State, steps: seq<Step>)
    requires |steps| == 4
    ensures Run(s, steps) == Apply(Apply(Apply(Apply(s, steps[0]), steps[1]), steps[2]), steps[3])
  {
    assert steps[..3][..2] == steps[..2] && steps[..2][..1] == steps[..1] && steps[..1][..0] == [];
    assert Run(s, steps[..1]) == Apply(s, steps[0]);
    assert Run(s, steps[..2]) == Apply(Run(s, steps[..1]), steps[1]);
    assert Run(s, steps[..3]) == Apply(Run(s, steps[..2]), steps[2]);
  }

  // ---- stray lines after which the worker is kept

  /** The first caller's request 1 is handled, and the plugin has written a stray line. */
  function AfterStray(kind: StrayKind): State {
    State(Some(0), Some(0), 1, 1, map[0 := Worker(true, [], Some(Request(1, "")), [Stray(kind)])],
          map[0 := Reading(Request(1, ""), 0)], [], [Request(1, "")], [])
  }

  lemma FollowedBy(s: State, steps: seq<Step>, more: seq<Step>)
    ensures Run(s, steps + more) == Run(Run(s, steps), more)
    decreases |more|
  {
    if more == [] {
      assert steps + more == steps;
    } else {
      assert (steps + more)[..|steps + more| - 1] == steps + more[..|more| - 1];
      FollowedBy(s, steps, more[..|more| - 1]);
    }
  }

  lemma TwoSteps(s: State, a: Step, b: Step)
    ensures Run(s, [a, b]) == Apply(Apply(s, a), b)
  {
    assert [a, b][..1] == [a] && [a][..0] == [];
    assert Run(s, [a]) == Apply(s, a);
  }

  lemma TwoStepsTo(s: State, a: Step, b: Step, t: State, u: State)
    requires Apply(s, a) == t && Apply(t, b) == u
    ensures Run(s, [a, b]) == u
  {
    TwoSteps(s, a, b);
  }

  /** A caller whose request was sent to worker 0. */
  function Sent(s: State, c: nat, id: nat, responses: seq<Line>): State {
    s.(process := Some(0), lock := Some(c), nextId := id, spawned := 1,
       callers := map[c := Reading(Request(id, ""), 0)],
       workers := map[0 := Worker(true, [Request(id, "")], None, responses)])
  }

  lemma Locks(s: State, c: nat)
    requires s.callers == map[] && s.lock.None?
    ensures Run(s, [Ask(c, ""), Acquire(c)]) == s.(lock := Some(c), callers := map[c := Locked("")])
  {
    TwoSteps(s, Ask(c, ""), Acquire(c));
    assert Apply(s, Ask(c, "")) == s.(callers := map[c := Waiting("")]);
  }

  lemma FirstSends(s: State)
    requires s == Initial().(lock := Some(0), callers := map[0 := Locked("")])
    ensures Run(s, [Begin(0, true), Send(0)]) == Sent(Initial(), 0, 1, [])
  {
    TwoSteps(s, Begin(0, true), Send(0));
    assert BeginStep(s, 0, true)
           == s.(process := Some(0), spawned := 1, workers := map[0 := IDLE_WORKER],
                 callers := map[0 := Started("", 0)]);
    assert [] + [Request(1, "")] == [Request(1, "")];
  }

  lemma FirstRequestGetsStray(kind: StrayKind) returns (steps: seq<Step>)
    ensures Run(Initial(), steps) == AfterStray(kind)
  {
    var locking, sending, straying :=
      [Ask(0, ""), Acquire(0)], [Begin(0, true), Send(0)], [WorkerTakes(0), WorkerStrays(0, kind)];
    Locks(Initial(), 0);
    FirstSends(Run(Initial(), locking));
    FollowedBy(Initial(), locking, sending);
    TakesAndStrays(kind);
    FollowedBy(Initial(), locking + sending, straying);
    steps := locking + sending + straying;
  }

  /** Worker 0 handles the first request. */
  function Handling(responses: seq<Line>): State {
    var request := Request(1, "");
    Sent(Initial(), 0, 1, []).(workers := map[0 := Worker(true, [], Some(request), responses)], handled := [request])
  }

  lemma TakesFirst()
    ensures TakeStep(Sent(Initial(), 0, 1, []), 0) == Handling([])
  {
    var sent := Sent(Initial(), 0, 1, []);
    assert sent.workers[0].requests[1..] == [] && sent.handled + [Request(1, "")] == [Request(1, "")];
  }

  lemma StraysFirst(kind: StrayKind)
    ensures StrayStep(Handling([]), 0, kind) == Handling([Stray(kind)])
  {
    assert [] + [Stray(kind)] == [Stray(kind)];
  }

  lemma TakesAndStrays(kind: StrayKind)
    ensures Run(Sent(Initial(), 0, 1, []), [WorkerTakes(0), WorkerStrays(0, kind)]) == AfterStray(kind)
  {
    TakesFirst();
    StraysFirst(kind);
    TwoStepsTo(Sent(Initial(), 0, 1, []), WorkerTakes(0), WorkerStrays(0, kind), Handling([]), AfterStray(kind));
  }

  /** The first caller has failed on the line, and the worker has answered all the same. */
  function AnsweredLate(): State {
    State(Some(0), None, 1, 1, map[0 := Worker(true, [], None, [Reply(Request(1, ""), true, "")])],
          map[], [], [Request(1, "")], [Stray(NoObject)])
  }

  lemma FailsAndIsAnswered()
    ensures Run(AfterStray(NoObject), [Receive(0, false), WorkerReplies(0, true, "")]) == AnsweredLate()
  {
    var s := AfterStray(NoObject);
    TwoSteps(s, Receive(0, false), WorkerReplies(0, true, ""));
    assert s.workers[0].responses[1..] == [] && [] + [Stray(NoObject)] == [Stray(NoObject)];
    assert ReceiveStep(s, 0, false)
           == s.(lock := None, callers := map[], workers := map[0 := Worker(true, [], Some(Request(1, "")), [])],
                 read := [Stray(NoObject)]);
    assert [] + [Reply(Request(1, ""), true, "")] == [Reply(Request(1, ""), true, "")];
  }

  /** A line that is no JSON object ends the first request with an error; the worker is kept, its
      response arrives, and the second request takes it. */
  lemma NoObjectMispairs() returns (steps: seq<Step>)
    ensures var s := Run(Initial(), steps);
            && s.read == [Stray(NoObject), Reply(Request(1, ""), true, "")]
            && s.answers == [Exchange(Request(2, ""), Reply(Request(1, ""), true, ""))]
  {
    var before := FirstRequestGetsStray(NoObject);
    var failing := [Receive(0, false), WorkerReplies(0, true, "")];
    FailsAndIsAnswered();
    FollowedBy(Initial(), before, failing);
    var more := SecondRequestReads();
    FollowedBy(Initial(), before + failing, more);
    steps := before + failing + more;
  }

  lemma SecondRequestReads() returns (steps: seq<Step>)
    ensures Run(AnsweredLate(), steps).read == [Stray(NoObject), Reply(Request(1, ""), true, "")]
    ensures Run(AnsweredLate(), steps).answers == [Exchange(Request(2, ""), Reply(Request(1, ""), true, ""))]
  {
    var locking, sending := [Ask(1, ""), Acquire(1)], [Begin(1, true), Send(1)];
    Locks(AnsweredLate(), 1);
    SecondSends(Run(AnsweredLate(), locking));
    FollowedBy(AnsweredLate(), locking, sending);
    FollowedBy(AnsweredLate(), locking + sending, [Receive(1, false)]);
    var sent := Sent(AnsweredLate(), 1, 2, [Reply(Request(1, ""), true, "")]);
    assert [Receive(1, false)][..0] == [] && Run(sent, [Receive(1, false)]) == ReceiveStep(sent, 1, false);
    steps := locking + sending + [Receive(1, false)];
  }

  lemma SecondSends(s: State)
    requires s == AnsweredLate().(lock := Some(1), callers := map[1 := Locked("")])
    ensures Run(s, [Begin(1, true), Send(1)]) == Sent(AnsweredLate(), 1, 2, [Reply(Request(1, ""), true, "")])
  {
    TwoSteps(s, Begin(1, true), Send(1));
    assert BeginStep(s, 1, true) == s.(callers := map[1 := Started("", 0)]);
    assert [] + [Request(2, "")] == [Request(2, "")];
  }

  /** A JSON object is itself taken for the response. */
  lemma ObjectMispairs() returns (steps: seq<Step>)
    ensures var s := Run(Initial(), steps);
            s.read == [Stray(AnObject)] && s.answers == [Exchange(Request(1, ""), Stray(AnObject))]
  {
    var before := FirstRequestGetsStray(AnObject);
    FollowedBy(Initial(), before, [Receive(0, false)]);
    assert [Receive(0, false)][..0] == [];
    assert Run(AfterStray(AnObject), [Receive(0, false)]) == ReceiveStep(AfterStray(AnObject), 0, false);
    steps := before + [Receive(0, false)];
  }

  /** Requests and responses pair right in all runs exactly if every kind of stray line that the
      parent may read is one that the decoder rejects. */
  lemma PairsStayRightExactly(kinds: set<StrayKind>)
    ensures (forall steps :: ReadsOnly(Run(Initial(), steps), kinds) ==> PairsRight(Run(Initial(), steps)))
            <==> kinds <= {Undecodable}
  {
    if kinds <= {Undecodable} {
      forall steps | ReadsOnly(Run(Initial(), steps), kinds) ensures PairsRight(Run(Initial(), steps)) {
        OnlyUndecodableIsClean(Run(Initial(), steps), kinds);
        ResponsesAnswerTheirRequests(steps);
      }
    } else {
      var steps := SomeMispairing(kinds);
      assert ReadsOnly(Run(Initial(), steps), kinds) && !PairsRight(Run(Initial(), steps));
    }
  }

  lemma OnlyUndecodableIsClean(s: State, kinds: set<StrayKind>)
    requires kinds <= {Undecodable} && ReadsOnly(s, kinds)
    ensures Clean(s)
  {
    forall i | 0 <= i < |s.read| ensures s.read[i].Reply? || s.read[i].kind in {Undecodable} {}
  }

  lemma SomeMispairing(kinds: set<StrayKind>) returns (steps: seq<Step>)
    requires !(kinds <= {Undecodable})
    ensures ReadsOnly(Run(Initial(), steps), kinds) && !PairsRight(Run(Initial(), steps))
  {
    if NoObject in kinds {
      steps := NoObjectMispairs();
    } else {
      var kind :| kind in kinds && kind != Undecodable;
      assert kind == AnObject;
      steps := ObjectMispairs();
    }
    assert Run(Initial(), steps).answers[0].line != Reply(Run(Initial(), steps).answers[0].request, true, "");
  }

  // ---- a cancelled reader

  /** A task that has reached the worker `w` while an earlier response is still in its pipe,
      which the protocol above never allows: a task cancelled while reading would leave so. */
  ghost predicate LeftBehind(s: State, c: nat, w: nat, stale: Line) {
    && c in s.callers && s.callers[c].Started? && s.callers[c].worker == w
    && w in s.workers && s.workers[w] == Worker(true, [], None, [stale]) && stale.Reply? && stale.request.id <= s.nextId
  }

  /** Such a task would be given the stale response: nothing but an empty pipe keeps pairs right. */
  lemma StaleResponseWouldBeTaken(s: State, c: nat, w: nat, stale: Line)
    requires LeftBehind(s, c, w, stale)
    ensures var done := ReceiveStep(SendStep(s, c), c, false);
            |done.answers| == |s.answers| + 1
            && var last := done.answers[|s.answers|];
               last.line == stale && last.line.request != last.request
  {
  }

  /** Leaving the lock while reading, without abandoning the worker, leads there. */
  lemma CancelledReaderLeavesBehind(s: State, c: nat, w: nat, stale: Line, d: nat, payload: string)
    requires Inv(s) && Clean(s) && c in s.callers && s.callers[c].Reading? && s.callers[c].worker == w
             && d !in s.callers
    requires s.workers[w] == Worker(true, [], None, [stale]) && stale.Reply?
    ensures LeftBehind(BeginStep(Apply(Apply(Leave(s, c), Ask(d, payload)), Acquire(d)), d, true), d, w, stale)
  {
  }

  // ---- failed exchanges

  /** The steps by which an exchange fails: a time-out or a closed pipe while reading, a pipe that
      fails while writing, and a line that the decoder rejects. */
  ghost predicate Fails(s: State, step: Step, c: nat, lingers: bool) {
    c in s.callers &&
    match s.callers[c]
    case Reading(_, w) =>
      w in s.workers && (step == GiveUp(c, lingers)
        || (step == Receive(c, lingers) && [Stray(Undecodable)] <= s.workers[w].responses))
    case Started(_, w) => w in s.workers && step == SendFails(c, lingers)
    case _ => false
  }

  /** The parent drops the worker, which is dead from then on unless it survives the signal; no
      other worker and no other task is touched, and the lock is kept. */
  lemma FailedExchangeDropsWorker(s: State, step: Step, c: nat, lingers: bool)
    requires Fails(s, step, c, lingers)
    ensures var w, t := s.callers[c].worker, Apply(s, step);
            && t.process.None? && t.lock == s.lock && t.spawned == s.spawned && t.answers == s.answers
            && t.callers == s.callers[c := Killed]
            && w in t.workers && (t.workers[w].alive <==> s.workers[w].alive && lingers)
            && t.workers[w].requests == s.workers[w].requests && t.workers[w].busy == s.workers[w].busy
            && t.nextId == s.nextId + (if step.SendFails? then 1 else 0)
            && forall v :: v in s.workers && v != w ==> v in t.workers && t.workers[v] == s.workers[v]
  {
  }

  /** Leaving, whether after a failed exchange or before anything was sent, frees the lock and
      touches no worker. A request that cannot be encoded has used up its id. */
  lemma LeavingFreesTheLock(s: State, step: Step, c: nat)
    requires c in s.callers
    requires || (step == Release(c) && s.callers[c].Killed?) || (step == SpawnFails(c) && s.callers[c].Locked?)
             || (step == BadPayload(c) && s.callers[c].Started?)
    ensures var t := Apply(s, step);
            && t.lock.None? && c !in t.callers && t.process == s.process && t.workers == s.workers
            && t.nextId == s.nextId + (if step.BadPayload? then 1 else 0)
            && forall d :: d in s.callers && d != c ==> d in t.callers && t.callers[d] == s.callers[d]
  {
  }

  /** The next task after a failed exchange gets the lock and a fresh worker with empty pipes. */
  lemma NextTaskGetsFreshWorker(s: State, c: nat, d: nat, payload: string, noticed: bool)
    requires LockInv(s) && s.lock == Some(c) && c in s.callers && s.callers[c].Killed? && s.process.None?
    requires d in s.callers && s.callers[d] == Waiting(payload)
    ensures var t := Run(s, [Release(c), Acquire(d)] + [Begin(d, noticed)]);
            && t.lock == Some(d) && t.process == Some(s.spawned) && s.spawned !in s.workers
            && d in t.callers && t.callers[d] == Started(payload, s.spawned)
            && s.spawned in t.workers && t.workers[s.spawned] == Worker(true, [], None, [])
            && forall w :: w in s.workers ==> w in t.workers && t.workers[w] == s.workers[w]
  {
    TwoSteps(s, Release(c), Acquire(d));
    var steps := [Release(c), Acquire(d)];
    assert (steps + [Begin(d, noticed)])[..2] == steps;
  }

  /** Dead workers do nothing, a busy one takes no further request, and one that dies leaves at
      most a torn line behind. */
  lemma WorkerSteps(s: State, w: nat, ok: bool, result: string, kind: StrayKind, torn: bool)
    requires w in s.workers
    ensures !s.workers[w].alive ==>
              && Apply(s, WorkerTakes(w)) == s && Apply(s, WorkerReplies(w, ok, result)) == s
              && Apply(s, WorkerStrays(w, kind)) == s && Apply(s, WorkerDies(w, torn)) == s
    ensures s.workers[w].busy.Some? ==> Apply(s, WorkerTakes(w)) == s
    ensures var t := Apply(s, WorkerDies(w, torn));
            && w in t.workers && !t.workers[w].alive && t.workers[w].requests == s.workers[w].requests
            && (s.workers[w].alive ==> t.workers[w].busy.None?)
            && (t.workers[w].responses == s.workers[w].responses
                || (torn && s.workers[w].busy.Some?
                    && t.workers[w].responses == s.workers[w].responses + [Stray(Undecodable)]))
            && t.process == s.process && t.callers == s.callers && t.lock == s.lock
  {
  }

  // ---- the worker's loop

  /** A line in: empty, rejected by the JSON decoder, one on which the loop fails in some other way
      (JSON but no object, nested too deep and the like), or a request. */
  datatype Input = Blank | Malformed | Unusable | Message(request: Request)

  /** What handling a request gave: a result or an error, how long its encoding is, and whether
      JSON can encode it at all. */
  datatype Outcome = Outcome(ok: bool, text: string, size: nat, encodable: bool)

  const MAX_RESPONSE_BYTES: nat := 8 * 1024 * 1024

  function Answer(request: Request, outcome: Outcome): Line {
    if outcome.size > MAX_RESPONSE_BYTES then Reply(request, false, "ResponseTooLarge")
    else Reply(request, outcome.ok, outcome.text)
  }

  /** The loop fails on this line, and the worker ends without an answer to it. */
  predicate EndsLoop(line: Input, outcome: Outcome) {
    line.Unusable? || (line.Message? && !outcome.encodable)
  }

  /** The positions of the well-formed lines, in order. */
  function Asked(lines: seq<Input>): (positions: seq<nat>)
    ensures forall k :: 0 <= k < |positions| ==> positions[k] < |lines| && lines[positions[k]].Message?
  {
    if lines == [] then [] else
    var n := |lines| - 1;
    if lines[n].Message? then Asked(lines[..n]) + [n] else Asked(lines[..n])
  }

  lemma {:induction false} AskedIsInOrder(lines: seq<Input>)
    ensures forall j, k :: 0 <= j < k < |Asked(lines)| ==> Asked(lines)[j] < Asked(lines)[k]
    ensures forall i :: 0 <= i < |lines| && lines[i].Message? ==> i in Asked(lines)
    decreases |lines|
  {
    if lines != [] { AskedIsInOrder(lines[..|lines| - 1]); }
  }

  /** What the loop writes for `lines`. */
  function Written(lines: seq<Input>, outcomes: seq<Outcome>): seq<Line>
    requires |outcomes| == |lines|
  {
    if lines == [] then [] else
    var n := |lines| - 1;
    var before := Written(lines[..n], outcomes[..n]);
    if lines[n].Message? then before + [Answer(lines[n].request, outcomes[n])] else before
  }

  /** `line` is for this request: its outcome if that fits, and an error otherwise. */
  predicate IsAnswerTo(line: Line, request: Request, outcome: Outcome) {
    && line.Reply? && line.request == request
    && (line.ok <==> outcome.ok && outcome.size <= 8_388_608)
    && line.result == if outcome.size <= 8_388_608 then outcome.text else "ResponseTooLarge"
  }

  /** One line for every well-formed line in, in order, each for its own request. */
  ghost predicate AnswersInOrder(lines: seq<Input>, outcomes: seq<Outcome>, written: seq<Line>)
    requires |outcomes| == |lines|
  {
    var asked := Asked(lines);
    |written| == |asked| && forall k :: 0 <= k < |written| ==>
      IsAnswerTo(written[k], lines[asked[k]].request, outcomes[asked[k]])
  }

  lemma {:induction false} OneLineOutPerLineIn(lines: seq<Input>, outcomes: seq<Outcome>)
    requires |outcomes| == |lines|
    ensures AnswersInOrder(lines, outcomes, Written(lines, outcomes))
    decreases |lines|
  {
    if lines != [] {
      var n := |lines| - 1;
      OneLineOutPerLineIn(lines[..n], outcomes[..n]);
      forall k | 0 <= k < |Asked(lines)|
        ensures IsAnswerTo(Written(lines, outcomes)[k], lines[Asked(lines)[k]].request, outcomes[Asked(lines)[k]])
      {
        if k < |Asked(lines[..n])| { assert Asked(lines)[k] == Asked(lines[..n])[k]; }
      }
    }
  }

  /** Answers the lines up to the first one on which the loop ends. */
  method Serve(lines: seq<Input>, outcomes: seq<Outcome>) returns (written: seq<Line>, served: nat)
    requires |outcomes| == |lines|
    ensures served <= |lines|
    ensures forall i :: 0 <= i < served ==> !lines[i].Unusable? && (lines[i].Message? ==> outcomes[i].encodable)
    ensures served < |lines| ==>
              lines[served].Unusable? || (lines[served].Message? && !outcomes[served].encodable)
    ensures AnswersInOrder(lines[..served], outcomes[..served], written)
    ensures written == Written(lines[..served], outcomes[..served])
  {
    written, served := [], 0;
    while served < |lines| && !EndsLoop(lines[served], outcomes[served])
      invariant served <= |lines| && written == Written(lines[..served], outcomes[..served])
      invariant forall i :: 0 <= i < served ==> !EndsLoop(lines[i], outcomes[i])
    {
      assert lines[..served + 1][..served] == lines[..served] && outcomes[..served + 1][..served] == outcomes[..served];
      match lines[served] {
        case Message(request) => written := written + [Answer(request, outcomes[served])];
        case _ =>
      }
      served := served + 1;
    }
    OneLineOutPerLineIn(lines[..served], outcomes[..served]);
  }
}
